/**
 * The truck service (trucks/trucks.service.ts): truck rows scoped by their
 * carrier, the status and location writes, and the one-to-one pairing of a
 * truck with its current driver, kept on both sides (`truck.currentDriver`,
 * `driver.assignedTruck`).
 */
module Trucks {
  import opened Wrappers
  import opened Errors
  import opened Domain
  import opened Schedule
  import Ids
  import Paging
  import Bids

  /** The fields of a new truck that the model keeps; `status` may be left out. */
  datatype TruckInput = TruckInput(licensePlate: string, capacity: real, status: Option<TruckStatus>)

  /** The fields an update may overwrite; `None` leaves a field as it is. */
  datatype TruckPatch = TruckPatch(licensePlate: Option<string>, capacity: Option<real>)

  /** Whether a truck other than `except` already holds the plate (the column is unique). */
  predicate PlateTaken(trucks: map<TruckId, Truck>, plate: string, except: Option<TruckId>) {
    exists t :: t in trucks && trucks[t].licensePlate == plate && Some(t) != except
  }

  /** `createTruck`: a new row for the carrier, available unless a status is supplied. */
  ghost function CreateTruck(db: Db, carrierId: CarrierId, input: TruckInput): (r: Result<(Db, TruckId), Error>)
    ensures r.Failure? <==> PlateTaken(db.trucks, input.licensePlate, None)
    ensures r.Failure? ==> r.error.Internal?
    ensures r.Success? ==>
      var db2, id := r.value.0, r.value.1;
      && id !in db.trucks && id in db2.trucks
      && db2 == db.(trucks := db.trucks[id := db2.trucks[id]])
  {
    if PlateTaken(db.trucks, input.licensePlate, None) then
      Failure(Internal("duplicate key value violates unique constraint on truck.licensePlate"))
    else
      var id := Ids.FreshId(db.trucks);
      var truck := Truck(carrierId, input.licensePlate, input.capacity, input.status.GetOr(Available), [], None, None);
      Success((db.(trucks := db.trucks[id := truck]), id))
  }

  /**
   * The row createTruck inserts: the carrier's, with the given plate and
   * capacity, AVAILABLE unless a status is supplied, holding no commitments,
   * with no driver and no known location.
   */
  lemma CreateTruckRow(db: Db, carrierId: CarrierId, input: TruckInput)
    requires CreateTruck(db, carrierId, input).Success?
    ensures var db2, id := CreateTruck(db, carrierId, input).value.0, CreateTruck(db, carrierId, input).value.1;
      var t := db2.trucks[id];
      && t.carrierId == carrierId
      && t.licensePlate == input.licensePlate
      && t.capacity == input.capacity
      && (input.status.None? ==> t.status == Available)
      && (input.status.Some? ==> t.status == input.status.value)
      && t.commitments == []
      && t.currentDriver.None?
      && t.currentLocation.None?
  {
  }

  /** The lookup by `(id, carrier)` that `findOne`, `delete`, `update`, `assignDriver`, `unassignDriver` and `updateTruckStatus` share. */
  function FindOne(db: Db, truckId: TruckId, carrierId: CarrierId): (r: Result<Truck, Error>)
    ensures r.Success? <==> truckId in db.trucks && db.trucks[truckId].carrierId == carrierId
    ensures r.Success? ==> r.value == db.trucks[truckId]
    ensures r.Failure? ==> r.error == NotFound("Truck not found")
  {
    if truckId in db.trucks && db.trucks[truckId].carrierId == carrierId then Success(db.trucks[truckId])
    else Failure(NotFound("Truck not found"))
  }

  // ---------------------------------------------------------------- delete and update

  /** Whether a bid, a shipment or a driver still references the truck (no delete rule on those keys). */
  predicate TruckReferenced(db: Db, truckId: TruckId) {
    || (exists b :: b in db.bids && db.bids[b].truckId == truckId)
    || (exists s :: s in db.shipments && db.shipments[s].truckId == truckId)
    || (exists d :: d in db.drivers && db.drivers[d].assignedTruck == Some(truckId))
  }

  /** The location-history rows that survive the deletion of a truck (that key cascades). */
  function DropTruckHistory(h: seq<LocationRow>, truckId: TruckId): (r: seq<LocationRow>)
    ensures forall row :: row in r <==> row in h && row.truckId != truckId
  {
    if |h| == 0 then []
    else (if h[0].truckId == truckId then [] else [h[0]]) + DropTruckHistory(h[1..], truckId)
  }

  /** `delete`: the carrier's truck goes, with its history rows; a referenced truck cannot go. */
  function Delete(db: Db, truckId: TruckId, carrierId: CarrierId): (r: Result<Db, Error>)
    ensures r.Success? <==> FindOne(db, truckId, carrierId).Success? && !TruckReferenced(db, truckId)
    ensures FindOne(db, truckId, carrierId).Failure? ==> r == Failure(NotFound("Truck not found"))
    ensures FindOne(db, truckId, carrierId).Success? && r.Failure? ==> r.error.Internal?
    ensures r.Success? ==>
      && r.value == db.(trucks := r.value.trucks, history := r.value.history)
      && r.value.trucks.Keys == db.trucks.Keys - {truckId}
      && (forall t :: t in r.value.trucks ==> r.value.trucks[t] == db.trucks[t])
  {
    var _ :- FindOne(db, truckId, carrierId);
    if TruckReferenced(db, truckId) then
      Failure(Internal("update or delete on table \"truck\" violates foreign key constraint"))
    else
      Success(db.(trucks := db.trucks - {truckId}, history := DropTruckHistory(db.history, truckId)))
  }

  /** The truck with the supplied fields overwritten. */
  function ApplyTruckPatch(t: Truck, p: TruckPatch): Truck {
    t.(licensePlate := p.licensePlate.GetOr(t.licensePlate), capacity := p.capacity.GetOr(t.capacity))
  }

  /** `update`: the supplied fields are copied onto the carrier's truck and saved. */
  function Update(db: Db, truckId: TruckId, carrierId: CarrierId, patch: TruckPatch): (r: Result<(Db, Truck), Error>)
    ensures FindOne(db, truckId, carrierId).Failure? ==> r == Failure(NotFound("Truck not found"))
    ensures r.Success? ==>
      var db2, t := r.value.0, r.value.1;
      && truckId in db.trucks
      && db2 == db.(trucks := db.trucks[truckId := t])
      && (patch.licensePlate.Some? ==> t.licensePlate == patch.licensePlate.value)
      && (patch.licensePlate.None? ==> t.licensePlate == db.trucks[truckId].licensePlate)
      && (patch.capacity.Some? ==> t.capacity == patch.capacity.value)
      && (patch.capacity.None? ==> t.capacity == db.trucks[truckId].capacity)
      && t == db.trucks[truckId].(licensePlate := t.licensePlate, capacity := t.capacity)
  {
    var truck :- FindOne(db, truckId, carrierId);
    var updated := ApplyTruckPatch(truck, patch);
    if PlateTaken(db.trucks, updated.licensePlate, Some(truckId)) then
      Failure(Internal("duplicate key value violates unique constraint on truck.licensePlate"))
    else
      Success((db.(trucks := db.trucks[truckId := updated]), updated))
  }

  /** An update fails only on a missing truck or a plate another truck holds. */
  lemma UpdateFailsOnlyOn(db: Db, truckId: TruckId, carrierId: CarrierId, patch: TruckPatch)
    requires FindOne(db, truckId, carrierId).Success?
    ensures Update(db, truckId, carrierId, patch).Failure?
      <==> PlateTaken(db.trucks, ApplyTruckPatch(db.trucks[truckId], patch).licensePlate, Some(truckId))
  {
  }

  // ---------------------------------------------------------------- listing

  /** The trucks `findTrucksByCarrier` counts: the carrier's, narrowed by the status filter when it is non-empty. */
  function TrucksOfCarrier(db: Db, carrierId: CarrierId, filter: seq<TruckStatus>): (ids: set<TruckId>)
    ensures forall t :: t in ids <==>
      t in db.trucks && db.trucks[t].carrierId == carrierId && (|filter| == 0 || db.trucks[t].status in filter)
  {
    set t | t in db.trucks && db.trucks[t].carrierId == carrierId && (|filter| == 0 || db.trucks[t].status in filter)
  }

  /** A filter naming every status selects the same trucks as no filter at all. */
  lemma FullFilterIsNoFilter(db: Db, carrierId: CarrierId, filter: seq<TruckStatus>)
    requires Available in filter && InMaintenance in filter && OutOfService in filter
    ensures TrucksOfCarrier(db, carrierId, filter) == TrucksOfCarrier(db, carrierId, [])
  {
    forall t | t in TrucksOfCarrier(db, carrierId, [])
      ensures t in TrucksOfCarrier(db, carrierId, filter)
    {
      match db.trucks[t].status
      case Available =>
      case InMaintenance =>
      case OutOfService =>
    }
  }

  /** A filter only ever narrows the carrier's trucks, and never shows another carrier's. */
  lemma FilterNarrows(db: Db, carrierId: CarrierId, filter: seq<TruckStatus>, other: CarrierId)
    requires other != carrierId
    ensures TrucksOfCarrier(db, carrierId, filter) <= TrucksOfCarrier(db, carrierId, [])
    ensures TrucksOfCarrier(db, carrierId, filter) !! TrucksOfCarrier(db, other, [])
  {
  }

  /** A duplicate-free list of exactly the elements of `s`. */
  ghost predicate Lists(order: seq<TruckId>, s: set<TruckId>) {
    && (forall i, j :: 0 <= i < j < |order| ==> order[i] != order[j])
    && (forall t :: t in order <==> t in s)
  }

  /** A duplicate-free listing has as many entries as the set it lists. */
  lemma {:induction false} ListsCard(order: seq<TruckId>, s: set<TruckId>)
    requires Lists(order, s)
    ensures |order| == |s|
    decreases |order|
  {
    if |order| > 0 {
      var rest := order[1..];
      assert order[0] in s by {
        assert order[0] in order;
      }
      assert order[0] !in rest by {
        forall j | 0 <= j < |rest|
          ensures rest[j] != order[0]
        {
          assert rest[j] == order[j + 1];
        }
      }
      assert Lists(rest, s - {order[0]}) by {
        forall i, j | 0 <= i < j < |rest|
          ensures rest[i] != rest[j]
        {
          assert rest[i] == order[i + 1] && rest[j] == order[j + 1];
        }
        forall t
          ensures t in rest <==> t in s - {order[0]}
        {
          assert t in order <==> t == order[0] || t in rest by {
            assert order == [order[0]] + rest;
          }
        }
      }
      ListsCard(rest, s - {order[0]});
      assert |s - {order[0]}| == |s| - 1;
    } else {
      assert forall t :: t !in s;
    }
  }

  /**
   * `findTrucksByCarrier`: one page of the carrier's (filtered) trucks. The
   * database's newest-first order is the input `order`, which lists the
   * matching trucks once each. A limit of 0 lists every truck.
   */
  ghost function FindTrucksByCarrier(db: Db, carrierId: CarrierId, filter: seq<TruckStatus>,
                                     order: seq<TruckId>, page: nat, limit: nat): (pg: Paging.Page<TruckId>)
    requires page >= 1
    requires Lists(order, TrucksOfCarrier(db, carrierId, filter))
    ensures pg.total == |TrucksOfCarrier(db, carrierId, filter)|
    ensures limit >= 1 ==>
      && pg.totalPages.Some?
      && pg.totalPages.value * limit >= pg.total
      && (pg.totalPages.value == 0 || (pg.totalPages.value - 1) * limit < pg.total)
      && |pg.items| <= limit
    ensures limit == 0 ==> pg.items == order && pg.totalPages.None?
    ensures forall i :: 0 <= i < |pg.items| ==> pg.items[i] in TrucksOfCarrier(db, carrierId, filter)
  {
    ListsCard(order, TrucksOfCarrier(db, carrierId, filter));
    WindowWithin(order, TrucksOfCarrier(db, carrierId, filter), page, limit);
    Paging.PageOf(order, page, limit)
  }

  /** Every truck a page shows is one the listing lists. */
  lemma WindowWithin(order: seq<TruckId>, s: set<TruckId>, page: nat, limit: nat)
    requires page >= 1
    requires Lists(order, s)
    ensures forall i :: 0 <= i < |Paging.Window(order, page, limit)| ==> Paging.Window(order, page, limit)[i] in s
  {
    var items := Paging.Window(order, page, limit);
    forall i | 0 <= i < |items|
      ensures items[i] in s
    {
      var k := Paging.Skip(page, limit) + i;
      assert items[i] == order[k];
    }
  }

  // ---------------------------------------------------------------- driver pairing

  /** Each side of the truck–driver pairing points back at the other. */
  ghost predicate Pairing(db: Db) {
    && (forall t :: t in db.trucks && db.trucks[t].currentDriver.Some? ==>
          db.trucks[t].currentDriver.value in db.drivers
          && db.drivers[db.trucks[t].currentDriver.value].assignedTruck == Some(t))
    && (forall d :: d in db.drivers && db.drivers[d].assignedTruck.Some? ==>
          db.drivers[d].assignedTruck.value in db.trucks
          && db.trucks[db.drivers[d].assignedTruck.value].currentDriver == Some(d))
  }

  /** `assignDriver`: both sides of the pairing are set together. */
  function AssignDriver(db: Db, truckId: TruckId, driverId: DriverId, carrierId: CarrierId): Result<(Db, Truck), Error> {
    var truck :- FindOne(db, truckId, carrierId);
    if truck.currentDriver.Some? then
      Failure(Conflict("Truck already has an assigned driver"))
    else if !(driverId in db.drivers && db.drivers[driverId].carrierId == carrierId) then
      Failure(NotFound("Driver not found"))
    else if db.drivers[driverId].assignedTruck.Some? then
      Failure(Conflict("Driver is already assigned to another truck"))
    else
      var paired := truck.(currentDriver := Some(driverId));
      var driver := db.drivers[driverId].(assignedTruck := Some(truckId));
      Success((db.(trucks := db.trucks[truckId := paired], drivers := db.drivers[driverId := driver]), paired))
  }

  /** The guards of `assignDriver`, in order, and the two writes of a successful call. */
  lemma AssignDriverSpec(db: Db, truckId: TruckId, driverId: DriverId, carrierId: CarrierId)
    ensures var r := AssignDriver(db, truckId, driverId, carrierId);
      && (FindOne(db, truckId, carrierId).Failure? ==> r == Failure(NotFound("Truck not found")))
      && (FindOne(db, truckId, carrierId).Success? && db.trucks[truckId].currentDriver.Some? ==>
            r == Failure(Conflict("Truck already has an assigned driver")))
      && (FindOne(db, truckId, carrierId).Success? && db.trucks[truckId].currentDriver.None?
          && !(driverId in db.drivers && db.drivers[driverId].carrierId == carrierId) ==>
            r == Failure(NotFound("Driver not found")))
      && (FindOne(db, truckId, carrierId).Success? && db.trucks[truckId].currentDriver.None?
          && driverId in db.drivers && db.drivers[driverId].carrierId == carrierId
          && db.drivers[driverId].assignedTruck.Some? ==>
            r == Failure(Conflict("Driver is already assigned to another truck")))
      && (r.Success? <==>
            && FindOne(db, truckId, carrierId).Success? && db.trucks[truckId].currentDriver.None?
            && driverId in db.drivers && db.drivers[driverId].carrierId == carrierId
            && db.drivers[driverId].assignedTruck.None?)
      && (r.Success? ==>
            var db2 := r.value.0;
            && db2 == db.(trucks := db2.trucks, drivers := db2.drivers)
            && db2.trucks == db.trucks[truckId := db.trucks[truckId].(currentDriver := Some(driverId))]
            && db2.drivers == db.drivers[driverId := db.drivers[driverId].(assignedTruck := Some(truckId))])
  {
  }

  /** A successful assignment keeps the pairing consistent. */
  lemma AssignDriverKeepsPairing(db: Db, truckId: TruckId, driverId: DriverId, carrierId: CarrierId)
    requires Pairing(db)
    requires AssignDriver(db, truckId, driverId, carrierId).Success?
    ensures Pairing(AssignDriver(db, truckId, driverId, carrierId).value.0)
  {
    var db2 := AssignDriver(db, truckId, driverId, carrierId).value.0;
    forall t | t in db2.trucks && db2.trucks[t].currentDriver.Some?
      ensures db2.trucks[t].currentDriver.value in db2.drivers
      ensures db2.drivers[db2.trucks[t].currentDriver.value].assignedTruck == Some(t)
    {
      if t != truckId {
        assert db.trucks[t].currentDriver.value != driverId;
      }
    }
    forall d | d in db2.drivers && db2.drivers[d].assignedTruck.Some?
      ensures db2.drivers[d].assignedTruck.value in db2.trucks
      ensures db2.trucks[db2.drivers[d].assignedTruck.value].currentDriver == Some(d)
    {
      if d != driverId {
        assert db.drivers[d].assignedTruck.value != truckId;
      }
    }
  }

  /** `unassignDriver`: both sides of the pairing are cleared together. */
  function UnassignDriver(db: Db, truckId: TruckId, carrierId: CarrierId): Result<(Db, Truck), Error> {
    var truck :- FindOne(db, truckId, carrierId);
    if truck.currentDriver.None? then
      Failure(Conflict("Truck does not have an assigned driver"))
    else if truck.currentDriver.value !in db.drivers then
      Failure(NotFound("Driver not found"))
    else
      var d := truck.currentDriver.value;
      var unpaired := truck.(currentDriver := None);
      Success((db.(drivers := db.drivers[d := db.drivers[d].(assignedTruck := None)],
                   trucks := db.trucks[truckId := unpaired]), unpaired))
  }

  /** The guards of `unassignDriver` and the two writes of a successful call. */
  lemma UnassignDriverSpec(db: Db, truckId: TruckId, carrierId: CarrierId)
    ensures var r := UnassignDriver(db, truckId, carrierId);
      && (FindOne(db, truckId, carrierId).Failure? ==> r == Failure(NotFound("Truck not found")))
      && (FindOne(db, truckId, carrierId).Success? && db.trucks[truckId].currentDriver.None? ==>
            r == Failure(Conflict("Truck does not have an assigned driver")))
      && (r.Success? ==>
            var d := db.trucks[truckId].currentDriver.value;
            var db2 := r.value.0;
            && db2 == db.(trucks := db2.trucks, drivers := db2.drivers)
            && db2.trucks == db.trucks[truckId := db.trucks[truckId].(currentDriver := None)]
            && db2.drivers == db.drivers[d := db.drivers[d].(assignedTruck := None)])
  {
  }

  /** Under a consistent pairing, unassignment succeeds whenever the carrier's truck has a driver. */
  lemma UnassignDriverSucceeds(db: Db, truckId: TruckId, carrierId: CarrierId)
    requires Pairing(db)
    requires FindOne(db, truckId, carrierId).Success? && db.trucks[truckId].currentDriver.Some?
    ensures UnassignDriver(db, truckId, carrierId).Success?
  {
  }

  /** A successful unassignment keeps the pairing consistent. */
  lemma UnassignDriverKeepsPairing(db: Db, truckId: TruckId, carrierId: CarrierId)
    requires Pairing(db)
    requires UnassignDriver(db, truckId, carrierId).Success?
    ensures Pairing(UnassignDriver(db, truckId, carrierId).value.0)
  {
    var db2 := UnassignDriver(db, truckId, carrierId).value.0;
    var d := db.trucks[truckId].currentDriver.value;
    forall t | t in db2.trucks && db2.trucks[t].currentDriver.Some?
      ensures db2.trucks[t].currentDriver.value in db2.drivers
      ensures db2.drivers[db2.trucks[t].currentDriver.value].assignedTruck == Some(t)
    {
      assert t != truckId;
      assert db.trucks[t].currentDriver.value != d;
    }
    forall d' | d' in db2.drivers && db2.drivers[d'].assignedTruck.Some?
      ensures db2.drivers[d'].assignedTruck.value in db2.trucks
      ensures db2.trucks[db2.drivers[d'].assignedTruck.value].currentDriver == Some(d')
    {
      assert d' != d;
      assert db.drivers[d'].assignedTruck.value != truckId;
    }
  }

  /** Unassigning right after an assignment restores the database exactly. */
  lemma UnassignUndoesAssign(db: Db, truckId: TruckId, driverId: DriverId, carrierId: CarrierId)
    requires AssignDriver(db, truckId, driverId, carrierId).Success?
    ensures UnassignDriver(AssignDriver(db, truckId, driverId, carrierId).value.0, truckId, carrierId).Success?
    ensures UnassignDriver(AssignDriver(db, truckId, driverId, carrierId).value.0, truckId, carrierId).value.0 == db
  {
    var db2 := AssignDriver(db, truckId, driverId, carrierId).value.0;
    var db3 := UnassignDriver(db2, truckId, carrierId).value.0;
    assert db3.trucks == db.trucks[truckId := db.trucks[truckId]];
    assert db3.drivers == db.drivers[driverId := db.drivers[driverId]];
  }

  /** `isDriverAssignedToTruck`: the truck exists and its current driver is the given one. */
  function IsDriverAssignedToTruck(db: Db, driverId: DriverId, truckId: TruckId): bool {
    truckId in db.trucks && db.trucks[truckId].currentDriver == Some(driverId)
  }

  /** Under a consistent pairing the test reads the same from the driver's side. */
  lemma AssignedFromEitherSide(db: Db, driverId: DriverId, truckId: TruckId)
    requires Pairing(db)
    ensures IsDriverAssignedToTruck(db, driverId, truckId)
      <==> driverId in db.drivers && db.drivers[driverId].assignedTruck == Some(truckId)
  {
  }

  /** After a successful assignment the driver is assigned to the truck; after unassignment, to none. */
  lemma AssignThenTest(db: Db, truckId: TruckId, driverId: DriverId, carrierId: CarrierId, other: DriverId)
    requires AssignDriver(db, truckId, driverId, carrierId).Success?
    ensures IsDriverAssignedToTruck(AssignDriver(db, truckId, driverId, carrierId).value.0, driverId, truckId)
    ensures !IsDriverAssignedToTruck(UnassignDriver(AssignDriver(db, truckId, driverId, carrierId).value.0, truckId, carrierId).value.0, other, truckId)
  {
    UnassignUndoesAssign(db, truckId, driverId, carrierId);
  }

  /** `findDriverByUserId`: the driver row of a user, if any. */
  ghost function FindDriverByUserId(db: Db, userId: UserId): (r: Option<DriverId>)
    ensures r.Some? ==> r.value in db.drivers && db.drivers[r.value].userId == userId
    ensures r.None? <==> forall d :: d in db.drivers ==> db.drivers[d].userId != userId
  {
    DriverIn(db.drivers, userId)
  }

  // ---------------------------------------------------------------- status and location

  /** `updateTruckStatus`: the carrier's truck gets the new status. */
  function UpdateTruckStatus(db: Db, truckId: TruckId, carrierId: CarrierId, status: TruckStatus): (r: Result<(Db, Truck), Error>)
    ensures r.Success? <==> FindOne(db, truckId, carrierId).Success?
    ensures r.Failure? ==> r.error == NotFound("Truck not found")
    ensures r.Success? ==>
      var db2, t := r.value.0, r.value.1;
      && t.status == status
      && t == db.trucks[truckId].(status := status)
      && db2 == db.(trucks := db.trucks[truckId := t])
  {
    var truck :- FindOne(db, truckId, carrierId);
    var updated := truck.(status := status);
    Success((db.(trucks := db.trucks[truckId := updated]), updated))
  }

  /** `updateTruckLocation`: any truck, found by id alone, gets the new position. */
  function UpdateTruckLocation(db: Db, truckId: TruckId, lat: real, lng: real): (r: Result<(Db, Truck), Error>)
    ensures r.Success? <==> truckId in db.trucks
    ensures r.Failure? ==> r.error == NotFound("Truck not found")
    ensures r.Success? ==>
      var db2, t := r.value.0, r.value.1;
      && t.currentLocation == Some(LatLng(lat, lng))
      && t == db.trucks[truckId].(currentLocation := t.currentLocation)
      && db2 == db.(trucks := db.trucks[truckId := t])
  {
    if truckId !in db.trucks then Failure(NotFound("Truck not found"))
    else
      var updated := db.trucks[truckId].(currentLocation := Some(LatLng(lat, lng)));
      Success((db.(trucks := db.trucks[truckId := updated]), updated))
  }

  /** Every carrier-scoped operation reports another carrier's truck as not found. */
  lemma OtherCarrierNotFound(db: Db, truckId: TruckId, carrierId: CarrierId, driverId: DriverId,
                             patch: TruckPatch, status: TruckStatus)
    requires truckId in db.trucks && db.trucks[truckId].carrierId != carrierId
    ensures FindOne(db, truckId, carrierId) == Failure(NotFound("Truck not found"))
    ensures Delete(db, truckId, carrierId) == Failure(NotFound("Truck not found"))
    ensures Update(db, truckId, carrierId, patch) == Failure(NotFound("Truck not found"))
    ensures AssignDriver(db, truckId, driverId, carrierId) == Failure(NotFound("Truck not found"))
    ensures UnassignDriver(db, truckId, carrierId) == Failure(NotFound("Truck not found"))
    ensures UpdateTruckStatus(db, truckId, carrierId, status) == Failure(NotFound("Truck not found"))
  {
  }

  /** A truck put into maintenance or out of service is refused for every new window, whatever its schedule. */
  lemma UnavailableTruckRefusesBids(db: Db, truckId: TruckId, carrierId: CarrierId, status: TruckStatus,
                                    pickup: Time, delivery: Time)
    requires !status.Available?
    requires UpdateTruckStatus(db, truckId, carrierId, status).Success?
    ensures var t := UpdateTruckStatus(db, truckId, carrierId, status).value.1;
      ValidateAvailability(t, pickup, delivery) == Fail(BadRequest("Truck is not available for new commitments"))
  {
  }

  /** The status and location writes leave every schedule and the pairing as they were. */
  lemma StatusAndLocationKeepInvariants(db: Db, truckId: TruckId, carrierId: CarrierId, status: TruckStatus,
                                        lat: real, lng: real)
    requires Bids.Schedules(db) && Pairing(db)
    ensures UpdateTruckStatus(db, truckId, carrierId, status).Success? ==>
      var db2 := UpdateTruckStatus(db, truckId, carrierId, status).value.0;
      Bids.Schedules(db2) && Pairing(db2)
    ensures UpdateTruckLocation(db, truckId, lat, lng).Success? ==>
      var db2 := UpdateTruckLocation(db, truckId, lat, lng).value.0;
      Bids.Schedules(db2) && Pairing(db2)
  {
  }

  /** A new truck has no driver, so creating it keeps the pairing consistent. */
  lemma CreateTruckKeepsPairing(db: Db, carrierId: CarrierId, input: TruckInput)
    requires Pairing(db)
    requires CreateTruck(db, carrierId, input).Success?
    ensures Pairing(CreateTruck(db, carrierId, input).value.0)
  {
    CreateTruckRow(db, carrierId, input);
    var res := CreateTruck(db, carrierId, input).value;
    var db2, id := res.0, res.1;
    forall d | d in db2.drivers && db2.drivers[d].assignedTruck.Some?
      ensures db2.drivers[d].assignedTruck.value in db2.trucks
      ensures db2.trucks[db2.drivers[d].assignedTruck.value].currentDriver == Some(d)
    {
      assert db2.drivers[d].assignedTruck.value != id;
    }
  }

  /** A truck some driver still points at is never deleted, so deletion keeps the pairing consistent. */
  lemma DeleteKeepsPairing(db: Db, truckId: TruckId, carrierId: CarrierId)
    requires Pairing(db)
    requires Delete(db, truckId, carrierId).Success?
    ensures Pairing(Delete(db, truckId, carrierId).value)
  {
    var db2 := Delete(db, truckId, carrierId).value;
    assert db2.drivers == db.drivers;
    forall d | d in db2.drivers && db2.drivers[d].assignedTruck.Some?
      ensures db2.drivers[d].assignedTruck.value in db2.trucks
    {
      assert db.drivers[d].assignedTruck != Some(truckId);
    }
  }
}
