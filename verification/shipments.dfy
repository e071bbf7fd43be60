/**
 * The shipment service: creating a shipment from an accepted bid, assigning a
 * driver, and the driver-only start / deliver transitions
 * (shipments/shipments.service.ts).
 */
module Shipments {
  import opened Wrappers
  import opened Errors
  import opened Domain
  import Ids

  /** `db2` differs from `db1` at most in the row of shipment `id`, which exists in both. */
  ghost predicate OnlyShipmentChanged(db1: Db, db2: Db, id: ShipmentId) {
    && db2 == db1.(shipments := db2.shipments)
    && id in db1.shipments && id in db2.shipments
    && db2.shipments.Keys == db1.shipments.Keys
    && forall s :: s in db1.shipments && s != id ==> db2.shipments[s] == db1.shipments[s]
  }

  /** Whether some shipment already references the load (the load column is unique). */
  predicate LoadHasShipment(db: Db, loadId: LoadId) {
    exists s :: s in db.shipments && db.shipments[s].loadId == loadId
  }

  /**
   * `createShipmentFromBid`: a scheduled shipment whose window is the bid's
   * proposed window, with load, carrier and truck taken from the bid and no
   * driver. A missing load, carrier or truck is a plain `Error`; a second shipment
   * for the same load violates the one-to-one load column.
   */
  ghost function CreateShipmentFromBid(db: Db, bid: Bid, now: Time): (r: Result<(Db, ShipmentId), Error>)
    ensures r.Success? <==>
      bid.loadId in db.loads && bid.carrierId in db.carriers && bid.truckId in db.trucks
      && !LoadHasShipment(db, bid.loadId)
    ensures r.Failure? ==> r.error.Internal?
    ensures r.Success? ==>
      var db2, id := r.value.0, r.value.1;
      && id !in db.shipments && id in db2.shipments
      && db2 == db.(shipments := db.shipments[id := db2.shipments[id]])
      && db2.shipments[id].status == Scheduled
      && db2.shipments[id].startDate == bid.pickup
      && db2.shipments[id].estimatedDeliveryDate == bid.delivery
      && db2.shipments[id].loadId == bid.loadId
      && db2.shipments[id].carrierId == bid.carrierId
      && db2.shipments[id].truckId == bid.truckId
      && db2.shipments[id].driverId.None?
      && db2.shipments[id].actualDeliveryDate.None?
  {
    if bid.loadId !in db.loads then Failure(Internal("Load not found"))
    else if bid.carrierId !in db.carriers then Failure(Internal("Carrier not found"))
    else if bid.truckId !in db.trucks then Failure(Internal("Truck not found"))
    else if LoadHasShipment(db, bid.loadId) then
      Failure(Internal("duplicate key value violates unique constraint on shipment.load"))
    else
      var id := Ids.FreshId(db.shipments);
      var s := Shipment(bid.loadId, bid.carrierId, bid.truckId, None, Scheduled,
                        bid.pickup, bid.delivery, None, None, now);
      Success((db.(shipments := db.shipments[id := s]), id))
  }

  /**
   * `assignDriver`: the caller must be the user of the shipment's carrier and the
   * driver must belong to that carrier. Every failure is a plain `Error`.
   */
  ghost function AssignDriver(db: Db, shipmentId: ShipmentId, driverId: DriverId, carrierUserId: UserId): (r: Result<Db, Error>)
  {
    if shipmentId !in db.shipments then Failure(Internal("Shipment not found"))
    else
      var s := db.shipments[shipmentId];
      if s.carrierId !in db.carriers then Failure(Internal("Shipment has no carrier"))
      else if db.carriers[s.carrierId].userId != carrierUserId then
        Failure(Internal("Unauthorized: Carrier does not own this shipment"))
      else if !(driverId in db.drivers && db.drivers[driverId].carrierId == s.carrierId) then
        Failure(Internal("Driver not found or does not belong to carrier"))
      else
        Success(db.(shipments := db.shipments[shipmentId := s.(driverId := Some(driverId))]))
  }

  /**
   * assignDriver succeeds exactly for the owning carrier's user and one of its
   * drivers; it then changes nothing but the driver of that shipment. Neither the
   * shipment's status nor the driver's other shipments are looked at.
   */
  lemma AssignDriverSpec(db: Db, shipmentId: ShipmentId, driverId: DriverId, carrierUserId: UserId)
    ensures var r := AssignDriver(db, shipmentId, driverId, carrierUserId);
      && (r.Success? <==>
           shipmentId in db.shipments
           && CarrierUser(db, db.shipments[shipmentId].carrierId) == Some(carrierUserId)
           && driverId in db.drivers
           && db.drivers[driverId].carrierId == db.shipments[shipmentId].carrierId)
      && (r.Failure? ==> r.error.Internal?)
      && (r.Success? ==>
           && OnlyShipmentChanged(db, r.value, shipmentId)
           && r.value.shipments[shipmentId].driverId == Some(driverId)
           && r.value.shipments[shipmentId] == db.shipments[shipmentId].(driverId := Some(driverId)))
  {
  }

  /** Whether `userId` is the user of the shipment's assigned driver. */
  predicate IsAssignedDriver(db: Db, s: Shipment, userId: UserId) {
    s.driverId.Some? && DriverUser(db, s.driverId.value) == Some(userId)
  }

  /**
   * `startShipment`: existence, then the assigned driver, then the SCHEDULED status.
   * The start instant the service sets has no column, so only the status is stored.
   */
  ghost function StartShipment(db: Db, shipmentId: ShipmentId, userId: UserId, now: Time): (r: Result<Db, Error>)
  {
    if shipmentId !in db.shipments then Failure(NotFound("Shipment not found"))
    else
      var s := db.shipments[shipmentId];
      if !IsAssignedDriver(db, s, userId) then
        Failure(Forbidden("You must be the assigned driver to start this shipment"))
      else if s.status != Scheduled then
        Failure(BadRequest("Shipment must be in SCHEDULED status to start. Current status: " + ShipmentStatusName(s.status)))
      else
        Success(db.(shipments := db.shipments[shipmentId := s.(status := ShipmentStatus.InTransit)]))
  }

  /**
   * startShipment: NotFound for a missing shipment; Forbidden for anyone but the
   * assigned driver, whatever the status; BadRequest naming the current status unless
   * SCHEDULED; otherwise the shipment is IN_TRANSIT and nothing else changes.
   */
  lemma StartShipmentSpec(db: Db, shipmentId: ShipmentId, userId: UserId, now: Time)
    ensures var r := StartShipment(db, shipmentId, userId, now);
      && (shipmentId !in db.shipments ==> r.Failure? && r.error.NotFound?)
      && (shipmentId in db.shipments && !IsAssignedDriver(db, db.shipments[shipmentId], userId) ==>
            r.Failure? && r.error.Forbidden?)
      && ((shipmentId in db.shipments && IsAssignedDriver(db, db.shipments[shipmentId], userId)
            && db.shipments[shipmentId].status != Scheduled) ==>
            r == Failure(BadRequest("Shipment must be in SCHEDULED status to start. Current status: "
                                    + ShipmentStatusName(db.shipments[shipmentId].status))))
      && (r.Success? <==> (shipmentId in db.shipments && IsAssignedDriver(db, db.shipments[shipmentId], userId)
            && db.shipments[shipmentId].status == Scheduled))
      && (r.Success? ==>
            && OnlyShipmentChanged(db, r.value, shipmentId)
            && r.value.shipments[shipmentId].status == ShipmentStatus.InTransit
            && r.value.shipments[shipmentId] == db.shipments[shipmentId].(status := ShipmentStatus.InTransit))
  {
    if shipmentId in db.shipments {
      var s := db.shipments[shipmentId];
      var r := StartShipment(db, shipmentId, userId, now);
      if IsAssignedDriver(db, s, userId) && s.status == Scheduled {
        assert r.value.shipments == db.shipments[shipmentId := s.(status := ShipmentStatus.InTransit)];
      }
    }
  }

  /** The statuses from which a shipment may be marked delivered. */
  predicate DeliverableFrom(status: ShipmentStatus) {
    status in {ShipmentStatus.InTransit, Delayed, Scheduled}
  }

  /** `markAsDelivered`: existence, the assigned driver, then an allowed status. */
  ghost function MarkAsDelivered(db: Db, shipmentId: ShipmentId, userId: UserId, now: Time): (r: Result<Db, Error>)
  {
    if shipmentId !in db.shipments then Failure(NotFound("Shipment not found"))
    else
      var s := db.shipments[shipmentId];
      if !IsAssignedDriver(db, s, userId) then
        Failure(Forbidden("Only assigned driver can mark shipment as delivered"))
      else if !DeliverableFrom(s.status) then
        Failure(BadRequest("Cannot mark shipment as delivered from current status: " + ShipmentStatusName(s.status)))
      else
        Success(db.(shipments := db.shipments[shipmentId := s.(status := ShipmentStatus.Delivered, actualDeliveryDate := Some(now))]))
  }

  /**
   * markAsDelivered: the same driver check as start, then any of IN_TRANSIT,
   * DELAYED or SCHEDULED moves to DELIVERED with the actual delivery at `now`, and any
   * other status is a BadRequest naming it.
   */
  lemma MarkAsDeliveredSpec(db: Db, shipmentId: ShipmentId, userId: UserId, now: Time)
    ensures var r := MarkAsDelivered(db, shipmentId, userId, now);
      && (shipmentId !in db.shipments ==> r.Failure? && r.error.NotFound?)
      && (shipmentId in db.shipments && !IsAssignedDriver(db, db.shipments[shipmentId], userId) ==>
            r.Failure? && r.error.Forbidden?)
      && ((shipmentId in db.shipments && IsAssignedDriver(db, db.shipments[shipmentId], userId)
            && !DeliverableFrom(db.shipments[shipmentId].status)) ==>
            r == Failure(BadRequest("Cannot mark shipment as delivered from current status: "
                                    + ShipmentStatusName(db.shipments[shipmentId].status))))
      && (r.Success? <==> (shipmentId in db.shipments && IsAssignedDriver(db, db.shipments[shipmentId], userId)
            && DeliverableFrom(db.shipments[shipmentId].status)))
      && (r.Success? ==>
            && OnlyShipmentChanged(db, r.value, shipmentId)
            && r.value.shipments[shipmentId].status == ShipmentStatus.Delivered
            && r.value.shipments[shipmentId].actualDeliveryDate == Some(now)
            && r.value.shipments[shipmentId] == db.shipments[shipmentId].(status := ShipmentStatus.Delivered, actualDeliveryDate := Some(now)))
  {
    if shipmentId in db.shipments {
      var s := db.shipments[shipmentId];
      var r := MarkAsDelivered(db, shipmentId, userId, now);
      if IsAssignedDriver(db, s, userId) && DeliverableFrom(s.status) {
        assert r.value.shipments == db.shipments[shipmentId := s.(status := ShipmentStatus.Delivered, actualDeliveryDate := Some(now))];
      }
    }
  }

  /** DELIVERED and CANCELLED shipments can be neither started nor delivered, by anyone. */
  lemma TerminalStatuses(db: Db, shipmentId: ShipmentId, userId: UserId, now: Time)
    requires shipmentId in db.shipments
    requires db.shipments[shipmentId].status in {ShipmentStatus.Delivered, ShipmentStatus.Cancelled}
    ensures StartShipment(db, shipmentId, userId, now).Failure?
    ensures MarkAsDelivered(db, shipmentId, userId, now).Failure?
  {
    var status := db.shipments[shipmentId].status;
    assert status != Scheduled && !DeliverableFrom(status);
  }

  /** Start then deliver, by the assigned driver, takes a scheduled shipment to DELIVERED. */
  lemma StartThenDeliver(db: Db, shipmentId: ShipmentId, userId: UserId, t1: Time, t2: Time)
    requires shipmentId in db.shipments && db.shipments[shipmentId].status == Scheduled
    requires IsAssignedDriver(db, db.shipments[shipmentId], userId)
    ensures StartShipment(db, shipmentId, userId, t1).Success?
    ensures var db1 := StartShipment(db, shipmentId, userId, t1).value;
      && MarkAsDelivered(db1, shipmentId, userId, t2).Success?
      && MarkAsDelivered(db1, shipmentId, userId, t2).value.shipments[shipmentId].status == ShipmentStatus.Delivered
      && MarkAsDelivered(db1, shipmentId, userId, t2).value.shipments[shipmentId].actualDeliveryDate == Some(t2)
  {
  }

  /** Whether the carrier behind `carrierUserId` has an ACCEPTED bid on the load. */
  predicate AcceptedBidOf(db: Db, carrierUserId: UserId, b: BidId)
    requires b in db.bids
  {
    db.bids[b].status == BidStatus.Accepted && CarrierUser(db, db.bids[b].carrierId) == Some(carrierUserId)
  }

  /**
   * `findShipmentsForCarrierAcceptedBids` without paging: the shipments of every load
   * on which the carrier holds an accepted bid, and their number.
   */
  function CarrierShipments(db: Db, carrierUserId: UserId): (r: (set<ShipmentId>, nat))
  {
    var loadIds := set b | b in db.bids && AcceptedBidOf(db, carrierUserId, b) :: db.bids[b].loadId;
    if |loadIds| == 0 then ({}, 0)
    else
      var found := set s | s in db.shipments && db.shipments[s].loadId in loadIds;
      (found, |found|)
  }

  /**
   * A shipment is listed exactly when the carrier holds an accepted bid on its load;
   * with no accepted bid the list is empty with total 0.
   */
  lemma CarrierShipmentsSpec(db: Db, carrierUserId: UserId)
    ensures var res := CarrierShipments(db, carrierUserId);
      var found, total := res.0, res.1;
      && total == |found|
      && (forall s :: s in found <==>
            s in db.shipments && exists b :: b in db.bids && AcceptedBidOf(db, carrierUserId, b)
                                          && db.bids[b].loadId == db.shipments[s].loadId)
      && ((forall b :: b in db.bids ==> !AcceptedBidOf(db, carrierUserId, b)) ==> found == {} && total == 0)
  {
    var loadIds := set b | b in db.bids && AcceptedBidOf(db, carrierUserId, b) :: db.bids[b].loadId;
    forall s | s in db.shipments && exists b :: b in db.bids && AcceptedBidOf(db, carrierUserId, b)
                                               && db.bids[b].loadId == db.shipments[s].loadId
      ensures db.shipments[s].loadId in loadIds
    {
      var b :| b in db.bids && AcceptedBidOf(db, carrierUserId, b) && db.bids[b].loadId == db.shipments[s].loadId;
      assert db.bids[b].loadId in loadIds;
    }
  }
}
