/**
 * The load service (loads/loads.service.ts): a shipper's loads through their
 * life cycle draft -> published -> accepted, or -> cancelled, and the load-side
 * acceptance of a bid.
 */
module Loads {
  import opened Wrappers
  import opened Errors
  import opened Domain
  import opened Schedule
  import Ids
  import Bids

  datatype DimensionsInput = DimensionsInput(length: real, width: real, height: real, unit: Option<DimensionUnit>)

  /** The body of a new load. */
  datatype LoadInput = LoadInput(
    origin: Place,
    destination: Place,
    weight: real,
    weightUnit: Option<WeightUnit>,
    dimensions: DimensionsInput,
    cargoTypes: seq<string>,
    pickupDate: Time,
    deliveryDeadline: Time,
    budget: real,
    description: Option<string>)

  /** An edit of a load; `None` is a field the request leaves out. */
  datatype LoadPatch = LoadPatch(
    origin: Option<Place>,
    destination: Option<Place>,
    weight: Option<real>,
    weightUnit: Option<WeightUnit>,
    dimensions: Option<DimensionsInput>,
    cargoTypes: Option<seq<string>>,
    pickupDate: Option<Time>,
    deliveryDeadline: Option<Time>,
    budget: Option<real>,
    description: Option<string>)

  /** Dimensions as stored: a missing unit becomes meters. */
  function StoredDimensions(d: DimensionsInput): (r: Dimensions)
    ensures r.unit == (if d.unit.Some? then d.unit.value else Meters)
    ensures r.length == d.length && r.width == d.width && r.height == d.height
  {
    Dimensions(d.length, d.width, d.height, d.unit.GetOr(Meters))
  }

  // ---------------------------------------------------------------- lookups

  /** `findShipperLoadEntity`: the caller's shipper, then a load of that shipper. */
  ghost function FindShipperLoad(db: Db, loadId: LoadId, userId: UserId): (r: Result<Load, Error>)
    ensures r.Success? <==> ShipperOfUser(db, userId).Some? && loadId in db.loads
                            && db.loads[loadId].shipperId == ShipperOfUser(db, userId).value
    ensures r.Success? ==> r.value == db.loads[loadId]
    ensures ShipperOfUser(db, userId).None? ==> r == Failure(NotFound("Shipper not found"))
    ensures ShipperOfUser(db, userId).Some? && r.Failure? ==> r == Failure(NotFound("Load not found"))
  {
    match ShipperOfUser(db, userId)
    case None => Failure(NotFound("Shipper not found"))
    case Some(shipperId) =>
      if loadId in db.loads && db.loads[loadId].shipperId == shipperId then Success(db.loads[loadId])
      else Failure(NotFound("Load not found"))
  }

  /** Whether `userId` is the user of the load's shipper. */
  predicate OwnsLoad(db: Db, loadId: LoadId, userId: UserId) {
    LoadShipperUser(db, loadId) == Some(userId)
  }

  /**
   * With unique shipper users, the shipper's lookup finds exactly the loads whose
   * shipper is the caller.
   */
  lemma FindShipperLoadOwned(db: Db, loadId: LoadId, userId: UserId)
    requires ShipperUsersUnique(db)
    ensures FindShipperLoad(db, loadId, userId).Success? <==> OwnsLoad(db, loadId, userId)
  {
    if OwnsLoad(db, loadId, userId) {
      var s := db.loads[loadId].shipperId;
      assert db.shippers[s].userId == userId;
    }
  }

  /**
   * `findLoadById`: a shipper sees its own loads in every status; anyone else sees
   * only PUBLISHED loads.
   */
  ghost function FindLoadById(db: Db, loadId: LoadId, userId: UserId, role: string): (r: Result<Load, Error>)
    ensures r.Success? ==> loadId in db.loads && r.value == db.loads[loadId]
    ensures r.Failure? ==> r.error.NotFound?
    ensures role == "shipper" ==> (r.Success? <==> FindShipperLoad(db, loadId, userId).Success?)
    ensures role != "shipper" ==> (r.Success? <==> loadId in db.loads && db.loads[loadId].status.Published?)
  {
    if role == "shipper" then FindShipperLoad(db, loadId, userId)
    else if loadId in db.loads && db.loads[loadId].status.Published? then Success(db.loads[loadId])
    else Failure(NotFound("Load not found"))
  }

  // ---------------------------------------------------------------- create / update

  /** `createLoad`: a DRAFT load of the caller's shipper, with the unit defaults applied. */
  ghost function CreateLoad(db: Db, input: LoadInput, userId: UserId): Result<(Db, LoadId), Error> {
    match ShipperOfUser(db, userId)
    case None => Failure(NotFound("Shipper not found"))
    case Some(shipperId) =>
      var id := Ids.FreshId(db.loads);
      var load := Load(shipperId, input.origin, input.destination, input.weight,
                       input.weightUnit.GetOr(Kilogram), StoredDimensions(input.dimensions),
                       input.cargoTypes, Draft, Some(input.pickupDate), Some(input.deliveryDeadline),
                       input.budget, input.description, None, None);
      Success((db.(loads := db.loads[id := load]), id))
  }

  /**
   * createLoad succeeds exactly for a shipper; the new load is a DRAFT of that
   * shipper with no accepted bid, kilograms and meters where the units are left
   * out, every other field as the request gives it, and it is the only change.
   */
  lemma CreateLoadSpec(db: Db, input: LoadInput, userId: UserId)
    ensures var r := CreateLoad(db, input, userId);
      && (r.Success? <==> ShipperOfUser(db, userId).Some?)
      && (r.Failure? ==> r.error == NotFound("Shipper not found"))
      && (r.Success? ==>
            var db2, id := r.value.0, r.value.1;
            && id !in db.loads && id in db2.loads
            && db2 == db.(loads := db.loads[id := db2.loads[id]])
            && db2.loads[id].status == Draft
            && db2.loads[id].shipperId == ShipperOfUser(db, userId).value
            && db2.loads[id].acceptedBid.None? && db2.loads[id].acceptedBidAmount.None?
            && db2.loads[id].weightUnit == (if input.weightUnit.Some? then input.weightUnit.value else Kilogram)
            && db2.loads[id].dimensions.unit == (if input.dimensions.unit.Some? then input.dimensions.unit.value else Meters)
            && db2.loads[id].pickupDate == Some(input.pickupDate)
            && db2.loads[id].deliveryDeadline == Some(input.deliveryDeadline)
            && db2.loads[id].origin == input.origin && db2.loads[id].destination == input.destination
            && db2.loads[id].weight == input.weight
            && db2.loads[id].dimensions.length == input.dimensions.length
            && db2.loads[id].dimensions.width == input.dimensions.width
            && db2.loads[id].dimensions.height == input.dimensions.height
            && db2.loads[id].cargoTypes == input.cargoTypes
            && db2.loads[id].budget == input.budget
            && db2.loads[id].description == input.description)
  {
  }

  /** The load with every field the patch supplies replaced. */
  function ApplyPatch(load: Load, p: LoadPatch): Load {
    load.(origin := p.origin.GetOr(load.origin),
          destination := p.destination.GetOr(load.destination),
          weight := p.weight.GetOr(load.weight),
          weightUnit := p.weightUnit.GetOr(load.weightUnit),
          dimensions := if p.dimensions.Some? then StoredDimensions(p.dimensions.value) else load.dimensions,
          cargoTypes := p.cargoTypes.GetOr(load.cargoTypes),
          pickupDate := if p.pickupDate.Some? then p.pickupDate else load.pickupDate,
          deliveryDeadline := if p.deliveryDeadline.Some? then p.deliveryDeadline else load.deliveryDeadline,
          budget := p.budget.GetOr(load.budget),
          description := if p.description.Some? then p.description else load.description)
  }

  /** `updateLoad`: only a DRAFT load of the caller, only the supplied fields. */
  ghost function UpdateLoad(db: Db, loadId: LoadId, patch: LoadPatch, userId: UserId): Result<Db, Error> {
    var load :- FindShipperLoad(db, loadId, userId);
    if !load.status.Draft? then Failure(BadRequest("Cannot update load with status: " + LoadStatusName(load.status)))
    else Success(db.(loads := db.loads[loadId := ApplyPatch(load, patch)]))
  }

  /**
   * updateLoad succeeds exactly on the caller's DRAFT load. It never changes the
   * status, the owner or the acceptance fields; each field becomes the patch's
   * value when supplied and keeps its value otherwise; nothing else changes.
   */
  lemma UpdateLoadSpec(db: Db, loadId: LoadId, patch: LoadPatch, userId: UserId)
    ensures var r := UpdateLoad(db, loadId, patch, userId);
      && (r.Success? <==> FindShipperLoad(db, loadId, userId).Success? && db.loads[loadId].status.Draft?)
      && (FindShipperLoad(db, loadId, userId).Success? && !db.loads[loadId].status.Draft? ==>
            r == Failure(BadRequest("Cannot update load with status: " + LoadStatusName(db.loads[loadId].status))))
      && (r.Success? ==>
            var old_ := db.loads[loadId];
            var new_ := r.value.loads[loadId];
            && r.value == db.(loads := db.loads[loadId := new_])
            && new_.status == old_.status && new_.shipperId == old_.shipperId
            && new_.acceptedBid == old_.acceptedBid && new_.acceptedBidAmount == old_.acceptedBidAmount
            && (patch.origin.Some? ==> new_.origin == patch.origin.value)
            && (patch.origin.None? ==> new_.origin == old_.origin)
            && (patch.budget.Some? ==> new_.budget == patch.budget.value)
            && (patch.budget.None? ==> new_.budget == old_.budget)
            && (patch.pickupDate.Some? ==> new_.pickupDate == patch.pickupDate)
            && (patch.pickupDate.None? ==> new_.pickupDate == old_.pickupDate)
            && (patch.dimensions.Some? ==> new_.dimensions.unit == patch.dimensions.value.unit.GetOr(Meters))
            && (patch == LoadPatch(None, None, None, None, None, None, None, None, None, None) ==> new_ == old_))
  {
  }

  /**
   * On success, each of the ten editable fields takes the patch's value when the
   * patch supplies it (dimensions with the METERS default for a missing unit) and
   * keeps its old value otherwise.
   */
  lemma UpdateLoadPatchesFields(db: Db, loadId: LoadId, patch: LoadPatch, userId: UserId)
    requires UpdateLoad(db, loadId, patch, userId).Success?
    ensures var o, n := db.loads[loadId], UpdateLoad(db, loadId, patch, userId).value.loads[loadId];
      && (patch.origin.Some? ==> n.origin == patch.origin.value) && (patch.origin.None? ==> n.origin == o.origin)
      && (patch.destination.Some? ==> n.destination == patch.destination.value)
      && (patch.destination.None? ==> n.destination == o.destination)
      && (patch.weight.Some? ==> n.weight == patch.weight.value) && (patch.weight.None? ==> n.weight == o.weight)
      && (patch.weightUnit.Some? ==> n.weightUnit == patch.weightUnit.value)
      && (patch.weightUnit.None? ==> n.weightUnit == o.weightUnit)
      && (patch.dimensions.Some? ==>
            var d := patch.dimensions.value;
            && n.dimensions.length == d.length && n.dimensions.width == d.width && n.dimensions.height == d.height
            && n.dimensions.unit == (if d.unit.Some? then d.unit.value else Meters))
      && (patch.dimensions.None? ==> n.dimensions == o.dimensions)
      && (patch.cargoTypes.Some? ==> n.cargoTypes == patch.cargoTypes.value)
      && (patch.cargoTypes.None? ==> n.cargoTypes == o.cargoTypes)
      && (patch.pickupDate.Some? ==> n.pickupDate == patch.pickupDate)
      && (patch.pickupDate.None? ==> n.pickupDate == o.pickupDate)
      && (patch.deliveryDeadline.Some? ==> n.deliveryDeadline == patch.deliveryDeadline)
      && (patch.deliveryDeadline.None? ==> n.deliveryDeadline == o.deliveryDeadline)
      && (patch.budget.Some? ==> n.budget == patch.budget.value) && (patch.budget.None? ==> n.budget == o.budget)
      && (patch.description.Some? ==> n.description == patch.description)
      && (patch.description.None? ==> n.description == o.description)
  {
  }

  /** Applying the same edit twice is applying it once. */
  lemma UpdateLoadIdempotent(db: Db, loadId: LoadId, patch: LoadPatch, userId: UserId)
    requires UpdateLoad(db, loadId, patch, userId).Success?
    ensures var db2 := UpdateLoad(db, loadId, patch, userId).value;
      UpdateLoad(db2, loadId, patch, userId) == Success(db2)
  {
    var db2 := UpdateLoad(db, loadId, patch, userId).value;
    assert db2.shippers == db.shippers;
    assert ApplyPatch(ApplyPatch(db.loads[loadId], patch), patch) == ApplyPatch(db.loads[loadId], patch);
    assert db2.loads[loadId := db2.loads[loadId]] == db2.loads;
  }

  // ---------------------------------------------------------------- status transitions

  /** `validateLoadCanBePublished`, check by check. */
  function CheckPublishable(load: Load): (o: Outcome<Error>)
    ensures o.Pass? <==>
      load.status.Draft? && |load.origin.address| > 0 && |load.destination.address| > 0
      && load.pickupDate.Some? && load.deliveryDeadline.Some? && load.budget > 0.0
    ensures o.Fail? ==> o.error.BadRequest?
  {
    if !load.status.Draft? then Fail(BadRequest("Cannot publish load with status: " + LoadStatusName(load.status)))
    else if |load.origin.address| == 0 || |load.destination.address| == 0 then
      Fail(BadRequest("Load must have valid origin and destination to be published"))
    else if load.pickupDate.None? || load.deliveryDeadline.None? then
      Fail(BadRequest("Load must have pickup date and delivery deadline to be published"))
    else if load.budget <= 0.0 then Fail(BadRequest("Load must have a positive budget to be published"))
    else Pass
  }

  /** `publishLoad`: DRAFT -> PUBLISHED once the load is complete. */
  ghost function PublishLoad(db: Db, loadId: LoadId, userId: UserId): (r: Result<Db, Error>)
    ensures r.Success? <==> FindShipperLoad(db, loadId, userId).Success? && CheckPublishable(db.loads[loadId]).Pass?
    ensures r.Success? ==> r.value == db.(loads := db.loads[loadId := db.loads[loadId].(status := Published)])
  {
    var load :- FindShipperLoad(db, loadId, userId);
    :- CheckPublishable(load);
    Success(db.(loads := db.loads[loadId := load.(status := Published)]))
  }

  /** A newly created load is publishable exactly when its addresses are non-empty and its budget positive. */
  lemma CreatedLoadPublishable(db: Db, input: LoadInput, userId: UserId)
    requires CreateLoad(db, input, userId).Success?
    ensures var res := CreateLoad(db, input, userId).value;
      var db2, id := res.0, res.1;
      CheckPublishable(db2.loads[id]).Pass? <==>
        |input.origin.address| > 0 && |input.destination.address| > 0 && input.budget > 0.0
  {
  }

  /** The bids of the load in status PENDING. */
  function PendingOn(bids: map<BidId, Bid>, loadId: LoadId): set<BidId> {
    set b | b in bids && bids[b].loadId == loadId && bids[b].status.Pending?
  }

  /** The bulk update that rejects the given bids. */
  function RejectAll(bids: map<BidId, Bid>, which: set<BidId>): map<BidId, Bid> {
    map b | b in bids :: if b in which then bids[b].(status := BidStatus.Rejected) else bids[b]
  }

  /** `cancelLoad` as written: DRAFT or PUBLISHED; PENDING bids rejected; load CANCELLED. */
  ghost function CancelLoad(db: Db, loadId: LoadId, userId: UserId): Result<Db, Error> {
    var load :- FindShipperLoad(db, loadId, userId);
    if !(load.status.Draft? || load.status.Published?) then
      Failure(BadRequest("Cannot cancel load with status: " + LoadStatusName(load.status)))
    else
      Success(db.(bids := RejectAll(db.bids, PendingOn(db.bids, loadId)),
                  loads := db.loads[loadId := load.(status := LoadStatus.Cancelled)]))
  }

  /**
   * cancelLoad succeeds exactly on the caller's DRAFT or PUBLISHED load; it then
   * leaves no PENDING bid on the load, leaves every other bid alone, and marks the
   * load CANCELLED. It does not touch any truck.
   */
  lemma CancelLoadSpec(db: Db, loadId: LoadId, userId: UserId)
    ensures var r := CancelLoad(db, loadId, userId);
      && (r.Success? <==> FindShipperLoad(db, loadId, userId).Success?
                          && (db.loads[loadId].status.Draft? || db.loads[loadId].status.Published?))
      && (r.Success? ==>
            && r.value.loads == db.loads[loadId := db.loads[loadId].(status := LoadStatus.Cancelled)]
            && r.value.bids.Keys == db.bids.Keys
            && (forall b :: b in db.bids && db.bids[b].loadId == loadId && db.bids[b].status.Pending? ==>
                  r.value.bids[b] == db.bids[b].(status := BidStatus.Rejected))
            && (forall b :: b in db.bids && !(db.bids[b].loadId == loadId && db.bids[b].status.Pending?) ==>
                  r.value.bids[b] == db.bids[b])
            && r.value.trucks == db.trucks)
  {
  }

  /**
   * Defect: the bids cancelLoad rejects keep their holds, so each of their trucks
   * stays blocked for a window no load will ever use.
   */
  lemma CancelLoadKeepsRejectedHolds(db: Db, loadId: LoadId, userId: UserId, b: BidId)
    requires CancelLoad(db, loadId, userId).Success?
    requires b in db.bids && db.bids[b].loadId == loadId && db.bids[b].status.Pending?
    requires db.bids[b].truckId in db.trucks
    requires exists c :: c in db.trucks[db.bids[b].truckId].commitments && c.bidId == b
    ensures var db2 := CancelLoad(db, loadId, userId).value;
      && db2.bids[b].status.Rejected?
      && exists c :: c in db2.trucks[db.bids[b].truckId].commitments && c.bidId == b
  {
    CancelLoadSpec(db, loadId, userId);
  }

  /** The holds of the given bids released from each bid's own truck. */
  function ReleaseBids(db: Db, which: set<BidId>): map<TruckId, Truck> {
    map t | t in db.trucks ::
      db.trucks[t].(commitments := ReleaseAll(db.trucks[t].commitments, set b | b in which && b in db.bids && db.bids[b].truckId == t))
  }

  /** cancelLoad as evidently intended: rejecting the pending bids also releases their holds. */
  ghost function CancelLoadFixed(db: Db, loadId: LoadId, userId: UserId): Result<Db, Error> {
    var load :- FindShipperLoad(db, loadId, userId);
    if !(load.status.Draft? || load.status.Published?) then
      Failure(BadRequest("Cannot cancel load with status: " + LoadStatusName(load.status)))
    else
      var losing := PendingOn(db.bids, loadId);
      Success(db.(bids := RejectAll(db.bids, losing),
                  trucks := ReleaseBids(db, losing),
                  loads := db.loads[loadId := load.(status := LoadStatus.Cancelled)]))
  }

  /**
   * The corrected cancellation: no bid it rejects holds anything on its truck,
   * every truck's schedule stays valid, and the ledger and load change as in the
   * as-written version.
   */
  lemma CancelLoadFixedReleases(db: Db, loadId: LoadId, userId: UserId)
    requires CancelLoadFixed(db, loadId, userId).Success?
    ensures var db2 := CancelLoadFixed(db, loadId, userId).value;
      && CancelLoad(db, loadId, userId).Success?
      && db2.bids == CancelLoad(db, loadId, userId).value.bids
      && db2.loads == CancelLoad(db, loadId, userId).value.loads
      && (forall b :: b in db.bids && db.bids[b].loadId == loadId && db.bids[b].status.Pending?
                      && db.bids[b].truckId in db2.trucks ==>
            forall c :: c in db2.trucks[db.bids[b].truckId].commitments ==> c.bidId != b)
      && ((forall t :: t in db.trucks ==> ScheduleOk(db.trucks[t].commitments)) ==>
            forall t :: t in db2.trucks ==> ScheduleOk(db2.trucks[t].commitments))
  {
    var losing := PendingOn(db.bids, loadId);
    var db2 := CancelLoadFixed(db, loadId, userId).value;
    forall b | b in db.bids && db.bids[b].loadId == loadId && db.bids[b].status.Pending? && db.bids[b].truckId in db2.trucks
      ensures forall c :: c in db2.trucks[db.bids[b].truckId].commitments ==> c.bidId != b
    {
      var t := db.bids[b].truckId;
      assert b in (set x | x in losing && x in db.bids && db.bids[x].truckId == t);
    }
    if forall t :: t in db.trucks ==> ScheduleOk(db.trucks[t].commitments) {
      forall t | t in db2.trucks
        ensures ScheduleOk(db2.trucks[t].commitments)
      {
        ReleaseAllKeepsScheduleOk(db.trucks[t].commitments, set b | b in losing && b in db.bids && db.bids[b].truckId == t);
      }
    }
  }

  /** Whether a bid or a shipment still references the load (their foreign keys have no delete rule). */
  predicate Referenced(db: Db, loadId: LoadId) {
    (exists b :: b in db.bids && db.bids[b].loadId == loadId)
    || (exists s :: s in db.shipments && db.shipments[s].loadId == loadId)
  }

  /** `deleteLoad`: DRAFT or CANCELLED loads of the caller; the database refuses a referenced row. */
  ghost function DeleteLoad(db: Db, loadId: LoadId, userId: UserId): (r: Result<Db, Error>)
    ensures r.Success? <==> (FindShipperLoad(db, loadId, userId).Success?
      && (db.loads[loadId].status.Draft? || db.loads[loadId].status.Cancelled?) && !Referenced(db, loadId))
    ensures r.Success? ==> r.value == db.(loads := db.loads - {loadId}) && loadId !in r.value.loads
    ensures FindShipperLoad(db, loadId, userId).Failure? ==> r == Failure(FindShipperLoad(db, loadId, userId).error)
    ensures FindShipperLoad(db, loadId, userId).Success? && !(db.loads[loadId].status.Draft? || db.loads[loadId].status.Cancelled?) ==>
      r == Failure(BadRequest("Cannot delete load with status: " + LoadStatusName(db.loads[loadId].status)))
    ensures (FindShipperLoad(db, loadId, userId).Success? && (db.loads[loadId].status.Draft? || db.loads[loadId].status.Cancelled?)
             && Referenced(db, loadId)) ==> r.Failure? && r.error.Internal?
  {
    var load :- FindShipperLoad(db, loadId, userId);
    if !(load.status.Draft? || load.status.Cancelled?) then
      Failure(BadRequest("Cannot delete load with status: " + LoadStatusName(load.status)))
    else if Referenced(db, loadId) then
      Failure(Internal("update or delete on table \"load\" violates foreign key constraint"))
    else Success(db.(loads := db.loads - {loadId}))
  }

  // ---------------------------------------------------------------- acceptBid

  /** The checks of `acceptBid`: a PUBLISHED load of the caller, then a PENDING bid on it. */
  ghost function AcceptBidGuard(db: Db, loadId: LoadId, bidId: BidId, userId: UserId): (o: Outcome<Error>)
    ensures o.Pass? ==> loadId in db.loads && bidId in db.bids
  {
    match FindShipperLoad(db, loadId, userId)
    case Failure(e) => Fail(e)
    case Success(load) =>
      if !load.status.Published? then
        Fail(BadRequest("Cannot accept bid for load with status: " + LoadStatusName(load.status)))
      else if !(bidId in db.bids && db.bids[bidId].loadId == loadId && db.bids[bidId].status.Pending?) then
        Fail(NotFound("Bid not found or not pending"))
      else Pass
  }

  /** The two saves before the bulk rejection: the bid, then the load with its acceptance. */
  function SaveAcceptance(db: Db, loadId: LoadId, bidId: BidId): Db
    requires loadId in db.loads && bidId in db.bids
  {
    var bid := db.bids[bidId];
    db.(bids := db.bids[bidId := bid.(status := BidStatus.Accepted)],
        loads := db.loads[loadId := db.loads[loadId].(status := LoadStatus.Accepted, acceptedBid := Some(bidId),
                                                      acceptedBidAmount := Some(bid.amount))])
  }

  /**
   * The error of the bulk rejection. Its filter `id: { $ne: bidId }` uses a
   * MongoDB operator; TypeORM binds the object as an ordinary equality parameter
   * against the uuid key, which Postgres refuses.
   */
  const RejectFilterError: Error := Internal("invalid input syntax for type uuid")

  /**
   * `acceptBid` as written: after the checks the bid and the load are saved
   * ACCEPTED, then the bulk rejection of the other PENDING bids fails, so the
   * call ends in a 500 with the two saves kept and every other bid unchanged.
   */
  ghost function AcceptBid(db: Db, loadId: LoadId, bidId: BidId, userId: UserId): (Db, Outcome<Error>) {
    match AcceptBidGuard(db, loadId, bidId, userId)
    case Fail(e) => (db, Fail(e))
    case Pass => (SaveAcceptance(db, loadId, bidId), Fail(RejectFilterError))
  }

  /**
   * The call never succeeds. A failed check writes nothing and reports the check's
   * error, in source order; otherwise the bid and the load are ACCEPTED, the
   * bulk rejection's error is reported, and no other row changes.
   */
  lemma AcceptBidAsWritten(db: Db, loadId: LoadId, bidId: BidId, userId: UserId)
    ensures var res := AcceptBid(db, loadId, bidId, userId);
      var db2, o := res.0, res.1;
      && o.Fail?
      && (FindShipperLoad(db, loadId, userId).Failure? ==> db2 == db && o.error == FindShipperLoad(db, loadId, userId).error)
      && (FindShipperLoad(db, loadId, userId).Success? && !db.loads[loadId].status.Published? ==>
            db2 == db && o.error == BadRequest("Cannot accept bid for load with status: " + LoadStatusName(db.loads[loadId].status)))
      && (FindShipperLoad(db, loadId, userId).Success? && db.loads[loadId].status.Published?
          && !(bidId in db.bids && db.bids[bidId].loadId == loadId && db.bids[bidId].status.Pending?) ==>
            db2 == db && o.error == NotFound("Bid not found or not pending"))
  {
  }

  /** When the checks pass, exactly the bid and the load are written, and the error is the bulk rejection's. */
  lemma AcceptBidPartialWrite(db: Db, loadId: LoadId, bidId: BidId, userId: UserId)
    requires FindShipperLoad(db, loadId, userId).Success? && db.loads[loadId].status.Published?
    requires bidId in db.bids && db.bids[bidId].loadId == loadId && db.bids[bidId].status.Pending?
    ensures var res := AcceptBid(db, loadId, bidId, userId);
      var db2 := res.0;
      && res.1 == Fail(RejectFilterError)
      && db2.bids == db.bids[bidId := db.bids[bidId].(status := BidStatus.Accepted)]
      && db2.loads == db.loads[loadId := db.loads[loadId].(status := LoadStatus.Accepted, acceptedBid := Some(bidId),
                                                           acceptedBidAmount := Some(db.bids[bidId].amount))]
      && db2 == db.(bids := db2.bids, loads := db2.loads)
  {
  }

  /** Defect: a PENDING sibling bid survives an acceptance on its load, next to the ACCEPTED load. */
  lemma AcceptBidLeavesSiblingsPending(db: Db, loadId: LoadId, bidId: BidId, userId: UserId, other: BidId)
    requires AcceptBidGuard(db, loadId, bidId, userId).Pass?
    requires other in db.bids && other != bidId && db.bids[other].loadId == loadId && db.bids[other].status.Pending?
    ensures var db2 := AcceptBid(db, loadId, bidId, userId).0;
      && db2.loads[loadId].status.Accepted?
      && other in db2.bids && db2.bids[other].status.Pending?
  {
  }

  /**
   * The corrected acceptance: the same checks and saves, then every other PENDING
   * bid on the load is REJECTED, as the comment over the bulk update says.
   */
  ghost function AcceptBidFixed(db: Db, loadId: LoadId, bidId: BidId, userId: UserId): Result<Db, Error> {
    match AcceptBidGuard(db, loadId, bidId, userId)
    case Fail(e) => Failure(e)
    case Pass =>
      var db1 := SaveAcceptance(db, loadId, bidId);
      Success(db1.(bids := RejectAll(db1.bids, PendingOn(db1.bids, loadId))))
  }

  /**
   * The corrected acceptBid succeeds exactly on the caller's PUBLISHED load with a
   * PENDING bid on it. Afterwards the load is ACCEPTED with that bid and its amount,
   * no bid on the load is PENDING, and when no bid on the load was ACCEPTED before,
   * the chosen bid is the only ACCEPTED one. Trucks and shipments are untouched.
   */
  lemma AcceptBidSpec(db: Db, loadId: LoadId, bidId: BidId, userId: UserId)
    ensures var r := AcceptBidFixed(db, loadId, bidId, userId);
      && (r.Success? <==> FindShipperLoad(db, loadId, userId).Success? && db.loads[loadId].status.Published?
                          && bidId in db.bids && db.bids[bidId].loadId == loadId && db.bids[bidId].status.Pending?)
      && (r.Failure? ==> r.error == AcceptBid(db, loadId, bidId, userId).1.error)
      && (r.Success? ==>
            var db2 := r.value;
            && db2.loads == AcceptBid(db, loadId, bidId, userId).0.loads
            && db2.loads[loadId] == db.loads[loadId].(status := LoadStatus.Accepted, acceptedBid := Some(bidId),
                                                      acceptedBidAmount := Some(db.bids[bidId].amount))
            && db2.bids.Keys == db.bids.Keys
            && db2.bids[bidId].status.Accepted?
            && (forall b :: b in db2.bids && db2.bids[b].loadId == loadId ==> !db2.bids[b].status.Pending?)
            && (forall b :: b in db.bids && db.bids[b].loadId != loadId ==> db2.bids[b] == db.bids[b])
            && ((forall b :: b in db.bids && db.bids[b].loadId == loadId ==> !db.bids[b].status.Accepted?) ==>
                  forall b :: b in db2.bids && db2.bids[b].loadId == loadId ==> (db2.bids[b].status.Accepted? <==> b == bidId))
            && db2.trucks == db.trucks && db2.shipments == db.shipments)
  {
  }

  /** A load with an ACCEPTED bid has left PUBLISHED, and no load has two ACCEPTED bids. */
  ghost predicate AcceptedBidsOk(db: Db) {
    && (forall b :: b in db.bids && db.bids[b].status.Accepted? ==>
          db.bids[b].loadId in db.loads && !db.loads[db.bids[b].loadId].status.Published?)
    && (forall b1, b2 ::
          (b1 in db.bids && b2 in db.bids && db.bids[b1].loadId == db.bids[b2].loadId
           && db.bids[b1].status.Accepted? && db.bids[b2].status.Accepted?) ==> b1 == b2)
  }

  /**
   * Both acceptances keep every truck schedule valid, keep one bid per carrier per
   * load and non-empty bid windows, and keep at most one ACCEPTED bid per load.
   */
  lemma AcceptBidKeepsInvariants(db: Db, loadId: LoadId, bidId: BidId, userId: UserId)
    requires Bids.Schedules(db) && Bids.OneBidPerCarrier(db) && Bids.BidWindowsOk(db) && AcceptedBidsOk(db)
    ensures var db2 := AcceptBid(db, loadId, bidId, userId).0;
      Bids.Schedules(db2) && Bids.OneBidPerCarrier(db2) && Bids.BidWindowsOk(db2) && AcceptedBidsOk(db2)
    ensures AcceptBidFixed(db, loadId, bidId, userId).Success? ==>
      var db2 := AcceptBidFixed(db, loadId, bidId, userId).value;
      Bids.Schedules(db2) && Bids.OneBidPerCarrier(db2) && Bids.BidWindowsOk(db2) && AcceptedBidsOk(db2)
  {
    if AcceptBidGuard(db, loadId, bidId, userId).Pass? {
      var db1 := SaveAcceptance(db, loadId, bidId);
      SaveAcceptanceKeeps(db, loadId, bidId);
      RejectKeeps(db1, PendingOn(db1.bids, loadId));
      assert AcceptBid(db, loadId, bidId, userId).0 == db1;
      assert AcceptBidFixed(db, loadId, bidId, userId).value == db1.(bids := RejectAll(db1.bids, PendingOn(db1.bids, loadId)));
    }
  }

  /** Saving the acceptance of a PENDING bid on a PUBLISHED load keeps the invariants. */
  lemma SaveAcceptanceKeeps(db: Db, loadId: LoadId, bidId: BidId)
    requires loadId in db.loads && db.loads[loadId].status.Published?
    requires bidId in db.bids && db.bids[bidId].loadId == loadId && db.bids[bidId].status.Pending?
    requires Bids.Schedules(db) && Bids.OneBidPerCarrier(db) && Bids.BidWindowsOk(db) && AcceptedBidsOk(db)
    ensures var db1 := SaveAcceptance(db, loadId, bidId);
      Bids.Schedules(db1) && Bids.OneBidPerCarrier(db1) && Bids.BidWindowsOk(db1) && AcceptedBidsOk(db1)
  {
    var db1 := SaveAcceptance(db, loadId, bidId);
    assert db1.trucks == db.trucks;
    forall b | b in db1.bids && db1.bids[b].status.Accepted?
      ensures db1.bids[b].loadId in db1.loads && !db1.loads[db1.bids[b].loadId].status.Published?
    {
      if b != bidId {
        assert db.bids[b].status.Accepted? && db.bids[b].loadId != loadId;
      }
    }
    forall b1, b2 | b1 in db1.bids && b2 in db1.bids && db1.bids[b1].loadId == db1.bids[b2].loadId
          && db1.bids[b1].status.Accepted? && db1.bids[b2].status.Accepted?
      ensures b1 == b2
    {
      if b1 != bidId && b2 != bidId {
        assert db.bids[b1].status.Accepted? && db.bids[b2].status.Accepted?;
      }
    }
  }

  /** Rejecting bids that are not ACCEPTED keeps the invariants: only statuses change, to REJECTED. */
  lemma RejectKeeps(db: Db, which: set<BidId>)
    requires forall b :: b in which && b in db.bids ==> !db.bids[b].status.Accepted?
    requires Bids.Schedules(db) && Bids.OneBidPerCarrier(db) && Bids.BidWindowsOk(db) && AcceptedBidsOk(db)
    ensures var db2 := db.(bids := RejectAll(db.bids, which));
      Bids.Schedules(db2) && Bids.OneBidPerCarrier(db2) && Bids.BidWindowsOk(db2) && AcceptedBidsOk(db2)
  {
    var db2 := db.(bids := RejectAll(db.bids, which));
    assert forall b :: b in db2.bids && db2.bids[b].status.Accepted? ==> b !in which && db2.bids[b] == db.bids[b];
  }

  // ---------------------------------------------------------------- references to loads

  /** Every bid and every shipment names a stored load. */
  ghost predicate LoadRefsOk(db: Db) {
    && (forall b :: b in db.bids ==> db.bids[b].loadId in db.loads)
    && (forall s :: s in db.shipments ==> db.shipments[s].loadId in db.loads)
  }

  /** deleteLoad never leaves a bid or a shipment pointing at a missing load. */
  lemma DeleteLoadKeepsRefs(db: Db, loadId: LoadId, userId: UserId)
    requires LoadRefsOk(db)
    ensures DeleteLoad(db, loadId, userId).Success? ==> LoadRefsOk(DeleteLoad(db, loadId, userId).value)
  {
    if DeleteLoad(db, loadId, userId).Success? {
      var db2 := DeleteLoad(db, loadId, userId).value;
      forall b | b in db2.bids
        ensures db2.bids[b].loadId in db2.loads
      {
        assert db.bids[b].loadId != loadId;
      }
      forall s | s in db2.shipments
        ensures db2.shipments[s].loadId in db2.loads
      {
        assert db.shipments[s].loadId != loadId;
      }
    }
  }
}
