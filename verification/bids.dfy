/**
 * The bid ledger (bids/bids.service.ts): placing, editing, withdrawing and
 * accepting bids, and the truck holds each step places or releases.
 */
module Bids {
  import opened Wrappers
  import opened Errors
  import opened Domain
  import opened Schedule
  import Ids
  import Shipments

  /** The body of a new bid. */
  datatype BidRequest = BidRequest(truckId: TruckId, amount: real, pickup: Time, delivery: Time)

  /** An edit of a bid; `None` is a field the request leaves out. */
  datatype BidPatch = BidPatch(pickup: Option<Time>, delivery: Option<Time>, truckId: Option<TruckId>, amount: Option<real>)

  predicate PublishedLoad(db: Db, loadId: LoadId) {
    loadId in db.loads && db.loads[loadId].status.Published?
  }

  predicate OwnedTruck(db: Db, truckId: TruckId, carrierId: CarrierId) {
    truckId in db.trucks && db.trucks[truckId].carrierId == carrierId
  }

  /** Whether the carrier already has a bid on the load, in any status. */
  predicate HasBidOn(db: Db, loadId: LoadId, carrierId: CarrierId) {
    exists b :: b in db.bids && db.bids[b].loadId == loadId && db.bids[b].carrierId == carrierId
  }

  /** The bid exists and belongs to the carrier whose user is `userId`. */
  predicate OwnedBid(db: Db, bidId: BidId, userId: UserId) {
    bidId in db.bids && CarrierUser(db, db.bids[bidId].carrierId) == Some(userId)
  }

  /** `addTruckCommitment` on the stored truck. */
  function AddHold(db: Db, truckId: TruckId, c: Commitment): (r: Db)
    ensures r == db.(trucks := r.trucks) && r.trucks.Keys == db.trucks.Keys
    ensures forall t :: t in db.trucks && t != truckId ==> r.trucks[t] == db.trucks[t]
  {
    if truckId in db.trucks then
      db.(trucks := db.trucks[truckId := db.trucks[truckId].(commitments := Commit(db.trucks[truckId].commitments, c))])
    else db
  }

  /** `removeTruckCommitment` on the stored truck. */
  function DropHold(db: Db, truckId: TruckId, bidId: BidId): (r: Db)
    ensures r == db.(trucks := r.trucks) && r.trucks.Keys == db.trucks.Keys
    ensures forall t :: t in db.trucks && t != truckId ==> r.trucks[t] == db.trucks[t]
  {
    if truckId in db.trucks then
      db.(trucks := db.trucks[truckId := db.trucks[truckId].(commitments := Release(db.trucks[truckId].commitments, bidId))])
    else db
  }

  // ---------------------------------------------------------------- invariants

  /** Every truck's schedule is valid. */
  ghost predicate Schedules(db: Db) {
    forall t :: t in db.trucks ==> ScheduleOk(db.trucks[t].commitments)
  }

  /** Every bid proposes a non-empty window. */
  ghost predicate BidWindowsOk(db: Db) {
    forall b :: b in db.bids ==> db.bids[b].pickup < db.bids[b].delivery
  }

  /** A carrier has at most one bid on a load. */
  ghost predicate OneBidPerCarrier(db: Db) {
    forall b1, b2 ::
      (b1 in db.bids && b2 in db.bids && db.bids[b1].loadId == db.bids[b2].loadId
       && db.bids[b1].carrierId == db.bids[b2].carrierId) ==> b1 == b2
  }

  lemma DropHoldKeepsSchedules(db: Db, truckId: TruckId, bidId: BidId)
    requires Schedules(db)
    ensures Schedules(DropHold(db, truckId, bidId))
    ensures DropHold(db, truckId, bidId).trucks.Keys == db.trucks.Keys
  {
    if truckId in db.trucks {
      ReleaseKeepsScheduleOk(db.trucks[truckId].commitments, bidId);
    }
  }

  lemma AddHoldKeepsSchedules(db: Db, truckId: TruckId, c: Commitment)
    requires Schedules(db) && c.start < c.end
    requires truckId in db.trucks ==> !HasConflict(db.trucks[truckId].commitments, c.start, c.end)
    ensures Schedules(AddHold(db, truckId, c))
  {
    if truckId in db.trucks {
      CommitKeepsScheduleOk(db.trucks[truckId].commitments, c);
    }
  }

  // ---------------------------------------------------------------- createBid

  /**
   * `createBid`: load open for bidding, caller's carrier, truck of that carrier,
   * truck availability, no earlier bid of the carrier on the load, then the dates.
   * The new PENDING bid is saved and its window held on the truck.
   */
  ghost function CreateBid(db: Db, loadId: LoadId, userId: UserId, req: BidRequest, now: Time): Result<(Db, BidId), Error> {
    if !PublishedLoad(db, loadId) then Failure(NotFound("Load not found or not available for bidding"))
    else match CarrierOfUser(db, userId)
      case None => Failure(NotFound("Carrier not found"))
      case Some(carrierId) =>
        if !OwnedTruck(db, req.truckId, carrierId) then
          Failure(NotFound("Truck not found or does not belong to carrier"))
        else
          var check := ValidateAvailability(db.trucks[req.truckId], req.pickup, req.delivery);
          if check.Fail? then Failure(check.error)
          else if HasBidOn(db, loadId, carrierId) then
            Failure(Conflict("Carrier has already placed a bid for this load"))
          else if req.pickup >= req.delivery then
            Failure(BadRequest("Pickup date must be before delivery date"))
          else if req.pickup <= now then
            Failure(BadRequest("Pickup date must be in the future"))
          else
            var id := Ids.FreshId(db.bids);
            var bid := Bid(loadId, carrierId, req.truckId, req.amount, BidStatus.Pending, req.pickup, req.delivery);
            Success((AddHold(db.(bids := db.bids[id := bid]), req.truckId,
                             Commitment(req.pickup, req.delivery, loadId, id)), id))
  }

  /** Everything a new bid needs, stated independently of the order of the checks. */
  ghost predicate MayBid(db: Db, loadId: LoadId, userId: UserId, req: BidRequest, now: Time) {
    && PublishedLoad(db, loadId)
    && CarrierOfUser(db, userId).Some?
    && OwnedTruck(db, req.truckId, CarrierOfUser(db, userId).value)
    && db.trucks[req.truckId].status.Available?
    && !HasConflict(db.trucks[req.truckId].commitments, req.pickup, req.delivery)
    && !HasBidOn(db, loadId, CarrierOfUser(db, userId).value)
    && req.pickup < req.delivery
    && now < req.pickup
  }

  /**
   * createBid succeeds exactly when every condition holds; it then adds one fresh
   * PENDING bid and appends its window to the chosen truck, and nothing else changes.
   */
  lemma CreateBidSpec(db: Db, loadId: LoadId, userId: UserId, req: BidRequest, now: Time)
    ensures var r := CreateBid(db, loadId, userId, req, now);
      && (r.Success? <==> MayBid(db, loadId, userId, req, now))
      && (r.Success? ==>
            var db2, id := r.value.0, r.value.1;
            var carrierId := CarrierOfUser(db, userId).value;
            && id !in db.bids
            && db2.bids == db.bids[id := Bid(loadId, carrierId, req.truckId, req.amount, BidStatus.Pending, req.pickup, req.delivery)]
            && db2.trucks == db.trucks[req.truckId := db.trucks[req.truckId].(
                 commitments := db.trucks[req.truckId].commitments + [Commitment(req.pickup, req.delivery, loadId, id)])]
            && db2 == db.(bids := db2.bids, trucks := db2.trucks))
  {
  }

  /**
   * The order of createBid's checks: a missing load, carrier or truck is NotFound;
   * an unavailable truck is BadRequest before any other check; a clash is Conflict;
   * an earlier bid of the carrier, in any status, is Conflict before the dates are
   * looked at.
   */
  lemma CreateBidGuardOrder(db: Db, loadId: LoadId, userId: UserId, req: BidRequest, now: Time)
    ensures var r := CreateBid(db, loadId, userId, req, now);
      && (r.Failure? && r.error.NotFound? <==>
            !PublishedLoad(db, loadId) || CarrierOfUser(db, userId).None?
            || !OwnedTruck(db, req.truckId, CarrierOfUser(db, userId).value))
      && (PublishedLoad(db, loadId) && CarrierOfUser(db, userId).Some?
          && OwnedTruck(db, req.truckId, CarrierOfUser(db, userId).value) ==>
            && (!db.trucks[req.truckId].status.Available? ==>
                  r == Failure(BadRequest("Truck is not available for new commitments")))
            && (db.trucks[req.truckId].status.Available?
                && HasConflict(db.trucks[req.truckId].commitments, req.pickup, req.delivery) ==>
                  r == Failure(Conflict("Truck has conflicting commitments for the proposed dates")))
            && (db.trucks[req.truckId].status.Available?
                && !HasConflict(db.trucks[req.truckId].commitments, req.pickup, req.delivery)
                && HasBidOn(db, loadId, CarrierOfUser(db, userId).value) ==>
                  r == Failure(Conflict("Carrier has already placed a bid for this load"))))
  {
    CreateBidNotFound(db, loadId, userId, req, now);
    if PublishedLoad(db, loadId) && CarrierOfUser(db, userId).Some?
       && OwnedTruck(db, req.truckId, CarrierOfUser(db, userId).value) {
      CreateBidLaterGuards(db, loadId, userId, req, now, CarrierOfUser(db, userId).value);
    }
  }

  /** The NotFound half of `CreateBidGuardOrder`. */
  lemma CreateBidNotFound(db: Db, loadId: LoadId, userId: UserId, req: BidRequest, now: Time)
    ensures var r := CreateBid(db, loadId, userId, req, now);
      r.Failure? && r.error.NotFound? <==>
        !PublishedLoad(db, loadId) || CarrierOfUser(db, userId).None?
        || !OwnedTruck(db, req.truckId, CarrierOfUser(db, userId).value)
  {
  }

  /** The availability and earlier-bid half of `CreateBidGuardOrder`. */
  lemma CreateBidLaterGuards(db: Db, loadId: LoadId, userId: UserId, req: BidRequest, now: Time, carrierId: CarrierId)
    requires PublishedLoad(db, loadId) && CarrierOfUser(db, userId) == Some(carrierId)
    requires OwnedTruck(db, req.truckId, carrierId)
    ensures var r := CreateBid(db, loadId, userId, req, now);
      && (!db.trucks[req.truckId].status.Available? ==>
            r == Failure(BadRequest("Truck is not available for new commitments")))
      && (db.trucks[req.truckId].status.Available?
          && HasConflict(db.trucks[req.truckId].commitments, req.pickup, req.delivery) ==>
            r == Failure(Conflict("Truck has conflicting commitments for the proposed dates")))
      && (db.trucks[req.truckId].status.Available?
          && !HasConflict(db.trucks[req.truckId].commitments, req.pickup, req.delivery)
          && HasBidOn(db, loadId, carrierId) ==>
            r == Failure(Conflict("Carrier has already placed a bid for this load")))
  {
  }

  /** createBid keeps every truck's schedule valid. */
  lemma CreateBidKeepsSchedules(db: Db, loadId: LoadId, userId: UserId, req: BidRequest, now: Time)
    requires Schedules(db)
    requires CreateBid(db, loadId, userId, req, now).Success?
    ensures Schedules(CreateBid(db, loadId, userId, req, now).value.0)
  {
    var id := Ids.FreshId(db.bids);
    var carrierId := CarrierOfUser(db, userId).value;
    var db1 := db.(bids := db.bids[id := Bid(loadId, carrierId, req.truckId, req.amount, BidStatus.Pending, req.pickup, req.delivery)]);
    AddHoldKeepsSchedules(db1, req.truckId, Commitment(req.pickup, req.delivery, loadId, id));
  }

  /** createBid keeps one bid per carrier per load, and every bid window non-empty. */
  lemma CreateBidKeepsLedger(db: Db, loadId: LoadId, userId: UserId, req: BidRequest, now: Time)
    requires OneBidPerCarrier(db) && BidWindowsOk(db)
    requires CreateBid(db, loadId, userId, req, now).Success?
    ensures OneBidPerCarrier(CreateBid(db, loadId, userId, req, now).value.0)
    ensures BidWindowsOk(CreateBid(db, loadId, userId, req, now).value.0)
  {
    CreateBidSpec(db, loadId, userId, req, now);
  }

  // ---------------------------------------------------------------- cancelBid

  /** `cancelBid`: only the owner's PENDING bid; its hold is released. */
  ghost function CancelBid(db: Db, bidId: BidId, userId: UserId): Result<(Db, Bid), Error> {
    if !OwnedBid(db, bidId, userId) then Failure(NotFound("Bid not found or not owned by carrier"))
    else
      var bid := db.bids[bidId];
      if bid.status.Cancelled? then Failure(BadRequest("Bid is already cancelled"))
      else if !bid.status.Pending? then Failure(BadRequest("Only pending bids can be cancelled"))
      else
        var saved := bid.(status := BidStatus.Cancelled);
        Success((DropHold(db.(bids := db.bids[bidId := saved]), saved.truckId, bidId), saved))
  }

  /**
   * cancelBid succeeds exactly on the owner's PENDING bid; the bid is then
   * CANCELLED, its truck loses exactly the holds of that bid and keeps every
   * other field and hold, and nothing else changes.
   */
  lemma CancelBidSpec(db: Db, bidId: BidId, userId: UserId)
    ensures var r := CancelBid(db, bidId, userId);
      && (r.Success? <==> OwnedBid(db, bidId, userId) && db.bids[bidId].status.Pending?)
      && (OwnedBid(db, bidId, userId) && db.bids[bidId].status.Cancelled? ==>
            r == Failure(BadRequest("Bid is already cancelled")))
      && (r.Failure? ==> r.error.NotFound? || r.error.BadRequest?)
      && (r.Success? ==>
            var db2, saved := r.value.0, r.value.1;
            var t := db.bids[bidId].truckId;
            && saved == db.bids[bidId].(status := BidStatus.Cancelled)
            && db2.bids == db.bids[bidId := saved]
            && db2.trucks.Keys == db.trucks.Keys
            && (t in db2.trucks ==> forall c :: c in db2.trucks[t].commitments ==> c.bidId != bidId)
            && (t in db.trucks ==> db2.trucks[t] == db.trucks[t].(commitments := Release(db.trucks[t].commitments, bidId)))
            && (forall u :: u in db.trucks && u != t ==> db2.trucks[u] == db.trucks[u])
            && db2 == db.(bids := db2.bids, trucks := db2.trucks))
  {
  }

  /** cancelBid keeps every truck's schedule valid and the ledger invariants. */
  lemma CancelBidKeepsInvariants(db: Db, bidId: BidId, userId: UserId)
    requires Schedules(db) && OneBidPerCarrier(db) && BidWindowsOk(db)
    requires CancelBid(db, bidId, userId).Success?
    ensures Schedules(CancelBid(db, bidId, userId).value.0)
    ensures OneBidPerCarrier(CancelBid(db, bidId, userId).value.0)
    ensures BidWindowsOk(CancelBid(db, bidId, userId).value.0)
  {
    var bid := db.bids[bidId];
    DropHoldKeepsSchedules(db.(bids := db.bids[bidId := bid.(status := BidStatus.Cancelled)]), bid.truckId, bidId);
  }

  /** A cancelled bid stays on the ledger: the carrier can never bid on that load again. */
  lemma NoBidAfterCancel(db: Db, bidId: BidId, userId: UserId, req: BidRequest, now: Time)
    requires CarrierUsersUnique(db)
    requires CancelBid(db, bidId, userId).Success?
    ensures var db2 := CancelBid(db, bidId, userId).value.0;
      && CancelBid(db2, bidId, userId) == Failure(BadRequest("Bid is already cancelled"))
      && CreateBid(db2, db.bids[bidId].loadId, userId, req, now).Failure?
  {
    var db2 := CancelBid(db, bidId, userId).value.0;
    var loadId := db.bids[bidId].loadId;
    assert db2.carriers == db.carriers;
    assert bidId in db2.bids && db2.bids[bidId].loadId == loadId;
    if CarrierOfUser(db2, userId).Some? {
      var c := CarrierOfUser(db2, userId).value;
      assert db2.bids[bidId].carrierId == c;
      assert HasBidOn(db2, loadId, c);
    }
  }

  // ---------------------------------------------------------------- updateBid

  /** Whether the patch names a different truck than the bid's. */
  predicate ChangesTruck(bid: Bid, patch: BidPatch) {
    patch.truckId.Some? && patch.truckId.value != bid.truckId
  }

  predicate ChangesDates(patch: BidPatch) {
    patch.pickup.Some? || patch.delivery.Some?
  }

  /** The bid with the patch's dates and amount applied. */
  function Patched(bid: Bid, patch: BidPatch): Bid {
    bid.(pickup := patch.pickup.GetOr(bid.pickup), delivery := patch.delivery.GetOr(bid.delivery),
         amount := patch.amount.GetOr(bid.amount))
  }

  /** The hold a bid places on its truck. */
  function HoldOf(bidId: BidId, bid: Bid): Commitment {
    Commitment(bid.pickup, bid.delivery, bid.loadId, bidId)
  }

  /** The common tail of updateBid: save the bid, then append its window to its truck. */
  function SaveAndHold(db: Db, bidId: BidId, saved: Bid): (Db, Result<Bid, Error>) {
    (AddHold(db.(bids := db.bids[bidId := saved]), saved.truckId, HoldOf(bidId, saved)), Success(saved))
  }

  /**
   * `updateBid` as written. The result pairs the database with the outcome because
   * a failed re-check of the same truck happens after its hold was released.
   */
  ghost function UpdateBid(db: Db, bidId: BidId, userId: UserId, patch: BidPatch, now: Time): (Db, Result<Bid, Error>) {
    if !OwnedBid(db, bidId, userId) then (db, Failure(NotFound("Bid not found or not owned by carrier")))
    else
      var bid := db.bids[bidId];
      var next := Patched(bid, patch);
      if !bid.status.Pending? then (db, Failure(BadRequest("Only pending bids can be updated")))
      else if ChangesDates(patch) && next.pickup >= next.delivery then
        (db, Failure(BadRequest("Pickup date must be before delivery date")))
      else if ChangesDates(patch) && next.pickup <= now then
        (db, Failure(BadRequest("Pickup date must be in the future")))
      else if ChangesTruck(bid, patch) then
        var newTruck := patch.truckId.value;
        if !OwnedTruck(db, newTruck, bid.carrierId) then
          (db, Failure(NotFound("Truck not found or does not belong to carrier")))
        else
          var check := ValidateAvailability(db.trucks[newTruck], next.pickup, next.delivery);
          if check.Fail? then (db, Failure(check.error))
          else SaveAndHold(DropHold(db, bid.truckId, bidId), bidId, next.(truckId := newTruck))
      else if ChangesDates(patch) then
        var db1 := DropHold(db, bid.truckId, bidId);
        var check := if bid.truckId in db1.trucks then ValidateAvailability(db1.trucks[bid.truckId], next.pickup, next.delivery) else Pass;
        if check.Fail? then (db1, Failure(check.error))
        else SaveAndHold(db1, bidId, next)
      else SaveAndHold(db, bidId, next)
  }

  /** Only PENDING bids can be edited, and a refused edit writes nothing. */
  lemma UpdateBidOnlyPending(db: Db, bidId: BidId, userId: UserId, patch: BidPatch, now: Time)
    requires OwnedBid(db, bidId, userId) && !db.bids[bidId].status.Pending?
    ensures UpdateBid(db, bidId, userId, patch, now) == (db, Failure(BadRequest("Only pending bids can be updated")))
  {
  }

  /**
   * Moving a bid's dates on the same truck is checked against the truck's other
   * holds only: the bid's own old window never blocks the move, and on success the
   * old window is replaced by the new one.
   */
  lemma UpdateBidReschedulesOwnHold(db: Db, bidId: BidId, userId: UserId, patch: BidPatch, now: Time)
    requires OwnedBid(db, bidId, userId) && db.bids[bidId].status.Pending?
    requires ChangesDates(patch) && !ChangesTruck(db.bids[bidId], patch)
    requires var next := Patched(db.bids[bidId], patch); now < next.pickup < next.delivery
    requires db.bids[bidId].truckId in db.trucks
    requires var t := db.trucks[db.bids[bidId].truckId];
      t.status.Available? && !HasConflict(Release(t.commitments, bidId), Patched(db.bids[bidId], patch).pickup, Patched(db.bids[bidId], patch).delivery)
    ensures var res := UpdateBid(db, bidId, userId, patch, now);
      var db2, r := res.0, res.1;
      var bid := db.bids[bidId];
      && r == Success(Patched(bid, patch))
      && db2.trucks[bid.truckId].commitments
           == Release(db.trucks[bid.truckId].commitments, bidId) + [HoldOf(bidId, Patched(bid, patch))]
  {
  }

  /**
   * Whenever the edit moves the dates or the truck, updateBid keeps every truck's
   * schedule valid, whether it succeeds or fails.
   */
  lemma UpdateBidRescheduleKeepsSchedules(db: Db, bidId: BidId, userId: UserId, patch: BidPatch, now: Time)
    requires Schedules(db) && BidWindowsOk(db)
    requires bidId in db.bids && (ChangesDates(patch) || ChangesTruck(db.bids[bidId], patch))
    ensures Schedules(UpdateBid(db, bidId, userId, patch, now).0)
  {
    var bid := db.bids[bidId];
    var next := Patched(bid, patch);
    if OwnedBid(db, bidId, userId) && bid.status.Pending?
       && !(ChangesDates(patch) && next.pickup >= next.delivery)
       && !(ChangesDates(patch) && next.pickup <= now) {
      if ChangesTruck(bid, patch) {
        MoveTruckKeepsSchedules(db, bidId, userId, patch, now);
      } else {
        MoveDatesKeepsSchedules(db, bidId, userId, patch, now);
      }
    }
  }

  /** The truck-changing branch of `UpdateBidRescheduleKeepsSchedules`. */
  lemma MoveTruckKeepsSchedules(db: Db, bidId: BidId, userId: UserId, patch: BidPatch, now: Time)
    requires Schedules(db) && BidWindowsOk(db)
    requires OwnedBid(db, bidId, userId) && db.bids[bidId].status.Pending?
    requires ChangesTruck(db.bids[bidId], patch)
    requires var next := Patched(db.bids[bidId], patch);
      !(ChangesDates(patch) && next.pickup >= next.delivery) && !(ChangesDates(patch) && next.pickup <= now)
    ensures Schedules(UpdateBid(db, bidId, userId, patch, now).0)
  {
    var bid := db.bids[bidId];
    var next := Patched(bid, patch);
    var newTruck := patch.truckId.value;
    if OwnedTruck(db, newTruck, bid.carrierId) && ValidateAvailability(db.trucks[newTruck], next.pickup, next.delivery).Pass? {
      var db1 := DropHold(db, bid.truckId, bidId);
      DropHoldKeepsSchedules(db, bid.truckId, bidId);
      var saved := next.(truckId := newTruck);
      assert UpdateBid(db, bidId, userId, patch, now) == SaveAndHold(db1, bidId, saved);
      assert db1.trucks[newTruck] == db.trucks[newTruck];
      AddHoldKeepsSchedules(db1.(bids := db1.bids[bidId := saved]), newTruck, HoldOf(bidId, saved));
    }
  }

  /** The same-truck branch of `UpdateBidRescheduleKeepsSchedules`: only the dates move. */
  lemma MoveDatesKeepsSchedules(db: Db, bidId: BidId, userId: UserId, patch: BidPatch, now: Time)
    requires Schedules(db) && BidWindowsOk(db)
    requires OwnedBid(db, bidId, userId) && db.bids[bidId].status.Pending?
    requires ChangesDates(patch) && !ChangesTruck(db.bids[bidId], patch)
    requires var next := Patched(db.bids[bidId], patch);
      next.pickup < next.delivery && now < next.pickup
    ensures Schedules(UpdateBid(db, bidId, userId, patch, now).0)
  {
    var bid := db.bids[bidId];
    var next := Patched(bid, patch);
    var db1 := DropHold(db, bid.truckId, bidId);
    DropHoldKeepsSchedules(db, bid.truckId, bidId);
    if bid.truckId in db1.trucks ==> ValidateAvailability(db1.trucks[bid.truckId], next.pickup, next.delivery).Pass? {
      assert UpdateBid(db, bidId, userId, patch, now) == SaveAndHold(db1, bidId, next);
      AddHoldKeepsSchedules(db1.(bids := db1.bids[bidId := next]), bid.truckId, HoldOf(bidId, next));
    }
  }

  /**
   * Defect: an edit of the amount alone appends the bid's window to its truck a
   * second time, so a truck that held the bid's window ends with two identical,
   * clashing commitments.
   */
  lemma UpdateBidDuplicatesHold(db: Db, bidId: BidId, userId: UserId, amount: real, now: Time)
    requires OwnedBid(db, bidId, userId) && db.bids[bidId].status.Pending?
    requires db.bids[bidId].pickup < db.bids[bidId].delivery
    requires db.bids[bidId].truckId in db.trucks
    requires HoldOf(bidId, db.bids[bidId]) in db.trucks[db.bids[bidId].truckId].commitments
    ensures var res := UpdateBid(db, bidId, userId, BidPatch(None, None, None, Some(amount)), now);
      var db2, r := res.0, res.1;
      && r.Success?
      && !Disjoint(db2.trucks[db.bids[bidId].truckId].commitments)
      && !Schedules(db2)
  {
    var bid := db.bids[bidId];
    var cs := db.trucks[bid.truckId].commitments;
    var res := UpdateBid(db, bidId, userId, BidPatch(None, None, None, Some(amount)), now);
    var db2, r := res.0, res.1;
    var cs2 := db2.trucks[bid.truckId].commitments;
    var k :| 0 <= k < |cs| && cs[k] == HoldOf(bidId, bid);
    assert cs2 == cs + [HoldOf(bidId, bid)];
    assert cs2[k] == cs2[|cs|] && Clash(cs2[k], cs2[|cs|]);
  }

  /**
   * Defect: when a same-truck date change fails the re-check (the truck went into
   * maintenance, say), the bid stays PENDING but its hold is already gone.
   */
  lemma UpdateBidDropsHoldOnFailure(db: Db, bidId: BidId, userId: UserId, patch: BidPatch, now: Time)
    requires OwnedBid(db, bidId, userId) && db.bids[bidId].status.Pending?
    requires ChangesDates(patch) && !ChangesTruck(db.bids[bidId], patch)
    requires var next := Patched(db.bids[bidId], patch); now < next.pickup < next.delivery
    requires db.bids[bidId].truckId in db.trucks && !db.trucks[db.bids[bidId].truckId].status.Available?
    ensures var res := UpdateBid(db, bidId, userId, patch, now);
      var db2, r := res.0, res.1;
      var t := db.bids[bidId].truckId;
      && r == Failure(BadRequest("Truck is not available for new commitments"))
      && db2.bids[bidId] == db.bids[bidId]
      && db2.trucks[t].commitments == Release(db.trucks[t].commitments, bidId)
      && forall c :: c in db2.trucks[t].commitments ==> c.bidId != bidId
  {
  }

  /**
   * updateBid as evidently intended: edits that leave dates and truck alone do not
   * touch any truck, and a rescheduling edit either moves the hold (released from
   * the old truck and from the target, checked against the target's remaining
   * holds, then re-placed) or fails without writing anything.
   */
  ghost function UpdateBidFixed(db: Db, bidId: BidId, userId: UserId, patch: BidPatch, now: Time): Result<(Db, Bid), Error> {
    if !OwnedBid(db, bidId, userId) then Failure(NotFound("Bid not found or not owned by carrier"))
    else
      var bid := db.bids[bidId];
      var next := Patched(bid, patch);
      if !bid.status.Pending? then Failure(BadRequest("Only pending bids can be updated"))
      else if ChangesDates(patch) && next.pickup >= next.delivery then
        Failure(BadRequest("Pickup date must be before delivery date"))
      else if ChangesDates(patch) && next.pickup <= now then
        Failure(BadRequest("Pickup date must be in the future"))
      else if ChangesTruck(bid, patch) && !OwnedTruck(db, patch.truckId.value, bid.carrierId) then
        Failure(NotFound("Truck not found or does not belong to carrier"))
      else if !ChangesDates(patch) && !ChangesTruck(bid, patch) then
        Success((db.(bids := db.bids[bidId := next]), next))
      else
        var target := if ChangesTruck(bid, patch) then patch.truckId.value else bid.truckId;
        Move(db, bidId, bid.truckId, next.(truckId := target))
  }

  /**
   * The rescheduling step of the corrected edit: release the bid's hold from its
   * old truck and from the target, check the target's remaining holds, then save
   * the bid and hold its new window; nothing is written when the check fails.
   */
  ghost function Move(db: Db, bidId: BidId, oldTruck: TruckId, saved: Bid): Result<(Db, Bid), Error> {
    var db1 := DropHold(DropHold(db, oldTruck, bidId), saved.truckId, bidId);
    var check := if saved.truckId in db1.trucks then ValidateAvailability(db1.trucks[saved.truckId], saved.pickup, saved.delivery) else Pass;
    if check.Fail? then Failure(check.error)
    else Success((AddHold(db1.(bids := db1.bids[bidId := saved]), saved.truckId, HoldOf(bidId, saved)), saved))
  }

  /** A successful move leaves every schedule valid. */
  lemma MoveKeepsSchedules(db: Db, bidId: BidId, oldTruck: TruckId, saved: Bid)
    requires Schedules(db) && saved.pickup < saved.delivery
    requires Move(db, bidId, oldTruck, saved).Success?
    ensures Schedules(Move(db, bidId, oldTruck, saved).value.0)
  {
    var db0 := DropHold(db, oldTruck, bidId);
    DropHoldKeepsSchedules(db, oldTruck, bidId);
    var db1 := DropHold(db0, saved.truckId, bidId);
    DropHoldKeepsSchedules(db0, saved.truckId, bidId);
    var db2 := db1.(bids := db1.bids[bidId := saved]);
    assert Schedules(db2) by {
      assert db2.trucks == db1.trucks;
    }
    AddHoldWhenFree(db2, saved.truckId, HoldOf(bidId, saved));
    assert Move(db, bidId, oldTruck, saved) == Success((AddHold(db2, saved.truckId, HoldOf(bidId, saved)), saved));
  }

  /** A move changes the bid itself and nothing else on the ledger. */
  lemma MoveWritesBid(db: Db, bidId: BidId, oldTruck: TruckId, saved: Bid)
    requires Move(db, bidId, oldTruck, saved).Success?
    ensures Move(db, bidId, oldTruck, saved).value.0.bids == db.bids[bidId := saved]
  {
    var db1 := DropHold(DropHold(db, oldTruck, bidId), saved.truckId, bidId);
    assert db1.bids == db.bids;
    assert Move(db, bidId, oldTruck, saved).value.0.bids == db1.bids[bidId := saved];
  }

  /** Holding a window that passed the availability test keeps every schedule valid. */
  lemma AddHoldWhenFree(db: Db, truckId: TruckId, c: Commitment)
    requires Schedules(db) && c.start < c.end
    requires truckId in db.trucks ==> ValidateAvailability(db.trucks[truckId], c.start, c.end).Pass?
    ensures Schedules(AddHold(db, truckId, c))
  {
    AddHoldKeepsSchedules(db, truckId, c);
  }

  /** The corrected edit keeps every truck's schedule valid on every path. */
  lemma UpdateBidFixedKeepsSchedules(db: Db, bidId: BidId, userId: UserId, patch: BidPatch, now: Time)
    requires Schedules(db) && BidWindowsOk(db)
    requires UpdateBidFixed(db, bidId, userId, patch, now).Success?
    ensures Schedules(UpdateBidFixed(db, bidId, userId, patch, now).value.0)
    ensures BidWindowsOk(UpdateBidFixed(db, bidId, userId, patch, now).value.0)
  {
    var bid := db.bids[bidId];
    var next := Patched(bid, patch);
    assert next.pickup < next.delivery by {
      if !ChangesDates(patch) {
        assert next.pickup == bid.pickup && next.delivery == bid.delivery;
      }
    }
    var db2 := UpdateBidFixed(db, bidId, userId, patch, now).value.0;
    if ChangesDates(patch) || ChangesTruck(bid, patch) {
      var saved := next.(truckId := if ChangesTruck(bid, patch) then patch.truckId.value else bid.truckId);
      assert UpdateBidFixed(db, bidId, userId, patch, now) == Move(db, bidId, bid.truckId, saved);
      MoveKeepsSchedules(db, bidId, bid.truckId, saved);
      MoveWritesBid(db, bidId, bid.truckId, saved);
      WindowsAfterWrite(db, db2, bidId, saved);
    } else {
      assert db2 == db.(bids := db.bids[bidId := next]);
      WindowsAfterWrite(db, db2, bidId, next);
    }
  }

  /** Writing one bid with a non-empty window keeps every bid window non-empty. */
  lemma WindowsAfterWrite(db: Db, db2: Db, bidId: BidId, bid: Bid)
    requires BidWindowsOk(db) && bid.pickup < bid.delivery
    requires db2.bids == db.bids[bidId := bid]
    ensures BidWindowsOk(db2)
  {
  }

  /** The corrected edit never leaves a second copy of the bid's window on its truck. */
  lemma UpdateBidFixedSingleHold(db: Db, bidId: BidId, userId: UserId, patch: BidPatch, now: Time)
    requires Schedules(db) && BidWindowsOk(db)
    requires UpdateBidFixed(db, bidId, userId, patch, now).Success?
    ensures var res := UpdateBidFixed(db, bidId, userId, patch, now).value;
      var db2, saved := res.0, res.1;
      saved.truckId in db2.trucks ==> Disjoint(db2.trucks[saved.truckId].commitments)
  {
    UpdateBidFixedKeepsSchedules(db, bidId, userId, patch, now);
  }

  /** Where the as-written edit reschedules on the same truck successfully, the corrected one agrees. */
  lemma UpdateBidFixedAgrees(db: Db, bidId: BidId, userId: UserId, patch: BidPatch, now: Time)
    requires bidId in db.bids && ChangesDates(patch) && !ChangesTruck(db.bids[bidId], patch)
    requires UpdateBid(db, bidId, userId, patch, now).1.Success?
    ensures UpdateBidFixed(db, bidId, userId, patch, now).Success?
    ensures UpdateBidFixed(db, bidId, userId, patch, now).value
         == (UpdateBid(db, bidId, userId, patch, now).0, UpdateBid(db, bidId, userId, patch, now).1.value)
  {
    var bid := db.bids[bidId];
    var db1 := DropHold(db, bid.truckId, bidId);
    if bid.truckId in db.trucks {
      ReleaseIdempotent(db.trucks[bid.truckId].commitments, bidId);
      assert db1.trucks[bid.truckId := db1.trucks[bid.truckId]] == db1.trucks;
    }
    assert DropHold(db1, bid.truckId, bidId) == db1;
  }

  // ---------------------------------------------------------------- acceptBidByBidId

  /** The other bids on a load, whatever their status. */
  function OthersOn(bids: map<BidId, Bid>, loadId: LoadId, keep: BidId): set<BidId> {
    set b | b in bids && bids[b].loadId == loadId && b != keep
  }

  /** The bulk update that marks every other bid on the load REJECTED. */
  function RejectOthers(bids: map<BidId, Bid>, loadId: LoadId, keep: BidId): map<BidId, Bid> {
    map b | b in bids :: if b in OthersOn(bids, loadId, keep) then bids[b].(status := BidStatus.Rejected) else bids[b]
  }

  /** Each other bid's hold released from that bid's own truck. */
  function ReleaseOthers(db: Db, loadId: LoadId, keep: BidId): map<TruckId, Truck> {
    map t | t in db.trucks ::
      db.trucks[t].(commitments := ReleaseAll(db.trucks[t].commitments,
                                              set b | b in OthersOn(db.bids, loadId, keep) && db.bids[b].truckId == t))
  }

  /**
   * The writes of acceptBidByBidId that precede the shipment: the other bids'
   * holds are released and the bids rejected, the load is ACCEPTED with the
   * bid's amount, and the bid is ACCEPTED.
   */
  function AcceptWrites(db: Db, bidId: BidId): Db
    requires bidId in db.bids && db.bids[bidId].loadId in db.loads
  {
    var bid := db.bids[bidId];
    var load := db.loads[bid.loadId];
    db.(trucks := ReleaseOthers(db, bid.loadId, bidId),
        bids := RejectOthers(db.bids, bid.loadId, bidId)[bidId := bid.(status := BidStatus.Accepted)],
        loads := db.loads[bid.loadId := load.(status := LoadStatus.Accepted, acceptedBid := Some(bidId),
                                              acceptedBidAmount := Some(bid.amount))])
  }

  /**
   * `acceptBidByBidId` as written: only the bid's existence and the load's owner
   * are checked. All writes but the shipment happen before the shipment is
   * created, so a failure there leaves them in place.
   */
  ghost function AcceptBidByBidId(db: Db, bidId: BidId, shipperUserId: UserId, now: Time): (Db, Result<Bid, Error>) {
    if bidId !in db.bids then (db, Failure(NotFound("Bid not found")))
    else
      var bid := db.bids[bidId];
      if LoadShipperUser(db, bid.loadId) != Some(shipperUserId) then
        (db, Failure(NotFound("Load not found or not owned by shipper")))
      else
        var db1 := AcceptWrites(db, bidId);
        var accepted := bid.(status := BidStatus.Accepted);
        match Shipments.CreateShipmentFromBid(db1, accepted, now)
        case Success(created) => (created.0, Success(accepted))
        case Failure(e) => (db1, Failure(e))
  }

  /**
   * What acceptBidByBidId does to the ledger once the bid and the owner check
   * out: the bid is ACCEPTED; every other bid on the load is REJECTED whatever its
   * status was, and its truck holds nothing for it; bids on other loads are
   * untouched; the load is ACCEPTED with this bid and its amount. A shipment is
   * created exactly when the load has none yet and the bid's carrier and truck
   * exist; neither the load's nor the bid's status is ever looked at.
   */
  lemma AcceptBidByBidIdSpec(db: Db, bidId: BidId, shipperUserId: UserId, now: Time)
    ensures var res := AcceptBidByBidId(db, bidId, shipperUserId, now);
      var db2, r := res.0, res.1;
      && (bidId !in db.bids ==> db2 == db && r == Failure(NotFound("Bid not found")))
      && (bidId in db.bids && LoadShipperUser(db, db.bids[bidId].loadId) != Some(shipperUserId) ==>
            db2 == db && r == Failure(NotFound("Load not found or not owned by shipper")))
      && (bidId in db.bids && LoadShipperUser(db, db.bids[bidId].loadId) == Some(shipperUserId) ==>
            AcceptedLedger(db, bidId, db2, r))
  {
    if bidId in db.bids && LoadShipperUser(db, db.bids[bidId].loadId) == Some(shipperUserId) {
      var bid := db.bids[bidId];
      AcceptWritesSpec(db, bidId);
      var db1 := AcceptWrites(db, bidId);
      assert Shipments.LoadHasShipment(db1, bid.loadId) == Shipments.LoadHasShipment(db, bid.loadId);
      var created := Shipments.CreateShipmentFromBid(db1, bid.(status := BidStatus.Accepted), now);
      if created.Success? {
        var db2 := created.value.0;
        assert db2.bids == db1.bids && db2.trucks == db1.trucks && db2.loads == db1.loads;
      }
    }
  }

  /**
   * The outcome of an acceptance that passed the owner check, as
   * `AcceptBidByBidIdSpec` states it.
   */
  ghost predicate AcceptedLedger(db: Db, bidId: BidId, db2: Db, r: Result<Bid, Error>)
    requires bidId in db.bids
  {
    var bid := db.bids[bidId];
    && (r.Success? <==> bid.carrierId in db.carriers && bid.truckId in db.trucks
                        && !Shipments.LoadHasShipment(db, bid.loadId))
    && (r.Failure? ==> r.error.Internal?)
    && db2.bids.Keys == db.bids.Keys
    && db2.bids[bidId] == bid.(status := BidStatus.Accepted)
    && (forall b :: b in db.bids && b != bidId && db.bids[b].loadId == bid.loadId ==>
          db2.bids[b] == db.bids[b].(status := BidStatus.Rejected))
    && (forall b :: b in db.bids && db.bids[b].loadId != bid.loadId ==> db2.bids[b] == db.bids[b])
    && (forall b :: b in db.bids && b != bidId && db.bids[b].loadId == bid.loadId && db.bids[b].truckId in db2.trucks ==>
          forall c :: c in db2.trucks[db.bids[b].truckId].commitments ==> c.bidId != b)
    && bid.loadId in db.loads
    && db2.loads == db.loads[bid.loadId := db.loads[bid.loadId].(
         status := LoadStatus.Accepted, acceptedBid := Some(bidId), acceptedBidAmount := Some(bid.amount))]
  }

  /**
   * The writes before the shipment: the bid ACCEPTED, the other bids on its load
   * REJECTED with their holds released, other loads' bids untouched, the load
   * ACCEPTED with the bid and its amount; carriers, trucks' keys and shipments
   * stay as they were.
   */
  lemma AcceptWritesSpec(db: Db, bidId: BidId)
    requires bidId in db.bids && db.bids[bidId].loadId in db.loads
    ensures var db1 := AcceptWrites(db, bidId); var bid := db.bids[bidId];
      && db1.bids.Keys == db.bids.Keys
      && db1.bids[bidId] == bid.(status := BidStatus.Accepted)
      && (forall b :: b in db.bids && b != bidId && db.bids[b].loadId == bid.loadId ==>
            db1.bids[b] == db.bids[b].(status := BidStatus.Rejected))
      && (forall b :: b in db.bids && db.bids[b].loadId != bid.loadId ==> db1.bids[b] == db.bids[b])
      && (forall b :: b in db.bids && b != bidId && db.bids[b].loadId == bid.loadId && db.bids[b].truckId in db1.trucks ==>
            forall c :: c in db1.trucks[db.bids[b].truckId].commitments ==> c.bidId != b)
      && db1.loads == db.loads[bid.loadId := db.loads[bid.loadId].(
           status := LoadStatus.Accepted, acceptedBid := Some(bidId), acceptedBidAmount := Some(bid.amount))]
      && db1.carriers == db.carriers && db1.trucks.Keys == db.trucks.Keys && db1.shipments == db.shipments
  {
    var bid := db.bids[bidId];
    var db1 := AcceptWrites(db, bidId);
    forall b | b in db.bids && b != bidId && db.bids[b].loadId == bid.loadId && db.bids[b].truckId in db1.trucks
      ensures forall c :: c in db1.trucks[db.bids[b].truckId].commitments ==> c.bidId != b
    {
      var t := db.bids[b].truckId;
      assert b in (set x | x in OthersOn(db.bids, bid.loadId, bidId) && db.bids[x].truckId == t);
    }
  }

  /** After an acceptance the load has exactly one ACCEPTED bid: the accepted one. */
  lemma AcceptBidByBidIdSingleWinner(db: Db, bidId: BidId, shipperUserId: UserId, now: Time)
    requires bidId in db.bids && LoadShipperUser(db, db.bids[bidId].loadId) == Some(shipperUserId)
    ensures var db2 := AcceptBidByBidId(db, bidId, shipperUserId, now).0;
      forall b :: b in db2.bids && db2.bids[b].loadId == db.bids[bidId].loadId ==>
        (db2.bids[b].status.Accepted? <==> b == bidId)
  {
    AcceptBidByBidIdSpec(db, bidId, shipperUserId, now);
  }

  /** Releasing the losers' holds never breaks a truck's schedule. */
  lemma AcceptBidByBidIdKeepsSchedules(db: Db, bidId: BidId, shipperUserId: UserId, now: Time)
    requires Schedules(db)
    ensures Schedules(AcceptBidByBidId(db, bidId, shipperUserId, now).0)
  {
    if bidId in db.bids && LoadShipperUser(db, db.bids[bidId].loadId) == Some(shipperUserId) {
      var bid := db.bids[bidId];
      var db1 := AcceptWrites(db, bidId);
      forall t | t in db1.trucks
        ensures ScheduleOk(db1.trucks[t].commitments)
      {
        ReleaseAllKeepsScheduleOk(db.trucks[t].commitments,
                                  set b | b in OthersOn(db.bids, bid.loadId, bidId) && db.bids[b].truckId == t);
      }
    }
  }

  /**
   * Every shipment agrees with its load's acceptance: the load is ACCEPTED, and
   * its accepted bid is an ACCEPTED bid on that load from the shipment's carrier
   * with the shipment's truck.
   */
  ghost predicate ShipmentsConsistent(db: Db) {
    forall s :: s in db.shipments ==>
      var sh := db.shipments[s];
      && sh.loadId in db.loads && db.loads[sh.loadId].status.Accepted?
      && db.loads[sh.loadId].acceptedBid.Some?
      && var b := db.loads[sh.loadId].acceptedBid.value;
      && b in db.bids && db.bids[b].status.Accepted? && db.bids[b].loadId == sh.loadId
      && db.bids[b].carrierId == sh.carrierId && db.bids[b].truckId == sh.truckId
  }

  /**
   * Defect: accepting another bid on a load that already has a shipment rejects
   * the first winner, releases its hold, and makes the other bid the load's
   * accepted bid; the shipment creation then fails, so the existing shipment is
   * left with a carrier whose bid is REJECTED.
   */
  lemma AcceptBidByBidIdTwice(db: Db, s: ShipmentId, other: BidId, shipperUserId: UserId, now: Time)
    requires ShipmentsConsistent(db) && OneBidPerCarrier(db)
    requires s in db.shipments
    requires other in db.bids && db.bids[other].loadId == db.shipments[s].loadId
    requires Some(other) != db.loads[db.shipments[s].loadId].acceptedBid
    requires LoadShipperUser(db, db.shipments[s].loadId) == Some(shipperUserId)
    ensures var res := AcceptBidByBidId(db, other, shipperUserId, now);
      var db2, r := res.0, res.1;
      var first := db.loads[db.shipments[s].loadId].acceptedBid.value;
      && r.Failure?
      && db2.shipments == db.shipments
      && db2.bids[first].status.Rejected?
      && db2.loads[db.shipments[s].loadId].acceptedBid == Some(other)
      && db2.bids[other].carrierId != db2.shipments[s].carrierId
      && !ShipmentsConsistent(db2)
  {
    AcceptBidByBidIdSpec(db, other, shipperUserId, now);
    assert Shipments.LoadHasShipment(db, db.shipments[s].loadId);
    var db1 := AcceptWrites(db, other);
    assert Shipments.LoadHasShipment(db1, db.shipments[s].loadId);
  }

  /**
   * acceptBidByBidId as evidently intended: the same checks as the load
   * service's acceptance (the load must be PUBLISHED, the bid PENDING), and
   * nothing is written unless the shipment is created too.
   */
  ghost function AcceptBidChecked(db: Db, bidId: BidId, shipperUserId: UserId, now: Time): Result<(Db, Bid), Error> {
    if bidId !in db.bids then Failure(NotFound("Bid not found"))
    else
      var bid := db.bids[bidId];
      if LoadShipperUser(db, bid.loadId) != Some(shipperUserId) then
        Failure(NotFound("Load not found or not owned by shipper"))
      else if !db.loads[bid.loadId].status.Published? then
        Failure(BadRequest("Cannot accept bid for load with status: " + LoadStatusName(db.loads[bid.loadId].status)))
      else if !bid.status.Pending? then Failure(NotFound("Bid not found or not pending"))
      else
        var accepted := bid.(status := BidStatus.Accepted);
        var created :- Shipments.CreateShipmentFromBid(AcceptWrites(db, bidId), accepted, now);
        Success((created.0, accepted))
  }

  /** A successful checked acceptance is the pre-shipment writes followed by a created shipment. */
  lemma AcceptBidCheckedUnfold(db: Db, bidId: BidId, shipperUserId: UserId, now: Time)
    requires AcceptBidChecked(db, bidId, shipperUserId, now).Success?
    ensures bidId in db.bids && db.bids[bidId].loadId in db.loads
    ensures db.loads[db.bids[bidId].loadId].status.Published? && db.bids[bidId].status.Pending?
    ensures var accepted := db.bids[bidId].(status := BidStatus.Accepted);
      var created := Shipments.CreateShipmentFromBid(AcceptWrites(db, bidId), accepted, now);
      && created.Success?
      && AcceptBidChecked(db, bidId, shipperUserId, now).value == (created.value.0, accepted)
  {
  }

  /** The checked acceptance keeps every shipment consistent with its acceptance. */
  lemma AcceptBidCheckedKeepsConsistency(db: Db, bidId: BidId, shipperUserId: UserId, now: Time)
    requires ShipmentsConsistent(db)
    requires AcceptBidChecked(db, bidId, shipperUserId, now).Success?
    ensures ShipmentsConsistent(AcceptBidChecked(db, bidId, shipperUserId, now).value.0)
  {
    AcceptBidCheckedUnfold(db, bidId, shipperUserId, now);
    var bid := db.bids[bidId];
    var loadId := bid.loadId;
    var db1 := AcceptWrites(db, bidId);
    var accepted := bid.(status := BidStatus.Accepted);
    var res := Shipments.CreateShipmentFromBid(db1, accepted, now).value;
    var db2, id := res.0, res.1;
    forall s | s in db2.shipments && s != id
      ensures var sh := db2.shipments[s];
        && sh.loadId in db2.loads && db2.loads[sh.loadId].status.Accepted?
        && db2.loads[sh.loadId].acceptedBid.Some?
        && var b := db2.loads[sh.loadId].acceptedBid.value;
        && b in db2.bids && db2.bids[b].status.Accepted? && db2.bids[b].loadId == sh.loadId
        && db2.bids[b].carrierId == sh.carrierId && db2.bids[b].truckId == sh.truckId
    {
      var sh := db.shipments[s];
      assert sh.loadId != loadId;
      var b := db.loads[sh.loadId].acceptedBid.value;
      assert b != bidId;
      assert b !in OthersOn(db.bids, loadId, bidId);
    }
  }

  /** Wherever the checked acceptance succeeds, the as-written one succeeds with the same result. */
  lemma AcceptBidCheckedAgrees(db: Db, bidId: BidId, shipperUserId: UserId, now: Time)
    requires AcceptBidChecked(db, bidId, shipperUserId, now).Success?
    ensures AcceptBidByBidId(db, bidId, shipperUserId, now).1.Success?
    ensures AcceptBidChecked(db, bidId, shipperUserId, now).value
         == (AcceptBidByBidId(db, bidId, shipperUserId, now).0, AcceptBidByBidId(db, bidId, shipperUserId, now).1.value)
  {
    AcceptBidCheckedUnfold(db, bidId, shipperUserId, now);
    var accepted := db.bids[bidId].(status := BidStatus.Accepted);
    var created := Shipments.CreateShipmentFromBid(AcceptWrites(db, bidId), accepted, now);
    assert AcceptBidByBidId(db, bidId, shipperUserId, now) == (created.value.0, Success(accepted));
  }
}
