/**
 * Live tracking (tracking/tracking.service.ts): the assigned driver's location
 * report, the role-based read access to a shipment's tracking data, the
 * newest-first history reads, and the average-speed estimate behind the ETA.
 */
module Tracking {
  import opened Wrappers
  import opened Errors
  import opened Domain

  /** A driver's location report; `recordedAt` is the device's own instant, when it sends one. */
  datatype LocationUpdate = LocationUpdate(
    shipmentId: ShipmentId,
    truckId: TruckId,
    lat: real,
    lng: real,
    accuracy: Option<real>,
    heading: Option<real>,
    speed: Option<real>,
    notes: Option<string>,
    recordedAt: Option<Time>)

  /** Whether the user is the shipment's assigned driver (through the driver's user row). */
  predicate DrivesShipment(db: Db, s: Shipment, userId: UserId) {
    s.driverId.Some? && DriverUser(db, s.driverId.value) == Some(userId)
  }

  // ---------------------------------------------------------------- location reports

  /** The history row a location report becomes. */
  function RowOf(u: LocationUpdate, s: Shipment, now: Time): LocationRow {
    LocationRow(u.shipmentId, s.truckId, Fix(u.lat, u.lng, u.accuracy, u.heading, u.speed), u.recordedAt.GetOr(now), u.notes, now)
  }

  /**
   * `updateLocation`: every check comes before any write; then the truck (when
   * its row exists) and the shipment take the new position, and one history row
   * is appended.
   */
  function UpdateLocation(db: Db, u: LocationUpdate, userId: UserId, now: Time): Result<(Db, LocationRow), Error> {
    if u.shipmentId !in db.shipments then Failure(NotFound("Shipment not found"))
    else
      var s := db.shipments[u.shipmentId];
      if !DrivesShipment(db, s, userId) then Failure(Forbidden("You are not assigned to this shipment"))
      else if s.truckId != u.truckId then Failure(Forbidden("Truck does not match shipment assignment"))
      else
        var here := Some(LatLng(u.lat, u.lng));
        var trucks := if u.truckId in db.trucks then db.trucks[u.truckId := db.trucks[u.truckId].(currentLocation := here)] else db.trucks;
        var row := RowOf(u, s, now);
        Success((db.(trucks := trucks,
                     shipments := db.shipments[u.shipmentId := s.(currentLocation := here)],
                     history := db.history + [row]), row))
  }

  /** The guards of `updateLocation`, in order, and what a successful report writes. */
  lemma UpdateLocationSpec(db: Db, u: LocationUpdate, userId: UserId, now: Time)
    ensures var r := UpdateLocation(db, u, userId, now);
      && (u.shipmentId !in db.shipments ==> r == Failure(NotFound("Shipment not found")))
      && (u.shipmentId in db.shipments && !DrivesShipment(db, db.shipments[u.shipmentId], userId) ==>
            r == Failure(Forbidden("You are not assigned to this shipment")))
      && (r.Success? <==>
            u.shipmentId in db.shipments && DrivesShipment(db, db.shipments[u.shipmentId], userId)
            && db.shipments[u.shipmentId].truckId == u.truckId)
      && (r.Success? ==>
            var db2, row := r.value.0, r.value.1;
            && db2 == db.(trucks := db2.trucks, shipments := db2.shipments, history := db2.history)
            && db2.history[..|db.history|] == db.history
            && |db2.history| == |db.history| + 1 && db2.history[|db.history|] == row
            && row.shipmentId == u.shipmentId && row.truckId == u.truckId
            && row.location.lat == u.lat && row.location.lng == u.lng && row.location.speed == u.speed
            && (u.recordedAt.Some? ==> row.recordedAt == u.recordedAt.value)
            && (u.recordedAt.None? ==> row.recordedAt == now)
            && row.createdAt == now
            && db2.shipments.Keys == db.shipments.Keys
            && db2.shipments[u.shipmentId] == db.shipments[u.shipmentId].(currentLocation := Some(LatLng(u.lat, u.lng)))
            && (forall s :: s in db.shipments && s != u.shipmentId ==> db2.shipments[s] == db.shipments[s])
            && db2.trucks.Keys == db.trucks.Keys
            && (u.truckId in db.trucks ==>
                  db2.trucks[u.truckId] == db.trucks[u.truckId].(currentLocation := Some(LatLng(u.lat, u.lng))))
            && (forall t :: t in db.trucks && t != u.truckId ==> db2.trucks[t] == db.trucks[t]))
  {
  }

  // ---------------------------------------------------------------- read access

  /**
   * The read rule of `getTrackingInfo` and `getLocationHistory`: a shipper must
   * own the load, a carrier must own the shipment, a driver must be assigned to
   * it; every other role passes.
   */
  predicate MayTrack(db: Db, s: Shipment, role: string, userId: UserId) {
    && (role == "shipper" ==> LoadShipperUser(db, s.loadId) == Some(userId))
    && (role == "carrier" ==> CarrierUser(db, s.carrierId) == Some(userId))
    && (role == "driver" ==> DrivesShipment(db, s, userId))
  }

  /** The three checks of `getTrackingInfo`, in order, each with its own message. */
  function TrackingAccess(db: Db, s: Shipment, role: string, userId: UserId): (o: Outcome<Error>)
    ensures o.Pass? <==> MayTrack(db, s, role, userId)
    ensures o.Fail? ==> o.error.Forbidden?
    ensures role != "shipper" && role != "carrier" && role != "driver" ==> o.Pass?
  {
    if role == "shipper" && LoadShipperUser(db, s.loadId) != Some(userId) then
      Fail(Forbidden("You can only track your own shipments"))
    else if role == "carrier" && CarrierUser(db, s.carrierId) != Some(userId) then
      Fail(Forbidden("You can only track your company shipments"))
    else if role == "driver" && !DrivesShipment(db, s, userId) then
      Fail(Forbidden("You can only track shipments assigned to you"))
    else Pass
  }

  // ---------------------------------------------------------------- history reads

  /** A shipment's history rows in insertion order. */
  function RowsOf(h: seq<LocationRow>, shipmentId: ShipmentId): (r: seq<LocationRow>)
    ensures |r| <= |h|
    ensures forall row :: row in r <==> row in h && row.shipmentId == shipmentId
  {
    if |h| == 0 then []
    else RowsOf(h[..|h| - 1], shipmentId) + (if h[|h| - 1].shipmentId == shipmentId then [h[|h| - 1]] else [])
  }

  /** The rows newest first. */
  function Reverse(rows: seq<LocationRow>): (r: seq<LocationRow>)
    ensures |r| == |rows|
    ensures forall i :: 0 <= i < |r| ==> r[i] == rows[|rows| - 1 - i]
  {
    if |rows| == 0 then [] else [rows[|rows| - 1]] + Reverse(rows[..|rows| - 1])
  }

  /**
   * The query `find({ where: shipment, order: createdAt DESC, take: n })`: the
   * shipment's rows, newest first, at most `n` of them. The history is append
   * only, so the newest row is the last one appended.
   */
  function Recent(h: seq<LocationRow>, shipmentId: ShipmentId, n: nat): (r: seq<LocationRow>)
    ensures |r| <= n && |r| <= |RowsOf(h, shipmentId)|
    ensures |r| == n || |r| == |RowsOf(h, shipmentId)|
    ensures forall i :: 0 <= i < |r| ==>
      r[i] == RowsOf(h, shipmentId)[|RowsOf(h, shipmentId)| - 1 - i]
  {
    var all := Reverse(RowsOf(h, shipmentId));
    if |all| <= n then all else all[..n]
  }

  /** Whether creation instants never decrease along the history (the clock does not run backwards). */
  ghost predicate Chronological(h: seq<LocationRow>) {
    forall i, j :: 0 <= i < j < |h| ==> h[i].createdAt <= h[j].createdAt
  }

  /** A subsequence of a chronological history is chronological. */
  lemma {:induction false} RowsOfChronological(h: seq<LocationRow>, shipmentId: ShipmentId)
    requires Chronological(h)
    ensures Chronological(RowsOf(h, shipmentId))
    ensures forall row :: row in RowsOf(h, shipmentId) ==> row.createdAt <= (if |h| == 0 then row.createdAt else h[|h| - 1].createdAt)
    decreases |h|
  {
    if |h| > 0 {
      var init := h[..|h| - 1];
      assert Chronological(init) by {
        forall i, j | 0 <= i < j < |init|
          ensures init[i].createdAt <= init[j].createdAt
        {
          assert init[i] == h[i] && init[j] == h[j];
        }
      }
      RowsOfChronological(init, shipmentId);
      forall row | row in RowsOf(init, shipmentId)
        ensures row.createdAt <= h[|h| - 1].createdAt
      {
        var k :| 0 <= k < |init| && init[k] == row;
        assert h[k] == row;
      }
    }
  }

  /** On a chronological history the recent rows come in the query's order: newest `createdAt` first. */
  lemma RecentIsNewestFirst(h: seq<LocationRow>, shipmentId: ShipmentId, n: nat)
    requires Chronological(h)
    ensures var r := Recent(h, shipmentId, n);
      forall i, j :: 0 <= i < j < |r| ==> r[i].createdAt >= r[j].createdAt
  {
    RowsOfChronological(h, shipmentId);
  }

  /** Right after a report, the row it appended heads the shipment's recent rows. */
  lemma ReportHeadsRecent(db: Db, u: LocationUpdate, userId: UserId, now: Time, n: nat)
    requires UpdateLocation(db, u, userId, now).Success?
    requires n >= 1
    ensures var res := UpdateLocation(db, u, userId, now).value;
      var db2, row := res.0, res.1;
      |Recent(db2.history, u.shipmentId, n)| >= 1 && Recent(db2.history, u.shipmentId, n)[0] == row
  {
    var res := UpdateLocation(db, u, userId, now).value;
    var db2, row := res.0, res.1;
    assert db2.history[..|db2.history| - 1] == db.history;
  }

  // ---------------------------------------------------------------- average speed and ETA

  /** Whether a reading contributes to the average: it has a speed, and that speed is positive. */
  predicate Counts(row: LocationRow) {
    row.location.speed.Some? && row.location.speed.value > 0.0
  }

  /** The sum of the contributing speeds. */
  function SpeedSum(rows: seq<LocationRow>): (s: real)
    ensures s >= 0.0
    ensures SpeedCount(rows) > 0 ==> s > 0.0
  {
    if |rows| == 0 then 0.0
    else SpeedSum(rows[..|rows| - 1]) + (if Counts(rows[|rows| - 1]) then rows[|rows| - 1].location.speed.value else 0.0)
  }

  /** The number of contributing speeds. */
  function SpeedCount(rows: seq<LocationRow>): (n: nat)
    ensures n <= |rows|
  {
    if |rows| == 0 then 0
    else SpeedCount(rows[..|rows| - 1]) + (if Counts(rows[|rows| - 1]) then 1 else 0)
  }

  /**
   * `calculateAverageSpeed`: no estimate from fewer than two readings; otherwise
   * the mean of the positive speeds, and none when there are none.
   */
  function AverageSpeed(rows: seq<LocationRow>): (r: Option<real>)
    ensures |rows| < 2 ==> r.None?
    ensures r.Some? ==> r.value > 0.0
    ensures |rows| >= 2 ==> (r.Some? <==> exists i :: 0 <= i < |rows| && Counts(rows[i]))
  {
    CountsSomewhere(rows);
    if |rows| < 2 then None
    else if SpeedCount(rows) > 0 then Some(SpeedSum(rows) / (SpeedCount(rows) as real))
    else None
  }

  /** Some reading contributes exactly when the count is positive. */
  lemma {:induction false} CountsSomewhere(rows: seq<LocationRow>)
    ensures SpeedCount(rows) > 0 <==> exists i :: 0 <= i < |rows| && Counts(rows[i])
    decreases |rows|
  {
    if |rows| > 0 {
      var init := rows[..|rows| - 1];
      CountsSomewhere(init);
      if exists i :: 0 <= i < |init| && Counts(init[i]) {
        var i :| 0 <= i < |init| && Counts(init[i]);
        assert rows[i] == init[i];
      }
      if exists i :: 0 <= i < |rows| && Counts(rows[i]) {
        var i :| 0 <= i < |rows| && Counts(rows[i]);
        if i < |rows| - 1 {
          assert init[i] == rows[i];
        }
      }
    }
  }

  /** `k` copies of `cap` added up. */
  function Scaled(k: nat, cap: real): real {
    if k == 0 then 0.0 else Scaled(k - 1, cap) + cap
  }

  lemma {:induction false} ScaledIsProduct(k: nat, cap: real)
    ensures Scaled(k, cap) == (k as real) * cap
  {
    if k > 0 {
      ScaledIsProduct(k - 1, cap);
      assert (k as real) * cap == ((k - 1) as real) * cap + cap;
    }
  }

  /**
   * The sum of the contributing speeds is at most one bound on them per
   * contributing reading, added up.
   */
  lemma {:induction false} SpeedSumBounded(rows: seq<LocationRow>, cap: real)
    requires forall i :: 0 <= i < |rows| && Counts(rows[i]) ==> rows[i].location.speed.value <= cap
    ensures SpeedSum(rows) <= Scaled(SpeedCount(rows), cap)
    decreases |rows|
  {
    if |rows| > 0 {
      var init := rows[..|rows| - 1];
      assert forall i :: 0 <= i < |init| ==> init[i] == rows[i];
      SpeedSumBounded(init, cap);
    }
  }

  /** The average never exceeds the fastest contributing reading. */
  lemma AverageSpeedBounded(rows: seq<LocationRow>, cap: real)
    requires forall i :: 0 <= i < |rows| && Counts(rows[i]) ==> rows[i].location.speed.value <= cap
    ensures AverageSpeed(rows).Some? ==> AverageSpeed(rows).value <= cap
  {
    if AverageSpeed(rows).Some? {
      var k, t := SpeedCount(rows), SpeedSum(rows);
      SpeedSumBounded(rows, cap);
      ScaledIsProduct(k, cap);
      DivAtMost(t, k as real, cap);
    }
  }

  /** A quotient by a positive divisor is at most `cap` when the dividend is at most `divisor * cap`. */
  lemma DivAtMost(a: real, n: real, cap: real)
    requires n > 0.0 && a <= n * cap
    ensures a / n <= cap
  {
    var q := a / n;
    assert q * n == a;
    assert (cap - q) * n == n * cap - a;
  }

  /** The loop of `calculateAverageSpeed`, one pass over the readings. */
  method ComputeAverageSpeed(rows: seq<LocationRow>) returns (r: Option<real>)
    ensures r == AverageSpeed(rows)
    ensures r.Some? ==> r.value > 0.0
  {
    if |rows| < 2 {
      return None;
    }
    var total := 0.0;
    var readings := 0;
    for i := 0 to |rows|
      invariant total == SpeedSum(rows[..i])
      invariant readings == SpeedCount(rows[..i])
    {
      assert rows[..i + 1][..i] == rows[..i];
      if rows[i].location.speed.Some? && rows[i].location.speed.value > 0.0 {
        total := total + rows[i].location.speed.value;
        readings := readings + 1;
      }
    }
    assert rows[..|rows|] == rows;
    if readings > 0 {
      r := Some(total / (readings as real));
    } else {
      r := None;
    }
  }

  /** The speed the ETA divides by: the average, or 50 km/h without one. */
  function EtaSpeed(rows: seq<LocationRow>): (v: real)
    ensures v > 0.0
    ensures AverageSpeed(rows).None? ==> v == 50.0
  {
    AverageSpeed(rows).GetOr(50.0)
  }

  /**
   * `calculateEstimatedArrival`, up to the hours still to drive: none without a
   * current position; otherwise the distance to the destination (a parameter:
   * the great-circle formula is not modelled) over the ETA speed.
   */
  function HoursToArrival(s: Shipment, rows: seq<LocationRow>, distanceKm: real): (r: Option<real>)
    ensures r.None? <==> s.currentLocation.None?
    ensures r.Some? && distanceKm >= 0.0 ==> r.value >= 0.0
  {
    if s.currentLocation.None? then None else Some(distanceKm / EtaSpeed(rows))
  }

  // ---------------------------------------------------------------- the read endpoints

  /** The tracking view of a shipment. */
  datatype TrackingInfo = TrackingInfo(
    shipmentId: ShipmentId,
    truckId: TruckId,
    currentLocation: Option<LatLng>,
    lastUpdate: Time,
    status: ShipmentStatus,
    hoursToArrival: Option<real>,
    recentEvents: seq<LocationRow>)

  /** `getTrackingInfo`: the access check, then the view with its fallbacks and the ten newest rows. */
  function GetTrackingInfo(db: Db, shipmentId: ShipmentId, role: string, userId: UserId, distanceKm: real): Result<TrackingInfo, Error> {
    if shipmentId !in db.shipments then Failure(NotFound("Shipment not found"))
    else
      var s := db.shipments[shipmentId];
      :- TrackingAccess(db, s, role, userId);
      var recent := Recent(db.history, shipmentId, 10);
      var truckLocation := if s.truckId in db.trucks then db.trucks[s.truckId].currentLocation else None;
      Success(TrackingInfo(
        shipmentId,
        s.truckId,
        if s.currentLocation.Some? then s.currentLocation else truckLocation,
        if |recent| > 0 then recent[0].createdAt else s.updatedAt,
        s.status,
        HoursToArrival(s, recent, distanceKm),
        recent))
  }

  /** What `getTrackingInfo` promises: who may read, at most ten rows newest first, and the two fallbacks. */
  lemma GetTrackingInfoSpec(db: Db, shipmentId: ShipmentId, role: string, userId: UserId, distanceKm: real)
    ensures var r := GetTrackingInfo(db, shipmentId, role, userId, distanceKm);
      && (shipmentId !in db.shipments ==> r == Failure(NotFound("Shipment not found")))
      && (r.Success? <==> shipmentId in db.shipments && MayTrack(db, db.shipments[shipmentId], role, userId))
      && (r.Failure? && shipmentId in db.shipments ==> r.error.Forbidden?)
      && (r.Success? ==>
            var s := db.shipments[shipmentId];
            var info := r.value;
            && |info.recentEvents| <= 10
            && info.recentEvents == Recent(db.history, shipmentId, 10)
            && (s.currentLocation.Some? ==> info.currentLocation == s.currentLocation)
            && (s.currentLocation.None? && s.truckId in db.trucks ==>
                  info.currentLocation == db.trucks[s.truckId].currentLocation)
            && (|RowsOf(db.history, shipmentId)| == 0 ==> info.lastUpdate == s.updatedAt)
            && (|RowsOf(db.history, shipmentId)| > 0 ==>
                  info.lastUpdate == RowsOf(db.history, shipmentId)[|RowsOf(db.history, shipmentId)| - 1].createdAt)
            && (info.hoursToArrival.None? <==> s.currentLocation.None?))
  {
  }

  /**
   * How many rows `take: limit` returns out of `available`: 50 when the caller
   * gives no limit, and every row for a limit of 0, which TypeORM treats as no limit.
   */
  function TakeCount(limit: Option<nat>, available: nat): (n: nat)
    ensures limit.None? ==> n == 50
    ensures limit == Some(0) ==> n == available
    ensures limit.Some? && limit.value > 0 ==> n == limit.value
  {
    var l := limit.GetOr(50);
    if l == 0 then available else l
  }

  /**
   * `getLocationHistory`: the same access rule with one message, then the
   * shipment's newest rows, newest first: at most `limit` of them (50 by default),
   * and all of them for a limit of 0.
   */
  function GetLocationHistory(db: Db, shipmentId: ShipmentId, role: string, userId: UserId, limit: Option<nat>): (r: Result<seq<LocationRow>, Error>)
    ensures shipmentId !in db.shipments ==> r == Failure(NotFound("Shipment not found"))
    ensures r.Success? <==> shipmentId in db.shipments && MayTrack(db, db.shipments[shipmentId], role, userId)
    ensures shipmentId in db.shipments && r.Failure? ==> r.error == Forbidden("Access denied")
    ensures r.Success? && limit.None? ==> r.value == Recent(db.history, shipmentId, 50)
    ensures r.Success? && limit.Some? && limit.value > 0 ==> r.value == Recent(db.history, shipmentId, limit.value)
    ensures r.Success? && limit == Some(0) ==> r.value == Recent(db.history, shipmentId, |RowsOf(db.history, shipmentId)|)
  {
    if shipmentId !in db.shipments then Failure(NotFound("Shipment not found"))
    else if !MayTrack(db, db.shipments[shipmentId], role, userId) then Failure(Forbidden("Access denied"))
    else Success(Recent(db.history, shipmentId, TakeCount(limit, |RowsOf(db.history, shipmentId)|)))
  }

  /**
   * A limit of 0 returns the whole history of the shipment, newest first, and any
   * positive limit returns a prefix of it.
   */
  lemma HistoryLimitZeroIsAll(db: Db, shipmentId: ShipmentId, role: string, userId: UserId, limit: nat)
    requires GetLocationHistory(db, shipmentId, role, userId, Some(0)).Success?
    ensures var all := GetLocationHistory(db, shipmentId, role, userId, Some(0)).value;
      && |all| == |RowsOf(db.history, shipmentId)|
      && (forall row :: row in all <==> row in RowsOf(db.history, shipmentId))
      && (limit > 0 ==> GetLocationHistory(db, shipmentId, role, userId, Some(limit)).value
                          == all[..if limit < |all| then limit else |all|])
  {
    var rows := RowsOf(db.history, shipmentId);
    var all := GetLocationHistory(db, shipmentId, role, userId, Some(0)).value;
    forall row | row in rows
      ensures row in all
    {
      var k :| 0 <= k < |rows| && rows[k] == row;
      assert all[|rows| - 1 - k] == row;
    }
  }

  /** Both read endpoints let in exactly the same callers. */
  lemma ReadEndpointsAgree(db: Db, shipmentId: ShipmentId, role: string, userId: UserId, distanceKm: real, limit: Option<nat>)
    ensures GetTrackingInfo(db, shipmentId, role, userId, distanceKm).Success?
      <==> GetLocationHistory(db, shipmentId, role, userId, limit).Success?
  {
    GetTrackingInfoSpec(db, shipmentId, role, userId, distanceKm);
  }
}
