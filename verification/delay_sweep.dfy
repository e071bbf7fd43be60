/**
 * The periodic delay sweep (shipments/shipment-tasks.service.ts,
 * updateDelayedShipments): one bulk update that marks past-due, undelivered
 * shipments as delayed. The clock reading is the parameter `now`; whether the
 * database update throws is the parameter `fails`.
 */
module DelaySweep {
  import opened Domain

  /**
   * The sweep's row criteria: the estimated delivery is strictly before `now`,
   * the status is anything but delivered, and no delivery date is recorded.
   */
  predicate Overdue(s: Shipment, now: Time) {
    s.estimatedDeliveryDate < now && !s.status.Delivered? && s.actualDeliveryDate.None?
  }

  /** The bulk update over the shipment table. */
  function Sweep(shipments: map<ShipmentId, Shipment>, now: Time): (r: map<ShipmentId, Shipment>)
    ensures r.Keys == shipments.Keys
    ensures forall id :: id in shipments && Overdue(shipments[id], now) ==> r[id].status == ShipmentStatus.Delayed
    ensures forall id :: id in shipments && !Overdue(shipments[id], now) ==> r[id] == shipments[id]
    ensures forall id :: id in shipments ==> r[id] == shipments[id].(status := r[id].status)
  {
    map id | id in shipments :: if Overdue(shipments[id], now) then shipments[id].(status := ShipmentStatus.Delayed) else shipments[id]
  }

  /**
   * `updateDelayedShipments`: the sweep when the update succeeds; when it throws,
   * the error is logged and swallowed, so the caller never sees a failure and
   * nothing is written.
   */
  function UpdateDelayedShipments(db: Db, now: Time, fails: bool): (r: Db)
    ensures r == db.(shipments := r.shipments)
    ensures fails ==> r == db
    ensures !fails ==> r.shipments == Sweep(db.shipments, now)
  {
    if fails then db else db.(shipments := Sweep(db.shipments, now))
  }

  /** A row changes exactly when it is overdue and not already delayed. */
  lemma SweepChangesExactly(shipments: map<ShipmentId, Shipment>, now: Time, id: ShipmentId)
    requires id in shipments
    ensures Sweep(shipments, now)[id] != shipments[id]
      <==> Overdue(shipments[id], now) && !shipments[id].status.Delayed?
  {
  }

  /** After the sweep, a row is delayed exactly when it was overdue or already delayed. */
  lemma SweepDelayedIff(shipments: map<ShipmentId, Shipment>, now: Time, id: ShipmentId)
    requires id in shipments
    ensures Sweep(shipments, now)[id].status.Delayed?
      <==> Overdue(shipments[id], now) || shipments[id].status.Delayed?
  {
  }

  /** A swept row that is still overdue is already delayed, so a second pass finds nothing to do. */
  lemma {:induction false} SweepIdempotent(shipments: map<ShipmentId, Shipment>, now: Time)
    ensures Sweep(Sweep(shipments, now), now) == Sweep(shipments, now)
  {
    var once := Sweep(shipments, now);
    var twice := Sweep(once, now);
    forall id | id in once
      ensures twice[id] == once[id]
    {
      if Overdue(once[id], now) {
        assert Overdue(shipments[id], now);
      }
    }
  }

  /** Running the scheduled job twice with the same clock reading is running it once. */
  lemma UpdateDelayedShipmentsIdempotent(db: Db, now: Time, fails1: bool, fails2: bool)
    ensures UpdateDelayedShipments(UpdateDelayedShipments(db, now, fails1), now, fails2)
      == UpdateDelayedShipments(db, now, fails1 && fails2)
  {
    if !fails1 && !fails2 {
      SweepIdempotent(db.shipments, now);
    }
  }

  /** Delivered rows, rows with a delivery date, and rows not yet due are never touched. */
  lemma SweepLeavesUntouched(db: Db, now: Time, fails: bool, id: ShipmentId)
    requires id in db.shipments
    requires || db.shipments[id].status.Delivered?
             || db.shipments[id].actualDeliveryDate.Some?
             || db.shipments[id].estimatedDeliveryDate >= now
    ensures UpdateDelayedShipments(db, now, fails).shipments[id] == db.shipments[id]
  {
  }

  /** Only delivered rows are excluded: a past-due cancelled shipment is flipped to delayed too. */
  lemma SweepFlipsCancelled(db: Db, now: Time, id: ShipmentId)
    requires id in db.shipments
    requires db.shipments[id].status == ShipmentStatus.Cancelled
    requires db.shipments[id].estimatedDeliveryDate < now && db.shipments[id].actualDeliveryDate.None?
    ensures UpdateDelayedShipments(db, now, false).shipments[id].status == ShipmentStatus.Delayed
  {
  }
}
