# Freight matching, modelled in Dafny

This project models the domain services of the MoroccoTransit freight-matching
backend. Shippers publish loads. Carriers bid on them with one of their trucks
and a proposed pickup/delivery window. The shipper accepts one bid. The
accepted bid becomes a shipment that the carrier's driver starts, reports
positions for and delivers.

The state is one `Domain.Db` value holding a map from id to row for each
repository:

- users, carriers, shippers;
- loads, bids, trucks, drivers, shipments;
- the ordered role table, the append-only location history and the
  password-reset tokens.

Each service call is one pure transition over that value:

- It returns `Result<(Db, T), Error>`.
- When the source writes before it can fail, it returns the pair
  `(Db, Result)` instead.
- Errors carry the HTTP exception class and the message the service throws,
  including any status name the message interpolates.
  A plain `Error` in the source is `Errors.Internal`, which the global filter
  turns into a 500.
- The clock (`now`), random tokens, password hashing, JWT verification, mail
  delivery and the great-circle distance are parameters or uninterpreted
  values.

Modules follow the source files:

| module | models |
|---|---|
| `Schedule` | a truck's commitments, the availability check, commit / release |
| `Bids` | createBid, updateBid, cancelBid, acceptBidByBidId |
| `Loads` | the load life cycle and the load-side acceptBid |
| `Shipments` | shipment creation, driver assignment, start / deliver |
| `DelaySweep` | the scheduled delay sweep |
| `Trucks` | the truck service and the truck–driver pairing |
| `Tracking` | location reports, the read endpoints and the average speed |
| `Gateway` | the tracking web-socket gateway: registry, rooms, handlers |
| `Drivers` | the driver service |
| `PasswordReset` | reset tokens |
| `RolesGuard` | the role guard |
| `Roles` | the two role seeders |
| `ExceptionFilter` | the global exception filter |
| `TruckFilter` | the comma-separated status filter |
| `Paging` | page arithmetic |

`Text`, `Ids`, `Errors` and `Wrappers` are helpers.

Where the code and the written design disagree, the model follows the code:

- createBid checks, in order:
  1. the load is PUBLISHED;
  2. the carrier exists;
  3. the truck belongs to the carrier;
  4. the truck is available;
  5. the carrier has no earlier bid on the load.

  Only then does it check the dates.
- The bid table has no notes column, so a bid has none.
- The shipment table has no bid column and no actual-start column. The start
  instant that startShipment sets is therefore not stored.
- The truck entity declares only an `isAvailable` flag
  (src/trucks/entities/truck.entity.ts:42-43), with no `status` or
  `commitments` column. The truck service and the bid service nevertheless
  read and write `truck.status` and `truck.commitments`
  (src/trucks/trucks.service.ts:36, :54, :254; src/bids/bids.service.ts:286-338).
  The model follows the services: a truck has a status and a list of
  commitments, and no `isAvailable` flag.
- The load service's acceptBid ends in a database error (see Findings). The
  model keeps that behaviour as `Loads.AcceptBid` and states the intended
  behaviour as `Loads.AcceptBidFixed`.
- A history `limit` of 0 reaches the repository as `take: 0`, which means no
  limit. So it returns every row, not none.
- The driver entity has no user relation, and its truck relation is named
  `truck` (src/drivers/entities/driver.entity.ts:48-50), not `assignedTruck`.
  The truck service nevertheless loads and writes `driver.assignedTruck`
  (src/trucks/trucks.service.ts:163, :173). The model follows the services: a
  driver row with a carrier, a user and an `assignedTruck`.
- resetPassword throws a plain `Error` for a bad token. The client therefore
  sees a 500, not a 400.
- The role guard reads `request.user`. On a web socket that is the socket
  itself, which carries the verified token under `data.user`. So the guard sees
  no user (see Findings).

## Model

| member | source | states |
|---|---|---|
| Schedule.OverlapsIsHalfOpen | src/bids/bids.service.ts:296-311 | for non-empty windows the four-clause overlap test is exactly half-open intersection `pickup < end && start < delivery` |
| Schedule.BackToBackIsFree | src/bids/bids.service.ts:305-310 | a window that ends where a commitment starts, or starts where it ends, does not conflict |
| Schedule.ValidateAvailability | src/bids/bids.service.ts:282-317 | passes iff the truck is AVAILABLE and no commitment overlaps; IN_MAINTENANCE/OUT_OF_SERVICE is BadRequest whatever the commitments, and an overlap on an available truck is Conflict |
| Schedule.Commit | src/bids/bids.service.ts:319-338 | the new commitment is appended and every earlier one keeps its place |
| Schedule.Release | src/bids/bids.service.ts:340-348 | exactly the commitments of other bids survive |
| Schedule.ReleaseConcat | src/bids/bids.service.ts:345 | release distributes over concatenation, so the survivors keep their order |
| Schedule.ReleaseAbsent | src/bids/bids.service.ts:340-345 | releasing a bid that holds nothing (including on an empty list) changes nothing |
| Schedule.ReleaseIdempotent | src/bids/bids.service.ts:345 | releasing twice is releasing once |
| Schedule.ReleaseKeepsScheduleOk | src/bids/bids.service.ts:340-348 | removal keeps the schedule invariant (non-empty, pairwise disjoint windows) |
| Schedule.CommitKeepsScheduleOk | src/bids/bids.service.ts:282-338 | appending a non-empty window that passed the overlap test keeps the invariant |
| Schedule.CommittedWindowConflicts | src/bids/bids.service.ts:305-310 | a window already held conflicts with the schedule, so an unreleased hold blocks its own bid |
| Schedule.ReleaseAll | src/bids/bids.service.ts:104-111 | the bulk release keeps exactly the commitments of bids outside the set |
| Schedule.ReleaseAllSingle | src/bids/bids.service.ts:340-348 | the bulk release of one bid is the single release |
| Schedule.ReleaseAllKeepsScheduleOk | src/bids/bids.service.ts:104-111 | the bulk release keeps the schedule invariant |
| Bids.AddHold | src/bids/bids.service.ts:319-338 | the hold touches only the named truck and no other table |
| Bids.DropHold | src/bids/bids.service.ts:340-348 | the release touches only the named truck and no other table |
| Bids.DropHoldKeepsSchedules | src/bids/bids.service.ts:340-348 | releasing a hold keeps every truck's schedule valid |
| Bids.AddHoldKeepsSchedules | src/bids/bids.service.ts:319-338 | holding a conflict-free non-empty window keeps every schedule valid |
| Bids.CreateBidSpec | src/bids/bids.service.ts:38-91 | `Bids.CreateBid`: createBid succeeds iff every condition holds (published load, carrier, owned and available truck, no clash, no earlier bid, pickup < delivery, pickup > now); it then adds one fresh PENDING bid and appends exactly its window to that truck, and nothing else changes |
| Bids.CreateBidGuardOrder | src/bids/bids.service.ts:38-74 | the guard order: NotFound for load/carrier/truck; an unavailable truck is BadRequest before the overlap check; a clash is Conflict; an earlier bid in any status is Conflict before the dates |
| Bids.CreateBidKeepsSchedules | src/bids/bids.service.ts:76-90 | a successful createBid keeps every truck's schedule pairwise non-overlapping |
| Bids.CreateBidKeepsLedger | src/bids/bids.service.ts:60-90 | createBid keeps one bid per carrier per load and every bid window non-empty |
| Bids.CancelBidSpec | src/bids/bids.service.ts:256-280 | `Bids.CancelBid`: succeeds iff the owner's bid is PENDING; "already cancelled" for a CANCELLED bid; otherwise BadRequest/NotFound; on success only the bid becomes CANCELLED, and its truck loses exactly that bid's holds and keeps every other field and hold |
| Bids.CancelBidKeepsInvariants | src/bids/bids.service.ts:256-280 | cancelBid keeps the schedules and the ledger invariants |
| Bids.NoBidAfterCancel | src/bids/bids.service.ts:60-65 | a cancelled bid still counts as the carrier's bid: it cannot be cancelled again and the carrier can no longer bid on that load |
| Bids.UpdateBidOnlyPending | src/bids/bids.service.ts:184-186 | `Bids.UpdateBid`: only PENDING bids can be edited; a refusal writes nothing |
| Bids.UpdateBidReschedulesOwnHold | src/bids/bids.service.ts:235-251 | `Bids.UpdateBid`: a same-truck date change releases the bid's own hold before the overlap check, so it never conflicts with itself, and the old window is replaced by the new one |
| Bids.UpdateBidRescheduleKeepsSchedules | src/bids/bids.service.ts:188-253 | `Bids.UpdateBid`: an edit that changes dates or truck keeps every schedule valid, on success and on failure |
| Bids.UpdateBidDuplicatesHold | src/bids/bids.service.ts:251 | `Bids.UpdateBid`: as written, an amount-only edit appends the bid's window a second time, so the truck's schedule holds two clashing copies |
| Bids.UpdateBidDropsHoldOnFailure | src/bids/bids.service.ts:235-239 | `Bids.UpdateBid`: as written, a failed same-truck re-check leaves the bid PENDING with no hold on its truck |
| Bids.MoveKeepsSchedules | src/bids/bids.service.ts:218-251 | the corrected rescheduling step keeps every schedule valid |
| Bids.MoveWritesBid | src/bids/bids.service.ts:241-251 | the corrected rescheduling step changes only the edited bid on the ledger |
| Bids.AddHoldWhenFree | src/bids/bids.service.ts:282-338 | a window that passed the availability test can be held without breaking a schedule |
| Bids.UpdateBidFixedKeepsSchedules | src/bids/bids.service.ts:174-254 | the corrected edit keeps every schedule valid and every bid window non-empty |
| Bids.WindowsAfterWrite | src/bids/bids.service.ts:200-215 | saving a bid whose dates passed the order check keeps every bid window non-empty |
| Bids.UpdateBidFixedSingleHold | src/bids/bids.service.ts:251 | after the corrected edit the bid's truck holds no two clashing windows |
| Bids.UpdateBidFixedAgrees | src/bids/bids.service.ts:235-251 | wherever the as-written same-truck reschedule succeeds, the corrected edit gives the same database and bid |
| Bids.AcceptBidByBidIdSpec | src/bids/bids.service.ts:93-129 | `Bids.AcceptBidByBidId`: after the bid and owner checks: the bid becomes ACCEPTED; every other bid on the load becomes REJECTED whatever its status and its truck holds nothing for it; other loads' bids are untouched; the load becomes ACCEPTED with the bid's amount; a shipment is created iff the load has none and the carrier and truck exist; no status is checked |
| Bids.AcceptBidByBidIdSingleWinner | src/bids/bids.service.ts:113-124 | afterwards the accepted bid is the only ACCEPTED bid on its load |
| Bids.AcceptBidByBidIdKeepsSchedules | src/bids/bids.service.ts:104-111 | releasing the losers' holds keeps every schedule valid |
| Bids.AcceptBidByBidIdTwice | src/bids/bids.service.ts:93-129 | as written, accepting a second bid on a load that already has a shipment rejects the first winner and leaves the shipment inconsistent with the load's acceptance |
| Bids.AcceptBidCheckedKeepsConsistency | src/bids/bids.service.ts:93-129 | the corrected acceptance (PUBLISHED load, PENDING bid, all-or-nothing) keeps every shipment consistent with its load's accepted bid |
| Bids.AcceptBidCheckedAgrees | src/bids/bids.service.ts:93-129 | wherever the corrected acceptance succeeds, the as-written one succeeds with the same database and bid |
| Loads.StoredDimensions | src/loads/loads.service.ts:45-48 | a missing dimension unit becomes METERS; the measures are kept |
| Loads.FindShipperLoad | src/loads/loads.service.ts:291-304 | "Shipper not found" for a non-shipper, "Load not found" for another shipper's or a missing load, else that load |
| Loads.FindShipperLoadOwned | src/loads/loads.service.ts:291-304 | with unique shipper users, the lookup finds exactly the loads whose shipper is the caller |
| Loads.FindLoadById | src/loads/loads.service.ts:113-139 | a shipper reads its own load in any status; any other role reads a load iff it is PUBLISHED; every refusal is NotFound |
| Loads.CreateLoadSpec | src/loads/loads.service.ts:37-64 | `Loads.CreateLoad`: succeeds iff the caller is a shipper, else "Shipper not found"; the only change is a new DRAFT load of that shipper with no accepted bid, KILOGRAM and METERS when units are left out, and the request's origin, destination, weight, measures, cargo types, dates, budget and description |
| Loads.UpdateLoadSpec | src/loads/loads.service.ts:141-170 | `Loads.UpdateLoad`: succeeds iff the caller's load is DRAFT; otherwise the "Cannot update load with status" error; status, owner and acceptance never change and no other row changes |
| Loads.UpdateLoadPatchesFields | src/loads/loads.service.ts:149-163 | `Loads.UpdateLoad`: for each of the ten editable fields: supplied means replaced (dimensions with the METERS default unit), absent means kept |
| Loads.UpdateLoadIdempotent | src/loads/loads.service.ts:141-170 | applying the same edit twice equals applying it once |
| Loads.CheckPublishable | src/loads/loads.service.ts:322-340 | passes iff DRAFT, both addresses non-empty, pickup and deadline present and budget > 0; every refusal is BadRequest |
| Loads.PublishLoad | src/loads/loads.service.ts:172-181 | succeeds iff the caller's load passes the publish check; then only its status becomes PUBLISHED |
| Loads.CreatedLoadPublishable | src/loads/loads.service.ts:37-64 | a new load is publishable iff both addresses are non-empty and the budget is positive |
| Loads.CancelLoadSpec | src/loads/loads.service.ts:183-202 | `Loads.CancelLoad`: succeeds iff the caller's load is DRAFT or PUBLISHED; PENDING bids on it become REJECTED, other bids are unchanged, the load becomes CANCELLED, trucks are untouched |
| Loads.CancelLoadKeepsRejectedHolds | src/loads/loads.service.ts:188-192 | as written, a bid rejected by the cancellation keeps its hold on its truck |
| Loads.CancelLoadFixedReleases | src/loads/loads.service.ts:183-202 | the corrected cancellation leaves no hold for any bid it rejects and keeps every schedule valid |
| Loads.DeleteLoad | src/loads/loads.service.ts:204-214 | deletion succeeds iff the caller's load is DRAFT or CANCELLED and unreferenced; every other status gives the BadRequest naming it; a referenced load is refused by the database; success removes only that load |
| Loads.DeleteLoadKeepsRefs | src/loads/loads.service.ts:204-214 | deleting a load never leaves a bid or a shipment pointing at a missing load |
| Loads.AcceptBidGuard | src/loads/loads.service.ts:239-251 | passing the checks means the load and the bid exist |
| Loads.AcceptBidAsWritten | src/loads/loads.service.ts:238-273 | `Loads.AcceptBid`: as written the call never succeeds; each failed check writes nothing and reports its own error, in source order |
| Loads.AcceptBidPartialWrite | src/loads/loads.service.ts:253-270 | `Loads.AcceptBid`: as written, once the checks pass exactly the bid and the load are saved ACCEPTED before the bulk rejection fails with a database error |
| Loads.AcceptBidLeavesSiblingsPending | src/loads/loads.service.ts:262-270 | `Loads.AcceptBid`: as written, a PENDING sibling bid stays PENDING next to the ACCEPTED load |
| Loads.AcceptBidSpec | src/loads/loads.service.ts:238-273 | `Loads.AcceptBidFixed`: the corrected acceptance succeeds iff the caller's load is PUBLISHED and the bid is PENDING on it, failing with the as-written errors; then the load is ACCEPTED with the bid and its amount as written, no bid on the load is PENDING, other loads' bids are untouched, and with no earlier acceptance the bid is the only ACCEPTED one |
| Loads.AcceptBidKeepsInvariants | src/loads/loads.service.ts:253-270 | both acceptances keep the truck schedules valid, one bid per carrier per load, non-empty bid windows, and at most one ACCEPTED bid per load, whose load has left PUBLISHED |
| Paging.TotalPages | src/loads/loads.service.ts:86 | the page count is the ceiling of total / limit |
| Paging.Window | src/loads/loads.service.ts:68-77 | a page shows the rows from position (page-1)*limit on, at most `limit` of them, and every row for a limit of 0 |
| Paging.LimitZeroShowsAll | src/shipments/shipments.service.ts:85-86 | a limit of 0 shows every row on any page, and its page count ceil(total / 0) is not a number; a positive limit shows at most that many rows with the ceiling page count |
| Paging.EveryRowOnAPage | src/loads/loads.service.ts:66-88 | every row appears on a page within the page count |
| Paging.PagesDisjoint | src/loads/loads.service.ts:66-88 | no row appears on two pages |
| Paging.DefaultPage | src/loads/loads.service.ts:68 | with no parameters the page is 1, the limit 10, and the first ten rows are shown |
| Shipments.CreateShipmentFromBid | src/shipments/shipments.service.ts:35-54 | succeeds iff load, carrier and truck exist and the load has no shipment; the one new shipment is SCHEDULED, spans the bid's window, takes load/carrier/truck from the bid and has no driver |
| Shipments.AssignDriverSpec | src/shipments/shipments.service.ts:56-74 | `Shipments.AssignDriver`: succeeds iff the caller is the shipment carrier's user and the driver belongs to that carrier; only the driver field of that shipment changes, with no status or schedule check |
| Shipments.StartShipmentSpec | src/shipments/shipments.service.ts:122-145 | `Shipments.StartShipment`: NotFound for a missing shipment; Forbidden unless the assigned driver's user, checked before status; unless SCHEDULED, BadRequest naming the current status; else only the status becomes IN_TRANSIT |
| Shipments.MarkAsDeliveredSpec | src/shipments/shipments.service.ts:147-180 | `Shipments.MarkAsDelivered`: the same driver check; succeeds iff IN_TRANSIT, DELAYED or SCHEDULED, else BadRequest naming the current status; then DELIVERED with the actual delivery at now |
| Shipments.TerminalStatuses | src/shipments/shipments.service.ts:136-140 | DELIVERED and CANCELLED shipments can be neither started nor delivered |
| Shipments.StartThenDeliver | src/shipments/shipments.service.ts:122-180 | the assigned driver takes a SCHEDULED shipment through IN_TRANSIT to DELIVERED |
| Shipments.CarrierShipmentsSpec | src/shipments/shipments.service.ts:91-120 | `Shipments.CarrierShipments`: a shipment is listed iff the carrier holds an ACCEPTED bid on its load; with none, the list is empty with total 0 |
| DelaySweep.Sweep | src/shipments/shipment-tasks.service.ts:23-30 | an overdue row (due before now, not DELIVERED, no delivery date) becomes DELAYED, every other row is unchanged, and only the status field ever changes |
| DelaySweep.UpdateDelayedShipments | src/shipments/shipment-tasks.service.ts:17-36 | a failing update is swallowed and writes nothing; otherwise only the shipment table is swept |
| DelaySweep.SweepChangesExactly | src/shipments/shipment-tasks.service.ts:23-30 | a row changes iff it is overdue and not already DELAYED |
| DelaySweep.SweepDelayedIff | src/shipments/shipment-tasks.service.ts:23-30 | after the sweep a row is DELAYED iff it was overdue or already DELAYED |
| DelaySweep.SweepIdempotent | src/shipments/shipment-tasks.service.ts:23-30 | sweeping twice with the same clock equals sweeping once |
| DelaySweep.UpdateDelayedShipmentsIdempotent | src/shipments/shipment-tasks.service.ts:17-36 | running the job twice with the same clock equals running it once |
| DelaySweep.SweepLeavesUntouched | src/shipments/shipment-tasks.service.ts:25-27 | DELIVERED rows, rows with a delivery date and rows not yet due are never touched |
| DelaySweep.SweepFlipsCancelled | src/shipments/shipment-tasks.service.ts:26-29 | a past-due CANCELLED shipment is flipped to DELAYED as well |
| Trucks.CreateTruck | src/trucks/trucks.service.ts:27-43 | fails iff the plate is taken (a unique-column violation, so a 500); on success one row under a fresh id is added and nothing else changes |
| Trucks.CreateTruckRow | src/trucks/trucks.service.ts:27-43 | the new row belongs to the carrier, keeps plate and capacity, is AVAILABLE unless a status is given, and has no commitments, driver or location |
| Trucks.FindOne | src/trucks/trucks.service.ts:81-95 | found iff the truck exists and belongs to the carrier, else "Truck not found" |
| Trucks.DropTruckHistory | src/trucks/trucks.service.ts:97-110 | deleting a truck drops exactly its history rows |
| Trucks.Delete | src/trucks/trucks.service.ts:97-110 | deletes iff the carrier's truck is unreferenced; another carrier's truck is NotFound |
| Trucks.Update | src/trucks/trucks.service.ts:112-132 | only the supplied fields change on the carrier's truck; another carrier's truck is NotFound |
| Trucks.UpdateFailsOnlyOn | src/trucks/trucks.service.ts:112-132 | an update of a found truck fails only on a plate another truck holds |
| Trucks.TrucksOfCarrier | src/trucks/trucks.service.ts:45-79 | the listed trucks are exactly the carrier's, narrowed to the filter's statuses when the filter is non-empty |
| Trucks.FullFilterIsNoFilter | src/trucks/trucks.service.ts:50-57 | a filter naming every status selects the same trucks as none |
| Trucks.FilterNarrows | src/trucks/trucks.service.ts:45-79 | a filter only narrows, and never shows another carrier's truck |
| Trucks.ListsCard | src/trucks/trucks.service.ts:59-78 | a duplicate-free listing has as many entries as the set it lists |
| Trucks.FindTrucksByCarrier | src/trucks/trucks.service.ts:45-79 | the total is the number of matching trucks and every item a matching truck; for a positive limit, at most `limit` items and the page count is the ceiling of total over the limit; a limit of 0 lists every matching truck with no page count |
| Trucks.AssignDriverSpec | src/trucks/trucks.service.ts:134-182 | `Trucks.AssignDriver`: NotFound for a missing truck, Conflict if it has a driver, NotFound for a foreign driver, Conflict if the driver has a truck, in that order; success sets both sides of the pairing and nothing else |
| Trucks.AssignDriverKeepsPairing | src/trucks/trucks.service.ts:170-174 | a successful assignment keeps the one-to-one truck–driver pairing |
| Trucks.UnassignDriverSpec | src/trucks/trucks.service.ts:184-218 | `Trucks.UnassignDriver`: Conflict when the truck has no driver; otherwise both sides are cleared |
| Trucks.UnassignDriverSucceeds | src/trucks/trucks.service.ts:184-218 | with a consistent pairing, unassigning a truck that has a driver succeeds |
| Trucks.UnassignDriverKeepsPairing | src/trucks/trucks.service.ts:184-218 | unassignment keeps the pairing |
| Trucks.UnassignUndoesAssign | src/trucks/trucks.service.ts:134-218 | unassigning right after assigning restores the database exactly |
| Trucks.AssignedFromEitherSide | src/trucks/trucks.service.ts:228-234 | under a consistent pairing the test agrees with the driver's assigned truck |
| Trucks.AssignThenTest | src/trucks/trucks.service.ts:228-234 | after assignment the driver tests as assigned; after unassignment no driver does |
| Trucks.FindDriverByUserId | src/trucks/trucks.service.ts:236-238 | the driver row of the user, or none iff no driver has that user |
| Trucks.UpdateTruckStatus | src/trucks/trucks.service.ts:240-258 | succeeds iff the carrier's truck exists; only its status changes |
| Trucks.UpdateTruckLocation | src/trucks/trucks.service.ts:220-226 | succeeds iff the truck exists (any carrier); only its location changes |
| Trucks.OtherCarrierNotFound | src/trucks/trucks.service.ts:81-132 | every carrier-scoped operation reports another carrier's truck as "Truck not found" |
| Trucks.UnavailableTruckRefusesBids | src/trucks/trucks.service.ts:240-258 | a truck put out of service or into maintenance fails the availability check for every window |
| Trucks.StatusAndLocationKeepInvariants | src/trucks/trucks.service.ts:220-258 | the status and location writes keep schedules and pairing |
| Trucks.CreateTruckKeepsPairing | src/trucks/trucks.service.ts:27-43 | a new truck keeps the pairing |
| Trucks.DeleteKeepsPairing | src/trucks/trucks.service.ts:97-110 | deletion keeps the pairing |
| Tracking.UpdateLocationSpec | src/tracking/tracking.service.ts:21-84 | `Tracking.UpdateLocation`: NotFound, then Forbidden unless the assigned driver, then Forbidden on a truck mismatch, all before any write; success sets truck and shipment location and appends exactly one row (recordedAt given or now), earlier rows unchanged |
| Tracking.TrackingAccess | src/tracking/tracking.service.ts:108-119 | passes iff shipper owns the load, carrier owns the shipment, driver is assigned; other roles pass; every refusal is Forbidden |
| Tracking.RowsOf | src/tracking/tracking.service.ts:122-128 | exactly the shipment's history rows |
| Tracking.Recent | src/tracking/tracking.service.ts:122-128 | at most n of the shipment's rows, newest first |
| Tracking.RowsOfChronological | src/tracking/tracking.service.ts:122-128 | the shipment's rows of a chronological history are chronological |
| Tracking.RecentIsNewestFirst | src/tracking/tracking.service.ts:122-128 | on a chronological history the recent rows come in descending createdAt order |
| Tracking.ReportHeadsRecent | src/tracking/tracking.service.ts:69-83 | right after a report, its row heads the shipment's recent rows |
| Tracking.AverageSpeed | src/tracking/tracking.service.ts:259-273 | none for fewer than two readings; otherwise the mean of the positive speeds, none iff there is none |
| Tracking.CountsSomewhere | src/tracking/tracking.service.ts:263-270 | the count of contributing speeds is positive iff some reading contributes |
| Tracking.SpeedSumBounded | src/tracking/tracking.service.ts:263-270 | the sum of contributing speeds is at most one copy of any bound per contributing reading |
| Tracking.AverageSpeedBounded | src/tracking/tracking.service.ts:259-273 | the average never exceeds the fastest contributing speed |
| Tracking.ComputeAverageSpeed | src/tracking/tracking.service.ts:259-273 | the loop computes the average speed |
| Tracking.EtaSpeed | src/tracking/tracking.service.ts:232 | the ETA speed is 50 when there is no average, and always positive |
| Tracking.HoursToArrival | src/tracking/tracking.service.ts:214-239 | no estimate iff the shipment has no current location |
| Tracking.GetTrackingInfoSpec | src/tracking/tracking.service.ts:85-169 | `Tracking.GetTrackingInfo`: readable iff the access rule passes; at most ten recent rows, newest first; location falls back to the truck's, last update to the shipment's updatedAt |
| Tracking.GetLocationHistory | src/tracking/tracking.service.ts:171-211 | NotFound, then "Access denied" under the same rule; otherwise the shipment's newest 50 rows by default, the newest `limit` rows for a positive limit, and all of them for a limit of 0 |
| Tracking.HistoryLimitZeroIsAll | src/tracking/tracking.service.ts:207-211 | a limit of 0 returns exactly the shipment's rows, and any positive limit returns a prefix of that answer |
| Tracking.ReadEndpointsAgree | src/tracking/tracking.service.ts:108-119 | both read endpoints admit exactly the same callers |
| Gateway.ExtractToken | src/tracking/tracking.gateway.ts:50-51 | the auth token when non-empty, else the header's second word; none without either |
| Gateway.BearerHeaderYieldsToken | src/tracking/tracking.gateway.ts:50-51 | a `<scheme> <token>` header yields the token |
| Gateway.HeaderWithoutSpaceYieldsNothing | src/tracking/tracking.gateway.ts:50-58 | a header without a space yields no token |
| Gateway.Disconnect | src/tracking/tracking.gateway.ts:92-95 | the entry is removed and the socket leaves every room |
| Gateway.HandleConnection | src/tracking/tracking.gateway.ts:44-90 | a missing or failing token gives one error event and a disconnect with no entry; otherwise the entry is {sub, role, []} |
| Gateway.TokenGuard | src/auth/guards/ws-auth.guard.ts:10-25 | passes iff a token is present and verifies; yields its claims |
| Gateway.GuardsAsWritten | src/tracking/tracking.gateway.ts:170-171 | as written, a message passes iff the token verifies and no roles are required |
| Gateway.GuardsFixed | src/auth/guards/roles.gaurd.ts:14-26 | with the token's role claim, a message passes iff the token verifies and the role matches |
| Gateway.GuardsAgreeWithoutRoles | src/tracking/tracking.gateway.ts:97-98 | on messages without roles both guard chains agree |
| Gateway.Join | src/tracking/tracking.gateway.ts:120-126 | the socket joins the room and lists the shipment once |
| Gateway.Without | src/tracking/tracking.gateway.ts:154-162 | removes every occurrence and nothing else; unlisted ids change nothing |
| Gateway.Leave | src/tracking/tracking.gateway.ts:154-162 | the socket leaves the room and drops the shipment; no other entry changes |
| Gateway.Subscribe | src/tracking/tracking.gateway.ts:97-140 | an unregistered socket or a refused access changes nothing; otherwise the socket joins |
| Gateway.Unsubscribe | src/tracking/tracking.gateway.ts:142-167 | a registered socket leaves; anything else changes nothing |
| Gateway.SubscribeIdempotent | src/tracking/tracking.gateway.ts:120-126 | a repeated subscription changes nothing further and replies the same |
| Gateway.UnsubscribeUndoesSubscribe | src/tracking/tracking.gateway.ts:120-162 | unsubscribing after a first subscription restores the socket's list |
| Gateway.WithoutAppended | src/tracking/tracking.gateway.ts:154-162 | filtering out a just-appended id gives the list back |
| Gateway.RoomReachesFollowers | src/tracking/tracking.gateway.ts:218 | in a consistent state a room message reaches exactly the sockets following the shipment |
| Gateway.ConnectionKeepsConsistent | src/tracking/tracking.gateway.ts:44-90 | a new connection keeps registry and rooms consistent |
| Gateway.DisconnectKeepsConsistent | src/tracking/tracking.gateway.ts:92-95 | a disconnection keeps them consistent |
| Gateway.JoinKeepsConsistent | src/tracking/tracking.gateway.ts:120-126 | a join keeps them consistent and the lists duplicate-free |
| Gateway.WithoutKeepsNoDuplicates | src/tracking/tracking.gateway.ts:154-162 | filtering keeps a list duplicate-free |
| Gateway.LeaveKeepsConsistent | src/tracking/tracking.gateway.ts:154-162 | a leave keeps them consistent |
| Gateway.HandlersKeepConsistent | src/tracking/tracking.gateway.ts:97-167 | subscribe and unsubscribe keep them consistent |
| Gateway.HandleUpdateLocation | src/tracking/tracking.gateway.ts:169-252 | success iff the user has a driver row and the tracking service accepts; only then is anything written or broadcast to the room |
| Gateway.UpdateLocationMessage | src/tracking/tracking.gateway.ts:169-172 | as declared, a location message never succeeds |
| Gateway.UpdateLocationAlwaysRefused | src/tracking/tracking.gateway.ts:169-172 | as declared, no socket report is written or relayed |
| Gateway.UpdateLocationMessageFixed | src/tracking/tracking.gateway.ts:169-252 | with the role claim, a refusing guard writes nothing; otherwise the handler runs |
| Gateway.FixedUpdateLocationAccepts | src/tracking/tracking.gateway.ts:169-252 | with the fix, a report succeeds iff the token is a driver's and the service accepts; the relay reaches exactly the followers |
| Gateway.GetShipmentStatus | src/tracking/tracking.gateway.ts:254-277 | a registered socket gets the tracking view the service gives its user |
| Gateway.StatusReadableIffSubscribable | src/tracking/tracking.gateway.ts:97-140 | a socket can read a shipment's status iff it can subscribe to it |
| Gateway.Notify | src/tracking/tracking.gateway.ts:280-293 | a notification reaches exactly the shipment's room |
| Drivers.Create | src/drivers/drivers.service.ts:29-60 | Conflict for a registered email, then NotFound for a missing carrier or driver role; success stores an active driver-role user with the email and hashed password, and its driver row |
| Drivers.FindOne | src/drivers/drivers.service.ts:70-77 | found iff the driver belongs to the carrier, else NotFound |
| Drivers.FindAllAgreesWithFindOne | src/drivers/drivers.service.ts:62-77 | a driver is listed iff it can be read |
| Drivers.CreateThenFind | src/drivers/drivers.service.ts:29-60 | the created driver is found by its carrier and its email is taken from then on |
| Drivers.CreateKeepsEmailsUnique | src/drivers/drivers.service.ts:30-34 | creating a driver keeps emails unique |
| Drivers.CreateNeedsInitializedRoles | src/drivers/drivers.service.ts:40-43 | on a role table seeded by the roles service alone, creation fails with "Driver role not found" |
| Drivers.Update | src/drivers/drivers.service.ts:84-110 | NotFound for a foreign driver; Conflict for another user's email; the password changes only when supplied; a failure other than a duplicate phone writes nothing |
| Drivers.UpdateKeepsEmailsUnique | src/drivers/drivers.service.ts:91-99 | any update, whole or partial, keeps emails unique |
| Drivers.UpdatePartialWrite | src/drivers/drivers.service.ts:105-108 | a half-written update happens only on a duplicate phone, with the driver rows unchanged |
| Drivers.DropUserTokens | src/users/entities/password-reset-token.entity.ts:18 | deleting a user drops exactly its reset tokens |
| Drivers.RemoveRefused | src/drivers/drivers.service.ts:112-119 | `Drivers.Remove`: a foreign or still-referenced driver is kept and nothing is written |
| Drivers.RemoveDeletes | src/drivers/drivers.service.ts:112-119 | `Drivers.Remove`: otherwise the driver is gone, and on success its user and tokens too |
| Drivers.PairingWithoutDriver | src/drivers/drivers.service.ts:112-119 | dropping a driver no truck points at keeps the pairing |
| Drivers.RemoveKeepsPairing | src/drivers/drivers.service.ts:112-119 | removal keeps the truck–driver pairing |
| PasswordReset.RetireUnused | src/auth/password-reset.service.ts:25 | exactly the user's tokens become used; the rest are unchanged |
| PasswordReset.CreateResetToken | src/auth/password-reset.service.ts:21-40 | an unknown email writes nothing and passes; otherwise the user's tokens are retired and one unused token expiring at now + 3600000 is appended; a mail failure surfaces after the writes |
| PasswordReset.CreateLeavesOneLiveToken | src/auth/password-reset.service.ts:25-36 | afterwards each user has at most one unused token, and others' tokens are unchanged |
| PasswordReset.FindToken | src/auth/password-reset.service.ts:43-46 | the first row with that token text, or none iff there is none |
| PasswordReset.ResetPassword | src/auth/password-reset.service.ts:42-60 | succeeds iff the token exists, is unused, expiresAt >= now and its user exists; a missing user is a 500 that writes nothing; on success only that user's password and that token change |
| PasswordReset.ResetTwiceFails | src/auth/password-reset.service.ts:59 | a token cannot be redeemed twice |
| PasswordReset.FindTokenAfterUpdate | src/auth/password-reset.service.ts:59 | marking a token used does not move the lookup |
| PasswordReset.IssuedTokenWindow | src/auth/password-reset.service.ts:27-50 | a fresh token redeems iff the time is at most one hour after issue, the expiry instant included |
| PasswordReset.ResetChangesOnlyThatPassword | src/auth/password-reset.service.ts:53-56 | no other user's password changes |
| PasswordReset.UnknownEmailIsSilent | src/auth/password-reset.service.ts:22-23 | an unknown email leaves the database as it was |
| RolesGuard.RequiredRoles | src/auth/guards/roles.gaurd.ts:15-18 | the handler's roles when present, else the class's |
| RolesGuard.AnyMatches | src/auth/guards/roles.gaurd.ts:25 | true iff the role name is one of the required roles |
| RolesGuard.CanActivate | src/auth/guards/roles.gaurd.ts:14-26 | allowed with no metadata; otherwise iff the user's role is among the handler's roles, or the class's when the handler has none |
| RolesGuard.AnonymousOnlyWhereUnguarded | src/auth/guards/roles.gaurd.ts:20-25 | a missing user or role is allowed iff no roles are required |
| RolesGuard.EmptyRoleListDenies | src/auth/guards/roles.gaurd.ts:20-25 | an empty role list denies everyone |
| RolesGuard.HandlerOverridesClass | src/auth/guards/roles.gaurd.ts:15-18 | handler roles make the class roles irrelevant |
| RolesGuard.MoreRolesAdmitMore | src/auth/guards/roles.gaurd.ts:25 | adding roles never denies an allowed user |
| Roles.FindByName | src/roles/roles.service.ts:25-27 | a role with that exact name, or none iff none has it |
| Roles.NamesAgreeWithFind | src/roles/roles.service.ts:25-27 | a name is present iff findByName finds it |
| Roles.FindByNameAppend | src/roles/roles.service.ts:20-21 | appending a role changes the lookup only for a name that was absent |
| Roles.NextId | src/roles/roles.service.ts:21 | a new row's id exceeds every id in use |
| Roles.EnsureRole | src/roles/roles.service.ts:19-22 | afterwards the name exists; an existing role is not re-created; otherwise exactly one row is appended |
| Roles.EnsureRoleKeepsUnique | src/roles/roles.service.ts:19-22 | on a table with unique names and ids, ensuring a role keeps both unique |
| Roles.EnsureAll | src/roles/intialization/role-intialization.service.ts:21-30 | the loop only appends rows |
| Roles.EnsureAllNames | src/roles/intialization/role-intialization.service.ts:21-30 | the loop adds exactly the listed names |
| Roles.EnsureAllKeepsUnique | src/roles/intialization/role-intialization.service.ts:21-30 | the loop keeps names and ids unique |
| Roles.EnsureAllPresent | src/roles/intialization/role-intialization.service.ts:23-24 | a table already holding every name is unchanged |
| Roles.EnsureAllIdempotent | src/roles/intialization/role-intialization.service.ts:23-24 | a second run is a no-op |
| Roles.SeedRoles | src/roles/roles.service.ts:17-23 | seeding only appends rows |
| Roles.SeedRolesNames | src/roles/roles.service.ts:17-22 | seeding adds admin, carrier and shipper, and "driver" is present iff it was before |
| Roles.EnsureEach | src/roles/intialization/role-intialization.service.ts:21-33 | a seeding loop whose step k throws keeps exactly the first k steps' rows; without a throw it equals the whole loop |
| Roles.InitializeRoles | src/roles/intialization/role-intialization.service.ts:20-34 | without a failure the table holds the whole loop's rows; a failure at step k keeps only the first k steps |
| Roles.InitializeRolesNames | src/roles/intialization/role-intialization.service.ts:9 | a failure-free run leaves admin, shipper, carrier and driver present |
| Roles.StartupOrderIrrelevantForNames | src/roles/roles.service.ts:13-15 | either start-up order gives the same names, and both keep names unique |
| Roles.StartupNames | src/roles/roles.service.ts:13-15 | the two seeders, in either order, leave the same set of names |
| Roles.StartupUnique | src/roles/roles.service.ts:13-15 | the two seeders, in either order, keep the name column unique |
| ExceptionFilter.Catch | src/shared/filters/http-exception.filter.ts:15-63 | success is false; status is the exception's or 500; errors present iff a non-empty message array, then "Validation failed"; the message is empty only for an empty string response |
| ExceptionFilter.OrDefault | src/shared/filters/http-exception.filter.ts:34-36 | an empty message is replaced by the fallback |
| ExceptionFilter.ServiceErrorBody | src/shared/filters/http-exception.filter.ts:24-40 | a service error reaches the client with its class's status and its own message, without errors |
| ExceptionFilter.ValidationBody | src/shared/filters/http-exception.filter.ts:31-33 | a validation rejection is 400 "Validation failed" with the messages iff there are any |
| ExceptionFilter.NonHttpIsInternal | src/shared/filters/http-exception.filter.ts:38-51 | anything not an HTTP exception is a 500 with a non-empty message |
| TruckFilter.TrimAll | src/trucks/dto/truck-filter.dto.ts:11 | each piece is trimmed in place |
| TruckFilter.StatusTransform | src/trucks/dto/truck-filter.dto.ts:9-14 | a list passes unchanged; a string gives one trimmed item per comma plus one |
| TruckFilter.TrimKeepsCommaFree | src/trucks/dto/truck-filter.dto.ts:11 | trimming a comma-free piece keeps it comma-free |
| TruckFilter.TransformedItemsClean | src/trucks/dto/truck-filter.dto.ts:10-12 | no item starts or ends with whitespace, and none has a comma |
| TruckFilter.TransformOfCleanList | src/trucks/dto/truck-filter.dto.ts:10-12 | a string of already-trimmed pieces splits into those pieces, and joining them gives it back |
| TruckFilter.JoinedNamesRoundTrip | src/trucks/dto/truck-filter.dto.ts:10-12 | joining clean names with commas and transforming gives the names back |
| TruckFilter.StatusTransformIdempotent | src/trucks/dto/truck-filter.dto.ts:9-14 | transforming twice equals transforming once |

## Left out

- Controllers, modules, DI wiring, logging and console output are not modelled. So is the controller's history cap at 100.
- bcrypt, JWT signing and verification, random token bytes and the mailer are not modelled:
  - a password is `Hashed(plain)`;
  - token verification is a function parameter;
  - the token text is a parameter;
  - a mail failure is a boolean parameter.
- JavaScript numbers are modelled as Dafny `real`: weights, budgets, amounts, truck capacity (a float column, src/trucks/entities/truck.entity.ts:26), speeds and coordinates. Floating-point rounding, NaN and infinities are therefore not modelled.
- The great-circle distance and the ETA date arithmetic are floating-point trigonometry. The distance is the parameter `distanceKm`, and the ETA stops at hours to drive.
- Concurrency is not modelled. Each service call is one sequential step. The race between the two start-up role seeders is not modelled beyond `Roles.StartupOrderIrrelevantForNames`.
- Repository ordering is not modelled by timestamps. Insertion order in the history stands for `createdAt` order. A truck listing takes the database's newest-first order as an input.
- Response DTOs, class-validator rules and the legacy `updateByUserId` / `removeByUserId` are not modelled.
- The bid and load list endpoints (getBidsForLoadPaginated, getCarrierBidsByUserId, findShipperLoads, findAvailableLoads, getLoadBids, findAllPaginated) are repository queries. Only their page arithmetic is modelled, in `Paging`.
- Automatic `updatedAt` maintenance and the actual start date of a shipment are not stored.
- The driver's cin and license number and their uniqueness are not modelled. Phone uniqueness is.
- The truck update body is limited to plate and capacity.
- `Drivers.FindAll`: only states that the listed drivers exist; the full listing rule is in `Drivers.FindAllAgreesWithFindOne`.
- `Tracking.HoursToArrival`: does not state the hour count beyond its sign, because the date arithmetic is left out.
- Paging.Window: takes a page of at least 1 and a limit of at least 0. The shipment list endpoint reads both raw from the query (src/shipments/shipments.controller.ts:36-37), and the pagination DTO of the other endpoints is not part of this model. So a page below 1 and a negative, fractional or non-numeric value are not modelled.
- Foreign keys are modelled as refusals (`Errors.Internal`), and dangling references are treated as missing rows. Tracking access treats a dangling reference as a denial.
- The subscribe handler's outer catch around room joining is not modelled, nor are the error details in the connection error payload. Non-string auth tokens are not modelled either.
- The socket exception event that a failing guard produces is modelled as a reply named "exception" carrying the message.
- The optional `shipmentId` of the location DTO is treated as required.
- Tracking.GetLocationHistory: the limit is a natural number; a negative or non-numeric query value is not modelled.

## Findings

| source | as written | input that shows it | evidently intended | confidence | as-written member | corrected member |
|---|---|---|---|---|---|---|
| src/bids/bids.service.ts:251 | every successful edit appends the bid's window to its truck | a PENDING bid whose hold is on its truck, edited with only a new amount | append a hold only when dates or truck change, after releasing the old one | high, not executed | Bids.UpdateBidDuplicatesHold | Bids.UpdateBidFixedSingleHold |
| src/bids/bids.service.ts:235-239 | the bid's hold is released before the same-truck re-check, and a failed check leaves it released | a PENDING bid whose truck went into maintenance, edited with new dates | a failed re-check leaves the old hold in place | high, not executed | Bids.UpdateBidDropsHoldOnFailure | Bids.UpdateBidFixedKeepsSchedules |
| src/bids/bids.service.ts:93-129 | no check that the load is PUBLISHED or the bid PENDING | accepting a second bid on a load that already has a shipment | refuse non-PUBLISHED loads and non-PENDING bids, as the load service's acceptBid does | medium, not executed | Bids.AcceptBidByBidIdTwice | Bids.AcceptBidCheckedKeepsConsistency |
| src/loads/loads.service.ts:188-192 | rejecting the pending bids does not release their truck holds | cancelling a PUBLISHED load with a PENDING bid whose truck holds its window | release each rejected bid's hold | medium, not executed | Loads.CancelLoadKeepsRejectedHolds | Loads.CancelLoadFixedReleases |
| src/loads/loads.service.ts:263-270 | the rejection filter uses the MongoDB operator `$ne`, which TypeORM binds as an equality parameter against the uuid key, so the bulk update fails after the bid and the load were saved ACCEPTED | accepting a PENDING bid on a PUBLISHED load that has another PENDING bid | reject every other PENDING bid on the load and succeed | medium, not executed | Loads.AcceptBidLeavesSiblingsPending | Loads.AcceptBidSpec |
| src/tracking/tracking.gateway.ts:169-172 | the role guard reads `request.user`, which a socket does not have | any driver socket with a valid token sending updateLocation | check the verified token's role claim | medium, not executed | Gateway.UpdateLocationAlwaysRefused | Gateway.FixedUpdateLocationAccepts |
