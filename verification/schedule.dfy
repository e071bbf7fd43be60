/**
 * A truck's schedule: the list of commitments (reserved `[start, end)` windows),
 * the availability test a new window must pass, and the commit / release steps
 * of the bid service (bids.service.ts, validateTruckAvailability,
 * addTruckCommitment, removeTruckCommitment).
 */
module Schedule {
  import opened Wrappers
  import opened Errors
  import opened Domain

  /** The service's overlap test: four clauses, each a way a new window can meet an existing one. */
  predicate Overlaps(pickup: Time, delivery: Time, c: Commitment) {
    || (pickup >= c.start && pickup < c.end)
    || (delivery > c.start && delivery <= c.end)
    || (pickup <= c.start && delivery >= c.end)
    || (c.start <= pickup && c.end >= delivery)
  }

  /** Half-open intersection: `[s1, e1)` and `[s2, e2)` share an instant. */
  predicate Intersect(s1: Time, e1: Time, s2: Time, e2: Time) {
    s1 < e2 && s2 < e1
  }

  /** Two commitments whose windows intersect. */
  predicate Clash(c: Commitment, d: Commitment) {
    Intersect(c.start, c.end, d.start, d.end)
  }

  /** On non-empty windows the four-clause test is exactly half-open intersection. */
  lemma OverlapsIsHalfOpen(pickup: Time, delivery: Time, c: Commitment)
    requires pickup < delivery && c.start < c.end
    ensures Overlaps(pickup, delivery, c) <==> Intersect(pickup, delivery, c.start, c.end)
  {
  }

  /** Back-to-back windows (one ends where the other starts) do not conflict. */
  lemma BackToBackIsFree(pickup: Time, delivery: Time, c: Commitment)
    requires pickup < delivery && c.start < c.end
    requires delivery == c.start || pickup == c.end
    ensures !Overlaps(pickup, delivery, c)
  {
    OverlapsIsHalfOpen(pickup, delivery, c);
  }

  /** Whether some existing commitment overlaps the proposed window. */
  predicate HasConflict(cs: seq<Commitment>, pickup: Time, delivery: Time) {
    exists i :: 0 <= i < |cs| && Overlaps(pickup, delivery, cs[i])
  }

  /** The availability check a truck must pass before it is committed to a window. */
  function ValidateAvailability(t: Truck, pickup: Time, delivery: Time): (o: Outcome<Error>)
    ensures o.Pass? <==> t.status.Available? && !HasConflict(t.commitments, pickup, delivery)
    ensures !t.status.Available? ==> o == Fail(BadRequest("Truck is not available for new commitments"))
    ensures t.status.Available? && o.Fail? ==> o.error.Conflict?
  {
    if t.status.OutOfService? || t.status.InMaintenance? then
      Fail(BadRequest("Truck is not available for new commitments"))
    else if |t.commitments| > 0 && HasConflict(t.commitments, pickup, delivery) then
      Fail(Conflict("Truck has conflicting commitments for the proposed dates"))
    else
      Pass
  }

  /** Every commitment is a non-empty window. */
  ghost predicate WellFormed(cs: seq<Commitment>) {
    forall i :: 0 <= i < |cs| ==> cs[i].start < cs[i].end
  }

  /** No two commitments at different positions intersect. */
  ghost predicate Disjoint(cs: seq<Commitment>) {
    forall i, j :: 0 <= i < j < |cs| ==> !Clash(cs[i], cs[j])
  }

  /** The schedule invariant: non-empty, pairwise non-overlapping windows. */
  ghost predicate ScheduleOk(cs: seq<Commitment>) {
    WellFormed(cs) && Disjoint(cs)
  }

  /** `addTruckCommitment`: the new window goes at the end; nothing else moves. */
  function Commit(cs: seq<Commitment>, c: Commitment): (r: seq<Commitment>)
    ensures |r| == |cs| + 1 && r[|cs|] == c
    ensures r[..|cs|] == cs
  {
    cs + [c]
  }

  /** `removeTruckCommitment`: drop every commitment held for `bidId`. */
  function Release(cs: seq<Commitment>, bidId: BidId): (r: seq<Commitment>)
    ensures |r| <= |cs|
    ensures forall c :: c in r <==> c in cs && c.bidId != bidId
  {
    if |cs| == 0 then []
    else (if cs[0].bidId == bidId then [] else [cs[0]]) + Release(cs[1..], bidId)
  }

  /** Release keeps the surviving commitments in their original order. */
  lemma {:induction false} ReleaseConcat(a: seq<Commitment>, b: seq<Commitment>, bidId: BidId)
    ensures Release(a + b, bidId) == Release(a, bidId) + Release(b, bidId)
    decreases |a|
  {
    if |a| == 0 {
      assert a + b == b;
    } else {
      assert (a + b)[1..] == a[1..] + b;
      ReleaseConcat(a[1..], b, bidId);
    }
  }

  /** Releasing a bid that holds nothing leaves the list as it is. */
  lemma {:induction false} ReleaseAbsent(cs: seq<Commitment>, bidId: BidId)
    requires forall i :: 0 <= i < |cs| ==> cs[i].bidId != bidId
    ensures Release(cs, bidId) == cs
    decreases |cs|
  {
    if |cs| > 0 {
      ReleaseAbsent(cs[1..], bidId);
      assert cs == [cs[0]] + cs[1..];
    }
  }

  /** Releasing twice is releasing once. */
  lemma ReleaseIdempotent(cs: seq<Commitment>, bidId: BidId)
    ensures Release(Release(cs, bidId), bidId) == Release(cs, bidId)
  {
    var r := Release(cs, bidId);
    forall i | 0 <= i < |r|
      ensures r[i].bidId != bidId
    {
      assert r[i] in r;
    }
    ReleaseAbsent(r, bidId);
  }

  /** A schedule extended at the front stays valid when the new head clashes with nothing. */
  lemma ScheduleOkCons(c: Commitment, rest: seq<Commitment>)
    requires ScheduleOk(rest) && c.start < c.end
    requires forall d :: d in rest ==> !Clash(c, d)
    ensures ScheduleOk([c] + rest)
  {
    var cs := [c] + rest;
    forall i, j | 0 <= i < j < |cs|
      ensures !Clash(cs[i], cs[j])
    {
      assert cs[j] == rest[j - 1];
      if i > 0 {
        assert cs[i] == rest[i - 1];
      } else {
        assert rest[j - 1] in rest;
      }
    }
  }

  /** Releasing commitments never breaks the schedule invariant. */
  lemma {:induction false} ReleaseKeepsScheduleOk(cs: seq<Commitment>, bidId: BidId)
    requires ScheduleOk(cs)
    ensures ScheduleOk(Release(cs, bidId))
    decreases |cs|
  {
    if |cs| > 0 {
      var rest := cs[1..];
      assert ScheduleOk(rest) by {
        forall i, j | 0 <= i < j < |rest|
          ensures !Clash(rest[i], rest[j])
        {
          assert rest[i] == cs[i + 1] && rest[j] == cs[j + 1];
        }
      }
      ReleaseKeepsScheduleOk(rest, bidId);
      if cs[0].bidId != bidId {
        forall d | d in Release(rest, bidId)
          ensures !Clash(cs[0], d)
        {
          var k :| 0 <= k < |rest| && rest[k] == d;
          assert cs[k + 1] == d;
        }
        ScheduleOkCons(cs[0], Release(rest, bidId));
      }
    }
  }

  /** Committing a non-empty window that passed the availability test keeps the invariant. */
  lemma CommitKeepsScheduleOk(cs: seq<Commitment>, c: Commitment)
    requires ScheduleOk(cs) && c.start < c.end
    requires !HasConflict(cs, c.start, c.end)
    ensures ScheduleOk(Commit(cs, c))
  {
    var r := Commit(cs, c);
    forall i, j | 0 <= i < j < |r|
      ensures !Clash(r[i], r[j])
    {
      if j == |cs| {
        assert !Overlaps(c.start, c.end, cs[i]);
        OverlapsIsHalfOpen(c.start, c.end, cs[i]);
      } else {
        assert r[i] == cs[i] && r[j] == cs[j];
      }
    }
  }

  /** A window already in a valid schedule conflicts with the schedule itself. */
  lemma CommittedWindowConflicts(cs: seq<Commitment>, k: nat)
    requires WellFormed(cs) && k < |cs|
    ensures HasConflict(cs, cs[k].start, cs[k].end)
  {
    assert Overlaps(cs[k].start, cs[k].end, cs[k]);
  }

  /** The releases of several bids at once: drop every commitment held for any of `bidIds`. */
  function ReleaseAll(cs: seq<Commitment>, bidIds: set<BidId>): (r: seq<Commitment>)
    ensures |r| <= |cs|
    ensures forall c :: c in r <==> c in cs && c.bidId !in bidIds
  {
    if |cs| == 0 then []
    else (if cs[0].bidId in bidIds then [] else [cs[0]]) + ReleaseAll(cs[1..], bidIds)
  }

  /** Releasing a single bid through the set form is the one-bid release. */
  lemma {:induction false} ReleaseAllSingle(cs: seq<Commitment>, bidId: BidId)
    ensures ReleaseAll(cs, {bidId}) == Release(cs, bidId)
    decreases |cs|
  {
    if |cs| > 0 {
      ReleaseAllSingle(cs[1..], bidId);
    }
  }

  /** Releasing any set of bids never breaks the schedule invariant. */
  lemma {:induction false} ReleaseAllKeepsScheduleOk(cs: seq<Commitment>, bidIds: set<BidId>)
    requires ScheduleOk(cs)
    ensures ScheduleOk(ReleaseAll(cs, bidIds))
    decreases |cs|
  {
    if |cs| > 0 {
      var rest := cs[1..];
      assert ScheduleOk(rest) by {
        forall i, j | 0 <= i < j < |rest|
          ensures !Clash(rest[i], rest[j])
        {
          assert rest[i] == cs[i + 1] && rest[j] == cs[j + 1];
        }
      }
      ReleaseAllKeepsScheduleOk(rest, bidIds);
      if cs[0].bidId !in bidIds {
        forall d | d in ReleaseAll(rest, bidIds)
          ensures !Clash(cs[0], d)
        {
          var k :| 0 <= k < |rest| && rest[k] == d;
          assert cs[k + 1] == d;
        }
        ScheduleOkCons(cs[0], ReleaseAll(rest, bidIds));
      }
    }
  }
}
