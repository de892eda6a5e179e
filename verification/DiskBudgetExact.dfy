/** The checks and the drains of the disk budget, said in exact arithmetic. */
module DiskBudgetExact {
  import opened Basics
  import opened DiskBudget
  import opened DiskBudgetLaws

  // ----- what a job holds -----

  lemma LanesCapped(hold: bytes, lanes: int)
    ensures lanes >= 1 ==> BytesForLanes(hold, lanes) == Min(hold * lanes, MAX)
  {
    if hold > 0 && lanes > MAX / hold {
      Times(hold, MAX / hold + 1, lanes);
      NextMultiple(hold);
    } else if hold > 0 && lanes >= 1 {
      LanesFit(hold, lanes);
    }
  }

  lemma Times(x: nat, a: int, b: int)
    requires a <= b
    ensures x * a <= x * b
  {
  }

  lemma NextMultiple(hold: bytes)
    requires hold > 0
    ensures hold * (MAX / hold + 1) > MAX
  {
    var q, r := MAX / hold, MAX % hold;
    assert MAX == hold * q + r && r < hold;
    assert hold * (q + 1) == hold * q + hold;
  }

  /** What a job holds of the temp volume at its peak, over all lanes: two Stage A files each for a DSD render, or one
      gain-guard file; no more than the largest count there is. */
  function TempPeak(j: Job, lanes: int): int {
    Min((if j.scratch > 0 then Min(2 * j.scratch, MAX) else j.guard) * lanes, MAX)
  }

  /** And on one volume with its rendition: the survey's two files a lane, or the rendition beside one file a lane. */
  function SharedPeak(j: Job, lanes: int): int {
    Max(Min(j.projected + Min(Max(j.scratch, j.guard) * lanes, MAX), MAX),
        Min(Max(Min(2 * j.scratch, MAX), j.guard) * lanes, MAX))
  }

  lemma PeaksExactly(j: Job, lanes: int)
    requires lanes >= 1
    ensures BytesForLanes(TempVolumeBytes(j), lanes) == TempPeak(j, lanes)
    ensures SharedVolumeHold(j.projected, j.scratch, j.guard, lanes) == SharedPeak(j, lanes)
  {
    LanesCapped(TempVolumeBytes(j), lanes);
    LanesCapped(LaneTempBytes(j.scratch, j.guard), lanes);
    LanesCapped(if j.guard > j.scratch then j.guard else j.scratch, lanes);
  }

  /** The job and those before it fit above the floor: beside what it holds on one volume, or each on its own. */
  predicate FitsOnDisk(j: Job, total: int, v: Volumes) {
    if v.shared && (j.scratch > 0 || j.guard > 0) then
      total + SharedPeak(j, v.lanes) <= Min(v.free, v.scratchFree) - v.floor
    else
      && total + j.projected <= v.free - v.floor
      && (j.scratch > 0 || j.guard > 0 ==> TempPeak(j, v.lanes) <= v.scratchFree - v.floor)
  }

  lemma SharedAdmits(j: Job, total: int, v: Volumes)
    requires Readings(v) && ProbesAgree(v) && Above(total, v) && v.shared && TempVolumeBytes(j) > 0
    ensures Admits(j, total, v) <==> total + SharedPeak(j, v.lanes) <= Min(v.free, v.scratchFree) - v.floor
  {
    var peak := SharedVolumeHold(j.projected, j.scratch, j.guard, v.lanes);
    var free := Min(v.free, v.scratchFree);
    PeaksExactly(j, v.lanes);
    WrapDifference(free, total + peak);
    WrapFits(free - (total + peak));
  }

  lemma ApartAdmits(j: Job, total: int, v: Volumes)
    requires Readings(v) && Above(total, v) && !(v.shared && TempVolumeBytes(j) > 0)
    ensures Admits(j, total, v) <==>
            && total + j.projected <= v.free - v.floor
            && (TempPeak(j, v.lanes) > 0 ==> TempPeak(j, v.lanes) <= v.scratchFree - v.floor)
  {
    PeaksExactly(j, v.lanes);
    WrapDifference(v.free, total + j.projected);
    WrapFits(v.free - (total + j.projected));
    WrapFits(v.scratchFree - TempPeak(j, v.lanes));
  }

  /** While the probes agree, the check lets a job through exactly when it fits, on both volumes. */
  lemma AdmitsExactly(j: Job, total: int, v: Volumes)
    requires Readings(v) && ProbesAgree(v) && Above(total, v)
    ensures Admits(j, total, v) <==> FitsOnDisk(j, total, v)
  {
    LanesCapped(TempVolumeBytes(j), v.lanes);
    PeaksExactly(j, v.lanes);
    if v.shared && TempVolumeBytes(j) > 0 { SharedAdmits(j, total, v); } else { ApartAdmits(j, total, v); }
  }

  // ----- a whole drain -----

  const TAKEN: Candidate -> bool := (c: Candidate) => c.plan.Enqueue? && c.answer.Accepted?
  const REGENERATED: Candidate -> bool := (c: Candidate) => c.plan.Enqueue? && c.answer.Accepted? && c.isStale
  const INFLIGHT: Candidate -> bool := (c: Candidate) => c.plan.Enqueue? && c.answer.DuplicateInflight?
  const INELIGIBLE: Candidate -> bool := (c: Candidate) => c.plan.Ineligible?
  const UNRESOLVABLE: Candidate -> bool := (c: Candidate) => c.plan.Unresolvable?
  const CHANGED: Candidate -> bool := (c: Candidate) => c.plan.ChangedSinceScan?
  const PROJECTED: Candidate -> bytes := (c: Candidate) => if c.plan.Enqueue? then c.plan.job.projected else 0

  /** The bytes of the jobs the pool took among these. */
  function TakenBytes(cands: seq<Candidate>): nat {
    if cands == [] then 0
    else TakenBytes(cands[..|cands| - 1]) + if TAKEN(cands[|cands| - 1]) then PROJECTED(cands[|cands| - 1]) else 0
  }

  /** The drain goes on past this one. */
  predicate Passes(c: Candidate, total: int, v: Volumes) {
    && !c.cancelled
    && (c.plan.Enqueue? ==>
          && FitsOnDisk(c.plan.job, total, v)
          && (c.answer.Accepted? || c.answer.DuplicateInflight? || c.answer.OtherError?))
  }

  /** A drain's counts after it got past all of `seen`. */
  function Counted(t: Tally, seen: seq<Candidate>): Tally {
    t.(enqueued := t.enqueued + HowMany(seen, TAKEN), regenerated := t.regenerated + HowMany(seen, REGENERATED),
       inflight := t.inflight + HowMany(seen, INFLIGHT), ineligible := t.ineligible + HowMany(seen, INELIGIBLE),
       unresolvable := t.unresolvable + HowMany(seen, UNRESOLVABLE), changed := t.changed + HowMany(seen, CHANGED))
  }

  /** Where and how the drain ends, having got past all of `seen`: at the end, at a cancellation, at a job that does not
      fit, or at one the pool has no room for. */
  predicate EndsWell(cands: seq<Candidate>, n: nat, t: Tally, total: int, v: Volumes, d: Drained)
    requires n <= |cands|
  {
    var counted := Counted(t, cands[..n]);
    if n == |cands| then !d.aborted && d.tally == counted
    else
      var c := cands[n];
      if c.cancelled then d.aborted && d.tally == counted
      else
        && !d.aborted && c.plan.Enqueue?
        && if !FitsOnDisk(c.plan.job, total, v) then d.tally == counted.(diskFloorReached := true)
           else (c.answer.QueueFull? || c.answer.PoolClosed?) && d.tally == counted.(queueSaturated := true)
  }

  ghost predicate AllPass(cands: seq<Candidate>, n: nat, total: int, v: Volumes)
    requires n <= |cands|
  {
    forall i :: 0 <= i < n ==> Passes(cands[i], total + TakenBytes(cands[..i]), v)
  }

  /** The drain got past the first `n` candidates, and no further. */
  ghost predicate DrainedTo(cands: seq<Candidate>, n: nat, t: Tally, total: int, v: Volumes, d: Drained)
    requires n <= |cands|
  {
    && AllPass(cands, n, total, v)
    && Sifted(cands[..n], TAKEN, PROJECTED, d.accepted)
    && d.total == total + TakenBytes(cands[..n])
    && EndsWell(cands, n, t, d.total, v, d)
  }

  lemma {:induction false} TakenBytesAppend(a: seq<Candidate>, b: seq<Candidate>)
    ensures TakenBytes(a + b) == TakenBytes(a) + TakenBytes(b)
  {
    if b == [] {
      assert a + b == a;
    } else {
      var n := |b| - 1;
      TakenBytesAppend(a, b[..n]);
      assert (a + b)[..|a| + n] == a + b[..n];
    }
  }

  lemma TakenBytesHead(cands: seq<Candidate>, i: nat)
    requires 0 < i <= |cands|
    ensures TakenBytes(cands[..i])
            == (if TAKEN(cands[0]) then PROJECTED(cands[0]) else 0) + TakenBytes(cands[1..][..i - 1])
  {
    assert cands[..i] == [cands[0]] + cands[1..][..i - 1];
    TakenBytesAppend([cands[0]], cands[1..][..i - 1]);
    assert [cands[0]][..0] == [];
  }

  lemma CountedHead(t: Tally, cands: seq<Candidate>, i: nat)
    requires 0 < i <= |cands|
    ensures Counted(t, cands[..i]) == Counted(Counted(t, [cands[0]]), cands[1..][..i - 1])
  {
    var head, rest := [cands[0]], cands[1..][..i - 1];
    assert cands[..i] == head + rest;
    HowManyAppend(head, rest, TAKEN);
    HowManyAppend(head, rest, REGENERATED);
    HowManyAppend(head, rest, INFLIGHT);
    HowManyAppend(head, rest, INELIGIBLE);
    HowManyAppend(head, rest, UNRESOLVABLE);
    HowManyAppend(head, rest, CHANGED);
  }

  lemma CountedOne(t: Tally, c: Candidate, total: int, v: Volumes)
    requires Passes(c, total, v)
    ensures Counted(t, [c]) == if c.plan.Enqueue? then Submitted(t, c.isStale, c.answer) else Skip(t, c.plan)
    ensures !c.plan.Enqueue? || !Submitted(t, c.isStale, c.answer).queueSaturated || t.queueSaturated
  {
    HowManyOne(c, TAKEN);
    HowManyOne(c, REGENERATED);
    HowManyOne(c, INFLIGHT);
    HowManyOne(c, INELIGIBLE);
    HowManyOne(c, UNRESOLVABLE);
    HowManyOne(c, CHANGED);
  }

  /** What the tally and the total are after the first candidate. */
  predicate OnPast(cands: seq<Candidate>, t: Tally, total: int, v: Volumes, t': Tally, total': int) {
    && cands != [] && Passes(cands[0], total, v) && t' == Counted(t, [cands[0]])
    && total' == total + if TAKEN(cands[0]) then PROJECTED(cands[0]) else 0
  }

  function HeadSize(cands: seq<Candidate>): seq<bytes>
    requires cands != []
  {
    if TAKEN(cands[0]) then [PROJECTED(cands[0])] else []
  }

  lemma HeadAdmitted(c: Candidate, total: int, v: Volumes)
    requires Readings(v) && ProbesAgree(v) && Above(total, v) && Passes(c, total, v)
    ensures c.plan.Enqueue? ==> Admits(c.plan.job, total, v)
    ensures TAKEN(c) ==> Above(total + PROJECTED(c), v) && Wrap(total + PROJECTED(c)) == total + PROJECTED(c)
  {
    if c.plan.Enqueue? {
      AdmitsExactly(c.plan.job, total, v);
      AdmitsFits(c.plan.job, total, v);
    }
  }

  /** The head of a drain that gets past its first candidate. */
  lemma HeadPasses(cands: seq<Candidate>, t: Tally, total: int, v: Volumes, t': Tally, total': int)
    requires Readings(v) && ProbesAgree(v) && Above(total, v) && !t.queueSaturated
    requires OnPast(cands, t, total, v, t', total')
    ensures Above(total', v) && !t'.queueSaturated
    ensures var rest := Drain(cands[1..], t', total', v);
            Drain(cands, t, total, v) == rest.(accepted := HeadSize(cands) + rest.accepted)
  {
    var c := cands[0];
    CountedOne(t, c, total, v);
    HeadAdmitted(c, total, v);
    if TAKEN(c) {
      AcceptStep(cands, t, total, v);
    } else {
      QuietHead(cands, t, total, v, t');
    }
  }

  lemma QuietHead(cands: seq<Candidate>, t: Tally, total: int, v: Volumes, t': Tally)
    requires cands != [] && Passes(cands[0], total, v) && !TAKEN(cands[0]) && !t.queueSaturated
    requires cands[0].plan.Enqueue? ==> Admits(cands[0].plan.job, total, v)
    requires var c := cands[0];
             t' == if c.plan.Enqueue? then Submitted(t, c.isStale, c.answer) else Skip(t, c.plan)
    ensures var rest := Drain(cands[1..], t', total, v);
            Drain(cands, t, total, v) == rest.(accepted := [] + rest.accepted)
  {
    var rest := Drain(cands[1..], t', total, v);
    assert [] + rest.accepted == rest.accepted;
  }

  lemma PassesHead(cands: seq<Candidate>, n: nat, t: Tally, total: int, v: Volumes, t': Tally, total': int)
    requires n < |cands| && OnPast(cands, t, total, v, t', total')
    requires AllPass(cands[1..], n, total', v)
    ensures AllPass(cands, n + 1, total, v)
  {
    forall i | 0 <= i < n + 1 ensures Passes(cands[i], total + TakenBytes(cands[..i]), v) {
      if i > 0 {
        TakenBytesHead(cands, i);
        assert Passes(cands[1..][i - 1], total' + TakenBytes(cands[1..][..i - 1]), v);
      } else {
        assert cands[..0] == [];
      }
    }
  }

  lemma EndsHead(cands: seq<Candidate>, n: nat, t: Tally, total: int, v: Volumes, t': Tally, total': int, rest: Drained)
    requires n < |cands| && OnPast(cands, t, total, v, t', total')
    requires EndsWell(cands[1..], n, t', rest.total, v, rest)
    ensures EndsWell(cands, n + 1, t, rest.total, v, rest.(accepted := HeadSize(cands) + rest.accepted))
  {
    CountedHead(t, cands, n + 1);
  }

  lemma DrainedToHead(cands: seq<Candidate>, n: nat, t: Tally, total: int, v: Volumes, t': Tally, total': int,
                      rest: Drained)
    requires n < |cands| && OnPast(cands, t, total, v, t', total') && DrainedTo(cands[1..], n, t', total', v, rest)
    ensures DrainedTo(cands, n + 1, t, total, v, rest.(accepted := HeadSize(cands) + rest.accepted))
  {
    SiftedHead(cands[0], cands[1..][..n], TAKEN, PROJECTED, rest.accepted);
    assert cands[..n + 1] == [cands[0]] + cands[1..][..n];
    TakenBytesHead(cands, n + 1);
    PassesHead(cands, n, t, total, v, t', total');
    EndsHead(cands, n, t, total, v, t', total', rest);
  }

  lemma DrainStops(cands: seq<Candidate>, t: Tally, total: int, v: Volumes)
    requires Readings(v) && ProbesAgree(v) && Above(total, v) && !t.queueSaturated
    requires cands == [] || !Passes(cands[0], total, v)
    ensures DrainedTo(cands, 0, t, total, v, Drain(cands, t, total, v))
  {
    assert cands[..0] == [] && Counted(t, []) == t;
    if cands != [] && cands[0].plan.Enqueue? { AdmitsExactly(cands[0].plan.job, total, v); }
  }

  /** A drain, said outright: it gets past every candidate until one of its ends comes, hands over exactly the jobs that
      fit beside those taken before, and counts each answer and each reason once. */
  lemma {:induction false} DrainSays(cands: seq<Candidate>, t: Tally, total: int, v: Volumes) returns (n: nat)
    requires Readings(v) && ProbesAgree(v) && Above(total, v) && !t.queueSaturated
    ensures n <= |cands| && DrainedTo(cands, n, t, total, v, Drain(cands, t, total, v))
  {
    if cands == [] || !Passes(cands[0], total, v) {
      n := 0;
      DrainStops(cands, t, total, v);
    } else {
      var t', total' := Counted(t, [cands[0]]), total + if TAKEN(cands[0]) then PROJECTED(cands[0]) else 0;
      HeadPasses(cands, t, total, v, t', total');
      n := DrainSays(cands[1..], t', total', v);
      DrainedToHead(cands, n, t, total, v, t', total', Drain(cands[1..], t', total', v));
      n := n + 1;
    }
  }

  /** One drain ends in one way. */
  lemma DrainEndsOnce(cands: seq<Candidate>, m: nat, n: nat, t: Tally, total: int, v: Volumes, a: Drained, b: Drained)
    requires m <= n <= |cands| && DrainedTo(cands, m, t, total, v, a) && DrainedTo(cands, n, t, total, v, b)
    ensures m == n && a.tally == b.tally && a.total == b.total && a.aborted == b.aborted
  {
    if m < n { assert false; }
  }

  // ----- the second drain -----

  /** The faithful renditions are drained exactly when DSD renders are on, the first drain stopped at neither the floor
      nor the pool, and it left some of the cap: what is left of the cap limits the listing, and what it left of the
      space is what this one may use. */
  lemma SecondDrainExactly(rows: Option<seq<Candidate>>, cap: int, dsdOn: bool, v: Volumes, t: Tally)
    requires Readings(v) && ProbesAgree(v) && Above(t.projectedBytes, v)
    ensures var d := Superseded(rows, cap, dsdOn, v, t);
            if dsdOn && !t.diskFloorReached && !t.queueSaturated && t.enqueued < cap && rows.Some? then
              var left := v.(free := v.free - t.projectedBytes);
              var own := Drain(Take(rows.value, cap - t.enqueued), t, 0, left);
              && (left.free >= 0 ==> Readings(left) && ProbesAgree(left))
              && d.accepted == own.accepted && d.aborted == own.aborted
              && d.tally == own.tally.(projectedBytes := t.projectedBytes + own.total)
            else
              d.accepted == [] && d.tally == t && !d.aborted
  {
    SecondFits(rows, cap, dsdOn, v, t);
    WrapFits(v.free - t.projectedBytes);
    if dsdOn && !t.diskFloorReached && !t.queueSaturated && t.enqueued < cap && rows.Some? {
      var left := v.(free := v.free - t.projectedBytes);
      DrainFits(Take(rows.value, cap - t.enqueued), t, 0, left);
      WrapFits(Drain(Take(rows.value, cap - t.enqueued), t, 0, left).total + t.projectedBytes);
    }
  }

  /** A sweep is its two drains, each of a listing cut to what the cap leaves it, the second over what the first left;
      unless the first was cut off, which ends it. */
  lemma SweepIsTwoDrains(i: Inputs)
    requires Readings(i.v) && ProbesAgree(i.v)
    ensures var first, second := FirstDrain(i), Superseded(i.faithful, i.secondCap, i.dsdOn, i.v, AfterFirst(i));
            && Above(AfterFirst(i).projectedBytes, i.v) && AfterFirst(i).projectedBytes == Sum(first.accepted)
            && Sweep(i).aborted == (first.aborted || second.aborted)
            && Sweep(i).accepted == first.accepted + (if first.aborted then [] else second.accepted)
            && Sweep(i).tally == (if first.aborted then AfterFirst(i) else second.tally)
            && exists n :: 0 <= n <= |Take(i.compact, i.firstCap)|
                           && DrainedTo(Take(i.compact, i.firstCap), n, NO_TALLY, 0, i.v, first)
  {
    FirstFits(i);
    var n := DrainSays(Take(i.compact, i.firstCap), NO_TALLY, 0, i.v);
    assert FirstDrain(i).accepted + [] == FirstDrain(i).accepted;
  }
}
