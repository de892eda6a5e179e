/** What the two drains of a sweep keep together. */
module DiskBudgetLaws {
  import opened Basics
  import opened DiskBudget

  function Sum(sizes: seq<bytes>): nat {
    if sizes == [] then 0 else sizes[0] + Sum(sizes[1..])
  }

  lemma {:induction false} SumAppend(a: seq<bytes>, b: seq<bytes>)
    ensures Sum(a + b) == Sum(a) + Sum(b)
  {
    if a == [] {
      assert a + b == b;
    } else {
      assert (a + b)[1..] == a[1..] + b;
      SumAppend(a[1..], b);
    }
  }

  /** Readings a machine can take. */
  predicate Readings(v: Volumes) {
    0 <= v.free <= MAX && 0 <= v.scratchFree <= MAX && 0 <= v.floor <= MAX && v.lanes >= 1
  }

  /** The two probes of one volume do not contradict each other past the floor. */
  predicate ProbesAgree(v: Volumes) {
    v.shared ==> v.free - v.floor <= v.scratchFree + 1
  }

  /** The running total of a drain: nothing yet, or above the floor. */
  predicate Above(total: int, v: Volumes) {
    total == 0 || 0 <= total <= v.free - v.floor
  }

  /** While the probes agree, what the machine computes for the check is the exact difference, so what it
      admits fits. */
  lemma AdmitsFits(j: Job, total: int, v: Volumes)
    requires Readings(v) && ProbesAgree(v) && Above(total, v) && Admits(j, total, v)
    ensures 0 <= total + j.projected <= v.free - v.floor && Wrap(total + j.projected) == total + j.projected
  {
    var temp := TempVolumeBytes(j);
    if v.shared && temp > 0 {
      var peak := SharedVolumeHold(j.projected, j.scratch, j.guard, v.lanes);
      var free := if v.scratchFree < v.free then v.scratchFree else v.free;
      WrapDifference(free, total + peak);
      WrapFits(free - (total + peak));
    } else {
      WrapDifference(v.free, total + j.projected);
      WrapFits(v.free - (total + j.projected));
    }
    WrapFits(total + j.projected);
  }

  /** What a drain of at most n candidates from `total` on guarantees. */
  ghost predicate Fits(d: Drained, t: Tally, total: int, v: Volumes, n: nat) {
    && d.total == total + Sum(d.accepted) && Above(d.total, v)
    && (d.accepted != [] ==> d.total <= v.free - v.floor)
    && d.tally.enqueued == t.enqueued + |d.accepted| && |d.accepted| <= n
    && d.tally.projectedBytes == t.projectedBytes
  }

  lemma FitsAfterAccept(rest: Drained, t: Tally, t': Tally, total: int, v: Volumes, n: nat, size: bytes)
    requires Fits(rest, t', total + size, v, n) && total + size <= v.free - v.floor
    requires t'.enqueued == t.enqueued + 1 && t'.projectedBytes == t.projectedBytes
    ensures Fits(rest.(accepted := [size] + rest.accepted), t, total, v, n + 1)
  {
    SumAppend([size], rest.accepted);
    assert Sum([size]) == size;
  }

  /** Whether the drain hands a candidate over and the pool takes it. */
  predicate Takes(c: Candidate, total: int, v: Volumes) {
    !c.cancelled && c.plan.Enqueue? && c.answer.Accepted? && Admits(c.plan.job, total, v)
  }

  lemma AcceptStep(cands: seq<Candidate>, t: Tally, total: int, v: Volumes)
    requires Readings(v) && ProbesAgree(v) && Above(total, v)
    requires cands != [] && Takes(cands[0], total, v)
    ensures var c, size := cands[0], cands[0].plan.job.projected;
            var rest := Drain(cands[1..], Submitted(t, c.isStale, c.answer), total + size, v);
            && Drain(cands, t, total, v) == rest.(accepted := [size] + rest.accepted)
            && 0 <= total + size <= v.free - v.floor
  {
    AdmitsFits(cands[0].plan.job, total, v);
  }

  /** Any other candidate costs nothing: the drain goes on past it, or stops there. */
  lemma QuietStep(cands: seq<Candidate>, t: Tally, total: int, v: Volumes) returns (t': Tally, stops: bool)
    requires cands != [] && !Takes(cands[0], total, v)
    ensures t'.enqueued == t.enqueued && t'.projectedBytes == t.projectedBytes
    ensures stops ==> Drain(cands, t, total, v) in {Drained(t', total, false, []), Drained(t', total, true, [])}
    ensures !stops ==> Drain(cands, t, total, v) == Drain(cands[1..], t', total, v)
  {
    var c := cands[0];
    t', stops := t, c.cancelled;
    if !c.cancelled {
      if !c.plan.Enqueue? {
        t' := Skip(t, c.plan);
      } else if !Admits(c.plan.job, total, v) {
        t', stops := t.(diskFloorReached := true), true;
      } else {
        t' := Submitted(t, c.isStale, c.answer);
        stops := t'.queueSaturated;
      }
    }
  }

  lemma {:induction false} DrainFits(cands: seq<Candidate>, t: Tally, total: int, v: Volumes)
    requires Readings(v) && ProbesAgree(v) && Above(total, v)
    ensures Fits(Drain(cands, t, total, v), t, total, v, |cands|)
  {
    if cands == [] {
    } else {
      var c, n := cands[0], |cands| - 1;
      if Takes(c, total, v) {
        var t', size := Submitted(t, c.isStale, c.answer), c.plan.job.projected;
        AcceptStep(cands, t, total, v);
        DrainFits(cands[1..], t', total + size, v);
        FitsAfterAccept(Drain(cands[1..], t', total + size, v), t, t', total, v, n, size);
      } else {
        var t', stops := QuietStep(cands, t, total, v);
        if !stops { DrainFits(cands[1..], t', total, v); }
      }
    }
  }

  ghost predicate BudgetHolds(i: Inputs) {
    Sweep(i).accepted != [] ==> Sum(Sweep(i).accepted) <= i.v.free - i.v.floor
  }

  /** What the first drain leaves for the second. */
  function FirstDrain(i: Inputs): Drained { Drain(Take(i.compact, i.firstCap), NO_TALLY, 0, i.v) }

  function AfterFirst(i: Inputs): Tally { FirstDrain(i).tally.(projectedBytes := FirstDrain(i).total) }

  lemma FirstFits(i: Inputs)
    requires Readings(i.v) && ProbesAgree(i.v)
    ensures var d := FirstDrain(i);
            && d.total == Sum(d.accepted) && Above(d.total, i.v)
               && (d.accepted != [] ==> d.total <= i.v.free - i.v.floor)
            && AfterFirst(i).enqueued == |d.accepted| <= Max(0, i.firstCap)
            && AfterFirst(i).projectedBytes == d.total
  {
    DrainFits(Take(i.compact, i.firstCap), NO_TALLY, 0, i.v);
  }

  /** What the second drain adds to a tally of `spent` bytes that fits. */
  lemma SecondFits(rows: Option<seq<Candidate>>, cap: int, dsdOn: bool, v: Volumes, t: Tally)
    requires Readings(v) && ProbesAgree(v) && Above(t.projectedBytes, v)
    ensures var d := Superseded(rows, cap, dsdOn, v, t);
            && d.tally.projectedBytes == t.projectedBytes + Sum(d.accepted)
            && (d.accepted != [] ==> d.tally.projectedBytes <= v.free - v.floor)
            && d.tally.enqueued == t.enqueued + |d.accepted|
            && (d.accepted != [] ==> d.tally.enqueued <= cap)
  {
    var budget := cap - t.enqueued;
    if dsdOn && !t.diskFloorReached && !t.queueSaturated && budget > 0 && rows.Some? {
      WrapFits(v.free - t.projectedBytes);
      var left := v.(free := v.free - t.projectedBytes);
      var d := Drain(Take(rows.value, budget), t, 0, left);
      DrainFits(Take(rows.value, budget), t, 0, left);
      WrapFits(d.total + t.projectedBytes);
    }
  }

  /** Over both drains of a sweep, the jobs the pool took fit above the floor; what the counts report is
      their sum, so a duplicate is never charged; and they are never more than the larger of the two reads
      of the cap. */
  lemma SweepKeepsBudget(i: Inputs)
    requires Readings(i.v) && ProbesAgree(i.v)
    ensures BudgetHolds(i)
    ensures var d := Sweep(i);
            && d.tally.projectedBytes == Sum(d.accepted)
            && d.tally.enqueued == |d.accepted|
            && |d.accepted| <= Max(0, Max(i.firstCap, i.secondCap))
  {
    FirstFits(i);
    if FirstDrain(i).aborted {
    } else {
      var second := Superseded(i.faithful, i.secondCap, i.dsdOn, i.v, AfterFirst(i));
      SecondFits(i.faithful, i.secondCap, i.dsdOn, i.v, AfterFirst(i));
      SumAppend(FirstDrain(i).accepted, second.accepted);
    }
  }

  /** The largest 64-bit count a double converts to exactly. */
  const LARGEST := MAX - 1023

  /** A first job with no known duration, which reserves no scratch, and a second of a duration so wrong that its
      gain-guard file comes to the largest size the projection can give. */
  function Overrun(v: Volumes): Inputs
    requires Readings(v) && v.free - v.floor >= 0
  {
    var first := Candidate(false, Enqueue(Job(v.free - v.floor, 0, 0)), false, Accepted);
    var second := Candidate(false, Enqueue(Job(1024, 0, LARGEST)), false, Accepted);
    Inputs([first, second], None, 2, 2, false, v)
  }

  lemma LanesHold(lanes: int)
    requires lanes >= 1
    ensures LARGEST <= BytesForLanes(LARGEST, lanes) <= MAX
  {
    assert MAX / LARGEST == 1;
  }

  lemma OverrunAdmitted(v: Volumes)
    requires Readings(v) && !ProbesAgree(v)
    ensures Admits(Job(v.free - v.floor, 0, 0), 0, v) && Admits(Job(1024, 0, LARGEST), v.free - v.floor, v)
    ensures Wrap(v.free - v.floor) == v.free - v.floor
  {
    var total := v.free - v.floor;
    WrapFits(total);
    WrapFits(v.free - total);
    LanesHold(v.lanes);
    assert SharedVolumeHold(1024, 0, LARGEST, v.lanes) == MAX;
    WrapDifference(v.scratchFree, total + MAX);
    WrapFits(v.scratchFree - (total + MAX));
  }

  lemma OverrunBreaksBudget(v: Volumes)
    requires Readings(v) && !ProbesAgree(v)
    ensures !BudgetHolds(Overrun(v))
  {
    OverrunAdmitted(v);
    var i := Overrun(v);
    var total := v.free - v.floor;
    assert i.compact[1..] == [i.compact[1]] && i.compact[1..][1..] == [];
    var t1 := Submitted(NO_TALLY, false, Accepted);
    var last := Drain([i.compact[1]], t1, total, v);
    assert last.accepted == [1024] + Drain([], Submitted(t1, false, Accepted), Wrap(total + 1024), v).accepted;
    assert last.accepted == [1024];
    var d := Drain(i.compact, NO_TALLY, 0, v);
    assert d.accepted == [total] + [1024];
    assert Sum([1024]) == 1024 && Sum([total] + [1024]) == total + 1024 by {
      assert ([total] + [1024])[1..] == [1024];
    }
    assert [total] + [1024] + [] == [total] + [1024];
  }

  /** The floor holds for every two lists of candidates and every answer of the pool exactly when the probes
      agree: otherwise the check's 64-bit difference can wrap round and admit a job that does not fit. */
  lemma BudgetHoldsExactly(v: Volumes)
    requires Readings(v)
    ensures (forall i: Inputs :: i.v == v ==> BudgetHolds(i)) <==> ProbesAgree(v)
  {
    if ProbesAgree(v) {
      forall i: Inputs | i.v == v ensures BudgetHolds(i) { SweepKeepsBudget(i); }
    } else {
      OverrunBreaksBudget(v);
    }
  }
}
