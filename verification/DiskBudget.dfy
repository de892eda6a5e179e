/** The auto-optimize sweep's running disk budget, in the 64-bit arithmetic it is kept in. */
module DiskBudget {
  import opened Basics

  const TWO63 := 0x8000_0000_0000_0000
  const TWO64 := 0x1_0000_0000_0000_0000
  const MAX := TWO63 - 1

  /** A byte count as the source holds one. */
  type bytes = b: int | 0 <= b <= MAX

  /** The 64-bit integer the machine keeps of an exact sum or difference. */
  function Wrap(x: int): int { (x + TWO63) % TWO64 - TWO63 }

  lemma WrapFits(x: int)
    ensures -TWO63 <= Wrap(x) < TWO63 && (-TWO63 <= x < TWO63 ==> Wrap(x) == x)
    ensures TWO63 <= x < TWO63 + TWO64 ==> Wrap(x) == x - TWO64
    ensures -TWO63 - TWO64 <= x < -TWO63 ==> Wrap(x) == x + TWO64
  {
  }

  lemma WrapDifference(x: int, y: int)
    ensures Wrap(x - Wrap(y)) == Wrap(x - y)
  {
    var k := (y + TWO63) / TWO64;
    assert Wrap(y) == y - k * TWO64;
    assert x - Wrap(y) + TWO63 == (x - y + TWO63) + k * TWO64;
    ModShift(x - y + TWO63, k);
  }

  lemma ModShift(a: int, k: int)
    ensures (a + k * TWO64) % TWO64 == a % TWO64
  {
    var q, r := a / TWO64, a % TWO64;
    assert a + k * TWO64 == (q + k) * TWO64 + r;
  }

  // ----- what a render holds on disk -----

  function SurveyScratchBytes(one: bytes): bytes {
    if one > MAX / 2 then MAX else one * 2
  }

  function LaneTempBytes(scratch: bytes, guard: bytes): bytes {
    var held := SurveyScratchBytes(scratch);
    if guard > held then guard else held
  }

  function BytesForLanes(hold: bytes, lanes: int): (r: bytes)
    ensures lanes >= 1 ==> r >= hold
  {
    if hold <= 0 || lanes <= 0 then 0
    else if lanes > MAX / hold then MAX
    else
      LanesFit(hold, lanes);
      hold * lanes
  }

  lemma LanesFit(hold: bytes, lanes: int)
    requires 0 < hold && 0 < lanes <= MAX / hold
    ensures hold <= hold * lanes <= MAX
  {
    assert hold * lanes <= hold * (MAX / hold) <= MAX;
  }

  function SaturatingSum(a: bytes, b: bytes): (r: bytes)
    ensures r >= a
  {
    if a > MAX - b then MAX else a + b
  }

  function SharedVolumeHold(projected: bytes, maxScratch: bytes, maxGuard: bytes, lanes: int): (r: bytes)
    ensures r >= projected
  {
    var survey := BytesForLanes(LaneTempBytes(maxScratch, maxGuard), lanes);
    var beside := if maxGuard > maxScratch then maxGuard else maxScratch;
    var stageC := SaturatingSum(projected, BytesForLanes(beside, lanes));
    if stageC > survey then stageC else survey
  }

  // ----- one candidate -----

  /** A render's projected size, and what it holds on the temp volume: `scratch` is one Stage A file of a
      DSD render, `guard` the gain-guard file of a PCM one. */
  datatype Job = Job(projected: bytes, scratch: bytes, guard: bytes)

  function TempVolumeBytes(j: Job): bytes {
    if j.scratch > 0 then SurveyScratchBytes(j.scratch) else j.guard
  }

  datatype Plan = Ineligible | Unresolvable | ChangedSinceScan | Enqueue(job: Job)

  datatype Answer = Accepted | DuplicateInflight | QueueFull | PoolClosed | OtherError

  /** What the sweep meets at one candidate: a cancelled context, its plan, and the pool's answer. */
  datatype Candidate = Candidate(cancelled: bool, plan: Plan, isStale: bool, answer: Answer)

  datatype Volumes = Volumes(free: int, scratchFree: int, floor: int, shared: bool, lanes: int)

  /** The check before a submit, as the machine computes it. */
  predicate Admits(j: Job, total: int, v: Volumes) {
    var temp := TempVolumeBytes(j);
    if v.shared && temp > 0 then
      var peak := SharedVolumeHold(j.projected, j.scratch, j.guard, v.lanes);
      var free := if v.scratchFree < v.free then v.scratchFree else v.free;
      Wrap(free - Wrap(total + peak)) >= v.floor
    else
      && Wrap(v.free - Wrap(total + j.projected)) >= v.floor
      && var scratch := BytesForLanes(temp, v.lanes);
         !(scratch > 0 && Wrap(v.scratchFree - scratch) < v.floor)
  }

  datatype Tally = Tally(enqueued: nat, regenerated: nat, inflight: nat, ineligible: nat, unresolvable: nat,
                         changed: nat, projectedBytes: int, diskFloorReached: bool, queueSaturated: bool)

  const NO_TALLY := Tally(0, 0, 0, 0, 0, 0, 0, false, false)

  function Skip(t: Tally, p: Plan): Tally {
    match p
    case Ineligible => t.(ineligible := t.ineligible + 1)
    case Unresolvable => t.(unresolvable := t.unresolvable + 1)
    case ChangedSinceScan => t.(changed := t.changed + 1)
    case Enqueue(_) => t
  }

  function Submitted(t: Tally, isStale: bool, a: Answer): Tally {
    match a
    case Accepted => t.(enqueued := t.enqueued + 1, regenerated := t.regenerated + if isStale then 1 else 0)
    case DuplicateInflight => t.(inflight := t.inflight + 1)
    case OtherError => t
    case _ => t.(queueSaturated := true)
  }

  // ----- a drain -----

  /** `accepted` are the projections of the jobs the pool took, in order. */
  datatype Drained = Drained(tally: Tally, total: int, aborted: bool, accepted: seq<bytes>)

  function Drain(cands: seq<Candidate>, t: Tally, total: int, v: Volumes): Drained {
    if cands == [] then Drained(t, total, false, [])
    else
      var c := cands[0];
      if c.cancelled then Drained(t, total, true, [])
      else if !c.plan.Enqueue? then Drain(cands[1..], Skip(t, c.plan), total, v)
      else if !Admits(c.plan.job, total, v) then Drained(t.(diskFloorReached := true), total, false, [])
      else
        var t' := Submitted(t, c.isStale, c.answer);
        if c.answer.Accepted? then
          var rest := Drain(cands[1..], t', Wrap(total + c.plan.job.projected), v);
          rest.(accepted := [c.plan.job.projected] + rest.accepted)
        else if t'.queueSaturated then Drained(t', total, false, [])
        else Drain(cands[1..], t', total, v)
  }

  /** The counts a sweep reports, which its drains update. */
  class Counts {
    var enqueued: nat
    var regenerated: nat
    var inflight: nat
    var ineligible: nat
    var unresolvable: nat
    var changed: nat
    var projectedBytes: int
    var diskFloorReached: bool
    var queueSaturated: bool

    function Now(): Tally
      reads this
    {
      Tally(enqueued, regenerated, inflight, ineligible, unresolvable, changed, projectedBytes, diskFloorReached,
        queueSaturated)
    }

    constructor ()
      ensures Now() == NO_TALLY
    {
      enqueued, regenerated, inflight, ineligible, unresolvable, changed, projectedBytes := 0, 0, 0, 0, 0, 0, 0;
      diskFloorReached, queueSaturated := false, false;
    }

    /** True only when the pool took the job, so that the budget is charged for real work. */
    method Submit(isRegeneration: bool, answer: Answer) returns (took: bool)
      modifies this
      ensures Now() == Submitted(old(Now()), isRegeneration, answer) && took == answer.Accepted?
    {
      match answer {
        case Accepted =>
          enqueued := enqueued + 1;
          if isRegeneration { regenerated := regenerated + 1; }
          return true;
        case DuplicateInflight => inflight := inflight + 1;
        case QueueFull => queueSaturated := true;
        case PoolClosed => queueSaturated := true;
        case OtherError =>
      }
      return false;
    }

    /** Whatever way the drain ends, the projection it made is what the counts then show. */
    method DrainCandidates(cands: seq<Candidate>, v: Volumes) returns (aborted: bool, ghost accepted: seq<bytes>)
      requires !queueSaturated
      modifies this
      ensures var d := Drain(cands, old(Now()), 0, v);
              Now() == d.tally.(projectedBytes := d.total) && aborted == d.aborted && accepted == d.accepted
    {
      var total := 0;
      accepted := [];
      ghost var all := Drain(cands, Now(), 0, v);
      assert cands[0..] == cands && [] + all.accepted == all.accepted;
      for i := 0 to |cands|
        invariant !queueSaturated
        invariant var rest := Drain(cands[i..], Now(), total, v); all == rest.(accepted := accepted + rest.accepted)
      {
        var c := cands[i];
        assert cands[i..][1..] == cands[i + 1..];
        if c.cancelled {
          projectedBytes := total;
          return true, all.accepted;
        }
        match c.plan {
          case Ineligible => ineligible := ineligible + 1;
          case Unresolvable => unresolvable := unresolvable + 1;
          case ChangedSinceScan => changed := changed + 1;
          case Enqueue(job) =>
            if !Admits(job, total, v) {
              diskFloorReached, projectedBytes := true, total;
              return false, all.accepted;
            }
            var took := Submit(c.isStale, c.answer);
            if took {
              ghost var rest := Drain(cands[i + 1..], Now(), Wrap(total + job.projected), v);
              assert accepted + ([job.projected] + rest.accepted) == accepted + [job.projected] + rest.accepted;
              total := Wrap(total + job.projected);
              accepted := accepted + [job.projected];
            }
            if queueSaturated {
              projectedBytes := total;
              return false, all.accepted;
            }
        }
      }
      assert cands[|cands|..] == [] && accepted + [] == accepted;
      projectedBytes := total;
      return false, accepted;
    }

    /** The faithful renditions, moved under what the compact drain left of the budget and of the cap. */
    method DrainSuperseded(rows: Option<seq<Candidate>>, cap: int, dsdOn: bool, v: Volumes)
      returns (aborted: bool, ghost accepted: seq<bytes>)
      modifies this
      ensures var d := Superseded(rows, cap, dsdOn, v, old(Now()));
              Now() == d.tally && aborted == d.aborted && accepted == d.accepted
    {
      var budget := cap - enqueued;
      if !dsdOn || diskFloorReached || queueSaturated || budget <= 0 || rows.None? { return false, []; }
      var compact := projectedBytes;
      aborted, accepted := DrainCandidates(Take(rows.value, budget), v.(free := Wrap(v.free - compact)));
      projectedBytes := Wrap(projectedBytes + compact);
    }
  }

  function Superseded(rows: Option<seq<Candidate>>, cap: int, dsdOn: bool, v: Volumes, t: Tally): Drained {
    var budget := cap - t.enqueued;
    if !dsdOn || t.diskFloorReached || t.queueSaturated || budget <= 0 || rows.None?
      then Drained(t, t.projectedBytes, false, [])
    else
      var d := Drain(Take(rows.value, budget), t, 0, v.(free := Wrap(v.free - t.projectedBytes)));
      d.(tally := d.tally.(projectedBytes := Wrap(d.total + t.projectedBytes)))
  }

  /** What one sweep reads, a listing cut to its limit by the store: the two caps are separate reads of one live
      setting. */
  datatype Inputs = Inputs(compact: seq<Candidate>, faithful: Option<seq<Candidate>>, firstCap: int, secondCap: int,
                           dsdOn: bool, v: Volumes)

  /** Both drains of one sweep. */
  function Sweep(i: Inputs): Drained {
    var first := Drain(Take(i.compact, i.firstCap), NO_TALLY, 0, i.v);
    var t := first.tally.(projectedBytes := first.total);
    if first.aborted then first.(tally := t)
    else
      var second := Superseded(i.faithful, i.secondCap, i.dsdOn, i.v, t);
      second.(accepted := first.accepted + second.accepted)
  }

  datatype Report = Disabled | NoReport | Report(tally: Tally)

  /** A probe that fails, a listing that fails and a cancelled drain each report nothing. */
  method SweepOnce(enabled: bool, i: Inputs, listed: bool, freeProbed: bool, scratchProbed: bool, volumesCompared: bool)
    returns (r: Report, ghost accepted: seq<bytes>)
    ensures r == if !enabled then Disabled
                 else if !(listed && freeProbed && scratchProbed && volumesCompared) || Sweep(i).aborted then NoReport
                 else Report(Sweep(i).tally)
    ensures accepted == if enabled && listed && freeProbed && scratchProbed && volumesCompared
            then Sweep(i).accepted else []
  {
    if !enabled { return Disabled, []; }
    if !listed || !freeProbed || !scratchProbed || !volumesCompared { return NoReport, []; }
    var counts := new Counts();
    var aborted;
    aborted, accepted := counts.DrainCandidates(Take(i.compact, i.firstCap), i.v);
    if aborted { return NoReport, accepted; }
    ghost var more;
    aborted, more := counts.DrainSuperseded(i.faithful, i.secondCap, i.dsdOn, i.v);
    accepted := accepted + more;
    r := if aborted then NoReport else Report(counts.Now());
  }
}
