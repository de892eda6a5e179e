/** The fingerprint sweep's pacer: one mutex held across its sleeps, and a pause the whole pool keeps. */
module AcoustidPacer {
  import opened Basics

  const MAX_RETRY_AFTER := 3_600_000_000_000  // an hour, in nanoseconds

  predicate Reached(i: Instant, t: int) { i.Never? || i.time <= t }

  function Later(i: Instant, t: int): Instant { if i.Never? || i.time < t then At(t) else i }

  /** The first moment from `now` on that is past the pause. */
  function PastPause(notBefore: Instant, now: int): (t: int)
    ensures t >= now && Reached(notBefore, t) && (t == now || notBefore == At(t))
  {
    if notBefore.At? && notBefore.time > now then notBefore.time else now
  }

  /** The first moment from `now` on that is past the pause and an interval after the last request. */
  function PastBoth(last: Instant, notBefore: Instant, interval: nat, now: int): (t: int)
    ensures t >= now && Reached(notBefore, t) && (last.At? ==> t >= last.time + interval)
    ensures t == now || notBefore == At(t) || (last.At? && t == last.time + interval)
  {
    var t := PastPause(notBefore, now);
    if last.At? && last.time + interval > t then last.time + interval else t
  }

  function PauseDeadline(now: int, retryAfter: int): int {
    now + if retryAfter > MAX_RETRY_AFTER then MAX_RETRY_AFTER else retryAfter
  }

  /** A sleep of `d` from `now`, cut short by a cancellation, or waking `late` after its timer. */
  method SleepOrDone(now: int, d: int, cancelAt: Option<int>, late: nat) returns (woke: int, cancelled: bool)
    ensures woke >= now && (!cancelled ==> woke >= now + d)
    ensures d <= 0 ==> woke == now && !cancelled
    ensures cancelled ==> cancelAt.Some? && woke == Max(now, cancelAt.value) && cancelAt.value < now + d + late
    ensures !cancelled && d > 0 ==> woke == now + d + late
  {
    if d <= 0 { return now, false; }
    if cancelAt.Some? && cancelAt.value < now + d + late {
      return if cancelAt.value > now then cancelAt.value else now, true;
    }
    return now + d + late, false;
  }

  /** The fields the pacer's mutex guards; each method runs with it held, from `now` on. */
  class Pacer {
    const interval: nat
    var last: Instant
    var notBefore: Instant

    constructor (interval: nat)
      ensures this.interval == interval && last == Never && notBefore == Never
    {
      this.interval := interval;
      last, notBefore := Never, Never;
    }

    method AwaitPause(now: int, cancelAt: Option<int>, late: nat) returns (woke: int, cancelled: bool)
      ensures woke >= now && (!cancelled ==> PastPause(notBefore, now) <= woke <= PastPause(notBefore, now) + late)
      ensures cancelled ==> cancelAt.Some? && woke == Max(now, cancelAt.value)
    {
      var d := if notBefore.At? then notBefore.time - now else 0;
      woke, cancelled := SleepOrDone(now, d, cancelAt, late);
    }

    /** Cancelled or not, the wait leaves its end as the last request's time. */
    method Wait(now: int, cancelAt: Option<int>, late: nat) returns (woke: int, cancelled: bool)
      modifies this`last
      ensures woke >= now && last == At(woke)
      ensures !cancelled ==> var t := PastBoth(old(last), notBefore, interval, now); t <= woke <= t + late
      ensures cancelled ==> cancelAt.Some? && woke == Max(now, cancelAt.value)
    {
      var d := if last.At? then interval - (now - last.time) else 0;
      if notBefore.At? && notBefore.time - now > d { d := notBefore.time - now; }
      woke, cancelled := SleepOrDone(now, d, cancelAt, late);
      last := At(woke);
    }

    /** `deadline` was taken before the mutex was asked for. */
    method NotePause(deadline: int) returns (extended: bool)
      modifies this`notBefore
      ensures notBefore == Later(old(notBefore), deadline) && extended == (notBefore != old(notBefore))
    {
      extended := notBefore.Never? || deadline > notBefore.time;
      if extended { notBefore := At(deadline); }
    }
  }

  // ----- any number of workers -----

  datatype Phase =
    | Idle
    | WantsGate | InGate(until: int)     // awaitPause, before a decode
    | WantsGrant | InWait(until: int)    // wait, before a request
    | WantsNote(asked: int, retryAfter: int)   // noteLookupErr, told at `asked` to wait

  datatype Event = Grant(at: int) | Gate(at: int) | Paused(asked: int, retryAfter: int)

  /** A worker belongs to one pass of the sweep, and that pass's context is what cancels it. */
  datatype Worker = Worker(pass: nat, phase: Phase)

  /** The pool of the process: the pacer outlives the passes, and a worker of a cancelled pass may meet those of
      the next. `cancelled` holds the passes whose context has ended. */
  datatype Pool = Pool(clock: int, cancelled: set<nat>, holder: Option<nat>, last: Instant, notBefore: Instant,
                       workers: seq<Worker>, log: seq<Event>)

  datatype Step =
    | Tick(to: int) | Spawn(pass: nat) | Cancel(pass: nat)
    | AskGate(w: nat) | LockGate(w: nat) | LeaveGate(w: nat)
    | AskGrant(w: nat) | LockWait(w: nat) | LeaveWait(w: nat)
    | RateLimited(w: nat, retryAfter: int) | LockNote(w: nat)

  predicate Holds(p: Phase) { p.InGate? || p.InWait? }

  predicate Ended(s: Pool, w: nat)
    requires w < |s.workers|
  {
    s.workers[w].pass in s.cancelled
  }

  function Move(s: Pool, w: nat, to: Phase): seq<Worker>
    requires w < |s.workers|
  {
    s.workers[w := s.workers[w].(phase := to)]
  }

  ghost predicate Next(s: Pool, step: Step, t: Pool, interval: nat) {
    match step
    case Tick(to) => s.clock <= to && t == s.(clock := to)
    case Spawn(pass) => t == s.(workers := s.workers + [Worker(pass, Idle)])
    case Cancel(pass) => t == s.(cancelled := s.cancelled + {pass})
    case AskGate(w) =>
      w < |s.workers| && s.workers[w].phase.Idle? && t == s.(workers := Move(s, w, WantsGate))
    case LockGate(w) =>
      && w < |s.workers| && s.workers[w].phase.WantsGate? && s.holder.None?
      && t == s.(holder := Some(w), workers := Move(s, w, InGate(PastPause(s.notBefore, s.clock))))
    case LeaveGate(w) =>
      && w < |s.workers| && s.workers[w].phase.InGate? && (s.clock >= s.workers[w].phase.until || Ended(s, w))
      && t == s.(holder := None, workers := Move(s, w, Idle),
                 log := if Ended(s, w) then s.log else s.log + [Gate(s.clock)])
    case AskGrant(w) =>
      w < |s.workers| && s.workers[w].phase.Idle? && t == s.(workers := Move(s, w, WantsGrant))
    case LockWait(w) =>
      && w < |s.workers| && s.workers[w].phase.WantsGrant? && s.holder.None?
      && t == s.(holder := Some(w), workers := Move(s, w, InWait(PastBoth(s.last, s.notBefore, interval, s.clock))))
    case LeaveWait(w) =>
      && w < |s.workers| && s.workers[w].phase.InWait? && (s.clock >= s.workers[w].phase.until || Ended(s, w))
      && t == s.(holder := None, last := At(s.clock), workers := Move(s, w, Idle),
                 log := if Ended(s, w) then s.log else s.log + [Grant(s.clock)])
    case RateLimited(w, retryAfter) =>
      && w < |s.workers| && s.workers[w].phase.Idle? && retryAfter > 0
      && t == s.(workers := Move(s, w, WantsNote(s.clock, retryAfter)))
    case LockNote(w) =>
      && w < |s.workers| && s.workers[w].phase.WantsNote? && s.holder.None?
      && var asked, retryAfter := s.workers[w].phase.asked, s.workers[w].phase.retryAfter;
         t == s.(notBefore := Later(s.notBefore, PauseDeadline(asked, retryAfter)), workers := Move(s, w, Idle),
                 log := s.log + [Paused(asked, retryAfter)])
  }

  ghost predicate Init(s: Pool) {
    && s.cancelled == {} && s.holder.None? && s.last.Never? && s.notBefore.Never? && s.log == [] && s.workers == []
  }

  ghost predicate Run(states: seq<Pool>, steps: seq<Step>, interval: nat) {
    && |states| == |steps| + 1 && Init(states[0])
    && forall i :: 0 <= i < |steps| ==> Next(states[i], steps[i], states[i + 1], interval)
  }

  // ----- what the pool keeps -----

  /** Requests are an interval apart. */
  ghost predicate Spaced(log: seq<Event>, interval: nat) {
    forall i, j :: 0 <= i < j < |log| && log[i].Grant? && log[j].Grant? ==> log[j].at - log[i].at >= interval
  }

  /** Nothing passes, request or decode, until the time advised earlier is over, up to an hour of it. */
  ghost predicate PausesKept(log: seq<Event>) {
    forall i, j :: 0 <= i < j < |log| && log[i].Paused? && !log[j].Paused? ==>
      log[j].at >= log[i].asked + Min(log[i].retryAfter, 3_600_000_000_000)
  }

  function Deadline(e: Event): int
    requires e.Paused?
  {
    PauseDeadline(e.asked, e.retryAfter)
  }

  /** The pause in force is the furthest of those recorded. */
  function Furthest(log: seq<Event>): Instant {
    if log == [] then Never
    else
      var before := Furthest(log[..|log| - 1]);
      var e := log[|log| - 1];
      if e.Paused? then Later(before, Deadline(e)) else before
  }

  lemma {:induction false} FurthestReached(log: seq<Event>, t: int)
    requires Reached(Furthest(log), t)
    ensures forall i :: 0 <= i < |log| && log[i].Paused? ==> Deadline(log[i]) <= t
  {
    if log == [] {
    } else {
      FurthestReached(log[..|log| - 1], t);
    }
  }

  /** Who holds the mutex sleeps far enough, measured by the fields as they stand. */
  ghost predicate LockInv(s: Pool, interval: nat) {
    && (forall w :: 0 <= w < |s.workers| ==> (Holds(s.workers[w].phase) <==> s.holder == Some(w)))
    && (forall w :: 0 <= w < |s.workers| && Holds(s.workers[w].phase) ==>
          Reached(s.notBefore, s.workers[w].phase.until))
    && (forall w :: 0 <= w < |s.workers| && s.workers[w].phase.InWait? && s.last.At? ==>
          s.workers[w].phase.until >= s.last.time + interval)
    && (s.holder.Some? ==> s.holder.value < |s.workers|)
  }

  ghost predicate LogInv(s: Pool, interval: nat) {
    && Reached(s.last, s.clock)
    && (forall i :: 0 <= i < |s.log| && s.log[i].Grant? ==> s.last.At? && s.log[i].at <= s.last.time)
    && s.notBefore == Furthest(s.log)
    && Spaced(s.log, interval) && PausesKept(s.log)
  }

  ghost predicate Inv(s: Pool, interval: nat) { LockInv(s, interval) && LogInv(s, interval) }

  lemma SpacedAppend(log: seq<Event>, e: Event, interval: nat)
    requires Spaced(log, interval)
    requires e.Grant? ==> forall i :: 0 <= i < |log| && log[i].Grant? ==> e.at - log[i].at >= interval
    ensures Spaced(log + [e], interval)
  {
    var now := log + [e];
    forall i, j | 0 <= i < j < |now| && now[i].Grant? && now[j].Grant? ensures now[j].at - now[i].at >= interval {
      assert now[i] == log[i];
      if j < |log| { assert now[j] == log[j]; }
    }
  }

  lemma PausesAppend(log: seq<Event>, e: Event)
    requires PausesKept(log) && (!e.Paused? ==> Reached(Furthest(log), e.at))
    ensures PausesKept(log + [e])
  {
    var now := log + [e];
    if !e.Paused? { FurthestReached(log, e.at); }
    forall i, j | 0 <= i < j < |now| && now[i].Paused? && !now[j].Paused?
      ensures now[j].at >= now[i].asked + Min(now[i].retryAfter, MAX_RETRY_AFTER)
    {
      assert now[i] == log[i];
      if j < |log| { assert now[j] == log[j]; }
    }
  }

  lemma Logged(log: seq<Event>, e: Event, interval: nat)
    requires Spaced(log, interval) && PausesKept(log)
    requires e.Grant? ==> forall i :: 0 <= i < |log| && log[i].Grant? ==> e.at - log[i].at >= interval
    requires !e.Paused? ==> Reached(Furthest(log), e.at)
    ensures Spaced(log + [e], interval) && PausesKept(log + [e])
    ensures Furthest(log + [e]) == if e.Paused? then Later(Furthest(log), Deadline(e)) else Furthest(log)
  {
    assert (log + [e])[..|log|] == log;
    SpacedAppend(log, e, interval);
    PausesAppend(log, e);
  }

  lemma LockKept(s: Pool, step: Step, t: Pool, interval: nat)
    requires LockInv(s, interval) && Next(s, step, t, interval)
    ensures LockInv(t, interval)
  {
  }

  lemma LogKept(s: Pool, step: Step, t: Pool, interval: nat)
    requires Inv(s, interval) && Next(s, step, t, interval)
    ensures LogInv(t, interval)
  {
    match step {
      case LeaveGate(w) => if !Ended(s, w) { Logged(s.log, Gate(s.clock), interval); }
      case LeaveWait(w) => if !Ended(s, w) { Logged(s.log, Grant(s.clock), interval); }
      case LockNote(w) =>
        Logged(s.log, Paused(s.workers[w].phase.asked, s.workers[w].phase.retryAfter), interval);
      case _ =>
    }
  }

  lemma NextKeeps(s: Pool, step: Step, t: Pool, interval: nat)
    requires Inv(s, interval) && Next(s, step, t, interval)
    ensures Inv(t, interval)
    ensures NoEarlier(s.notBefore, t.notBefore)
  {
    LockKept(s, step, t, interval);
    LogKept(s, step, t, interval);
  }

  lemma {:induction false} RunKeeps(states: seq<Pool>, steps: seq<Step>, interval: nat, i: nat)
    requires Run(states, steps, interval) && i < |states|
    ensures Inv(states[i], interval)
  {
    if i == 0 {
    } else {
      RunKeeps(states, steps, interval, i - 1);
      NextKeeps(states[i - 1], steps[i - 1], states[i], interval);
    }
  }

  /** For any number of passes, cancelled or not, any number of workers and any interleaving: requests are at
      least an interval apart over the whole pool, and no request and no decode passes before the end of any
      pause recorded before it. */
  lemma PoolIsPaced(states: seq<Pool>, steps: seq<Step>, interval: nat, i: nat)
    requires Run(states, steps, interval) && i < |states|
    ensures Spaced(states[i].log, interval) && PausesKept(states[i].log)
  {
    RunKeeps(states, steps, interval, i);
  }

  predicate NoEarlier(a: Instant, b: Instant) { a.At? ==> b.At? && a.time <= b.time }

  lemma StepExtends(states: seq<Pool>, steps: seq<Step>, interval: nat, i: nat)
    requires Run(states, steps, interval) && i < |steps|
    ensures NoEarlier(states[i].notBefore, states[i + 1].notBefore)
  {
    RunKeeps(states, steps, interval, i);
    NextKeeps(states[i], steps[i], states[i + 1], interval);
  }

  predicate Extends(states: seq<Pool>, k: nat) {
    k + 1 < |states| && NoEarlier(states[k].notBefore, states[k + 1].notBefore)
  }

  lemma {:induction false} NeverShortens(states: seq<Pool>, i: nat, j: nat)
    requires i <= j < |states| && forall k :: i <= k < j ==> Extends(states, k)
    ensures NoEarlier(states[i].notBefore, states[j].notBefore)
  {
    if i == j {
    } else {
      NeverShortens(states, i, j - 1);
      assert Extends(states, j - 1);
    }
  }

  lemma IsFurthest(states: seq<Pool>, steps: seq<Step>, interval: nat, i: nat)
    requires Run(states, steps, interval) && i < |states|
    ensures states[i].notBefore == Furthest(states[i].log)
  {
    RunKeeps(states, steps, interval, i);
  }

  /** The pause only ever extends, and is at each moment the furthest one recorded: no later and shorter
      advice cuts an earlier one short. */
  lemma PauseOnlyExtends(states: seq<Pool>, steps: seq<Step>, interval: nat, i: nat, j: nat)
    requires Run(states, steps, interval) && i <= j < |states|
    ensures states[j].notBefore == Furthest(states[j].log)
    ensures NoEarlier(states[i].notBefore, states[j].notBefore)
  {
    forall k | i <= k < j ensures Extends(states, k) { StepExtends(states, steps, interval, k); }
    NeverShortens(states, i, j);
    IsFurthest(states, steps, interval, j);
  }

  /** An hour after the last advice was given at the latest, the pool is free to go on. */
  ghost predicate AdviceBounded(s: Pool) {
    && (s.notBefore.At? ==> s.notBefore.time <= s.clock + 3_600_000_000_000)
    && (forall w :: 0 <= w < |s.workers| && s.workers[w].phase.WantsNote? ==>
          && s.workers[w].phase.asked <= s.clock
          && PauseDeadline(s.workers[w].phase.asked, s.workers[w].phase.retryAfter) <= s.clock + MAX_RETRY_AFTER)
  }

  lemma {:induction false} PauseIsBounded(states: seq<Pool>, steps: seq<Step>, interval: nat, i: nat)
    requires Run(states, steps, interval) && i < |states|
    ensures AdviceBounded(states[i])
  {
    if i == 0 {
    } else {
      PauseIsBounded(states, steps, interval, i - 1);
      assert Next(states[i - 1], steps[i - 1], states[i], interval);
    }
  }
}
