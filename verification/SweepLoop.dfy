/** The loop every background sweeper runs, and the recorder it reports through. */
module SweepLoop {
  import opened Basics

  // ----- the recorder -----

  datatype Snapshot<T> = Snapshot(running: bool, lastStart: Option<int>, lastEnd: Option<int>, nextDue: Option<int>,
                                  last: Option<T>)

  /** A sweep that failed or was cancelled finishes without counts. */
  datatype Call<T> = Starts(at: int) | Finishes(at: int, counts: Option<T>) | Schedule(due: Option<int>)

  function Blank<T>(): Snapshot<T> { Snapshot(false, None, None, None, None) }

  function Applied<T>(s: Snapshot<T>, call: Call<T>): Snapshot<T> {
    match call
    case Starts(at) => s.(running := true, lastStart := Some(at))
    case Finishes(at, counts) =>
      s.(running := false, lastEnd := Some(at), last := if counts.Some? then counts else s.last)
    case Schedule(due) => s.(nextDue := due)
  }

  function After<T>(calls: seq<Call<T>>): Snapshot<T> {
    if calls == [] then Blank() else Applied(After(calls[..|calls| - 1]), calls[|calls| - 1])
  }

  class SweepStatus<T> {
    var running: bool
    var lastStart: Option<int>
    var lastEnd: Option<int>
    var nextDue: Option<int>
    var last: Option<T>

    function Now(): Snapshot<T>
      reads this
    {
      Snapshot(running, lastStart, lastEnd, nextDue, last)
    }

    constructor ()
      ensures Now() == Blank()
    {
      running, lastStart, lastEnd, nextDue, last := false, None, None, None, None;
    }

    method SweepStarted(now: int)
      modifies this`running, this`lastStart
      ensures Now() == Applied(old(Now()), Starts(now))
    {
      running, lastStart := true, Some(now);
    }

    method SweepFinished(now: int, counts: Option<T>)
      modifies this`running, this`lastEnd, this`last
      ensures Now() == Applied(old(Now()), Finishes(now, counts))
    {
      running, lastEnd := false, Some(now);
      if counts.Some? { last := counts; }
    }

    method ScheduleNext(due: Option<int>)
      modifies this`nextDue
      ensures Now() == Applied(old(Now()), Schedule(due))
    {
      nextDue := due;
    }
  }

  /** `v` is what `pick` takes from the last call it takes anything from, or there is no such call. */
  ghost predicate IsLatest<T(!new), U(!new)>(calls: seq<Call<T>>, pick: Call<T> -> Option<U>, v: Option<U>) {
    if v.None? then forall i :: 0 <= i < |calls| ==> pick(calls[i]).None?
    else exists i :: 0 <= i < |calls| && pick(calls[i]) == v && forall j :: i < j < |calls| ==> pick(calls[j]).None?
  }

  lemma LatestStep<T(!new), U(!new)>(calls: seq<Call<T>>, call: Call<T>, pick: Call<T> -> Option<U>, v: Option<U>)
    requires IsLatest(calls, pick, v)
    ensures IsLatest(calls + [call], pick, if pick(call).Some? then pick(call) else v)
  {
    var now := calls + [call];
    if pick(call).Some? {
      assert pick(now[|calls|]) == pick(call);
    } else if v.Some? {
      var i :| 0 <= i < |calls| && pick(calls[i]) == v && forall j :: i < j < |calls| ==> pick(calls[j]).None?;
      assert pick(now[i]) == v;
    }
  }

  /** Whether a call turns the sweep on or off. */
  function Turns<T>(call: Call<T>): Option<bool> {
    if call.Starts? then Some(true) else if call.Finishes? then Some(false) else None
  }

  function StartOf<T>(call: Call<T>): Option<int> { if call.Starts? then Some(call.at) else None }

  function EndOf<T>(call: Call<T>): Option<int> { if call.Finishes? then Some(call.at) else None }

  /** A call that says when the next sweep is due; it may say that none is. */
  function DueOf<T>(call: Call<T>): Option<Option<int>> { if call.Schedule? then Some(call.due) else None }

  function CountsOf<T>(call: Call<T>): Option<T> { if call.Finishes? then call.counts else None }

  /** What the latest schedule says, or nothing when there was none. */
  ghost predicate DueShown<T(!new)>(calls: seq<Call<T>>, nextDue: Option<int>) {
    IsLatest(calls, DueOf, Some(nextDue)) || (nextDue == None && IsLatest(calls, DueOf, None))
  }

  lemma DueStep<T(!new)>(calls: seq<Call<T>>, call: Call<T>, nextDue: Option<int>)
    requires DueShown(calls, nextDue)
    ensures DueShown(calls + [call], if call.Schedule? then call.due else nextDue)
  {
    LatestStep(calls, call, DueOf, if IsLatest(calls, DueOf, Some(nextDue)) then Some(nextDue) else None);
  }

  /** After any calls, in any order: a sweep runs exactly when a start came after every finish, the times are those of
      the latest start and the latest finish, the counts those of the latest finish that had any, and the next sweep
      is due when the latest schedule says, if any did. */
  lemma {:induction false} StatusSays<T(!new)>(calls: seq<Call<T>>)
    ensures var s := After(calls);
            && (s.running <==> IsLatest(calls, Turns, Some(true)))
            && IsLatest(calls, StartOf, s.lastStart) && IsLatest(calls, EndOf, s.lastEnd)
            && IsLatest(calls, CountsOf, s.last)
            && DueShown(calls, s.nextDue)
  {
    if calls == [] {
    } else {
      var before, call := calls[..|calls| - 1], calls[|calls| - 1];
      assert calls == before + [call];
      StatusSays(before);
      var s := After(before);
      LatestStep(before, call, StartOf, s.lastStart);
      LatestStep(before, call, EndOf, s.lastEnd);
      LatestStep(before, call, CountsOf, s.last);
      DueStep(before, call, s.nextDue);
      RunningStep(before, call);
    }
  }

  lemma RunningStep<T(!new)>(calls: seq<Call<T>>, call: Call<T>)
    ensures IsLatest(calls + [call], Turns, Some(true)) <==>
              if call.Schedule? then IsLatest(calls, Turns, Some(true)) else call.Starts?
  {
    var now := calls + [call];
    assert now[|calls|] == call;
    if IsLatest(calls, Turns, Some(true)) { LatestStep(calls, call, Turns, Some(true)); }
    if IsLatest(now, Turns, Some(true)) {
      var i :| 0 <= i < |now| && Turns(now[i]) == Some(true) && forall j :: i < j < |now| ==> Turns(now[j]).None?;
      if i < |calls| {
        assert Turns(now[|calls|]).None?;
        assert Turns(calls[i]) == Some(true);
        forall j | i < j < |calls| ensures Turns(calls[j]).None? { assert now[j] == calls[j]; }
      }
    }
  }

  // ----- the loop -----

  datatype Pc =
    | Settling(until: int)
    | BootDrain               // the cadence is on: about to drain the nudge
    | AboutToSweep(boot: bool)
    | Sweeping(boot: bool)
    | Arming                  // about to read the interval again
    | Waiting(due: Option<int>)
    | Done

  datatype Event =
    | Nudged | Drained | Taken | Rearmed
    | Cadence(at: int, interval: int)   // a read of the live interval
    | Fired(at: int)
    | Started(boot: bool) | Finished

  datatype Loop = Loop(clock: int, pc: Pc, interval: int, nudge: bool, rearm: bool, ended: bool,
                       nextDue: Option<int>, log: seq<Event>)

  datatype Step =
    | Tick(to: int) | SetInterval(d: int) | SendNudge | SendRearm | End
    | SettleOver | Drain | Start | Finish | Arm | TimerFires | TakeNudge | TakeRearm | Stop

  function DueAfter(clock: int, interval: int): Option<int> { if interval > 0 then Some(clock + interval) else None }

  ghost predicate Next(s: Loop, step: Step, t: Loop) {
    match step
    case Tick(to) => s.clock <= to && t == s.(clock := to)
    case SetInterval(d) => t == s.(interval := d)
    case SendNudge => t == s.(nudge := true, log := s.log + [Nudged])       // a full buffer takes the send too
    case SendRearm => t == s.(rearm := true)
    case End => t == s.(ended := true)
    case SettleOver =>
      && s.pc.Settling? && s.clock >= s.pc.until
      && t == s.(pc := if s.interval > 0 then BootDrain else Arming, log := s.log + [Cadence(s.clock, s.interval)],
                 nextDue := if s.interval > 0 then DueAfter(s.clock, s.interval) else s.nextDue)
    case Drain =>
      && s.pc.BootDrain?
      && t == s.(pc := AboutToSweep(true), nudge := false, log := if s.nudge then s.log + [Drained] else s.log)
    case Start => s.pc.AboutToSweep? && t == s.(pc := Sweeping(s.pc.boot), log := s.log + [Started(s.pc.boot)])
    case Finish => s.pc.Sweeping? && t == s.(pc := Arming, log := s.log + [Finished])
    case Arm =>
      && s.pc.Arming?
      && t == s.(pc := Waiting(DueAfter(s.clock, s.interval)), nextDue := DueAfter(s.clock, s.interval),
                 log := s.log + [Cadence(s.clock, s.interval)])
    case TimerFires =>
      && s.pc.Waiting? && s.pc.due.Some? && s.clock >= s.pc.due.value
      && t == s.(pc := AboutToSweep(false), log := s.log + [Fired(s.clock)])
    case TakeNudge =>
      s.pc.Waiting? && s.nudge && t == s.(pc := AboutToSweep(false), nudge := false, log := s.log + [Taken])
    case TakeRearm =>
      s.pc.Waiting? && s.rearm && t == s.(pc := Arming, rearm := false, log := s.log + [Rearmed])
    case Stop =>
      s.ended && (s.pc.Settling? || s.pc.Waiting?) && t == s.(pc := Done)
  }

  ghost predicate Init(s: Loop) {
    s.pc.Settling? && !s.ended && s.nextDue.None? && s.log == (if s.nudge then [Nudged] else [])
  }

  ghost predicate Run(states: seq<Loop>, steps: seq<Step>) {
    && |states| == |steps| + 1 && Init(states[0])
    && forall i :: 0 <= i < |steps| ==> Next(states[i], steps[i], states[i + 1])
  }

  // ----- what every run keeps -----

  /** A nudge no sweep has started since. */
  ghost predicate Unserved(log: seq<Event>) {
    exists i :: 0 <= i < |log| && log[i].Nudged? && forall j :: i < j < |log| ==> !log[j].Started?
  }

  ghost predicate AnyStart(log: seq<Event>) { exists i :: 0 <= i < |log| && log[i].Started? }

  /** The boot pass is the first sweep of all, and the first read of the cadence found it on. */
  ghost predicate BootOnlyFirst(log: seq<Event>) {
    forall k :: 0 <= k < |log| && log[k] == Started(true) ==> !AnyStart(log[..k]) && FirstCadenceOn(log[..k])
  }

  ghost predicate FirstCadenceOn(log: seq<Event>) {
    exists i :: 0 <= i < |log| && IsCadence(log[i], true) && forall j :: 0 <= j < i ==> !log[j].Cadence?
  }

  predicate IsCadence(e: Event, on: bool) { e.Cadence? && (e.interval > 0) == on }

  /** The timer fires no sooner than one whole interval after the cadence was last read. */
  ghost predicate FiresInTime(log: seq<Event>) {
    forall k :: 0 <= k < |log| && log[k].Fired? ==>
      exists i :: 0 <= i < k && IsCadence(log[i], true) && log[k].at >= log[i].at + log[i].interval
                  && forall j :: i < j < k ==> !log[j].Cadence?
  }

  datatype Kind = LaterStart | Cause | Sent | Received

  predicate Is(e: Event, kind: Kind) {
    match kind
    case LaterStart => e == Started(false)
    case Cause => e.Fired? || e.Taken?
    case Sent => e.Nudged?
    case Received => e.Taken? || e.Drained?
  }

  function One(b: bool): nat { if b then 1 else 0 }

  function Count(log: seq<Event>, kind: Kind): nat {
    if log == [] then 0 else Count(log[..|log| - 1], kind) + One(Is(log[|log| - 1], kind))
  }

  ghost predicate WakeInv(s: Loop) {
    && (Unserved(s.log) ==> s.nudge || s.pc.AboutToSweep? || s.pc.Done?)
    && (s.pc.Done? ==> s.ended)
  }

  ghost predicate BootInv(s: Loop) {
    && BootOnlyFirst(s.log)
    && (s.pc.Settling? || s.pc.BootDrain? || s.pc == AboutToSweep(true) ==> !AnyStart(s.log))
    && (s.pc.Settling? ==> forall i :: 0 <= i < |s.log| ==> !s.log[i].Cadence?)
    && (s.pc.BootDrain? || s.pc == AboutToSweep(true) ==> FirstCadenceOn(s.log))
  }

  ghost predicate TimerInv(s: Loop) {
    && FiresInTime(s.log)
    && (s.pc.Waiting? ==> LastCadence(s.log, s.pc.due) && s.nextDue == s.pc.due)
  }

  /** Sweeps answer ticks and nudges one to one. */
  ghost predicate CauseInv(s: Loop) {
    Count(s.log, LaterStart) + One(s.pc == AboutToSweep(false)) == Count(s.log, Cause)
  }

  ghost predicate BufferInv(s: Loop) {
    Count(s.log, Received) + One(s.nudge) <= Count(s.log, Sent)
  }

  /** The log ends in a tick or a nudge taken, and since then only nudges were sent. */
  ghost predicate EndsInCause(log: seq<Event>) {
    exists c :: 0 <= c < |log| && Is(log[c], Cause) && forall j :: c < j < |log| ==> log[j].Nudged?
  }

  /** Every sweep but the boot pass starts on a tick or a nudge taken, with nothing but nudges sent between. */
  ghost predicate StartsAnswer(log: seq<Event>) {
    forall k :: 0 <= k < |log| && log[k] == Started(false) ==> EndsInCause(log[..k])
  }

  ghost predicate AnswerInv(s: Loop) {
    StartsAnswer(s.log) && (s.pc == AboutToSweep(false) ==> EndsInCause(s.log))
  }

  ghost predicate Inv(s: Loop) {
    WakeInv(s) && BootInv(s) && TimerInv(s) && CauseInv(s) && BufferInv(s) && AnswerInv(s)
  }

  /** The timer a loop waits on was armed by the last read of the cadence. */
  ghost predicate LastCadence(log: seq<Event>, due: Option<int>) {
    exists i :: 0 <= i < |log| && log[i].Cadence? && due == DueAfter(log[i].at, log[i].interval)
                && forall j :: i < j < |log| ==> !log[j].Cadence?
  }

  /** What one more event changes. */
  lemma LogStep(log: seq<Event>, e: Event)
    ensures Unserved(log + [e]) <==> e.Nudged? || (!e.Started? && Unserved(log))
    ensures AnyStart(log + [e]) <==> e.Started? || AnyStart(log)
  {
    var now := log + [e];
    assert now[..|log|] == log && now[|log|] == e;
    if e.Nudged? { assert now[|log|].Nudged?; }
    if Unserved(log) && !e.Started? {
      var i :| 0 <= i < |log| && log[i].Nudged? && forall j :: i < j < |log| ==> !log[j].Started?;
      assert now[i].Nudged?;
    }
    if Unserved(now) && !e.Nudged? {
      var i :| 0 <= i < |now| && now[i].Nudged? && forall j :: i < j < |now| ==> !now[j].Started?;
      assert log[i].Nudged? && forall j :: i < j < |log| ==> now[j] == log[j];
    }
    if AnyStart(log) {
      var i :| 0 <= i < |log| && log[i].Started?;
      assert now[i].Started?;
    }
    if AnyStart(now) && !e.Started? {
      var i :| 0 <= i < |now| && now[i].Started?;
      assert log[i].Started?;
    }
  }

  lemma BootStep(log: seq<Event>, e: Event)
    requires BootOnlyFirst(log) && (e == Started(true) ==> !AnyStart(log) && FirstCadenceOn(log))
    ensures BootOnlyFirst(log + [e])
  {
    var now := log + [e];
    forall k | 0 <= k < |now| && now[k] == Started(true) ensures !AnyStart(now[..k]) && FirstCadenceOn(now[..k]) {
      if k < |log| { assert now[..k] == log[..k] && log[k] == now[k]; } else { assert now[..k] == log; }
    }
  }

  lemma FirstCadenceStep(log: seq<Event>, e: Event)
    ensures FirstCadenceOn(log) ==> FirstCadenceOn(log + [e])
    ensures (forall i :: 0 <= i < |log| ==> !log[i].Cadence?) && IsCadence(e, true) ==> FirstCadenceOn(log + [e])
  {
    var now := log + [e];
    if FirstCadenceOn(log) {
      var i :| 0 <= i < |log| && IsCadence(log[i], true) && forall j :: 0 <= j < i ==> !log[j].Cadence?;
      assert IsCadence(now[i], true) && forall j :: 0 <= j < i ==> now[j] == log[j];
    }
    if (forall i :: 0 <= i < |log| ==> !log[i].Cadence?) && IsCadence(e, true) {
      assert IsCadence(now[|log|], true) && forall j :: 0 <= j < |log| ==> now[j] == log[j];
    }
  }

  lemma FiresStep(log: seq<Event>, e: Event, due: Option<int>)
    requires FiresInTime(log)
    requires e.Fired? ==> LastCadence(log, due) && due.Some? && e.at >= due.value
    ensures FiresInTime(log + [e])
  {
    var now := log + [e];
    forall k | 0 <= k < |now| && now[k].Fired?
      ensures exists i :: 0 <= i < k && IsCadence(now[i], true) && now[k].at >= now[i].at + now[i].interval
                          && forall j :: i < j < k ==> !now[j].Cadence?
    {
      if k < |log| {
        assert log[k].Fired?;
        var i :| 0 <= i < k && IsCadence(log[i], true) && log[k].at >= log[i].at + log[i].interval
                 && forall j :: i < j < k ==> !log[j].Cadence?;
        assert IsCadence(now[i], true) && forall j :: i < j < k ==> now[j] == log[j];
      } else {
        var i :| 0 <= i < |log| && log[i].Cadence? && due == DueAfter(log[i].at, log[i].interval)
                 && forall j :: i < j < |log| ==> !log[j].Cadence?;
        assert IsCadence(now[i], true) && forall j :: i < j < k ==> now[j] == log[j];
      }
    }
  }

  lemma LastCadenceStep(log: seq<Event>, e: Event, due: Option<int>)
    ensures LastCadence(log, due) && !e.Cadence? ==> LastCadence(log + [e], due)
    ensures e.Cadence? ==> LastCadence(log + [e], DueAfter(e.at, e.interval))
  {
    var now := log + [e];
    assert now[|log|] == e;
    if LastCadence(log, due) && !e.Cadence? {
      var i :| 0 <= i < |log| && log[i].Cadence? && due == DueAfter(log[i].at, log[i].interval)
               && forall j :: i < j < |log| ==> !log[j].Cadence?;
      assert now[i].Cadence? && forall j :: i < j < |log| ==> now[j] == log[j];
    }
  }

  /** A step adds at most one event to the log. */
  lemma LogGrows(s: Loop, step: Step, t: Loop)
    requires Next(s, step, t)
    ensures t.log == s.log || (|t.log| > |s.log| && t.log == s.log + [t.log[|s.log|]])
  {
  }

  lemma AnswerStep(log: seq<Event>, e: Event)
    requires StartsAnswer(log) && (e == Started(false) ==> EndsInCause(log))
    ensures StartsAnswer(log + [e])
    ensures Is(e, Cause) || (e.Nudged? && EndsInCause(log)) ==> EndsInCause(log + [e])
  {
    var now := log + [e];
    forall k | 0 <= k < |now| && now[k] == Started(false) ensures EndsInCause(now[..k]) {
      if k < |log| { assert now[..k] == log[..k] && log[k] == now[k]; } else { assert now[..k] == log; }
    }
    if Is(e, Cause) { assert Is(now[|log|], Cause); }
    if e.Nudged? && EndsInCause(log) {
      var c :| 0 <= c < |log| && Is(log[c], Cause) && forall j :: c < j < |log| ==> log[j].Nudged?;
      assert Is(now[c], Cause) && forall j :: c < j < |log| ==> now[j] == log[j];
    }
  }

  lemma AnswerKept(s: Loop, step: Step, t: Loop)
    requires AnswerInv(s) && Next(s, step, t)
    ensures AnswerInv(t)
  {
    LogGrows(s, step, t);
    if t.log != s.log { AnswerStep(s.log, t.log[|s.log|]); }
  }

  lemma WakeKept(s: Loop, step: Step, t: Loop)
    requires WakeInv(s) && Next(s, step, t)
    ensures WakeInv(t)
  {
    LogGrows(s, step, t);
    if t.log != s.log { LogStep(s.log, t.log[|s.log|]); }
  }

  lemma BootKept(s: Loop, step: Step, t: Loop)
    requires BootInv(s) && Next(s, step, t)
    ensures BootInv(t)
  {
    LogGrows(s, step, t);
    if t.log != s.log {
      var e := t.log[|s.log|];
      LogStep(s.log, e);
      BootStep(s.log, e);
      FirstCadenceStep(s.log, e);
    }
  }

  lemma TimerKept(s: Loop, step: Step, t: Loop)
    requires TimerInv(s) && Next(s, step, t)
    ensures TimerInv(t)
  {
    LogGrows(s, step, t);
    if t.log != s.log {
      var due := if s.pc.Waiting? then s.pc.due else None;
      FiresStep(s.log, t.log[|s.log|], due);
      LastCadenceStep(s.log, t.log[|s.log|], due);
    }
  }

  lemma CountStep(log: seq<Event>, e: Event, kind: Kind)
    ensures Count(log + [e], kind) == Count(log, kind) + One(Is(e, kind))
  {
    assert (log + [e])[..|log|] == log;
  }

  /** What a step's event counts as, against what it does to the loop. */
  lemma EventBalance(s: Loop, step: Step, t: Loop, e: Event)
    requires Next(s, step, t) && t.log == s.log + [e]
    ensures One(Is(e, LaterStart)) + One(t.pc == AboutToSweep(false))
            == One(s.pc == AboutToSweep(false)) + One(Is(e, Cause))
    ensures One(Is(e, Received)) + One(t.nudge) <= One(s.nudge) + One(Is(e, Sent))
  {
    assert t.log[|s.log|] == e;
  }

  lemma QuietBalance(s: Loop, step: Step, t: Loop)
    requires Next(s, step, t) && t.log == s.log
    ensures One(t.pc == AboutToSweep(false)) == One(s.pc == AboutToSweep(false)) && One(t.nudge) <= One(s.nudge)
  {
    assert forall e: Event :: |s.log + [e]| == |s.log| + 1;
  }

  lemma CountsKept(s: Loop, step: Step, t: Loop)
    requires CauseInv(s) && BufferInv(s) && Next(s, step, t)
    ensures CauseInv(t) && BufferInv(t)
  {
    LogGrows(s, step, t);
    if t.log == s.log {
      QuietBalance(s, step, t);
    } else {
      var e := t.log[|s.log|];
      EventBalance(s, step, t, e);
      CountsStep(s.log, e);
    }
  }

  lemma CountsStep(log: seq<Event>, e: Event)
    ensures forall kind :: Count(log + [e], kind) == Count(log, kind) + One(Is(e, kind))
  {
    forall kind ensures Count(log + [e], kind) == Count(log, kind) + One(Is(e, kind)) { CountStep(log, e, kind); }
  }

  lemma InitLog(s: Loop)
    requires Init(s)
    ensures WakeInv(s) && BootInv(s) && TimerInv(s) && AnswerInv(s)
  {
    assert forall i :: 0 <= i < |s.log| ==> s.log[i] == Nudged;
  }

  lemma InitCounts(s: Loop)
    requires Init(s)
    ensures CauseInv(s) && BufferInv(s)
  {
    assert forall kind :: Count([], kind) == 0;
    if s.nudge {
      CountsStep([], Nudged);
      assert s.log == [] + [Nudged];
    }
  }

  lemma {:induction false} RunKeeps(states: seq<Loop>, steps: seq<Step>, i: nat)
    requires Run(states, steps) && i < |states|
    ensures Inv(states[i])
  {
    if i == 0 {
      InitLog(states[0]);
      InitCounts(states[0]);
    } else {
      RunKeeps(states, steps, i - 1);
      var s, step, t := states[i - 1], steps[i - 1], states[i];
      WakeKept(s, step, t);
      AnswerKept(s, step, t);
      BootKept(s, step, t);
      TimerKept(s, step, t);
      CountsKept(s, step, t);
    }
  }

  /** No wake-up is lost: in every state of every run, a nudge no sweep has started since is still in the
      buffer, or the loop is about to sweep, or it stopped because its context ended. */
  lemma NoLostWakeUp(states: seq<Loop>, steps: seq<Step>, i: nat)
    requires Run(states, steps) && i < |states|
    requires Unserved(states[i].log)
    ensures states[i].nudge || states[i].pc.AboutToSweep? || (states[i].pc.Done? && states[i].ended)
  {
    RunKeeps(states, steps, i);
  }

  /** Every sweep but the boot pass starts on a tick or on a nudge taken, with nothing between the two but nudges
      being sent, so a rearm never sweeps; the sweeps answer them one to one; and no more nudges are taken or
      drained than were sent. */
  lemma SweepsAreAsked(states: seq<Loop>, steps: seq<Step>, i: nat)
    requires Run(states, steps) && i < |states|
    ensures StartsAnswer(states[i].log)
    ensures Count(states[i].log, LaterStart) <= Count(states[i].log, Cause) <= Count(states[i].log, LaterStart) + 1
    ensures Count(states[i].log, Received) <= Count(states[i].log, Sent)
  {
    RunKeeps(states, steps, i);
  }

  /** There is at most one boot pass; it is the first sweep, and only there if the first read of the cadence
      found it on. */
  lemma BootIsFirst(states: seq<Loop>, steps: seq<Step>, i: nat, k: nat)
    requires Run(states, steps) && i < |states| && k < |states[i].log| && states[i].log[k] == Started(true)
    ensures forall j :: 0 <= j < |states[i].log| && j != k ==> states[i].log[j] != Started(true)
    ensures forall j :: 0 <= j < k ==> !states[i].log[j].Started?
    ensures FirstCadenceOn(states[i].log[..k])
  {
    RunKeeps(states, steps, i);
    var log := states[i].log;
    forall j | 0 <= j < k ensures !log[j].Started? { assert log[..k][j] == log[j]; }
    forall j | k < j < |log| ensures log[j] != Started(true) { assert log[..j][k] == log[k]; }
  }

  /** The cadence was last read at event i, and the loop waits for the moment an interval after it; or for none, when
      what it read turned the cadence off. */
  ghost predicate ArmedBy(log: seq<Event>, i: int, due: Option<int>) {
    && 0 <= i < |log| && log[i].Cadence? && (forall j :: i < j < |log| ==> !log[j].Cadence?)
    && (log[i].interval > 0 ==> due == Some(log[i].at + log[i].interval))
    && (log[i].interval <= 0 ==> due == None)
  }

  lemma LastArmed(log: seq<Event>, due: Option<int>) returns (k: int)
    requires LastCadence(log, due)
    ensures ArmedBy(log, k, due)
  {
    k :| 0 <= k < |log| && log[k].Cadence? && due == DueAfter(log[k].at, log[k].interval)
      && forall j :: k < j < |log| ==> !log[j].Cadence?;
  }

  /** A tick comes one whole interval after the cadence was last read, and a loop that waits shows the moment
      its timer is set for, or none when it is dormant. */
  lemma TicksKeepTheCadence(states: seq<Loop>, steps: seq<Step>, i: nat)
    requires Run(states, steps) && i < |states|
    ensures FiresInTime(states[i].log)
    ensures states[i].pc.Waiting? ==>
              states[i].nextDue == states[i].pc.due && exists k :: ArmedBy(states[i].log, k, states[i].pc.due)
  {
    RunKeeps(states, steps, i);
    if states[i].pc.Waiting? { var k := LastArmed(states[i].log, states[i].pc.due); }
  }
}
