/** The duplicates sweeper: a policy change is nudged to it, and a scan in flight defers it. */
module DuplicatesSweeper {
  import opened Basics

  // ----- stamps, and what a stamping pass writes -----

  datatype Stamp = Stamp(group: string, tier: string, suppressed: bool)

  /** The rows that carry a stamp, and theirs. */
  type Stamps = map<string, Stamp>

  /** The election: the stamps wanted for what a pass saw of the library, numbered, under a policy. */
  type Election = (nat, nat) -> Stamps

  function StampAt(stamps: Stamps, path: string): Option<Stamp> {
    if path in stamps then Some(stamps[path]) else None
  }

  /** A pass writes only where what it wants differs from the stamps it saw: a row that fell out of every group
      is cleared, and a row it saw as wanted is left alone. */
  function Diff(wanted: Stamps, seen: Stamps): map<string, Option<Stamp>> {
    map p | p in wanted.Keys + seen.Keys && StampAt(wanted, p) != StampAt(seen, p) :: StampAt(wanted, p)
  }

  function Write(stamps: Stamps, diff: map<string, Option<Stamp>>): Stamps {
    map p | p in stamps.Keys + diff.Keys && (p in diff ==> diff[p].Some?) ::
      if p in diff then diff[p].value else stamps[p]
  }

  lemma WriteAt(stamps: Stamps, diff: map<string, Option<Stamp>>, p: string)
    ensures StampAt(Write(stamps, diff), p) == if p in diff then diff[p] else StampAt(stamps, p)
  {
  }

  lemma SameAt(a: Stamps, b: Stamps)
    requires forall p :: StampAt(a, p) == StampAt(b, p)
    ensures a == b
  {
    forall p ensures p in a <==> p in b { assert StampAt(a, p) == StampAt(b, p); }
    forall p | p in a ensures a[p] == b[p] { assert StampAt(a, p) == StampAt(b, p); }
  }

  /** Written over the stamps as they stand, a pass's diff makes them the ones it wanted exactly when every row
      it left alone still is as it saw it. */
  lemma DiffExactly(stamps: Stamps, wanted: Stamps, seen: Stamps)
    ensures Write(stamps, Diff(wanted, seen)) == wanted
            <==> forall p :: StampAt(wanted, p) == StampAt(seen, p) ==> StampAt(stamps, p) == StampAt(seen, p)
  {
    var after := Write(stamps, Diff(wanted, seen));
    forall p
      ensures StampAt(after, p)
              == if StampAt(wanted, p) != StampAt(seen, p) then StampAt(wanted, p) else StampAt(stamps, p)
    {
      WriteAt(stamps, Diff(wanted, seen), p);
    }
    if forall p :: StampAt(wanted, p) == StampAt(seen, p) ==> StampAt(stamps, p) == StampAt(seen, p) {
      SameAt(after, wanted);
    }
    if after == wanted {
      forall p | StampAt(wanted, p) == StampAt(seen, p) ensures StampAt(stamps, p) == StampAt(seen, p) {
        assert StampAt(after, p) == StampAt(stamps, p);
      }
    }
  }

  // ----- the sweeper beside the scanner -----

  /** A stamping pass: the policy read first, then what its streams saw of the library and of the stamps. */
  datatype Pass = Read(policy: nat) | Snapped(policy: nat, library: nat, seen: Stamps)

  /** The scan in flight. Its own stamping pass, if it got there. */
  datatype Scan = Scan(full: bool, pass: Option<Pass>)

  datatype Pc =
    | Selecting
    | Asking                   // a nudge taken: about to ask whether a full scan runs
    | Starting                 // recorded as started: about to read the policy
    | Restamping(pass: Pass)   // streaming the library, then electing
    | Checked(pass: Pass)      // no scan was in flight: about to write the diff
    | PuttingBack              // deferred: about to put the nudge back
    | Retrying
    | Done

  datatype Finish = Applied(policy: nat) | Failed(policy: nat)

  /** Policies are numbered in the order they are set. `nudged` is the newest one a nudge was sent for, `covered`
      the newest one a restamp of the sweeper applied. `last` is what the last pass to write its diff had seen of
      the library, and its policy. */
  datatype World = World(policy: nat, nudged: nat, nudge: bool, pc: Pc, scan: Option<Scan>, stamps: Stamps,
                         last: (nat, nat), covered: nat, started: nat, deferred: nat, finished: seq<Finish>,
                         ended: bool)

  datatype Step =
    | SetPolicy | SendNudge | End
    | ScanStarts(full: bool) | ScanReadsPolicy | ScanSnapshots(library: nat) | ScanCommits | ScanFails
    | ScanEnds
    | Take | FoundScanning | NotScanning | ReadPolicy | Snapshot(library: nat) | CheckClear | CheckBusy | Fail | Apply
    | PutBack | RetryOver | Stop

  /** What may go wrong in a run: a restamp that ends in an error; a scan that changed the stamps since a restamp's
      snapshot and ends before the restamp's check, which then does not see it; a scan that streams between that
      check and the restamp's write. */
  datatype Hazards = Hazards(failures: bool, scanInside: bool, restampInside: bool)

  const NO_HAZARDS := Hazards(false, false, false)

  predicate Holds(pass: Option<Pass>) { pass.Some? && pass.value.Snapped? }

  predicate ScanHolds(s: World) { s.scan.Some? && Holds(s.scan.value.pass) }

  predicate SweeperHolds(s: World) { (s.pc.Restamping? || s.pc.Checked?) && s.pc.pass.Snapped? }

  function Written(s: World, pass: Pass, want: Election): Stamps
    requires pass.Snapped?
  {
    Write(s.stamps, Diff(want(pass.library, pass.policy), pass.seen))
  }

  predicate ScanStep(s: World, step: Step, t: World, want: Election, h: Hazards) {
    match step
    case ScanStarts(full) => s.scan.None? && t == s.(scan := Some(Scan(full, None)))
    case ScanReadsPolicy =>
      s.scan.Some? && s.scan.value.pass.None? && t == s.(scan := Some(s.scan.value.(pass := Some(Read(s.policy)))))
    case ScanSnapshots(library) =>
      && s.scan.Some? && s.scan.value.pass.Some? && s.scan.value.pass.value.Read?
      && (s.pc.Checked? ==> h.restampInside)
      && t == s.(scan := Some(s.scan.value.(pass := Some(Snapped(s.scan.value.pass.value.policy, library, s.stamps)))))
    case ScanCommits =>
      && ScanHolds(s)
      && var pass := s.scan.value.pass.value;
         t == s.(stamps := Written(s, pass, want), last := (pass.library, pass.policy),
                 scan := Some(s.scan.value.(pass := None)))
    case ScanFails => s.scan.Some? && t == s.(scan := Some(s.scan.value.(pass := None)))
    case ScanEnds =>
      && s.scan.Some?
      && (s.pc.Restamping? && s.pc.pass.Snapped? && s.pc.pass.seen != s.stamps ==> h.scanInside)
      && t == s.(scan := None)
    case _ => false
  }

  predicate SweeperStep(s: World, step: Step, t: World, want: Election, h: Hazards) {
    match step
    case SetPolicy => t == s.(policy := s.policy + 1)
    case SendNudge => t == s.(nudged := s.policy, nudge := true)
    case End => t == s.(ended := true)
    case Take => s.pc.Selecting? && s.nudge && t == s.(pc := Asking, nudge := false)
    case FoundScanning => s.pc.Asking? && s.scan.Some? && s.scan.value.full && t == s.(pc := PuttingBack)
    case NotScanning =>
      s.pc.Asking? && !(s.scan.Some? && s.scan.value.full) && t == s.(pc := Starting, started := s.started + 1)
    case ReadPolicy => s.pc.Starting? && t == s.(pc := Restamping(Read(s.policy)))
    case Snapshot(library) =>
      && s.pc.Restamping? && s.pc.pass.Read?
      && t == s.(pc := Restamping(Snapped(s.pc.pass.policy, library, s.stamps)))
    case CheckClear =>
      s.pc.Restamping? && s.pc.pass.Snapped? && s.scan.None? && t == s.(pc := Checked(s.pc.pass))
    case CheckBusy =>
      && s.pc.Restamping? && s.pc.pass.Snapped? && s.scan.Some?
      && t == s.(pc := PuttingBack, deferred := s.deferred + 1)
    case Fail =>
      && h.failures && (s.pc.Restamping? || s.pc.Checked?)
      && t == s.(pc := Selecting, finished := s.finished + [Failed(s.pc.pass.policy)])
    case Apply =>
      && s.pc.Checked? && s.pc.pass.Snapped?
      && t == s.(pc := Selecting, stamps := Written(s, s.pc.pass, want), last := (s.pc.pass.library, s.pc.pass.policy),
                 covered := s.pc.pass.policy, finished := s.finished + [Applied(s.pc.pass.policy)])
    case PutBack => s.pc.PuttingBack? && t == s.(pc := Retrying, nudge := true)
    case RetryOver => s.pc.Retrying? && t == s.(pc := Selecting)
    case Stop => s.ended && (s.pc.Selecting? || s.pc.Retrying?) && t == s.(pc := Done)
    case _ => false
  }

  predicate IsScans(step: Step) {
    step.ScanStarts? || step.ScanReadsPolicy? || step.ScanSnapshots? || step.ScanCommits? || step.ScanFails?
    || step.ScanEnds?
  }

  predicate Next(s: World, step: Step, t: World, want: Election, h: Hazards) {
    if IsScans(step) then ScanStep(s, step, t, want, h) else SweeperStep(s, step, t, want, h)
  }

  predicate Init(s: World, want: Election) {
    && s.policy == s.nudged == s.covered == s.last.1 == 0 && s.stamps == want(s.last.0, 0)
    && !s.nudge && s.pc.Selecting? && !s.ended && s.started == s.deferred == 0 && s.finished == [] && s.scan.None?
  }

  ghost predicate Path(states: seq<World>, steps: seq<Step>, want: Election, h: Hazards) {
    && |states| == |steps| + 1
    && forall i :: 0 <= i < |steps| ==> Next(states[i], steps[i], states[i + 1], want, h)
  }

  ghost predicate Run(states: seq<World>, steps: seq<Step>, want: Election, h: Hazards) {
    Path(states, steps, want, h) && Init(states[0], want)
  }

  // ----- what every run keeps -----

  /** The sweeper has the request in hand, and will read a policy at least as new as the one nudged. */
  predicate InHand(s: World) {
    match s.pc
    case Asking => true
    case Starting => true
    case PuttingBack => true
    case Restamping(pass) => pass.policy >= s.nudged
    case Checked(pass) => pass.policy >= s.nudged
    case _ => false
  }

  /** The newest policy a restamp that was not deferred started from. */
  function Tried(finished: seq<Finish>): nat {
    if finished == [] then 0 else finished[|finished| - 1].policy
  }

  predicate InRestamp(pc: Pc) { pc.Starting? || pc.Restamping? || pc.Checked? }

  predicate OrderInv(s: World) {
    && s.nudged <= s.policy && s.covered <= Tried(s.finished) <= s.policy
    && (s.pc.Restamping? || s.pc.Checked? ==> Tried(s.finished) <= s.pc.pass.policy <= s.policy)
    && (s.finished != [] && s.finished[|s.finished| - 1].Applied? ==> s.covered == Tried(s.finished))
  }

  predicate KnownInv(s: World) {
    && s.last.1 <= s.policy
    && (s.pc.Restamping? || s.pc.Checked? ==> s.pc.pass.policy <= s.policy)
    && (s.scan.Some? && s.scan.value.pass.Some? ==> s.scan.value.pass.value.policy <= s.policy)
  }

  predicate RequestInv(s: World) {
    && (s.nudged > Tried(s.finished) ==> s.nudge || InHand(s) || (s.pc.Done? && s.ended))
    && (s.pc.Retrying? ==> s.nudge)
  }

  /** A scan in flight read a policy no older than what the sweeper applied, or is about to apply. */
  predicate ScanInv(s: World) {
    && s.covered <= s.last.1
    && (s.scan.Some? && s.scan.value.pass.Some? ==>
          && s.covered <= s.scan.value.pass.value.policy
          && (s.pc.Checked? ==> s.pc.pass.policy <= s.scan.value.pass.value.policy))
  }

  ghost predicate CountInv(s: World, h: Hazards) {
    && s.started == |s.finished| + s.deferred + (if InRestamp(s.pc) then 1 else 0)
    && (!h.failures ==> forall f :: f in s.finished ==> f.Applied?)
  }

  /** A scan's snapshot is the stamps as they stand; and so is the sweeper's once it has checked, the check having
      met every scan that changed them since and is still in flight. */
  predicate StampInv(s: World, want: Election, h: Hazards) {
    !h.scanInside && !h.restampInside ==>
      && s.stamps == want(s.last.0, s.last.1)
      && (SweeperHolds(s) && s.scan.None? ==> s.pc.pass.seen == s.stamps)
      && (s.pc.Checked? ==> !ScanHolds(s) && (s.pc.pass.Snapped? ==> s.pc.pass.seen == s.stamps))
      && (ScanHolds(s) ==> s.scan.value.pass.value.seen == s.stamps)
  }

  ghost predicate Inv(s: World, want: Election, h: Hazards) {
    OrderInv(s) && KnownInv(s) && RequestInv(s) && ScanInv(s) && CountInv(s, h) && StampInv(s, want, h)
  }

  lemma SweeperOrder(s: World, step: Step, t: World, want: Election, h: Hazards)
    requires OrderInv(s) && SweeperStep(s, step, t, want, h)
    ensures OrderInv(t)
  {
  }

  lemma OrderKept(s: World, step: Step, t: World, want: Election, h: Hazards)
    requires OrderInv(s) && Next(s, step, t, want, h)
    ensures OrderInv(t)
  {
    if !IsScans(step) { SweeperOrder(s, step, t, want, h); }
  }

  lemma SweeperKnown(s: World, step: Step, t: World, want: Election, h: Hazards)
    requires KnownInv(s) && SweeperStep(s, step, t, want, h)
    ensures KnownInv(t)
  {
  }

  lemma KnownKept(s: World, step: Step, t: World, want: Election, h: Hazards)
    requires KnownInv(s) && Next(s, step, t, want, h)
    ensures KnownInv(t)
  {
    if !IsScans(step) { SweeperKnown(s, step, t, want, h); }
  }

  lemma SweeperRequest(s: World, step: Step, t: World, want: Election, h: Hazards)
    requires OrderInv(s) && RequestInv(s) && SweeperStep(s, step, t, want, h)
    ensures RequestInv(t)
  {
  }

  lemma RequestKept(s: World, step: Step, t: World, want: Election, h: Hazards)
    requires OrderInv(s) && RequestInv(s) && Next(s, step, t, want, h)
    ensures RequestInv(t)
  {
    if !IsScans(step) { SweeperRequest(s, step, t, want, h); }
  }

  lemma ScanKept(s: World, step: Step, t: World, want: Election, h: Hazards)
    requires OrderInv(s) && KnownInv(s) && ScanInv(s) && Next(s, step, t, want, h)
    ensures ScanInv(t)
  {
  }

  lemma CountKept(s: World, step: Step, t: World, want: Election, h: Hazards)
    requires CountInv(s, h) && Next(s, step, t, want, h)
    ensures CountInv(t, h)
  {
  }

  lemma StampKept(s: World, step: Step, t: World, want: Election, h: Hazards)
    requires StampInv(s, want, h) && Next(s, step, t, want, h)
    ensures StampInv(t, want, h)
  {
    match step {
      case ScanCommits =>
        var pass := s.scan.value.pass.value;
        DiffExactly(s.stamps, want(pass.library, pass.policy), pass.seen);
      case Apply =>
        DiffExactly(s.stamps, want(s.pc.pass.library, s.pc.pass.policy), s.pc.pass.seen);
      case _ =>
    }
  }

  lemma {:induction false} RunKeeps(states: seq<World>, steps: seq<Step>, want: Election, h: Hazards, i: nat)
    requires Run(states, steps, want, h) && i < |states|
    ensures Inv(states[i], want, h)
  {
    if i == 0 {
    } else {
      RunKeeps(states, steps, want, h, i - 1);
      var s, step, t := states[i - 1], steps[i - 1], states[i];
      OrderKept(s, step, t, want, h);
      KnownKept(s, step, t, want, h);
      RequestKept(s, step, t, want, h);
      ScanKept(s, step, t, want, h);
      CountKept(s, step, t, want, h);
      StampKept(s, step, t, want, h);
    }
  }

  /** No policy change that was nudged is dropped by a deferral: it is covered by a restamp that read it and
      was not deferred, or it is in the buffer, or in the sweeper's hand, or the sweeper was told to stop. */
  lemma NudgedPolicyIsCovered(states: seq<World>, steps: seq<Step>, want: Election, h: Hazards, i: nat)
    requires Run(states, steps, want, h) && i < |states|
    ensures var s := states[i];
            s.nudged <= Tried(s.finished) || s.nudge || InHand(s) || (s.pc.Done? && s.ended)
  {
    RunKeeps(states, steps, want, h, i);
  }

  /** The restamp's check does its work: scans may start, write their stamps and still be in flight beside a
      restamp, and restamps may fail, yet the stamps are in every state exactly those of one pass, of a policy at
      least as new as the newest one a restamp applied; unless a scan that changed them ends before the check, or
      one streams between the check and the write. */
  lemma StampsAreOfOnePass(states: seq<World>, steps: seq<Step>, want: Election, h: Hazards, i: nat)
    requires Run(states, steps, want, h) && i < |states| && !h.scanInside && !h.restampInside
    ensures var s := states[i];
            s.stamps == want(s.last.0, s.last.1) && s.covered <= s.last.1 <= s.policy
  {
    RunKeeps(states, steps, want, h, i);
  }

  /** A deferred answer is never recorded as finished: every restamp started is one finish, one deferral, or
      the one under way. */
  lemma DeferralIsNoFinish(states: seq<World>, steps: seq<Step>, want: Election, h: Hazards, i: nat)
    requires Run(states, steps, want, h) && i < |states|
    ensures states[i].started == |states[i].finished| + states[i].deferred + if InRestamp(states[i].pc) then 1 else 0
  {
    RunKeeps(states, steps, want, h, i);
  }

  const ASKS: Step -> bool := (step: Step) => step.SendNudge? || step.PutBack?

  function One(b: bool): nat { if b then 1 else 0 }

  lemma StepAnswers(s: World, step: Step, t: World, want: Election, h: Hazards)
    requires Next(s, step, t, want, h)
    ensures t.started + One(t.pc.Asking?) + One(t.nudge)
            <= s.started + One(s.pc.Asking?) + One(s.nudge) + One(ASKS(step))
  {
  }

  /** The sweeper restamps only when asked: no more restamps are started than nudges were sent and put back, less the
      one that waits. */
  lemma {:induction false} RestampsAreAsked(states: seq<World>, steps: seq<Step>, want: Election, h: Hazards, i: nat)
    requires Run(states, steps, want, h) && i < |states|
    ensures states[i].started + One(states[i].pc.Asking?) + One(states[i].nudge) <= HowMany(steps[..i], ASKS)
  {
    if i == 0 {
    } else {
      RestampsAreAsked(states, steps, want, h, i - 1);
      StepAnswers(states[i - 1], steps[i - 1], states[i], want, h);
      HowManyStep(steps[..i - 1], steps[i - 1], ASKS);
      assert steps[..i] == steps[..i - 1] + [steps[i - 1]];
    }
  }

  // ----- at rest -----

  predicate Quiet(s: World) { s.pc.Selecting? && !s.nudge }

  /** The stamps are, on every row, the ones of one election under one policy at least as new as the newest one
      nudged. */
  ghost predicate UpToDate(s: World, want: Election) {
    exists library: nat, q: nat :: s.nudged <= q <= s.policy && s.stamps == want(library, q)
  }

  const SERVED := Stamp("g", "t", false)
  const HIDDEN := Stamp("g", "t", true)

  function Both(a: Stamp, b: Stamp): Stamps { map["a" := a, "b" := b] }

  /** Two duplicates. Policy 1 hides one of them, which one depends on what the library holds; the others none. */
  function OneHidden(library: nat, policy: nat): Stamps {
    if policy != 1 then Both(SERVED, SERVED) else if library == 0 then Both(HIDDEN, SERVED) else Both(SERVED, HIDDEN)
  }

  lemma Distinct()
    ensures forall x, y, z, w :: Both(x, y) == Both(z, w) ==> x == z && y == w
  {
    assert "a"[0] != "b"[0];
    forall x, y, z, w | Both(x, y) == Both(z, w) ensures x == z && y == w {
      assert Both(x, y)["a"] == x && Both(z, w)["a"] == z && Both(x, y)["b"] == y && Both(z, w)["b"] == w;
    }
  }

  /** What a pass that saw both served writes over the stamps as they stand. */
  lemma WriteBoth(x: Stamp, y: Stamp, a: Stamp, b: Stamp)
    ensures Write(Both(x, y), Diff(Both(a, b), Both(SERVED, SERVED)))
            == Both(if a == SERVED then x else a, if b == SERVED then y else b)
  {
    var after := Write(Both(x, y), Diff(Both(a, b), Both(SERVED, SERVED)));
    forall p ensures StampAt(after, p) == StampAt(Both(if a == SERVED then x else a, if b == SERVED then y else b), p) {
      WriteAt(Both(x, y), Diff(Both(a, b), Both(SERVED, SERVED)), p);
    }
    SameAt(after, Both(if a == SERVED then x else a, if b == SERVED then y else b));
  }

  ghost predicate Leads(s: World, t: World, h: Hazards) {
    exists states, steps :: Path(states, steps, OneHidden, h) && states[0] == s && states[|states| - 1] == t
  }

  lemma Stay(s: World, h: Hazards)
    ensures Leads(s, s, h)
  {
    assert Path([s], [], OneHidden, h);
  }

  lemma Then(s: World, t: World, step: Step, u: World, h: Hazards)
    requires Leads(s, t, h) && Next(t, step, u, OneHidden, h)
    ensures Leads(s, u, h)
  {
    var states, steps :| Path(states, steps, OneHidden, h) && states[0] == s && states[|states| - 1] == t;
    var states', steps' := states + [u], steps + [step];
    forall i | 0 <= i < |steps'| ensures Next(states'[i], steps'[i], states'[i + 1], OneHidden, h) {
      if i < |steps| { assert Next(states[i], steps[i], states[i + 1], OneHidden, h); }
    }
    assert Path(states', steps', OneHidden, h);
  }

  const AT_FIRST := World(0, 0, false, Selecting, None, Both(SERVED, SERVED), (0, 0), 0, 0, 0, [], false)

  /** The sweeper takes the nudge of a policy and reads it. */
  lemma Nudged(s: World, h: Hazards) returns (t: World)
    requires s.pc.Selecting? && !(s.scan.Some? && s.scan.value.full)
    ensures t == s.(nudged := s.policy, nudge := false, pc := Restamping(Read(s.policy)), started := s.started + 1)
    ensures Leads(s, t, h)
  {
    var s1 := s.(nudged := s.policy, nudge := true);
    var s2 := s1.(pc := Asking, nudge := false);
    var s3 := s2.(pc := Starting, started := s.started + 1);
    t := s3.(pc := Restamping(Read(s.policy)));
    Stay(s, h);
    Then(s, s, SendNudge, s1, h);
    Then(s, s1, Take, s2, h);
    Then(s, s2, NotScanning, s3, h);
    Then(s, s3, ReadPolicy, t, h);
  }

  lemma Join(s: World, t: World, u: World, h: Hazards)
    requires Leads(s, t, h) && Leads(t, u, h)
    ensures Leads(s, u, h)
  {
    var a, x :| Path(a, x, OneHidden, h) && a[0] == s && a[|a| - 1] == t;
    var b, y :| Path(b, y, OneHidden, h) && b[0] == t && b[|b| - 1] == u;
    var states, steps := a + b[1..], x + y;
    forall i | 0 <= i < |steps| ensures Next(states[i], steps[i], states[i + 1], OneHidden, h) {
      if i < |x| {
        assert Next(a[i], x[i], a[i + 1], OneHidden, h);
      } else {
        assert Next(b[i - |x|], y[i - |x|], b[i - |x| + 1], OneHidden, h);
      }
    }
    assert Path(states, steps, OneHidden, h);
  }

  /** A scan starts, reads the policy and streams. */
  lemma ScanStreams(s: World, library: nat, h: Hazards) returns (t: World)
    requires s.scan.None? && (s.pc.Checked? ==> h.restampInside)
    ensures t == s.(scan := Some(Scan(false, Some(Snapped(s.policy, library, s.stamps)))))
    ensures Leads(s, t, h)
  {
    var s1 := s.(scan := Some(Scan(false, None)));
    var s2 := s.(scan := Some(Scan(false, Some(Read(s.policy)))));
    t := s.(scan := Some(Scan(false, Some(Snapped(s.policy, library, s.stamps)))));
    Stay(s, h);
    Then(s, s, ScanStarts(false), s1, h);
    Then(s, s1, ScanReadsPolicy, s2, h);
    Then(s, s2, ScanSnapshots(library), t, h);
  }

  lemma ARun(t: World, h: Hazards) returns (states: seq<World>, steps: seq<Step>)
    requires Leads(AT_FIRST, t, h)
    ensures Run(states, steps, OneHidden, h) && states[|states| - 1] == t
  {
    states, steps :| Path(states, steps, OneHidden, h) && states[0] == AT_FIRST && states[|states| - 1] == t;
  }

  /** A restamp that ends in an error takes its nudge with it. */
  lemma FailureLosesTheNudge() returns (states: seq<World>, steps: seq<Step>)
    ensures Run(states, steps, OneHidden, Hazards(true, false, false))
    ensures Quiet(states[|states| - 1]) && !UpToDate(states[|states| - 1], OneHidden)
  {
    var h := Hazards(true, false, false);
    var s0 := AT_FIRST;
    var s1 := s0.(policy := 1);
    Stay(s0, h);
    Then(s0, s0, SetPolicy, s1, h);
    var s2 := Nudged(s1, h);
    Join(s0, s1, s2, h);
    var s3 := s2.(pc := Selecting, finished := [Failed(1)]);
    Then(s0, s2, Fail, s3, h);
    Distinct();
    states, steps := ARun(s3, h);
  }

  /** A restamp streams, and then a scan that had read the policy before writes its stamps and ends: the rows the
      restamp saw as it wanted them stay as the scan left them, and nothing failed. */
  lemma ScanInsideLeavesOldStamps() returns (states: seq<World>, steps: seq<Step>)
    ensures Run(states, steps, OneHidden, Hazards(false, true, false))
    ensures Quiet(states[|states| - 1]) && !UpToDate(states[|states| - 1], OneHidden)
  {
    var h := Hazards(false, true, false);
    var s0 := AT_FIRST;
    var s1 := s0.(policy := 1);
    Stay(s0, h);
    Then(s0, s0, SetPolicy, s1, h);
    var s2 := ScanStreams(s1, 0, h);
    Join(s0, s1, s2, h);
    var s3 := s2.(policy := 2);
    Then(s0, s2, SetPolicy, s3, h);
    var s4 := Nudged(s3, h);
    Join(s0, s3, s4, h);
    var s5 := RestampAroundScan(s4);
    Join(s0, s4, s5, h);
    Distinct();
    states, steps := ARun(s5, h);
  }

  lemma RestampAroundScan(s: World) returns (t: World)
    requires s.pc == Restamping(Read(2)) && s.stamps == Both(SERVED, SERVED) && s.finished == []
    requires s.scan == Some(Scan(false, Some(Snapped(1, 0, Both(SERVED, SERVED)))))
    ensures Leads(s, t, Hazards(false, true, false))
    ensures t == s.(pc := Selecting, scan := None, stamps := Both(HIDDEN, SERVED), last := (0, 2), covered := 2,
                    finished := [Applied(2)])
  {
    var h, pass := Hazards(false, true, false), Snapped(2, 0, Both(SERVED, SERVED));
    var s1 := s.(pc := Restamping(pass));
    var s2 := s1.(stamps := Both(HIDDEN, SERVED), last := (0, 1), scan := Some(Scan(false, None)));
    var s3 := s2.(scan := None);
    var s4 := s3.(pc := Checked(pass));
    t := s4.(pc := Selecting, last := (0, 2), covered := 2, finished := [Applied(2)]);
    Stay(s, h);
    Then(s, s, Snapshot(0), s1, h);
    WriteBoth(SERVED, SERVED, HIDDEN, SERVED);
    Then(s, s1, ScanCommits, s2, h);
    Then(s, s2, ScanEnds, s3, h);
    Then(s, s3, CheckClear, s4, h);
    WriteBoth(HIDDEN, SERVED, SERVED, SERVED);
    Then(s, s4, Apply, t, h);
  }

  /** A restamp checks, and then a scan starts and streams before the restamp writes: each writes the row the
      other saw as it wanted it, and no copy of the two is served. */
  lemma RestampInsideHidesBoth() returns (states: seq<World>, steps: seq<Step>)
    ensures Run(states, steps, OneHidden, Hazards(false, false, true))
    ensures Quiet(states[|states| - 1]) && !UpToDate(states[|states| - 1], OneHidden)
    ensures states[|states| - 1].stamps == Both(HIDDEN, HIDDEN)
  {
    var h := Hazards(false, false, true);
    var checked := RestampChecks();
    var streamed := ScanStreams(checked, 1, h);
    Join(AT_FIRST, checked, streamed, h);
    var written := BothWrite(streamed);
    Join(AT_FIRST, streamed, written, h);
    Distinct();
    states, steps := ARun(written, h);
  }

  lemma RestampChecks() returns (t: World)
    ensures Leads(AT_FIRST, t, Hazards(false, false, true))
    ensures t == AT_FIRST.(policy := 1, nudged := 1, pc := Checked(Snapped(1, 0, Both(SERVED, SERVED))), started := 1)
  {
    var h, pass := Hazards(false, false, true), Snapped(1, 0, Both(SERVED, SERVED));
    var s1 := AT_FIRST.(policy := 1);
    Stay(AT_FIRST, h);
    Then(AT_FIRST, AT_FIRST, SetPolicy, s1, h);
    var s2 := Nudged(s1, h);
    Join(AT_FIRST, s1, s2, h);
    var s3 := s2.(pc := Restamping(pass));
    Then(AT_FIRST, s2, Snapshot(0), s3, h);
    t := s3.(pc := Checked(pass));
    Then(AT_FIRST, s3, CheckClear, t, h);
  }

  lemma BothWrite(s: World) returns (t: World)
    requires s.pc == Checked(Snapped(1, 0, Both(SERVED, SERVED))) && s.stamps == Both(SERVED, SERVED)
             && s.finished == []
    requires s.scan == Some(Scan(false, Some(Snapped(1, 1, Both(SERVED, SERVED)))))
    ensures Leads(s, t, Hazards(false, false, true))
    ensures t == s.(pc := Selecting, scan := None, stamps := Both(HIDDEN, HIDDEN), last := (1, 1), covered := 1,
                    finished := [Applied(1)])
  {
    var h := Hazards(false, false, true);
    var s1 := s.(pc := Selecting, stamps := Both(HIDDEN, SERVED), last := (0, 1), covered := 1,
      finished := [Applied(1)]);
    var s2 := s1.(stamps := Both(HIDDEN, HIDDEN), last := (1, 1), scan := Some(Scan(false, None)));
    t := s2.(scan := None);
    Stay(s, h);
    WriteBoth(SERVED, SERVED, HIDDEN, SERVED);
    Then(s, s, Apply, s1, h);
    WriteBoth(HIDDEN, SERVED, SERVED, HIDDEN);
    Then(s, s1, ScanCommits, s2, h);
    Then(s, s2, ScanEnds, t, h);
  }

  lemma MoreHazards(states: seq<World>, steps: seq<Step>, want: Election, h: Hazards, more: Hazards)
    requires Run(states, steps, want, h)
    requires (h.failures ==> more.failures) && (h.scanInside ==> more.scanInside)
             && (h.restampInside ==> more.restampInside)
    ensures Run(states, steps, want, more)
  {
    forall i | 0 <= i < |steps| ensures Next(states[i], steps[i], states[i + 1], want, more) {
      assert Next(states[i], steps[i], states[i + 1], want, h);
    }
  }

  lemma AtRestUpToDate(states: seq<World>, steps: seq<Step>, want: Election, i: nat)
    requires Run(states, steps, want, NO_HAZARDS) && i < |states| && Quiet(states[i])
    ensures UpToDate(states[i], want)
  {
    RunKeeps(states, steps, want, NO_HAZARDS, i);
    var s := states[i];
    if s.finished != [] { assert s.finished[|s.finished| - 1] in s.finished; }
  }

  /** A sweeper at rest has the stamps follow the newest policy nudged, whatever the election, in every run and
      beside any scans, exactly when no restamp can fail, no scan that changed the stamps since a restamp's
      snapshot ends before the restamp's check, and none streams between the check and the write. */
  lemma AtRestUpToDateExactly(h: Hazards)
    ensures (forall want: Election, states, steps, i ::
               Run(states, steps, want, h) && 0 <= i < |states| && Quiet(states[i]) ==> UpToDate(states[i], want))
            <==> h == NO_HAZARDS
  {
    if h == NO_HAZARDS {
      forall want: Election, states, steps, i | Run(states, steps, want, h) && 0 <= i < |states| && Quiet(states[i])
        ensures UpToDate(states[i], want)
      {
        AtRestUpToDate(states, steps, want, i);
      }
    } else {
      var states, steps := HazardousRun(h);
      assert Quiet(states[|states| - 1]);
    }
  }

  lemma HazardousRun(h: Hazards) returns (states: seq<World>, steps: seq<Step>)
    requires h != NO_HAZARDS
    ensures Run(states, steps, OneHidden, h)
    ensures Quiet(states[|states| - 1]) && !UpToDate(states[|states| - 1], OneHidden)
  {
    if h.failures {
      states, steps := FailureLosesTheNudge();
      MoreHazards(states, steps, OneHidden, Hazards(true, false, false), h);
    } else if h.scanInside {
      states, steps := ScanInsideLeavesOldStamps();
      MoreHazards(states, steps, OneHidden, Hazards(false, true, false), h);
    } else {
      states, steps := RestampInsideHidesBoth();
      MoreHazards(states, steps, OneHidden, Hazards(false, false, true), h);
    }
  }
}
