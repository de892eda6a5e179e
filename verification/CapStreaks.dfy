/** What the size cap's passes log: a streak of bad passes warns when it begins and then at most daily. */
module CapStreaks {
  import opened Basics

  const REPEAT := 86_400_000_000_000  // 24 hours, in nanoseconds

  datatype Line = Silent | Warned | Ended(lasted: int)

  datatype Streak = Streak(since: Instant, lastLog: Instant)

  const QUIET := Streak(Never, Never)

  datatype PassSeen = PassSeen(now: int, bad: bool)

  function Note(s: Streak, p: PassSeen): (Streak, Line) {
    if !p.bad then
      if s.since.At? then (QUIET, Ended(p.now - s.since.time)) else (s, Silent)
    else if s.since.At? && s.lastLog.At? && p.now - s.lastLog.time < REPEAT then (s, Silent)
    else (Streak(if s.since.At? then s.since else At(p.now), At(p.now)), Warned)
  }

  datatype Result = Failed | Swept(referenced: nat, unlisted: nat, unstatted: nat)

  class CapSweeper {
    const capBytes: int
    var unseenSince: Instant
    var lastUnseenLog: Instant
    var overSince: Instant
    var lastOverLog: Instant

    ghost predicate Valid()
      reads this
    {
      && (overSince.At? <==> lastOverLog.At?)
      && (unseenSince.At? <==> lastUnseenLog.At?)
    }

    function Over(): Streak reads this { Streak(overSince, lastOverLog) }

    function Unseen(): Streak reads this { Streak(unseenSince, lastUnseenLog) }

    constructor (capBytes: int)
      ensures Valid() && this.capBytes == capBytes && Over() == QUIET && Unseen() == QUIET
    {
      this.capBytes := capBytes;
      unseenSince, lastUnseenLog, overSince, lastOverLog := Never, Never, Never, Never;
    }

    method NoteOverCap(now: int, referenced: nat) returns (line: Line)
      requires Valid()
      modifies this`overSince, this`lastOverLog
      ensures Valid() && (Over(), line) == Note(old(Over()), PassSeen(now, referenced > capBytes))
    {
      if referenced <= capBytes {
        if overSince.At? {
          line := Ended(now - overSince.time);
          overSince, lastOverLog := Never, Never;
          return;
        }
        return Silent;
      }
      if overSince.Never? {
        overSince := At(now);
      } else if now - lastOverLog.time < REPEAT {
        return Silent;
      }
      lastOverLog := At(now);
      return Warned;
    }

    method NoteUnseen(now: int, unlisted: nat, unstatted: nat) returns (line: Line)
      requires Valid()
      modifies this`unseenSince, this`lastUnseenLog
      ensures Valid() && (Unseen(), line) == Note(old(Unseen()), PassSeen(now, unlisted != 0 || unstatted != 0))
    {
      if unlisted == 0 && unstatted == 0 {
        if unseenSince.At? {
          line := Ended(now - unseenSince.time);
          unseenSince, lastUnseenLog := Never, Never;
          return;
        }
        return Silent;
      }
      if unseenSince.Never? {
        unseenSince := At(now);
      } else if now - lastUnseenLog.time < REPEAT {
        return Silent;
      }
      lastUnseenLog := At(now);
      return Warned;
    }

    /** A pass that failed decided nothing, and leaves both streaks as they were. */
    method Pass(now: int, result: Result) returns (unseenLine: Line, overLine: Line)
      requires Valid()
      modifies this
      ensures Valid()
      ensures result.Failed? ==> Over() == old(Over()) && Unseen() == old(Unseen()) && unseenLine == overLine == Silent
      ensures result.Swept? ==>
                && (Over(), overLine) == Note(old(Over()), PassSeen(now, result.referenced > capBytes))
                && (Unseen(), unseenLine)
                   == Note(old(Unseen()), PassSeen(now, result.unlisted != 0 || result.unstatted != 0))
    {
      if result.Failed? { return Silent, Silent; }
      unseenLine := NoteUnseen(now, result.unlisted, result.unstatted);
      overLine := NoteOverCap(now, result.referenced);
    }
  }

  // ----- over any sequence of passes -----

  function After(passes: seq<PassSeen>): Streak {
    if passes == [] then QUIET else Note(After(passes[..|passes| - 1]), passes[|passes| - 1]).0
  }

  function LineAt(passes: seq<PassSeen>, i: nat): Line
    requires i < |passes|
  {
    Note(After(passes[..i]), passes[i]).1
  }

  ghost predicate Monotone(passes: seq<PassSeen>) {
    forall i, j :: 0 <= i <= j < |passes| ==> passes[i].now <= passes[j].now
  }

  /** Passes i to j, both bad and with no good one between. */
  predicate SameStreak(passes: seq<PassSeen>, i: int, j: int) {
    0 <= i <= j < |passes| && forall k :: i <= k <= j ==> passes[k].bad
  }

  /** The streak pass i is in began at pass `since`. */
  predicate Began(passes: seq<PassSeen>, since: int, i: int) {
    SameStreak(passes, since, i) && (since > 0 ==> !passes[since - 1].bad)
  }

  /** What the two remembered times are: where the current streak began, and its last warning. */
  ghost predicate Remembers(passes: seq<PassSeen>, since: int, last: int) {
    && 0 <= since <= last < |passes| && Began(passes, since, |passes| - 1)
    && LineAt(passes, last).Warned?
    && (forall k :: last < k < |passes| ==> !LineAt(passes, k).Warned?)
    && After(passes) == Streak(At(passes[since].now), At(passes[last].now))
  }

  /** What a pass logs depends on the passes up to it alone. */
  lemma LinesOfPrefix(passes: seq<PassSeen>, before: seq<PassSeen>)
    requires before <= passes
    ensures forall k :: 0 <= k < |before| ==> LineAt(passes, k) == LineAt(before, k)
  {
    forall k | 0 <= k < |before| ensures LineAt(passes, k) == LineAt(before, k) { assert passes[..k] == before[..k]; }
  }

  lemma {:induction false} AfterRemembers(passes: seq<PassSeen>) returns (since: int, last: int)
    ensures if passes == [] || !passes[|passes| - 1].bad then After(passes) == QUIET else Remembers(passes, since, last)
  {
    since, last := 0, 0;
    if passes == [] {
    } else {
      var n := |passes| - 1;
      var before := passes[..n];
      var since', last' := AfterRemembers(before);
      if passes[n].bad {
        LinesOfPrefix(passes, before);
        since := if before != [] && before[n - 1].bad then since' else n;
        last := if LineAt(passes, n).Warned? then n else last';
      }
    }
  }

  /** The log, said outright: a bad pass warns exactly when no pass of its own streak warned less than 24
      hours before it, so the first pass of a streak always does; and a good pass ends a streak exactly when
      the pass before it was bad, saying how long the streak lasted. */
  lemma LogSaysExactly(passes: seq<PassSeen>, i: nat)
    requires i < |passes| && Monotone(passes)
    ensures LineAt(passes, i).Warned? <==>
            && passes[i].bad
            && forall j :: 0 <= j < i && SameStreak(passes, j, i) && LineAt(passes, j).Warned?
                           ==> passes[i].now - passes[j].now >= 24 * 3_600_000_000_000
    ensures LineAt(passes, i).Ended? <==> !passes[i].bad && i > 0 && passes[i - 1].bad
    ensures LineAt(passes, i).Ended? ==>
              exists since :: Began(passes, since, i - 1)
                && LineAt(passes, i).lasted == passes[i].now - passes[since].now
  {
    var before := passes[..i];
    var since, last := AfterRemembers(before);
    LinesOfPrefix(passes, before);
    if i > 0 && passes[i - 1].bad {
      assert SameStreak(passes, since, i - 1);
      if passes[i].bad {
        assert SameStreak(passes, last, i);
        forall j | 0 <= j < i && LineAt(passes, j).Warned? ensures passes[j].now <= passes[last].now {
          assert j <= last;
        }
      } else {
        assert Began(passes, since, i - 1);
      }
    } else {
      assert forall j :: 0 <= j < i ==> !SameStreak(passes, j, i);
    }
  }

  function Warnings(passes: seq<PassSeen>): nat {
    if passes == [] then 0
    else Warnings(passes[..|passes| - 1]) + if LineAt(passes, |passes| - 1).Warned? then 1 else 0
  }

  /** Streaks begun. */
  function Streaks(passes: seq<PassSeen>): nat {
    if passes == [] then 0
    else
      var n := |passes| - 1;
      Streaks(passes[..n]) + if passes[n].bad && (n == 0 || !passes[n - 1].bad) then 1 else 0
  }

  lemma {:induction false} WarningsPotential(passes: seq<PassSeen>)
    requires passes != [] && Monotone(passes)
    ensures (Warnings(passes) - Streaks(passes)) * REPEAT
            <= (if After(passes).lastLog.At? then After(passes).lastLog.time else passes[|passes| - 1].now)
              - passes[0].now
  {
    var n := |passes| - 1;
    assert After(passes[..0]) == QUIET;
    if n > 0 {
      var before := passes[..n];
      WarningsPotential(before);
      var since, last := AfterRemembers(before);
      assert before[0] == passes[0] && before[n - 1] == passes[n - 1];
      if before[n - 1].bad { assert before[last].now == passes[last].now <= passes[n].now; }
    } else {
      assert passes[..0] == [];
    }
  }

  /** The warnings over a run are at most one a streak and one for each full day of it. */
  lemma WarningsBounded(passes: seq<PassSeen>)
    requires passes != [] && Monotone(passes)
    ensures Warnings(passes) <= Streaks(passes) + (passes[|passes| - 1].now - passes[0].now) / REPEAT
  {
    WarningsPotential(passes);
    var since, last := AfterRemembers(passes);
    var n := |passes| - 1;
    var elapsed := passes[n].now - passes[0].now;
    assert (Warnings(passes) - Streaks(passes)) * REPEAT <= elapsed;
  }
}
