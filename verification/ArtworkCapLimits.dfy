/** How exact the bound on a partial pass is, and the pass after a pass. */
module ArtworkCapLimits {
  import opened ArtworkOrder
  import opened ArtworkPortraits
  import opened ArtworkCap
  import opened ArtworkCapLaws
  import opened ArtworkSamples

  // ----- the bound on a partial pass -----

  /** The bound of PartialPassBound is exact: when every removal succeeds, the loop over part of the
      candidates is sound at every low-water mark exactly when the files it does not offer, and that come
      before one it does, weigh no more than what it cannot see (`whole - part`). */
  lemma PartialLoopExact(ws: seq<CacheFile>, offered: set<string>, part: nat, whole: nat)
    requires OldestFirst(ws) && Bytes(ws) <= whole && part <= whole
    ensures (forall lowWater: nat, f :: f in Evict(Restrict(ws, offered), part, lowWater, ALL_REMOVED).evicted
                                        ==> f in Evict(ws, whole, lowWater, ALL_REMOVED).evicted)
            <==> Ahead(ws, offered) <= whole - part
  {
    if part + Ahead(ws, offered) <= whole {
      forall lowWater: nat, f | f in Evict(Restrict(ws, offered), part, lowWater, ALL_REMOVED).evicted
        ensures f in Evict(ws, whole, lowWater, ALL_REMOVED).evicted
      {
        PartialLoop(ws, offered, part, whole, lowWater, ALL_REMOVED, f);
      }
    } else {
      var lowWater, f := LoopsPart(ws, offered, part, whole);
    }
  }

  lemma {:induction false} LoopsPart(ws: seq<CacheFile>, offered: set<string>, part: int, whole: nat)
    returns (lowWater: nat, f: CacheFile)
    requires OldestFirst(ws) && Bytes(ws) <= whole && Restrict(ws, offered) != [] && part + Ahead(ws, offered) > whole
    ensures f in ws && f in Evict(Restrict(ws, offered), part, lowWater, ALL_REMOVED).evicted
    ensures f !in Evict(ws, whole, lowWater, ALL_REMOVED).evicted
  {
    var g := ws[0];
    if Restrict(ws[1..], offered) == [] {
      lowWater, f := whole, g;
      assert Restrict(ws, offered) == [g];
    } else {
      var inPart := g.path in offered;
      lowWater, f := LoopsPart(ws[1..], offered, if inPart then part - g.size else part, whole - g.size);
      OlderIrreflexive(g, f);
      if inPart { assert Restrict(ws, offered)[1..] == Restrict(ws[1..], offered); }
    }
  }

  // ----- one cache, at every cap -----

  lemma {:induction false} RestrictAll(files: seq<CacheFile>, paths: set<string>)
    requires forall f :: f in files ==> f.path in paths
    ensures Restrict(files, paths) == files
  {
    if files == [] {
    } else {
      RestrictAll(files[1..], paths);
    }
  }

  /** With every removal done, a file goes exactly when the total, less the offered files older than it, is over the
      mark. */
  lemma {:induction false} EvictedExactly(ws: seq<CacheFile>, offered: set<string>, total: int, lowWater: int, i: nat)
    requires OldestFirst(ws) && i < |ws| && ws[i].path in offered
    ensures ws[i] in Evict(Restrict(ws, offered), total, lowWater, ALL_REMOVED).evicted
            <==> total - Bytes(Restrict(ws[..i], offered)) > lowWater
  {
    var g := ws[0];
    if i == 0 {
      assert Restrict(ws[..0], offered) == [];
    } else {
      assert ws[..i][1..] == ws[1..][..i - 1];
      OlderIrreflexive(g, ws[i]);
      EvictedExactly(ws[1..], offered, if g.path in offered then total - g.size else total, lowWater, i - 1);
      if g.path in offered {
        assert Restrict(ws, offered)[1..] == Restrict(ws[1..], offered);
        assert Restrict(ws[..i], offered)[1..] == Restrict(ws[1..][..i - 1], offered);
      }
    }
  }

  lemma LowWaterGrows(a: int, b: int)
    requires a <= b
    ensures LowWater(a) <= LowWater(b)
  {
  }

  /** Every mark up to that of `top` is the mark of some cap. */
  lemma {:induction false} CapWithMark(mark: int, top: nat) returns (capBytes: int)
    requires 1 <= mark <= LowWater(top)
    ensures 0 < capBytes <= top && LowWater(capBytes) == mark
  {
    if LowWater(top) == mark {
      capBytes := top;
    } else {
      capBytes := CapWithMark(mark, top - 1);
    }
  }

  /** What keeps a partial pass from taking an offered file the whole pass keeps, `ahead` and `offeredAhead` being the
      bytes of the older candidates of the two: the bytes withheld are no more than the bytes hidden, or the whole pass
      takes it whenever the partial one has anything to do, or the partial pass is never left with two bytes by then. */
  predicate BoundAt(ahead: nat, offeredAhead: nat, part: nat, whole: nat) {
    ahead - offeredAhead <= whole - part || whole - ahead > LowWater(part - 1) || part - offeredAhead <= 1
  }

  predicate Bound(ws: seq<CacheFile>, offered: set<string>, part: nat, whole: nat) {
    forall i :: 0 <= i < |ws| && ws[i].path in offered ==>
      BoundAt(Bytes(ws[..i]), Bytes(Restrict(ws[..i], offered)), part, whole)
  }

  /** At every cap, of two totals over the same sorted candidates, the partial pass takes a file only if the whole one
      does. */
  ghost predicate NoCapParts(ahead: nat, offeredAhead: nat, part: nat, whole: nat) {
    forall capBytes :: 0 < capBytes < part && part - offeredAhead > LowWater(capBytes)
                       ==> whole - ahead > LowWater(capBytes)
  }

  lemma NoCapPartsExactly(ahead: nat, offeredAhead: nat, part: nat, whole: nat)
    requires part <= whole
    ensures NoCapParts(ahead, offeredAhead, part, whole) <==> BoundAt(ahead, offeredAhead, part, whole)
  {
    if BoundAt(ahead, offeredAhead, part, whole) {
      forall capBytes | 0 < capBytes < part && part - offeredAhead > LowWater(capBytes)
        ensures whole - ahead > LowWater(capBytes)
      {
        LowWaterGrows(capBytes, part - 1);
        LowWaterGrows(1, capBytes);
      }
    } else {
      LowWaterGrows(1, part - 1);
      var capBytes := CapWithMark(if whole - ahead < 1 then 1 else whole - ahead, part - 1);
      assert 0 < capBytes < part && part - offeredAhead > LowWater(capBytes);
    }
  }

  ghost predicate PassIncluded(files: seq<CacheFile>, visible: set<string>, keep: Keep, portraitUnstatted: bool,
                               capBytes: int, now: int) {
    forall f :: f in Pass(Restrict(files, visible), keep, portraitUnstatted, capBytes, now, ALL_REMOVED).evicted
                ==> f in Pass(files, keep, false, capBytes, now, ALL_REMOVED).evicted
  }

  /** What either pass does to one of the whole pass's candidates. */
  lemma CandidateGoes(files: seq<CacheFile>, visible: set<string>, keep: Keep, portraitUnstatted: bool, capBytes: int,
                      now: int, i: nat)
    requires DistinctPaths(files) && (HidesSomePortrait(files, visible) ==> portraitUnstatted)
    requires i < |Sorted(files, keep, false, now)|
    ensures var ws, offered := Sorted(files, keep, false, now), Offered(files, visible, portraitUnstatted);
            && (ws[i] in Pass(files, keep, false, capBytes, now, ALL_REMOVED).evicted <==>
                  Bytes(files) > capBytes && Bytes(files) - Bytes(ws[..i]) > LowWater(capBytes))
            && (ws[i].path in offered ==>
                  (ws[i] in Pass(Restrict(files, visible), keep, portraitUnstatted, capBytes, now, ALL_REMOVED).evicted
                   <==> && Bytes(Restrict(files, visible)) > capBytes
                        && Bytes(Restrict(files, visible)) - Bytes(Restrict(ws[..i], offered)) > LowWater(capBytes)))
  {
    var ws, offered := Sorted(files, keep, false, now), Offered(files, visible, portraitUnstatted);
    var candidates := Candidates(files, keep, false, now);
    RestrictDistinct(files, EvictablePaths(files, keep, false, now));
    SortCorrect(candidates);
    PartialCandidates(files, visible, keep, portraitUnstatted, now);
    SortRestrict(candidates, offered);
    RestrictAll(ws, Paths(ws));
    RestrictAll(ws[..i], Paths(ws));
    EvictedExactly(ws, Paths(ws), Bytes(files), LowWater(capBytes), i);
    if ws[i].path in offered {
      EvictedExactly(ws, offered, Bytes(Restrict(files, visible)), LowWater(capBytes), i);
    }
  }

  /** For one cache and one view of it: the partial pass evicts only what the whole one does at every cap, exactly when
      the bound holds at every candidate it offers. */
  lemma PartialPassExact(files: seq<CacheFile>, visible: set<string>, keep: Keep, portraitUnstatted: bool, now: int)
    requires DistinctPaths(files) && (HidesSomePortrait(files, visible) ==> portraitUnstatted)
    ensures (forall capBytes :: capBytes > 0 ==> PassIncluded(files, visible, keep, portraitUnstatted, capBytes, now))
            <==> Bound(Sorted(files, keep, false, now), Offered(files, visible, portraitUnstatted),
                       Bytes(Restrict(files, visible)), Bytes(files))
  {
    var ws, offered := Sorted(files, keep, false, now), Offered(files, visible, portraitUnstatted);
    var part, whole := Bytes(Restrict(files, visible)), Bytes(files);
    BytesSplit(files, visible);
    if Bound(ws, offered, part, whole) {
      forall capBytes | capBytes > 0 ensures PassIncluded(files, visible, keep, portraitUnstatted, capBytes, now) {
        BoundIncludes(files, visible, keep, portraitUnstatted, capBytes, now);
      }
    } else {
      var i :| 0 <= i < |ws| && ws[i].path in offered
               && !BoundAt(Bytes(ws[..i]), Bytes(Restrict(ws[..i], offered)), part, whole);
      NoCapPartsExactly(Bytes(ws[..i]), Bytes(Restrict(ws[..i], offered)), part, whole);
      var capBytes :| && 0 < capBytes < part && part - Bytes(Restrict(ws[..i], offered)) > LowWater(capBytes)
                      && whole - Bytes(ws[..i]) <= LowWater(capBytes);
      CandidateGoes(files, visible, keep, portraitUnstatted, capBytes, now, i);
      assert !PassIncluded(files, visible, keep, portraitUnstatted, capBytes, now);
    }
  }

  lemma BoundIncludes(files: seq<CacheFile>, visible: set<string>, keep: Keep, portraitUnstatted: bool, capBytes: int,
                      now: int)
    requires DistinctPaths(files) && (HidesSomePortrait(files, visible) ==> portraitUnstatted) && capBytes > 0
    requires Bound(Sorted(files, keep, false, now), Offered(files, visible, portraitUnstatted),
                   Bytes(Restrict(files, visible)), Bytes(files))
    ensures PassIncluded(files, visible, keep, portraitUnstatted, capBytes, now)
  {
    var ws, offered := Sorted(files, keep, false, now), Offered(files, visible, portraitUnstatted);
    var part, whole := Bytes(Restrict(files, visible)), Bytes(files);
    BytesSplit(files, visible);
    forall f | f in Pass(Restrict(files, visible), keep, portraitUnstatted, capBytes, now, ALL_REMOVED).evicted
      ensures f in Pass(files, keep, false, capBytes, now, ALL_REMOVED).evicted
    {
      var i := OfferedIndex(files, visible, keep, portraitUnstatted, capBytes, now, f);
      CandidateGoes(files, visible, keep, portraitUnstatted, capBytes, now, i);
      assert BoundAt(Bytes(ws[..i]), Bytes(Restrict(ws[..i], offered)), part, whole);
      NoCapPartsExactly(Bytes(ws[..i]), Bytes(Restrict(ws[..i], offered)), part, whole);
    }
  }

  /** What the partial pass evicts is a candidate of the whole pass that it offers. */
  lemma OfferedIndex(files: seq<CacheFile>, visible: set<string>, keep: Keep, portraitUnstatted: bool, capBytes: int,
                     now: int, f: CacheFile) returns (i: nat)
    requires DistinctPaths(files) && (HidesSomePortrait(files, visible) ==> portraitUnstatted)
    requires f in Pass(Restrict(files, visible), keep, portraitUnstatted, capBytes, now, ALL_REMOVED).evicted
    ensures var ws := Sorted(files, keep, false, now);
            i < |ws| && ws[i] == f && f.path in Offered(files, visible, portraitUnstatted)
  {
    var part, candidates := Restrict(files, visible), Candidates(files, keep, false, now);
    var offered := Offered(files, visible, portraitUnstatted);
    var ours := Sorted(part, keep, portraitUnstatted, now);
    EvictShortestPrefix(ours, Bytes(part), LowWater(capBytes), ALL_REMOVED);
    MetMember(ours[..Reached(ours, Bytes(part), LowWater(capBytes), ALL_REMOVED)], ALL_REMOVED, Removed, f);
    assert f in ours;
    SortMembers(Candidates(part, keep, portraitUnstatted, now), f);
    PartialCandidates(files, visible, keep, portraitUnstatted, now);
    RestrictMember(candidates, offered, f);
    SortMembers(candidates, f);
    i :| 0 <= i < |Sorted(files, keep, false, now)| && Sorted(files, keep, false, now)[i] == f;
  }

  // ----- the pass after a pass -----

  /** The candidates a pass attempts. */
  function Reach(files: seq<CacheFile>, keep: Keep, portraitUnstatted: bool, capBytes: int, now: int,
                 fate: string -> Fate): seq<CacheFile> {
    if Bytes(files) <= capBytes then []
    else
      var sorted := Sorted(files, keep, portraitUnstatted, now);
      sorted[..Reached(sorted, Bytes(files), LowWater(capBytes), fate)]
  }

  function Paths(files: seq<CacheFile>): set<string> { set f | f in files :: f.path }

  /** The files still on disk after a pass: a refused removal leaves its file. */
  function Survivors(files: seq<CacheFile>, keep: Keep, portraitUnstatted: bool, capBytes: int, now: int,
                     fate: string -> Fate): seq<CacheFile> {
    var reach := Reach(files, keep, portraitUnstatted, capBytes, now, fate);
    Restrict(files, Paths(files) - set f | f in reach && !fate(f.path).Kept? :: f.path)
  }

  lemma {:induction false} ReleasedAll(files: seq<CacheFile>, fate: string -> Fate)
    requires forall f :: f in files ==> fate(f.path).Removed? || fate(f.path).Gone?
    ensures Released(files, fate) == Bytes(files)
  {
    if files == [] {
    } else {
      ReleasedHead(files, fate);
      ReleasedAll(files[1..], fate);
    }
  }

  lemma ReachIsPart(files: seq<CacheFile>, keep: Keep, portraitUnstatted: bool, capBytes: int, now: int,
                    fate: string -> Fate)
    requires DistinctPaths(files)
    ensures var reach := Reach(files, keep, portraitUnstatted, capBytes, now, fate);
            DistinctPaths(reach) && forall f :: f in reach ==>
              f in files && MayEvict(f, files, keep, portraitUnstatted, now)
  {
    var candidates := Candidates(files, keep, portraitUnstatted, now);
    var sorted := SortOldestFirst(candidates);
    RestrictDistinct(files, EvictablePaths(files, keep, portraitUnstatted, now));
    SortCorrect(candidates);
    forall f | f in sorted ensures f in files && MayEvict(f, files, keep, portraitUnstatted, now) {
      CandidatesMember(files, keep, portraitUnstatted, now, f);
    }
    forall i, j | 0 <= i < j < |sorted| ensures sorted[i].path != sorted[j].path {
      OlderIrreflexive(sorted[i], sorted[j]);
      if sorted[i].path == sorted[j].path { PathIsFile(candidates, sorted[i], sorted[j]); }
    }
  }

  lemma SurvivorsAndReach(files: seq<CacheFile>, keep: Keep, portraitUnstatted: bool, capBytes: int, now: int,
                          fate: string -> Fate)
    requires DistinctPaths(files)
    requires forall f :: f in files ==> fate(f.path).Removed? || fate(f.path).Gone?
    ensures var left, reach := Survivors(files, keep, portraitUnstatted, capBytes, now, fate),
            Reach(files, keep, portraitUnstatted, capBytes, now, fate);
            && DistinctPaths(left) && Bytes(left) + Bytes(reach) <= Bytes(files)
            && forall f :: f in left <==> f in files && f !in reach
  {
    var left, reach := Survivors(files, keep, portraitUnstatted, capBytes, now, fate),
      Reach(files, keep, portraitUnstatted, capBytes, now, fate);
    var stay := Paths(files) - set f | f in reach && !fate(f.path).Kept? :: f.path;
    ReachIsPart(files, keep, portraitUnstatted, capBytes, now, fate);
    RestrictDistinct(files, stay);
    forall f ensures f in left <==> f in files && f !in reach {
      RestrictMember(files, stay, f);
      forall g | g in reach && f in files && g.path == f.path ensures g == f { PathIsFile(files, f, g); }
    }
    var both := left + reach;
    forall i, j | 0 <= i < j < |both| ensures both[i].path != both[j].path {
      if i < |left| <= j {
        assert left[i] in left && reach[j - |left|] in reach;
        if both[i].path == both[j].path { PathIsFile(files, both[i], both[j]); }
      }
    }
    BytesAppend(left, reach);
    SubsetBytes(both, files);
  }

  /** A pass that leaves the cache over its cap attempted every candidate. */
  lemma ReachIsAll(files: seq<CacheFile>, keep: Keep, portraitUnstatted: bool, capBytes: int, now: int,
                   fate: string -> Fate)
    requires DistinctPaths(files) && capBytes > 0
    requires forall f :: f in files ==> fate(f.path).Removed? || fate(f.path).Gone?
    requires Bytes(Survivors(files, keep, portraitUnstatted, capBytes, now, fate)) > capBytes
    ensures Reach(files, keep, portraitUnstatted, capBytes, now, fate) == Sorted(files, keep, portraitUnstatted, now)
  {
    var reach, sorted := Reach(files, keep, portraitUnstatted, capBytes, now, fate),
      Sorted(files, keep, portraitUnstatted, now);
    SurvivorsAndReach(files, keep, portraitUnstatted, capBytes, now, fate);
    ReachIsPart(files, keep, portraitUnstatted, capBytes, now, fate);
    EvictShortestPrefix(sorted, Bytes(files), LowWater(capBytes), fate);
    ReleasedAll(reach, fate);
    forall f | f in sorted ensures f in files { SortedMember(files, keep, portraitUnstatted, now, f); }
    assert forall k :: 0 <= k < |sorted| ==> sorted[k] in sorted;
    assert sorted[..|sorted|] == sorted;
  }

  lemma SortedMember(files: seq<CacheFile>, keep: Keep, portraitUnstatted: bool, now: int, f: CacheFile)
    requires DistinctPaths(files)
    ensures f in Sorted(files, keep, portraitUnstatted, now)
            <==> f in files && MayEvict(f, files, keep, portraitUnstatted, now)
  {
    SortCorrect(Candidates(files, keep, portraitUnstatted, now));
    CandidatesMember(files, keep, portraitUnstatted, now, f);
  }

  /** A second pass straight after one in which no removal failed evicts nothing: what was left is under
      the mark, or holds nothing the pass may evict, since no portrait that kept a canonical went. */
  lemma SecondPassIdle(files: seq<CacheFile>, keep: Keep, portraitUnstatted: bool, capBytes: int, now: int,
                       fate: string -> Fate, fate': string -> Fate)
    requires DistinctPaths(files) && capBytes > 0
    requires forall f :: f in files ==> fate(f.path).Removed? || fate(f.path).Gone?
    ensures var left := Survivors(files, keep, portraitUnstatted, capBytes, now, fate);
            Pass(left, keep, portraitUnstatted, capBytes, now, fate').evicted == []
  {
    var left := Survivors(files, keep, portraitUnstatted, capBytes, now, fate);
    if Bytes(left) > capBytes {
      SurvivorsAndReach(files, keep, portraitUnstatted, capBytes, now, fate);
      ReachIsAll(files, keep, portraitUnstatted, capBytes, now, fate);
      NoneLeft(files, left, keep, portraitUnstatted, now);
      assert SortOldestFirst([]) == [];
    }
  }

  /** Once every candidate is gone, there is none. */
  lemma NoneLeft(files: seq<CacheFile>, left: seq<CacheFile>, keep: Keep, portraitUnstatted: bool, now: int)
    requires DistinctPaths(files) && DistinctPaths(left)
    requires forall f :: f in left <==> f in files && f !in Sorted(files, keep, portraitUnstatted, now)
    ensures Candidates(left, keep, portraitUnstatted, now) == []
  {
    var again := Candidates(left, keep, portraitUnstatted, now);
    assert again != [] ==> again[0] in again;
    SortCorrect(Candidates(files, keep, portraitUnstatted, now));
    forall f ensures f in left <==> f in files && !MayEvict(f, files, keep, portraitUnstatted, now) {
      CandidatesMember(files, keep, portraitUnstatted, now, f);
    }
    forall f ensures f !in again {
      CandidatesMember(left, keep, portraitUnstatted, now, f);
      if f in left { StillNamed(files, left, keep, portraitUnstatted, now, f); }
    }
  }

  lemma StillNamed(files: seq<CacheFile>, left: seq<CacheFile>, keep: Keep, portraitUnstatted: bool, now: int,
                   f: CacheFile)
    requires f in left && forall g :: g in left <==> g in files && !MayEvict(g, files, keep, portraitUnstatted, now)
    ensures !MayEvict(f, left, keep, portraitUnstatted, now)
  {
    if IsCanonical(f) && KeptCanonical(f, files, keep.artists, now) && !FreshPortrait(f, now) {
      var k :| k in files && IsMbidPortrait(k) && KeptMbid(k, keep.artists, now) && SameFile(f, k);
      assert k in left;
    }
  }
}
