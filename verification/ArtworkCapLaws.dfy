/** What a pass of the size cap guarantees, whatever the files, the store and the removals. */
module ArtworkCapLaws {
  import opened ArtworkOrder
  import opened ArtworkPortraits
  import opened ArtworkCap

  /** The mark is nine tenths of the cap, rounded up. */
  lemma LowWaterSays(capBytes: int)
    requires capBytes > 0
    ensures 9 * capBytes <= 10 * LowWater(capBytes) < 9 * capBytes + 10
    ensures 0 < LowWater(capBytes) <= capBytes
  {
  }

  // ----- the loop: how far it goes, and what it accounts for -----

  lemma ReleasedHead(files: seq<CacheFile>, fate: string -> Fate)
    requires files != []
    ensures Released(files, fate)
            == (if fate(files[0].path).Removed? || fate(files[0].path).Gone? then files[0].size else 0)
              + Released(files[1..], fate)
  {
    var f := files[0];
    BytesAppend([f], Met(files[1..], fate, fate(f.path)));
    assert forall end | end != fate(f.path) :: [] + Met(files[1..], fate, end) == Met(files[1..], fate, end);
  }

  /** Before each file it attempts, the total is still over the mark. */
  lemma {:induction false} OverBeforeEach(candidates: seq<CacheFile>, total: int, lowWater: int,
                                          fate: string -> Fate, i: nat)
    requires i < Reached(candidates, total, lowWater, fate)
    ensures total - Released(candidates[..i], fate) > lowWater
  {
    if i == 0 {
    } else {
      var f := candidates[0];
      OverBeforeEach(candidates[1..], if fate(f.path).Kept? then total else total - f.size, lowWater, fate, i - 1);
      ReleasedHead(candidates[..i], fate);
      assert candidates[..i][1..] == candidates[1..][..i - 1];
    }
  }

  lemma {:induction false} EvictAccount(candidates: seq<CacheFile>, total: int, lowWater: int, fate: string -> Fate)
    ensures var n, r := Reached(candidates, total, lowWater, fate), Evict(candidates, total, lowWater, fate);
            && r.evicted == Met(candidates[..n], fate, Removed)
            && r.left == total - Released(candidates[..n], fate)
  {
    if candidates == [] || total <= lowWater || fate(candidates[0].path).Cancelled? {
    } else {
      var f := candidates[0];
      var total' := if fate(f.path).Kept? then total else total - f.size;
      var m := Reached(candidates[1..], total', lowWater, fate);
      EvictAccount(candidates[1..], total', lowWater, fate);
      assert candidates[..m + 1][0] == f && candidates[..m + 1][1..] == candidates[1..][..m];
      ReleasedHead(candidates[..m + 1], fate);
    }
  }

  /** Why the loop stops. */
  lemma {:induction false} EvictEnds(candidates: seq<CacheFile>, total: int, lowWater: int, fate: string -> Fate)
    ensures var n, r := Reached(candidates, total, lowWater, fate), Evict(candidates, total, lowWater, fate);
            && (r.left <= lowWater || n == |candidates| || fate(candidates[n].path).Cancelled?)
            && (r.cancelled <==> n < |candidates| && r.left > lowWater)
  {
    if candidates == [] || total <= lowWater || fate(candidates[0].path).Cancelled? {
    } else {
      var f := candidates[0];
      EvictEnds(candidates[1..], if fate(f.path).Kept? then total else total - f.size, lowWater, fate);
    }
  }

  /** The loop attempts exactly the shortest prefix of its candidates that brings the total down to the
      low-water mark, or all of them, or all up to the one it was cancelled before. */
  lemma EvictShortestPrefix(candidates: seq<CacheFile>, total: int, lowWater: int, fate: string -> Fate)
    ensures var n, r := Reached(candidates, total, lowWater, fate), Evict(candidates, total, lowWater, fate);
            && r.evicted == Met(candidates[..n], fate, Removed)
            && r.left == total - Released(candidates[..n], fate)
            && (r.left <= lowWater || n == |candidates| || fate(candidates[n].path).Cancelled?)
            && (r.cancelled <==> n < |candidates| && r.left > lowWater)
            && forall i :: 0 <= i < n ==> total - Released(candidates[..i], fate) > lowWater
  {
    EvictAccount(candidates, total, lowWater, fate);
    EvictEnds(candidates, total, lowWater, fate);
    forall i | 0 <= i < Reached(candidates, total, lowWater, fate)
      ensures total - Released(candidates[..i], fate) > lowWater
    {
      OverBeforeEach(candidates, total, lowWater, fate, i);
    }
  }

  function Sorted(files: seq<CacheFile>, keep: Keep, portraitUnstatted: bool, now: int): seq<CacheFile> {
    SortOldestFirst(Candidates(files, keep, portraitUnstatted, now))
  }

  /** How many candidates a whole pass attempts. */
  function PassReached(files: seq<CacheFile>, keep: Keep, portraitUnstatted: bool, capBytes: int, now: int,
                       fate: string -> Fate): nat {
    if Bytes(files) <= capBytes then 0
    else Reached(Sorted(files, keep, portraitUnstatted, now), Bytes(files), LowWater(capBytes), fate)
  }

  /** The files that left the disk during the pass, by its hand or on their own. */
  function PassTook(files: seq<CacheFile>, keep: Keep, portraitUnstatted: bool, capBytes: int, now: int,
                    fate: string -> Fate, end: Fate): seq<CacheFile>
    requires PassReached(files, keep, portraitUnstatted, capBytes, now, fate)
             <= |Sorted(files, keep, portraitUnstatted, now)|
  {
    var reached := PassReached(files, keep, portraitUnstatted, capBytes, now, fate);
    Met(Sorted(files, keep, portraitUnstatted, now)[..reached], fate, end)
  }

  /** Nothing is lost from the account: what a pass saw is what it left, what it freed and what went on
      its own, however many removals failed. */
  lemma PassConserves(files: seq<CacheFile>, keep: Keep, portraitUnstatted: bool, capBytes: int, now: int,
                      fate: string -> Fate)
    ensures var r := Pass(files, keep, portraitUnstatted, capBytes, now, fate);
            && r.evicted == PassTook(files, keep, portraitUnstatted, capBytes, now, fate, Removed)
            && Bytes(files) == r.left + Bytes(r.evicted)
               + Bytes(PassTook(files, keep, portraitUnstatted, capBytes, now, fate, Gone))
  {
    EvictShortestPrefix(Sorted(files, keep, portraitUnstatted, now), Bytes(files), LowWater(capBytes), fate);
  }

  lemma {:induction false} MetMember(files: seq<CacheFile>, fate: string -> Fate, end: Fate, f: CacheFile)
    ensures f in Met(files, fate, end) <==> f in files && fate(f.path) == end
  {
    if files == [] {
    } else {
      MetMember(files[1..], fate, end, f);
      assert f in files <==> f == files[0] || f in files[1..];
    }
  }

  /** A pass evicts only files it counted, that no row names, and that are past the grace. */
  lemma PassEvictsOnlyEvictable(files: seq<CacheFile>, keep: Keep, portraitUnstatted: bool, capBytes: int, now: int,
                                fate: string -> Fate, f: CacheFile)
    requires DistinctPaths(files)
    requires f in Pass(files, keep, portraitUnstatted, capBytes, now, fate).evicted
    ensures f in files && MayEvict(f, files, keep, portraitUnstatted, now) && fate(f.path).Removed?
    ensures f.mod < now - CAP_GRACE
  {
    var sorted := Sorted(files, keep, portraitUnstatted, now);
    EvictShortestPrefix(sorted, Bytes(files), LowWater(capBytes), fate);
    var n := Reached(sorted, Bytes(files), LowWater(capBytes), fate);
    MetMember(sorted[..n], fate, Removed, f);
    SortCorrect(Candidates(files, keep, portraitUnstatted, now));
    CandidatesMember(files, keep, portraitUnstatted, now, f);
  }

  // ----- a pass that sees part of the cache -----

  /** What two loops owe each other: `ws` is the whole pass's candidates, `offered` the paths the partial
      pass offers, and the files it does not offer weigh on the difference only while an offered file
      comes after them. */
  function Ahead(ws: seq<CacheFile>, offered: set<string>): nat {
    if Restrict(ws, offered) == [] then 0
    else (if ws[0].path in offered then 0 else ws[0].size) + Ahead(ws[1..], offered)
  }

  predicate NoCancel(files: seq<CacheFile>, fate: string -> Fate) {
    forall f :: f in files ==> !fate(f.path).Cancelled?
  }

  lemma {:induction false} PartialLoop(ws: seq<CacheFile>, offered: set<string>, part: int, whole: int, lowWater: int,
                                       fate: string -> Fate, f: CacheFile)
    requires part + Ahead(ws, offered) <= whole
    requires NoCancel(ws, fate)
    requires f in Evict(Restrict(ws, offered), part, lowWater, fate).evicted
    ensures f in Evict(ws, whole, lowWater, fate).evicted
  {
    var g := ws[0];
    var taken := if fate(g.path).Kept? then 0 else g.size;
    if g.path in offered {
      if f in Evict(Restrict(ws[1..], offered), part - taken, lowWater, fate).evicted {
        if Restrict(ws[1..], offered) != [] {
          PartialLoop(ws[1..], offered, part - taken, whole - taken, lowWater, fate, f);
        }
      }
    } else {
      PartialLoop(ws[1..], offered, part, whole - taken, lowWater, fate, f);
    }
  }

  lemma {:induction false} AheadAtMostHidden(ws: seq<CacheFile>, offered: set<string>)
    ensures Ahead(ws, offered) <= HiddenBytes(ws, offered)
  {
    if ws == [] {
    } else {
      AheadAtMostHidden(ws[1..], offered);
    }
  }

  lemma {:induction false} HiddenBytesMonotone(files: seq<CacheFile>, part: set<string>, offered: set<string>)
    ensures HiddenBytes(Restrict(files, part), offered) <= HiddenBytes(files, offered)
  {
    if files == [] {
    } else {
      HiddenBytesMonotone(files[1..], part, offered);
    }
  }

  lemma {:induction false} RestrictTwice(files: seq<CacheFile>, a: set<string>, b: set<string>)
    ensures Restrict(Restrict(files, a), b) == Restrict(files, a * b)
  {
    if files == [] {
    } else {
      RestrictTwice(files[1..], a, b);
    }
  }

  lemma {:induction false} RestrictAgree(files: seq<CacheFile>, a: set<string>, b: set<string>)
    requires forall f :: f in files ==> (f.path in a <==> f.path in b)
    ensures Restrict(files, a) == Restrict(files, b)
  {
    if files == [] {
    } else {
      RestrictAgree(files[1..], a, b);
    }
  }

  /** Whether a view of `files` misses some portrait at the top of the cache. */
  predicate HidesSomePortrait(files: seq<CacheFile>, visible: set<string>) {
    exists f :: f in files && f.path !in visible && f.kind.Portrait?
  }

  /** The paths a partial pass is ready to evict that a whole pass would be too. */
  function Offered(files: seq<CacheFile>, visible: set<string>, portraitUnstatted: bool): set<string> {
    set f | f in files && f.path in visible && !(portraitUnstatted && IsCanonical(f)) :: f.path
  }

  /** Seeing part of the cache, the pass may evict exactly what a whole pass may of what it sees, less
      every canonical when some portrait is hidden from it. */
  lemma PartialCandidates(files: seq<CacheFile>, visible: set<string>, keep: Keep, portraitUnstatted: bool, now: int)
    requires DistinctPaths(files)
    requires HidesSomePortrait(files, visible) ==> portraitUnstatted
    ensures Candidates(Restrict(files, visible), keep, portraitUnstatted, now)
            == Restrict(Candidates(files, keep, false, now), Offered(files, visible, portraitUnstatted))
  {
    var part := Restrict(files, visible);
    forall f ensures f in part <==> f in files && f.path in visible { RestrictMember(files, visible, f); }
    RestrictDistinct(files, visible);
    var a, b := EvictablePaths(part, keep, portraitUnstatted, now), EvictablePaths(files, keep, false, now);
    var offered := Offered(files, visible, portraitUnstatted);
    forall f | f in files ensures f.path in visible * a <==> f.path in b * offered {
      forall g | g in files && g.path == f.path ensures g == f { PathIsFile(files, f, g); }
      if f.path in visible {
        if !portraitUnstatted {
          assert KeptCanonical(f, part, keep.artists, now) <==> KeptCanonical(f, files, keep.artists, now);
        }
        assert MayEvict(f, part, keep, portraitUnstatted, now) <==>
               MayEvict(f, files, keep, false, now) && !(portraitUnstatted && IsCanonical(f));
      }
    }
    RestrictAgree(files, visible * a, b * offered);
    RestrictTwice(files, visible, a);
    RestrictTwice(files, b, offered);
  }

  /** A pass over part of the cache evicts only files a pass over the whole of it evicts, as long as the
      files the partial pass does not offer, and that come before one it does, weigh no more than what it
      cannot see. */
  lemma PartialPassBound(files: seq<CacheFile>, visible: set<string>, keep: Keep, portraitUnstatted: bool,
                         capBytes: int, now: int, fate: string -> Fate, f: CacheFile)
    requires DistinctPaths(files) && NoCancel(files, fate)
    requires HidesSomePortrait(files, visible) ==> portraitUnstatted
    requires Ahead(Sorted(files, keep, false, now), Offered(files, visible, portraitUnstatted))
             <= HiddenBytes(files, visible)
    requires f in Pass(Restrict(files, visible), keep, portraitUnstatted, capBytes, now, fate).evicted
    ensures f in Pass(files, keep, false, capBytes, now, fate).evicted
  {
    var offered := Offered(files, visible, portraitUnstatted);
    var ws := Sorted(files, keep, false, now);
    BytesSplit(files, visible);
    PartialCandidates(files, visible, keep, portraitUnstatted, now);
    RestrictDistinct(files, EvictablePaths(files, keep, false, now));
    SortRestrict(Candidates(files, keep, false, now), offered);
    SortCorrect(Candidates(files, keep, false, now));
    forall g | g in ws ensures g in files { CandidatesMember(files, keep, false, now, g); }
    PartialLoop(ws, offered, Bytes(Restrict(files, visible)), Bytes(files), LowWater(capBytes), fate, f);
  }

  /** What the design argues for stepping over what a pass cannot see: with every portrait at the top in
      view, a pass over any part of the cache evicts only what a whole pass would. */
  lemma PartialPassSound(files: seq<CacheFile>, visible: set<string>, keep: Keep, capBytes: int, now: int,
                         fate: string -> Fate, f: CacheFile)
    requires DistinctPaths(files) && NoCancel(files, fate) && !HidesSomePortrait(files, visible)
    requires f in Pass(Restrict(files, visible), keep, false, capBytes, now, fate).evicted
    ensures f in Pass(files, keep, false, capBytes, now, fate).evicted
  {
    var offered := Offered(files, visible, false);
    var candidates := Candidates(files, keep, false, now);
    SortedHiddenBytes(candidates, offered);
    HiddenBytesMonotone(files, EvictablePaths(files, keep, false, now), offered);
    HiddenBytesAgree(files, offered, visible);
    AheadAtMostHidden(Sorted(files, keep, false, now), offered);
    PartialPassBound(files, visible, keep, false, capBytes, now, fate, f);
  }

  lemma {:induction false} HiddenBytesAgree(files: seq<CacheFile>, a: set<string>, b: set<string>)
    requires forall f :: f in files ==> (f.path in a <==> f.path in b)
    ensures HiddenBytes(files, a) == HiddenBytes(files, b)
  {
    if files == [] {
    } else {
      HiddenBytesAgree(files[1..], a, b);
    }
  }

  lemma {:induction false} InsertHiddenBytes(f: CacheFile, sorted: seq<CacheFile>, paths: set<string>)
    ensures HiddenBytes(Insert(f, sorted), paths) == HiddenBytes([f], paths) + HiddenBytes(sorted, paths)
  {
    if sorted == [] || Older(f, sorted[0]) {
      assert ([f] + sorted)[1..] == sorted;
    } else {
      InsertHiddenBytes(f, sorted[1..], paths);
      assert ([sorted[0]] + Insert(f, sorted[1..]))[1..] == Insert(f, sorted[1..]);
    }
  }

  lemma {:induction false} SortedHiddenBytes(files: seq<CacheFile>, paths: set<string>)
    ensures HiddenBytes(SortOldestFirst(files), paths) == HiddenBytes(files, paths)
  {
    if files == [] {
    } else {
      SortedHiddenBytes(files[1..], paths);
      InsertHiddenBytes(files[0], SortOldestFirst(files[1..]), paths);
    }
  }

  /** The partial pass also frees no more: what it evicts is among what the whole pass evicts. */
  lemma PartialPassFreesNoMore(files: seq<CacheFile>, visible: set<string>, keep: Keep, capBytes: int, now: int,
                               fate: string -> Fate)
    requires DistinctPaths(files) && NoCancel(files, fate) && !HidesSomePortrait(files, visible)
    ensures Bytes(Pass(Restrict(files, visible), keep, false, capBytes, now, fate).evicted)
            <= Bytes(Pass(files, keep, false, capBytes, now, fate).evicted)
  {
    var part, whole := Pass(Restrict(files, visible), keep, false, capBytes, now, fate).evicted,
                       Pass(files, keep, false, capBytes, now, fate).evicted;
    forall f | f in part ensures f in whole {
      PartialPassSound(files, visible, keep, capBytes, now, fate, f);
    }
    RestrictDistinct(files, visible);
    EvictedDistinct(Restrict(files, visible), keep, capBytes, now, fate);
    SubsetBytes(part, whole);
  }

  lemma {:induction false} MetDistinct(files: seq<CacheFile>, fate: string -> Fate, end: Fate)
    requires DistinctPaths(files)
    ensures DistinctPaths(Met(files, fate, end))
  {
    if files == [] {
    } else {
      MetDistinct(files[1..], fate, end);
      forall f | f in Met(files[1..], fate, end)
        ensures f.path != files[0].path
      {
        MetMember(files[1..], fate, end, f);
      }
    }
  }

  lemma EvictedDistinct(files: seq<CacheFile>, keep: Keep, capBytes: int, now: int, fate: string -> Fate)
    requires DistinctPaths(files)
    ensures DistinctPaths(Pass(files, keep, false, capBytes, now, fate).evicted)
  {
    var candidates := Candidates(files, keep, false, now);
    RestrictDistinct(files, EvictablePaths(files, keep, false, now));
    SortCorrect(candidates);
    var sorted := SortOldestFirst(candidates);
    forall i, j | 0 <= i < j < |sorted| ensures sorted[i].path != sorted[j].path {
      OlderIrreflexive(sorted[i], sorted[j]);
      if sorted[i].path == sorted[j].path { PathIsFile(candidates, sorted[i], sorted[j]); }
    }
    EvictShortestPrefix(sorted, Bytes(files), LowWater(capBytes), fate);
    MetDistinct(sorted[..Reached(sorted, Bytes(files), LowWater(capBytes), fate)], fate, Removed);
  }

  lemma {:induction false} SubsetBytes(part: seq<CacheFile>, whole: seq<CacheFile>)
    requires DistinctPaths(part)
    requires forall f :: f in part ==> f in whole
    ensures Bytes(part) <= Bytes(whole)
  {
    if part == [] {
    } else {
      assert part[0] in whole;
      var i :| 0 <= i < |whole| && whole[i] == part[0];
      var rest := whole[..i] + whole[i + 1..];
      BytesAppend(whole[..i], whole[i..]);
      BytesAppend(whole[..i], whole[i + 1..]);
      assert whole == whole[..i] + whole[i..];
      assert whole[i..][1..] == whole[i + 1..];
      forall f | f in part[1..] ensures f in rest {
        assert f in part && f in whole && f != part[0];
        var k :| 0 <= k < |whole| && whole[k] == f;
        assert f in whole[..i] || f in whole[i + 1..];
      }
      SubsetBytes(part[1..], rest);
    }
  }
}
