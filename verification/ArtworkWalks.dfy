/** Two walks of one cache: one that sees all of it, and one that does not. */
module ArtworkWalks {
  import opened ArtworkNames
  import opened ArtworkOrder
  import opened ArtworkPortraits
  import opened ArtworkCap
  import opened ArtworkCapLaws
  import opened ArtworkCapLimits
  import opened ArtworkSamples

  function Last<T>(s: seq<T>): T
    requires s != []
  {
    s[|s| - 1]
  }

  function Front<T>(s: seq<T>): seq<T>
    requires s != []
  {
    s[..|s| - 1]
  }

  /** Nothing is hidden from the walk. */
  predicate SeesAll(whole: seq<Visit>) { forall v :: v in whole ==> v.File? && !v.stat.Unreadable? }

  /** A file of the whole walk as the partial one meets it: as it is, or without its size and time. */
  predicate Meets(p: Visit, w: Visit) { p == w || (w.File? && w.stat.Statted? && p == w.(stat := Unreadable)) }

  /** `part` walks the cache `whole` walks: it meets directories it cannot list, meets none of the files below
      those, and cannot read the size of some files it meets. The walk root itself it lists. */
  predicate PartOf(part: seq<Visit>, whole: seq<Visit>)
    decreases |part| + |whole|
  {
    if part != [] && Last(part).UnlistedDir? then PartOf(Front(part), whole)
    else if whole == [] then part == []
    else
      || (Last(whole).File? && Last(whole).place.dirs != [] && PartOf(part, Front(whole)))
      || (part != [] && Meets(Last(part), Last(whole)) && PartOf(Front(part), Front(whole)))
  }

  function Visible(part: seq<Visit>): set<string> { set f | f in Counted(part) :: f.path }

  lemma DistinctFront(files: seq<CacheFile>, f: CacheFile)
    requires DistinctPaths(files + [f])
    ensures DistinctPaths(files) && forall g :: g in files ==> g.path != f.path
  {
    var all := files + [f];
    forall i, j | 0 <= i < j < |files| ensures files[i].path != files[j].path {
      assert all[i] == files[i] && all[j] == files[j];
    }
    forall g | g in files ensures g.path != f.path {
      var i :| 0 <= i < |files| && files[i] == g;
      assert all[i] == g && all[|files|] == f;
    }
  }

  /** One more file of the cache that the partial walk does not count. */
  lemma HiddenFile(files: seq<CacheFile>, f: CacheFile, visible: set<string>)
    requires f.path !in visible
    ensures Restrict(files + [f], visible) == Restrict(files, visible)
    ensures HidesSomePortrait(files + [f], visible) <==> HidesSomePortrait(files, visible) || f.kind.Portrait?
  {
    RestrictAppend(files, [f], visible);
    assert Restrict([f], visible) == [] && Restrict(files, visible) + [] == Restrict(files, visible);
    assert forall g :: g in files + [f] <==> g in files || g == f;
  }

  /** One more file that it does. */
  lemma SeenFile(files: seq<CacheFile>, f: CacheFile, visible: set<string>)
    requires forall g :: g in files ==> g.path != f.path
    ensures Restrict(files + [f], visible + {f.path}) == Restrict(files, visible) + [f]
    ensures HidesSomePortrait(files + [f], visible + {f.path}) <==> HidesSomePortrait(files, visible)
  {
    var more := visible + {f.path};
    RestrictAppend(files, [f], more);
    RestrictAgree(files, visible, more);
    assert Restrict([f], more) == [f];
    assert forall g :: g in files + [f] <==> g in files || g == f;
    if HidesSomePortrait(files, visible) {
      var g :| g in files && g.path !in visible && g.kind.Portrait?;
      assert g in files + [f] && g.path !in more;
    }
  }

  /** What ties the two walks: the partial one counts the files of the whole one whose paths it sees, and its
      flag is set exactly when one it does not see is a portrait at the top. */
  ghost predicate Tied(part: seq<Visit>, whole: seq<Visit>) {
    && Counted(part) == Restrict(Counted(whole), Visible(part))
    && (PortraitHidden(part) <==> HidesSomePortrait(Counted(whole), Visible(part)))
  }

  lemma {:induction false} PartialWalk(part: seq<Visit>, whole: seq<Visit>)
    requires PartOf(part, whole) && SeesAll(whole) && DistinctPaths(Counted(whole))
    ensures Tied(part, whole)
    decreases |part| + |whole|
  {
    match PartCase(part, whole) {
      case AtEnd =>
        assert Counted(whole) == [] && Counted(part) == [];
      case Unlisted =>
        PartialWalk(Front(part), whole);
        UnlistedDirMet(Front(part), Last(part), whole);
        assert part == Front(part) + [Last(part)];
      case Below =>
        assert whole == Front(whole) + [Last(whole)];
        RestDistinct(Front(whole), Last(whole));
        PartialWalk(part, Front(whole));
        BelowTop(part, Front(whole), Last(whole));
      case Met =>
        assert part == Front(part) + [Last(part)] && whole == Front(whole) + [Last(whole)];
        RestDistinct(Front(whole), Last(whole));
        PartialWalk(Front(part), Front(whole));
        MetFile(Front(part), Last(part), Front(whole), Last(whole));
    }
  }

  /** How the two walks end. */
  datatype Ending = AtEnd | Unlisted | Below | Met

  ghost function PartCase(part: seq<Visit>, whole: seq<Visit>): (e: Ending)
    requires PartOf(part, whole)
    ensures e.AtEnd? ==> part == [] && whole == []
    ensures e.Unlisted? ==> part != [] && Last(part).UnlistedDir? && PartOf(Front(part), whole)
    ensures e.Below? ==>
              whole != [] && Last(whole).File? && Last(whole).place.dirs != [] && PartOf(part, Front(whole))
    ensures e.Met? ==>
              part != [] && whole != [] && Meets(Last(part), Last(whole)) && PartOf(Front(part), Front(whole))
  {
    if part != [] && Last(part).UnlistedDir? then Unlisted
    else if whole == [] then AtEnd
    else if Last(whole).File? && Last(whole).place.dirs != [] && PartOf(part, Front(whole)) then Below
    else Met
  }

  lemma UnlistedDirMet(front: seq<Visit>, d: Visit, whole: seq<Visit>)
    requires Tied(front, whole) && d.UnlistedDir?
    ensures Tied(front + [d], whole)
  {
    WalkStep(front, d);
  }

  lemma RestDistinct(rest: seq<Visit>, w: Visit)
    requires DistinctPaths(Counted(rest + [w]))
    ensures DistinctPaths(Counted(rest))
    ensures IsCacheFile(w) && w.stat.Statted? ==> forall g :: g in Counted(rest) ==> g.path != w.path
  {
    WalkStep(rest, w);
    if IsCacheFile(w) && w.stat.Statted? { DistinctFront(Counted(rest), FileAt(w)); }
  }

  lemma WalkStep(visits: seq<Visit>, v: Visit)
    ensures Counted(visits + [v])
            == if IsCacheFile(v) && v.stat.Statted? then Counted(visits) + [FileAt(v)] else Counted(visits)
    ensures PortraitHidden(visits + [v]) <==> PortraitHidden(visits) || HidesPortrait(v)
  {
    assert (visits + [v])[..|visits|] == visits;
    assert Counted(visits) + [] == Counted(visits);
  }

  lemma VisibleIsCounted(part: seq<Visit>, files: seq<CacheFile>)
    requires Counted(part) == Restrict(files, Visible(part))
    ensures forall p :: p in Visible(part) ==> exists f :: f in files && f.path == p
  {
    forall p | p in Visible(part) ensures exists f :: f in files && f.path == p {
      var f :| f in Counted(part) && f.path == p;
      RestrictMember(files, Visible(part), f);
    }
  }

  /** A file in a directory the partial walk did not list: no portrait, being below the top. */
  lemma BelowTop(part: seq<Visit>, rest: seq<Visit>, w: Visit)
    requires Tied(part, rest) && w.File? && !w.stat.Unreadable? && w.place.dirs != []
    requires IsCacheFile(w) && w.stat.Statted? ==> forall g :: g in Counted(rest) ==> g.path != w.path
    ensures Tied(part, rest + [w])
  {
    WalkStep(rest, w);
    if IsCacheFile(w) && w.stat.Statted? {
      VisibleIsCounted(part, Counted(rest));
      KindReadBack(w.place, w.canBePortrait);
      HiddenFile(Counted(rest), FileAt(w), Visible(part));
    }
  }

  /** A file both walks count. */
  lemma MetCounted(front: seq<Visit>, rest: seq<Visit>, w: Visit)
    requires Tied(front, rest) && IsCacheFile(w) && w.stat.Statted?
    requires forall g :: g in Counted(rest) ==> g.path != w.path
    ensures Tied(front + [w], rest + [w])
  {
    WalkStep(rest, w);
    WalkStep(front, w);
    SeenFile(Counted(rest), FileAt(w), Visible(front));
    VisibleStep(front, w);
  }

  lemma VisibleStep(front: seq<Visit>, w: Visit)
    requires IsCacheFile(w) && w.stat.Statted?
    ensures Visible(front + [w]) == Visible(front) + {w.path}
  {
    WalkStep(front, w);
    assert forall f :: f in Counted(front) + [FileAt(w)] <==> f in Counted(front) || f == FileAt(w);
  }

  /** A file the partial walk meets and does not count. */
  lemma MetUncounted(front: seq<Visit>, p: Visit, rest: seq<Visit>, w: Visit)
    requires Tied(front, rest) && Meets(p, w) && w.File? && !w.stat.Unreadable?
    requires !(IsCacheFile(p) && p.stat.Statted?)
    requires IsCacheFile(w) && w.stat.Statted? ==> forall g :: g in Counted(rest) ==> g.path != w.path
    ensures Tied(front + [p], rest + [w])
  {
    WalkStep(rest, w);
    WalkStep(front, p);
    assert Visible(front + [p]) == Visible(front);
    if IsCacheFile(w) && w.stat.Statted? {
      VisibleIsCounted(front, Counted(rest));
      HiddenFile(Counted(rest), FileAt(w), Visible(front));
    }
  }

  lemma MetFile(front: seq<Visit>, p: Visit, rest: seq<Visit>, w: Visit)
    requires Tied(front, rest) && Meets(p, w) && w.File? && !w.stat.Unreadable?
    requires IsCacheFile(w) && w.stat.Statted? ==> forall g :: g in Counted(rest) ==> g.path != w.path
    ensures Tied(front + [p], rest + [w])
  {
    if IsCacheFile(p) && p.stat.Statted? {
      MetCounted(front, rest, w);
    } else {
      MetUncounted(front, p, rest, w);
    }
  }

  // ----- the inclusion -----

  /** Every file the pass over part of the cache evicts, the pass over all of it evicts. */
  ghost predicate Included(part: seq<Visit>, whole: seq<Visit>, keep: Keep, capBytes: int, now: int,
                           fate: string -> Fate) {
    forall f :: f in Pass(Counted(part), keep, PortraitHidden(part), capBytes, now, fate).evicted
                ==> f in Pass(Counted(whole), keep, false, capBytes, now, fate).evicted
  }

  /** Two walks of one cache, where each path is met once and the links report one size. */
  ghost predicate TwoWalks(part: seq<Visit>, whole: seq<Visit>) {
    PartOf(part, whole) && SeesAll(whole) && DistinctPaths(Counted(whole)) && LinksAgree(Counted(whole))
  }

  lemma IncludedUnlessHidden(part: seq<Visit>, whole: seq<Visit>, keep: Keep, capBytes: int, now: int,
                             fate: string -> Fate)
    requires TwoWalks(part, whole) && NoCancel(Counted(whole), fate) && !PortraitHidden(part)
    ensures Included(part, whole, keep, capBytes, now, fate)
  {
    PartialWalk(part, whole);
    forall f | f in Pass(Counted(part), keep, false, capBytes, now, fate).evicted
      ensures f in Pass(Counted(whole), keep, false, capBytes, now, fate).evicted
    {
      PartialPassSound(Counted(whole), Visible(part), keep, capBytes, now, fate, f);
    }
  }

  /** One cache, one partial walk of it, hidden portraits or none: its passes evict only what the whole walk's do, at
      every cap, exactly when the bound holds at every candidate they offer. */
  lemma IncludedExactly(part: seq<Visit>, whole: seq<Visit>, keep: Keep, now: int)
    requires TwoWalks(part, whole)
    ensures (forall capBytes :: capBytes > 0 ==> Included(part, whole, keep, capBytes, now, ALL_REMOVED))
            <==> Bound(Sorted(Counted(whole), keep, false, now),
                       Offered(Counted(whole), Visible(part), PortraitHidden(part)),
                       Bytes(Counted(part)), Bytes(Counted(whole)))
  {
    var files, visible, hidden := Counted(whole), Visible(part), PortraitHidden(part);
    PartialWalk(part, whole);
    PartialPassExact(files, visible, keep, hidden, now);
    forall capBytes
      ensures Included(part, whole, keep, capBytes, now, ALL_REMOVED)
              <==> PassIncluded(files, visible, keep, hidden, capBytes, now)
    {
    }
  }

  // ----- a hidden portrait -----

  const OLD_CANONICAL := TopFile(CanonicalName(HashOf('0')), Statted(50, 0, 1))
  const NEWER_COVER := TopFile(CoverName("x"), Statted(60, 1, 2))
  const PORTRAIT := TopFile(PortraitName(SAMPLE_MBID), Statted(1, 2, 3))
  const WHOLE_WALK := [OLD_CANONICAL, NEWER_COVER, PORTRAIT]
  const UNREAD_PORTRAIT := TopFile(PortraitName(SAMPLE_MBID), Unreadable)
  const PART_WALK := [OLD_CANONICAL, NEWER_COVER, UNREAD_PORTRAIT]
  const ONE_ARTIST := Store({}, {SAMPLE_MBID})

  lemma CountThree(a: Visit, b: Visit, c: Visit)
    requires IsCacheFile(a) && a.stat.Statted? && IsCacheFile(b) && b.stat.Statted? && IsCacheFile(c)
    ensures Counted([a, b, c]) == if c.stat.Statted? then [FileAt(a), FileAt(b), FileAt(c)] else [FileAt(a), FileAt(b)]
    ensures PortraitHidden([a, b, c]) <==> HidesPortrait(c)
  {
    WalkStep([], a);
    WalkStep([a], b);
    WalkStep([a, b], c);
    assert [] + [a] == [a] && [a] + [b] == [a, b] && [a, b] + [c] == [a, b, c];
  }

  lemma SampleFiles()
    ensures Counted(WHOLE_WALK) == [FileAt(OLD_CANONICAL), FileAt(NEWER_COVER), FileAt(PORTRAIT)]
    ensures Counted(PART_WALK) == [FileAt(OLD_CANONICAL), FileAt(NEWER_COVER)] && PortraitHidden(PART_WALK)
    ensures FileAt(OLD_CANONICAL).kind == Portrait("") && FileAt(NEWER_COVER).kind == Cover("x")
    ensures FileAt(PORTRAIT).kind == Portrait(SAMPLE_MBID)
  {
    CanonicalSample(Statted(50, 0, 1));
    CoverSample(Statted(60, 1, 2));
    PortraitSample(SAMPLE_MBID, Statted(1, 2, 3));
    PortraitSample(SAMPLE_MBID, Unreadable);
    CountThree(OLD_CANONICAL, NEWER_COVER, PORTRAIT);
    CountThree(OLD_CANONICAL, NEWER_COVER, UNREAD_PORTRAIT);
  }

  lemma SamplePaths()
    ensures |OLD_CANONICAL.path| == 81 && |NEWER_COVER.path| == 10 && |PORTRAIT.path| == 48
  {
  }

  lemma SamplePartOf()
    ensures PartOf(PART_WALK, WHOLE_WALK)
  {
    var two := [OLD_CANONICAL, NEWER_COVER];
    assert PartOf([], []);
    assert Front([OLD_CANONICAL]) == [] && PartOf([OLD_CANONICAL], [OLD_CANONICAL]);
    assert Front(two) == [OLD_CANONICAL] && PartOf(two, two);
    assert Front(PART_WALK) == two && Front(WHOLE_WALK) == two;
  }

  lemma SampleWalks()
    ensures TwoWalks(PART_WALK, WHOLE_WALK)
  {
    SampleFiles();
    SamplePaths();
    SamplePartOf();
  }

  lemma SampleKeep()
    ensures "x" !in KeepOf(ONE_ARTIST).known && SAMPLE_MBID in KeepOf(ONE_ARTIST).artists && SAMPLE_MBID != ""
  {
    forall id ensures ArtistThumbKey(id) != "x" { assert |ArtistThumbKey(id)| == |"artist-"| + |id|; }
    assert |ToLower(SAMPLE_MBID)| == 36 == |SAMPLE_MBID|;
    forall i | 0 <= i < 36 ensures ToLower(SAMPLE_MBID)[i] == SAMPLE_MBID[i] {}
    assert ToLower(SAMPLE_MBID) == SAMPLE_MBID;
    assert SAMPLE_MBID in ONE_ARTIST.artistIds;
  }

  /** Three files as the counterexample needs them: an unlinked canonical, a newer cover no row names, and the
      portrait of an artist a row names. */
  ghost predicate Three(a: CacheFile, b: CacheFile, c: CacheFile, keep: Keep) {
    && a.kind == Portrait("") && a.size == 50 && a.mod == 0
    && b.kind.Cover? && b.kind.stem !in keep.known && b.size == 60 && b.mod == 1
    && c.kind.Portrait? && c.kind.mbid != "" && c.kind.mbid in keep.artists && c.size == 1 && c.mod == 2
    && DistinctPaths([a, b, c]) && !SameFile(a, c)
  }

  lemma BytesOne(f: CacheFile)
    ensures Bytes([f]) == f.size
  {
    assert [f][1..] == [];
  }

  lemma ThreeShape(a: CacheFile, b: CacheFile, c: CacheFile, keep: Keep)
    requires Three(a, b, c, keep)
    ensures a.path != b.path && b.path != c.path && a.path != c.path
    ensures Bytes([a, b]) == 110 && Bytes([a, b, c]) == 111
    ensures SortOldestFirst([b]) == [b] && SortOldestFirst([a, b]) == [a, b]
  {
    var all := [a, b, c];
    assert all[0].path != all[1].path && all[1].path != all[2].path && all[0].path != all[2].path;
    BytesOne(a);
    BytesOne(b);
    BytesOne(c);
    BytesAppend([a], [b]);
    BytesAppend([a, b], [c]);
    assert [a] + [b] == [a, b];
    assert [a, b] + [c] == [a, b, c];
    assert [b][1..] == [] && [a, b][1..] == [b];
    assert SortOldestFirst([b]) == [b];
  }

  lemma ThreePartial(a: CacheFile, b: CacheFile, c: CacheFile, keep: Keep)
    requires Three(a, b, c, keep)
    ensures Pass([a, b], keep, true, 100, MUCH_LATER, ALL_REMOVED).evicted == [b]
  {
    ThreeShape(a, b, c, keep);
    var view := [a, b];
    var goes := EvictablePaths(view, keep, true, MUCH_LATER);
    assert a in view && b in view && MayEvict(b, view, keep, true, MUCH_LATER);
    assert b.path in goes && a.path !in goes;
    assert view[1..] == [b] && Restrict([b], goes) == [b];
    assert Candidates(view, keep, true, MUCH_LATER) == [b];
    assert Evict([b], 110, 90, ALL_REMOVED) == Run([b], 50, false);
  }

  lemma ThreeWhole(a: CacheFile, b: CacheFile, c: CacheFile, keep: Keep)
    requires Three(a, b, c, keep)
    ensures Pass([a, b, c], keep, false, 100, MUCH_LATER, ALL_REMOVED).evicted == [a]
  {
    ThreeShape(a, b, c, keep);
    var all := [a, b, c];
    var goes := EvictablePaths(all, keep, false, MUCH_LATER);
    assert all[0] == a && all[1] == b && all[2] == c;
    assert a in all && b in all && c in all;
    forall k | k in all && IsMbidPortrait(k) ensures !SameFile(a, k) { assert k == a || k == b || k == c; }
    assert !KeptCanonical(a, all, keep.artists, MUCH_LATER);
    assert MayEvict(a, all, keep, false, MUCH_LATER) && MayEvict(b, all, keep, false, MUCH_LATER);
    assert !MayEvict(c, all, keep, false, MUCH_LATER);
    assert a.path in goes && b.path in goes && c.path !in goes;
    assert all[1..] == [b, c] && [b, c][1..] == [c];
    assert Restrict([c], goes) == [];
    assert Restrict([b, c], goes) == [b] + Restrict([c], goes);
    assert Restrict(all, goes) == [a] + Restrict(all[1..], goes);
    assert Candidates(all, keep, false, MUCH_LATER) == [a, b];
    assert [a, b][1..] == [b];
    assert Evict([b], 61, 90, ALL_REMOVED) == Run([], 61, false);
    assert Evict([a, b], 111, 90, ALL_REMOVED) == Run([a], 61, false);
  }

  /** With a portrait it cannot read, a partial pass over a cap of 100 withholds an unlinked canonical of 50
      bytes and takes a newer cover of 60, which the whole pass keeps. */
  lemma HiddenPortraitBreaksInclusion()
    ensures TwoWalks(PART_WALK, WHOLE_WALK) && PortraitHidden(PART_WALK)
    ensures Pass(Counted(PART_WALK), KeepOf(ONE_ARTIST), true, 100, MUCH_LATER, ALL_REMOVED).evicted
            == [FileAt(NEWER_COVER)]
    ensures Pass(Counted(WHOLE_WALK), KeepOf(ONE_ARTIST), false, 100, MUCH_LATER, ALL_REMOVED).evicted
            == [FileAt(OLD_CANONICAL)]
    ensures !Included(PART_WALK, WHOLE_WALK, KeepOf(ONE_ARTIST), 100, MUCH_LATER, ALL_REMOVED)
  {
    SampleFiles();
    SampleWalks();
    var a, b, c, keep := FileAt(OLD_CANONICAL), FileAt(NEWER_COVER), FileAt(PORTRAIT), KeepOf(ONE_ARTIST);
    SampleKeep();
    ThreePartial(a, b, c, keep);
    ThreeWhole(a, b, c, keep);
    assert b in [b] && b !in [a];
  }

  /** The walk's own flag is exactly the condition: over every cache, every partial walk of it, keep set, cap and
      outcome of the removals, the inclusion holds while the flag is not set, and only then. */
  lemma InclusionHoldsIffNoPortraitHidden(hidden: bool)
    ensures (forall part, whole, store, capBytes, now, fate ::
               TwoWalks(part, whole) && NoCancel(Counted(whole), fate) && PortraitHidden(part) == hidden
               ==> Included(part, whole, KeepOf(store), capBytes, now, fate))
            <==> !hidden
  {
    if hidden {
      HiddenPortraitBreaksInclusion();
      assert NoCancel(Counted(WHOLE_WALK), ALL_REMOVED);
    } else {
      forall part, whole, store, capBytes, now, fate |
        TwoWalks(part, whole) && NoCancel(Counted(whole), fate) && PortraitHidden(part) == hidden
        ensures Included(part, whole, KeepOf(store), capBytes, now, fate)
      {
        IncludedUnlessHidden(part, whole, KeepOf(store), capBytes, now, fate);
      }
    }
  }
}
