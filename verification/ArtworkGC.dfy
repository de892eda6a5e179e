/** `bridge artwork --gc`: what it decides to remove, and how the size cap stays within it. */
module ArtworkGC {
  import opened Basics
  import opened ArtworkNames
  import opened ArtworkOrder
  import opened ArtworkPortraits
  import opened ArtworkCap
  import opened ArtworkCapLaws
  import opened ArtworkSamples

  predicate IsOrphanCover(v: Visit, known: set<string>) {
    v.File? && CacheStem(v.place.base).Some? && CacheStem(v.place.base).value !in known
  }

  function OrphanCovers(visits: seq<Visit>, known: set<string>): seq<string> {
    if visits == [] then []
    else
      var v := visits[|visits| - 1];
      OrphanCovers(visits[..|visits| - 1], known)
      + if IsOrphanCover(v, known) && !IsTopLevelPortrait(v.place) then [v.path] else []
  }

  /** How many files the cover walk decides about: all but the portraits at the top. */
  function CoverWalkFiles(visits: seq<Visit>): nat {
    if visits == [] then 0
    else
      var v := visits[|visits| - 1];
      CoverWalkFiles(visits[..|visits| - 1]) + if v.File? && !IsTopLevelPortrait(v.place) then 1 else 0
  }

  /** The cover walk decides exactly the covers whose key no one needs: never one whose key is in use. */
  lemma {:induction false} OrphanCoversExactly(visits: seq<Visit>, known: set<string>, path: string)
    ensures path in OrphanCovers(visits, known) <==>
            exists v :: v in visits && v.File? && v.path == path && !IsTopLevelPortrait(v.place)
                        && CacheStem(v.place.base).Some? && CacheStem(v.place.base).value !in known
  {
    if visits == [] {
    } else {
      OrphanCoversExactly(visits[..|visits| - 1], known, path);
      assert visits == visits[..|visits| - 1] + [visits[|visits| - 1]];
    }
  }

  function InUse(known: set<string>): Visit -> bool {
    (v: Visit) => v.File? && CacheStem(v.place.base).Some? && CacheStem(v.place.base).value in known
  }

  const NO_COVER: Visit -> bool := (v: Visit) =>
      v.File? && !IsTopLevelPortrait(v.place) && CacheStem(v.place.base).None?

  /** A removal the system refused. */
  function Refused(fate: string -> Fate): string -> bool { (p: string) => !fate(p).Removed? }

  method CacheHasOrphans(visits: seq<Visit>, known: set<string>) returns (found: bool)
    ensures found <==> exists v :: v in visits && IsOrphanCover(v, known)
  {
    for i := 0 to |visits|
      invariant forall v :: v in visits[..i] ==> !IsOrphanCover(v, known)
    {
      if IsOrphanCover(visits[i], known) { return true; }
      assert visits[..i + 1] == visits[..i] + [visits[i]];
    }
    assert visits[..|visits|] == visits;
    return false;
  }

  datatype Tally = Tally(removed: nat, kept: nat, failed: nat, skipped: nat)

  /** The cover walk. In a dry run nothing is removed and every decision counts as removed. */
  method CollectCovers(visits: seq<Visit>, known: set<string>, dryRun: bool, fate: string -> Fate)
    returns (decided: seq<string>, tally: Tally)
    ensures decided == OrphanCovers(visits, known)
    ensures tally.removed + tally.failed == |decided|
    ensures tally.failed == 0 <==> dryRun || forall p :: p in decided ==> fate(p).Removed?
    ensures tally.removed + tally.failed + tally.kept + tally.skipped == CoverWalkFiles(visits)
    ensures tally.kept == HowMany(visits, InUse(known)) && tally.skipped == HowMany(visits, NO_COVER)
    ensures tally.failed == if dryRun then 0 else HowMany(decided, Refused(fate))
  {
    decided, tally := [], Tally(0, 0, 0, 0);
    for i := 0 to |visits|
      invariant decided == OrphanCovers(visits[..i], known)
      invariant tally.removed + tally.failed == |decided|
      invariant tally.failed == 0 <==> dryRun || forall p :: p in decided ==> fate(p).Removed?
      invariant tally.removed + tally.failed + tally.kept + tally.skipped == CoverWalkFiles(visits[..i])
      invariant tally.kept == HowMany(visits[..i], InUse(known)) && tally.skipped == HowMany(visits[..i], NO_COVER)
      invariant tally.failed == if dryRun then 0 else HowMany(decided, Refused(fate))
    {
      var v := visits[i];
      assert visits[..i + 1][..i] == visits[..i];
      if v.File? && IsTopLevelPortrait(v.place) { PortraitIsNoCover(v.place); }
      if v.UnlistedDir? || IsTopLevelPortrait(v.place) { continue; }
      var stem := CacheStem(v.place.base);
      if stem.None? {
        tally := tally.(skipped := tally.skipped + 1);
      } else if stem.value in known {
        tally := tally.(kept := tally.kept + 1);
      } else {
        HowManyStep(decided, v.path, Refused(fate));
        decided := decided + [v.path];
        tally := if dryRun || fate(v.path).Removed? then tally.(removed := tally.removed + 1)
          else tally.(failed := tally.failed + 1);
      }
    }
    assert visits[..|visits|] == visits;
  }

  function PortraitsOf(visits: seq<Visit>, canonical: bool): seq<CacheFile> {
    if visits == [] then []
    else
      var v := visits[|visits| - 1];
      PortraitsOf(visits[..|visits| - 1], canonical)
      + if IsPortraitEntry(v) && v.stat.Statted? && IsPortraitCanonical(v.place.base) == canonical
        then [FileAt(v)] else []
  }

  /** An entry the portrait listing takes: at the top, of a type and a name a portrait has. */
  predicate IsPortraitEntry(v: Visit) { v.File? && v.canBePortrait && IsTopLevelPortrait(v.place) }

  /** None when some portrait cannot be read, which ends the pass. */
  method ListPortraits(visits: seq<Visit>) returns (r: Option<(seq<CacheFile>, seq<CacheFile>)>)
    ensures r.None? <==> PortraitHidden(visits)
    ensures r.Some? ==> r.value == (PortraitsOf(visits, false), PortraitsOf(visits, true))
  {
    var byMbid: seq<CacheFile>, canonical: seq<CacheFile> := [], [];
    PortraitHiddenMeaning(visits);
    for i := 0 to |visits|
      invariant byMbid == PortraitsOf(visits[..i], false) && canonical == PortraitsOf(visits[..i], true)
      invariant !PortraitHidden(visits[..i])
    {
      var v := visits[i];
      assert visits[..i + 1][..i] == visits[..i];
      if v.File? {
        KindReadBack(v.place, v.canBePortrait);
        if v.canBePortrait && IsTopLevelPortrait(v.place) {
          PortraitIsJpg(v.place);
          if v.stat.Unreadable? {
            assert HidesPortrait(v);
            return None;
          }
          if v.stat.Statted? {
            if IsPortraitCanonical(v.place.base) {
              canonical := canonical + [FileAt(v)];
            } else {
              byMbid := byMbid + [FileAt(v)];
            }
          }
        }
      }
    }
    assert visits[..|visits|] == visits;
    return Some((byMbid, canonical));
  }

  lemma PortraitIsJpg(p: Place)
    requires IsTopLevelPortrait(p)
    ensures HasSuffix(p.base, JPG)
  {
  }

  /** What the portrait pass decides to remove: nothing when it cannot read a portrait, nor when no row
      names an artist and the operator did not say that is right. */
  function PortraitDecisions(visits: seq<Visit>, artists: set<string>, allowEmpty: bool, now: int): seq<CacheFile> {
    if PortraitHidden(visits) || (artists == {} && !allowEmpty) then []
    else Verdicts(PortraitsOf(visits, false), PortraitsOf(visits, true), artists, now)
  }

  /** A portrait another remover got to first is neither removed nor failed. */
  predicate Spared(f: CacheFile, dryRun: bool,
                   fate: string -> Fate) { dryRun || fate(f.path).Removed? || fate(f.path).Gone? }

  function Went(dryRun: bool, fate: string -> Fate): CacheFile -> bool {
    (f: CacheFile) => dryRun || fate(f.path).Removed?
  }

  function NotSpared(dryRun: bool, fate: string -> Fate): CacheFile -> bool {
    (f: CacheFile) => !Spared(f, dryRun, fate)
  }

  method RemovePortraits(decided: seq<CacheFile>, dryRun: bool, fate: string -> Fate)
    returns (removed: nat, failed: nat)
    ensures removed + failed <= |decided|
    ensures removed == HowMany(decided, Went(dryRun, fate)) && failed == HowMany(decided, NotSpared(dryRun, fate))
    ensures failed == 0 <==> forall f :: f in decided ==> Spared(f, dryRun, fate)
  {
    removed, failed := 0, 0;
    for i := 0 to |decided|
      invariant removed + failed <= i
      invariant removed == HowMany(decided[..i], Went(dryRun, fate))
      invariant failed == HowMany(decided[..i], NotSpared(dryRun, fate))
      invariant failed == 0 <==> forall j :: 0 <= j < i ==> Spared(decided[j], dryRun, fate)
    {
      assert decided[..i + 1][..i] == decided[..i];
      if dryRun || fate(decided[i].path).Removed? {
        removed := removed + 1;
      } else if !fate(decided[i].path).Gone? {
        failed := failed + 1;
      }
    }
    assert decided[..|decided|] == decided;
  }

  /** None is the listing's error. */
  method CollectPortraits(visits: seq<Visit>, artists: set<string>, allowEmpty: bool, dryRun: bool, now: int,
                          fate: string -> Fate)
    returns (tally: Option<Tally>, decided: seq<CacheFile>)
    requires LinksAgree(Counted(visits))
    ensures tally.None? <==> PortraitHidden(visits)
    ensures decided == PortraitDecisions(visits, artists, allowEmpty, now)
    ensures tally.Some? ==>
              && tally.value.removed == HowMany(decided, Went(dryRun, fate))
              && tally.value.failed == HowMany(decided, NotSpared(dryRun, fate))
              && tally.value.removed + tally.value.failed <= |decided|
              && tally.value.kept + |decided| == |PortraitsOf(visits, false)| + |PortraitsOf(visits, true)|
              && (tally.value.failed == 0 <==> forall f :: f in decided ==> Spared(f, dryRun, fate))
  {
    var listed := ListPortraits(visits);
    if listed.None? { return None, []; }
    var (byMbid, canonical) := listed.value;
    PortraitsAreCounted(visits);
    if |byMbid| + |canonical| == 0 { return Some(Tally(0, 0, 0, 0)), []; }
    if artists == {} && !allowEmpty { return Some(Tally(0, |byMbid| + |canonical|, 0, 0)), []; }
    var kept;
    decided, kept := PortraitVerdicts(byMbid, canonical, artists, now);
    var removed, failed := RemovePortraits(decided, dryRun, fate);
    tally := Some(Tally(removed, kept, failed, 0));
  }

  lemma {:induction false} CountedMember(visits: seq<Visit>, f: CacheFile)
    ensures f in Counted(visits) <==> exists v :: v in visits && IsCacheFile(v) && v.stat.Statted? && FileAt(v) == f
  {
    if visits == [] {
    } else {
      CountedMember(visits[..|visits| - 1], f);
      assert visits == visits[..|visits| - 1] + [visits[|visits| - 1]];
    }
  }

  /** The portrait listing reads the portraits the cap's walk counts, and tells the two kinds apart as the
      cap does. */
  lemma {:induction false} PortraitsOfMember(visits: seq<Visit>, canonical: bool, f: CacheFile)
    ensures f in PortraitsOf(visits, canonical) <==>
            f in Counted(visits) && f.kind.Portrait? && (IsCanonical(f) <==> canonical)
  {
    if visits == [] {
    } else {
      var v := visits[|visits| - 1];
      PortraitsOfMember(visits[..|visits| - 1], canonical, f);
      if v.File? {
        KindReadBack(v.place, v.canBePortrait);
        PortraitNamesAreApart(v.place.base);
      }
    }
  }

  lemma PortraitsAreCounted(visits: seq<Visit>)
    requires LinksAgree(Counted(visits))
    ensures forall p :: p in PortraitsOf(visits, false) ==> IsMbidPortrait(p)
    ensures LinksAgree(PortraitsOf(visits, false) + PortraitsOf(visits, true))
  {
    forall p ensures p in PortraitsOf(visits, false) ==> IsMbidPortrait(p) { PortraitsOfMember(visits, false, p); }
    forall p | p in PortraitsOf(visits, false) + PortraitsOf(visits, true) ensures p in Counted(visits) {
      PortraitsOfMember(visits, false, p);
      PortraitsOfMember(visits, true, p);
    }
  }

  // ----- the run -----

  predicate Refuses(visits: seq<Visit>, store: Store, allowEmpty: bool) {
    store.artworkKeys == {} && !allowEmpty && exists v :: v in visits && IsOrphanCover(v, KeepOf(store).known)
  }

  /** Every path a run decides to remove. */
  function GcDecides(visits: seq<Visit>, store: Store, allowEmpty: bool, now: int): set<string> {
    if Refuses(visits, store, allowEmpty) then {}
    else
      (set p | p in OrphanCovers(visits, KeepOf(store).known))
      + set f | f in PortraitDecisions(visits, KeepOf(store).artists, allowEmpty, now) :: f.path
  }

  method RunArtworkGC(visits: seq<Visit>, store: Store, dryRun: bool, allowEmpty: bool, now: int, fate: string -> Fate)
    returns (exit: int, decided: set<string>)
    requires LinksAgree(Counted(visits))
    ensures decided == GcDecides(visits, store, allowEmpty, now)
    ensures exit == 0 || exit == 1
    ensures exit == 0 <==>
            && !Refuses(visits, store, allowEmpty) && !PortraitHidden(visits)
            && (dryRun || forall p :: p in OrphanCovers(visits, KeepOf(store).known) ==> fate(p).Removed?)
            && forall f :: f in PortraitDecisions(visits, KeepOf(store).artists, allowEmpty, now) ==>
               Spared(f, dryRun, fate)
  {
    var keep := KeepOf(store);
    if store.artworkKeys == {} && !allowEmpty {
      var populated := CacheHasOrphans(visits, keep.known);
      if populated { return 1, {}; }
    }
    var covers, tally := CollectCovers(visits, keep.known, dryRun, fate);
    var portraits, gone := CollectPortraits(visits, keep.artists, allowEmpty, dryRun, now, fate);
    decided := (set p | p in covers) + set f | f in gone :: f.path;
    if portraits.None? { return 1, decided; }
    exit := if tally.failed + portraits.value.failed > 0 then 1 else 0;
  }

  // ----- the cap stays within the GC -----

  /** Every cover and portrait the cap evicts is one a GC on the same store and clock would remove. */
  ghost predicate CapWithinGc(visits: seq<Visit>, store: Store, allowEmpty: bool, capBytes: int, now: int,
                              fate: string -> Fate) {
    forall f | f in Pass(Counted(visits), KeepOf(store), PortraitHidden(visits), capBytes, now, fate).evicted ::
      f.kind.Cover? || f.kind.Portrait? ==> f.path in GcDecides(visits, store, allowEmpty, now)
  }

  /** While every portrait reads, and the store names artwork and artists (or the operator allows that it
      does not), the cap removes no cover and no portrait the GC would keep. */
  lemma CapStaysWithinGc(visits: seq<Visit>, store: Store, allowEmpty: bool, capBytes: int, now: int,
                         fate: string -> Fate)
    requires DistinctPaths(Counted(visits)) && !PortraitHidden(visits)
    requires allowEmpty || (store.artworkKeys != {} && store.artistIds != {})
    ensures CapWithinGc(visits, store, allowEmpty, capBytes, now, fate)
  {
    var files, keep := Counted(visits), KeepOf(store);
    forall f | f in Pass(files, keep, false, capBytes, now, fate).evicted && (f.kind.Cover? || f.kind.Portrait?)
      ensures f.path in GcDecides(visits, store, allowEmpty, now)
    {
      PassEvictsOnlyEvictable(files, keep, false, capBytes, now, fate, f);
      CountedMember(visits, f);
      if f.kind.Cover? {
        var v :| v in visits && IsCacheFile(v) && v.stat.Statted? && FileAt(v) == f;
        KindReadBack(v.place, v.canBePortrait);
        OrphanCoversExactly(visits, keep.known, v.path);
      } else {
        EvictedPortraitIsDecided(visits, keep.artists, now, f);
        if !allowEmpty {
          var id :| id in store.artistIds;
          assert ToLower(id) in keep.artists;
        }
      }
    }
  }

  lemma EvictedPortraitIsDecided(visits: seq<Visit>, artists: set<string>, now: int, f: CacheFile)
    requires f in Counted(visits) && Removable(f, Counted(visits), artists, false, now)
    ensures f in Verdicts(PortraitsOf(visits, false), PortraitsOf(visits, true), artists, now)
  {
    var byMbid, canonical := PortraitsOf(visits, false), PortraitsOf(visits, true);
    VerdictsMember(byMbid, canonical, artists, now, f);
    PortraitsOfMember(visits, false, f);
    PortraitsOfMember(visits, true, f);
    forall k | k in byMbid ensures k in Counted(visits) { PortraitsOfMember(visits, false, k); }
  }

  // ----- and only then -----

  const ORPHAN_COVER := TopFile(CoverName("x"), Statted(10, 0, 1))
  const ORPHAN_PORTRAIT := TopFile(PortraitName(SAMPLE_MBID), Statted(10, 0, 1))
  const UNREADABLE_PORTRAIT := TopFile(PortraitName(OTHER_MBID), Unreadable)

  /** A cache of one evictable file over its cap loses it. */
  lemma OneFileEvicted(f: CacheFile, keep: Keep, portraitUnstatted: bool, now: int)
    requires f.size == 10 && MayEvict(f, [f], keep, portraitUnstatted, now)
    ensures Pass([f], keep, portraitUnstatted, 1, now, ALL_REMOVED).evicted == [f]
  {
    assert f in [f] && [f][1..] == [];
    var goes := EvictablePaths([f], keep, portraitUnstatted, now);
    assert f.path in goes;
    assert Restrict([f], goes) == [f] + Restrict([], goes);
    assert Bytes([f]) == 10;
    assert SortOldestFirst([f]) == [f];
    assert Evict([f], 10, 1, ALL_REMOVED) == Run([f], 0, false);
  }

  function Sample(v: Visit, hidden: bool): seq<Visit> { if hidden then [UNREADABLE_PORTRAIT, v] else [v] }

  lemma SampleWalk(v: Visit, hidden: bool)
    requires IsCacheFile(v) && v.stat.Statted?
    ensures Counted(Sample(v, hidden)) == [FileAt(v)] && PortraitHidden(Sample(v, hidden)) == hidden
    ensures v in Sample(v, hidden)
  {
    PortraitSample(OTHER_MBID, Unreadable);
    assert HidesPortrait(UNREADABLE_PORTRAIT) && !HidesPortrait(v);
    SeenStep([], v);
    SeenStep([], UNREADABLE_PORTRAIT);
    SeenStep([UNREADABLE_PORTRAIT], v);
    assert [] + [v] == [v] && [] + [UNREADABLE_PORTRAIT] == [UNREADABLE_PORTRAIT];
    assert [UNREADABLE_PORTRAIT] + [v] == [UNREADABLE_PORTRAIT, v];
    assert SeenOf([v]).files == [FileAt(v)] && !SeenOf([v]).portraitUnstatted;
  }

  /** A store that names no artwork: the GC refuses, and the cap evicts. */
  lemma CapOutrunsRefusal(artistIds: set<string>, hidden: bool)
    ensures DistinctPaths(Counted(Sample(ORPHAN_COVER, hidden)))
            && PortraitHidden(Sample(ORPHAN_COVER, hidden)) == hidden
    ensures !CapWithinGc(Sample(ORPHAN_COVER, hidden), Store({}, artistIds), false, 1, MUCH_LATER, ALL_REMOVED)
  {
    var store := Store({}, artistIds);
    CoverSample(Statted(10, 0, 1));
    SampleWalk(ORPHAN_COVER, hidden);
    assert |"x"| == 1 && forall id :: |ArtistThumbKey(id)| >= 7;
    var f := FileAt(ORPHAN_COVER);
    OneFileEvicted(f, KeepOf(store), hidden, MUCH_LATER);
    assert IsOrphanCover(ORPHAN_COVER, KeepOf(store).known);
    assert Refuses(Sample(ORPHAN_COVER, hidden), store, false);
    assert f in [f];
  }

  /** A store that names no artist, or a portrait that cannot be read: the GC's portrait pass removes
      nothing, and the cap evicts. */
  lemma CapOutrunsPortraitPass(store: Store, allowEmpty: bool, hidden: bool)
    requires SAMPLE_MBID !in KeepOf(store).artists
    requires hidden || (KeepOf(store).artists == {} && !allowEmpty)
    ensures DistinctPaths(Counted(Sample(ORPHAN_PORTRAIT, hidden)))
            && PortraitHidden(Sample(ORPHAN_PORTRAIT, hidden)) == hidden
    ensures !CapWithinGc(Sample(ORPHAN_PORTRAIT, hidden), store, allowEmpty, 1, MUCH_LATER, ALL_REMOVED)
  {
    OrphanPortraitFile();
    SampleWalk(ORPHAN_PORTRAIT, hidden);
    var f := FileAt(ORPHAN_PORTRAIT);
    OneFileEvicted(f, KeepOf(store), hidden, MUCH_LATER);
    assert f in [f];
    NothingDecided(store, allowEmpty, hidden);
  }

  lemma NothingDecided(store: Store, allowEmpty: bool, hidden: bool)
    requires hidden || (KeepOf(store).artists == {} && !allowEmpty)
    ensures GcDecides(Sample(ORPHAN_PORTRAIT, hidden), store, allowEmpty, MUCH_LATER) == {}
  {
    var visits := Sample(ORPHAN_PORTRAIT, hidden);
    OrphanPortraitFile();
    SampleWalk(ORPHAN_PORTRAIT, hidden);
    SampleTopLevel(hidden);
    NoCoverDecided(visits, KeepOf(store).known);
    assert PortraitDecisions(visits, KeepOf(store).artists, allowEmpty, MUCH_LATER) == [];
  }

  lemma OrphanPortraitFile()
    ensures IsTopLevelPortrait(ORPHAN_PORTRAIT.place) && IsCacheFile(ORPHAN_PORTRAIT)
    ensures FileAt(ORPHAN_PORTRAIT) == CacheFile(ORPHAN_PORTRAIT.path, Portrait(SAMPLE_MBID), 10, 0, 1)
    ensures IsMbidPortrait(FileAt(ORPHAN_PORTRAIT))
  {
    PortraitSample(SAMPLE_MBID, Statted(10, 0, 1));
    assert |SAMPLE_MBID| == 36;
  }

  lemma SampleTopLevel(hidden: bool)
    ensures forall v :: v in Sample(ORPHAN_PORTRAIT, hidden) ==> v.File? && IsTopLevelPortrait(v.place)
  {
    OrphanPortraitFile();
    PortraitSample(OTHER_MBID, Unreadable);
  }

  lemma {:induction false} NoCoverDecided(visits: seq<Visit>, known: set<string>)
    requires forall v :: v in visits ==> v.File? && IsTopLevelPortrait(v.place)
    ensures OrphanCovers(visits, known) == []
  {
    if visits == [] {
    } else {
      NoCoverDecided(visits[..|visits| - 1], known);
    }
  }

  /** Exactly when the cap stays within the GC, for every cache, store of the kind, cap, clock and outcome
      of the removals: every portrait reads, and the operator allows an empty store or the store names
      both artwork and artists. */
  lemma CapWithinGcExactly(noArtwork: bool, noArtists: bool, allowEmpty: bool, hidden: bool)
    ensures (forall visits, store: Store, capBytes, now, fate ::
               DistinctPaths(Counted(visits)) && PortraitHidden(visits) == hidden
               && (store.artworkKeys == {}) == noArtwork && (store.artistIds == {}) == noArtists
               ==> CapWithinGc(visits, store, allowEmpty, capBytes, now, fate))
            <==> !hidden && (allowEmpty || (!noArtwork && !noArtists))
  {
    if !hidden && (allowEmpty || (!noArtwork && !noArtists)) {
      forall visits, store: Store, capBytes, now, fate |
        DistinctPaths(Counted(visits)) && PortraitHidden(visits) == hidden
        && (store.artworkKeys == {}) == noArtwork && (store.artistIds == {}) == noArtists
        ensures CapWithinGc(visits, store, allowEmpty, capBytes, now, fate)
      {
        CapStaysWithinGc(visits, store, allowEmpty, capBytes, now, fate);
      }
    } else {
      var artistIds: set<string> := if noArtists then {} else {"z"};
      var store := Store(if noArtwork then {} else {"k"}, artistIds);
      assert !noArtists ==> "z" in store.artistIds;
      assert !noArtwork ==> "k" in store.artworkKeys;
      if hidden || !noArtwork {
        assert |ToLower("z")| == 1;
        CapOutrunsPortraitPass(store, allowEmpty, hidden);
      } else {
        CapOutrunsRefusal(artistIds, hidden);
      }
    }
  }
}
