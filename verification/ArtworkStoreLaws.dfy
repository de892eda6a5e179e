/** What the store and the names on disk alone decide: which files the size cap may take, and which the GC removes. */
module ArtworkStoreLaws {
  import opened Basics
  import opened ArtworkNames
  import opened ArtworkOrder
  import opened ArtworkPortraits
  import opened ArtworkCap
  import opened ArtworkCapLaws
  import opened ArtworkGC

  // ----- what a row names, and what a name says -----

  /** A cover's key is in use: a row carries it, or it is the one an artist's thumbnail is filed under. */
  predicate NamesKey(store: Store, stem: string) {
    stem in store.artworkKeys || exists id :: id in store.artistIds && stem == "artist-" + id
  }

  /** A row carries the artist's id, in whatever case. */
  predicate NamesArtist(store: Store, id: string) {
    exists row :: row in store.artistIds && SameButCase(row, id)
  }

  lemma KeepSays(store: Store, stem: string, id: string)
    ensures stem in KeepOf(store).known <==> NamesKey(store, stem)
    ensures ToLower(id) in KeepOf(store).artists <==> NamesArtist(store, id)
  {
    forall row ensures ToLower(row) == ToLower(id) <==> SameButCase(row, id) { ToLowerMeans(row, id); }
  }

  predicate IsCoverName(base: string, stem: string) {
    base == stem + "-250.jpg" || base == stem + "-500.jpg" || base == stem + "-1200.jpg"
  }

  predicate IsPortraitName(base: string, id: string) { IsValidMbid(id) && base == "artist-" + id + ".jpg" }

  ghost predicate IsCanonicalName(base: string) {
    exists hash :: |hash| == 64 && (forall c :: c in hash ==> c in HEX_DIGITS) && base == "artist-name-" + hash + ".jpg"
  }

  predicate UnderThumbs(v: Visit) { v.File? && v.place.dirs != [] && v.place.dirs[0] == "thumbs" }

  /** A file at the top of the cache, of a type the enricher writes, whose size and time could be read. */
  predicate TopEntry(v: Visit) { v.File? && v.canBePortrait && v.place.dirs == [] && v.stat.Statted? }

  predicate IsPortraitOf(v: Visit, id: string) { TopEntry(v) && IsPortraitName(v.place.base, id) }

  ghost predicate IsCanonicalAt(v: Visit) { TopEntry(v) && IsCanonicalName(v.place.base) }

  lemma CoverKind(v: Visit, stem: string)
    requires v.File? && v.stat.Statted?
    ensures FileAt(v).kind == Cover(stem) <==> IsCoverName(v.place.base, stem) && !UnderThumbs(v)
    ensures IsCoverName(v.place.base, stem) ==> IsCacheFile(v) && !IsTopLevelPortrait(v.place)
  {
    KindReadBack(v.place, v.canBePortrait);
    StemReadBack(v.place.base, stem);
    if IsCoverName(v.place.base, stem) {
      CoverIsJpg(v.place.base, stem);
      if IsTopLevelPortrait(v.place) { PortraitIsNoCover(v.place); }
    }
  }

  lemma CoverIsJpg(base: string, stem: string)
    requires IsCoverName(base, stem)
    ensures HasSuffix(base, JPG)
  {
    assert stem + "-250" + JPG == stem + "-250.jpg" && stem + "-500" + JPG == stem + "-500.jpg";
    assert stem + "-1200" + JPG == stem + "-1200.jpg";
    SuffixIs(base, JPG, stem + "-250");
    SuffixIs(base, JPG, stem + "-500");
    SuffixIs(base, JPG, stem + "-1200");
  }

  lemma NoCoverStem(base: string)
    ensures CacheStem(base).None? <==> forall stem :: !IsCoverName(base, stem)
  {
    forall stem ensures CacheStem(base) == Some(stem) <==> IsCoverName(base, stem) { StemReadBack(base, stem); }
    if CacheStem(base).Some? { assert IsCoverName(base, CacheStem(base).value); }
  }

  /** An artist's portrait as the cap files it: under the id in lower case. */
  lemma PortraitKind(v: Visit, mbid: string)
    requires v.File? && v.stat.Statted? && mbid != ""
    ensures FileAt(v).kind == Portrait(mbid) <==> exists id :: IsPortraitOf(v, id) && mbid == ToLower(id)
    ensures FileAt(v).kind == Portrait(mbid) ==> IsCacheFile(v)
  {
    KindReadBack(v.place, v.canBePortrait);
    PortraitReadBack(v.place.base, mbid);
    PortraitNamesAreApart(v.place.base);
    if FileAt(v).kind == Portrait(mbid) { PortraitIsJpg(v.place); }
    if id :| IsPortraitOf(v, id) && mbid == ToLower(id) { assert IsTopLevelPortrait(v.place); }
  }

  lemma CanonicalKind(v: Visit)
    requires v.File? && v.stat.Statted?
    ensures FileAt(v).kind == Portrait("") <==> IsCanonicalAt(v)
    ensures FileAt(v).kind == Portrait("") ==> IsCacheFile(v)
  {
    KindReadBack(v.place, v.canBePortrait);
    CanonicalReadBack(v.place.base);
    if FileAt(v).kind == Portrait("") { PortraitIsJpg(v.place); }
  }

  // ----- what a row keeps -----

  /** The portrait of an artist a row names, or one younger than the grace. */
  predicate StaysFor(v: Visit, id: string, store: Store, now: int)
    requires v.File? && v.stat.Statted?
  {
    NamesArtist(store, id) || now - v.stat.mod < TEN_MINUTES
  }

  /** Some portrait of the cache that stays is the same file. */
  ghost predicate LinkedToOne(v: Visit, visits: seq<Visit>, store: Store, now: int)
    requires v.File? && v.stat.Statted?
  {
    exists u, id :: u in visits && IsPortraitOf(u, id) && u.stat.inode == v.stat.inode && StaysFor(u, id, store, now)
  }

  /** What the cap keeps of the old files, `hidden` saying that some portrait could not be read. */
  ghost predicate KeptForRow(v: Visit, visits: seq<Visit>, store: Store, hidden: bool, now: int)
    requires v.File? && v.stat.Statted?
  {
    || CoverInUse(v, store) || PortraitInUse(v, store)
    || (IsCanonicalAt(v) && (hidden || LinkedToOne(v, visits, store, now)))
  }

  lemma LinkIsKept(v: Visit, visits: seq<Visit>, store: Store, now: int)
    requires v.File? && v.stat.Statted? && now - v.stat.mod >= TEN_MINUTES
    ensures KeptCanonical(FileAt(v), Counted(visits), KeepOf(store).artists, now)
            <==> LinkedToOne(v, visits, store, now)
  {
    var files, artists := Counted(visits), KeepOf(store).artists;
    if KeptCanonical(FileAt(v), files, artists, now) {
      var k :| k in files && IsMbidPortrait(k) && KeptMbid(k, artists, now) && SameFile(FileAt(v), k);
      CountedMember(visits, k);
      var u :| u in visits && IsCacheFile(u) && u.stat.Statted? && FileAt(u) == k;
      PortraitKind(u, k.kind.mbid);
      var id :| IsPortraitOf(u, id) && k.kind.mbid == ToLower(id);
      KeepSays(store, "", id);
      assert StaysFor(u, id, store, now);
    }
    if u, id :| u in visits && IsPortraitOf(u, id) && u.stat.inode == v.stat.inode && StaysFor(u, id, store, now) {
      assert |ToLower(id)| == 36;
      PortraitKind(u, ToLower(id));
      KeepSays(store, "", id);
      CountedMember(visits, FileAt(u));
      assert KeptMbid(FileAt(u), artists, now);
    }
  }

  ghost predicate CoverInUse(v: Visit, store: Store)
    requires v.File?
  {
    !UnderThumbs(v) && exists stem :: IsCoverName(v.place.base, stem) && NamesKey(store, stem)
  }

  ghost predicate PortraitInUse(v: Visit, store: Store) {
    exists id :: IsPortraitOf(v, id) && NamesArtist(store, id)
  }

  lemma CoverIsNamed(v: Visit, store: Store)
    requires v.File? && v.stat.Statted?
    ensures CoverInUse(v, store) <==> FileAt(v).kind.Cover? && FileAt(v).kind.stem in KeepOf(store).known
  {
    var f := FileAt(v);
    if CoverInUse(v, store) {
      var stem :| IsCoverName(v.place.base, stem) && NamesKey(store, stem);
      CoverKind(v, stem);
      KeepSays(store, stem, "");
    }
    if f.kind.Cover? && f.kind.stem in KeepOf(store).known {
      CoverKind(v, f.kind.stem);
      KeepSays(store, f.kind.stem, "");
    }
  }

  lemma PortraitIsNamed(v: Visit, store: Store)
    requires v.File? && v.stat.Statted?
    ensures PortraitInUse(v, store) <==> IsMbidPortrait(FileAt(v)) && FileAt(v).kind.mbid in KeepOf(store).artists
  {
    var f := FileAt(v);
    if PortraitInUse(v, store) {
      var id :| IsPortraitOf(v, id) && NamesArtist(store, id);
      assert |ToLower(id)| == 36;
      PortraitKind(v, ToLower(id));
      KeepSays(store, "", id);
    }
    if IsMbidPortrait(f) && f.kind.mbid in KeepOf(store).artists {
      PortraitKind(v, f.kind.mbid);
      var id :| IsPortraitOf(v, id) && f.kind.mbid == ToLower(id);
      KeepSays(store, "", id);
    }
  }

  /** Of a file ten minutes old, the cap's own rule is the one above. */
  lemma OldIsNamed(v: Visit, visits: seq<Visit>, store: Store, hidden: bool, now: int)
    requires v.File? && v.stat.Statted? && now - v.stat.mod >= TEN_MINUTES
    ensures Named(FileAt(v), Counted(visits), KeepOf(store), hidden, now)
            <==> KeptForRow(v, visits, store, hidden, now)
  {
    CoverIsNamed(v, store);
    PortraitIsNamed(v, store);
    CanonicalKind(v);
    LinkIsKept(v, visits, store, now);
  }

  // ----- the size cap -----

  /** Exactly what the cap may take: a cache file as old as the grace and older, that no row keeps. */
  lemma CapMayTakeExactly(v: Visit, visits: seq<Visit>, store: Store, now: int)
    requires DistinctPaths(Counted(visits)) && v in visits && IsCacheFile(v) && v.stat.Statted?
    ensures FileAt(v) in Candidates(Counted(visits), KeepOf(store), PortraitHidden(visits), now)
            <==> now - v.stat.mod > TEN_MINUTES && !KeptForRow(v, visits, store, PortraitHidden(visits), now)
  {
    CountedMember(visits, FileAt(v));
    CandidatesMember(Counted(visits), KeepOf(store), PortraitHidden(visits), now, FileAt(v));
    if now - v.stat.mod > TEN_MINUTES { OldIsNamed(v, visits, store, PortraitHidden(visits), now); }
  }

  /** The bytes the pass reports as referenced, and its warning goes by: those of the covers in use, and of the old
      portraits and canonicals that stay. */
  lemma ReferencedExactly(v: Visit, visits: seq<Visit>, store: Store, now: int)
    requires DistinctPaths(Counted(visits)) && v in visits && IsCacheFile(v) && v.stat.Statted?
    ensures v.path in ReferencedPaths(Counted(visits), KeepOf(store), PortraitHidden(visits), now)
            <==> CoverInUse(v, store)
                 || (now - v.stat.mod > TEN_MINUTES && KeptForRow(v, visits, store, PortraitHidden(visits), now))
  {
    var files, keep, hidden := Counted(visits), KeepOf(store), PortraitHidden(visits);
    CountedMember(visits, FileAt(v));
    forall g | g in files && g.path == v.path ensures g == FileAt(v) { PathIsFile(files, FileAt(v), g); }
    assert v.path in ReferencedPaths(files, keep, hidden, now)
      <==> CountsAsReferenced(FileAt(v), files, keep, hidden, now);
    CoverIsNamed(v, store);
    CanonicalKind(v);
    if now - v.stat.mod > TEN_MINUTES { OldIsNamed(v, visits, store, hidden, now); }
  }

  /** What a pass evicts it may take; so whatever the cap, the clock and the removals, it takes no cover and no portrait
      that a row names. */
  lemma CapKeepsWhatRowsName(visits: seq<Visit>, store: Store, capBytes: int, now: int, fate: string -> Fate, v: Visit)
    requires DistinctPaths(Counted(visits)) && v in visits && v.File? && v.stat.Statted?
    requires KeptForRow(v, visits, store, PortraitHidden(visits), now)
    ensures forall f :: f in Pass(Counted(visits), KeepOf(store), PortraitHidden(visits), capBytes, now, fate).evicted
                        ==> f.path != v.path
  {
    var files, keep, hidden := Counted(visits), KeepOf(store), PortraitHidden(visits);
    KeptIsCounted(v, visits, store, hidden, now);
    forall f | f in Pass(files, keep, hidden, capBytes, now, fate).evicted ensures f.path != v.path {
      PassEvictsOnlyEvictable(files, keep, hidden, capBytes, now, fate, f);
      if f.path == v.path {
        PathIsFile(files, f, FileAt(v));
        CandidatesMember(files, keep, hidden, now, f);
        CapMayTakeExactly(v, visits, store, now);
      }
    }
  }

  lemma KeptIsCounted(v: Visit, visits: seq<Visit>, store: Store, hidden: bool, now: int)
    requires v in visits && v.File? && v.stat.Statted? && KeptForRow(v, visits, store, hidden, now)
    ensures IsCacheFile(v) && FileAt(v) in Counted(visits)
  {
    if CoverInUse(v, store) {
      var stem :| IsCoverName(v.place.base, stem) && NamesKey(store, stem);
      CoverKind(v, stem);
    } else if PortraitInUse(v, store) {
      var id :| IsPortraitOf(v, id) && NamesArtist(store, id);
      assert |ToLower(id)| == 36;
      PortraitKind(v, ToLower(id));
    } else {
      CanonicalKind(v);
    }
    CountedMember(visits, FileAt(v));
  }

  /** Whether some entry at the top has a portrait's name and cannot be read. */
  lemma HiddenSays(visits: seq<Visit>)
    ensures PortraitHidden(visits) <==>
            exists u :: u in visits && u.File? && u.stat.Unreadable? && u.canBePortrait && u.place.dirs == []
                        && (IsCanonicalName(u.place.base) || exists id :: IsPortraitName(u.place.base, id))
  {
    PortraitHiddenMeaning(visits);
    forall u: Visit | u.File?
      ensures HidesPortrait(u) <==>
              u.stat.Unreadable? && u.canBePortrait && u.place.dirs == []
              && (IsCanonicalName(u.place.base) || exists id :: IsPortraitName(u.place.base, id))
    {
      HidesSays(u);
    }
  }

  lemma TopLevelNames(p: Place)
    ensures IsTopLevelPortrait(p) <==>
            p.dirs == [] && (IsCanonicalName(p.base) || exists id :: IsPortraitName(p.base, id))
  {
    CanonicalReadBack(p.base);
    if PortraitMbid(p.base).Some? {
      PortraitReadBack(p.base, PortraitMbid(p.base).value);
      var id :| IsValidMbid(id) && p.base == "artist-" + id + ".jpg" && PortraitMbid(p.base).value == ToLower(id);
      assert IsPortraitName(p.base, id);
    }
    if id :| IsPortraitName(p.base, id) { PortraitReadBack(p.base, ToLower(id)); }
  }

  lemma HidesSays(u: Visit)
    requires u.File?
    ensures HidesPortrait(u) <==>
            u.stat.Unreadable? && u.canBePortrait && u.place.dirs == []
            && (IsCanonicalName(u.place.base) || exists id :: IsPortraitName(u.place.base, id))
  {
    KindReadBack(u.place, u.canBePortrait);
    TopLevelNames(u.place);
    if IsTopLevelPortrait(u.place) { PortraitIsJpg(u.place); }
  }

  // ----- the GC -----

  /** A cover, wherever it stands, whose key no row needs. */
  ghost predicate OrphanAt(v: Visit, store: Store) {
    v.File? && exists stem :: IsCoverName(v.place.base, stem) && !NamesKey(store, stem)
  }

  /** A portrait no row needs any more: of an artist no row names, or a canonical that is no link to one that stays; and
      in either case ten minutes old. */
  ghost predicate PortraitGoes(v: Visit, visits: seq<Visit>, store: Store, now: int) {
    && v.File? && v.stat.Statted? && now - v.stat.mod >= TEN_MINUTES
    && ((exists id :: IsPortraitOf(v, id) && !NamesArtist(store, id))
        || (IsCanonicalAt(v) && !LinkedToOne(v, visits, store, now)))
  }

  lemma OrphansSay(visits: seq<Visit>, store: Store, path: string)
    ensures path in OrphanCovers(visits, KeepOf(store).known) <==>
            exists v :: v in visits && v.File? && v.path == path && OrphanAt(v, store)
    ensures (exists v :: v in visits && IsOrphanCover(v, KeepOf(store).known))
            <==> exists v :: v in visits && OrphanAt(v, store)
  {
    var known := KeepOf(store).known;
    OrphanCoversExactly(visits, known, path);
    forall v: Visit | v.File?
      ensures OrphanAt(v, store) <==> IsOrphanCover(v, known)
      ensures OrphanAt(v, store) ==> !IsTopLevelPortrait(v.place)
    {
      OrphanIs(v, store);
    }
  }

  lemma OrphanIs(v: Visit, store: Store)
    requires v.File?
    ensures OrphanAt(v, store) <==> IsOrphanCover(v, KeepOf(store).known)
    ensures OrphanAt(v, store) ==> !IsTopLevelPortrait(v.place)
  {
    var base := v.place.base;
    if OrphanAt(v, store) {
      var stem :| IsCoverName(base, stem) && !NamesKey(store, stem);
      StemReadBack(base, stem);
      KeepSays(store, stem, "");
      if IsTopLevelPortrait(v.place) { PortraitIsNoCover(v.place); }
    }
    if IsOrphanCover(v, KeepOf(store).known) {
      StemReadBack(base, CacheStem(base).value);
      KeepSays(store, CacheStem(base).value, "");
    }
  }

  /** The portrait pass runs to its end: it can read every portrait, and knows of an artist or need not. */
  predicate PortraitPassRuns(visits: seq<Visit>, store: Store, allowEmpty: bool) {
    !PortraitHidden(visits) && (store.artistIds != {} || allowEmpty)
  }

  lemma PortraitsSay(visits: seq<Visit>, store: Store, now: int, f: CacheFile)
    ensures f in Verdicts(PortraitsOf(visits, false), PortraitsOf(visits, true), KeepOf(store).artists, now) <==>
            exists v :: v in visits && PortraitGoes(v, visits, store, now) && FileAt(v) == f
  {
    var byMbid, canonical, artists := PortraitsOf(visits, false), PortraitsOf(visits, true), KeepOf(store).artists;
    VerdictsMember(byMbid, canonical, artists, now, f);
    PortraitsOfMember(visits, false, f);
    PortraitsOfMember(visits, true, f);
    SameLinks(visits, artists, now, f);
    CountedMember(visits, f);
    if f in Verdicts(byMbid, canonical, artists, now) {
      var v :| v in visits && IsCacheFile(v) && v.stat.Statted? && FileAt(v) == f;
      PortraitGoesSays(v, visits, store, now);
    }
    if v :| v in visits && PortraitGoes(v, visits, store, now) && FileAt(v) == f {
      PortraitGoesSays(v, visits, store, now);
    }
  }

  /** The listing's portraits and the cap's are the same ones to link to. */
  lemma SameLinks(visits: seq<Visit>, artists: set<string>, now: int, f: CacheFile)
    ensures KeptCanonical(f, PortraitsOf(visits, false), artists, now) <==>
            KeptCanonical(f, Counted(visits), artists, now)
  {
    forall k ensures k in PortraitsOf(visits, false) <==> k in Counted(visits) && IsMbidPortrait(k) {
      PortraitsOfMember(visits, false, k);
    }
  }

  lemma PortraitGoesSays(v: Visit, visits: seq<Visit>, store: Store, now: int)
    requires v in visits && v.File? && v.stat.Statted?
    ensures var f, artists := FileAt(v), KeepOf(store).artists;
            PortraitGoes(v, visits, store, now) <==>
            && IsCacheFile(v)
            && ((IsMbidPortrait(f) && !KeptMbid(f, artists, now))
                || (IsCanonical(f) && !KeptCanonical(f, Counted(visits), artists, now)))
  {
    var f, artists := FileAt(v), KeepOf(store).artists;
    CanonicalKind(v);
    if now - v.stat.mod >= TEN_MINUTES { LinkIsKept(v, visits, store, now); }
    if id :| IsPortraitOf(v, id) && !NamesArtist(store, id) {
      assert |ToLower(id)| == 36;
      PortraitKind(v, ToLower(id));
      KeepSays(store, "", id);
    }
    if IsMbidPortrait(f) && !KeptMbid(f, artists, now) {
      PortraitKind(v, f.kind.mbid);
      var id :| IsPortraitOf(v, id) && f.kind.mbid == ToLower(id);
      KeepSays(store, "", id);
    }
  }

  /** Exactly what a run of `artwork --gc` removes: nothing when the store names no artwork, the operator did not allow
      that, and some cover would go; otherwise every cover whose key no row needs, and, if the portrait pass runs, every
      portrait no row needs. A cover or a portrait a row names is never among them. */
  lemma GcRemovesExactly(visits: seq<Visit>, store: Store, allowEmpty: bool, now: int, path: string)
    ensures path in GcDecides(visits, store, allowEmpty, now) <==>
            && (store.artworkKeys != {} || allowEmpty || forall v :: v in visits ==> !OrphanAt(v, store))
            && ((exists v :: v in visits && v.File? && v.path == path && OrphanAt(v, store))
                || (PortraitPassRuns(visits, store, allowEmpty)
                    && exists v :: v in visits && v.File? && v.path == path && PortraitGoes(v, visits, store, now)))
  {
    OrphansSay(visits, store, path);
    assert KeepOf(store).artists == {} <==> store.artistIds == {} by {
      if id :| id in store.artistIds { assert ToLower(id) in KeepOf(store).artists; }
    }
    forall f
      ensures f in Verdicts(PortraitsOf(visits, false), PortraitsOf(visits, true), KeepOf(store).artists, now) <==>
              exists v :: v in visits && PortraitGoes(v, visits, store, now) && FileAt(v) == f
    {
      PortraitsSay(visits, store, now, f);
    }
    PortraitPaths(visits, store, allowEmpty, now, path);
  }

  lemma PortraitPaths(visits: seq<Visit>, store: Store, allowEmpty: bool, now: int, path: string)
    requires KeepOf(store).artists == {} <==> store.artistIds == {}
    requires forall f ::
               f in Verdicts(PortraitsOf(visits, false), PortraitsOf(visits, true), KeepOf(store).artists, now) <==>
               exists v :: v in visits && PortraitGoes(v, visits, store, now) && FileAt(v) == f
    ensures (exists f :: f in PortraitDecisions(visits, KeepOf(store).artists, allowEmpty, now) && f.path == path) <==>
            && PortraitPassRuns(visits, store, allowEmpty)
            && exists v :: v in visits && v.File? && v.path == path && PortraitGoes(v, visits, store, now)
  {
    if PortraitPassRuns(visits, store, allowEmpty) {
      if v :| v in visits && v.File? && v.path == path && PortraitGoes(v, visits, store, now) {
        assert FileAt(v) in PortraitDecisions(visits, KeepOf(store).artists, allowEmpty, now);
      }
    }
  }

  /** So it removes no cover and no portrait that a row names, at a path met once. */
  lemma GcKeepsWhatRowsName(visits: seq<Visit>, store: Store, allowEmpty: bool, now: int, v: Visit)
    requires v in visits && v.File? && forall u :: u in visits && u.File? && u.path == v.path ==> u == v
    requires PortraitInUse(v, store) || exists stem :: IsCoverName(v.place.base, stem) && NamesKey(store, stem)
    ensures v.path !in GcDecides(visits, store, allowEmpty, now)
  {
    GcRemovesExactly(visits, store, allowEmpty, now, v.path);
    var base := v.place.base;
    forall stem, stem' | IsCoverName(base, stem) && IsCoverName(base, stem') ensures stem == stem' {
      StemReadBack(base, stem);
      StemReadBack(base, stem');
    }
    OneName(v, store);
  }

  /** A cover is no portrait, and a portrait is one artist's. */
  lemma OneName(v: Visit, store: Store)
    requires v.File?
    ensures (exists stem :: IsCoverName(v.place.base, stem)) ==> !IsCanonicalAt(v) && forall id :: !IsPortraitOf(v, id)
    ensures forall id, id' :: IsPortraitOf(v, id) && IsPortraitOf(v, id') ==> id == id'
    ensures (exists id :: IsPortraitOf(v, id)) ==> !IsCanonicalAt(v)
  {
    var base := v.place.base;
    if stem :| IsCoverName(base, stem) {
      StemReadBack(base, stem);
      if IsTopLevelPortrait(v.place) { PortraitIsNoCover(v.place); }
    }
    CanonicalReadBack(base);
    PortraitNamesAreApart(base);
    forall id | IsPortraitOf(v, id) ensures PortraitMbid(base) == Some(ToLower(id)) {
      PortraitReadBack(base, ToLower(id));
    }
    forall id, id' | IsPortraitOf(v, id) && IsPortraitOf(v, id') ensures id == id' {
      assert "artist-" + id + ".jpg" == "artist-" + id' + ".jpg";
      assert base[7..43] == id && base[7..43] == id';
    }
  }
}
