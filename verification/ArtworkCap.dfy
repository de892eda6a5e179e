/** One pass of the artwork cache's size cap: what it counts, what it may evict, and what it evicts. */
module ArtworkCap {
  import opened Basics
  import opened ArtworkNames
  import opened ArtworkOrder
  import opened ArtworkPortraits

  const CAP_GRACE := PORTRAIT_GRACE

  // ----- what the walk meets -----

  /** What asking a listed file for its size answers. */
  datatype Stat = Statted(size: nat, mod: int, inode: int) | Vanished | Unreadable

  /** One step of the walk. A quiet directory it cannot list is the filesystem's own lost+found. */
  datatype Visit =
    | File(path: string, place: Place, canBePortrait: bool, stat: Stat)
    | UnlistedDir(quiet: bool)

  datatype Walk = Walked(visits: seq<Visit>) | RootGone | WalkFailed

  predicate IsCacheFile(v: Visit) { v.File? && HasSuffix(v.place.base, JPG) }

  function FileAt(v: Visit): CacheFile
    requires v.File? && v.stat.Statted?
  {
    CacheFile(v.path, KindAt(v.place, v.canBePortrait), v.stat.size, v.stat.mod, v.stat.inode)
  }

  /** The files the walk counts, in the order it meets them. */
  function Counted(visits: seq<Visit>): seq<CacheFile> {
    if visits == [] then []
    else
      var v := visits[|visits| - 1];
      Counted(visits[..|visits| - 1]) + if IsCacheFile(v) && v.stat.Statted? then [FileAt(v)] else []
  }

  predicate HidesPortrait(v: Visit) {
    IsCacheFile(v) && v.stat.Unreadable? && KindAt(v.place, v.canBePortrait).Portrait?
  }

  function CountWhere(visits: seq<Visit>, unlisted: bool): nat {
    if visits == [] then 0
    else
      var v := visits[|visits| - 1];
      CountWhere(visits[..|visits| - 1], unlisted)
      + if (unlisted && v == UnlistedDir(false)) || (!unlisted && IsCacheFile(v) && v.stat.Unreadable?) then 1 else 0
  }

  /** Whether the walk listed a portrait at the top it could not read. */
  predicate PortraitHidden(visits: seq<Visit>) {
    visits != [] && (PortraitHidden(visits[..|visits| - 1]) || HidesPortrait(visits[|visits| - 1]))
  }

  lemma {:induction false} PortraitHiddenMeaning(visits: seq<Visit>)
    ensures PortraitHidden(visits) <==> exists v :: v in visits && HidesPortrait(v)
  {
    if visits == [] {
    } else {
      PortraitHiddenMeaning(visits[..|visits| - 1]);
      assert visits == visits[..|visits| - 1] + [visits[|visits| - 1]];
    }
  }

  datatype Seen = Seen(files: seq<CacheFile>, total: nat, unlisted: nat, unstatted: nat, portraitUnstatted: bool)

  function SeenOf(visits: seq<Visit>): Seen {
    Seen(Counted(visits), Bytes(Counted(visits)), CountWhere(visits, true), CountWhere(visits, false),
      PortraitHidden(visits))
  }

  lemma SeenStep(visits: seq<Visit>, v: Visit)
    ensures var s, t := SeenOf(visits), SeenOf(visits + [v]);
            if v.UnlistedDir? then t == s.(unlisted := s.unlisted + if v.quiet then 0 else 1)
            else if !IsCacheFile(v) || v.stat.Vanished? then t == s
            else if v.stat.Unreadable? then
              t == s.(unstatted := s.unstatted + 1, portraitUnstatted := s.portraitUnstatted || HidesPortrait(v))
            else t == s.(files := s.files + [FileAt(v)], total := s.total + v.stat.size)
  {
    assert (visits + [v])[..|visits|] == visits;
    if IsCacheFile(v) && v.stat.Statted? {
      BytesAppend(Counted(visits), [FileAt(v)]);
    } else {
      assert Counted(visits) + [] == Counted(visits);
    }
  }

  method WalkCache(visits: seq<Visit>) returns (s: Seen)
    ensures s == SeenOf(visits)
  {
    s := Seen([], 0, 0, 0, false);
    for i := 0 to |visits|
      invariant s == SeenOf(visits[..i])
    {
      var v := visits[i];
      assert visits[..i + 1] == visits[..i] + [v];
      SeenStep(visits[..i], v);
      if v.UnlistedDir? {
        if !v.quiet { s := s.(unlisted := s.unlisted + 1); }
        continue;
      }
      if !HasSuffix(v.place.base, JPG) { continue; }
      if v.stat.Vanished? { continue; }
      if v.stat.Unreadable? {
        s := s.(unstatted := s.unstatted + 1);
        if KindAt(v.place, v.canBePortrait).Portrait? { s := s.(portraitUnstatted := true); }
        continue;
      }
      s := s.(files := s.files + [FileAt(v)], total := s.total + v.stat.size);
    }
    assert visits[..|visits|] == visits;
  }

  // ----- what the store names -----

  /** What track rows name: artwork keys, and artist ids as the rows spell them. */
  datatype Store = Store(artworkKeys: set<string>, artistIds: set<string>)

  function ArtistThumbKey(id: string): string { "artist-" + id }

  function ThumbKeys(artistIds: set<string>): set<string> { set id | id in artistIds :: ArtistThumbKey(id) }

  function LowerIds(artistIds: set<string>): set<string> { set id | id in artistIds :: ToLower(id) }

  datatype Keep = Keep(known: set<string>, artists: set<string>)

  function KeepOf(s: Store): Keep { Keep(s.artworkKeys + ThumbKeys(s.artistIds), LowerIds(s.artistIds)) }

  // ----- what a pass may evict -----

  predicate FreshForCap(f: CacheFile, now: int) { f.mod >= now - CAP_GRACE }

  /** The verdict the cap takes over from the GC, less the canonicals it withholds when the walk could
      not read some portrait. */
  predicate Removable(f: CacheFile, files: seq<CacheFile>, artists: set<string>, portraitUnstatted: bool, now: int) {
    || (IsMbidPortrait(f) && !KeptMbid(f, artists, now))
    || (IsCanonical(f) && !portraitUnstatted && !KeptCanonical(f, files, artists, now))
  }

  predicate Named(f: CacheFile, files: seq<CacheFile>, keep: Keep, portraitUnstatted: bool, now: int) {
    match f.kind
    case Cover(stem) => stem in keep.known
    case Portrait(_) => !Removable(f, files, keep.artists, portraitUnstatted, now)
    case _ => false
  }

  predicate MayEvict(f: CacheFile, files: seq<CacheFile>, keep: Keep, portraitUnstatted: bool, now: int) {
    !Named(f, files, keep, portraitUnstatted, now) && !FreshForCap(f, now)
  }

  predicate CountsAsReferenced(f: CacheFile, files: seq<CacheFile>, keep: Keep, portraitUnstatted: bool, now: int) {
    Named(f, files, keep, portraitUnstatted, now) && (f.kind.Portrait? ==> !FreshForCap(f, now))
  }

  /** The two graces part at one age: of exactly ten minutes, a portrait no row names is one the verdict lets go and
      the cap leaves; at any other age the cap leaves none the verdict lets go. */
  lemma GracesPartAtTheBoundary(f: CacheFile, files: seq<CacheFile>, keep: Keep, portraitUnstatted: bool, now: int)
    requires f.kind.Portrait? && (IsCanonical(f) ==> !portraitUnstatted)
    requires if IsCanonical(f) then !KeptCanonical(f, files, keep.artists, now) else !KeptMbid(f, keep.artists, now)
    ensures !MayEvict(f, files, keep, portraitUnstatted, now) <==> f.mod == now - PORTRAIT_GRACE
  {
  }

  function EvictablePaths(files: seq<CacheFile>, keep: Keep, portraitUnstatted: bool, now: int): set<string> {
    set f | f in files && MayEvict(f, files, keep, portraitUnstatted, now) :: f.path
  }

  function ReferencedPaths(files: seq<CacheFile>, keep: Keep, portraitUnstatted: bool, now: int): set<string> {
    set f | f in files && CountsAsReferenced(f, files, keep, portraitUnstatted, now) :: f.path
  }

  function Candidates(files: seq<CacheFile>, keep: Keep, portraitUnstatted: bool, now: int): seq<CacheFile> {
    Restrict(files, EvictablePaths(files, keep, portraitUnstatted, now))
  }

  lemma PathIsFile(files: seq<CacheFile>, f: CacheFile, g: CacheFile)
    requires DistinctPaths(files) && f in files && g in files && f.path == g.path
    ensures f == g
  {
    var i :| 0 <= i < |files| && files[i] == f;
    var j :| 0 <= j < |files| && files[j] == g;
    assert i < j || j < i || i == j;
  }

  /** What a pass may evict, said of one file. */
  lemma CandidatesMember(files: seq<CacheFile>, keep: Keep, portraitUnstatted: bool, now: int, f: CacheFile)
    requires DistinctPaths(files)
    ensures f in Candidates(files, keep, portraitUnstatted, now) <==>
            f in files && MayEvict(f, files, keep, portraitUnstatted, now)
  {
    RestrictMember(files, EvictablePaths(files, keep, portraitUnstatted, now), f);
    forall g | g in files && f in files && g.path == f.path ensures g == f { PathIsFile(files, f, g); }
  }

  /** The portraits the walk saw, as the verdict takes them: by artist id first, then canonicals. */
  method SplitPortraits(files: seq<CacheFile>) returns (byMbid: seq<CacheFile>, canonical: seq<CacheFile>)
    ensures forall f :: f in byMbid <==> f in files && IsMbidPortrait(f)
    ensures forall f :: f in canonical <==> f in files && IsCanonical(f)
  {
    byMbid, canonical := [], [];
    for i := 0 to |files|
      invariant forall f :: f in byMbid <==> f in files[..i] && IsMbidPortrait(f)
      invariant forall f :: f in canonical <==> f in files[..i] && IsCanonical(f)
    {
      var f := files[i];
      assert files[..i + 1] == files[..i] + [f];
      if f.kind.Portrait? {
        if f.kind.mbid == "" { canonical := canonical + [f]; } else { byMbid := byMbid + [f]; }
      }
    }
    assert files[..|files|] == files;
  }

  /** The portraits the verdict lets go, less the canonicals while some portrait is hidden. */
  method RemovablePortraits(files: seq<CacheFile>, keep: Keep, portraitUnstatted: bool, now: int)
    returns (removable: set<string>)
    requires DistinctPaths(files) && LinksAgree(files)
    ensures forall f :: f in files && f.kind.Portrait? ==>
              (f.path in removable <==> Removable(f, files, keep.artists, portraitUnstatted, now))
  {
    var byMbid, canonical := SplitPortraits(files);
    var remove, _ := PortraitVerdicts(byMbid, canonical, keep.artists, now);
    removable := {};
    for i := 0 to |remove|
      invariant removable == set p | p in remove[..i] && !(IsCanonical(p) && portraitUnstatted) :: p.path
    {
      var p := remove[i];
      assert remove[..i + 1] == remove[..i] + [p];
      if p.kind.Portrait? && p.kind.mbid == "" && portraitUnstatted { continue; }
      removable := removable + {p.path};
    }
    assert remove[..|remove|] == remove;
    RemovablePaths(files, byMbid, canonical, keep.artists, portraitUnstatted, now, removable);
  }

  method CapCandidates(files: seq<CacheFile>, keep: Keep, portraitUnstatted: bool, now: int)
    returns (candidates: seq<CacheFile>, referenced: nat)
    requires DistinctPaths(files) && LinksAgree(files)
    ensures candidates == Candidates(files, keep, portraitUnstatted, now)
    ensures referenced == Bytes(Restrict(files, ReferencedPaths(files, keep, portraitUnstatted, now)))
  {
    var removable := RemovablePortraits(files, keep, portraitUnstatted, now);
    candidates, referenced := [], 0;
    for i := 0 to |files|
      invariant candidates == Restrict(files[..i], EvictablePaths(files, keep, portraitUnstatted, now))
      invariant referenced == Bytes(Restrict(files[..i], ReferencedPaths(files, keep, portraitUnstatted, now)))
    {
      var f := files[i];
      CandidatesStep(files, keep, portraitUnstatted, now, i);
      var recent := f.mod >= now - CAP_GRACE;
      match f.kind {
        case Cover(stem) =>
          if stem in keep.known {
            referenced := referenced + f.size;
            continue;
          }
        case Portrait(_) =>
          if f.path !in removable {
            if !recent { referenced := referenced + f.size; }
            continue;
          }
        case _ =>
      }
      if recent { continue; }
      candidates := candidates + [f];
    }
    assert files[..|files|] == files;
  }

  lemma CandidatesStep(files: seq<CacheFile>, keep: Keep, portraitUnstatted: bool, now: int, i: nat)
    requires DistinctPaths(files) && i < |files|
    ensures var goes, named := EvictablePaths(files, keep, portraitUnstatted, now),
            ReferencedPaths(files, keep, portraitUnstatted, now);
            && Restrict(files[..i + 1], goes)
               == Restrict(files[..i], goes)
                 + (if MayEvict(files[i], files, keep, portraitUnstatted, now) then [files[i]] else [])
            && Bytes(Restrict(files[..i + 1], named))
               == Bytes(Restrict(files[..i], named))
                  + if CountsAsReferenced(files[i], files, keep, portraitUnstatted, now) then files[i].size else 0
  {
    var f := files[i];
    var goes, named := EvictablePaths(files, keep, portraitUnstatted, now),
      ReferencedPaths(files, keep, portraitUnstatted, now);
    assert files[..i + 1] == files[..i] + [f];
    RestrictAppend(files[..i], [f], goes);
    RestrictAppend(files[..i], [f], named);
    BytesAppend(Restrict(files[..i], named), Restrict([f], named));
    forall g | g in files && g.path == f.path ensures g == f { PathIsFile(files, f, g); }
    assert f.path in goes <==> MayEvict(f, files, keep, portraitUnstatted, now);
    assert f.path in named <==> CountsAsReferenced(f, files, keep, portraitUnstatted, now);
    assert Restrict([f], goes) == if f.path in goes then [f] else [];
    assert Restrict([f], named) == if f.path in named then [f] else [];
    assert Bytes([f]) == f.size;
  }

  lemma RemovablePaths(files: seq<CacheFile>, byMbid: seq<CacheFile>, canonical: seq<CacheFile>, artists: set<string>,
                       portraitUnstatted: bool, now: int, removable: set<string>)
    requires DistinctPaths(files)
    requires forall f :: f in byMbid <==> f in files && IsMbidPortrait(f)
    requires forall f :: f in canonical <==> f in files && IsCanonical(f)
    requires removable
             == set p | p in Verdicts(byMbid, canonical, artists, now)
                        && !(IsCanonical(p) && portraitUnstatted) :: p.path
    ensures forall f :: f in files ==> (f.path in removable <==> Removable(f, files, artists, portraitUnstatted, now))
  {
    forall f | f in files ensures f.path in removable <==> Removable(f, files, artists, portraitUnstatted, now) {
      VerdictsMember(byMbid, canonical, artists, now, f);
      assert KeptCanonical(f, byMbid, artists, now) <==> KeptCanonical(f, files, artists, now);
      if f.path in removable {
        var g :| g in Verdicts(byMbid, canonical, artists, now) && !(IsCanonical(g) && portraitUnstatted)
          && g.path == f.path;
        VerdictsMember(byMbid, canonical, artists, now, g);
        PathIsFile(files, f, g);
      }
    }
  }

  // ----- the eviction loop -----

  /** What happens when the loop reaches a file: the remove succeeds, finds it gone, is refused, or the
      pass is cancelled before it. */
  datatype Fate = Removed | Gone | Kept | Cancelled

  datatype Run = Run(evicted: seq<CacheFile>, left: int, cancelled: bool)

  function LowWater(capBytes: int): int { capBytes - capBytes / 10 }

  function Evict(candidates: seq<CacheFile>, total: int, lowWater: int, fate: string -> Fate): Run {
    if candidates == [] || total <= lowWater then Run([], total, false)
    else
      var f := candidates[0];
      match fate(f.path)
      case Cancelled => Run([], total, true)
      case Kept => Evict(candidates[1..], total, lowWater, fate)
      case Gone => Evict(candidates[1..], total - f.size, lowWater, fate)
      case Removed =>
        var rest := Evict(candidates[1..], total - f.size, lowWater, fate);
        rest.(evicted := [f] + rest.evicted)
  }

  method EvictOldest(candidates: seq<CacheFile>, seen: int, lowWater: int, fate: string -> Fate)
    returns (run: Run, freed: nat)
    ensures run == Evict(candidates, seen, lowWater, fate)
    ensures freed == Bytes(run.evicted)
  {
    var evicted: seq<CacheFile> := [];
    var total := seen;
    freed := 0;
    assert candidates[0..] == candidates;
    PrefixNothing(Evict(candidates, seen, lowWater, fate));
    for i := 0 to |candidates|
      invariant freed == Bytes(evicted)
      invariant Evict(candidates, seen, lowWater, fate)
                == Prefix(evicted, Evict(candidates[i..], total, lowWater, fate))
    {
      var f := candidates[i];
      EvictStep(candidates, i, evicted, total, lowWater, fate);
      if total <= lowWater { return Run(evicted, total, false), freed; }
      match fate(f.path) {
        case Cancelled => return Run(evicted, total, true), freed;
        case Gone => total := total - f.size;
        case Kept =>
        case Removed =>
          BytesAppend(evicted, [f]);
          evicted := evicted + [f];
          total := total - f.size;
          freed := freed + f.size;
      }
    }
    assert candidates[|candidates|..] == [] && evicted + [] == evicted;
    run := Run(evicted, total, false);
  }

  /** A run with the files evicted before it. */
  function Prefix(evicted: seq<CacheFile>, rest: Run): Run { rest.(evicted := evicted + rest.evicted) }

  lemma PrefixNothing(rest: Run)
    ensures Prefix([], rest) == rest
  {
    assert [] + rest.evicted == rest.evicted;
  }

  lemma EvictStep(candidates: seq<CacheFile>, i: nat, evicted: seq<CacheFile>, total: int, lowWater: int,
                  fate: string -> Fate)
    requires i < |candidates|
    ensures var f, r := candidates[i], Prefix(evicted, Evict(candidates[i..], total, lowWater, fate));
            if total <= lowWater then r == Run(evicted, total, false)
            else
              match fate(f.path)
              case Cancelled => r == Run(evicted, total, true)
              case Kept => r == Prefix(evicted, Evict(candidates[i + 1..], total, lowWater, fate))
              case Gone => r == Prefix(evicted, Evict(candidates[i + 1..], total - f.size, lowWater, fate))
              case Removed => r == Prefix(evicted + [f], Evict(candidates[i + 1..], total - f.size, lowWater, fate))
  {
    var f := candidates[i];
    assert candidates[i..][1..] == candidates[i + 1..] && evicted + [] == evicted;
    var rest := Evict(candidates[i + 1..], total - f.size, lowWater, fate);
    assert evicted + ([f] + rest.evicted) == evicted + [f] + rest.evicted;
  }

  /** How many candidates the loop attempts to remove. */
  function Reached(candidates: seq<CacheFile>, total: int, lowWater: int, fate: string -> Fate): (n: nat)
    ensures n <= |candidates|
  {
    if candidates == [] || total <= lowWater || fate(candidates[0].path).Cancelled? then 0
    else
      var f := candidates[0];
      1 + Reached(candidates[1..], if fate(f.path).Kept? then total else total - f.size, lowWater, fate)
  }

  /** Of the files attempted, the ones that met `end`. */
  function Met(files: seq<CacheFile>, fate: string -> Fate, end: Fate): seq<CacheFile> {
    if files == [] then []
    else (if fate(files[0].path) == end then [files[0]] else []) + Met(files[1..], fate, end)
  }

  /** The bytes that attempting `files` takes off the running total. */
  function Released(files: seq<CacheFile>, fate: string -> Fate): nat {
    Bytes(Met(files, fate, Removed)) + Bytes(Met(files, fate, Gone))
  }

  // ----- the pass -----

  function Pass(files: seq<CacheFile>, keep: Keep, portraitUnstatted: bool, capBytes: int, now: int,
                fate: string -> Fate): Run {
    if Bytes(files) <= capBytes then Run([], Bytes(files), false)
    else Evict(SortOldestFirst(Candidates(files, keep, portraitUnstatted, now)), Bytes(files), LowWater(capBytes), fate)
  }

  datatype CapResult = CapResult(evicted: nat, freed: nat, seen: nat, left: int, referenced: nat, unlisted: nat,
                                 unstatted: nat)

  const NO_RESULT := CapResult(0, 0, 0, 0, 0, 0, 0)

  datatype Outcome = Finished(result: CapResult) | Interrupted | StoreUnread | WalkError

  /** `store` is None when it cannot be read. The files the pass removed come back beside its result. */
  method SweepArtworkCache(walk: Walk, store: Option<Store>, capBytes: int, now: int, fate: string -> Fate)
    returns (outcome: Outcome, evicted: seq<CacheFile>)
    requires walk.Walked? ==> DistinctPaths(Counted(walk.visits)) && LinksAgree(Counted(walk.visits))
    ensures capBytes <= 0 || walk.RootGone? ==> outcome == Finished(NO_RESULT) && evicted == []
    ensures capBytes > 0 && walk.WalkFailed? ==> outcome.WalkError? && evicted == []
    ensures capBytes > 0 && walk.Walked? ==>
              var files := Counted(walk.visits);
              var hidden := PortraitHidden(walk.visits);
              if Bytes(files) > capBytes && store.None? then outcome.StoreUnread? && evicted == []
              else
                var keep := if store.Some? then KeepOf(store.value) else Keep({}, {});
                var run := Pass(files, keep, hidden, capBytes, now, fate);
                && evicted == run.evicted
                && if run.cancelled then outcome.Interrupted? else
                     && outcome.Finished? && var r := outcome.result;
                     && r.seen == Bytes(files) && r.left == run.left
                     && r.evicted == |run.evicted| && r.freed == Bytes(run.evicted)
                     && r.unlisted == CountWhere(walk.visits, true) && r.unstatted == CountWhere(walk.visits, false)
                     && r.referenced == if Bytes(files) <= capBytes then 0
                                        else Bytes(Restrict(files, ReferencedPaths(files, keep, hidden, now)))
  {
    evicted := [];
    if capBytes <= 0 || walk.RootGone? { return Finished(NO_RESULT), []; }
    if walk.WalkFailed? { return WalkError, []; }
    var s := WalkCache(walk.visits);
    var res := NO_RESULT.(seen := s.total, left := s.total, unlisted := s.unlisted, unstatted := s.unstatted);
    if s.total <= capBytes { return Finished(res), []; }
    if store.None? { return StoreUnread, []; }
    var candidates, referenced := CapCandidates(s.files, KeepOf(store.value), s.portraitUnstatted, now);
    candidates := SortOldestFirst(candidates);
    var run, freed := EvictOldest(candidates, s.total, LowWater(capBytes), fate);
    evicted := run.evicted;
    if run.cancelled { return Interrupted, evicted; }
    outcome := Finished(res.(referenced := referenced, left := run.left, freed := freed, evicted := |run.evicted|));
  }
}
