/** The size cap beside the writers of the cache: a writer puts a file on disk, and its row commits later. */
module ArtworkGrace {
  import opened ArtworkNames
  import opened ArtworkOrder
  import opened ArtworkPortraits
  import opened ArtworkCap

  /** A pass walks, reads the store in three queries, and removes one file at a time. */
  datatype PassState =
    | Idle
    | Walking(start: int, seen: seq<CacheFile>)
    | KeysRead(start: int, seen: seq<CacheFile>, keys: set<string>)    // the artwork keys
    | KnownRead(start: int, seen: seq<CacheFile>, known: set<string>)  // and the keys artist ids stand for
    | Evicting(start: int, toGo: set<CacheFile>)

  predicate HasSeen(pass: PassState) { pass.Walking? || pass.KeysRead? || pass.KnownRead? }

  /** `promised` gives the moment a writer put a file at a path with a row that commits within the grace of that
      moment and stays; `lost` holds the promised paths whose file a pass removed. */
  datatype World = World(clock: int, disk: map<string, CacheFile>, rows: Store, promised: map<string, int>,
                         pass: PassState, lost: set<string>)

  datatype Step =
    | Tick(to: int)
    | Put(file: CacheFile, promise: bool)   // a writer finds the path vacant and fills it
    | Replace(file: CacheFile)              // a writer rewrites the file at the path, such as to rescale it
    | Commit(rows: Store)
    | Drop(rows: Store)
    | VanishElsewhere(path: string)         // another remover, such as an operator's GC
    | StartPass | See(path: string) | ReadKeys | ReadKnown | ReadArtists(portraitUnstatted: bool)
    | Remove(file: CacheFile) | EndPass

  predicate ByKey(kind: Kind, keys: set<string>) { kind.Cover? && kind.stem in keys }

  predicate ByArtistKey(kind: Kind, rows: Store) { ByKey(kind, ThumbKeys(rows.artistIds)) }

  predicate ByArtist(kind: Kind, rows: Store) {
    kind.Portrait? && kind.mbid != "" && kind.mbid in LowerIds(rows.artistIds)
  }

  predicate RowNames(kind: Kind, rows: Store) {
    ByKey(kind, rows.artworkKeys) || ByArtistKey(kind, rows) || ByArtist(kind, rows)
  }

  /** Rows that name a file in one of the three ways still name it in that way. */
  predicate StillNames(kind: Kind, before: Store, after: Store) {
    && (ByKey(kind, before.artworkKeys) ==> ByKey(kind, after.artworkKeys))
    && (ByArtistKey(kind, before) ==> ByArtistKey(kind, after))
    && (ByArtist(kind, before) ==> ByArtist(kind, after))
  }

  /** The paths the running pass has seen a file at and may still remove. */
  function InHand(pass: PassState): set<string> {
    match pass
    case Idle => {}
    case Evicting(_, toGo) => set f | f in toGo :: f.path
    case _ => set f | f in pass.seen :: f.path
  }

  /** What a file is to the cap follows from its path alone. */
  type Kinds = string -> Kind

  /** Each promised file's row is there, or has the rest of the grace to come. */
  ghost predicate PromisesKept(promised: map<string, int>, rows: Store, clock: int, kindOf: Kinds) {
    forall p :: p in promised ==> RowNames(kindOf(p), rows) || clock <= promised[p] + CAP_GRACE
  }

  /** `others` says whether another remover may take a file the running pass has in hand. */
  ghost predicate WriterStep(s: World, step: Step, t: World, kindOf: Kinds, others: bool) {
    match step
    case Tick(to) =>
      s.clock <= to && PromisesKept(s.promised, s.rows, to, kindOf) && t == s.(clock := to)
    case Put(f, promise) =>
      && f.path !in s.disk && f.mod == s.clock && f.kind == kindOf(f.path)
      && (promise ==> f.kind.Cover? || IsMbidPortrait(f))
      && t == s.(disk := s.disk[f.path := f],
                 promised := if promise then s.promised[f.path := s.clock] else s.promised - {f.path})
    case Replace(f) =>
      && f.path in s.disk && f.mod == s.clock && f.kind == kindOf(f.path)
      && t == s.(disk := s.disk[f.path := f])
    case Commit(rows) =>
      t == s.(rows := Store(s.rows.artworkKeys + rows.artworkKeys, s.rows.artistIds + rows.artistIds))
    case Drop(rows) =>
      var left := Store(s.rows.artworkKeys - rows.artworkKeys, s.rows.artistIds - rows.artistIds);
      && (forall p :: p in s.promised ==> StillNames(kindOf(p), s.rows, left))
      && t == s.(rows := left)
    case VanishElsewhere(path) =>
      && (path in InHand(s.pass) ==> others)
      && t == s.(disk := s.disk - {path}, promised := s.promised - {path})
    case _ => false
  }

  function ToGo(pass: PassState, artists: set<string>, portraitUnstatted: bool): set<CacheFile>
    requires pass.KnownRead?
  {
    set f | f in pass.seen && MayEvict(f, pass.seen, Keep(pass.known, artists), portraitUnstatted, pass.start)
  }

  ghost predicate PassStep(s: World, step: Step, t: World) {
    match step
    case StartPass =>
      s.pass.Idle? && t == s.(pass := Walking(s.clock, []))
    case See(path) =>
      && s.pass.Walking? && path in s.disk && path !in InHand(s.pass)
      && t == s.(pass := Walking(s.pass.start, s.pass.seen + [s.disk[path]]))
    case ReadKeys =>
      s.pass.Walking? && t == s.(pass := KeysRead(s.pass.start, s.pass.seen, s.rows.artworkKeys))
    case ReadKnown =>
      && s.pass.KeysRead?
      && t == s.(pass := KnownRead(s.pass.start, s.pass.seen, s.pass.keys + ThumbKeys(s.rows.artistIds)))
    case ReadArtists(portraitUnstatted) =>
      && s.pass.KnownRead?
      && t == s.(pass := Evicting(s.pass.start, ToGo(s.pass, LowerIds(s.rows.artistIds), portraitUnstatted)))
    case Remove(f) =>
      && s.pass.Evicting? && f in s.pass.toGo
      && t == s.(pass := Evicting(s.pass.start, s.pass.toGo - {f}),
                 disk := s.disk - {f.path}, promised := s.promised - {f.path},
                 lost := if f.path in s.promised then s.lost + {f.path} else s.lost)
    case EndPass =>
      s.pass.Evicting? && t == s.(pass := Idle)
    case _ => false
  }

  predicate IsPass(step: Step) {
    || step.StartPass? || step.See? || step.ReadKeys? || step.ReadKnown? || step.ReadArtists? || step.Remove?
    || step.EndPass?
  }

  ghost predicate Next(s: World, step: Step, t: World, kindOf: Kinds, others: bool) {
    if IsPass(step) then PassStep(s, step, t) else WriterStep(s, step, t, kindOf, others)
  }

  ghost predicate Init(s: World) { s.disk == map[] && s.promised == map[] && s.pass.Idle? && s.lost == {} }

  ghost predicate Run(states: seq<World>, steps: seq<Step>, kindOf: Kinds, others: bool) {
    && |states| == |steps| + 1 && Init(states[0])
    && forall i :: 0 <= i < |steps| ==> Next(states[i], steps[i], states[i + 1], kindOf, others)
  }

  // ----- what every run keeps -----

  /** The files on disk, and the promises about them. */
  ghost predicate DiskInv(s: World, kindOf: Kinds) {
    && (forall p :: p in s.disk ==> s.disk[p].path == p && s.disk[p].mod <= s.clock && s.disk[p].kind == kindOf(p))
    && (forall p :: p in s.promised ==>
          p in s.disk && s.promised[p] <= s.disk[p].mod
            && (kindOf(p).Cover? || (kindOf(p).Portrait? && kindOf(p).mbid != "")))
    && PromisesKept(s.promised, s.rows, s.clock, kindOf)
  }

  /** The pass has one file in hand at a path. */
  predicate OneAPath(pass: PassState) {
    match pass
    case Idle => true
    case Evicting(_, toGo) => forall f, g :: f in toGo && g in toGo && f.path == g.path ==> f == g
    case _ => forall f, g :: f in pass.seen && g in pass.seen && f.path == g.path ==> f == g
  }

  /** A file the walk met is no older than its promise, or met before the promise was made. */
  ghost predicate SeenInv(s: World, kindOf: Kinds, others: bool) {
    HasSeen(s.pass) ==>
      && s.pass.start <= s.clock
      && forall f :: f in s.pass.seen ==>
           && f.kind == kindOf(f.path) && (!others ==> f.path in s.disk)
           && (f.path in s.promised ==>
                 s.promised[f.path] <= f.mod || (others && s.promised[f.path] >= s.pass.start))
  }

  /** What the queries so far found of a file, or the ones to come will. */
  predicate Found(kind: Kind, pass: PassState, rows: Store) {
    match pass
    case KeysRead(_, _, keys) => ByKey(kind, keys) || ByArtistKey(kind, rows) || ByArtist(kind, rows)
    case KnownRead(_, _, known) => ByKey(kind, known) || ByArtist(kind, rows)
    case _ => true
  }

  /** A promise older than the grace when the pass began is in what the pass reads, whichever query finds it. */
  ghost predicate FoundInv(s: World, kindOf: Kinds) {
    HasSeen(s.pass) ==>
      forall p :: p in s.promised && s.promised[p] < s.pass.start - CAP_GRACE ==> Found(kindOf(p), s.pass, s.rows)
  }

  /** A file about to go is older than the grace, and any promise of its path is newer than the pass. */
  ghost predicate ToGoInv(s: World, others: bool) {
    s.pass.Evicting? ==>
      && s.pass.start <= s.clock
      && forall f :: f in s.pass.toGo ==>
           && f.mod < s.pass.start - CAP_GRACE && (!others ==> f.path in s.disk)
           && (f.path in s.promised ==> others && s.promised[f.path] >= s.pass.start)
  }

  ghost predicate Safe(s: World, kindOf: Kinds, others: bool) {
    && DiskInv(s, kindOf) && OneAPath(s.pass) && SeenInv(s, kindOf, others) && FoundInv(s, kindOf)
    && ToGoInv(s, others) && (!others ==> s.lost == {})
  }

  lemma DiskKept(s: World, step: Step, t: World, kindOf: Kinds, others: bool)
    requires DiskInv(s, kindOf) && Next(s, step, t, kindOf, others)
    ensures DiskInv(t, kindOf)
  {
    if IsPass(step) { PassKeepsDisk(s, step, t, kindOf); } else { WriterKeepsDisk(s, step, t, kindOf, others); }
  }

  lemma PassKeepsDisk(s: World, step: Step, t: World, kindOf: Kinds)
    requires DiskInv(s, kindOf) && PassStep(s, step, t)
    ensures DiskInv(t, kindOf)
  {
  }

  lemma WriterKeepsDisk(s: World, step: Step, t: World, kindOf: Kinds, others: bool)
    requires DiskInv(s, kindOf) && WriterStep(s, step, t, kindOf, others)
    ensures DiskInv(t, kindOf)
  {
  }

  lemma OneAPathKept(s: World, step: Step, t: World, kindOf: Kinds, others: bool)
    requires DiskInv(s, kindOf) && OneAPath(s.pass) && Next(s, step, t, kindOf, others)
    ensures OneAPath(t.pass)
  {
    match step {
      case See(path) =>
        forall f | f in s.pass.seen ensures f.path != path { assert f.path in InHand(s.pass); }
      case _ =>
    }
  }

  lemma SeenKept(s: World, step: Step, t: World, kindOf: Kinds, others: bool)
    requires DiskInv(s, kindOf) && SeenInv(s, kindOf, others) && Next(s, step, t, kindOf, others)
    ensures SeenInv(t, kindOf, others)
  {
    if IsPass(step) { PassKeepsSeen(s, step, t, kindOf, others); } else { WriterKeepsSeen(s, step, t, kindOf, others); }
  }

  lemma PassKeepsSeen(s: World, step: Step, t: World, kindOf: Kinds, others: bool)
    requires DiskInv(s, kindOf) && SeenInv(s, kindOf, others) && PassStep(s, step, t)
    ensures SeenInv(t, kindOf, others)
  {
  }

  lemma WriterKeepsSeen(s: World, step: Step, t: World, kindOf: Kinds, others: bool)
    requires DiskInv(s, kindOf) && SeenInv(s, kindOf, others) && WriterStep(s, step, t, kindOf, others)
    ensures SeenInv(t, kindOf, others)
  {
    match step {
      case VanishElsewhere(path) =>
        if HasSeen(s.pass) { assert forall f :: f in s.pass.seen ==> f.path in InHand(s.pass); }
      case _ =>
    }
  }

  lemma FoundKept(s: World, step: Step, t: World, kindOf: Kinds, others: bool)
    requires DiskInv(s, kindOf) && SeenInv(s, kindOf, others) && FoundInv(s, kindOf)
    requires Next(s, step, t, kindOf, others)
    ensures FoundInv(t, kindOf)
  {
    if IsPass(step) { PassKeepsFound(s, step, t, kindOf); } else { WriterKeepsFound(s, step, t, kindOf, others); }
  }

  lemma PassKeepsFound(s: World, step: Step, t: World, kindOf: Kinds)
    requires DiskInv(s, kindOf) && FoundInv(s, kindOf) && (HasSeen(s.pass) ==> s.pass.start <= s.clock)
    requires PassStep(s, step, t)
    ensures FoundInv(t, kindOf)
  {
    if t.pass.KeysRead? || t.pass.KnownRead? {
      forall p | p in t.promised && t.promised[p] < t.pass.start - CAP_GRACE
        ensures Found(kindOf(p), t.pass, t.rows)
      {
        assert RowNames(kindOf(p), s.rows);
        assert Found(kindOf(p), s.pass, s.rows);
      }
    }
  }

  lemma WriterKeepsFound(s: World, step: Step, t: World, kindOf: Kinds, others: bool)
    requires FoundInv(s, kindOf) && (HasSeen(s.pass) ==> s.pass.start <= s.clock)
    requires WriterStep(s, step, t, kindOf, others)
    ensures FoundInv(t, kindOf)
  {
    if HasSeen(t.pass) {
      forall p | p in t.promised && t.promised[p] < t.pass.start - CAP_GRACE
        ensures Found(kindOf(p), t.pass, t.rows)
      {
        RowsStay(s, step, t, kindOf, others, p);
        assert Found(kindOf(p), s.pass, s.rows);
      }
    }
  }

  /** A writer leaves an older promise as it was, and its row. */
  lemma RowsStay(s: World, step: Step, t: World, kindOf: Kinds, others: bool, p: string)
    requires WriterStep(s, step, t, kindOf, others) && p in t.promised && t.promised[p] < s.clock
    ensures t.pass == s.pass && p in s.promised && s.promised[p] == t.promised[p]
    ensures StillNames(kindOf(p), s.rows, t.rows)
  {
  }

  lemma ToGoKept(s: World, step: Step, t: World, kindOf: Kinds, others: bool)
    requires Safe(s, kindOf, others) && Next(s, step, t, kindOf, others)
    ensures ToGoInv(t, others) && (!others ==> t.lost == {})
  {
    if IsPass(step) { PassKeepsToGo(s, step, t, kindOf, others); } else { WriterKeepsToGo(s, step, t, kindOf, others); }
  }

  lemma PassKeepsToGo(s: World, step: Step, t: World, kindOf: Kinds, others: bool)
    requires Safe(s, kindOf, others) && PassStep(s, step, t)
    ensures ToGoInv(t, others) && (!others ==> t.lost == {})
  {
    match step {
      case ReadArtists(portraitUnstatted) =>
        forall f | f in t.pass.toGo && f.path in t.promised ensures others && t.promised[f.path] >= t.pass.start {
          assert !ByKey(f.kind, s.pass.known) && !ByArtist(f.kind, s.rows);
        }
      case _ =>
    }
  }

  lemma WriterKeepsToGo(s: World, step: Step, t: World, kindOf: Kinds, others: bool)
    requires ToGoInv(s, others) && (!others ==> s.lost == {}) && WriterStep(s, step, t, kindOf, others)
    ensures ToGoInv(t, others) && (!others ==> t.lost == {})
  {
    match step {
      case VanishElsewhere(path) =>
        if s.pass.Evicting? { assert forall f :: f in s.pass.toGo ==> f.path in InHand(s.pass); }
      case _ =>
    }
  }

  lemma {:induction false} RunSafe(states: seq<World>, steps: seq<Step>, kindOf: Kinds, others: bool, i: nat)
    requires Run(states, steps, kindOf, others) && i < |states|
    ensures Safe(states[i], kindOf, others)
  {
    if i == 0 {
    } else {
      RunSafe(states, steps, kindOf, others, i - 1);
      DiskKept(states[i - 1], steps[i - 1], states[i], kindOf, others);
      OneAPathKept(states[i - 1], steps[i - 1], states[i], kindOf, others);
      SeenKept(states[i - 1], steps[i - 1], states[i], kindOf, others);
      FoundKept(states[i - 1], steps[i - 1], states[i], kindOf, others);
      ToGoKept(states[i - 1], steps[i - 1], states[i], kindOf, others);
    }
  }

  /** Whatever else happens, a pass removes a promised file only in place of one it saw before the promise was
      made: the grace and the order of the pass's reads cover every promise that was there when the walk came by. */
  lemma PromisedFileOnlyLostUnseen(states: seq<World>, steps: seq<Step>, kindOf: Kinds, others: bool, i: nat)
    requires Run(states, steps, kindOf, others) && i < |steps| && steps[i].Remove?
    requires steps[i].file.path in states[i].promised
    ensures var s, f := states[i], steps[i].file;
            && s.pass.Evicting? && f.path in s.disk && f.mod < s.pass.start - CAP_GRACE
            && s.pass.start <= s.promised[f.path] <= s.disk[f.path].mod
  {
    assert Next(states[i], steps[i], states[i + 1], kindOf, others);
    RunSafe(states, steps, kindOf, others, i);
  }

  const K := "k"
  const OLD := CacheFile("/k", Cover(K), 1, 0, 1)
  const LATE := 3 * CAP_GRACE
  const NEW := CacheFile("/k", Cover(K), 1, LATE, 2)

  function AllCovers(path: string): Kind { Cover(K) }

  function RefillState(i: nat): World {
    var before, after := map["/k" := OLD], map["/k" := NEW];
    var none := Store({}, {});
    if i == 0 then World(0, map[], none, map[], Idle, {})
    else if i == 1 then World(0, before, none, map[], Idle, {})
    else if i == 2 then World(LATE, before, none, map[], Idle, {})
    else if i == 3 then World(LATE, before, none, map[], Walking(LATE, []), {})
    else if i == 4 then World(LATE, before, none, map[], Walking(LATE, [OLD]), {})
    else if i == 5 then World(LATE, before, none, map[], KeysRead(LATE, [OLD], {}), {})
    else if i == 6 then World(LATE, before, none, map[], KnownRead(LATE, [OLD], {}), {})
    else if i == 7 then World(LATE, before, none, map[], Evicting(LATE, {OLD}), {})
    else if i == 8 then World(LATE, map[], none, map[], Evicting(LATE, {OLD}), {})
    else if i == 9 then World(LATE, after, none, map["/k" := LATE], Evicting(LATE, {OLD}), {})
    else World(LATE, map[], none, map[], Evicting(LATE, {}), {"/k"})
  }

  const REFILL := [Put(OLD, false), Tick(LATE), StartPass, See("/k"), ReadKeys, ReadKnown, ReadArtists(false),
                   VanishElsewhere("/k"), Put(NEW, true), Remove(OLD)]

  lemma RefillBegins(i: nat)
    requires i < 7
    ensures Next(RefillState(i), REFILL[i], RefillState(i + 1), AllCovers, true)
  {
    SampleRead();
    assert [] + [OLD] == [OLD];
  }

  lemma RefillEnds(i: nat)
    requires 7 <= i < 10
    ensures Next(RefillState(i), REFILL[i], RefillState(i + 1), AllCovers, true)
  {
    var s := RefillState(i);
    assert s.disk - {"/k"} == map[] && s.promised - {"/k"} == map[];
    assert {OLD} - {OLD} == {} && {} + {"/k"} == {"/k"};
  }

  /** Another remover vacates a path the pass has in hand, a writer fills it, and the pass removes the
      new file. */
  lemma RefilledPathIsLost() returns (states: seq<World>, steps: seq<Step>)
    ensures Run(states, steps, AllCovers, true) && states[|states| - 1].lost == {"/k"}
  {
    states, steps := seq(11, i requires 0 <= i => RefillState(i)), REFILL;
    forall i | 0 <= i < |steps| ensures Next(states[i], steps[i], states[i + 1], AllCovers, true) {
      if i < 7 { RefillBegins(i); } else { RefillEnds(i); }
    }
  }

  lemma SampleRead()
    ensures ThumbKeys({}) == {} && LowerIds({}) == {} && {} + ThumbKeys({}) == {}
    ensures ToGo(KnownRead(LATE, [OLD], {}), {}, false) == {OLD}
  {
    assert OLD in [OLD] && MayEvict(OLD, [OLD], Keep({}, {}), false, LATE);
  }

  /** In every interleaving no promised cover or portrait is ever evicted, exactly when no other remover
      takes a file the running pass has in hand. */
  lemma PromisedFilesKeptExactly(others: bool)
    ensures (forall kindOf, states: seq<World>, steps ::
               Run(states, steps, kindOf, others) ==> states[|states| - 1].lost == {})
            <==> !others
  {
    if others {
      var states, steps := RefilledPathIsLost();
      assert "/k" in states[|states| - 1].lost;
    } else {
      forall kindOf, states: seq<World>, steps | Run(states, steps, kindOf, others)
        ensures states[|states| - 1].lost == {}
      {
        RunSafe(states, steps, kindOf, others, |states| - 1);
      }
    }
  }
}
