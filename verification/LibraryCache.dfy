/** The DLNA library adapter: its three views of the served tracks, and the double-checked rebuild that
    fills them. */
module LibraryCache {
  import opened Basics

  // ----- one rebuild's views -----

  datatype Track = Track(path: string, sacdVirtual: bool)

  /** An empty absPath says the bytes come from an upstream server. */
  datatype TrackInfo = TrackInfo(id: string, path: string, absPath: string)

  datatype Views = Views(list: seq<TrackInfo>, byId: map<string, TrackInfo>, byPath: map<string, TrackInfo>)

  /** What a rebuild knows beside the tracks: which paths an upstream server serves, where a path resolves,
      and the id a path hashes to. */
  datatype World = World(routed: set<string>, resolve: string -> Option<string>, idOf: string -> string)

  predicate Listed(t: Track, w: World) {
    t.path in w.routed || (!t.sacdVirtual && w.resolve(t.path).Some?)
  }

  function InfoOf(t: Track, w: World): TrackInfo {
    TrackInfo(w.idOf(t.path), t.path, match w.resolve(t.path) case Some(abs) => abs case None => "")
  }

  function ListOf(tracks: seq<Track>, w: World): seq<TrackInfo> {
    if tracks == [] then []
    else
      var n := |tracks| - 1;
      ListOf(tracks[..n], w) + if Listed(tracks[n], w) then [InfoOf(tracks[n], w)] else []
  }

  const ID: TrackInfo -> string := (t: TrackInfo) => t.id
  const PATH: TrackInfo -> string := (t: TrackInfo) => t.path

  /** Each key with the last listed track that has it. */
  function Index(list: seq<TrackInfo>, key: TrackInfo -> string): map<string, TrackInfo> {
    if list == [] then map[]
    else
      var n := |list| - 1;
      Index(list[..n], key)[key(list[n]) := list[n]]
  }

  lemma IndexStep(list: seq<TrackInfo>, ti: TrackInfo)
    ensures Index(list + [ti], ID) == Index(list, ID)[ti.id := ti]
    ensures Index(list + [ti], PATH) == Index(list, PATH)[ti.path := ti]
  {
    assert (list + [ti])[..|list|] == list;
  }

  method BuildViews(tracks: seq<Track>, w: World) returns (v: Views)
    ensures v.list == ListOf(tracks, w)
    ensures v.byId == Index(v.list, ID) && v.byPath == Index(v.list, PATH)
  {
    var list: seq<TrackInfo>, byId: map<string, TrackInfo>, byPath: map<string, TrackInfo> := [], map[], map[];
    for n := 0 to |tracks|
      invariant list == ListOf(tracks[..n], w)
      invariant byId == Index(list, ID) && byPath == Index(list, PATH)
    {
      var t := tracks[n];
      assert tracks[..n + 1][..n] == tracks[..n];
      var routed := t.path in w.routed;
      if !routed && t.sacdVirtual { continue; }
      var resolved := w.resolve(t.path);
      if resolved.None? && !routed { continue; }
      var ti := TrackInfo(w.idOf(t.path), t.path, if resolved.None? then "" else resolved.value);
      IndexStep(list, ti);
      list := list + [ti];
      byId := byId[ti.id := ti];
      byPath := byPath[ti.path := ti];
    }
    assert tracks[..|tracks|] == tracks;
    v := Views(list, byId, byPath);
  }

  /** A track some upstream serves is listed whatever its path; any other one unless it is virtual or nothing is at its
      path. The entry has the id its path hashes to, and where it resolves, if it does. */
  predicate ListsAs(t: Track, w: World, ti: TrackInfo) {
    && (t.path in w.routed || (!t.sacdVirtual && w.resolve(t.path).Some?))
    && ti.path == t.path && ti.id == w.idOf(t.path)
    && (if w.resolve(t.path).Some? then w.resolve(t.path) == Some(ti.absPath) else ti.absPath == "")
  }

  lemma {:induction false} ListMember(tracks: seq<Track>, w: World, ti: TrackInfo)
    ensures ti in ListOf(tracks, w) <==> exists t :: t in tracks && ListsAs(t, w, ti)
  {
    if tracks == [] {
    } else {
      var n := |tracks| - 1;
      ListMember(tracks[..n], w, ti);
      assert tracks == tracks[..n] + [tracks[n]];
      assert Listed(tracks[n], w) && InfoOf(tracks[n], w) == ti <==> ListsAs(tracks[n], w, ti);
    }
  }

  function ListedIn(w: World): Track -> bool { (t: Track) => Listed(t, w) }

  function InfoIn(w: World): Track -> TrackInfo { (t: Track) => InfoOf(t, w) }

  /** The list is in the store's order, a track once for each time the store has it. */
  lemma {:induction false} ListKeepsOrder(tracks: seq<Track>, w: World)
    ensures Sifted(tracks, ListedIn(w), InfoIn(w), ListOf(tracks, w))
    ensures forall i :: 0 <= i < |tracks| && Listed(tracks[i], w) ==> ListsAs(tracks[i], w, InfoOf(tracks[i], w))
  {
    if tracks == [] {
    } else {
      var n := |tracks| - 1;
      ListKeepsOrder(tracks[..n], w);
      SiftedStep(tracks[..n], tracks[n], ListedIn(w), InfoIn(w), ListOf(tracks[..n], w));
      assert tracks == tracks[..n] + [tracks[n]];
    }
  }

  /** The store lists each path once, and no two of its paths hash to one id. */
  ghost predicate KeysApart(tracks: seq<Track>, w: World) {
    forall s, t :: s in tracks && t in tracks && (s.path == t.path || w.idOf(s.path) == w.idOf(t.path)) ==> s == t
  }

  /** The three views agree: every listed track is found by its id and by its path, and both find nothing
      else; so what a browse lists, a file request serves and a search resolves. */
  lemma ViewsAgree(tracks: seq<Track>, w: World, ti: TrackInfo)
    requires KeysApart(tracks, w)
    ensures var list, byId, byPath := ListOf(tracks, w), Index(ListOf(tracks, w), ID), Index(ListOf(tracks, w), PATH);
            && (ti in list <==> ti.id in byId && byId[ti.id] == ti)
            && (ti in list <==> ti.path in byPath && byPath[ti.path] == ti)
  {
    var list := ListOf(tracks, w);
    forall a, b | a in list && b in list && (a.id == b.id || a.path == b.path)
      ensures a == b
    {
      SameKeySameTrack(tracks, w, a, b);
    }
    IndexAgrees(list, ID, ti);
    IndexAgrees(list, PATH, ti);
  }

  lemma {:induction false} IndexAgrees(list: seq<TrackInfo>, key: TrackInfo -> string, ti: TrackInfo)
    requires forall a, b :: a in list && b in list && key(a) == key(b) ==> a == b
    ensures ti in list <==> key(ti) in Index(list, key) && Index(list, key)[key(ti)] == ti
  {
    if list == [] {
    } else {
      var n := |list| - 1;
      IndexAgrees(list[..n], key, ti);
      assert list == list[..n] + [list[n]];
      assert list[n] in list;
    }
  }

  lemma SameKeySameTrack(tracks: seq<Track>, w: World, a: TrackInfo, b: TrackInfo)
    requires KeysApart(tracks, w) && a in ListOf(tracks, w) && b in ListOf(tracks, w)
    requires a.id == b.id || a.path == b.path
    ensures a == b
  {
    ListMember(tracks, w, a);
    ListMember(tracks, w, b);
    var s :| s in tracks && ListsAs(s, w, a);
    var t :| t in tracks && ListsAs(t, w, b);
    assert s == t;
  }

  // ----- the cached slots -----

  lemma {:induction false} IndexMeaning(list: seq<TrackInfo>, key: TrackInfo -> string, k: string)
    ensures k in Index(list, key) <==> exists ti :: ti in list && key(ti) == k
    ensures k in Index(list, key) ==> IsLast(list, key, k, Index(list, key)[k])
  {
    if list == [] {
    } else {
      var n := |list| - 1;
      IndexMeaning(list[..n], key, k);
      assert list == list[..n] + [list[n]];
      if key(list[n]) == k {
        assert list[n] in list;
      } else if k in Index(list, key) {
        var i :| 0 <= i < n && list[..n][i] == Index(list, key)[k] && key(list[..n][i]) == k
          && forall j :: i < j < n ==> key(list[..n][j]) != k;
        assert forall j :: i < j < n ==> list[..n][j] == list[j];
        assert list[i] == Index(list, key)[k];
      }
    }
  }

  /** The last entry of the list with that key. */
  ghost predicate IsLast(list: seq<TrackInfo>, key: TrackInfo -> string, k: string, ti: TrackInfo) {
    exists i :: 0 <= i < |list| && list[i] == ti && key(list[i]) == k
                && forall j :: i < j < |list| ==> key(list[j]) != k
  }

  /** The fields the adapter's mutex guards. A nil list is None. */
  class Slots {
    var list: Option<seq<TrackInfo>>
    var byId: map<string, TrackInfo>
    var byPath: map<string, TrackInfo>
    var cachedAt: int
    var generation: nat

    function Listing(): seq<TrackInfo>
      reads this
    {
      if list.Some? then list.value else []
    }

    /** The indexes are those of the list, and there is a list once one was published. */
    ghost predicate Valid()
      reads this
    {
      byId == Index(Listing(), ID) && byPath == Index(Listing(), PATH) && (list.None? <==> generation == 0)
    }

    constructor ()
      ensures Valid() && list.None?
    {
      list, byId, byPath, cachedAt, generation := None, map[], map[], 0, 0;
    }

    /** A rebuild that asks at `now`, and walks until `done`; no tracks is a listing that failed. A cache still
        fresh, or a walk that fails, leaves all as it was; any other publishes the three views of its walk. */
    method Rebuild(tracks: Option<seq<Track>>, w: World, now: int, done: int)
      requires Valid() && now <= done
      modifies this
      ensures Valid()
      ensures if old(list.Some? && now - cachedAt < 30_000_000_000) || tracks.None? then
                unchanged(this)
              else
                list == Some(ListOf(tracks.value, w)) && cachedAt == done && generation == old(generation) + 1
    {
      if (list.Some? && now - cachedAt < CACHE_TTL) || tracks.None? { return; }
      var v := BuildViews(tracks.value, w);
      list, byId, byPath, cachedAt, generation := Some(v.list), v.byId, v.byPath, done, generation + 1;
    }

    /** The id finds the last listed track that has it, and fails only when none does. */
    method GetTrackInfo(id: string) returns (r: Option<TrackInfo>)
      requires Valid()
      ensures r.Some? ==> r.value in Listing() && r.value.id == id && IsLast(Listing(), ID, id, r.value)
      ensures r.None? ==> forall ti :: ti in Listing() ==> ti.id != id
    {
      IndexMeaning(Listing(), ID, id);
      if id in byId { return Some(byId[id]); }
      return None;
    }

    /** The hits the cache carries, in the order the index ranked them: listed tracks at the paths hit, one for
        every hit that a listed track is at. */
    method ResolveHits(hits: seq<string>) returns (out: seq<TrackInfo>)
      requires Valid()
      ensures out == Resolved(hits, byPath)
      ensures |out| == HowMany(hits, Carried(byPath))
      ensures forall i :: 0 <= i < |hits| && hits[i] in byPath ==>
                            var j := HowMany(hits[..i], Carried(byPath)); j < |out| && out[j] == byPath[hits[i]]
      ensures forall ti :: ti in out ==> ti in Listing() && ti.path in hits
      ensures forall h :: h in hits && (exists ti :: ti in Listing() && ti.path == h) ==>
                            exists ti :: ti in out && ti.path == h
    {
      out := [];
      for i := 0 to |hits|
        invariant out == Resolved(hits[..i], byPath)
      {
        assert hits[..i + 1][..i] == hits[..i];
        if hits[i] in byPath { out := out + [byPath[hits[i]]]; }
      }
      assert hits[..|hits|] == hits;
      ResolvedKeepsOrder(hits, byPath);
      forall h
        ensures h in byPath <==> exists ti :: ti in Listing() && ti.path == h
      {
        IndexMeaning(Listing(), PATH, h);
      }
      forall ti | ti in out ensures ti in Listing() && ti.path in hits {
        var h := ResolvedMember(hits, byPath, ti);
        IndexMeaning(Listing(), PATH, h);
      }
      forall h | h in hits && (exists ti :: ti in Listing() && ti.path == h)
        ensures exists ti :: ti in out && ti.path == h
      {
        IndexMeaning(Listing(), PATH, h);
        ResolvedKeeps(hits, byPath, h);
      }
    }
  }

  function Resolved(hits: seq<string>, byPath: map<string, TrackInfo>): seq<TrackInfo> {
    if hits == [] then []
    else
      var n := |hits| - 1;
      Resolved(hits[..n], byPath) + if hits[n] in byPath then [byPath[hits[n]]] else []
  }

  /** Whether the cache carries a hit. */
  function Carried(byPath: map<string, TrackInfo>): string -> bool { (h: string) => h in byPath }

  function At(byPath: map<string, TrackInfo>): string -> TrackInfo {
    (h: string) => if h in byPath then byPath[h] else TrackInfo("", "", "")
  }

  /** The order the hits were ranked in is the order they come out in. */
  lemma {:induction false} ResolvedKeepsOrder(hits: seq<string>, byPath: map<string, TrackInfo>)
    ensures Sifted(hits, Carried(byPath), At(byPath), Resolved(hits, byPath))
  {
    if hits == [] {
    } else {
      var n := |hits| - 1;
      ResolvedKeepsOrder(hits[..n], byPath);
      SiftedStep(hits[..n], hits[n], Carried(byPath), At(byPath), Resolved(hits[..n], byPath));
      assert hits == hits[..n] + [hits[n]];
    }
  }

  lemma {:induction false} ResolvedMember(hits: seq<string>, byPath: map<string, TrackInfo>, ti: TrackInfo)
    returns (h: string)
    requires ti in Resolved(hits, byPath)
    ensures h in hits && h in byPath && byPath[h] == ti
  {
    var n := |hits| - 1;
    if hits[n] in byPath && byPath[hits[n]] == ti {
      h := hits[n];
    } else {
      h := ResolvedMember(hits[..n], byPath, ti);
    }
  }

  lemma {:induction false} ResolvedKeeps(hits: seq<string>, byPath: map<string, TrackInfo>, h: string)
    requires h in hits && h in byPath
    ensures byPath[h] in Resolved(hits, byPath)
  {
    var n := |hits| - 1;
    if hits[n] != h {
      assert hits == hits[..n] + [hits[n]];
      ResolvedKeeps(hits[..n], byPath, h);
    }
  }

  // ----- any number of callers -----

  const CACHE_TTL := 30_000_000_000  // 30 seconds, in nanoseconds

  datatype Caller =
    | Away
    | Asking(began: int)
    | WantsRebuild(began: int)
    | Rechecking(began: int)                        // holds the rebuild mutex
    | Cleared(began: int)                           // holds it, and found the cache stale
    | Walking(began: int, start: int)               // holds it, and walks the library
    | Publishing(began: int, start: int, done: nat) // holds both, `done` of the five assignments behind it
    | Leaving(began: int, failed: bool)             // holds the rebuild mutex, about to release it
    | Ready(began: int, failed: bool)               // about to read the slots
    | Reading(began: int, failed: bool, done: nat, got: Got)   // holds the slots' mutex

  /** What a reader has read of the three slots. A slot holds the number of the walk that filled it. */
  datatype Got = Got(list: Option<nat>, byId: Option<nat>, byPath: Option<nat>)

  const NOTHING := Got(None, None, None)

  datatype Event =
    | WalkStarted(at: int)
    | Published(start: int, at: int)
    | Read(began: int, failed: bool, cachedAt: Option<int>, got: Got, generation: nat)

  /** `rebuilder` and `mu` hold the two mutexes. */
  datatype State = State(clock: int, rebuilder: Option<nat>, mu: Option<nat>, callers: seq<Caller>,
                         cachedAt: Option<int>, list: Option<nat>, byId: Option<nat>, byPath: Option<nat>,
                         generation: nat, log: seq<Event>)

  datatype Step =
    | Tick(to: int) | Ask(c: nat) | Check(c: nat) | LockRebuild(c: nat) | Recheck(c: nat) | StartWalk(c: nat)
    | WalkFails(c: nat) | LockPublish(c: nat) | Assign(c: nat) | UnlockPublish(c: nat) | UnlockRebuild(c: nat)
    | LockRead(c: nat) | ReadOne(c: nat) | UnlockRead(c: nat)

  predicate Fresh(s: State) { s.list.Some? && s.cachedAt.Some? && s.clock - s.cachedAt.value < CACHE_TTL }

  function Put(s: State, c: nat, to: Caller): seq<Caller>
    requires c < |s.callers|
  {
    s.callers[c := to]
  }

  /** The publication, one assignment at a time; the walk counts as published from the fourth. */
  predicate AssignStep(s: State, c: nat, t: State) {
    && c < |s.callers| && s.callers[c].Publishing? && s.callers[c].done < 5
    && var p := s.callers[c];
       var next := s.(callers := Put(s, c, Publishing(p.began, p.start, p.done + 1)));
       match p.done
       case 0 => t == next.(list := Some(s.generation))
       case 1 => t == next.(byId := Some(s.generation))
       case 2 => t == next.(byPath := Some(s.generation))
       case 3 => t == next.(cachedAt := Some(s.clock), log := s.log + [Published(p.start, s.clock)])
       case _ => t == next.(generation := s.generation + 1)
  }

  predicate ReadStep(s: State, c: nat, t: State) {
    && c < |s.callers| && s.callers[c].Reading? && s.callers[c].done < 3
    && var r := s.callers[c];
       var more := match r.done
                   case 0 => r.got.(list := s.list)
                   case 1 => r.got.(byId := s.byId)
                   case _ => r.got.(byPath := s.byPath);
       t == s.(callers := Put(s, c, Reading(r.began, r.failed, r.done + 1, more)))
  }

  ghost predicate Next(s: State, step: Step, t: State) {
    match step
    case Tick(to) => s.clock <= to && t == s.(clock := to)
    case Ask(c) => c < |s.callers| && s.callers[c].Away? && t == s.(callers := Put(s, c, Asking(s.clock)))
    case Check(c) =>
      && c < |s.callers| && s.callers[c].Asking? && s.mu.None?
      && var began := s.callers[c].began;
         t == s.(callers := Put(s, c, if Fresh(s) then Ready(began, false) else WantsRebuild(began)))
    case LockRebuild(c) =>
      && c < |s.callers| && s.callers[c].WantsRebuild? && s.rebuilder.None?
      && t == s.(rebuilder := Some(c), callers := Put(s, c, Rechecking(s.callers[c].began)))
    case Recheck(c) =>
      && c < |s.callers| && s.callers[c].Rechecking? && s.mu.None?
      && var began := s.callers[c].began;
         t == s.(callers := Put(s, c, if Fresh(s) then Leaving(began, false) else Cleared(began)))
    case StartWalk(c) =>
      && c < |s.callers| && s.callers[c].Cleared?
      && t == s.(callers := Put(s, c, Walking(s.callers[c].began, s.clock)), log := s.log + [WalkStarted(s.clock)])
    case WalkFails(c) =>
      && c < |s.callers| && s.callers[c].Walking?
      && t == s.(callers := Put(s, c, Leaving(s.callers[c].began, true)))
    case LockPublish(c) =>
      && c < |s.callers| && s.callers[c].Walking? && s.mu.None?
      && t == s.(mu := Some(c), callers := Put(s, c, Publishing(s.callers[c].began, s.callers[c].start, 0)))
    case Assign(c) => AssignStep(s, c, t)
    case UnlockPublish(c) =>
      && c < |s.callers| && s.callers[c].Publishing? && s.callers[c].done == 5
      && t == s.(mu := None, callers := Put(s, c, Leaving(s.callers[c].began, false)))
    case UnlockRebuild(c) =>
      && c < |s.callers| && s.callers[c].Leaving?
      && t == s.(rebuilder := None, callers := Put(s, c, Ready(s.callers[c].began, s.callers[c].failed)))
    case LockRead(c) =>
      && c < |s.callers| && s.callers[c].Ready? && s.mu.None?
      && t == s.(mu := Some(c), callers := Put(s, c, Reading(s.callers[c].began, s.callers[c].failed, 0, NOTHING)))
    case ReadOne(c) => ReadStep(s, c, t)
    case UnlockRead(c) =>
      && c < |s.callers| && s.callers[c].Reading? && s.callers[c].done == 3
      && var r := s.callers[c];
         t == s.(mu := None, callers := Put(s, c, Away),
                 log := s.log + [Read(r.began, r.failed, s.cachedAt, r.got, s.generation)])
  }

  ghost predicate Init(s: State) {
    && s.rebuilder.None? && s.mu.None? && s.cachedAt.None? && s.list.None? && s.byId.None? && s.byPath.None?
    && s.generation == 0 && s.log == []
    && forall c :: 0 <= c < |s.callers| ==> s.callers[c].Away?
  }

  ghost predicate Run(states: seq<State>, steps: seq<Step>) {
    && |states| == |steps| + 1 && Init(states[0])
    && forall i :: 0 <= i < |steps| ==> Next(states[i], steps[i], states[i + 1])
  }

  predicate HoldsRebuild(c: Caller) { c.Rechecking? || c.Cleared? || c.Walking? || c.Publishing? || c.Leaving? }

  predicate HoldsMu(c: Caller) { c.Publishing? || c.Reading? }

  /** After a publication, no walk starts before its answer is as old as the TTL. */
  ghost predicate WalksSpaced(log: seq<Event>) {
    forall i, j :: 0 <= i < j < |log| && log[i].Published? ==>
      && (log[j].WalkStarted? ==> log[j].at >= log[i].at + CACHE_TTL)
      && (log[j].Published? ==> log[j].start >= log[i].at + CACHE_TTL && log[j].at >= log[i].at + CACHE_TTL)
  }

  /** A read takes its three views from one walk, the last one published; and if no walk of the reader's own
      failed, that walk was published less than a TTL before the reader asked. */
  ghost predicate ReadsCoherent(log: seq<Event>) {
    forall i :: 0 <= i < |log| && log[i].Read? ==>
      && OneWalk(log[i].got, log[i].generation)
      && log[i].generation == Publications(log[..i])
      && (!log[i].failed ==> log[i].cachedAt.Some? && log[i].cachedAt.value > log[i].began - CACHE_TTL)
  }

  /** The three are of the walk the generation counts, or there was none. */
  predicate OneWalk(got: Got, generation: nat) {
    && got.list == got.byId == got.byPath
    && got.list == if generation == 0 then None else Some(generation - 1)
  }

  function Publications(log: seq<Event>): nat {
    if log == [] then 0 else Publications(log[..|log| - 1]) + if log[|log| - 1].Published? then 1 else 0
  }

  ghost predicate RebuildInv(s: State) {
    forall c :: 0 <= c < |s.callers| ==> (HoldsRebuild(s.callers[c]) <==> s.rebuilder == Some(c))
  }

  ghost predicate MuInv(s: State) {
    && (forall c :: 0 <= c < |s.callers| ==> (HoldsMu(s.callers[c]) <==> s.mu == Some(c)))
    && (s.mu.Some? ==> s.mu.value < |s.callers|)
  }

  /** How far the publication under way is. */
  function Done(s: State): nat {
    if s.mu.Some? && s.mu.value < |s.callers| && s.callers[s.mu.value].Publishing? then s.callers[s.mu.value].done
    else 0
  }

  /** A slot ahead of the generation holds the walk under publication, any other the last one published. */
  function Slot(s: State, ahead: bool): Option<nat> {
    if ahead then Some(s.generation) else if s.generation == 0 then None else Some(s.generation - 1)
  }

  ghost predicate SlotInv(s: State) {
    && Done(s) <= 5
    && s.list == Slot(s, 1 <= Done(s) <= 4) && s.byId == Slot(s, 2 <= Done(s) <= 4)
    && s.byPath == Slot(s, 3 <= Done(s) <= 4)
    && (s.cachedAt.Some? <==> s.generation > 0 || Done(s) == 4)
    && (s.cachedAt.Some? ==> s.cachedAt.value <= s.clock)
  }

  ghost predicate CountInv(s: State) {
    Publications(s.log) == s.generation + if Done(s) == 4 then 1 else 0
  }

  /** A reader holds the mutex, so what it has read is what the slots still hold. */
  predicate HasRead(c: Caller, s: State) {
    c.Reading? ==>
      && (c.done >= 1 ==> c.got.list == s.list)
      && (c.done >= 2 ==> c.got.byId == s.byId)
      && (c.done >= 3 ==> c.got.byPath == s.byPath)
  }

  ghost predicate ReadInv(s: State) {
    forall c :: 0 <= c < |s.callers| ==> HasRead(s.callers[c], s)
  }

  predicate Stale(s: State, at: int) { s.cachedAt.Some? ==> at >= s.cachedAt.value + CACHE_TTL }

  predicate Answered(c: Caller) { (c.Leaving? || c.Ready? || c.Reading?) && !c.failed }

  /** What a caller has made sure of: that the cache is stale while it walks, that it is not once it was answered. */
  predicate Knows(c: Caller, s: State) {
    && (!c.Away? ==> c.began <= s.clock)
    && (Answered(c) ==> s.cachedAt.Some? && s.cachedAt.value > c.began - CACHE_TTL)
    && (c.Publishing? && c.done >= 4 ==> s.cachedAt.Some? && s.cachedAt.value >= c.began)
    && (c.Cleared? ==> Stale(s, s.clock))
    && (c.Walking? || (c.Publishing? && c.done <= 3) ==> c.start <= s.clock && Stale(s, c.start))
  }

  ghost predicate CallerInv(s: State) {
    forall c :: 0 <= c < |s.callers| ==> Knows(s.callers[c], s)
  }

  ghost predicate DatedInv(s: State) {
    forall i :: 0 <= i < |s.log| && s.log[i].Published? ==> s.cachedAt.Some? && s.log[i].at <= s.cachedAt.value
  }

  lemma SpacedStep(log: seq<Event>, e: Event)
    requires WalksSpaced(log)
    requires forall i :: 0 <= i < |log| && log[i].Published? ==>
               && (e.WalkStarted? ==> e.at >= log[i].at + CACHE_TTL)
               && (e.Published? ==> e.start >= log[i].at + CACHE_TTL && e.at >= log[i].at + CACHE_TTL)
    ensures WalksSpaced(log + [e])
  {
    var now := log + [e];
    forall i, j | 0 <= i < j < |now| && now[i].Published?
      ensures now[j].WalkStarted? ==> now[j].at >= now[i].at + CACHE_TTL
      ensures now[j].Published? ==> now[j].start >= now[i].at + CACHE_TTL && now[j].at >= now[i].at + CACHE_TTL
    {
      assert now[i] == log[i];
      if j < |log| { assert now[j] == log[j]; }
    }
  }

  lemma ReadsStep(log: seq<Event>, e: Event)
    requires ReadsCoherent(log)
    requires e.Read? ==>
               && OneWalk(e.got, e.generation) && e.generation == Publications(log)
               && (!e.failed ==> e.cachedAt.Some? && e.cachedAt.value > e.began - CACHE_TTL)
    ensures ReadsCoherent(log + [e])
  {
    var now := log + [e];
    forall i | 0 <= i < |now| ensures now[..i] == log[..i] && (i < |log| ==> now[i] == log[i]) {}
  }

  lemma PublicationsStep(log: seq<Event>, e: Event)
    ensures Publications(log + [e]) == Publications(log) + if e.Published? then 1 else 0
  {
    assert (log + [e])[..|log|] == log;
  }

  lemma LogGrows(s: State, step: Step, t: State)
    requires Next(s, step, t)
    ensures t.log == s.log || (|t.log| > |s.log| && t.log == s.log + [t.log[|s.log|]])
  {
  }

  lemma RebuildKept(s: State, step: Step, t: State)
    requires RebuildInv(s) && Next(s, step, t)
    ensures RebuildInv(t)
  {
  }

  lemma MuKept(s: State, step: Step, t: State)
    requires MuInv(s) && Next(s, step, t)
    ensures MuInv(t)
  {
  }

  /** Every step but an assignment leaves the slots alone. */
  lemma SlotsStay(s: State, step: Step, t: State)
    requires MuInv(s) && Next(s, step, t) && !step.Assign? && Done(s) <= 5
    ensures t.list == s.list && t.byId == s.byId && t.byPath == s.byPath
    ensures t.cachedAt == s.cachedAt && t.generation == s.generation && s.clock <= t.clock
    ensures Done(t) == Done(s) || (Done(t) == 0 && Done(s) == 5)
    ensures t.log != s.log ==> |t.log| > |s.log| && !t.log[|s.log|].Published?
  {
  }

  lemma SlotKept(s: State, step: Step, t: State)
    requires MuInv(s) && SlotInv(s) && Next(s, step, t)
    ensures SlotInv(t)
  {
    if step.Assign? { AssignKeepsSlots(s, step.c, t); } else { SlotsStay(s, step, t); }
  }

  lemma AssignKeepsSlots(s: State, c: nat, t: State)
    requires MuInv(s) && SlotInv(s) && AssignStep(s, c, t)
    ensures SlotInv(t)
  {
  }

  lemma CountKept(s: State, step: Step, t: State)
    requires MuInv(s) && SlotInv(s) && CountInv(s) && Next(s, step, t)
    ensures CountInv(t)
  {
    if step.Assign? {
      AssignCounts(s, step.c, t);
    } else {
      SlotsStay(s, step, t);
      LogGrows(s, step, t);
      if t.log != s.log { PublicationsStep(s.log, t.log[|s.log|]); }
    }
  }

  lemma AssignCounts(s: State, c: nat, t: State)
    requires MuInv(s) && CountInv(s) && AssignStep(s, c, t)
    ensures CountInv(t)
  {
    assert Done(s) == s.callers[c].done && Done(t) == Done(s) + 1;
    if Done(s) == 3 { PublicationsStep(s.log, Published(s.callers[c].start, s.clock)); }
  }

  lemma ReadingKept(s: State, step: Step, t: State)
    requires MuInv(s) && ReadInv(s) && Next(s, step, t)
    ensures ReadInv(t)
  {
  }

  lemma CallerKept(s: State, step: Step, t: State)
    requires RebuildInv(s) && MuInv(s) && SlotInv(s) && CallerInv(s) && Next(s, step, t)
    ensures CallerInv(t)
  {
    if step.Assign? { AssignKeepsCallers(s, step.c, t); } else { OthersKeepCallers(s, step, t); }
  }

  lemma AssignKeepsCallers(s: State, c: nat, t: State)
    requires RebuildInv(s) && MuInv(s) && SlotInv(s) && CallerInv(s) && AssignStep(s, c, t)
    ensures CallerInv(t)
  {
  }

  lemma OthersKeepCallers(s: State, step: Step, t: State)
    requires MuInv(s) && SlotInv(s) && CallerInv(s) && Next(s, step, t) && !step.Assign?
    ensures CallerInv(t)
  {
    SlotsStay(s, step, t);
    OneMoves(s, step, t);
    if !step.Tick? { MoverKnows(s, step, t); }
    forall c | 0 <= c < |t.callers| ensures Knows(t.callers[c], t) {
      if t.callers[c] == s.callers[c] { assert Knows(s.callers[c], s); }
    }
  }

  lemma OneMoves(s: State, step: Step, t: State)
    requires Next(s, step, t)
    ensures |t.callers| == |s.callers|
    ensures forall c :: 0 <= c < |t.callers| && (step.Tick? || c != step.c) ==> t.callers[c] == s.callers[c]
  {
  }

  lemma MoverKnows(s: State, step: Step, t: State)
    requires MuInv(s) && SlotInv(s) && CallerInv(s) && Next(s, step, t) && !step.Assign? && !step.Tick?
    ensures step.c < |t.callers| && Knows(t.callers[step.c], t)
  {
    assert Knows(s.callers[step.c], s);
  }

  lemma DatedKept(s: State, step: Step, t: State)
    requires SlotInv(s) && DatedInv(s) && Next(s, step, t)
    ensures DatedInv(t)
  {
  }

  lemma ReadsKept(s: State, step: Step, t: State)
    requires MuInv(s) && SlotInv(s) && CountInv(s) && ReadInv(s) && CallerInv(s) && ReadsCoherent(s.log)
    requires Next(s, step, t)
    ensures ReadsCoherent(t.log)
  {
    LogGrows(s, step, t);
    if t.log != s.log { ReadsStep(s.log, t.log[|s.log|]); }
  }

  lemma SpacingKept(s: State, step: Step, t: State)
    requires CallerInv(s) && DatedInv(s) && WalksSpaced(s.log) && Next(s, step, t)
    ensures WalksSpaced(t.log)
  {
    LogGrows(s, step, t);
    if t.log != s.log { SpacedStep(s.log, t.log[|s.log|]); }
  }

  ghost predicate Inv(s: State) {
    && RebuildInv(s) && MuInv(s) && SlotInv(s) && CountInv(s) && ReadInv(s) && CallerInv(s) && DatedInv(s)
    && ReadsCoherent(s.log) && WalksSpaced(s.log)
  }

  lemma InvKept(s: State, step: Step, t: State)
    requires Inv(s) && Next(s, step, t)
    ensures Inv(t)
  {
    RebuildKept(s, step, t);
    MuKept(s, step, t);
    SlotKept(s, step, t);
    CountKept(s, step, t);
    ReadingKept(s, step, t);
    CallerKept(s, step, t);
    DatedKept(s, step, t);
    ReadsKept(s, step, t);
    SpacingKept(s, step, t);
  }

  lemma {:induction false} RunKeeps(states: seq<State>, steps: seq<Step>, i: nat)
    requires Run(states, steps) && i < |states|
    ensures Inv(states[i])
  {
    if i == 0 {
    } else {
      RunKeeps(states, steps, i - 1);
      InvKept(states[i - 1], steps[i - 1], states[i]);
    }
  }

  predicate AtWalk(c: Caller) { c.Walking? || c.Publishing? }

  /** However many callers, and however they interleave: no walk starts within the TTL of a publication,
      so two publications are always a TTL apart and a burst causes at most one. */
  lemma BurstsWalkOnce(states: seq<State>, steps: seq<Step>, i: nat)
    requires Run(states, steps) && i < |states|
    ensures WalksSpaced(states[i].log)
    ensures forall c, d :: 0 <= c < d < |states[i].callers| ==>
              !(AtWalk(states[i].callers[c]) && AtWalk(states[i].callers[d]))
  {
    RunKeeps(states, steps, i);
  }

  /** Every read in every run is coherent, though the slots are written and read one at a time: the mutex keeps a
      publication and a read apart. While it is free, the generation counts the published walks. */
  lemma ReadsAreCoherent(states: seq<State>, steps: seq<Step>, i: nat)
    requires Run(states, steps) && i < |states|
    ensures ReadsCoherent(states[i].log)
    ensures states[i].mu.None? ==> states[i].generation == Publications(states[i].log)
  {
    RunKeeps(states, steps, i);
  }
}
