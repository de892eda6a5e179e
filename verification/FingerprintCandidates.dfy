/** The candidates of a fingerprint pass: collected up to one cap, then resolved in place up to another. */
module FingerprintCandidates {
  import opened Basics
  import Requeue = FingerprintRequeue

  datatype Candidate = Candidate(path: string, absPath: string)

  const SCAN_FACTOR := 4

  /** What resolving the first candidates in order, up to `max` that resolve, comes to. */
  function Resolved(cands: seq<Candidate>, resolve: string -> Option<string>): seq<Candidate> {
    if cands == [] then []
    else
      var n := |cands| - 1;
      Resolved(cands[..n], resolve)
      + match resolve(cands[n].path) case Some(abs) => [cands[n].(absPath := abs)] case None => []
  }

  lemma {:induction false} ResolvedLength(cands: seq<Candidate>, resolve: string -> Option<string>)
    ensures |Resolved(cands, resolve)| <= |cands|
  {
    if cands == [] {
    } else {
      ResolvedLength(cands[..|cands| - 1], resolve);
    }
  }

  function Resolves(resolve: string -> Option<string>): Candidate -> bool {
    (c: Candidate) => resolve(c.path).Some?
  }

  function WithPath(resolve: string -> Option<string>): Candidate -> Candidate {
    (c: Candidate) => if resolve(c.path).Some? then c.(absPath := resolve(c.path).value) else c
  }

  /** Those that resolve, each with where, and in the order they came. */
  lemma {:induction false} ResolvedKeepsOrder(cands: seq<Candidate>, resolve: string -> Option<string>)
    ensures Sifted(cands, Resolves(resolve), WithPath(resolve), Resolved(cands, resolve))
  {
    if cands == [] {
    } else {
      var n := |cands| - 1;
      ResolvedKeepsOrder(cands[..n], resolve);
      SiftedStep(cands[..n], cands[n], Resolves(resolve), WithPath(resolve), Resolved(cands[..n], resolve));
      assert cands == cands[..n] + [cands[n]];
      assert Resolved(cands[..n], resolve) + [] == Resolved(cands[..n], resolve);
    }
  }

  lemma ResolvedStep(cands: seq<Candidate>, resolve: string -> Option<string>, i: nat)
    requires i < |cands|
    ensures Resolved(cands[..i + 1], resolve)
         == Resolved(cands[..i], resolve)
            + match resolve(cands[i].path) case Some(abs) => [cands[i].(absPath := abs)] case None => []
  {
    assert cands[..i + 1][..i] == cands[..i];
  }

  lemma {:induction false} ResolvedPrefix(cands: seq<Candidate>, resolve: string -> Option<string>, k: nat)
    requires k <= |cands|
    ensures Resolved(cands[..k], resolve) <= Resolved(cands, resolve)
  {
    if k < |cands| {
      var n := |cands| - 1;
      ResolvedPrefix(cands[..n], resolve, k);
      assert cands[..n][..k] == cands[..k];
    } else {
      assert cands[..k] == cands;
    }
  }

  /** Filters in place: the kept candidates move to the front of the same backing array, `kept` of them, and
      what stands after the ones looked at is untouched. `probed` are the paths it asked the file system
      about, in order. */
  method ResolveCandidates(cands: array<Candidate>, maxPerRun: int, resolve: string -> Option<string>)
    returns (kept: nat, probed: seq<string>)
    modifies cands
    ensures kept <= cands.Length && cands[..kept] == Take(Resolved(old(cands[..]), resolve), maxPerRun)
    ensures |probed| <= cands.Length && forall i :: 0 <= i < |probed| ==> probed[i] == old(cands[i].path)
    ensures |probed| < cands.Length ==> kept == Max(0, maxPerRun)
    ensures kept == |Resolved(old(cands[..])[..|probed|], resolve)|
    ensures probed != [] ==> resolve(probed[|probed| - 1]).Some? || |probed| == cands.Length
    ensures forall i :: |probed| <= i < cands.Length ==> cands[i] == old(cands[i])
  {
    ghost var was := cands[..];
    kept, probed := 0, [];
    var i := 0;
    while i < cands.Length
      invariant 0 <= i <= cands.Length && kept <= Max(0, maxPerRun) && |probed| == i
      invariant forall k :: 0 <= k < i ==> probed[k] == was[k].path
      invariant Filtered(was, cands[..], i, kept, resolve)
      invariant 0 < i && kept >= maxPerRun ==> resolve(was[i - 1].path).Some?
    {
      if kept >= maxPerRun { break; }
      ghost var before := cands[..];
      var c := cands[i];
      probed := probed + [c.path];
      var abs := resolve(c.path);
      FilteredStep(was, before, i, kept, resolve);
      i := i + 1;
      if abs.None? { continue; }
      cands[i - 1] := c.(absPath := abs.value);
      cands[kept] := cands[i - 1];
      assert cands[..] == before[i - 1 := cands[kept]][kept := cands[kept]];
      kept := kept + 1;
    }
    ResolvedPrefix(was, resolve, i);
    assert cands[..][..kept] == cands[..kept];
    forall k | i <= k < cands.Length ensures cands[k] == was[k] { assert cands[..][k] == was[k]; }
    if i == cands.Length { assert was[..i] == was; }
  }

  /** The array after `i` candidates: those that resolved at the front, those not looked at as they were. */
  ghost predicate Filtered(was: seq<Candidate>, now: seq<Candidate>, i: nat, kept: nat,
                           resolve: string -> Option<string>) {
    && kept <= i <= |was| == |now|
    && now[..kept] == Resolved(was[..i], resolve)
    && forall k :: i <= k < |was| ==> now[k] == was[k]
  }

  lemma FilteredStep(was: seq<Candidate>, now: seq<Candidate>, i: nat, kept: nat, resolve: string -> Option<string>)
    requires Filtered(was, now, i, kept, resolve) && i < |was|
    ensures now[i] == was[i]
    ensures match resolve(was[i].path)
            case None => Filtered(was, now, i + 1, kept, resolve)
            case Some(abs) =>
              var c := was[i].(absPath := abs);
              Filtered(was, now[i := c][kept := c], i + 1, kept + 1, resolve)
  {
    ResolvedStep(was, resolve, i);
    if resolve(was[i].path).Some? {
      var c := was[i].(absPath := resolve(was[i].path).value);
      assert now[i := c][kept := c][..kept + 1] == now[..kept] + [c];
    }
  }

  function Count(cands: seq<Candidate>, resolve: string -> Option<string>): nat {
    if cands == [] then 0
    else Count(cands[..|cands| - 1], resolve) + if resolve(cands[|cands| - 1].path).Some? then 1 else 0
  }

  lemma {:induction false} ResolvedCount(cands: seq<Candidate>, resolve: string -> Option<string>)
    ensures |Resolved(cands, resolve)| == Count(cands, resolve)
  {
    if cands == [] {
    } else {
      ResolvedCount(cands[..|cands| - 1], resolve);
    }
  }

  // ----- the scan before it -----

  /** A row as the store streams it. The optional fields may be absent there. */
  datatype Track = Track(path: string, version: nat, artist: string, artistMbid: string, albumMbid: string,
                         enriched: Option<bool>, duration: Option<int>, isDsd: Option<bool>)

  /** What the store remembers of earlier verdicts, read once before the stream: the paths matched, and the
      no-matches and vetoes still young enough, with the file version (and the artist tag) they were given for. */
  datatype Verdicts = Verdicts(matched: set<string>, noMatch: map<string, nat>, vetoed: map<string, (nat, string)>)

  function Or<T>(o: Option<T>, other: T): T { if o.Some? then o.value else other }

  function Lookup<T>(m: map<string, T>, path: string): Option<T> { if path in m then Some(m[path]) else None }

  function RowOf(t: Track, v: Verdicts, eligible: (int, bool) -> bool): Requeue.Row {
    Requeue.Row(t.version, t.artist, t.artistMbid != "", t.albumMbid != "", t.path in v.matched,
      t.enriched != Some(false),
                Lookup(v.noMatch, t.path), Lookup(v.vetoed, t.path), eligible(Or(t.duration, 0), Or(t.isDsd, false)))
  }

  /** The rows the rules of the re-queue protocol offer, in the store's order. */
  function Kept(tracks: seq<Track>, v: Verdicts, cache: map<Requeue.Key, bool>,
                eligible: (int, bool) -> bool): seq<Candidate> {
    if tracks == [] then []
    else
      var n := |tracks| - 1;
      Kept(tracks[..n], v, cache, eligible)
      + if Requeue.Offered(tracks[n].path, RowOf(tracks[n], v, eligible), cache)
        then [Candidate(tracks[n].path, "")] else []
  }

  lemma KeptStep(tracks: seq<Track>, v: Verdicts, cache: map<Requeue.Key, bool>, eligible: (int, bool) -> bool, i: nat)
    requires i < |tracks|
    ensures Kept(tracks[..i + 1], v, cache, eligible)
         == Kept(tracks[..i], v, cache, eligible)
            + if Requeue.Offered(tracks[i].path, RowOf(tracks[i], v, eligible), cache)
              then [Candidate(tracks[i].path, "")] else []
  {
    assert tracks[..i + 1][..i] == tracks[..i];
  }

  lemma KeptGrows(tracks: seq<Track>, v: Verdicts, cache: map<Requeue.Key, bool>, eligible: (int, bool) -> bool, i: nat)
    requires i < |tracks|
    ensures Kept(tracks[..i], v, cache, eligible) <= Kept(tracks[..i + 1], v, cache, eligible)
  {
    KeptStep(tracks, v, cache, eligible, i);
  }

  lemma {:induction false} KeptPrefix(tracks: seq<Track>, v: Verdicts, cache: map<Requeue.Key, bool>,
                                      eligible: (int, bool) -> bool, j: nat, k: nat)
    requires j <= k <= |tracks|
    ensures Kept(tracks[..j], v, cache, eligible) <= Kept(tracks[..k], v, cache, eligible)
  {
    if j == k {
    } else {
      KeptPrefix(tracks, v, cache, eligible, j, k - 1);
      KeptGrows(tracks, v, cache, eligible, k - 1);
    }
  }

  function TakenBy(v: Verdicts, cache: map<Requeue.Key, bool>, eligible: (int, bool) -> bool): Track -> bool {
    (t: Track) => Requeue.Offered(t.path, RowOf(t, v, eligible), cache)
  }

  const BARE: Track -> Candidate := (t: Track) => Candidate(t.path, "")

  lemma {:induction false} KeptKeepsOrder(tracks: seq<Track>, v: Verdicts, cache: map<Requeue.Key, bool>,
                                          eligible: (int, bool) -> bool)
    ensures Sifted(tracks, TakenBy(v, cache, eligible), BARE, Kept(tracks, v, cache, eligible))
  {
    if tracks == [] {
    } else {
      var n := |tracks| - 1;
      KeptKeepsOrder(tracks[..n], v, cache, eligible);
      var before := Kept(tracks[..n], v, cache, eligible);
      SiftedStep(tracks[..n], tracks[n], TakenBy(v, cache, eligible), BARE, before);
      assert tracks == tracks[..n] + [tracks[n]];
      assert before + [] == before;
    }
  }

  /** Why a row is passed over: it has both ids; or an artist id and a match already recorded; a no-match of this file
      version still in force; a refusal of this version and artist tag still in force; it waits for enrichment; its
      length or format is out of bounds; or this process has an answer for it. An absent field reads as zero. */
  predicate Skipped(t: Track, v: Verdicts, cache: map<Requeue.Key, bool>, eligible: (int, bool) -> bool) {
    || (t.artistMbid != "" && (t.albumMbid != "" || t.path in v.matched))
    || (t.path in v.noMatch && v.noMatch[t.path] == t.version)
    || (t.path in v.vetoed && v.vetoed[t.path].0 == t.version && v.vetoed[t.path].1 == t.artist)
    || t.enriched == Some(false)
    || !eligible(if t.duration.Some? then t.duration.value else 0, t.isDsd == Some(true))
    || Requeue.Key(t.path, t.version) in cache
  }

  /** One row against the rules, cheapest first. */
  method TakesRow(t: Track, v: Verdicts, cache: map<Requeue.Key, bool>, eligible: (int, bool) -> bool)
    returns (take: bool)
    ensures take == Requeue.Offered(t.path, RowOf(t, v, eligible), cache)
    ensures take <==> !Skipped(t, v, cache, eligible)
  {
    if t.artistMbid != "" && t.albumMbid != "" { return false; }
    if t.artistMbid != "" && t.path in v.matched { return false; }
    if t.path in v.noMatch && v.noMatch[t.path] == t.version { return false; }
    if t.path in v.vetoed && v.vetoed[t.path] == (t.version, t.artist) { return false; }
    if t.enriched.Some? && !t.enriched.value { return false; }
    var duration, isDsd := 0, false;
    if t.duration.Some? { duration := t.duration.value; }
    if t.isDsd.Some? { isDsd := t.isDsd.value; }
    if !eligible(duration, isDsd) { return false; }
    return Requeue.Key(t.path, t.version) !in cache;
  }

  /** The stream stops at the row where it finds its context cancelled, if any, and goes on with what it has. */
  method CollectCandidates(tracks: seq<Track>, cancelledAt: nat, v: Verdicts, cache: map<Requeue.Key, bool>,
                           eligible: (int, bool) -> bool, maxPerRun: int) returns (out: seq<Candidate>)
    ensures var read := if cancelledAt < |tracks| then cancelledAt else |tracks|;
            out == Take(Kept(tracks[..read], v, cache, eligible), maxPerRun * 4)
  {
    out := [];
    var scanCap := maxPerRun * SCAN_FACTOR;
    ghost var read := if cancelledAt < |tracks| then cancelledAt else |tracks|;
    for i := 0 to |tracks|
      invariant i <= read
      invariant out == Kept(tracks[..i], v, cache, eligible) && |out| <= Max(0, scanCap)
    {
      if i == cancelledAt { return out; }
      if |out| >= scanCap {
        KeptPrefix(tracks, v, cache, eligible, i, read);
        return out;
      }
      KeptStep(tracks, v, cache, eligible, i);
      var take := TakesRow(tracks[i], v, cache, eligible);
      if take { out := out + [Candidate(tracks[i].path, "")]; }
    }
  }

  /** The headroom at work: of the rows scanned, when at least a pass's worth resolve the pass is full; so
      only a scan three quarters of which does not resolve leaves it short. */
  lemma ScanFillsThePass(kept: seq<Candidate>, maxPerRun: nat, resolve: string -> Option<string>)
    ensures var scanned := Take(kept, maxPerRun * SCAN_FACTOR);
            && |Take(Resolved(scanned, resolve), maxPerRun)|
               == (if Count(scanned, resolve) >= maxPerRun then maxPerRun else Count(scanned, resolve))
            && (|Take(Resolved(scanned, resolve), maxPerRun)| < maxPerRun && |scanned| == maxPerRun * SCAN_FACTOR
                ==> |scanned| - Count(scanned, resolve) > maxPerRun * (SCAN_FACTOR - 1))
  {
    ResolvedCount(Take(kept, maxPerRun * SCAN_FACTOR), resolve);
  }
}
