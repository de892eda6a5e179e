/** Which artist portraits at the top of the cache stay. */
module ArtworkPortraits {
  import opened ArtworkNames
  import opened ArtworkOrder

  const PORTRAIT_GRACE := 600_000_000_000  // ten minutes, in nanoseconds

  predicate IsMbidPortrait(f: CacheFile) { f.kind.Portrait? && f.kind.mbid != "" }

  predicate IsCanonical(f: CacheFile) { f.kind == Portrait("") }

  predicate FreshPortrait(p: CacheFile, now: int) { p.mod > now - PORTRAIT_GRACE }

  predicate KeptMbid(p: CacheFile, artists: set<string>, now: int) {
    (p.kind.Portrait? && p.kind.mbid in artists) || FreshPortrait(p, now)
  }

  /** The plain rule: a canonical stays while it is fresh, or while some portrait that stays is the
      same file. No bucket, no size. */
  predicate KeptCanonical(c: CacheFile, portraits: seq<CacheFile>, artists: set<string>, now: int) {
    || FreshPortrait(c, now)
    || exists k :: k in portraits && IsMbidPortrait(k) && KeptMbid(k, artists, now) && SameFile(c, k)
  }

  function UnusedMbids(byMbid: seq<CacheFile>, artists: set<string>, now: int): seq<CacheFile> {
    if byMbid == [] then []
    else
      var n := |byMbid| - 1;
      UnusedMbids(byMbid[..n], artists, now) + if KeptMbid(byMbid[n], artists, now) then [] else [byMbid[n]]
  }

  function UnusedCanonicals(canonical: seq<CacheFile>, byMbid: seq<CacheFile>, artists: set<string>,
                            now: int): seq<CacheFile> {
    if canonical == [] then []
    else
      var n := |canonical| - 1;
      UnusedCanonicals(canonical[..n], byMbid, artists, now)
      + if KeptCanonical(canonical[n], byMbid, artists, now) then [] else [canonical[n]]
  }

  function Verdicts(byMbid: seq<CacheFile>, canonical: seq<CacheFile>, artists: set<string>, now: int): seq<CacheFile> {
    UnusedMbids(byMbid, artists, now) + UnusedCanonicals(canonical, byMbid, artists, now)
  }

  lemma {:induction false} UnusedMbidsMember(byMbid: seq<CacheFile>, artists: set<string>, now: int, f: CacheFile)
    ensures f in UnusedMbids(byMbid, artists, now) <==> f in byMbid && !KeptMbid(f, artists, now)
  {
    if byMbid == [] {
    } else {
      var n := |byMbid| - 1;
      UnusedMbidsMember(byMbid[..n], artists, now, f);
      assert f in byMbid <==> f in byMbid[..n] || f == byMbid[n];
    }
  }

  lemma {:induction false} UnusedCanonicalsMember(canonical: seq<CacheFile>, byMbid: seq<CacheFile>,
                                                  artists: set<string>, now: int, f: CacheFile)
    ensures f in UnusedCanonicals(canonical, byMbid, artists, now)
            <==> f in canonical && !KeptCanonical(f, byMbid, artists, now)
  {
    if canonical == [] {
    } else {
      var n := |canonical| - 1;
      UnusedCanonicalsMember(canonical[..n], byMbid, artists, now, f);
      assert f in canonical <==> f in canonical[..n] || f == canonical[n];
    }
  }

  /** What a verdict removes, said of one file. */
  lemma VerdictsMember(byMbid: seq<CacheFile>, canonical: seq<CacheFile>, artists: set<string>, now: int, f: CacheFile)
    ensures f in Verdicts(byMbid, canonical, artists, now) <==>
            || (f in byMbid && !KeptMbid(f, artists, now))
            || (f in canonical && !KeptCanonical(f, byMbid, artists, now))
  {
    UnusedMbidsMember(byMbid, artists, now, f);
    UnusedCanonicalsMember(canonical, byMbid, artists, now, f);
  }

  const TEN_MINUTES := 600_000_000_000

  /** The same on the files' own fields: a portrait goes when it is ten minutes old and, by its id, no row names it; or,
      being a canonical, when it is no link to a portrait that a row names or that is younger. */
  lemma VerdictsSay(byMbid: seq<CacheFile>, canonical: seq<CacheFile>, artists: set<string>, now: int, f: CacheFile)
    requires forall p :: p in byMbid ==> p.kind.Portrait? && p.kind.mbid != ""
    requires forall p :: p in canonical ==> p.kind == Portrait("")
    ensures f in Verdicts(byMbid, canonical, artists, now) <==>
            && now - f.mod >= TEN_MINUTES
            && (|| (f in byMbid && f.kind.mbid !in artists)
                || (f in canonical && forall k :: k in byMbid && k.inode == f.inode ==>
                                                    k.kind.mbid !in artists && now - k.mod >= TEN_MINUTES))
  {
    VerdictsMember(byMbid, canonical, artists, now, f);
  }

  method LinkedTo(c: CacheFile, bucket: seq<CacheFile>) returns (linked: bool)
    ensures linked <==> exists k :: k in bucket && SameFile(c, k)
  {
    linked := false;
    for j := 0 to |bucket|
      invariant !linked && forall k :: k in bucket[..j] ==> !SameFile(c, k)
    {
      if SameFile(c, bucket[j]) {
        linked := true;
        break;
      }
      assert bucket[..j + 1] == bucket[..j] + [bucket[j]];
    }
  }

  /** The buckets hold the portraits that stay, each under its size, and no other. */
  ghost predicate Bucketed(portraits: seq<CacheFile>, buckets: map<nat, seq<CacheFile>>, artists: set<string>,
                           now: int) {
    && (forall k :: k in portraits && KeptMbid(k, artists, now) ==> k.size in buckets && k in buckets[k.size])
    && (forall s, k :: s in buckets && k in buckets[s] ==> k in portraits && KeptMbid(k, artists, now))
  }

  function Add(buckets: map<nat, seq<CacheFile>>, p: CacheFile): map<nat, seq<CacheFile>> {
    buckets[p.size := (if p.size in buckets then buckets[p.size] else []) + [p]]
  }

  lemma BucketedStep(portraits: seq<CacheFile>, p: CacheFile, buckets: map<nat, seq<CacheFile>>, artists: set<string>,
                     now: int)
    requires Bucketed(portraits, buckets, artists, now)
    ensures Bucketed(portraits + [p], if KeptMbid(p, artists, now) then Add(buckets, p) else buckets, artists, now)
  {
    assert forall k :: k in portraits + [p] <==> k in portraits || k == p;
    if KeptMbid(p, artists, now) {
      var more := Add(buckets, p);
      assert forall k :: k in more[p.size] <==> (p.size in buckets && k in buckets[p.size]) || k == p;
    }
  }

  /** The MBID portraits: the ones to remove, and the ones kept, by size. */
  method MbidVerdicts(byMbid: seq<CacheFile>, artists: set<string>, now: int)
    returns (remove: seq<CacheFile>, kept: nat, keptBySize: map<nat, seq<CacheFile>>)
    ensures remove == UnusedMbids(byMbid, artists, now) && kept + |remove| == |byMbid|
    ensures Bucketed(byMbid, keptBySize, artists, now)
  {
    remove, kept, keptBySize := [], 0, map[];
    for i := 0 to |byMbid|
      invariant remove == UnusedMbids(byMbid[..i], artists, now) && kept + |remove| == i
      invariant Bucketed(byMbid[..i], keptBySize, artists, now)
    {
      var p := byMbid[i];
      BucketedStep(byMbid[..i], p, keptBySize, artists, now);
      assert byMbid[..i + 1][..i] == byMbid[..i] && byMbid[..i + 1] == byMbid[..i] + [p];
      if KeptMbid(p, artists, now) {
        kept := kept + 1;
        keptBySize := Add(keptBySize, p);
      } else {
        remove := remove + [p];
      }
    }
    assert byMbid[..|byMbid|] == byMbid;
  }

  /** The portraits to remove, with the size buckets the code compares canonicals through: they
      lose no link, because a link has its file's size. */
  method PortraitVerdicts(byMbid: seq<CacheFile>, canonical: seq<CacheFile>, artists: set<string>, now: int)
    returns (remove: seq<CacheFile>, kept: nat)
    requires forall p :: p in byMbid ==> IsMbidPortrait(p)
    requires LinksAgree(byMbid + canonical)
    ensures remove == Verdicts(byMbid, canonical, artists, now)
    ensures kept + |remove| == |byMbid| + |canonical|
  {
    var keptBySize;
    remove, kept, keptBySize := MbidVerdicts(byMbid, artists, now);
    ghost var removed := remove;
    for i := 0 to |canonical|
      invariant remove == removed + UnusedCanonicals(canonical[..i], byMbid, artists, now)
      invariant kept + |remove| == |byMbid| + i
    {
      var c := canonical[i];
      assert canonical[..i + 1][..i] == canonical[..i];
      if FreshPortrait(c, now) {
        kept := kept + 1;
        continue;
      }
      var bucket := if c.size in keptBySize then keptBySize[c.size] else [];
      var linked := LinkedTo(c, bucket);
      BucketFindsLink(byMbid, canonical, artists, now, c, bucket, linked);
      if linked {
        kept := kept + 1;
      } else {
        remove := remove + [c];
      }
    }
    assert canonical[..|canonical|] == canonical;
  }

  /** Looking through the portraits of its own size answers for a canonical what looking through all
      of them does. */
  lemma BucketFindsLink(byMbid: seq<CacheFile>, canonical: seq<CacheFile>, artists: set<string>, now: int,
                        c: CacheFile, bucket: seq<CacheFile>, linked: bool)
    requires LinksAgree(byMbid + canonical) && c in canonical && !FreshPortrait(c, now)
    requires forall p :: p in byMbid ==> IsMbidPortrait(p)
    requires forall k :: k in byMbid && KeptMbid(k, artists, now) && k.size == c.size ==> k in bucket
    requires forall k :: k in bucket ==> k in byMbid && KeptMbid(k, artists, now)
    requires linked <==> exists k :: k in bucket && SameFile(c, k)
    ensures linked <==> KeptCanonical(c, byMbid, artists, now)
  {
    forall k | k in byMbid && SameFile(c, k) ensures k.size == c.size {
      assert k in byMbid + canonical && c in byMbid + canonical;
    }
  }

  /** Run again on what it left, the verdict removes nothing: no canonical was kept for the sake of
      a portrait that went. */
  lemma VerdictsFixpoint(byMbid: seq<CacheFile>, canonical: seq<CacheFile>, artists: set<string>, now: int,
                         byMbid': seq<CacheFile>, canonical': seq<CacheFile>)
    requires forall f :: f in byMbid' <==> f in byMbid && f !in Verdicts(byMbid, canonical, artists, now)
    requires forall f :: f in canonical' <==> f in canonical && f !in Verdicts(byMbid, canonical, artists, now)
    requires forall p :: p in byMbid ==> IsMbidPortrait(p)
    requires forall p :: p in canonical ==> IsCanonical(p)
    ensures Verdicts(byMbid', canonical', artists, now) == []
  {
    var left := Verdicts(byMbid', canonical', artists, now);
    assert left != [] ==> left[0] in left;
    forall f ensures f !in left {
      VerdictsMember(byMbid', canonical', artists, now, f);
      VerdictsMember(byMbid, canonical, artists, now, f);
      if f in canonical' && !FreshPortrait(f, now) {
        var k :| k in byMbid && IsMbidPortrait(k) && KeptMbid(k, artists, now) && SameFile(f, k);
        VerdictsMember(byMbid, canonical, artists, now, k);
        assert k in byMbid';
      }
    }
  }
}
