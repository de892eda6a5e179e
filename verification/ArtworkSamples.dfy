/** A few files of the cache, for the inputs that show where a promise stops. */
module ArtworkSamples {
  import opened Basics
  import opened ArtworkNames
  import opened ArtworkCap

  const ALL_REMOVED: string -> Fate := (p: string) => Removed
  const MUCH_LATER := 10 * CAP_GRACE

  function MbidOf(digit: char): string { seq(36, i => if IsDashAt(i) then '-' else digit) }

  function HashOf(digit: char): string { seq(CANONICAL_HASH_LEN, i => digit) }

  const SAMPLE_MBID := MbidOf('a')
  const OTHER_MBID := MbidOf('b')

  function PortraitName(mbid: string): string { PORTRAIT_PREFIX + mbid + JPG }

  function CanonicalName(hash: string): string { CANONICAL_PREFIX + hash + JPG }

  function CoverName(stem: string): string { stem + COVER_SUFFIXES[1] }

  /** A file at the top of the cache. */
  function TopFile(name: string, stat: Stat): Visit { File("/" + name, Place([], name), true, stat) }

  lemma CoverSample(stat: Stat)
    ensures var v := TopFile(CoverName("x"), stat);
            && IsCacheFile(v) && !IsTopLevelPortrait(v.place)
            && CacheStem(v.place.base) == Some("x") && KindAt(v.place, true) == Cover("x")
  {
    var base := CoverName("x");
    assert base[1..] == COVER_SUFFIXES[1] && base[..1] == "x";
    SuffixAt(base, COVER_SUFFIXES[0], 1);
    assert !HasSuffix(base, COVER_SUFFIXES[0]);
    assert StemBy(base, COVER_SUFFIXES) == StemBy(base, COVER_SUFFIXES[1..]) == Some("x");
    assert base[0] != PORTRAIT_PREFIX[0];
    assert COVER_SUFFIXES[1][4..] == JPG && base[|base| - |JPG|..] == COVER_SUFFIXES[1][4..];
  }

  lemma PortraitSample(mbid: string, stat: Stat)
    requires IsValidMbid(mbid) && ToLower(mbid) == mbid
    ensures var v := TopFile(PortraitName(mbid), stat);
            IsCacheFile(v) && IsTopLevelPortrait(v.place) && KindAt(v.place, true) == Portrait(mbid)
  {
    var name := PortraitName(mbid);
    assert name[..|PORTRAIT_PREFIX|] == PORTRAIT_PREFIX;
    assert name[|name| - |JPG|..] == JPG;
    assert TrimPrefix(name, PORTRAIT_PREFIX) == mbid + JPG;
    assert (mbid + JPG)[|mbid|..] == JPG && (mbid + JPG)[..|mbid|] == mbid;
    assert PortraitMbid(name) == Some(mbid);
  }

  lemma CanonicalSample(stat: Stat)
    ensures var v := TopFile(CanonicalName(HashOf('0')), stat);
            IsCacheFile(v) && IsTopLevelPortrait(v.place) && KindAt(v.place, true) == Portrait("")
  {
    var hash, name := HashOf('0'), CanonicalName(HashOf('0'));
    assert name[..|CANONICAL_PREFIX|] == CANONICAL_PREFIX;
    assert name[|name| - |JPG|..] == JPG;
    assert TrimPrefix(name, CANONICAL_PREFIX) == hash + JPG;
    assert (hash + JPG)[|hash|..] == JPG && (hash + JPG)[..|hash|] == hash;
    assert IsPortraitCanonical(name);
    KindReadBack(Place([], name), true);
  }
}
