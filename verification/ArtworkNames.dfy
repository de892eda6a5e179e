/** What a file of the artwork cache is, from its place and its name alone. */
module ArtworkNames {
  import opened Basics

  /** The kinds of file the eviction tells apart. A canonical portrait is `Portrait("")`. */
  datatype Kind = Other | Cover(stem: string) | Thumb | Portrait(mbid: string)

  /** A place under the cache's walk root: the directories passed, then the file's name. */
  datatype Place = Place(dirs: seq<string>, base: string)

  const THUMBS_DIR := "thumbs"
  const PORTRAIT_PREFIX := "artist-"
  const CANONICAL_PREFIX := "artist-name-"
  const JPG := ".jpg"
  const CANONICAL_HASH_LEN := 64
  const COVER_SUFFIXES: seq<string> := ["-250.jpg", "-500.jpg", "-1200.jpg"]

  predicate HasSuffix(s: string, suffix: string) {
    |suffix| <= |s| && s[|s| - |suffix|..] == suffix
  }

  function TrimSuffix(s: string, suffix: string): string {
    if HasSuffix(s, suffix) then s[..|s| - |suffix|] else s
  }

  function TrimPrefix(s: string, prefix: string): string {
    if HasPrefix(s, prefix) then s[|prefix|..] else s
  }

  predicate IsLowerHex(c: char) { '0' <= c <= '9' || 'a' <= c <= 'f' }

  predicate IsHex(c: char) { IsLowerHex(c) || 'A' <= c <= 'F' }

  predicate IsDashAt(i: int) { i == 8 || i == 13 || i == 18 || i == 23 }

  predicate IsValidMbid(s: string) {
    |s| == 36 && forall i :: 0 <= i < 36 ==> if IsDashAt(i) then s[i] == '-' else IsHex(s[i])
  }

  function Lower(c: char): char {
    if 'A' <= c <= 'Z' then c - 'A' + 'a' else c
  }

  function ToLower(s: string): string { seq(|s|, i requires 0 <= i < |s| => Lower(s[i])) }

  /** The lowercased artist id of an `artist-<mbid>.jpg` name. */
  function PortraitMbid(name: string): Option<string> {
    if !HasPrefix(name, PORTRAIT_PREFIX) || !HasSuffix(name, JPG) then None
    else
      var mbid := TrimSuffix(TrimPrefix(name, PORTRAIT_PREFIX), JPG);
      if IsValidMbid(mbid) then Some(ToLower(mbid)) else None
  }

  predicate IsPortraitCanonical(name: string) {
    && HasPrefix(name, CANONICAL_PREFIX) && HasSuffix(name, JPG)
    && var hash := TrimSuffix(TrimPrefix(name, CANONICAL_PREFIX), JPG);
       |hash| == CANONICAL_HASH_LEN && forall i :: 0 <= i < |hash| ==> IsLowerHex(hash[i])
  }

  predicate IsTopLevelPortrait(p: Place) {
    p.dirs == [] && (IsPortraitCanonical(p.base) || PortraitMbid(p.base).Some?)
  }

  /** The file name less its recognised cover suffix. */
  function CacheStem(base: string): Option<string> { StemBy(base, COVER_SUFFIXES) }

  function StemBy(base: string, suffixes: seq<string>): Option<string> {
    if suffixes == [] then None
    else if HasSuffix(base, suffixes[0]) then Some(TrimSuffix(base, suffixes[0]))
    else StemBy(base, suffixes[1..])
  }

  /** `canBePortrait` says whether the entry is of a type the enricher writes: no link, no device. */
  function KindAt(p: Place, canBePortrait: bool): Kind {
    if p.dirs != [] && p.dirs[0] == THUMBS_DIR then Thumb
    else if IsTopLevelPortrait(p) && canBePortrait then
      Portrait(match PortraitMbid(p.base) case Some(m) => m case None => "")
    else match CacheStem(p.base) case Some(stem) => Cover(stem) case None => Other
  }

  /** A name is never both kinds of portrait, and an artist id is never empty, so the empty id the
      cap files a canonical under cannot be read as an artist's. */
  lemma PortraitNamesAreApart(name: string)
    ensures PortraitMbid(name).Some? ==> |PortraitMbid(name).value| == 36 && !IsPortraitCanonical(name)
  {
    if PortraitMbid(name).Some? {
      var mbid := TrimSuffix(TrimPrefix(name, PORTRAIT_PREFIX), JPG);
      assert |name| == |PORTRAIT_PREFIX| + 36 + |JPG|;
    }
  }

  lemma SuffixAt(s: string, suffix: string, i: nat)
    requires i < |suffix|
    ensures HasSuffix(s, suffix) ==> s[|s| - |suffix| + i] == suffix[i]
  {
    if HasSuffix(s, suffix) { assert s[|s| - |suffix|..][i] == suffix[i]; }
  }

  /** A portrait's name ends in hexadecimal digits, which no cover size's suffix allows. */
  lemma PortraitIsNoCover(p: Place)
    requires IsTopLevelPortrait(p)
    ensures CacheStem(p.base).None?
  {
    var name := p.base;
    var n := |name| - |JPG|;
    assert IsHex(name[n - 4]) && IsHex(name[n - 5]) by {
      if IsPortraitCanonical(name) {
        var hash := TrimSuffix(TrimPrefix(name, CANONICAL_PREFIX), JPG);
        assert hash[63 - 3] == name[n - 4] && hash[63 - 4] == name[n - 5];
      } else {
        var mbid := TrimSuffix(TrimPrefix(name, PORTRAIT_PREFIX), JPG);
        assert mbid[35 - 3] == name[n - 4] && mbid[35 - 4] == name[n - 5];
      }
    }
    SuffixAt(name, "-250.jpg", 0);
    SuffixAt(name, "-500.jpg", 0);
    SuffixAt(name, "-1200.jpg", 0);
    assert COVER_SUFFIXES[1..] == ["-500.jpg", "-1200.jpg"] && COVER_SUFFIXES[2..] == ["-1200.jpg"];
    assert StemBy(name, COVER_SUFFIXES[3..]) == None;
    assert COVER_SUFFIXES[1..][1..] == COVER_SUFFIXES[2..];
    assert COVER_SUFFIXES[2..][1..] == COVER_SUFFIXES[3..];
    assert StemBy(name, COVER_SUFFIXES[2..]) == None;
    assert StemBy(name, COVER_SUFFIXES[1..]) == None;
  }

  // ----- names, read back -----

  lemma SuffixIs(s: string, suffix: string, front: string)
    ensures HasSuffix(s, suffix) && TrimSuffix(s, suffix) == front <==> s == front + suffix
  {
    if HasSuffix(s, suffix) { assert s == s[..|s| - |suffix|] + suffix; }
    if s == front + suffix { assert s[|front|..] == suffix && s[..|front|] == front; }
  }

  lemma PrefixIs(s: string, prefix: string, rest: string)
    ensures HasPrefix(s, prefix) && TrimPrefix(s, prefix) == rest <==> s == prefix + rest
  {
    if HasPrefix(s, prefix) { assert s == prefix + s[|prefix|..]; }
    if s == prefix + rest { assert s[..|prefix|] == prefix && s[|prefix|..] == rest; }
  }

  lemma StemOfSizes(base: string)
    ensures CacheStem(base)
            == if HasSuffix(base, "-250.jpg") then Some(TrimSuffix(base, "-250.jpg"))
               else if HasSuffix(base, "-500.jpg") then Some(TrimSuffix(base, "-500.jpg"))
               else if HasSuffix(base, "-1200.jpg") then Some(TrimSuffix(base, "-1200.jpg"))
               else None
  {
    var two, one := ["-500.jpg", "-1200.jpg"], ["-1200.jpg"];
    assert COVER_SUFFIXES[1..] == two && two[1..] == one && one[1..] == [];
    assert StemBy(base, []) == None;
    assert StemBy(base, one) == if HasSuffix(base, one[0]) then Some(TrimSuffix(base, one[0])) else StemBy(base, []);
    assert StemBy(base, two) == if HasSuffix(base, two[0]) then Some(TrimSuffix(base, two[0])) else StemBy(base, one);
  }

  /** A cover's name is its key and one of three sizes. */
  lemma StemReadBack(base: string, stem: string)
    ensures CacheStem(base) == Some(stem)
            <==> base == stem + "-250.jpg" || base == stem + "-500.jpg" || base == stem + "-1200.jpg"
  {
    SuffixIs(base, "-250.jpg", stem);
    SuffixIs(base, "-500.jpg", stem);
    SuffixIs(base, "-1200.jpg", stem);
    OneSize(base);
    StemOfSizes(base);
  }

  lemma OneSize(base: string)
    ensures !(HasSuffix(base, "-250.jpg") && HasSuffix(base, "-500.jpg"))
    ensures !(HasSuffix(base, "-1200.jpg") && (HasSuffix(base, "-250.jpg") || HasSuffix(base, "-500.jpg")))
  {
    SuffixAt(base, "-250.jpg", 1);
    SuffixAt(base, "-500.jpg", 1);
    SuffixAt(base, "-1200.jpg", 2);
    SuffixAt(base, "-250.jpg", 2);
    SuffixAt(base, "-1200.jpg", 3);
  }

  /** Between a prefix and `.jpg`. */
  lemma MiddleIs(name: string, prefix: string, middle: string)
    ensures HasPrefix(name, prefix) && HasSuffix(name, JPG) && TrimSuffix(TrimPrefix(name, prefix), JPG) == middle
            && HasSuffix(TrimPrefix(name, prefix), JPG)
            <==> name == prefix + middle + JPG
  {
    assert prefix + middle + JPG == prefix + (middle + JPG);
    PrefixIs(name, prefix, middle + JPG);
    if HasPrefix(name, prefix) {
      PrefixIs(name, prefix, TrimPrefix(name, prefix));
      SuffixIs(TrimPrefix(name, prefix), JPG, middle);
    }
    if name == prefix + middle + JPG { SuffixIs(name, JPG, prefix + middle); }
  }

  /** A name long enough for the suffix to stand after the prefix. */
  lemma SuffixAfterPrefix(name: string, prefix: string)
    requires HasPrefix(name, prefix) && HasSuffix(name, JPG) && |name| >= |prefix| + |JPG|
    ensures HasSuffix(TrimPrefix(name, prefix), JPG)
  {
    var rest := name[|prefix|..];
    assert rest[|rest| - |JPG|..] == name[|name| - |JPG|..];
  }

  /** An MBID portrait is named `artist-<id>.jpg`, and its id is read in lower case. */
  lemma PortraitReadBack(name: string, mbid: string)
    ensures PortraitMbid(name) == Some(mbid)
            <==> exists id :: IsValidMbid(id) && name == "artist-" + id + ".jpg" && mbid == ToLower(id)
  {
    if PortraitMbid(name) == Some(mbid) {
      var id := TrimSuffix(TrimPrefix(name, PORTRAIT_PREFIX), JPG);
      SuffixAfterPrefix(name, PORTRAIT_PREFIX);
      MiddleIs(name, PORTRAIT_PREFIX, id);
    }
    if id :| IsValidMbid(id) && name == "artist-" + id + ".jpg" && mbid == ToLower(id) {
      MiddleIs(name, PORTRAIT_PREFIX, id);
    }
  }

  const HEX_DIGITS := "0123456789abcdef"

  lemma HexDigit(c: char)
    ensures c in HEX_DIGITS <==> IsLowerHex(c)
  {
    if '0' <= c <= '9' { assert HEX_DIGITS[c as int - 48] == c; }
    if 'a' <= c <= 'f' { assert HEX_DIGITS[c as int - 87] == c; }
  }

  /** A canonical is named `artist-name-<hash>.jpg`, the hash 64 lower-case hexadecimal digits. */
  lemma CanonicalReadBack(name: string)
    ensures IsPortraitCanonical(name)
            <==> exists hash :: |hash| == 64 && (forall c :: c in hash ==> c in HEX_DIGITS)
                                && name == "artist-name-" + hash + ".jpg"
  {
    forall c ensures c in HEX_DIGITS <==> IsLowerHex(c) { HexDigit(c); }
    if IsPortraitCanonical(name) {
      var hash := TrimSuffix(TrimPrefix(name, CANONICAL_PREFIX), JPG);
      SuffixAfterPrefix(name, CANONICAL_PREFIX);
      MiddleIs(name, CANONICAL_PREFIX, hash);
    }
    if hash :| |hash| == 64 && (forall c :: c in hash ==> c in HEX_DIGITS) && name == "artist-name-" + hash + ".jpg" {
      MiddleIs(name, CANONICAL_PREFIX, hash);
      assert forall i :: 0 <= i < |hash| ==> hash[i] in hash;
    }
  }

  predicate HexRun(s: string, n: nat) { |s| == n && forall c :: c in s ==> IsHex(c) }

  /** Five runs of hexadecimal digits: 8, 4, 4, 4 and 12. */
  lemma MbidShape(s: string)
    ensures IsValidMbid(s)
            <==> exists a, b, c, d, e :: HexRun(a, 8) && HexRun(b, 4) && HexRun(c, 4) && HexRun(d, 4) && HexRun(e, 12)
                                         && s == a + "-" + b + "-" + c + "-" + d + "-" + e
  {
    if IsValidMbid(s) {
      var a, b, c, d, e := s[..8], s[9..13], s[14..18], s[19..23], s[24..];
      assert s == a + "-" + b + "-" + c + "-" + d + "-" + e;
      assert HexRun(a, 8) && HexRun(b, 4) && HexRun(c, 4) && HexRun(d, 4) && HexRun(e, 12);
    }
    if a, b, c, d, e :| HexRun(a, 8) && HexRun(b, 4) && HexRun(c, 4) && HexRun(d, 4) && HexRun(e, 12)
                        && s == a + "-" + b + "-" + c + "-" + d + "-" + e {
      RunsAreMbid(s, a, b, c, d, e);
    }
  }

  lemma RunsAreMbid(s: string, a: string, b: string, c: string, d: string, e: string)
    requires HexRun(a, 8) && HexRun(b, 4) && HexRun(c, 4) && HexRun(d, 4) && HexRun(e, 12)
    requires s == a + "-" + b + "-" + c + "-" + d + "-" + e
    ensures IsValidMbid(s)
  {
    forall i | 0 <= i < 36 ensures if IsDashAt(i) then s[i] == '-' else IsHex(s[i]) {
      if i < 8 {
        assert s[i] == a[i] && a[i] in a;
      } else if 9 <= i < 13 {
        assert s[i] == b[i - 9] && b[i - 9] in b;
      } else if 14 <= i < 18 {
        assert s[i] == c[i - 14] && c[i - 14] in c;
      } else if 19 <= i < 23 {
        assert s[i] == d[i - 19] && d[i - 19] in d;
      } else if 24 <= i {
        assert s[i] == e[i - 24] && e[i - 24] in e;
      }
    }
  }

  /** One letter in its two cases. */
  predicate CasesOf(upper: char, lower: char) { 'A' <= upper <= 'Z' && lower as int == upper as int + 32 }

  predicate SameButCase(a: string, b: string) {
    |a| == |b| && forall i :: 0 <= i < |a| ==> a[i] == b[i] || CasesOf(a[i], b[i]) || CasesOf(b[i], a[i])
  }

  /** Two ids are one to the cache exactly when they differ in case alone. */
  lemma ToLowerMeans(a: string, b: string)
    ensures ToLower(a) == ToLower(b) <==> SameButCase(a, b)
    ensures forall c :: c in ToLower(a) ==> !('A' <= c <= 'Z')
  {
    forall x: char, y: char ensures Lower(x) == Lower(y) <==> x == y || CasesOf(x, y) || CasesOf(y, x) {}
    if ToLower(a) == ToLower(b) {
      forall i | 0 <= i < |a| ensures Lower(a[i]) == Lower(b[i]) {
        assert ToLower(a)[i] == ToLower(b)[i];
      }
    }
  }

  /** What the cap calls a file, read back: it is a portrait exactly when the GC's portrait pass
      would decide it, and a cover exactly when the GC's cover walk would, outside thumbs/. */
  lemma KindReadBack(p: Place, canBePortrait: bool)
    ensures KindAt(p, canBePortrait).Portrait? <==> IsTopLevelPortrait(p) && canBePortrait
    ensures KindAt(p, canBePortrait) == Portrait("") <==> p.dirs == [] && IsPortraitCanonical(p.base) && canBePortrait
    ensures KindAt(p, canBePortrait).Cover? <==>
            !(p.dirs != [] && p.dirs[0] == THUMBS_DIR) && !IsTopLevelPortrait(p) && CacheStem(p.base).Some?
    ensures KindAt(p, canBePortrait).Cover? ==> CacheStem(p.base) == Some(KindAt(p, canBePortrait).stem)
    ensures KindAt(p, canBePortrait).Portrait? && !IsPortraitCanonical(p.base) ==>
              PortraitMbid(p.base) == Some(KindAt(p, canBePortrait).mbid)
    ensures KindAt(p, canBePortrait).Thumb? <==> p.dirs != [] && p.dirs[0] == "thumbs"
  {
    PortraitNamesAreApart(p.base);
    if IsTopLevelPortrait(p) { PortraitIsNoCover(p); }
  }
}
