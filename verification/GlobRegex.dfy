/** The regular expressions the two scripts compile a glob to, and what a regular expression matches. */
module GlobRegex {
  import opened Basics

  /** A regular expression, and the strings it matches whole. `Dot` is any character but a newline. */
  datatype Regex =
    | Eps | Char(c: char) | NotSlash | Dot | OneOf(words: seq<string>)
    | Cat(left: Regex, right: Regex) | Alt(left: Regex, right: Regex) | Star(body: Regex)

  ghost predicate In(r: Regex, s: string)
    decreases r, |s|
  {
    match r
    case Eps => s == []
    case Char(c) => s == [c]
    case NotSlash => |s| == 1 && s[0] != '/'
    case Dot => |s| == 1 && s[0] != '\n'
    case OneOf(words) => s in words
    case Cat(a, b) => exists k :: 0 <= k <= |s| && In(a, s[..k]) && In(b, s[k..])
    case Alt(a, b) => In(a, s) || In(b, s)
    case Star(a) => s == [] || exists k :: 0 < k <= |s| && In(a, s[..k]) && In(r, s[k..])
  }

  /** The pieces a compiler appends: an escaped character, `[^/]`, `[^/]*`, `.*`, `(?:.*` + `/)?`, and a
      brace's alternatives. */
  datatype Token =
    | Literal(c: char) | OneInSegment | StarInSegment | StarAll | Directories | Alternatives(words: seq<string>)

  function PieceOf(t: Token): Regex {
    match t
    case Literal(c) => Char(c)
    case OneInSegment => NotSlash
    case StarInSegment => Star(NotSlash)
    case StarAll => Star(Dot)
    case Directories => Alt(Cat(Star(Dot), Char('/')), Eps)
    case Alternatives(words) => OneOf(words)
  }

  function RegexOf(tokens: seq<Token>): Regex {
    if tokens == [] then Eps else Cat(PieceOf(tokens[0]), RegexOf(tokens[1..]))
  }

  /** `^...\Z` */
  ghost predicate MatchesToEnd(tokens: seq<Token>, s: string) { In(RegexOf(tokens), s) }

  /** `^...$`, which also matches before a newline that ends the string. */
  ghost predicate MatchesToLineEnd(tokens: seq<Token>, s: string) {
    In(RegexOf(tokens), s) || (s != [] && s[|s| - 1] == '\n' && In(RegexOf(tokens), s[..|s| - 1]))
  }

  // ----- the same, read from left to right -----

  /** Whether the tokens match `s` whole. */
  predicate Scan(tokens: seq<Token>, s: string)
    decreases |tokens|, |s|
  {
    if tokens == [] then s == []
    else
      var rest := tokens[1..];
      match tokens[0]
      case Literal(c) => s != [] && s[0] == c && Scan(rest, s[1..])
      case OneInSegment => s != [] && s[0] != '/' && Scan(rest, s[1..])
      case StarInSegment => Scan(rest, s) || (s != [] && s[0] != '/' && Scan(tokens, s[1..]))
      case StarAll => Scan(rest, s) || (s != [] && s[0] != '\n' && Scan(tokens, s[1..]))
      case Directories => Scan(rest, s) || ScanPast(rest, s)
      case Alternatives(words) => exists w :: w in words && HasPrefix(s, w) && Scan(rest, s[|w|..])
  }

  /** Whether `.*` + `/` and then the tokens match `s` whole. */
  predicate ScanPast(tokens: seq<Token>, s: string)
    decreases |tokens|, |s| + 1
  {
    s != [] && ((s[0] == '/' && Scan(tokens, s[1..])) || (s[0] != '\n' && ScanPast(tokens, s[1..])))
  }

  lemma {:induction false} InStar(a: Regex, s: string, bad: char)
    requires (a == NotSlash && bad == '/') || (a == Dot && bad == '\n')
    ensures In(Star(a), s) <==> bad !in s
  {
    if s == [] {
    } else {
      InStar(a, s[1..], bad);
      assert s == [s[0]] + s[1..];
      if bad !in s { assert In(a, s[..1]) && In(Star(a), s[1..]); }
      if In(Star(a), s) {
        var k :| 0 < k <= |s| && In(a, s[..k]) && In(Star(a), s[k..]);
        assert k == 1 && s[..1][0] == s[0];
      }
    }
  }

  /** The first k characters are ones the star takes, and the tokens match the rest. */
  predicate StarAt(rest: seq<Token>, s: string, k: int,
                   bad: char) { 0 <= k <= |s| && bad !in s[..k] && Scan(rest, s[k..]) }

  lemma {:induction false} ScanStarMeans(tokens: seq<Token>, s: string, bad: char)
    requires tokens != []
    requires (tokens[0] == StarInSegment && bad == '/') || (tokens[0] == StarAll && bad == '\n')
    ensures Scan(tokens, s) <==> exists k :: StarAt(tokens[1..], s, k, bad)
  {
    var rest := tokens[1..];
    assert s[0..] == s && s[..0] == [];
    if Scan(rest, s) { assert StarAt(rest, s, 0, bad); }
    if s == [] {
    } else {
      var t := s[1..];
      ScanStarMeans(tokens, t, bad);
      forall k | 0 <= k <= |t| ensures StarAt(rest, s, k + 1, bad) <==> s[0] != bad && StarAt(rest, t, k, bad) {
        assert s[..k + 1] == [s[0]] + t[..k] && s[k + 1..] == t[k..];
      }
      if s[0] != bad && Scan(tokens, t) {
        var k :| StarAt(rest, t, k, bad);
        assert StarAt(rest, s, k + 1, bad);
      }
      if k :| StarAt(rest, s, k, bad) {
        if k > 0 { assert StarAt(rest, t, k - 1, bad); }
      }
    }
  }

  lemma StarThen(a: Regex, rest: seq<Token>, s: string, bad: char)
    requires (a == NotSlash && bad == '/') || (a == Dot && bad == '\n')
    requires forall u :: Scan(rest, u) <==> In(RegexOf(rest), u)
    ensures In(Cat(Star(a), RegexOf(rest)), s) <==> exists k :: StarAt(rest, s, k, bad)
  {
    if In(Cat(Star(a), RegexOf(rest)), s) {
      var k :| 0 <= k <= |s| && In(Star(a), s[..k]) && In(RegexOf(rest), s[k..]);
      InStar(a, s[..k], bad);
      assert StarAt(rest, s, k, bad);
    }
    if k :| StarAt(rest, s, k, bad) {
      InStar(a, s[..k], bad);
      assert In(Star(a), s[..k]) && In(RegexOf(rest), s[k..]);
    }
  }

  /** One fixed character set, then more. */
  lemma OneThen(a: Regex, more: Regex, s: string)
    requires a.Char? || a == NotSlash
    ensures In(Cat(a, more), s) <==> s != [] && In(a, s[..1]) && In(more, s[1..])
  {
    if s != [] && In(a, s[..1]) && In(more, s[1..]) { assert In(Cat(a, more), s); }
  }

  // ----- directories -----

  /** Directories with their slashes, whatever their number and whatever stands between. */
  predicate IsDirs(t: string) { t != [] && t[|t| - 1] == '/' && '\n' !in t[..|t| - 1] }

  lemma DirsParts(t: string)
    requires In(Cat(Star(Dot), Char('/')), t)
    ensures IsDirs(t)
  {
    var k :| 0 <= k <= |t| && In(Star(Dot), t[..k]) && In(Char('/'), t[k..]);
    assert t == t[..k] + t[k..];
    DirsFrom(t[..k], t);
  }

  lemma DirsFrom(front: string, t: string)
    requires In(Star(Dot), front) && t == front + ['/']
    ensures IsDirs(t)
  {
    InStar(Dot, front, '\n');
    assert t[..|t| - 1] == front;
  }

  lemma DirsWhole(t: string)
    requires IsDirs(t)
    ensures In(Cat(Star(Dot), Char('/')), t)
  {
    var n := |t| - 1;
    InStar(Dot, t[..n], '\n');
    assert t[n..] == ['/'];
  }

  lemma DirsIn(t: string)
    ensures In(PieceOf(Directories), t) <==> t == [] || IsDirs(t)
  {
    var dirs := Cat(Star(Dot), Char('/'));
    assert In(PieceOf(Directories), t) <==> In(dirs, t) || t == [];
    if In(dirs, t) { DirsParts(t); }
    if IsDirs(t) { DirsWhole(t); }
  }

  lemma DirsStep(c: char, u: string)
    requires u != []
    ensures IsDirs([c] + u) <==> c != '\n' && IsDirs(u)
  {
    var n := |u| - 1;
    assert ([c] + u)[..n + 1] == [c] + u[..n];
    assert ([c] + u)[n + 1] == u[n];
  }

  predicate PastAt(tokens: seq<Token>, s: string, k: int) { 0 < k <= |s| && IsDirs(s[..k]) && Scan(tokens, s[k..]) }

  lemma PastStep(tokens: seq<Token>, s: string, k: int)
    requires 0 < k < |s|
    ensures PastAt(tokens, s, k + 1) <==> s[0] != '\n' && PastAt(tokens, s[1..], k)
  {
    DirsStep(s[0], s[1..][..k]);
    assert s[..k + 1] == [s[0]] + s[1..][..k] && s[1..][k..] == s[k + 1..];
  }

  lemma {:induction false} ScanPastMeans(tokens: seq<Token>, s: string)
    ensures ScanPast(tokens, s) <==> exists k :: PastAt(tokens, s, k)
  {
    if s == [] {
    } else {
      var t := s[1..];
      ScanPastMeans(tokens, t);
      if s[0] == '/' && Scan(tokens, t) { assert s[..1] == ['/'] && PastAt(tokens, s, 1); }
      if s[0] != '\n' && ScanPast(tokens, t) {
        var k :| PastAt(tokens, t, k);
        PastStep(tokens, s, k);
      }
      if k :| PastAt(tokens, s, k) {
        if k == 1 { assert s[..1][0] == s[0]; } else { PastStep(tokens, s, k - 1); }
      }
    }
  }

  lemma DirectoriesThen(rest: seq<Token>, s: string)
    requires forall u :: Scan(rest, u) <==> In(RegexOf(rest), u)
    ensures Scan(rest, s) || ScanPast(rest, s) <==> In(Cat(PieceOf(Directories), RegexOf(rest)), s)
  {
    ScanPastMeans(rest, s);
    forall t ensures In(PieceOf(Directories), t) <==> t == [] || IsDirs(t) { DirsIn(t); }
    if In(Cat(PieceOf(Directories), RegexOf(rest)), s) {
      var k :| 0 <= k <= |s| && In(PieceOf(Directories), s[..k]) && In(RegexOf(rest), s[k..]);
      if k == 0 { assert s[0..] == s; } else { assert PastAt(rest, s, k); }
    }
    if Scan(rest, s) { assert s[..0] == [] && s[0..] == s; }
    if k :| PastAt(rest, s, k) { assert In(PieceOf(Directories), s[..k]) && In(RegexOf(rest), s[k..]); }
  }

  /** Reading from left to right decides the language of the regular expression. */
  lemma {:induction false} ScanIsIn(tokens: seq<Token>, s: string)
    ensures Scan(tokens, s) <==> In(RegexOf(tokens), s)
    decreases |tokens|
  {
    if tokens == [] {
    } else {
      var rest, more := tokens[1..], RegexOf(tokens[1..]);
      forall u ensures Scan(rest, u) <==> In(more, u) { ScanIsIn(rest, u); }
      match tokens[0] {
        case Literal(c) =>
          OneThen(Char(c), more, s);
          assert s != [] ==> s[..1] == [s[0]];
        case OneInSegment =>
          OneThen(NotSlash, more, s);
        case StarInSegment =>
          StarThen(NotSlash, rest, s, '/');
          ScanStarMeans(tokens, s, '/');
        case StarAll =>
          StarThen(Dot, rest, s, '\n');
          ScanStarMeans(tokens, s, '\n');
        case Directories =>
          DirectoriesThen(rest, s);
        case Alternatives(words) =>
          AlternativesThen(words, rest, s);
      }
    }
  }

  lemma AlternativesThen(words: seq<string>, rest: seq<Token>, s: string)
    requires forall u :: Scan(rest, u) <==> In(RegexOf(rest), u)
    ensures (exists w :: w in words && HasPrefix(s, w) && Scan(rest, s[|w|..]))
            <==> In(Cat(OneOf(words), RegexOf(rest)), s)
  {
    if In(Cat(OneOf(words), RegexOf(rest)), s) {
      var k :| 0 <= k <= |s| && In(OneOf(words), s[..k]) && In(RegexOf(rest), s[k..]);
      assert s[..k] in words && HasPrefix(s, s[..k]);
    }
    if w :| w in words && HasPrefix(s, w) && Scan(rest, s[|w|..]) {
      assert In(OneOf(words), s[..|w|]) && In(RegexOf(rest), s[|w|..]);
    }
  }
}
