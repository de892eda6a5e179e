/** What check-doc-budgets.py makes of `{a,b}`: the words of a group, each read as it stands. */
module GlobGroups {
  import opened Basics
  import opened GlobRegex
  import opened GlobCompilers
  import opened GlobMeaning

  // ----- groups in a glob -----

  /** A brace opens a group when one closes it later. */
  predicate OpensGroup(s: string) { '{' in s && '}' in s[IndexOf(s, '{')..] }

  function Open(s: string): nat { IndexOf(s, '{') }

  function Close(s: string): (i: nat)
    requires OpensGroup(s)
    ensures Open(s) <= i < |s|
  {
    Open(s) + IndexOf(s[Open(s)..], '}')
  }

  function Before(s: string): string { s[..Open(s)] }

  function After(s: string): (rest: string)
    requires OpensGroup(s)
    ensures |rest| < |s|
  {
    s[Close(s) + 1..]
  }

  function Words(s: string): seq<string>
    requires OpensGroup(s)
  {
    if Open(s) < Close(s) then Split(s[Open(s) + 1..Close(s)], ',') else []
  }

  lemma {:induction false} IndexIsFirst(s: string, c: char)
    ensures c !in s[..IndexOf(s, c)]
  {
    if s == [] || s[0] == c {
    } else {
      IndexIsFirst(s[1..], c);
      assert s[..IndexOf(s, c)] == [s[0]] + s[1..][..IndexOf(s[1..], c)];
    }
  }

  lemma NoGroupOpens(s: string)
    ensures NoGroup(s) <==> !OpensGroup(s)
  {
    IndexIsFirst(s, '{');
    var i := IndexOf(s, '{');
    if OpensGroup(s) {
      assert s[i] == '{' && s[Close(s)] == '}';
    } else {
      forall k | 0 <= k < i ensures s[k] != '{' { assert s[..i][k] == s[k]; }
      forall j | i <= j < |s| && i < |s| && s[i] == '{' ensures s[j] != '}' { assert s[i..][j - i] == s[j]; }
    }
  }

  function JoinBy(parts: seq<string>, sep: char): string {
    if parts == [] then [] else if |parts| == 1 then parts[0] else parts[0] + [sep] + JoinBy(parts[1..], sep)
  }

  lemma {:induction false} SplitParts(s: string, sep: char)
    ensures JoinBy(Split(s, sep), sep) == s
    ensures forall p :: p in Split(s, sep) ==> sep !in p && forall c :: c in p ==> c in s
  {
    if s == [] {
    } else {
      var rest := Split(s[1..], sep);
      SplitParts(s[1..], sep);
      assert s == [s[0]] + s[1..];
      if s[0] == sep {
        assert ([[]] + rest)[1..] == rest;
      } else {
        FirstGrows(s[0], rest, sep);
        assert rest[0] in rest && forall p :: p in rest[1..] ==> p in rest;
      }
    }
  }

  lemma FirstGrows(c: char, rest: seq<string>, sep: char)
    requires rest != []
    ensures JoinBy([[c] + rest[0]] + rest[1..], sep) == [c] + JoinBy(rest, sep)
  {
    var more := [[c] + rest[0]] + rest[1..];
    assert more[1..] == rest[1..] && more[0] == [c] + rest[0];
    if |rest| > 1 {
      var tail := JoinBy(rest[1..], sep);
      assert [c] + rest[0] + [sep] + tail == [c] + (rest[0] + [sep] + tail);
    }
  }

  lemma CutTwice(s: string, i: nat, j: nat)
    requires i < j < |s|
    ensures s == s[..i] + [s[i]] + s[i + 1..j] + [s[j]] + s[j + 1..]
  {
  }

  lemma GroupCloses(glob: string)
    requires OpensGroup(glob)
    ensures Open(glob) < Close(glob) && glob[Open(glob)] == '{' && glob[Close(glob)] == '}'
    ensures '{' !in Before(glob) && '}' !in glob[Open(glob) + 1..Close(glob)]
  {
    var s := glob[Open(glob)..];
    IndexIsFirst(glob, '{');
    IndexIsFirst(s, '}');
    assert s[0] == '{';
    forall k | Open(glob) < k < Close(glob) ensures glob[k] != '}' {
      assert s[..IndexOf(s, '}')][k - Open(glob)] == glob[k];
    }
  }

  /** How a glob with a group is read: up to its first brace, the words between commas up to the first closing brace,
      and what follows. */
  lemma GroupReadsAs(glob: string)
    requires OpensGroup(glob)
    ensures glob == Before(glob) + "{" + JoinBy(Words(glob), ',') + "}" + After(glob)
    ensures '{' !in Before(glob) && forall w :: w in Words(glob) ==> ',' !in w && '}' !in w
  {
    GroupCloses(glob);
    CutTwice(glob, Open(glob), Close(glob));
    SplitParts(glob[Open(glob) + 1..Close(glob)], ',');
  }

  // ----- compiling around a group -----

  predicate EndsInStar(s: string) { s != [] && s[|s| - 1] == '*' }

  /** Two parts of a glob that compile apart. */
  lemma {:induction false} PartsCompile(p: string, s: string)
    requires '{' !in p && !(EndsInStar(p) && s != [] && (s[0] == '*' || s[0] == SLASH))
    ensures BudgetTokens(p + s) == BudgetTokens(p) + BudgetTokens(s)
    decreases |p|
  {
    var whole := p + s;
    if p == [] {
      assert whole == s;
    } else {
      StarPrefixes(p);
      StarPrefixes(whole);
      assert p[0] in p && whole[0] == p[0] && (|p| > 1 ==> whole[1] == p[1]) && (|p| > 2 ==> whole[2] == p[2]);
      var (piece, used) := BudgetNext(p);
      assert BudgetNext(whole) == (piece, used);
      assert whole[used..] == p[used..] + s;
      PartsCompile(p[used..], s);
      TokensAssociate(piece, BudgetTokens(p[used..]), BudgetTokens(s));
    }
  }

  lemma GroupNext(glob: string)
    requires OpensGroup(glob)
    ensures var s := glob[Open(glob)..];
            && s[0] == '{' && BudgetNext(s) == (Alternatives(Words(glob)), Close(glob) + 1 - Open(glob))
            && s[Close(glob) + 1 - Open(glob)..] == After(glob)
  {
    var s := glob[Open(glob)..];
    StarPrefixes(s);
    assert s[1..IndexOf(s, '}')] == glob[Open(glob) + 1..Close(glob)];
  }

  lemma PieceCompiles(glob: string, before: string, s: string, piece: Token, used: nat, rest: string)
    requires glob == before + s && '{' !in before
    requires s != [] && s[0] == '{' && BudgetNext(s) == (piece, used) && rest == s[used..]
    ensures BudgetTokens(glob) == BudgetTokens(before) + ([piece] + BudgetTokens(rest))
  {
    PartsCompile(before, s);
  }

  lemma CutAtGroup(glob: string)
    requires OpensGroup(glob)
    ensures glob == Before(glob) + glob[Open(glob)..] && '{' !in Before(glob)
  {
    IndexIsFirst(glob, '{');
  }

  lemma GroupCompiles(glob: string)
    requires OpensGroup(glob)
    ensures BudgetTokens(glob) == BudgetTokens(Before(glob)) + ([Alternatives(Words(glob))] + BudgetTokens(After(glob)))
  {
    var s, used := glob[Open(glob)..], Close(glob) + 1 - Open(glob);
    CutAtGroup(glob);
    GroupNext(glob);
    PieceCompiles(glob, Before(glob), s, Alternatives(Words(glob)), used, After(glob));
  }

  // ----- what a group takes -----

  ghost predicate CutAt(a: seq<Token>, b: seq<Token>, s: string, k: int) {
    0 <= k <= |s| && In(RegexOf(a), s[..k]) && In(RegexOf(b), s[k..])
  }

  lemma {:induction false} PartsTake(a: seq<Token>, b: seq<Token>, s: string)
    ensures In(RegexOf(a + b), s) <==> exists k :: CutAt(a, b, s, k)
    decreases |a|
  {
    if a == [] {
      assert a + b == b && s[..0] == [] && s[0..] == s;
      if In(RegexOf(b), s) { assert CutAt(a, b, s, 0); }
    } else {
      assert (a + b)[1..] == a[1..] + b;
      if In(RegexOf(a + b), s) {
        var j :| 0 <= j <= |s| && In(PieceOf(a[0]), s[..j]) && In(RegexOf(a[1..] + b), s[j..]);
        PartsTake(a[1..], b, s[j..]);
        var k :| CutAt(a[1..], b, s[j..], k);
        HeadTakes(a, b, s, j, k);
      }
      if k :| CutAt(a, b, s, k) {
        var j := TailTakes(a, b, s, k);
        PartsTake(a[1..], b, s[j..]);
      }
    }
  }

  lemma TailTakes(a: seq<Token>, b: seq<Token>, s: string, k: int) returns (j: nat)
    requires a != [] && CutAt(a, b, s, k)
    ensures j <= k && In(PieceOf(a[0]), s[..j]) && CutAt(a[1..], b, s[j..], k - j)
  {
    j :| 0 <= j <= k && In(PieceOf(a[0]), s[..k][..j]) && In(RegexOf(a[1..]), s[..k][j..]);
    assert s[..k][..j] == s[..j] && s[..k][j..] == s[j..][..k - j] && s[j..][k - j..] == s[k..];
  }

  lemma HeadTakes(a: seq<Token>, b: seq<Token>, s: string, j: nat, k: int)
    requires a != [] && j <= |s| && In(PieceOf(a[0]), s[..j]) && CutAt(a[1..], b, s[j..], k)
    ensures CutAt(a, b, s, j + k)
  {
    assert s[..j + k][..j] == s[..j] && s[..j + k][j..] == s[j..][..k] && s[j..][k..] == s[j + k..];
  }

  lemma WordsTake(words: seq<string>, s: string)
    ensures In(RegexOf([Alternatives(words)]), s) <==> s in words
  {
    var tokens := [Alternatives(words)];
    assert tokens[1..] == [] && RegexOf(tokens) == Cat(OneOf(words), Eps);
    if s in words { assert s[..|s|] == s && s[|s|..] == [] && In(OneOf(words), s[..|s|]) && In(Eps, s[|s|..]); }
    if In(RegexOf(tokens), s) {
      var k :| 0 <= k <= |s| && In(OneOf(words), s[..k]) && In(Eps, s[k..]);
      assert k == |s| && s[..k] == s;
    }
  }

  /** Two globs' patterns take what stands before i and from j on. */
  ghost predicate Around(before: string, after: string, s: string, i: int, j: int) {
    0 <= i <= j <= |s| && MatchesToEnd(BudgetTokens(before), s[..i]) && MatchesToEnd(BudgetTokens(after), s[j..])
  }

  lemma MiddleTakes(before: string, middle: seq<Token>, words: seq<string>, after: string, s: string)
    requires forall u :: In(RegexOf(middle), u) <==> u in words
    ensures In(RegexOf(BudgetTokens(before) + (middle + BudgetTokens(after))), s)
            <==> exists i, j :: Around(before, after, s, i, j) && s[i..j] in words
  {
    var a, b := BudgetTokens(before), BudgetTokens(after);
    PartsTake(a, middle + b, s);
    if In(RegexOf(a + (middle + b)), s) {
      var i :| CutAt(a, middle + b, s, i);
      PartsTake(middle, b, s[i..]);
      var k :| CutAt(middle, b, s[i..], k);
      assert s[i..][..k] == s[i..i + k] && s[i..][k..] == s[i + k..];
      assert Around(before, after, s, i, i + k);
    }
    if i, j :| Around(before, after, s, i, j) && s[i..j] in words {
      assert s[i..][..j - i] == s[i..j] && s[i..][j - i..] == s[j..];
      assert CutAt(middle, b, s[i..], j - i);
      PartsTake(middle, b, s[i..]);
      assert CutAt(a, middle + b, s, i);
    }
  }

  /** For every glob with a group: what it matches is what the glob before the group takes, one of the group's words as
      it stands, and what the rest takes. */
  lemma GroupTakesItsWords(glob: string, s: string)
    requires OpensGroup(glob)
    ensures MatchesToEnd(BudgetTokens(glob), s) <==>
            exists i, j :: Around(Before(glob), After(glob), s, i, j) && s[i..j] in Words(glob)
  {
    var words := Words(glob);
    GroupCompiles(glob);
    forall u ensures In(RegexOf([Alternatives(words)]), u) <==> u in words { WordsTake(words, u); }
    MiddleTakes(Before(glob), [Alternatives(words)], words, After(glob), s);
  }

  const STAR_GROUP := "{*}"

  lemma StarGroup()
    ensures OpensGroup(STAR_GROUP) && Words(STAR_GROUP) == ["*"] && Before(STAR_GROUP) == "" && After(STAR_GROUP) == ""
  {
    var glob := STAR_GROUP;
    assert glob[1..] == "*}" && "*}"[1..] == "}";
    assert Open(glob) == 0 && glob[0..] == glob && IndexOf("}", '}') == 0 && IndexOf("*}", '}') == 1;
    assert Close(glob) == 2;
    var word := glob[1..2];
    assert word == "*" && word[1..] == "" && Split("", ',') == [""];
    assert Split(word, ',') == [['*'] + ""] + [""][1..];
    assert ['*'] + "" == "*";
  }

  lemma StarTakesName()
    ensures MatchesToEnd(BudgetTokens("*"), "a")
  {
    StarPrefixes("*");
    assert "*"[1..] == "" && BudgetTokens("") == [];
    assert BudgetTokens("*") == [StarInSegment] + BudgetTokens("");
    assert [StarInSegment] + [] == [StarInSegment];
    ScanIsIn([StarInSegment], "a");
    assert [StarInSegment][1..] == [] && "a"[1..] == "" && Scan([], "") && Scan([StarInSegment], "");
  }

  lemma AroundNothing(s: string, i: int, j: int)
    ensures Around("", "", s, i, j) <==> i == 0 && j == |s|
  {
    assert BudgetTokens("") == [];
    assert s[..0] == [] && s[|s|..] == [];
  }

  lemma StarGroupTakes(s: string)
    ensures MatchesToEnd(BudgetTokens(STAR_GROUP), s) <==> s == "*"
  {
    StarGroup();
    GroupTakesItsWords(STAR_GROUP, s);
    forall i, j ensures Around("", "", s, i, j) <==> i == 0 && j == |s| { AroundNothing(s, i, j); }
    assert s[0..|s|] == s;
  }

  /** So a wildcard in a group is a character like any other. */
  lemma WildcardsInGroupsAreLiteral()
    ensures MatchesToEnd(BudgetTokens(STAR_GROUP), "*") && !MatchesToEnd(BudgetTokens(STAR_GROUP), "a")
    ensures MatchesToEnd(BudgetTokens("*"), "a")
  {
    StarGroupTakes("*");
    StarGroupTakes("a");
    StarTakesName();
    assert "*"[0] != "a"[0];
  }

  // ----- a glob with groups and its expansions -----

  /** The globs that writing out each group by one of its words gives. */
  function Expansions(glob: string): set<string>
    decreases |glob|
  {
    if !OpensGroup(glob) then {glob}
    else set w, e | w in Words(glob) && e in Expansions(After(glob)) :: Before(glob) + w + e
  }

  /** A word that reads the same in the group and written out after `before`. */
  predicate PlainWord(w: string, before: string) {
    '*' !in w && '?' !in w && '{' !in w && (EndsInStar(before) ==> w != [] && w[0] != SLASH)
  }

  predicate PlainGroups(glob: string)
    decreases |glob|
  {
    OpensGroup(glob) ==> (forall w :: w in Words(glob) ==> PlainWord(w, Before(glob))) && PlainGroups(After(glob))
  }

  function Literals(w: string): seq<Token> { if w == [] then [] else [Literal(w[0])] + Literals(w[1..]) }

  lemma {:induction false} LiteralsTake(w: string, s: string)
    ensures In(RegexOf(Literals(w)), s) <==> s == w
  {
    if w == [] {
    } else {
      LiteralsHead(w, s);
      if s != [] {
        LiteralsTake(w[1..], s[1..]);
        assert s == [s[0]] + s[1..] && w == [w[0]] + w[1..];
      }
    }
  }

  lemma LiteralsHead(w: string, s: string)
    requires w != []
    ensures In(RegexOf(Literals(w)), s) <==> s != [] && s[0] == w[0] && In(RegexOf(Literals(w[1..])), s[1..])
  {
    assert Literals(w)[1..] == Literals(w[1..]);
    OneThen(Char(w[0]), RegexOf(Literals(w[1..])), s);
    if s != [] { assert s[..1] == [s[0]]; }
  }

  lemma {:induction false} WordCompiles(w: string)
    requires '*' !in w && '?' !in w && '{' !in w
    ensures BudgetTokens(w) == Literals(w)
  {
    if w == [] {
    } else {
      StarPrefixes(w);
      assert w[0] in w;
      assert forall c :: c in w[1..] ==> c in w;
      WordCompiles(w[1..]);
    }
  }

  lemma ExpansionCompiles(before: string, w: string, e: string)
    requires '{' !in before && PlainWord(w, before)
    ensures BudgetTokens(before + w + e) == BudgetTokens(before) + (Literals(w) + BudgetTokens(e))
            || (w == [] && BudgetTokens(before + w + e) == BudgetTokens(before) + BudgetTokens(e))
  {
    assert before + w + e == before + (w + e);
    if w == [] {
      assert w + e == e;
    } else {
      assert w[0] in w && (w + e)[0] == w[0] && w[|w| - 1] in w;
    }
    PartsCompile(before, w + e);
    PartsCompile(w, e);
    WordCompiles(w);
  }

  lemma ExpansionTakes(before: string, w: string, e: string, s: string)
    requires '{' !in before && PlainWord(w, before)
    ensures MatchesToEnd(BudgetTokens(before + w + e), s) <==>
            exists i, j :: Around(before, e, s, i, j) && s[i..j] == w
  {
    ExpansionCompiles(before, w, e);
    assert w == [] ==> Literals(w) + BudgetTokens(e) == BudgetTokens(e);
    forall u ensures In(RegexOf(Literals(w)), u) <==> u in [w] { LiteralsTake(w, u); }
    MiddleTakes(before, Literals(w), [w], e, s);
  }

  /** A glob with groups matches what some expansion of it does. */
  lemma {:induction false} GroupsAlternate(glob: string, s: string)
    requires PlainGroups(glob)
    ensures MatchesToEnd(BudgetTokens(glob), s) <==>
            exists x :: x in Expansions(glob) && MatchesToEnd(BudgetTokens(x), s)
    decreases |glob|
  {
    if OpensGroup(glob) {
      var before, after := Before(glob), After(glob);
      IndexIsFirst(glob, '{');
      GroupTakesItsWords(glob, s);
      if MatchesToEnd(BudgetTokens(glob), s) {
        var i, j :| Around(before, after, s, i, j) && s[i..j] in Words(glob);
        GroupsAlternate(after, s[j..]);
        var e :| e in Expansions(after) && MatchesToEnd(BudgetTokens(e), s[j..]);
        assert Around(before, e, s, i, j);
        ExpansionTakes(before, s[i..j], e, s);
        assert before + s[i..j] + e in Expansions(glob);
      }
      if x :| x in Expansions(glob) && MatchesToEnd(BudgetTokens(x), s) {
        var w, e :| w in Words(glob) && e in Expansions(after) && x == before + w + e;
        ExpansionTakes(before, w, e, s);
        var i, j :| Around(before, e, s, i, j) && s[i..j] == w;
        GroupsAlternate(after, s[j..]);
        assert Around(before, after, s, i, j);
      }
    }
  }

  lemma NoGroupAfter(front: string, e: string)
    requires '{' !in front && NoGroup(e)
    ensures NoGroup(front + e)
  {
    var x := front + e;
    forall i | 0 <= i < |front| ensures x[i] != '{' { assert x[i] == front[i] && front[i] in front; }
    forall i, j | |front| <= i < j < |x| && x[i] == '{' ensures x[j] != '}' {
      assert x[i] == e[i - |front|] && x[j] == e[j - |front|];
    }
  }

  lemma {:induction false} ExpansionsOpenNone(glob: string, x: string)
    requires PlainGroups(glob) && x in Expansions(glob)
    ensures NoGroup(x)
    decreases |glob|
  {
    if OpensGroup(glob) {
      var w, e :| w in Words(glob) && e in Expansions(After(glob)) && x == Before(glob) + w + e;
      ExpansionsOpenNone(After(glob), e);
      IndexIsFirst(glob, '{');
      NoGroupAfter(Before(glob) + w, e);
    } else {
      NoGroupOpens(glob);
    }
  }

  /** The compiled pattern of a glob, groups or none, matches a normalised path exactly when the segments of one of its
      expansions do. */
  lemma GlobMeansItsExpansions(glob: string, path: string)
    requires PlainGroups(glob) && (forall x :: x in Expansions(glob) ==> WholeStarred(x)) && Normalised(path)
    ensures MatchesToEnd(BudgetTokens(glob), path) <==>
            exists x :: x in Expansions(glob) && Means(Segments(x), Segments(path), false)
  {
    GroupsAlternate(glob, path);
    forall x | x in Expansions(glob)
      ensures MatchesToEnd(BudgetTokens(x), path) <==> Means(Segments(x), Segments(path), false)
    {
      ExpansionsOpenNone(glob, x);
      GlobMeansItsSegments(x, path);
    }
  }
}
