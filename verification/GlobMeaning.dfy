/** What the globs mean, segment by segment, and that the compiled patterns mean it. */
module GlobMeaning {
  import opened Basics
  import opened GlobRegex
  import opened GlobCompilers

  const DIRS := "**"

  predicate NewlineFree(s: string) { '\n' !in s }

  /** `*` and `?` inside one segment. */
  predicate Wild(g: string, p: string)
    decreases |g|, |p|
  {
    if g == [] then p == []
    else if g[0] == '*' then Wild(g[1..], p) || (p != [] && Wild(g, p[1..]))
    else p != [] && (g[0] == '?' || g[0] == p[0]) && Wild(g[1..], p[1..])
  }

  /** A `**` segment stands for any number of whole directories, none included; a last one for whatever is
      below. `anyName` is the documented meaning; without it a `**` spans no name with a newline in it. */
  predicate Means(gs: seq<string>, ps: seq<string>, anyName: bool)
    requires gs != [] && ps != []
    decreases |gs|, |ps|
  {
    if |gs| == 1 then
      if gs[0] == DIRS then anyName || forall p :: p in ps ==> NewlineFree(p)
      else |ps| == 1 && Wild(gs[0], ps[0])
    else if gs[0] == DIRS then
      Means(gs[1..], ps, anyName) || (|ps| > 1 && (anyName || NewlineFree(ps[0])) && Means(gs, ps[1..], anyName))
    else
      |ps| > 1 && Wild(gs[0], ps[0]) && Means(gs[1..], ps[1..], anyName)
  }

  predicate StarPair(g: string, i: int) { 0 <= i < |g| - 1 && g[i] == '*' && g[i + 1] == '*' }

  predicate HasStars(g: string) { exists i :: 0 <= i < |g| && StarPair(g, i) }

  /** A glob segment whose `**`, if any, is all of it. */
  predicate WholeStars(g: string) { g == DIRS || !HasStars(g) }

  predicate GlobSegments(gs: seq<string>) {
    gs != [] && forall g :: g in gs ==> WholeStars(g) && SLASH !in g
  }

  /** No brace opens a group: none is followed by a closing one. */
  predicate NoGroup(s: string) { forall i, j :: 0 <= i < j < |s| && s[i] == '{' ==> s[j] != '}' }

  lemma NoGroupFrom(s: string, k: nat)
    requires NoGroup(s) && k <= |s|
    ensures NoGroup(s[k..])
    ensures s != [] && s[0] == '{' ==> '}' !in s
  {
    if s != [] && s[0] == '{' {
      forall j | 0 <= j < |s| ensures s[j] != '}' {}
    }
  }

  /** A normalised path: at least one segment, none empty. */
  predicate PathSegments(ps: seq<string>) {
    ps != [] && forall p :: p in ps ==> p != [] && SLASH !in p
  }

  // ----- what the compilers make of segments -----

  function SegmentTokens(g: string): seq<Token> {
    if g == [] then []
    else
      [SegmentToken(g[0])] + SegmentTokens(g[1..])
  }

  function GlobTokens(gs: seq<string>): seq<Token> {
    if gs == [] then []
    else if |gs| == 1 then if gs[0] == DIRS then [StarAll] else SegmentTokens(gs[0])
    else if gs[0] == DIRS then [Directories] + GlobTokens(gs[1..])
    else SegmentTokens(gs[0]) + [Literal(SLASH)] + GlobTokens(gs[1..])
  }

  lemma StarPrefixes(s: string)
    ensures HasPrefix(s, "**") <==> |s| >= 2 && s[0] == '*' && s[1] == '*'
    ensures HasPrefix(s, "**/") <==> |s| >= 3 && s[0] == '*' && s[1] == '*' && s[2] == SLASH
  {
    if |s| >= 2 { assert s[..2] == [s[0], s[1]]; }
    if |s| >= 3 { assert s[..3] == [s[0], s[1], s[2]]; }
  }

  function SegmentToken(c: char): Token {
    if c == '*' then StarInSegment else if c == '?' then OneInSegment else Literal(c)
  }

  lemma SegmentTail(g: string)
    requires g != [] && !HasStars(g)
    ensures !HasStars(g[1..])
  {
    forall i | 0 <= i < |g[1..]| ensures !StarPair(g[1..], i) { assert !StarPair(g, i + 1); }
  }

  lemma NextInSegment(s: string, g: string, tail: string)
    requires s == g + tail && g != [] && !HasStars(g) && NoGroup(s)
    requires tail == [] || tail[0] == SLASH
    ensures BudgetNext(s) == (SegmentToken(g[0]), 1)
  {
    StarPrefixes(s);
    NoGroupFrom(s, 0);
    assert s[0] == g[0];
    if |g| > 1 {
      assert s[1] == g[1] && !StarPair(g, 0);
    } else if |s| > 1 {
      assert s[1] == tail[0];
    }
  }

  lemma BudgetHead(s: string, piece: Token, rest: string)
    requires s != [] && BudgetNext(s) == (piece, 1) && rest == s[1..]
    ensures BudgetTokens(s) == [piece] + BudgetTokens(rest)
  {
  }

  /** Reading a segment without `**`, up to a slash or the end. */
  lemma {:induction false} SegmentCompiles(s: string, g: string, tail: string)
    requires s == g + tail && !HasStars(g) && NoGroup(s)
    requires tail == [] || tail[0] == SLASH
    ensures BudgetTokens(s) == SegmentTokens(g) + BudgetTokens(tail)
    decreases |g|
  {
    if g == [] {
      assert s == tail && [] + BudgetTokens(tail) == BudgetTokens(tail);
    } else {
      var rest := s[1..];
      assert rest == g[1..] + tail;
      SegmentTail(g);
      NoGroupFrom(s, 1);
      SegmentCompiles(rest, g[1..], tail);
      NextInSegment(s, g, tail);
      BudgetHead(s, SegmentToken(g[0]), rest);
      TokensAssociate(SegmentToken(g[0]), SegmentTokens(g[1..]), BudgetTokens(tail));
    }
  }

  lemma TokensAssociate(head: Token, a: seq<Token>, b: seq<Token>)
    ensures [head] + (a + b) == [head] + a + b
  {
  }

  lemma StarsCompile(rest: string)
    ensures BudgetTokens(DIRS) == [StarAll]
    ensures BudgetTokens(DIRS + [SLASH] + rest) == [Directories] + BudgetTokens(rest)
  {
    StarPrefixes(DIRS);
    assert DIRS[2..] == [] && BudgetTokens([]) == [];
    var s := DIRS + [SLASH] + rest;
    StarPrefixes(s);
    assert s[3..] == rest;
  }

  lemma SlashCompiles(rest: string)
    ensures BudgetTokens([SLASH] + rest) == [Literal(SLASH)] + BudgetTokens(rest)
  {
    var s := [SLASH] + rest;
    StarPrefixes(s);
    assert s[1..] == rest;
  }

  lemma {:induction false} GlobCompiles(gs: seq<string>)
    requires GlobSegments(gs) && NoGroup(Join(gs))
    ensures BudgetTokens(Join(gs)) == GlobTokens(gs)
  {
    var g := gs[0];
    assert g in gs;
    if |gs| == 1 {
      LastCompiles(g);
    } else {
      JoinRest(gs);
      GlobCompiles(gs[1..]);
      if g == DIRS {
        StarsCompile(Join(gs[1..]));
      } else {
        NamedCompiles(g, Join(gs[1..]), GlobTokens(gs[1..]));
      }
    }
  }

  lemma LastCompiles(g: string)
    requires WholeStars(g) && NoGroup(g)
    ensures BudgetTokens(g) == if g == DIRS then [StarAll] else SegmentTokens(g)
  {
    if g == DIRS {
      StarsCompile([]);
    } else {
      assert g + [] == g;
      SegmentCompiles(g, g, []);
      assert SegmentTokens(g) + [] == SegmentTokens(g);
    }
  }

  lemma NamedCompiles(g: string, rest: string, tokens: seq<Token>)
    requires !HasStars(g) && NoGroup(g + [SLASH] + rest) && BudgetTokens(rest) == tokens
    ensures BudgetTokens(g + [SLASH] + rest) == SegmentTokens(g) + [Literal(SLASH)] + tokens
  {
    var tail := [SLASH] + rest;
    assert g + [SLASH] + rest == g + tail;
    SegmentCompiles(g + [SLASH] + rest, g, tail);
    SlashCompiles(rest);
    assert SegmentTokens(g) + ([Literal(SLASH)] + tokens) == SegmentTokens(g) + [Literal(SLASH)] + tokens;
  }

  lemma JoinRest(gs: seq<string>)
    requires GlobSegments(gs) && |gs| > 1 && NoGroup(Join(gs))
    ensures GlobSegments(gs[1..]) && NoGroup(Join(gs[1..]))
  {
    assert forall x :: x in gs[1..] ==> x in gs;
    NoGroupFrom(Join(gs), |gs[0]| + 1);
    assert Join(gs)[|gs[0]| + 1..] == Join(gs[1..]);
  }

  // ----- reading a path by segments -----

  /** What follows a segment in a compiled glob: nothing, or a slash. */
  predicate Bounded(more: seq<Token>) { more == [] || more[0] == Literal(SLASH) }

  lemma {:induction false} SegmentScans(g: string, more: seq<Token>, p: string, tail: string)
    requires SLASH !in g && SLASH !in p && Bounded(more) && (tail == [] || tail[0] == SLASH)
    ensures Scan(SegmentTokens(g) + more, p + tail) <==> Wild(g, p) && Scan(more, tail)
    decreases |g|, |p|
  {
    var tokens, s := SegmentTokens(g) + more, p + tail;
    if g == [] {
      assert tokens == more;
      if p == [] { assert s == tail; } else { assert s[0] == p[0] && p[0] in p; }
    } else {
      assert tokens[1..] == SegmentTokens(g[1..]) + more;
      if p == [] {
        assert s == tail;
        if g[0] == '*' { SegmentScans(g[1..], more, p, tail); }
        assert g[0] in g;
      } else {
        assert s[0] == p[0] && p[0] in p && s[1..] == p[1..] + tail;
        if g[0] == '*' {
          SegmentScans(g[1..], more, p, tail);
          SegmentScans(g, more, p[1..], tail);
        } else {
          SegmentScans(g[1..], more, p[1..], tail);
        }
      }
    }
  }

  lemma {:induction false} PastSegment(more: seq<Token>, p: string, tail: string)
    requires SLASH !in p && (tail == [] || tail[0] == SLASH)
    ensures ScanPast(more, p + tail) <==> NewlineFree(p) && ScanPast(more, tail)
  {
    if p == [] {
      assert p + tail == tail;
    } else {
      assert (p + tail)[1..] == p[1..] + tail && p[0] in p;
      assert p == [p[0]] + p[1..];
      PastSegment(more, p[1..], tail);
    }
  }

  lemma {:induction false} PastPath(more: seq<Token>, ps: seq<string>)
    requires PathSegments(ps)
    ensures ScanPast(more, Join(ps)) <==>
            |ps| > 1 && NewlineFree(ps[0]) && (Scan(more, Join(ps[1..])) || ScanPast(more, Join(ps[1..])))
  {
    assert ps[0] in ps;
    if |ps| == 1 {
      PastSegment(more, ps[0], []);
      assert ps[0] + [] == ps[0];
    } else {
      var tail := [SLASH] + Join(ps[1..]);
      assert Join(ps) == ps[0] + tail && tail[1..] == Join(ps[1..]);
      PastSegment(more, ps[0], tail);
    }
  }

  lemma {:induction false} AllScans(s: string)
    ensures Scan([StarAll], s) <==> NewlineFree(s)
  {
    if s == [] {
    } else {
      AllScans(s[1..]);
      assert s == [s[0]] + s[1..];
    }
  }

  lemma {:induction false} JoinNewlines(ps: seq<string>)
    ensures NewlineFree(Join(ps)) <==> forall p :: p in ps ==> NewlineFree(p)
  {
    if |ps| <= 1 {
    } else {
      JoinNewlines(ps[1..]);
      var rest := Join(ps[1..]);
      assert Join(ps) == ps[0] + [SLASH] + rest;
      assert NewlineFree(ps[0] + [SLASH] + rest) <==> NewlineFree(ps[0]) && NewlineFree(rest);
      assert ps == [ps[0]] + ps[1..];
      assert ps[0] in ps;
    }
  }

  /** A segment glob against the first segment of a path. */
  lemma FirstSegmentScans(g: string, more: seq<Token>, ps: seq<string>)
    requires SLASH !in g && PathSegments(ps) && Bounded(more)
    ensures Scan(SegmentTokens(g) + more, Join(ps)) <==>
            Wild(g, ps[0]) && Scan(more, if |ps| == 1 then [] else [SLASH] + Join(ps[1..]))
  {
    assert ps[0] in ps;
    var tail := if |ps| == 1 then [] else [SLASH] + Join(ps[1..]);
    assert Join(ps) == ps[0] + tail;
    SegmentScans(g, more, ps[0], tail);
  }

  lemma DirectoriesScan(more: seq<Token>, ps: seq<string>)
    requires PathSegments(ps)
    ensures Scan([Directories] + more, Join(ps)) <==>
            Scan(more, Join(ps)) || (|ps| > 1 && NewlineFree(ps[0]) && Scan([Directories] + more, Join(ps[1..])))
  {
    assert ([Directories] + more)[1..] == more;
    PastPath(more, ps);
  }

  lemma SlashScans(more: seq<Token>, rest: string)
    ensures Scan([Literal(SLASH)] + more, [SLASH] + rest) <==> Scan(more, rest)
    ensures !Scan([Literal(SLASH)] + more, [])
  {
    assert ([Literal(SLASH)] + more)[1..] == more && ([SLASH] + rest)[1..] == rest;
  }

  lemma {:induction false} TokensScan(gs: seq<string>, ps: seq<string>)
    requires GlobSegments(gs) && PathSegments(ps)
    ensures Scan(GlobTokens(gs), Join(ps)) <==> Means(gs, ps, false)
    decreases |gs|, |ps|
  {
    var g := gs[0];
    assert g in gs;
    assert forall x :: x in gs[1..] ==> x in gs;
    assert forall x :: x in ps[1..] ==> x in ps;
    if |gs| == 1 {
      if g == DIRS {
        AllScans(Join(ps));
        JoinNewlines(ps);
      } else {
        FirstSegmentScans(g, [], ps);
        assert SegmentTokens(g) + [] == SegmentTokens(g);
      }
    } else if g == DIRS {
      TokensScan(gs[1..], ps);
      DirectoriesScan(GlobTokens(gs[1..]), ps);
      if |ps| > 1 { TokensScan(gs, ps[1..]); }
    } else {
      NamedSegmentScans(g, GlobTokens(gs[1..]), ps);
      if |ps| > 1 { TokensScan(gs[1..], ps[1..]); }
    }
  }

  lemma NamedSegmentScans(g: string, rest: seq<Token>, ps: seq<string>)
    requires SLASH !in g && PathSegments(ps)
    ensures Scan(SegmentTokens(g) + [Literal(SLASH)] + rest, Join(ps)) <==>
            |ps| > 1 && Wild(g, ps[0]) && Scan(rest, Join(ps[1..]))
  {
    var more := [Literal(SLASH)] + rest;
    assert SegmentTokens(g) + [Literal(SLASH)] + rest == SegmentTokens(g) + more;
    assert Bounded(more);
    FirstSegmentScans(g, more, ps);
    SlashScans(rest, if |ps| == 1 then [] else Join(ps[1..]));
  }

  lemma SegmentsMean(gs: seq<string>, ps: seq<string>)
    requires GlobSegments(gs) && NoGroup(Join(gs)) && PathSegments(ps)
    ensures MatchesToEnd(BudgetTokens(Join(gs)), Join(ps)) <==> Means(gs, ps, false)
  {
    GlobCompiles(gs);
    ScanIsIn(GlobTokens(gs), Join(ps));
    TokensScan(gs, ps);
  }

  function Segments(s: string): (parts: seq<string>)
    ensures parts != []
  {
    Split(s, SLASH)
  }

  /** Every `**` of the glob is a whole segment. */
  predicate WholeStarred(glob: string) { forall g :: g in Segments(glob) ==> WholeStars(g) }

  predicate Normalised(path: string) { forall p :: p in Segments(path) ==> p != [] }

  /** The compiled regular expression matches a normalised path exactly when the glob's segments do, a `**`
      spanning no directory whose name holds a newline. */
  lemma GlobMeansItsSegments(glob: string, path: string)
    requires WholeStarred(glob) && NoGroup(glob) && Normalised(path)
    ensures MatchesToEnd(BudgetTokens(glob), path) <==> Means(Segments(glob), Segments(path), false)
  {
    SplitJoins(glob);
    SplitJoins(path);
    SegmentsMean(Segments(glob), Segments(path));
  }

  lemma {:induction false} MeansAnyName(gs: seq<string>, ps: seq<string>)
    requires gs != [] && ps != [] && forall p :: p in ps ==> NewlineFree(p)
    ensures Means(gs, ps, true) <==> Means(gs, ps, false)
    decreases |gs|, |ps|
  {
    assert ps[0] in ps;
    if |gs| <= 1 {
    } else {
      MeansAnyName(gs[1..], ps);
      if |ps| > 1 {
        MeansAnyName(gs, ps[1..]);
        MeansAnyName(gs[1..], ps[1..]);
      }
    }
  }

  // ----- which globs rules-for.py accepts -----

  /** A segment that is not the last may hold `**` at its very end, whole or not; the last one only whole. */
  predicate StarsAccepted(g: string, last: bool) {
    if last then WholeStars(g) else forall i :: 0 <= i < |g| - 2 ==> !StarPair(g, i)
  }

  lemma {:induction false} InnerAccepted(g: string, rest: string, atStart: bool)
    requires SLASH !in g
    ensures RulesTokens(g + [SLASH] + rest, atStart).Some? <==> StarsAccepted(g, false) && RulesTokens(rest, true).Some?
  {
    var s := g + [SLASH] + rest;
    StarPrefixes(s);
    if g == [] {
      assert s[1..] == rest;
    } else {
      assert s[0] == g[0] && g[0] in g;
      if StarPair(g, 0) {
        assert s[1] == g[1];
        if |g| == 2 {
          assert s[3..] == rest;
        } else {
          assert s[2] == g[2] && g[2] in g;
          assert !StarsAccepted(g, false);
        }
      } else {
        assert s[1..] == g[1..] + [SLASH] + rest;
        InnerAccepted(g[1..], rest, false);
        assert RulesNext(s, atStart).Some? && RulesNext(s, atStart).value.1 == 1;
        StarsAcceptedStep(g);
      }
    }
  }

  lemma StarsAcceptedStep(g: string)
    requires g != [] && !StarPair(g, 0)
    ensures StarsAccepted(g, false) <==> StarsAccepted(g[1..], false)
    ensures HasStars(g) <==> HasStars(g[1..])
  {
    forall i | 0 <= i < |g| - 1 ensures StarPair(g[1..], i) <==> StarPair(g, i + 1) {}
    forall i | 0 < i < |g| ensures StarPair(g, i) <==> StarPair(g[1..], i - 1) {}
  }

  lemma {:induction false} LastAccepted(g: string, atStart: bool)
    requires SLASH !in g
    ensures RulesTokens(g, atStart).Some? <==> (atStart && g == DIRS) || !HasStars(g)
  {
    StarPrefixes(g);
    if g == [] {
    } else {
      assert g[0] in g;
      if StarPair(g, 0) {
        if |g| >= 3 { assert g[2] in g; }
        if |g| == 2 { assert g == DIRS && g[2..] == []; }
        assert HasStars(g);
      } else {
        LastAccepted(g[1..], false);
        StarsAcceptedStep(g);
        assert RulesNext(g, atStart).Some? && RulesNext(g, atStart).value.1 == 1;
      }
    }
  }

  lemma {:induction false} TokensAccepted(gs: seq<string>)
    requires gs != [] && forall g :: g in gs ==> SLASH !in g
    ensures RulesTokens(Join(gs), true).Some? <==> forall i :: 0 <= i < |gs| ==> StarsAccepted(gs[i], i == |gs| - 1)
  {
    assert gs[0] in gs;
    if |gs| == 1 {
      LastAccepted(gs[0], true);
    } else {
      InnerAccepted(gs[0], Join(gs[1..]), true);
      TokensAccepted(gs[1..]);
      assert forall i :: 0 < i < |gs| ==> gs[i] == gs[1..][i - 1];
      if RulesTokens(Join(gs), true).Some? {
        forall i | 0 < i < |gs| ensures StarsAccepted(gs[i], i == |gs| - 1) {
          assert StarsAccepted(gs[1..][i - 1], i - 1 == |gs[1..]| - 1);
        }
      }
      if forall i :: 0 <= i < |gs| ==> StarsAccepted(gs[i], i == |gs| - 1) {
        forall i | 0 <= i < |gs[1..]| ensures StarsAccepted(gs[1..][i], i == |gs[1..]| - 1) {
          assert StarsAccepted(gs[i + 1], i + 1 == |gs| - 1);
        }
      }
    }
  }

  lemma SupportedSays(glob: string)
    ensures Supported(glob) <==> '[' !in glob && ']' !in glob && '{' !in glob && '}' !in glob
  {
    var signs := UNSUPPORTED;
    assert signs[0] == '[' && signs[1] == ']' && signs[2] == '{' && signs[3] == '}';
    assert forall c :: c in signs <==> c == '[' || c == ']' || c == '{' || c == '}';
  }

  /** rules-for.py refuses a glob exactly when it holds a bracket or a brace, or a `**` that is neither at the
      end of a directory's segment nor the whole of the last one. Its message promises whole segments only. */
  lemma AcceptsExactly(glob: string)
    ensures var gs := Segments(glob);
            RulesCompile(glob).Some?
            <==> '[' !in glob && ']' !in glob && '{' !in glob && '}' !in glob
                 && forall i :: 0 <= i < |gs| ==> StarsAccepted(gs[i], i == |gs| - 1)
  {
    SupportedSays(glob);
    SplitJoins(glob);
    TokensAccepted(Segments(glob));
  }

  /** So a `**` glued to a directory's name is let through, and matches a file in no directory at all. */
  lemma GluedStarsSlipThrough()
    ensures RulesCompile("a**/b") == Some([Literal('a'), Directories, Literal('b')])
    ensures MatchesToLineEnd(RulesCompile("a**/b").value, "ab")
  {
    var glob := "a**/b";
    StarPrefixes(glob);
    StarPrefixes(glob[1..]);
    StarPrefixes("b");
    assert glob[1..] == "**/b" && glob[1..][3..] == "b" && "b"[1..] == "";
    assert RulesTokens("", false) == Some([]);
    assert RulesTokens("b", true) == Prepend([Literal('b')], Some([])) && [Literal('b')] + [] == [Literal('b')];
    assert RulesTokens("**/b", false) == Prepend([Directories], Some([Literal('b')]));
    assert [Directories] + [Literal('b')] == [Directories, Literal('b')];
    assert RulesTokens(glob, true) == Prepend([Literal('a')], Some([Directories, Literal('b')]));
    assert [Literal('a')] + [Directories, Literal('b')] == [Literal('a'), Directories, Literal('b')];
    assert Supported(glob);
    var tokens := [Literal('a'), Directories, Literal('b')];
    ScanIsIn(tokens, "ab");
    assert tokens[1..] == [Directories, Literal('b')] && tokens[1..][1..] == [Literal('b')]
      && [Literal('b')][1..] == [];
    assert "ab"[1..] == "b" && Scan([], "") && Scan([Literal('b')], "b") && Scan(tokens[1..], "b");
  }

  // ----- which rules files govern a path -----

  datatype RulesFile = RulesFile(name: string, globs: seq<string>)

  /** Every glob compiles, or the script stops with an error. */
  predicate Loads(rules: seq<RulesFile>) {
    forall f :: f in rules ==> forall glob :: glob in f.globs ==> RulesCompile(glob).Some?
  }

  ghost predicate Governs(file: RulesFile, path: string) {
    exists glob :: glob in file.globs && RulesCompile(glob).Some? && MatchesToLineEnd(RulesCompile(glob).value, path)
  }

  ghost function Governing(rules: seq<RulesFile>, path: string): seq<string> {
    if rules == [] then []
    else (if Governs(rules[0], path) then [rules[0].name] else []) + Governing(rules[1..], path)
  }

  /** Some glob of the file takes the path, by its documented meaning. */
  predicate Takes(file: RulesFile, path: string) {
    exists glob :: glob in file.globs && Means(Segments(glob), Segments(path), true)
  }

  lemma RuleMeans(glob: string, path: string)
    requires WholeStarred(glob) && Supported(glob) && Normalised(path) && NewlineFree(path)
    ensures RulesCompile(glob).Some?
    ensures MatchesToLineEnd(RulesCompile(glob).value, path) <==> Means(Segments(glob), Segments(path), true)
  {
    var gs, ps := Segments(glob), Segments(path);
    forall i | 0 <= i < |gs| ensures StarsAccepted(gs[i], i == |gs| - 1) { assert gs[i] in gs && WholeStars(gs[i]); }
    SupportedSays(glob);
    AcceptsExactly(glob);
    ScriptsAgreeExactly(glob, path);
    assert NoGroup(glob) by { forall j | 0 <= j < |glob| ensures glob[j] != '}' { assert glob[j] in glob; } }
    GlobMeansItsSegments(glob, path);
    SplitJoins(path);
    JoinNewlines(ps);
    MeansAnyName(gs, ps);
    assert path != [] ==> path[|path| - 1] in path;
  }

  /** Rules without brackets and braces, and whose `**` are whole segments, load; and the files listed for a
      normalised path with no newline in it are exactly those with a glob whose documented meaning takes it. */
  lemma {:induction false} GoverningMeans(rules: seq<RulesFile>, path: string, name: string)
    requires forall f :: f in rules ==> forall glob :: glob in f.globs ==> WholeStarred(glob) && Supported(glob)
    requires Normalised(path) && NewlineFree(path)
    ensures Loads(rules)
    ensures name in Governing(rules, path) <==> exists f :: f in rules && f.name == name && Takes(f, path)
  {
    if rules == [] {
    } else {
      GoverningMeans(rules[1..], path, name);
      forall glob | glob in rules[0].globs
        ensures RulesCompile(glob).Some?
        ensures MatchesToLineEnd(RulesCompile(glob).value, path) <==> Means(Segments(glob), Segments(path), true)
      {
        assert rules[0] in rules;
        RuleMeans(glob, path);
      }
      assert Governs(rules[0], path) <==> Takes(rules[0], path);
      assert rules == [rules[0]] + rules[1..];
    }
  }
}
