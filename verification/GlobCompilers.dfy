/** The two scripts' glob compilers, and what a glob means segment by segment. */
module GlobCompilers {
  import opened Basics
  import opened GlobRegex

  const SLASH: char := '/'

  // ----- strings in parts -----

  function Split(s: string, sep: char): (parts: seq<string>)
    ensures parts != []
  {
    if s == [] then [[]]
    else
      var rest := Split(s[1..], sep);
      if s[0] == sep then [[]] + rest else [[s[0]] + rest[0]] + rest[1..]
  }

  function Join(parts: seq<string>): string {
    if parts == [] then [] else if |parts| == 1 then parts[0] else parts[0] + [SLASH] + Join(parts[1..])
  }

  /** A string is the join of its segments, and none of them holds a slash. */
  lemma {:induction false} SplitJoins(s: string)
    ensures Join(Split(s, SLASH)) == s
    ensures forall p :: p in Split(s, SLASH) ==> SLASH !in p
  {
    if s == [] {
    } else {
      var rest := Split(s[1..], SLASH);
      SplitJoins(s[1..]);
      if s[0] == SLASH {
        JoinAfterSlash(rest);
      } else {
        JoinAfterChar(s[0], rest);
        NoSlashAdded(s[0], rest);
      }
      assert s == [s[0]] + s[1..];
    }
  }

  lemma JoinAfterSlash(rest: seq<string>)
    requires rest != [] && forall p :: p in rest ==> SLASH !in p
    ensures Join([[]] + rest) == [SLASH] + Join(rest)
    ensures forall p :: p in [[]] + rest ==> SLASH !in p
  {
    var parts := [[]] + rest;
    assert parts[1..] == rest && parts[0] == [];
    assert [] + [SLASH] + Join(rest) == [SLASH] + Join(rest);
  }

  lemma JoinLess(p: string, parts: seq<string>)
    requires p != [] && parts != [] && parts[0] == p
    ensures Join(parts) == [p[0]] + Join([p[1..]] + parts[1..])
  {
    var less := [p[1..]] + parts[1..];
    assert less[1..] == parts[1..] && [p[0]] + p[1..] == p;
    if |parts| > 1 {
      var rest := Join(parts[1..]);
      assert p + [SLASH] + rest == [p[0]] + (p[1..] + [SLASH] + rest);
    }
  }

  lemma JoinAfterChar(c: char, rest: seq<string>)
    requires rest != []
    ensures Join([[c] + rest[0]] + rest[1..]) == [c] + Join(rest)
  {
    var first := [c] + rest[0];
    var parts := [first] + rest[1..];
    assert parts[1..] == rest[1..] && first[1..] == rest[0] && [rest[0]] + rest[1..] == rest;
    JoinLess(first, parts);
  }

  lemma NoSlashAdded(c: char, rest: seq<string>)
    requires rest != [] && c != SLASH && forall p :: p in rest ==> SLASH !in p
    ensures forall p :: p in [[c] + rest[0]] + rest[1..] ==> SLASH !in p
  {
    assert rest[0] in rest && forall p :: p in rest[1..] ==> p in rest;
  }

  predicate NoSlashes(parts: seq<string>) { forall p :: p in parts ==> SLASH !in p }

  /** And the segments joined are split again. */
  lemma {:induction false} JoinSplits(parts: seq<string>)
    requires parts != [] && NoSlashes(parts)
    ensures Split(Join(parts), SLASH) == parts
    decreases |parts|, |parts[0]|
  {
    var rest := parts[1..];
    NoSlashLeft(parts);
    if parts[0] != [] {
      JoinSplits([parts[0][1..]] + rest);
      SplitsAfterChar(parts);
    } else if rest != [] {
      JoinSplits(rest);
      SplitsAfterSlash(parts);
    } else {
      assert parts == [[]];
    }
  }

  lemma NoSlashLeft(parts: seq<string>)
    requires parts != [] && NoSlashes(parts)
    ensures NoSlashes(parts[1..])
    ensures parts[0] != [] ==> NoSlashes([parts[0][1..]] + parts[1..]) && parts[0][0] != SLASH
  {
    assert parts[0] in parts && forall p :: p in parts[1..] ==> p in parts;
    if parts[0] != [] {
      assert parts[0][0] in parts[0] && forall c :: c in parts[0][1..] ==> c in parts[0];
    }
  }

  lemma SplitsAfterSlash(parts: seq<string>)
    requires |parts| > 1 && parts[0] == [] && Split(Join(parts[1..]), SLASH) == parts[1..]
    ensures Split(Join(parts), SLASH) == parts
  {
    assert Join(parts) == [SLASH] + Join(parts[1..]);
    SplitAfter(SLASH, Join(parts[1..]));
    assert parts == [[]] + parts[1..];
  }

  lemma SplitsAfterChar(parts: seq<string>)
    requires parts != [] && parts[0] != [] && parts[0][0] != SLASH
    requires var less := [parts[0][1..]] + parts[1..]; Split(Join(less), SLASH) == less
    ensures Split(Join(parts), SLASH) == parts
  {
    var p := parts[0];
    var less := [p[1..]] + parts[1..];
    JoinLess(p, parts);
    SplitAfter(p[0], Join(less));
    assert less[0] == p[1..] && less[1..] == parts[1..];
    assert [p[0]] + p[1..] == p && parts == [p] + parts[1..];
  }

  lemma SplitAfter(c: char, s: string)
    ensures var rest := Split(s, SLASH);
            Split([c] + s, SLASH) == if c == SLASH then [[]] + rest else [[c] + rest[0]] + rest[1..]
  {
    assert ([c] + s)[1..] == s;
  }

  function IndexOf(s: string, c: char): nat
    ensures IndexOf(s, c) <= |s| && (c in s ==> IndexOf(s, c) < |s| && s[IndexOf(s, c)] == c)
  {
    if s == [] || s[0] == c then 0 else 1 + IndexOf(s[1..], c)
  }

  // ----- check-doc-budgets.py -----

  /** The next piece the compiler appends, and how much of the glob it consumes. */
  function BudgetNext(s: string): (next: (Token, nat))
    requires s != []
    ensures 0 < next.1 <= |s|
  {
    if HasPrefix(s, "**/") then (Directories, 3)
    else if HasPrefix(s, "**") then (StarAll, 2)
    else if s[0] == '*' then (StarInSegment, 1)
    else if s[0] == '?' then (OneInSegment, 1)
    else if s[0] == '{' && '}' in s then
      var end := IndexOf(s, '}');
      (Alternatives(Split(s[1..end], ',')), end + 1)
    else (Literal(s[0]), 1)
  }

  function BudgetTokens(s: string): seq<Token>
    decreases |s|
  {
    if s == [] then [] else [BudgetNext(s).0] + BudgetTokens(s[BudgetNext(s).1..])
  }

  method BudgetPiece(s: string) returns (piece: Token, used: nat)
    requires s != []
    ensures (piece, used) == BudgetNext(s)
  {
    if HasPrefix(s, "**/") { return Directories, 3; }
    if HasPrefix(s, "**") { return StarAll, 2; }
    if s[0] == '*' { return StarInSegment, 1; }
    if s[0] == '?' { return OneInSegment, 1; }
    if s[0] == '{' && '}' in s {
      var end := IndexOf(s, '}');
      return Alternatives(Split(s[1..end], ',')), end + 1;
    }
    return Literal(s[0]), 1;
  }

  /** One round of the loop. */
  method BudgetAppend(pattern: string, i: nat, out: seq<Token>) returns (out': seq<Token>, i': nat)
    requires i < |pattern|
    ensures i < i' <= |pattern| && BudgetFrom(pattern, i', out') == BudgetFrom(pattern, i, out)
  {
    var piece, used := BudgetPiece(pattern[i..]);
    BudgetStep(pattern, i, out, piece, used);
    out', i' := out + [piece], i + used;
  }

  method BudgetGlobRegex(pattern: string) returns (out: seq<Token>)
    ensures out == BudgetTokens(pattern)
  {
    out := [];
    var i := 0;
    BudgetStart(pattern);
    while i < |pattern|
      invariant 0 <= i <= |pattern|
      invariant BudgetFrom(pattern, i, out) == BudgetTokens(pattern)
    {
      out, i := BudgetAppend(pattern, i, out);
    }
    BudgetEnd(pattern, out);
  }

  /** What compiling the rest of the pattern from i on comes to, after `out`. */
  function BudgetFrom(pattern: string, i: nat, out: seq<Token>): seq<Token>
    requires i <= |pattern|
  {
    out + BudgetTokens(pattern[i..])
  }

  lemma BudgetEnd(pattern: string, out: seq<Token>)
    ensures BudgetFrom(pattern, |pattern|, out) == out
  {
    assert pattern[|pattern|..] == [] && out + [] == out;
  }

  lemma BudgetStart(pattern: string)
    ensures BudgetFrom(pattern, 0, []) == BudgetTokens(pattern)
  {
    assert pattern[0..] == pattern && [] + BudgetTokens(pattern) == BudgetTokens(pattern);
  }

  lemma BudgetStep(pattern: string, i: nat, out: seq<Token>, piece: Token, used: nat)
    requires i < |pattern| && (piece, used) == BudgetNext(pattern[i..])
    ensures 0 < used && i + used <= |pattern|
    ensures BudgetFrom(pattern, i, out) == BudgetFrom(pattern, i + used, out + [piece])
  {
    assert pattern[i..][used..] == pattern[i + used..];
    assert out + ([piece] + BudgetTokens(pattern[i + used..])) == out + [piece] + BudgetTokens(pattern[i + used..]);
  }

  // ----- rules-for.py -----

  const UNSUPPORTED := "[]{}"

  /** `atStart` says whether the character before is a slash, or there is none. None is the error. */
  function RulesNext(s: string, atStart: bool): (next: Option<(Token, nat)>)
    requires s != []
    ensures next.Some? ==> 0 < next.value.1 <= |s|
  {
    if HasPrefix(s, "**/") then Some((Directories, 3))
    else if HasPrefix(s, "**") then if |s| != 2 || !atStart then None else Some((StarAll, 2))
    else if s[0] == '*' then Some((StarInSegment, 1))
    else if s[0] == '?' then Some((OneInSegment, 1))
    else Some((Literal(s[0]), 1))
  }

  function RulesTokens(s: string, atStart: bool): Option<seq<Token>>
    decreases |s|
  {
    if s == [] then Some([])
    else
      match RulesNext(s, atStart)
      case None => None
      case Some((piece, used)) => Prepend([piece], RulesTokens(s[used..], s[used - 1] == SLASH))
  }

  function Prepend(before: seq<Token>, r: Option<seq<Token>>): Option<seq<Token>> {
    match r case Some(tokens) => Some(before + tokens) case None => None
  }

  lemma PrependNothing(r: Option<seq<Token>>)
    ensures Prepend([], r) == r
  {
    if r.Some? { assert [] + r.value == r.value; }
  }

  predicate Supported(glob: string) { forall c :: c in glob ==> c !in UNSUPPORTED }

  function RulesCompile(glob: string): Option<seq<Token>> {
    if !Supported(glob) then None else RulesTokens(glob, true)
  }

  method RulesPiece(s: string, atStart: bool) returns (next: Option<(Token, nat)>)
    requires s != []
    ensures next == RulesNext(s, atStart)
  {
    if HasPrefix(s, "**/") { return Some((Directories, 3)); }
    if HasPrefix(s, "**") {
      if |s| != 2 || !atStart { return None; }
      return Some((StarAll, 2));
    }
    if s[0] == '*' { return Some((StarInSegment, 1)); }
    if s[0] == '?' { return Some((OneInSegment, 1)); }
    return Some((Literal(s[0]), 1));
  }

  /** One round of the loop; None is the error. */
  method RulesAppend(glob: string, i: nat, tokens: seq<Token>) returns (next: Option<(seq<Token>, nat)>)
    requires i < |glob|
    ensures match next
            case None => RulesFrom(glob, i, tokens) == None
            case Some((more, k)) => i < k <= |glob| && RulesFrom(glob, k, more) == RulesFrom(glob, i, tokens)
  {
    var piece := RulesPiece(glob[i..], i == 0 || glob[i - 1] == SLASH);
    RulesStep(glob, i, tokens);
    if piece.None? { return None; }
    return Some((tokens + [piece.value.0], i + piece.value.1));
  }

  method RulesGlobRegex(glob: string) returns (out: Option<seq<Token>>)
    ensures out == RulesCompile(glob)
  {
    if exists c :: c in glob && c in UNSUPPORTED { return None; }
    var tokens: seq<Token> := [];
    var i, n := 0, |glob|;
    RulesStart(glob);
    while i < n
      invariant 0 <= i <= n
      invariant RulesTokens(glob, true) == RulesFrom(glob, i, tokens)
    {
      var next := RulesAppend(glob, i, tokens);
      if next.None? { return None; }
      tokens, i := next.value.0, next.value.1;
    }
    RulesEnd(glob, tokens);
    return Some(tokens);
  }

  lemma RulesStart(glob: string)
    ensures RulesFrom(glob, 0, []) == RulesTokens(glob, true)
  {
    assert glob[0..] == glob;
    PrependNothing(RulesTokens(glob, true));
  }

  predicate AtStart(glob: string, i: nat)
    requires i <= |glob|
  {
    i == 0 || glob[i - 1] == SLASH
  }

  /** What compiling the rest of the glob from i on comes to, after `tokens`. */
  function RulesFrom(glob: string, i: nat, tokens: seq<Token>): Option<seq<Token>>
    requires i <= |glob|
  {
    Prepend(tokens, RulesTokens(glob[i..], AtStart(glob, i)))
  }

  lemma RulesEnd(glob: string, tokens: seq<Token>)
    ensures RulesFrom(glob, |glob|, tokens) == Some(tokens)
  {
    assert tokens + [] == tokens;
  }

  lemma RulesStep(glob: string, i: nat, tokens: seq<Token>)
    requires i < |glob|
    ensures var next := RulesNext(glob[i..], AtStart(glob, i));
            RulesFrom(glob, i, tokens) == if next.None? then None
              else RulesFrom(glob, i + next.value.1, tokens + [next.value.0])
  {
    var next := RulesNext(glob[i..], AtStart(glob, i));
    if next.Some? {
      var (piece, used) := next.value;
      assert glob[i..][used..] == glob[i + used..] && glob[i..][used - 1] == glob[i + used - 1];
      var rest := RulesTokens(glob[i + used..], glob[i + used - 1] == SLASH);
      if rest.Some? { assert tokens + ([piece] + rest.value) == tokens + [piece] + rest.value; }
    }
  }

  // ----- the two agree -----

  lemma {:induction false} SameTokens(s: string, atStart: bool)
    requires Supported(s) && RulesTokens(s, atStart).Some?
    ensures RulesTokens(s, atStart) == Some(BudgetTokens(s))
    decreases |s|
  {
    if s == [] {
    } else {
      assert s[0] in s && s[0] !in UNSUPPORTED;
      var (piece, used) := BudgetNext(s);
      assert RulesNext(s, atStart) == Some((piece, used));
      SameTokens(s[used..], s[used - 1] == SLASH);
    }
  }

  /** On every glob rules-for.py accepts, its pattern matches a path exactly when the other script's matches
      the path, or the path less one newline at its end: `$` against `\Z` is the whole difference. */
  lemma ScriptsAgreeExactly(glob: string, path: string)
    requires RulesCompile(glob).Some?
    ensures MatchesToLineEnd(RulesCompile(glob).value, path) <==>
            || MatchesToEnd(BudgetTokens(glob), path)
            || (path != [] && path[|path| - 1] == '\n' && MatchesToEnd(BudgetTokens(glob), path[..|path| - 1]))
    ensures (path == [] || path[|path| - 1] != '\n') ==>
              (MatchesToLineEnd(RulesCompile(glob).value, path) <==> MatchesToEnd(BudgetTokens(glob), path))
  {
    SameTokens(glob, true);
  }

  /** And it is a difference: the glob "x" governs the path "x\n" to one script and not to the other. */
  lemma ScriptsDifferAtNewline()
    ensures RulesCompile("x") == Some([Literal('x')])
    ensures MatchesToLineEnd([Literal('x')], "x\n") && !MatchesToEnd([Literal('x')], "x\n")
  {
    assert "x"[1..] == "" && RulesTokens("", false) == Some([]);
    assert RulesTokens("x", true) == Prepend([Literal('x')], Some([])) && [Literal('x')] + [] == [Literal('x')];
    assert forall c :: c in "x" ==> c == 'x';
    ScanIsIn([Literal('x')], "x\n");
    ScanIsIn([Literal('x')], "x");
    assert "x\n"[..1] == "x" && "x\n"[1..] == "\n";
    assert !Scan([], "\n") && Scan([], "");
  }
}
