/** Words printed as a shell command line, and the shell's own reading of one: token recognition and
    quote removal as sections 2.2.1, 2.2.2 and 2.3 of the Shell Command Language volume of IEEE Std 1003.1
    give them. */
module ShellQuote {
  import opened Basics

  const QUOTE: char := '\''
  const BACKSLASH: char := '\\'
  predicate IsBare(c: char) {
    || 'a' <= c <= 'z' || 'A' <= c <= 'Z' || '0' <= c <= '9'
    || c == '_' || c == '.' || c == '/' || c == ':' || c == '@' || c == '=' || c == '+' || c == '-'
  }

  /** `w` with every quote replaced by: close the quotes, an escaped quote, open them again. */
  function ReplaceQuotes(w: string): string {
    if w == [] then []
    else (if w[0] == QUOTE then [QUOTE, BACKSLASH, QUOTE, QUOTE] else [w[0]]) + ReplaceQuotes(w[1..])
  }

  predicate AllBare(w: string) { forall i :: 0 <= i < |w| ==> IsBare(w[i]) }

  function Word(w: string): string {
    if w != [] && AllBare(w) then w else [QUOTE] + ReplaceQuotes(w) + [QUOTE]
  }

  function Line(words: seq<string>): string {
    if words == [] then [] else if |words| == 1 then Word(words[0]) else Word(words[0]) + " " + Line(words[1..])
  }

  method ShellWord(w: string) returns (out: string)
    ensures out == Word(w)
  {
    var bare := w != "";
    for i := 0 to |w|
      invariant bare <==> w != "" && AllBare(w[..i])
      invariant i > 0 ==> bare
    {
      if !IsBare(w[i]) {
        bare := false;
        break;
      }
    }
    if bare { assert w[..|w|] == w; return w; }
    return [QUOTE] + ReplaceQuotes(w) + [QUOTE];
  }

  function JoinWith(parts: seq<string>, sep: string): string {
    if parts == [] then [] else if |parts| == 1 then parts[0] else parts[0] + sep + JoinWith(parts[1..], sep)
  }

  method ShellLine(words: seq<string>) returns (line: string)
    ensures line == Line(words)
  {
    var out: seq<string> := [];
    for i := 0 to |words|
      invariant |out| == i && forall k :: 0 <= k < i ==> out[k] == Word(words[k])
    {
      var w := ShellWord(words[i]);
      out := out + [w];
    }
    JoinIsLine(words, out);
    return JoinWith(out, " ");
  }

  lemma {:induction false} JoinIsLine(words: seq<string>, out: seq<string>)
    requires |out| == |words| && forall k :: 0 <= k < |words| ==> out[k] == Word(words[k])
    ensures JoinWith(out, " ") == Line(words)
  {
    if |words| <= 1 {
    } else {
      JoinIsLine(words[1..], out[1..]);
    }
  }

  // ----- how it prints -----

  lemma {:induction false} QuotesReplaced(a: string, b: string)
    ensures ReplaceQuotes(a + b) == ReplaceQuotes(a) + ReplaceQuotes(b)
  {
    if a == [] {
      assert a + b == b;
    } else {
      var head := if a[0] == QUOTE then [QUOTE, BACKSLASH, QUOTE, QUOTE] else [a[0]];
      QuotesReplaced(a[1..], b);
      assert (a + b)[1..] == a[1..] + b && (a + b)[0] == a[0];
      assert head + (ReplaceQuotes(a[1..]) + ReplaceQuotes(b)) == head + ReplaceQuotes(a[1..]) + ReplaceQuotes(b);
    }
  }

  lemma {:induction false} NoQuotesReplaced(w: string)
    requires QUOTE !in w
    ensures ReplaceQuotes(w) == w
  {
    if w == [] {
    } else {
      NoQuotesReplaced(w[1..]);
      assert w == [w[0]] + w[1..] && w[0] in w;
    }
  }

  lemma OneQuoteReplaced()
    ensures ReplaceQuotes("'") == "'\\''"
  {
    var four := [QUOTE, BACKSLASH, QUOTE, QUOTE];
    assert "'"[1..] == [] && four + [] == four && "'\\''" == four;
  }

  const BARE_SIGNS := "_./:@=+-"

  predicate NeedsNoQuotes(w: string) {
    w != "" && forall c :: c in w ==> 'a' <= c <= 'z' || 'A' <= c <= 'Z' || '0' <= c <= '9' || c in BARE_SIGNS
  }

  /** A word of letters, digits and these signs is printed as it is, and every other one between quotes, as it is but
      for its own quotes. */
  lemma WordSays(w: string)
    ensures NeedsNoQuotes(w) ==> Word(w) == w
    ensures !NeedsNoQuotes(w) ==> Word(w) == "'" + ReplaceQuotes(w) + "'"
    ensures !NeedsNoQuotes(w) && QUOTE !in w ==> Word(w) == "'" + w + "'"
  {
    forall c ensures c in BARE_SIGNS <==>
                       c == '_' || c == '.' || c == '/' || c == ':' || c == '@' || c == '=' || c == '+' || c == '-'
    {
      var b := BARE_SIGNS;
      assert b[0] == '_' && b[1] == '.' && b[2] == '/' && b[3] == ':' && b[4] == '@' && b[5] == '=' && b[6] == '+'
          && b[7] == '-';
    }
    if AllBare(w) {
      assert forall i :: 0 <= i < |w| ==> w[i] in w;
    } else {
      var i :| 0 <= i < |w| && !IsBare(w[i]);
      assert w[i] in w;
    }
    if QUOTE !in w { NoQuotesReplaced(w); }
    assert [QUOTE] == "'";
  }

  lemma {:induction false} LineJoins(words: seq<string>, w: string)
    ensures Line(words + [w]) == if words == [] then Word(w) else Line(words) + " " + Word(w)
  {
    var all := words + [w];
    if words == [] {
      assert all == [w];
    } else {
      LineJoins(words[1..], w);
      assert all[1..] == words[1..] + [w] && all[0] == words[0];
      if |words| > 1 {
        var head, rest := Word(words[0]) + " ", Line(words[1..]);
        assert head + (rest + " " + Word(w)) == head + rest + " " + Word(w);
      }
    }
  }

  // ----- how a shell reads a line -----

  /** Where the reader is: between words, in a word outside quotes, or inside single quotes. */
  datatype Mode = Between | Plain | Quoted

  /** What a character is to the shell outside quotes. */
  predicate IsBlank(c: char) { c == ' ' || c == '\t' }

  /** The characters that mean something to the shell unquoted, or may in some places: section 2.2. A line
      that reaches one unquoted is more than a list of words. */
  predicate IsSpecial(c: char) {
    || c == '|' || c == '&' || c == ';' || c == '<' || c == '>' || c == '(' || c == ')' || c == '$' || c == '`'
    || c == '"' || c == '*' || c == '?' || c == '[' || c == '#' || c == '~' || c == '%' || c == '{' || c == '}'
    || c == '!' || c == '^' || c == '\n'
  }

  /** The words of `line` read in `mode` with `word` so far and `done` before it; None for a line that is
      not a list of plain words, or ends inside quotes. */
  function Read(line: string, mode: Mode, word: string, done: seq<string>): Option<seq<string>>
    decreases |line|
  {
    if line == [] then
      match mode
      case Between => Some(done)
      case Plain => Some(done + [word])
      case Quoted => None
    else
      var c, rest := line[0], line[1..];
      if mode == Quoted then
        if c == QUOTE then Read(rest, Plain, word, done) else Read(rest, Quoted, word + [c], done)
      else if c == QUOTE then Read(rest, Quoted, word, done)
      else if c == BACKSLASH then
        if rest == [] then None
        else if rest[0] == '\n' then Read(rest[1..], mode, word, done)
        else Read(rest[1..], Plain, word + [rest[0]], done)
      else if IsBlank(c) then
        if mode == Plain then Read(rest, Between, [], done + [word]) else Read(rest, Between, word, done)
      else if IsSpecial(c) then None
      else Read(rest, Plain, word + [c], done)
  }

  function Tokenise(line: string): Option<seq<string>> { Read(line, Between, [], []) }

  lemma BareStep(c: char, rest: string, mode: Mode, word: string, done: seq<string>)
    requires IsBare(c) && mode != Quoted
    ensures Read([c] + rest, mode, word, done) == Read(rest, Plain, word + [c], done)
  {
    var line := [c] + rest;
    assert line[0] == c && line[1..] == rest;
    assert c != QUOTE && c != BACKSLASH && !IsBlank(c) && !IsSpecial(c);
  }

  lemma {:induction false} ReadBare(w: string, tail: string, mode: Mode, word: string, done: seq<string>)
    requires AllBare(w) && mode != Quoted && (w == [] ==> mode == Plain)
    ensures Read(w + tail, mode, word, done) == Read(tail, Plain, word + w, done)
  {
    if w == [] {
      assert w + tail == tail && word + w == word;
    } else {
      assert w + tail == [w[0]] + (w[1..] + tail);
      BareStep(w[0], w[1..] + tail, mode, word, done);
      assert word + [w[0]] + w[1..] == word + w;
      ReadBare(w[1..], tail, Plain, word + [w[0]], done);
    }
  }

  lemma {:induction false} ReadQuoted(w: string, tail: string, word: string, done: seq<string>)
    ensures Read(ReplaceQuotes(w) + [QUOTE] + tail, Quoted, word, done) == Read(tail, Plain, word + w, done)
  {
    var line := ReplaceQuotes(w) + [QUOTE] + tail;
    if w == [] {
      assert line[1..] == tail && word + w == word;
    } else {
      var after := ReplaceQuotes(w[1..]) + [QUOTE] + tail;
      assert word + [w[0]] + w[1..] == word + w;
      ReadQuoted(w[1..], tail, word + [w[0]], done);
      if w[0] == QUOTE {
        assert line == [QUOTE, BACKSLASH, QUOTE, QUOTE] + after;
        EscapedQuote(after, word, done);
      } else {
        assert line == [w[0]] + after;
        assert line[1..] == after;
      }
    }
  }

  lemma EscapedQuote(after: string, word: string, done: seq<string>)
    ensures Read([QUOTE, BACKSLASH, QUOTE, QUOTE] + after, Quoted, word, done)
            == Read(after, Quoted, word + [QUOTE], done)
  {
    var line := [QUOTE, BACKSLASH, QUOTE, QUOTE] + after;
    assert line[1..] == [BACKSLASH, QUOTE, QUOTE] + after;
    assert line[1..][1..] == [QUOTE, QUOTE] + after;
    assert line[1..][1..][1..] == [QUOTE] + after;
    assert ([QUOTE] + after)[1..] == after;
    assert Read(line, Quoted, word, done) == Read([BACKSLASH, QUOTE, QUOTE] + after, Plain, word, done);
    assert Read([BACKSLASH, QUOTE, QUOTE] + after, Plain, word, done)
      == Read([QUOTE] + after, Plain, word + [QUOTE], done);
  }

  lemma ReadWord(w: string, tail: string, done: seq<string>)
    ensures Read(Word(w) + tail, Between, [], done) == Read(tail, Plain, w, done)
  {
    if w != [] && AllBare(w) {
      ReadBare(w, tail, Between, [], done);
      assert [] + w == w;
    } else {
      var line := Word(w) + tail;
      assert line[1..] == ReplaceQuotes(w) + [QUOTE] + tail;
      ReadQuoted(w, tail, [], done);
      assert [] + w == w;
    }
  }

  /** A shell reads back exactly the words printed, whatever characters they hold: none splits, joins,
      expands or is lost, the empty word included. */
  lemma {:induction false} ReadLine(words: seq<string>, done: seq<string>)
    ensures Read(Line(words), Between, [], done) == Some(done + words)
  {
    if words == [] {
      assert done + words == done;
    } else if |words| == 1 {
      ReadLastWord(words[0], done);
      assert words == [words[0]];
    } else {
      ReadLine(words[1..], done + [words[0]]);
      ReadWordAndSpace(words[0], Line(words[1..]), done);
      assert done + [words[0]] + words[1..] == done + words;
      var line := Word(words[0]) + " " + Line(words[1..]);
      assert Line(words) == line;
      assert Read(line, Between, [], done) == Some(done + words);
    }
  }

  lemma ReadLastWord(w: string, done: seq<string>)
    ensures Read(Word(w), Between, [], done) == Some(done + [w])
  {
    ReadWord(w, [], done);
    assert Word(w) + [] == Word(w);
  }

  lemma ReadWordAndSpace(w: string, rest: string, done: seq<string>)
    ensures Read(Word(w) + " " + rest, Between, [], done) == Read(rest, Between, [], done + [w])
  {
    var tail := " " + rest;
    assert Word(w) + " " + rest == Word(w) + tail;
    ReadWord(w, tail, done);
    assert tail[0] == ' ' && tail[1..] == rest;
  }

  lemma ShellReadsBackTheWords(words: seq<string>)
    ensures Tokenise(Line(words)) == Some(words)
  {
    ReadLine(words, []);
    assert [] + words == words;
  }

  /** So two command lines that print the same are the same. */
  lemma LineIsInjective(a: seq<string>, b: seq<string>)
    requires Line(a) == Line(b)
    ensures a == b
  {
    ShellReadsBackTheWords(a);
    ShellReadsBackTheWords(b);
  }
}
