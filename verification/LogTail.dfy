/** The backwards, chunked read behind `bridge logs`. */
module LogTail {

  newtype byte = b: int | 0 <= b < 256

  const NEWLINE: byte := 10

  function Newlines(s: seq<byte>): nat {
    if s == [] then 0 else (if s[0] == NEWLINE then 1 else 0) + Newlines(s[1..])
  }

  lemma {:induction false} NewlinesAppend(a: seq<byte>, b: seq<byte>)
    ensures Newlines(a + b) == Newlines(a) + Newlines(b)
  {
    if a == [] {
      assert a + b == b;
    } else {
      assert (a + b)[1..] == a[1..] + b;
      NewlinesAppend(a[1..], b);
    }
  }

  function Join(chunks: seq<seq<byte>>): seq<byte> {
    if chunks == [] then [] else chunks[0] + Join(chunks[1..])
  }

  function Reversed<T>(s: seq<T>): seq<T> {
    if s == [] then [] else Reversed(s[1..]) + [s[0]]
  }

  lemma {:induction false} ReversedAt<T>(s: seq<T>, k: nat)
    requires k < |s|
    ensures |Reversed(s)| == |s| && Reversed(s)[k] == s[|s| - 1 - k]
  {
    if |s| <= 1 {
    } else {
      ReversedAt(s[1..], if k < |s| - 1 then k else 0);
    }
  }

  lemma {:induction false} ReversedAppend<T>(s: seq<T>, x: T)
    ensures Reversed(s + [x]) == [x] + Reversed(s)
  {
    if s == [] {
      assert s + [x] == [x];
    } else {
      assert (s + [x])[1..] == s[1..] + [x];
      ReversedAppend(s[1..], x);
    }
  }

  /** What the tail of a file is, of the whole file at once: its longest suffix of at most n newlines. */
  ghost predicate IsTail(data: seq<byte>, n: nat, out: seq<byte>) {
    && |out| <= |data| && out == data[|data| - |out|..] && Newlines(out) <= n
    && forall k :: 0 <= k < |data| - |out| ==> Newlines(data[k..]) > n
  }

  /** There is one. */
  lemma TailUnique(data: seq<byte>, n: nat, a: seq<byte>, b: seq<byte>)
    requires IsTail(data, n, a) && IsTail(data, n, b)
    ensures a == b
  {
    assert a == data[|data| - |a|..] && b == data[|data| - |b|..];
  }

  method ReverseInPlace<T>(s: array<T>)
    modifies s
    ensures s[..] == Reversed(old(s[..]))
  {
    ghost var was := s[..];
    var i, j := 0, s.Length - 1;
    while i < j
      invariant 0 <= i <= s.Length && j == s.Length - 1 - i && (s.Length > 0 ==> i <= j + 1)
      invariant forall k :: 0 <= k < i ==> s[k] == was[s.Length - 1 - k] && s[s.Length - 1 - k] == was[k]
      invariant forall k :: i <= k <= j ==> s[k] == was[k]
    {
      s[i], s[j] := s[j], s[i];
      i, j := i + 1, j - 1;
    }
    assert s.Length == 0 ==> was == [];
    forall k | 0 <= k < s.Length ensures |Reversed(was)| == s.Length && s[..][k] == Reversed(was)[k] {
      ReversedAt(was, k);
    }
  }

  method IndexNewline(s: seq<byte>) returns (off: int)
    ensures off < 0 <==> Newlines(s) == 0
    ensures 0 <= off ==>
              && off < |s| && s[off] == NEWLINE
              && Newlines(s[..off]) == 0 && Newlines(s[off + 1..]) == Newlines(s) - 1
  {
    for k := 0 to |s|
      invariant Newlines(s[..k]) == 0 && Newlines(s[k..]) == Newlines(s)
    {
      assert s[k..][1..] == s[k + 1..];
      if s[k] == NEWLINE { return k; }
      assert s[..k + 1] == s[..k] + [s[k]];
      NewlinesAppend(s[..k], [s[k]]);
    }
    return -1;
  }

  /** The pieces of the file, latest first, back to `pos`: to its start, or to where more than `lines`
      newlines are in hand. */
  method ReadBack(data: seq<byte>, lines: nat, chunk: nat) returns (chunks: seq<seq<byte>>, pos: nat)
    requires chunk > 0
    ensures pos <= |data| && Join(Reversed(chunks)) == data[pos..]
    ensures pos == 0 || Newlines(data[pos..]) > lines
  {
    var newlines := 0;
    chunks, pos := [], |data|;
    while pos > 0 && newlines <= lines
      invariant pos <= |data|
      invariant Join(Reversed(chunks)) == data[pos..]
      invariant newlines == Newlines(data[pos..])
      decreases pos
    {
      var readSize := if pos < chunk then pos else chunk;
      var piece := data[pos - readSize..pos];
      assert data[pos - readSize..] == piece + data[pos..];
      NewlinesAppend(piece, data[pos..]);
      ReversedAppend(chunks, piece);
      pos := pos - readSize;
      newlines := newlines + Newlines(piece);
      chunks := chunks + [piece];
    }
  }

  /** What is left of buf past its first `idx` newlines. */
  method SkipNewlines(buf: seq<byte>, idx: nat) returns (rest: seq<byte>)
    requires idx <= Newlines(buf)
    ensures IsTail(buf, Newlines(buf) - idx, rest)
  {
    rest := buf;
    for i := 0 to idx
      invariant |rest| <= |buf| && IsTail(buf, Newlines(buf) - i, rest) && Newlines(rest) == Newlines(buf) - i
    {
      var off := IndexNewline(rest);
      if off < 0 { break; }
      var start := |buf| - |rest| + off + 1;
      assert rest[off + 1..] == buf[start..] && buf[start - 1] == NEWLINE;
      AfterNewlineIsTail(buf, start);
      rest := rest[off + 1..];
    }
  }

  /** What follows a newline is a tail: one byte more would take the newline in. */
  lemma AfterNewlineIsTail(buf: seq<byte>, start: nat)
    requires 0 < start <= |buf| && buf[start - 1] == NEWLINE
    ensures IsTail(buf, Newlines(buf[start..]), buf[start..])
  {
    forall k | 0 <= k < start ensures Newlines(buf[k..]) > Newlines(buf[start..]) { TailGrows(buf, k, start - 1); }
  }

  /** A tail of what was read back is the tail of the file, once more newlines than it holds were read. */
  lemma TailOfReadBack(data: seq<byte>, pos: nat, n: nat, out: seq<byte>)
    requires pos <= |data| && IsTail(data[pos..], n, out)
    requires pos == 0 || Newlines(data[pos..]) > n
    ensures IsTail(data, n, out)
  {
    var buf := data[pos..];
    forall k | 0 <= k < |data| - |out| ensures Newlines(data[k..]) > n {
      if k < pos {
        assert data[k..] == data[k..pos] + buf;
        NewlinesAppend(data[k..pos], buf);
      } else {
        assert data[k..] == buf[k - pos..];
      }
    }
  }

  /** The file is read from its end until more than `lines` newlines are in hand; the pieces, latest
      first, are turned round and joined; and what comes before the last `lines` newlines is skipped. */
  method TailFile(data: seq<byte>, lines: int, chunk: nat) returns (written: seq<byte>, offset: nat)
    requires chunk > 0
    ensures offset == |data|
    ensures lines <= 0 ==> written == []
    ensures lines > 0 ==> IsTail(data, lines, written)
  {
    offset := |data|;
    if lines <= 0 || offset == 0 { return [], offset; }
    var chunks, pos := ReadBack(data, lines, chunk);
    var slots := new seq<byte>[|chunks|](i requires 0 <= i < |chunks| => chunks[i]);
    assert slots[..] == chunks;
    ReverseInPlace(slots);
    var buf := Join(slots[..]);
    var idx := Newlines(buf) - lines;
    if idx > 0 { written := SkipNewlines(buf, idx); } else { written := buf; }
    TailOfReadBack(data, pos, lines, written);
  }

  lemma TailGrows(data: seq<byte>, k: nat, at: nat)
    requires k <= at < |data| && data[at] == NEWLINE
    ensures Newlines(data[k..]) > Newlines(data[at + 1..])
  {
    assert data[k..] == data[k..at] + ([data[at]] + data[at + 1..]);
    NewlinesAppend(data[k..at], [data[at]] + data[at + 1..]);
    NewlinesAppend([data[at]], data[at + 1..]);
  }

  // ----- lines -----

  /** Lines as a reader counts them: a last line without its newline is a line. */
  function Lines(s: seq<byte>): nat {
    Newlines(s) + if s != [] && s[|s| - 1] != NEWLINE then 1 else 0
  }

  /** Asked for one line of a file of an empty line and an unfinished one, it prints both. */
  lemma UnfinishedLineIsOneMore(c: byte)
    requires c != 10
    ensures IsTail([10, c], 1, [10, c]) && Lines([10, c]) == 2
  {
    var data := [NEWLINE, c];
    assert data[1..] == [c] && [c][1..] == [] && data[0..] == data;
    assert Newlines([]) == 0 && Newlines([c]) == 0;
    assert Newlines(data) == 1 + Newlines(data[1..]);
  }

  /** The command is documented to print the last n lines. It prints no more than n exactly when the file
      ends in a newline, or has fewer than n newlines; otherwise it prints n + 1. */
  lemma TailLinesExactly(data: seq<byte>, n: nat, out: seq<byte>)
    requires n > 0 && IsTail(data, n, out)
    ensures Newlines(out) == if Newlines(data) < n then Newlines(data) else n
    ensures Lines(out) <= n <==> data == [] || data[|data| - 1] == 10 || Newlines(data) < n
    ensures !(Lines(out) <= n) ==> Lines(out) == n + 1
  {
    var d := |data| - |out|;
    assert data == data[..d] + out;
    NewlinesAppend(data[..d], out);
    if d > 0 {
      assert data[d - 1..] == [data[d - 1]] + out;
      NewlinesAppend([data[d - 1]], out);
      assert Newlines(data[d - 1..]) > n;
    }
  }
}
