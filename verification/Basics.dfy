/** What several of the models share. */
module Basics {

  datatype Option<+T> = None | Some(value: T)

  /** Never is the zero time, which lies further back than any interval reaches. */
  datatype Instant = Never | At(time: int)

  predicate HasPrefix(s: string, prefix: string) {
    |prefix| <= |s| && s[..|prefix|] == prefix
  }

  function Max(a: int, b: int): int { if a > b then a else b }

  function Min(a: int, b: int): int { if a < b then a else b }

  /** The first `max` elements, or all there are. */
  function Take<T>(s: seq<T>, max: int): (r: seq<T>)
    ensures r <= s && |r| == Min(|s|, Max(0, max))
  {
    if max <= 0 then [] else if |s| > max then s[..max] else s
  }

  // ----- what a loop sifts out of a sequence -----

  function HowMany<T>(s: seq<T>, p: T -> bool): nat {
    if s == [] then 0 else HowMany(s[..|s| - 1], p) + if p(s[|s| - 1]) then 1 else 0
  }

  lemma HowManyStep<T>(s: seq<T>, x: T, p: T -> bool)
    ensures HowMany(s + [x], p) == HowMany(s, p) + if p(x) then 1 else 0
  {
    assert (s + [x])[..|s|] == s;
  }

  lemma HowManyOne<T>(x: T, p: T -> bool)
    ensures HowMany([x], p) == if p(x) then 1 else 0
  {
    HowManyStep([], x, p);
    assert [] + [x] == [x];
  }

  lemma {:induction false} HowManyAppend<T>(a: seq<T>, b: seq<T>, p: T -> bool)
    ensures HowMany(a + b, p) == HowMany(a, p) + HowMany(b, p)
  {
    if b == [] {
      assert a + b == a;
    } else {
      var n := |b| - 1;
      HowManyAppend(a, b[..n], p);
      HowManyStep(a + b[..n], b[n], p);
      assert a + b == a + b[..n] + [b[n]];
    }
  }

  lemma {:induction false} HowManyNone<T>(s: seq<T>, p: T -> bool)
    ensures HowMany(s, p) <= |s| && (HowMany(s, p) == 0 <==> forall x :: x in s ==> !p(x))
  {
    if s == [] {
    } else {
      HowManyNone(s[..|s| - 1], p);
      assert s == s[..|s| - 1] + [s[|s| - 1]];
    }
  }

  /** `out` holds what `f` makes of the elements that `p` picks, and nothing else, in the order of `s`: each stands
      behind as many as were picked before it. */
  ghost predicate Sifted<A(!new), B>(s: seq<A>, p: A -> bool, f: A -> B, out: seq<B>) {
    && |out| == HowMany(s, p)
    && forall i :: 0 <= i < |s| && p(s[i]) ==> HowMany(s[..i], p) < |out| && out[HowMany(s[..i], p)] == f(s[i])
  }

  lemma SiftedStep<A(!new), B>(s: seq<A>, x: A, p: A -> bool, f: A -> B, out: seq<B>)
    requires Sifted(s, p, f, out)
    ensures Sifted(s + [x], p, f, if p(x) then out + [f(x)] else out)
  {
    var more, out' := s + [x], if p(x) then out + [f(x)] else out;
    HowManyStep(s, x, p);
    forall i | 0 <= i < |more| && p(more[i])
      ensures HowMany(more[..i], p) < |out'| && out'[HowMany(more[..i], p)] == f(more[i])
    {
      if i < |s| {
        assert more[..i] == s[..i] && p(s[i]);
      } else {
        assert more[..i] == s;
      }
    }
  }

  lemma SiftedHead<A(!new), B>(x: A, s: seq<A>, p: A -> bool, f: A -> B, out: seq<B>)
    requires Sifted(s, p, f, out)
    ensures Sifted([x] + s, p, f, (if p(x) then [f(x)] else []) + out)
  {
    var more, first := [x] + s, if p(x) then [f(x)] else [];
    HowManyOne(x, p);
    HowManyAppend([x], s, p);
    forall i | 0 <= i < |more| && p(more[i])
      ensures HowMany(more[..i], p) < |first + out| && (first + out)[HowMany(more[..i], p)] == f(more[i])
    {
      if i > 0 {
        assert more[..i] == [x] + s[..i - 1] && more[i] == s[i - 1];
        HowManyAppend([x], s[..i - 1], p);
      } else {
        assert more[..i] == [];
      }
    }
  }
}
