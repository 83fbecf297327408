/** Generic list helpers: concatenation of a list of sequences, flat map, and
    taking a prefix. */
module Lists {
  /** Concatenation of a list of sequences, in order. */
  function Concat<T>(parts: seq<seq<T>>): seq<T> {
    if |parts| == 0 then [] else Concat(parts[..|parts| - 1]) + parts[|parts| - 1]
  }

  lemma ConcatAppend<T>(parts: seq<seq<T>>, p: seq<T>)
    ensures Concat(parts + [p]) == Concat(parts) + p
  {
  }

  lemma {:induction false} ConcatCons<T>(p: seq<T>, parts: seq<seq<T>>)
    ensures Concat([p] + parts) == p + Concat(parts)
    decreases |parts|
  {
    if |parts| == 0 {
      assert [p] + parts == [p];
      assert [p][..0] == [];
    } else {
      var front := parts[..|parts| - 1];
      var last := parts[|parts| - 1];
      var whole := [p] + parts;
      assert whole[..|whole| - 1] == [p] + front;
      assert whole[|whole| - 1] == last;
      assert Concat(whole) == Concat([p] + front) + last;
      ConcatCons(p, front);
      assert Concat(parts) == Concat(front) + last;
    }
  }

  /** `f` applied to each element, the results concatenated in order. */
  function FlatMap<A, B>(xs: seq<A>, f: A -> seq<B>): seq<B> {
    if |xs| == 0 then [] else FlatMap(xs[..|xs| - 1], f) + f(xs[|xs| - 1])
  }

  lemma {:induction false} FlatMapConcat<A, B>(a: seq<A>, b: seq<A>, f: A -> seq<B>)
    ensures FlatMap(a + b, f) == FlatMap(a, f) + FlatMap(b, f)
    decreases |b|
  {
    if |b| == 0 {
      assert a + b == a;
    } else {
      var b' := b[..|b| - 1];
      assert (a + b)[..|a + b| - 1] == a + b';
      assert (a + b)[|a + b| - 1] == b[|b| - 1];
      FlatMapConcat(a, b', f);
    }
  }

  /** A property every piece has is a property of every element of the result. */
  lemma {:induction false} FlatMapAll<A, B>(xs: seq<A>, f: A -> seq<B>, p: B -> bool)
    requires forall x :: x in xs ==> forall y :: y in f(x) ==> p(y)
    ensures forall y :: y in FlatMap(xs, f) ==> p(y)
    decreases |xs|
  {
    if |xs| > 0 {
      var front := xs[..|xs| - 1];
      assert forall x :: x in front ==> x in xs;
      FlatMapAll(front, f, p);
    }
  }

  /** The result starts with the first element's piece and ends with the last's;
      a single element gives just its piece. */
  lemma FlatMapEnds<A, B>(xs: seq<A>, f: A -> seq<B>)
    ensures |xs| == 0 ==> FlatMap(xs, f) == []
    ensures |xs| == 1 ==> FlatMap(xs, f) == f(xs[0])
    ensures |xs| > 0 ==> |f(xs[0])| <= |FlatMap(xs, f)| && FlatMap(xs, f)[..|f(xs[0])|] == f(xs[0])
    ensures |xs| > 0 ==>
      |f(xs[|xs| - 1])| <= |FlatMap(xs, f)| &&
      FlatMap(xs, f)[|FlatMap(xs, f)| - |f(xs[|xs| - 1])|..] == f(xs[|xs| - 1])
  {
    if |xs| > 0 {
      var one := [xs[0]];
      assert xs == one + xs[1..];
      FlatMapConcat(one, xs[1..], f);
      assert one[..0] == [];
      assert FlatMap(one, f) == FlatMap(one[..0], f) + f(xs[0]);
    }
  }

  /** The first `n` elements of `xs`, or all of them. */
  function Take<T>(xs: seq<T>, n: nat): (r: seq<T>)
    ensures |r| == if |xs| <= n then |xs| else n
    ensures forall i :: 0 <= i < |r| ==> r[i] == xs[i]
  {
    if |xs| <= n then xs else xs[..n]
  }
}
