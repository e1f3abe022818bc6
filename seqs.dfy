/** List building blocks shared by both tools: `extend` in a loop, and a filtering comprehension. */
module Seqs {

  /** `out = []; for x in xs: out.extend(f(x))`. */
  function ConcatMap<T, U>(f: T -> seq<U>, xs: seq<T>): seq<U>
  {
    if xs == [] then [] else ConcatMap(f, xs[..|xs| - 1]) + f(xs[|xs| - 1])
  }

  /** Concatenating runs of input concatenates their outputs: order is kept and nothing is removed as a duplicate. */
  lemma {:induction false} ConcatMapAppend<T, U>(f: T -> seq<U>, a: seq<T>, b: seq<T>)
    ensures ConcatMap(f, a + b) == ConcatMap(f, a) + ConcatMap(f, b)
  {
    if b == [] {
      assert a + b == a;
    } else {
      var init := b[..|b| - 1];
      assert (a + b)[..|a + b| - 1] == a + init;
      assert (a + b)[|a + b| - 1] == b[|b| - 1];
      ConcatMapAppend(f, a, init);
    }
  }

  /** An output element comes from some input element. */
  lemma {:induction false} ConcatMapMembers<T, U>(f: T -> seq<U>, xs: seq<T>, y: U)
    ensures y in ConcatMap(f, xs) <==> exists x :: x in xs && y in f(x)
  {
    if xs != [] {
      var init := xs[..|xs| - 1];
      ConcatMapMembers(f, init, y);
      assert forall x :: x in xs <==> x in init || x == xs[|xs| - 1];
    }
  }

  /** `[x for x in xs if keep(x)]`. */
  function Filter<T>(keep: T -> bool, xs: seq<T>): seq<T>
  {
    if xs == [] then []
    else
      var last := xs[|xs| - 1];
      Filter(keep, xs[..|xs| - 1]) + if keep(last) then [last] else []
  }

  /** An element is kept exactly when it is one of the inputs and passes. */
  lemma {:induction false} FilterMembers<T>(keep: T -> bool, xs: seq<T>, x: T)
    ensures x in Filter(keep, xs) <==> x in xs && keep(x)
  {
    if xs != [] {
      var init := xs[..|xs| - 1];
      FilterMembers(keep, init, x);
      assert x in xs <==> x in init || x == xs[|xs| - 1];
    }
  }

  /** Filtering runs element by element, so the kept elements keep their order and multiplicity. */
  lemma {:induction false} FilterAppend<T>(keep: T -> bool, a: seq<T>, b: seq<T>)
    ensures Filter(keep, a + b) == Filter(keep, a) + Filter(keep, b)
  {
    if b == [] {
      assert a + b == a;
    } else {
      var init := b[..|b| - 1];
      assert (a + b)[..|a + b| - 1] == a + init;
      assert (a + b)[|a + b| - 1] == b[|b| - 1];
      FilterAppend(keep, a, init);
    }
  }

  /** Nothing is added: the result is no longer than the input, and equal to it when every element passes. */
  lemma {:induction false} FilterShorter<T>(keep: T -> bool, xs: seq<T>)
    ensures |Filter(keep, xs)| <= |xs|
    ensures (forall i :: 0 <= i < |xs| ==> keep(xs[i])) ==> Filter(keep, xs) == xs
  {
    if xs != [] {
      var init := xs[..|xs| - 1];
      FilterShorter(keep, init);
      assert xs == init + [xs[|xs| - 1]];
    }
  }
}
