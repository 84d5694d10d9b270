/**
 * Sequence helpers for de-duplication. `Dedup` is what
 * `Array.from(new Set(xs))` computes: a JavaScript `Set` keeps its elements in
 * insertion order and ignores an element it already holds. `FirstOccurrences`
 * is an independent reference definition of the same sequence.
 */
module Seqs {

  /** No element appears twice. */
  predicate NoDup<T(==, !new)>(xs: seq<T>) {
    forall i, j :: 0 <= i < j < |xs| ==> xs[i] != xs[j]
  }

  /** The position of the first occurrence of x in xs. */
  function IndexOf<T(==, !new)>(xs: seq<T>, x: T): (k: nat)
    requires x in xs
    ensures k < |xs| && xs[k] == x
    ensures x !in xs[..k]
    decreases |xs|
  {
    if xs[0] == x then 0
    else
      var k := 1 + IndexOf(xs[1..], x);
      assert xs[..k] == [xs[0]] + xs[1..][..k - 1];
      k
  }

  /** Appending after xs does not move the first occurrence of an element of xs. */
  lemma IndexOfAppend<T(!new)>(xs: seq<T>, ys: seq<T>, x: T)
    requires x in xs
    ensures IndexOf(xs + ys, x) == IndexOf(xs, x)
  {
    var k := IndexOf(xs, x);
    var k' := IndexOf(xs + ys, x);
    assert (xs + ys)[..k] == xs[..k];
    assert (xs + ys)[k] == x;
  }

  /**
   * Reference definition: the elements of xs in order, each kept only at its
   * first occurrence.
   */
  function FirstOccurrences<T(==, !new)>(xs: seq<T>): (r: seq<T>)
    ensures NoDup(r)
    ensures forall x :: x in r <==> x in xs
    decreases |xs|
  {
    if xs == [] then []
    else
      var init, last := xs[..|xs| - 1], xs[|xs| - 1];
      assert xs == init + [last];
      var r0 := FirstOccurrences(init);
      if last in init then r0 else r0 + [last]
  }

  /** Inserting the elements of xs, in order, into a `Set` that already holds `seen`. */
  function AddAll<T(==, !new)>(seen: seq<T>, xs: seq<T>): seq<T>
    decreases |xs|
  {
    if xs == [] then seen
    else AddAll(if xs[0] in seen then seen else seen + [xs[0]], xs[1..])
  }

  /** Inserting one element into the set of first occurrences gives the first occurrences one element on. */
  lemma FirstOccurrencesSnoc<T(!new)>(p: seq<T>, x: T)
    ensures FirstOccurrences(p + [x])
         == if x in FirstOccurrences(p) then FirstOccurrences(p) else FirstOccurrences(p) + [x]
  {
    var p' := p + [x];
    assert p'[..|p'| - 1] == p && p'[|p'| - 1] == x;
  }

  /** Moving the head of xs to the end of p leaves the concatenation as it is. */
  lemma MoveHead<T>(p: seq<T>, xs: seq<T>)
    requires xs != []
    ensures p + [xs[0]] + xs[1..] == p + xs
  {
    assert xs == [xs[0]] + xs[1..];
  }

  /** Set insertion continues the reference definition: it never revisits what is already kept. */
  lemma {:induction false} AddAllExtendsFirstOccurrences<T(!new)>(p: seq<T>, xs: seq<T>)
    ensures AddAll(FirstOccurrences(p), xs) == FirstOccurrences(p + xs)
    decreases |xs|
  {
    if xs == [] {
      assert p + xs == p;
    } else {
      var x, p' := xs[0], p + [xs[0]];
      var seen := FirstOccurrences(p);
      assert AddAll(seen, xs) == AddAll(if x in seen then seen else seen + [x], xs[1..]);
      FirstOccurrencesSnoc(p, x);
      AddAllExtendsFirstOccurrences(p', xs[1..]);
      MoveHead(p, xs);
    }
  }

  /** `Array.from(new Set(xs))`. */
  function Dedup<T(==, !new)>(xs: seq<T>): (r: seq<T>)
    ensures r == FirstOccurrences(xs)
  {
    AddAllExtendsFirstOccurrences([], xs);
    assert [] + xs == xs;
    AddAll([], xs)
  }

  /** The reference definition lists elements in the order of their first occurrence in xs. */
  lemma {:induction false} FirstOccurrencesOrdered<T(!new)>(xs: seq<T>)
    ensures forall i, j :: 0 <= i < j < |FirstOccurrences(xs)| ==>
      IndexOf(xs, FirstOccurrences(xs)[i]) < IndexOf(xs, FirstOccurrences(xs)[j])
    decreases |xs|
  {
    if xs != [] {
      var init, last := xs[..|xs| - 1], xs[|xs| - 1];
      assert xs == init + [last];
      var r0 := FirstOccurrences(init);
      var r := FirstOccurrences(xs);
      FirstOccurrencesOrdered(init);
      forall i, j | 0 <= i < j < |r|
        ensures IndexOf(xs, r[i]) < IndexOf(xs, r[j])
      {
        assert r[i] == r0[i];
        assert r[i] in init;
        IndexOfAppend(init, [last], r[i]);
        if j < |r0| {
          assert r[j] == r0[j];
          IndexOfAppend(init, [last], r[j]);
        } else {
          assert r[j] == last && last !in init;
          assert xs[|init|] == last && last !in xs[..|init|];
          assert IndexOf(xs, r[j]) == |init|;
        }
      }
    }
  }

  /** The reference definition of a prefix is a prefix of the reference definition. */
  lemma {:induction false} FirstOccurrencesOfPrefix<T(!new)>(xs: seq<T>, ys: seq<T>)
    ensures FirstOccurrences(xs) <= FirstOccurrences(xs + ys)
    decreases |ys|
  {
    if ys == [] {
      assert xs + ys == xs;
    } else {
      var zs := xs + ys;
      assert zs[..|zs| - 1] == xs + ys[..|ys| - 1];
      FirstOccurrencesOfPrefix(xs, ys[..|ys| - 1]);
    }
  }

  /** A sequence without repeats is its own de-duplication. */
  lemma {:induction false} FirstOccurrencesOfDistinct<T(!new)>(xs: seq<T>)
    requires NoDup(xs)
    ensures FirstOccurrences(xs) == xs
    decreases |xs|
  {
    if xs != [] {
      var init := xs[..|xs| - 1];
      assert xs == init + [xs[|xs| - 1]];
      FirstOccurrencesOfDistinct(init);
    }
  }
}
