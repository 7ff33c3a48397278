/**
 * The list comprehension `[g(x) for x in xs if p(x)]`, written once as a filter-map
 * with an `Option`-valued function, and the facts the extractors need about it; and
 * `list(set(xs))`, the duplicate removal of a list.
 */
module Seqs {
  import opened Wrappers

  /** The zero or one elements an optional value contributes. */
  function Elements<U>(o: Option<U>): (r: seq<U>)
    ensures |r| <= 1 && (r == [] <==> o.None?) && (o.Some? ==> r == [o.value])
  {
    match o case None => [] case Some(y) => [y]
  }

  /** `f` says for each element whether it is kept, and as what. */
  function FilterMap<T, U>(f: T -> Option<U>, xs: seq<T>): (r: seq<U>)
    ensures |r| <= |xs|
    decreases |xs|
  {
    if xs == [] then []
    else
      FilterMap(f, xs[..|xs| - 1]) + Elements(f(xs[|xs| - 1]))
  }

  lemma FilterMapSnoc<T, U>(f: T -> Option<U>, xs: seq<T>, i: nat)
    requires i < |xs|
    ensures FilterMap(f, xs[..i + 1]) == FilterMap(f, xs[..i]) + Elements(f(xs[i]))
  {
    assert xs[..i + 1][..i] == xs[..i];
  }

  /** One more iteration of a loop that builds `FilterMap(f, xs)` from left to right. */
  lemma FilterMapStep<T, U>(f: T -> Option<U>, xs: seq<T>, i: nat, acc: seq<U>, o: Option<U>)
    requires i < |xs| && acc == FilterMap(f, xs[..i]) && o == f(xs[i])
    ensures FilterMap(f, xs[..i + 1]) == acc + Elements(o)
  {
    FilterMapSnoc(f, xs, i);
  }

  /** Taking all of a sequence gives the sequence: the last step of every loop over one. */
  lemma TakeAll<T>(xs: seq<T>)
    ensures xs[..|xs|] == xs
  {
  }

  /** An element of the result is the image of some element, and every image is kept. */
  lemma {:induction false} FilterMapMembers<T, U>(f: T -> Option<U>, xs: seq<T>)
    ensures forall y :: y in FilterMap(f, xs) ==> exists k :: 0 <= k < |xs| && f(xs[k]) == Some(y)
    ensures forall k :: 0 <= k < |xs| && f(xs[k]).Some? ==> f(xs[k]).value in FilterMap(f, xs)
    decreases |xs|
  {
    if xs != [] {
      var init := xs[..|xs| - 1];
      FilterMapMembers(f, init);
      assert forall k :: 0 <= k < |init| ==> init[k] == xs[k];
    }
  }

  /** The result is empty exactly when no element is kept. */
  lemma {:induction false} FilterMapEmpty<T, U>(f: T -> Option<U>, xs: seq<T>)
    ensures FilterMap(f, xs) == [] <==> forall k :: 0 <= k < |xs| ==> f(xs[k]).None?
  {
    FilterMapMembers(f, xs);
    if FilterMap(f, xs) != [] {
      var y := FilterMap(f, xs)[0];
      assert y in FilterMap(f, xs);
      var k :| 0 <= k < |xs| && f(xs[k]) == Some(y);
      assert f(xs[k]).Some?;
    }
  }

  /** No element occurs twice. */
  predicate Distinct<T(==)>(s: seq<T>) {
    forall i, j :: 0 <= i < j < |s| ==> s[i] != s[j]
  }

  /** `list(set(xs))`, each element kept where it first occurs. */
  function Dedup<T(==)>(xs: seq<T>): (r: seq<T>)
    ensures Distinct(r) && |r| <= |xs|
    decreases |xs|, 0
  {
    if xs == [] then []
    else
      var d := Dedup(xs[..|xs| - 1]);
      DedupMembers(xs[..|xs| - 1]);
      if xs[|xs| - 1] in d then d else d + [xs[|xs| - 1]]
  }

  /** Removing duplicates loses no element and adds none. */
  lemma {:induction false} DedupMembers<T>(xs: seq<T>)
    ensures forall x :: x in Dedup(xs) <==> x in xs
    decreases |xs|, 1
  {
    if xs != [] {
      var init := xs[..|xs| - 1];
      DedupMembers(init);
      assert xs == init + [xs[|xs| - 1]];
    }
  }
}
