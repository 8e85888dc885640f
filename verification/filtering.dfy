/** `Array.prototype.filter` on sequences: the one primitive both derived
    views of the inbox are built from. `Where(xs, keep)` visits `xs` front to
    back and keeps, in order, the elements for which `keep` holds. */
module Filtering {

  function Where<T>(xs: seq<T>, keep: T -> bool): (r: seq<T>)
    ensures |r| <= |xs|
    decreases |xs|
  {
    if xs == [] then []
    else
      var kept := Where(xs[..|xs| - 1], keep);
      if keep(xs[|xs| - 1]) then kept + [xs[|xs| - 1]] else kept
  }

  /** The positions of `xs` that `Where` keeps, in increasing order. */
  function KeptIndices<T>(xs: seq<T>, keep: T -> bool): seq<nat>
    decreases |xs|
  {
    if xs == [] then []
    else
      var kept := KeptIndices(xs[..|xs| - 1], keep);
      if keep(xs[|xs| - 1]) then kept + [|xs| - 1] else kept
  }

  /** `r` is `xs` restricted to the positions listed in `f`, in order, and
      `f` lists exactly the positions whose element satisfies `keep`. */
  ghost predicate Selects<T>(r: seq<T>, xs: seq<T>, keep: T -> bool, f: seq<nat>) {
    && |f| == |r|
    && (forall k :: 0 <= k < |f| ==> f[k] < |xs| && r[k] == xs[f[k]])
    && (forall k, l :: 0 <= k < l < |f| ==> f[k] < f[l])
    && (forall i :: 0 <= i < |xs| ==> (keep(xs[i]) <==> i in f))
  }

  /** `r` is the order-preserving subsequence of `xs` made of exactly the
      elements that satisfy `keep`. */
  ghost predicate IsSelection<T>(r: seq<T>, xs: seq<T>, keep: T -> bool) {
    exists f :: Selects(r, xs, keep, f)
  }

  lemma {:induction false} KeptIndicesBelow<T>(xs: seq<T>, keep: T -> bool)
    ensures forall k :: 0 <= k < |KeptIndices(xs, keep)| ==> KeptIndices(xs, keep)[k] < |xs|
    decreases |xs|
  {
    if xs != [] {
      KeptIndicesBelow(xs[..|xs| - 1], keep);
    }
  }

  /** `Where` keeps exactly the satisfying elements, in their original order. */
  lemma {:induction false} WhereSelects<T>(xs: seq<T>, keep: T -> bool)
    ensures Selects(Where(xs, keep), xs, keep, KeptIndices(xs, keep))
    decreases |xs|
  {
    if xs != [] {
      var n := |xs| - 1;
      var init := xs[..n];
      WhereSelects(init, keep);
      KeptIndicesBelow(init, keep);
      var f0 := KeptIndices(init, keep);
      assert forall i :: 0 <= i < n ==> init[i] == xs[i];
      assert n !in f0;
    }
  }

  lemma WhereIsSelection<T>(xs: seq<T>, keep: T -> bool)
    ensures IsSelection(Where(xs, keep), xs, keep)
  {
    WhereSelects(xs, keep);
  }

  /** An element is in the result exactly when it is in `xs` and satisfies `keep`. */
  lemma {:induction false} WhereMembers<T>(xs: seq<T>, keep: T -> bool)
    ensures forall x :: x in Where(xs, keep) <==> x in xs && keep(x)
    decreases |xs|
  {
    if xs != [] {
      var n := |xs| - 1;
      WhereMembers(xs[..n], keep);
      assert xs == xs[..n] + [xs[n]];
    }
  }

  /** Filtering by a predicate and by its negation splits `xs` in two. */
  lemma {:induction false} WhereComplement<T>(xs: seq<T>, keep: T -> bool, drop: T -> bool)
    requires forall x :: x in xs ==> drop(x) == !keep(x)
    ensures multiset(Where(xs, keep)) + multiset(Where(xs, drop)) == multiset(xs)
    ensures |Where(xs, keep)| + |Where(xs, drop)| == |xs|
    decreases |xs|
  {
    if xs != [] {
      var n := |xs| - 1;
      WhereComplement(xs[..n], keep, drop);
      assert xs == xs[..n] + [xs[n]];
    }
    assert |multiset(xs)| == |xs|;
  }

  /** Two predicates that agree on the elements of `xs` filter it alike. */
  lemma {:induction false} WhereCongruent<T>(xs: seq<T>, p: T -> bool, q: T -> bool)
    requires forall x :: x in xs ==> p(x) == q(x)
    ensures Where(xs, p) == Where(xs, q)
    decreases |xs|
  {
    if xs != [] {
      var n := |xs| - 1;
      assert xs == xs[..n] + [xs[n]];
      WhereCongruent(xs[..n], p, q);
    }
  }

  /** A predicate every element satisfies keeps `xs` unchanged. */
  lemma {:induction false} WhereKeepsAll<T>(xs: seq<T>, keep: T -> bool)
    requires forall x :: x in xs ==> keep(x)
    ensures Where(xs, keep) == xs
    decreases |xs|
  {
    if xs != [] {
      var n := |xs| - 1;
      assert xs == xs[..n] + [xs[n]];
      WhereKeepsAll(xs[..n], keep);
    }
  }

  /** Filtering distributes over concatenation. */
  lemma {:induction false} WhereAppend<T>(a: seq<T>, b: seq<T>, keep: T -> bool)
    ensures Where(a + b, keep) == Where(a, keep) + Where(b, keep)
    decreases |b|
  {
    if b != [] {
      var n := |b| - 1;
      assert (a + b)[..|a + b| - 1] == a + b[..n];
      WhereAppend(a, b[..n], keep);
    } else {
      assert a + b == a;
    }
  }

  /** Replacing one element changes the count of kept elements by the
      difference of the old and new element's membership. */
  lemma WhereUpdateCount<T>(xs: seq<T>, i: nat, y: T, keep: T -> bool)
    requires i < |xs|
    ensures |Where(xs[i := y], keep)| + (if keep(xs[i]) then 1 else 0)
         == |Where(xs, keep)| + (if keep(y) then 1 else 0)
  {
    assert xs == xs[..i] + [xs[i]] + xs[i + 1..];
    assert xs[i := y] == xs[..i] + [y] + xs[i + 1..];
    WhereAppend(xs[..i] + [xs[i]], xs[i + 1..], keep);
    WhereAppend(xs[..i], [xs[i]], keep);
    WhereAppend(xs[..i] + [y], xs[i + 1..], keep);
    WhereAppend(xs[..i], [y], keep);
    assert Where([xs[i]], keep) == if keep(xs[i]) then [xs[i]] else [];
    assert Where([y], keep) == if keep(y) then [y] else [];
  }
}
