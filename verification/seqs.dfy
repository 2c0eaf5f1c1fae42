/** Generic sequence combinators: the iterator adaptors (`map`, `filter`, `filter_map`,
    `enumerate`, `take`) the crawlers chain together. */
module Seqs {
  import opened Wrappers

  function Map<A, B>(f: A -> B, xs: seq<A>): (r: seq<B>)
    ensures |r| == |xs|
    ensures forall i :: 0 <= i < |xs| ==> r[i] == f(xs[i])
  {
    seq(|xs|, i requires 0 <= i < |xs| => f(xs[i]))
  }

  lemma MapAppend<A, B>(f: A -> B, xs: seq<A>, ys: seq<A>)
    ensures Map(f, xs + ys) == Map(f, xs) + Map(f, ys)
  {
  }

  /** `filter`: keeps the elements satisfying `p`, in order. */
  function Filter<T>(p: T -> bool, xs: seq<T>): (r: seq<T>)
    ensures |r| <= |xs|
    ensures forall i :: 0 <= i < |r| ==> p(r[i]) && r[i] in xs
    ensures forall x :: x in xs && p(x) ==> x in r
    decreases |xs|
  {
    if |xs| == 0 then []
    else (if p(xs[0]) then [xs[0]] else []) + Filter(p, xs[1..])
  }

  lemma {:induction false} FilterAppend<T>(p: T -> bool, xs: seq<T>, ys: seq<T>)
    ensures Filter(p, xs + ys) == Filter(p, xs) + Filter(p, ys)
    decreases |xs|
  {
    if |xs| == 0 {
      assert xs + ys == ys;
    } else {
      assert (xs + ys)[1..] == xs[1..] + ys;
      FilterAppend(p, xs[1..], ys);
    }
  }

  lemma {:induction false} FilterAll<T>(p: T -> bool, xs: seq<T>)
    requires forall i :: 0 <= i < |xs| ==> p(xs[i])
    ensures Filter(p, xs) == xs
    decreases |xs|
  {
    if |xs| > 0 {
      FilterAll(p, xs[1..]);
      assert xs == [xs[0]] + xs[1..];
    }
  }

  lemma {:induction false} FilterIdempotent<T>(p: T -> bool, xs: seq<T>)
    ensures Filter(p, Filter(p, xs)) == Filter(p, xs)
  {
    var r := Filter(p, xs);
    FilterAll(p, r);
  }

  lemma {:induction false} FilterNone<T>(p: T -> bool, xs: seq<T>)
    requires forall i :: 0 <= i < |xs| ==> !p(xs[i])
    ensures Filter(p, xs) == []
    decreases |xs|
  {
    if |xs| > 0 {
      FilterNone(p, xs[1..]);
    }
  }

  /** `filter_map`: applies `f` and keeps the `Some` results, in order. */
  function FilterMap<A, B>(f: A -> Option<B>, xs: seq<A>): (r: seq<B>)
    ensures |r| <= |xs|
    decreases |xs|
  {
    if |xs| == 0 then []
    else (if f(xs[0]).Some? then [f(xs[0]).value] else []) + FilterMap(f, xs[1..])
  }

  lemma {:induction false} FilterMapAppend<A, B>(f: A -> Option<B>, xs: seq<A>, ys: seq<A>)
    ensures FilterMap(f, xs + ys) == FilterMap(f, xs) + FilterMap(f, ys)
    decreases |xs|
  {
    if |xs| == 0 {
      assert xs + ys == ys;
    } else {
      var h := if f(xs[0]).Some? then [f(xs[0]).value] else [];
      assert (xs + ys)[0] == xs[0];
      assert (xs + ys)[1..] == xs[1..] + ys;
      calc {
        FilterMap(f, xs + ys);
        h + FilterMap(f, xs[1..] + ys);
        { FilterMapAppend(f, xs[1..], ys); }
        h + (FilterMap(f, xs[1..]) + FilterMap(f, ys));
        (h + FilterMap(f, xs[1..])) + FilterMap(f, ys);
      }
    }
  }

  predicate StrictlyIncreasing(ks: seq<nat>) {
    forall i, j :: 0 <= i < j < |ks| ==> ks[i] < ks[j]
  }

  /** The positions `lo ..` of `xs` that `f` keeps, ascending. */
  function Kept<A, B>(f: A -> Option<B>, xs: seq<A>, lo: nat): (ks: seq<nat>)
    requires lo <= |xs|
    ensures forall j :: 0 <= j < |ks| ==> lo <= ks[j] < |xs| && f(xs[ks[j]]).Some?
    ensures StrictlyIncreasing(ks)
    ensures forall i :: lo <= i < |xs| && f(xs[i]).Some? ==> i in ks
    decreases |xs| - lo
  {
    if lo == |xs| then []
    else (if f(xs[lo]).Some? then [lo] else []) + Kept(f, xs, lo + 1)
  }

  /** `FilterMap` over the suffix from `lo` picks exactly the kept positions, in ascending
      order: its j-th output is the image of the j-th kept input. */
  lemma {:induction false} FilterMapSelects<A, B>(f: A -> Option<B>, xs: seq<A>, lo: nat)
    requires lo <= |xs|
    ensures var r, ks := FilterMap(f, xs[lo..]), Kept(f, xs, lo);
      && |r| == |ks|
      && (forall j :: 0 <= j < |ks| ==> r[j] == f(xs[ks[j]]).value)
    decreases |xs| - lo
  {
    if lo < |xs| {
      assert xs[lo..][0] == xs[lo];
      assert xs[lo..][1..] == xs[lo + 1..];
      FilterMapSelects(f, xs, lo + 1);
    }
  }

  /** The first position at or after `from` whose element satisfies `p` (`position`). */
  function FirstIndex<T>(p: T -> bool, xs: seq<T>, from: nat): (r: Option<nat>)
    requires from <= |xs|
    ensures r.Some? ==>
      && from <= r.value < |xs|
      && p(xs[r.value])
      && forall j :: from <= j < r.value ==> !p(xs[j])
    ensures r.None? ==> forall j :: from <= j < |xs| ==> !p(xs[j])
    decreases |xs| - from
  {
    if from == |xs| then None
    else if p(xs[from]) then Some(from)
    else FirstIndex(p, xs, from + 1)
  }

  /** `enumerate`: each element paired with its position. */
  function Enumerate<T>(xs: seq<T>): (r: seq<(nat, T)>)
    ensures |r| == |xs|
    ensures forall i :: 0 <= i < |xs| ==> r[i] == (i, xs[i])
  {
    seq(|xs|, i requires 0 <= i < |xs| => (i, xs[i]))
  }

  /** `take(n)`: the first `min(n, |xs|)` elements. */
  function Take<T>(xs: seq<T>, n: nat): (r: seq<T>)
    ensures |r| == if n < |xs| then n else |xs|
    ensures r <= xs
  {
    if n < |xs| then xs[..n] else xs
  }

  /** Concatenation of a sequence of sequences (`flatten`, `extend` in a loop). */
  function Flatten<T>(xss: seq<seq<T>>): (r: seq<T>)
    decreases |xss|
  {
    if |xss| == 0 then [] else xss[0] + Flatten(xss[1..])
  }

  lemma {:induction false} FlattenAppend<T>(xss: seq<seq<T>>, yss: seq<seq<T>>)
    ensures Flatten(xss + yss) == Flatten(xss) + Flatten(yss)
    decreases |xss|
  {
    if |xss| == 0 {
      assert xss + yss == yss;
    } else {
      assert (xss + yss)[1..] == xss[1..] + yss;
      FlattenAppend(xss[1..], yss);
    }
  }

  /** The values of the `Some` entries, in order (`filter_map(|t| t)`). */
  function Present<T>(xs: seq<Option<T>>): (r: seq<T>)
    ensures |r| <= |xs|
    decreases |xs|
  {
    if |xs| == 0 then [] else (if xs[0].Some? then [xs[0].value] else []) + Present(xs[1..])
  }

  lemma {:induction false} PresentAppend<T>(xs: seq<Option<T>>, ys: seq<Option<T>>)
    ensures Present(xs + ys) == Present(xs) + Present(ys)
    decreases |xs|
  {
    if |xs| == 0 {
      assert xs + ys == ys;
    } else {
      assert (xs + ys)[0] == xs[0];
      assert (xs + ys)[1..] == xs[1..] + ys;
      PresentAppend(xs[1..], ys);
    }
  }

  /** Nothing is present exactly when every entry is `None`. */
  lemma {:induction false} PresentEmptyIff<T>(xs: seq<Option<T>>)
    ensures Present(xs) == [] <==> forall i :: 0 <= i < |xs| ==> xs[i].None?
    decreases |xs|
  {
    if |xs| > 0 {
      PresentEmptyIff(xs[1..]);
      assert forall i :: 1 <= i < |xs| ==> xs[i] == xs[1..][i - 1];
    }
  }

  /** Each value is present as often as it occurs wrapped in `Some` among the entries. */
  lemma {:induction false} PresentMultiset<T>(xs: seq<Option<T>>)
    ensures forall v :: multiset(Present(xs))[v] == multiset(xs)[Some(v)]
    decreases |xs|
  {
    if |xs| > 0 {
      PresentMultiset(xs[1..]);
      assert xs == [xs[0]] + xs[1..];
      assert multiset(xs) == multiset{xs[0]} + multiset(xs[1..]);
    }
  }

  /** The number of present values is the number of entries that are not `None`. */
  lemma {:induction false} PresentCount<T>(xs: seq<Option<T>>)
    ensures |Present(xs)| == |xs| - multiset(xs)[None]
    decreases |xs|
  {
    if |xs| > 0 {
      PresentCount(xs[1..]);
      assert xs == [xs[0]] + xs[1..];
      assert multiset(xs) == multiset{xs[0]} + multiset(xs[1..]);
    }
  }

  /** Rearranging the entries rearranges the present values and keeps their number. */
  lemma PresentPermutes<T>(xs: seq<Option<T>>, ys: seq<Option<T>>)
    requires multiset(xs) == multiset(ys)
    ensures forall v :: multiset(Present(xs))[v] == multiset(Present(ys))[v]
    ensures |Present(xs)| == |Present(ys)|
  {
    PresentMultiset(xs);
    PresentMultiset(ys);
    PresentCount(xs);
    PresentCount(ys);
    assert |xs| == |multiset(xs)| == |multiset(ys)| == |ys|;
  }

  /** A permutation of the positions `0 .. n-1`. */
  predicate IsPermutation(order: seq<nat>, n: nat) {
    && |order| == n
    && (forall i :: 0 <= i < n ==> order[i] < n)
    && (forall i, j :: 0 <= i < j < n ==> order[i] != order[j])
  }
}
