/** De-duplication by key, the `filter` over a `Set` of seen keys that the transcript parsers and
    the planners' transcript import all perform. */
module Collections {

  /** The keys of the elements of `xs`. */
  function KeySet<T, K>(xs: seq<T>, key: T -> K): set<K> {
    set i | 0 <= i < |xs| :: key(xs[i])
  }

  lemma KeySetCons<T, K>(x: T, xs: seq<T>, key: T -> K)
    ensures KeySet([x] + xs, key) == {key(x)} + KeySet(xs, key)
  {
    var ys := [x] + xs;
    forall k | k in KeySet(ys, key) ensures k in {key(x)} + KeySet(xs, key) {
      var i :| 0 <= i < |ys| && key(ys[i]) == k;
      if i > 0 { assert ys[i] == xs[i - 1]; }
    }
    forall k | k in KeySet(xs, key) ensures k in KeySet(ys, key) {
      var i :| 0 <= i < |xs| && key(xs[i]) == k;
      assert ys[i + 1] == xs[i];
    }
    assert ys[0] == x;
  }

  lemma KeySetSnoc<T, K>(xs: seq<T>, x: T, key: T -> K)
    ensures KeySet(xs + [x], key) == KeySet(xs, key) + {key(x)}
  {
    var ys := xs + [x];
    forall k | k in KeySet(ys, key) ensures k in KeySet(xs, key) + {key(x)} {
      var i :| 0 <= i < |ys| && key(ys[i]) == k;
      if i < |xs| { assert ys[i] == xs[i]; }
    }
    forall k | k in KeySet(xs, key) ensures k in KeySet(ys, key) {
      var i :| 0 <= i < |xs| && key(xs[i]) == k;
      assert ys[i] == xs[i];
    }
    assert ys[|xs|] == x;
  }

  /** Keeps, in order, each element whose key is neither in `seen` nor the key of an earlier
      element of `xs`. */
  function DedupBy<T(==), K(==)>(xs: seq<T>, key: T -> K, seen: set<K>): (r: seq<T>)
    ensures |r| <= |xs|
    ensures forall i :: 0 <= i < |r| ==> r[i] in xs
    ensures forall i :: 0 <= i < |r| ==> key(r[i]) !in seen
    ensures forall i, j :: 0 <= i < j < |r| ==> key(r[i]) != key(r[j])
  {
    if xs == [] then []
    else if key(xs[0]) in seen then DedupBy(xs[1..], key, seen)
    else [xs[0]] + DedupBy(xs[1..], key, seen + {key(xs[0])})
  }

  /** The keys kept are exactly the input's keys not seen before. */
  lemma {:induction false} DedupKeySet<T, K>(xs: seq<T>, key: T -> K, seen: set<K>)
    ensures KeySet(DedupBy(xs, key, seen), key) == KeySet(xs, key) - seen
    decreases |xs|
  {
    if xs != [] {
      KeySetCons(xs[0], xs[1..], key);
      assert [xs[0]] + xs[1..] == xs;
      if key(xs[0]) in seen {
        DedupKeySet(xs[1..], key, seen);
      } else {
        DedupKeySet(xs[1..], key, seen + {key(xs[0])});
        KeySetCons(xs[0], DedupBy(xs[1..], key, seen + {key(xs[0])}), key);
      }
    }
  }

  /** Extending the input by one element extends the result by that element exactly when its key
      is new: the result is the first occurrence of every key, in first-seen order. */
  lemma {:induction false} DedupSnoc<T, K>(xs: seq<T>, x: T, key: T -> K, seen: set<K>)
    ensures DedupBy(xs + [x], key, seen)
         == DedupBy(xs, key, seen) + (if key(x) in seen + KeySet(xs, key) then [] else [x])
    decreases |xs|
  {
    if xs == [] {
      assert xs + [x] == [x];
    } else {
      assert (xs + [x])[1..] == xs[1..] + [x];
      KeySetCons(xs[0], xs[1..], key);
      assert [xs[0]] + xs[1..] == xs;
      if key(xs[0]) in seen {
        DedupSnoc(xs[1..], x, key, seen);
      } else {
        DedupSnoc(xs[1..], x, key, seen + {key(xs[0])});
      }
    }
  }

  /** The result for a prefix of the input is a prefix of the result: an element, once kept,
      stays where it is whatever follows. */
  lemma {:induction false} DedupPrefix<T, K>(xs: seq<T>, i: nat, key: T -> K, seen: set<K>)
    requires i <= |xs|
    ensures DedupBy(xs[..i], key, seen) <= DedupBy(xs, key, seen)
    decreases |xs| - i
  {
    if i == |xs| {
      assert xs[..i] == xs;
    } else {
      DedupPrefix(xs, i + 1, key, seen);
      assert xs[..i + 1] == xs[..i] + [xs[i]];
      DedupSnoc(xs[..i], xs[i], key, seen);
    }
  }

  /** The de-duplicating filter as a loop that adds each kept key to a set, starting from the
      keys in `known`. */
  method Dedup<T(==), K(==)>(xs: seq<T>, key: T -> K, known: set<K>) returns (unique: seq<T>)
    ensures unique == DedupBy(xs, key, known)
  {
    var seen: set<K> := known;
    unique := [];
    var i := 0;
    while i < |xs|
      invariant 0 <= i <= |xs|
      invariant unique == DedupBy(xs[..i], key, known)
      invariant seen == known + KeySet(xs[..i], key)
    {
      var x := xs[i];
      DedupSnoc(xs[..i], x, key, known);
      assert xs[..i + 1] == xs[..i] + [x];
      KeySetSnoc(xs[..i], x, key);
      if key(x) !in seen {
        seen := seen + {key(x)};
        unique := unique + [x];
      }
      i := i + 1;
    }
    assert xs[..|xs|] == xs;
  }

  /** The elements of `xs` that satisfy `keep`, in order (`xs.filter(keep)`). */
  function Filter<T>(xs: seq<T>, keep: T -> bool): (r: seq<T>)
    ensures |r| <= |xs|
    ensures forall i :: 0 <= i < |r| ==> r[i] in xs && keep(r[i])
    ensures forall i :: 0 <= i < |xs| && keep(xs[i]) ==> xs[i] in r
  {
    if xs == [] then []
    else Filter(xs[..|xs| - 1], keep) + (if keep(xs[|xs| - 1]) then [xs[|xs| - 1]] else [])
  }

  lemma {:induction false} FilterAppend<T>(xs: seq<T>, ys: seq<T>, keep: T -> bool)
    ensures Filter(xs + ys, keep) == Filter(xs, keep) + Filter(ys, keep)
    decreases |ys|
  {
    if ys == [] {
      assert xs + ys == xs;
    } else {
      assert (xs + ys)[..|xs + ys| - 1] == xs + ys[..|ys| - 1];
      FilterAppend(xs, ys[..|ys| - 1], keep);
    }
  }

  /** Filtering keeps a sequence whose every element passes. */
  lemma {:induction false} FilterKeepsAll<T>(xs: seq<T>, keep: T -> bool)
    requires forall i :: 0 <= i < |xs| ==> keep(xs[i])
    ensures Filter(xs, keep) == xs
    decreases |xs|
  {
    if xs != [] {
      FilterKeepsAll(xs[..|xs| - 1], keep);
    }
  }

  /** Filtering drops a sequence no element of which passes. */
  lemma {:induction false} FilterDropsAll<T>(xs: seq<T>, keep: T -> bool)
    requires forall i :: 0 <= i < |xs| ==> !keep(xs[i])
    ensures Filter(xs, keep) == []
    decreases |xs|
  {
    if xs != [] {
      FilterDropsAll(xs[..|xs| - 1], keep);
    }
  }

  /** Once an element passes `later`, every element after it passes too. */
  predicate PassingAtEnd<T>(xs: seq<T>, later: T -> bool) {
    forall i, j :: 0 <= i < j < |xs| && later(xs[i]) ==> later(xs[j])
  }

  /** Elements passing only `first` followed by elements passing only `later`: filtering
      recovers each part, and the `later` ones are at the end. */
  lemma ConcatPartition<T>(xs: seq<T>, ys: seq<T>, first: T -> bool, later: T -> bool)
    requires forall i :: 0 <= i < |xs| ==> first(xs[i]) && !later(xs[i])
    requires forall i :: 0 <= i < |ys| ==> later(ys[i]) && !first(ys[i])
    ensures Filter(xs + ys, first) == xs && Filter(xs + ys, later) == ys
    ensures PassingAtEnd(xs + ys, later)
  {
    FilterAppend(xs, ys, first);
    FilterKeepsAll(xs, first);
    FilterDropsAll(ys, first);
    FilterAppend(xs, ys, later);
    FilterDropsAll(xs, later);
    FilterKeepsAll(ys, later);
    ConcatAtEnd(xs, ys, later);
  }

  /** Elements failing `later` followed by elements passing it have the passing ones at the end. */
  lemma ConcatAtEnd<T>(xs: seq<T>, ys: seq<T>, later: T -> bool)
    requires forall i :: 0 <= i < |xs| ==> !later(xs[i])
    requires forall i :: 0 <= i < |ys| ==> later(ys[i])
    ensures PassingAtEnd(xs + ys, later)
  {
    var cs := xs + ys;
    forall i, j | 0 <= i < j < |cs| && later(cs[i]) ensures later(cs[j]) {
      assert j >= |xs| && cs[j] == ys[j - |xs|];
    }
  }

  /** The positions below `k` whose element passes. */
  function Positions<T>(xs: seq<T>, keep: T -> bool, k: nat): set<nat>
    requires k <= |xs|
  {
    set i: nat | i < k && keep(xs[i])
  }

  /** The number of elements kept is the number of positions whose element passes. */
  lemma FilterCount<T>(xs: seq<T>, keep: T -> bool)
    ensures |Filter(xs, keep)| == |Positions(xs, keep, |xs|)|
  {
    FilterCountPrefix(xs, keep, |xs|);
    assert xs[..|xs|] == xs;
  }

  lemma {:induction false} FilterCountPrefix<T>(xs: seq<T>, keep: T -> bool, k: nat)
    requires k <= |xs|
    ensures |Filter(xs[..k], keep)| == |Positions(xs, keep, k)|
    decreases k
  {
    if k > 0 {
      FilterCountPrefix(xs, keep, k - 1);
      assert xs[..k][..k - 1] == xs[..k - 1];
      var last := if keep(xs[k - 1]) then {k - 1} else {};
      assert Positions(xs, keep, k) == Positions(xs, keep, k - 1) + last;
      assert k - 1 !in Positions(xs, keep, k - 1);
    }
  }

  /** Filtering by `a`, then by `b`, is filtering once by their conjunction `both`. */
  lemma {:induction false} FilterFilter<T>(xs: seq<T>, a: T -> bool, b: T -> bool, both: T -> bool)
    requires forall x :: both(x) == (a(x) && b(x))
    ensures Filter(Filter(xs, a), b) == Filter(xs, both)
    decreases |xs|
  {
    if xs != [] {
      var n := |xs| - 1;
      var x := xs[n];
      FilterFilter(xs[..n], a, b, both);
      FilterAppend(Filter(xs[..n], a), if a(x) then [x] else [], b);
      assert Filter([x], b) == if b(x) then [x] else [];
    }
  }

  /** Sums `f` over a sequence. */
  function SumOf<T>(xs: seq<T>, f: T -> real): real {
    if xs == [] then 0.0 else SumOf(xs[..|xs| - 1], f) + f(xs[|xs| - 1])
  }

  lemma {:induction false} SumOfAppend<T>(xs: seq<T>, ys: seq<T>, f: T -> real)
    ensures SumOf(xs + ys, f) == SumOf(xs, f) + SumOf(ys, f)
    decreases |ys|
  {
    if ys != [] {
      assert (xs + ys)[..|xs + ys| - 1] == xs + ys[..|ys| - 1];
      SumOfAppend(xs, ys[..|ys| - 1], f);
    } else {
      assert xs + ys == xs;
    }
  }
}
