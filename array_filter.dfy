/**
 * JavaScript's `Array.prototype.filter` with a callback that receives the
 * element and its index, `a.filter((x, i) => keep(x, i))`, on finite sequences.
 *
 * The result is defined by recursion on the last element so that every element
 * is passed its index in the original sequence.
 */
module ArrayFilter {

  /** The elements `s[i]` with `keep(s[i], i)`, in their original order. */
  function Filter<T>(s: seq<T>, keep: (T, nat) -> bool): (r: seq<T>)
    ensures |r| <= |s|
    decreases |s|
  {
    if s == [] then []
    else
      var n := |s| - 1;
      Filter(s[..n], keep) + (if keep(s[n], n) then [s[n]] else [])
  }

  /** The number of kept elements before index `k`: the position that a kept
      `s[k]` takes in the result. */
  function Rank<T>(s: seq<T>, keep: (T, nat) -> bool, k: nat): nat
    requires k <= |s|
  {
    |Filter(s[..k], keep)|
  }

  /** Filtering a prefix gives a prefix of the filtered sequence. */
  lemma {:induction false} FilterPrefix<T>(s: seq<T>, keep: (T, nat) -> bool, k: nat)
    requires k <= |s|
    ensures Filter(s[..k], keep) <= Filter(s, keep)
    decreases |s| - k
  {
    if k < |s| {
      var n := |s| - 1;
      FilterPrefix(s[..n], keep, k);
      assert s[..n][..k] == s[..k];
    } else {
      assert s[..k] == s;
    }
  }

  /** Every kept element appears in the result, at its rank. */
  lemma {:induction false} FilterAt<T>(s: seq<T>, keep: (T, nat) -> bool, k: nat)
    requires k < |s| && keep(s[k], k)
    ensures Rank(s, keep, k) < |Filter(s, keep)|
    ensures Filter(s, keep)[Rank(s, keep, k)] == s[k]
  {
    assert s[..k + 1][..k] == s[..k];
    assert Filter(s[..k + 1], keep) == Filter(s[..k], keep) + [s[k]];
    FilterPrefix(s, keep, k + 1);
  }

  /** Every element of the result is a kept element, taken from the position
      whose rank is its own index. */
  lemma {:induction false} FilterFrom<T>(s: seq<T>, keep: (T, nat) -> bool, j: nat)
    requires j < |Filter(s, keep)|
    ensures exists k :: 0 <= k < |s| && keep(s[k], k) && Rank(s, keep, k) == j && Filter(s, keep)[j] == s[k]
    decreases |s|
  {
    var n := |s| - 1;
    var prefix := Filter(s[..n], keep);
    if j < |prefix| {
      FilterFrom(s[..n], keep, j);
      var k :| 0 <= k < n && keep(s[..n][k], k) && Rank(s[..n], keep, k) == j && prefix[j] == s[..n][k];
      assert s[..n][..k] == s[..k];
      assert keep(s[k], k) && Rank(s, keep, k) == j && Filter(s, keep)[j] == s[k];
    } else {
      assert keep(s[n], n) && Rank(s, keep, n) == j && Filter(s, keep)[j] == s[n];
    }
  }

  /** Kept elements keep their relative order: ranks strictly increase. */
  lemma FilterOrder<T>(s: seq<T>, keep: (T, nat) -> bool, i: nat, j: nat)
    requires i < j <= |s| && keep(s[i], i)
    ensures Rank(s, keep, i) < Rank(s, keep, j)
  {
    assert s[..j][..i + 1] == s[..i + 1];
    assert s[..i + 1][..i] == s[..i];
    assert Filter(s[..i + 1], keep) == Filter(s[..i], keep) + [s[i]];
    FilterPrefix(s[..j], keep, i + 1);
  }

  /** When two callbacks agree on every element, they filter alike. */
  lemma {:induction false} FilterSameKeep<T>(s: seq<T>, p: (T, nat) -> bool, q: (T, nat) -> bool)
    requires forall i :: 0 <= i < |s| ==> p(s[i], i) == q(s[i], i)
    ensures Filter(s, p) == Filter(s, q)
    decreases |s|
  {
    if s != [] {
      var n := |s| - 1;
      FilterSameKeep(s[..n], p, q);
    }
  }

  /** Two sequences of one length whose callbacks agree position by position
      keep the same number of elements. */
  lemma {:induction false} FilterSameCount<T, U>(a: seq<T>, p: (T, nat) -> bool, b: seq<U>, q: (U, nat) -> bool)
    requires |a| == |b|
    requires forall i :: 0 <= i < |a| ==> p(a[i], i) == q(b[i], i)
    ensures |Filter(a, p)| == |Filter(b, q)|
    decreases |a|
  {
    if a != [] {
      var n := |a| - 1;
      FilterSameCount(a[..n], p, b[..n], q);
    }
  }

  /** The elements kept by a callback and by its negation together number
      the length of the sequence. */
  lemma {:induction false} FilterComplement<T>(s: seq<T>, p: (T, nat) -> bool, q: (T, nat) -> bool)
    requires forall i :: 0 <= i < |s| ==> q(s[i], i) == !p(s[i], i)
    ensures |Filter(s, p)| + |Filter(s, q)| == |s|
    decreases |s|
  {
    if s != [] {
      var n := |s| - 1;
      FilterComplement(s[..n], p, q);
    }
  }

  /** A callback that accepts every element returns a copy. */
  lemma {:induction false} FilterKeepsAll<T>(s: seq<T>, keep: (T, nat) -> bool)
    requires forall i :: 0 <= i < |s| ==> keep(s[i], i)
    ensures Filter(s, keep) == s
    decreases |s|
  {
    if s != [] {
      var n := |s| - 1;
      FilterKeepsAll(s[..n], keep);
    }
  }

  /** A callback that rejects exactly one index removes that one element. */
  lemma {:induction false} FilterDropsOne<T>(s: seq<T>, keep: (T, nat) -> bool, index: nat)
    requires index < |s|
    requires forall i :: 0 <= i < |s| ==> keep(s[i], i) == (i != index)
    ensures Filter(s, keep) == s[..index] + s[index + 1..]
    decreases |s|
  {
    var n := |s| - 1;
    if index == n {
      FilterKeepsAll(s[..n], keep);
    } else {
      FilterDropsOne(s[..n], keep, index);
      assert s[..n][..index] == s[..index];
      assert s[..n][index + 1..] + [s[n]] == s[index + 1..];
    }
  }
}
