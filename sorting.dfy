/**
 * The ordering half of `sortData`: rows ordered by a string key, an in-place
 * ascending sort of a copied array, and the in-place reversal used for the
 * descending direction. The key of a row is the string found under the
 * clicked column's dotted path.
 */
module Sorting {
  import opened Wrappers
  import opened JsValues
  import opened StringOrder

  /** Each element's key is at most the next element's. */
  predicate IsAscending<T>(s: seq<T>, key: T -> string)
  {
    forall i :: 0 <= i < |s| - 1 ==> LessEq(key(s[i]), key(s[i + 1]))
  }

  /** Each element's key is at least the next element's. */
  predicate IsDescending<T>(s: seq<T>, key: T -> string)
  {
    forall i :: 0 <= i < |s| - 1 ==> LessEq(key(s[i + 1]), key(s[i]))
  }

  /** Every pair of elements, not only neighbours, is in order. */
  predicate PairwiseAscending<T>(s: seq<T>, key: T -> string)
  {
    forall p, q :: 0 <= p < q < |s| ==> LessEq(key(s[p]), key(s[q]))
  }

  /** `Array.prototype.reverse` on the sequence of elements. */
  function Reversed<T>(s: seq<T>): seq<T>
  {
    seq(|s|, i requires 0 <= i < |s| => s[|s| - 1 - i])
  }

  /** Neighbour order extends to every pair, by transitivity. */
  lemma {:induction false} AscendingPairwise<T>(s: seq<T>, key: T -> string)
    requires IsAscending(s, key)
    ensures PairwiseAscending(s, key)
    decreases |s|
  {
    if |s| > 1 {
      var tail := s[1..];
      assert IsAscending(tail, key) by {
        forall i | 0 <= i < |tail| - 1 ensures LessEq(key(tail[i]), key(tail[i + 1])) {
          assert tail[i] == s[i + 1] && tail[i + 1] == s[i + 2];
        }
      }
      AscendingPairwise(tail, key);
      forall p, q | 0 <= p < q < |s| ensures LessEq(key(s[p]), key(s[q])) {
        if p == 0 {
          if q > 1 {
            assert LessEq(key(tail[0]), key(tail[q - 1]));
            LessEqTransitive(key(s[0]), key(s[1]), key(s[q]));
          }
        } else {
          assert LessEq(key(tail[p - 1]), key(tail[q - 1]));
        }
      }
    }
  }

  /** Reversing twice gives the sequence back. */
  lemma ReversedTwice<T>(s: seq<T>)
    ensures Reversed(Reversed(s)) == s
  {
    assert forall i :: 0 <= i < |s| ==> Reversed(Reversed(s))[i] == s[i];
  }

  /** Reversing keeps the same elements, with the same multiplicities. */
  lemma {:induction false} ReversedPermutation<T>(s: seq<T>)
    ensures multiset(Reversed(s)) == multiset(s)
    decreases |s|
  {
    if |s| > 0 {
      var init := s[..|s| - 1];
      ReversedPermutation(init);
      assert Reversed(s) == [s[|s| - 1]] + Reversed(init);
      assert s == init + [s[|s| - 1]];
    }
  }

  /** The reverse of an ascending sequence is descending, and back. */
  lemma ReversedAscending<T>(s: seq<T>, key: T -> string)
    ensures IsAscending(s, key) <==> IsDescending(Reversed(s), key)
  {
    var r := Reversed(s);
    var n := |s|;
    if IsAscending(s, key) {
      forall i | 0 <= i < n - 1 ensures LessEq(key(r[i + 1]), key(r[i])) {
        assert r[i + 1] == s[n - 2 - i] && r[i] == s[n - 1 - i];
      }
    }
    if IsDescending(r, key) {
      forall i | 0 <= i < n - 1 ensures LessEq(key(s[i]), key(s[i + 1])) {
        assert r[n - 2 - i] == s[i + 1] && r[n - 1 - i] == s[i];
      }
    }
  }

  /** The elements at positions lo .. hi - 1 are in order, pair by pair. */
  ghost predicate SortedBetween<T>(a: seq<T>, lo: int, hi: int, key: T -> string)
    requires 0 <= lo <= hi <= |a|
  {
    forall p, q :: lo <= p < q < hi ==> LessEq(key(a[p]), key(a[q]))
  }

  /** Sorts `a` in place by key with the comparator
      `(x, y) => Compare(key(x), key(y))`. */
  method SortAscending<T>(a: array<T>, key: T -> string)
    modifies a
    ensures IsAscending(a[..], key)
    ensures multiset(a[..]) == multiset(old(a[..]))
  {
    var i := 0;
    while i < a.Length
      invariant 0 <= i <= a.Length
      invariant SortedBetween(a[..], 0, i, key)
      invariant multiset(a[..]) == multiset(old(a[..]))
    {
      InsertLeft(a, i, key);
      i := i + 1;
    }
    assert SortedBetween(a[..], 0, a.Length, key);
  }

  /** Moves a[i] left past every neighbour that compares greater, so that a
      sorted prefix of length i becomes one of length i + 1. */
  method InsertLeft<T>(a: array<T>, i: int, key: T -> string)
    requires 0 <= i < a.Length
    requires SortedBetween(a[..], 0, i, key)
    modifies a
    ensures SortedBetween(a[..], 0, i + 1, key)
    ensures multiset(a[..]) == multiset(old(a[..]))
    ensures a[i + 1..] == old(a[i + 1..])
  {
    var j := i;
    while 0 < j && Compare(key(a[j - 1]), key(a[j])) > 0
      invariant 0 <= j <= i
      invariant forall p, q :: 0 <= p < q <= i && p != j && q != j ==> LessEq(key(a[p]), key(a[q]))
      invariant forall q :: j < q <= i ==> LessEq(key(a[j]), key(a[q]))
      invariant multiset(a[..]) == multiset(old(a[..]))
      invariant a[i + 1..] == old(a[i + 1..])
    {
      CompareSpec(key(a[j - 1]), key(a[j]));
      a[j - 1], a[j] := a[j], a[j - 1];
      j := j - 1;
    }
    if 0 < j {
      CompareSpec(key(a[j - 1]), key(a[j]));
      NotLessThenLessEq(key(a[j - 1]), key(a[j]));
      forall p | 0 <= p < j - 1 ensures LessEq(key(a[p]), key(a[j])) {
        LessEqTransitive(key(a[p]), key(a[j - 1]), key(a[j]));
      }
    }
  }

  /** Swaps mirrored positions from both ends towards the middle. */
  method ReverseInPlace<T>(a: array<T>)
    modifies a
    ensures a[..] == Reversed(old(a[..]))
  {
    var lo, hi := 0, a.Length;
    while lo + 1 < hi
      invariant 0 <= lo <= hi <= a.Length && lo + hi == a.Length
      invariant forall k :: 0 <= k < lo || hi <= k < a.Length ==> a[k] == old(a[a.Length - 1 - k])
      invariant forall k :: lo <= k < hi ==> a[k] == old(a[k])
    {
      a[lo], a[hi - 1] := a[hi - 1], a[lo];
      lo, hi := lo + 1, hi - 1;
    }
    assert forall k :: 0 <= k < a.Length ==> a[..][k] == Reversed(old(a[..]))[k];
  }

  /** The column's path leads to a string in this row. */
  predicate Resolves(r: JsVal, column: string)
  {
    var v := GetNestedPropertyValue(r, column);
    v.Some? && v.value.Str?
  }

  /** Every row resolves the column to a string. */
  predicate AllResolve(rows: seq<JsVal>, column: string)
  {
    forall i :: 0 <= i < |rows| ==> Resolves(rows[i], column)
  }

  /** `getNestedPropertyValue(row, column)` for a row that resolves. */
  function SortKey(r: JsVal, column: string): string
  {
    match GetNestedPropertyValue(r, column)
    case Some(Str(s)) => s
    case _ => ""
  }

  /** The key function the comparator of a click on `column` uses. */
  function ColumnKey(column: string): JsVal -> string
  {
    r => SortKey(r, column)
  }

  /** Permuting rows keeps every row resolvable. */
  lemma AllResolvePermutation(r: seq<JsVal>, s: seq<JsVal>, column: string)
    requires multiset(r) == multiset(s) && AllResolve(s, column)
    ensures AllResolve(r, column)
  {
    forall i | 0 <= i < |r| ensures Resolves(r[i], column) {
      assert r[i] in multiset(r);
      assert r[i] in multiset(s);
      var j :| 0 <= j < |s| && s[j] == r[i];
    }
  }
}
