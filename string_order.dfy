/**
 * JavaScript's `<` and `>` on two strings: lexicographic order on their
 * characters, a proper prefix coming first. The sort comparator of the
 * dashboard returns -1, 1 or 0 from these two tests.
 */
module StringOrder {

  /** `a < b` on strings. */
  predicate Less(a: string, b: string)
    decreases |a|
  {
    if |b| == 0 then false
    else if |a| == 0 then true
    else if a[0] != b[0] then a[0] < b[0]
    else Less(a[1..], b[1..])
  }

  /** `a <= b` on strings: less or equal. */
  predicate LessEq(a: string, b: string)
  {
    Less(a, b) || a == b
  }

  /** The comparator `(a, b) => a < b ? -1 : a > b ? 1 : 0`. */
  function Compare(a: string, b: string): int
  {
    if Less(a, b) then -1 else if Less(b, a) then 1 else 0
  }

  lemma {:induction false} LessIrreflexive(a: string)
    ensures !Less(a, a)
    decreases |a|
  {
    if |a| > 0 { LessIrreflexive(a[1..]); }
  }

  lemma {:induction false} LessAsymmetric(a: string, b: string)
    ensures !(Less(a, b) && Less(b, a))
    decreases |a|
  {
    if |a| > 0 && |b| > 0 && a[0] == b[0] { LessAsymmetric(a[1..], b[1..]); }
  }

  lemma {:induction false} LessTransitive(a: string, b: string, c: string)
    requires Less(a, b) && Less(b, c)
    ensures Less(a, c)
    decreases |a|
  {
    if |a| > 0 && a[0] == b[0] && b[0] == c[0] { LessTransitive(a[1..], b[1..], c[1..]); }
  }

  /** Any two different strings are ordered one way or the other. */
  lemma {:induction false} LessTotal(a: string, b: string)
    requires a != b
    ensures Less(a, b) || Less(b, a)
    decreases |a|
  {
    if |a| > 0 && |b| > 0 && a[0] == b[0] {
      assert a == [a[0]] + a[1..] && b == [b[0]] + b[1..];
      LessTotal(a[1..], b[1..]);
    }
  }

  lemma LessEqTransitive(a: string, b: string, c: string)
    requires LessEq(a, b) && LessEq(b, c)
    ensures LessEq(a, c)
  {
    if Less(a, b) && Less(b, c) { LessTransitive(a, b, c); }
  }

  /** When `b < a` does not hold, `a <= b`. */
  lemma NotLessThenLessEq(a: string, b: string)
    requires !Less(b, a)
    ensures LessEq(a, b)
  {
    if a != b { LessTotal(a, b); }
  }

  /** The comparator is negative, positive or zero exactly when a < b,
      a > b or a == b, and swapping its arguments negates it. */
  lemma CompareSpec(a: string, b: string)
    ensures Compare(a, b) < 0 <==> Less(a, b)
    ensures Compare(a, b) > 0 <==> Less(b, a)
    ensures Compare(a, b) == 0 <==> a == b
    ensures Compare(b, a) == -Compare(a, b)
  {
    LessAsymmetric(a, b);
    LessIrreflexive(a);
    if a != b { LessTotal(a, b); }
  }
}
