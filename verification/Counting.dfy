/** Sizes of sets, lists without repetition, and whole-number division: what the counting arguments share. */
module Counting {

  predicate Distinct<T(==)>(s: seq<T>) {
    forall i, j | 0 <= i < j < |s| :: s[i] != s[j]
  }

  lemma {:induction false} SubsetSize<T>(a: set<T>, b: set<T>)
    requires a <= b
    ensures |a| <= |b| && |b - a| == |b| - |a| && (|a| == |b| ==> a == b)
  {
    assert b == a + (b - a);
    if |b - a| == 0 {
      assert b - a == {};
    }
  }

  lemma {:induction false} MultiplesApart(a: nat, b: nat, size: nat)
    requires a < b
    ensures a * size + size <= b * size
  {
    assert b * size == a * size + size + (b - a - 1) * size;
    assert (b - a - 1) * size >= 0;
  }

  /** Division by its defining bounds. */
  lemma {:induction false} Quotient(x: nat, size: nat, q: nat)
    requires q * size <= x < q * size + size
    ensures x / size == q
  {
    var d := x / size;
    assert d * size <= x < d * size + size;
    if d < q {
      MultiplesApart(d, q, size);
    } else if q < d {
      MultiplesApart(q, d, size);
    }
  }

  /** How many groups of at most `size` it takes to hold `n`. */
  function Ceiling(n: nat, size: nat): nat
    requires size > 0
  {
    (n + size - 1) / size
  }

  /** Some full groups and a last one, full or not. */
  lemma {:induction false} CeilingOf(full: nat, last: nat, size: nat)
    requires 0 < last <= size
    ensures Ceiling(full * size + last, size) == full + 1
  {
    assert (full + 1) * size == full * size + size;
    Quotient(full * size + last + size - 1, size, full + 1);
  }

  lemma {:induction false} CeilingOfNone(size: nat)
    requires size > 0
    ensures Ceiling(0, size) == 0
  {
    assert 0 * size == 0;
    Quotient(size - 1, size, 0);
  }
}
