/** What a stable sort of 0..n-1 is, for a comparison that only orders the rows behind them. */
module StableOrder {
  type Less = (nat, nat) -> bool

  /** A strict weak order of the rows 0..n-1. */
  ghost predicate StrictWeakOrder(less: Less, n: nat) {
    && (forall a: nat, b: nat | a < n && b < n :: less(a, b) ==> !less(b, a))
    && (forall a: nat, b: nat, c: nat | a < n && b < n && c < n :: less(a, c) ==> less(a, b) || less(b, c))
  }

  /** Smaller, or equivalent and earlier: the order a stable sort must produce. */
  predicate Before(less: Less, a: nat, b: nat) {
    less(a, b) || (!less(b, a) && a < b)
  }

  lemma BeforeTransitive(less: Less, n: nat, a: nat, b: nat, c: nat)
    requires StrictWeakOrder(less, n) && a < n && b < n && c < n && Before(less, a, b) && Before(less, b, c)
    ensures Before(less, a, c)
  {
    assert less(a, b) ==> less(a, c) || less(c, b);
    assert less(b, c) ==> less(b, a) || less(a, c);
    assert less(c, a) ==> less(c, b) || less(b, a);
  }

  lemma BeforeTotal(less: Less, n: nat, a: nat, b: nat)
    requires StrictWeakOrder(less, n) && a < n && b < n && a != b
    ensures Before(less, a, b) != Before(less, b, a)
  {
  }

  ghost predicate Ascending(less: Less, s: seq<nat>) {
    forall i, j | 0 <= i < j < |s| :: Before(less, s[i], s[j])
  }

  predicate Within(s: seq<nat>, lo: nat, hi: nat) {
    forall i | 0 <= i < |s| :: lo <= s[i] < hi
  }

  /** The numbers 0..n-1, sorted, equivalent ones in their original order. */
  ghost predicate IsStableOrder(less: Less, s: seq<nat>, n: nat) {
    |s| == n && Within(s, 0, n) && Ascending(less, s)
  }

  /** The set {0, ..., n-1}. */
  ghost function Below(n: nat): (numbers: set<nat>)
    ensures forall k: nat :: k in numbers <==> k < n
  {
    if n == 0 then {} else Below(n - 1) + {n - 1}
  }

  lemma {:induction false} BelowSize(n: nat)
    ensures |Below(n)| == n
  {
    if n > 0 {
      BelowSize(n - 1);
    }
  }

  ghost function Elements(s: seq<nat>): (elements: set<nat>) {
    set x | x in s
  }

  lemma {:induction false} DistinctSize(s: seq<nat>)
    requires forall i, j | 0 <= i < j < |s| :: s[i] != s[j]
    ensures |Elements(s)| == |s|
  {
    if s == [] {
      assert Elements(s) == {};
    } else {
      var rest := s[..|s| - 1];
      DistinctSize(rest);
      assert s == rest + [s[|s| - 1]];
      assert Elements(s) == Elements(rest) + {s[|s| - 1]};
      assert s[|s| - 1] !in rest;
    }
  }

  lemma SubsetOfSameSize(a: set<nat>, b: set<nat>)
    requires a <= b && |a| == |b|
    ensures a == b
  {
    assert |b - a| == |b| - |a|;
  }

  /** Distinct numbers below n, n of them, are all the numbers below n. */
  lemma Pigeonhole(s: seq<nat>, n: nat)
    requires |s| == n && Within(s, 0, n)
    requires forall i, j | 0 <= i < j < |s| :: s[i] != s[j]
    ensures Elements(s) == Below(n)
  {
    DistinctSize(s);
    BelowSize(n);
    assert Elements(s) <= Below(n);
    SubsetOfSameSize(Elements(s), Below(n));
  }

  lemma AscendingDistinct(less: Less, s: seq<nat>, n: nat)
    requires StrictWeakOrder(less, n) && Ascending(less, s) && Within(s, 0, n)
    ensures forall i, j | 0 <= i < j < |s| :: s[i] != s[j]
  {
    forall i, j | 0 <= i < j < |s| ensures s[i] != s[j] {
      assert Before(less, s[i], s[j]);
    }
  }

  /** A stable order is a permutation of 0..n-1. */
  lemma StableIsPermutation(less: Less, s: seq<nat>, n: nat)
    requires StrictWeakOrder(less, n) && IsStableOrder(less, s, n)
    ensures Elements(s) == Below(n)
    ensures forall i, j | 0 <= i < j < n :: s[i] != s[j]
  {
    AscendingDistinct(less, s, n);
    Pigeonhole(s, n);
  }

  lemma {:induction false} SameElementsSameOrder(less: Less, a: seq<nat>, b: seq<nat>, n: nat)
    requires StrictWeakOrder(less, n) && Within(a, 0, n) && Within(b, 0, n) && Ascending(less, a) && Ascending(less, b)
    requires Elements(a) == Elements(b)
    ensures a == b
  {
    assert a != [] ==> a[0] in Elements(b);
    assert b != [] ==> b[0] in Elements(a);
    if a != [] {
      AscendingDistinct(less, a, n);
      AscendingDistinct(less, b, n);
      assert a[0] in b && b[0] in a;
      assert a[0] == b[0] by {
        if a[0] != b[0] {
          BeforeTotal(less, n, a[0], b[0]);
        }
      }
      assert Elements(a[1..]) == Elements(a) - {a[0]} by {
        assert a == [a[0]] + a[1..];
      }
      assert Elements(b[1..]) == Elements(b) - {b[0]} by {
        assert b == [b[0]] + b[1..];
      }
      SameElementsSameOrder(less, a[1..], b[1..], n);
      assert a == [a[0]] + a[1..] && b == [b[0]] + b[1..];
    }
  }

  /** There is only one stable order. */
  lemma StableOrderUnique(less: Less, a: seq<nat>, b: seq<nat>, n: nat)
    requires StrictWeakOrder(less, n) && IsStableOrder(less, a, n) && IsStableOrder(less, b, n)
    ensures a == b
  {
    StableIsPermutation(less, a, n);
    StableIsPermutation(less, b, n);
    SameElementsSameOrder(less, a, b, n);
  }

  // ----- Powers of two and the number of passes

  function Pow2(k: nat): (power: nat)
    ensures power >= 1
  {
    if k == 0 then 1 else 2 * Pow2(k - 1)
  }

  /** The rounded-up base-2 logarithm of n >= 1. */
  ghost predicate IsCeilLog2(k: nat, n: nat) {
    n <= Pow2(k) && (k > 0 ==> Pow2(k - 1) < n)
  }

  lemma {:induction false} Pow2Monotonic(a: nat, b: nat)
    requires a <= b
    ensures Pow2(a) <= Pow2(b)
    decreases b
  {
    if a < b {
      Pow2Monotonic(a, b - 1);
    }
  }

  lemma CeilLog2Unique(a: nat, b: nat, n: nat)
    requires IsCeilLog2(a, n) && IsCeilLog2(b, n)
    ensures a == b
  {
    if a < b {
      Pow2Monotonic(a, b - 1);
    } else if b < a {
      Pow2Monotonic(b, a - 1);
    }
  }
}
