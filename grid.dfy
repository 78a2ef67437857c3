/** Choosing the rows and columns of the sample grid: `factorize` lists the
    divisors of the sample count and `get_grid_layout` takes the median one
    as the number of columns. */
module Grid {
  import opened Outcome
  import Arith

  predicate StrictlyIncreasing(s: seq<int>) {
    forall i, j :: 0 <= i < j < |s| ==> s[i] < s[j]
  }

  /** r lists exactly the divisors of n, ascending. */
  ghost predicate IsDivisorList(n: int, r: seq<int>) {
    && StrictlyIncreasing(r)
    && (forall i :: 0 <= i < |r| ==> 1 <= r[i] <= n && n % r[i] == 0)
    && (forall d :: 1 <= d <= n && n % d == 0 ==> d in r)
  }

  /** The divisors of n among 1..k in ascending order: the list comprehension
      of `factorize` with its range cut off at k. */
  function DivisorsUpTo(n: int, k: int): (r: seq<int>)
    ensures forall d :: d in r <==> 1 <= d <= k && n % d == 0
    ensures StrictlyIncreasing(r)
    ensures forall i :: 0 <= i < |r| ==> 1 <= r[i] <= k && n % r[i] == 0
    decreases k
  {
    if k < 1 then []
    else DivisorsUpTo(n, k - 1) + (if n % k == 0 then [k] else [])
  }

  /** `factorize(num)`: every d in range(1, num + 1) with num % d == 0, in the
      order the range yields them. */
  function Factorize(n: int): (r: seq<int>)
    ensures IsDivisorList(n, r)
    ensures n <= 0 ==> r == []
    ensures n >= 1 ==> |r| >= 1 && r[0] == 1 && r[|r| - 1] == n
  {
    var r := DivisorsUpTo(n, n);
    assert n >= 1 ==> 1 in r && n in r;
    r
  }

  /** Two strictly ascending sequences with the same elements are equal. */
  lemma {:induction false} SameElementsSameSeq(a: seq<int>, b: seq<int>)
    requires StrictlyIncreasing(a) && StrictlyIncreasing(b)
    requires forall x :: x in a <==> x in b
    ensures a == b
    decreases |a|
  {
    if a != [] && b != [] {
      assert a[0] in a && a[0] in b;
      assert b[0] in b && b[0] in a;
      assert a[0] == b[0];
      forall x
        ensures x in a[1..] <==> x in b[1..]
      {
        if x in a[1..] {
          assert x in a && x != a[0];
        }
        if x in b[1..] {
          assert x in b && x != b[0];
        }
      }
      SameElementsSameSeq(a[1..], b[1..]);
      assert a == [a[0]] + a[1..] && b == [b[0]] + b[1..];
    } else {
      HasFirst(a);
      HasFirst(b);
    }
  }

  lemma HasFirst(s: seq<int>)
    ensures s != [] ==> s[0] in s
  {
  }

  /** The quotient n / d of a divisor d is again a divisor, and d is its quotient. */
  lemma QuotientIsDivisor(n: int, d: int)
    requires n >= 1 && 1 <= d && n % d == 0
    ensures 1 <= n / d <= n && n % (n / d) == 0 && n / (n / d) == d
    ensures d * (n / d) == n
  {
    var q := n / d;
    assert n == q * d;
    Arith.MulBounds(q, d);
    Arith.MulBounds(d, q);
    Arith.DivModUnique(n, q, d, 0);
  }

  /** For divisors, a larger divisor has a smaller quotient. */
  lemma QuotientsDecrease(n: int, d1: int, d2: int)
    requires n >= 1 && 1 <= d1 < d2 && n % d1 == 0 && n % d2 == 0
    ensures n / d2 < n / d1
  {
    QuotientIsDivisor(n, d1);
    QuotientIsDivisor(n, d2);
    LargerFactorSmallerCofactor(n / d1, d1, n / d2, d2);
  }

  /** q1 * d1 == q2 * d2 with d1 < d2 forces q2 < q1. */
  lemma LargerFactorSmallerCofactor(q1: int, d1: int, q2: int, d2: int)
    requires 1 <= d1 < d2 && q2 >= 1 && q1 * d1 == q2 * d2
    ensures q2 < q1
  {
    assert q2 * d2 - q2 * d1 == (d2 - d1) * q2;
    Arith.MulBounds(d2 - d1, q2);
    assert q1 * d1 - q2 * d1 == (q1 - q2) * d1;
    Arith.MulBounds(q1 - q2, d1);
  }

  /** The divisors of n listed from the largest down, each replaced by its
      quotient: again the ascending list of divisors. */
  function ReversedQuotients(n: int, r: seq<int>): (q: seq<int>)
    requires forall i :: 0 <= i < |r| ==> r[i] != 0
  {
    seq(|r|, i requires 0 <= i < |r| => n / r[|r| - 1 - i])
  }

  lemma ReversedQuotientsIncrease(n: int, r: seq<int>)
    requires n >= 1 && IsDivisorList(n, r)
    ensures StrictlyIncreasing(ReversedQuotients(n, r))
  {
    var q, m := ReversedQuotients(n, r), |r|;
    forall i, j | 0 <= i < j < m
      ensures q[i] < q[j]
    {
      assert r[m - 1 - j] in r && r[m - 1 - i] in r;
      QuotientsDecrease(n, r[m - 1 - j], r[m - 1 - i]);
    }
  }

  lemma ReversedQuotientsElements(n: int, r: seq<int>)
    requires n >= 1 && IsDivisorList(n, r)
    ensures forall x :: x in ReversedQuotients(n, r) <==> x in r
  {
    forall x
      ensures x in ReversedQuotients(n, r) <==> x in r
    {
      if x in ReversedQuotients(n, r) {
        QuotientInList(n, r, x);
      }
      if x in r {
        ListInQuotients(n, r, x);
      }
    }
  }

  lemma QuotientInList(n: int, r: seq<int>, x: int)
    requires n >= 1 && IsDivisorList(n, r) && x in ReversedQuotients(n, r)
    ensures x in r
  {
    var q, m := ReversedQuotients(n, r), |r|;
    var i :| 0 <= i < m && q[i] == x;
    assert r[m - 1 - i] in r;
    QuotientIsDivisor(n, r[m - 1 - i]);
  }

  lemma ListInQuotients(n: int, r: seq<int>, x: int)
    requires n >= 1 && IsDivisorList(n, r) && x in r
    ensures x in ReversedQuotients(n, r)
  {
    var q, m := ReversedQuotients(n, r), |r|;
    QuotientIsDivisor(n, x);
    var y := n / x;
    assert y in r;
    var k :| 0 <= k < m && r[k] == y;
    QuotientIsDivisor(n, y);
    assert q[m - 1 - k] == x;
  }

  /** Divisor pairing: the i-th smallest and the i-th largest divisor multiply to n. */
  lemma DivisorPairing(n: int, r: seq<int>)
    requires n >= 1 && IsDivisorList(n, r)
    ensures forall i :: 0 <= i < |r| ==> r[i] * r[|r| - 1 - i] == n
  {
    var q := ReversedQuotients(n, r);
    ReversedQuotientsIncrease(n, r);
    ReversedQuotientsElements(n, r);
    SameElementsSameSeq(q, r);
    forall i | 0 <= i < |r|
      ensures r[i] * r[|r| - 1 - i] == n
    {
      PairFromQuotient(n, r, i);
    }
  }

  lemma PairFromQuotient(n: int, r: seq<int>, i: int)
    requires n >= 1 && IsDivisorList(n, r) && ReversedQuotients(n, r) == r && 0 <= i < |r|
    ensures r[i] * r[|r| - 1 - i] == n
  {
    var d := r[|r| - 1 - i];
    assert r[i] == n / d by { assert r[i] == ReversedQuotients(n, r)[i]; }
    assert d in r;
    QuotientIsDivisor(n, d);
  }

  datatype Layout = Layout(rows: nat, cols: nat)

  /** The median divisor c of n (and n / c) are the shape of the most nearly
      square factorisation with c >= n / c. */
  lemma MedianDivisor(n: int, r: seq<int>)
    requires n >= 1 && IsDivisorList(n, r)
    ensures |r| >= 1
    ensures var c := r[|r| / 2];
      && 1 <= n / c <= c && (n / c) * c == n && n % c == 0
      && c * c >= n
      && forall d :: 1 <= d < c && n % d == 0 ==> d * d < n
  {
    assert 1 in r;
    var m := |r|;
    var c := r[m / 2];
    DivisorPairing(n, r);
    assert c in r;
    QuotientIsDivisor(n, c);
    var rows := r[m - 1 - m / 2];
    assert n / c == rows by {
      assert c * rows == n;
      Arith.DivModUnique(n, c, rows, 0);
    }
    assert rows <= c by {
      assert m - 1 - m / 2 <= m / 2;
    }
    assert c * c >= n by {
      assert c * c - rows * c == (c - rows) * c;
      Arith.MulBounds(c - rows, c);
    }
    forall d | 1 <= d < c && n % d == 0
      ensures d * d < n
    {
      assert d in r;
      var i :| 0 <= i < m && r[i] == d;
      BelowMedianBelowRoot(n, r, i);
    }
  }

  lemma BelowMedianBelowRoot(n: int, r: seq<int>, i: int)
    requires n >= 1 && IsDivisorList(n, r)
    requires 0 <= i < |r| && r[i] < r[|r| / 2]
    ensures r[i] * r[i] < n
  {
    var m := |r|;
    DivisorPairing(n, r);
    assert i < m / 2;
    var d, e := r[i], r[m - 1 - i];
    assert d * e == n;
    assert d < e;
    assert d in r;
    SmallerFactorBelowRoot(d, e);
  }

  lemma SmallerFactorBelowRoot(d: int, e: int)
    requires 1 <= d < e
    ensures d * d < d * e
  {
    assert d * e - d * d == d * (e - d);
    Arith.MulBounds(d, e - d);
  }

  /** `get_grid_layout(num_samples)`: the median divisor becomes the number of
      columns, the rows are what remains. A count below one has no divisors, so
      the lookup `factors[len(factors)//2]` fails (None here). The layout that
      comes out is the most nearly square one with at least as many columns as
      rows: cols is the least divisor whose square reaches n. */
  function GridLayout(n: int): (r: Option<Layout>)
    ensures r.Some? <==> n >= 1
    ensures r.Some? ==> r.value.rows * r.value.cols == n
    ensures r.Some? ==> 1 <= r.value.rows <= r.value.cols && n % r.value.cols == 0
    ensures r.Some? ==> r.value.cols * r.value.cols >= n
    ensures r.Some? ==> forall d :: 1 <= d < r.value.cols && n % d == 0 ==> d * d < n
  {
    var factors := Factorize(n);
    if |factors| == 0 then None
    else
      var cols := factors[|factors| / 2];
      MedianDivisor(n, factors);
      Some(Layout(n / cols, cols))
  }

  /** Example: six samples are laid out as two rows of three. */
  lemma SixSamplesLayout()
    ensures GridLayout(6) == Some(Layout(2, 3))
  {
    assert Factorize(6) == [1, 2, 3, 6] by {
      assert DivisorsUpTo(6, 1) == [1];
      assert DivisorsUpTo(6, 3) == [1, 2, 3];
      assert DivisorsUpTo(6, 5) == [1, 2, 3];
    }
  }
}
