/**
  Binomial coefficients, defined by Pascal's rule, and the two identities the
  coefficient table of the Bernstein evaluator relies on: the symmetry
  C(n, k) = C(n, n - k) and the ratio C(n, k) = C(n, k - 1) * (n - k + 1) / k.
  Also the binomial theorem over the reals, from which the Bernstein basis
  polynomials sum to one.
*/
module Binomial {

  /** C(n, k), the number of k-element subsets of an n-element set. */
  function Choose(n: nat, k: nat): nat
  {
    if k == 0 then 1
    else if n == 0 then 0
    else Choose(n - 1, k - 1) + Choose(n - 1, k)
  }

  lemma {:induction false} ChooseAbove(n: nat, k: nat)
    requires n < k
    ensures Choose(n, k) == 0
  {
    if n > 0 {
      ChooseAbove(n - 1, k - 1);
      ChooseAbove(n - 1, k);
    }
  }

  lemma {:induction false} ChooseAll(n: nat)
    ensures Choose(n, n) == 1
  {
    if n > 0 {
      ChooseAll(n - 1);
      ChooseAbove(n - 1, n);
    }
  }

  lemma {:induction false} ChooseSymmetric(n: nat, k: nat)
    requires k <= n
    ensures Choose(n, k) == Choose(n, n - k)
  {
    if k == 0 || k == n {
      ChooseAll(n);
    } else {
      ChooseSymmetric(n - 1, k - 1);
      ChooseSymmetric(n - 1, k);
    }
  }

  /** The absorption identity k * C(n, k) = n * C(n - 1, k - 1). */
  lemma {:induction false} ChooseAbsorb(n: nat, k: nat)
    requires 1 <= k && 1 <= n
    ensures k * Choose(n, k) == n * Choose(n - 1, k - 1)
  {
    if n == 1 {
      if k > 1 {
        ChooseAbove(0, k - 1);
      }
    } else {
      var a, b := Choose(n - 1, k - 1), Choose(n - 1, k);
      assert Choose(n, k) == a + b;
      ChooseAbsorb(n - 1, k);
      var c1 := Choose(n - 2, k - 1);
      assert k * b == (n - 1) * c1;
      if k == 1 {
        assert a == 1 && c1 == 1;
        assert k * Choose(n, k) == 1 + (n - 1);
      } else {
        ChooseAbsorb(n - 1, k - 1);
        var c0 := Choose(n - 2, k - 2);
        assert (k - 1) * a == (n - 1) * c0;
        assert a == c0 + c1;
        Distribute(k, a, b);
        Distribute(n - 1, c0, c1);
        assert k * a == (k - 1) * a + a;
        assert n * a == (n - 1) * a + a;
      }
    }
  }

  lemma Distribute(x: int, y: int, z: int)
    ensures x * (y + z) == x * y + x * z
  {
  }

  /** The step of the table recurrence, over the integers. */
  lemma ChooseRatio(n: nat, k: nat)
    requires 1 <= k <= n
    ensures k * Choose(n, k) == (n - k + 1) * Choose(n, k - 1)
  {
    ChooseAbsorb(n, k);
    ChooseSymmetric(n, k - 1);
    ChooseAbsorb(n, n - k + 1);
    ChooseSymmetric(n - 1, k - 1);
  }

  /** The step of the table recurrence, over the reals, as the evaluator divides. */
  lemma ChooseRatioReal(n: nat, k: nat)
    requires 1 <= k <= n
    ensures Choose(n, k) as real == Choose(n, k - 1) as real * (n - k + 1) as real / k as real
  {
    ChooseRatio(n, k);
    var c, d := Choose(n, k), Choose(n, k - 1);
    CancelFactor(c as real, d as real, (n - k + 1) as real, k as real);
  }

  lemma CancelFactor(c: real, d: real, a: real, b: real)
    requires b != 0.0 && b * c == a * d
    ensures c == d * a / b
  {
  }

  // ---------------------------------------------------------------------------
  // Powers and the binomial theorem
  // ---------------------------------------------------------------------------

  /** x^k by repeated multiplication; x^0 is 1 for every x, 0 included. */
  function Pow(x: real, k: nat): real
  {
    if k == 0 then 1.0 else x * Pow(x, k - 1)
  }

  lemma {:induction false} PowOne(k: nat)
    ensures Pow(1.0, k) == 1.0
  {
    if k > 0 {
      PowOne(k - 1);
    }
  }

  lemma {:induction false} PowNonNegative(x: real, k: nat)
    requires x >= 0.0
    ensures Pow(x, k) >= 0.0
  {
    if k > 0 {
      PowNonNegative(x, k - 1);
      NonNegativeProduct(x, Pow(x, k - 1));
    }
  }

  lemma NonNegativeProduct(x: real, y: real)
    requires x >= 0.0 && y >= 0.0
    ensures x * y >= 0.0
  {
  }

  /** Term j of the expansion of (a + b)^n. */
  function BinomialTerm(n: nat, j: nat, a: real, b: real): real
    requires j <= n
  {
    Choose(n, j) as real * Pow(a, j) * Pow(b, n - j)
  }

  /** The n + 1 terms of the expansion of (a + b)^n, in order of the power of a. */
  function Terms(n: nat, a: real, b: real): (r: seq<real>)
    ensures |r| == n + 1
  {
    seq(n + 1, j requires 0 <= j <= n => BinomialTerm(n, j, a, b))
  }

  /** The sum of the first m entries of s. */
  function Prefix(s: seq<real>, m: nat): real
    requires m <= |s|
  {
    if m == 0 then 0.0 else Prefix(s, m - 1) + s[m - 1]
  }

  /** Pascal's rule on one term: term j of degree n from terms j - 1 and j of degree n - 1. */
  lemma TermSplit(n: nat, j: nat, a: real, b: real)
    requires 1 <= j < n
    ensures BinomialTerm(n, j, a, b) == a * BinomialTerm(n - 1, j - 1, a, b) + b * BinomialTerm(n - 1, j, a, b)
  {
    var c0, c1 := Choose(n - 1, j - 1) as real, Choose(n - 1, j) as real;
    var p, q := Pow(a, j - 1), Pow(b, n - 1 - j);
    assert Choose(n, j) as real == c0 + c1;
    assert Pow(a, j) == a * p;
    assert Pow(b, n - j) == b * q;
    assert (c0 + c1) * (a * p) * (b * q) == a * (c0 * p * (b * q)) + b * (c1 * (a * p) * q);
  }

  /**
    Pascal's rule on prefix sums: when u and v are related as consecutive rows
    of the expansion, a prefix of u splits into b times a prefix of v plus a
    times the prefix one shorter.
  */
  lemma {:induction false} PrefixSplit(u: seq<real>, v: seq<real>, a: real, b: real, m: nat)
    requires |u| == |v| + 1 && 1 <= m <= |v|
    requires u[0] == b * v[0]
    requires forall j :: 1 <= j < |v| ==> PascalAt(u, v, a, b, j)
    ensures Prefix(u, m) == b * Prefix(v, m) + a * Prefix(v, m - 1)
  {
    if m > 1 {
      PrefixSplit(u, v, a, b, m - 1);
      assert PascalAt(u, v, a, b, m - 1);
      Regroup(a, b, Prefix(u, m), Prefix(u, m - 1), u[m - 1], Prefix(v, m), Prefix(v, m - 1),
              Prefix(v, m - 1), Prefix(v, m - 2), v[m - 1], v[m - 2]);
    }
  }

  /** Entry j of u is a times entry j - 1 of v plus b times entry j of v. */
  predicate PascalAt(u: seq<real>, v: seq<real>, a: real, b: real, j: nat)
    requires |u| == |v| + 1 && 1 <= j < |v|
  {
    u[j] == a * v[j - 1] + b * v[j]
  }

  /** The algebra of one step of Pascal's rule on a prefix. */
  lemma Regroup(a: real, b: real, s: real, s0: real, t: real, sx: real, sy: real,
                x: real, y: real, tx: real, ty: real)
    requires s == s0 + t && s0 == b * x + a * y && t == a * ty + b * tx
    requires sx == x + tx && sy == y + ty
    ensures s == b * sx + a * sy
  {
  }

  /** u and v are consecutive rows of the expansion: Pascal's rule holds at every entry of u. */
  predicate Consecutive(u: seq<real>, v: seq<real>, a: real, b: real)
  {
    && |u| == |v| + 1 && |v| >= 1
    && u[0] == b * v[0]
    && (forall j :: 1 <= j < |v| ==> PascalAt(u, v, a, b, j))
    && u[|v|] == a * v[|v| - 1]
  }

  /** The sum of a row is (a + b) times the sum of the row before it. */
  lemma FullSplit(u: seq<real>, v: seq<real>, a: real, b: real)
    requires Consecutive(u, v, a, b)
    ensures Prefix(u, |u|) == (a + b) * Prefix(v, |v|)
  {
    var n := |v|;
    PrefixSplit(u, v, a, b, n);
    var s, s0, x, y := Prefix(u, n + 1), Prefix(u, n), Prefix(v, n), Prefix(v, n - 1);
    assert s == s0 + u[n];
    assert x == y + v[n - 1];
    Factor(a, b, s, s0, u[n], x, y, v[n - 1]);
  }

  lemma Factor(a: real, b: real, s: real, s0: real, t: real, x: real, y: real, w: real)
    requires s == s0 + t && s0 == b * x + a * y && t == a * w && x == y + w
    ensures s == (a + b) * x
  {
  }

  /** The binomial theorem: the terms of the expansion of (a + b)^n sum to (a + b)^n. */
  lemma BinomialTheorem(n: nat, a: real, b: real)
    ensures Prefix(Terms(n, a, b), n + 1) == Pow(a + b, n)
  {
    BinomialExpansion(n, a, b, a + b);
  }

  /**
    The induction behind the binomial theorem, with the sum a + b passed as c so
    that the arithmetic of each step stays small.
  */
  lemma {:induction false} BinomialExpansion(n: nat, a: real, b: real, c: real)
    requires c == a + b
    ensures Prefix(Terms(n, a, b), n + 1) == Pow(c, n)
  {
    if n == 0 {
      TermsZero(a, b);
    } else {
      BinomialExpansion(n - 1, a, b, c);
      ExpansionStep(n, a, b, c);
    }
  }

  /** One step of the induction: from the row of degree n - 1 to the row of degree n. */
  lemma ExpansionStep(n: nat, a: real, b: real, c: real)
    requires n >= 1 && c == a + b
    requires Prefix(Terms(n - 1, a, b), n) == Pow(c, n - 1)
    ensures Prefix(Terms(n, a, b), n + 1) == Pow(c, n)
  {
    TermsStep(n, a, b);
    PowStep(c, n);
  }

  /** The sum of the row of degree n is (a + b) times the sum of the row of degree n - 1. */
  lemma TermsStep(n: nat, a: real, b: real)
    requires n >= 1
    ensures Prefix(Terms(n, a, b), n + 1) == (a + b) * Prefix(Terms(n - 1, a, b), n)
  {
    TermsConsecutive(n, a, b);
    FullSplit(Terms(n, a, b), Terms(n - 1, a, b), a, b);
  }

  lemma TermsZero(a: real, b: real)
    ensures Prefix(Terms(0, a, b), 1) == 1.0
  {
    assert Terms(0, a, b)[0] == 1.0;
  }

  lemma PowStep(x: real, k: nat)
    requires k >= 1
    ensures Pow(x, k) == x * Pow(x, k - 1)
  {
  }

  /** The rows of degree n and n - 1 satisfy Pascal's rule. */
  lemma TermsConsecutive(n: nat, a: real, b: real)
    requires n >= 1
    ensures Consecutive(Terms(n, a, b), Terms(n - 1, a, b), a, b)
  {
    var u, v := Terms(n, a, b), Terms(n - 1, a, b);
    PascalFirstTerm(n, a, b);
    forall j | 1 <= j < |v| ensures PascalAt(u, v, a, b, j) {
      PascalMiddleTerm(n, j, a, b);
    }
    PascalLastTerm(n, a, b);
  }

  lemma PascalMiddleTerm(n: nat, j: nat, a: real, b: real)
    requires 1 <= j < n
    ensures PascalAt(Terms(n, a, b), Terms(n - 1, a, b), a, b, j)
  {
    TermSplit(n, j, a, b);
    assert Terms(n, a, b)[j] == BinomialTerm(n, j, a, b);
    assert Terms(n - 1, a, b)[j - 1] == BinomialTerm(n - 1, j - 1, a, b);
    assert Terms(n - 1, a, b)[j] == BinomialTerm(n - 1, j, a, b);
  }

  lemma PascalFirstTerm(n: nat, a: real, b: real)
    requires n >= 1
    ensures Terms(n, a, b)[0] == b * Terms(n - 1, a, b)[0]
  {
    assert Terms(n, a, b)[0] == Pow(b, n);
    assert Terms(n - 1, a, b)[0] == Pow(b, n - 1);
  }

  lemma PascalLastTerm(n: nat, a: real, b: real)
    requires n >= 1
    ensures Terms(n, a, b)[n] == a * Terms(n - 1, a, b)[n - 1]
  {
    ChooseAll(n);
    ChooseAll(n - 1);
    assert Terms(n, a, b)[n] == Pow(a, n);
    assert Terms(n - 1, a, b)[n - 1] == Pow(a, n - 1);
  }

  /** The Bernstein basis polynomials of degree n sum to one at every t. */
  lemma PartitionOfUnity(n: nat, t: real)
    ensures Prefix(Terms(n, t, 1.0 - t), n + 1) == 1.0
  {
    BinomialTheorem(n, t, 1.0 - t);
    assert t + (1.0 - t) == 1.0;
    PowOne(n);
  }
}
