/**
 * The two polynomials that the root search of src/voip/media/mlow/lpc.go works on
 * (silkA2NLSFInit, silkA2NLSFTransPoly), over unbounded integers: they are the line spectral sum and
 * difference of the filter, each divided by its trivial root and written in powers of z + 1/z.
 */
module LspPolynomials {
  import opened Reals

  const ONE_Q16 := 65536

  // ---- The values the source computes ----

  /** The difference polynomial keeps the sign of the mirrored half, the sum polynomial flips it. */
  function Sign(q: bool, x: int): int {
    if q then x else 0 - x
  }

  function Raw(a: seq<int>, dd: nat, q: bool, k: nat): int
    requires k < dd && 2 * dd <= |a|
  {
    0 - a[dd - k - 1] + Sign(q, a[dd + k])
  }

  /** The coefficients after the trivial root is divided out. */
  function Deflated(a: seq<int>, dd: nat, q: bool, k: nat): int
    requires k <= dd && 2 * dd <= |a|
    decreases dd - k
  {
    if k == dd then ONE_Q16 else Raw(a, dd, q, k) + Sign(q, Deflated(a, dd, q, k + 1))
  }

  function DeflatedAll(a: seq<int>, dd: nat, q: bool): (p: seq<int>)
    requires 2 * dd <= |a|
    ensures |p| == dd + 1
  {
    seq(dd + 1, k requires 0 <= k <= dd => Deflated(a, dd, q, k))
  }

  /** One pass of the transform from index n down to k + 1. */
  function Cascade(p: seq<int>, k: nat, n: nat): (r: seq<int>)
    requires k >= 2 && n < |p|
    ensures |r| == |p|
    decreases n
  {
    if n <= k then p else Cascade(p[n - 2 := p[n - 2] - p[n]], k, n - 1)
  }

  function Stage(p: seq<int>, k: nat): (r: seq<int>)
    requires 2 <= k < |p|
    ensures |r| == |p|
  {
    var c := Cascade(p, k, |p| - 1);
    c[k - 2 := c[k - 2] - 2 * c[k]]
  }

  function Trans(p: seq<int>, k: nat): (r: seq<int>)
    requires k >= 2
    ensures |r| == |p|
    decreases |p| - k
  {
    if k >= |p| then p else Trans(Stage(p, k), k + 1)
  }

  function LspPoly(a: seq<int>, dd: nat, q: bool): (p: seq<int>)
    requires 2 * dd <= |a|
    ensures |p| == dd + 1
  {
    Trans(DeflatedAll(a, dd, q), 2)
  }

  // ---- The methods ----

  method TransPoly(p: array<int>, dd: nat)
    requires p.Length == dd + 1
    modifies p
    ensures p[..] == Trans(old(p[..]), 2)
  {
    hide Stage, Cascade, Trans;
    var k := 2;
    while k <= dd
      invariant 2 <= k && Trans(p[..], k) == Trans(old(p[..]), 2)
      invariant k <= dd + 1 || k == 2
    {
      ghost var was := p[..];
      var n := dd;
      while n >= k + 1
        invariant k <= n <= dd && Cascade(p[..], k, n) == Cascade(was, k, dd)
      {
        CascadeNext(p[..], k, n);
        ghost var before := p[..];
        p[n - 2] := p[n - 2] - p[n];
        assert p[..] == before[n - 2 := before[n - 2] - before[n]];
        n := n - 1;
      }
      CascadeEnd(p[..], k);
      ghost var c := p[..];
      p[k - 2] := p[k - 2] - 2 * p[k];
      assert p[..] == c[k - 2 := c[k - 2] - 2 * c[k]];
      StageIs(was, k);
      TransNext(was, k);
      k := k + 1;
    }
    TransEnd(p[..], k);
  }

  lemma CascadeNext(p: seq<int>, k: nat, n: nat)
    requires 2 <= k < n < |p|
    ensures Cascade(p, k, n) == Cascade(p[n - 2 := p[n - 2] - p[n]], k, n - 1)
  {
  }

  lemma CascadeEnd(p: seq<int>, k: nat)
    requires 2 <= k < |p|
    ensures Cascade(p, k, k) == p
  {
  }

  lemma StageIs(p: seq<int>, k: nat)
    requires 2 <= k < |p|
    ensures var c := Cascade(p, k, |p| - 1); Stage(p, k) == c[k - 2 := c[k - 2] - 2 * c[k]]
  {
  }

  lemma TransNext(p: seq<int>, k: nat)
    requires 2 <= k < |p|
    ensures Trans(p, k) == Trans(Stage(p, k), k + 1)
  {
  }

  lemma TransEnd(p: seq<int>, k: nat)
    requires k >= 2 && k >= |p|
    ensures Trans(p, k) == p
  {
  }

  /** Both polynomials of a filter of even order 2 * dd. */
  method InitPolys(a: array<int>, p: array<int>, q: array<int>, dd: nat)
    requires 2 * dd <= a.Length && p.Length == q.Length == dd + 1
    requires p != q && p != a && q != a
    modifies p, q
    ensures p[..] == LspPoly(a[..], dd, false) && q[..] == LspPoly(a[..], dd, true)
  {
    hide Deflated;
    ghost var s := a[..];
    p[dd] := ONE_Q16;
    q[dd] := ONE_Q16;
    for k := 0 to dd
      invariant p[dd] == q[dd] == ONE_Q16
      invariant forall i :: 0 <= i < k ==> p[i] == Raw(s, dd, false, i) && q[i] == Raw(s, dd, true, i)
    {
      p[k] := 0 - a[dd - k - 1] - a[dd + k];
      q[k] := 0 - a[dd - k - 1] + a[dd + k];
    }
    DeflatedTop(s, dd);
    var k := dd;
    while k >= 1
      invariant 0 <= k <= dd
      invariant forall i :: 0 <= i < k ==> p[i] == Raw(s, dd, false, i) && q[i] == Raw(s, dd, true, i)
      invariant forall i :: k <= i <= dd ==> p[i] == Deflated(s, dd, false, i) && q[i] == Deflated(s, dd, true, i)
    {
      DeflatedNext(s, dd, k - 1);
      p[k - 1] := p[k - 1] - p[k];
      q[k - 1] := q[k - 1] + q[k];
      k := k - 1;
    }
    assert p[..] == DeflatedAll(s, dd, false);
    assert q[..] == DeflatedAll(s, dd, true);
    TransPoly(p, dd);
    TransPoly(q, dd);
  }

  lemma DeflatedTop(a: seq<int>, dd: nat)
    requires 2 * dd <= |a|
    ensures Deflated(a, dd, false, dd) == Deflated(a, dd, true, dd) == ONE_Q16
  {
  }

  lemma DeflatedNext(a: seq<int>, dd: nat, k: nat)
    requires k < dd && 2 * dd <= |a|
    ensures Deflated(a, dd, false, k) == Raw(a, dd, false, k) - Deflated(a, dd, false, k + 1)
    ensures Deflated(a, dd, true, k) == Raw(a, dd, true, k) + Deflated(a, dd, true, k + 1)
  {
  }

  // ---- The transform keeps the polynomial ----

  /** Twice the cosine of a multiple angle, in t, twice the cosine of the angle. */
  function Cosine(m: nat, t: real): real {
    if m == 0 then 2.0
    else if m == 1 then t
    else Times(t, Cosine(m - 1, t)) - Cosine(m - 2, t)
  }

  /** Coefficients b + 1 to n, on the cosines from index b. */
  function Low(p: seq<int>, b: nat, n: nat, t: real): real
    requires b <= n < |p|
  {
    if n == b then 0.0 else Low(p, b, n - 1, t) + Times(p[n] as real, Cosine(n - b, t))
  }

  /** Coefficients above n, on t times the cosine of one multiple less. */
  function High(p: seq<int>, b: nat, n: nat, t: real): real
    requires b <= n < |p|
    decreases |p| - n
  {
    if n == |p| - 1 then 0.0
    else Times(p[n + 1] as real, Times(t, Cosine(n - b, t))) + High(p, b, n + 1, t)
  }

  /** A cosine series from index b: the first coefficient stands alone. */
  function Series(p: seq<int>, b: nat, t: real): real
    requires b < |p|
  {
    p[b] as real + Low(p, b, |p| - 1, t)
  }

  /** A polynomial in t from index b. */
  function Horner(p: seq<int>, b: nat, t: real): real
    requires b < |p|
    decreases |p| - b
  {
    if b == |p| - 1 then p[b] as real else p[b] as real + Times(t, Horner(p, b + 1, t))
  }

  lemma {:induction false} LowSame(p: seq<int>, r: seq<int>, b: nat, n: nat, t: real)
    requires |p| == |r| && b <= n < |p| && forall i :: b < i <= n ==> p[i] == r[i]
    ensures Low(p, b, n, t) == Low(r, b, n, t)
  {
    hide Times, Cosine;
    if n > b {
      LowSame(p, r, b, n - 1, t);
    }
  }

  lemma {:induction false} HighSame(p: seq<int>, r: seq<int>, b: nat, n: nat, t: real)
    requires |p| == |r| && b <= n < |p| && forall i :: n < i < |p| ==> p[i] == r[i]
    ensures High(p, b, n, t) == High(r, b, n, t)
    decreases |p| - n
  {
    hide Times, Cosine;
    if n < |p| - 1 {
      HighSame(p, r, b, n + 1, t);
    }
  }

  lemma CosineNext(m: nat, t: real, c: real)
    requires m >= 2
    ensures Times(c, Cosine(m, t)) == Times(c, Times(t, Cosine(m - 1, t))) - Times(c, Cosine(m - 2, t))
  {
    hide Times;
    TimesAdd(Cosine(m, t), Cosine(m - 2, t), c);
  }

  /** One subtraction of the pass moves a term without changing the sum. */
  lemma CascadeStep(p: seq<int>, b: nat, n: nat, t: real)
    requires b + 3 <= n < |p|
    ensures var r := p[n - 2 := p[n - 2] - p[n]];
            Low(r, b, n - 1, t) + High(r, b, n - 1, t) == Low(p, b, n, t) + High(p, b, n, t)
  {
    hide Times, Cosine;
    var r := p[n - 2 := p[n - 2] - p[n]];
    var c := p[n] as real;
    CosineNext(n - b, t, c);
    HighSame(p, r, b, n, t);
    LowSame(p, r, b, n - 3, t);
    assert Low(p, b, n - 2, t) == Low(p, b, n - 3, t) + Times(p[n - 2] as real, Cosine(n - 2 - b, t));
    assert Low(r, b, n - 2, t) == Low(r, b, n - 3, t) + Times(r[n - 2] as real, Cosine(n - 2 - b, t));
    TimesAdd(r[n - 2] as real, c, Cosine(n - 2 - b, t));
  }

  lemma {:induction false} CascadeExact(p: seq<int>, k: nat, n: nat, t: real)
    requires 2 <= k <= n < |p|
    ensures var r := Cascade(p, k, n);
            && Low(r, k - 2, k, t) + High(r, k - 2, k, t) == Low(p, k - 2, n, t) + High(p, k - 2, n, t)
            && forall i :: 0 <= i <= k - 2 ==> r[i] == p[i]
    decreases n
  {
    hide Low, High;
    if n > k {
      CascadeStep(p, k - 2, n, t);
      CascadeExact(p[n - 2 := p[n - 2] - p[n]], k, n - 1, t);
    }
  }

  lemma {:induction false} HighIsShifted(p: seq<int>, b: nat, n: nat, t: real)
    requires b < n < |p|
    ensures High(p, b, n, t) == Times(t, Low(p, b + 1, |p| - 1, t)) - Times(t, Low(p, b + 1, n, t))
    decreases |p| - n
  {
    hide Times, Cosine;
    if n < |p| - 1 {
      HighIsShifted(p, b, n + 1, t);
      TimesAdd(Low(p, b + 1, n, t), Times(p[n + 1] as real, Cosine(n - b, t)), t);
      TimesSwap(p[n + 1] as real, t, Cosine(n - b, t));
    }
  }

  lemma FirstCosines(t: real, c: real)
    ensures Cosine(1, t) == t && Times(c, Cosine(2, t)) == Times(c, Times(t, Cosine(1, t))) - (c + c)
  {
    hide Times;
    CosineNext(2, t, c);
    Twice(c);
  }

  lemma Twice(c: real)
    ensures Times(c, 2.0) == c + c
  {
  }

  lemma LowTwo(p: seq<int>, b: nat, t: real)
    requires b + 2 < |p|
    ensures Low(p, b, b + 2, t) == Times(p[b + 1] as real, t) + Times(p[b + 2] as real, Cosine(2, t))
    ensures Low(p, b + 1, b + 1, t) == 0.0
  {
    hide Times;
    assert Low(p, b, b + 1, t) == Low(p, b, b, t) + Times(p[b + 1] as real, Cosine(1, t));
  }

  /** A whole stage takes one factor of t out of the series. */
  lemma StageExact(p: seq<int>, k: nat, t: real)
    requires 2 <= k < |p|
    ensures var r := Stage(p, k);
            && Series(p, k - 2, t) == r[k - 2] as real + Times(t, Series(r, k - 1, t))
            && forall i :: 0 <= i < k - 2 ==> r[i] == p[i]
  {
    hide Times, Cosine, Cascade, Low;
    var b := k - 2;
    var c := Cascade(p, k, |p| - 1);
    var r := Stage(p, k);
    CascadeExact(p, k, |p| - 1, t);
    assert High(p, b, |p| - 1, t) == 0.0;
    LowTwo(c, b, t);
    FirstCosines(t, c[k] as real);
    assert High(c, b, b + 1, t) == Times(c[k] as real, Times(t, Cosine(1, t))) + High(c, b, k, t);
    HighIsShifted(c, b, b + 1, t);
    LowSame(c, r, b + 1, |p| - 1, t);
    TimesZero(t);
    TimesAdd(c[k - 1] as real, Low(c, b + 1, |p| - 1, t), t);
    TimesSwap(c[k - 1] as real, t, 0.0);
  }

  lemma {:induction false} TransExact(p: seq<int>, k: nat, t: real)
    requires 2 <= k <= |p|
    ensures var r := Trans(p, k);
            && Horner(r, k - 2, t) == Series(p, k - 2, t)
            && forall i :: 0 <= i < k - 2 ==> r[i] == p[i]
    decreases |p| - k
  {
    hide Times, Stage;
    if k == |p| {
      LastSeries(p, t);
    } else {
      hide Series;
      StageExact(p, k, t);
      TransExact(Stage(p, k), k + 1, t);
    }
  }

  lemma LastSeries(p: seq<int>, t: real)
    requires |p| >= 2
    ensures Horner(p, |p| - 2, t) == Series(p, |p| - 2, t)
  {
    hide Times;
    TimesSwap(t, p[|p| - 1] as real, 0.0);
    assert Low(p, |p| - 2, |p| - 2, t) == 0.0;
    assert Cosine(1, t) == t;
    assert Horner(p, |p| - 1, t) == p[|p| - 1] as real;
  }

  // ---- What the polynomials are ----

  function Pow(z: real, n: nat): real {
    if n == 0 then 1.0 else Times(z, Pow(z, n - 1))
  }

  lemma {:induction false} PowAdd(z: real, m: nat, n: nat)
    ensures Times(Pow(z, m), Pow(z, n)) == Pow(z, m + n)
  {
    hide Times;
    if m == 0 {
      One(Pow(z, n));
    } else {
      PowAdd(z, m - 1, n);
      TimesSwap(z, Pow(z, m - 1), Pow(z, n));
    }
  }

  lemma One(c: real)
    ensures Times(1.0, c) == c && Times(c, 1.0) == c
  {
  }

  lemma FirstPowers(z: real)
    ensures Pow(z, 0) == 1.0 && Pow(z, 1) == z && Pow(z, 2) == Times(z, z)
  {
    hide Times;
    One(z);
    assert Pow(z, 1) == Times(z, Pow(z, 0));
    assert Pow(z, 2) == Times(z, Pow(z, 1));
  }

  lemma Regroup(a: real, b: real, c: real, d: real)
    ensures Times(Times(a, b), Times(c, d)) == Times(Times(a, c), Times(b, d))
  {
    hide Times;
    TimesSwap(a, b, Times(c, d));
    TimesSwap(b, c, d);
    TimesSwap(a, c, Times(b, d));
  }

  lemma PlusOnes(u: real, x: real)
    ensures Times(u + 1.0, x + 1.0) == Times(u, x) + u + x + 1.0
    ensures Times(u, x + 1.0) == Times(u, x) + u
  {
    hide Times;
    One(u);
    One(x);
    One(1.0);
    TimesAdd(u, 1.0, x + 1.0);
    TimesAdd(x, 1.0, u);
    TimesAdd(x, 1.0, 1.0);
  }

  /** With t = z + 1/z the cosine of a multiple is z to that multiple plus its inverse. */
  lemma {:induction false} CosinePower(z: real, t: real, m: nat)
    requires Times(z, t) == Times(z, z) + 1.0
    ensures Times(Pow(z, m), Cosine(m, t)) == Pow(z, 2 * m) + 1.0
  {
    hide Times, Pow;
    FirstPowers(z);
    if m == 0 {
      One(2.0);
    } else if m >= 2 {
      var zz := Times(z, z);
      var x, y := Pow(z, 2 * m - 2), Pow(z, 2 * m - 4);
      CosinePower(z, t, m - 1);
      CosinePower(z, t, m - 2);
      CosineNext(m, t, Pow(z, m));
      PowAdd(z, 1, m - 1);
      PowAdd(z, 2, m - 2);
      PowAdd(z, 2, 2 * m - 2);
      PowAdd(z, 2, 2 * m - 4);
      Regroup(z, Pow(z, m - 1), t, Cosine(m - 1, t));
      TimesSwap(zz, Pow(z, m - 2), Cosine(m - 2, t));
      PlusOnes(zz, x);
      PlusOnes(zz, y);
    }
  }

  /** The middle power and, around it, coefficients 1 to n in mirrored pairs. */
  function Pairs(p: seq<int>, z: real, n: nat): real
    requires n < |p|
  {
    if n == 0 then Times(p[0] as real, Pow(z, |p| - 1))
    else Pairs(p, z, n - 1) + Times(p[n] as real, Pow(z, |p| - 1 - n) + Pow(z, |p| - 1 + n))
  }

  lemma {:induction false} SeriesPower(p: seq<int>, z: real, t: real, n: nat)
    requires n < |p| && Times(z, t) == Times(z, z) + 1.0
    ensures Times(Pow(z, |p| - 1), p[0] as real + Low(p, 0, n, t)) == Pairs(p, z, n)
  {
    hide Times, Pow, Cosine;
    var dd := |p| - 1;
    if n == 0 {
      TimesSwap(Pow(z, dd), p[0] as real, 0.0);
    } else {
      SeriesPower(p, z, t, n - 1);
      TimesAdd(p[0] as real + Low(p, 0, n - 1, t), Times(p[n] as real, Cosine(n, t)), Pow(z, dd));
      TimesSwap(Pow(z, dd), p[n] as real, Cosine(n, t));
      PowAdd(z, dd - n, n);
      TimesSwap(Pow(z, dd - n), Pow(z, n), Cosine(n, t));
      CosinePower(z, t, n);
      PlusOnes(Pow(z, dd - n), Pow(z, 2 * n));
      PowAdd(z, dd - n, 2 * n);
    }
  }

  function SignR(q: bool, x: real): real {
    if q then x else -x
  }

  lemma SignOut(q: bool, x: real, y: real)
    ensures Times(SignR(q, x), y) == SignR(q, Times(x, y)) && Times(y, SignR(q, x)) == SignR(q, Times(y, x))
  {
  }

  lemma SignCast(q: bool, x: int)
    ensures Sign(q, x) as real == SignR(q, x as real)
  {
  }

  /** The trivial factor: 1 - z for the difference polynomial and 1 + z for the sum polynomial. */
  function Trivial(q: bool, z: real): real {
    1.0 - SignR(q, z)
  }

  lemma TrivialTimes(q: bool, z: real, x: real)
    ensures Times(Trivial(q, z), x) == x - SignR(q, Times(z, x))
  {
    hide Times;
    One(x);
    SignOut(q, z, x);
    TimesAdd(Trivial(q, z), SignR(q, z), x);
  }

  function Edge(dd: nat, q: bool, z: real, k: nat): real
    requires k <= dd
  {
    Pow(z, dd - k) - SignR(q, Pow(z, dd + k + 1))
  }

  lemma EdgePair(dd: nat, q: bool, z: real, n: nat)
    requires 1 <= n <= dd
    ensures Times(Trivial(q, z), Pow(z, dd - n) + Pow(z, dd + n)) == Edge(dd, q, z, n) - SignR(q, Edge(dd, q, z, n - 1))
  {
    hide Times, Trivial;
    TrivialTimes(q, z, Pow(z, dd - n) + Pow(z, dd + n));
    TimesAdd(Pow(z, dd - n), Pow(z, dd + n), z);
  }

  lemma EdgeMiddle(dd: nat, q: bool, z: real)
    ensures Times(Trivial(q, z), Pow(z, dd)) == Edge(dd, q, z, 0)
  {
    hide Times, Trivial;
    TrivialTimes(q, z, Pow(z, dd));
  }

  function Partial(a: seq<int>, dd: nat, q: bool, z: real, n: nat): real
    requires n <= dd && 2 * dd <= |a|
  {
    if n == 0 then 0.0
    else Partial(a, dd, q, z, n - 1) + Times(Raw(a, dd, q, n - 1) as real, Edge(dd, q, z, n - 1))
  }

  lemma DeflatedTimes(a: seq<int>, dd: nat, q: bool, n: nat, x: real)
    requires n < dd && 2 * dd <= |a|
    ensures Times(Deflated(a, dd, q, n) as real, x)
            == Times(Raw(a, dd, q, n) as real, x) + SignR(q, Times(Deflated(a, dd, q, n + 1) as real, x))
  {
    hide Times, Raw;
    SignCast(q, Deflated(a, dd, q, n + 1));
    SignOut(q, Deflated(a, dd, q, n + 1) as real, x);
    TimesAdd(Raw(a, dd, q, n) as real, Sign(q, Deflated(a, dd, q, n + 1)) as real, x);
  }

  /** Multiplying the trivial factor back in recovers the coefficients before the division. */
  lemma {:induction false} Multiplied(a: seq<int>, dd: nat, q: bool, z: real, n: nat)
    requires n <= dd && 2 * dd <= |a|
    ensures Times(Trivial(q, z), Pairs(DeflatedAll(a, dd, q), z, n))
            == Partial(a, dd, q, z, n) + Times(Deflated(a, dd, q, n) as real, Edge(dd, q, z, n))
  {
    hide Times, Trivial, Edge, Pow, Deflated;
    var p := DeflatedAll(a, dd, q);
    var f := Trivial(q, z);
    if n == 0 {
      TimesSwap(f, p[0] as real, Pow(z, dd));
      EdgeMiddle(dd, q, z);
    } else {
      var c := p[n] as real;
      var pair := Pow(z, dd - n) + Pow(z, dd + n);
      Multiplied(a, dd, q, z, n - 1);
      TimesAdd(Pairs(p, z, n - 1), Times(c, pair), f);
      TimesSwap(f, c, pair);
      EdgePair(dd, q, z, n);
      TimesAdd(Edge(dd, q, z, n) - SignR(q, Edge(dd, q, z, n - 1)), SignR(q, Edge(dd, q, z, n - 1)), c);
      SignOut(q, Edge(dd, q, z, n - 1), c);
      DeflatedTimes(a, dd, q, n - 1, Edge(dd, q, z, n - 1));
    }
  }

  /** The filter in Q16: one, minus coefficient j on z to the j + 1. */
  function FilterAt(a: seq<int>, z: real, n: nat): real
    requires n <= |a|
  {
    if n == 0 then ONE_Q16 as real else FilterAt(a, z, n - 1) - Times(a[n - 1] as real, Pow(z, n))
  }

  /** The same with the coefficients in the opposite order. */
  function MirrorAt(a: seq<int>, z: real, n: nat): real
    requires n <= |a|
  {
    if n == 0 then Times(ONE_Q16 as real, Pow(z, |a| + 1))
    else MirrorAt(a, z, n - 1) - Times(a[n - 1] as real, Pow(z, |a| - (n - 1)))
  }

  /** The mirrored filter is the filter at 1/z, shifted to positive powers. */
  lemma {:induction false} MirrorIsReciprocal(a: seq<int>, z: real, w: real, n: nat)
    requires n <= |a| && Times(z, w) == 1.0
    ensures MirrorAt(a, z, n) == Times(Pow(z, |a| + 1), FilterAt(a, w, n))
  {
    hide Times, Pow;
    var top := Pow(z, |a| + 1);
    if n == 0 {
      TimesSwap(top, ONE_Q16 as real, 0.0);
    } else {
      MirrorIsReciprocal(a, z, w, n - 1);
      var c := a[n - 1] as real;
      TimesAdd(FilterAt(a, w, n), Times(c, Pow(w, n)), top);
      TimesSwap(top, c, Pow(w, n));
      PowAdd(z, |a| + 1 - n, n);
      TimesSwap(Pow(z, |a| + 1 - n), Pow(z, n), Pow(w, n));
      PowInverse(z, w, n);
      One(Pow(z, |a| + 1 - n));
    }
  }

  lemma {:induction false} PowInverse(z: real, w: real, n: nat)
    requires Times(z, w) == 1.0
    ensures Times(Pow(z, n), Pow(w, n)) == 1.0
  {
    hide Times;
    if n == 0 {
      One(1.0);
    } else {
      PowInverse(z, w, n - 1);
      Regroup(z, Pow(z, n - 1), w, Pow(w, n - 1));
      One(1.0);
    }
  }

  function Term(a: seq<int>, q: bool, z: real, j: nat): real
    requires j < |a|
  {
    SignR(q, Times(a[j] as real, Pow(z, |a| - j))) - Times(a[j] as real, Pow(z, j + 1))
  }

  function Terms(a: seq<int>, q: bool, z: real, lo: nat, hi: nat): real
    requires lo <= hi <= |a|
  {
    if lo == hi then 0.0 else Terms(a, q, z, lo, hi - 1) + Term(a, q, z, hi - 1)
  }

  lemma {:induction false} TermsFirst(a: seq<int>, q: bool, z: real, lo: nat, hi: nat)
    requires lo < hi <= |a|
    ensures Terms(a, q, z, lo, hi) == Term(a, q, z, lo) + Terms(a, q, z, lo + 1, hi)
  {
    hide Term;
    if lo + 1 < hi {
      TermsFirst(a, q, z, lo, hi - 1);
    } else {
      assert Terms(a, q, z, lo, lo) == 0.0;
    }
  }

  lemma {:induction false} TermsAll(a: seq<int>, q: bool, z: real, n: nat)
    requires n <= |a|
    ensures ONE_Q16 as real - SignR(q, Times(ONE_Q16 as real, Pow(z, |a| + 1))) + Terms(a, q, z, 0, n)
            == FilterAt(a, z, n) - SignR(q, MirrorAt(a, z, n))
  {
    hide Times, Pow;
    if n > 0 {
      TermsAll(a, q, z, n - 1);
    }
  }

  lemma RawTimes(a: seq<int>, dd: nat, q: bool, z: real, k: nat)
    requires k < dd && 2 * dd == |a|
    ensures Times(Raw(a, dd, q, k) as real, Edge(dd, q, z, k)) == Term(a, q, z, dd - k - 1) + Term(a, q, z, dd + k)
  {
    hide Times, Pow;
    var u, v := a[dd - k - 1] as real, a[dd + k] as real;
    var near, far := Pow(z, dd - k), Pow(z, dd + k + 1);
    var e := Edge(dd, q, z, k);
    SignCast(q, a[dd + k]);
    assert Raw(a, dd, q, k) as real == SignR(q, v) - u;
    TimesAdd(SignR(q, v) - u, u, e);
    SignOut(q, v, e);
    TimesAdd(e, SignR(q, far), u);
    TimesAdd(e, SignR(q, far), v);
    SignOut(q, far, u);
    SignOut(q, far, v);
  }

  lemma {:induction false} PartialTerms(a: seq<int>, dd: nat, q: bool, z: real, n: nat)
    requires n <= dd && 2 * dd == |a|
    ensures Partial(a, dd, q, z, n) == Terms(a, q, z, dd - n, dd + n)
  {
    hide Times, Edge, Raw, Term;
    if n > 0 {
      PartialTerms(a, dd, q, z, n - 1);
      RawTimes(a, dd, q, z, n - 1);
      TermsFirst(a, q, z, dd - n, dd + n);
      assert Terms(a, q, z, dd - n + 1, dd + n) == Terms(a, q, z, dd - n + 1, dd + n - 1) + Term(a, q, z, dd + n - 1);
    }
  }

  /**
   * What the search works on: times the trivial factor and a power of z, the value at t = z + 1/z is the
   * filter minus (q) or plus (not q) its mirror image. It is an identity of polynomials, so it also
   * holds on the unit circle, where t is twice the cosine of the angle.
   */
  lemma LspIdentity(a: seq<int>, dd: nat, q: bool, z: real, t: real)
    requires dd >= 1 && |a| == 2 * dd && Times(z, t) == Times(z, z) + 1.0
    ensures Times(Trivial(q, z), Times(Pow(z, dd), Horner(LspPoly(a, dd, q), 0, t)))
            == FilterAt(a, z, |a|) - SignR(q, MirrorAt(a, z, |a|))
  {
    hide Times, Trivial, Pow, Horner, Trans, FilterAt, MirrorAt;
    var p := DeflatedAll(a, dd, q);
    TransExact(p, 2, t);
    SeriesPower(p, z, t, dd);
    Multiplied(a, dd, q, z, dd);
    PartialTerms(a, dd, q, z, dd);
    TermsAll(a, q, z, |a|);
    FirstPowers(z);
    One(ONE_Q16 as real);
    var one := ONE_Q16 as real;
    TimesAdd(Edge(dd, q, z, dd), SignR(q, Pow(z, 2 * dd + 1)), one);
    SignOut(q, Pow(z, 2 * dd + 1), one);
  }
}
