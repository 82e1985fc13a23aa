/**
 * The mixed-radix transform of src/voip/media/mlow/fft.go, over real pairs in place of floats.
 * The sines and cosines enter only through the laws of roots of unity.
 */
module Fft {
  import opened Bytes
  import opened Reals

  datatype Cpx = Cpx(re: real, im: real)
  {
    function Add(b: Cpx): Cpx {
      Cpx(re + b.re, im + b.im)
    }

    function Mul(b: Cpx): Cpx {
      Cpx(re * b.re - im * b.im, re * b.im + im * b.re)
    }
  }

  const ZERO := Cpx(0.0, 0.0)
  const ONE := Cpx(1.0, 0.0)

  /** at(a, n) stands for the point at angle sign * 2 pi a / n. */
  datatype Roots = Roots(at: (int, int) -> Cpx)
  {
    ghost predicate Lawful() {
      AnglesAdd() && TurnsAreOne() && FractionsCancel()
    }

    ghost predicate AnglesAdd() {
      forall a, b, n :: n > 0 ==> at(a, n).Mul(at(b, n)) == at(a + b, n)
    }

    ghost predicate TurnsAreOne() {
      forall n :: n > 0 ==> at(0, n) == at(n, n) == ONE
    }

    ghost predicate FractionsCancel() {
      forall a, n, c :: n > 0 && c > 0 ==> at(a, n) == at(a * c, n * c)
    }
  }

  lemma AnglesAdd(w: Roots, a: int, b: int, n: nat)
    requires w.Lawful() && n > 0
    ensures w.at(a, n).Mul(w.at(b, n)) == w.at(a + b, n)
  {
    hide Roots.TurnsAreOne, Roots.FractionsCancel, Cpx.Mul;
  }

  lemma TurnsAreOne(w: Roots, n: nat)
    requires w.Lawful() && n > 0
    ensures w.at(0, n) == w.at(n, n) == ONE
  {
    hide Roots.AnglesAdd, Roots.FractionsCancel;
  }

  lemma FractionsCancel(w: Roots, a: int, n: nat, c: nat)
    requires w.Lawful() && n > 0 && c > 0
    ensures w.at(a, n) == w.at(a * c, n * c)
  {
    hide Roots.AnglesAdd, Roots.TurnsAreOne;
  }

  // ---- Ring laws ----

  lemma MulAssociative(a: Cpx, b: Cpx, c: Cpx)
    ensures a.Mul(b).Mul(c) == a.Mul(b.Mul(c))
  {
    RealDistributes(a.re, b.re * c.re, b.im * c.im);
    RealDistributes(c.re, a.re * b.re, a.im * b.im);
    assert (a.re * b.re - a.im * b.im) * c.re - (a.re * b.im + a.im * b.re) * c.im
           == a.re * (b.re * c.re - b.im * c.im) - a.im * (b.re * c.im + b.im * c.re);
    assert (a.re * b.re - a.im * b.im) * c.im + (a.re * b.im + a.im * b.re) * c.re
           == a.re * (b.re * c.im + b.im * c.re) + a.im * (b.re * c.re - b.im * c.im);
  }

  lemma RealDistributes(a: real, b: real, c: real)
    ensures a * (b + c) == a * b + a * c && a * (b - c) == a * b - a * c
  {
  }

  lemma MulDistributes(a: Cpx, b: Cpx, c: Cpx)
    ensures a.Add(b).Mul(c) == a.Mul(c).Add(b.Mul(c))
  {
  }

  lemma AddLaws(a: Cpx, b: Cpx, c: Cpx)
    ensures a.Add(b).Add(c) == a.Add(b.Add(c)) && a.Add(b) == b.Add(a) && a.Add(ZERO) == a && ZERO.Mul(a) == ZERO
    ensures a.Mul(b) == b.Mul(a)
  {
  }

  // ---- Sums ----

  ghost function Sum(f: int -> Cpx, n: nat): Cpx {
    if n == 0 then ZERO else Sum(f, n - 1).Add(f(n - 1))
  }

  lemma {:induction false} SumSame(f: int -> Cpx, g: int -> Cpx, n: nat)
    requires forall j :: 0 <= j < n ==> f(j) == g(j)
    ensures Sum(f, n) == Sum(g, n)
  {
    if n > 0 {
      SumSame(f, g, n - 1);
    }
  }

  lemma {:induction false} SumAdd(f: int -> Cpx, g: int -> Cpx, h: int -> Cpx, n: nat)
    requires forall j :: 0 <= j < n ==> h(j) == f(j).Add(g(j))
    ensures Sum(h, n) == Sum(f, n).Add(Sum(g, n))
  {
    hide Cpx.Add;
    if n > 0 {
      SumAdd(f, g, h, n - 1);
      FourTerms(Sum(f, n - 1), Sum(g, n - 1), f(n - 1), g(n - 1));
    } else {
      AddLaws(ZERO, ZERO, ZERO);
    }
  }

  lemma FourTerms(a: Cpx, b: Cpx, c: Cpx, d: Cpx)
    ensures a.Add(b).Add(c.Add(d)) == a.Add(c).Add(b.Add(d))
  {
  }

  lemma {:induction false} SumScaled(f: int -> Cpx, g: int -> Cpx, c: Cpx, n: nat)
    requires forall j :: 0 <= j < n ==> g(j) == f(j).Mul(c)
    ensures Sum(g, n) == Sum(f, n).Mul(c)
  {
    hide Cpx.Add, Cpx.Mul;
    if n > 0 {
      SumScaled(f, g, c, n - 1);
      MulDistributes(Sum(f, n - 1), f(n - 1), c);
    } else {
      AddLaws(c, c, c);
    }
  }

  /** A longer sum is the shorter one and what follows. */
  lemma {:induction false} SumSplit(f: int -> Cpx, a: nat, b: nat)
    ensures Sum(f, a + b) == Sum(f, a).Add(Sum(j => f(a + j), b))
  {
    hide Cpx.Add;
    if b > 0 {
      SumSplit(f, a, b - 1);
      AddLaws(Sum(f, a), Sum(j => f(a + j), b - 1), f(a + b - 1));
    } else {
      AddLaws(Sum(f, a), ZERO, ZERO);
    }
  }

  /** f at q, q + p, q + 2p, .. */
  ghost function Comb(f: int -> Cpx, p: int, q: int): int -> Cpx {
    j => f(q + p * j)
  }

  /** The sum over each residue class. */
  ghost function Rows(f: int -> Cpx, p: int, m: nat): int -> Cpx {
    q => Sum(Comb(f, p, q), m)
  }

  /** Summing by residue classes: every index below p * m is q + p * j for one q and one j. */
  lemma {:induction false} SumByResidue(f: int -> Cpx, p: nat, m: nat)
    ensures Sum(f, p * m) == Sum(Rows(f, p, m), p)
    decreases m
  {
    hide Cpx.Add;
    if m == 0 {
      assert p * m == 0;
      SumZeros(Rows(f, p, 0), p);
    } else {
      var k := p * (m - 1);
      assert p * m == k + p;
      SumByResidue(f, p, m - 1);
      SumSplit(f, k, p);
      LastRow(f, p, m, k);
    }
  }

  lemma LastRow(f: int -> Cpx, p: nat, m: nat, k: nat)
    requires m > 0 && k == p * (m - 1)
    ensures Sum(Rows(f, p, m), p) == Sum(Rows(f, p, m - 1), p).Add(Sum(j => f(k + j), p))
  {
    hide Cpx.Add;
    SumAdd(Rows(f, p, m - 1), j => f(k + j), Rows(f, p, m), p);
  }

  lemma {:induction false} SumZeros(f: int -> Cpx, n: nat)
    requires forall j :: 0 <= j < n ==> f(j) == ZERO
    ensures Sum(f, n) == ZERO
  {
    if n > 0 {
      SumZeros(f, n - 1);
    }
  }

  // ---- The direct transform ----

  /** The terms of output k: sample j at the stride, turned by k * j steps of n. */
  ghost function Term(x: seq<Cpx>, stride: nat, n: int, w: Roots, k: int): int -> Cpx {
    j => if 0 <= j * stride < |x| then x[j * stride].Mul(w.at(k * j, n)) else ZERO
  }

  ghost function Dft(x: seq<Cpx>, stride: nat, n: nat, w: Roots, k: int): Cpx {
    Sum(Term(x, stride, n, w, k), n)
  }

  // ---- Factors ----

  /** No divisor from two up to p. */
  predicate NoneBelow(n: nat, p: nat) {
    forall d :: 2 <= d < p ==> n % d != 0
  }

  /** The least divisor above one. */
  predicate LeastFactor(n: nat, p: nat) {
    2 <= p <= n && n % p == 0 && NoneBelow(n, p)
  }

  method SmallestFactor(n: nat) returns (p: nat)
    requires n >= 2
    ensures LeastFactor(n, p)
  {
    hide NoneBelow;
    if n % 2 == 0 {
      NoneBelowTwo(n);
      return 2;
    }
    NoneBelowThree(n);
    p := 3;
    while p * p <= n
      invariant 3 <= p && p % 2 == 1 && NoneBelow(n, p)
      decreases n - p
    {
      Within(p, n);
      if n % p == 0 {
        return p;
      }
      TwoMore(n, p);
      p := p + 2;
    }
    NoSmallFactor(n, p);
    return n;
  }

  lemma Within(p: nat, n: nat)
    requires 3 <= p && p * p <= n
    ensures p <= n
  {
    assert p * 3 <= p * p;
  }

  lemma NoneBelowTwo(n: nat)
    ensures NoneBelow(n, 2)
  {
  }

  lemma NoneBelowThree(n: nat)
    requires n % 2 != 0
    ensures NoneBelow(n, 3)
  {
  }

  /** An odd number that p does not divide is not divided by p + 1 either. */
  lemma TwoMore(n: nat, p: nat)
    requires n % 2 == 1 && p % 2 == 1 && p >= 3 && n % p != 0 && NoneBelow(n, p)
    ensures NoneBelow(n, p + 2)
  {
    if n % (p + 1) == 0 {
      EvenDivides(n, p + 1);
    }
  }

  lemma EvenDivides(n: nat, d: nat)
    requires d > 0 && d % 2 == 0 && n % d == 0
    ensures n % 2 == 0
  {
    var h, q := d / 2, n / d;
    DivMod(n, d);
    assert n == 2 * (h * q) by {
      assert (2 * h) * q == 2 * (h * q);
    }
  }

  /** With no divisor below p and n below p squared, n has no divisor below itself. */
  lemma NoSmallFactor(n: nat, p: nat)
    requires n >= 2 && p * p > n && NoneBelow(n, p)
    ensures LeastFactor(n, n)
  {
    DivUnique(n, n, 1, 0);
    forall d | 2 <= d < n ensures n % d != 0 {
      if n % d == 0 {
        Cofactor(n, d, p);
      }
    }
  }

  lemma Cofactor(n: nat, d: nat, p: nat)
    requires 2 <= d < n && n % d == 0 && p * p > n && p <= d
    ensures 2 <= n / d < p && n % (n / d) == 0
  {
    var q := n / d;
    DivMod(n, d);
    assert n == q * d;
    if q <= 1 {
      MulLe(q, 1, d);
    }
    if q >= p {
      MulLe(p, q, d);
      MulLe(p, d, p);
    }
    assert n == d * q;
    DivUnique(n, q, d, 0);
  }

  // ---- The fast transform ----

  /** A full turn changes nothing. */
  lemma {:induction false} WholeTurns(w: Roots, a: int, n: nat, c: nat)
    requires w.Lawful() && n > 0
    ensures w.at(a + c * n, n) == w.at(a, n)
    decreases c
  {
    hide Roots.Lawful, Cpx.Mul;
    if c == 0 {
      assert a + c * n == a;
    } else {
      WholeTurns(w, a, n, c - 1);
      var b := a + (c - 1) * n;
      assert a + c * n == b + n;
      AnglesAdd(w, b, n, n);
      TurnsAreOne(w, n);
      MulOne(w.at(b, n));
    }
  }

  lemma MulOne(a: Cpx)
    ensures a.Mul(ONE) == a
  {
  }

  /** The twiddle law: a point of the short transform, turned by k * q, is a point of the long one. */
  lemma Twiddle(w: Roots, k: nat, q: nat, j: nat, m: nat, p: nat)
    requires w.Lawful() && m > 0 && p > 0
    ensures w.at(k % m * j, m).Mul(w.at(k * q, m * p)) == w.at(k * (q + p * j), m * p)
  {
    hide Roots.Lawful, Cpx.Mul;
    TurnCount(k, j, m);
    WholeTurns(w, k % m * j, m, k / m * j);
    FractionsCancel(w, k * j, m, p);
    AngleSum(k, q, j, p);
    assert m * p > 0;
    AnglesAdd(w, k * j * p, k * q, m * p);
  }

  lemma TurnCount(k: nat, j: nat, m: nat)
    requires m > 0
    ensures k * j == k % m * j + k / m * j * m && k / m * j >= 0
  {
    var r, c := k % m, k / m;
    DivMod(k, m);
    DivBounds(k, m);
    assert (r + c * m) * j == r * j + c * j * m;
  }

  lemma AngleSum(k: nat, q: nat, j: nat, p: nat)
    ensures k * j * p + k * q == k * (q + p * j)
  {
  }

  /** A term of a short transform, turned, is the long transform's term at q + p * j. */
  lemma TurnedTerm(x: seq<Cpx>, stride: nat, w: Roots, k: nat, q: nat, j: nat, m: nat, p: nat)
    requires w.Lawful() && m > 0 && q < p && j < m && (m * p - 1) * stride < |x|
    ensures q * stride <= |x|
    ensures Term(x[q * stride..], stride * p, m, w, k % m)(j).Mul(w.at(k * q, m * p))
            == Term(x, stride, m * p, w, k)(q + p * j)
  {
    hide Cpx.Mul, Roots.Lawful;
    InRange(stride, q, j, m, p);
    var i := (q + p * j) * stride;
    assert x[q * stride..][j * (stride * p)] == x[i];
    MulAssociative(x[i], w.at(k % m * j, m), w.at(k * q, m * p));
    Twiddle(w, k, q, j, m, p);
  }

  lemma InRange(stride: nat, q: nat, j: nat, m: nat, p: nat)
    requires q < p && j < m
    ensures q * stride <= (m * p - 1) * stride
    ensures q * stride + j * (stride * p) == (q + p * j) * stride <= (m * p - 1) * stride
    ensures 0 <= j * (stride * p)
  {
    MulLe(j + 1, m, p);
    assert q + p * j <= m * p - 1 by {
      assert (j + 1) * p == j * p + p;
    }
    MulLe(q + p * j, m * p - 1, stride);
    assert (q + p * j) * stride == q * stride + j * (stride * p) by {
      assert p * j * stride == j * (stride * p);
    }
    assert 0 <= j * (stride * p);
  }

  /** One output of the long transform from the short ones. */
  lemma Combine(x: seq<Cpx>, stride: nat, w: Roots, k: nat, m: nat, p: nat, n: nat, step: nat, parts: int -> Cpx)
    requires w.Lawful() && m > 0 && p > 0 && n == m * p && step == stride * p && (n - 1) * stride < |x|
    requires forall q {:trigger parts(q)} :: 0 <= q < p ==> PartOf(x, stride, w, k, m, n, step, q, parts(q))
    ensures Sum(parts, p) == Dft(x, stride, n, w, k)
  {
    hide Roots.Lawful, Cpx.Mul, Sum, PartOf;
    var f := Term(x, stride, n, w, k);
    forall q | 0 <= q < p ensures parts(q) == Rows(f, p, m)(q) {
      assert PartOf(x, stride, w, k, m, n, step, q, parts(q));
      PartIsRow(x, stride, w, k, q, m, p, parts(q));
    }
    SumSame(parts, Rows(f, p, m), p);
    SumByResidue(f, p, m);
    assert p * m == n;
  }

  /** c is output k of the short transform that starts at sample q, turned by its twiddle. */
  ghost predicate PartOf(x: seq<Cpx>, stride: nat, w: Roots, k: nat, m: nat, n: nat, step: nat, q: nat, c: Cpx)
    requires m > 0
  {
    q * stride <= |x| && c == Dft(x[q * stride..], step, m, w, k % m).Mul(w.at(k * q, n))
  }

  lemma PartIsRow(x: seq<Cpx>, stride: nat, w: Roots, k: nat, q: nat, m: nat, p: nat, c: Cpx)
    requires w.Lawful() && m > 0 && q < p && (m * p - 1) * stride < |x|
    requires PartOf(x, stride, w, k, m, m * p, stride * p, q, c)
    ensures c == Sum(Comb(Term(x, stride, m * p, w, k), p, q), m)
  {
    hide Roots.Lawful, Cpx.Mul, Sum, Term;
    var short, turn := Term(x[q * stride..], stride * p, m, w, k % m), w.at(k * q, m * p);
    var comb := Comb(Term(x, stride, m * p, w, k), p, q);
    forall j | 0 <= j < m ensures comb(j) == short(j).Mul(turn) {
      TurnedTerm(x, stride, w, k, q, j, m, p);
    }
    SumScaled(short, comb, turn, m);
  }

  /** The direct sum, for a prime length. */
  method DirectSum(x: seq<Cpx>, stride: nat, n: nat, w: Roots, k: nat) returns (acc: Cpx)
    requires n >= 1 && (n - 1) * stride < |x|
    ensures acc == Dft(x, stride, n, w, k)
  {
    hide Cpx.Add, Cpx.Mul;
    acc := ZERO;
    for j := 0 to n
      invariant acc == Sum(Term(x, stride, n, w, k), j)
    {
      MulLe(j, n - 1, stride);
      acc := acc.Add(x[j * stride].Mul(w.at(k * j, n)));
    }
  }

  /** The short transforms side by side, each m long. */
  ghost predicate Parts(x: seq<Cpx>, stride: nat, m: nat, p: nat, w: Roots, sub: seq<Cpx>, upto: nat) {
    |sub| == p * m && forall q, k :: 0 <= q < upto && 0 <= k < m ==> PartAt(x, stride, m, p, w, sub, q, k)
  }

  ghost predicate PartAt(x: seq<Cpx>, stride: nat, m: nat, p: nat, w: Roots, sub: seq<Cpx>, q: nat, k: nat) {
    && q * m + k < |sub| && q * stride <= |x|
    && sub[q * m + k] == Dft(x[q * stride..], stride * p, m, w, k)
  }

  /** One twiddled sum. */
  method CombineSum(sub: seq<Cpx>, m: nat, p: nat, w: Roots, k: nat, ghost x: seq<Cpx>, ghost stride: nat)
    returns (acc: Cpx)
    requires w.Lawful() && m > 0 && p > 0 && k < p * m && (m * p - 1) * stride < |x|
    requires Parts(x, stride, m, p, w, sub, p)
    ensures acc == Dft(x, stride, p * m, w, k)
  {
    hide Cpx.Add, Cpx.Mul, Roots.Lawful, Parts;
    var kmod := k % m;
    acc := ZERO;
    for q := 0 to p
      invariant acc == Sum(Turned(sub, m, p, w, k), q)
    {
      PlaceOf(q, kmod, m, p);
      PartsLength(x, stride, m, p, w, sub);
      acc := acc.Add(sub[q * m + kmod].Mul(w.at(k * q, p * m)));
    }
    assert m * p == p * m;
    TurnedParts(x, stride, m, p, w, sub, k);
    Combine(x, stride, w, k, m, p, m * p, stride * p, Turned(sub, m, p, w, k));
  }

  /** The short outputs for k, each turned by its twiddle. */
  ghost function Turned(sub: seq<Cpx>, m: nat, p: nat, w: Roots, k: nat): int -> Cpx
    requires m > 0
  {
    q => if 0 <= q * m + k % m < |sub| then sub[q * m + k % m].Mul(w.at(k * q, p * m)) else ZERO
  }

  lemma PartsLength(x: seq<Cpx>, stride: nat, m: nat, p: nat, w: Roots, sub: seq<Cpx>)
    requires Parts(x, stride, m, p, w, sub, p)
    ensures |sub| == p * m
  {
  }

  lemma TurnedParts(x: seq<Cpx>, stride: nat, m: nat, p: nat, w: Roots, sub: seq<Cpx>, k: nat)
    requires m > 0 && Parts(x, stride, m, p, w, sub, p)
    ensures forall q {:trigger Turned(sub, m, p, w, k)(q)} :: 0 <= q < p ==>
              PartOf(x, stride, w, k, m, m * p, stride * p, q, Turned(sub, m, p, w, k)(q))
  {
    hide Cpx.Mul, Dft, Roots.Lawful;
    assert m * p == p * m;
    forall q | 0 <= q < p
      ensures PartOf(x, stride, w, k, m, m * p, stride * p, q, Turned(sub, m, p, w, k)(q))
    {
      PlaceOf(q, k % m, m, p);
      assert PartAt(x, stride, m, p, w, sub, q, k % m);
    }
  }

  lemma PlaceOf(q: nat, k: nat, m: nat, p: nat)
    requires q < p && k < m
    ensures 0 <= q * m + k < p * m && q * m + m <= p * m
  {
    MulLe(q + 1, p, m);
    assert (q + 1) * m == q * m + m;
  }

  /** fftRec: the n outputs go to out from off on, and nothing else of it changes. */
  method FftRec(x: seq<Cpx>, stride: nat, n: nat, w: Roots, out: array<Cpx>, off: nat)
    requires n >= 1 && w.Lawful() && (n - 1) * stride < |x| && off + n <= out.Length
    modifies out
    ensures forall k :: 0 <= k < n ==> out[off + k] == Dft(x, stride, n, w, k)
    ensures forall i :: 0 <= i < out.Length && !(off <= i < off + n) ==> out[i] == old(out[i])
    decreases n, 0
  {
    hide Roots.Lawful, Dft, Parts;
    if n == 1 {
      OnePoint(x, stride, w);
      out[off] := x[0];
      return;
    }
    var p := SmallestFactor(n);
    if p == n {
      for k := 0 to n
        invariant forall j :: 0 <= j < k ==> out[off + j] == Dft(x, stride, n, w, j)
        invariant forall i :: 0 <= i < out.Length && !(off <= i < off + k) ==> out[i] == old(out[i])
      {
        out[off + k] := DirectSum(x, stride, n, w, k);
      }
      return;
    }
    var m := n / p;
    Factored(n, p);
    var sub := SubTransforms(x, stride, m, p, w);
    for k := 0 to n
      invariant forall j :: 0 <= j < k ==> out[off + j] == Dft(x, stride, n, w, j)
      invariant forall i :: 0 <= i < out.Length && !(off <= i < off + k) ==> out[i] == old(out[i])
    {
      out[off + k] := CombineSum(sub, m, p, w, k, x, stride);
    }
  }

  lemma Factored(n: nat, p: nat)
    requires LeastFactor(n, p) && p < n
    ensures 1 <= n / p < n && p * (n / p) == n && n / p * p == n
  {
    DivMod(n, p);
    if n / p >= n {
      MulLe(2, p, n / p);
    }
  }

  lemma OnePoint(x: seq<Cpx>, stride: nat, w: Roots)
    requires |x| > 0 && w.Lawful()
    ensures Dft(x, stride, 1, w, 0) == x[0]
  {
    hide Roots.Lawful, Cpx.Mul, Cpx.Add;
    TurnsAreOne(w, 1);
    var f := Term(x, stride, 1, w, 0);
    assert 0 * stride == 0;
    assert f(0) == x[0].Mul(ONE);
    MulOne(x[0]);
    assert Sum(f, 1) == Sum(f, 0).Add(f(0));
    AddLaws(f(0), ZERO, ZERO);
  }

  /** The recursive calls: p transforms of length m, over every p-th sample. */
  method SubTransforms(x: seq<Cpx>, stride: nat, m: nat, p: nat, w: Roots) returns (parts: seq<Cpx>)
    requires m >= 1 && p >= 2 && w.Lawful() && (m * p - 1) * stride < |x|
    ensures Parts(x, stride, m, p, w, parts, p)
    decreases m, 1
  {
    hide Roots.Lawful, Dft;
    var sub := new Cpx[p * m](i => ZERO);
    for q := 0 to p
      invariant Parts(x, stride, m, p, w, sub[..], q)
    {
      PlaceOf(q, 0, m, p);
      InRange(stride, q, m - 1, m, p);
      InRange(stride, q, 0, m, p);
      ghost var before := sub[..];
      FftRec(x[q * stride..], stride * p, m, w, sub, q * m);
      PartsNext(x, stride, m, p, w, before, sub[..], q);
    }
    parts := sub[..];
  }

  lemma PartsNext(x: seq<Cpx>, stride: nat, m: nat, p: nat, w: Roots, before: seq<Cpx>, after: seq<Cpx>, q: nat)
    requires q < p && m >= 1 && Parts(x, stride, m, p, w, before, q) && |after| == |before| && q * stride <= |x|
    requires q * m + m <= p * m
    requires forall k :: 0 <= k < m ==> after[q * m + k] == Dft(x[q * stride..], stride * p, m, w, k)
    requires forall i :: 0 <= i < |after| && !(q * m <= i < q * m + m) ==> after[i] == before[i]
    ensures Parts(x, stride, m, p, w, after, q + 1)
  {
    hide Dft, PartAt;
    forall r, k | 0 <= r < q + 1 && 0 <= k < m ensures PartAt(x, stride, m, p, w, after, r, k) {
      if r < q {
        assert PartAt(x, stride, m, p, w, before, r, k);
        SamePart(x, stride, m, p, w, before, after, q, r, k);
      } else {
        NewPart(x, stride, m, p, w, after, q, k);
      }
    }
  }

  lemma SamePart(x: seq<Cpx>, stride: nat, m: nat, p: nat, w: Roots, before: seq<Cpx>, after: seq<Cpx>,
                 q: nat, r: nat, k: nat)
    requires r < q && k < m && |after| == |before| && PartAt(x, stride, m, p, w, before, r, k)
    requires forall i :: 0 <= i < |after| && !(q * m <= i < q * m + m) ==> after[i] == before[i]
    ensures PartAt(x, stride, m, p, w, after, r, k)
  {
    hide Dft;
    PlaceOf(r, k, m, q);
  }

  lemma NewPart(x: seq<Cpx>, stride: nat, m: nat, p: nat, w: Roots, after: seq<Cpx>, q: nat, k: nat)
    requires k < m && q * m + m <= |after| && q * stride <= |x|
    requires forall i :: 0 <= i < m ==> after[q * m + i] == Dft(x[q * stride..], stride * p, m, w, i)
    ensures PartAt(x, stride, m, p, w, after, q, k)
  {
    hide Dft;
  }

  /** cfft: the whole transform. */
  method Cfft(input: seq<Cpx>, w: Roots) returns (out: seq<Cpx>)
    requires |input| >= 1 && w.Lawful()
    ensures |out| == |input| && forall k :: 0 <= k < |input| ==> out[k] == Dft(input, 1, |input|, w, k)
  {
    var a := new Cpx[|input|](i => ZERO);
    FftRec(input, 1, |input|, w, a, 0);
    out := a[..];
  }

  // ---- There and back ----

  /** Roots of unity in the strict sense: only whole turns are one. */
  ghost predicate Primitive(w: Roots, n: nat) {
    forall d :: 0 < d < n ==> w.at(d, n) != ONE
  }

  /** The opposite sign: every angle negated. */
  function Opposite(w: Roots): Roots {
    Roots((a, n) => w.at(-a, n))
  }

  lemma FixedIsZero(a: Cpx, s: Cpx)
    requires a != ONE && a.Mul(s) == s
    ensures s == ZERO
  {
    FixedParts(a.re - 1.0, a.im, s.re, s.im);
  }

  lemma FixedParts(u: real, v: real, p: real, q: real)
    requires u * p == v * q && u * q == -(v * p) && (u != 0.0 || v != 0.0)
    ensures p == 0.0 && q == 0.0
  {
    var z := SquareSum(u, v);
    SquareTimes(u, v, p, q);
    ZeroProduct(z, p);
    ZeroProduct(z, q);
  }

  function SquareSum(u: real, v: real): real {
    Times(u, u) + Times(v, v)
  }

  lemma SquareTimes(u: real, v: real, p: real, q: real)
    requires u * p == v * q && u * q == -(v * p) && (u != 0.0 || v != 0.0)
    ensures SquareSum(u, v) != 0.0 && SquareSum(u, v) * p == 0.0 && SquareSum(u, v) * q == 0.0
  {
    NotBothZero(u, v);
    assert SquareSum(u, v) * p == 0.0 by {
      RealSquares(u, v, p);
      assert u * (u * p) == u * (v * q) && v * (v * p) == -(v * (u * q));
      assert u * (v * q) == v * (u * q);
    }
    assert SquareSum(u, v) * q == 0.0 by {
      RealSquares(u, v, q);
      assert v * (v * q) == v * (u * p) && u * (u * q) == -(u * (v * p));
      assert v * (u * p) == u * (v * p);
    }
  }

  lemma RealSquares(u: real, v: real, t: real)
    ensures SquareSum(u, v) * t == u * (u * t) + v * (v * t)
  {
  }

  lemma NotBothZero(u: real, v: real)
    requires u != 0.0 || v != 0.0
    ensures SquareSum(u, v) > 0.0
  {
    hide Times;
    SquarePositive(u);
    SquarePositive(v);
  }

  ghost function Turning(w: Roots, d: int, n: int): int -> Cpx {
    k => w.at(k * d, n)
  }

  /** Points evenly spread round the circle cancel. */
  lemma SpreadCancels(w: Roots, d: int, n: nat)
    requires w.Lawful() && n > 0 && w.at(d, n) != ONE
    ensures Sum(Turning(w, d, n), n) == ZERO
  {
    hide Roots.Lawful, Cpx.Mul, Cpx.Add;
    var f, a := Turning(w, d, n), w.at(d, n);
    var g := k => w.at((k + 1) * d, n);
    forall k | 0 <= k < n ensures g(k) == f(k).Mul(a) {
      AnglesAdd(w, k * d, d, n);
      assert k * d + d == (k + 1) * d;
    }
    SumScaled(f, g, a, n);
    SumSplit(f, 1, n);
    SumSame(j => f(1 + j), g, n);
    assert Sum(f, 1 + n) == Sum(f, n).Add(f(n));
    assert Sum(f, 1) == Sum(f, 0).Add(f(0));
    TurnsAreOne(w, n);
    AnyTurns(w, d, n);
    Shifted(Sum(f, n), Sum(g, n));
    AddLaws(Sum(f, n), a, a);
    FixedIsZero(a, Sum(f, n));
  }

  lemma Shifted(s: Cpx, t: Cpx)
    requires s.Add(ONE) == ZERO.Add(ONE).Add(t)
    ensures s == t
  {
  }

  lemma AnyTurns(w: Roots, d: int, n: nat)
    requires w.Lawful() && n > 0
    ensures w.at(n * d, n) == ONE && w.at(0 * d, n) == ONE
  {
    hide Roots.Lawful, Cpx.Mul;
    TurnsAreOne(w, n);
    if d >= 0 {
      WholeTurns(w, 0, n, d);
      assert 0 + d * n == n * d;
    } else {
      WholeTurns(w, n * d, n, -d);
      assert n * d + -d * n == 0;
    }
  }

  ghost function Row(f: (int, int) -> Cpx, k: int): int -> Cpx {
    j => f(k, j)
  }

  ghost function Col(f: (int, int) -> Cpx, j: int): int -> Cpx {
    k => f(k, j)
  }

  ghost function RowSums(f: (int, int) -> Cpx, n: nat): int -> Cpx {
    k => Sum(Row(f, k), n)
  }

  ghost function ColSums(f: (int, int) -> Cpx, m: nat): int -> Cpx {
    j => Sum(Col(f, j), m)
  }

  /** A double sum may be taken in either order. */
  lemma {:induction false} SumSwap(f: (int, int) -> Cpx, m: nat, n: nat)
    ensures Sum(RowSums(f, n), m) == Sum(ColSums(f, m), n)
    decreases m
  {
    hide Cpx.Add;
    if m == 0 {
      SumZeros(ColSums(f, 0), n);
    } else {
      SumSwap(f, m - 1, n);
      SumAdd(ColSums(f, m - 1), Row(f, m - 1), ColSums(f, m), n);
    }
  }

  /** Sample j's part in output k of the forward transform, turned back by k * l. */
  ghost function Cross(x: seq<Cpx>, w: Roots, l: int): (int, int) -> Cpx {
    (k, j) => if 0 <= j < |x| then x[j].Mul(w.at(k * (j - l), |x|)) else ZERO
  }

  /** Transforming back with the opposite sign gives every sample, |x| times over. */
  lemma ThereAndBack(x: seq<Cpx>, spec: seq<Cpx>, w: Roots, l: nat)
    requires w.Lawful() && Primitive(w, |x|) && |spec| == |x| && l < |x|
    requires forall k :: 0 <= k < |x| ==> spec[k] == Dft(x, 1, |x|, w, k)
    ensures Dft(spec, 1, |x|, Opposite(w), l) == x[l].Mul(Cpx(|x| as real, 0.0))
  {
    hide Roots.Lawful, Primitive, Cpx.Mul, Cpx.Add, Sum;
    var n, c := |x|, Cross(x, w, l);
    forall k | 0 <= k < n ensures Term(spec, 1, n, Opposite(w), l)(k) == RowSums(c, n)(k) {
      TurnedBack(x, w, k, l);
      assert k * 1 == k && -(l * k) == -(k * l);
    }
    SumSame(Term(spec, 1, n, Opposite(w), l), RowSums(c, n), n);
    SumSwap(c, n, n);
    forall j | 0 <= j < n ensures ColSums(c, n)(j) == (if j == l then x[l].Mul(Cpx(n as real, 0.0)) else ZERO) {
      Column(x, w, j, l);
    }
    OneTerm(ColSums(c, n), l, x[l].Mul(Cpx(n as real, 0.0)), n);
  }

  lemma TurnedBack(x: seq<Cpx>, w: Roots, k: nat, l: nat)
    requires w.Lawful() && k < |x| && l < |x|
    ensures Dft(x, 1, |x|, w, k).Mul(w.at(-(k * l), |x|)) == Sum(Row(Cross(x, w, l), k), |x|)
  {
    hide Roots.Lawful, Cpx.Mul, Cpx.Add, Sum;
    var n, f := |x|, Term(x, 1, |x|, w, k);
    var g := Row(Cross(x, w, l), k);
    forall j | 0 <= j < n ensures g(j) == f(j).Mul(w.at(-(k * l), n)) {
      CrossTerm(x, w, k, j, l);
    }
    SumScaled(f, g, w.at(-(k * l), n), n);
  }

  lemma CrossTerm(x: seq<Cpx>, w: Roots, k: nat, j: nat, l: nat)
    requires w.Lawful() && k < |x| && j < |x|
    ensures Cross(x, w, l)(k, j) == Term(x, 1, |x|, w, k)(j).Mul(w.at(-(k * l), |x|))
    ensures Cross(x, w, l)(k, j) == Turning(w, j - l, |x|)(k).Mul(x[j])
  {
    hide Roots.Lawful, Cpx.Mul;
    var n, a, b := |x|, k * j, -(k * l);
    assert j * 1 == j;
    assert a + b == k * (j - l);
    MulAssociative(x[j], w.at(a, n), w.at(b, n));
    AnglesAdd(w, a, b, n);
    AddLaws(x[j], w.at(k * (j - l), n), ZERO);
  }

  /** Over all outputs, sample j adds up to itself n times if it is the one asked for, and to nothing if not. */
  lemma Column(x: seq<Cpx>, w: Roots, j: nat, l: nat)
    requires w.Lawful() && Primitive(w, |x|) && j < |x| && l < |x|
    ensures ColSums(Cross(x, w, l), |x|)(j) == if j == l then x[l].Mul(Cpx(|x| as real, 0.0)) else ZERO
  {
    hide Roots.Lawful, Cpx.Mul, Cpx.Add, Sum;
    var n, t := |x|, Turning(w, j - l, |x|);
    var g := Col(Cross(x, w, l), j);
    forall k | 0 <= k < n ensures g(k) == t(k).Mul(x[j]) {
      CrossTerm(x, w, k, j, l);
    }
    SumScaled(t, g, x[j], n);
    if j == l {
      AllOnes(w, t, n);
      AddLaws(x[l], Cpx(n as real, 0.0), ZERO);
    } else {
      NotATurn(w, j - l, n);
      SpreadCancels(w, j - l, n);
      AddLaws(x[j], ZERO, ZERO);
    }
  }

  lemma NotATurn(w: Roots, d: int, n: nat)
    requires w.Lawful() && Primitive(w, n) && d != 0 && 0 < d + n && d < n
    ensures w.at(d, n) != ONE
  {
    hide Roots.Lawful, Cpx.Mul;
    if d < 0 {
      AnglesAdd(w, d, n, n);
      TurnsAreOne(w, n);
      MulOne(w.at(d, n));
    }
  }

  lemma AllOnes(w: Roots, t: int -> Cpx, n: nat)
    requires w.Lawful() && n > 0 && t == Turning(w, 0, n)
    ensures Sum(t, n) == Cpx(n as real, 0.0)
  {
    hide Roots.Lawful;
    TurnsAreOne(w, n);
    forall k | 0 <= k < n ensures t(k) == ONE {
      assert k * 0 == 0;
    }
    SumOnes(t, n);
  }

  lemma {:induction false} SumOnes(f: int -> Cpx, n: nat)
    requires forall k :: 0 <= k < n ==> f(k) == ONE
    ensures Sum(f, n) == Cpx(n as real, 0.0)
  {
    if n > 0 {
      SumOnes(f, n - 1);
    }
  }

  lemma {:induction false} OneTerm(f: int -> Cpx, l: nat, c: Cpx, n: nat)
    requires forall j :: 0 <= j < n ==> f(j) == (if j == l then c else ZERO)
    ensures Sum(f, n) == if l < n then c else ZERO
  {
    if n > 0 {
      OneTerm(f, l, c, n - 1);
    }
  }
}
