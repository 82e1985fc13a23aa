/**
 * Why the search never divides by zero: its Toeplitz form is the autocorrelation of an impulse
 * response, so the energy of a pulse vector is the sum of the squares of its filtered samples.
 */
module FcbPositive {
  import opened Reals
  import opened FcbEnergy
  import opened FcbSearch

  function Sum(f: int -> real, n: nat): real {
    if n == 0 then 0.0 else Sum(f, n - 1) + f(n - 1)
  }

  lemma {:induction false} SumSame(f: int -> real, g: int -> real, n: nat)
    requires forall t :: 0 <= t < n ==> f(t) == g(t)
    ensures Sum(f, n) == Sum(g, n)
  {
    if n > 0 {
      SumSame(f, g, n - 1);
    }
  }

  lemma {:induction false} SumLinear(f: int -> real, g: int -> real, h: int -> real, c: real, n: nat)
    requires forall t :: 0 <= t < n ==> h(t) == f(t) + Times(c, g(t))
    ensures Sum(h, n) == Sum(f, n) + Times(c, Sum(g, n))
  {
    hide Times;
    if n == 0 {
      TimesZero(c);
    } else {
      SumLinear(f, g, h, c, n - 1);
      TimesAdd(Sum(g, n - 1), g(n - 1), c);
    }
  }

  lemma {:induction false} SumZero(f: int -> real, n: nat)
    requires forall t :: 0 <= t < n ==> f(t) == 0.0
    ensures Sum(f, n) == 0.0
  {
    if n > 0 {
      SumZero(f, n - 1);
    }
  }

  lemma {:induction false} SumNatural(f: int -> real, n: nat)
    requires forall t :: 0 <= t < n ==> f(t) >= 0.0
    ensures Sum(f, n) >= 0.0
  {
    if n > 0 {
      SumNatural(f, n - 1);
    }
  }

  function Shifted(f: int -> real, a: int): int -> real {
    j => f(a + j)
  }

  lemma {:induction false} SumSplit(f: int -> real, a: nat, b: nat)
    ensures Sum(f, a + b) == Sum(f, a) + Sum(Shifted(f, a), b)
  {
    if b > 0 {
      SumSplit(f, a, b - 1);
    }
  }

  // ---- The response and its autocorrelation ----

  /** h(t - a) * h(t - b): the response from a against the response from b. */
  function Pair(h: seq<real>, a: int, b: int): int -> real {
    t => Times(At(h)(t - a), At(h)(t - b))
  }

  /** The autocorrelation at distance k. */
  function Auto(h: seq<real>, k: int): real {
    Sum(Pair(h, 0, 0 - k), |h|)
  }

  function Autocorrelation(h: seq<real>): (phi: seq<real>)
    ensures |phi| == |h|
  {
    seq(|h|, k requires 0 <= k < |h| => Auto(h, k))
  }

  /** Beyond the response nothing overlaps. */
  lemma PhiIsAuto(h: seq<real>, k: nat)
    ensures Phi(Autocorrelation(h), k) == Auto(h, k)
  {
    hide Times;
    if k >= |h| {
      var f := Pair(h, 0, 0 - k);
      forall j | 0 <= j < |h| ensures f(j) == 0.0 {
        TimesZero(At(h)(j - 0));
      }
      SumZero(f, |h|);
    }
  }

  /** Two responses overlap by the autocorrelation at their distance. */
  lemma Overlap(h: seq<real>, a: nat, b: nat, n: nat)
    requires a < n && b < n
    ensures Sum(Pair(h, b, a), n + |h|) == Phi(Autocorrelation(h), b - a)
  {
    hide Times, Sum, Phi, Autocorrelation;
    if a <= b {
      Ordered(h, a, b, n);
    } else {
      Ordered(h, b, a, n);
      PairSwap(h, a, b, n + |h|);
      PhiEven(Autocorrelation(h), b - a);
    }
  }

  lemma PairSwap(h: seq<real>, a: nat, b: nat, m: nat)
    ensures Sum(Pair(h, b, a), m) == Sum(Pair(h, a, b), m)
  {
    hide Times, Sum;
    forall t | 0 <= t < m ensures Pair(h, b, a)(t) == Pair(h, a, b)(t) {
      TimesSwap(At(h)(t - b), At(h)(t - a), 0.0);
    }
    SumSame(Pair(h, b, a), Pair(h, a, b), m);
  }

  lemma Ordered(h: seq<real>, a: nat, b: nat, n: nat)
    requires a <= b < n
    ensures Sum(Pair(h, b, a), n + |h|) == Phi(Autocorrelation(h), b - a)
  {
    hide Times, Sum, Phi, Autocorrelation;
    var f := Pair(h, b, a);
    BeforeStart(h, a, b);
    SumSplit(f, b, n + |h| - b);
    FromStart(h, a, b, n - b);
    PhiIsAuto(h, b - a);
  }

  lemma BeforeStart(h: seq<real>, a: nat, b: nat)
    requires a <= b
    ensures Sum(Pair(h, b, a), b) == 0.0
  {
    hide Times, Sum;
    var f := Pair(h, b, a);
    forall t | 0 <= t < b ensures f(t) == 0.0 {
      TimesZero(At(h)(t - a));
    }
    SumZero(f, b);
  }

  lemma FromStart(h: seq<real>, a: nat, b: nat, r: nat)
    requires a <= b
    ensures Sum(Shifted(Pair(h, b, a), b), |h| + r) == Auto(h, b - a)
  {
    hide Times, Sum, Shifted;
    var g := Shifted(Pair(h, b, a), b);
    SumSplit(g, |h|, r);
    WholeResponse(h, a, b);
    PastResponse(h, a, b, r);
  }

  lemma WholeResponse(h: seq<real>, a: nat, b: nat)
    requires a <= b
    ensures Sum(Shifted(Pair(h, b, a), b), |h|) == Auto(h, b - a)
  {
    hide Times, Sum, At;
    var g, e := Shifted(Pair(h, b, a), b), Pair(h, 0, 0 - (b - a));
    forall j | 0 <= j < |h| ensures g(j) == e(j) {
      assert b + j - b == j - 0 && b + j - a == j - (0 - (b - a));
    }
    SumSame(g, e, |h|);
  }

  lemma PastResponse(h: seq<real>, a: nat, b: nat, r: nat)
    ensures Sum(Shifted(Shifted(Pair(h, b, a), b), |h|), r) == 0.0
  {
    hide Times, Sum;
    var tail := Shifted(Shifted(Pair(h, b, a), b), |h|);
    forall j | 0 <= j < r ensures tail(j) == 0.0 {
      TimesZero(At(h)(b + (|h| + j) - a));
    }
    SumZero(tail, r);
  }

  // ---- The filtered pulses ----

  function Response(h: seq<real>, t: int): int -> real {
    a => At(h)(t - a)
  }

  /** Sample t of the filtered vector, its first n places counted. */
  function Filtered(h: seq<real>, v: seq<real>, n: nat): int -> real
    requires n <= |v|
  {
    t => Dot(v, Response(h, t), n)
  }

  function Product(f: int -> real, g: int -> real): int -> real {
    t => Times(f(t), g(t))
  }

  /** h(t - a) as a function of t. */
  function Delayed(h: seq<real>, a: int): int -> real {
    t => At(h)(t - a)
  }

  /** Filtering, then weighing by w, is weighing every place by w filtered back. */
  function Back(h: seq<real>, w: int -> real, m: nat): int -> real {
    a => Sum(Product(Delayed(h, a), w), m)
  }

  lemma {:induction false} Adjoint(h: seq<real>, v: seq<real>, w: int -> real, n: nat, m: nat)
    requires n <= |v|
    ensures Sum(Product(Filtered(h, v, n), w), m) == Dot(v, Back(h, w, m), n)
    decreases n
  {
    hide Times;
    var f := Product(Filtered(h, v, n), w);
    if n == 0 {
      forall t | 0 <= t < m ensures f(t) == 0.0 {
        TimesZero(w(t));
      }
      SumZero(f, m);
    } else {
      Adjoint(h, v, w, n - 1, m);
      var x := v[n - 1];
      forall t | 0 <= t < m
        ensures f(t) == Product(Filtered(h, v, n - 1), w)(t) + Times(x, Product(Delayed(h, n - 1), w)(t))
      {
        TimesAdd(Dot(v, Response(h, t), n - 1), Times(x, At(h)(t - (n - 1))), w(t));
        TimesSwap(x, At(h)(t - (n - 1)), w(t));
      }
      SumLinear(Product(Filtered(h, v, n - 1), w), Product(Delayed(h, n - 1), w), f, x, m);
    }
  }

  /** The energy of v under the autocorrelation of h is the energy of v filtered by h. */
  lemma EnergyOfFiltered(h: seq<real>, v: seq<real>)
    ensures Energy(Autocorrelation(h), v)
            == Sum(Product(Filtered(h, v, |v|), Filtered(h, v, |v|)), |v| + |h|)
  {
    hide Times, Phi, Sum;
    var n, m, phi := |v|, |v| + |h|, Autocorrelation(h);
    var y := Filtered(h, v, n);
    Adjoint(h, v, y, n, m);
    forall a | 0 <= a < n ensures Back(h, y, m)(a) == FieldOf(phi, v)(a) {
      BackIsField(h, v, a);
    }
    DotSame(v, Back(h, y, m), FieldOf(phi, v), n);
  }

  lemma BackIsField(h: seq<real>, v: seq<real>, a: nat)
    requires a < |v|
    ensures Back(h, Filtered(h, v, |v|), |v| + |h|)(a) == Field(Autocorrelation(h), v, a)
  {
    hide Times, Phi, Sum;
    var n, m, phi, e := |v|, |v| + |h|, Autocorrelation(h), Delayed(h, a);
    var y := Filtered(h, v, n);
    forall t | 0 <= t < m ensures Product(e, y)(t) == Product(y, e)(t) {
      TimesSwap(e(t), y(t), 0.0);
    }
    SumSame(Product(e, y), Product(y, e), m);
    Adjoint(h, v, e, n, m);
    forall b | 0 <= b < n ensures Back(h, e, m)(b) == From(phi, a)(b) {
      SumSame(Product(Delayed(h, b), e), Pair(h, b, a), m);
      Overlap(h, a, b, n);
    }
    DotSame(v, Back(h, e, m), From(phi, a), n);
  }

  /** An autocorrelation is a positive form, on vectors of any length. */
  lemma AutocorrelationPositive(h: seq<real>, n: nat)
    ensures Positive(Autocorrelation(h), n)
  {
    hide Times, Energy, Sum, Autocorrelation, Filtered;
    forall v: seq<real> | |v| == n ensures Energy(Autocorrelation(h), v) >= 0.0 {
      EnergyOfFiltered(h, v);
      var y := Filtered(h, v, |v|);
      forall t | 0 <= t < |v| + |h| ensures Product(y, y)(t) >= 0.0 {
        SquarePositive(y(t));
      }
      SumNatural(Product(y, y), |v| + |h|);
    }
  }
}
