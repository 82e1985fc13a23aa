/**
 * The energies behind the fixed-codebook search of src/voip/media/mlow/celp_enc.go, over the
 * reals: the correlation of a pulse vector with the target, and its energy under the symmetric
 * Toeplitz form that the weighting filter gives.
 */
module FcbEnergy {
  import opened Reals

  /** The Toeplitz form's entry at distance k; nothing reaches beyond the response. */
  function Phi(phi: seq<real>, k: int): real {
    if k < 0 then (if -k < |phi| then phi[-k] else 0.0) else (if k < |phi| then phi[k] else 0.0)
  }

  // ---- Weighted sums ----

  /** The sum of v[a] * g(a) over a < n. */
  function Dot(v: seq<real>, g: int -> real, n: nat): real
    requires n <= |v|
  {
    if n == 0 then 0.0 else Dot(v, g, n - 1) + Times(v[n - 1], g(n - 1))
  }

  lemma {:induction false} DotSame(v: seq<real>, g: int -> real, h: int -> real, n: nat)
    requires n <= |v| && forall a :: 0 <= a < n ==> g(a) == h(a)
    ensures Dot(v, g, n) == Dot(v, h, n)
  {
    hide Times;
    if n > 0 {
      DotSame(v, g, h, n - 1);
    }
  }

  lemma {:induction false} DotLinear(v: seq<real>, g: int -> real, h: int -> real, k: int -> real, c: real, n: nat)
    requires n <= |v| && forall a :: 0 <= a < n ==> k(a) == g(a) + Times(c, h(a))
    ensures Dot(v, k, n) == Dot(v, g, n) + Times(c, Dot(v, h, n))
  {
    hide Times;
    if n == 0 {
      TimesZero(c);
    } else {
      DotLinear(v, g, h, k, c, n - 1);
      TimesAdd(g(n - 1), Times(c, h(n - 1)), v[n - 1]);
      TimesSwap(v[n - 1], c, h(n - 1));
      TimesAdd(Dot(v, h, n - 1), Times(v[n - 1], h(n - 1)), c);
    }
  }

  // ---- Pulses ----

  /** One more pulse of amplitude s at p. */
  function AddPulse(v: seq<real>, p: int, s: real): (w: seq<real>)
    requires 0 <= p < |v|
    ensures |w| == |v|
  {
    v[p := v[p] + s]
  }

  lemma {:induction false} DotPulse(v: seq<real>, p: nat, s: real, g: int -> real, n: nat)
    requires p < |v| && n <= |v|
    ensures Dot(AddPulse(v, p, s), g, n) == Dot(v, g, n) + if p < n then Times(s, g(p)) else 0.0
  {
    hide Times;
    if n > 0 {
      DotPulse(v, p, s, g, n - 1);
      TimesAdd(v[p], s, g(p));
    }
  }

  /** The vector a list of pulse positions builds, each with the sign of its place. */
  function Built(ps: seq<int>, sign: seq<real>): (v: seq<real>)
    requires forall k :: 0 <= k < |ps| ==> 0 <= ps[k] < |sign|
    ensures |v| == |sign|
  {
    if |ps| == 0 then seq(|sign|, i => 0.0)
    else AddPulse(Built(ps[..|ps| - 1], sign), ps[|ps| - 1], sign[ps[|ps| - 1]])
  }

  // ---- Correlation and energy ----

  function At(d: seq<real>): int -> real {
    a => if 0 <= a < |d| then d[a] else 0.0
  }

  /** The correlation of v with the target d. */
  function Corr(d: seq<real>, v: seq<real>): real {
    Dot(v, At(d), |v|)
  }

  function From(phi: seq<real>, p: int): int -> real {
    a => Phi(phi, a - p)
  }

  /** The form applied to v, at place p. */
  function Field(phi: seq<real>, v: seq<real>, p: int): real {
    Dot(v, From(phi, p), |v|)
  }

  function FieldOf(phi: seq<real>, v: seq<real>): int -> real {
    b => Field(phi, v, b)
  }

  /** The full quadratic form: the sum of v[a] * v[b] * phi(|a - b|). */
  function Energy(phi: seq<real>, v: seq<real>): real {
    Dot(v, FieldOf(phi, v), |v|)
  }

  lemma CorrPulse(d: seq<real>, v: seq<real>, p: nat, s: real)
    requires p < |v| == |d|
    ensures Corr(d, AddPulse(v, p, s)) == Corr(d, v) + Times(s, d[p])
  {
    hide Times;
    DotPulse(v, p, s, At(d), |v|);
  }

  lemma FieldPulse(phi: seq<real>, v: seq<real>, p: nat, s: real, b: int)
    requires p < |v|
    ensures Field(phi, AddPulse(v, p, s), b) == Field(phi, v, b) + Times(s, Phi(phi, p - b))
  {
    hide Times, Phi;
    DotPulse(v, p, s, From(phi, b), |v|);
  }

  /** What one more pulse does to the energy. */
  lemma EnergyPulse(phi: seq<real>, v: seq<real>, p: nat, s: real)
    requires p < |v|
    ensures Energy(phi, AddPulse(v, p, s))
            == Energy(phi, v) + Times(s, Field(phi, v, p)) + Times(s, Field(phi, v, p))
               + Times(s, Times(s, Phi(phi, 0)))
  {
    hide Times, Phi;
    var w, n := AddPulse(v, p, s), |v|;
    forall b | 0 <= b < n ensures FieldOf(phi, w)(b) == FieldOf(phi, v)(b) + Times(s, From(phi, p)(b)) {
      FieldPulse(phi, v, p, s, b);
      PhiEven(phi, p - b);
    }
    DotLinear(w, FieldOf(phi, v), From(phi, p), FieldOf(phi, w), s, n);
    DotPulse(v, p, s, FieldOf(phi, v), n);
    FieldPulse(phi, v, p, s, p);
    TimesAdd(Field(phi, v, p), Times(s, Phi(phi, p - p)), s);
  }

  lemma PhiEven(phi: seq<real>, k: int)
    ensures Phi(phi, k) == Phi(phi, -k)
  {
  }

  predicate IsSign(s: real) {
    s == 1.0 || s == -1.0
  }

  lemma SignTwice(s: real, x: real)
    requires IsSign(s)
    ensures Times(s, Times(s, x)) == x
  {
  }

  lemma PulsesCommute(v: seq<real>, p: nat, s: real, i: nat, t: real)
    requires p < |v| && i < |v|
    ensures AddPulse(AddPulse(v, p, s), i, t) == AddPulse(AddPulse(v, i, t), p, s)
  {
    assert v[p] + s + t == v[p] + t + s;
  }

  /**
   * The incremental step: with a pulse at p joining v, the energy of v plus a trial pulse at i
   * grows by an amount common to every i and one that depends only on the distance from p.
   */
  lemma TrialEnergy(phi: seq<real>, v: seq<real>, p: nat, s: real, i: nat, t: real)
    requires p < |v| && i < |v| && IsSign(s)
    ensures Energy(phi, AddPulse(AddPulse(v, p, s), i, t))
            == Energy(phi, AddPulse(v, i, t))
               + (2.0 * Times(s, Field(phi, v, p)) + Phi(phi, 0))
               + 2.0 * Times(s, Times(t, Phi(phi, i - p)))
  {
    hide Times, Phi;
    PulsesCommute(v, p, s, i, t);
    var w := AddPulse(v, i, t);
    EnergyPulse(phi, w, p, s);
    FieldPulse(phi, v, i, t, p);
    TimesAdd(Field(phi, v, p), Times(t, Phi(phi, i - p)), s);
    SignTwice(s, Phi(phi, 0));
  }

  /** The energy of a single pulse is the same everywhere. */
  lemma FirstEnergy(phi: seq<real>, v: seq<real>, i: nat, t: real)
    requires i < |v| && IsSign(t) && forall a :: 0 <= a < |v| ==> v[a] == 0.0
    ensures Energy(phi, AddPulse(v, i, t)) == Phi(phi, 0)
  {
    hide Times, Phi;
    DotZero(v, FieldOf(phi, v), |v|);
    DotZero(v, From(phi, i), |v|);
    EnergyPulse(phi, v, i, t);
    TimesZero(t);
    SignTwice(t, Phi(phi, 0));
  }

  lemma {:induction false} DotZero(v: seq<real>, g: int -> real, n: nat)
    requires n <= |v| && forall a :: 0 <= a < |v| ==> v[a] == 0.0
    ensures Dot(v, g, n) == 0.0
  {
    hide Times;
    if n > 0 {
      DotZero(v, g, n - 1);
      TimesZero(g(n - 1));
    }
  }
}
