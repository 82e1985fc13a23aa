/**
 * What the operations on linear predictors of src/voip/media/mlow/lpc.go do to the filter itself,
 * as laws of the value 1 + sum of p[i] z^(i + 1) at every z.
 */
module LpcMeaning {
  import opened Reals
  import opened Lpc
  import opened LspPolynomials

  /** The first n terms of the filter at z. */
  function Partly(p: seq<real>, z: real, n: nat): real
    requires n <= |p|
  {
    if n == 0 then 1.0 else Partly(p, z, n - 1) + Times(p[n - 1], Pow(z, n))
  }

  function Value(p: seq<real>, z: real): real {
    Partly(p, z, |p|)
  }

  // ---- Bandwidth expansion ----

  lemma {:induction false} PowerProduct(b: real, z: real, n: nat)
    ensures Times(Power(b, n), Pow(z, n)) == Pow(Times(b, z), n)
  {
    hide Times;
    if n == 0 {
      One(1.0);
    } else {
      PowerProduct(b, z, n - 1);
      TimesSwap(Power(b, n - 1), b, 0.0);
      Regroup(b, Power(b, n - 1), z, Pow(z, n - 1));
    }
  }

  lemma {:induction false} ExpandPartly(p: seq<real>, b: real, z: real, n: nat)
    requires n <= |p|
    ensures Partly(Expand(p, b), z, n) == Partly(p, Times(b, z), n)
  {
    hide Times, Power, Pow;
    if n > 0 {
      ExpandPartly(p, b, z, n - 1);
      PowerProduct(b, z, n);
      TimesSwap(p[n - 1], Power(b, n), Pow(z, n));
    }
  }

  /** The expanded filter at z is the filter at bwe * z. */
  lemma ExpandValue(p: seq<real>, b: real, z: real)
    ensures Value(Expand(p, b), z) == Value(p, Times(b, z))
  {
    ExpandPartly(p, b, z, |p|);
  }

  /** The product of the factors of the first n rounds: 0.999, 0.998 and so on. */
  function Factors(n: nat): real {
    if n == 0 then 1.0 else Times(Factors(n - 1), 1.0 - n as real * 0.001)
  }

  /** What lpcStabilize leaves after n rounds, at z, is the filter it was given at their product times z. */
  lemma {:induction false} ShrunkValue(p: seq<real>, n: nat, z: real)
    ensures Value(Shrunk(p, n), z) == Value(p, Times(Factors(n), z))
  {
    hide Times, Value, Expand;
    if n == 0 {
      One(z);
      ShrunkZero(p);
    } else {
      var f := 1.0 - n as real * 0.001;
      ShrunkNext(p, n);
      ExpandValue(Shrunk(p, n - 1), f, z);
      ShrunkValue(p, n - 1, Times(f, z));
      TimesSwap(Factors(n - 1), f, z);
    }
  }

  // ---- Step-up ----

  /** Coefficients k and on, on falling powers. */
  function Falling(p: seq<real>, z: real, k: nat): real
    requires k <= |p|
    decreases |p| - k
  {
    if k == |p| then 0.0 else Times(p[k], Pow(z, |p| - k)) + Falling(p, z, k + 1)
  }

  lemma {:induction false} StepUpPartly(p: seq<real>, r: real, z: real, n: nat)
    requires n <= |p|
    ensures Partly(StepUp(p, r), z, n) == Partly(p, z, n) + Times(r, Falling(p, z, |p| - n))
  {
    hide Times, Pow;
    if n == 0 {
      TimesZero(r);
    } else {
      StepUpPartly(p, r, z, n - 1);
      var y, power := p[|p| - n], Pow(z, n);
      LiftIs(p[n - 1], y, r);
      TimesAdd(p[n - 1], Times(r, y), power);
      TimesSwap(r, y, power);
      TimesAdd(Times(y, power), Falling(p, z, |p| - n + 1), r);
    }
  }

  lemma LiftIs(x: real, y: real, r: real)
    ensures Lift(x, y, r) == x + Times(r, y)
  {
  }

  /** Falling powers of z are rising powers of its inverse. */
  lemma {:induction false} FallingInverse(p: seq<real>, z: real, w: real, n: nat)
    requires n <= |p| && Times(z, w) == 1.0
    ensures Times(Pow(z, |p| + 1), Partly(p, w, n)) + Falling(p, z, n) == Pow(z, |p| + 1) + Falling(p, z, 0)
  {
    hide Times, Pow;
    var top := Pow(z, |p| + 1);
    if n == 0 {
      One(top);
    } else {
      FallingInverse(p, z, w, n - 1);
      var c := p[n - 1];
      TimesAdd(Partly(p, w, n - 1), Times(c, Pow(w, n)), top);
      TimesSwap(top, c, Pow(w, n));
      PowAdd(z, |p| + 1 - n, n);
      TimesSwap(Pow(z, |p| + 1 - n), Pow(z, n), Pow(w, n));
      PowInverse(z, w, n);
      One(Pow(z, |p| + 1 - n));
    }
  }

  /**
   * One step of rc2a: the new filter is the old one plus the reflection coefficient times its mirror
   * image, the filter at 1/z shifted by one power more than its order.
   */
  lemma StepUpValue(p: seq<real>, r: real, z: real, w: real)
    requires Times(z, w) == 1.0
    ensures Value(StepUp(p, r), z) == Value(p, z) + Times(r, Times(Pow(z, |p| + 1), Value(p, w)))
  {
    hide Times, Pow;
    StepUpPartly(p, r, z, |p|);
    FallingInverse(p, z, w, |p|);
    var top := Pow(z, |p| + 1);
    TimesAdd(Falling(p, z, 0), top, r);
  }
}
