/**
 * Linear-prediction stability (src/voip/media/mlow/lpc.go), over the reals: step-up from
 * reflection coefficients, the step-down test, and bandwidth expansion until the test passes.
 */
module Lpc {
  import opened Reals

  /** The greatest square of a reflection coefficient that counts as stable. */
  const MAX_RC_STABLE := 0.9995

  // ---- Step-up and step-down ----

  /** A coefficient x raised by its mirror image y. */
  function Lift(x: real, y: real, r: real): real {
    x + y * r
  }

  /** And lowered again. */
  function Drop(x: real, y: real, r: real, inv: real): real {
    (x - r * y) * inv
  }

  /** One more reflection coefficient on a predictor without its leading 1. */
  function StepUp(p: seq<real>, r: real): (q: seq<real>)
    ensures |q| == |p| + 1
  {
    seq(|p|, i requires 0 <= i < |p| => Lift(p[i], p[|p| - 1 - i], r)) + [r]
  }

  function Den(r: real): real {
    1.0 - Times(r, r)
  }

  /** One reflection coefficient fewer. */
  function StepDown(p: seq<real>): (q: seq<real>)
    requires |p| > 0 && Den(p[|p| - 1]) != 0.0
    ensures |q| == |p| - 1
  {
    var m := |p| - 1;
    seq(m, i requires 0 <= i < m => Drop(p[i], p[m - 1 - i], p[m], 1.0 / Den(p[m])))
  }

  /** The predictor of a list of reflection coefficients. */
  function Predictor(rc: seq<real>): (p: seq<real>)
    ensures |p| == |rc|
  {
    if |rc| == 0 then [] else StepUp(Predictor(rc[..|rc| - 1]), rc[|rc| - 1])
  }

  predicate SmallRc(r: real) {
    Times(r, r) <= MAX_RC_STABLE
  }

  predicate AllSmall(rc: seq<real>) {
    forall k :: 0 <= k < |rc| ==> SmallRc(rc[k])
  }

  /** The step-down test: the last coefficient is small, and so on downward. */
  predicate Stable(p: seq<real>)
    decreases |p|
  {
    |p| > 0 ==> SmallRc(p[|p| - 1]) && Stable(StepDown(p))
  }

  lemma ScalarDown(x: real, y: real, r: real)
    requires Den(r) != 0.0
    ensures Drop(Lift(x, y, r), Lift(y, x, r), r, 1.0 / Den(r)) == x
  {
    var d := Den(r);
    assert x + y * r - r * (y + x * r) == x * d;
    Cancel(x, d);
  }

  lemma Cancel(x: real, d: real)
    requires d != 0.0
    ensures x * d * (1.0 / d) == x
  {
  }

  /** Step-down undoes step-up. */
  lemma DownOfUp(p: seq<real>, r: real)
    requires Den(r) != 0.0
    ensures StepDown(StepUp(p, r)) == p
  {
    hide Den, Lift, Drop;
    var u := StepUp(p, r);
    forall i | 0 <= i < |p| ensures StepDown(u)[i] == p[i] {
      ScalarDown(p[i], p[|p| - 1 - i], r);
    }
  }

  lemma ScalarUp(x: real, y: real, r: real)
    requires Den(r) != 0.0
    ensures Lift(Drop(x, y, r, 1.0 / Den(r)), Drop(y, x, r, 1.0 / Den(r)), r) == x
  {
    var d := Den(r);
    var e := 1.0 / d;
    assert (x - r * y) * e + (y - r * x) * e * r == x * d * e by {
      assert x - r * y + (y - r * x) * r == x * d;
      Collect(x - r * y, y - r * x, e, r);
    }
    Cancel(x, d);
  }

  lemma Collect(a: real, b: real, e: real, r: real)
    ensures a * e + b * e * r == (a + b * r) * e
  {
  }

  /** Step-up undoes step-down. */
  lemma UpOfDown(p: seq<real>)
    requires |p| > 0 && Den(p[|p| - 1]) != 0.0
    ensures StepUp(StepDown(p), p[|p| - 1]) == p
  {
    hide Den, Lift, Drop;
    var m, r := |p| - 1, p[|p| - 1];
    forall i | 0 <= i < m ensures StepUp(StepDown(p), r)[i] == p[i] {
      ScalarUp(p[i], p[m - 1 - i], r);
    }
  }

  /** The predictor of reflection coefficients passes the test exactly when every one of them is small. */
  lemma {:induction false} StableIff(rc: seq<real>)
    ensures Stable(Predictor(rc)) <==> AllSmall(rc)
    decreases |rc|
  {
    hide StepDown, StepUp, Times;
    if |rc| > 0 {
      var front, r := rc[..|rc| - 1], rc[|rc| - 1];
      LastOfUp(Predictor(front), r);
      StableIff(front);
      if SmallRc(r) {
        DownOfUp(Predictor(front), r);
      }
      assert rc == front + [r];
    }
  }

  lemma LastOfUp(p: seq<real>, r: real)
    ensures StepUp(p, r)[|p|] == r
  {
  }

  /** The reflection coefficients of a predictor that passes the test. */
  function RcOf(p: seq<real>): (rc: seq<real>)
    requires Stable(p)
    ensures |rc| == |p|
    decreases |p|
  {
    if |p| == 0 then [] else RcOf(StepDown(p)) + [p[|p| - 1]]
  }

  /** Every predictor that passes the test is the predictor of small reflection coefficients. */
  lemma {:induction false} StableIsPredictor(p: seq<real>)
    requires Stable(p)
    ensures AllSmall(RcOf(p)) && Predictor(RcOf(p)) == p
    decreases |p|
  {
    hide StepUp, StepDown, Times;
    if |p| > 0 {
      var q, r := StepDown(p), p[|p| - 1];
      StableIsPredictor(q);
      UpOfDown(p);
      assert RcOf(p)[..|q|] == RcOf(q);
    }
  }

  // ---- The array code ----

  /** rc2a: the step-up recursion in place, working inward from both ends. */
  method Rc2a(rc: seq<real>, a: array<real>)
    requires a.Length >= |rc| + 1
    modifies a
    ensures a[0] == 1.0 && a[1..|rc| + 1] == Predictor(rc)
    ensures forall i :: |rc| < i < a.Length ==> a[i] == old(a[i])
  {
    hide StepUp;
    var order := |rc|;
    for i := 1 to order + 1
      invariant forall j :: order < j < a.Length ==> a[j] == old(a[j])
    {
      a[i] := 0.0;
    }
    a[0] := 1.0;
    assert rc[..0] == [];
    for k := 0 to order
      invariant a[0] == 1.0 && a[1..k + 1] == Predictor(rc[..k])
      invariant forall j :: order < j < a.Length ==> a[j] == old(a[j])
    {
      Raise(a, k, rc[k]);
      assert rc[..k + 1][..k] == rc[..k];
    }
    assert rc[..order] == rc;
  }

  /** One round of rc2a. */
  method Raise(a: array<real>, k: nat, rcTmp: real)
    requires a.Length > k + 1
    modifies a
    ensures a[1..k + 2] == StepUp(old(a[1..k + 1]), rcTmp)
    ensures a[0] == old(a[0]) && forall j :: k + 1 < j < a.Length ==> a[j] == old(a[j])
  {
    hide Lift, StepUp, Paired;
    ghost var p := a[1..k + 1];
    NothingPaired(p, a[1..k + 1], rcTmp);
    for n := 0 to (k + 1) / 2
      invariant a[0] == old(a[0]) && forall j :: k < j < a.Length ==> a[j] == old(a[j])
      invariant Paired(p, a[1..k + 1], rcTmp, n)
    {
      PairUnread(p, a[1..k + 1], rcTmp, n);
      ghost var before := a[1..k + 1];
      var tmp1, tmp2 := a[n + 1], a[k - n];
      a[n + 1] := Lift(tmp1, tmp2, rcTmp);
      a[k - n] := Lift(tmp2, tmp1, rcTmp);
      assert a[1..k + 1] == before[n := Lift(p[n], p[k - 1 - n], rcTmp)][k - 1 - n := Lift(p[k - 1 - n], p[n], rcTmp)];
      PairNext(p, before, rcTmp, n);
    }
    a[k + 1] := rcTmp;
    AllPaired(p, a[1..k + 1], rcTmp);
    assert a[1..k + 2] == a[1..k + 1] + [rcTmp];
  }

  /** The outer n pairs of p have been raised in q. */
  predicate Paired(p: seq<real>, q: seq<real>, r: real, n: nat) {
    && |q| == |p| && n <= (|p| + 1) / 2
    && (forall i :: 0 <= i < |p| && (i < n || |p| - 1 - i < n) ==> q[i] == Lift(p[i], p[|p| - 1 - i], r))
    && (forall i :: n <= i < |p| - n ==> q[i] == p[i])
  }

  lemma NothingPaired(p: seq<real>, q: seq<real>, r: real)
    requires p == q
    ensures Paired(p, q, r, 0)
  {
  }

  lemma PairUnread(p: seq<real>, q: seq<real>, r: real, n: nat)
    requires Paired(p, q, r, n) && n < (|p| + 1) / 2
    ensures |q| == |p| && n <= |p| - 1 - n && q[n] == p[n] && q[|p| - 1 - n] == p[|p| - 1 - n]
  {
  }

  lemma PairNext(p: seq<real>, q: seq<real>, r: real, n: nat)
    requires Paired(p, q, r, n) && n < (|p| + 1) / 2
    ensures var m := |p| - 1 - n;
            n <= m && Paired(p, q[n := Lift(p[n], p[m], r)][m := Lift(p[m], p[n], r)], r, n + 1)
  {
    hide Lift;
  }

  lemma AllPaired(p: seq<real>, q: seq<real>, r: real)
    requires Paired(p, q, r, (|p| + 1) / 2)
    ensures q + [r] == StepUp(p, r)
  {
    hide Lift;
  }

  lemma DenPositive(r: real)
    requires SmallRc(r)
    ensures Den(r) > 0.0
  {
  }

  /** One phase of lpcIsStable: from holds a predictor of m + 1 coefficients, to receives m. */
  method Lower(from: array<real>, to: array<real>, m: nat) returns (ok: bool)
    requires from != to && 1 <= m < from.Length && m <= to.Length && SmallRc(from[m])
    modifies to
    ensures Stable(from[..m + 1]) == (ok && Stable(to[..m]))
    ensures ok ==> SmallRc(to[m - 1])
  {
    hide Stable, Times, Drop, Den;
    var den := Den(from[m]);
    DenPositive(from[m]);
    if den == 0.0 {
      return false;
    }
    var inv := 1.0 / den;
    for k := 0 to m
      invariant forall i :: 0 <= i < k ==> to[i] == Drop(from[i], from[m - i - 1], from[m], inv)
    {
      to[k] := Drop(from[k], from[m - k - 1], from[m], inv);
    }
    assert to[..m] == StepDown(from[..m + 1]);
    StableStep(from[..m + 1]);
    if Times(to[m - 1], to[m - 1]) > MAX_RC_STABLE {
      StableLast(to[..m]);
      return false;
    }
    return true;
  }

  lemma StableStep(p: seq<real>)
    requires |p| > 0 && SmallRc(p[|p| - 1])
    ensures Den(p[|p| - 1]) != 0.0 && Stable(p) == Stable(StepDown(p))
  {
    hide Times, StepDown;
  }

  lemma StableLast(p: seq<real>)
    requires |p| > 0 && !SmallRc(p[|p| - 1])
    ensures !Stable(p)
  {
  }

  lemma StableOne(p: seq<real>)
    requires |p| == 1
    ensures Stable(p) == SmallRc(p[0])
  {
  }

  /** lpcIsStable: the step-down test on two buffers in turn. */
  method LpcIsStable(a: array<real>) returns (stable: bool)
    requires a.Length >= 3
    ensures stable == Stable(a[1..])
  {
    hide Stable, Times;
    var order := a.Length - 1;
    if Times(a[order], a[order]) > MAX_RC_STABLE {
      StableLast(a[1..]);
      return false;
    }
    var a0, a1 := new real[order](i => 0.0), new real[order](i => 0.0);
    for i := 0 to order
      invariant forall j :: 0 <= j < i ==> a0[j] == a[j + 1]
    {
      a0[i] := a[i + 1];
    }
    var m := order - 1;
    assert a0[..m + 1] == a[1..];
    while true
      invariant 1 <= m < order && SmallRc(a0[m]) && Stable(a0[..m + 1]) == Stable(a[1..])
      decreases m
    {
      var ok := Lower(a0, a1, m);
      if !ok {
        return false;
      }
      if m == 1 {
        StableOne(a1[..1]);
        return true;
      }
      m := m - 1;
      ok := Lower(a1, a0, m);
      if !ok {
        return false;
      }
      if m == 1 {
        StableOne(a0[..1]);
        return true;
      }
      m := m - 1;
    }
  }

  // ---- Bandwidth expansion ----

  function Power(c: real, n: nat): real {
    if n == 0 then 1.0 else Times(Power(c, n - 1), c)
  }

  /** Coefficient i scaled by the bandwidth factor to the i-th power. */
  function Expand(p: seq<real>, bwe: real): (q: seq<real>)
    ensures |q| == |p|
  {
    seq(|p|, i requires 0 <= i < |p| => Times(p[i], Power(bwe, i + 1)))
  }

  method BweExpand(a: array<real>, order: nat, bwe: real)
    requires a.Length >= order + 1
    modifies a
    ensures a[0] == old(a[0]) && a[1..order + 1] == Expand(old(a[1..order + 1]), bwe)
    ensures forall i :: order < i < a.Length ==> a[i] == old(a[i])
  {
    hide Times;
    var c := bwe;
    PowerOne(bwe);
    for i := 1 to order + 1
      invariant c == Power(bwe, i) && a[0] == old(a[0])
      invariant forall j :: 1 <= j < i ==> a[j] == Times(old(a[j]), Power(bwe, j))
      invariant forall j :: i <= j < a.Length ==> a[j] == old(a[j])
    {
      a[i] := Times(a[i], c);
      c := Times(c, bwe);
    }
  }

  lemma PowerOne(c: real)
    ensures Power(c, 1) == c
  {
    assert Power(c, 0) == 1.0;
  }

  /** The predictor after iter rounds of lpcStabilize. */
  function Shrunk(p: seq<real>, iter: nat): (q: seq<real>)
    ensures |q| == |p|
  {
    if iter == 0 then p else Expand(Shrunk(p, iter - 1), 1.0 - iter as real * 0.001)
  }

  /** Nothing is left by round 1000, and nothing is stable. */
  lemma NothingLeft(p: seq<real>)
    ensures Stable(Shrunk(p, 1000))
  {
    var q := Shrunk(p, 999);
    assert Shrunk(p, 1000) == Expand(q, 0.0);
    forall i | 0 <= i < |p| ensures Expand(q, 0.0)[i] == 0.0 {
      assert Power(0.0, i + 1) == 0.0;
    }
    ZerosStable(Shrunk(p, 1000));
  }

  lemma {:induction false} ZerosStable(p: seq<real>)
    requires forall i :: 0 <= i < |p| ==> p[i] == 0.0
    ensures Stable(p)
    decreases |p|
  {
    if |p| > 0 {
      assert Times(0.0, 0.0) == 0.0;
      ZerosStable(StepDown(p));
    }
  }

  /** lpcStabilize: ends with the first round, at most the thousandth, whose predictor is stable. */
  method LpcStabilize(a: array<real>) returns (ghost rounds: nat)
    requires a.Length >= 3
    modifies a
    ensures rounds <= 1000 && a[0] == old(a[0]) && a[1..] == Shrunk(old(a[1..]), rounds) && Stable(a[1..])
    ensures forall r :: 0 <= r < rounds ==> !Stable(Shrunk(old(a[1..]), r))
  {
    hide Stable, Shrunk, Expand;
    ghost var p := a[1..];
    ShrunkZero(p);
    var stable := LpcIsStable(a);
    if stable {
      return 0;
    }
    var iter := 0;
    NothingLeft(p);
    while true
      invariant 0 <= iter < 1000 && a[0] == old(a[0]) && a[1..] == Shrunk(p, iter)
      invariant forall r :: 0 <= r <= iter ==> !Stable(Shrunk(p, r))
      decreases 1000 - iter
    {
      iter := iter + 1;
      ShrunkNext(p, iter);
      assert a[1..] == a[1..a.Length - 1 + 1];
      BweExpand(a, a.Length - 1, 1.0 - iter as real * 0.001);
      assert a[1..] == a[1..a.Length - 1 + 1];
      stable := LpcIsStable(a);
      if stable {
        return iter;
      }
    }
  }

  lemma ShrunkZero(p: seq<real>)
    ensures Shrunk(p, 0) == p
  {
  }

  lemma ShrunkNext(p: seq<real>, iter: nat)
    requires iter > 0
    ensures Shrunk(p, iter) == Expand(Shrunk(p, iter - 1), 1.0 - iter as real * 0.001)
  {
  }
}
