/**
 * The unrolled recursive filters (pfFiltAR1 and pfFiltAR2 of src/voip/media/mlow/postfilter.go,
 * pePitchHpFilter of pitch_enc.go), over the reals: each block of four or five outputs is computed
 * from the inputs and the state alone, and is still the one-sample recurrence.
 */
module IirFilters {
  import opened Reals

  // ---- First order ----

  function Step1(x: real, a: real, y: real): real {
    x + Times(a, y)
  }

  /** The output after i samples of x, fed back with weight a; y before the first. */
  function Ar1(x: seq<real>, a: real, y: real, i: nat): real
    requires i <= |x|
  {
    if i == 0 then y else Step1(x[i - 1], a, Ar1(x, a, y, i - 1))
  }

  /** Filtering the rest from the state that the first part leaves. */
  lemma {:induction false} Ar1Chunks(x: seq<real>, z: seq<real>, a: real, y: real, i: nat)
    requires i <= |z|
    ensures Ar1(x + z, a, y, |x| + i) == Ar1(z, a, Ar1(x, a, y, |x|), i)
  {
    hide Times, Step1;
    if i == 0 {
      Ar1Prefix(x, z, a, y, |x|);
    } else {
      Ar1Chunks(x, z, a, y, i - 1);
    }
  }

  lemma {:induction false} Ar1Prefix(x: seq<real>, z: seq<real>, a: real, y: real, i: nat)
    requires i <= |x|
    ensures Ar1(x + z, a, y, i) == Ar1(x, a, y, i)
  {
    if i > 0 {
      Ar1Prefix(x, z, a, y, i - 1);
    }
  }

  /** Five inputs in one go. */
  datatype Five = Five(o0: real, o1: real, o2: real, o3: real, o4: real)

  /** The block of pfFiltAR1, with the powers of the coefficient. */
  function BlockAr1(x0: real, x1: real, x2: real, x3: real, x4: real, y: real,
                    a: real, a2: real, a3: real, a4: real, a5: real): Five {
    Five(Step1(x0, a, y),
         Two(x0, x1, y, a, a2),
         Three(x0, x1, x2, y, a, a2, a3),
         Four(x0, x1, x2, x3, y, a, a2, a3, a4),
         x4 + Times(a, x3) + Times(a2, x2) + Times(a3, x1) + Times(a4, x0) + Times(a5, y))
  }

  function Two(x0: real, x1: real, y: real, a: real, a2: real): real {
    x1 + Times(a, x0) + Times(a2, y)
  }

  function Three(x0: real, x1: real, x2: real, y: real, a: real, a2: real, a3: real): real {
    x2 + Times(a, x1) + Times(a2, x0) + Times(a3, y)
  }

  function Four(x0: real, x1: real, x2: real, x3: real, y: real, a: real, a2: real, a3: real, a4: real): real {
    x3 + Times(a, x2) + Times(a2, x1) + Times(a3, x0) + Times(a4, y)
  }

  lemma Spread3(a: real, u: real, v: real, w: real)
    ensures Times(a, u + v + w) == Times(a, u) + Times(a, v) + Times(a, w)
  {
    hide Times;
    TimesAdd(u + v, w, a);
    TimesAdd(u, v, a);
  }

  lemma Spread4(a: real, u: real, v: real, w: real, x: real)
    ensures Times(a, u + v + w + x) == Times(a, u) + Times(a, v) + Times(a, w) + Times(a, x)
  {
    hide Times;
    TimesAdd(u + v + w, x, a);
    Spread3(a, u, v, w);
  }

  lemma Spread5(a: real, u: real, v: real, w: real, x: real, y: real)
    ensures Times(a, u + v + w + x + y) == Times(a, u) + Times(a, v) + Times(a, w) + Times(a, x) + Times(a, y)
  {
    hide Times;
    TimesAdd(u + v + w + x, y, a);
    Spread4(a, u, v, w, x);
  }

  /** The weight of one value that reaches an output over two paths. */
  lemma Column(a1: real, p: real, a2: real, q: real, x: real)
    ensures Times(Times(a1, p) + Times(a2, q), x) == Times(a1, Times(p, x)) + Times(a2, Times(q, x))
  {
    hide Times;
    TimesAdd(Times(a1, p), Times(a2, q), x);
    TimesSwap(a1, p, x);
    TimesSwap(a2, q, x);
  }

  lemma SecondOfFive(x0: real, x1: real, y: real, a: real, a2: real)
    requires a2 == Times(a, a)
    ensures Two(x0, x1, y, a, a2) == Step1(x1, a, Step1(x0, a, y))
  {
    hide Times;
    TimesAdd(x0, Times(a, y), a);
    TimesSwap(a, a, y);
  }

  lemma ThirdOfFive(x0: real, x1: real, x2: real, y: real, a: real, a2: real, a3: real)
    requires a2 == Times(a, a) && a3 == Times(a, a2)
    ensures Three(x0, x1, x2, y, a, a2, a3) == Step1(x2, a, Two(x0, x1, y, a, a2))
  {
    hide Times;
    Spread3(a, x1, Times(a, x0), Times(a2, y));
    TimesSwap(a, a, x0); TimesSwap(a, a2, y);
  }

  lemma FourthOfFive(x0: real, x1: real, x2: real, x3: real, y: real, a: real, a2: real, a3: real, a4: real)
    requires a2 == Times(a, a) && a3 == Times(a, a2) && a4 == Times(a, a3)
    ensures Four(x0, x1, x2, x3, y, a, a2, a3, a4) == Step1(x3, a, Three(x0, x1, x2, y, a, a2, a3))
  {
    hide Times;
    Spread4(a, x2, Times(a, x1), Times(a2, x0), Times(a3, y));
    TimesSwap(a, a, x1); TimesSwap(a, a2, x0); TimesSwap(a, a3, y);
  }

  lemma FifthOfFive(x0: real, x1: real, x2: real, x3: real, x4: real, y: real,
                    a: real, a2: real, a3: real, a4: real, a5: real)
    requires Powers(a, a2, a3, a4, a5)
    ensures BlockAr1(x0, x1, x2, x3, x4, y, a, a2, a3, a4, a5).o4
            == Step1(x4, a, Four(x0, x1, x2, x3, y, a, a2, a3, a4))
  {
    hide Times;
    Spread5(a, x3, Times(a, x2), Times(a2, x1), Times(a3, x0), Times(a4, y));
    TimesSwap(a, a, x2);
    TimesSwap(a, a2, x1);
    TimesSwap(a, a3, x0);
    TimesSwap(a, a4, y);
  }

  predicate Powers(a: real, a2: real, a3: real, a4: real, a5: real) {
    a2 == Times(a, a) && a3 == Times(a, a2) && a4 == Times(a, a3) && a5 == Times(a, a4)
  }

  /** The block is five steps of the recurrence. */
  lemma BlockAr1Exact(x0: real, x1: real, x2: real, x3: real, x4: real, y: real,
                      a: real, a2: real, a3: real, a4: real, a5: real)
    requires Powers(a, a2, a3, a4, a5)
    ensures var b := BlockAr1(x0, x1, x2, x3, x4, y, a, a2, a3, a4, a5);
            && b.o0 == Step1(x0, a, y) && b.o1 == Step1(x1, a, b.o0) && b.o2 == Step1(x2, a, b.o1)
            && b.o3 == Step1(x3, a, b.o2) && b.o4 == Step1(x4, a, b.o3)
  {
    hide Times, Step1, Two, Three, Four;
    SecondOfFive(x0, x1, y, a, a2);
    ThirdOfFive(x0, x1, x2, y, a, a2, a3);
    FourthOfFive(x0, x1, x2, x3, y, a, a2, a3, a4);
    FifthOfFive(x0, x1, x2, x3, x4, y, a, a2, a3, a4, a5);
  }

  // ---- Second order ----

  function Step2(x: real, a1: real, y1: real, a2: real, y0: real): real {
    x + Times(a1, y1) + Times(a2, y0)
  }

  /** The output after i samples; y1 the output before them and y0 the one before that. */
  function Ar2(x: seq<real>, a1: real, a2: real, y1: real, y0: real, i: nat): real
    requires i <= |x|
  {
    if i == 0 then y1
    else if i == 1 then Step2(x[0], a1, y1, a2, y0)
    else Step2(x[i - 1], a1, Ar2(x, a1, a2, y1, y0, i - 1), a2, Ar2(x, a1, a2, y1, y0, i - 2))
  }

  /** The second carried value. */
  function Ar2Before(x: seq<real>, a1: real, a2: real, y1: real, y0: real, i: nat): real
    requires i <= |x|
  {
    if i == 0 then y0 else Ar2(x, a1, a2, y1, y0, i - 1)
  }

  lemma {:induction false} Ar2Prefix(x: seq<real>, z: seq<real>, a1: real, a2: real, y1: real, y0: real, i: nat)
    requires i <= |x|
    ensures Ar2(x + z, a1, a2, y1, y0, i) == Ar2(x, a1, a2, y1, y0, i)
  {
    hide Times, Step2;
    if i == 1 {
    } else if i > 1 {
      Ar2Prefix(x, z, a1, a2, y1, y0, i - 1);
      Ar2Prefix(x, z, a1, a2, y1, y0, i - 2);
    }
  }

  /** Filtering the rest from the two values that the first part leaves. */
  lemma {:induction false} Ar2Chunks(x: seq<real>, z: seq<real>, a1: real, a2: real, y1: real, y0: real, i: nat)
    requires i <= |z|
    ensures Ar2(x + z, a1, a2, y1, y0, |x| + i)
            == Ar2(z, a1, a2, Ar2(x, a1, a2, y1, y0, |x|), Ar2Before(x, a1, a2, y1, y0, |x|), i)
  {
    hide Times, Step2;
    if i == 0 {
      Ar2Prefix(x, z, a1, a2, y1, y0, |x|);
    } else if i == 1 {
      Ar2Prefix(x, z, a1, a2, y1, y0, |x|);
      if |x| > 0 {
        Ar2Prefix(x, z, a1, a2, y1, y0, |x| - 1);
      }
    } else {
      Ar2Chunks(x, z, a1, a2, y1, y0, i - 1);
      Ar2Chunks(x, z, a1, a2, y1, y0, i - 2);
    }
  }

  datatype Quad = Quad(o0: real, o1: real, o2: real, o3: real)

  /** The impulse response and the response to the older carried value. */
  datatype Taps = Taps(imp1: real, imp2: real, imp3: real, imp4: real, ymp1: real, ymp2: real, ymp3: real, ymp4: real)

  function TapsOf(ar1: real, ar2: real): Taps {
    var ar1_2 := Times(ar1, ar1);
    var ar1_3 := Times(ar1, ar1_2);
    var ar1_4 := Times(ar1, ar1_3);
    var imp1 := ar1;
    var imp2 := ar1_2 + ar2;
    var imp3 := ar1_3 + Times(Times(2.0, ar1), ar2);
    var imp4 := ar1_4 + Times(ar2, ar2) + Times(Times(3.0, ar1_2), ar2);
    Taps(imp1, imp2, imp3, imp4, ar2, Times(ar2, imp1), Times(ar2, imp2), Times(ar2, imp3))
  }

  function BlockAr2(x0: real, x1: real, x2: real, x3: real, y1: real, y0: real, t: Taps): Quad {
    Quad(Out0(x0, y1, y0, t), Out1(x0, x1, y1, y0, t), Out2(x0, x1, x2, y1, y0, t), Out3(x0, x1, x2, x3, y1, y0, t))
  }

  function Out0(x0: real, y1: real, y0: real, t: Taps): real {
    x0 + Times(t.imp1, y1) + Times(t.ymp1, y0)
  }

  function Out1(x0: real, x1: real, y1: real, y0: real, t: Taps): real {
    x1 + Times(t.imp1, x0) + Times(t.imp2, y1) + Times(t.ymp2, y0)
  }

  function Out2(x0: real, x1: real, x2: real, y1: real, y0: real, t: Taps): real {
    x2 + Times(t.imp1, x1) + Times(t.imp2, x0) + Times(t.imp3, y1) + Times(t.ymp3, y0)
  }

  function Out3(x0: real, x1: real, x2: real, x3: real, y1: real, y0: real, t: Taps): real {
    x3 + Times(t.imp1, x2) + Times(t.imp2, x1) + Times(t.imp3, x0) + Times(t.imp4, y1) + Times(t.ymp4, y0)
  }

  /** The taps follow the recurrence themselves. */
  lemma TapsRecur(a1: real, a2: real)
    ensures Recur(TapsOf(a1, a2), a1, a2)
  {
    hide Times;
    var t := TapsOf(a1, a2);
    var p2 := Times(a1, a1);
    Doubled(a1, a2);
    Tripled(p2, a2);
    TimesSwap(a1, a2, a1);
    TimesAdd(p2, a2, a1);
    TimesAdd(p2, a2, a2);
    TimesSwap(a2, p2, 0.0);
    TimesAdd(Times(a1, p2), Times(Times(2.0, a1), a2), a1);
    TimesAdd(Times(a1, a2), Times(a1, a2), a1);
    TimesSwap(a1, a1, a2);
    TimesSwap(a1, a2, t.imp2);
    TimesAdd(Times(a1, t.imp2), Times(a2, a1), a2);
  }

  lemma Doubled(u: real, v: real)
    ensures Times(Times(2.0, u), v) == Times(u, v) + Times(u, v)
  {
  }

  lemma Tripled(u: real, v: real)
    ensures Times(Times(3.0, u), v) == Times(u, v) + Times(u, v) + Times(u, v)
  {
  }

  /** The block is four steps of the recurrence. */
  lemma BlockAr2Exact(x0: real, x1: real, x2: real, x3: real, y1: real, y0: real, a1: real, a2: real)
    ensures var b := BlockAr2(x0, x1, x2, x3, y1, y0, TapsOf(a1, a2));
            && b.o0 == Step2(x0, a1, y1, a2, y0) && b.o1 == Step2(x1, a1, b.o0, a2, y1)
            && b.o2 == Step2(x2, a1, b.o1, a2, b.o0) && b.o3 == Step2(x3, a1, b.o2, a2, b.o1)
  {
    TapsRecur(a1, a2);
    BlockRecurs(x0, x1, x2, x3, y1, y0, a1, a2, TapsOf(a1, a2));
  }

  lemma BlockRecurs(x0: real, x1: real, x2: real, x3: real, y1: real, y0: real, a1: real, a2: real, t: Taps)
    requires Recur(t, a1, a2)
    ensures var b := BlockAr2(x0, x1, x2, x3, y1, y0, t);
            && b.o0 == Step2(x0, a1, y1, a2, y0) && b.o1 == Step2(x1, a1, b.o0, a2, y1)
            && b.o2 == Step2(x2, a1, b.o1, a2, b.o0) && b.o3 == Step2(x3, a1, b.o2, a2, b.o1)
  {
    hide Times, Step2, Recur, Out0, Out1, Out2, Out3;
    OutsRecur(x0, x1, y1, y0, a1, a2, t);
    Out2Recurs(x0, x1, x2, y1, y0, a1, a2, t);
    Out3Recurs(x0, x1, x2, x3, y1, y0, a1, a2, t);
  }

  lemma OutsRecur(x0: real, x1: real, y1: real, y0: real, a1: real, a2: real, t: Taps)
    requires Recur(t, a1, a2)
    ensures Out0(x0, y1, y0, t) == Step2(x0, a1, y1, a2, y0)
    ensures Out1(x0, x1, y1, y0, t) == Step2(x1, a1, Out0(x0, y1, y0, t), a2, y1)
  {
    hide Times;
    Spread3(a1, x0, Times(a1, y1), Times(a2, y0));
    TimesAdd(Times(a1, a1), a2, y1);
    TimesSwap(a1, a1, y1);
    TimesSwap(a1, a2, y0);
  }

  lemma Out2Recurs(x0: real, x1: real, x2: real, y1: real, y0: real, a1: real, a2: real, t: Taps)
    requires Recur(t, a1, a2)
    ensures Out2(x0, x1, x2, y1, y0, t) == Step2(x2, a1, Out1(x0, x1, y1, y0, t), a2, Out0(x0, y1, y0, t))
  {
    hide Times;
    Spread4(a1, x1, Times(a1, x0), Times(t.imp2, y1), Times(t.ymp2, y0));
    Spread3(a2, x0, Times(a1, y1), Times(a2, y0));
    TimesAdd(Times(a1, a1), a2, x0);
    TimesSwap(a1, a1, x0);
    Column(a1, t.imp2, a2, a1, y1);
    Column(a1, t.ymp2, a2, a2, y0);
  }

  lemma Out3Recurs(x0: real, x1: real, x2: real, x3: real, y1: real, y0: real, a1: real, a2: real, t: Taps)
    requires Recur(t, a1, a2)
    ensures Out3(x0, x1, x2, x3, y1, y0, t)
            == Step2(x3, a1, Out2(x0, x1, x2, y1, y0, t), a2, Out1(x0, x1, y1, y0, t))
  {
    hide Times;
    Spread5(a1, x2, Times(a1, x1), Times(t.imp2, x0), Times(t.imp3, y1), Times(t.ymp3, y0));
    Spread4(a2, x1, Times(a1, x0), Times(t.imp2, y1), Times(t.ymp2, y0));
    TimesAdd(Times(a1, a1), a2, x1);
    TimesSwap(a1, a1, x1);
    Column(a1, t.imp2, a2, a1, x0);
    Column(a1, t.imp3, a2, t.imp2, y1);
    Column(a1, t.ymp3, a2, t.ymp2, y0);
  }

  predicate Recur(t: Taps, a1: real, a2: real) {
    && t.imp1 == a1 && t.imp2 == Times(a1, t.imp1) + a2 && t.imp3 == Times(a1, t.imp2) + Times(a2, t.imp1)
    && t.imp4 == Times(a1, t.imp3) + Times(a2, t.imp2)
    && t.ymp1 == a2 && t.ymp2 == Times(a1, t.ymp1) && t.ymp3 == Times(a1, t.ymp2) + Times(a2, t.ymp1)
    && t.ymp4 == Times(a1, t.ymp3) + Times(a2, t.ymp2)
  }

  // ---- The filters ----

  /** pfFiltAR1: y[n] = x[n] - c1 * y[n - 1], five at a time. */
  method FiltAr1(input: seq<real>, c1: real, state: real, out: array<real>) returns (after: real)
    requires out.Length >= |input|
    modifies out
    ensures forall i :: 0 <= i < |input| ==> out[i] == Ar1(input, -c1, state, i + 1)
    ensures after == Ar1(input, -c1, state, |input|)
    ensures forall i :: 0 <= i < |input| ==>
              out[i] == input[i] - Times(c1, if i == 0 then state else out[i - 1])
    ensures forall i :: |input| <= i < out.Length ==> out[i] == old(out[i])
  {
    hide Times, BlockAr1, Step1, Ar1;
    var ar1 := -c1;
    var ar1_2 := Times(ar1, ar1);
    var ar1_3 := Times(ar1, ar1_2);
    var ar1_4 := Times(ar1, ar1_3);
    var ar1_5 := Times(ar1, ar1_4);
    var ytmp, nn := state, 0;
    Ar1Start(input, ar1, state);
    while nn + 4 < |input|
      invariant 0 <= nn <= |input| && ytmp == Ar1(input, ar1, state, nn)
      invariant forall i :: 0 <= i < nn ==> out[i] == Ar1(input, ar1, state, i + 1)
      invariant forall i :: nn <= i < out.Length ==> out[i] == old(out[i])
    {
      FiveSteps(input, ar1, ar1_2, ar1_3, ar1_4, ar1_5, state, nn);
      var b := BlockAr1(input[nn], input[nn + 1], input[nn + 2], input[nn + 3], input[nn + 4], ytmp,
                        ar1, ar1_2, ar1_3, ar1_4, ar1_5);
      out[nn + 4] := b.o4;
      out[nn] := b.o0;
      out[nn + 1] := b.o1;
      out[nn + 2] := b.o2;
      out[nn + 3] := b.o3;
      ytmp := out[nn + 4];
      nn := nn + 5;
    }
    while nn < |input|
      invariant 0 <= nn <= |input| && ytmp == Ar1(input, ar1, state, nn)
      invariant forall i :: 0 <= i < nn ==> out[i] == Ar1(input, ar1, state, i + 1)
      invariant forall i :: nn <= i < out.Length ==> out[i] == old(out[i])
    {
      Ar1Next(input, ar1, state, nn);
      ytmp := Step1(input[nn], ar1, ytmp);
      out[nn] := ytmp;
      nn := nn + 1;
    }
    after := ytmp;
    Ar1Recurs(input, c1, state);
  }

  /** The recurrence as a difference equation. */
  lemma Ar1Recurs(x: seq<real>, c1: real, y: real)
    ensures Ar1(x, -c1, y, 0) == y
    ensures forall i :: 0 <= i < |x| ==> Ar1(x, -c1, y, i + 1) == x[i] - Times(c1, Ar1(x, -c1, y, i))
  {
    hide Times;
    forall i | 0 <= i < |x| ensures Ar1(x, -c1, y, i + 1) == x[i] - Times(c1, Ar1(x, -c1, y, i)) {
      Opposed(c1, Ar1(x, -c1, y, i));
    }
  }

  lemma Opposed(c: real, y: real)
    ensures Times(-c, y) == -Times(c, y)
  {
  }

  lemma Ar1Start(x: seq<real>, a: real, y: real)
    ensures Ar1(x, a, y, 0) == y
  {
  }

  lemma Ar1Next(x: seq<real>, a: real, y: real, i: nat)
    requires i < |x|
    ensures Ar1(x, a, y, i + 1) == Step1(x[i], a, Ar1(x, a, y, i))
  {
    hide Times, Step1;
  }

  lemma FiveSteps(x: seq<real>, a: real, a2: real, a3: real, a4: real, a5: real, y: real, n: nat)
    requires n + 4 < |x| && Powers(a, a2, a3, a4, a5)
    ensures var b := BlockAr1(x[n], x[n + 1], x[n + 2], x[n + 3], x[n + 4], Ar1(x, a, y, n), a, a2, a3, a4, a5);
            && b.o0 == Ar1(x, a, y, n + 1) && b.o1 == Ar1(x, a, y, n + 2) && b.o2 == Ar1(x, a, y, n + 3)
            && b.o3 == Ar1(x, a, y, n + 4) && b.o4 == Ar1(x, a, y, n + 5)
  {
    hide Times, Step1, BlockAr1, Ar1, Powers;
    BlockAr1Exact(x[n], x[n + 1], x[n + 2], x[n + 3], x[n + 4], Ar1(x, a, y, n), a, a2, a3, a4, a5);
    Ar1Next(x, a, y, n);
    Ar1Next(x, a, y, n + 1);
    Ar1Next(x, a, y, n + 2);
    Ar1Next(x, a, y, n + 3);
    Ar1Next(x, a, y, n + 4);
  }

  /** pfFiltAR2: y[n] = x[n] - c1 * y[n - 1] - c2 * y[n - 2], four at a time. */
  method FiltAr2(input: seq<real>, c1: real, c2: real, state0: real, state1: real, out: array<real>)
    returns (after0: real, after1: real)
    requires out.Length >= |input|
    modifies out
    ensures forall i :: 0 <= i < |input| ==> out[i] == Ar2(input, -c1, -c2, state0, state1, i + 1)
    ensures after0 == Ar2(input, -c1, -c2, state0, state1, |input|)
    ensures after1 == Ar2Before(input, -c1, -c2, state0, state1, |input|)
    ensures forall i :: 0 <= i < |input| ==>
              out[i] == input[i] - Times(c1, if i == 0 then state0 else out[i - 1])
                        - Times(c2, if i == 0 then state1 else if i == 1 then state0 else out[i - 2])
    ensures forall i :: |input| <= i < out.Length ==> out[i] == old(out[i])
  {
    hide Times, BlockAr2, Step2, Ar2, TapsOf;
    var ytmp0, ytmp1 := state1, state0;
    var ar1, ar2 := -c1, -c2;
    var t := TapsOf(ar1, ar2);
    var nn := 0;
    Ar2Start(input, ar1, ar2, state0, state1);
    while nn + 3 < |input|
      invariant 0 <= nn <= |input| && ytmp1 == Ar2(input, ar1, ar2, state0, state1, nn)
      invariant ytmp0 == Ar2Before(input, ar1, ar2, state0, state1, nn)
      invariant forall i :: 0 <= i < nn ==> out[i] == Ar2(input, ar1, ar2, state0, state1, i + 1)
      invariant forall i :: nn <= i < out.Length ==> out[i] == old(out[i])
    {
      FourSteps(input, ar1, ar2, state0, state1, nn);
      var b := BlockAr2(input[nn], input[nn + 1], input[nn + 2], input[nn + 3], ytmp1, ytmp0, t);
      out[nn + 2] := b.o2;
      out[nn + 3] := b.o3;
      out[nn] := b.o0;
      out[nn + 1] := b.o1;
      ytmp0 := out[nn + 2];
      ytmp1 := out[nn + 3];
      nn := nn + 4;
    }
    while nn < |input|
      invariant 0 <= nn <= |input| && ytmp1 == Ar2(input, ar1, ar2, state0, state1, nn)
      invariant ytmp0 == Ar2Before(input, ar1, ar2, state0, state1, nn)
      invariant forall i :: 0 <= i < nn ==> out[i] == Ar2(input, ar1, ar2, state0, state1, i + 1)
      invariant forall i :: nn <= i < out.Length ==> out[i] == old(out[i])
    {
      Ar2Next(input, ar1, ar2, state0, state1, nn);
      out[nn] := Step2(input[nn], ar1, ytmp1, ar2, ytmp0);
      ytmp0 := ytmp1;
      ytmp1 := out[nn];
      nn := nn + 1;
    }
    after1 := ytmp0;
    after0 := ytmp1;
    Ar2Recurs(input, c1, c2, state0, state1);
  }

  lemma Ar2Recurs(x: seq<real>, c1: real, c2: real, y1: real, y0: real)
    ensures Ar2(x, -c1, -c2, y1, y0, 0) == y1
    ensures forall i :: 0 <= i < |x| ==>
              Ar2(x, -c1, -c2, y1, y0, i + 1)
              == x[i] - Times(c1, Ar2(x, -c1, -c2, y1, y0, i))
                 - Times(c2, if i == 0 then y0 else Ar2(x, -c1, -c2, y1, y0, i - 1))
  {
    hide Times;
    forall i | 0 <= i < |x|
      ensures Ar2(x, -c1, -c2, y1, y0, i + 1)
              == x[i] - Times(c1, Ar2(x, -c1, -c2, y1, y0, i))
                 - Times(c2, if i == 0 then y0 else Ar2(x, -c1, -c2, y1, y0, i - 1))
    {
      Opposed(c1, Ar2(x, -c1, -c2, y1, y0, i));
      Opposed(c2, if i == 0 then y0 else Ar2(x, -c1, -c2, y1, y0, i - 1));
      Ar2Next(x, -c1, -c2, y1, y0, i);
    }
  }

  lemma Ar2Start(x: seq<real>, a1: real, a2: real, y1: real, y0: real)
    ensures Ar2(x, a1, a2, y1, y0, 0) == y1
  {
  }

  lemma Ar2Next(x: seq<real>, a1: real, a2: real, y1: real, y0: real, i: nat)
    requires i < |x|
    ensures Ar2(x, a1, a2, y1, y0, i + 1)
            == Step2(x[i], a1, Ar2(x, a1, a2, y1, y0, i), a2, Ar2Before(x, a1, a2, y1, y0, i))
  {
    hide Times, Step2;
  }

  lemma FourSteps(x: seq<real>, a1: real, a2: real, y1: real, y0: real, n: nat)
    requires n + 3 < |x|
    ensures var b := BlockAr2(x[n], x[n + 1], x[n + 2], x[n + 3], Ar2(x, a1, a2, y1, y0, n),
                              Ar2Before(x, a1, a2, y1, y0, n), TapsOf(a1, a2));
            && b.o0 == Ar2(x, a1, a2, y1, y0, n + 1) && b.o1 == Ar2(x, a1, a2, y1, y0, n + 2)
            && b.o2 == Ar2(x, a1, a2, y1, y0, n + 3) && b.o3 == Ar2(x, a1, a2, y1, y0, n + 4)
  {
    hide Times, Step2, BlockAr2, Ar2, TapsOf;
    BlockAr2Exact(x[n], x[n + 1], x[n + 2], x[n + 3], Ar2(x, a1, a2, y1, y0, n),
                  Ar2Before(x, a1, a2, y1, y0, n), a1, a2);
    Ar2Next(x, a1, a2, y1, y0, n);
    Ar2Next(x, a1, a2, y1, y0, n + 1);
    Ar2Next(x, a1, a2, y1, y0, n + 2);
    Ar2Next(x, a1, a2, y1, y0, n + 3);
  }

  /** The first difference of a signal that starts from zero. */
  function Differences(x: seq<real>): (d: seq<real>)
    ensures |d| == |x|
  {
    seq(|x|, i requires 0 <= i < |x| => x[i] - if i == 0 then 0.0 else x[i - 1])
  }

  /** The first loop of pePitchHpFilter. */
  method PutDifferences(x: seq<real>, out: array<real>)
    requires out.Length == |x|
    modifies out
    ensures out[..] == Differences(x)
  {
    var stateMa := 0.0;
    for i := 0 to |x|
      invariant stateMa == if i == 0 then 0.0 else x[i - 1]
      invariant forall k :: 0 <= k < i ==> out[k] == Differences(x)[k]
    {
      out[i] := x[i] - stateMa;
      stateMa := x[i];
    }
  }

  /** pePitchHpFilter: differences, then the feedback in place over its own input. */
  method PitchHpFilter(x: seq<real>, out: array<real>)
    requires out.Length == |x|
    modifies out
    ensures forall i :: 0 <= i < |x| ==> out[i] == Ar1(Differences(x), 0.96, 0.0, i + 1)
    ensures HighPass(x, out[..])
  {
    hide Times, BlockAr1, Step1, Ar1, Differences, HighPass;
    PutDifferences(x, out);
    ghost var d := Differences(x);
    var ar1 := 0.96;
    var ar12 := Times(ar1, ar1);
    var ar13 := Times(ar1, ar12);
    var ar14 := Times(ar1, ar13);
    var ar15 := Times(ar1, ar14);
    var ytmp, idx := 0.0, 0;
    Ar1Start(d, ar1, 0.0);
    while idx + 4 < |x|
      invariant 0 <= idx <= |x| && ytmp == Ar1(d, ar1, 0.0, idx)
      invariant forall i :: 0 <= i < idx ==> out[i] == Ar1(d, ar1, 0.0, i + 1)
      invariant forall i :: idx <= i < |x| ==> out[i] == d[i]
    {
      FiveSteps(d, ar1, ar12, ar13, ar14, ar15, 0.0, idx);
      var b := BlockAr1(out[idx], out[idx + 1], out[idx + 2], out[idx + 3], out[idx + 4], ytmp,
                        ar1, ar12, ar13, ar14, ar15);
      out[idx + 4] := b.o4;
      out[idx] := b.o0;
      out[idx + 1] := b.o1;
      out[idx + 2] := b.o2;
      out[idx + 3] := b.o3;
      ytmp := out[idx + 4];
      idx := idx + 5;
    }
    while idx < |x|
      invariant 0 <= idx <= |x| && ytmp == Ar1(d, ar1, 0.0, idx)
      invariant forall i :: 0 <= i < idx ==> out[i] == Ar1(d, ar1, 0.0, i + 1)
      invariant forall i :: idx <= i < |x| ==> out[i] == d[i]
    {
      Ar1Next(d, ar1, 0.0, idx);
      ytmp := Step1(out[idx], ar1, ytmp);
      out[idx] := ytmp;
      idx := idx + 1;
    }
    HighPassIs(x, d, out[..]);
  }

  /** y is x through the filter 1 - z over 1 - 0.96 z, from rest. */
  predicate HighPass(x: seq<real>, y: seq<real>) {
    && |y| == |x|
    && forall i :: 0 <= i < |x| ==>
         y[i] == (if i == 0 then x[0] else x[i] - x[i - 1]) + Times(0.96, if i == 0 then 0.0 else y[i - 1])
  }

  lemma HighPassIs(x: seq<real>, d: seq<real>, y: seq<real>)
    requires |y| == |x| && d == Differences(x) && forall i :: 0 <= i < |x| ==> y[i] == Ar1(d, 0.96, 0.0, i + 1)
    ensures HighPass(x, y)
  {
    hide Times, Ar1, Differences;
    forall i | 0 <= i < |x|
      ensures y[i] == (if i == 0 then x[0] else x[i] - x[i - 1]) + Times(0.96, if i == 0 then 0.0 else y[i - 1])
    {
      HpRecurs(x, d, 0.96, i);
      if i > 0 {
        var before := i - 1;
        assert y[before] == Ar1(d, 0.96, 0.0, before + 1);
      }
    }
  }

  lemma HpRecurs(x: seq<real>, d: seq<real>, a: real, i: nat)
    requires i < |x| && d == Differences(x)
    ensures Ar1(d, a, 0.0, 0) == 0.0
    ensures Ar1(d, a, 0.0, i + 1) == (if i == 0 then x[0] else x[i] - x[i - 1]) + Times(a, Ar1(d, a, 0.0, i))
  {
    hide Times, Step1;
    Ar1Next(d, a, 0.0, i);
    StepIs(d[i], a, Ar1(d, a, 0.0, i));
  }

  lemma StepIs(x: real, a: real, y: real)
    ensures Step1(x, a, y) == x + Times(a, y)
  {
  }
}
