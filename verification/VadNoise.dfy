/**
 * The voice detector's noise-level tracker (src/voip/media/mlow/vad.go) in its 32-bit fixed-point
 * arithmetic, with every conversion written out.
 */
module VadNoise {
  import opened Bytes

  const INT32_MAX := 0x7FFF_FFFF
  const MAX_LEVEL := 0xFF_FFFF
  const BANDS := 4
  const SMOOTH_COEF_Q16 := 1024
  const LEVELS_BIAS := 50

  /** Go's int32 and int16 conversions. */
  function I32(x: int): int {
    if U32(x) < 0x8000_0000 then U32(x) else U32(x) - 0x1_0000_0000
  }

  function I16(x: int): int {
    if x % 0x1_0000 < 0x8000 then x % 0x1_0000 else x % 0x1_0000 - 0x1_0000
  }

  /** A right shift by 16, which rounds toward minus infinity. */
  function Shift16(x: int): int {
    x / 0x1_0000
  }

  function Smulwb(a: int, b: int): int {
    I32(Shift16(a * I16(b)))
  }

  function Smlawb(a: int, b: int, c: int): int {
    I32(a + Shift16(b * I16(c)))
  }

  function Smulww(a: int, b: int): int {
    I32(Shift16(a * b))
  }

  function AddPosSat32(a: int, b: int): int {
    if U32(U32(a) + U32(b)) >= 0x8000_0000 then INT32_MAX else U32(U32(a) + U32(b))
  }

  // ---- What one update means ----

  /** The energy, lifted by the bias and held to 31 bits. */
  function Energy(px: int, bias: int): (e: int)
    requires 0 <= px <= INT32_MAX && 1 <= bias <= LEVELS_BIAS
    ensures 1 <= bias <= e <= INT32_MAX && e == Min(px + bias, INT32_MAX)
  {
    Min(px + bias, INT32_MAX)
  }

  /** The smoothing weight, in 65536ths. */
  function Weight(nrg: int, nl: int, minCoef: int): (c: int)
    requires 1 <= nrg <= INT32_MAX && 1 <= nl <= MAX_LEVEL && 0 <= minCoef <= 32767
    ensures minCoef <= c <= 32767
  {
    WeightBound(nrg, nl);
    Max(minCoef,
        if nrg > nl * 8 then 128
        else if nrg < nl then 1024
        else INT32_MAX / nrg * nl / 0x1_0000 * 2048 / 0x1_0000)
  }

  lemma WeightBound(nrg: int, nl: int)
    requires 1 <= nl <= nrg <= INT32_MAX || nl > nrg >= 1 || nrg > nl * 8
    ensures 1 <= nl <= nrg <= INT32_MAX ==>
              0 <= INT32_MAX / nrg * nl <= INT32_MAX && 0 <= INT32_MAX / nrg * nl / 0x1_0000 * 2048 / 0x1_0000 <= 1023
  {
    if 1 <= nl <= nrg {
      DivBounds(INT32_MAX, nrg);
      MulLe(nl, nrg, INT32_MAX / nrg);
      assert INT32_MAX / nrg * nl == nl * (INT32_MAX / nrg) && nrg * (INT32_MAX / nrg) <= INT32_MAX;
    }
  }

  /** The inverse level moves part of the way to the inverse energy. */
  function NextInverse(inv: int, nrg: int, coef: int): (r: int)
    requires 1 <= inv <= INT32_MAX && 1 <= nrg <= INT32_MAX && 0 <= coef <= 32767
    ensures 1 <= r <= INT32_MAX
    ensures Min(inv, INT32_MAX / nrg) <= r <= Max(inv, INT32_MAX / nrg)
  {
    InverseBetween(inv, INT32_MAX / nrg, coef);
    InverseRange(nrg);
    inv + Shift16((INT32_MAX / nrg - inv) * coef)
  }

  lemma InverseRange(nrg: int)
    requires 1 <= nrg <= INT32_MAX
    ensures 1 <= INT32_MAX / nrg <= INT32_MAX
  {
  }

  /** Rounding down never oversteps: the result stays between the two. */
  lemma InverseBetween(a: int, b: int, coef: int)
    requires 0 <= coef <= 0x1_0000
    ensures Min(a, b) <= a + Shift16((b - a) * coef) <= Max(a, b)
  {
    if b >= a {
      Fraction(b - a, coef);
    } else {
      Fraction(a - b, coef);
      assert (b - a) * coef == 0 - (a - b) * coef;
    }
  }

  lemma Fraction(d: nat, coef: nat)
    requires coef <= 0x1_0000
    ensures 0 <= d * coef <= d * 0x1_0000
    ensures 0 <= (d * coef) / 0x1_0000 <= d && 0 - d <= (0 - d * coef) / 0x1_0000 <= 0
  {
    MulLe(coef, 0x1_0000, d);
    assert d * coef == coef * d;
  }

  function NextLevel(inv: int): (nl: int)
    requires 1 <= inv <= INT32_MAX
    ensures 1 <= nl <= MAX_LEVEL
  {
    InverseRange(inv);
    Min(INT32_MAX / inv, MAX_LEVEL)
  }

  // ---- The fixed-point code computes it ----

  lemma SaturatedEnergy(px: int, bias: int)
    requires 0 <= px <= INT32_MAX && 1 <= bias <= LEVELS_BIAS
    ensures AddPosSat32(px, bias) == Energy(px, bias)
  {
  }

  /** Nothing in the weight's product leaves 32 bits, and its top half fits 16. */
  lemma FixedWeight(nrg: int, nl: int)
    requires 1 <= nl <= nrg <= INT32_MAX
    ensures Smulwb(Smulww(INT32_MAX / nrg, nl), SMOOTH_COEF_Q16 * 2)
            == INT32_MAX / nrg * nl / 0x1_0000 * 2048 / 0x1_0000
  {
    WeightBound(nrg, nl);
    InProduct(INT32_MAX / nrg * nl);
  }

  lemma InProduct(p: int)
    requires 0 <= p <= INT32_MAX
    ensures I32(Shift16(p)) == p / 0x1_0000
    ensures I32(Shift16(p / 0x1_0000 * I16(2048))) == p / 0x1_0000 * 2048 / 0x1_0000
  {
  }

  lemma FixedInverse(inv: int, nrg: int, coef: int)
    requires 1 <= inv <= INT32_MAX && 1 <= nrg <= INT32_MAX && 0 <= coef <= 32767
    ensures Smlawb(inv, INT32_MAX / nrg - inv, coef) == NextInverse(inv, nrg, coef)
  {
    var r := NextInverse(inv, nrg, coef);
    assert I16(coef) == coef;
    assert I32(r) == r;
  }

  // ---- The state ----

  /** The level and the inverse level of a band. */
  datatype Band = Band(nl: int, invNl: int, bias: int)
  {
    predicate Valid() {
      1 <= nl <= MAX_LEVEL && 1 <= invNl <= INT32_MAX && 1 <= bias <= LEVELS_BIAS
    }

    function Update(px: int, minCoef: int): (b: Band)
      requires Valid() && 0 <= px <= INT32_MAX && 0 <= minCoef <= 32767
      ensures b.Valid() && b.bias == bias
      ensures Min(invNl, INT32_MAX / Energy(px, bias)) <= b.invNl <= Max(invNl, INT32_MAX / Energy(px, bias))
    {
      var nrg := Energy(px, bias);
      var inv := NextInverse(invNl, nrg, Weight(nrg, nl, minCoef));
      Band(NextLevel(inv), inv, bias)
    }
  }

  /** The least weight, which fades over the first thousand packets. */
  function MinCoef(counter: nat): (c: int)
    ensures 0 <= c <= 32767
  {
    if counter < 1000 then 32767 / (counter / 16 + 1) else 0
  }

  /** Non-negative 32-bit band energies. */
  predicate Energies(px: seq<int>) {
    |px| == BANDS && forall b :: 0 <= b < BANDS ==> 0 <= px[b] <= INT32_MAX
  }

  datatype Noise = Noise(bands: seq<Band>, counter: nat)
  {
    predicate Valid() {
      |bands| == BANDS && forall b :: 0 <= b < BANDS ==> bands[b].Valid()
    }

    function Update(px: seq<int>): (n: Noise)
      requires Valid() && Energies(px)
      ensures n.Valid()
    {
      Noise(seq(BANDS, b requires 0 <= b < BANDS => bands[b].Update(px[b], MinCoef(counter))),
            if counter < 1000 then counter + 1 else counter)
    }
  }

  /** A band at the start: its bias falls with its number, and its level is a hundred times the bias. */
  function FirstBand(b: nat): (x: Band)
    requires b < BANDS
    ensures x.Valid() && x.nl == 100 * x.bias
  {
    var bias := LEVELS_BIAS / (b + 1);
    InverseRange(100 * bias);
    Band(100 * bias, INT32_MAX / (100 * bias), bias)
  }

  function Start(): (n: Noise)
    ensures n.Valid()
  {
    Noise(seq(BANDS, b requires 0 <= b < BANDS => FirstBand(b)), 15)
  }

  class SmplVadState {
    const noiseLvlUpdateSpeed: int := 0
    var nl: seq<int>
    var invNl: seq<int>
    var noiseLevelBias: seq<int>
    var counter: nat

    predicate Shaped()
      reads this
    {
      |nl| == |invNl| == |noiseLevelBias| == BANDS
    }

    function BandAt(b: nat): Band
      requires Shaped() && b < BANDS
      reads this
    {
      Band(nl[b], invNl[b], noiseLevelBias[b])
    }

    function View(): Noise
      requires Shaped()
      reads this
    {
      Noise(seq(BANDS, b requires 0 <= b < BANDS && Shaped() reads this => BandAt(b)), counter)
    }

    /** NewSmplVadState. */
    constructor ()
      ensures Shaped() && View() == Start() && noiseLevelBias == [50, 25, 16, 12]
    {
      counter := 15;
      nl, invNl, noiseLevelBias := [], [], [];
      new;
      for b := 0 to BANDS
        invariant |nl| == |invNl| == |noiseLevelBias| == b && counter == 15
        invariant forall k :: 0 <= k < b ==> Band(nl[k], invNl[k], noiseLevelBias[k]) == FirstBand(k)
      {
        var bias := LEVELS_BIAS / (b + 1);
        if bias < 1 {
          bias := 1;
        }
        noiseLevelBias := noiseLevelBias + [bias];
        nl := nl + [100 * bias];
        invNl := invNl + [INT32_MAX / (100 * bias)];
      }
    }

    /** getNoiseLevels. */
    method GetNoiseLevels(pX: seq<int>)
      requires Shaped() && View().Valid()
      requires Energies(pX)
      modifies this
      ensures Shaped() && View() == old(View()).Update(pX)
    {
      hide Band.Update, Weight, NextInverse, NextLevel;
      var minCoef := 0;
      ghost var before := View();
      if counter < 1000 {
        minCoef := 32767 / (counter / 16 + 1);
        counter := counter + 1;
      }
      for b := 0 to BANDS
        invariant Shaped() && counter == (if before.counter < 1000 then before.counter + 1 else before.counter)
        invariant forall k :: 0 <= k < b ==> BandAt(k) == before.bands[k].Update(pX[k], MinCoef(before.counter))
        invariant forall k :: b <= k < BANDS ==> BandAt(k) == before.bands[k]
      {
        assert before.bands[b].Valid();
        var inv, v := UpdateBand(nl[b], invNl[b], noiseLevelBias[b], pX[b], minCoef);
        invNl := invNl[b := inv];
        nl := nl[b := v];
      }
    }

    /** One band of getNoiseLevels. */
    method UpdateBand(nl: int, invNl: int, bias: int, px: int, minCoef: int) returns (inv: int, v: int)
      requires Band(nl, invNl, bias).Valid() && 0 <= px <= INT32_MAX && 0 <= minCoef <= 32767
      ensures Band(v, inv, bias) == Band(nl, invNl, bias).Update(px, minCoef)
    {
      hide AddPosSat32, Smulwb, Smulww, Smlawb, NextInverse;
      SaturatedEnergy(px, bias);
      var nrg := AddPosSat32(px, bias);
      var invNrg := INT32_MAX / nrg;
      var coef;
      if nrg > nl * 8 {
        coef := SMOOTH_COEF_Q16 / 8;
      } else if nrg < nl {
        coef := SMOOTH_COEF_Q16;
      } else {
        FixedWeight(nrg, nl);
        WeightBound(nrg, nl);
        coef := Smulwb(Smulww(invNrg, nl), SMOOTH_COEF_Q16 * 2);
      }
      coef := coef * (100 + noiseLvlUpdateSpeed) / 100;
      if coef < minCoef {
        coef := minCoef;
      }
      FixedInverse(invNl, nrg, coef);
      inv := Smlawb(invNl, invNrg - invNl, coef);
      v := INT32_MAX / inv;
      if v > MAX_LEVEL {
        v := MAX_LEVEL;
      }
    }
  }

  // ---- Every run ----

  function Run(n: Noise, run: seq<seq<int>>): Noise
    requires n.Valid() && forall k :: 0 <= k < |run| ==> Energies(run[k])
    decreases |run|
  {
    if |run| == 0 then n else Run(n.Update(run[0]), run[1..])
  }

  /** The levels and inverse levels stay in range over any run, and the biases never change. */
  lemma {:induction false} RunStays(n: Noise, run: seq<seq<int>>)
    requires n.Valid() && forall k :: 0 <= k < |run| ==> Energies(run[k])
    ensures Run(n, run).Valid()
    ensures forall b :: 0 <= b < BANDS ==> Run(n, run).bands[b].bias == n.bands[b].bias
    ensures n.counter <= 1000 ==> n.counter <= Run(n, run).counter <= 1000
    decreases |run|
  {
    if |run| > 0 {
      RunStays(n.Update(run[0]), run[1..]);
    }
  }

  /** So from the start, in every run on any energies, nothing leaves its range. */
  lemma EveryRun(run: seq<seq<int>>)
    requires forall k :: 0 <= k < |run| ==> Energies(run[k])
    ensures Run(Start(), run).Valid() && forall b :: 0 <= b < BANDS ==>
              var x := Run(Start(), run).bands[b];
              1 <= x.nl <= MAX_LEVEL && 1 <= x.invNl <= INT32_MAX && x.bias == LEVELS_BIAS / (b + 1)
  {
    RunStays(Start(), run);
  }

  // ---- How fast a band follows ----

  lemma PartOf(distance: int, coef: int, parts: int)
    requires coef * parts == 0x1_0000 && parts > 0
    ensures var step := Shift16(distance * coef); parts * step <= distance < parts * step + parts
  {
    var step := Shift16(distance * coef);
    assert 0x1_0000 * step <= distance * coef < 0x1_0000 * step + 0x1_0000;
    if distance < parts * step {
      MulLe(distance + 1, parts * step, coef);
      Thrice(coef, parts, step);
    } else if distance >= parts * step + parts {
      MulLe(parts * step + parts, distance, coef);
      Thrice(coef, parts, step);
    }
  }

  lemma Thrice(coef: int, parts: int, step: int)
    requires coef >= 0 && coef * parts == 0x1_0000
    ensures (parts * step) * coef == 0x1_0000 * step && (parts * step + parts) * coef == 0x1_0000 * step + 0x1_0000
  {
    assert (parts * step) * coef == (coef * parts) * step;
  }

  /** Loud: after the first thousand packets the inverse moves a 512th of the way, rounded down. */
  lemma SlowWhenLoud(b: Band, px: int)
    requires b.Valid() && 0 <= px <= INT32_MAX && Min(px + b.bias, INT32_MAX) > 8 * b.nl
    ensures var goal, r := INT32_MAX / Min(px + b.bias, INT32_MAX), b.Update(px, MinCoef(1000)).invNl;
            512 * (r - b.invNl) <= goal - b.invNl < 512 * (r - b.invNl) + 512
  {
    hide Shift16;
    PartOf(INT32_MAX / Energy(px, b.bias) - b.invNl, 128, 512);
  }

  /** Quiet: a 64th of the way. */
  lemma QuickWhenQuiet(b: Band, px: int)
    requires b.Valid() && 0 <= px <= INT32_MAX && Min(px + b.bias, INT32_MAX) < b.nl
    ensures var goal, r := INT32_MAX / Min(px + b.bias, INT32_MAX), b.Update(px, MinCoef(1000)).invNl;
            64 * (r - b.invNl) <= goal - b.invNl < 64 * (r - b.invNl) + 64
  {
    hide Shift16;
    PartOf(INT32_MAX / Energy(px, b.bias) - b.invNl, 1024, 64);
  }

  /** In between the weight is 1024 times level over energy, to within ten. */
  lemma MiddleWeight(nrg: int, nl: int)
    requires 1 <= nl <= nrg <= INT32_MAX && nrg <= 8 * nl && nl <= MAX_LEVEL
    ensures var w := Weight(nrg, nl, 0); 1024 * nl - 10 * nrg <= w * nrg <= 1024 * nl
  {
    hide Weight;
    var q := INT32_MAX / nrg;
    var a := q * nl / 0x1_0000;
    var w := a * 2048 / 0x1_0000;
    MiddleIs(nrg, nl);
    DivBounds(INT32_MAX, nrg);
    MiddleBounds(nrg, nl, q, a, w);
  }

  lemma MiddleIs(nrg: int, nl: int)
    requires 1 <= nl <= nrg <= INT32_MAX && nrg <= 8 * nl && nl <= MAX_LEVEL
    ensures Weight(nrg, nl, 0) == INT32_MAX / nrg * nl / 0x1_0000 * 2048 / 0x1_0000
  {
    WeightBound(nrg, nl);
  }

  lemma MiddleBounds(nrg: int, nl: int, q: int, a: int, w: int)
    requires 1 <= nl <= nrg && nl <= MAX_LEVEL && q * nrg <= INT32_MAX < q * nrg + nrg
    requires 0x1_0000 * a <= q * nl < 0x1_0000 * a + 0x1_0000 && 32 * w <= a < 32 * w + 32
    ensures 1024 * nl - 10 * nrg <= w * nrg <= 1024 * nl
  {
    var u, v, product := w * nrg, q * nl, q * nl * nrg;
    MulLe(0x20_0000 * w, v, nrg);
    MulLe(v, 0x20_0000 * w + 0x20_0000, nrg);
    Grouped(w, nrg, q, nl);
    MulLe(q * nrg, 0x8000_0000, nl);
    MulLe(0x8000_0000 - nrg, q * nrg, nl);
    MulLe(nl, 0x100_0000, nrg);
    Settles(u, product, nl, nrg, nl * nrg);
  }

  lemma Grouped(w: int, nrg: int, q: int, nl: int)
    ensures 0x20_0000 * w * nrg == 0x20_0000 * (w * nrg)
    ensures (0x20_0000 * w + 0x20_0000) * nrg == 0x20_0000 * (w * nrg) + 0x20_0000 * nrg
    ensures q * nl * nrg == q * nrg * nl && (0x8000_0000 - nrg) * nl == 0x8000_0000 * nl - nl * nrg
  {
  }

  lemma Settles(u: int, product: int, nl: int, nrg: int, both: int)
    requires 0x20_0000 * u <= product <= 0x20_0000 * u + 0x20_0000 * nrg
    requires 0x8000_0000 * nl - both <= product <= 0x8000_0000 * nl && both <= 0x100_0000 * nrg && nrg >= 1
    ensures 1024 * nl - 10 * nrg <= u <= 1024 * nl
  {
  }

  /** The first packet sets the weight outright; by the thousandth the floor is a 126th, and then it is gone. */
  lemma FloorFades()
    ensures MinCoef(15) == 32767 && MinCoef(16) == 16383 && MinCoef(999) == 520 && MinCoef(1000) == 0
  {
  }

  /** The level is the inverse of the inverse, and at most 0xFFFFFF. */
  lemma LevelIs(inv: int)
    requires 1 <= inv <= INT32_MAX
    ensures var nl := NextLevel(inv);
            nl * inv <= INT32_MAX && (nl < 0xFF_FFFF ==> INT32_MAX < nl * inv + inv)
  {
    DivBounds(INT32_MAX, inv);
    if INT32_MAX / inv > MAX_LEVEL {
      MulLe(MAX_LEVEL, INT32_MAX / inv, inv);
    }
  }

  /** A band fed the same energy for ever moves toward it and never past it. */
  lemma {:induction false} NeverOvershoots(b: Band, px: int, coefs: seq<int>)
    requires b.Valid() && 0 <= px <= INT32_MAX && forall k :: 0 <= k < |coefs| ==> 0 <= coefs[k] <= 32767
    ensures var goal, last := INT32_MAX / Energy(px, b.bias), Fed(b, px, coefs).invNl;
            if b.invNl <= goal then b.invNl <= last <= goal else goal <= last <= b.invNl
    decreases |coefs|
  {
    if |coefs| > 0 {
      NeverOvershoots(b.Update(px, coefs[0]), px, coefs[1..]);
    }
  }

  function Fed(b: Band, px: int, coefs: seq<int>): (r: Band)
    requires b.Valid() && 0 <= px <= INT32_MAX && forall k :: 0 <= k < |coefs| ==> 0 <= coefs[k] <= 32767
    ensures r.Valid()
    decreases |coefs|
  {
    if |coefs| == 0 then b else Fed(b.Update(px, coefs[0]), px, coefs[1..])
  }
}
