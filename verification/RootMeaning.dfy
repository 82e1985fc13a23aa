/**
 * What the fixed-point pieces of the line-spectrum search mean, free of the functions that specify
 * them: the evaluation is a polynomial up to rounding, the widening is a power of the chirp up to
 * rounding, the last step is linear, and a cell that holds two roots has a sign to show for it.
 */
module RootMeaning {
  import opened Bytes
  import opened LspPolynomials
  import opened Reals
  import opened RootSearch

  // ---- Two roots in one cell ----

  /**
   * A root in the cell of the root before it, unless that one was put at zero.  The polynomial is
   * known to have started out positive or negative by the root's number alone, so at the end of
   * the cell it must have the other sign; a common zero there counts only once.
   */
  lemma SecondRoot(w: Polys, cos: seq<int>, cells: seq<nat>, values: seq<int>, i: nat)
    requires w.Valid() && |cos| == 129 && |values| >= |cells| && Found(w, cos, cells, values)
    requires 0 < i < |cells| && cells[i] == cells[i - 1] <= 128 && !(i == 1 && At(w.p, cos[0]) < 0)
    ensures var here := At(if i % 2 == 1 then w.q else w.p, cos[cells[i]]);
            var other := At(if i % 2 == 1 then w.p else w.q, cos[cells[i]]);
            && (if i / 2 % 2 == 0 then here <= 0 else here >= 0) && (other == 0 ==> here != 0)
  {
    hide At, Frequency;
    assert RootOk(w, cos, i, Prev(cells, i), cells[i], values[i]);
  }

  /** A root in a later cell than the one before it: the polynomial is zero or changes sign there. */
  lemma LaterRoot(w: Polys, cos: seq<int>, cells: seq<nat>, values: seq<int>, i: nat)
    requires w.Valid() && |cos| == 129 && |values| >= |cells| && Found(w, cos, cells, values)
    requires i < |cells| && 1 <= cells[i] <= 128 && (i > 0 ==> cells[i] > cells[i - 1])
    requires !(i == 0 && At(w.p, cos[0]) < 0)
    ensures var poly := if i % 2 == 1 then w.q else w.p;
            var u, v := At(poly, cos[cells[i] - 1]), At(poly, cos[cells[i]]);
            (u <= 0 && v >= 0) || (u >= 0 && v <= 0)
  {
    hide At, Frequency;
    assert RootOk(w, cos, i, Prev(cells, i), cells[i], values[i]);
  }

  // ---- The flat filter ----

  /** Sixteen entries of the cosine table. */
  function CosRow(r: nat): (c: seq<int>)
    requires r < 8
    ensures |c| == 16
  {
    match r
    case 0 => [8192, 8190, 8182, 8170, 8152, 8130, 8104, 8072,
              8034, 7994, 7946, 7896, 7840, 7778, 7714, 7644]
    case 1 => [7568, 7490, 7406, 7318, 7226, 7128, 7026, 6922,
              6812, 6698, 6580, 6458, 6332, 6204, 6070, 5934]
    case 2 => [5792, 5648, 5502, 5352, 5198, 5040, 4880, 4718,
              4552, 4382, 4212, 4038, 3862, 3684, 3502, 3320]
    case 3 => [3136, 2948, 2760, 2570, 2378, 2186, 1990, 1794,
              1598, 1400, 1202, 1002, 802, 602, 402, 202]
    case 4 => [0, -202, -402, -602, -802, -1002, -1202, -1400,
              -1598, -1794, -1990, -2186, -2378, -2570, -2760, -2948]
    case 5 => [-3136, -3320, -3502, -3684, -3862, -4038, -4212, -4382,
              -4552, -4718, -4880, -5040, -5198, -5352, -5502, -5648]
    case 6 => [-5792, -5934, -6070, -6204, -6332, -6458, -6580, -6698,
              -6812, -6922, -7026, -7128, -7226, -7318, -7406, -7490]
    case _ => [-7568, -7644, -7714, -7778, -7840, -7896, -7946, -7994,
              -8034, -8072, -8104, -8130, -8152, -8170, -8182, -8190]
  }

  /** Twice the cosine in Q12 at 129 places from 0 to pi. */
  function CosTab(): (c: seq<int>)
    ensures |c| == 129
  {
    seq(129, k requires 0 <= k < 129 => if k == 128 then -8192 else CosRow(k / 16)[k % 16])
  }

  /** The polynomials of the filter 1: their roots are at a third and two thirds of the band. */
  lemma FlatPolys()
    ensures PolysOf([0, 0], 1) == Polys([-65536, 65536], [65536, 65536])
  {
    assert Deflated([0, 0], 1, false, 1) == Deflated([0, 0], 1, true, 1) == 65536;
    assert DeflatedAll([0, 0], 1, false) == [-65536, 65536];
    assert DeflatedAll([0, 0], 1, true) == [65536, 65536];
  }

  lemma FlatAt(c: int, x: int)
    ensures At([c, 65536], x) == c + 16 * x
  {
    assert Pow2(16) == 65536 by {
      Pow2Values();
    }
    assert Eval([c, 65536], x, 1) == 65536;
  }

  lemma CosAt(k: nat)
    requires k < 128
    ensures CosTab()[k] == CosRow(k / 16)[k % 16]
  {
    hide CosRow;
  }

  lemma CosHigh(r: nat, j: nat)
    requires r < 3 && j < 16
    ensures 16 * r + j <= 42 ==> CosRow(r)[j] > 4096
    ensures CosRow(r)[j] > -4096
  {
  }

  lemma CosMiddle(r: nat, j: nat)
    requires 3 <= r <= 5 && j < 16 && 16 * r + j <= 85
    ensures CosRow(r)[j] > -4096
  {
  }

  /** Where the table passes half of its first and half of its last value. */
  lemma CosAbove(k: nat)
    requires k <= 85
    ensures k <= 42 ==> CosTab()[k] > 4096
    ensures CosTab()[k] > -4096
  {
    hide CosTab, CosRow;
    CosAt(k);
    var r, j := k / 16, k % 16;
    if r < 3 {
      CosHigh(r, j);
    } else {
      CosMiddle(r, j);
    }
  }

  lemma CosMarks()
    ensures CosTab()[42] == 4212 && CosTab()[43] == 4038 && CosTab()[85] == -4038 && CosTab()[86] == -4212
    ensures CosTab()[0] == 8192
  {
    hide CosTab;
    CosAt(0);
    CosAt(42);
    CosAt(43);
    CosAt(85);
    CosAt(86);
  }

  lemma ThreeHalves(p: seq<int>, b: Bracket, b1: Bracket, b2: Bracket, b3: Bracket)
    requires |p| > 0 && b1 == Half(p, b, 0) && b2 == Half(p, b1, 1) && b3 == Half(p, b2, 2)
    ensures Bisect(p, b, 0) == b3
  {
    hide Half, Bisect;
    BisectNext(p, b, 0);
    BisectNext(p, b1, 1);
    BisectNext(p, b2, 2);
    BisectEnd(p, b3);
  }

  lemma Middle(lo: int, hi: int)
    ensures RshiftRound(lo + hi, 1) == (lo + hi + (lo + hi) % 2) / 2
  {
    assert Pow2(1) == 2;
  }

  lemma Eighths()
    ensures Shr(128, 0) == 128 && Shr(128, 1) == 64 && Shr(128, 2) == 32
  {
    assert Pow2(0) == 1 && Pow2(1) == 2 && Pow2(2) == 4;
  }

  /** Root 0 within cell 43: five eighths and a sixth of the way. */
  lemma FirstFlat()
    ensures Bisect([-65536, 65536], Bracket(4212, 1856, 4038, -928, -256), 0) == Bracket(4104, 128, 4082, -224, -96)
  {
    hide Bisect, RshiftRound, Shr, At;
    var p := [-65536, 65536];
    Eighths();
    FlatAt(-65536, 4125);
    FlatAt(-65536, 4082);
    FlatAt(-65536, 4104);
    Middle(4212, 4038);
    Middle(4125, 4038);
    Middle(4125, 4082);
    ThreeHalves(p, Bracket(4212, 1856, 4038, -928, -256), Bracket(4125, 464, 4038, -928, -128),
                Bracket(4125, 464, 4082, -224, -128), Bracket(4104, 128, 4082, -224, -96));
  }

  lemma SecondFlat()
    ensures Bisect([65536, 65536], Bracket(-4038, 928, -4212, -1856, -256), 0) == Bracket(-4081, 240, -4103, -112, -192)
  {
    hide Bisect, RshiftRound, Shr, At;
    var q := [65536, 65536];
    Eighths();
    FlatAt(65536, -4125);
    FlatAt(65536, -4081);
    FlatAt(65536, -4103);
    Middle(-4038, -4212);
    Middle(-4038, -4125);
    Middle(-4081, -4125);
    ThreeHalves(q, Bracket(-4038, 928, -4212, -1856, -256), Bracket(-4038, 928, -4125, -464, -256),
                Bracket(-4081, 240, -4125, -464, -192), Bracket(-4081, 240, -4103, -112, -192));
  }

  /** The search on the filter 1 finds a third and two thirds of the band, 10923 and 21845, to within one. */
  lemma FlatFilter(cells: seq<nat>, values: seq<int>)
    requires |cells| == 2 <= |values| && Found(PolysOf([0, 0], 1), CosTab(), cells, values)
    ensures cells == [43, 86] && values[0] == 10924 && values[1] == 21846
  {
    hide At, Bisect, CosTab, PolysOf, Interpolated;
    var w, cos := PolysOf([0, 0], 1), CosTab();
    FlatPolys();
    CosMarks();
    forall k | 0 <= k <= 86 ensures At(w.p, cos[k]) == -65536 + 16 * cos[k] && At(w.q, cos[k]) == 65536 + 16 * cos[k] {
      FlatAt(-65536, cos[k]);
      FlatAt(65536, cos[k]);
    }
    forall k | 0 <= k <= 85 ensures (k <= 42 ==> cos[k] > 4096) && cos[k] > -4096 {
      CosAbove(k);
    }
    FirstCell(w, cos, cells[0], values[0]);
    assert RootOk(w, cos, 0, 1, cells[0], values[0]);
    assert RootOk(w, cos, 1, cells[0], cells[1], values[1]);
    SecondCell(w, cos, cells[1], values[1]);
  }

  lemma FirstCell(w: Polys, cos: seq<int>, cell: nat, value: int)
    requires |cos| == 129 && w == Polys([-65536, 65536], [65536, 65536]) && RootOk(w, cos, 0, 1, cell, value)
    requires forall k :: 0 <= k <= 86 ==> At(w.p, cos[k]) == -65536 + 16 * cos[k]
    requires (forall k :: 0 <= k <= 42 ==> cos[k] > 4096) && cos[42] == 4212 && cos[43] == 4038
    ensures cell == 43 && value == 10924
  {
    hide At, Bisect, Interpolated;
    forall k | 1 <= k <= 42 ensures !Crosses(w, cos, 0, 1, k) {
      assert cos[k - 1] > 4096 && cos[k] > 4096;
    }
    assert Crosses(w, cos, 0, 1, 43);
    assert cell == 43;
    FirstFlat();
    FirstStep();
  }

  lemma FirstStep()
    ensures Interpolated(Bracket(4104, 128, 4082, -224, -96)) == -84
  {
  }

  lemma SecondCell(w: Polys, cos: seq<int>, cell: nat, value: int)
    requires |cos| == 129 && w == Polys([-65536, 65536], [65536, 65536]) && RootOk(w, cos, 1, 43, cell, value)
    requires forall k :: 0 <= k <= 86 ==>
               At(w.p, cos[k]) == -65536 + 16 * cos[k] && At(w.q, cos[k]) == 65536 + 16 * cos[k]
    requires (forall k :: 0 <= k <= 85 ==> cos[k] > -4096) && cos[85] == -4038 && cos[86] == -4212 && cos[0] > 4096
    ensures cell == 86 && value == 21846
  {
    hide At, Bisect, Interpolated;
    forall k | 43 <= k <= 85 ensures !Crosses(w, cos, 1, 43, k) {
      assert cos[k - 1] > -4096 && cos[k] > -4096;
    }
    assert Crosses(w, cos, 1, 43, 86);
    assert cell == 86;
    SecondFlat();
    SecondStep();
  }

  lemma SecondStep()
    ensures Interpolated(Bracket(-4081, 240, -4103, -112, -192)) == -170
  {
  }

  // ---- The evaluation ----

  lemma CastProduct(a: int, b: int)
    ensures (a * b) as real == Times(a as real, b as real)
  {
  }

  /** The shift in each step takes the floor of the product with the argument as a real number. */
  lemma FloorOf(y: int, x: int, t: real)
    requires 4096.0 * t == x as real
    ensures var f := Shr(y * (16 * x), 16); 0.0 <= Times(t, y as real) - f as real < 1.0
  {
    assert Pow2(16) == 65536 by {
      Pow2Values();
    }
    var f := Shr(y * (16 * x), 16);
    Sixteenths(y, x, f);
    CastProduct(x, y);
    Scaled(t, y as real);
    assert 4096 * f <= x * y < 4096 * f + 4096;
  }

  lemma Sixteenths(y: int, x: int, f: int)
    requires f == (y * (16 * x)) / 65536
    ensures 4096 * f <= x * y < 4096 * f + 4096
  {
    assert y * (16 * x) == 16 * (x * y);
  }

  lemma Scaled(t: real, y: real)
    ensures Times(4096.0 * t, y) == 4096.0 * Times(t, y)
  {
  }

  lemma TwiceAtMost(t: real, e: real, bound: real)
    requires -2.0 <= t <= 2.0 && -bound <= e <= bound
    ensures -2.0 * bound <= Times(t, e) <= 2.0 * bound
  {
    if t >= 0.0 {
      ProductUpTo(t, e, bound);
    } else {
      ProductUpTo(-t, e, bound);
      Negated(t, e);
    }
  }

  lemma Negated(t: real, e: real)
    ensures Times(-t, e) == -Times(t, e)
  {
  }

  lemma ProductUpTo(t: real, e: real, bound: real)
    requires 0.0 <= t <= 2.0 && -bound <= e <= bound
    ensures -2.0 * bound <= Times(t, e) <= 2.0 * bound
  {
    assert Times(t, bound - e) >= 0.0 && Times(t, bound + e) >= 0.0 && Times(2.0 - t, bound) >= 0.0;
  }

  /**
   * The fixed-point evaluation at an entry of the cosine table is the polynomial's value to within
   * its rounding, a bound that depends on the order alone.
   */
  lemma {:induction false} EvalNear(p: seq<int>, x: int, t: real, n: nat)
    requires n < |p| && -8192 <= x <= 8192 && 4096.0 * t == x as real
    ensures var d := Eval(p, x, n) as real - Horner(p, n, t);
            -(Pow2(|p| - 1 - n) as real - 1.0) <= d <= Pow2(|p| - 1 - n) as real - 1.0
    decreases |p| - n
  {
    hide Times, Shr;
    if n < |p| - 1 {
      EvalNear(p, x, t, n + 1);
      var y, h := Eval(p, x, n + 1), Horner(p, n + 1, t);
      var bound := Pow2(|p| - 2 - n) as real - 1.0;
      FloorOf(y, x, t);
      TwiceAtMost(t, y as real - h, bound);
      TimesAdd(y as real - h, h, t);
    }
  }

  // ---- The widening ----

  /** Each chirp is the one before it times the first, rounded to the nearest 65536th. */
  lemma ChirpRounds(c: int, i: nat)
    ensures Chirp(c, 0) == c && Abs(65536 * Chirp(c, i + 1) - c * Chirp(c, i)) <= 32768
  {
    assert Pow2(15) == 32768 && Pow2(1) == 2 by {
      Pow2Values();
    }
    var ch := Chirp(c, i);
    var mul := ch * (c - ONE_Q16);
    assert c * ch == 65536 * ch + mul;
  }

  /** The n-th restart scales each coefficient by its chirp, rounding down. */
  lemma RestartMeans(a: seq<int>, d: nat, n: nat, i: nat)
    requires i < d <= |a| && n >= 1
    ensures var was, now := Restarted(a, d, n - 1)[i], Restarted(a, d, n)[i];
            0 <= Chirp(65536 - Pow2(n), i) * was - 65536 * now < 65536
  {
    hide Chirp, Shr, Restarted, Expanded, Pow2;
    RestartedNext(a, d, n);
    ExpandedAt(Restarted(a, d, n - 1), d, 65536 - Pow2(n), i);
    ShiftMeans(Chirp(65536 - Pow2(n), i) * Restarted(a, d, n - 1)[i]);
  }

  lemma ExpandedAt(a: seq<int>, d: nat, c: int, i: nat)
    requires i < d <= |a|
    ensures Expanded(a, d, c)[i] == Shr(Chirp(c, i) * a[i], 16)
  {
    hide Chirp, Shr;
  }

  lemma ShiftMeans(x: int)
    ensures 0 <= x - 65536 * Shr(x, 16) < 65536
  {
    assert Pow2(16) == 65536 by {
      Pow2Values();
    }
  }

  // ---- The last step ----

  /** The linear step is the zero of the line through the bracket's ends, to the nearest 256th. */
  lemma StepIsLinear(b: Bracket)
    requires Opposite(b.ylo, b.yhi) && Abs(b.ylo) < 65536
    ensures var q, den := Interpolated(b) - b.frac, b.ylo - b.yhi;
            2 * Abs(q * den - 32 * b.ylo) <= Abs(den) + 1
  {
    var den := b.ylo - b.yhi;
    if den != 0 {
      TruncRemainder(32 * b.ylo + den / 2, den);
    }
  }

  lemma TruncRemainder(n: int, m: int)
    requires m != 0 && ((m > 0 && n >= 0) || (m < 0 && n <= 0))
    ensures var r := n - TruncDiv(n, m) * m; if m > 0 then 0 <= r < m else m < r <= 0
  {
    var u, v := Abs(n), Abs(m);
    DivBounds(u, v);
    assert m < 0 ==> u / v * m == 0 - u / v * v;
  }

  /** Far from zero the step divides by a 32nd of the difference instead. */
  lemma FarStepIsLinear(b: Bracket)
    requires Opposite(b.ylo, b.yhi) && Abs(b.ylo) >= 65536
    ensures var q, part := Interpolated(b) - b.frac, (b.ylo - b.yhi) / 32;
            part != 0 && Abs(b.ylo - q * part) < Abs(part)
  {
    TruncRemainder(b.ylo, (b.ylo - b.yhi) / 32);
  }
}
