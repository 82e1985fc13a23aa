/**
 * The fixed-point search for line spectral frequencies (silkA2NLSF of src/voip/media/mlow/lpc.go),
 * over unbounded integers: a walk over 128 cells of a cosine table that stops where the sum and the
 * difference polynomial, in turn, change sign, and widens the filter's bandwidth when it runs out.
 */
module RootSearch {
  import opened Bytes
  import opened LspPolynomials

  const LSF_COS_TAB_SZ := 128
  const BIN_DIV_STEPS := 3
  const MAX_ITERATIONS := 16
  const INT16_MAX := 32767

  // ---- Fixed-point pieces ----

  /** A right shift, which rounds toward minus infinity. */
  function Shr(x: int, k: nat): int {
    x / Pow2(k)
  }

  function RshiftRound(a: int, shift: nat): int
    requires shift >= 1
  {
    if shift == 1 then Shr(a, 1) + a % 2 else Shr(Shr(a, shift - 1) + 1, 1)
  }

  function Smlaww(a32: int, b32: int, c32: int): int {
    a32 + Shr(b32 * c32, 16)
  }

  /** The polynomial from coefficient n on, at x in Q12. */
  function Eval(p: seq<int>, x: int, n: nat): int
    requires n < |p|
    decreases |p| - n
  {
    if n == |p| - 1 then p[n] else Smlaww(p[n], Eval(p, x, n + 1), 16 * x)
  }

  function At(p: seq<int>, x: int): int
    requires |p| > 0
  {
    Eval(p, x, 0)
  }

  method EvalPoly(p: array<int>, x: int, dd: nat) returns (y: int)
    requires p.Length == dd + 1
    ensures y == At(p[..], x)
  {
    hide Smlaww;
    var xQ16 := 16 * x;
    y := p[dd];
    var n := dd;
    while n > 0
      invariant 0 <= n <= dd && y == Eval(p[..], x, n)
    {
      n := n - 1;
      y := Smlaww(p[n], y, xQ16);
    }
  }

  function Chirp(chirp: int, i: nat): int {
    if i == 0 then chirp
    else Chirp(chirp, i - 1) + RshiftRound(Chirp(chirp, i - 1) * (chirp - ONE_Q16), 16)
  }

  function Expanded(a: seq<int>, d: nat, chirp: int): (r: seq<int>)
    ensures |r| == |a|
  {
    seq(|a|, i requires 0 <= i < |a| => if i < d then Shr(Chirp(chirp, i) * a[i], 16) else a[i])
  }

  /** silkBwexpander32: each coefficient is scaled by one more power of the chirp. */
  method Bwexpander32(ar: array<int>, d: nat, chirpQ16: int)
    requires 1 <= d <= ar.Length
    modifies ar
    ensures ar[..] == Expanded(old(ar[..]), d, chirpQ16)
  {
    hide RshiftRound, Shr;
    ghost var was := ar[..];
    var chirp := chirpQ16;
    var chirpMinusOne := chirpQ16 - ONE_Q16;
    for i := 0 to d - 1
      invariant chirp == Chirp(chirpQ16, i)
      invariant forall k :: 0 <= k < i ==> ar[k] == Shr(Chirp(chirpQ16, k) * was[k], 16)
      invariant forall k :: i <= k < ar.Length ==> ar[k] == was[k]
    {
      ar[i] := Shr(chirp * ar[i], 16);
      var mul := chirp * chirpMinusOne;
      chirp := chirp + RshiftRound(mul, 16);
    }
    ar[d - 1] := Shr(chirp * ar[d - 1], 16);
  }

  /** The coefficients after a number of restarts. */
  function Restarted(a: seq<int>, d: nat, n: nat): (r: seq<int>)
    ensures |r| == |a|
  {
    if n == 0 then a else Expanded(Restarted(a, d, n - 1), d, ONE_Q16 - Pow2(n))
  }

  // ---- One cell ----

  predicate Opposite(u: int, v: int) {
    (u <= 0 && v >= 0) || (u >= 0 && v <= 0)
  }

  datatype Bracket = Bracket(xlo: int, ylo: int, xhi: int, yhi: int, frac: int)

  /** The half of a bracket, by the rounded-up middle, that keeps the sign change. */
  function Half(p: seq<int>, b: Bracket, m: nat): Bracket
    requires |p| > 0
  {
    var xmid := RshiftRound(b.xlo + b.xhi, 1);
    var ymid := At(p, xmid);
    if Opposite(b.ylo, ymid) then b.(xhi := xmid, yhi := ymid)
    else b.(xlo := xmid, ylo := ymid, frac := b.frac + Shr(128, m))
  }

  function Bisect(p: seq<int>, b: Bracket, m: nat): Bracket
    requires |p| > 0
    decreases BIN_DIV_STEPS - m
  {
    if m >= BIN_DIV_STEPS then b else Bisect(p, Half(p, b, m), m + 1)
  }

  /** What is left of a cell: a sign change still, in about an eighth of the width. */
  predicate Inside(p: seq<int>, whole: Bracket, b: Bracket, m: nat)
    requires |p| > 0
  {
    && Opposite(b.ylo, b.yhi)
    && ((b.xlo == whole.xlo && b.ylo == whole.ylo) || b.ylo == At(p, b.xlo))
    && ((b.xhi == whole.xhi && b.yhi == whole.yhi) || b.yhi == At(p, b.xhi))
    && Narrowed(Abs(whole.xhi - whole.xlo), Abs(b.xhi - b.xlo), m)
    && whole.frac <= b.frac <= whole.frac + Covered(m)
  }

  /** The width after m halvings, each rounded up or down. */
  predicate Narrowed(whole: nat, width: nat, m: nat) {
    if m == 0 then width <= whole
    else if m == 1 then 2 * width <= whole + 1
    else if m == 2 then 4 * width <= whole + 3
    else 8 * width <= whole + 7
  }

  /** The parts of the cell that m halvings can step over, in 256ths. */
  function Covered(m: nat): nat {
    if m == 0 then 0 else if m == 1 then 128 else if m == 2 then 192 else 224
  }

  lemma CoveredNext(m: nat)
    requires m < BIN_DIV_STEPS
    ensures 0 <= Shr(128, m) && Covered(m) + Shr(128, m) == Covered(m + 1)
  {
    assert Pow2(0) == 1 && Pow2(1) == 2 && Pow2(2) == 4;
  }

  lemma NarrowedNext(whole: nat, width: nat, half: nat, m: nat)
    requires m < BIN_DIV_STEPS && Narrowed(whole, width, m) && 2 * half <= width + 1
    ensures Narrowed(whole, half, m + 1)
  {
  }

  lemma MidPoint(lo: int, hi: int)
    ensures var mid := RshiftRound(lo + hi, 1);
            2 * Abs(hi - mid) <= Abs(hi - lo) + 1 && 2 * Abs(mid - lo) <= Abs(hi - lo) + 1
  {
    assert Pow2(1) == 2;
  }

  lemma {:induction false} BisectKeeps(p: seq<int>, whole: Bracket, b: Bracket, m: nat)
    requires |p| > 0 && m <= BIN_DIV_STEPS && Inside(p, whole, b, m)
    ensures Inside(p, whole, Bisect(p, b, m), BIN_DIV_STEPS)
    decreases BIN_DIV_STEPS - m
  {
    hide Bisect, Inside, At;
    if m < BIN_DIV_STEPS {
      BisectNext(p, b, m);
      HalfInside(p, whole, b, m);
      BisectKeeps(p, whole, Half(p, b, m), m + 1);
    } else {
      BisectEnd(p, b);
    }
  }

  lemma HalfInside(p: seq<int>, whole: Bracket, b: Bracket, m: nat)
    requires |p| > 0 && m < BIN_DIV_STEPS && Inside(p, whole, b, m)
    ensures Inside(p, whole, Half(p, b, m), m + 1)
  {
    hide Abs, At, RshiftRound, Shr, Covered, Narrowed;
    MidPoint(b.xlo, b.xhi);
    CoveredNext(m);
    var xmid := RshiftRound(b.xlo + b.xhi, 1);
    var wide := Abs(whole.xhi - whole.xlo);
    NarrowedNext(wide, Abs(b.xhi - b.xlo), Abs(xmid - b.xlo), m);
    NarrowedNext(wide, Abs(b.xhi - b.xlo), Abs(b.xhi - xmid), m);
  }

  lemma BisectNext(p: seq<int>, b: Bracket, m: nat)
    requires |p| > 0 && m < BIN_DIV_STEPS
    ensures Bisect(p, b, m) == Bisect(p, Half(p, b, m), m + 1)
  {
    hide Half;
  }

  lemma BisectEnd(p: seq<int>, b: Bracket)
    requires |p| > 0
    ensures Bisect(p, b, BIN_DIV_STEPS) == b
  {
  }

  /** The linear step inside the last bracket; its divisors cannot be zero. */
  function Interpolated(b: Bracket): (f: int)
    requires Opposite(b.ylo, b.yhi)
    ensures b.frac <= f <= b.frac + 33
  {
    if Abs(b.ylo) < 65536 then
      var den := b.ylo - b.yhi;
      var nom := 32 * b.ylo + den / 2;
      NearStep(b.ylo, den);
      if den != 0 then b.frac + TruncDiv(nom, den) else b.frac
    else
      FarStep(b.ylo, b.ylo - b.yhi);
      b.frac + TruncDiv(b.ylo, (b.ylo - b.yhi) / 32)
  }

  lemma NearStep(y: int, den: int)
    requires (y >= 0 && den >= y) || (y <= 0 && den <= y)
    ensures den != 0 ==> 0 <= TruncDiv(32 * y + den / 2, den) <= 33
  {
    hide TruncDiv;
    if den != 0 {
      Quotient(32 * y + den / 2, den, 33);
    }
  }

  lemma FarStep(y: int, den: int)
    requires Abs(y) >= 65536 && (y >= 0 ==> den >= y) && (y <= 0 ==> den <= y)
    ensures den / 32 != 0 && 0 <= TruncDiv(y, den / 32) <= 32
  {
    hide TruncDiv;
    Quotient(y, den / 32, 32);
  }

  lemma Quotient(n: int, m: int, c: nat)
    requires m != 0 && (m > 0 ==> 0 <= n < c * m + m) && (m < 0 ==> c * m + m < n <= 0)
    ensures 0 <= TruncDiv(n, m) <= c
  {
    var u, v := Abs(n), Abs(m);
    assert m < 0 ==> c * m == 0 - c * v;
    if u / v >= c + 1 {
      MulLe(c + 1, u / v, v);
    }
  }

  /** From a crossed cell to a fraction of it, counted back from its upper end. */
  method Refine(p: array<int>, dd: nat, xlo: int, ylo: int, xhi: int, yhi0: int) returns (ffrac: int)
    requires p.Length == dd + 1 && Opposite(ylo, yhi0)
    ensures var b := Bisect(p[..], Bracket(xlo, ylo, xhi, yhi0, -256), 0);
            Opposite(b.ylo, b.yhi) && ffrac == Interpolated(b)
  {
    hide Bisect, At, RshiftRound, Shr, TruncDiv;
    var xloL, yloL, xhiL, yhi := xlo, ylo, xhi, yhi0;
    ffrac := -256;
    for m := 0 to BIN_DIV_STEPS
      invariant Opposite(yloL, yhi)
      invariant Bisect(p[..], Bracket(xloL, yloL, xhiL, yhi, ffrac), m)
                == Bisect(p[..], Bracket(xlo, ylo, xhi, yhi0, -256), 0)
    {
      BisectNext(p[..], Bracket(xloL, yloL, xhiL, yhi, ffrac), m);
      var xmid := RshiftRound(xloL + xhiL, 1);
      var ymid := EvalPoly(p, xmid, dd);
      if (yloL <= 0 && ymid >= 0) || (yloL >= 0 && ymid <= 0) {
        xhiL := xmid;
        yhi := ymid;
      } else {
        xloL := xmid;
        yloL := ymid;
        ffrac := ffrac + Shr(128, m);
      }
    }
    BisectEnd(p[..], Bracket(xloL, yloL, xhiL, yhi, ffrac));
    var absYloL := yloL;
    if absYloL < 0 {
      absYloL := -absYloL;
    }
    if absYloL < 65536 {
      var den := yloL - yhi;
      var nom := 32 * yloL + den / 2;
      if den != 0 {
        ffrac := ffrac + TruncDiv(nom, den);
      }
    } else {
      FarStep(yloL, yloL - yhi);
      ffrac := ffrac + TruncDiv(yloL, (yloL - yhi) / 32);
    }
  }

  // ---- The walk over the cells ----

  /** The sum and the difference polynomial of a filter. */
  datatype Polys = Polys(p: seq<int>, q: seq<int>) {
    ghost predicate Valid() {
      |p| > 0 && |q| > 0
    }

    /** The roots alternate between the two. */
    function Of(i: nat): (r: seq<int>)
      requires Valid()
      ensures |r| > 0
    {
      if i % 2 == 1 then q else p
    }
  }

  function PolysOf(a: seq<int>, dd: nat): (w: Polys)
    requires 2 * dd <= |a|
    ensures w.Valid()
  {
    Polys(LspPoly(a, dd, false), LspPoly(a, dd, true))
  }

  /** The sum polynomial is already negative at zero: root 0 is put there. */
  predicate Leading(w: Polys, cos: seq<int>)
    requires w.Valid() && |cos| == LSF_COS_TAB_SZ + 1
  {
    At(w.p, cos[0]) < 0
  }

  /** The sign at which a polynomial stands when its turn comes inside a cell. */
  function Expected(i: nat): int {
    if i / 2 % 2 == 0 then 4096 else -4096
  }

  /** Is cell k the one in which the previous root was found? */
  predicate Again(w: Polys, cos: seq<int>, i: nat, prev: nat, k: nat)
    requires w.Valid() && |cos| == LSF_COS_TAB_SZ + 1
  {
    k == prev && i > 0 && !(i == 1 && Leading(w, cos))
  }

  function Ylo(w: Polys, cos: seq<int>, i: nat, prev: nat, k: nat): int
    requires w.Valid() && |cos| == LSF_COS_TAB_SZ + 1 && 1 <= k <= LSF_COS_TAB_SZ
  {
    if Again(w, cos, i, prev, k) then Expected(i) else At(w.Of(i), cos[k - 1])
  }

  /** A root on the upper end of a cell is not counted for the next polynomial as well. */
  function Thr(w: Polys, cos: seq<int>, i: nat, prev: nat, k: nat): int
    requires w.Valid() && |cos| == LSF_COS_TAB_SZ + 1 && 1 <= k <= LSF_COS_TAB_SZ
  {
    if Again(w, cos, i, prev, k) && At(w.Of(i - 1), cos[k]) == 0 then 1 else 0
  }

  predicate Change(ylo: int, yhi: int, thr: int) {
    (ylo <= 0 && yhi >= thr) || (ylo >= 0 && yhi <= 0 - thr)
  }

  predicate Crosses(w: Polys, cos: seq<int>, i: nat, prev: nat, k: nat)
    requires w.Valid() && |cos| == LSF_COS_TAB_SZ + 1 && 1 <= k <= LSF_COS_TAB_SZ
  {
    Change(Ylo(w, cos, i, prev, k), At(w.Of(i), cos[k]), Thr(w, cos, i, prev, k))
  }

  function Cell(w: Polys, cos: seq<int>, i: nat, prev: nat, k: nat): Bracket
    requires w.Valid() && |cos| == LSF_COS_TAB_SZ + 1 && 1 <= k <= LSF_COS_TAB_SZ
  {
    Bracket(cos[k - 1], Ylo(w, cos, i, prev, k), cos[k], At(w.Of(i), cos[k]), -256)
  }

  lemma CellKeepsChange(w: Polys, cos: seq<int>, i: nat, prev: nat, k: nat)
    requires w.Valid() && |cos| == LSF_COS_TAB_SZ + 1 && 1 <= k <= LSF_COS_TAB_SZ && Crosses(w, cos, i, prev, k)
    ensures var c := Cell(w, cos, i, prev, k);
            Opposite(c.ylo, c.yhi) && Inside(w.Of(i), c, Bisect(w.Of(i), c, 0), BIN_DIV_STEPS)
  {
    hide At, Bisect;
    var c := Cell(w, cos, i, prev, k);
    BisectKeeps(w.Of(i), c, c, 0);
  }

  /** The frequency of a crossing, in 256ths of a cell. */
  function Frequency(w: Polys, cos: seq<int>, i: nat, prev: nat, k: nat): (f: int)
    requires w.Valid() && |cos| == LSF_COS_TAB_SZ + 1 && 1 <= k <= LSF_COS_TAB_SZ && Crosses(w, cos, i, prev, k)
    ensures 256 * (k - 1) <= f <= 256 * k + 1 && f <= INT16_MAX
  {
    CellKeepsChange(w, cos, i, prev, k);
    Min(256 * k + Interpolated(Bisect(w.Of(i), Cell(w, cos, i, prev, k), 0)), INT16_MAX)
  }

  /** Root i: the first crossing of its polynomial from the cell of the root before it. */
  ghost predicate RootOk(w: Polys, cos: seq<int>, i: nat, prev: nat, cell: nat, value: int)
    requires w.Valid() && |cos| == LSF_COS_TAB_SZ + 1
  {
    && 1 <= prev <= cell <= LSF_COS_TAB_SZ
    && if i == 0 && Leading(w, cos) then cell == 1 && value == 0
       else
         && (forall k :: prev <= k < cell ==> !Crosses(w, cos, i, prev, k))
         && Crosses(w, cos, i, prev, cell) && value == Frequency(w, cos, i, prev, cell)
  }

  function Prev(cells: seq<nat>, i: nat): nat
    requires i <= |cells|
  {
    if i == 0 then 1 else cells[i - 1]
  }

  ghost predicate Found(w: Polys, cos: seq<int>, cells: seq<nat>, values: seq<int>)
    requires w.Valid() && |cos| == LSF_COS_TAB_SZ + 1 && |values| >= |cells|
  {
    forall i :: 0 <= i < |cells| ==> RootOk(w, cos, i, Prev(cells, i), cells[i], values[i])
  }

  lemma FoundPush(w: Polys, cos: seq<int>, cells: seq<nat>, values: seq<int>, cell: nat, value: int)
    requires w.Valid() && |cos| == LSF_COS_TAB_SZ + 1 && |values| > |cells| && Found(w, cos, cells, values)
    requires RootOk(w, cos, |cells|, Prev(cells, |cells|), cell, value)
    ensures Found(w, cos, cells + [cell], values[|cells| := value])
  {
    hide RootOk;
    var more, now := cells + [cell], values[|cells| := value];
    forall i | 0 <= i < |more| ensures RootOk(w, cos, i, Prev(more, i), more[i], now[i]) {
      if i < |cells| {
        assert RootOk(w, cos, i, Prev(cells, i), cells[i], values[i]);
        assert Prev(more, i) == Prev(cells, i);
      }
    }
  }

  /** The walk for root i stands before cell k. */
  ghost predicate Walking(w: Polys, cos: seq<int>, i: nat, prev: nat, k: nat, ylo: int, thr: int)
    requires w.Valid() && |cos| == LSF_COS_TAB_SZ + 1
  {
    && 1 <= prev <= k <= LSF_COS_TAB_SZ
    && (i == 0 ==> !Leading(w, cos))
    && ylo == Ylo(w, cos, i, prev, k) && thr == Thr(w, cos, i, prev, k)
    && forall j :: prev <= j < k ==> !Crosses(w, cos, i, prev, j)
  }

  lemma WalkStart(w: Polys, cos: seq<int>)
    requires w.Valid() && |cos| == LSF_COS_TAB_SZ + 1
    ensures !Leading(w, cos) ==> Walking(w, cos, 0, 1, 1, At(w.p, cos[0]), 0)
    ensures Leading(w, cos) ==> Walking(w, cos, 1, 1, 1, At(w.q, cos[0]), 0) && RootOk(w, cos, 0, 1, 1, 0)
  {
    hide At;
  }

  lemma WalkNext(w: Polys, cos: seq<int>, i: nat, prev: nat, k: nat, ylo: int, thr: int, yhi: int)
    requires w.Valid() && |cos| == LSF_COS_TAB_SZ + 1 && Walking(w, cos, i, prev, k, ylo, thr)
    requires yhi == At(w.Of(i), cos[k]) && !Change(ylo, yhi, thr)
    ensures k < LSF_COS_TAB_SZ ==> Walking(w, cos, i, prev, k + 1, yhi, 0)
  {
    hide At, Leading;
    assert !Crosses(w, cos, i, prev, k);
  }

  lemma WalkFound(w: Polys, cos: seq<int>, i: nat, prev: nat, k: nat, ylo: int, thr: int, yhi: int, frac: int)
    requires w.Valid() && |cos| == LSF_COS_TAB_SZ + 1 && Walking(w, cos, i, prev, k, ylo, thr)
    requires yhi == At(w.Of(i), cos[k]) && Change(ylo, yhi, thr)
    requires var b := Bisect(w.Of(i), Bracket(cos[k - 1], ylo, cos[k], yhi, -256), 0);
             Opposite(b.ylo, b.yhi) && frac == Interpolated(b)
    ensures RootOk(w, cos, i, prev, k, Min(256 * k + frac, INT16_MAX))
    ensures Walking(w, cos, i + 1, k, k, Expected(i + 1), if yhi == 0 then 1 else 0)
  {
    hide At, Leading, Bisect, Interpolated;
    assert Crosses(w, cos, i, prev, k);
  }

  /** The roots found so far, and where the walk for the next one stands. */
  ghost predicate Searching(w: Polys, cos: seq<int>, cells: seq<nat>, values: seq<int>, k: nat, ylo: int, thr: int)
    requires w.Valid() && |cos| == LSF_COS_TAB_SZ + 1
  {
    && |cells| <= |values| && Found(w, cos, cells, values)
    && Walking(w, cos, |cells|, Prev(cells, |cells|), k, ylo, thr)
  }

  lemma SearchOn(w: Polys, cos: seq<int>, cells: seq<nat>, values: seq<int>, k: nat, ylo: int, thr: int, yhi: int)
    requires w.Valid() && |cos| == LSF_COS_TAB_SZ + 1 && Searching(w, cos, cells, values, k, ylo, thr)
    requires 1 <= k <= LSF_COS_TAB_SZ && yhi == At(w.Of(|cells|), cos[k])
    ensures Change(ylo, yhi, thr) ==> Opposite(ylo, yhi)
    ensures !Change(ylo, yhi, thr) && k < LSF_COS_TAB_SZ ==> Searching(w, cos, cells, values, k + 1, yhi, 0)
  {
    hide At, Walking, Change, Opposite, Found;
    if Change(ylo, yhi, thr) {
      WalkChange(w, cos, |cells|, Prev(cells, |cells|), k, ylo, thr, yhi);
    } else {
      WalkNext(w, cos, |cells|, Prev(cells, |cells|), k, ylo, thr, yhi);
    }
  }

  lemma SearchFound(w: Polys, cos: seq<int>, cells: seq<nat>, values: seq<int>, k: nat, ylo: int, thr: int,
                    yhi: int, frac: int)
    requires w.Valid() && |cos| == LSF_COS_TAB_SZ + 1 && Searching(w, cos, cells, values, k, ylo, thr)
    requires 1 <= k <= LSF_COS_TAB_SZ && yhi == At(w.Of(|cells|), cos[k]) && Change(ylo, yhi, thr)
    requires |cells| < |values|
    requires var b := Bisect(w.Of(|cells|), Bracket(cos[k - 1], ylo, cos[k], yhi, -256), 0);
             Opposite(b.ylo, b.yhi) && frac == Interpolated(b)
    ensures Searching(w, cos, cells + [k], values[|cells| := Min(256 * k + frac, INT16_MAX)],
                      k, Expected(|cells| + 1), if yhi == 0 then 1 else 0)
  {
    hide At, Walking, Change, Opposite, Found, RootOk, Bisect, Interpolated, Expected;
    WalkFound(w, cos, |cells|, Prev(cells, |cells|), k, ylo, thr, yhi, frac);
    FoundPush(w, cos, cells, values, k, Min(256 * k + frac, INT16_MAX));
  }

  lemma RootRange(w: Polys, cos: seq<int>, i: nat, prev: nat, cell: nat, value: int)
    requires w.Valid() && |cos| == LSF_COS_TAB_SZ + 1 && RootOk(w, cos, i, prev, cell, value)
    ensures 1 <= prev <= cell <= LSF_COS_TAB_SZ
    ensures 256 * (cell - 1) <= value <= 256 * cell + 1 && value <= INT16_MAX
  {
    hide Crosses, Leading, Cell, Bisect, Interpolated;
  }

  /** Root frequencies stay in their cells, which never go back: the order holds up to one cell. */
  lemma {:induction false} FoundOrdered(w: Polys, cos: seq<int>, cells: seq<nat>, values: seq<int>, i: nat, j: nat)
    requires w.Valid() && |cos| == LSF_COS_TAB_SZ + 1 && |values| >= |cells| && Found(w, cos, cells, values)
    requires i <= j < |cells|
    ensures 1 <= cells[i] <= cells[j] <= LSF_COS_TAB_SZ
    ensures 256 * (cells[i] - 1) <= values[i] <= 256 * cells[i] + 1
    ensures 0 <= values[i] <= values[j] + 257 && values[i] <= INT16_MAX
    decreases j - i
  {
    hide RootOk;
    RootRange(w, cos, i, Prev(cells, i), cells[i], values[i]);
    RootRange(w, cos, j, Prev(cells, j), cells[j], values[j]);
    if i < j {
      FoundOrdered(w, cos, cells, values, i, j - 1);
    }
  }

  lemma RootUnique(w: Polys, cos: seq<int>, i: nat, prev: nat, c1: nat, v1: int, c2: nat, v2: int)
    requires w.Valid() && |cos| == LSF_COS_TAB_SZ + 1
    requires RootOk(w, cos, i, prev, c1, v1) && RootOk(w, cos, i, prev, c2, v2)
    ensures c1 == c2 && v1 == v2
  {
    hide Crosses, Leading, Frequency;
  }

  /** Only one list of cells and frequencies can be found. */
  lemma {:induction false} FoundUnique(w: Polys, cos: seq<int>, cells: seq<nat>, values: seq<int>,
                                       others: seq<nat>, ones: seq<int>, i: nat)
    requires w.Valid() && |cos| == LSF_COS_TAB_SZ + 1
    requires i < |cells| <= |values| && i < |others| <= |ones|
    requires Found(w, cos, cells, values) && Found(w, cos, others, ones)
    ensures cells[i] == others[i] && values[i] == ones[i]
  {
    hide RootOk;
    if i > 0 {
      FoundUnique(w, cos, cells, values, others, ones, i - 1);
    }
    RootUnique(w, cos, i, Prev(cells, i), cells[i], values[i], others[i], ones[i]);
  }

  // ---- The search ----

  /** Evenly spaced frequencies, for a filter on which the search gives up. */
  predicate Even(values: seq<int>, d: nat) {
    && d <= |values|
    && forall i :: 0 <= i < d ==> values[i] == (i + 1) * (32768 / (d + 1))
  }

  /**
   * silkA2NLSF. It always ends; cells is where the roots were found and restarts how often the
   * bandwidth was widened first. With more than 16 the frequencies are evenly spaced instead.
   */
  method A2Nlsf(nlsf: array<int>, aQ16: array<int>, d: nat, cos: seq<int>)
    returns (ghost cells: seq<nat>, ghost restarts: nat)
    requires d >= 2 && d % 2 == 0 && d <= nlsf.Length && d <= aQ16.Length && nlsf != aQ16
    requires |cos| == LSF_COS_TAB_SZ + 1
    modifies nlsf, aQ16
    ensures restarts <= MAX_ITERATIONS + 1
    ensures aQ16[..] == Restarted(old(aQ16[..]), d, Min(restarts, MAX_ITERATIONS))
    ensures restarts <= MAX_ITERATIONS ==>
              |cells| == d && Found(PolysOf(aQ16[..], d / 2), cos, cells, nlsf[..])
    ensures restarts > MAX_ITERATIONS ==> Even(nlsf[..], d)
    ensures forall i :: d <= i < nlsf.Length ==> nlsf[i] == old(nlsf[i])
  {
    hide At, Pow2, Polys.Valid, LspPoly, PolysOf, Searching, Found, Restarted, Expanded, Bisect, Interpolated,
      Opposite, Expected;
    ghost var given := aQ16[..];
    var dd := d / 2;
    var p := new int[dd + 1];
    var q := new int[dd + 1];
    ghost var w;
    var useQ, rootIx, ylo;
    useQ, rootIx, ylo, w, cells := StartSearch(nlsf, aQ16, p, q, dd, cos);
    var xlo := cos[0];
    var k := 1;
    var iter, thr := 0, 0;
    RestartedZero(given, d);
    while true
      invariant p[..] == w.p && q[..] == w.q && w == PolysOf(aQ16[..], dd)
      invariant 1 <= k <= LSF_COS_TAB_SZ && |cells| == rootIx < d && 0 <= iter <= MAX_ITERATIONS
      invariant useQ == (rootIx % 2 == 1)
      invariant aQ16[..] == Restarted(given, d, iter)
      invariant Searching(w, cos, cells, nlsf[..], k, ylo, thr) && xlo == cos[k - 1]
      invariant forall i :: d <= i < nlsf.Length ==> nlsf[i] == old(nlsf[i])
      decreases MAX_ITERATIONS - iter, d - rootIx + LSF_COS_TAB_SZ - k
    {
      var xhi := cos[k];
      var yhi := EvalPoly(if useQ then q else p, xhi, dd);
      SearchOn(w, cos, cells, nlsf[..], k, ylo, thr, yhi);
      if (ylo <= 0 && yhi >= thr) || (ylo >= 0 && yhi <= -thr) {
        var ffrac := Refine(if useQ then q else p, dd, xlo, ylo, xhi, yhi);
        SearchFound(w, cos, cells, nlsf[..], k, ylo, thr, yhi, ffrac);
        thr := if yhi == 0 then 1 else 0;
        ghost var before := nlsf[..];
        nlsf[rootIx] := Min(256 * k + ffrac, INT16_MAX);
        assert nlsf[..] == before[rootIx := Min(256 * k + ffrac, INT16_MAX)];
        cells := cells + [k];
        rootIx := rootIx + 1;
        xlo := cos[k - 1];
        ylo := Expected(rootIx);
        if rootIx >= d {
          break;
        }
        useQ := rootIx % 2 == 1;
      } else {
        k := k + 1;
        xlo := xhi;
        ylo := yhi;
        thr := 0;
        if k > LSF_COS_TAB_SZ {
          iter := iter + 1;
          if iter > MAX_ITERATIONS {
            SpaceEvenly(nlsf, d);
            restarts := iter;
            return;
          }
          RestartedNext(given, d, iter);
          Bwexpander32(aQ16, d, 65536 - Pow2(iter));
          useQ, rootIx, ylo, w, cells := StartSearch(nlsf, aQ16, p, q, dd, cos);
          xlo := cos[0];
          k := 1;
        }
      }
    }
    SearchEnd(w, cos, cells, nlsf[..], k, ylo, thr);
    restarts := iter;
  }

  lemma SearchEnd(w: Polys, cos: seq<int>, cells: seq<nat>, values: seq<int>, k: nat, ylo: int, thr: int)
    requires w.Valid() && |cos| == LSF_COS_TAB_SZ + 1 && Searching(w, cos, cells, values, k, ylo, thr)
    ensures |cells| <= |values| && Found(w, cos, cells, values)
  {
  }

  lemma RestartedZero(a: seq<int>, d: nat)
    ensures Restarted(a, d, 0) == a
  {
  }

  lemma RestartedNext(a: seq<int>, d: nat, n: nat)
    requires n > 0
    ensures Restarted(a, d, n) == Expanded(Restarted(a, d, n - 1), d, ONE_Q16 - Pow2(n))
  {
    hide Expanded;
  }

  /** Where the search starts: root 0 is at zero when the sum polynomial is negative there. */
  method StartSearch(nlsf: array<int>, aQ16: array<int>, p: array<int>, q: array<int>, dd: nat, cos: seq<int>)
    returns (useQ: bool, rootIx: nat, ylo: int, ghost w: Polys, ghost cells: seq<nat>)
    requires nlsf.Length > 0 && 2 * dd <= aQ16.Length && p.Length == q.Length == dd + 1
    requires |cos| == LSF_COS_TAB_SZ + 1
    requires p != q && p != aQ16 && q != aQ16 && nlsf != p && nlsf != q && nlsf != aQ16
    modifies nlsf, p, q
    ensures w == PolysOf(aQ16[..], dd) && p[..] == w.p && q[..] == w.q
    ensures |cells| == rootIx <= 1 && useQ == (rootIx == 1)
    ensures Searching(w, cos, cells, nlsf[..], 1, ylo, 0)
    ensures forall i :: 1 <= i < nlsf.Length ==> nlsf[i] == old(nlsf[i])
  {
    hide At, Walking, RootOk, LspPoly;
    InitPolys(aQ16, p, q, dd);
    w := PolysOf(aQ16[..], dd);
    WalkStart(w, cos);
    useQ, rootIx, cells := false, 0, [];
    ylo := EvalPoly(p, cos[0], dd);
    if ylo < 0 {
      nlsf[0] := 0;
      useQ := true;
      ylo := EvalPoly(q, cos[0], dd);
      rootIx, cells := 1, [1];
    }
  }

  lemma WalkChange(w: Polys, cos: seq<int>, i: nat, prev: nat, k: nat, ylo: int, thr: int, yhi: int)
    requires w.Valid() && |cos| == LSF_COS_TAB_SZ + 1 && Walking(w, cos, i, prev, k, ylo, thr)
    requires Change(ylo, yhi, thr)
    ensures Opposite(ylo, yhi)
  {
    hide At, Leading;
  }

  method SpaceEvenly(nlsf: array<int>, d: nat)
    requires 1 <= d <= nlsf.Length
    modifies nlsf
    ensures Even(nlsf[..], d) && forall i :: d <= i < nlsf.Length ==> nlsf[i] == old(nlsf[i])
  {
    ghost var e := 32768 / (d + 1);
    nlsf[0] := TruncDiv(32768, d + 1);
    for kk := 1 to d
      invariant nlsf[0] == e
      invariant forall i :: 0 <= i < kk ==> nlsf[i] == (i + 1) * e
      invariant forall i :: d <= i < nlsf.Length ==> nlsf[i] == old(nlsf[i])
    {
      nlsf[kk] := nlsf[kk - 1] + nlsf[0];
    }
  }
}
