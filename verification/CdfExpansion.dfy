/**
 * How the embedded seeds become probability tables: the three byte-table expanders (celp_enc.go,
 * lsf_seed.go, pitch_seed.go) and the one for computed distributions (cc_tables.go).  Each rescales
 * weights to 32767 by truncating division, keeping at least one step for every symbol.
 */
module CdfExpansion {
  import opened Bytes
  import opened RangeEncoding

  const MAX_VAL := 32767

  function Total(ws: seq<nat>): nat {
    if |ws| == 0 then 0 else Total(ws[..|ws| - 1]) + ws[|ws| - 1]
  }

  /** The cumulative value after i symbols, the weights adding up to total. */
  function Cum(ws: seq<nat>, total: nat, i: nat): nat
    requires i <= |ws| <= MAX_VAL
  {
    if i == 0 || total == 0 then 0
    else Cum(ws, total, i - 1) + ws[i - 1] * (MAX_VAL - |ws|) / total + 1
  }

  /** The table of a list of weights. */
  function Expand(ws: seq<nat>): (cmf: seq<int>)
    requires |ws| <= MAX_VAL
    ensures |cmf| == |ws| + 1
  {
    seq(|ws| + 1, i requires 0 <= i <= |ws| => Cum(ws, Total(ws), i))
  }

  /** c, after i steps, is what weight w is worth without rounding, give or take a step each. */
  predicate Bracket(k: nat, w: nat, c: nat, i: nat, total: nat) {
    && i <= c && (c - i) * total <= k * w
    && if i == 0 then c == w == 0 else k * w < c * total
  }

  lemma {:induction false} CumBracket(ws: seq<nat>, total: nat, i: nat)
    requires 0 < total && i <= |ws| <= MAX_VAL
    ensures Bracket(MAX_VAL - |ws|, Total(ws[..i]), Cum(ws, total, i), i, total)
    decreases i
  {
    hide Cum, Total, Bracket;
    FirstCum(ws, total);
    if i > 0 {
      CumBracket(ws, total, i - 1);
      TotalPush(ws, i - 1);
      CumUnfold(ws, total, i);
      BracketStep(MAX_VAL - |ws|, ws[i - 1], Total(ws[..i - 1]), Cum(ws, total, i - 1), i, total);
    } else {
      NoBracket(MAX_VAL - |ws|, total);
    }
  }

  lemma NoBracket(k: nat, total: nat)
    ensures Bracket(k, 0, 0, 0, total)
  {
  }

  lemma CumUnfold(ws: seq<nat>, total: nat, i: nat)
    requires 0 < total && 0 < i <= |ws| <= MAX_VAL
    ensures Cum(ws, total, i) == Cum(ws, total, i - 1) + ws[i - 1] * (MAX_VAL - |ws|) / total + 1
  {
  }

  lemma FirstCum(ws: seq<nat>, total: nat)
    requires |ws| <= MAX_VAL
    ensures Cum(ws, total, 0) == 0 && Total(ws[..0]) == 0
  {
  }

  lemma BracketStep(k: nat, w: nat, before: nat, c: nat, i: nat, total: nat)
    requires 0 < i && 0 < total && Bracket(k, before, c, i - 1, total)
    ensures Bracket(k, before + w, c + w * k / total + 1, i, total)
  {
    var f := w * k / total;
    DivBounds(w * k, total);
    assert (c + f + 1 - i) * total == (c - (i - 1)) * total + f * total;
    assert (c + f + 1) * total == c * total + f * total + total;
    assert k * (before + w) == k * before + w * k;
  }

  lemma {:induction false} TotalGrows(ws: seq<nat>, i: nat)
    requires i <= |ws|
    ensures Total(ws[..i]) <= Total(ws)
    decreases |ws|
  {
    if i < |ws| {
      TotalGrows(ws[..|ws| - 1], i);
      assert ws[..|ws| - 1][..i] == ws[..i];
    } else {
      assert ws[..i] == ws;
    }
  }

  /** No value exceeds 32767, and the last is within one step per symbol of it. */
  lemma CumBounds(ws: seq<nat>, i: nat)
    requires 0 < Total(ws) && i <= |ws| <= MAX_VAL
    ensures Cum(ws, Total(ws), i) <= MAX_VAL - |ws| + i
    ensures i == |ws| ==> MAX_VAL - |ws| < Cum(ws, Total(ws), i)
  {
    hide Cum, Total;
    var s, k := Total(ws), MAX_VAL - |ws|;
    CumBracket(ws, s, i);
    TotalGrows(ws, i);
    var c := Cum(ws, s, i);
    MulLe(Total(ws[..i]), s, k);
    if c - i > k {
      MulLe(k + 1, c - i, s);
      OneMore(k, s);
    }
    if i == |ws| {
      assert ws[..i] == ws;
      TotalPositive(ws);
      if c <= k {
        MulLe(c, k, s);
      }
    }
  }

  lemma OneMore(k: nat, s: nat)
    ensures (k + 1) * s == k * s + s
  {
  }

  lemma TotalPositive(ws: seq<nat>)
    requires 0 < Total(ws)
    ensures |ws| > 0
  {
  }

  /** The expansion is a usable table that starts at 0 and ends in (32767 - n, 32767]. */
  lemma ExpandValid(ws: seq<nat>)
    requires 0 < Total(ws) && |ws| < MAX_VAL
    ensures ValidCdf(Expand(ws)) && Expand(ws)[0] == 0
    ensures MAX_VAL - |ws| < Expand(ws)[|ws|] <= MAX_VAL
  {
    var s := Total(ws);
    TotalPositive(ws);
    forall i | 0 <= i <= |ws| ensures 0 <= Cum(ws, s, i) <= MAX_VAL {
      CumBounds(ws, i);
    }
    CumBounds(ws, |ws|);
    forall i, j | 0 <= i < j <= |ws| ensures Cum(ws, s, i) < Cum(ws, s, j) {
      CumGrows(ws, s, i, j);
    }
  }

  lemma {:induction false} CumGrows(ws: seq<nat>, total: nat, i: nat, j: nat)
    requires 0 < total && i < j <= |ws| <= MAX_VAL
    ensures Cum(ws, total, i) < Cum(ws, total, j)
    decreases j
  {
    DivNatural(ws[j - 1] * (MAX_VAL - |ws|), total);
    if i < j - 1 {
      CumGrows(ws, total, i, j - 1);
    }
  }

  lemma DivNatural(a: nat, b: nat)
    requires b > 0
    ensures a / b >= 0
  {
  }

  // ---- Byte tables ----

  /** The weight of a seed byte: the square of the byte plus one, capped at 65535. */
  function Weight(b: byte): (w: nat)
    ensures 1 <= w <= 65535
  {
    Min((b + 1) * (b + 1), 65535)
  }

  function Weights(dcmf: seq<byte>): (ws: seq<nat>)
    ensures |ws| == |dcmf|
  {
    seq<nat>(|dcmf|, i requires 0 <= i < |dcmf| => Weight(dcmf[i]))
  }

  lemma {:induction false} TotalWeights(dcmf: seq<byte>)
    ensures |dcmf| <= Total(Weights(dcmf)) <= 65535 * |dcmf|
  {
    if |dcmf| > 0 {
      TotalWeights(dcmf[..|dcmf| - 1]);
      WeightsPush(dcmf);
    }
  }

  lemma WeightsPush(dcmf: seq<byte>)
    requires |dcmf| > 0
    ensures Total(Weights(dcmf)) == Total(Weights(dcmf[..|dcmf| - 1])) + Weight(dcmf[|dcmf| - 1])
  {
    hide Weight;
    assert Weights(dcmf)[..|dcmf| - 1] == Weights(dcmf[..|dcmf| - 1]);
  }

  method ByteWeight(b: byte) returns (tmp: int)
    ensures tmp == Weight(b)
  {
    tmp := b + 1;
    tmp := tmp * tmp;
    if tmp > 65535 {
      tmp := 65535;
    }
  }

  /** The first loop of every byte-table expander. */
  method FillWeights(dcmf: seq<byte>, cmf: array<int>) returns (sum: nat)
    requires cmf.Length == |dcmf| + 1
    modifies cmf
    ensures sum == Total(Weights(dcmf)) <= 65535 * |dcmf| && (|dcmf| > 0 ==> sum > 0)
    ensures cmf[1..] == Weights(dcmf)
  {
    hide Weight, Total;
    sum := 0;
    TotalNone();
    for i := 0 to |dcmf|
      invariant sum == Total(Weights(dcmf[..i]))
      invariant forall j :: 0 <= j < i ==> cmf[j + 1] == Weights(dcmf)[j]
    {
      var tmp := ByteWeight(dcmf[i]);
      WeightsPush(dcmf[..i + 1]);
      assert dcmf[..i + 1][..i] == dcmf[..i];
      cmf[i + 1] := tmp;
      sum := sum + tmp;
    }
    assert dcmf[..|dcmf|] == dcmf;
    TotalWeights(dcmf);
  }

  /** celpDcmfToCmf: 32-bit products and 16-bit sums, in place; nothing wraps. */
  method CelpDcmfToCmf(dcmf: seq<byte>, cmf: array<int>)
    requires |dcmf| < MAX_VAL && cmf.Length == |dcmf| + 1
    modifies cmf
    ensures cmf[..] == Expand(Weights(dcmf))
  {
    hide Weight, Total, Cum, CelpStep;
    var n := |dcmf|;
    var sum := FillWeights(dcmf, cmf);
    assert sum < 0x8000_0000;
    cmf[0] := 0;
    ghost var ws := Weights(dcmf);
    CumNone(ws, sum);
    for i := 1 to n + 1
      invariant forall j :: 0 <= j < i ==> cmf[j] == Cum(ws, sum, j)
      invariant forall j :: i <= j <= n ==> cmf[j] == ws[j - 1]
    {
      CelpStepExact(ws, sum, i);
      cmf[i] := CelpStep(cmf[i - 1], cmf[i], n, sum);
    }
  }

  /** One value of celpDcmfToCmf in its own widths. */
  function CelpStep(prev: int, w: int, n: nat, sum: nat): int
    requires sum > 0
  {
    (prev + Signed32(w * (32767 - n)) / sum % 0x1_0000 + 1) % 0x1_0000
  }

  lemma CelpStepExact(ws: seq<nat>, sum: nat, i: nat)
    requires 0 < sum == Total(ws) && 0 < i <= |ws| < MAX_VAL && ws[i - 1] <= 65535
    ensures CelpStep(Cum(ws, sum, i - 1), ws[i - 1], |ws|, sum) == Cum(ws, sum, i)
  {
    hide Cum, Total, Signed32;
    NoWrap32(ws[i - 1], |ws|);
    CumBounds(ws, i);
    CumStep(ws, sum, i);
  }

  /** Go's int32 conversion. */
  function Signed32(x: int): int {
    if U32(x) < 0x8000_0000 then U32(x) else U32(x) - 0x1_0000_0000
  }

  lemma NoWrap32(w: nat, n: nat)
    requires w <= 65535 && 0 < n < MAX_VAL
    ensures 0 <= w * (32767 - n) < 0x8000_0000 && Signed32(w * (32767 - n)) == w * (32767 - n)
  {
    MulLe(w, 65535, 32767 - n);
  }

  lemma TotalNone()
    ensures Total(Weights([])) == 0
  {
  }

  lemma CumNone(ws: seq<nat>, total: nat)
    requires |ws| <= MAX_VAL
    ensures Cum(ws, total, 0) == 0
  {
  }

  /** One step of Cum; it and the value it adds to fit in 16 bits. */
  lemma CumStep(ws: seq<nat>, total: nat, i: nat)
    requires 0 < total && 0 < i <= |ws| < MAX_VAL && Cum(ws, total, i) <= MAX_VAL
    ensures var f := ws[i - 1] * (MAX_VAL - |ws|) / total;
            0 <= f < 0x1_0000 && Cum(ws, total, i) == Cum(ws, total, i - 1) + f + 1
  {
    DivNatural(ws[i - 1] * (MAX_VAL - |ws|), total);
  }

  /** lsfDcmfToCmf and pitchDcmfToCmf: the same in 64 bits, building a new table. */
  method WideDcmfToCmf(dcmf: seq<byte>) returns (res: seq<int>)
    requires |dcmf| < MAX_VAL
    ensures res == Expand(Weights(dcmf))
  {
    hide Weight, Total, Cum;
    var n := |dcmf|;
    var cmf := new int[n + 1](i => 0);
    var sum := FillWeights(dcmf, cmf);
    cmf[0] := 0;
    ghost var ws := Weights(dcmf);
    CumNone(ws, sum);
    for i := 1 to n + 1
      invariant forall j :: 0 <= j < i ==> cmf[j] == Cum(ws, sum, j)
      invariant forall j :: i <= j <= n ==> cmf[j] == ws[j - 1]
    {
      CumBounds(ws, i);
      CumStep(ws, sum, i);
      var prev := cmf[i - 1];
      var add := cmf[i] * (32767 - n) / sum + 1;
      cmf[i] := prev + add;
    }
    res := cmf[..];
  }

  /** pdfToCmf: the same rescaling of a computed distribution. */
  method PdfToCmf(pdf: seq<nat>) returns (res: seq<int>)
    requires 0 < Total(pdf) && |pdf| < MAX_VAL
    ensures res == Expand(pdf) && ValidCdf(res) && res[0] == 0 && MAX_VAL - |pdf| < res[|pdf|] <= MAX_VAL
  {
    hide Total, Cum;
    var n, sump := |pdf|, 0;
    NoTotal();
    for i := 0 to n
      invariant sump == Total(pdf[..i])
    {
      TotalPush(pdf, i);
      sump := sump + pdf[i];
    }
    assert pdf[..n] == pdf;
    var cmf := new int[n + 1](i => 0);
    CumNone(pdf, sump);
    for i := 0 to n
      invariant forall j :: 0 <= j <= i ==> cmf[j] == Cum(pdf, sump, j)
    {
      CumBounds(pdf, i + 1);
      CumStep(pdf, sump, i + 1);
      var p := pdf[i] * (32767 - n) / sump + 1;
      cmf[i + 1] := (cmf[i] + p) % 0x1_0000;
    }
    res := cmf[..];
    ExpandValid(pdf);
  }

  lemma NoTotal()
    ensures Total([]) == 0
  {
  }

  lemma TotalPush(pdf: seq<nat>, i: nat)
    requires i < |pdf|
    ensures Total(pdf[..i + 1]) == Total(pdf[..i]) + pdf[i]
  {
    assert pdf[..i + 1][..i] == pdf[..i];
  }

  /** Every byte table of at least one byte expands to a usable table, whichever expander is used. */
  lemma ByteTableValid(dcmf: seq<byte>)
    requires 0 < |dcmf| < MAX_VAL
    ensures var cmf := Expand(Weights(dcmf));
            ValidCdf(cmf) && cmf[0] == 0 && MAX_VAL - |dcmf| < cmf[|dcmf|] <= MAX_VAL
  {
    TotalWeights(dcmf);
    ExpandValid(Weights(dcmf));
  }

  /** What one symbol is worth in a byte table: one, and its part of the rest by the square of its byte plus one. */
  lemma SymbolShare(dcmf: seq<byte>, i: nat, b: int, w: int)
    requires i < |dcmf| < MAX_VAL && b == dcmf[i] && w == if b == 255 then 65535 else (b + 1) * (b + 1)
    ensures var part, total := Expand(Weights(dcmf))[i + 1] - Expand(Weights(dcmf))[i] - 1, Total(Weights(dcmf));
            total > 0 && 0 <= part && part * total <= w * (32767 - |dcmf|) < part * total + total
  {
    hide Total, Cum, Weight;
    var ws := Weights(dcmf);
    TotalWeights(dcmf);
    WeightIs(dcmf[i]);
    CumUnfold(ws, Total(ws), i + 1);
    DivBounds(ws[i] * (MAX_VAL - |ws|), Total(ws));
  }

  lemma WeightIs(b: byte)
    ensures var x: int := b; Weight(b) == if x == 255 then 65535 else (x + 1) * (x + 1)
  {
    if b < 255 {
      MulLe(b + 1, 255, b + 1);
      MulLe(b + 1, 255, 255);
    }
  }
}
