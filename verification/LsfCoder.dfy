/**
 * The line-spectral-frequency block and the predictor state that links the three internal frames
 * of a packet: encodeSmplLsf (encoder.go) and DecodeSmplLsf (lsf.go).
 */
module LsfCoder {
  import opened Bytes
  import opened Intervals
  import opened RangeEncoding
  import opened RangeDecoding
  import opened CodecTables

  /** What one internal frame remembers for the next; -1 where there is nothing to predict from. */
  datatype Predictor = Predictor(stage1: int, gainIdx: int, filtIdx: int, blk: int, idx: int)

  /** The encoder predicts lags from prevLagblk and prevLagidx, the decoder from prevLag and prevFracLag. */
  class SmplLsfState {
    var prevStage1: int
    var prevMatch: bool
    var havePrev: bool
    var prevGainIdx: int
    var prevFiltIdx: int
    var prevLag: int
    var prevFracLag: int
    var prevLagblk: int
    var prevLagidx: int

    function EncView(): Predictor
      reads this
    {
      Predictor(prevStage1, prevGainIdx, prevFiltIdx, prevLagblk, prevLagidx)
    }

    function DecView(): Predictor
      reads this
    {
      Predictor(prevStage1, prevGainIdx, prevFiltIdx, prevLag, prevFracLag)
    }

    /** The zero value. */
    constructor ()
      ensures EncView() == DecView() == Predictor(0, 0, 0, 0, 0)
    {
      prevStage1, prevGainIdx, prevFiltIdx := 0, 0, 0;
      prevLag, prevFracLag, prevLagblk, prevLagidx := 0, 0, 0, 0;
      prevMatch, havePrev := false, false;
    }
  }

  /** The predictor once a frame's selector is known: kept on a match, cleared otherwise. */
  function Advance(p: Predictor, intf: nat, stage1: int): Predictor {
    if intf != 0 && stage1 == p.stage1 then p else Predictor(stage1, -1, -1, -1, -1)
  }

  datatype LsfTables = LsfTables(
    sel: seq<seq<int>>,
    match1: seq<int>,
    match1Alt: seq<int>,
    match0: seq<int>,
    match0Alt: seq<int>,
    stage2: seq<seq<seq<seq<seq<int>>>>>,
    extra: seq<int>)
  {
    predicate Valid() {
      && |sel| == 3 && (forall i :: 0 <= i < 3 ==> ValidCdf(sel[i]) && |sel[i]| == 3)
      && ValidCdf(match1) && ValidCdf(match1Alt) && ValidCdf(match0) && ValidCdf(match0Alt)
      && ValidCdf(extra)
      && |stage2| == 2 && |stage2[0]| > 0 && |stage2[1]| > 0
      && |match1Alt| <= |stage2[0][0]| + 1 && |match0| <= |stage2[0][0]| + 1
      && |match1| <= |stage2[1][0]| + 1 && |match0Alt| <= |stage2[1][0]| + 1
      && (forall g :: 0 <= g < |stage2[0][0]| ==> SixteenCdfs(stage2[0][0][g]))
      && (forall g :: 0 <= g < |stage2[1][0]| ==> SixteenCdfs(stage2[1][0][g]))
    }

    /** The row of the stage-1 selector. */
    function SelRow(p: Predictor, intf: nat): nat {
      if intf == 0 then 0 else if p.stage1 != 0 then 2 else 1
    }

    function GridCdf(match_: bool, stage1: int): seq<int> {
      if match_ && stage1 != 0 then match1
      else if match_ then match1Alt
      else if stage1 != 0 then match0Alt
      else match0
    }

    function Stage2Row(stage1: int, grid: int): seq<seq<int>> {
      if 0 <= stage1 < |stage2| && 0 < |stage2[stage1]| && 0 <= grid < |stage2[stage1][0]|
      then stage2[stage1][0][grid] else []
    }
  }

  predicate SixteenCdfs(cdfs: seq<seq<int>>) {
    |cdfs| == 16 && forall k :: 0 <= k < 16 ==> ValidCdf(cdfs[k])
  }

  datatype LsfParams = LsfParams(stage1: int, grid: int, stage2: seq<int>, extra: int)

  predicate InCdf(s: int, cdf: seq<int>) {
    0 <= s < |cdf| - 1
  }

  predicate IsMatch(p: Predictor, intf: nat, stage1: int) {
    intf != 0 && stage1 == p.stage1
  }

  /** Indices that the tables of this frame can code. */
  predicate ValidLsf(t: LsfTables, p: Predictor, intf: nat, lsf: LsfParams) {
    && t.Valid() && 0 <= lsf.stage1 <= 1 && BodyFits(t, IsMatch(p, intf, lsf.stage1), lsf)
  }

  predicate BodyFits(t: LsfTables, m: bool, lsf: LsfParams) {
    && InCdf(lsf.grid, t.GridCdf(m, lsf.stage1))
    && RowFits(t.Stage2Row(lsf.stage1, lsf.grid), lsf.stage2)
    && InCdf(lsf.extra, t.extra)
  }

  /** One index for each table of a row. */
  predicate RowFits(cdfs: seq<seq<int>>, idx: seq<int>) {
    |cdfs| == |idx| && forall k :: 0 <= k < |idx| ==> ValidCdf(cdfs[k]) && 0 <= idx[k] < |cdfs[k]| - 1
  }

  /** One symbol from each table. */
  function RowSyms(cdfs: seq<seq<int>>, idx: seq<int>): seq<Sym>
    requires RowFits(cdfs, idx)
  {
    if |idx| == 0 then [] else [CdfSym(cdfs[0], idx[0])] + RowSyms(cdfs[1..], idx[1..])
  }

  lemma {:induction false} RowSymsPush(cdfs: seq<seq<int>>, idx: seq<int>, cdf: seq<int>, s: int)
    requires RowFits(cdfs, idx) && ValidCdf(cdf) && 0 <= s < |cdf| - 1
    ensures RowFits(cdfs + [cdf], idx + [s])
    ensures RowSyms(cdfs + [cdf], idx + [s]) == RowSyms(cdfs, idx) + [CdfSym(cdf, s)]
  {
    hide ValidCdf;
    if |idx| > 0 {
      RowSymsPush(cdfs[1..], idx[1..], cdf, s);
      assert (cdfs + [cdf])[1..] == cdfs[1..] + [cdf] && (idx + [s])[1..] == idx[1..] + [s];
    }
  }

  /** The row from place k on: its first symbol and the rest. */
  lemma RowSymsStep(cdfs: seq<seq<int>>, idx: seq<int>, k: nat)
    requires RowFits(cdfs, idx) && k < |idx|
    ensures RowFits(cdfs[k..], idx[k..]) && RowFits(cdfs[k + 1..], idx[k + 1..])
    ensures RowSyms(cdfs[k..], idx[k..]) == [CdfSym(cdfs[k], idx[k])] + RowSyms(cdfs[k + 1..], idx[k + 1..])
  {
    hide ValidCdf;
    assert cdfs[k..][1..] == cdfs[k + 1..] && idx[k..][1..] == idx[k + 1..];
  }

  /** What follows the selector: the grid, sixteen residuals and the extra index. */
  function BodySyms(t: LsfTables, m: bool, lsf: LsfParams): seq<Sym>
    requires BodyFits(t, m, lsf)
  {
    [CdfSym(t.GridCdf(m, lsf.stage1), lsf.grid)]
    + (RowSyms(t.Stage2Row(lsf.stage1, lsf.grid), lsf.stage2) + [CdfSym(t.extra, lsf.extra)])
  }

  function LsfSyms(t: LsfTables, p: Predictor, intf: nat, lsf: LsfParams): seq<Sym>
    requires ValidLsf(t, p, intf, lsf)
  {
    [CdfSym(t.sel[t.SelRow(p, intf)], lsf.stage1)] + BodySyms(t, IsMatch(p, intf, lsf.stage1), lsf)
  }

  // ---- The block on the wire ----

  /**
   * The nineteen symbols of the block, table by table: the selector by frame number and the voicing
   * of the frame before, the grid by match and voicing, sixteen residuals and the extra index.
   */
  predicate LsfWire(t: LsfTables, p: Predictor, intf: nat, lsf: LsfParams, w: seq<Sym>)
    requires ValidLsf(t, p, intf, lsf)
  {
    && |w| == 19
    && w[0] == Entry(t.sel[if intf == 0 then 0 else if p.stage1 == 0 then 1 else 2], lsf.stage1)
    && GridWire(t, intf > 0 && p.stage1 == lsf.stage1, lsf.stage1 == 1, lsf.grid, w[1])
    && |t.stage2[lsf.stage1][0][lsf.grid]| == |lsf.stage2| == 16
    && (forall k :: 0 <= k < 16 ==> EntryWire(t.stage2[lsf.stage1][0][lsf.grid][k], lsf.stage2[k], w[2 + k]))
    && w[18] == Entry(t.extra, lsf.extra)
  }

  predicate EntryWire(table: seq<int>, s: int, x: Sym) {
    0 <= s < |table| - 1 && x == Entry(table, s)
  }

  /** Which of the four tables codes the grid. */
  predicate GridWire(t: LsfTables, same: bool, voiced: bool, grid: int, x: Sym) {
    && (same && voiced ==> EntryWire(t.match1, grid, x))
    && (same && !voiced ==> EntryWire(t.match1Alt, grid, x))
    && (!same && voiced ==> EntryWire(t.match0Alt, grid, x))
    && (!same && !voiced ==> EntryWire(t.match0, grid, x))
  }

  lemma {:induction false} RowSymsAt(cdfs: seq<seq<int>>, idx: seq<int>)
    requires RowFits(cdfs, idx)
    ensures |RowSyms(cdfs, idx)| == |idx|
    ensures forall k :: 0 <= k < |idx| ==> RowSyms(cdfs, idx)[k] == Entry(cdfs[k], idx[k])
  {
    hide ValidCdf;
    if |idx| > 0 {
      RowSymsAt(cdfs[1..], idx[1..]);
      forall k | 0 < k < |idx| ensures RowSyms(cdfs, idx)[k] == Entry(cdfs[k], idx[k]) {
        assert RowSyms(cdfs, idx)[k] == RowSyms(cdfs[1..], idx[1..])[k - 1];
      }
    }
  }

  lemma LsfSymsWire(t: LsfTables, p: Predictor, intf: nat, lsf: LsfParams)
    requires ValidLsf(t, p, intf, lsf)
    ensures LsfWire(t, p, intf, lsf, LsfSyms(t, p, intf, lsf))
  {
    hide ValidCdf, RowSyms;
    RowSymsAt(t.Stage2Row(lsf.stage1, lsf.grid), lsf.stage2);
  }

  /** The block is coded as the tables say, and only so. */
  lemma LsfWireIff(t: LsfTables, p: Predictor, intf: nat, lsf: LsfParams, w: seq<Sym>)
    requires ValidLsf(t, p, intf, lsf)
    ensures LsfWire(t, p, intf, lsf, w) <==> w == LsfSyms(t, p, intf, lsf)
  {
    hide ValidCdf, LsfSyms, Entry;
    LsfSymsWire(t, p, intf, lsf);
    var v := LsfSyms(t, p, intf, lsf);
    if LsfWire(t, p, intf, lsf, w) {
      forall k | 0 <= k < 19 ensures w[k] == v[k] {
        if 2 <= k < 18 {
          assert EntryWire(t.stage2[lsf.stage1][0][lsf.grid][k - 2], lsf.stage2[k - 2], w[2 + (k - 2)]);
          assert EntryWire(t.stage2[lsf.stage1][0][lsf.grid][k - 2], lsf.stage2[k - 2], v[2 + (k - 2)]);
        }
      }
    }
  }

  lemma OnlyWire(t: LsfTables, p: Predictor, intf: nat, lsf: LsfParams)
    ensures ValidLsf(t, p, intf, lsf) ==>
              forall w: seq<Sym> :: LsfWire(t, p, intf, lsf, w) ==> w == LsfSyms(t, p, intf, lsf)
  {
    hide ValidLsf, LsfWire, LsfSyms;
    if ValidLsf(t, p, intf, lsf) {
      forall w: seq<Sym> | LsfWire(t, p, intf, lsf, w) ensures w == LsfSyms(t, p, intf, lsf) {
        LsfWireIff(t, p, intf, lsf, w);
      }
    }
  }

  lemma RowsValid(t: LsfTables, p: Predictor, intf: nat, m: bool, stage1: int)
    requires t.Valid() && 0 <= stage1 <= 1
    ensures |t.sel| == 3 && ValidCdf(t.sel[t.SelRow(p, intf)]) && |t.sel[t.SelRow(p, intf)]| == 3
    ensures ValidCdf(t.GridCdf(m, stage1)) && ValidCdf(t.extra)
    ensures |t.stage2| == 2 && |t.stage2[stage1]| > 0
    ensures |t.GridCdf(m, stage1)| - 1 <= |t.stage2[stage1][0]|
    ensures forall g :: 0 <= g < |t.stage2[stage1][0]| ==> SixteenCdfs(t.stage2[stage1][0][g])
  {
    hide ValidCdf, SixteenCdfs;
  }

  /** encodeSmplLsf at config 0. */
  method EncodeSmplLsf(enc: RangeEncoder, t: LsfTables, st: SmplLsfState, intf: nat, lsf: LsfParams)
    requires enc.Valid() && ValidLsf(t, st.EncView(), intf, lsf)
    modifies enc, enc.buf, st
    ensures enc.Valid() && enc.misused == old(enc.misused)
    ensures enc.written == old(enc.written) + LsfSyms(t, old(st.EncView()), intf, lsf)
    ensures LsfWire(t, old(st.EncView()), intf, lsf, enc.written[|old(enc.written)|..])
    ensures st.EncView() == Advance(old(st.EncView()), intf, lsf.stage1)
  {
    hide RangeEncoder.Valid, LsfTables.Valid, ValidCdf, SixteenCdfs, RowSyms, RowFits, LsfTables.GridCdf, CdfSym,
      LsfWire;
    ghost var p := st.EncView();
    ghost var before := enc.written;
    var sel := 0;
    if intf != 0 {
      if st.prevStage1 != 0 {
        sel := 2;
      } else {
        sel := 1;
      }
    }
    var stage1 := lsf.stage1;
    var m := intf != 0 && stage1 == st.prevStage1;
    RowsValid(t, p, intf, m, stage1);
    EncodeIndex(enc, stage1, t.sel[sel]);
    if !m {
      st.prevGainIdx, st.prevFiltIdx := -1, -1;
      st.prevLag, st.prevFracLag := -1, -1;
      st.prevLagblk, st.prevLagidx := -1, -1;
    }
    st.prevStage1 := stage1;
    var gridCdf;
    if m && stage1 != 0 {
      gridCdf := t.match1;
    } else if m {
      gridCdf := t.match1Alt;
    } else if stage1 != 0 {
      gridCdf := t.match0Alt;
    } else {
      gridCdf := t.match0;
    }
    GridCdfIs(t, m, stage1);
    EncodeIndex(enc, lsf.grid, gridCdf);
    st.prevMatch, st.havePrev := m, true;
    EncodeRow(enc, t.stage2[stage1][0][lsf.grid], lsf.stage2);
    EncodeIndex(enc, lsf.extra, t.extra);
    AssociateFive(before, [CdfSym(t.sel[sel], stage1)], [CdfSym(gridCdf, lsf.grid)],
                 RowSyms(t.Stage2Row(stage1, lsf.grid), lsf.stage2), [CdfSym(t.extra, lsf.extra)]);
    LsfSymsWire(t, p, intf, lsf);
    assert enc.written[|before|..] == LsfSyms(t, p, intf, lsf);
  }

  lemma GridCdfIs(t: LsfTables, m: bool, stage1: int)
    ensures t.GridCdf(m, stage1) == if m && stage1 != 0 then t.match1
                                    else if m then t.match1Alt
                                    else if stage1 != 0 then t.match0Alt
                                    else t.match0
  {
  }

  /** EncodeCDF of an index that its table has. */
  method EncodeIndex(enc: RangeEncoder, s: int, cdf: seq<int>)
    requires enc.Valid() && ValidCdf(cdf) && 0 <= s < |cdf| - 1
    modifies enc, enc.buf
    ensures enc.Valid() && enc.misused == old(enc.misused)
    ensures enc.written == old(enc.written) + [CdfSym(cdf, s)]
  {
    hide RangeEncoder.Valid;
    CdfSymValid(cdf, s);
    enc.EncodeCDF(s, cdf);
  }

  method EncodeRow(enc: RangeEncoder, cdfs: seq<seq<int>>, idx: seq<int>)
    requires enc.Valid() && RowFits(cdfs, idx)
    modifies enc, enc.buf
    ensures enc.Valid() && enc.misused == old(enc.misused)
    ensures enc.written == old(enc.written) + RowSyms(cdfs, idx)
  {
    hide RangeEncoder.Valid, ValidCdf, RowSyms, CdfSym;
    NoRow();
    for k := 0 to |idx|
      invariant enc.Valid() && enc.misused == old(enc.misused)
      invariant enc.written == old(enc.written) + RowSyms(cdfs[..k], idx[..k])
    {
      RowSymsPush(cdfs[..k], idx[..k], cdfs[k], idx[k]);
      assert cdfs[..k] + [cdfs[k]] == cdfs[..k + 1] && idx[..k] + [idx[k]] == idx[..k + 1];
      EncodeIndex(enc, idx[k], cdfs[k]);
    }
    assert cdfs[..|idx|] == cdfs && idx[..|idx|] == idx;
  }

  lemma NoRow()
    ensures RowFits([], []) && RowSyms([], []) == []
  {
  }

  datatype LsfIndices = LsfIndices(stage1: int, grid: int, stage2: seq<int>, stageNraw: seq<int>, extra: int)

  function ParamsOfIndices(i: LsfIndices): LsfParams {
    LsfParams(i.stage1, i.grid, i.stage2, i.extra)
  }

  /** DecodeSmplLsf at config 0. */
  method DecodeSmplLsf(dec: RangeDecoder, t: LsfTables, st: SmplLsfState, intf: nat,
                       ghost sent: LsfParams, ghost rest: seq<Sym>) returns (idx: LsfIndices)
    requires dec.Valid() && t.Valid()
    modifies dec, st
    ensures dec.Valid() && dec.err == old(dec.err)
    ensures ValidLsf(t, old(st.DecView()), intf, ParamsOfIndices(idx))
    ensures idx.stageNraw == LastIndices(t.Stage2Row(idx.stage1, idx.grid))
    ensures st.DecView() == Advance(old(st.DecView()), intf, idx.stage1)
    ensures ValidLsf(t, old(st.DecView()), intf, sent)
            && old(dec.Holds(LsfSyms(t, st.DecView(), intf, sent) + rest))
            ==> ParamsOfIndices(idx) == sent && dec.Holds(rest)
    ensures ValidLsf(t, old(st.DecView()), intf, sent)
            && (exists w: seq<Sym> :: LsfWire(t, old(st.DecView()), intf, sent, w) && old(dec.Holds(w + rest)))
            ==> ParamsOfIndices(idx) == sent && dec.Holds(rest)
  {
    hide LsfWire, RangeDecoder.Valid, RangeDecoder.Holds, LsfTables.Valid, ValidCdf, BodyFits, BodySyms, CdfSym,
      LastIndices;
    ghost var p := st.DecView();
    ghost var ok := ValidLsf(t, p, intf, sent) && dec.Holds(LsfSyms(t, p, intf, sent) + rest);
    ghost var after := [];
    OnlyWire(t, p, intf, sent);
    RowsValid(t, p, intf, false, 0);
    if ok {
      after := BodySyms(t, IsMatch(p, intf, sent.stage1), sent) + rest;
      Associate([CdfSym(t.sel[t.SelRow(p, intf)], sent.stage1)],
                BodySyms(t, IsMatch(p, intf, sent.stage1), sent), rest);
    }
    var sel := 0;
    if intf != 0 {
      if st.prevStage1 != 0 {
        sel := 2;
      } else {
        sel := 1;
      }
    }
    var stage1 := dec.DecodeCDF(t.sel[sel], sent.stage1, after);
    var m := intf != 0 && stage1 == st.prevStage1;
    if !m {
      st.prevGainIdx, st.prevFiltIdx := -1, -1;
      st.prevLag, st.prevFracLag := -1, -1;
    }
    st.prevStage1 := stage1;
    idx := DecodeLsfBody(dec, t, m, stage1, sent, rest);
    st.prevMatch, st.havePrev := m, true;
  }

  /** The reads after the selector. */
  method DecodeLsfBody(dec: RangeDecoder, t: LsfTables, m: bool, stage1: int,
                       ghost sent: LsfParams, ghost rest: seq<Sym>) returns (idx: LsfIndices)
    requires dec.Valid() && t.Valid() && 0 <= stage1 <= 1
    modifies dec
    ensures dec.Valid() && dec.err == old(dec.err)
    ensures idx.stage1 == stage1 && BodyFits(t, m, ParamsOfIndices(idx))
    ensures idx.stageNraw == LastIndices(t.Stage2Row(stage1, idx.grid))
    ensures sent.stage1 == stage1 && BodyFits(t, m, sent) && old(dec.Holds(BodySyms(t, m, sent) + rest))
            ==> ParamsOfIndices(idx) == sent && dec.Holds(rest)
  {
    hide RangeDecoder.Valid, RangeDecoder.Holds, LsfTables.Valid, ValidCdf, RowSyms, RowFits,
      LsfTables.GridCdf, CdfSym, LastIndices;
    ghost var p0 := Predictor(0, 0, 0, 0, 0);
    RowsValid(t, p0, 0, m, stage1);
    ghost var ok := sent.stage1 == stage1 && BodyFits(t, m, sent) && dec.Holds(BodySyms(t, m, sent) + rest);
    ghost var after2, after1 := [], [];
    if ok {
      after2 := [CdfSym(t.extra, sent.extra)] + rest;
      after1 := RowSyms(t.Stage2Row(stage1, sent.grid), sent.stage2) + after2;
      AssociateFour([CdfSym(t.GridCdf(m, stage1), sent.grid)],
                RowSyms(t.Stage2Row(stage1, sent.grid), sent.stage2), [CdfSym(t.extra, sent.extra)], rest);
    }
    var gridCdf;
    if m && stage1 != 0 {
      gridCdf := t.match1;
    } else if m {
      gridCdf := t.match1Alt;
    } else if stage1 != 0 {
      gridCdf := t.match0Alt;
    } else {
      gridCdf := t.match0;
    }
    GridCdfIs(t, m, stage1);
    var grid := dec.DecodeCDF(gridCdf, sent.grid, after1);
    var st2 := t.stage2[stage1][0][grid];
    var stage2 := DecodeRow(dec, st2, sent.stage2, after2);
    var extra := dec.DecodeCDF(t.extra, sent.extra, rest);
    idx := LsfIndices(stage1, grid, stage2, LastIndices(st2), extra);
  }

  /** The greatest index of each table of a row. */
  function LastIndices(cdfs: seq<seq<int>>): seq<int> {
    seq(|cdfs|, k requires 0 <= k < |cdfs| => |cdfs[k]| - 2)
  }

  method DecodeRow(dec: RangeDecoder, cdfs: seq<seq<int>>, ghost sent: seq<int>, ghost rest: seq<Sym>)
    returns (idx: seq<int>)
    requires dec.Valid() && SixteenCdfs(cdfs)
    modifies dec
    ensures dec.Valid() && dec.err == old(dec.err)
    ensures RowFits(cdfs, idx)
    ensures (RowFits(cdfs, sent) && old(dec.Holds(RowSyms(cdfs, sent) + rest))) ==> idx == sent && dec.Holds(rest)
  {
    hide RangeDecoder.Valid, RangeDecoder.Holds, ValidCdf, RowSyms, CdfSym;
    idx := [];
    ghost var ok := RowFits(cdfs, sent) && dec.Holds(RowSyms(cdfs, sent) + rest);
    assert sent[0..] == sent && cdfs[0..] == cdfs;
    for k := 0 to 16
      invariant |idx| == k && forall i :: 0 <= i < k ==> 0 <= idx[i] < |cdfs[i]| - 1
      invariant dec.Valid() && dec.err == old(dec.err)
      invariant ok ==> idx == sent[..k] && RowFits(cdfs[k..], sent[k..])
                       && dec.Holds(RowSyms(cdfs[k..], sent[k..]) + rest)
    {
      ghost var sent', after := 0, [];
      if ok {
        RowSymsStep(cdfs, sent, k);
        sent', after := sent[k], RowSyms(cdfs[k + 1..], sent[k + 1..]) + rest;
        Associate([CdfSym(cdfs[k], sent')], RowSyms(cdfs[k + 1..], sent[k + 1..]), rest);
      }
      var s := dec.DecodeCDF(cdfs[k], sent', after);
      idx := idx + [s];
    }
    if ok {
      assert cdfs[16..] == [] && sent[16..] == [];
      NoRow();
      assert [] + rest == rest;
    }
  }

}
