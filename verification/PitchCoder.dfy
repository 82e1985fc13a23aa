/** The voiced side of the encoder: encodeSmplPitch (encoder.go) and encodeLagsWire (pitch.go). */
module PitchCoder {
  import opened Bytes
  import opened Intervals
  import opened RangeEncoding
  import opened CodecTables
  import opened PitchTables
  import opened PitchSpec
  import opened LsfCoder

  /** The selector of encodeLagsWire. */
  method EncodeContour(tab: PitchTables, enc: RangeEncoder, blocksegsIx: int, prevLagblk: int)
    requires enc.Valid() && tab.Valid() && 0 <= blocksegsIx < NUM_CONTOURS && -1 <= prevLagblk < NUM_BLOCKS
    modifies enc, enc.buf
    ensures enc.Valid() && enc.misused == old(enc.misused)
    ensures enc.written == old(enc.written) + ContourSyms(tab, blocksegsIx, prevLagblk)
  {
    hide RangeEncoder.Valid, ValidSym, ValidCdf;
    ContourFacts(tab, blocksegsIx, prevLagblk);
    var ixJulia := tab.blocksegs2idx[blocksegsIx];
    if prevLagblk < 0 {
      var cmf := tab.blocksegIdxCmf;
      enc.Encode(cmf[ixJulia - 1], cmf[ixJulia], cmf[|tab.blocksegs|]);
    } else {
      var cmf := tab.blockTransitionCmf[prevLagblk];
      var b0 := tab.blocksegs[blocksegsIx].blocks[0];
      enc.Encode(cmf[b0], cmf[b0 + 1], cmf[NUM_BLOCKS]);
      var startIx := tab.firstblockRange[b0].0;
      var cmfLen := tab.firstblockRange[b0].1 - tab.firstblockRange[b0].0 + 1;
      var cmf2 := tab.blocksegIdxCmf[startIx..];
      var lo := ixJulia - startIx - 1;
      var hi := ixJulia - startIx;
      enc.Encode(cmf2[lo] - cmf2[0], cmf2[hi] - cmf2[0], cmf2[cmfLen] - cmf2[0]);
    }
  }

  lemma ContourFacts(tab: PitchTables, c: int, prev: int)
    requires tab.Valid() && 0 <= c < NUM_CONTOURS && -1 <= prev < NUM_BLOCKS
    ensures var ix := tab.blocksegs2idx[c];
            && 1 <= ix <= 217 && |tab.blocksegIdxCmf| == 218
            && CdfSym(tab.blocksegIdxCmf, ix - 1)
               == Sym(tab.blocksegIdxCmf[ix - 1], tab.blocksegIdxCmf[ix], tab.blocksegIdxCmf[217])
            && ValidSym(CdfSym(tab.blocksegIdxCmf, ix - 1))
    ensures tab.blocksegs[c].Valid()
    ensures prev >= 0 ==>
              var b0, cmf := tab.blocksegs[c].blocks[0], tab.blockTransitionCmf[prev];
              |cmf| == 10 && CdfSym(cmf, b0) == Sym(cmf[b0], cmf[b0 + 1], cmf[9]) && ValidSym(CdfSym(cmf, b0))
    ensures var b0 := tab.blocksegs[c].blocks[0];
            var lo := tab.firstblockRange[b0].0;
            var hi := tab.firstblockRange[b0].1;
            && 0 <= lo < tab.blocksegs2idx[c] <= hi + 1 <= 217
            && ValidSym(CdfSym(FirstRow(tab, b0), tab.blocksegs2idx[c] - 1 - lo))
  {
    var ix := tab.blocksegs2idx[c];
    CdfSymValid(tab.blocksegIdxCmf, ix - 1);
    assert tab.blocksegs[c].Valid();
    var b0 := tab.blocksegs[c].blocks[0];
    if prev >= 0 {
      CdfSymValid(tab.blockTransitionCmf[prev], b0);
    }
    assert tab.InFirstRange(b0, ix - 1);
    CdfSymValid(FirstRow(tab, b0), ix - 1 - tab.firstblockRange[b0].0);
  }

  /** The lags of encodeLagsWire: the first segment outright unless it continues the frame before, then deltas. */
  method EncodeSegments(tab: PitchTables, enc: RangeEncoder, pp: PitchParams, prevBlk: int, prevIdx: int, mode: nat)
    requires enc.Valid() && ValidLags(tab, pp) && ValidLagState(prevBlk, prevIdx) && mode < 3
    modifies enc, enc.buf
    ensures enc.Valid() && enc.misused == old(enc.misused)
    ensures enc.written == old(enc.written) + SegSyms(tab, pp, mode, prevBlk, prevIdx)
  {
    hide RangeEncoder.Valid, ValidCdf, DeltaSyms, PitchTables.Valid, LagsFill, SegStart;
    var prevLagblk, prevLagidx := prevBlk, prevIdx;
    ContourIsValid(tab, pp);
    var pblockseg := tab.blocksegs[pp.contour];
    var blk := pblockseg.blocks[0];
    var deltaBlk := blk - prevLagblk;
    var startSeg, lagindsIx := 0, 0;
    StartsAtZero(pblockseg.seglens);
    if !(prevLagblk > -1 && deltaBlk >= -1 && deltaBlk <= 2) {
      FirstSegment(tab, pp);
      var idxMod := pp.laginds[lagindsIx] - blk * BLOCK_SIZE;
      Associate(enc.written, [Sym(idxMod, idxMod + 1, 64)], DeltaSyms(tab, pp, mode, 1, blk, pp.laginds[lagindsIx]));
      enc.Encode(idxMod, idxMod + 1, BLOCK_SIZE);
      prevLagblk := blk;
      prevLagidx := pp.laginds[lagindsIx];
      lagindsIx := lagindsIx + pblockseg.seglens[0];
      startSeg := 1;
    }
    var deltaLagCmf := tab.deltaLagCmfs[mode];
    for k := startSeg to |pblockseg.blocks|
      invariant enc.Valid() && enc.misused == old(enc.misused)
      invariant lagindsIx == SegStart(pblockseg.seglens, k) && InBlock(prevLagblk, prevLagidx)
      invariant k < |pblockseg.blocks| ==> Near(prevLagblk, pblockseg.blocks[k])
      invariant enc.written + DeltaSyms(tab, pp, mode, k, prevLagblk, prevLagidx)
                == old(enc.written) + SegSyms(tab, pp, mode, prevBlk, prevIdx)
    {
      DeltaStep(tab, pp, mode, k, prevLagblk, prevLagidx);
      blk := pblockseg.blocks[k];
      var idx := pp.laginds[lagindsIx];
      lagindsIx := lagindsIx + pblockseg.seglens[k];
      deltaBlk := blk - prevLagblk;
      var deltaIdx := idx - prevLagidx;
      var prevLagidxMod := prevLagidx - prevLagblk * BLOCK_SIZE;
      var deltaRangeStart := -prevLagidxMod + deltaBlk * BLOCK_SIZE;
      var cmfBase := deltaRangeStart + 2 * BLOCK_SIZE - 1;
      var ix := deltaIdx - deltaRangeStart;
      var p0 := deltaLagCmf[cmfBase];
      DeltaSymShape(tab, mode, blk, prevLagidx, ix);
      ghost var s := CdfSym(DeltaRow(tab, mode, blk, prevLagidx), ix);
      assert ix == idx - blk * BLOCK_SIZE && cmfBase == blk * BLOCK_SIZE - prevLagidx + 2 * BLOCK_SIZE - 1;
      assert s == Sym(deltaLagCmf[cmfBase + ix] - p0, deltaLagCmf[cmfBase + ix + 1] - p0,
                      deltaLagCmf[cmfBase + BLOCK_SIZE] - p0);
      Associate(enc.written, [s], DeltaSyms(tab, pp, mode, k + 1, blk, idx));
      enc.Encode(deltaLagCmf[cmfBase + ix] - p0, deltaLagCmf[cmfBase + ix + 1] - p0,
                 deltaLagCmf[cmfBase + BLOCK_SIZE] - p0);
      prevLagblk := blk;
      prevLagidx := idx;
    }
    NoDelta(tab, pp, mode, prevLagblk, prevLagidx);
    assert enc.written + [] == enc.written;
  }

  lemma ContourIsValid(tab: PitchTables, pp: PitchParams)
    requires ValidLags(tab, pp)
    ensures |tab.blocksegs| == NUM_CONTOURS && |tab.deltaLagCmfs| == 3 && |pp.laginds| == NUM_SUBFRAMES
    ensures tab.blocksegs[pp.contour].Valid()
  {
  }

  lemma StartsAtZero(seglens: seq<int>)
    ensures SegStart(seglens, 0) == 0
    ensures |seglens| > 0 ==> SegStart(seglens, 1) == seglens[0]
  {
    if |seglens| > 0 {
      assert SegStart(seglens, 1) == SegStart(seglens, 0) + seglens[0];
    }
  }

  lemma FirstSegment(tab: PitchTables, pp: PitchParams)
    requires ValidLags(tab, pp)
    ensures var bs := tab.blocksegs[pp.contour];
            && bs.Valid() && InBlock(bs.blocks[0], pp.laginds[0]) && SegLag(bs, pp.laginds, 0) == pp.laginds[0]
            && var s := pp.laginds[0] - bs.blocks[0] * BLOCK_SIZE; ValidSym(Sym(s, s + 1, BLOCK_SIZE))
  {
    assert SegFilled(tab.blocksegs[pp.contour], pp.laginds, 0);
  }

  lemma NoDelta(tab: PitchTables, pp: PitchParams, mode: nat, blk: int, lag: int)
    requires ValidLags(tab, pp) && mode < 3 && InBlock(blk, lag)
    ensures DeltaSyms(tab, pp, mode, |tab.blocksegs[pp.contour].blocks|, blk, lag) == []
  {
  }

  /** One segment of DeltaSyms. */
  lemma DeltaStep(tab: PitchTables, pp: PitchParams, mode: nat, k: nat, blk: int, lag: int)
    requires ValidLags(tab, pp) && mode < 3 && k < |tab.blocksegs[pp.contour].blocks|
    requires InBlock(blk, lag) && Near(blk, tab.blocksegs[pp.contour].blocks[k])
    ensures var bs := tab.blocksegs[pp.contour];
            && bs.Valid() && 0 <= SegStart(bs.seglens, k) < NUM_SUBFRAMES
            && SegStart(bs.seglens, k + 1) == SegStart(bs.seglens, k) + bs.seglens[k]
            && |pp.laginds| == NUM_SUBFRAMES
    ensures var bs := tab.blocksegs[pp.contour];
            var b, next := bs.blocks[k], pp.laginds[SegStart(bs.seglens, k)];
            && InBlock(b, next) && (k + 1 < |bs.blocks| ==> Near(b, bs.blocks[k + 1]))
            && DeltaSyms(tab, pp, mode, k, blk, lag)
               == [CdfSym(DeltaRow(tab, mode, b, lag), next - b * BLOCK_SIZE)]
                  + DeltaSyms(tab, pp, mode, k + 1, b, next)
            && ValidSym(CdfSym(DeltaRow(tab, mode, b, lag), next - b * BLOCK_SIZE))
    ensures |tab.deltaLagCmfs| == 3 && |tab.deltaLagCmfs[mode]| == 320
  {
    hide ValidCdf, ValidSym, DeltaRow;
    var bs := tab.blocksegs[pp.contour];
    SegInside(bs, k);
    assert SegFilled(bs, pp.laginds, k);
    var b, next := bs.blocks[k], pp.laginds[SegStart(bs.seglens, k)];
    CdfSymValid(DeltaRow(tab, mode, b, lag), next - b * BLOCK_SIZE);
  }

  lemma DeltaSymShape(tab: PitchTables, mode: nat, blk: int, lag: int, ix: int)
    requires tab.Valid() && mode < 3 && -127 <= blk * BLOCK_SIZE - lag <= 128 && 0 <= ix < BLOCK_SIZE
    ensures var cmf, base := tab.deltaLagCmfs[mode], blk * BLOCK_SIZE - lag + 2 * BLOCK_SIZE - 1;
            |cmf| == 320 && CdfSym(DeltaRow(tab, mode, blk, lag), ix)
            == Sym(cmf[base + ix] - cmf[base], cmf[base + ix + 1] - cmf[base], cmf[base + BLOCK_SIZE] - cmf[base])
  {
    hide ValidCdf;
  }

  method EncodeLagsWire(tab: PitchTables, enc: RangeEncoder, pp: PitchParams, prevLagblk: int, prevLagidx: int,
                        mode: nat)
    requires enc.Valid() && ValidLags(tab, pp) && ValidLagState(prevLagblk, prevLagidx) && mode < 3
    modifies enc, enc.buf
    ensures enc.Valid() && enc.misused == old(enc.misused)
    ensures enc.written == old(enc.written) + LagSyms(tab, pp, mode, prevLagblk, prevLagidx)
  {
    hide RangeEncoder.Valid, ContourSyms, SegSyms;
    EncodeContour(tab, enc, pp.contour, prevLagblk);
    EncodeSegments(tab, enc, pp, prevLagblk, prevLagidx, mode);
  }

  /** smplLagsPredictorAfter: the last block and the last lag. */
  function LagsPredictorAfter(tab: PitchTables, pp: PitchParams): (r: (int, int))
    requires ValidLags(tab, pp)
    ensures ValidLagState(r.0, r.1)
  {
    var bs := tab.blocksegs[pp.contour];
    SegInside(bs, |bs.blocks| - 1);
    assert SegFilled(bs, pp.laginds, |bs.blocks| - 1);
    (bs.blocks[|bs.blocks| - 1], pp.laginds[NUM_SUBFRAMES - 1])
  }

  /** encodeSmplPitch at config 0. */
  method EncodeSmplPitch(enc: RangeEncoder, cc: CcTables, tab: PitchTables, st: SmplLsfState,
                         subfrCounts: seq<int>, pp: PitchParams)
    requires enc.Valid() && cc.Valid() && ValidPitch(tab, subfrCounts, pp) && ValidPredictor(st.EncView())
    modifies enc, enc.buf, st
    ensures enc.Valid() && enc.misused == old(enc.misused)
    ensures enc.written == old(enc.written) + PitchSyms(cc, tab, old(st.EncView()), subfrCounts, pp)
    ensures st.EncView() == PitchNext(tab, old(st.EncView()), subfrCounts, pp)
  {
    hide RangeEncoder.Valid, CcTables.Valid, ValidLags, LagSyms, LtpSyms, ValidCdf;
    ghost var p := st.EncView();
    var gainAccum := EncodeLtp(enc, cc, st, subfrCounts, pp);
    var avgGain := TruncDiv(gainAccum, 4);
    var mode := 0;
    if avgGain >= 10007 {
      if avgGain < 14085 {
        mode := 1;
      } else {
        mode := 2;
      }
    }
    ghost var w := enc.written;
    EncodeLagsWire(tab, enc, pp, st.prevLagblk, st.prevLagidx, mode);
    Associate(old(enc.written), LtpSyms(cc, subfrCounts, pp, p.gainIdx, p.filtIdx, 0),
              LagSyms(tab, pp, mode, p.blk, p.idx));
    var (nblk, nidx) := LagsPredictorAfter(tab, pp);
    st.prevLagblk := nblk;
    st.prevLagidx := nidx;
  }

  /** The gains and filters of the four subframes. */
  method EncodeLtp(enc: RangeEncoder, cc: CcTables, st: SmplLsfState, subfrCounts: seq<int>, pp: PitchParams)
    returns (gainAccum: int)
    requires enc.Valid() && cc.Valid() && ValidLtp(subfrCounts, pp) && ValidLtpState(st.prevGainIdx, st.prevFiltIdx)
    modifies enc, enc.buf, st`prevGainIdx, st`prevFiltIdx
    ensures enc.Valid() && enc.misused == old(enc.misused)
    ensures enc.written == old(enc.written) + LtpSyms(cc, subfrCounts, pp, old(st.prevGainIdx), old(st.prevFiltIdx), 0)
    ensures st.prevGainIdx == pp.gainIdx[3] && st.prevFiltIdx == FiltBefore(subfrCounts, pp, old(st.prevFiltIdx), 4)
    ensures gainAccum == GainSum(cc, pp.gainIdx, 4)
  {
    hide RangeEncoder.Valid, CcTables.Valid, ValidCdf, CdfSym, CcTables.AcbgainRow, FiltRow, LtpSyms;
    gainAccum := 0;
    ghost var g, f := st.prevGainIdx, st.prevFiltIdx;
    for sf := 0 to 4
      invariant enc.Valid() && enc.misused == old(enc.misused)
      invariant st.prevGainIdx == GainBefore(pp, g, sf) && st.prevFiltIdx == FiltBefore(subfrCounts, pp, f, sf)
      invariant gainAccum == GainSum(cc, pp.gainIdx, sf)
      invariant ValidLtpState(st.prevGainIdx, st.prevFiltIdx)
      invariant enc.written + LtpSyms(cc, subfrCounts, pp, st.prevGainIdx, st.prevFiltIdx, sf)
                == old(enc.written) + LtpSyms(cc, subfrCounts, pp, g, f, 0)
    {
      LtpStep(cc, subfrCounts, pp, st.prevGainIdx, st.prevFiltIdx, sf, enc.written);
      var cnt := subfrCounts[sf];
      var gi := pp.gainIdx[sf];
      EncodeIndex(enc, gi, cc.AcbgainRow(st.prevGainIdx));
      st.prevGainIdx := gi;
      var (w0, w2) := cc.AcbgainWeights(gi);
      gainAccum := gainAccum + w0 + 2 * w2;
      if cnt > 0 {
        var fi := pp.filtIdx[sf];
        EncodeFilter(enc, cc, st.prevFiltIdx, fi);
        st.prevFiltIdx := fi;
      } else {
        assert enc.written + [] == enc.written;
      }
    }
    NoLtp(cc, subfrCounts, pp, st.prevGainIdx, st.prevFiltIdx);
    assert enc.written + [] == enc.written;
  }

  method EncodeFilter(enc: RangeEncoder, cc: CcTables, prev: int, fi: int)
    requires enc.Valid() && cc.Valid() && -1 <= prev < 34 && 0 <= fi < 34
    modifies enc, enc.buf
    ensures enc.Valid() && enc.misused == old(enc.misused)
    ensures enc.written == old(enc.written) + [CdfSym(FiltRow(cc, prev), fi)]
  {
    hide RangeEncoder.Valid, ValidCdf, CdfSym, CcTables.FcbgainVDelta;
    if prev == -1 {
      EncodeIndex(enc, fi, cc.fcbgainsV);
    } else {
      FcbgainVDeltaValid(cc, prev);
      EncodeIndex(enc, fi, cc.FcbgainVDelta(prev));
    }
  }

  lemma NoLtp(cc: CcTables, subfr: seq<int>, p: PitchParams, gain: int, filt: int)
    requires cc.Valid() && ValidLtp(subfr, p) && ValidLtpState(gain, filt)
    ensures LtpSyms(cc, subfr, p, gain, filt, 4) == []
  {
  }

  /** One subframe of LtpSyms behind what is already written. */
  lemma LtpStep(cc: CcTables, subfr: seq<int>, p: PitchParams, gain: int, filt: int, sf: nat, w: seq<Sym>)
    requires cc.Valid() && ValidLtp(subfr, p) && ValidLtpState(gain, filt) && sf < 4
    ensures w + LtpSyms(cc, subfr, p, gain, filt, sf)
            == w + [CdfSym(cc.AcbgainRow(gain), p.gainIdx[sf])] + FiltSyms(cc, subfr, p, filt, sf)
               + LtpSyms(cc, subfr, p, p.gainIdx[sf], NextFilt(subfr, p, filt, sf), sf + 1)
    ensures |cc.acbgainsHr| == 17 * 17 && |cc.AcbgainRow(gain)| == 17 && ValidCdf(cc.AcbgainRow(gain))
    ensures |cc.acbgainsCbHrQ14| == 32
  {
    hide ValidCdf, FiltSyms, CdfSym, NextFilt;
    AssociateFour(w, [CdfSym(cc.AcbgainRow(gain), p.gainIdx[sf])], FiltSyms(cc, subfr, p, filt, sf),
              LtpSyms(cc, subfr, p, p.gainIdx[sf], NextFilt(subfr, p, filt, sf), sf + 1));
  }

}
