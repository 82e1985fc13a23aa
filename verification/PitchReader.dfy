/**
 * DecodeSmplPitch (src/voip/media/mlow/pitch.go) at config 0.  The lag block reads its tables from
 * the byte window; as in the pulse reader, the ghost arguments say what may have been sent.
 */
module PitchReader {
  import opened Bytes
  import opened Intervals
  import opened RangeEncoding
  import opened RangeDecoding
  import opened CodecTables
  import opened PitchTables
  import opened PitchSpec
  import opened PitchCoder
  import opened LsfCoder
  import opened SmplMem

  /** The input holds a gain block and then the rest. */
  ghost predicate LtpSent(dec: RangeDecoder, cc: CcTables, subfr: seq<int>, sent: PitchParams,
                          gain: int, filt: int, rest: seq<Sym>)
    requires dec.Valid() && cc.Valid()
    reads dec
  {
    && ValidLtp(subfr, sent) && ValidLtpState(gain, filt)
    && dec.Holds(LtpSyms(cc, subfr, sent, gain, filt, 0) + rest)
  }

  /** What the gain loop ends with when it read what was sent. */
  predicate LtpHeard(cc: CcTables, subfr: seq<int>, sent: PitchParams, prevFilt: int,
                     gainIdx: seq<int>, filtIdx: seq<int>, gainAccum: int, gain: int, filt: int)
    requires cc.Valid()
  {
    && ValidLtp(subfr, sent) && -1 <= prevFilt < 34 && gainIdx == sent.gainIdx
    && filtIdx == HeardPitch(subfr, sent).filtIdx
    && gainAccum == GainSum(cc, sent.gainIdx, 4)
    && gain == sent.gainIdx[3] && filt == FiltBefore(subfr, sent, prevFilt, 4)
  }

  /** The long-term-prediction gains and filters of the four subframes. */
  method DecodeLtp(dec: RangeDecoder, cc: CcTables, st: SmplLsfState, subfrCounts: seq<int>,
                   ghost sent: PitchParams, ghost rest: seq<Sym>)
    returns (gainIdx: seq<int>, filtIdx: seq<int>, gainAccum: int)
    requires dec.Valid() && cc.Valid() && |subfrCounts| == 4 && ValidLtpState(st.prevGainIdx, st.prevFiltIdx)
    modifies dec, st`prevGainIdx, st`prevFiltIdx
    ensures dec.Valid() && dec.err == old(dec.err) && ValidLtpState(st.prevGainIdx, st.prevFiltIdx)
    ensures |gainIdx| == |filtIdx| == 4 && forall i :: 0 <= i < 4 ==> 0 <= gainIdx[i] < 16
    ensures forall i :: 0 <= i < 4 ==> if subfrCounts[i] > 0 then 0 <= filtIdx[i] < 34 else filtIdx[i] == -1
    ensures old(LtpSent(dec, cc, subfrCounts, sent, st.prevGainIdx, st.prevFiltIdx, rest))
            ==> && dec.Holds(rest)
                && LtpHeard(cc, subfrCounts, sent, old(st.prevFiltIdx),
                            gainIdx, filtIdx, gainAccum, st.prevGainIdx, st.prevFiltIdx)
  {
    hide RangeDecoder.Valid, RangeDecoder.Holds, CcTables.Valid, ValidCdf, CdfSym, CcTables.AcbgainRow, LtpSyms,
      FiltSyms;
    gainIdx, filtIdx, gainAccum := [0, 0, 0, 0], [-1, -1, -1, -1], 0;
    ghost var f := st.prevFiltIdx;
    ghost var ok := LtpSent(dec, cc, subfrCounts, sent, st.prevGainIdx, st.prevFiltIdx, rest);
    for sf := 0 to 4
      invariant dec.Valid() && dec.err == old(dec.err) && ValidLtpState(st.prevGainIdx, st.prevFiltIdx)
      invariant |gainIdx| == |filtIdx| == 4 && forall i :: 0 <= i < 4 ==> 0 <= gainIdx[i] < 16
      invariant forall i :: 0 <= i < sf && subfrCounts[i] > 0 ==> 0 <= filtIdx[i] < 34
      invariant forall i :: 0 <= i < 4 && (i >= sf || subfrCounts[i] <= 0) ==> filtIdx[i] == -1
      invariant ok ==> forall i :: 0 <= i < sf ==> gainIdx[i] == sent.gainIdx[i]
      invariant ok ==> forall i :: 0 <= i < sf && subfrCounts[i] > 0 ==> filtIdx[i] == sent.filtIdx[i]
      invariant ok ==> gainAccum == GainSum(cc, sent.gainIdx, sf)
      invariant ok && sf > 0 ==> st.prevGainIdx == sent.gainIdx[sf - 1]
      invariant ok ==> st.prevFiltIdx == FiltBefore(subfrCounts, sent, f, sf)
      invariant ok ==> dec.Holds(LtpSyms(cc, subfrCounts, sent, st.prevGainIdx, st.prevFiltIdx, sf) + rest)
    {
      ghost var gi', after1, after2 := 0, [], [];
      GainRowValid(cc, st.prevGainIdx);
      if ok {
        gi' := sent.gainIdx[sf];
        after2 := LtpSyms(cc, subfrCounts, sent, gi', NextFilt(subfrCounts, sent, st.prevFiltIdx, sf), sf + 1) + rest;
        after1 := FiltSyms(cc, subfrCounts, sent, st.prevFiltIdx, sf) + after2;
        LtpHead(cc, subfrCounts, sent, st.prevGainIdx, st.prevFiltIdx, sf, rest);
      }
      var cnt := subfrCounts[sf];
      var gi := dec.DecodeCDF(cc.AcbgainRow(st.prevGainIdx), gi', after1);
      gainIdx := gainIdx[sf := gi];
      st.prevGainIdx := gi;
      var (w0, w2) := cc.AcbgainWeights(gi);
      gainAccum := gainAccum + (w0 + 2 * w2);
      if cnt > 0 {
        var fi := DecodeFilter(dec, cc, st.prevFiltIdx, subfrCounts, sf, sent, after2);
        filtIdx := filtIdx[sf := fi];
        st.prevFiltIdx := fi;
      } else if ok {
        NoFilter(cc, subfrCounts, sent, st.prevFiltIdx, sf, after2);
      }
    }
    if ok {
      NoLtp(cc, subfrCounts, sent, st.prevGainIdx, st.prevFiltIdx);
      assert [] + rest == rest;
    }
  }

  method DecodeFilter(dec: RangeDecoder, cc: CcTables, prev: int, ghost subfr: seq<int>, ghost sf: nat,
                      ghost sent: PitchParams, ghost rest: seq<Sym>) returns (fi: int)
    requires dec.Valid() && cc.Valid() && -1 <= prev < 34 && sf < 4
    modifies dec
    ensures dec.Valid() && dec.err == old(dec.err) && 0 <= fi < 34
    ensures ValidLtp(subfr, sent) && subfr[sf] > 0 && old(dec.Holds(FiltSyms(cc, subfr, sent, prev, sf) + rest))
            ==> fi == sent.filtIdx[sf] && dec.Holds(rest)
  {
    hide RangeDecoder.Valid, RangeDecoder.Holds, ValidCdf, CdfSym, CcTables.FcbgainVDelta;
    ghost var s := if ValidLtp(subfr, sent) then sent.filtIdx[sf] else 0;
    if prev == -1 {
      fi := dec.DecodeCDF(cc.fcbgainsV, s, rest);
    } else {
      FcbgainVDeltaValid(cc, prev);
      fi := dec.DecodeCDF(cc.FcbgainVDelta(prev), s, rest);
    }
  }

  lemma GainRowValid(cc: CcTables, prev: int)
    requires cc.Valid() && -1 <= prev < 16
    ensures |cc.acbgainsHr| == 17 * 17 && |cc.AcbgainRow(prev)| == 17 && ValidCdf(cc.AcbgainRow(prev))
    ensures |cc.acbgainsCbHrQ14| == 32
  {
  }

  lemma NoFilter(cc: CcTables, subfr: seq<int>, p: PitchParams, filt: int, sf: nat, rest: seq<Sym>)
    requires cc.Valid() && ValidLtp(subfr, p) && -1 <= filt < 34 && sf < 4 && subfr[sf] <= 0
    ensures FiltSyms(cc, subfr, p, filt, sf) + rest == rest
  {
    assert [] + rest == rest;
  }

  /** One subframe of LtpSyms in front of the rest. */
  lemma LtpHead(cc: CcTables, subfr: seq<int>, p: PitchParams, gain: int, filt: int, sf: nat, rest: seq<Sym>)
    requires cc.Valid() && ValidLtp(subfr, p) && ValidLtpState(gain, filt) && sf < 4
    ensures LtpSyms(cc, subfr, p, gain, filt, sf) + rest
            == [CdfSym(cc.AcbgainRow(gain), p.gainIdx[sf])]
               + (FiltSyms(cc, subfr, p, filt, sf)
                  + (LtpSyms(cc, subfr, p, p.gainIdx[sf], NextFilt(subfr, p, filt, sf), sf + 1) + rest))
  {
    hide ValidCdf, FiltSyms, CdfSym, NextFilt;
    AssociateFour([CdfSym(cc.AcbgainRow(gain), p.gainIdx[sf])], FiltSyms(cc, subfr, p, filt, sf),
               LtpSyms(cc, subfr, p, p.gainIdx[sf], NextFilt(subfr, p, filt, sf), sf + 1), rest);
  }

  // ---- The contour ----

  /** The primary lag and the contour that carries its number. */
  method DecodeContour(dec: RangeDecoder, mem: SmplMem, prevLag: int,
                       ghost t: PitchTables, ghost sent: int, ghost rest: seq<Sym>)
    returns (lag: int, contour: int)
    requires dec.Valid() && t.Valid() && HoldsTables(mem, t) && -1 <= prevLag < NUM_BLOCKS
    modifies dec
    ensures dec.Valid() && dec.err == old(dec.err) && -1 <= contour < NUM_CONTOURS
    ensures contour >= 0 ==> lag == t.blocksegs2idx[contour] - 1
    ensures 0 <= sent < NUM_CONTOURS && old(dec.Holds(ContourSyms(t, sent, prevLag) + rest))
            ==> contour == sent && dec.Holds(rest)
  {
    hide RangeDecoder.Valid, RangeDecoder.Holds, HoldsTables, SmplMem.U8, SmplMem.U32, PitchTables.Valid;
    var ok;
    ok, lag := DecodeLag(dec, mem, prevLag, t, sent, rest);
    if !ok {
      return -1, -1;
    }
    contour := FindContour(mem, lag + 1, t, sent);
  }

  /** The first contour with a given number. */
  method FindContour(mem: SmplMem, target: int, ghost t: PitchTables, ghost sent: int) returns (contour: int)
    requires t.Valid() && HoldsTables(mem, t)
    ensures -1 <= contour < NUM_CONTOURS && (contour >= 0 ==> t.blocksegs2idx[contour] == target)
    ensures 0 <= sent < NUM_CONTOURS && t.blocksegs2idx[sent] == target ==> contour == sent
  {
    hide HoldsTables, SmplMem.U8, SmplMem.U32, ValidCdf;
    ReadHeader(mem, t);
    var contourMap := mem.U32(mem.gClk + 0x5704 + 22244);
    contour := -1;
    for i := 0 to 217
      invariant contour == -1 && (0 <= sent < i ==> t.blocksegs2idx[sent] != target)
    {
      ReadContour(mem, t, i);
      if mem.U8(contourMap + i) == target {
        contour := i;
        break;
      }
    }
  }

  /** The contour's number, less one. */
  method DecodeLag(dec: RangeDecoder, mem: SmplMem, prevLag: int,
                   ghost t: PitchTables, ghost sent: int, ghost rest: seq<Sym>)
    returns (ok: bool, lag: int)
    requires dec.Valid() && t.Valid() && HoldsTables(mem, t) && -1 <= prevLag < NUM_BLOCKS
    modifies dec
    ensures dec.Valid() && dec.err == old(dec.err) && ok
    ensures 0 <= sent < NUM_CONTOURS && old(dec.Holds(ContourSyms(t, sent, prevLag) + rest))
            ==> lag == t.blocksegs2idx[sent] - 1 && dec.Holds(rest)
  {
    hide RangeDecoder.Valid, RangeDecoder.Holds, HoldsTables, SmplMem.U8, SmplMem.U32, SmplMem.Halves,
      ValidCdf, CdfSym, FirstRow, PitchTables.Valid;
    ReadHeader(mem, t);
    Shape(t);
    var pcfg := mem.gClk + 0x5704;
    var numContours := mem.U32(pcfg + 22240);
    var lagCdf := mem.U32(pcfg + 22248);
    var deltaCdf := mem.U32(pcfg + 22268);
    ghost var held := 0 <= sent < NUM_CONTOURS && dec.Holds(ContourSyms(t, sent, prevLag) + rest);
    ghost var n := if held then t.blocksegs2idx[sent] - 1 else 0;
    if held {
      ContourFacts(t, sent, prevLag);
    }
    if prevLag < 0 {
      var cnt := numContours + 1;
      LagRow(mem, t);
      var cdf := mem.CDFAt(lagCdf, cnt);
      lag := dec.DecodeCDF(cdf, n, rest);
      return true, lag;
    }
    ghost var b0 := if held then t.blocksegs[sent].blocks[0] else 0;
    ghost var after := if held then [CdfSym(FirstRow(t, b0), n - t.firstblockRange[b0].0)] + rest else [];
    if held {
      Associate([CdfSym(t.blockTransitionCmf[prevLag], b0)],
                [CdfSym(FirstRow(t, b0), n - t.firstblockRange[b0].0)], rest);
    }
    TransitionRow(mem, t, prevLag);
    var cdf := mem.CDFAt(deltaCdf + prevLag * 20, 10);
    var di := dec.DecodeCDF(cdf, b0, after);
    BoundsRow(mem, t, di);
    var lo := mem.U8(DELTA_BOUNDS + di * 2);
    var hi := mem.U8(DELTA_BOUNDS + di * 2 + 1);
    var rN := (hi - lo) + 2;
    if rN < 2 {
      return false, -1;
    }
    cdf := mem.CDFAt(lagCdf + lo * 2, rN);
    var sym := dec.DecodeCDF(cdf, n - lo, rest);
    return true, sym + lo;
  }

  lemma Shape(t: PitchTables)
    requires t.Valid()
    ensures t.ValidShape()
  {
  }

  lemma LagRow(mem: SmplMem, t: PitchTables)
    requires t.Valid() && HoldsTables(mem, t)
    ensures mem.Halves(HDR_LAG_CDF, NUM_CONTOURS + 1) == t.blocksegIdxCmf
    ensures ValidCdf(t.blocksegIdxCmf) && |t.blocksegIdxCmf| == NUM_CONTOURS + 1
  {
    hide HoldsTables, SmplMem.Halves, ValidCdf;
    ReadLagCdf(mem, t, 0, NUM_CONTOURS + 1);
    assert t.blocksegIdxCmf[0..NUM_CONTOURS + 1] == t.blocksegIdxCmf;
  }

  lemma TransitionRow(mem: SmplMem, t: PitchTables, b: nat)
    requires t.Valid() && HoldsTables(mem, t) && b < NUM_BLOCKS
    ensures |t.blockTransitionCmf| == NUM_BLOCKS && mem.Halves(HDR_DELTA_CDF + b * 20, 10) == t.blockTransitionCmf[b]
    ensures ValidCdf(t.blockTransitionCmf[b]) && |t.blockTransitionCmf[b]| == NUM_BLOCKS + 1
  {
    hide HoldsTables, SmplMem.Halves, ValidCdf;
    ReadTransitionCdf(mem, t, b);
  }

  lemma BoundsRow(mem: SmplMem, t: PitchTables, b: nat)
    requires t.Valid() && HoldsTables(mem, t) && b < NUM_BLOCKS
    ensures |t.firstblockRange| == NUM_BLOCKS
    ensures mem.U8(DELTA_BOUNDS + b * 2) == t.firstblockRange[b].0 <= t.firstblockRange[b].1
    ensures mem.U8(DELTA_BOUNDS + b * 2 + 1) == t.firstblockRange[b].1
    ensures mem.Halves(HDR_LAG_CDF + t.firstblockRange[b].0 * 2, t.firstblockRange[b].1 - t.firstblockRange[b].0 + 2)
            == FirstRow(t, b)
  {
    hide HoldsTables, SmplMem.Halves, SmplMem.U8, ValidCdf;
    ReadBounds(mem, t, b);
    ReadLagCdf(mem, t, t.firstblockRange[b].0, t.firstblockRange[b].1 - t.firstblockRange[b].0 + 2);
  }

  // ---- The lags ----

  /** Writes one lag over the next segLen places of the two per-frame arrays. */
  method FillSegment(intLag: seq<int>, block: seq<int>, from: nat, segLen: nat, lag: int)
    returns (intLagQ6: seq<int>, blockLags: seq<int>, subfrW: nat)
    requires |intLag| == 4 && |block| == 8 && intLag == block[..4]
    ensures subfrW == from + segLen && |blockLags| == 8 && |intLagQ6| == 4 && intLagQ6 == blockLags[..4]
    ensures forall i :: 0 <= i < 8 ==> blockLags[i] == if from <= i < from + segLen then lag else block[i]
  {
    intLagQ6, blockLags, subfrW := intLag, block, from;
    for i := 0 to segLen
      invariant subfrW == from + i && |blockLags| == 8 && |intLagQ6| == 4 && intLagQ6 == blockLags[..4]
      invariant forall j :: 0 <= j < 8 ==> blockLags[j] == if from <= j < from + i then lag else block[j]
    {
      if subfrW < 4 {
        intLagQ6 := intLagQ6[subfrW := lag];
      }
      if subfrW < 8 {
        blockLags := blockLags[subfrW := lag];
      }
      subfrW := subfrW + 1;
    }
  }

  /** What the address arithmetic finds in a contour record. */
  lemma ReadSegment(m: SmplMem, t: PitchTables, c: nat, k: nat)
    requires t.Valid() && HoldsTables(m, t) && c < NUM_CONTOURS && k < |t.blocksegs[c].blocks|
    ensures var ctrBase, bs := m.gClk + 0x5704 + c * 0x44, t.blocksegs[c];
            && bs.Valid()
            && m.I32(ctrBase + 0x1d38 + k * 4) == bs.blocks[k]
            && m.I32(ctrBase + 0x1d58 + k * 4) == bs.seglens[k]
            && m.I32(ctrBase + 0x1d78) == |bs.blocks|
  {
    hide HoldsTables, SmplMem.I32, ValidCdf;
    assert t.blocksegs[c].Valid();
    ReadRecord(m, t, c, k);
    ReadRecord(m, t, c, 8 + k);
    ReadRecord(m, t, c, 16);
  }

  /** One more segment of a contour with its lag. */
  lemma FillStep(bs: Blockseg, before: seq<int>, after: seq<int>, k: nat, lag: int)
    requires bs.Valid() && k < |bs.blocks| && LagsFill(bs, before, k) && |after| == NUM_SUBFRAMES
    requires InBlock(bs.blocks[k], lag)
    requires forall i :: 0 <= i < 8 && i < SegStart(bs.seglens, k) ==> after[i] == before[i]
    requires forall i :: 0 <= i < 8 && SegStart(bs.seglens, k) <= i < SegStart(bs.seglens, k + 1) ==> after[i] == lag
    ensures LagsFill(bs, after, k + 1)
    ensures SegStart(bs.seglens, k + 1) == SegStart(bs.seglens, k) + bs.seglens[k]
  {
    hide SegStart;
    SegNext(bs, k);
    forall j | 0 <= j < k + 1 ensures SegFilled(bs, after, j) {
      SegInside(bs, j);
      if j < k {
        assert SegFilled(bs, before, j);
        SegOrder(bs, j, k);
      }
    }
  }

  lemma SegNext(bs: Blockseg, k: nat)
    requires bs.Valid() && k < |bs.blocks|
    ensures SegStart(bs.seglens, k + 1) == SegStart(bs.seglens, k) + bs.seglens[k]
    ensures 0 <= SegStart(bs.seglens, k)
  {
    SegInside(bs, k);
  }

  lemma {:induction false} SegOrder(bs: Blockseg, j: nat, k: nat)
    requires bs.Valid() && j < k < |bs.blocks|
    ensures SegStart(bs.seglens, j + 1) <= SegStart(bs.seglens, k)
  {
    SegBound(bs.seglens, j, k);
  }

  /** The table address of a segment, which wraps around for a negative offset. */
  lemma FracRow(mem: SmplMem, t: PitchTables, mode: nat, blk: int, prevLag: int)
    requires t.Valid() && HoldsTables(mem, t) && mode < 3 && -127 <= blk * BLOCK_SIZE - prevLag <= 128
    ensures var nl2 := blk * BLOCK_SIZE - prevLag;
            mem.Halves(U32(HDR_FRAC_BASE + mode * 0x280 + U32(nl2 * 2) + 0xfe), 65) == DeltaRow(t, mode, blk, prevLag)
    ensures ValidCdf(DeltaRow(t, mode, blk, prevLag))
  {
    hide HoldsTables, SmplMem.Halves, ValidCdf;
    var nl2 := blk * BLOCK_SIZE - prevLag;
    ReadFracCdf(mem, t, mode, nl2 + 127, 65);
    WrappedOffset(HDR_FRAC_BASE + mode * 0x280, nl2);
  }

  lemma WrappedOffset(base: nat, nl2: int)
    requires base < 0x1000_0000 && -127 <= nl2 <= 128
    ensures U32(base + U32(nl2 * 2) + 0xfe) == base + (nl2 + 127) * 2
  {
    if nl2 < 0 {
      assert U32(nl2 * 2) == nl2 * 2 + 0x1_0000_0000;
    }
  }

  datatype Lags = Lags(intLagQ6: seq<int>, blockLags: seq<int>, subfrW: nat)
  {
    /** Both arrays filled for the first n segments of a contour. */
    predicate Filled(bs: Blockseg, n: nat)
      requires bs.Valid() && n <= |bs.blocks|
    {
      && |intLagQ6| == 4 && |blockLags| == 8 && intLagQ6 == blockLags[..4]
      && subfrW == SegStart(bs.seglens, n) && LagsFill(bs, blockLags, n)
    }

    /** The lags so far are those sent. */
    predicate Agree(laginds: seq<int>) {
      |blockLags| == |laginds| == 8 && forall i :: 0 <= i < subfrW && i < 8 ==> blockLags[i] == laginds[i]
    }
  }

  /** The lag symbol of one segment. */
  method DecodeSegmentLag(dec: RangeDecoder, mem: SmplMem, contour: int, mode: nat, seg: nat, l2: int,
                          prevLag: int, l3: int,
                          ghost t: PitchTables, ghost sent: PitchParams, ghost rest: seq<Sym>)
    returns (lag: int, segLag: int)
    requires dec.Valid() && t.Valid() && HoldsTables(mem, t) && 0 <= contour < NUM_CONTOURS && mode < 3
    requires t.blocksegs[contour].Valid() && seg < |t.blocksegs[contour].blocks|
    requires InBlock(prevLag, l3) && Near(prevLag, t.blocksegs[contour].blocks[seg])
    modifies dec
    ensures dec.Valid() && dec.err == old(dec.err)
    ensures segLag == t.blocksegs[contour].blocks[seg] && InBlock(segLag, lag)
    ensures sent.contour == contour && ValidLags(t, sent)
            && old(dec.Holds(DeltaSyms(t, sent, mode, seg, prevLag, l3) + rest))
            ==> && lag == SegLag(t.blocksegs[contour], sent.laginds, seg)
                && dec.Holds(DeltaSyms(t, sent, mode, seg + 1, segLag, lag) + rest)
  {
    hide RangeDecoder.Valid, RangeDecoder.Holds, HoldsTables, SmplMem.I32, SmplMem.Halves, ValidCdf, CdfSym,
      DeltaRow, DeltaSyms, PitchTables.Valid, LagsFill, SegStart;
    Shape(t);
    ghost var bs := t.blocksegs[contour];
    ghost var ok := sent.contour == contour && ValidLags(t, sent)
                    && dec.Holds(DeltaSyms(t, sent, mode, seg, prevLag, l3) + rest);
    var ctrBase := mem.gClk + 0x5704 + contour * 0x44;
    ReadSegment(mem, t, contour, seg);
    ReadHeader(mem, t);
    var fracSegBase := mem.U32(mem.gClk + 0x5704 + 22252) + mode * 0x280;
    segLag := mem.I32(ctrBase + 0x1d38 + seg * 4);
    var nl2 := (l2 * 64 - l3) + (segLag - l2) * 64;
    var off := U32(fracSegBase + U32(nl2 * 2) + 0xfe);
    FracRow(mem, t, mode, segLag, l3);
    var cdf := mem.CDFAt(off, 65);
    ghost var s', more := 0, [];
    if ok {
      DeltaStep(t, sent, mode, seg, prevLag, l3);
      SegLagAt(bs, sent.laginds, seg);
      var next := SegLag(bs, sent.laginds, seg);
      s', more := next - segLag * BLOCK_SIZE, DeltaSyms(t, sent, mode, seg + 1, segLag, next) + rest;
      Associate([CdfSym(DeltaRow(t, mode, segLag, l3), s')], DeltaSyms(t, sent, mode, seg + 1, segLag, next), rest);
    }
    var sym := dec.DecodeCDF(cdf, s', more);
    lag := sym + l3 + nl2;
  }

  /** One segment of the fractional loop: its lag and the places it fills. */
  method DecodeSegment(dec: RangeDecoder, mem: SmplMem, contour: int, mode: nat, seg: nat, lags: Lags, l2: int,
                       prevLag: int, l3: int,
                       ghost t: PitchTables, ghost sent: PitchParams, ghost rest: seq<Sym>)
    returns (after: Lags, lag: int, segLag: int)
    requires dec.Valid() && t.Valid() && HoldsTables(mem, t) && 0 <= contour < NUM_CONTOURS && mode < 3
    requires t.blocksegs[contour].Valid() && seg < |t.blocksegs[contour].blocks|
    requires lags.Filled(t.blocksegs[contour], seg)
    requires InBlock(prevLag, l3) && Near(prevLag, t.blocksegs[contour].blocks[seg])
    modifies dec
    ensures dec.Valid() && dec.err == old(dec.err)
    ensures segLag == t.blocksegs[contour].blocks[seg] && InBlock(segLag, lag)
    ensures after.Filled(t.blocksegs[contour], seg + 1)
    ensures forall i :: 0 <= i < 8 && i < SegStart(t.blocksegs[contour].seglens, seg) ==>
              after.blockLags[i] == lags.blockLags[i]
    ensures SegLag(t.blocksegs[contour], after.blockLags, seg) == lag
    ensures sent.contour == contour && ValidLags(t, sent) && lags.Agree(sent.laginds)
            && old(dec.Holds(DeltaSyms(t, sent, mode, seg, prevLag, l3) + rest))
            ==> && after.Agree(sent.laginds)
                && dec.Holds(DeltaSyms(t, sent, mode, seg + 1, segLag, lag) + rest)
  {
    hide RangeDecoder.Valid, RangeDecoder.Holds, HoldsTables, SmplMem.I32, ValidCdf, DeltaSyms, PitchTables.Valid,
      LagsFill, SegStart;
    Shape(t);
    ghost var bs := t.blocksegs[contour];
    lag, segLag := DecodeSegmentLag(dec, mem, contour, mode, seg, l2, prevLag, l3, t, sent, rest);
    ReadSegment(mem, t, contour, seg);
    var segLen := mem.I32(mem.gClk + 0x5704 + contour * 0x44 + 0x1d58 + seg * 4);
    SegNext(bs, seg);
    var intLag, block, w := FillSegment(lags.intLagQ6, lags.blockLags, lags.subfrW, segLen, lag);
    FillStep(bs, lags.blockLags, block, seg, lag);
    SegLagAt(bs, block, seg);
    after := Lags(intLag, block, w);
    if sent.contour == contour && ValidLags(t, sent) && lags.Agree(sent.laginds) {
      SentSegment(t, sent, seg);
    }
  }

  lemma SegLagAt(bs: Blockseg, laginds: seq<int>, k: nat)
    requires bs.Valid() && k < |bs.blocks| && |laginds| == 8
    ensures 0 <= SegStart(bs.seglens, k) < 8 && SegLag(bs, laginds, k) == laginds[SegStart(bs.seglens, k)]
  {
    SegInside(bs, k);
  }

  lemma SentSegment(t: PitchTables, sent: PitchParams, k: nat)
    requires ValidLags(t, sent) && k < |t.blocksegs[sent.contour].blocks|
    ensures var bs := t.blocksegs[sent.contour];
            && bs.Valid() && |sent.laginds| == 8 && InBlock(bs.blocks[k], SegLag(bs, sent.laginds, k))
            && forall i :: 0 <= i < 8 && SegStart(bs.seglens, k) <= i < SegStart(bs.seglens, k + 1) ==>
                 sent.laginds[i] == SegLag(bs, sent.laginds, k)
  {
    assert SegFilled(t.blocksegs[sent.contour], sent.laginds, k);
  }

  /** The fine lag of the first segment, read unless the contour continues the lag before. */
  method DecodeFirst(dec: RangeDecoder, mem: SmplMem, contour: int, prevLag: int, prevFracLag: int, ghost mode: nat,
                     ghost t: PitchTables, ghost sent: PitchParams, ghost rest: seq<Sym>)
    returns (readFine: bool, curLag2: int, lags: Lags)
    requires dec.Valid() && t.Valid() && HoldsTables(mem, t) && 0 <= contour < NUM_CONTOURS && mode < 3
    requires t.blocksegs[contour].Valid() && ValidLagState(prevLag, prevFracLag)
    modifies dec
    ensures dec.Valid() && dec.err == old(dec.err)
    ensures readFine == !Continues(prevLag, t.blocksegs[contour].blocks[0])
    ensures lags.Filled(t.blocksegs[contour], if readFine then 1 else 0)
    ensures readFine ==> && InBlock(t.blocksegs[contour].blocks[0], curLag2)
                         && SegLag(t.blocksegs[contour], lags.blockLags, 0) == curLag2
    ensures sent.contour == contour && ValidLags(t, sent)
            && old(dec.Holds(SegSyms(t, sent, mode, prevLag, prevFracLag) + rest))
            ==> && lags.Agree(sent.laginds)
                && dec.Holds((if readFine
                              then DeltaSyms(t, sent, mode, 1, t.blocksegs[contour].blocks[0], curLag2)
                              else DeltaSyms(t, sent, mode, 0, prevLag, prevFracLag)) + rest)
  {
    hide RangeDecoder.Valid, RangeDecoder.Holds, HoldsTables, SmplMem.I32, ValidCdf, DeltaSyms, LagsFill, SegStart,
      PitchTables.Valid;
    Shape(t);
    ghost var bs := t.blocksegs[contour];
    ghost var ok := sent.contour == contour && ValidLags(t, sent)
                    && dec.Holds(SegSyms(t, sent, mode, prevLag, prevFracLag) + rest);
    var ctrBase := mem.gClk + 0x5704 + contour * 0x44;
    ReadSegment(mem, t, contour, 0);
    var baseLag := mem.I32(ctrBase + 0x1d38);
    curLag2 := baseLag;
    readFine := true;
    if prevLag >= 0 {
      var delta := baseLag - prevLag;
      if delta >= -1 && delta < 3 {
        readFine := false;
      }
    }
    StartsAtZero(bs.seglens);
    lags := Lags([0, 0, 0, 0], [0, 0, 0, 0, 0, 0, 0, 0], 0);
    NothingFilled(bs, lags.blockLags);
    if readFine {
      ghost var s', more := 0, [];
      if ok {
        FirstSegment(t, sent);
        SentSegment(t, sent, 0);
        s' := sent.laginds[0] - baseLag * BLOCK_SIZE;
        more := DeltaSyms(t, sent, mode, 1, baseLag, sent.laginds[0]) + rest;
        Associate([Sym(s', s' + 1, 64)], DeltaSyms(t, sent, mode, 1, baseLag, sent.laginds[0]), rest);
      }
      var sym := dec.Decode64FineSym(s', more);
      curLag2 := baseLag * 64 + sym;
      var segLen0 := mem.I32(ctrBase + 0x1d58);
      lags := FillFirst(lags, segLen0, curLag2, bs);
    }
    if ok {
      ContourIsValid(t, sent);
    }
  }

  lemma NothingFilled(bs: Blockseg, laginds: seq<int>)
    requires bs.Valid() && |laginds| == 8
    ensures LagsFill(bs, laginds, 0)
  {
  }

  /** The places of the first segment, and one write behind them that the next segment overwrites. */
  method FillFirst(empty: Lags, segLen0: nat, curLag2: int, ghost bs: Blockseg) returns (lags: Lags)
    requires bs.Valid() && empty.Filled(bs, 0) && segLen0 == bs.seglens[0] && InBlock(bs.blocks[0], curLag2)
    ensures lags.Filled(bs, 1) && SegLag(bs, lags.blockLags, 0) == curLag2
    ensures forall i :: 0 <= i < segLen0 && i < 8 ==> lags.blockLags[i] == curLag2
  {
    hide LagsFill, SegStart;
    StartsAtZero(bs.seglens);
    var intLagQ6, blockLags, subfrW := FillSegment(empty.intLagQ6, empty.blockLags, 0, segLen0, curLag2);
    if subfrW < 4 {
      intLagQ6 := intLagQ6[subfrW := curLag2];
    }
    if subfrW < 8 {
      blockLags := blockLags[subfrW := curLag2];
    }
    lags := Lags(intLagQ6, blockLags, subfrW);
    FillStep(bs, empty.blockLags, blockLags, 0, curLag2);
    SegLagAt(bs, blockLags, 0);
  }

  datatype PitchResult = PitchResult(
    gainIdx: seq<int>, filtIdx: seq<int>, lag: int, contour: int,
    sampleLagQ6: seq<int>, numSeg: int, intLagQ6: seq<int>, blockLags: seq<int>, numSubfr: int)

  function ParamsOfPitch(r: PitchResult): PitchParams {
    PitchParams(r.gainIdx, r.filtIdx, r.contour, r.blockLags)
  }

  /** The lag of every segment coded relative to the one before. */
  predicate SampleLags(bs: Blockseg, block: seq<int>, sample: seq<int>, from: nat, n: nat)
    requires bs.Valid() && n <= |bs.blocks| && |block| == 8
  {
    |sample| == 8 && forall k :: from <= k < n ==> sample[k] == SegLag(bs, block, k)
  }

  /** A further segment leaves the lags of those before it. */
  lemma SameLags(bs: Blockseg, before: Lags, after: Lags, k: nat)
    requires bs.Valid() && k < |bs.blocks| && before.Filled(bs, k) && after.Filled(bs, k + 1)
    requires forall i :: 0 <= i < 8 && i < SegStart(bs.seglens, k) ==> after.blockLags[i] == before.blockLags[i]
    ensures forall j :: 0 <= j < k ==> SegLag(bs, after.blockLags, j) == SegLag(bs, before.blockLags, j)
  {
    hide LagsFill, SegStart;
    forall j | 0 <= j < k ensures SegLag(bs, after.blockLags, j) == SegLag(bs, before.blockLags, j) {
      SegInside(bs, j);
      SegOrder(bs, j, k);
    }
  }

  /** The last lag of the frame is that of the last segment. */
  lemma LastLag(bs: Blockseg, block: seq<int>)
    requires bs.Valid() && LagsFill(bs, block, |bs.blocks|)
    ensures SegLag(bs, block, |bs.blocks| - 1) == block[7]
    ensures InBlock(bs.blocks[|bs.blocks| - 1], block[7])
  {
    hide SegStart;
    SegInside(bs, |bs.blocks| - 1);
    assert SegFilled(bs, block, |bs.blocks| - 1);
  }

  /** The lag block after the contour. */
  method DecodeLags(dec: RangeDecoder, mem: SmplMem, st: SmplLsfState, contour: int, avgGain: int,
                    ghost t: PitchTables, ghost sent: PitchParams, ghost rest: seq<Sym>)
    returns (lags: Lags, sampleLagQ6: seq<int>, numSeg: int)
    requires dec.Valid() && t.Valid() && HoldsTables(mem, t) && 0 <= contour < NUM_CONTOURS
    requires t.blocksegs[contour].Valid() && ValidLagState(st.prevLag, st.prevFracLag)
    modifies dec, st`prevLag, st`prevFracLag
    ensures dec.Valid() && dec.err == old(dec.err)
    ensures numSeg == |t.blocksegs[contour].blocks| && lags.Filled(t.blocksegs[contour], numSeg)
    ensures SampleLags(t.blocksegs[contour], lags.blockLags, sampleLagQ6,
                       if Continues(old(st.prevLag), t.blocksegs[contour].blocks[0]) then 0 else 1, numSeg)
    ensures st.prevLag == t.blocksegs[contour].blocks[numSeg - 1] && st.prevFracLag == lags.blockLags[7]
    ensures sent.contour == contour && ValidLags(t, sent)
            && old(dec.Holds(SegSyms(t, sent, Mode(avgGain), st.prevLag, st.prevFracLag) + rest))
            ==> lags.blockLags == sent.laginds && dec.Holds(rest)
  {
    hide RangeDecoder.Valid, RangeDecoder.Holds, HoldsTables, SmplMem.I32, ValidCdf, DeltaSyms, SegSyms, LagsFill,
      SegStart, PitchTables.Valid, SegLag;
    Shape(t);
    ghost var bs := t.blocksegs[contour];
    var segSel := 0;
    if avgGain >= 10007 {
      if avgGain < 14085 {
        segSel := 1;
      } else {
        segSel := 2;
      }
    }
    ghost var ok := sent.contour == contour && ValidLags(t, sent)
                    && dec.Holds(SegSyms(t, sent, segSel, st.prevLag, st.prevFracLag) + rest);
    var readFine, curLag2;
    readFine, curLag2, lags := DecodeFirst(dec, mem, contour, st.prevLag, st.prevFracLag, segSel, t, sent, rest);
    ReadSegment(mem, t, contour, 0);
    var ctrBase := mem.gClk + 0x5704 + contour * 0x44;
    if readFine {
      st.prevFracLag := curLag2;
      st.prevLag := mem.I32(ctrBase + 0x1d38);
    }
    var cnt2 := mem.I32(ctrBase + 0x1d78);
    var l3, l2 := st.prevFracLag, curLag2;
    var startSeg := 0;
    if readFine {
      startSeg := 1;
    }
    numSeg := cnt2;
    sampleLagQ6 := [0, 0, 0, 0, 0, 0, 0, 0];
    for seg := startSeg to cnt2
      invariant dec.Valid() && dec.err == old(dec.err)
      invariant lags.Filled(bs, seg) && SampleLags(bs, lags.blockLags, sampleLagQ6, startSeg, seg)
      invariant l3 == st.prevFracLag && InBlock(st.prevLag, l3)
      invariant seg > 0 ==> st.prevLag == bs.blocks[seg - 1] && l3 == SegLag(bs, lags.blockLags, seg - 1)
      invariant seg < cnt2 ==> Near(st.prevLag, bs.blocks[seg])
      invariant ok ==> && lags.Agree(sent.laginds)
                       && dec.Holds(DeltaSyms(t, sent, segSel, seg, st.prevLag, l3) + rest)
    {
      var before, segLag := lags, 0;
      lags, l3, segLag := DecodeSegment(dec, mem, contour, segSel, seg, lags, l2, st.prevLag, l3, t, sent, rest);
      SameLags(bs, before, lags, seg);
      if seg < 8 {
        sampleLagQ6 := sampleLagQ6[seg := l3];
      }
      l2 := segLag;
      st.prevFracLag := l3;
      st.prevLag := segLag;
    }
    LastLag(bs, lags.blockLags);
    if ok {
      NoDelta(t, sent, segSel, st.prevLag, l3);
      assert [] + rest == rest;
      SegInside(bs, cnt2 - 1);
      assert lags.blockLags == sent.laginds;
    }
  }

  /** The input holds a pitch block and then the rest. */
  ghost predicate PitchSent(dec: RangeDecoder, cc: CcTables, t: PitchTables, p: Predictor, subfr: seq<int>,
                            sent: PitchParams, rest: seq<Sym>)
    requires dec.Valid() && cc.Valid()
    reads dec
  {
    && ValidPitch(t, subfr, sent) && ValidPredictor(p)
    && dec.Holds(PitchSyms(cc, t, p, subfr, sent) + rest)
  }

  /** The result and the predictor left behind when the decoder read what was sent. */
  predicate PitchHeard(t: PitchTables, p: Predictor, subfr: seq<int>, sent: PitchParams, got: PitchParams,
                       q: Predictor) {
    && ValidPitch(t, subfr, sent) && ValidPredictor(p)
    && got == HeardPitch(subfr, sent) && q == PitchNext(t, p, subfr, sent)
  }

  /** DecodeSmplPitch at config 0. */
  method DecodeSmplPitch(dec: RangeDecoder, mem: SmplMem, cc: CcTables, st: SmplLsfState, subfrCounts: seq<int>,
                         ghost t: PitchTables, ghost sent: PitchParams, ghost rest: seq<Sym>)
    returns (res: PitchResult)
    requires dec.Valid() && cc.Valid() && t.Valid() && HoldsTables(mem, t)
    requires |subfrCounts| == 4 && ValidPredictor(st.DecView())
    modifies dec, st
    ensures dec.Valid() && dec.err == old(dec.err)
    ensures ValidPredictor(st.DecView()) && st.prevStage1 == old(st.prevStage1)
    ensures ValidLtp(subfrCounts, ParamsOfPitch(res)) && -1 <= res.contour < NUM_CONTOURS
    ensures res.contour >= 0 ==> PitchComplete(t, old(st.prevLag), res)
    ensures old(PitchSent(dec, cc, t, st.DecView(), subfrCounts, sent, rest))
            ==> dec.Holds(rest) && PitchHeard(t, old(st.DecView()), subfrCounts, sent, ParamsOfPitch(res), st.DecView())
  {
    hide RangeDecoder.Valid, RangeDecoder.Holds, HoldsTables, CcTables.Valid, ValidCdf, PitchTables.Valid,
      SmplMem.U32, LtpSyms, ContourSyms, SegSyms, LagsFill, SegStart, GainSum;
    ghost var p := st.DecView();
    ghost var ok := PitchSent(dec, cc, t, p, subfrCounts, sent, rest);
    ghost var after2, after1 := [], [];
    if ok {
      after2 := SegSyms(t, sent, LtpMode(cc, sent.gainIdx), p.blk, p.idx) + rest;
      after1 := ContourSyms(t, sent.contour, p.blk) + after2;
      AssociateFour(LtpSyms(cc, subfrCounts, sent, p.gainIdx, p.filtIdx, 0), ContourSyms(t, sent.contour, p.blk),
               SegSyms(t, sent, LtpMode(cc, sent.gainIdx), p.blk, p.idx), rest);
    }
    var gainIdx, filtIdx, gainAccum := DecodeLtp(dec, cc, st, subfrCounts, sent, after1);
    var avgGain := TruncDiv(gainAccum, 4);
    var zeros := [0, 0, 0, 0, 0, 0, 0, 0];
    var lag, contour := DecodeContour(dec, mem, st.prevLag, t, sent.contour, after2);
    ReadHeader(mem, t);
    var numContours := mem.U32(mem.gClk + 0x5704 + 22240);
    if contour < 0 || contour >= numContours {
      res := PitchResult(gainIdx, filtIdx, lag, contour, zeros, 0, [0, 0, 0, 0], zeros, 0);
      return;
    }
    ContourValid(t, contour);
    var lags, sampleLagQ6, numSeg := DecodeLags(dec, mem, st, contour, avgGain, t, sent, rest);
    res := PitchResult(gainIdx, filtIdx, lag, contour, sampleLagQ6, numSeg, lags.intLagQ6, lags.blockLags, lags.subfrW);
    LastLag(t.blocksegs[contour], lags.blockLags);
  }

  lemma ContourValid(t: PitchTables, c: nat)
    requires t.Valid() && c < NUM_CONTOURS
    ensures |t.blocksegs| == |t.blocksegs2idx| == NUM_CONTOURS && t.blocksegs[c].Valid()
  {
  }

  /** Every array of a decoded contour, filled from one lag per segment. */
  predicate PitchComplete(t: PitchTables, prevLag: int, r: PitchResult)
    requires t.Valid() && 0 <= r.contour < NUM_CONTOURS
  {
    var bs := t.blocksegs[r.contour];
    && LagsFill(bs, r.blockLags, |bs.blocks|) && r.lag == t.blocksegs2idx[r.contour] - 1
    && r.numSeg == |bs.blocks| && r.numSubfr == NUM_SUBFRAMES && r.intLagQ6 == r.blockLags[..4]
    && SampleLags(bs, r.blockLags, r.sampleLagQ6, if Continues(prevLag, bs.blocks[0]) then 0 else 1, r.numSeg)
  }
}
