/**
 * What the pitch block of a voiced internal frame is worth on the wire: the long-term-prediction
 * gains and filters, and the lag contour predicted from the frame before.
 */
module PitchSpec {
  import opened Bytes
  import opened Intervals
  import opened RangeEncoding
  import opened CodecTables
  import opened PitchTables
  import opened LsfCoder

  datatype PitchParams = PitchParams(gainIdx: seq<int>, filtIdx: seq<int>, contour: int, laginds: seq<int>)

  // ---- Gains and filters ----

  predicate ValidLtp(subfr: seq<int>, p: PitchParams) {
    && |subfr| == 4 && |p.gainIdx| == |p.filtIdx| == 4
    && (forall sf :: 0 <= sf < 4 ==> 0 <= p.gainIdx[sf] < 16)
    && (forall sf :: 0 <= sf < 4 && subfr[sf] > 0 ==> 0 <= p.filtIdx[sf] < 34)
  }

  predicate ValidLtpState(gain: int, filt: int) {
    -1 <= gain < 16 && -1 <= filt < 34
  }

  /** The filter table, which depends on the filter before. */
  function FiltRow(cc: CcTables, filt: int): (row: seq<int>)
    requires cc.Valid() && -1 <= filt < 34
    ensures ValidCdf(row) && |row| == 35
  {
    if filt == -1 then cc.fcbgainsV
    else
      FcbgainVDeltaValid(cc, filt);
      cc.FcbgainVDelta(filt)
  }

  /** The symbols from subframe sf on, with the gain and filter before it. */
  function LtpSyms(cc: CcTables, subfr: seq<int>, p: PitchParams, gain: int, filt: int, sf: nat): seq<Sym>
    requires cc.Valid() && ValidLtp(subfr, p) && ValidLtpState(gain, filt) && sf <= 4
    decreases 4 - sf
  {
    if sf == 4 then []
    else [CdfSym(cc.AcbgainRow(gain), p.gainIdx[sf])] + FiltSyms(cc, subfr, p, filt, sf)
         + LtpSyms(cc, subfr, p, p.gainIdx[sf], NextFilt(subfr, p, filt, sf), sf + 1)
  }

  function FiltSyms(cc: CcTables, subfr: seq<int>, p: PitchParams, filt: int, sf: nat): seq<Sym>
    requires cc.Valid() && ValidLtp(subfr, p) && -1 <= filt < 34 && sf < 4
  {
    if subfr[sf] > 0 then [CdfSym(FiltRow(cc, filt), p.filtIdx[sf])] else []
  }

  /** The filter a subframe leaves: its own if it has pulses. */
  function NextFilt(subfr: seq<int>, p: PitchParams, filt: int, sf: nat): (f: int)
    requires ValidLtp(subfr, p) && -1 <= filt < 34 && sf < 4
    ensures -1 <= f < 34
  {
    if subfr[sf] > 0 then p.filtIdx[sf] else filt
  }

  /** The filter before subframe sf. */
  function FiltBefore(subfr: seq<int>, p: PitchParams, filt: int, sf: nat): (f: int)
    requires ValidLtp(subfr, p) && -1 <= filt < 34 && sf <= 4
    ensures -1 <= f < 34
  {
    if sf == 0 then filt else NextFilt(subfr, p, FiltBefore(subfr, p, filt, sf - 1), sf - 1)
  }

  /** The gain before subframe sf. */
  function GainBefore(p: PitchParams, gain: int, sf: nat): int
    requires sf <= |p.gainIdx|
  {
    if sf == 0 then gain else p.gainIdx[sf - 1]
  }

  /** The weights of the gains before subframe sf. */
  function GainSum(cc: CcTables, gainIdx: seq<int>, sf: nat): int
    requires cc.Valid() && sf <= |gainIdx| && forall i :: 0 <= i < |gainIdx| ==> 0 <= gainIdx[i] < 16
  {
    if sf == 0 then 0
    else GainSum(cc, gainIdx, sf - 1) + cc.AcbgainWeights(gainIdx[sf - 1]).0 + 2 * cc.AcbgainWeights(gainIdx[sf - 1]).1
  }

  /** Which of the three delta tables a mean gain selects. */
  function Mode(avgGain: int): (mode: nat)
    ensures mode < 3
  {
    if avgGain >= 10007 then if avgGain < 14085 then 1 else 2 else 0
  }

  function LtpMode(cc: CcTables, gainIdx: seq<int>): (mode: nat)
    requires cc.Valid() && |gainIdx| == 4 && forall i :: 0 <= i < |gainIdx| ==> 0 <= gainIdx[i] < 16
    ensures mode < 3
  {
    Mode(TruncDiv(GainSum(cc, gainIdx, 4), 4))
  }

  // ---- Lags ----

  /** A lag in quarter-block resolution lies in its block. */
  predicate InBlock(blk: int, lag: int) {
    blk * BLOCK_SIZE <= lag < blk * BLOCK_SIZE + BLOCK_SIZE
  }

  /** What is known of the lag before: its block and the lag itself, or nothing. */
  predicate ValidLagState(blk: int, lag: int) {
    -1 <= blk < NUM_BLOCKS && (blk >= 0 ==> InBlock(blk, lag))
  }

  /** The first n segments of a contour hold one lag each, in the segment's block. */
  predicate LagsFill(bs: Blockseg, laginds: seq<int>, n: nat)
    requires bs.Valid() && n <= |bs.blocks|
  {
    && |laginds| == NUM_SUBFRAMES
    && forall k :: 0 <= k < n ==> SegFilled(bs, laginds, k)
  }

  predicate SegFilled(bs: Blockseg, laginds: seq<int>, k: nat)
    requires bs.Valid() && k < |bs.blocks| && |laginds| == NUM_SUBFRAMES
  {
    SegInside(bs, k);
    && InBlock(bs.blocks[k], SegLag(bs, laginds, k))
    && forall i :: SegStart(bs.seglens, k) <= i < SegStart(bs.seglens, k + 1) ==> laginds[i] == SegLag(bs, laginds, k)
  }

  function SegLag(bs: Blockseg, laginds: seq<int>, k: nat): int
    requires bs.Valid() && k < |bs.blocks| && |laginds| == NUM_SUBFRAMES
  {
    SegInside(bs, k);
    laginds[SegStart(bs.seglens, k)]
  }

  predicate ValidLags(t: PitchTables, p: PitchParams) {
    && t.Valid() && 0 <= p.contour < NUM_CONTOURS
    && LagsFill(t.blocksegs[p.contour], p.laginds, |t.blocksegs[p.contour].blocks|)
  }

  /** The contour selector: outright, or as first block and place among the contours that start there. */
  function ContourSyms(t: PitchTables, contour: int, prevBlk: int): seq<Sym>
    requires t.Valid() && 0 <= contour < NUM_CONTOURS && -1 <= prevBlk < NUM_BLOCKS
  {
    var n := t.blocksegs2idx[contour] - 1;
    if prevBlk < 0 then [CdfSym(t.blocksegIdxCmf, n)]
    else
      var b0 := t.blocksegs[contour].blocks[0];
      [CdfSym(t.blockTransitionCmf[prevBlk], b0)] + [CdfSym(FirstRow(t, b0), n - t.firstblockRange[b0].0)]
  }

  /** The contours that start in block b. */
  function FirstRow(t: PitchTables, b: int): (row: seq<int>)
    requires t.Valid() && 0 <= b < NUM_BLOCKS
    ensures ValidCdf(row) && |row| == t.firstblockRange[b].1 - t.firstblockRange[b].0 + 2
  {
    SliceValid(t.blocksegIdxCmf, t.firstblockRange[b].0, t.firstblockRange[b].1 - t.firstblockRange[b].0 + 2);
    t.blocksegIdxCmf[t.firstblockRange[b].0..t.firstblockRange[b].1 + 2]
  }

  /** Whether the first segment is coded relative to the lag before. */
  predicate Continues(prevBlk: int, b0: int) {
    prevBlk > -1 && Near(prevBlk, b0)
  }

  /** The delta table seen from the lag before: 64 lags of the new block. */
  function DeltaRow(t: PitchTables, mode: nat, blk: int, prevLag: int): (row: seq<int>)
    requires t.Valid() && mode < 3 && -127 <= blk * BLOCK_SIZE - prevLag <= 128
    ensures ValidCdf(row) && |row| == BLOCK_SIZE + 1
  {
    var start := blk * BLOCK_SIZE - prevLag + 2 * BLOCK_SIZE - 1;
    SliceValid(t.deltaLagCmfs[mode], start, BLOCK_SIZE + 1);
    t.deltaLagCmfs[mode][start..start + BLOCK_SIZE + 1]
  }

  /** The segments from k on, with the block and lag before. */
  function DeltaSyms(t: PitchTables, p: PitchParams, mode: nat, k: nat, blk: int, lag: int): seq<Sym>
    requires ValidLags(t, p) && mode < 3 && k <= |t.blocksegs[p.contour].blocks|
    requires InBlock(blk, lag)
    requires k < |t.blocksegs[p.contour].blocks| ==> Near(blk, t.blocksegs[p.contour].blocks[k])
    decreases |t.blocksegs[p.contour].blocks| - k
  {
    var bs := t.blocksegs[p.contour];
    if k == |bs.blocks| then []
    else
      SegInside(bs, k);
      var next := SegLag(bs, p.laginds, k);
      assert SegFilled(bs, p.laginds, k);
      [CdfSym(DeltaRow(t, mode, bs.blocks[k], lag), next - bs.blocks[k] * BLOCK_SIZE)]
      + DeltaSyms(t, p, mode, k + 1, bs.blocks[k], next)
  }

  function LagSyms(t: PitchTables, p: PitchParams, mode: nat, blk: int, lag: int): seq<Sym>
    requires ValidLags(t, p) && mode < 3 && ValidLagState(blk, lag)
  {
    ContourSyms(t, p.contour, blk) + SegSyms(t, p, mode, blk, lag)
  }

  /** The lags of the contour's segments. */
  function SegSyms(t: PitchTables, p: PitchParams, mode: nat, blk: int, lag: int): seq<Sym>
    requires ValidLags(t, p) && mode < 3 && ValidLagState(blk, lag)
  {
    var bs := t.blocksegs[p.contour];
    if Continues(blk, bs.blocks[0]) then DeltaSyms(t, p, mode, 0, blk, lag)
    else
      SegInside(bs, 0);
      var first := SegLag(bs, p.laginds, 0);
      assert SegFilled(bs, p.laginds, 0);
      var s := first - bs.blocks[0] * BLOCK_SIZE;
      [Sym(s, s + 1, 64)] + DeltaSyms(t, p, mode, 1, bs.blocks[0], first)
  }

  // ---- The whole block ----

  /** A predictor that the tables can be entered with. */
  predicate ValidPredictor(p: Predictor) {
    ValidLtpState(p.gainIdx, p.filtIdx) && ValidLagState(p.blk, p.idx)
  }

  predicate ValidPitch(t: PitchTables, subfr: seq<int>, p: PitchParams) {
    ValidLtp(subfr, p) && ValidLags(t, p)
  }

  function PitchSyms(cc: CcTables, t: PitchTables, pred: Predictor, subfr: seq<int>, p: PitchParams): seq<Sym>
    requires cc.Valid() && ValidPitch(t, subfr, p) && ValidPredictor(pred)
  {
    LtpSyms(cc, subfr, p, pred.gainIdx, pred.filtIdx, 0)
    + LagSyms(t, p, LtpMode(cc, p.gainIdx), pred.blk, pred.idx)
  }

  /** The predictor a voiced frame leaves. */
  function PitchNext(t: PitchTables, pred: Predictor, subfr: seq<int>, p: PitchParams): (q: Predictor)
    requires ValidPitch(t, subfr, p) && ValidPredictor(pred)
    ensures ValidPredictor(q)
  {
    var bs := t.blocksegs[p.contour];
    var n := |bs.blocks|;
    SegInside(bs, n - 1);
    assert SegFilled(bs, p.laginds, n - 1);
    Predictor(pred.stage1, p.gainIdx[3], FiltBefore(subfr, p, pred.filtIdx, 4), bs.blocks[n - 1], p.laginds[7])
  }

  /** What a receiver can know of a pitch block: filters of silent subframes are not sent. */
  function HeardPitch(subfr: seq<int>, p: PitchParams): PitchParams
    requires |subfr| == |p.filtIdx| == 4
  {
    p.(filtIdx := seq(4, sf requires 0 <= sf < 4 => if subfr[sf] > 0 then p.filtIdx[sf] else -1))
  }
}
