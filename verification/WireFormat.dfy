/**
 * The bitstream itself, block by block: which range of frequencies each symbol is coded as, named by
 * table and entry and free of the functions that both directions of the codec are written with.
 */
module WireFormat {
  import opened Bytes
  import opened Intervals
  import opened RangeEncoding
  import opened CodecTables
  import opened PulseSpec
  import opened PulseVectors
  import opened PulseSymbols
  import opened LsfCoder
  import opened GainCoder
  import opened PitchTables
  import opened PitchSpec
  import opened FrameCoder

  // ---- Intervals ----

  /**
   * The shares of an interval tile it: they follow one another without gap or overlap, each is as
   * wide as its frequencies times the quotient, and what the division leaves over goes to the first.
   */
  lemma SharesTile(iv: Interval, a: int, b: int, c: int, ft: int)
    requires Normal(iv) && 0 <= a < b < c <= ft <= BOT
    ensures var r, left, right := iv.rng / ft, Narrow(iv, Sym(a, b, ft)), Narrow(iv, Sym(b, c, ft));
            && left.low + left.rng == right.low && right.rng == r * (c - b)
            && (a == 0 ==> left.low == iv.low && left.rng == r * b + iv.rng % ft)
            && (c == ft ==> right.low + right.rng == iv.low + iv.rng)
  {
    var r := iv.rng / ft;
    DivMod(iv.rng, ft);
    DivBounds(iv.rng, ft);
    Spreads(r, a, b - a, ft - b);
    Spreads(r, b, c - b, ft - c);
    Spreads(r, 0, b, ft - b);
  }

  lemma Spreads(r: int, x: int, y: int, z: int)
    ensures r * (x + y + z) == r * x + r * y + r * z && r * (y + z) == r * y + r * z
  {
  }

  // ---- Pulses ----

  /** Twice the share of the counts below k, out of twice 13521. */
  function CountShare(k: int): int {
    322 * (k + 2) - (k - 1) * (k - 2)
  }

  lemma CountWire(total: nat)
    requires total <= 160
    ensures var s := CountSym(total);
            && s.ft == 13521 && 2 * s.fh == CountShare(total)
            && if total == 0 then s.fl == 0 else 2 * s.fl == CountShare(total - 1)
  {
    hide CountShare, TriT, Quadratic;
    TriTExact(total);
    TriTExact(160);
    TriBounds(160);
    CountShareIs(total);
    if total > 0 {
      TriTExact(total - 1);
      CountShareIs(total - 1);
    }
  }

  lemma {:induction false} CountShareIs(k: nat)
    ensures 2 * Quadratic(k) == CountShare(k)
  {
    if k > 0 {
      CountShareIs(k - 1);
      QuadraticStep(k - 1);
      hide Quadratic;
      assert (k - 1) * (k - 2) == (k - 2) * (k - 3) + 2 * (k - 2);
    }
  }

  /** How n pulses are shared out between two sides that hold gran each: from table n, where there is a choice. */
  function SplitWire(cc: CcTables, n: int, gran: int, at: int, s: int): seq<Sym>
    requires cc.Valid() && 0 <= n <= 2 * gran <= 160 && Max(0, n - gran) <= s <= Min(n, gran) && 0 <= at
    requires 1 <= n < 2 * gran ==> at + Min(n, gran) - Max(0, n - gran) + 2 <= |cc.splitCmfs[n - 1]|
  {
    if n == 0 || n == 2 * gran then []
    else
      var low, high := Max(0, n - gran), Min(n, gran);
      [Share(cc.splitCmfs[n - 1], at, high - low + 2, s - low)]
  }

  lemma PairWire(cc: CcTables, n: int, s0: int)
    requires cc.Valid() && 0 <= n <= 80 && Max(0, n - 40) <= s0 <= Min(n, 40)
    ensures PairSyms(cc, n, s0) == SplitWire(cc, n, 40, Max(0, n - 40), s0)
  {
    hide ValidCdf;
  }

  lemma HalvesWire(cc: CcTables, total: int, sum: int)
    requires cc.Valid() && 1 <= total <= 160 && Max(0, total - 80) <= sum <= Min(total, 80)
    ensures HalvesSyms(cc, total, sum) == SplitWire(cc, total, 80, 0, sum)
  {
    hide ValidCdf;
  }

  lemma WindowWire(cc: CcTables, left: int, c: int, m: int)
    requires cc.Valid() && 1 <= left <= 80 && 1 <= c <= 40 && 0 <= m < left
    ensures var oct := (left + 7) / 8;
            && |cc.runlen[oct - 1].cmfs[c - 1]| == 8 * oct + 1
            && CdfSym(RunWindow(cc, left, c), m) == Share(cc.runlen[oct - 1].cmfs[c - 1], 8 * oct - left, left + 1, m)
  {
    hide ValidCdf, CcTables.ValidSplits;
  }

  /** Run j: from the table of the positions left, in eights, and the pulses to come, cut to the positions left. */
  lemma {:induction false} RunWire(cc: CcTables, pos: int, c: int, runs: seq<int>, j: nat)
    requires cc.Valid() && 1 <= pos <= 80 && |runs| <= c <= 40 && RunsFit(pos, runs) && j < |runs|
    ensures var left := pos - Sum(runs[..j]);
            var oct := (left + 7) / 8;
            && 1 <= left <= 80 && 0 <= runs[j] < left && |cc.runlen[oct - 1].cmfs[c - j - 1]| == 8 * oct + 1
            && RunSyms(cc, pos, c, runs)[j]
               == Share(cc.runlen[oct - 1].cmfs[c - j - 1], 8 * oct - left, left + 1, runs[j])
    decreases j
  {
    hide CcTables.Valid, RunWindow, CdfSym, Share;
    if j == 0 {
      assert runs[..0] == [];
      WindowWire(cc, pos, c, runs[0]);
    } else {
      RunWire(cc, pos - runs[0], c - 1, runs[1..], j - 1);
      SumFront(runs[..j]);
      assert runs[..j][1..] == runs[1..][..j - 1];
      assert RunSyms(cc, pos, c, runs)[j] == RunSyms(cc, pos - runs[0], c - 1, runs[1..])[j - 1];
    }
  }

  /** The runs of subframe i come behind those of the subframes before it. */
  lemma {:induction false} MagnitudeWire(cc: CcTables, subfr: seq<int>, runs: seq<int>, i: nat)
    requires cc.Valid() && MagsFit(subfr, runs) && i < |subfr|
    ensures var at := Sum(subfr[..i]);
            && 0 <= at <= at + subfr[i] <= |runs| && subfr[i] <= 40 && RunsFit(80, runs[at..at + subfr[i]])
            && at + subfr[i] <= |MagSyms(cc, subfr, runs)|
            && MagSyms(cc, subfr, runs)[at..at + subfr[i]] == RunSyms(cc, 80, subfr[i], runs[at..at + subfr[i]])
    decreases i
  {
    hide CcTables.Valid, RunSyms, RunsFit, MagSyms, MagsFit;
    MagnitudeHead(cc, subfr, runs);
    var n := subfr[0];
    if i == 0 {
      assert subfr[..0] == [] && runs[0..n] == runs[..n];
    } else {
      MagnitudeWire(cc, subfr[1..], runs[n..], i - 1);
      SumFront(subfr[..i]);
      assert subfr[..i][1..] == subfr[1..][..i - 1];
      var at := Sum(subfr[..i]);
      SlicedTail(runs, n, at - n, subfr[i]);
      SlicedTail(MagSyms(cc, subfr, runs), n, at - n, subfr[i]);
    }
  }

  lemma SlicedTail<T>(s: seq<T>, n: nat, at: nat, k: nat)
    requires n + at + k <= |s|
    ensures s[n..][at..at + k] == s[n + at..n + at + k]
  {
  }

  lemma MagnitudeHead(cc: CcTables, subfr: seq<int>, runs: seq<int>)
    requires cc.Valid() && MagsFit(subfr, runs) && |subfr| > 0
    ensures 0 <= subfr[0] <= 40 && subfr[0] <= |runs| && RunsFit(80, runs[..subfr[0]])
    ensures MagsFit(subfr[1..], runs[subfr[0]..])
    ensures var m := MagSyms(cc, subfr, runs);
            && subfr[0] <= |m| && m[0..subfr[0]] == RunSyms(cc, 80, subfr[0], runs[..subfr[0]])
            && m[subfr[0]..] == MagSyms(cc, subfr[1..], runs[subfr[0]..])
  {
    hide CcTables.Valid, RunSyms, RunsFit;
  }

  /** The signs in batches of fifteen, a set bit for a positive pulse, the first pulse in the top bit. */
  lemma {:induction false} SignWire(n: nat, syms: seq<RawSym>, q: nat)
    requires BatchesFit(n, syms) && q < n
    ensures q / 15 < |syms| && q % 15 < syms[q / 15].nbits <= 15
    ensures var b := syms[q / 15];
            && b.nbits == Min(n - q / 15 * 15, 15)
            && AllSigns(n, syms)[q] == (if b.sym / Pow2(b.nbits - 1 - q % 15) % 2 == 1 then 1 else -1)
            && RawSyms(syms)[q / 15] == Sym(b.sym, b.sym + 1, Pow2(b.nbits))
    decreases n
  {
    hide Pow2;
    if q >= 15 {
      SignWire(n - 15, syms[1..], q - 15);
      assert q / 15 == (q - 15) / 15 + 1 && q % 15 == (q - 15) % 15;
    } else {
      assert q / 15 == 0 && q % 15 == q;
    }
  }

  /** The order of the block: count, halves, pairs, runs, signs. */
  lemma PulseWire(cc: CcTables, p: PulseParams)
    requires cc.Valid() && ValidPulses(p)
    ensures var sum := p.subfr[0] + p.subfr[1];
            PulseSyms(cc, p)
            == [CountSym(p.total)]
               + (if p.total == 0 then []
                  else SplitWire(cc, p.total, 80, 0, sum) + SplitWire(cc, sum, 40, Max(0, sum - 40), p.subfr[0])
                       + SplitWire(cc, p.total - sum, 40, Max(0, p.total - sum - 40), p.subfr[2]))
               + MagSyms(cc, p.subfr, p.magRuns) + RawSyms(p.signSyms)
  {
    hide CcTables.Valid, CountSym, SplitWire, HalvesSyms, PairSyms, MagSyms, RawSyms, MagsFit, BatchesFit;
    if p.total > 0 {
      var sum := p.subfr[0] + p.subfr[1];
      HalvesWire(cc, p.total, sum);
      PairWire(cc, sum, p.subfr[0]);
      PairWire(cc, p.total - sum, p.subfr[2]);
    }
  }

  // ---- Gains ----

  /** The log gain from its table: 16-bit steps for the main index, and four entries for each shape. */
  lemma GainQWire(cc: CcTables, gainMain: int, gainDelta: int, sf: nat, at: nat)
    requires 0 <= gainDelta && at == 0xf35f0 - cc.gainReconBase && at % 2 == 0
    requires 2 < |cc.gainRecon| && at / 2 + 4 * gainDelta + sf < |cc.gainRecon|
    ensures GainQ(cc, gainMain, gainDelta, sf)
            == gainMain * cc.gainRecon[2] - 0x154000 + 16 * cc.gainRecon[at / 2 + 4 * gainDelta + sf]
  {
    assert cc.NrgStep(2) == cc.gainRecon[2];
    assert cc.GainRecon(true, sf + 4 * gainDelta) == cc.gainRecon[at / 2 + 4 * gainDelta + sf];
  }

  /** off is minus the gain in units of 16384, rounded, and held to 0 to 85. */
  predicate Rounded(gainQ: int, off: int) {
    0 <= off <= 85 && (off > 0 ==> gainQ < 8192 - 16384 * off) && (off < 85 ==> gainQ >= -8192 - 16384 * off)
  }

  /** The residual: by tens of pulses, up to three, and shifted by the rounded gain. */
  lemma NrgWire(cc: CcTables, cnt: int, gainQ: int, off: int, s: int)
    requires cc.Valid() && 0 < cnt <= 40 && Rounded(gainQ, off) && 0 <= s < 91
    ensures CdfSym(NrgRow(cc, cnt, gainQ), s) == Share(cc.fcbgOffset[8 + Min(cnt / 10, 3)], off, 92, s)
  {
    hide ValidCdf;
    assert MinOffset(gainQ) == off;
  }

  /** One residual for each subframe with pulses, in order. */
  lemma NrgStepWire(cc: CcTables, subfr: seq<int>, gp: GainParams, sf: nat)
    requires cc.Valid() && ValidGains(subfr, gp) && sf < 4
    ensures NrgSyms(cc, subfr, gp, sf)
            == (if subfr[sf] > 0
                then [CdfSym(NrgRow(cc, subfr[sf], GainQ(cc, gp.gainMain, gp.gainDelta, sf)), gp.nrgRes[sf])] else [])
               + NrgSyms(cc, subfr, gp, sf + 1)
    ensures NrgSyms(cc, subfr, gp, 4) == []
  {
    hide CcTables.Valid, NrgRow, GainQ, CdfSym;
  }

  lemma GainWire(cc: CcTables, subfr: seq<int>, gp: GainParams)
    requires cc.Valid() && ValidGains(subfr, gp)
    ensures GainSyms(cc, subfr, gp)
            == [Entry(cc.nrgresGain4, gp.gainMain), Entry(cc.nrgresShape4, gp.gainDelta)] + NrgSyms(cc, subfr, gp, 0)
  {
    hide NrgSyms, ValidCdf;
  }

  // ---- Pitch gains and filters ----

  /** Each subframe: its gain behind the one before, and with pulses its filter behind the last one sent. */
  lemma LtpWire(cc: CcTables, subfr: seq<int>, p: PitchParams, gain: int, filt: int, sf: nat)
    requires cc.Valid() && ValidLtp(subfr, p) && ValidLtpState(gain, filt) && sf < 4
    ensures var f := p.filtIdx[sf];
            LtpSyms(cc, subfr, p, gain, filt, sf)
            == [Share(cc.acbgainsHr, 17 * (gain + 1), 17, p.gainIdx[sf])]
               + (if subfr[sf] <= 0 then []
                  else if filt == -1 then [Entry(cc.fcbgainsV, f)]
                  else [Share(cc.fcbgainsVDelta, 33 - filt, 35, f)])
               + LtpSyms(cc, subfr, p, p.gainIdx[sf], if subfr[sf] > 0 then f else filt, sf + 1)
    ensures LtpSyms(cc, subfr, p, gain, filt, 4) == []
  {
    hide CcTables.Valid, ValidCdf, FiltRow, CdfSym, Share, Entry, CcTables.AcbgainRow;
    LtpShapes(cc);
    GainEntry(cc, gain, p.gainIdx[sf]);
    if subfr[sf] > 0 {
      FiltEntry(cc, filt, p.filtIdx[sf]);
    }
    LtpUnfold(cc, subfr, p, gain, filt, sf);
  }

  lemma LtpShapes(cc: CcTables)
    requires cc.Valid()
    ensures |cc.acbgainsHr| == 289 && |cc.fcbgainsV| == 35 && |cc.fcbgainsVDelta| == 68
  {
    hide ValidCdf, CcTables.ValidSplits, CcTables.ValidRunlens;
  }

  lemma LtpUnfold(cc: CcTables, subfr: seq<int>, p: PitchParams, gain: int, filt: int, sf: nat)
    requires cc.Valid() && ValidLtp(subfr, p) && ValidLtpState(gain, filt) && sf < 4
    ensures |cc.AcbgainRow(gain)| == 17
    ensures LtpSyms(cc, subfr, p, gain, filt, sf)
            == [CdfSym(cc.AcbgainRow(gain), p.gainIdx[sf])]
               + (if subfr[sf] > 0 then [CdfSym(FiltRow(cc, filt), p.filtIdx[sf])] else [])
               + LtpSyms(cc, subfr, p, p.gainIdx[sf], if subfr[sf] > 0 then p.filtIdx[sf] else filt, sf + 1)
    ensures LtpSyms(cc, subfr, p, gain, filt, 4) == []
  {
    hide CcTables.ValidSplits, CcTables.ValidRunlens, ValidCdf, FiltRow, CdfSym;
  }

  lemma GainEntry(cc: CcTables, gain: int, g: int)
    requires cc.Valid() && -1 <= gain < 16 && 0 <= g < 16
    ensures |cc.acbgainsHr| == 289 && |cc.AcbgainRow(gain)| == 17
    ensures CdfSym(cc.AcbgainRow(gain), g) == Share(cc.acbgainsHr, 17 * (gain + 1), 17, g)
  {
    hide CcTables.ValidSplits, CcTables.ValidRunlens, ValidCdf;
  }

  lemma FiltEntry(cc: CcTables, filt: int, f: int)
    requires cc.Valid() && -1 <= filt < 34 && 0 <= f < 34
    ensures |cc.fcbgainsV| == 35 && |cc.fcbgainsVDelta| == 68
    ensures CdfSym(FiltRow(cc, filt), f)
            == if filt == -1 then Entry(cc.fcbgainsV, f) else Share(cc.fcbgainsVDelta, 33 - filt, 35, f)
  {
    hide CcTables.ValidSplits, CcTables.ValidRunlens, ValidCdf, CcTables.AcbgainRow;
  }

  /** The mean of the weights picks the delta table: below 10007, below 14085, or above. */
  lemma ModeWire(cc: CcTables, g: seq<int>)
    requires cc.Valid() && |g| == 4 && forall i :: 0 <= i < |g| ==> 0 <= g[i] < 16
    ensures var w := cc.acbgainsCbHrQ14;
            var sum := w[2 * g[0]] + 2 * w[2 * g[0] + 1] + w[2 * g[1]] + 2 * w[2 * g[1] + 1]
                       + w[2 * g[2]] + 2 * w[2 * g[2] + 1] + w[2 * g[3]] + 2 * w[2 * g[3] + 1];
            LtpMode(cc, g) == if sum < 40028 then 0 else if sum < 56340 then 1 else 2
  {
    hide ValidCdf, CcTables.ValidSplits, CcTables.ValidRunlens, GainSum, TruncDiv, Mode;
    FourGains(cc, g);
    ModeOf(GainSum(cc, g, 4));
  }

  lemma FourGains(cc: CcTables, g: seq<int>)
    requires cc.Valid() && |g| == 4 && forall i :: 0 <= i < |g| ==> 0 <= g[i] < 16
    ensures |cc.acbgainsCbHrQ14| == 32
    ensures var w := cc.acbgainsCbHrQ14;
            GainSum(cc, g, 4) == w[2 * g[0]] + 2 * w[2 * g[0] + 1] + w[2 * g[1]] + 2 * w[2 * g[1] + 1]
                                 + w[2 * g[2]] + 2 * w[2 * g[2] + 1] + w[2 * g[3]] + 2 * w[2 * g[3] + 1]
  {
    hide ValidCdf, CcTables.ValidSplits, CcTables.ValidRunlens, CcTables.AcbgainRow;
    assert GainSum(cc, g, 0) == 0;
    assert GainSum(cc, g, 1) == cc.AcbgainWeights(g[0]).0 + 2 * cc.AcbgainWeights(g[0]).1;
    assert GainSum(cc, g, 2) == GainSum(cc, g, 1) + cc.AcbgainWeights(g[1]).0 + 2 * cc.AcbgainWeights(g[1]).1;
    assert GainSum(cc, g, 3) == GainSum(cc, g, 2) + cc.AcbgainWeights(g[2]).0 + 2 * cc.AcbgainWeights(g[2]).1;
  }

  lemma ModeOf(sum: int)
    ensures Mode(TruncDiv(sum, 4)) == if sum < 40028 then 0 else if sum < 56340 then 1 else 2
  {
  }

  // ---- Lags ----

  /** The contour: outright, or first its first block and then its place among those that start there. */
  lemma ContourWire(t: PitchTables, contour: int, prevBlk: int)
    requires t.Valid() && 0 <= contour < 217 && -1 <= prevBlk < 9
    ensures var n, b0 := t.blocksegs2idx[contour] - 1, t.blocksegs[contour].blocks[0];
            var (lo, hi) := t.firstblockRange[b0];
            ContourSyms(t, contour, prevBlk)
            == if prevBlk == -1 then [Entry(t.blocksegIdxCmf, n)]
               else [Entry(t.blockTransitionCmf[prevBlk], b0), Share(t.blocksegIdxCmf, lo, hi - lo + 2, n - lo)]
  {
    hide ValidCdf;
  }

  lemma ContourOk(t: PitchTables, p: PitchParams)
    requires ValidLags(t, p)
    ensures |t.blocksegs| == 217 && |p.laginds| == 8 && t.blocksegs[p.contour].Valid()
    ensures 0 < |t.blocksegs[p.contour].blocks|
    ensures forall k :: 0 <= k < |t.blocksegs[p.contour].blocks| ==> SegFilled(t.blocksegs[p.contour], p.laginds, k)
  {
    hide ValidCdf, SegFilled;
  }

  /** The first lag: in steps from the lag before if the blocks are near, else outright among 64. */
  lemma FirstLagWire(t: PitchTables, p: PitchParams, mode: nat, blk: int, lag: int)
    requires ValidLags(t, p) && mode < 3 && ValidLagState(blk, lag)
    ensures |t.blocksegs[p.contour].blocks| > 0 && InBlock(t.blocksegs[p.contour].blocks[0], p.laginds[0])
    ensures |t.blocksegs[p.contour].blocks| > 1 ==>
              Near(t.blocksegs[p.contour].blocks[0], t.blocksegs[p.contour].blocks[1])
    ensures var b0, first := t.blocksegs[p.contour].blocks[0], p.laginds[0];
            && (blk >= 0 && -1 <= b0 - blk <= 2 ==> SegSyms(t, p, mode, blk, lag) == DeltaSyms(t, p, mode, 0, blk, lag))
            && (!(blk >= 0 && -1 <= b0 - blk <= 2) ==>
                  SegSyms(t, p, mode, blk, lag)
                  == [Sym(first - 64 * b0, first - 64 * b0 + 1, 64)] + DeltaSyms(t, p, mode, 1, b0, first))
  {
    hide PitchTables.Valid, DeltaSyms;
    ContourOk(t, p);
    assert SegStart(t.blocksegs[p.contour].seglens, 0) == 0;
    assert SegFilled(t.blocksegs[p.contour], p.laginds, 0);
  }

  /** Every further lag: among the 64 of its block, in the table of steps from the lag before. */
  lemma DeltaWire(t: PitchTables, p: PitchParams, mode: nat, k: nat, blk: int, lag: int)
    requires ValidLags(t, p) && mode < 3 && k < |t.blocksegs[p.contour].blocks| && InBlock(blk, lag)
    requires Near(blk, t.blocksegs[p.contour].blocks[k])
    ensures var bs := t.blocksegs[p.contour];
            && 0 <= SegStart(bs.seglens, k) < 8 && InBlock(bs.blocks[k], p.laginds[SegStart(bs.seglens, k)])
            && 0 <= 64 * bs.blocks[k] - lag + 127 <= 255
    ensures var bs := t.blocksegs[p.contour];
            var b, next := bs.blocks[k], p.laginds[SegStart(bs.seglens, k)];
            DeltaSyms(t, p, mode, k, blk, lag)
            == [Share(t.deltaLagCmfs[mode], 64 * b - lag + 127, 65, next - 64 * b)]
               + DeltaSyms(t, p, mode, k + 1, b, next)
  {
    hide PitchTables.Valid, DeltaRow, CdfSym, Share;
    ContourOk(t, p);
    var bs := t.blocksegs[p.contour];
    SegInside(bs, k);
    assert SegFilled(bs, p.laginds, k);
    DeltaEntry(t, mode, bs.blocks[k], lag, p.laginds[SegStart(bs.seglens, k)] - 64 * bs.blocks[k]);
  }

  lemma DeltaEntry(t: PitchTables, mode: nat, blk: int, lag: int, s: int)
    requires t.Valid() && mode < 3 && -127 <= blk * 64 - lag <= 128 && 0 <= s < 64
    ensures |t.deltaLagCmfs| == 3 && |t.deltaLagCmfs[mode]| == 320
    ensures CdfSym(DeltaRow(t, mode, blk, lag), s) == Share(t.deltaLagCmfs[mode], 64 * blk - lag + 127, 65, s)
  {
    hide ValidCdf, PitchTables.ValidContours;
  }

  // ---- The frame ----

  /** The order of an internal frame, with the pitch block for voiced frames and the gain block for others. */
  lemma InternalWire(tb: Tables, p: Predictor, f: nat, ip: InternalParams)
    requires ValidInternal(tb, p, f, ip)
    ensures var q := Advance(p, f, ip.lsf.stage1);
            && (ip.lsf.stage1 == 1 ==>
                  InternalSyms(tb, p, f, ip)
                  == LsfSyms(tb.lsf, p, f, ip.lsf) + PulseSyms(tb.cc, ip.pulses)
                     + LtpSyms(tb.cc, ip.pulses.subfr, ip.pitch, q.gainIdx, q.filtIdx, 0)
                     + ContourSyms(tb.pitch, ip.pitch.contour, q.blk)
                     + SegSyms(tb.pitch, ip.pitch, LtpMode(tb.cc, ip.pitch.gainIdx), q.blk, q.idx))
            && (ip.lsf.stage1 == 0 ==>
                  InternalSyms(tb, p, f, ip)
                  == LsfSyms(tb.lsf, p, f, ip.lsf) + PulseSyms(tb.cc, ip.pulses)
                     + GainSyms(tb.cc, ip.pulses.subfr, ip.gains))
  {
    hide CcTables.Valid, LsfTables.Valid, PitchTables.Valid, LsfSyms, PulseSyms, LtpSyms, ContourSyms, SegSyms,
      GainSyms, BodyFits, ValidPulses;
    if ip.lsf.stage1 == 1 {
      var q := Advance(p, f, 1);
      var a, b, c := LsfSyms(tb.lsf, p, f, ip.lsf), PulseSyms(tb.cc, ip.pulses),
                     LtpSyms(tb.cc, ip.pulses.subfr, ip.pitch, q.gainIdx, q.filtIdx, 0);
      var d, e := ContourSyms(tb.pitch, ip.pitch.contour, q.blk),
                  SegSyms(tb.pitch, ip.pitch, LtpMode(tb.cc, ip.pitch.gainIdx), q.blk, q.idx);
      AssociateFive(a, b, c, d, e);
    } else {
      Associate(LsfSyms(tb.lsf, p, f, ip.lsf), PulseSyms(tb.cc, ip.pulses),
                GainSyms(tb.cc, ip.pulses.subfr, ip.gains));
    }
  }

  /** What a frame leaves for the next: the last of everything it sent, and nothing across a change of voicing. */
  lemma PredictorWire(tb: Tables, p: Predictor, f: nat, ip: InternalParams)
    requires ValidInternal(tb, p, f, ip)
    ensures var q, kept := InternalNext(tb, p, f, ip), f > 0 && p.stage1 == ip.lsf.stage1;
            && q.stage1 == ip.lsf.stage1
            && (ip.lsf.stage1 == 0 ==> q == if kept then p else Predictor(0, -1, -1, -1, -1))
            && (ip.lsf.stage1 == 1 ==>
                  var bs := tb.pitch.blocksegs[ip.pitch.contour];
                  && q.gainIdx == ip.pitch.gainIdx[3] && q.idx == ip.pitch.laginds[7]
                  && q.blk == bs.blocks[|bs.blocks| - 1]
                  && FilterAfter(ip.pulses.subfr, ip.pitch.filtIdx, if kept then p.filtIdx else -1, q.filtIdx))
  {
    hide PitchTables.Valid, LsfTables.Valid, CcTables.Valid, BodyFits, ValidPulses, LagsFill;
    if ip.lsf.stage1 == 1 {
      var q := Advance(p, f, 1);
      FilterIs(ip.pulses.subfr, ip.pitch, q.filtIdx);
    }
  }

  /** The filter of the last subframe with pulses, or the one before the frame. */
  predicate FilterAfter(subfr: seq<int>, filtIdx: seq<int>, before: int, after: int)
    requires |subfr| == |filtIdx| == 4
  {
    && (forall sf :: 0 <= sf < 4 && subfr[sf] > 0 && (forall k :: sf < k < 4 ==> subfr[k] <= 0) ==>
          after == filtIdx[sf])
    && ((forall k :: 0 <= k < 4 ==> subfr[k] <= 0) ==> after == before)
  }

  lemma FilterIs(subfr: seq<int>, p: PitchParams, filt: int)
    requires ValidLtp(subfr, p) && -1 <= filt < 34
    ensures FilterAfter(subfr, p.filtIdx, filt, FiltBefore(subfr, p, filt, 4))
  {
    assert FiltBefore(subfr, p, filt, 0) == filt;
    assert FiltBefore(subfr, p, filt, 2) == NextFilt(subfr, p, FiltBefore(subfr, p, filt, 1), 1);
  }

  /** The packets that are decoded, byte by byte: 60 ms of active wide-band speech in the plain form. */
  lemma OnPointBytes(b: byte)
    ensures OnPoint(b) <==> b in {18, 19, 80, 81, 82, 83, 146, 147}
  {
  }

  /** Runs count from the pulse before, or from the start, and a pulse of two units adds a run of zero. */
  lemma RunsExample()
    ensures BuildRuns([0, 0, 2, 0, -1, 0]) == [2, 0, 2] && BuildSigns([0, 0, 2, 0, -1, 0]) == [1, -1]
  {
    var w := [0, 0, 2, 0, -1, 0];
    assert w[..5] == [0, 0, 2, 0, -1] && w[..5][..4] == [0, 0, 2, 0] && w[..5][..4][..3] == [0, 0, 2];
    assert w[..5][..4][..3][..2] == [0, 0] && w[..5][..4][..3][..2][..1] == [0];
    assert BuildRuns([0, 0]) == [] && BuildSigns([0, 0]) == [] && LastPos([0, 0]) == 0;
    assert BuildRuns([0, 0, 2]) == [2, 0] && BuildSigns([0, 0, 2]) == [1] && LastPos([0, 0, 2]) == 2;
    assert BuildRuns([0, 0, 2, 0]) == [2, 0] && BuildSigns([0, 0, 2, 0]) == [1] && LastPos([0, 0, 2, 0]) == 2;
    assert BuildRuns([0, 0, 2, 0, -1]) == [2, 0, 2] && BuildSigns([0, 0, 2, 0, -1]) == [1, -1];
  }
}
