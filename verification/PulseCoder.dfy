/**
 * The excitation block as src/voip/media/mlow/encoder.go writes it, config 0: 320 samples, four
 * subframes, the triangular count prior.
 */
module PulseCoder {
  import opened Bytes
  import opened Intervals
  import opened RangeEncoding
  import opened CodecTables
  import opened PulseSpec
  import opened PulseVectors
  import opened PulseSymbols
  import opened PulseBijection

  /** The static table at 0xe8990 that sizes a frame by voicing class. */
  function PulseCountByte(idx: nat): nat {
    if idx == 0 then 80 else if idx <= 2 then 160 else 0
  }

  // ---- Writing ----

  /** encodeSplit3537: the first subframe's share s0 of count pulses, when there is a choice. */
  method EncodeSplit3537(enc: RangeEncoder, cc: CcTables, count: int, granularity: int, s0: int)
    requires enc.Valid() && cc.Valid() && granularity == 40
    requires 0 <= count <= 80 && SplitLow(count, 40) <= s0 <= SplitHigh(count, 40)
    modifies enc, enc.buf
    ensures enc.Valid() && enc.misused == old(enc.misused)
    ensures enc.written == old(enc.written) + PairSyms(cc, count, s0)
  {
    var lo := Min(count, granularity);
    var minSplit := Max(0, count - granularity);
    if lo < minSplit || minSplit == lo {
      return;
    }
    var cdf := CdfWindow(cc.SplitCmf(count), minSplit, lo - minSplit + 2);
    PairWindow(cc, count);
    CdfSymValid(cdf, s0 - minSplit);
    enc.EncodeCDF(s0 - minSplit, cdf);
  }

  /** One magnitude symbol, with pos positions left and c pulses to come. */
  method EncodeRun(enc: RangeEncoder, cc: CcTables, pos: int, c: int, m: int)
    requires enc.Valid() && cc.Valid() && 1 <= pos <= 80 && 1 <= c <= 40 && 0 <= m < pos
    modifies enc, enc.buf
    ensures enc.Valid() && enc.misused == old(enc.misused)
    ensures enc.written == old(enc.written) + [CdfSym(RunWindow(cc, pos, c), m)]
  {
    var oct := (pos + 7) / 8;
    var bucket := cc.Runlen(oct);
    var start := bucket.maxSamples - pos;
    var cdf := CdfWindow(bucket.Cmf(c), start, pos + 1);
    assert cdf == RunWindow(cc, pos, c);
    CdfSymValid(cdf, m);
    enc.EncodeCDF(m, cdf);
  }

  lemma RunSymsStep(cc: CcTables, pos: int, c: int, runs: seq<int>, k: nat)
    requires cc.Valid() && 1 <= pos <= 80 && k < |runs| && |runs| - k <= c <= 40 && RunsFit(pos, runs[k..])
    ensures 0 <= runs[k] < pos && RunsFit(pos - runs[k], runs[k + 1..])
    ensures RunSyms(cc, pos, c, runs[k..])
            == [CdfSym(RunWindow(cc, pos, c), runs[k])] + RunSyms(cc, pos - runs[k], c - 1, runs[k + 1..])
  {
    hide CcTables.Valid, RunSyms, RunsFit, RunWindow;
    var left := runs[k..];
    assert left[0] == runs[k] && left[1..] == runs[k + 1..];
    RunSymsHead(cc, pos, c, left);
  }

  lemma RunSymsHead(cc: CcTables, pos: int, c: int, runs: seq<int>)
    requires cc.Valid() && 1 <= pos <= 80 && 0 < |runs| <= c <= 40 && RunsFit(pos, runs)
    ensures 0 <= runs[0] < pos && RunsFit(pos - runs[0], runs[1..])
    ensures RunSyms(cc, pos, c, runs)
            == [CdfSym(RunWindow(cc, pos, c), runs[0])] + RunSyms(cc, pos - runs[0], c - 1, runs[1..])
  {
    hide CcTables.Valid, RunWindow;
  }

  /** The magnitude symbols of one subframe. */
  method EncodeRuns(enc: RangeEncoder, cc: CcTables, cnt: int, runs: seq<int>)
    requires enc.Valid() && cc.Valid() && 0 <= cnt == |runs| <= 40 && RunsFit(80, runs)
    modifies enc, enc.buf
    ensures enc.Valid() && enc.misused == old(enc.misused)
    ensures enc.written == old(enc.written) + RunSyms(cc, 80, cnt, runs)
  {
    hide RangeEncoder.Valid, CcTables.Valid, RunSyms, RunsFit, RunWindow;
    var pos, c, k := 80, cnt, 0;
    ghost var all := enc.written + RunSyms(cc, 80, cnt, runs);
    assert runs[0..] == runs;
    while k < cnt
      invariant 0 <= k <= cnt && c == cnt - k && 1 <= pos <= 80 && RunsFit(pos, runs[k..])
      invariant enc.Valid() && enc.misused == old(enc.misused)
      invariant enc.written + RunSyms(cc, pos, c, runs[k..]) == all
    {
      var m := runs[k];
      RunSymsStep(cc, pos, c, runs, k);
      Associate(enc.written, [CdfSym(RunWindow(cc, pos, c), m)], RunSyms(cc, pos - m, c - 1, runs[k + 1..]));
      EncodeRun(enc, cc, pos, c, m);
      if m > 0 || k == 0 {
        pos := pos - m;
      }
      c := c - 1;
      k := k + 1;
    }
    assert RunSyms(cc, pos, c, runs[k..]) == [];
  }

  /** The magnitude block: subframe after subframe. */
  method EncodeMagnitudes(enc: RangeEncoder, cc: CcTables, pp: PulseParams)
    requires enc.Valid() && cc.Valid() && ValidPulses(pp)
    modifies enc, enc.buf
    ensures enc.Valid() && enc.misused == old(enc.misused)
    ensures enc.written == old(enc.written) + MagSyms(cc, pp.subfr, pp.magRuns)
  {
    hide RangeEncoder.Valid, CcTables.Valid, MagSyms, RunSyms, RunsFit, MagsFit, GatherAll, BatchesFit;
    var magIdx := 0;
    ghost var all := enc.written + MagSyms(cc, pp.subfr, pp.magRuns);
    assert pp.subfr[0..] == pp.subfr && pp.magRuns[0..] == pp.magRuns;
    for subfr := 0 to 4
      invariant 0 <= magIdx <= |pp.magRuns| && MagsFit(pp.subfr[subfr..], pp.magRuns[magIdx..])
      invariant enc.Valid() && enc.misused == old(enc.misused)
      invariant enc.written + MagSyms(cc, pp.subfr[subfr..], pp.magRuns[magIdx..]) == all
    {
      var cnt := pp.subfr[subfr];
      MagSymsStep(cc, pp.subfr, pp.magRuns, subfr, magIdx);
      var runs := pp.magRuns[magIdx..magIdx + cnt];
      Associate(enc.written, RunSyms(cc, 80, cnt, runs),
                MagSyms(cc, pp.subfr[subfr + 1..], pp.magRuns[magIdx + cnt..]));
      EncodeRuns(enc, cc, cnt, runs);
      magIdx := magIdx + cnt;
    }
    assert pp.subfr[4..] == [];
    NoMags(cc, pp.magRuns[magIdx..]);
  }

  lemma NoMags(cc: CcTables, runs: seq<int>)
    requires cc.Valid() && MagsFit([], runs)
    ensures MagSyms(cc, [], runs) == []
  {
  }

  lemma MagSymsStep(cc: CcTables, subfr: seq<int>, runs: seq<int>, i: nat, k: nat)
    requires cc.Valid() && i < |subfr| && k <= |runs| && MagsFit(subfr[i..], runs[k..])
    ensures 0 <= subfr[i] <= 40 && k + subfr[i] <= |runs|
    ensures RunsFit(80, runs[k..k + subfr[i]]) && MagsFit(subfr[i + 1..], runs[k + subfr[i]..])
    ensures MagSyms(cc, subfr[i..], runs[k..])
            == RunSyms(cc, 80, subfr[i], runs[k..k + subfr[i]]) + MagSyms(cc, subfr[i + 1..], runs[k + subfr[i]..])
  {
    var s, r := subfr[i..], runs[k..];
    assert s[0] == subfr[i] && s[1..] == subfr[i + 1..];
    assert r[..s[0]] == runs[k..k + subfr[i]] && r[s[0]..] == runs[k + subfr[i]..];
  }

  lemma RawSymsStep(n: nat, syms: seq<RawSym>, i: nat)
    requires i <= |syms| && BatchesFit(n, syms[i..]) && (n > 0 || i < |syms|)
    ensures n > 0 && i < |syms| && syms[i].nbits == Min(n, 15) && syms[i].sym < Pow2(syms[i].nbits)
    ensures BatchesFit(n - Min(n, 15), syms[i + 1..])
    ensures RawSyms(syms[i..]) == [Sym(syms[i].sym, syms[i].sym + 1, Pow2(syms[i].nbits))] + RawSyms(syms[i + 1..])
  {
    var left := syms[i..];
    assert |left| > 0;
    assert left[0] == syms[i] && left[1..] == syms[i + 1..];
  }

  /** The sign block. */
  method EncodeSigns(enc: RangeEncoder, ghost n: nat, syms: seq<RawSym>)
    requires enc.Valid() && BatchesFit(n, syms)
    modifies enc, enc.buf
    ensures enc.Valid() && enc.misused == old(enc.misused)
    ensures enc.written == old(enc.written) + RawSyms(syms)
  {
    hide RangeEncoder.Valid, BatchesFit, RawSyms, Pow2;
    ghost var all := enc.written + RawSyms(syms);
    ghost var left: nat := n;
    assert syms[0..] == syms;
    for i := 0 to |syms|
      invariant enc.Valid() && enc.misused == old(enc.misused)
      invariant BatchesFit(left, syms[i..])
      invariant enc.written + RawSyms(syms[i..]) == all
    {
      RawSymsStep(left, syms, i);
      Associate(enc.written, [Sym(syms[i].sym, syms[i].sym + 1, Pow2(syms[i].nbits))], RawSyms(syms[i + 1..]));
      enc.EncodeRawSymbol(syms[i].sym, syms[i].nbits);
      left := left - Min(left, 15);
    }
    assert RawSyms(syms[|syms|..]) == [];
  }

  /** The pulse count, coded against the triangular prior. */
  method EncodeCount(enc: RangeEncoder, frameLen4k: nat, total: nat)
    requires enc.Valid() && frameLen4k == 160 && total <= 160
    modifies enc, enc.buf
    ensures enc.Valid() && enc.misused == old(enc.misused)
    ensures enc.written == old(enc.written) + [CountSym(total)]
  {
    hide RangeEncoder.Valid, TriT;
    var ft: int := TriT(frameLen4k);
    TriTExact(frameLen4k);
    if ft == 0 {
      ft := 1;
    }
    var fl := 0;
    if total > 0 {
      fl := TriT(total - 1);
    }
    CountSymValid(total);
    enc.Encode(fl, TriT(total), ft);
  }

  /** The two levels of the split. */
  method EncodeSplits(enc: RangeEncoder, cc: CcTables, subfrLen16: int, total: int, subfr: seq<int>)
    requires enc.Valid() && cc.Valid() && subfrLen16 == 40 && total > 0 && CountsFit(subfr, total)
    modifies enc, enc.buf
    ensures enc.Valid() && enc.misused == old(enc.misused)
    ensures enc.written == old(enc.written) + SplitSyms(cc, total, subfr)
  {
    hide RangeEncoder.Valid, CcTables.Valid, PairSyms, HalvesSyms;
    var finalSum := subfr[0] + subfr[1];
    EncodeHalves(enc, cc, subfrLen16, total, finalSum);
    ghost var w := enc.written;
    if finalSum > 0 {
      EncodeSplit3537(enc, cc, finalSum, subfrLen16, subfr[0]);
    } else {
      NoPair(cc);
    }
    assert enc.written == w + PairSyms(cc, finalSum, subfr[0]);
    ghost var w2 := enc.written;
    if finalSum < total {
      EncodeSplit3537(enc, cc, total - finalSum, subfrLen16, subfr[2]);
    } else {
      NoPair(cc);
    }
    assert enc.written == w2 + PairSyms(cc, total - finalSum, subfr[2]);
  }

  lemma NoPair(cc: CcTables)
    requires cc.Valid()
    ensures PairSyms(cc, 0, 0) == []
  {
  }

  method EncodeHalves(enc: RangeEncoder, cc: CcTables, subfrLen16: int, total: int, finalSum: int)
    requires enc.Valid() && cc.Valid() && subfrLen16 == 40 && 0 < total <= 160
    requires SplitLow(total, 80) <= finalSum <= SplitHigh(total, 80)
    modifies enc, enc.buf
    ensures enc.Valid() && enc.misused == old(enc.misused)
    ensures enc.written == old(enc.written) + HalvesSyms(cc, total, finalSum)
  {
    hide RangeEncoder.Valid;
    var initSum := Max(0, total - subfrLen16 * 2);
    var lo := Max(0, total - 80);
    if initSum < lo {
      return;
    }
    var hiBound := total - lo;
    if initSum < hiBound {
      var cdf := CdfWindow(cc.SplitCmf(total), initSum - lo, hiBound - initSum + 2);
      HalvesWindow(cc, total);
      CdfSymValid(cdf, finalSum - initSum);
      enc.EncodeCDF(finalSum - initSum, cdf);
    }
  }

  /** encodeSmplPulses at config 0; s1 is the stage-1 selector. */
  method EncodeSmplPulses(enc: RangeEncoder, cc: CcTables, s1: int, pp: PulseParams)
    requires enc.Valid() && cc.Valid() && 0 <= s1 <= 1 && ValidPulses(pp)
    modifies enc, enc.buf
    ensures enc.Valid() && enc.misused == old(enc.misused)
    ensures enc.written == old(enc.written) + PulseSyms(cc, pp)
  {
    hide RangeEncoder.Valid, CcTables.Valid, SplitSyms, MagSyms, RawSyms, GatherAll, MagsFit, BatchesFit, CountSym;
    var frameLen4k := PulseCountByte(1 + s1) * 320 / 320;
    var subfrLen16 := frameLen4k / 4;
    EncodeCount(enc, frameLen4k, pp.total);
    if pp.total == 0 {
      NoPulses(cc, pp);
      return;
    }
    EncodeSplits(enc, cc, subfrLen16, pp.total, pp.subfr);
    EncodeMagnitudes(enc, cc, pp);
    EncodeSigns(enc, |GatherAll(pp.subfr, pp.magRuns, 0).pos|, pp.signSyms);
  }

  /** A block without pulses is its count alone. */
  lemma NoPulses(cc: CcTables, pp: PulseParams)
    requires cc.Valid() && ValidPulses(pp) && pp.total == 0
    ensures PulseSyms(cc, pp) == [CountSym(0)]
  {
    EmptyCounts(cc, pp.subfr, pp.magRuns);
  }

  lemma {:induction false} EmptyCounts(cc: CcTables, subfr: seq<int>, runs: seq<int>)
    requires cc.Valid() && MagsFit(subfr, runs) && forall i :: 0 <= i < |subfr| ==> subfr[i] == 0
    ensures MagSyms(cc, subfr, runs) == [] && GatherAll(subfr, runs, 0).pos == []
    decreases |subfr|
  {
    if |subfr| > 0 {
      EmptyCounts(cc, subfr[1..], runs[subfr[0]..]);
      GatherRebase(subfr[1..], runs[subfr[0]..], 80);
    }
  }
}
