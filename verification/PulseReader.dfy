/**
 * The excitation block decoder of src/voip/media/mlow/pulse.go, config 0.  Every method takes, as
 * ghost arguments, symbols that may have been sent and what follows them: if the input holds
 * those, the result is what was sent and the input goes on to hold the rest.  On any other input
 * the result is still a well-formed block.
 */
module PulseReader {
  import opened Bytes
  import opened Intervals
  import opened RangeEncoding
  import opened RangeDecoding
  import opened CodecTables
  import opened PulseSpec
  import opened PulseVectors
  import opened PulseSymbols
  import opened PulseCoder

  /** The count whose share of the triangular prior the next frequency falls into. */
  method DecodeCount(dec: RangeDecoder, frameLen4k: nat, ghost sent: int, ghost rest: seq<Sym>) returns (total: nat)
    requires dec.Valid() && frameLen4k == 160
    modifies dec
    ensures dec.Valid() && total <= 160 && dec.err == old(dec.err)
    ensures 0 <= sent <= 160 && old(dec.Holds([CountSym(sent)] + rest)) ==> total == sent && dec.Holds(rest)
  {
    hide TriT, Quantise, Step, Code;
    var ft: int := TriT(frameLen4k);
    TriTExact(frameLen4k);
    if ft == 0 {
      ft := 1;
    }
    WideEnough(dec.rng, ft);
    var val := dec.Decode(ft);
    if 0 <= sent <= 160 && dec.Holds([CountSym(sent)] + rest) {
      HoldsHead(dec.Here(), CountSym(sent), rest, dec.buf);
    }
    var limit := frameLen4k + 1;
    var prevCum, k := 0, 0;
    while k != limit
      invariant 0 <= k <= 160 && prevCum == (if k > 0 then TriT(k - 1) else 0) && prevCum <= val
      decreases limit - k
    {
      var cum := TriT(k);
      if prevCum <= val && val < cum {
        break;
      }
      prevCum := cum;
      k := k + 1;
    }
    CountSymValid(k);
    if 0 <= sent <= 160 && dec.Holds([CountSym(sent)] + rest) {
      SameCount(k, sent, val);
    }
    dec.Update(prevCum, TriT(k), ft);
    total := k;
  }

  /** The shares of two different counts do not meet. */
  lemma SameCount(a: nat, b: nat, val: int)
    requires a <= 160 && b <= 160
    requires CountSym(a).fl <= val < CountSym(a).fh && CountSym(b).fl <= val < CountSym(b).fh
    ensures a == b
  {
    if a < b - 1 {
      TriTIncreasing(a, b - 1);
    } else if b < a - 1 {
      TriTIncreasing(b, a - 1);
    }
  }

  lemma PairSymsShape(cc: CcTables, n: int, s0: int)
    requires cc.Valid() && 0 <= n <= 80
    ensures SplitLow(n, 40) <= s0 <= SplitHigh(n, 40) ==>
              var low, high := SplitLow(n, 40), SplitHigh(n, 40);
              PairSyms(cc, n, s0)
              == if low == high then [] else [CdfSym(CdfWindow(cc.SplitCmf(n), low, high - low + 2), s0 - low)]
  {
  }

  /** smplSplit3537: the first subframe's share of count pulses. */
  method DecodeSplit3537(dec: RangeDecoder, cc: CcTables, count: int, granularity: int,
                         ghost sent: int, ghost rest: seq<Sym>) returns (s0: int)
    requires dec.Valid() && cc.Valid() && granularity == 40 && 0 <= count <= 80
    modifies dec
    ensures dec.Valid() && dec.err == old(dec.err)
    ensures SplitLow(count, 40) <= s0 <= SplitHigh(count, 40)
    ensures SplitLow(count, 40) <= sent <= SplitHigh(count, 40) && old(dec.Holds(PairSyms(cc, count, sent) + rest))
            ==> s0 == sent && dec.Holds(rest)
  {
    hide RangeDecoder.Valid, RangeDecoder.Holds, CcTables.Valid, CdfWindow, CcTables.SplitCmf, ValidCdf, PairSyms;
    var lo := Min(count, granularity);
    var minSplit := Max(0, count - granularity);
    if lo < minSplit {
      return -1;
    }
    PairSymsShape(cc, count, sent);
    if minSplit == lo {
      assert [] + rest == rest;
      return minSplit;
    }
    var cdf := CdfWindow(cc.SplitCmf(count), minSplit, lo - minSplit + 2);
    PairWindow(cc, count);
    var k := dec.DecodeCDF(cdf, sent - minSplit, rest);
    s0 := k + minSplit;
  }

  /** The first half's share of total pulses. */
  method DecodeHalves(dec: RangeDecoder, cc: CcTables, subfrLen16: int, total: int,
                      ghost sent: int, ghost rest: seq<Sym>) returns (sum: int)
    requires dec.Valid() && cc.Valid() && subfrLen16 == 40 && 0 < total <= 160
    modifies dec
    ensures dec.Valid() && dec.err == old(dec.err)
    ensures SplitLow(total, 80) <= sum <= SplitHigh(total, 80)
    ensures SplitLow(total, 80) <= sent <= SplitHigh(total, 80) && old(dec.Holds(HalvesSyms(cc, total, sent) + rest))
            ==> sum == sent && dec.Holds(rest)
  {
    hide RangeDecoder.Valid, RangeDecoder.Holds;
    sum := Max(0, total - subfrLen16 * 2);
    var lo := Max(0, total - 80);
    var hiBound := total - lo;
    if sum < hiBound {
      var cdf := CdfWindow(cc.SplitCmf(total), sum - lo, hiBound - sum + 2);
      HalvesWindow(cc, total);
      var k := dec.DecodeCDF(cdf, sent - sum, rest);
      sum := sum + k;
    } else {
      assert [] + rest == rest;
    }
  }

  /** The two levels of the split: four counts that add up to total. */
  method DecodeSplits(dec: RangeDecoder, cc: CcTables, subfrLen16: int, total: int,
                      ghost sent: seq<int>, ghost rest: seq<Sym>) returns (split: seq<int>)
    requires dec.Valid() && cc.Valid() && subfrLen16 == 40 && 0 < total <= 160
    modifies dec
    ensures dec.Valid() && dec.err == old(dec.err)
    ensures CountsFit(split, total)
    ensures CountsFit(sent, total) && old(dec.Holds(SplitSyms(cc, total, sent) + rest))
            ==> split == sent && dec.Holds(rest)
  {
    hide RangeDecoder.Valid, RangeDecoder.Holds, CcTables.Valid, PairSyms, HalvesSyms;
    ghost var ok := CountsFit(sent, total) && dec.Holds(SplitSyms(cc, total, sent) + rest);
    ghost var sum' := if ok then sent[0] + sent[1] else 0;
    ghost var after2 := if ok then PairSyms(cc, total - sum', sent[2]) + rest else [];
    ghost var after1 := if ok then PairSyms(cc, sum', sent[0]) + after2 else [];
    if ok {
      AssociateFour(HalvesSyms(cc, total, sum'), PairSyms(cc, sum', sent[0]), PairSyms(cc, total - sum', sent[2]),
                    rest);
    }
    var sum := DecodeHalves(dec, cc, subfrLen16, total, sum', after1);
    var s0 := 0;
    if sum > 0 {
      s0 := DecodeSplit3537(dec, cc, sum, subfrLen16, if ok then sent[0] else 0, after2);
    } else if ok {
      NoPair(cc);
      assert [] + after2 == after2;
    }
    var s2 := 0;
    if sum < total {
      s2 := DecodeSplit3537(dec, cc, total - sum, subfrLen16, if ok then sent[2] else 0, rest);
    } else if ok {
      NoPair(cc);
      assert [] + rest == rest;
    }
    split := [s0, sum - s0, s2, total - sum - s2];
    if split[0] == -1 || split[2] == -1 {
      split := [0, 0, 0, 0];
    }
    assert ok ==> split[0] == sent[0] && split[1] == sent[1] && split[2] == sent[2] && split[3] == sent[3];
  }

  /** The run lengths of one subframe, gathered behind the pulses found so far. */
  method DecodeRuns(dec: RangeDecoder, cc: CcTables, basePos: int, cnt: int, posBefore: seq<int>, magBefore: seq<int>,
                    ghost sent: seq<int>, ghost rest: seq<Sym>)
    returns (runs: seq<int>, posList: seq<int>, magList: seq<int>)
    requires dec.Valid() && cc.Valid() && 0 <= cnt <= 40 && |posBefore| == |magBefore|
    modifies dec
    ensures dec.Valid() && dec.err == old(dec.err)
    ensures |runs| == cnt && RunsFit(80, runs)
    ensures posList == posBefore + Shift(Gather(runs), basePos).pos
    ensures magList == magBefore + Gather(runs).mag
    ensures |sent| == cnt && RunsFit(80, sent) && old(dec.Holds(RunSyms(cc, 80, cnt, sent) + rest))
            ==> runs == sent && dec.Holds(rest)
  {
    hide RangeDecoder.Valid, RangeDecoder.Holds, CcTables.Valid, RunSyms, RunsFit, RunWindow, Gather, Sum, Shift;
    runs, posList, magList := [], posBefore, magBefore;
    var runPos, pos, c, k := basePos, 80, cnt, 0;
    ghost var ok := |sent| == cnt && RunsFit(80, sent) && dec.Holds(RunSyms(cc, 80, cnt, sent) + rest);
    assert sent[0..] == sent;
    NothingGathered(basePos);
    while k < cnt
      invariant 0 <= k <= cnt && c == cnt - k && |runs| == k && 1 <= pos <= 80
      invariant RunsFit(80, runs) && pos == 80 - Sum(runs)
      invariant runPos == basePos + Tip(Gather(runs)) && Tip(Gather(runs)) == Sum(runs)
      invariant posList == posBefore + Shift(Gather(runs), basePos).pos
      invariant magList == magBefore + Gather(runs).mag
      invariant dec.Valid() && dec.err == old(dec.err)
      invariant ok ==> RunsFit(pos, sent[k..]) && runs == sent[..k]
                       && dec.Holds(RunSyms(cc, pos, c, sent[k..]) + rest)
    {
      ghost var m', after := 0, [];
      if ok {
        RunSymsStep(cc, pos, c, sent, k);
        m', after := sent[k], RunSyms(cc, pos - sent[k], c - 1, sent[k + 1..]) + rest;
        Associate([CdfSym(RunWindow(cc, pos, c), m')], RunSyms(cc, pos - m', c - 1, sent[k + 1..]), rest);
      }
      var m := DecodeRun(dec, cc, pos, c, m', after);
      GatherNext(runs, m, basePos);
      if m > 0 || k == 0 {
        runPos := runPos + m;
        posList := posList + [runPos];
        magList := magList + [1];
        pos := pos - m;
      } else {
        magList := magList[|magList| - 1 := magList[|magList| - 1] + 1];
      }
      runs := runs + [m];
      c := c - 1;
      k := k + 1;
    }
    if ok {
      assert sent[cnt..] == [] && sent[..cnt] == sent;
      NoRunSyms(cc, pos, c);
      assert [] + rest == rest;
    }
  }

  lemma NoRunSyms(cc: CcTables, pos: int, c: int)
    requires cc.Valid() && 1 <= pos <= 80 && 0 <= c <= 40
    ensures RunsFit(pos, []) && RunSyms(cc, pos, c, []) == []
  {
  }

  /** One magnitude symbol, with pos positions left and c pulses to come. */
  method DecodeRun(dec: RangeDecoder, cc: CcTables, pos: int, c: int, ghost sent: int, ghost rest: seq<Sym>)
    returns (m: int)
    requires dec.Valid() && cc.Valid() && 1 <= pos <= 80 && 1 <= c <= 40
    modifies dec
    ensures dec.Valid() && dec.err == old(dec.err) && 0 <= m < pos
    ensures 0 <= sent < pos && old(dec.Holds([CdfSym(RunWindow(cc, pos, c), sent)] + rest))
            ==> m == sent && dec.Holds(rest)
  {
    hide RangeDecoder.Valid, RangeDecoder.Holds;
    var oct := (pos + 7) / 8;
    var bucket := cc.Runlen(oct);
    var start := bucket.maxSamples - pos;
    var cdf := CdfWindow(bucket.Cmf(c), start, pos + 1);
    assert cdf == RunWindow(cc, pos, c);
    m := dec.DecodeCDF(cdf, sent, rest);
  }

  lemma NothingGathered(basePos: int)
    ensures Gather([]) == Spikes([], []) && Shift(Gather([]), basePos) == Spikes([], [])
    ensures RunsFit(80, []) && Sum([]) == 0
  {
  }

  /** One more run length, as the position and magnitude lists see it. */
  lemma GatherNext(runs: seq<int>, m: int, basePos: int)
    requires RunsFit(80, runs) && 0 <= m < 80 - Sum(runs)
    ensures RunsFit(80, runs + [m]) && Sum(runs + [m]) == Sum(runs) + m
    ensures Tip(Gather(runs + [m])) == Tip(Gather(runs)) + m
    ensures m > 0 || |runs| == 0 ==>
              && Shift(Gather(runs + [m]), basePos).pos
                 == Shift(Gather(runs), basePos).pos + [basePos + Tip(Gather(runs)) + m]
              && Gather(runs + [m]).mag == Gather(runs).mag + [1]
    ensures m == 0 && |runs| > 0 ==>
              && Shift(Gather(runs + [m]), basePos).pos == Shift(Gather(runs), basePos).pos
              && |Gather(runs).mag| > 0
              && Gather(runs + [m]).mag
                 == Gather(runs).mag[|Gather(runs).mag| - 1 := Gather(runs).mag[|Gather(runs).mag| - 1] + 1]
  {
    hide Gather, RunsFit, Sum;
    RunsFitPush(80, runs, m);
    SumPush(runs, m);
    GatherPush(runs, m);
  }

  /** The magnitude block: the run lengths of the four subframes and the pulses they place. */
  method DecodeMagnitudes(dec: RangeDecoder, cc: CcTables, split: seq<int>, total: int,
                          ghost sent: seq<int>, ghost rest: seq<Sym>)
    returns (magRuns: seq<int>, posList: seq<int>, magList: seq<int>)
    requires dec.Valid() && cc.Valid() && CountsFit(split, total)
    modifies dec
    ensures dec.Valid() && dec.err == old(dec.err)
    ensures MagsFit(split, magRuns)
    ensures posList == GatherAll(split, magRuns, 0).pos && magList == GatherAll(split, magRuns, 0).mag
    ensures MagsFit(split, sent) && old(dec.Holds(MagSyms(cc, split, sent) + rest))
            ==> magRuns == sent && dec.Holds(rest)
  {
    hide RangeDecoder.Valid, RangeDecoder.Holds, CcTables.Valid, RunSyms, MagSyms, MagsFit, RunsFit, GatherAll,
      Gather, Shift;
    magRuns, posList, magList := [], [], [];
    ghost var sentAt := 0;
    ghost var ok := MagsFit(split, sent) && dec.Holds(MagSyms(cc, split, sent) + rest);
    assert split[0..] == split && sent[0..] == sent && split[..0] == [];
    NoGatherAll();
    for subfr := 0 to 4
      invariant dec.Valid() && dec.err == old(dec.err)
      invariant MagsFit(split[..subfr], magRuns)
      invariant posList == GatherAll(split[..subfr], magRuns, 0).pos
      invariant magList == GatherAll(split[..subfr], magRuns, 0).mag
      invariant ok ==> 0 <= sentAt <= |sent| && MagsFit(split[subfr..], sent[sentAt..])
                       && magRuns == sent[..sentAt]
                       && dec.Holds(MagSyms(cc, split[subfr..], sent[sentAt..]) + rest)
    {
      var cnt := split[subfr];
      ghost var sent', after := [], [];
      if ok {
        MagSymsStep(cc, split, sent, subfr, sentAt);
        sent' := sent[sentAt..sentAt + cnt];
        after := MagSyms(cc, split[subfr + 1..], sent[sentAt + cnt..]) + rest;
        Associate(RunSyms(cc, 80, cnt, sent'), MagSyms(cc, split[subfr + 1..], sent[sentAt + cnt..]), rest);
      }
      var runs;
      ghost var before := Spikes(posList, magList);
      runs, posList, magList := DecodeRuns(dec, cc, 80 * subfr, cnt, posList, magList, sent', after);
      GatherAllPush(split[..subfr], magRuns, cnt, runs);
      assert split[..subfr] + [cnt] == split[..subfr + 1];
      magRuns := magRuns + runs;
      if ok {
        assert sent[..sentAt] + sent' == sent[..sentAt + cnt];
        sentAt := sentAt + cnt;
      }
    }
    assert split[..4] == split;
    if ok {
      assert split[4..] == [];
      NoMagSyms(cc, sent[sentAt..]);
      assert [] + rest == rest && sent[..sentAt] + sent[sentAt..] == sent;
    }
  }

  lemma NoGatherAll()
    ensures MagsFit([], []) && GatherAll([], [], 0) == Spikes([], [])
  {
  }

  lemma NoMagSyms(cc: CcTables, runs: seq<int>)
    requires cc.Valid() && MagsFit([], runs)
    ensures runs == [] && MagSyms(cc, [], runs) == []
  {
  }

  /** One more subframe at the end. */
  lemma {:induction false} GatherAllPushAt(subfr: seq<int>, runs: seq<int>, c: int, more: seq<int>, base: int)
    requires MagsFit(subfr, runs) && 0 <= c <= 40 && |more| == c && RunsFit(80, more)
    ensures MagsFit(subfr + [c], runs + more)
    ensures GatherAll(subfr + [c], runs + more, base)
            == Join(GatherAll(subfr, runs, base), Shift(Gather(more), base + 80 * |subfr|))
    decreases |subfr|
  {
    hide Gather, Shift, RunsFit, Join;
    if |subfr| == 0 {
      GatherAllOne(c, more, base);
      assert subfr + [c] == [c] && runs + more == more;
    } else {
      var head, tail := runs[..subfr[0]], runs[subfr[0]..];
      GatherAllPushAt(subfr[1..], tail, c, more, base + 80);
      var s, r := subfr + [c], runs + more;
      assert s[0] == subfr[0] && s[1..] == subfr[1..] + [c];
      assert r[..subfr[0]] == head && r[subfr[0]..] == tail + more;
      JoinAssociates(Shift(Gather(head), base), GatherAll(subfr[1..], tail, base + 80),
                     Shift(Gather(more), base + 80 * |subfr|));
    }
  }

  lemma JoinAssociates(a: Spikes, b: Spikes, c: Spikes)
    ensures Join(a, Join(b, c)) == Join(Join(a, b), c)
  {
    Associate(a.pos, b.pos, c.pos);
    Associate(a.mag, b.mag, c.mag);
  }

  lemma GatherAllOne(c: int, more: seq<int>, base: int)
    requires 0 <= c <= 40 && |more| == c && RunsFit(80, more)
    ensures MagsFit([c], more)
    ensures GatherAll([c], more, base) == Join(GatherAll([], [], base), Shift(Gather(more), base))
  {
    assert more[..c] == more && more[c..] == [] && [c][1..] == [];
    assert MagsFit([], []) && GatherAll([], [], base + 80) == Spikes([], []);
    assert GatherAll([c], more, base) == Join(Shift(Gather(more), base), Spikes([], []));
  }

  lemma GatherAllPush(subfr: seq<int>, runs: seq<int>, c: int, more: seq<int>)
    requires MagsFit(subfr, runs) && 0 <= c <= 40 && |more| == c && RunsFit(80, more)
    ensures MagsFit(subfr + [c], runs + more)
    ensures GatherAll(subfr + [c], runs + more, 0).pos
            == GatherAll(subfr, runs, 0).pos + Shift(Gather(more), 80 * |subfr|).pos
    ensures GatherAll(subfr + [c], runs + more, 0).mag == GatherAll(subfr, runs, 0).mag + Gather(more).mag
  {
    hide MagsFit, GatherAll, Gather, RunsFit;
    GatherAllPushAt(subfr, runs, c, more, 0);
  }

  /** One more batch behind full ones. */
  lemma {:induction false} BatchesPush(n: nat, syms: seq<RawSym>, rs: RawSym)
    requires BatchesFit(n, syms) && n % 15 == 0 && 1 <= rs.nbits <= 15 && rs.sym < Pow2(rs.nbits)
    ensures BatchesFit(n + rs.nbits, syms + [rs])
    ensures AllSigns(n + rs.nbits, syms + [rs]) == AllSigns(n, syms) + BatchSigns(rs)
    decreases n
  {
    hide Pow2, BatchSigns;
    if n == 0 {
      assert syms + [rs] == [rs] && [rs][1..] == [];
      assert BatchSigns(rs) + [] == BatchSigns(rs) && [] + BatchSigns(rs) == BatchSigns(rs);
    } else {
      BatchesPush(n - 15, syms[1..], rs);
      var s := syms + [rs];
      assert s[0] == syms[0] && s[1..] == syms[1..] + [rs];
      Associate(BatchSigns(syms[0]), AllSigns(n - 15, syms[1..]), BatchSigns(rs));
    }
  }

  /** Bit 15 of the shifted bit field is the batch's bit of weight 2^f. */
  lemma FieldBit(sym: nat, e: nat, f: nat)
    requires e + f == 15 && sym * Pow2(e) < 0x1_0000_0000
    ensures U32(sym * Pow2(e)) / 16384 % 4 / 2 == sym / Pow2(f) % 2
  {
    hide Pow2;
    Pow2Add(f, e);
    Pow2Values();
    NoWrap(sym * Pow2(e));
    FieldArith(sym, Pow2(e), Pow2(f));
  }

  lemma FieldArith(sym: nat, p: nat, q: nat)
    requires p >= 1 && q >= 1 && q * p == 0x8000
    ensures sym * p / 16384 % 4 / 2 == sym / q % 2
  {
    var d, r := sym / q, sym % q;
    DivBounds(sym, q);
    DivMod(sym, q);
    assert sym * p == d * 0x8000 + r * p by {
      assert sym == d * q + r;
      assert (d * q + r) * p == d * (q * p) + r * p;
    }
    assert r * p <= 0x8000 - p by {
      MulLe(r, q - 1, p);
      assert (q - 1) * p == q * p - p;
    }
    assert 0 <= r * p;
    BitFifteen(d, r * p);
  }

  lemma BitFifteen(d: nat, low: nat)
    requires low < 0x8000
    ensures (d * 0x8000 + low) / 16384 % 4 / 2 == d % 2
  {
  }

  /** One batch of sign bits, applied to the magnitudes from place p on. */
  method ApplyBatch(mags: seq<int>, p: nat, rs: RawSym) returns (magList: seq<int>)
    requires 1 <= rs.nbits <= 15 && rs.sym < Pow2(rs.nbits) && p + rs.nbits <= |mags|
    ensures |magList| == |mags|
    ensures forall q :: 0 <= q < rs.nbits ==> magList[p + q] == mags[p + q] * BatchSigns(rs)[q]
    ensures forall i :: 0 <= i < |mags| && !(p <= i < p + rs.nbits) ==> magList[i] == mags[i]
  {
    hide Pow2, U32, BatchSigns;
    magList := mags;
    var bitfield: int := U32(rs.sym * Pow2(16 - rs.nbits));
    FieldStart(rs);
    var q := 0;
    while q < rs.nbits
      invariant 0 <= q <= rs.nbits && |magList| == |mags|
      invariant q < rs.nbits ==> bitfield == Field(rs, q)
      invariant forall j :: 0 <= j < q ==> magList[p + j] == mags[p + j] * BatchSigns(rs)[j]
      invariant forall i :: 0 <= i < |mags| && !(p <= i < p + q) ==> magList[i] == mags[i]
    {
      FieldStep(rs, q);
      var sign: int := bitfield / 16384 % 4 / 2 * 2 - 1;
      magList := magList[p + q := magList[p + q] * sign];
      bitfield := U32(bitfield * 2);
      q := q + 1;
    }
  }

  /** The bit field after q shifts. */
  function Field(rs: RawSym, q: nat): nat
    requires q < rs.nbits <= 15
  {
    rs.sym * Pow2(16 - rs.nbits + q)
  }

  lemma FieldStart(rs: RawSym)
    requires 1 <= rs.nbits <= 15 && rs.sym < Pow2(rs.nbits)
    ensures U32(rs.sym * Pow2(16 - rs.nbits)) == Field(rs, 0)
  {
    FieldBound(rs, 0);
  }

  /** Each round reads the next sign and shifts without losing a bit that is still to be read. */
  lemma FieldStep(rs: RawSym, q: nat)
    requires 1 <= rs.nbits <= 15 && rs.sym < Pow2(rs.nbits) && q < rs.nbits
    ensures Field(rs, q) / 16384 % 4 / 2 * 2 - 1 == BatchSigns(rs)[q]
    ensures q + 1 < rs.nbits ==> U32(Field(rs, q) * 2) == Field(rs, q + 1)
  {
    hide Pow2, U32;
    FieldBound(rs, q);
    NoWrap(Field(rs, q));
    FieldBit(rs.sym, 16 - rs.nbits + q, rs.nbits - 1 - q);
    if q + 1 < rs.nbits {
      FieldBound(rs, q + 1);
      FieldDouble(rs.sym, 16 - rs.nbits + q);
      NoWrap(Field(rs, q + 1));
    }
  }

  lemma FieldDouble(sym: nat, e: nat)
    ensures sym * Pow2(e + 1) == sym * Pow2(e) * 2
  {
  }

  lemma FieldBound(rs: RawSym, q: nat)
    requires 1 <= rs.nbits <= 15 && rs.sym < Pow2(rs.nbits) && q < rs.nbits
    ensures 0 <= rs.sym * Pow2(16 - rs.nbits + q) < 0x1_0000_0000
  {
    hide Pow2;
    Pow2Add(rs.nbits, 16 - rs.nbits + q);
    MulLe(rs.sym, Pow2(rs.nbits), Pow2(16 - rs.nbits + q));
    Pow2Bound(16 + q);
  }

  lemma Pow2Bound(k: nat)
    requires k <= 31
    ensures Pow2(k) <= 0x8000_0000
  {
    Pow2Values();
    Pow2Monotone(k, 31);
  }

  /** The sign block: batches of up to fifteen bits, one bit for each pulse position. */
  method DecodeSigns(dec: RangeDecoder, mags: seq<int>, ghost sent: seq<RawSym>, ghost rest: seq<Sym>)
    returns (signSyms: seq<RawSym>, magList: seq<int>)
    requires dec.Valid()
    modifies dec
    ensures dec.Valid() && dec.err == old(dec.err)
    ensures BatchesFit(|mags|, signSyms) && magList == Signed(mags, AllSigns(|mags|, signSyms))
    ensures BatchesFit(|mags|, sent) && old(dec.Holds(RawSyms(sent) + rest)) ==> signSyms == sent && dec.Holds(rest)
  {
    hide RangeDecoder.Valid, RangeDecoder.Holds, Pow2, BatchesFit, BatchSigns, AllSigns, RawSyms;
    signSyms, magList := [], mags;
    var numPos := |mags|;
    ghost var ok := BatchesFit(numPos, sent) && dec.Holds(RawSyms(sent) + rest);
    ghost var k := 0;
    assert sent[0..] == sent;
    NoBatches();
    var p := 0;
    while p < numPos
      invariant 0 <= p <= numPos && (p < numPos ==> p % 15 == 0) && |magList| == numPos
      invariant dec.Valid() && dec.err == old(dec.err)
      invariant BatchesFit(p, signSyms)
      invariant forall i :: 0 <= i < p ==> magList[i] == mags[i] * AllSigns(p, signSyms)[i]
      invariant forall i :: p <= i < numPos ==> magList[i] == mags[i]
      invariant ok ==> 0 <= k <= |sent| && BatchesFit(numPos - p, sent[k..])
                       && signSyms == sent[..k] && dec.Holds(RawSyms(sent[k..]) + rest)
    {
      var nbits := numPos - p;
      if nbits >= 15 {
        nbits := 15;
      }
      ghost var sent', after := 0, [];
      if ok {
        RawSymsStep(numPos - p, sent, k);
        sent', after := sent[k].sym, RawSyms(sent[k + 1..]) + rest;
        Associate([Sym(sent', sent' + 1, Pow2(nbits))], RawSyms(sent[k + 1..]), rest);
      }
      var sym := dec.DecodeRawSymbol(nbits, sent', after);
      var rs := RawSym(sym, nbits);
      BatchesPush(p, signSyms, rs);
      signSyms := signSyms + [rs];
      magList := ApplyBatch(magList, p, rs);
      p := p + nbits;
      if ok {
        assert sent[..k] + [rs] == sent[..k + 1];
        k := k + 1;
      }
    }
    if ok {
      NoBatchLeft(sent[k..]);
      assert [] + rest == rest && sent[..k] + sent[k..] == sent;
    }
  }

  lemma NoBatches()
    ensures BatchesFit(0, []) && AllSigns(0, []) == []
  {
  }

  lemma NoBatchLeft(syms: seq<RawSym>)
    requires BatchesFit(0, syms)
    ensures syms == [] && RawSyms(syms) == []
  {
  }

  /** The decoded block. */
  datatype PulseResult = PulseResult(pulses: seq<int>, subfr: seq<int>, magRuns: seq<int>, signSyms: seq<RawSym>)

  /** The scatter at the end of DecodeSmplPulses. */
  method ScatterPulses(posList: seq<int>, magList: seq<int>, n: nat) returns (pulses: seq<int>)
    requires |posList| == |magList|
    ensures pulses == Scatter(posList, magList, n)
  {
    pulses := Zeros(n);
    var numPos := |posList|;
    for i := 0 to numPos
      invariant pulses == Scatter(posList[..i], magList[..i], n)
    {
      ScatterOne(posList[..i + 1], magList[..i + 1], n);
      assert posList[..i + 1][..i] == posList[..i] && magList[..i + 1][..i] == magList[..i];
      var pp := posList[i];
      if 0 <= pp < |pulses| {
        pulses := pulses[pp := magList[i]];
      }
    }
    assert posList[..numPos] == posList && magList[..numPos] == magList;
  }

  lemma ScatterOne(pos: seq<int>, vals: seq<int>, n: nat)
    requires |pos| == |vals| > 0
    ensures var v := Scatter(pos[..|pos| - 1], vals[..|pos| - 1], n);
            Scatter(pos, vals, n)
            == if 0 <= pos[|pos| - 1] < n then v[pos[|pos| - 1] := vals[|pos| - 1]] else v
  {
  }

  /**
   * DecodeSmplPulses at config 0.  On every input the result is a valid block and its pulses are
   * the excitation that block describes; on an input that holds a sent block, it is that block.
   */
  method DecodeSmplPulses(dec: RangeDecoder, cc: CcTables, s1: int, ghost sent: PulseParams, ghost rest: seq<Sym>)
    returns (res: PulseResult, total: nat)
    requires dec.Valid() && cc.Valid() && 0 <= s1 <= 1
    modifies dec
    ensures dec.Valid() && dec.err == old(dec.err)
    ensures ValidPulses(PulseParams(total, res.subfr, res.magRuns, res.signSyms))
    ensures res.pulses == Excitation(PulseParams(total, res.subfr, res.magRuns, res.signSyms))
    ensures ValidPulses(sent) && old(dec.Holds(PulseSyms(cc, sent) + rest))
            ==> PulseParams(total, res.subfr, res.magRuns, res.signSyms) == sent && dec.Holds(rest)
  {
    hide RangeDecoder.Valid, RangeDecoder.Holds, CcTables.Valid, SplitSyms, MagSyms, RawSyms, MagsFit,
      GatherAll, BatchesFit, AllSigns, CountSym, Scatter, Signed;
    var frameLen4k := PulseCountByte(1 + s1) * 320 / 320;
    var subfrLen16 := frameLen4k / 4;
    ghost var ok := ValidPulses(sent) && dec.Holds(PulseSyms(cc, sent) + rest);
    ghost var after3 := if ok then RawSyms(sent.signSyms) + rest else [];
    ghost var after2 := if ok then MagSyms(cc, sent.subfr, sent.magRuns) + after3 else [];
    ghost var after1 := if ok then SplitSyms(cc, sent.total, sent.subfr) + after2 else [];
    if ok {
      AssociateFive([CountSym(sent.total)], SplitSyms(cc, sent.total, sent.subfr),
                 MagSyms(cc, sent.subfr, sent.magRuns), RawSyms(sent.signSyms), rest);
    }
    total := DecodeCount(dec, frameLen4k, if ok then sent.total else -1, after1);
    var split := [0, 0, 0, 0];
    if total != 0 {
      split := DecodeSplits(dec, cc, subfrLen16, total, sent.subfr, after2);
    } else if ok {
      NoSplit(cc, sent.subfr);
      assert [] + after2 == after2;
    }
    var magRuns, posList, mags := DecodeMagnitudes(dec, cc, split, total, sent.magRuns, after3);
    var signSyms, magList := DecodeSigns(dec, mags, sent.signSyms, rest);
    var pulses := ScatterPulses(posList, magList, 320);
    res := PulseResult(pulses, split, magRuns, signSyms);
  }

  lemma NoSplit(cc: CcTables, subfr: seq<int>)
    requires cc.Valid() && CountsFit(subfr, 0)
    ensures subfr == [0, 0, 0, 0] && SplitSyms(cc, 0, subfr) == []
  {
  }
}
