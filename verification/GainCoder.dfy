/**
 * The gain block of an unvoiced internal frame: encodeSmplGains (encoder.go) and DecodeSmplGains
 * (gains.go), each of which works out on its own which table codes a subframe's residual energy.
 */
module GainCoder {
  import opened Bytes
  import opened Intervals
  import opened RangeEncoding
  import opened RangeDecoding
  import opened CodecTables
  import opened LsfCoder

  datatype GainParams = GainParams(gainMain: int, gainDelta: int, nrgRes: seq<int>)

  /** The log gain of a subframe. */
  function GainQ(cc: CcTables, gainMain: int, gainDelta: int, sf: nat): int
    requires 0 <= gainDelta
  {
    gainMain * cc.NrgStep(2) - 0x154000 + cc.GainRecon(true, sf + 4 * gainDelta) * 16
  }

  /** The gain never leaves 32 bits. */
  lemma GainQFits(cc: CcTables, gainMain: int, gainDelta: int, sf: nat)
    requires cc.Valid() && 0 <= gainMain < 84 && 0 <= gainDelta
    ensures -0x8000_0000 <= GainQ(cc, gainMain, gainDelta, sf) < 0x8000_0000
    ensures -0x8000_0000 <= gainMain * cc.NrgStep(2) - 0x154000 < 0x8000_0000
  {
    hide CcTables.NrgStep, CcTables.GainRecon, ValidCdf;
    StepBounds(cc, sf + 4 * gainDelta);
    var step: int := cc.NrgStep(2);
    ProductFits(gainMain, step);
  }

  lemma StepBounds(cc: CcTables, idx: nat)
    requires cc.Valid()
    ensures -0x8000 <= cc.NrgStep(2) < 0x8000 && -0x8000 <= cc.GainRecon(true, idx) < 0x8000
  {
    hide ValidCdf, CcTables.GainReconAt, CcTables.AcbgainRow;
  }

  lemma ProductFits(m: nat, step: int)
    requires m < 84 && -0x8000 <= step < 0x8000
    ensures -84 * 0x8000 <= m * step <= 84 * 0x8000
  {
    if step >= 0 {
      MulLe(m, 84, step);
    } else {
      MulLe(m, 84, -step);
      assert m * step == -(m * -step);
    }
  }

  function Bucket(cnt: int): (b: nat)
    requires 0 < cnt
    ensures b < 4
  {
    if cnt >= 30 then 3 else cnt % 0x1_0000 / 10
  }

  /** How far the residual table is shifted for a gain. */
  function MinOffset(gainQ: int): (off: nat)
    ensures off <= 85
  {
    var g := Max((gainQ + 8192) / 16384, -85);
    if g < 0 then -g else 0
  }

  /** The residual table of a subframe with cnt pulses. */
  function NrgRow(cc: CcTables, cnt: int, gainQ: int): (row: seq<int>)
    requires cc.Valid() && 0 < cnt
    ensures ValidCdf(row) && |row| == 92
  {
    SliceValid(cc.fcbgOffset[8 + Bucket(cnt)], MinOffset(gainQ), 92);
    cc.FcbgOffset(2, Bucket(cnt), MinOffset(gainQ))
  }

  predicate ValidGains(subfr: seq<int>, gp: GainParams) {
    && |subfr| == 4 && |gp.nrgRes| == 4
    && 0 <= gp.gainMain < 84 && 0 <= gp.gainDelta < 98
    && forall sf :: 0 <= sf < 4 && subfr[sf] > 0 ==> 0 <= gp.nrgRes[sf] < 91
  }

  /** What a receiver can know of a gain block: residuals of silent subframes are not sent. */
  function Received(subfr: seq<int>, gp: GainParams): GainParams
    requires |subfr| == |gp.nrgRes| == 4
  {
    gp.(nrgRes := seq(4, sf requires 0 <= sf < 4 => if subfr[sf] > 0 then gp.nrgRes[sf] else 0))
  }

  /** The residual symbols from subframe sf on. */
  function NrgSyms(cc: CcTables, subfr: seq<int>, gp: GainParams, sf: nat): seq<Sym>
    requires cc.Valid() && ValidGains(subfr, gp) && sf <= 4
    decreases 4 - sf
  {
    if sf == 4 then []
    else if subfr[sf] <= 0 then NrgSyms(cc, subfr, gp, sf + 1)
    else [CdfSym(NrgRow(cc, subfr[sf], GainQ(cc, gp.gainMain, gp.gainDelta, sf)), gp.nrgRes[sf])]
         + NrgSyms(cc, subfr, gp, sf + 1)
  }

  function GainSyms(cc: CcTables, subfr: seq<int>, gp: GainParams): seq<Sym>
    requires cc.Valid() && ValidGains(subfr, gp)
  {
    [CdfSym(cc.nrgresGain4, gp.gainMain)]
    + ([CdfSym(cc.nrgresShape4, gp.gainDelta)] + NrgSyms(cc, subfr, gp, 0))
  }

  /** The first loop of both directions. */
  method SubframeGains(cc: CcTables, gainMain: int, gainDelta: int) returns (gainQ: seq<int>)
    requires 0 <= gainDelta
    ensures |gainQ| == 4 && forall sf :: 0 <= sf < 4 ==> gainQ[sf] == GainQ(cc, gainMain, gainDelta, sf)
  {
    var off6 := 4 * gainDelta;
    var base7 := gainMain * cc.NrgStep(2) - 0x154000;
    gainQ := [];
    for sf := 0 to 4
      invariant |gainQ| == sf && forall i :: 0 <= i < sf ==> gainQ[i] == GainQ(cc, gainMain, gainDelta, i)
    {
      var cbv := cc.GainRecon(true, sf + off6);
      gainQ := gainQ + [base7 + cbv * 16];
    }
  }

  /** The table choice in the second loop of both directions. */
  method ResidualTable(cc: CcTables, cnt: int, gainQ: int) returns (row: seq<int>)
    requires cc.Valid() && 0 < cnt
    ensures row == NrgRow(cc, cnt, gainQ)
  {
    hide CcTables.Valid;
    var bucket;
    if cnt >= 30 {
      bucket := 3;
    } else {
      bucket := cnt % 0x1_0000 / 10;
    }
    var g := (gainQ + 8192) / 16384;
    if g < -85 {
      g := -85;
    }
    var negPart := if g < 0 then g else 0;
    var minOffset := -negPart;
    row := Residual(cc, cnt, gainQ, bucket, minOffset);
  }

  method Residual(cc: CcTables, cnt: int, gainQ: int, bucket: nat, minOffset: nat) returns (row: seq<int>)
    requires cc.Valid() && 0 < cnt && bucket == Bucket(cnt) && minOffset == MinOffset(gainQ)
    ensures row == NrgRow(cc, cnt, gainQ)
  {
    row := cc.FcbgOffset(2, bucket, minOffset);
  }

  /** encodeSmplGains at config 0. */
  method EncodeSmplGains(enc: RangeEncoder, cc: CcTables, subfrCounts: seq<int>, gp: GainParams)
    requires enc.Valid() && cc.Valid() && ValidGains(subfrCounts, gp)
    modifies enc, enc.buf
    ensures enc.Valid() && enc.misused == old(enc.misused)
    ensures enc.written == old(enc.written) + GainSyms(cc, subfrCounts, gp)
  {
    hide RangeEncoder.Valid, ValidCdf, CdfSym, NrgRow, GainQ, CcTables.NrgStep, CcTables.GainRecon;
    EncodeIndex(enc, gp.gainMain, cc.nrgresGain4);
    EncodeIndex(enc, gp.gainDelta, cc.nrgresShape4);
    var gainQ := SubframeGains(cc, gp.gainMain, gp.gainDelta);
    ghost var w := enc.written;
    for sf := 0 to 4
      invariant enc.Valid() && enc.misused == old(enc.misused)
      invariant w + NrgSyms(cc, subfrCounts, gp, 0) == enc.written + NrgSyms(cc, subfrCounts, gp, sf)
    {
      var cnt := subfrCounts[sf];
      if cnt <= 0 {
        continue;
      }
      var row := ResidualTable(cc, cnt, gainQ[sf]);
      Associate(enc.written, [CdfSym(row, gp.nrgRes[sf])], NrgSyms(cc, subfrCounts, gp, sf + 1));
      EncodeIndex(enc, gp.nrgRes[sf], row);
    }
    assert enc.written + [] == enc.written;
  }

  datatype GainResult = GainResult(gainQ: seq<int>, nrgRes: seq<int>, gainMain: int, gainDelta: int)

  function ParamsOfGains(r: GainResult): GainParams {
    GainParams(r.gainMain, r.gainDelta, r.nrgRes)
  }

  /** DecodeSmplGains at config 0. */
  method DecodeSmplGains(dec: RangeDecoder, cc: CcTables, subfrCounts: seq<int>,
                         ghost sent: GainParams, ghost rest: seq<Sym>) returns (res: GainResult)
    requires dec.Valid() && cc.Valid() && |subfrCounts| == 4
    modifies dec
    ensures dec.Valid() && dec.err == old(dec.err)
    ensures ValidGains(subfrCounts, ParamsOfGains(res))
    ensures |res.gainQ| == 4
            && forall sf :: 0 <= sf < 4 ==> res.gainQ[sf] == GainQ(cc, res.gainMain, res.gainDelta, sf)
    ensures ValidGains(subfrCounts, sent) && old(dec.Holds(GainSyms(cc, subfrCounts, sent) + rest))
            ==> ParamsOfGains(res) == Received(subfrCounts, sent) && dec.Holds(rest)
  {
    hide RangeDecoder.Valid, RangeDecoder.Holds, ValidCdf, CdfSym, NrgRow, GainQ, NrgSyms;
    ghost var ok := ValidGains(subfrCounts, sent) && dec.Holds(GainSyms(cc, subfrCounts, sent) + rest);
    ghost var after2 := if ok then NrgSyms(cc, subfrCounts, sent, 0) + rest else [];
    ghost var after1 := if ok then [CdfSym(cc.nrgresShape4, sent.gainDelta)] + after2 else [];
    if ok {
      AssociateFour([CdfSym(cc.nrgresGain4, sent.gainMain)], [CdfSym(cc.nrgresShape4, sent.gainDelta)],
                NrgSyms(cc, subfrCounts, sent, 0), rest);
    }
    var gainMain := dec.DecodeCDF(cc.nrgresGain4, sent.gainMain, after1);
    var gainDelta := dec.DecodeCDF(cc.nrgresShape4, sent.gainDelta, after2);
    var gainQ := SubframeGains(cc, gainMain, gainDelta);
    var nrgRes := DecodeResiduals(dec, cc, subfrCounts, gainQ, gainMain, gainDelta, sent, rest);
    res := GainResult(gainQ, nrgRes, gainMain, gainDelta);
  }

  method DecodeResiduals(dec: RangeDecoder, cc: CcTables, subfrCounts: seq<int>, gainQ: seq<int>,
                         gainMain: int, gainDelta: int, ghost sent: GainParams, ghost rest: seq<Sym>)
    returns (nrgRes: seq<int>)
    requires dec.Valid() && cc.Valid() && |subfrCounts| == |gainQ| == 4 && 0 <= gainDelta
    requires forall sf :: 0 <= sf < 4 ==> gainQ[sf] == GainQ(cc, gainMain, gainDelta, sf)
    modifies dec
    ensures dec.Valid() && dec.err == old(dec.err)
    ensures |nrgRes| == 4 && forall sf :: 0 <= sf < 4 && subfrCounts[sf] > 0 ==> 0 <= nrgRes[sf] < 91
    ensures ValidGains(subfrCounts, sent) && sent.gainMain == gainMain && sent.gainDelta == gainDelta
            && old(dec.Holds(NrgSyms(cc, subfrCounts, sent, 0) + rest))
            ==> nrgRes == Received(subfrCounts, sent).nrgRes && dec.Holds(rest)
  {
    hide RangeDecoder.Valid, RangeDecoder.Holds, CcTables.Valid, ValidCdf, CdfSym, NrgRow, GainQ;
    ghost var ok := ValidGains(subfrCounts, sent) && sent.gainMain == gainMain && sent.gainDelta == gainDelta
                    && dec.Holds(NrgSyms(cc, subfrCounts, sent, 0) + rest);
    nrgRes := [0, 0, 0, 0];
    for sf := 0 to 4
      invariant dec.Valid() && dec.err == old(dec.err) && |nrgRes| == 4
      invariant forall i :: 0 <= i < sf && subfrCounts[i] > 0 ==> 0 <= nrgRes[i] < 91
      invariant forall i :: sf <= i < 4 ==> nrgRes[i] == 0
      invariant ok ==> forall i :: 0 <= i < sf ==> nrgRes[i] == (if subfrCounts[i] > 0 then sent.nrgRes[i] else 0)
      invariant ok ==> dec.Holds(NrgSyms(cc, subfrCounts, sent, sf) + rest)
    {
      var cnt := subfrCounts[sf];
      if cnt <= 0 {
        continue;
      }
      var row := ResidualTable(cc, cnt, gainQ[sf]);
      ghost var s', after := 0, [];
      if ok {
        s', after := sent.nrgRes[sf], NrgSyms(cc, subfrCounts, sent, sf + 1) + rest;
        Associate([CdfSym(row, s')], NrgSyms(cc, subfrCounts, sent, sf + 1), rest);
      }
      var s := dec.DecodeCDF(row, s', after);
      nrgRes := nrgRes[sf := s];
    }
    assert [] + rest == rest;
  }

}
