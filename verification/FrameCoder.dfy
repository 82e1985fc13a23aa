/**
 * A whole packet: EncodeSmplFrame (encoder.go) against the three-frame loop of decodeActiveFrame
 * (decoder.go), which share neither code nor the form of their pitch tables.
 */
module FrameCoder {
  import opened Bytes
  import opened Intervals
  import opened EncoderMath
  import opened RangeEncoding
  import opened RangeDecoding
  import opened CodecTables
  import opened PitchTables
  import opened SmplMem
  import opened PulseSpec
  import opened PulseSymbols
  import opened PulseCoder
  import opened PulseReader
  import opened LsfCoder
  import opened GainCoder
  import opened PitchSpec
  import opened PitchCoder
  import opened PitchReader

  datatype Tables = Tables(lsf: LsfTables, cc: CcTables, pitch: PitchTables)
  {
    predicate Valid() {
      lsf.Valid() && cc.Valid() && pitch.Valid()
    }
  }

  /** One 20 ms internal frame; a voiced frame sends its pitch, any other its gains. */
  datatype InternalParams = InternalParams(lsf: LsfParams, pulses: PulseParams, pitch: PitchParams, gains: GainParams)
  {
    predicate Voiced() {
      lsf.stage1 == 1
    }
  }

  predicate ValidBack(tb: Tables, ip: InternalParams) {
    if ip.Voiced() then ValidPitch(tb.pitch, ip.pulses.subfr, ip.pitch) else ValidGains(ip.pulses.subfr, ip.gains)
  }

  /** Parameters that internal frame f can carry behind the predictor p. */
  predicate ValidInternal(tb: Tables, p: Predictor, f: nat, ip: InternalParams) {
    && tb.Valid() && ValidLsf(tb.lsf, p, f, ip.lsf) && ValidPulses(ip.pulses) && ValidBack(tb, ip)
    && (f == 0 || ValidPredictor(p))
  }

  /** The pitch or gain symbols, with the predictor as the LSF block left it. */
  function BackSyms(tb: Tables, q: Predictor, ip: InternalParams): seq<Sym>
    requires tb.Valid() && ValidBack(tb, ip) && ValidPredictor(q)
  {
    if ip.Voiced() then PitchSyms(tb.cc, tb.pitch, q, ip.pulses.subfr, ip.pitch)
    else GainSyms(tb.cc, ip.pulses.subfr, ip.gains)
  }

  function BackNext(tb: Tables, q: Predictor, ip: InternalParams): (r: Predictor)
    requires ValidBack(tb, ip) && ValidPredictor(q)
    ensures ValidPredictor(r)
  {
    if ip.Voiced() then PitchNext(tb.pitch, q, ip.pulses.subfr, ip.pitch) else q
  }

  function InternalSyms(tb: Tables, p: Predictor, f: nat, ip: InternalParams): seq<Sym>
    requires ValidInternal(tb, p, f, ip)
  {
    LsfSyms(tb.lsf, p, f, ip.lsf)
    + (PulseSyms(tb.cc, ip.pulses) + BackSyms(tb, Advance(p, f, ip.lsf.stage1), ip))
  }

  function InternalNext(tb: Tables, p: Predictor, f: nat, ip: InternalParams): (q: Predictor)
    requires ValidInternal(tb, p, f, ip)
    ensures ValidPredictor(q)
  {
    BackNext(tb, Advance(p, f, ip.lsf.stage1), ip)
  }

  /** Internal frames f, f + 1, .. of a packet, each coded behind the predictor the one before leaves. */
  predicate ValidFrame(tb: Tables, p: Predictor, ips: seq<InternalParams>, f: nat)
    decreases |ips| - f
  {
    f < |ips| ==> ValidInternal(tb, p, f, ips[f]) && ValidFrame(tb, InternalNext(tb, p, f, ips[f]), ips, f + 1)
  }

  function FrameSyms(tb: Tables, p: Predictor, ips: seq<InternalParams>, f: nat): seq<Sym>
    requires ValidFrame(tb, p, ips, f)
    decreases |ips| - f
  {
    if f >= |ips| then []
    else InternalSyms(tb, p, f, ips[f]) + FrameSyms(tb, InternalNext(tb, p, f, ips[f]), ips, f + 1)
  }

  /** Frame 0 resets every predictor, so a packet means the same from any state. */
  lemma AnyPredictor(tb: Tables, p: Predictor, q: Predictor, ips: seq<InternalParams>)
    requires |ips| > 0 && ValidFrame(tb, p, ips, 0)
    ensures ValidFrame(tb, q, ips, 0) && FrameSyms(tb, q, ips, 0) == FrameSyms(tb, p, ips, 0)
    ensures InternalNext(tb, q, 0, ips[0]) == InternalNext(tb, p, 0, ips[0])
  {
    hide ValidBack, BackSyms, BackNext, BodySyms, BodyFits, LsfTables.Valid, Tables.Valid, ValidPulses, PulseSyms;
    var ip := ips[0];
    assert Advance(p, 0, ip.lsf.stage1) == Advance(q, 0, ip.lsf.stage1);
    assert ValidLsf(tb.lsf, q, 0, ip.lsf);
    assert LsfSyms(tb.lsf, q, 0, ip.lsf) == LsfSyms(tb.lsf, p, 0, ip.lsf);
  }

  // ---- Encoding ----

  /** The three blocks of one internal frame. */
  method EncodeInternal(enc: RangeEncoder, tb: Tables, st: SmplLsfState, f: nat, ip: InternalParams)
    requires enc.Valid() && ValidInternal(tb, st.EncView(), f, ip)
    modifies enc, enc.buf, st
    ensures enc.Valid() && enc.misused == old(enc.misused)
    ensures enc.written == old(enc.written) + InternalSyms(tb, old(st.EncView()), f, ip)
    ensures st.EncView() == InternalNext(tb, old(st.EncView()), f, ip)
  {
    hide RangeEncoder.Valid, LsfTables.Valid, CcTables.Valid, PitchTables.Valid, BodyFits, LsfSyms, ValidPulses,
      PulseSyms, ValidPitch, ValidGains, PitchSyms, GainSyms, PitchNext;
    ghost var p := st.EncView();
    EncodeSmplLsf(enc, tb.lsf, st, f, ip.lsf);
    EncodeSmplPulses(enc, tb.cc, ip.lsf.stage1, ip.pulses);
    if ip.lsf.stage1 == 1 {
      EncodeSmplPitch(enc, tb.cc, tb.pitch, st, ip.pulses.subfr, ip.pitch);
    } else {
      EncodeSmplGains(enc, tb.cc, ip.pulses.subfr, ip.gains);
    }
    AssociateFour(old(enc.written), LsfSyms(tb.lsf, p, f, ip.lsf), PulseSyms(tb.cc, ip.pulses),
                BackSyms(tb, Advance(p, f, ip.lsf.stage1), ip));
  }

  datatype EncodeResult = Encoded(packet: seq<byte>) | BufferOverflow

  const SMPL_ENCODE_BUF_BYTES := 512

  /** EncodeSmplFrame at config 0: the packet carries the frame's symbols whatever bytes follow it. */
  method EncodeSmplFrame(tb: Tables, toc: byte, internal_: seq<InternalParams>) returns (res: EncodeResult)
    requires |internal_| == 3 && ValidFrame(tb, Fresh, internal_, 0)
    ensures res.Encoded? ==>
              && 1 <= |res.packet| <= 1 + 1 + SMPL_ENCODE_BUF_BYTES && res.packet[0] == toc
              && forall suffix: seq<byte> ::
                   Carries(Whole, FrameSyms(tb, Fresh, internal_, 0), res.packet[1..] + suffix)
    ensures var n := BytesNeeded(FrameSyms(tb, Fresh, internal_, 0));
            if res.Encoded? then |res.packet| == 1 + n else n > 1 + SMPL_ENCODE_BUF_BYTES
  {
    hide RangeEncoder.Valid, ValidInternal, InternalSyms, InternalNext, FrameSyms, ValidFrame, Carries, BytesNeeded;
    var enc := new RangeEncoder(1 + SMPL_ENCODE_BUF_BYTES);
    var st := new SmplLsfState();
    assert [] + FrameSyms(tb, Fresh, internal_, 0) == FrameSyms(tb, Fresh, internal_, 0);
    for f := 0 to 3
      invariant enc.Valid() && fresh(enc) && fresh(enc.buf) && fresh(st) && enc.buf.Length == 513 && !enc.misused
      invariant ValidFrame(tb, st.EncView(), internal_, f)
      invariant enc.written + FrameSyms(tb, st.EncView(), internal_, f) == FrameSyms(tb, Fresh, internal_, 0)
    {
      FrameStep(tb, st.EncView(), internal_, f, enc.written);
      EncodeInternal(enc, tb, st, f, internal_[f]);
    }
    NoFrames(tb, st.EncView(), internal_);
    assert enc.written + [] == enc.written;
    WrittenValid(enc);
    enc.Done();
    if enc.err != 0 {
      return BufferOverflow;
    }
    var n := enc.offs;
    var body := enc.buf[..n];
    assert ([toc] + body)[1..] == body;
    return Encoded([toc] + body);
  }

  lemma WrittenValid(enc: RangeEncoder)
    requires enc.Valid()
    ensures ValidSyms(enc.written)
  {
  }

  /** The zero state of an encoder that starts a packet. */
  const Fresh: Predictor := Predictor(0, 0, 0, 0, 0)

  lemma FrameStep(tb: Tables, p: Predictor, ips: seq<InternalParams>, f: nat, w: seq<Sym>)
    requires ValidFrame(tb, p, ips, f) && f < |ips|
    ensures ValidInternal(tb, p, f, ips[f]) && ValidFrame(tb, InternalNext(tb, p, f, ips[f]), ips, f + 1)
    ensures w + FrameSyms(tb, p, ips, f)
            == w + InternalSyms(tb, p, f, ips[f]) + FrameSyms(tb, InternalNext(tb, p, f, ips[f]), ips, f + 1)
  {
    hide ValidInternal, InternalSyms, InternalNext;
    Associate(w, InternalSyms(tb, p, f, ips[f]), FrameSyms(tb, InternalNext(tb, p, f, ips[f]), ips, f + 1));
  }

  lemma NoFrames(tb: Tables, p: Predictor, ips: seq<InternalParams>)
    requires ValidFrame(tb, p, ips, |ips|)
    ensures FrameSyms(tb, p, ips, |ips|) == []
  {
  }

  // ---- Decoding ----

  datatype Back = Voiced(pitch: PitchResult) | Unvoiced(gains: GainResult)

  datatype InternalResult = InternalResult(lsf: LsfIndices, pulses: PulseResult, total: int, back: Back)

  /** The decoded frame is what was sent, as far as that is on the wire. */
  predicate Received(ip: InternalParams, r: InternalResult) {
    && ParamsOfIndices(r.lsf) == ip.lsf
    && ValidPulses(ip.pulses)
    && PulseParams(r.total, r.pulses.subfr, r.pulses.magRuns, r.pulses.signSyms) == ip.pulses
    && r.pulses.pulses == Excitation(ip.pulses)
    && BackReceived(ip, r.back)
  }

  predicate BackReceived(ip: InternalParams, back: Back) {
    if ip.Voiced() then
      && back.Voiced? && |ip.pulses.subfr| == |ip.pitch.filtIdx| == 4
      && ParamsOfPitch(back.pitch) == HeardPitch(ip.pulses.subfr, ip.pitch)
    else
      && back.Unvoiced? && |ip.pulses.subfr| == |ip.gains.nrgRes| == 4
      && ParamsOfGains(back.gains) == GainCoder.Received(ip.pulses.subfr, ip.gains)
  }

  /** What holds of every decoded frame, whatever the input. */
  predicate WellFormed(r: InternalResult) {
    && 0 <= r.lsf.stage1 <= 1 && 0 <= r.total <= 160
    && ValidPulses(PulseParams(r.total, r.pulses.subfr, r.pulses.magRuns, r.pulses.signSyms))
    && r.pulses.pulses == Excitation(PulseParams(r.total, r.pulses.subfr, r.pulses.magRuns, r.pulses.signSyms))
    && (r.lsf.stage1 == 1 <==> r.back.Voiced?)
  }

  ghost predicate InternalSent(dec: RangeDecoder, tb: Tables, p: Predictor, f: nat, ip: InternalParams, rest: seq<Sym>)
    reads dec
  {
    ValidInternal(tb, p, f, ip) && dec.Holds(InternalSyms(tb, p, f, ip) + rest)
  }

  predicate InternalHeard(tb: Tables, p: Predictor, f: nat, ip: InternalParams, r: InternalResult, q: Predictor) {
    ValidInternal(tb, p, f, ip) && Received(ip, r) && q == InternalNext(tb, p, f, ip)
  }

  /** decodeOne, up to the synthesis. */
  method DecodeInternal(dec: RangeDecoder, tb: Tables, mem: SmplMem, st: SmplLsfState, f: nat,
                        ghost sent: InternalParams, ghost rest: seq<Sym>) returns (r: InternalResult)
    requires dec.Valid() && tb.Valid() && HoldsTables(mem, tb.pitch) && (f == 0 || ValidPredictor(st.DecView()))
    modifies dec, st
    ensures dec.Valid() && dec.err == old(dec.err) && ValidPredictor(st.DecView())
    ensures WellFormed(r)
    ensures old(InternalSent(dec, tb, st.DecView(), f, sent, rest))
            ==> dec.Holds(rest) && InternalHeard(tb, old(st.DecView()), f, sent, r, st.DecView())
  {
    hide RangeDecoder.Valid, RangeDecoder.Holds, LsfTables.Valid, CcTables.Valid, PitchTables.Valid, BodyFits, LsfSyms,
      ValidPulses, PulseSyms, PitchSyms, GainSyms, ValidLags, PitchNext, HoldsTables, Excitation, HeardPitch,
      GainCoder.Received;
    ghost var p := st.DecView();
    ghost var ok := InternalSent(dec, tb, p, f, sent, rest);
    ghost var after2, after1 := [], [];
    if ok {
      after2 := BackSyms(tb, Advance(p, f, sent.lsf.stage1), sent) + rest;
      after1 := PulseSyms(tb.cc, sent.pulses) + after2;
      AssociateFour(LsfSyms(tb.lsf, p, f, sent.lsf), PulseSyms(tb.cc, sent.pulses),
               BackSyms(tb, Advance(p, f, sent.lsf.stage1), sent), rest);
    }
    var lsf := DecodeSmplLsf(dec, tb.lsf, st, f, sent.lsf, after1);
    var pulses, total := DecodeSmplPulses(dec, tb.cc, lsf.stage1, sent.pulses, after2);
    FourCounts(PulseParams(total, pulses.subfr, pulses.magRuns, pulses.signSyms));
    var back;
    if lsf.stage1 == 1 {
      var pr := DecodeSmplPitch(dec, mem, tb.cc, st, pulses.subfr, tb.pitch, sent.pitch, rest);
      back := Voiced(pr);
    } else {
      var g := DecodeSmplGains(dec, tb.cc, pulses.subfr, sent.gains, rest);
      back := Unvoiced(g);
    }
    r := InternalResult(lsf, pulses, total, back);
  }

  lemma FourCounts(p: PulseParams)
    requires ValidPulses(p)
    ensures |p.subfr| == 4 && 0 <= p.total <= 160
  {
  }

  ghost predicate FrameSent(dec: RangeDecoder, tb: Tables, p: Predictor, sent: seq<InternalParams>, f: nat)
    reads dec
  {
    |sent| == 3 && ValidFrame(tb, p, sent, f) && dec.Holds(FrameSyms(tb, p, sent, f))
  }

  /** The persistent-state loop of decodeActiveFrame: exactly three internal frames, in order. */
  method DecodeActiveFrame(frame: seq<byte>, tb: Tables, mem: SmplMem, st: SmplLsfState,
                           ghost sent: seq<InternalParams>)
    returns (res: seq<InternalResult>)
    requires |frame| > 0 && OnPoint(frame[0]) && tb.Valid() && HoldsTables(mem, tb.pitch)
    modifies st
    ensures |res| == 3 && (forall f :: 0 <= f < 3 ==> WellFormed(res[f])) && ValidPredictor(st.DecView())
    ensures CarriesFrame(tb, sent, frame[1..]) ==>
              && (forall f :: 0 <= f < 3 ==> Received(sent[f], res[f]))
              && st.DecView() == FrameNext(tb, Fresh, sent, 0)
  {
    hide RangeDecoder.Valid, RangeDecoder.Holds, Tables.Valid, HoldsTables, ValidInternal, InternalSyms, InternalNext,
      FrameSyms, ValidFrame, WellFormed, Received, FrameNext, ValidPredictor;
    var dec := new RangeDecoder(frame[1..]);
    ghost var ok := CarriesFrame(tb, sent, frame[1..]);
    if ok {
      StartFrame(dec, tb, st.DecView(), sent);
    }
    res := [];
    for f := 0 to 3
      invariant dec.Valid() && fresh(dec) && |res| == f && (f == 0 || ValidPredictor(st.DecView()))
      invariant forall i :: 0 <= i < f ==> WellFormed(res[i])
      invariant ok ==> forall i :: 0 <= i < f ==> Received(sent[i], res[i])
      invariant ok ==> FrameSent(dec, tb, st.DecView(), sent, f)
                       && FrameNext(tb, st.DecView(), sent, f) == FrameNext(tb, Fresh, sent, 0)
    {
      ghost var ip, rest := DefaultParams(), [];
      ghost var p := st.DecView();
      if ok {
        FrameStep(tb, p, sent, f, []);
        NextStep(tb, p, sent, f);
        ip, rest := sent[f], FrameSyms(tb, InternalNext(tb, p, f, sent[f]), sent, f + 1);
        assert [] + FrameSyms(tb, p, sent, f) == FrameSyms(tb, p, sent, f);
        assert [] + InternalSyms(tb, p, f, ip) + rest == InternalSyms(tb, p, f, ip) + rest;
      }
      var r := DecodeInternal(dec, tb, mem, st, f, ip, rest);
      res := res + [r];
    }
    if ok {
      NextDone(tb, st.DecView(), sent);
    }
  }

  /** The predictor a packet leaves. */
  function FrameNext(tb: Tables, p: Predictor, ips: seq<InternalParams>, f: nat): Predictor
    requires ValidFrame(tb, p, ips, f)
    decreases |ips| - f
  {
    if f >= |ips| then p else FrameNext(tb, InternalNext(tb, p, f, ips[f]), ips, f + 1)
  }

  lemma NextStep(tb: Tables, p: Predictor, ips: seq<InternalParams>, f: nat)
    requires ValidFrame(tb, p, ips, f) && f < |ips|
    ensures ValidInternal(tb, p, f, ips[f]) && ValidFrame(tb, InternalNext(tb, p, f, ips[f]), ips, f + 1)
    ensures FrameNext(tb, p, ips, f) == FrameNext(tb, InternalNext(tb, p, f, ips[f]), ips, f + 1)
  {
    hide ValidInternal, InternalSyms, InternalNext;
  }

  lemma NextDone(tb: Tables, p: Predictor, ips: seq<InternalParams>)
    requires ValidFrame(tb, p, ips, |ips|)
    ensures FrameNext(tb, p, ips, |ips|) == p
  {
  }

  function DefaultParams(): InternalParams {
    InternalParams(LsfParams(0, 0, [], 0), PulseParams(0, [], [], []), PitchParams([], [], 0, []), GainParams(0, 0, []))
  }

  /** The packet body starts with what the encoder writes for these parameters. */
  ghost predicate CarriesFrame(tb: Tables, ips: seq<InternalParams>, body: seq<byte>) {
    |ips| == 3 && ValidFrame(tb, Fresh, ips, 0) && Carries(Whole, FrameSyms(tb, Fresh, ips, 0), body)
  }

  lemma StartFrame(dec: RangeDecoder, tb: Tables, p: Predictor, sent: seq<InternalParams>)
    requires dec.Valid() && dec.Here() == Whole && CarriesFrame(tb, sent, dec.buf)
    ensures FrameSent(dec, tb, p, sent, 0) && FrameNext(tb, p, sent, 0) == FrameNext(tb, Fresh, sent, 0)
  {
    hide ValidInternal, InternalSyms, InternalNext, FrameSyms, FrameNext;
    AnyPredictor(tb, Fresh, p, sent);
    NextStep(tb, p, sent, 0);
    NextStep(tb, Fresh, sent, 0);
  }

  // ---- The table of contents ----

  function StandardOpusFrameMs(b: byte): nat {
    var config := b / 8;
    if config < 12 then [10, 20, 40, 60][config % 4]
    else if config < 16 then [10, 20][(config - 12) % 2]
    else [3, 5, 10, 20][config % 4]
  }

  datatype SmplTOC = SmplTOC(stdOpus: bool, sampleRate: nat, frameMs: nat, active: bool, flag2: bool)

  function ParseSmplTOC(b: byte): SmplTOC {
    if b / 64 == 3 then SmplTOC(true, 16000, StandardOpusFrameMs(b), false, false)
    else
      SmplTOC(false, if b / 32 % 2 != 0 then 32000 else 16000, [10, 20, 60, 120][b / 8 % 4],
              b / 64 % 2 != 0 || b / 2 % 2 != 0, b / 4 % 2 != 0)
  }

  /** The packets the decoder does not answer with silence. */
  predicate OnPoint(b: byte) {
    var toc := ParseSmplTOC(b);
    !(toc.stdOpus || !toc.active || toc.sampleRate != 16000 || toc.flag2 || toc.frameMs != 60)
  }

  datatype DecodeResult = Silence(samples: nat) | Active(frames: seq<InternalResult>)

  /** decodeFrame, up to the synthesis. */
  method DecodeFrame(frame: seq<byte>, tb: Tables, mem: SmplMem, st: SmplLsfState, ghost sent: seq<InternalParams>)
    returns (res: DecodeResult)
    requires tb.Valid() && HoldsTables(mem, tb.pitch)
    modifies st
    ensures res.Active? <==> |frame| > 0 && OnPoint(frame[0])
    ensures res.Silence? ==> st.DecView() == old(st.DecView()) && res.samples > 0
    ensures res.Active? ==> |res.frames| == 3 && forall f :: 0 <= f < 3 ==> WellFormed(res.frames[f])
    ensures res.Active? && CarriesFrame(tb, sent, frame[1..]) ==>
              && (forall f :: 0 <= f < 3 ==> Received(sent[f], res.frames[f]))
              && st.DecView() == FrameNext(tb, Fresh, sent, 0)
  {
    hide Tables.Valid, HoldsTables, CarriesFrame, WellFormed, Received, FrameNext;
    if |frame| == 0 {
      return Silence(960);
    }
    var toc := ParseSmplTOC(frame[0]);
    var outLen := 16000 / 1000 * toc.frameMs;
    if outLen <= 0 {
      outLen := 960;
    }
    if toc.stdOpus || !toc.active || toc.sampleRate != 16000 || toc.flag2 || toc.frameMs != 60 {
      return Silence(outLen);
    }
    var frames := DecodeActiveFrame(frame, tb, mem, st, sent);
    return Active(frames);
  }

  /**
   * The codec law: a packet that EncodeSmplFrame produces decodes to the parameters it was made
   * from, whatever state the decoder was in before and whatever bytes follow the packet.
   */
  method RoundTrip(tb: Tables, toc: byte, ips: seq<InternalParams>, prior: Predictor, suffix: seq<byte>)
    returns (enc: EncodeResult, dec: DecodeResult, after: Predictor)
    requires |ips| == 3 && ValidFrame(tb, Fresh, ips, 0) && tb.Valid() && OnPoint(toc)
    ensures enc.Encoded? ==>
              && dec.Active? && |dec.frames| == 3 && (forall f :: 0 <= f < 3 ==> Received(ips[f], dec.frames[f]))
              && after == FrameNext(tb, Fresh, ips, 0)
    ensures enc.Encoded? <==> BytesNeeded(FrameSyms(tb, Fresh, ips, 0)) <= 1 + SMPL_ENCODE_BUF_BYTES
  {
    hide BytesNeeded, Tables.Valid, HoldsTables, FrameSyms, ValidFrame, WellFormed, Received, FrameNext, OnPoint,
      Carries;
    dec, after := Silence(0), prior;
    enc := EncodeSmplFrame(tb, toc, ips);
    if enc.BufferOverflow? {
      return;
    }
    PitchIsValid(tb);
    var mem := BuildSmplMem(tb.pitch);
    var st := new SmplLsfState();
    st.prevStage1, st.prevGainIdx, st.prevFiltIdx := prior.stage1, prior.gainIdx, prior.filtIdx;
    st.prevLag, st.prevFracLag := prior.blk, prior.idx;
    assert (enc.packet + suffix)[1..] == enc.packet[1..] + suffix;
    dec := DecodeFrame(enc.packet + suffix, tb, mem, st, ips);
    after := st.DecView();
  }

  lemma PitchIsValid(tb: Tables)
    requires tb.Valid()
    ensures tb.pitch.Valid()
  {
  }
}
