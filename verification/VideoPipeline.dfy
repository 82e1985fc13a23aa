/**
 * The video path of a call (src/voip/call/video/pipeline.go): captured access units become
 * protected RTP packets, and relayed packets become Annex B frames again.
 */
module VideoPipeline {
  import opened Wrappers
  import opened Bytes
  import opened H264Packets
  import opened AnnexB
  import opened Rtp
  import opened Srtp

  const RTP_STEP_SAMPLES := 6000
  const CONGESTION_DROP_BYTES := 49152
  const PAYLOAD_TYPE_H264 := 97

  // ---- Sending ----

  /** The payloads of an access unit. */
  function PackAll(nalus: seq<Nalu>): seq<seq<byte>> {
    if |nalus| == 0 then [] else PackAll(nalus[..|nalus| - 1]) + Package(nalus[|nalus| - 1])
  }

  function Payloads(sents: seq<Sent>): (r: seq<seq<byte>>)
    ensures |r| == |sents|
  {
    seq(|sents|, k requires 0 <= k < |sents| => sents[k].packet.payload)
  }

  /** One frame: every packet valid and from one source, and only the last marked. */
  predicate OneFrame(sents: seq<Sent>, ssrc: int) {
    forall k :: 0 <= k < |sents| ==>
      && sents[k].Valid() && sents[k].packet.header.ssrc == ssrc
      && (sents[k].packet.header.marker <==> k == |sents| - 1)
  }

  // ---- Receiving ----

  /** What the receiving side carries from packet to packet. */
  datatype Receiver = Receiver(roll: Rollover, depack: Depack, frameBuf: seq<byte>)

  function AppendNalus(frameBuf: seq<byte>, nalus: seq<Nalu>): seq<byte> {
    if |nalus| == 0 then frameBuf
    else AppendNalus(frameBuf, nalus[..|nalus| - 1]) + [0, 0, 0, 1] + nalus[|nalus| - 1]
  }

  /** One opened packet: the units it completes join the frame, and a marker releases the frame. */
  function Accept(r: Receiver, p: RtpPacket): (Receiver, Option<seq<byte>>) {
    if |p.payload| == 0 then (r, None)
    else
      var d := Step(r.depack, p.payload);
      var buf := AppendNalus(r.frameBuf, d.1);
      if p.header.marker && |buf| > 0 then (Receiver(r.roll, d.0, []), Some(buf))
      else (Receiver(r.roll, d.0, buf), None)
  }

  function RtpSsrc(data: seq<byte>): int
    requires |data| >= 12
  {
    Big32At(data, 8)
  }

  /** One relayed packet. */
  function Handle(keys: Keys, tagLen: nat, selfSsrc: int, r: Receiver, data: seq<byte>): (Receiver, Option<seq<byte>>)
    requires |keys.salt| == 14 && |data| >= 12
  {
    if RtpSsrc(data) == selfSsrc then (r, None)
    else
      var o := Open(keys, tagLen, r.roll, data);
      if o.1.Opened? then Accept(r.(roll := o.0), o.1.packet) else (r.(roll := o.0), None)
  }

  /** Relayed packets in order: the state they leave and the frames they release. */
  function Deliver(keys: Keys, tagLen: nat, selfSsrc: int, r: Receiver, wires: seq<seq<byte>>)
    : (Receiver, seq<seq<byte>>)
    requires |keys.salt| == 14 && forall k :: 0 <= k < |wires| ==> |wires[k]| >= 12
    decreases |wires|
  {
    if |wires| == 0 then (r, [])
    else
      var h := Handle(keys, tagLen, selfSsrc, r, wires[0]);
      var rest := Deliver(keys, tagLen, selfSsrc, h.0, wires[1..]);
      (rest.0, (if h.1.Some? then [h.1.value] else []) + rest.1)
  }

  // ---- From one side to the other ----

  /** A packet of another source that the receiver places is taken as it was sent. */
  lemma HandleSent(keys: Keys, tagLen: nat, selfSsrc: int, r: Receiver, s: Sent)
    requires keys.Valid() && tagLen <= 20 && r.roll.Valid() && s.Valid()
    requires s.packet.header.ssrc != selfSsrc && Places(r.roll, s.index)
    ensures |Protected(keys, tagLen, s.packet, s.index)| >= 12
    ensures Handle(keys, tagLen, selfSsrc, r, Protected(keys, tagLen, s.packet, s.index))
            == Accept(r.(roll := r.roll.Update(s.index % 0x1_0000)), s.packet)
  {
    hide Open, Protected, Accept, Places, HeaderBytes, Big32At;
    OpenProtected(keys, tagLen, r.roll, s.packet, s.index);
    SsrcOnWire(keys, tagLen, s.packet, s.index);
  }

  lemma SsrcOnWire(keys: Keys, tagLen: nat, p: RtpPacket, index: nat)
    requires keys.Valid() && tagLen <= 20 && p.header.Valid() && p.header.Canonical()
    ensures |Protected(keys, tagLen, p, index)| >= 12
    ensures RtpSsrc(Protected(keys, tagLen, p, index)) == p.header.ssrc
  {
    hide Iv, XorStream, FirstBytes, CsrcBytes, ExtBytes, Big32, Big32At, Big16At;
    var c := XorStream(keys, Iv(keys.salt, p.header.ssrc, index), p.payload);
    var tag := keys.tag(HeaderBytes(p.header) + c + Big32(index / 0x1_0000))[..tagLen];
    var rest := CsrcBytes(p.header.csrc) + ExtBytes(p.header) + c + tag;
    assert Protected(keys, tagLen, p, index) == FirstBytes(p.header) + rest;
    FirstBack(p.header, rest);
  }

  lemma {:induction false} AppendMore(buf: seq<byte>, a: seq<Nalu>, b: seq<Nalu>)
    ensures AppendNalus(AppendNalus(buf, a), b) == AppendNalus(buf, a + b)
    decreases |b|
  {
    if |b| == 0 {
      assert a + b == a;
    } else {
      AppendMore(buf, a, b[..|b| - 1]);
      assert (a + b)[..|a + b| - 1] == a + b[..|b| - 1] && (a + b)[|a + b| - 1] == b[|b| - 1];
    }
  }

  lemma PlacedHead(roll: Rollover, sents: seq<Sent>)
    requires roll.Valid() && |sents| > 0 && sents[0].Valid() && AllPlaced(roll, Indices(sents))
    ensures Places(roll, sents[0].index)
    ensures roll.Update(sents[0].index % 0x1_0000).Valid()
    ensures AllPlaced(roll.Update(sents[0].index % 0x1_0000), Indices(sents[1..]))
  {
    hide Places;
    assert Indices(sents)[1..] == Indices(sents[1..]);
    ReceiverStepIff(roll, sents[0].index);
  }

  lemma FrameTail(keys: Keys, tagLen: nat, sents: seq<Sent>, ssrc: int)
    requires keys.Valid() && tagLen <= 20 && OneFrame(sents, ssrc) && |sents| > 0
    ensures OneFrame(sents[1..], ssrc) && sents[0].Valid() && sents[0].packet.header.ssrc == ssrc
    ensures sents[0].packet.header.marker <==> |sents| == 1
    ensures Wires(keys, tagLen, sents)[1..] == Wires(keys, tagLen, sents[1..])
    ensures Wires(keys, tagLen, sents)[0] == Protected(keys, tagLen, sents[0].packet, sents[0].index)
    ensures |sents[0].packet.payload| > 0
  {
    hide Protected;
  }

  /** The units that a run of payloads completes make up the frame. */
  lemma {:induction false} DeliverFrame(keys: Keys, tagLen: nat, selfSsrc: int, r: Receiver, sents: seq<Sent>,
                                        ssrc: int)
    requires keys.Valid() && tagLen <= 20 && r.roll.Valid() && ssrc != selfSsrc
    requires OneFrame(sents, ssrc) && |sents| > 0 && AllPlaced(r.roll, Indices(sents))
    requires |AppendNalus(r.frameBuf, Run(r.depack, Payloads(sents)).1)| > 0
    ensures forall k :: 0 <= k < |sents| ==> |Wires(keys, tagLen, sents)[k]| >= 12
    ensures var d := Deliver(keys, tagLen, selfSsrc, r, Wires(keys, tagLen, sents));
            && d.1 == [AppendNalus(r.frameBuf, Run(r.depack, Payloads(sents)).1)]
            && d.0 == Receiver(Follow(r.roll, Indices(sents)), Run(r.depack, Payloads(sents)).0, [])
    decreases |sents|
  {
    hide Protected, Handle, Step, Places, AppendNalus, Sent.Valid, Rollover.Valid, Rollover.Update;
    var s, rest := sents[0], sents[1..];
    PlacedHead(r.roll, sents);
    assert Indices(sents)[1..] == Indices(rest);
    HandleSent(keys, tagLen, selfSsrc, r, s);
    FrameTail(keys, tagLen, sents, ssrc);
    var d := Step(r.depack, s.packet.payload);
    var more := Run(d.0, Payloads(rest));
    assert Payloads(sents)[1..] == Payloads(rest);
    AppendMore(r.frameBuf, d.1, more.1);
    var next := Receiver(r.roll.Update(s.index % 0x1_0000), d.0, AppendNalus(r.frameBuf, d.1));
    if |sents| == 1 {
      assert d.1 + more.1 == d.1;
    } else {
      DeliverFrame(keys, tagLen, selfSsrc, next, rest, ssrc);
      assert [] + Deliver(keys, tagLen, selfSsrc, next, Wires(keys, tagLen, rest)).1
             == Deliver(keys, tagLen, selfSsrc, next, Wires(keys, tagLen, rest)).1;
    }
  }

  /** Every unit of an access unit comes back, in order. */
  lemma {:induction false} PackAllRun(d: Depack, nalus: seq<Nalu>)
    requires forall k :: 0 <= k < |nalus| ==> Sendable(nalus[k])
    ensures Run(d, PackAll(nalus)).1 == nalus
    ensures |nalus| > 0 ==> |PackAll(nalus)| > 0 && !Run(d, PackAll(nalus)).0.fuActive
    decreases |nalus|
  {
    hide Run, Package, Sendable;
    if |nalus| == 0 {
      NothingRun(d);
    } else {
      var front, n := nalus[..|nalus| - 1], nalus[|nalus| - 1];
      PackAllRun(d, front);
      RunAppend(d, PackAll(front), Package(n));
      PackageRun(Run(d, PackAll(front)).0, n);
      SendableFits(n);
      assert front + [n] == nalus;
    }
  }

  lemma NothingRun(d: Depack)
    ensures Run(d, []) == (d, [])
  {
  }

  lemma SendableFits(n: Nalu)
    requires Sendable(n)
    ensures |Package(n)| > 0
  {
    PackageFits(n);
  }

  lemma {:induction false} PackAllFits(nalus: seq<Nalu>)
    ensures forall p :: p in PackAll(nalus) ==> 0 < |p| <= MTU_PAYLOAD_MAX
  {
    hide Package;
    if |nalus| > 0 {
      PackAllFits(nalus[..|nalus| - 1]);
      PackageFits(nalus[|nalus| - 1]);
    }
  }

  function Threes(n: nat): (z: seq<nat>)
    ensures |z| == n && forall k :: 0 <= k < n ==> z[k] == 3
  {
    seq<nat>(n, i => 3)
  }

  /** A released frame is the stream of its units behind four-byte start codes. */
  lemma {:induction false} FrameIsStream(nalus: seq<Nalu>, buf: seq<byte>)
    ensures AppendNalus(buf, nalus) == buf + Stream(Threes(|nalus|), nalus)
    decreases |nalus|
  {
    hide AppendNalus;
    if |nalus| == 0 {
      AppendNone(buf);
      assert buf + [] == buf;
    } else {
      var n, rest := nalus[0], nalus[1..];
      assert nalus == [n] + rest;
      AppendMore(buf, [n], rest);
      AppendOne(buf, n);
      FrameIsStream(rest, buf + [0, 0, 0, 1] + n);
      assert Threes(|nalus|)[1..] == Threes(|rest|);
      assert ZeroRun(3) + [1] == [0, 0, 0, 1];
      var tail := Stream(Threes(|rest|), rest);
      assert buf + [0, 0, 0, 1] + n + tail == buf + ([0, 0, 0, 1] + n + tail);
    }
  }

  lemma AppendNone(buf: seq<byte>)
    ensures AppendNalus(buf, []) == buf
  {
  }

  lemma AppendOne(buf: seq<byte>, n: Nalu)
    ensures AppendNalus(buf, [n]) == buf + [0, 0, 0, 1] + n
  {
    assert [n][..0] == [];
    AppendNone(buf);
  }

  // ---- The pipeline object ----

  class Pipeline {
    var rtp: RtpSession?
    var sendCtx: SrtpContext?
    var recvCtx: SrtpContext?
    var selfSsrc: int
    var depack: H264Depacketizer?
    var frameBuf: seq<byte>
    var sentBefore: bool

    ghost predicate Valid()
      reads this, rtp, sendCtx, recvCtx
    {
      && (sendCtx == null <==> recvCtx == null) && (rtp != null ==> rtp.Valid())
      && (sendCtx != null ==> sendCtx.Valid() && recvCtx.Valid() && sendCtx != recvCtx)
      && (rtp != null && sendCtx != null ==> InStep(sendCtx.View(), rtp.sequenceNumber))
    }

    /** The index of the next packet to be sent. */
    ghost function Next(): nat
      requires rtp != null && sendCtx != null && rtp.Valid()
      reads this, rtp, sendCtx
    {
      NextIndex(sendCtx.View(), rtp.sequenceNumber)
    }

    /** What the receiving side carries. */
    function Side(): Receiver
      requires recvCtx != null && depack != null
      reads this, recvCtx, depack
    {
      Receiver(recvCtx.View(), depack.View(), frameBuf)
    }

    constructor ()
      ensures Valid() && rtp == null && sendCtx == null && depack == null && frameBuf == [] && !sentBefore
    {
      rtp, sendCtx, recvCtx, depack := null, null, null, null;
      selfSsrc, frameBuf, sentBefore := 0, [], false;
    }

    /** Fresh sessions; the depacketiser and a half-built frame survive a repeated setup. */
    method Setup(sendKeys: Keys, recvKeys: Keys, ssrc: int, seq0: int, ts0: int)
      requires Valid() && sendKeys.Valid() && recvKeys.Valid()
      requires 0 <= ssrc < 0x1_0000_0000 && 0 <= seq0 < 0x1_0000 && 0 <= ts0 < 0x1_0000_0000
      modifies `rtp, `sendCtx, `recvCtx, `selfSsrc, `depack
      ensures Valid() && rtp != null && sendCtx != null && depack != null && selfSsrc == ssrc
      ensures fresh(rtp) && fresh(sendCtx) && fresh(recvCtx) && rtp.ssrc == ssrc && rtp.sequenceNumber == seq0
      ensures sendCtx.keys == sendKeys && recvCtx.keys == recvKeys && sendCtx.authTagLen == recvCtx.authTagLen == 4
      ensures sendCtx.View() == recvCtx.View() == Rollover(0, 0, false)
      ensures if old(depack) == null then fresh(depack) && depack.View() == Depack([], false) else depack == old(depack)
    {
      sendCtx := new SrtpContext(sendKeys, 4);
      recvCtx := new SrtpContext(recvKeys, 4);
      selfSsrc := ssrc;
      rtp := new RtpSession(ssrc, PAYLOAD_TYPE_H264, seq0, ts0);
      if depack == null {
        depack := new H264Depacketizer();
      }
    }

    /** Whether an access unit goes out at all. */
    predicate Sends(au: seq<byte>, connected: bool, buffered: nat)
      reads this
    {
      rtp != null && sendCtx != null && connected && |au| > 0 && |Split(au)| > 0 && buffered <= CONGESTION_DROP_BYTES
    }

    /** FeedCaptured: the packets handed to the relay. */
    method FeedCaptured(au: seq<byte>, connected: bool, buffered: nat)
      returns (packets: seq<seq<byte>>, ghost sents: seq<Sent>)
      requires Valid()
      modifies `sentBefore, rtp, sendCtx
      ensures Valid() && rtp == old(rtp) && sendCtx == old(sendCtx) && recvCtx == old(recvCtx)
      ensures recvCtx != null ==> unchanged(recvCtx)
      ensures !Sends(au, connected, buffered) ==> packets == [] && unchanged(this)
      ensures !Sends(au, connected, buffered) && rtp != null ==> unchanged(rtp)
      ensures !Sends(au, connected, buffered) && sendCtx != null ==> unchanged(sendCtx)
      ensures Sends(au, connected, buffered) ==>
                && OneFrame(sents, rtp.ssrc) && Payloads(sents) == PackAll(Split(au))
                && packets == Wires(sendCtx.keys, sendCtx.authTagLen, sents)
                && AllEncrypted(sendCtx.keys, sents, packets)
                && AllPlaced(old(sendCtx.View()), Indices(sents))
                && sendCtx.View() == Follow(old(sendCtx.View()), Indices(sents))
                && sentBefore
                && rtp.timestamp == U32(old(rtp.timestamp) + if old(sentBefore) then RTP_STEP_SAMPLES else 0)
                && Stamped(sents, rtp.timestamp) && Consecutive(sents, old(rtp.sequenceNumber), old(Next()))
                && rtp.sequenceNumber == (old(rtp.sequenceNumber) + |sents|) % 0x1_0000
                && Next() == (old(Next()) + |sents|) % INDICES
    {
      hide RtpSession.Valid, SrtpContext.Valid, InStep, NextIndex, Stamped, Consecutive, Split, PackAll, OneFrame,
        AllPlaced, Follow, Wires, AllEncrypted;
      packets, sents := [], [];
      if rtp == null || sendCtx == null || !connected || |au| == 0 {
        return;
      }
      var nalus := SplitAnnexB(au);
      if |nalus| == 0 {
        return;
      }
      if buffered > CONGESTION_DROP_BYTES {
        return;
      }
      var payloads := CollectPayloads(nalus);
      var first := !sentBefore;
      sentBefore := true;
      ReadTimestamp(rtp);
      if !first {
        rtp.AdvanceTimestamp(RTP_STEP_SAMPLES);
      }
      packets, sents := SendPayloads(payloads);
      ContextKeys(sendCtx);
      FrameEncrypted(sendCtx.keys, sendCtx.authTagLen, sents, rtp.ssrc);
    }

    /** The packet loop of FeedCaptured. */
    method SendPayloads(payloads: seq<seq<byte>>) returns (packets: seq<seq<byte>>, ghost sents: seq<Sent>)
      requires rtp != null && sendCtx != null && rtp.Valid() && sendCtx.Valid()
      requires InStep(sendCtx.View(), rtp.sequenceNumber) && forall p :: p in payloads ==> |p| > 0
      modifies rtp, sendCtx
      ensures rtp.Valid() && sendCtx.Valid() && rtp.timestamp == old(rtp.timestamp)
      ensures OneFrame(sents, rtp.ssrc) && Payloads(sents) == payloads
      ensures packets == Wires(sendCtx.keys, sendCtx.authTagLen, sents)
      ensures AllPlaced(old(sendCtx.View()), Indices(sents))
      ensures sendCtx.View() == Follow(old(sendCtx.View()), Indices(sents))
      ensures Stamped(sents, rtp.timestamp) && Consecutive(sents, old(rtp.sequenceNumber), old(Next()))
      ensures rtp.sequenceNumber == (old(rtp.sequenceNumber) + |sents|) % 0x1_0000
      ensures InStep(sendCtx.View(), rtp.sequenceNumber) && Next() == (old(Next()) + |sents|) % INDICES
    {
      hide Protected, Sealed, Rollover.Update, Running, NextIndex, InStep;
      packets, sents := [], [];
      ghost var s, seq0 := sendCtx.View(), rtp.sequenceNumber;
      RunningStart(s, seq0, rtp.timestamp);
      for i := 0 to |payloads|
        invariant rtp.Valid() && sendCtx.Valid() && rtp.timestamp == old(rtp.timestamp)
        invariant SentSoFar(sents, rtp.ssrc, |payloads|) && Payloads(sents) == payloads[..i]
        invariant packets == Wires(sendCtx.keys, sendCtx.authTagLen, sents)
        invariant Running(s, seq0, rtp.timestamp, sents, sendCtx.View(), rtp.sequenceNumber)
      {
        var last := i == |payloads| - 1;
        ghost var before := sendCtx.View();
        var pkt := rtp.CreatePacketWithDuration(payloads[i], 0, last);
        NoDuration(rtp.timestamp);
        var protected := sendCtx.Protect(pkt);
        ghost var x := Sent(pkt, sendCtx.View().Index());
        OwnIndexPlaced(before, pkt.header.sequenceNumber);
        RunningNext(s, seq0, rtp.timestamp, sents, before, x);
        assert Payloads(sents + [x]) == Payloads(sents) + [pkt.payload];
        WiresPush(sendCtx.keys, sendCtx.authTagLen, sents, x);
        packets := packets + [protected];
        sents := sents + [x];
      }
      RunningMeans(s, seq0, rtp.timestamp, sents, sendCtx.View(), rtp.sequenceNumber);
      assert payloads[..|payloads|] == payloads;
    }

    /** HandleRelayData: at most one frame. */
    method HandleRelayData(data: seq<byte>) returns (frame: Option<seq<byte>>)
      requires Valid() && |data| >= 12
      modifies `frameBuf, recvCtx, depack
      ensures Valid() && recvCtx == old(recvCtx) && depack == old(depack)
      ensures sendCtx != null ==> unchanged(sendCtx)
      ensures recvCtx == null || depack == null ==> frame == None && frameBuf == old(frameBuf)
      ensures recvCtx != null && depack != null ==>
                (Side(), frame) == Handle(recvCtx.keys, recvCtx.authTagLen, selfSsrc, old(Side()), data)
    {
      hide Open, Step;
      if recvCtx == null || depack == null {
        return None;
      }
      if RtpSsrc(data) == selfSsrc {
        return None;
      }
      var res := recvCtx.Unprotect(data);
      if !res.Opened? {
        return None;
      }
      var pkt := res.packet;
      if |pkt.payload| == 0 {
        return None;
      }
      var nalus := depack.Depacketize(pkt.payload);
      ghost var was := frameBuf;
      for k := 0 to |nalus|
        invariant frameBuf == AppendNalus(was, nalus[..k])
        invariant recvCtx.View() == Open(recvCtx.keys, recvCtx.authTagLen, old(recvCtx.View()), data).0
        invariant depack.View() == Step(old(depack.View()), pkt.payload).0 && recvCtx.Valid()
      {
        assert nalus[..k + 1][..k] == nalus[..k];
        frameBuf := frameBuf + [0, 0, 0, 1];
        frameBuf := frameBuf + nalus[k];
      }
      assert nalus[..|nalus|] == nalus;
      frame := None;
      if pkt.header.marker && |frameBuf| > 0 {
        frame := Some(frameBuf);
        frameBuf := [];
      }
    }
  }

  lemma ReadTimestamp(rtp: RtpSession)
    requires rtp.Valid()
    ensures rtp.timestamp == U32(rtp.timestamp + 0)
  {
  }

  lemma NoDuration(ts: int)
    requires 0 <= ts < 0x1_0000_0000
    ensures U32(ts + 0) == ts
  {
  }

  /** Every packet is the encryption of what was sent, each under its own vector. */
  ghost predicate AllEncrypted(keys: Keys, sents: seq<Sent>, packets: seq<seq<byte>>) {
    && |keys.salt| == 14 && |packets| == |sents|
    && forall k :: 0 <= k < |sents| ==> sents[k].Valid() && Encrypted(keys, sents[k], packets[k])
  }

  lemma ContextKeys(c: SrtpContext)
    requires c.Valid()
    ensures c.keys.Valid() && c.authTagLen <= 20
  {
  }

  lemma FrameEncrypted(keys: Keys, tagLen: nat, sents: seq<Sent>, ssrc: int)
    requires keys.Valid() && tagLen <= 20 && OneFrame(sents, ssrc)
    ensures AllEncrypted(keys, sents, Wires(keys, tagLen, sents))
  {
    hide Encrypted, Sent.Valid;
    WiresEncrypted(keys, tagLen, sents);
  }

  /** All packets of an access unit carry its timestamp. */
  predicate Stamped(sents: seq<Sent>, ts: int) {
    forall k :: 0 <= k < |sents| ==> sents[k].packet.header.timestamp == ts
  }

  /** What has been sent since the sender stood at s and seq0, and where it stands now. */
  predicate Running(s: Rollover, seq0: nat, ts: int, sents: seq<Sent>, now: Rollover, seq_: int) {
    && AllPlaced(s, Indices(sents)) && now == Follow(s, Indices(sents))
    && Stamped(sents, ts) && Consecutive(sents, seq0, NextIndex(s, seq0))
    && seq_ >= 0 && Standing(now, seq_, seq0, NextIndex(s, seq0), |sents|)
  }

  lemma RunningStart(s: Rollover, seq0: nat, ts: int)
    requires s.Valid() && seq0 < 0x1_0000 && InStep(s, seq0)
    ensures Running(s, seq0, ts, [], s, seq0)
  {
    StandingFirst(s, seq0);
    NothingFollowed(s);
  }

  lemma RunningMeans(s: Rollover, seq0: nat, ts: int, sents: seq<Sent>, now: Rollover, seq_: int)
    requires Running(s, seq0, ts, sents, now, seq_)
    ensures AllPlaced(s, Indices(sents)) && now == Follow(s, Indices(sents))
    ensures Stamped(sents, ts) && Consecutive(sents, seq0, NextIndex(s, seq0))
    ensures seq_ >= 0 && InStep(now, seq_) && seq_ == (seq0 + |sents|) % 0x1_0000
    ensures NextIndex(now, seq_) == (NextIndex(s, seq0) + |sents|) % INDICES
  {
    hide AllPlaced, Follow, Consecutive, NextIndex, InStep;
  }

  /** A packet protected where the sender stands continues its run. */
  lemma RunningNext(s: Rollover, seq0: nat, ts: int, sents: seq<Sent>, now: Rollover, x: Sent)
    requires Running(s, seq0, ts, sents, now, x.packet.header.sequenceNumber)
    requires x.index == now.Update(x.packet.header.sequenceNumber).Index() && x.Valid() && Places(now, x.index)
    requires x.packet.header.timestamp == ts
    ensures Running(s, seq0, ts, sents + [x], now.Update(x.packet.header.sequenceNumber),
                    (x.packet.header.sequenceNumber + 1) % 0x1_0000)
  {
    hide AllPlaced, Follow, Consecutive, Places, Standing, Rollover.Update;
    NextAt(now, x.packet.header.sequenceNumber, seq0, NextIndex(s, seq0), |sents|);
    ConsecutivePush(sents, x, seq0, NextIndex(s, seq0));
    StandingNext(now, x.packet.header.sequenceNumber, seq0, NextIndex(s, seq0), |sents|);
    FollowPush(s, Indices(sents), x.index);
    assert Indices(sents + [x]) == Indices(sents) + [x.index];
  }

  lemma NextAt(s: Rollover, seq_: nat, seq0: nat, first: nat, i: nat)
    requires Standing(s, seq_, seq0, first, i)
    ensures seq_ == (seq0 + i) % 0x1_0000 && s.Update(seq_).Index() == (first + i) % INDICES
  {
    hide Rollover.Update;
  }

  /** As OneFrame, while more is to come. */
  predicate SentSoFar(sents: seq<Sent>, ssrc: int, total: nat) {
    forall k :: 0 <= k < |sents| ==>
      && sents[k].Valid() && sents[k].packet.header.ssrc == ssrc
      && (sents[k].packet.header.marker <==> k == total - 1)
  }

  method CollectPayloads(nalus: seq<Nalu>) returns (payloads: seq<seq<byte>>)
    ensures payloads == PackAll(nalus)
    ensures forall p :: p in payloads ==> 0 < |p| <= MTU_PAYLOAD_MAX
  {
    payloads := [];
    for k := 0 to |nalus|
      invariant payloads == PackAll(nalus[..k])
    {
      assert nalus[..k + 1][..k] == nalus[..k];
      var more := PackageH264NALU(nalus[k]);
      payloads := payloads + more;
    }
    assert nalus[..|nalus|] == nalus;
    PackAllFits(nalus);
  }

  /** What FeedCaptured is called with, and what the relay answers then. */
  datatype Captured = Captured(au: seq<byte>, connected: bool, buffered: nat)

  /** Every packet of a run is encrypted under a vector of its own. */
  ghost predicate FreshVectors(salt: seq<byte>, sents: seq<Sent>)
    requires |salt| == 14 && forall k :: 0 <= k < |sents| ==> sents[k].Valid()
  {
    forall j, k :: 0 <= j < k < |sents| && k - j < INDICES ==> Vector(salt, sents[j]) != Vector(salt, sents[k])
  }

  /**
   * The sender's law: over any run of captures, sent or dropped, the packets of all access units are
   * numbered and indexed consecutively, and no key stream is used twice.
   */
  method FeedAll(p: Pipeline, captures: seq<Captured>) returns (packets: seq<seq<byte>>, ghost sents: seq<Sent>)
    requires p.Valid() && p.rtp != null && p.sendCtx != null
    modifies p`sentBefore, p.rtp, p.sendCtx
    ensures p.Valid() && p.rtp == old(p.rtp) && p.sendCtx == old(p.sendCtx)
    ensures forall k :: 0 <= k < |sents| ==> sents[k].Valid() && sents[k].packet.header.ssrc == p.rtp.ssrc
    ensures packets == Wires(p.sendCtx.keys, p.sendCtx.authTagLen, sents)
    ensures AllEncrypted(p.sendCtx.keys, sents, packets)
    ensures Consecutive(sents, old(p.rtp.sequenceNumber), old(p.Next()))
    ensures |p.sendCtx.keys.salt| == 14 && FreshVectors(p.sendCtx.keys.salt, sents)
  {
    hide Consecutive, NextIndex, InStep, Wires, Split, PackAll, Sent.Valid, Stamped, Vector, Keys.Valid, Follow,
      AllPlaced, Encrypted;
    packets, sents := [], [];
    ghost var seq0, first := p.rtp.sequenceNumber, p.Next();
    ghost var keys, tagLen := p.sendCtx.keys, p.sendCtx.authTagLen;
    SaltLength(keys);
    NextBound(p.sendCtx.View(), seq0);
    NothingSent(keys, tagLen, seq0, first);
    for i := 0 to |captures|
      invariant p.Valid() && p.rtp == old(p.rtp) && p.sendCtx == old(p.sendCtx)
      invariant forall k :: 0 <= k < |sents| ==> sents[k].Valid() && sents[k].packet.header.ssrc == p.rtp.ssrc
      invariant packets == Wires(keys, tagLen, sents) && Consecutive(sents, seq0, first)
      invariant p.rtp.sequenceNumber == (seq0 + |sents|) % 0x1_0000 && p.Next() == (first + |sents|) % INDICES
    {
      var c := captures[i];
      var more;
      ghost var added;
      ghost var sends := p.Sends(c.au, c.connected, c.buffered);
      more, added := p.FeedCaptured(c.au, c.connected, c.buffered);
      if sends {
        ConsecutiveJoin(sents, added, seq0, first);
        WiresJoin(keys, tagLen, sents, added);
        ModAdd(seq0 + |sents|, |added|, 0x1_0000);
        ModAdd(first + |sents|, |added|, INDICES);
        sents := sents + added;
      }
      packets := packets + more;
    }
    WiresEncrypted(keys, tagLen, sents);
    forall j, k | 0 <= j < k < |sents| && k - j < INDICES
      ensures Vector(keys.salt, sents[j]) != Vector(keys.salt, sents[k])
    {
      KeyStreamNeverReused(keys.salt, sents, seq0, first, j, k);
    }
  }

  lemma NothingSent(keys: Keys, tagLen: nat, seq0: nat, first: nat)
    requires keys.Valid() && tagLen <= 20 && seq0 < 0x1_0000 && first < INDICES
    ensures Wires(keys, tagLen, []) == [] && Consecutive([], seq0, first)
    ensures seq0 == seq0 % 0x1_0000 && first == first % INDICES
  {
  }

  lemma WiresJoin(keys: Keys, tagLen: nat, a: seq<Sent>, b: seq<Sent>)
    requires keys.Valid() && tagLen <= 20
    requires (forall k :: 0 <= k < |a| ==> a[k].Valid()) && forall k :: 0 <= k < |b| ==> b[k].Valid()
    ensures forall k :: 0 <= k < |a + b| ==> (a + b)[k].Valid()
    ensures Wires(keys, tagLen, a + b) == Wires(keys, tagLen, a) + Wires(keys, tagLen, b)
  {
    hide Protected, Sent.Valid;
    assert forall k :: 0 <= k < |a + b| ==> (a + b)[k] == if k < |a| then a[k] else b[k - |a|];
  }

  /** Two set-up ends of a call that share a key and agree on where the packet count stands. */
  ghost predicate Connected(a: Pipeline, b: Pipeline)
    reads a, a.rtp, a.sendCtx, a.recvCtx, b, b.rtp, b.sendCtx, b.recvCtx, b.depack
  {
    && a != b && a.Valid() && b.Valid()
    && a.rtp != null && a.sendCtx != null && b.recvCtx != null && b.depack != null
    && a.rtp != b.rtp && a.sendCtx != b.sendCtx && a.sendCtx != b.recvCtx
    && a.sendCtx.keys == b.recvCtx.keys && a.sendCtx.authTagLen == b.recvCtx.authTagLen
    && a.sendCtx.View() == b.recvCtx.View() && a.rtp.ssrc != b.selfSsrc
  }

  /**
   * The video law: the packets of an access unit, relayed in order, release exactly one frame with
   * the same units, from any depacketiser state, and leave both ends agreeing again.
   */
  method SendAccessUnit(a: Pipeline, b: Pipeline, au: seq<byte>, buffered: nat) returns (frames: seq<seq<byte>>)
    requires Connected(a, b) && b.frameBuf == [] && |au| > 0 && |Split(au)| > 0 && buffered <= 49152
    requires forall k :: 0 <= k < |Split(au)| ==> Sendable(Split(au)[k])
    modifies a`sentBefore, a.rtp, a.sendCtx, b`frameBuf, b.recvCtx, b.depack
    ensures Connected(a, b) && b.frameBuf == [] && !b.depack.fuActive
    ensures frames == [Stream(Threes(|Split(au)|), Split(au))]
  {
    hide Split, PackAll, OneFrame, AllPlaced, Follow, Wires, Handle, Deliver, Run, AppendNalus, Sendable, Stream,
      Rollover.Valid, Keys.Valid;
    var packets;
    ghost var sents;
    packets, sents := a.FeedCaptured(au, true, buffered);
    label Fed:
    ghost var keys, tagLen, r0 := b.recvCtx.keys, b.recvCtx.authTagLen, b.Side();
    SaltLength(keys);
    PackAllRun(r0.depack, Split(au));
    FrameIsStream(Split(au), []);
    StreamNotEmpty(Split(au));
    assert [] + Stream(Threes(|Split(au)|), Split(au)) == Stream(Threes(|Split(au)|), Split(au));
    DeliverFrame(keys, tagLen, b.selfSsrc, r0, sents, a.rtp.ssrc);
    frames := [];
    assert packets[0..] == packets;
    assert [] + Deliver(keys, tagLen, b.selfSsrc, r0, packets).1 == Deliver(keys, tagLen, b.selfSsrc, r0, packets).1;
    for k := 0 to |packets|
      invariant b.Valid() && b.recvCtx == old(b.recvCtx) && b.depack == old(b.depack)
      invariant unchanged@Fed(a, a.rtp, a.sendCtx)
      invariant Deliver(keys, tagLen, b.selfSsrc, b.Side(), packets[k..]).0
                == Deliver(keys, tagLen, b.selfSsrc, r0, packets).0
      invariant frames + Deliver(keys, tagLen, b.selfSsrc, b.Side(), packets[k..]).1
                == Deliver(keys, tagLen, b.selfSsrc, r0, packets).1
    {
      DeliverStep(keys, tagLen, b.selfSsrc, b.Side(), packets, k, frames);
      var f := b.HandleRelayData(packets[k]);
      if f.Some? {
        frames := frames + [f.value];
      }
    }
    DeliverNone(keys, tagLen, b.selfSsrc, b.Side());
    assert frames + [] == frames;
  }

  lemma SaltLength(keys: Keys)
    requires keys.Valid()
    ensures |keys.salt| == 14
  {
  }

  lemma StreamNotEmpty(nalus: seq<Nalu>)
    requires |nalus| > 0
    ensures |Stream(Threes(|nalus|), nalus)| > 0
  {
  }

  lemma DeliverNone(keys: Keys, tagLen: nat, selfSsrc: int, r: Receiver)
    requires |keys.salt| == 14
    ensures Deliver(keys, tagLen, selfSsrc, r, []) == (r, [])
  {
  }

  /** One packet of Deliver, behind the frames released so far. */
  lemma DeliverStep(keys: Keys, tagLen: nat, selfSsrc: int, r: Receiver, wires: seq<seq<byte>>, k: nat,
                    frames: seq<seq<byte>>)
    requires |keys.salt| == 14 && k < |wires| && forall i :: 0 <= i < |wires| ==> |wires[i]| >= 12
    ensures var h := Handle(keys, tagLen, selfSsrc, r, wires[k]);
            var rest := Deliver(keys, tagLen, selfSsrc, h.0, wires[k + 1..]);
            && Deliver(keys, tagLen, selfSsrc, r, wires[k..]).0 == rest.0
            && frames + Deliver(keys, tagLen, selfSsrc, r, wires[k..]).1
               == (if h.1.Some? then frames + [h.1.value] else frames) + rest.1
  {
    hide Handle;
    assert wires[k..][1..] == wires[k + 1..];
  }
}
