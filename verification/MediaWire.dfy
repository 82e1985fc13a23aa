/**
 * The bytes of the video path, stated without the functions that specify them: the fragments of
 * sections 5.7.1 and 5.8 of RFC 6184, the header of section 5.1 of RFC 3550, and what a receiver does
 * with payloads that no sender of this repository makes.
 */
module MediaWire {
  import opened Bytes
  import opened Wrappers
  import opened H264Packets
  import opened Rtp
  import opened Srtp
  import opened VideoPipeline

  // ---- Fragments ----

  lemma {:induction false} FragmentAt(nalu: Nalu, offset: nat, k: nat)
    requires offset < |nalu| - 1 && offset + 798 * k < |nalu| - 1
    ensures var fs, at := Fragments(nalu, offset), offset + 798 * k;
            && k < |fs| && (k == |fs| - 1 <==> at + 798 >= |nalu| - 1)
            && fs[k] == FuPacket(nalu, at, Min(at + 798, |nalu| - 1))
    decreases |nalu| - offset
  {
    hide FuPacket;
    var end := FragmentEnd(nalu, offset);
    if end < |nalu| - 1 {
      assert end == offset + 798;
      FragmentAt(nalu, end, if k > 0 then k - 1 else 0);
    } else {
      assert Fragments(nalu, end) == [];
    }
  }

  /**
   * Fragment k of a long unit: 798 bytes of the body from place 798k on, behind the unit's F and NRI
   * bits with type 28, and the unit's type with the start bit on the first and the end bit on the last.
   */
  lemma FragmentWire(nalu: Nalu, k: nat)
    requires |nalu| > 800 && 798 * k < |nalu| - 1
    ensures k < |Package(nalu)|
    ensures var fs := Package(nalu);
            var f := fs[k];
            && |f| >= 3 && f[0] / 32 == nalu[0] / 32 && f[0] % 32 == 28 && f[1] % 32 == nalu[0] % 32
            && (f[1] / 128 == 1 <==> k == 0) && (f[1] / 64 % 2 == 1 <==> k == |fs| - 1) && f[1] / 32 % 2 == 0
            && f[2..] == nalu[1 + 798 * k..1 + Min(798 * k + 798, |nalu| - 1)]
            && (k == |fs| - 1 <==> 798 * k + 798 >= |nalu| - 1)
  {
    hide FuPacket;
    FragmentAt(nalu, 0, k);
    FuBytes(nalu, 798 * k, Min(798 * k + 798, |nalu| - 1));
  }

  lemma FuBytes(nalu: Nalu, offset: nat, end: nat)
    requires offset < end < |nalu|
    ensures var f := FuPacket(nalu, offset, end);
            && |f| >= 3 && f[0] / 32 == nalu[0] / 32 && f[0] % 32 == 28 && f[1] % 32 == nalu[0] % 32
            && (f[1] / 128 == 1 <==> offset == 0) && (f[1] / 64 % 2 == 1 <==> end == |nalu| - 1) && f[1] / 32 % 2 == 0
            && f[2..] == nalu[1 + offset..1 + end]
  {
  }

  /** Two units in one packet: the greater NRI with type 24, and each unit behind its size, high byte first. */
  lemma AggregateExample()
    ensures var nalus: seq<Nalu> := [[0x67, 1], [0x48]];
            Aggregable(nalus) && [MaxNri(nalus) + STAP_A] + StapBody(nalus) == [0x78, 0, 2, 0x67, 1, 0, 1, 0x48]
  {
    var nalus: seq<Nalu> := [[0x67, 1], [0x48]];
    assert nalus[..1] == [[0x67, 1]] && nalus[..1][..0] == [];
    assert StapBody(nalus[..1][..0]) == [];
    assert StapBody(nalus[..1]) == [0, 2, 0x67, 1];
    assert MaxNri(nalus[..1][..0]) == 0;
    assert MaxNri(nalus[..1]) == 0x60;
  }

  // ---- Payloads in the wrong place ----

  /** A single unit or an unknown type ends a fragmented unit; what is left of it is passed over. */
  lemma Interrupted(d: Depack, payload: seq<byte>, middle: seq<byte>)
    requires |payload| > 0 && payload[0] % 32 != 28 && |middle| >= 2 && middle[0] % 32 == 28 && middle[1] / 128 == 0
    ensures var first, second := Step(d, payload), Step(Step(d, payload).0, middle);
            && (1 <= payload[0] % 32 <= 23 ==> first.1 == [payload])
            && (payload[0] % 32 == 0 || payload[0] % 32 >= 25 ==> first.1 == [])
            && !first.0.fuActive && second == (first.0, [])
  {
  }

  /** A fragment with the start bit starts afresh, whatever came before. */
  lemma Restarts(d: Depack, payload: seq<byte>)
    requires |payload| >= 2 && payload[0] % 32 == 28 && payload[1] / 128 == 1
    ensures Step(d, payload) == Step(Depack([], false), payload)
  {
  }

  // ---- Headers ----

  lemma WordExamples()
    ensures Big32(0x0A0B_0C0D) == [0x0A, 0x0B, 0x0C, 0x0D] && Big32(0x0506_0708) == [5, 6, 7, 8]
    ensures Big16(0x1234) == [0x12, 0x34] && Big16(0xBEDE) == [0xBE, 0xDE] && Big16(1) == [0, 1]
  {
    hide Big32;
    WideExamples();
  }

  lemma WideExamples()
    ensures Big32(0x0A0B_0C0D) == [0x0A, 0x0B, 0x0C, 0x0D] && Big32(0x0506_0708) == [5, 6, 7, 8]
  {
  }

  /** A header as this repository's sessions build it, byte by byte. */
  lemma HeaderExample()
    ensures var h := NewRtpHeader(97, 0x1234, 0x0102_0304, 0x0A0B_0C0D).(marker := true);
            h.Valid() && HeaderBytes(h) == [0x80, 0xE1, 0x12, 0x34, 1, 2, 3, 4, 0x0A, 0x0B, 0x0C, 0x0D]
  {
    hide Big16, Big32;
    BigExamples();
    WordExamples();
  }

  /** And one with everything: padding, extension, a contributing source. */
  lemma LongHeaderExample(h: RtpHeader)
    requires h == RtpHeader(2, true, true, 1, false, 111, 0x1234, 0x0102_0304, 0x0A0B_0C0D, [0x0506_0708],
                            0xBEDE, [9, 8, 7, 6])
    ensures h.Valid() && HeaderBytes(h) == [0xB1, 0x6F, 0x12, 0x34, 1, 2, 3, 4, 0x0A, 0x0B, 0x0C, 0x0D,
                                            5, 6, 7, 8, 0xBE, 0xDE, 0, 1, 9, 8, 7, 6]
  {
    hide FirstBytes, CsrcBytes, ExtBytes;
    LongFirst(h);
    LongRest(h);
  }

  lemma LongFirst(h: RtpHeader)
    requires h == RtpHeader(2, true, true, 1, false, 111, 0x1234, 0x0102_0304, 0x0A0B_0C0D, [0x0506_0708],
                            0xBEDE, [9, 8, 7, 6])
    ensures h.Valid() && FirstBytes(h) == [0xB1, 0x6F, 0x12, 0x34, 1, 2, 3, 4, 0x0A, 0x0B, 0x0C, 0x0D]
  {
    hide Big16, Big32;
    BigExamples();
    WordExamples();
  }

  lemma LongRest(h: RtpHeader)
    requires h == RtpHeader(2, true, true, 1, false, 111, 0x1234, 0x0102_0304, 0x0A0B_0C0D, [0x0506_0708],
                            0xBEDE, [9, 8, 7, 6])
    ensures h.Valid() && CsrcBytes(h.csrc) == [5, 6, 7, 8] && ExtBytes(h) == [0xBE, 0xDE, 0, 1, 9, 8, 7, 6]
  {
    hide Big16, Big32;
    WordExamples();
    assert h.csrc[..0] == [];
  }

  /** Exactly the packets that are refused: too short, of another version, or too short for their sources. */
  lemma HeaderRefused(buf: seq<byte>)
    ensures DecodeHeader(buf).Err? <==>
              |buf| < 12 || !(128 <= buf[0] < 192) || |buf| < 12 + 4 * (buf[0] % 16)
  {
    hide Big16At, Big32At;
  }

  // ---- The receiver's own packets ----

  /** A packet that carries the receiver's own source changes nothing. */
  lemma OwnPacketIgnored(keys: Keys, tagLen: nat, selfSsrc: int, r: Receiver, s: Sent)
    requires keys.Valid() && tagLen <= 20 && s.Valid() && s.packet.header.ssrc == selfSsrc
    ensures |Protected(keys, tagLen, s.packet, s.index)| >= 12
    ensures Handle(keys, tagLen, selfSsrc, r, Protected(keys, tagLen, s.packet, s.index)) == (r, None)
  {
    hide Open, Protected, Big32At;
    SsrcOnWire(keys, tagLen, s.packet, s.index);
  }
}
