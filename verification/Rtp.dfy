/** RTP headers and sessions (src/voip/media/rtp.go; section 5.1 of RFC 3550). */
module Rtp {
  import opened Wrappers
  import opened Bytes

  const RTP_VERSION := 2
  const RTP_MIN_HEADER_SIZE := 12

  datatype RtpHeader = RtpHeader(
    version: int, padding: bool, extension: bool, csrcCount: int, marker: bool, payloadType: int,
    sequenceNumber: int, timestamp: int, ssrc: int, csrc: seq<int>, extensionProfile: int, extensionData: seq<byte>)
  {
    /** Field widths, and as many sources as the count says. */
    predicate Valid() {
      && 0 <= version < 256 && 0 <= payloadType < 256 && 0 <= extensionProfile < 0x1_0000
      && 0 <= sequenceNumber < 0x1_0000 && 0 <= timestamp < 0x1_0000_0000 && 0 <= ssrc < 0x1_0000_0000
      && |csrc| == csrcCount < 256
      && forall i :: 0 <= i < |csrc| ==> 0 <= csrc[i] < 0x1_0000_0000
    }

    function Size(): int {
      RTP_MIN_HEADER_SIZE + csrcCount * 4 + if extension then 4 + |extensionData| else 0
    }

    /** The headers that the wire format can express. */
    predicate Canonical() {
      && version == RTP_VERSION && csrcCount < 16 && payloadType < 128
      && (if extension then |extensionData| % 4 == 0 && |extensionData| / 4 < 0x1_0000
          else extensionProfile == 0 && extensionData == [])
    }
  }

  function NewRtpHeader(payloadType: int, seq_: int, ts: int, ssrc: int): RtpHeader {
    RtpHeader(RTP_VERSION, false, false, 0, false, payloadType, seq_, ts, ssrc, [], 0, [])
  }

  function Big16(x: nat): (b: seq<byte>)
    ensures |b| == 2
  {
    [x / 256 % 256, x % 256]
  }

  function Big32(x: nat): (b: seq<byte>)
    ensures |b| == 4
  {
    Big16(x / 0x1_0000) + Big16(x % 0x1_0000)
  }

  function Big16At(buf: seq<byte>, i: nat): (v: nat)
    requires i + 2 <= |buf|
    ensures v < 0x1_0000
  {
    var hi: int, lo: int := buf[i], buf[i + 1];
    hi * 256 + lo
  }

  function Big32At(buf: seq<byte>, i: nat): (v: nat)
    requires i + 4 <= |buf|
    ensures v < 0x1_0000_0000
  {
    Big16At(buf, i) * 0x1_0000 + Big16At(buf, i + 2)
  }

  function BoolBit(b: bool): (r: byte)
    ensures r <= 1
  {
    if b then 1 else 0
  }

  // ---- The wire format ----

  function FirstBytes(h: RtpHeader): (b: seq<byte>)
    requires h.Valid()
    ensures |b| == 12
  {
    [h.version % 4 * 64 + BoolBit(h.padding) * 32 + BoolBit(h.extension) * 16 + h.csrcCount % 16,
     BoolBit(h.marker) * 128 + h.payloadType % 128]
    + Big16(h.sequenceNumber) + Big32(h.timestamp) + Big32(h.ssrc)
  }

  function CsrcBytes(csrc: seq<int>): (b: seq<byte>)
    requires forall i :: 0 <= i < |csrc| ==> 0 <= csrc[i]
    ensures |b| == 4 * |csrc|
  {
    if |csrc| == 0 then [] else CsrcBytes(csrc[..|csrc| - 1]) + Big32(csrc[|csrc| - 1])
  }

  function ExtBytes(h: RtpHeader): seq<byte>
    requires h.Valid()
  {
    if h.extension then Big16(h.extensionProfile) + Big16(|h.extensionData| / 4 % 0x1_0000) + h.extensionData else []
  }

  function HeaderBytes(h: RtpHeader): (b: seq<byte>)
    requires h.Valid()
    ensures |b| == h.Size()
  {
    FirstBytes(h) + CsrcBytes(h.csrc) + ExtBytes(h)
  }

  /** Writes bytes at off, leaving the rest of the buffer. */
  method Put(buf: array<byte>, off: nat, bytes: seq<byte>) returns (next: nat)
    requires off + |bytes| <= buf.Length
    modifies buf
    ensures next == off + |bytes|
    ensures buf[..next] == old(buf[..off]) + bytes && buf[next..] == old(buf[next..])
  {
    forall i | 0 <= i < |bytes| {
      buf[off + i] := bytes[i];
    }
    next := off + |bytes|;
  }

  /** RtpHeader.Encode: the header's bytes at the front of the buffer, or an error if it is too small. */
  method EncodeHeader(h: RtpHeader, buf: array<byte>) returns (ok: bool)
    requires h.Valid()
    modifies buf
    ensures ok <==> buf.Length >= h.Size()
    ensures !ok ==> buf[..] == old(buf[..])
    ensures ok ==> buf[..] == HeaderBytes(h) + old(buf[h.Size()..])
  {
    if buf.Length < h.Size() {
      return false;
    }
    hide CsrcBytes, Big16, Big32;
    ghost var was := buf[..];
    var offset := Put(buf, 0, FirstBytes(h));
    CsrcNone();
    for k := 0 to |h.csrc|
      invariant offset == 12 + 4 * k && buf[..offset] == FirstBytes(h) + CsrcBytes(h.csrc[..k])
      invariant buf[offset..] == was[offset..]
    {
      CsrcPush(h.csrc, k, FirstBytes(h));
      offset := Put(buf, offset, Big32(h.csrc[k]));
    }
    assert h.csrc[..|h.csrc|] == h.csrc;
    offset := PutExtension(h, buf, offset);
    assert buf[..] == buf[..offset] + buf[offset..];
    return true;
  }

  method PutExtension(h: RtpHeader, buf: array<byte>, offset: nat) returns (next: nat)
    requires h.Valid() && offset + |ExtBytes(h)| <= buf.Length
    modifies buf
    ensures next == offset + |ExtBytes(h)|
    ensures buf[..next] == old(buf[..offset]) + ExtBytes(h) && buf[next..] == old(buf[next..])
  {
    hide Big16;
    next := offset;
    if h.extension {
      next := Put(buf, next, Big16(h.extensionProfile));
      next := Put(buf, next, Big16(|h.extensionData| / 4 % 0x1_0000));
      next := Put(buf, next, h.extensionData);
    }
  }

  lemma CsrcNone()
    ensures CsrcBytes([]) == []
  {
  }

  lemma CsrcPush(csrc: seq<int>, k: nat, front: seq<byte>)
    requires k < |csrc| && forall i :: 0 <= i < |csrc| ==> 0 <= csrc[i]
    ensures front + CsrcBytes(csrc[..k + 1]) == front + CsrcBytes(csrc[..k]) + Big32(csrc[k])
  {
    hide Big32;
    assert csrc[..k + 1][..k] == csrc[..k];
  }

  function CsrcAt(buf: seq<byte>, n: nat): (csrc: seq<int>)
    requires 12 + 4 * n <= |buf|
    ensures |csrc| == n
  {
    if n == 0 then [] else CsrcAt(buf, n - 1) + [Big32At(buf, 12 + 4 * (n - 1))]
  }

  /** The extension at offset: its profile and data, which stay empty where the buffer ends too soon. */
  function ExtAt(buf: seq<byte>, offset: nat): (int, seq<byte>) {
    if |buf| < offset + 4 then (0, [])
    else
      var n := Big16At(buf, offset + 2) * 4;
      (Big16At(buf, offset), if |buf| >= offset + 4 + n then buf[offset + 4..offset + 4 + n] else [])
  }

  function DecodeHeader(buf: seq<byte>): Result<RtpHeader> {
    if |buf| < RTP_MIN_HEADER_SIZE || buf[0] / 64 != RTP_VERSION then Err
    else if |buf| < 12 + buf[0] % 16 * 4 then Err
    else
      var n := buf[0] % 16;
      var ext := buf[0] / 16 % 2 != 0;
      var e := if ext then ExtAt(buf, 12 + 4 * n) else (0, []);
      Ok(RtpHeader(buf[0] / 64, buf[0] / 32 % 2 != 0, ext, n, buf[1] / 128 != 0, buf[1] % 128,
                   Big16At(buf, 2), Big32At(buf, 4), Big32At(buf, 8), CsrcAt(buf, n), e.0, e.1))
  }

  method DecodeRtpHeader(buf: seq<byte>) returns (res: Result<RtpHeader>)
    ensures res == DecodeHeader(buf)
    ensures res.Ok? ==> res.value.Valid() && res.value.version == RTP_VERSION
  {
    hide Big16At, Big32At;
    if |buf| < RTP_MIN_HEADER_SIZE {
      return Err;
    }
    var version := buf[0] / 64;
    if version != RTP_VERSION {
      return Err;
    }
    var csrcCount: int := buf[0] % 16;
    if |buf| < RTP_MIN_HEADER_SIZE + csrcCount * 4 {
      return Err;
    }
    var csrc := [];
    var offset := 12;
    for i := 0 to csrcCount
      invariant offset == 12 + 4 * i && csrc == CsrcAt(buf, i)
      invariant forall j :: 0 <= j < i ==> 0 <= csrc[j] < 0x1_0000_0000
    {
      csrc := csrc + [Big32At(buf, offset)];
      offset := offset + 4;
    }
    var extension := buf[0] / 16 % 2 != 0;
    var profile, data: seq<byte> := 0, [];
    if extension && |buf| >= offset + 4 {
      profile := Big16At(buf, offset);
      var extBytes := Big16At(buf, offset + 2) * 4;
      offset := offset + 4;
      if |buf| >= offset + extBytes {
        data := buf[offset..offset + extBytes];
      }
    }
    return Ok(RtpHeader(version, buf[0] / 32 % 2 != 0, extension, csrcCount, buf[1] / 128 != 0, buf[1] % 128,
                        Big16At(buf, 2), Big32At(buf, 4), Big32At(buf, 8), csrc, profile, data));
  }

  // ---- Round trip ----

  lemma Big16Back(x: nat, pre: seq<byte>, post: seq<byte>)
    ensures Big16At(pre + Big16(x) + post, |pre|) == x % 0x1_0000
  {
    var buf := pre + Big16(x) + post;
    assert buf[|pre|] == x / 256 % 256 && buf[|pre| + 1] == x % 256;
    TwoDigits(x);
  }

  lemma TwoDigits(x: nat)
    ensures x / 256 % 256 * 256 + x % 256 == x % 0x1_0000
  {
  }

  lemma Big32Back(x: nat, pre: seq<byte>, post: seq<byte>)
    requires x < 0x1_0000_0000
    ensures Big32At(pre + Big32(x) + post, |pre|) == x
  {
    hide Big16, Big16At;
    var hi, lo := Big16(x / 0x1_0000), Big16(x % 0x1_0000);
    assert pre + Big32(x) + post == pre + hi + (lo + post);
    assert pre + Big32(x) + post == (pre + hi) + lo + post;
    Big16Back(x / 0x1_0000, pre, lo + post);
    Big16Back(x % 0x1_0000, pre + hi, post);
  }

  lemma {:induction false} CsrcBack(csrc: seq<int>, pre: seq<byte>, post: seq<byte>)
    requires |pre| == 12 && forall i :: 0 <= i < |csrc| ==> 0 <= csrc[i] < 0x1_0000_0000
    ensures CsrcAt(pre + CsrcBytes(csrc) + post, |csrc|) == csrc
    decreases |csrc|
  {
    hide Big32, Big32At;
    if |csrc| > 0 {
      var front, last := csrc[..|csrc| - 1], csrc[|csrc| - 1];
      CsrcBack(front, pre, Big32(last) + post);
      assert pre + CsrcBytes(csrc) + post == pre + CsrcBytes(front) + (Big32(last) + post);
      assert pre + CsrcBytes(csrc) + post == (pre + CsrcBytes(front)) + Big32(last) + post;
      Big32Back(last, pre + CsrcBytes(front), post);
    }
  }

  lemma ExtBack(h: RtpHeader, pre: seq<byte>, post: seq<byte>)
    requires h.Valid() && h.extension
    ensures ExtAt(pre + ExtBytes(h) + post, |pre|)
            == (h.extensionProfile, h.extensionData[..|h.extensionData| / 4 % 0x1_0000 * 4])
  {
    hide Big16, Big16At;
    var p, w, d := Big16(h.extensionProfile), Big16(|h.extensionData| / 4 % 0x1_0000), h.extensionData;
    var buf := pre + ExtBytes(h) + post;
    assert buf == pre + p + (w + d + post) && buf == (pre + p) + w + (d + post);
    Big16Back(h.extensionProfile, pre, w + d + post);
    Big16Back(|d| / 4 % 0x1_0000, pre + p, d + post);
    var n := |d| / 4 % 0x1_0000 * 4;
    assert buf[|pre| + 4..] == d + post;
    assert buf[|pre| + 4..|pre| + 4 + n] == buf[|pre| + 4..][..n] == d[..n];
  }

  lemma FirstBack(h: RtpHeader, post: seq<byte>)
    requires h.Valid()
    ensures var buf := FirstBytes(h) + post;
            && buf[0] == h.version % 4 * 64 + BoolBit(h.padding) * 32 + BoolBit(h.extension) * 16 + h.csrcCount % 16
            && buf[1] == BoolBit(h.marker) * 128 + h.payloadType % 128
            && Big16At(buf, 2) == h.sequenceNumber && Big32At(buf, 4) == h.timestamp && Big32At(buf, 8) == h.ssrc
  {
    hide Big16, Big32, Big16At, Big32At;
    var b := FirstBytes(h)[..2];
    var s, t, r := Big16(h.sequenceNumber), Big32(h.timestamp), Big32(h.ssrc);
    var buf := FirstBytes(h) + post;
    assert buf == b + s + (t + r + post) && buf == (b + s) + t + (r + post) && buf == (b + s + t) + r + post;
    Big16Back(h.sequenceNumber, b, t + r + post);
    Big32Back(h.timestamp, b + s, r + post);
    Big32Back(h.ssrc, b + s + t, post);
  }

  /** What a receiver reads in place of h: the wire format's narrower fields. */
  function OnWire(h: RtpHeader): RtpHeader
    requires h.Valid()
  {
    h.(version := h.version % 4, payloadType := h.payloadType % 128,
       extensionProfile := if h.extension then h.extensionProfile else 0,
       extensionData := if h.extension then h.extensionData[..|h.extensionData| / 4 % 0x1_0000 * 4] else [])
  }

  lemma DecodeWire(h: RtpHeader, rest: seq<byte>)
    requires h.Valid() && h.csrcCount < 16
    ensures DecodeHeader(HeaderBytes(h) + rest) == if h.version % 4 == RTP_VERSION then Ok(OnWire(h)) else Err
  {
    hide Big16, Big32, Big16At, Big32At, FirstBytes, CsrcBytes, CsrcAt, ExtBytes, ExtAt;
    var f, c, e := FirstBytes(h), CsrcBytes(h.csrc), ExtBytes(h);
    var buf := HeaderBytes(h) + rest;
    assert buf == f + (c + e + rest) && buf == f + c + (e + rest) && buf == (f + c) + e + rest;
    FirstBack(h, c + e + rest);
    CsrcBack(h.csrc, f, e + rest);
    if h.extension {
      ExtBack(h, f + c, rest);
    }
    TopBits(h, buf[0], buf[1]);
  }

  lemma TopBits(h: RtpHeader, b0: int, b1: int)
    requires h.Valid() && h.csrcCount < 16
    requires b0 == h.version % 4 * 64 + BoolBit(h.padding) * 32 + BoolBit(h.extension) * 16 + h.csrcCount % 16
    requires b1 == BoolBit(h.marker) * 128 + h.payloadType % 128
    ensures b0 / 64 == h.version % 4 && (b0 / 32 % 2 != 0) == h.padding && (b0 / 16 % 2 != 0) == h.extension
    ensures b0 % 16 == h.csrcCount && (b1 / 128 != 0) == h.marker && b1 % 128 == h.payloadType % 128
  {
    FirstByteFields(h.version % 4, BoolBit(h.padding), BoolBit(h.extension), h.csrcCount);
    SecondByteFields(BoolBit(h.marker), h.payloadType % 128);
  }

  lemma FirstByteFields(v: nat, p: nat, x: nat, c: nat)
    requires p < 2 && x < 2 && c < 16
    ensures var b := v * 64 + p * 32 + x * 16 + c; b / 64 == v && b / 32 % 2 == p && b / 16 % 2 == x && b % 16 == c
  {
    var b := v * 64 + p * 32 + x * 16 + c;
    DivUnique(b, 64, v, p * 32 + x * 16 + c);
    DivUnique(b, 32, v * 2 + p, x * 16 + c);
    DivUnique(b, 16, v * 4 + p * 2 + x, c);
  }

  lemma SecondByteFields(m: nat, t: nat)
    requires t < 128
    ensures (m * 128 + t) / 128 == m && (m * 128 + t) % 128 == t
  {
    DivUnique(m * 128 + t, 128, m, t);
  }

  /** A header comes back from its bytes, whatever follows them, exactly when the wire format can express it. */
  lemma HeaderRoundTripIff(h: RtpHeader, rest: seq<byte>)
    requires h.Valid()
    ensures DecodeHeader(HeaderBytes(h) + rest) == Ok(h) <==> h.Canonical()
  {
    hide FirstBytes, CsrcBytes, ExtBytes, HeaderBytes, ExtAt, CsrcAt, Big16At, Big32At;
    if h.csrcCount < 16 {
      DecodeWire(h, rest);
      if h.extension {
        ShortenedIff(h.extensionData);
      }
    }
  }

  /** A one-byte extension, which a session never sends but a caller may ask for, arrives empty. */
  lemma ExtensionCut(ts: int, ssrc: int)
    requires 0 <= ts < 0x1_0000_0000 && 0 <= ssrc < 0x1_0000_0000
    ensures var h := NewRtpHeader(97, 0, ts, ssrc).(extension := true, extensionData := [7]);
            h.Valid() && DecodeHeader(HeaderBytes(h)) == Ok(h.(extensionData := []))
  {
    hide HeaderBytes, DecodeHeader;
    var h := NewRtpHeader(97, 0, ts, ssrc).(extension := true, extensionData := [7]);
    DecodeWire(h, []);
    assert HeaderBytes(h) + [] == HeaderBytes(h);
    assert [7][..0] == [];
  }

  lemma ShortenedIff(d: seq<byte>)
    ensures d[..|d| / 4 % 0x1_0000 * 4] == d <==> |d| % 4 == 0 && |d| / 4 < 0x1_0000
  {
    var n := |d| / 4 % 0x1_0000 * 4;
    assert d[..n] == d <==> n == |d|;
  }

  // ---- Sessions ----

  datatype RtpPacket = RtpPacket(header: RtpHeader, payload: seq<byte>)

  class RtpSession {
    const ssrc: int
    const payloadType: int
    var sequenceNumber: int
    var timestamp: int

    ghost predicate Valid()
      reads this
    {
      && 0 <= ssrc < 0x1_0000_0000 && 0 <= payloadType < 128
      && 0 <= sequenceNumber < 0x1_0000 && 0 <= timestamp < 0x1_0000_0000
    }

    /** The first sequence number and timestamp are drawn at random. */
    constructor (ssrc: int, payloadType: int, seq0: int, ts0: int)
      requires 0 <= ssrc < 0x1_0000_0000 && 0 <= payloadType < 128
      requires 0 <= seq0 < 0x1_0000 && 0 <= ts0 < 0x1_0000_0000
      ensures Valid() && this.ssrc == ssrc && this.payloadType == payloadType
      ensures sequenceNumber == seq0 && timestamp == ts0
    {
      this.ssrc, this.payloadType := ssrc, payloadType;
      sequenceNumber, timestamp := seq0, ts0;
    }

    method AdvanceTimestamp(samples: nat)
      requires Valid()
      modifies `timestamp
      ensures Valid() && timestamp == U32(old(timestamp) + samples)
    {
      timestamp := U32(timestamp + samples);
    }

    method CreatePacketWithDuration(payload: seq<byte>, durationSamples: int, marker: bool) returns (p: RtpPacket)
      requires Valid()
      modifies `sequenceNumber, `timestamp
      ensures Valid() && p.payload == payload
      ensures p.header == NewRtpHeader(payloadType, old(sequenceNumber), old(timestamp), ssrc).(marker := marker)
      ensures p.header.Valid() && p.header.Canonical()
      ensures sequenceNumber == (old(sequenceNumber) + 1) % 0x1_0000
      ensures timestamp == U32(old(timestamp) + durationSamples)
    {
      var header := NewRtpHeader(payloadType, sequenceNumber, timestamp, ssrc).(marker := marker);
      sequenceNumber := (sequenceNumber + 1) % 0x1_0000;
      timestamp := U32(timestamp + U32(durationSamples));
      p := RtpPacket(header, payload);
    }
  }
}
