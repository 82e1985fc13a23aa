/**
 * SRTP packet protection (src/voip/media/srtp.go; RFC 3711).  The block cipher and the MAC are
 * functions the model knows nothing about; what is proved is how they are used.
 */
module Srtp {
  import opened Wrappers
  import opened Bytes
  import opened Rtp

  // ---- Exclusive or ----

  function Xor(a: nat, b: nat, bits: nat): (r: nat)
    ensures r < Pow2(bits)
  {
    if bits == 0 then 0 else (a % 2 + b % 2) % 2 + 2 * Xor(a / 2, b / 2, bits - 1)
  }

  function XorByte(a: byte, b: byte): (r: byte) {
    assert Pow2(8) == 256 by { assert Pow2(4) == 16; }
    Xor(a, b, 8)
  }

  lemma {:induction false} XorTwice(a: nat, k: nat, bits: nat)
    requires a < Pow2(bits)
    ensures Xor(Xor(a, k, bits), k, bits) == a
  {
    if bits > 0 {
      HalfBound(a, bits);
      hide Xor, Pow2;
      XorTwice(a / 2, k / 2, bits - 1);
      XorHalf(a, k, bits);
      XorHalf(Xor(a, k, bits), k, bits);
      BitTwice(a % 2, k % 2);
    } else {
      assert Pow2(0) == 1;
    }
  }

  lemma HalfBound(a: nat, bits: nat)
    requires bits > 0 && a < Pow2(bits)
    ensures a / 2 < Pow2(bits - 1)
  {
  }

  lemma LowBit(low: nat, x: nat)
    requires low < 2
    ensures (low + 2 * x) / 2 == x && (low + 2 * x) % 2 == low
  {
  }

  lemma BitTwice(a: nat, k: nat)
    requires a < 2 && k < 2
    ensures ((a + k) % 2 + k) % 2 == a
  {
  }

  lemma XorByteTwice(a: byte, k: byte)
    ensures XorByte(XorByte(a, k), k) == a
  {
    assert Pow2(8) == 256 by { assert Pow2(4) == 16; }
    XorTwice(a, k, 8);
  }

  // ---- The initialisation vector ----

  function Big48(x: nat): (b: seq<byte>)
    ensures |b| == 6
  {
    Big16(x / 0x1_0000_0000) + Big32(x % 0x1_0000_0000)
  }

  /** What is xor-ed onto the padded salt: the source at bytes 4 to 7, the index at bytes 8 to 13. */
  function IvMask(ssrc: nat, index: nat): (m: seq<byte>)
    ensures |m| == 16
  {
    [0, 0, 0, 0] + Big32(ssrc) + Big48(index) + [0, 0]
  }

  function XorAll(a: seq<byte>, b: seq<byte>): (r: seq<byte>)
    requires |a| == |b|
    ensures |r| == |a|
  {
    seq(|a|, i requires 0 <= i < |a| => XorByte(a[i], b[i]))
  }

  function Iv(salt: seq<byte>, ssrc: nat, index: nat): (iv: seq<byte>)
    requires |salt| == 14
    ensures |iv| == 16
  {
    XorAll(salt + [0, 0], IvMask(ssrc, index))
  }

  /** iv[off + i] ^= mask[i]. */
  method XorInto(iv: array<byte>, off: nat, mask: seq<byte>)
    requires off + |mask| <= iv.Length
    modifies iv
    ensures iv[..] == old(iv[..off]) + XorAll(old(iv[off..off + |mask|]), mask) + old(iv[off + |mask|..])
  {
    for i := 0 to |mask|
      invariant forall j :: 0 <= j < i ==> iv[off + j] == XorByte(old(iv[off + j]), mask[j])
      invariant forall j :: 0 <= j < iv.Length && !(off <= j < off + i) ==> iv[j] == old(iv[j])
    {
      iv[off + i] := XorByte(iv[off + i], mask[i]);
    }
  }

  method GenerateIV(salt: seq<byte>, ssrc: nat, index: nat) returns (iv: seq<byte>)
    requires |salt| == 14 && index < INDICES
    ensures iv == Iv(salt, ssrc, index)
  {
    hide XorAll, Iv, Big32, Big48;
    var a := new byte[16](i => 0);
    var _ := Put(a, 0, salt);
    assert a[..] == salt + [0, 0] by {
      assert a[..] == a[..14] + a[14..];
    }
    ghost var was := a[..];
    XorInto(a, 4, Big32(ssrc));
    assert was[..4] == salt[..4] && was[4..8] == salt[4..8] && was[8..] == salt[8..] + [0, 0];
    ghost var mid := a[..];
    assert mid == salt[..4] + XorAll(salt[4..8], Big32(ssrc)) + (salt[8..] + [0, 0]);
    XorInto(a, 8, Big48(index));
    MiddleSlices(salt, XorAll(salt[4..8], Big32(ssrc)));
    IvParts(salt, ssrc, index);
    iv := a[..];
  }

  lemma MiddleSlices(salt: seq<byte>, x: seq<byte>)
    requires |salt| == 14 && |x| == 4
    ensures var mid := salt[..4] + x + (salt[8..] + [0, 0]);
            mid[..8] == salt[..4] + x && mid[8..14] == salt[8..14] && mid[14..] == [0, 0]
  {
  }

  /** The mask's zero bytes leave the salt as it is. */
  lemma IvParts(salt: seq<byte>, ssrc: nat, index: nat)
    requires |salt| == 14
    ensures Iv(salt, ssrc, index)
            == salt[..4] + XorAll(salt[4..8], Big32(ssrc)) + XorAll(salt[8..14], Big48(index)) + [0, 0]
  {
    hide XorByte, Big32, Big48;
    forall i | 0 <= i < 4 ensures XorByte(salt[i], 0) == salt[i] {
      XorZero(salt[i]);
    }
    XorZero(0);
    var m := IvMask(ssrc, index);
    assert forall i :: 0 <= i < 4 ==> m[4 + i] == Big32(ssrc)[i];
    assert forall i :: 0 <= i < 6 ==> m[8 + i] == Big48(index)[i];
  }

  lemma XorZero(a: byte)
    ensures XorByte(a, 0) == a
  {
    assert Pow2(8) == 256 by { assert Pow2(4) == 16; }
    XorZeroBits(a, 8);
  }

  lemma {:induction false} XorZeroBits(a: nat, bits: nat)
    requires a < Pow2(bits)
    ensures Xor(a, 0, bits) == a
  {
    if bits > 0 {
      XorZeroBits(a / 2, bits - 1);
    }
  }

  lemma {:induction false} XorAllInjective(s: seq<byte>, a: seq<byte>, b: seq<byte>)
    requires |s| == |a| == |b| && XorAll(s, a) == XorAll(s, b)
    ensures a == b
  {
    hide XorByte;
    forall i | 0 <= i < |a| ensures a[i] == b[i] {
      assert XorAll(s, a)[i] == XorAll(s, b)[i];
      XorCommutes(s[i], a[i]);
      XorCommutes(s[i], b[i]);
      XorByteTwice(a[i], s[i]);
      XorByteTwice(b[i], s[i]);
    }
  }

  lemma XorCommutes(a: byte, b: byte)
    ensures XorByte(a, b) == XorByte(b, a)
  {
    XorCommutesBits(a, b, 8);
  }

  lemma {:induction false} XorCommutesBits(a: nat, b: nat, bits: nat)
    ensures Xor(a, b, bits) == Xor(b, a, bits)
  {
    if bits > 0 {
      XorCommutesBits(a / 2, b / 2, bits - 1);
    }
  }

  /** Exclusive or, bit by bit. */
  lemma {:induction false} XorBit(a: nat, k: nat, bits: nat, j: nat)
    requires j < bits
    ensures Xor(a, k, bits) / Pow2(j) % 2 == (a / Pow2(j) % 2 + k / Pow2(j) % 2) % 2
  {
    hide Xor, Pow2;
    XorHalf(a, k, bits);
    if j > 0 {
      XorBit(a / 2, k / 2, bits - 1, j - 1);
      HalfFirst(Xor(a, k, bits), j);
      HalfFirst(a, j);
      HalfFirst(k, j);
    } else {
      WholeBit(Xor(a, k, bits));
      WholeBit(a);
      WholeBit(k);
    }
  }

  lemma XorHalf(a: nat, k: nat, bits: nat)
    requires bits > 0
    ensures Xor(a, k, bits) / 2 == Xor(a / 2, k / 2, bits - 1) && Xor(a, k, bits) % 2 == (a % 2 + k % 2) % 2
  {
    LowBit((a % 2 + k % 2) % 2, Xor(a / 2, k / 2, bits - 1));
  }

  lemma WholeBit(x: nat)
    ensures x / Pow2(0) == x
  {
  }

  lemma HalfFirst(x: nat, j: nat)
    requires j > 0
    ensures x / Pow2(j) == x / 2 / Pow2(j - 1)
  {
    var p := Pow2(j - 1);
    DivMod(x / 2, p);
    DivBounds(x / 2, p);
    var q, r := x / 2 / p, x / 2 % p;
    assert x == q * (2 * p) + (2 * r + x % 2);
    DivUnique(x, 2 * p, q, 2 * r + x % 2);
  }

  lemma ZeroSalt(ssrc: nat, index: nat)
    ensures Iv([0, 0, 0, 0, 0, 0, 0, 0, 0, 0, 0, 0, 0, 0], ssrc, index) == IvMask(ssrc, index)
  {
    hide XorByte, IvMask;
    var m := IvMask(ssrc, index);
    forall i | 0 <= i < 16 ensures XorByte(0, m[i]) == m[i] {
      XorCommutes(0, m[i]);
      XorZero(m[i]);
    }
  }

  /** Where source and index stand in the vector (section 4.1.1 of RFC 3711), on an example. */
  lemma IvExample()
    ensures Iv([0, 0, 0, 0, 0, 0, 0, 0, 0, 0, 0, 0, 0, 0], 0x0102_0304, 0x0A0B_0C0D_0E0F)
            == [0, 0, 0, 0, 1, 2, 3, 4, 0x0A, 0x0B, 0x0C, 0x0D, 0x0E, 0x0F, 0, 0]
  {
    hide Iv, Big32, Big48;
    ZeroSalt(0x0102_0304, 0x0A0B_0C0D_0E0F);
    BigExamples();
  }

  lemma BigExamples()
    ensures Big32(0x0102_0304) == [1, 2, 3, 4]
    ensures Big48(0x0A0B_0C0D_0E0F) == [0x0A, 0x0B, 0x0C, 0x0D, 0x0E, 0x0F]
  {
    assert Big32(0x0C0D_0E0F) == [0x0C, 0x0D, 0x0E, 0x0F] && Big16(0x0A0B) == [0x0A, 0x0B];
  }

  /** No two packets share an initialisation vector unless they share source and index. */
  lemma IvInjective(salt: seq<byte>, ssrc: nat, index: nat, ssrc': nat, index': nat)
    requires |salt| == 14 && ssrc < 0x1_0000_0000 && ssrc' < 0x1_0000_0000
    requires index < INDICES && index' < INDICES
    requires Iv(salt, ssrc, index) == Iv(salt, ssrc', index')
    ensures ssrc == ssrc' && index == index'
  {
    hide XorAll, Big16, Big32, Big16At, Big32At;
    XorAllInjective(salt + [0, 0], IvMask(ssrc, index), IvMask(ssrc', index'));
    MaskFields(ssrc, index);
    MaskFields(ssrc', index');
  }

  lemma MaskFields(ssrc: nat, index: nat)
    requires ssrc < 0x1_0000_0000 && index < INDICES
    ensures var m := IvMask(ssrc, index);
            Big32At(m, 4) == ssrc && Big16At(m, 8) * 0x1_0000_0000 + Big32At(m, 10) == index
  {
    hide Big16, Big32, Big16At, Big32At;
    var m, z := IvMask(ssrc, index), [0, 0, 0, 0];
    var s, hi, lo := Big32(ssrc), Big16(index / 0x1_0000_0000), Big32(index % 0x1_0000_0000);
    assert m == z + s + (hi + lo + [0, 0]) && m == (z + s) + hi + (lo + [0, 0]) && m == (z + s + hi) + lo + [0, 0];
    Big32Back(ssrc, z, hi + lo + [0, 0]);
    Big16Back(index / 0x1_0000_0000, z + s, lo + [0, 0]);
    Big32Back(index % 0x1_0000_0000, z + s + hi, [0, 0]);
  }

  // ---- The packet index ----

  /** How many indices there are: 32 bits of rollover above 16 bits of sequence number. */
  const INDICES := 0x1_0000_0000_0000

  /** The rollover counter and the last sequence number. */
  datatype Rollover = Rollover(roc: nat, lastSeq: nat, initialized: bool)
  {
    predicate Valid() {
      roc < 0x1_0000_0000 && lastSeq < 0x1_0000 && (!initialized ==> roc == 0)
    }

    function Index(): nat {
      roc * 0x1_0000 + lastSeq
    }

    /** updateRoc. */
    function Update(seq_: nat): Rollover {
      if !initialized then Rollover(roc, seq_, true)
      else Rollover(if seq_ - lastSeq < -32768 then U32(roc + 1) else roc, seq_, true)
    }
  }

  /** A sender that numbers its packets consecutively moves the index by exactly one. */
  lemma SenderStep(s: Rollover)
    requires s.Valid() && s.initialized
    ensures var t := s.Update((s.lastSeq + 1) % 0x1_0000);
            t.Valid() && t.initialized && t.Index() == (s.Index() + 1) % INDICES
  {
    var i := s.Index() + 1;
    if s.lastSeq < 0xFFFF {
      DivUnique(s.lastSeq + 1, 0x1_0000, 0, s.lastSeq + 1);
      DivUnique(i, INDICES, 0, i);
    } else if s.roc < 0xFFFF_FFFF {
      DivUnique(s.roc + 1, 0x1_0000_0000, 0, s.roc + 1);
      DivUnique(i, INDICES, 0, i);
    } else {
      DivUnique(i, INDICES, 1, 0);
    }
  }

  /** The packets that a receiver in state s places correctly. */
  predicate Places(s: Rollover, index: nat) {
    if !s.initialized then index < 0x1_0000
    else
      var q, ahead := index / 0x1_0000, index % 0x1_0000 - s.lastSeq;
      (q == s.roc && ahead >= -0x8000) || (q == U32(s.roc + 1) && ahead < -0x8000)
  }

  /**
   * A receiver that sees only the low half of an index works it out correctly exactly when it lies
   * in its own rollover period and not too far back, or in the next one and not too far ahead.
   * A packet from before the last wrap is always misplaced.
   */
  lemma ReceiverStepIff(s: Rollover, index: nat)
    requires s.Valid() && index < INDICES
    ensures s.Update(index % 0x1_0000).Index() == index <==> Places(s, index)
    ensures s.Update(index % 0x1_0000).Valid()
  {
    var q, r := index / 0x1_0000, index % 0x1_0000;
    assert index == q * 0x1_0000 + r;
  }

  /** In order and without a gap of 32768 or more, every packet is placed. */
  lemma InOrderPlaced(s: Rollover, index: nat)
    requires s.Valid() && s.initialized && s.Index() < index < s.Index() + 0x8000 && index < INDICES
    ensures Places(s, index)
  {
    var q, r := index / 0x1_0000, index % 0x1_0000;
    assert index == q * 0x1_0000 + r;
    assert q == s.roc || q == s.roc + 1;
  }

  /** A packet that is late by at most 32768 within one period is placed, whatever came after it. */
  lemma LatePlaced(s: Rollover, seq_: nat)
    requires s.Valid() && s.initialized && seq_ <= s.lastSeq <= seq_ + 32768
    ensures s.Update(seq_) == Rollover(s.roc, seq_, true) && Places(s, s.roc * 0x1_0000 + seq_)
  {
    DivUnique(s.roc * 0x1_0000 + seq_, 0x1_0000, s.roc, seq_);
  }

  /** The indices a receiver works out for a sequence of packets. */
  function Receive(s: Rollover, indices: seq<nat>): seq<nat>
    decreases |indices|
  {
    if |indices| == 0 then []
    else
      var t := s.Update(indices[0] % 0x1_0000);
      [t.Index()] + Receive(t, indices[1..])
  }

  /** Every packet of the sequence is placed by the state the ones before it leave. */
  predicate AllPlaced(s: Rollover, indices: seq<nat>)
    decreases |indices|
  {
    |indices| > 0 ==> Places(s, indices[0]) && AllPlaced(s.Update(indices[0] % 0x1_0000), indices[1..])
  }

  /** The state that a run of packets leaves. */
  function Follow(s: Rollover, indices: seq<nat>): Rollover
    decreases |indices|
  {
    if |indices| == 0 then s else Follow(s.Update(indices[0] % 0x1_0000), indices[1..])
  }

  lemma {:induction false} FollowPush(s: Rollover, indices: seq<nat>, index: nat)
    ensures Follow(s, indices + [index]) == Follow(s, indices).Update(index % 0x1_0000)
    ensures AllPlaced(s, indices + [index]) <==> AllPlaced(s, indices) && Places(Follow(s, indices), index)
    decreases |indices|
  {
    hide Places, Rollover.Update;
    if |indices| == 0 {
      assert [index][1..] == [];
    } else {
      assert (indices + [index])[1..] == indices[1..] + [index];
      FollowPush(s.Update(indices[0] % 0x1_0000), indices[1..], index);
    }
  }

  /** Over whole runs: the receiver's indices are the sender's exactly when every packet is placed. */
  lemma {:induction false} ReceiveIff(s: Rollover, indices: seq<nat>)
    requires s.Valid() && forall k :: 0 <= k < |indices| ==> indices[k] < INDICES
    ensures Receive(s, indices) == indices <==> AllPlaced(s, indices)
    decreases |indices|
  {
    if |indices| > 0 {
      var t := s.Update(indices[0] % 0x1_0000);
      ReceiverStepIff(s, indices[0]);
      ReceiveIff(t, indices[1..]);
      assert Receive(s, indices)[1..] == Receive(t, indices[1..]);
      assert indices == [indices[0]] + indices[1..];
    }
  }

  /** Increasing indices that start before the first wrap and never jump by 32768 or more. */
  predicate SmallGaps(s: Rollover, indices: seq<nat>) {
    && (|indices| > 0 ==> if s.initialized then s.Index() < indices[0] < s.Index() + 0x8000 else indices[0] < 0x1_0000)
    && forall k :: 0 < k < |indices| ==> indices[k - 1] < indices[k] < indices[k - 1] + 0x8000
  }

  lemma {:induction false} SmallGapsReceived(s: Rollover, indices: seq<nat>)
    requires s.Valid() && SmallGaps(s, indices)
    requires forall k :: 0 <= k < |indices| ==> indices[k] < INDICES
    ensures Receive(s, indices) == indices
    decreases |indices|
  {
    if |indices| > 0 {
      if s.initialized {
        InOrderPlaced(s, indices[0]);
      }
      ReceiverStepIff(s, indices[0]);
      var t := s.Update(indices[0] % 0x1_0000);
      assert SmallGaps(t, indices[1..]);
      SmallGapsReceived(t, indices[1..]);
    }
  }

  lemma DistinctMod(a: nat, b: nat, m: nat)
    requires 0 < m && a < b < a + m
    ensures a % m != b % m
  {
    DivMod(a, m);
    DivMod(b, m);
    if b / m > a / m {
      MulLe(a / m + 1, b / m, m);
    } else {
      MulLe(b / m, a / m, m);
    }
  }

  // ---- Packets ----

  /** A derived key set: the salt, the key stream of a vector, and the authentication tag of a string. */
  datatype Keys = Keys(salt: seq<byte>, stream: (seq<byte>, nat) -> byte, tag: seq<byte> -> seq<byte>)
  {
    ghost predicate Valid() {
      |salt| == 14 && forall d :: |tag(d)| == 20
    }
  }

  function XorStream(keys: Keys, iv: seq<byte>, data: seq<byte>): (r: seq<byte>)
    ensures |r| == |data|
  {
    seq<byte>(|data|, i requires 0 <= i < |data| => XorByte(data[i], keys.stream(iv, i)))
  }

  lemma XorStreamTwice(keys: Keys, iv: seq<byte>, data: seq<byte>)
    ensures XorStream(keys, iv, XorStream(keys, iv, data)) == data
  {
    hide XorByte;
    forall i | 0 <= i < |data| ensures XorStream(keys, iv, XorStream(keys, iv, data))[i] == data[i] {
      XorByteTwice(data[i], keys.stream(iv, i));
    }
  }

  /** The packet on the wire: header, encrypted payload, and a tag that also covers the rollover counter. */
  function Protected(keys: Keys, tagLen: nat, p: RtpPacket, index: nat): (out: seq<byte>)
    requires keys.Valid() && tagLen <= 20 && p.header.Valid()
    ensures |out| == p.header.Size() + |p.payload| + tagLen
  {
    var body := HeaderBytes(p.header) + XorStream(keys, Iv(keys.salt, p.header.ssrc, index), p.payload);
    body + keys.tag(body + Big32(index / 0x1_0000))[..tagLen]
  }

  /** What the bytes of a protected packet are, one by one. */
  ghost predicate Sealed(keys: Keys, tagLen: nat, p: RtpPacket, index: nat, wire: seq<byte>)
    requires keys.Valid() && tagLen <= 20 && p.header.Valid()
  {
    var size, end := p.header.Size(), p.header.Size() + |p.payload|;
    && |wire| == end + tagLen && wire[..size] == HeaderBytes(p.header)
    && (forall i :: 0 <= i < |p.payload| ==>
          wire[size + i] == XorByte(p.payload[i], keys.stream(Iv(keys.salt, p.header.ssrc, index), i)))
    && wire[end..] == keys.tag(wire[..end] + Big32(index / 0x1_0000))[..tagLen]
  }

  /** The payload is encrypted under source and full index; the tag covers the rollover counter. */
  lemma ProtectedIsSealed(keys: Keys, tagLen: nat, p: RtpPacket, index: nat)
    requires keys.Valid() && tagLen <= 20 && p.header.Valid()
    ensures Sealed(keys, tagLen, p, index, Protected(keys, tagLen, p, index))
  {
    hide Iv, XorByte, HeaderBytes, Big32;
    var h, iv := HeaderBytes(p.header), Iv(keys.salt, p.header.ssrc, index);
    var c := XorStream(keys, iv, p.payload);
    var tag := keys.tag(h + c + Big32(index / 0x1_0000))[..tagLen];
    var wire := Protected(keys, tagLen, p, index);
    assert wire == h + c + tag;
    assert wire[..|h|] == h && wire[..|h + c|] == h + c && wire[|h + c|..] == tag;
    forall i | 0 <= i < |p.payload| ensures wire[|h| + i] == XorByte(p.payload[i], keys.stream(iv, i)) {
      assert wire[|h| + i] == c[i];
    }
  }

  /** A packet read from data: its own header, and each byte decrypted under the receiver's index. */
  ghost predicate Deciphered(keys: Keys, tagLen: nat, index: nat, data: seq<byte>, p: RtpPacket)
    requires |keys.salt| == 14
  {
    var size := p.header.Size();
    && DecodeHeader(data) == Ok(p.header) && 0 <= size && 0 <= p.header.ssrc
    && |data| == size + |p.payload| + tagLen && |p.payload| > 0
    && forall i :: 0 <= i < |p.payload| ==>
         p.payload[i] == XorByte(data[size + i], keys.stream(Iv(keys.salt, p.header.ssrc, index), i))
  }

  lemma OpenDeciphers(keys: Keys, tagLen: nat, s: Rollover, data: seq<byte>)
    requires |keys.salt| == 14
    ensures var o := Open(keys, tagLen, s, data);
            && (o.1.Opened? ==> Deciphered(keys, tagLen, o.0.Index(), data, o.1.packet))
            && o.0 == if o.1.Opened? then s.Update(o.1.packet.header.sequenceNumber) else s
  {
    hide DecodeHeader, Iv, XorByte, Rollover.Update;
    var o := Open(keys, tagLen, s, data);
    if o.1.Opened? {
      var h, p := o.1.packet.header, o.1.packet.payload;
      var iv := Iv(keys.salt, h.ssrc, o.0.Index());
      var part := data[h.Size()..h.Size() + |p|];
      assert p == XorStream(keys, iv, part);
      forall i | 0 <= i < |p| ensures p[i] == XorByte(data[h.Size() + i], keys.stream(iv, i)) {
        assert part[i] == data[h.Size() + i];
      }
    }
  }

  datatype SrtpResult = Opened(packet: RtpPacket) | PacketTooShort | DecryptionFailed

  /** Unprotect: the state it leaves and what it returns.  The tag is cut off, not checked. */
  function Open(keys: Keys, tagLen: nat, s: Rollover, data: seq<byte>): (Rollover, SrtpResult)
    requires |keys.salt| == 14
  {
    if |data| < 12 then (s, PacketTooShort)
    else if DecodeHeader(data).Err? then (s, DecryptionFailed)
    else OpenBody(keys, tagLen, s, data, DecodeHeader(data).value)
  }

  function OpenBody(keys: Keys, tagLen: nat, s: Rollover, data: seq<byte>, h: RtpHeader): (Rollover, SrtpResult)
    requires |keys.salt| == 14
  {
    var payloadLen := |data| - h.Size() - tagLen;
    if payloadLen <= 0 || h.Size() < 0 || h.ssrc < 0 || h.sequenceNumber < 0 then (s, PacketTooShort)
    else
      var t := s.Update(h.sequenceNumber);
      var iv := Iv(keys.salt, h.ssrc, t.Index());
      (t, Opened(RtpPacket(h, XorStream(keys, iv, data[h.Size()..h.Size() + payloadLen]))))
  }

  class SrtpContext {
    const keys: Keys
    const authTagLen: nat
    var roc: nat
    var lastSeq: nat
    var initialized: bool

    ghost predicate Valid()
      reads this
    {
      keys.Valid() && authTagLen <= 20 && View().Valid()
    }

    function View(): Rollover
      reads this
    {
      Rollover(roc, lastSeq, initialized)
    }

    /** A tag length that is not positive becomes the default of four bytes. */
    constructor (keys: Keys, tagLen: int)
      requires keys.Valid() && tagLen <= 20
      ensures Valid() && this.keys == keys && authTagLen == (if tagLen <= 0 then 4 else tagLen)
      ensures View() == Rollover(0, 0, false)
    {
      this.keys, authTagLen := keys, if tagLen <= 0 then 4 else tagLen;
      roc, lastSeq, initialized := 0, 0, false;
    }

    method UpdateRoc(seq_: nat)
      requires seq_ < 0x1_0000
      modifies `roc, `lastSeq, `initialized
      ensures View() == old(View()).Update(seq_)
    {
      if !initialized {
        lastSeq := seq_;
        initialized := true;
        return;
      }
      var diff := seq_ - lastSeq;
      if diff < -32768 {
        roc := U32(roc + 1);
      }
      lastSeq := seq_;
    }

    function PacketIndex(seq_: nat): nat
      reads this
    {
      roc * 0x1_0000 + seq_
    }

    method Protect(p: RtpPacket) returns (output: seq<byte>)
      requires Valid() && p.header.Valid()
      modifies `roc, `lastSeq, `initialized
      ensures Valid() && View() == old(View()).Update(p.header.sequenceNumber)
      ensures output == Protected(keys, authTagLen, p, View().Index())
      ensures Sealed(keys, authTagLen, p, View().Index(), output)
    {
      hide Sealed, Iv, XorStream, HeaderBytes, Big32;
      UpdateRoc(p.header.sequenceNumber);
      var index := PacketIndex(p.header.sequenceNumber);
      var iv := GenerateIV(keys.salt, p.header.ssrc, index);
      output := Seal(p, iv);
      assert roc == index / 0x1_0000;
      ProtectedIsSealed(keys, authTagLen, p, index);
    }

    /** Fills the output buffer of Protect: header, payload, tag. */
    method Seal(p: RtpPacket, iv: seq<byte>) returns (output: seq<byte>)
      requires Valid() && p.header.Valid() && |iv| == 16
      ensures var body := HeaderBytes(p.header) + XorStream(keys, iv, p.payload);
              output == body + keys.tag(body + Big32(roc))[..authTagLen]
    {
      hide XorStream, HeaderBytes, Big32;
      var headerSize := p.header.Size();
      var out := new byte[headerSize + |p.payload| + authTagLen](i => 0);
      var ok := EncodeHeader(p.header, out);
      assert out[..headerSize] == HeaderBytes(p.header);
      var next := Put(out, headerSize, XorStream(keys, iv, p.payload));
      ghost var body := HeaderBytes(p.header) + XorStream(keys, iv, p.payload);
      assert out[..next] == body;
      if authTagLen > 0 {
        var tag := keys.tag(out[..next] + Big32(roc));
        var _ := Put(out, next, tag[..authTagLen]);
      }
      output := out[..];
      assert output == out[..next + authTagLen];
    }

    method Unprotect(data: seq<byte>) returns (res: SrtpResult)
      requires Valid()
      modifies `roc, `lastSeq, `initialized
      ensures Valid() && (View(), res) == Open(keys, authTagLen, old(View()), data)
      ensures res.Opened? ==> Deciphered(keys, authTagLen, View().Index(), data, res.packet)
      ensures View() == if res.Opened? then old(View()).Update(res.packet.header.sequenceNumber) else old(View())
    {
      hide Iv, XorStream, DecodeHeader, Deciphered;
      OpenDeciphers(keys, authTagLen, View(), data);
      if |data| < 12 {
        return PacketTooShort;
      }
      var header := DecodeRtpHeader(data);
      if header.Err? {
        return DecryptionFailed;
      }
      var h := header.value;
      var headerSize := h.Size();
      var payloadLen := |data| - headerSize - authTagLen;
      if payloadLen <= 0 {
        return PacketTooShort;
      }
      UpdateRoc(h.sequenceNumber);
      var index := PacketIndex(h.sequenceNumber);
      var iv := GenerateIV(keys.salt, h.ssrc, index);
      return Opened(RtpPacket(h, XorStream(keys, iv, data[headerSize..headerSize + payloadLen])));
    }
  }

  /** A receiver that places a packet opens it to the header and payload that were protected. */
  lemma OpenProtected(keys: Keys, tagLen: nat, s: Rollover, p: RtpPacket, index: nat)
    requires keys.Valid() && tagLen <= 20 && s.Valid() && index < INDICES
    requires p.header.Valid() && p.header.Canonical() && p.header.sequenceNumber == index % 0x1_0000
    requires Places(s, index)
    ensures Open(keys, tagLen, s, Protected(keys, tagLen, p, index))
            == if |p.payload| > 0 then (s.Update(index % 0x1_0000), Opened(p)) else (s, PacketTooShort)
  {
    hide Iv, XorStream, HeaderBytes, DecodeHeader, Big32, Places;
    var h, iv := HeaderBytes(p.header), Iv(keys.salt, p.header.ssrc, index);
    var c := XorStream(keys, iv, p.payload);
    var data := Protected(keys, tagLen, p, index);
    var tag := keys.tag(h + c + Big32(index / 0x1_0000))[..tagLen];
    assert data == h + (c + tag);
    HeaderRoundTripIff(p.header, c + tag);
    ReceiverStepIff(s, index);
    XorStreamTwice(keys, iv, p.payload);
    assert data[|h|..|h| + |c|] == c;
  }

  // ---- A sender's run ----

  /** A packet and the index it was protected under. */
  datatype Sent = Sent(packet: RtpPacket, index: nat)
  {
    predicate Valid() {
      && packet.header.Valid() && packet.header.Canonical() && |packet.payload| > 0
      && index < INDICES && packet.header.sequenceNumber == index % 0x1_0000
    }
  }

  function Indices(sents: seq<Sent>): (r: seq<nat>)
    ensures |r| == |sents|
  {
    seq(|sents|, k requires 0 <= k < |sents| => sents[k].index)
  }

  /** The packets as they travel. */
  function Wires(keys: Keys, tagLen: nat, sents: seq<Sent>): (r: seq<seq<byte>>)
    requires keys.Valid() && tagLen <= 20 && forall k :: 0 <= k < |sents| ==> sents[k].Valid()
    ensures |r| == |sents|
  {
    seq(|sents|,
        k requires 0 <= k < |sents| && sents[k].Valid() => Protected(keys, tagLen, sents[k].packet, sents[k].index))
  }

  /** Consecutive numbers under consecutive indices, both with wrap-around. */
  predicate Consecutive(sents: seq<Sent>, seq0: nat, first: nat) {
    forall k :: 0 <= k < |sents| ==>
      sents[k].packet.header.sequenceNumber == (seq0 + k) % 0x1_0000 && sents[k].index == (first + k) % INDICES
  }

  /** The session's next number follows the last one protected, if there was one. */
  predicate InStep(s: Rollover, seq_: nat) {
    s.initialized ==> seq_ == (s.lastSeq + 1) % 0x1_0000
  }

  /** The index that the packet numbered seq_ will get. */
  function NextIndex(s: Rollover, seq_: nat): nat {
    s.Update(seq_).Index()
  }

  /** Where a sender stands after i packets of a run. */
  predicate Standing(s: Rollover, seq_: nat, seq0: nat, first: nat, i: nat) {
    s.Valid() && InStep(s, seq_) && seq_ == (seq0 + i) % 0x1_0000 && NextIndex(s, seq_) == (first + i) % INDICES
  }

  lemma StandingFirst(s: Rollover, seq_: nat)
    requires s.Valid() && seq_ < 0x1_0000 && InStep(s, seq_)
    ensures Standing(s, seq_, seq_, NextIndex(s, seq_), 0)
  {
    hide NextIndex, InStep, Rollover.Valid;
    NextBound(s, seq_);
    SmallMod(NextIndex(s, seq_), INDICES);
    SmallMod(seq_, 0x1_0000);
  }

  lemma AddMod(a: nat, m: nat)
    requires m > 0
    ensures (a % m + 1) % m == (a + 1) % m
  {
    DivMod(a, m);
    var q, r := a / m, a % m;
    if r + 1 < m {
      DivUnique(a + 1, m, q, r + 1);
      DivUnique(r + 1, m, 0, r + 1);
    } else {
      DivUnique(a + 1, m, q + 1, 0);
      DivUnique(m, m, 1, 0);
    }
  }

  /** Protecting the next packet of the session takes the sender one place on. */
  lemma StandingNext(s: Rollover, seq_: nat, seq0: nat, first: nat, i: nat)
    requires Standing(s, seq_, seq0, first, i)
    ensures Standing(s.Update(seq_), (seq_ + 1) % 0x1_0000, seq0, first, i + 1)
  {
    hide Rollover.Index;
    AddMod(seq0 + i, 0x1_0000);
    AddMod(first + i, INDICES);
    SenderStep(s.Update(seq_));
  }

  lemma ConsecutivePush(sents: seq<Sent>, x: Sent, seq0: nat, first: nat)
    requires Consecutive(sents, seq0, first)
    requires x.packet.header.sequenceNumber == (seq0 + |sents|) % 0x1_0000 && x.index == (first + |sents|) % INDICES
    ensures Consecutive(sents + [x], seq0, first)
  {
  }

  /** A run that starts where another one ends continues it. */
  lemma ConsecutiveJoin(a: seq<Sent>, b: seq<Sent>, seq0: nat, first: nat)
    requires Consecutive(a, seq0, first) && Consecutive(b, (seq0 + |a|) % 0x1_0000, (first + |a|) % INDICES)
    ensures Consecutive(a + b, seq0, first)
  {
    forall k | |a| <= k < |a + b|
      ensures (a + b)[k].packet.header.sequenceNumber == (seq0 + k) % 0x1_0000
      ensures (a + b)[k].index == (first + k) % INDICES
    {
      assert (a + b)[k] == b[k - |a|];
      ModAdd(seq0 + |a|, k - |a|, 0x1_0000);
      ModAdd(first + |a|, k - |a|, INDICES);
    }
  }

  lemma ModAdd(a: nat, b: nat, m: nat)
    requires m > 0
    ensures (a % m + b) % m == (a + b) % m
  {
    var q, r := (a % m + b) / m, (a % m + b) % m;
    DivMod(a, m);
    DivMod(a % m + b, m);
    assert (a / m + q) * m == a / m * m + q * m;
    DivUnique(a + b, m, a / m + q, r);
  }

  /** The initialisation vector that a packet was protected under. */
  function Vector(salt: seq<byte>, x: Sent): seq<byte>
    requires |salt| == 14 && x.Valid()
  {
    Iv(salt, x.packet.header.ssrc, x.index)
  }

  /** The bytes of the payload on the wire, each under its place in the packet's own key stream. */
  ghost predicate Encrypted(keys: Keys, x: Sent, wire: seq<byte>)
    requires |keys.salt| == 14 && x.Valid()
  {
    var size := x.packet.header.Size();
    && 0 <= size <= size + |x.packet.payload| <= |wire|
    && forall i :: 0 <= i < |x.packet.payload| ==>
         wire[size + i] == XorByte(x.packet.payload[i], keys.stream(Vector(keys.salt, x), i))
  }

  lemma WiresEncrypted(keys: Keys, tagLen: nat, sents: seq<Sent>)
    requires keys.Valid() && tagLen <= 20 && forall k :: 0 <= k < |sents| ==> sents[k].Valid()
    ensures forall k :: 0 <= k < |sents| ==> Encrypted(keys, sents[k], Wires(keys, tagLen, sents)[k])
  {
    hide Protected, HeaderBytes, Iv, XorByte, Big32;
    forall k | 0 <= k < |sents| ensures Encrypted(keys, sents[k], Wires(keys, tagLen, sents)[k]) {
      ProtectedIsSealed(keys, tagLen, sents[k].packet, sents[k].index);
    }
  }

  lemma NextBound(s: Rollover, seq_: nat)
    requires s.Valid() && seq_ < 0x1_0000
    ensures NextIndex(s, seq_) < INDICES
  {
    OwnIndexPlaced(s, seq_);
  }

  /** No two packets of a run shorter than 2^48 are encrypted under the same vector. */
  lemma KeyStreamNeverReused(salt: seq<byte>, sents: seq<Sent>, seq0: nat, first: nat, j: nat, k: nat)
    requires |salt| == 14 && Consecutive(sents, seq0, first) && j < k < |sents| && k - j < INDICES
    requires sents[j].Valid() && sents[k].Valid()
    ensures Vector(salt, sents[j]) != Vector(salt, sents[k])
  {
    hide Iv;
    var a, b := sents[j], sents[k];
    DistinctMod(first + j, first + k, INDICES);
    if Vector(salt, a) == Vector(salt, b) {
      IvInjective(salt, a.packet.header.ssrc, a.index, b.packet.header.ssrc, b.index);
    }
  }

  lemma NothingFollowed(s: Rollover)
    ensures AllPlaced(s, []) && Follow(s, []) == s
  {
  }

  /** A sender's own index is one it would place. */
  lemma OwnIndexPlaced(s: Rollover, seq_: nat)
    requires s.Valid() && seq_ < 0x1_0000
    ensures var i := s.Update(seq_).Index();
            i < INDICES && i % 0x1_0000 == seq_ && Places(s, i)
  {
    var i := s.Update(seq_).Index();
    assert i == s.Update(seq_).roc * 0x1_0000 + seq_;
    ReceiverStepIff(s, i);
  }

  lemma WiresPush(keys: Keys, tagLen: nat, sents: seq<Sent>, x: Sent)
    requires keys.Valid() && tagLen <= 20 && x.Valid() && forall k :: 0 <= k < |sents| ==> sents[k].Valid()
    ensures forall k :: 0 <= k < |sents + [x]| ==> (sents + [x])[k].Valid()
    ensures Wires(keys, tagLen, sents + [x])
            == Wires(keys, tagLen, sents) + [Protected(keys, tagLen, x.packet, x.index)]
  {
    hide Protected, Sent.Valid;
    assert forall k :: 0 <= k < |sents + [x]| ==> (sents + [x])[k] == if k < |sents| then sents[k] else x;
  }

  // ---- A receiver that misses packets ----

  /** Unprotect on one packet after another. */
  function OpenAll(keys: Keys, tagLen: nat, s: Rollover, wires: seq<seq<byte>>): (Rollover, seq<SrtpResult>)
    requires |keys.salt| == 14
    decreases |wires|
  {
    if |wires| == 0 then (s, [])
    else
      var o := Open(keys, tagLen, s, wires[0]);
      var rest := OpenAll(keys, tagLen, o.0, wires[1..]);
      (rest.0, [o.1] + rest.1)
  }

  function Opens(sents: seq<Sent>): (r: seq<SrtpResult>)
    ensures |r| == |sents|
  {
    seq(|sents|, k requires 0 <= k < |sents| => Opened(sents[k].packet))
  }

  /** Packets that are all placed are all opened as they were sent. */
  lemma {:induction false} PlacedOpened(keys: Keys, tagLen: nat, s: Rollover, sents: seq<Sent>)
    requires keys.Valid() && tagLen <= 20 && s.Valid() && forall k :: 0 <= k < |sents| ==> sents[k].Valid()
    requires AllPlaced(s, Indices(sents))
    ensures OpenAll(keys, tagLen, s, Wires(keys, tagLen, sents)) == (Follow(s, Indices(sents)), Opens(sents))
    decreases |sents|
  {
    hide Open, Protected, Places, Rollover.Update, Rollover.Valid;
    if |sents| > 0 {
      var x, rest := sents[0], sents[1..];
      var t := s.Update(x.index % 0x1_0000);
      assert Indices(sents)[1..] == Indices(rest);
      assert Wires(keys, tagLen, sents)[1..] == Wires(keys, tagLen, rest);
      assert Opens(sents) == [Opened(x.packet)] + Opens(rest);
      ReceiverStepIff(s, x.index);
      OpenProtected(keys, tagLen, s, x.packet, x.index);
      PlacedOpened(keys, tagLen, t, rest);
    }
  }

  /** The packets that get through, by their places in the run. */
  function Picked(sents: seq<Sent>, picks: seq<nat>): (r: seq<Sent>)
    requires forall m :: 0 <= m < |picks| ==> picks[m] < |sents|
    ensures |r| == |picks|
  {
    seq(|picks|, m requires 0 <= m < |picks| && picks[m] < |sents| => sents[picks[m]])
  }

  /** Places in order, never 32768 or more apart. */
  predicate InOrder(picks: seq<nat>, n: nat) {
    && (forall m :: 0 <= m < |picks| ==> picks[m] < n)
    && forall m :: 0 < m < |picks| ==> picks[m - 1] < picks[m] < picks[m - 1] + 0x8000
  }

  /**
   * The lossy law: of one sender's run, whatever subsequence arrives in order with gaps below 32768,
   * starting before the first wrap, is opened packet by packet to exactly what was sent.
   */
  lemma SubsequenceOpened(keys: Keys, tagLen: nat, s: Rollover, sents: seq<Sent>, seq0: nat, first: nat,
                          picks: seq<nat>)
    requires keys.Valid() && tagLen <= 20 && s.Valid() && forall k :: 0 <= k < |sents| ==> sents[k].Valid()
    requires Consecutive(sents, seq0, first) && first + |sents| <= INDICES && InOrder(picks, |sents|)
    requires |picks| > 0 ==>
               if s.initialized then s.Index() < first + picks[0] < s.Index() + 0x8000 else first + picks[0] < 0x1_0000
    ensures OpenAll(keys, tagLen, s, Wires(keys, tagLen, Picked(sents, picks))).1 == Opens(Picked(sents, picks))
  {
    hide OpenAll, Wires, Opens, Follow, Receive, AllPlaced;
    var heard := Picked(sents, picks);
    var indices := Indices(heard);
    forall m | 0 <= m < |picks| ensures indices[m] == first + picks[m] < INDICES {
      SmallMod(first + picks[m], INDICES);
    }
    SmallGapsReceived(s, indices);
    ReceiveIff(s, indices);
    PlacedOpened(keys, tagLen, s, heard);
  }

  lemma SmallMod(a: nat, m: nat)
    requires a < m
    ensures a % m == a
  {
  }

  /** Packets 65533 and 65536 have arrived; 65534, late, gets an index one period too high. */
  lemma LateAcrossWrap()
    ensures var s := Rollover(0, 0, false).Update(0xFFFD).Update(0);
            s.Valid() && s.Index() == 0x1_0000 && !Places(s, 0xFFFE) && s.Update(0xFFFE).Index() == 0x1_FFFE
  {
  }
}
