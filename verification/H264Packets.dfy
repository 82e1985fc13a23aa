/**
 * H.264 over RTP payloads (src/voip/transport/h264_packet.go; RFC 6184): single NAL unit packets,
 * fragmentation units and aggregation packets, and the depacketiser that undoes them.
 */
module H264Packets {
  import opened Wrappers
  import opened Bytes

  type Nalu = seq<byte>

  const STAP_A := 24
  const FU_A := 28
  const MTU_PAYLOAD_MAX := 800
  const MAX_FU_REASSEMBLY_BYTES := 0x40_0000

  /** b & 0x1F. */
  function NaluType(b: byte): (t: byte)
    ensures t < 32
  {
    b % 32
  }

  /** b & 0xE0: the forbidden bit and the reference idc. */
  function FbitAndNri(b: byte): (f: byte)
    ensures f % 32 == 0 && f <= 224
  {
    b / 32 * 32
  }

  // ---- Packetising ----

  /** The fragmentation unit for body bytes [offset, end): or-ing bits that do not meet is adding. */
  function FuPacket(nalu: Nalu, offset: nat, end: nat): (pkt: seq<byte>)
    requires offset < end < |nalu|
    ensures |pkt| == 2 + end - offset
  {
    [FbitAndNri(nalu[0]) + FU_A,
     NaluType(nalu[0]) + (if offset == 0 then 0x80 else 0) + (if end == |nalu| - 1 then 0x40 else 0)]
    + nalu[1 + offset..1 + end]
  }

  function FragmentEnd(nalu: Nalu, offset: nat): nat
    requires offset < |nalu|
  {
    Min(offset + MTU_PAYLOAD_MAX - 2, |nalu| - 1)
  }

  /** The fragmentation units of the body from offset on. */
  function Fragments(nalu: Nalu, offset: nat): seq<seq<byte>>
    requires offset < |nalu|
    decreases |nalu| - offset
  {
    if offset == |nalu| - 1 then []
    else
      var end := FragmentEnd(nalu, offset);
      [FuPacket(nalu, offset, end)] + Fragments(nalu, end)
  }

  lemma FragmentsCons(nalu: Nalu, offset: nat, out: seq<seq<byte>>)
    requires offset < |nalu| - 1
    ensures var end := FragmentEnd(nalu, offset);
            out + Fragments(nalu, offset) == out + [FuPacket(nalu, offset, end)] + Fragments(nalu, end)
  {
    hide FuPacket;
  }

  function Package(nalu: Nalu): seq<seq<byte>> {
    if |nalu| == 0 then []
    else if |nalu| <= MTU_PAYLOAD_MAX then [nalu]
    else Fragments(nalu, 0)
  }

  method PackageH264NALU(nalu: Nalu) returns (out: seq<seq<byte>>)
    ensures out == Package(nalu)
  {
    if |nalu| == 0 {
      return [];
    }
    if |nalu| <= MTU_PAYLOAD_MAX {
      return [nalu];
    }
    var naluHeader := nalu[0];
    var fbitAndNri := FbitAndNri(naluHeader);
    var originalType := NaluType(naluHeader);
    var fuIndicator := fbitAndNri + FU_A;
    var body := nalu[1..];
    var fragSize := MTU_PAYLOAD_MAX - 2;
    out := [];
    var offset := 0;
    while offset < |body|
      invariant 0 <= offset <= |body|
      invariant out + Fragments(nalu, offset) == Fragments(nalu, 0)
    {
      var end := offset + fragSize;
      if end > |body| {
        end := |body|;
      }
      var chunk := body[offset..end];
      var fuHeader := originalType;
      if offset == 0 {
        fuHeader := fuHeader + 0x80;
      }
      if end == |body| {
        fuHeader := fuHeader + 0x40;
      }
      var pkt := [fuIndicator, fuHeader] + chunk;
      assert chunk == nalu[1 + offset..1 + end];
      FragmentsCons(nalu, offset, out);
      out := out + [pkt];
      offset := end;
    }
    assert out + [] == out;
  }

  /** A payload that fits, of a fragmentation unit that is not both first and last (section 5.8 of RFC 6184). */
  predicate GoodFragment(p: seq<byte>) {
    3 <= |p| <= MTU_PAYLOAD_MAX && NaluType(p[0]) == FU_A && !(p[1] >= 0x80 && p[1] / 64 % 2 == 1)
  }

  lemma {:induction false} FragmentsFit(nalu: Nalu, offset: nat)
    requires offset < |nalu| && |nalu| > MTU_PAYLOAD_MAX
    ensures forall p :: p in Fragments(nalu, offset) ==> GoodFragment(p)
    decreases |nalu| - offset
  {
    hide FuPacket, GoodFragment;
    if offset < |nalu| - 1 {
      FragmentFits(nalu, offset);
      FragmentsFit(nalu, FragmentEnd(nalu, offset));
    }
  }

  lemma FragmentFits(nalu: Nalu, offset: nat)
    requires offset < |nalu| - 1 && |nalu| > MTU_PAYLOAD_MAX
    ensures GoodFragment(FuPacket(nalu, offset, FragmentEnd(nalu, offset)))
  {
    HeaderBits(nalu, offset, FragmentEnd(nalu, offset));
  }

  lemma PackageFits(nalu: Nalu)
    ensures forall p :: p in Package(nalu) ==> 0 < |p| <= MTU_PAYLOAD_MAX
    ensures |nalu| > MTU_PAYLOAD_MAX ==>
              forall p :: p in Package(nalu) ==> GoodFragment(p)
    ensures |nalu| > 0 ==> |Package(nalu)| > 0
  {
    if |nalu| > MTU_PAYLOAD_MAX {
      FragmentsFit(nalu, 0);
    }
  }

  // ---- Aggregation ----

  function StapBody(nalus: seq<Nalu>): seq<byte>
    requires forall k :: 0 <= k < |nalus| ==> |nalus[k]| <= 0xFFFF
  {
    if |nalus| == 0 then []
    else StapBody(nalus[..|nalus| - 1]) + StapUnit(nalus[|nalus| - 1])
  }

  function StapUnit(n: Nalu): seq<byte>
    requires |n| <= 0xFFFF
  {
    [|n| / 256, |n| % 256] + n
  }

  /** Whether the units can go into one aggregation packet. */
  predicate Aggregable(nalus: seq<Nalu>) {
    && |nalus| >= 2
    && (forall k :: 0 <= k < |nalus| ==> 0 < |nalus[k]| <= 0xFFFF)
    && 1 + |StapBody(nalus)| <= MTU_PAYLOAD_MAX
  }

  /** The greatest reference idc, n[0] & 0x60. */
  function MaxNri(nalus: seq<Nalu>): (m: byte)
    requires forall k :: 0 <= k < |nalus| ==> 0 < |nalus[k]|
    ensures m % 32 == 0 && m <= 96
    ensures forall k :: 0 <= k < |nalus| ==> nalus[k][0] / 32 % 4 * 32 <= m
  {
    if |nalus| == 0 then 0
    else Max(MaxNri(nalus[..|nalus| - 1]), nalus[|nalus| - 1][0] / 32 % 4 * 32)
  }

  lemma {:induction false} StapBodyGrows(nalus: seq<Nalu>, k: nat)
    requires k <= |nalus| && forall i :: 0 <= i < |nalus| ==> |nalus[i]| <= 0xFFFF
    ensures |StapBody(nalus[..k])| <= |StapBody(nalus)|
    decreases |nalus|
  {
    if k < |nalus| {
      StapBodyGrows(nalus[..|nalus| - 1], k);
      assert nalus[..|nalus| - 1][..k] == nalus[..k];
    } else {
      assert nalus[..k] == nalus;
    }
  }

  method PackageH264STAPA(nalus: seq<Nalu>) returns (res: Option<seq<byte>>)
    ensures res == if Aggregable(nalus) then Some([MaxNri(nalus) + STAP_A] + StapBody(nalus)) else None
  {
    if |nalus| < 2 {
      return None;
    }
    var total, maxNri := 1, 0;
    for k := 0 to |nalus|
      invariant forall i :: 0 <= i < k ==> 0 < |nalus[i]| <= 0xFFFF
      invariant total == 1 + |StapBody(nalus[..k])| <= MTU_PAYLOAD_MAX && maxNri == MaxNri(nalus[..k])
    {
      var n := nalus[k];
      if |n| == 0 || |n| > 0xFFFF {
        return None;
      }
      assert nalus[..k + 1][..k] == nalus[..k];
      total := total + (2 + |n|);
      if total > MTU_PAYLOAD_MAX {
        if Aggregable(nalus) {
          StapBodyGrows(nalus, k + 1);
        }
        return None;
      }
      var nri := n[0] / 32 % 4 * 32;
      if nri > maxNri {
        maxNri := nri;
      }
    }
    assert nalus[..|nalus|] == nalus;
    var out := FillStap(nalus, total, maxNri + STAP_A);
    return Some(out);
  }

  /** The second half of PackageH264STAPA, written in place. */
  method FillStap(nalus: seq<Nalu>, total: nat, header: byte) returns (packet: seq<byte>)
    requires forall k :: 0 <= k < |nalus| ==> |nalus[k]| <= 0xFFFF
    requires total == 1 + |StapBody(nalus)|
    ensures packet == [header] + StapBody(nalus)
  {
    var out := new byte[total](i => 0);
    out[0] := header;
    var offset := 1;
    for k := 0 to |nalus|
      invariant offset == 1 + |StapBody(nalus[..k])| <= total && out[..offset] == [header] + StapBody(nalus[..k])
    {
      var n := nalus[k];
      assert nalus[..k + 1][..k] == nalus[..k];
      StapBodyGrows(nalus, k + 1);
      offset := PutUnit(out, offset, n);
    }
    assert nalus[..|nalus|] == nalus && out[..offset] == out[..];
    packet := out[..];
  }

  /** One size and unit at offset. */
  method PutUnit(out: array<byte>, offset: nat, n: Nalu) returns (next: nat)
    requires |n| <= 0xFFFF && offset + 2 + |n| <= out.Length
    modifies out
    ensures next == offset + 2 + |n| && out[..next] == old(out[..offset]) + StapUnit(n)
  {
    out[offset] := |n| / 256;
    out[offset + 1] := |n| % 256;
    next := offset + 2;
    forall i | 0 <= i < |n| {
      out[next + i] := n[i];
    }
    next := next + |n|;
  }

  // ---- The depacketiser ----

  /** What the depacketiser carries from one payload to the next. */
  datatype Depack = Depack(fuBuf: seq<byte>, fuActive: bool)

  function Size16(hi: int, lo: int): int {
    hi * 256 + lo
  }

  /** The units of an aggregation packet, up to the first malformed size. */
  function StapSplit(body: seq<byte>): seq<Nalu>
    decreases |body|
  {
    if |body| < 2 then []
    else
      var size := Size16(body[0], body[1]);
      if size <= 0 || size > |body| - 2 then []
      else [body[2..2 + size]] + StapSplit(body[2 + size..])
  }

  function FuStep(d: Depack, payload: seq<byte>): (Depack, seq<Nalu>)
    requires |payload| >= 2
  {
    var end := payload[1] / 64 % 2 != 0;
    var body := payload[2..];
    if payload[1] / 128 != 0 then
      FuEnd(Depack([FbitAndNri(payload[0]) + NaluType(payload[1])] + body, true), end)
    else if !d.fuActive then (d, [])
    else if |d.fuBuf| + |body| > MAX_FU_REASSEMBLY_BYTES then (Depack([], false), [])
    else FuEnd(Depack(d.fuBuf + body, true), end)
  }

  function FuEnd(d: Depack, end: bool): (Depack, seq<Nalu>) {
    if end then (Depack([], false), [d.fuBuf]) else (d, [])
  }

  /** One payload: the new state and the units it completes. */
  function Step(d: Depack, payload: seq<byte>): (Depack, seq<Nalu>) {
    if |payload| < 1 then (d, [])
    else
      var t := NaluType(payload[0]);
      if 1 <= t <= 23 then (d.(fuActive := false), [payload])
      else if t == STAP_A then (d.(fuActive := false), StapSplit(payload[1..]))
      else if t == FU_A && |payload| >= 2 then FuStep(d, payload)
      else (d.(fuActive := false), [])
  }

  class H264Depacketizer {
    var fuBuf: seq<byte>
    var fuType: byte
    var fuNriF: byte
    var fuActive: bool

    function View(): Depack
      reads this
    {
      Depack(fuBuf, fuActive)
    }

    constructor ()
      ensures View() == Depack([], false)
    {
      fuBuf, fuType, fuNriF, fuActive := [], 0, 0, false;
    }

    method Depacketize(payload: seq<byte>) returns (out: seq<Nalu>)
      modifies this
      ensures (View(), out) == Step(old(View()), payload)
    {
      if |payload| < 1 {
        return [];
      }
      var naluType := NaluType(payload[0]);
      var fbitAndNri := FbitAndNri(payload[0]);
      if naluType >= 1 && naluType <= 23 {
        fuActive := false;
        return [payload];
      } else if naluType == STAP_A {
        fuActive := false;
        out := SplitStap(payload[1..]);
        return;
      } else if naluType == FU_A {
        if |payload| < 2 {
          fuActive := false;
          return [];
        }
        var fuHeader := payload[1];
        var startBit := fuHeader / 128 * 128;
        var endBit := fuHeader / 64 % 2 * 64;
        var origType := NaluType(fuHeader);
        var body := payload[2..];
        if startBit != 0 {
          fuActive := true;
          fuType := origType;
          fuNriF := fbitAndNri;
          fuBuf := [fbitAndNri + origType];
          fuBuf := fuBuf + body;
        } else if fuActive {
          if |fuBuf| + |body| > MAX_FU_REASSEMBLY_BYTES {
            fuActive := false;
            fuBuf := [];
            return [];
          }
          fuBuf := fuBuf + body;
        } else {
          return [];
        }
        if endBit != 0 && fuActive {
          fuActive := false;
          out := [fuBuf];
          fuBuf := [];
          return;
        }
        return [];
      } else {
        fuActive := false;
        return [];
      }
    }

    /** The aggregation case of Depacketize. */
    method SplitStap(packed: seq<byte>) returns (out: seq<Nalu>)
      ensures out == StapSplit(packed)
    {
      var body := packed;
      out := [];
      while |body| >= 2
        invariant out + StapSplit(body) == StapSplit(packed)
        decreases |body|
      {
        var size := Size16(body[0], body[1]);
        ghost var whole := body;
        body := body[2..];
        if size <= 0 || size > |body| {
          assert StapSplit(whole) == [];
          assert out + [] == out;
          return;
        }
        var nalu := body[..size];
        assert nalu == whole[2..2 + size] && body[size..] == whole[2 + size..];
        assert out + ([nalu] + StapSplit(body[size..])) == out + [nalu] + StapSplit(body[size..]);
        out := out + [nalu];
        body := body[size..];
      }
      assert out + [] == out;
    }
  }

  // ---- Round trips ----

  /** Payloads in order: the state they leave and the units they complete. */
  function Run(d: Depack, payloads: seq<seq<byte>>): (Depack, seq<Nalu>)
    decreases |payloads|
  {
    if |payloads| == 0 then (d, [])
    else
      var r := Step(d, payloads[0]);
      var s := Run(r.0, payloads[1..]);
      (s.0, r.1 + s.1)
  }

  lemma {:induction false} RunAppend(d: Depack, a: seq<seq<byte>>, b: seq<seq<byte>>)
    ensures Run(d, a + b).0 == Run(Run(d, a).0, b).0
    ensures Run(d, a + b).1 == Run(d, a).1 + Run(Run(d, a).0, b).1
    decreases |a|
  {
    hide Step;
    if |a| == 0 {
      assert a + b == b;
    } else {
      var r := Step(d, a[0]);
      RunAppend(r.0, a[1..], b);
      assert (a + b)[0] == a[0] && (a + b)[1..] == a[1..] + b;
      Associate(r.1, Run(r.0, a[1..]).1, Run(Run(d, a).0, b).1);
    }
  }

  /** The depacketiser in the middle of a fragmented unit. */
  predicate Reassembling(d: Depack, nalu: Nalu, offset: nat)
    requires offset < |nalu|
  {
    offset == 0 || (d.fuActive && d.fuBuf == nalu[..1 + offset])
  }

  lemma FragmentStep(d: Depack, nalu: Nalu, offset: nat)
    requires offset < |nalu| - 1 && |nalu| > MTU_PAYLOAD_MAX && Reassembling(d, nalu, offset)
    ensures var end := FragmentEnd(nalu, offset);
            var r := Step(d, FuPacket(nalu, offset, end));
            if 1 + end > MAX_FU_REASSEMBLY_BYTES && offset > 0 then r == (Depack([], false), [])
            else if end == |nalu| - 1 then r == (Depack([], false), [nalu])
            else r == (Depack(nalu[..1 + end], true), [])
  {
    var end := FragmentEnd(nalu, offset);
    var p := FuPacket(nalu, offset, end);
    assert p[2..] == nalu[1 + offset..1 + end];
    HeaderBits(nalu, offset, end);
    if offset == 0 {
      assert [nalu[0]] + nalu[1..1 + end] == nalu[..1 + end];
    } else {
      assert nalu[..1 + offset] + nalu[1 + offset..1 + end] == nalu[..1 + end];
    }
    assert end == |nalu| - 1 ==> nalu[..1 + end] == nalu;
  }

  lemma HeaderBits(nalu: Nalu, offset: nat, end: nat)
    requires offset < end < |nalu| && !(offset == 0 && end == |nalu| - 1)
    ensures var p := FuPacket(nalu, offset, end);
            && NaluType(p[0]) == FU_A && FbitAndNri(p[0]) + NaluType(p[1]) == nalu[0]
            && (p[1] / 128 != 0 <==> offset == 0) && (p[1] / 64 % 2 != 0 <==> end == |nalu| - 1)
  {
  }

  /** Fragments in order rebuild the unit, or nothing if it is longer than the reassembly limit. */
  lemma {:induction false} FragmentsRun(d: Depack, nalu: Nalu, offset: nat)
    requires offset < |nalu| - 1 && |nalu| > MTU_PAYLOAD_MAX && Reassembling(d, nalu, offset)
    requires offset > 0 ==> offset < MAX_FU_REASSEMBLY_BYTES
    ensures Run(d, Fragments(nalu, offset))
            == (Depack([], false), if |nalu| <= MAX_FU_REASSEMBLY_BYTES then [nalu] else [])
    decreases |nalu| - offset
  {
    hide Step, FuPacket;
    FragmentStep(d, nalu, offset);
    var end := FragmentEnd(nalu, offset);
    assert forall s: seq<Nalu> :: [] + s == s;
    var r := Step(d, FuPacket(nalu, offset, end));
    assert Fragments(nalu, offset)[0] == FuPacket(nalu, offset, end);
    assert Fragments(nalu, offset)[1..] == Fragments(nalu, end);
    if 1 + end > MAX_FU_REASSEMBLY_BYTES && offset > 0 {
      FragmentsIgnored(nalu, end);
    } else if end < |nalu| - 1 {
      FragmentsRun(r.0, nalu, end);
    } else {
      assert Fragments(nalu, end) == [] && r.1 + [] == r.1;
    }
  }

  /** Once a unit has been given up, the rest of its fragments is passed over. */
  lemma {:induction false} FragmentsIgnored(nalu: Nalu, offset: nat)
    requires 0 < offset < |nalu|
    ensures Run(Depack([], false), Fragments(nalu, offset)) == (Depack([], false), [])
    decreases |nalu| - offset
  {
    if offset < |nalu| - 1 {
      var end := FragmentEnd(nalu, offset);
      HeaderBits(nalu, offset, end);
      FragmentsIgnored(nalu, end);
      assert [] + Run(Depack([], false), Fragments(nalu, end)).1 == [];
      assert Fragments(nalu, offset)[1..] == Fragments(nalu, end);
    }
  }

  /** The units that survive packetising. */
  predicate Sendable(nalu: Nalu) {
    if |nalu| <= MTU_PAYLOAD_MAX then |nalu| > 0 && 1 <= NaluType(nalu[0]) <= 23
    else |nalu| <= MAX_FU_REASSEMBLY_BYTES
  }

  /** A sendable unit comes back whole from any state. */
  lemma PackageRun(d: Depack, nalu: Nalu)
    requires Sendable(nalu)
    ensures Run(d, Package(nalu)).1 == [nalu] && !Run(d, Package(nalu)).0.fuActive
  {
    if |nalu| > MTU_PAYLOAD_MAX {
      FragmentsRun(d, nalu, 0);
    } else {
      assert Run(d, [nalu]).1 == [nalu] + Run(Step(d, nalu).0, []).1;
    }
  }

  lemma {:induction false} StapShorter(body: seq<byte>)
    ensures forall n :: n in StapSplit(body) ==> |n| < |body|
    decreases |body|
  {
    if |body| >= 2 {
      var size := Size16(body[0], body[1]);
      if 0 < size <= |body| - 2 {
        StapShorter(body[2 + size..]);
      }
    }
  }

  /** Exactly the sendable units come back from a depacketiser that is between units. */
  lemma RecoveredIff(d: Depack, nalu: Nalu)
    requires !d.fuActive
    ensures Run(d, Package(nalu)).1 == [nalu] <==> Sendable(nalu)
  {
    if Sendable(nalu) {
      PackageRun(d, nalu);
    } else if |nalu| > MTU_PAYLOAD_MAX {
      FragmentsRun(d, nalu, 0);
    } else if |nalu| > 0 {
      assert Run(d, [nalu]).1 == Step(d, nalu).1 + [];
      StapShorter(nalu[1..]);
      var out := Step(d, nalu).1;
      assert out != [] ==> |out[0]| < |nalu|;
    }
  }

  /** Units that are lost: an empty one, short ones of a type no receiver takes, and one byte over the limit. */
  lemma LostUnits()
    ensures var none := Depack([], false);
            && Run(none, Package([])).1 == [] && Run(none, Package([0x00])).1 == []
            && Run(none, Package([0x1F])).1 == []
            && Run(none, Package(LongUnit())).1 == []
  {
    hide FuStep;
    var none := Depack([], false);
    assert Run(none, [[0x00]]).1 == Step(none, [0x00]).1 + [];
    assert Run(none, [[0x1F]]).1 == Step(none, [0x1F]).1 + [];
    FragmentsRun(none, LongUnit(), 0);
  }

  function LongUnit(): (n: Nalu)
    ensures |n| == MAX_FU_REASSEMBLY_BYTES + 1
  {
    seq<byte>(MAX_FU_REASSEMBLY_BYTES + 1, _ => 1)
  }

  /** An aggregation packet comes apart into the units it was made of (section 5.7.1 of RFC 6184). */
  lemma StapRoundTrip(d: Depack, nalus: seq<Nalu>)
    requires Aggregable(nalus)
    ensures Step(d, [MaxNri(nalus) + STAP_A] + StapBody(nalus)).1 == nalus
  {
    hide StapBody, StapSplit, MaxNri, FuStep;
    var p := [MaxNri(nalus) + STAP_A] + StapBody(nalus);
    assert p[1..] == StapBody(nalus);
    StapSplitAll(nalus);
  }

  lemma StapSplitAll(nalus: seq<Nalu>)
    requires forall k :: 0 <= k < |nalus| ==> 0 < |nalus[k]| <= 0xFFFF
    ensures StapSplit(StapBody(nalus)) == nalus
  {
    StapSplitBack(nalus, []);
    assert StapBody(nalus) + [] == StapBody(nalus) && nalus + [] == nalus;
  }

  lemma StapSplitCons(n: Nalu, tail: seq<byte>)
    requires 0 < |n| <= 0xFFFF
    ensures StapSplit(StapUnit(n) + tail) == [n] + StapSplit(tail)
  {
    var u := StapUnit(n) + tail;
    assert u[2..2 + |n|] == n && u[2 + |n|..] == tail;
  }

  lemma {:induction false} StapSplitBack(nalus: seq<Nalu>, tail: seq<byte>)
    requires forall k :: 0 <= k < |nalus| ==> 0 < |nalus[k]| <= 0xFFFF
    ensures StapSplit(StapBody(nalus) + tail) == nalus + StapSplit(tail)
    decreases |nalus|
  {
    hide StapSplit, StapUnit;
    if |nalus| == 0 {
      assert StapBody(nalus) + tail == tail;
    } else {
      var front, n := nalus[..|nalus| - 1], nalus[|nalus| - 1];
      StapSplitBack(front, StapUnit(n) + tail);
      StapSplitCons(n, tail);
      Associate(StapBody(front), StapUnit(n), tail);
      Associate(front, [n], StapSplit(tail));
    }
  }

}
