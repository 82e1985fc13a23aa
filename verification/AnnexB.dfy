/** Splitting an Annex B byte stream into NAL units (SplitAnnexB of src/voip/transport/h264_packet.go). */
module AnnexB {
  import opened Bytes
  import opened H264Packets

  /** annexBStartCodeLen: 4, 3, or 0 where no start code begins. */
  function StartCodeLen(data: seq<byte>, offset: nat): (n: nat)
    ensures n > 0 ==> offset + n <= |data|
  {
    if offset + 3 < |data| && data[offset] == 0 && data[offset + 1] == 0 && data[offset + 2] == 0
       && data[offset + 3] == 1
    then 4
    else if offset + 2 < |data| && data[offset] == 0 && data[offset + 1] == 0 && data[offset + 2] == 1
    then 3
    else 0
  }

  /** end moved back over zero bytes, as far as start. */
  function TrimEnd(data: seq<byte>, start: nat, end: nat): (e: nat)
    requires start <= end <= |data|
    ensures start <= e <= end
  {
    if end > start && data[end - 1] == 0 then TrimEnd(data, start, end - 1) else end
  }

  /** The unit between start and a start code at end, if there is anything left of it. */
  function Cut(data: seq<byte>, start: int, end: nat): seq<Nalu>
    requires -1 <= start <= end <= |data|
  {
    if start >= 0 && TrimEnd(data, start, end) > start then [data[start..TrimEnd(data, start, end)]] else []
  }

  /** The units from i on, the current one having begun at start. */
  function SplitFrom(data: seq<byte>, i: nat, start: int): seq<Nalu>
    requires -1 <= start <= i <= |data|
    decreases |data| - i
  {
    if i == |data| then (if 0 <= start < |data| then [data[start..]] else [])
    else
      var sc := StartCodeLen(data, i);
      if sc > 0 then Cut(data, start, i) + SplitFrom(data, i + sc, i + sc)
      else SplitFrom(data, i + 1, start)
  }

  function Split(data: seq<byte>): seq<Nalu> {
    SplitFrom(data, 0, -1)
  }

  method Trim(data: seq<byte>, start: nat, i: nat) returns (end: nat)
    requires start <= i <= |data|
    ensures end == TrimEnd(data, start, i)
  {
    end := i;
    while end > start && data[end - 1] == 0
      invariant start <= end <= i && TrimEnd(data, start, end) == TrimEnd(data, start, i)
    {
      end := end - 1;
    }
  }

  /** One round of the scan, behind the units found so far. */
  lemma SplitStep(data: seq<byte>, i: nat, start: int, found: seq<Nalu>)
    requires -1 <= start <= i < |data|
    ensures var sc := StartCodeLen(data, i);
            found + SplitFrom(data, i, start)
            == if sc > 0 then found + Cut(data, start, i) + SplitFrom(data, i + sc, i + sc)
               else found + SplitFrom(data, i + 1, start)
  {
    hide StartCodeLen, Cut;
    var sc := StartCodeLen(data, i);
    if sc > 0 {
      Associate(found, Cut(data, start, i), SplitFrom(data, i + sc, i + sc));
    }
  }

  lemma SplitEnd(data: seq<byte>, start: int)
    requires -1 <= start <= |data|
    ensures SplitFrom(data, |data|, start) == if 0 <= start < |data| then [data[start..]] else []
  {
  }

  method SplitAnnexB(data: seq<byte>) returns (nalus: seq<Nalu>)
    ensures nalus == Split(data)
  {
    hide TrimEnd, StartCodeLen, SplitFrom;
    nalus := [];
    var start, i := -1, 0;
    assert [] + SplitFrom(data, 0, -1) == SplitFrom(data, 0, -1);
    while i < |data|
      invariant -1 <= start <= i <= |data|
      invariant nalus + SplitFrom(data, i, start) == SplitFrom(data, 0, -1)
    {
      SplitStep(data, i, start, nalus);
      var sc := StartCodeLen(data, i);
      if sc > 0 {
        if start >= 0 {
          var end := Trim(data, start, i);
          if end > start {
            nalus := nalus + [data[start..end]];
          }
        }
        i := i + sc;
        start := i;
        continue;
      }
      i := i + 1;
    }
    SplitEnd(data, start);
    assert nalus + [] == nalus;
    if start >= 0 && start < |data| {
      nalus := nalus + [data[start..]];
    }
  }

  // ---- The stream format ----

  function ZeroRun(k: nat): (z: seq<byte>)
    ensures |z| == k && forall i :: 0 <= i < k ==> z[i] == 0
  {
    seq(k, i => 0)
  }

  /** Each unit behind any number of zero bytes from two on, and a one. */
  function Stream(zeros: seq<nat>, nalus: seq<Nalu>): seq<byte>
    requires |zeros| == |nalus|
  {
    if |nalus| == 0 then [] else ZeroRun(zeros[0]) + [1] + nalus[0] + Stream(zeros[1..], nalus[1..])
  }

  /** No start code lies inside the unit. */
  predicate NoCode(n: Nalu) {
    forall j :: 0 <= j < |n| - 2 ==> !(n[j] == 0 && n[j + 1] == 0 && n[j + 2] == 1)
  }

  /** What a stream can carry: non-empty units without start codes, and only the last may end in zero. */
  predicate Clean(nalus: seq<Nalu>) {
    && (forall k :: 0 <= k < |nalus| ==> |nalus[k]| > 0 && NoCode(nalus[k]))
    && (forall k :: 0 <= k < |nalus| - 1 ==> nalus[k][|nalus[k]| - 1] != 0)
  }

  // ---- Every result is clean ----

  lemma {:induction false} TrimEndFacts(data: seq<byte>, start: nat, end: nat)
    requires start <= end <= |data|
    ensures var e := TrimEnd(data, start, end);
            (e > start ==> data[e - 1] != 0) && forall i :: e <= i < end ==> data[i] == 0
  {
    if end > start && data[end - 1] == 0 {
      TrimEndFacts(data, start, end - 1);
    }
  }

  /** No start code was found from start to i. */
  predicate Scanned(data: seq<byte>, start: nat, i: nat) {
    forall j :: start <= j < i ==> StartCodeLen(data, j) == 0
  }

  lemma ScannedNoCode(data: seq<byte>, start: nat, i: nat, end: nat)
    requires start <= end <= i <= |data| && Scanned(data, start, i)
    ensures NoCode(data[start..end])
  {
    var n := data[start..end];
    forall j | 0 <= j < |n| - 2 ensures !(n[j] == 0 && n[j + 1] == 0 && n[j + 2] == 1) {
      assert StartCodeLen(data, start + j) == 0;
    }
  }

  lemma {:induction false} SplitClean(data: seq<byte>, i: nat, start: int)
    requires -1 <= start <= i <= |data| && (start >= 0 ==> Scanned(data, start, i))
    ensures Clean(SplitFrom(data, i, start))
    decreases |data| - i
  {
    hide StartCodeLen, Clean, Cut;
    if i == |data| {
      if 0 <= start {
        ScannedNoCode(data, start, i, i);
        assert data[start..i] == data[start..];
      }
      CleanLast(if 0 <= start < |data| then [data[start..]] else []);
    } else {
      var sc := StartCodeLen(data, i);
      if sc > 0 {
        SplitClean(data, i + sc, i + sc);
        CleanCut(data, start, i, SplitFrom(data, i + sc, i + sc));
      } else {
        SplitClean(data, i + 1, start);
      }
    }
  }

  lemma CleanLast(nalus: seq<Nalu>)
    requires |nalus| <= 1 && forall k :: 0 <= k < |nalus| ==> |nalus[k]| > 0 && NoCode(nalus[k])
    ensures Clean(nalus)
  {
    hide NoCode;
  }

  lemma CleanCut(data: seq<byte>, start: int, i: nat, more: seq<Nalu>)
    requires -1 <= start <= i <= |data| && (start >= 0 ==> Scanned(data, start, i)) && Clean(more)
    ensures Clean(Cut(data, start, i) + more)
  {
    hide NoCode;
    if start >= 0 {
      TrimEndFacts(data, start, i);
      ScannedNoCode(data, start, i, TrimEnd(data, start, i));
    }
  }

  // ---- Splitting a stream ----

  /** data from i on is r zeros, a one, and then the rest of the stream. */
  predicate AtZeros(data: seq<byte>, i: nat, r: nat, rest: seq<byte>) {
    i <= |data| && data[i..] == ZeroRun(r) + [1] + rest
  }

  /** Scanning over the zeros in front of a start code, and over the code itself. */
  lemma {:induction false} ScanZeros(data: seq<byte>, i: nat, r: nat, start: int, rest: seq<byte>) returns (end: nat)
    requires r >= 2 && -1 <= start <= i && AtZeros(data, i, r, rest)
    ensures i + r + 1 <= |data| && data[i + r + 1..] == rest
    ensures i <= end < i + r + 1
    ensures Cut(data, start, end) + SplitFrom(data, i + r + 1, i + r + 1) == SplitFrom(data, i, start)
    decreases r
  {
    hide AtZeros, StartCodeLen, Cut;
    ZerosCode(data, i, r, rest);
    if r > 3 {
      end := ScanZeros(data, i + 1, r - 1, start, rest);
    } else {
      end := i;
    }
  }

  /** Where a start code is seen in a run of zeros: not before the last three of them. */
  lemma ZerosCode(data: seq<byte>, i: nat, r: nat, rest: seq<byte>)
    requires r >= 2 && AtZeros(data, i, r, rest)
    ensures i + r + 1 <= |data| && data[i + r + 1..] == rest
    ensures StartCodeLen(data, i) == if r > 3 then 0 else r + 1
    ensures r > 3 ==> AtZeros(data, i + 1, r - 1, rest)
  {
    var tail := data[i..];
    assert forall j :: 0 <= j < r ==> data[i + j] == tail[j] == 0;
    assert data[i + r] == tail[r] == 1;
    assert data[i + r + 1..] == tail[r + 1..] == rest;
    if r > 3 {
      assert data[i + 1..] == tail[1..];
      assert ZeroRun(r)[1..] == ZeroRun(r - 1);
    }
  }

  /** Scanning over a unit: no start code begins inside it. */
  lemma {:induction false} ScanUnit(data: seq<byte>, start: nat, i: nat, n: Nalu, rest: seq<byte>)
    requires start <= i <= start + |n| && start + |n| <= |data|
    requires data[start..] == n + rest && NoCode(n) && |n| > 0
    requires |rest| > 0 ==> n[|n| - 1] != 0
    ensures SplitFrom(data, i, start) == SplitFrom(data, start + |n|, start)
    decreases start + |n| - i
  {
    if i < start + |n| {
      UnitHasNoCode(data, start, i, n, rest);
      ScanUnit(data, start, i + 1, n, rest);
    }
  }

  lemma UnitHasNoCode(data: seq<byte>, start: nat, i: nat, n: Nalu, rest: seq<byte>)
    requires start <= i < start + |n| && start + |n| <= |data|
    requires data[start..] == n + rest && NoCode(n)
    requires |rest| > 0 ==> n[|n| - 1] != 0
    ensures StartCodeLen(data, i) == 0
  {
    var t, j := data[start..], i - start;
    assert forall k :: 0 <= k < |t| ==> t[k] == data[start + k];
    assert forall k :: 0 <= k < |n| ==> t[k] == n[k];
    assert |t| == |n| + |rest|;
  }

  /** A unit that ends in a non-zero byte is cut where it ends. */
  lemma {:induction false} CutUnit(data: seq<byte>, start: nat, n: Nalu, end: nat)
    requires |n| > 0 && n[|n| - 1] != 0 && start + |n| <= end <= |data|
    requires data[start..start + |n|] == n && forall i :: start + |n| <= i < end ==> data[i] == 0
    ensures Cut(data, start, end) == [n]
  {
    TrimEndFacts(data, start, end);
    var e := TrimEnd(data, start, end);
    assert n[|n| - 1] == data[start + |n| - 1];
    assert e == start + |n|;
  }

  lemma StreamStep(zeros: seq<nat>, nalus: seq<Nalu>)
    requires |zeros| == |nalus| > 0
    ensures Stream(zeros, nalus) == ZeroRun(zeros[0]) + [1] + (nalus[0] + Stream(zeros[1..], nalus[1..]))
    ensures |nalus| == 1 ==> Stream(zeros[1..], nalus[1..]) == []
  {
    hide ZeroRun;
    Associate(ZeroRun(zeros[0]) + [1], nalus[0], Stream(zeros[1..], nalus[1..]));
  }

  lemma CleanTail(nalus: seq<Nalu>)
    requires Clean(nalus) && |nalus| > 0
    ensures Clean(nalus[1..]) && NoCode(nalus[0]) && |nalus[0]| > 0
    ensures |nalus| > 1 ==> nalus[0][|nalus[0]| - 1] != 0
  {
    hide NoCode;
  }

  lemma EndOfData(data: seq<byte>, start: nat, n: Nalu)
    requires start + |n| == |data| && data[start..] == n && |n| > 0
    ensures SplitFrom(data, start + |n|, start) == [n]
  {
  }

  /** The units of a stream from behind one of its separators on. */
  lemma {:induction false} SplitRest(data: seq<byte>, s: nat, zeros: seq<nat>, nalus: seq<Nalu>)
    requires |zeros| == |nalus| > 0 && (forall k :: 0 <= k < |zeros| ==> zeros[k] >= 2)
    requires Clean(nalus) && s <= |data| && data[s..] == nalus[0] + Stream(zeros[1..], nalus[1..])
    ensures SplitFrom(data, s, s) == nalus
    decreases |nalus|
  {
    hide StartCodeLen, NoCode, Clean, SplitFrom, Stream, ZeroRun, Cut;
    var n, rest := nalus[0], Stream(zeros[1..], nalus[1..]);
    CleanTail(nalus);
    StreamStep(zeros, nalus);
    ScanUnit(data, s, s, n, rest);
    var e := s + |n|;
    assert data[e..] == data[s..][|n|..] == rest;
    if |nalus| == 1 {
      EndOfData(data, s, n);
      assert nalus == [n];
    } else {
      StreamStep(zeros[1..], nalus[1..]);
      var more := nalus[1..][0] + Stream(zeros[1..][1..], nalus[1..][1..]);
      var end := ScanZeros(data, e, zeros[1], s, more);
      CutAtZeros(data, s, n, zeros[1], end, more);
      SplitRest(data, e + zeros[1] + 1, zeros[1..], nalus[1..]);
      assert [n] + nalus[1..] == nalus;
    }
  }

  lemma CutAtZeros(data: seq<byte>, s: nat, n: Nalu, r: nat, end: nat, more: seq<byte>)
    requires s + |n| <= end < s + |n| + r + 1 && s + |n| <= |data|
    requires data[s..] == n + data[s + |n|..] && data[s + |n|..] == ZeroRun(r) + [1] + more
    requires |n| > 0 && n[|n| - 1] != 0
    ensures end <= |data| && Cut(data, s, end) == [n]
  {
    var e := s + |n|;
    assert forall k :: 0 <= k < r ==> data[e + k] == data[e..][k] == 0;
    assert data[s..e] == data[s..][..|n|] == n;
    CutUnit(data, s, n, end);
  }

  lemma NothingCut(data: seq<byte>, end: nat)
    requires end <= |data|
    ensures Cut(data, -1, end) == []
  {
  }

  /** A stream of clean units splits into them, however many zeros stand before each start code. */
  lemma SplitStream(zeros: seq<nat>, nalus: seq<Nalu>)
    requires |zeros| == |nalus| && (forall k :: 0 <= k < |zeros| ==> zeros[k] >= 2) && Clean(nalus)
    ensures Split(Stream(zeros, nalus)) == nalus
  {
    hide StartCodeLen, NoCode, Clean, Stream, ZeroRun, Cut;
    var data := Stream(zeros, nalus);
    if |nalus| > 0 {
      StreamStep(zeros, nalus);
      var rest := nalus[0] + Stream(zeros[1..], nalus[1..]);
      assert data[0..] == data;
      var end := ScanZeros(data, 0, zeros[0], -1, rest);
      NothingCut(data, end);
      SplitRest(data, zeros[0] + 1, zeros, nalus);
      assert [] + nalus == nalus;
    } else {
      NoStream();
    }
  }

  lemma NoStream()
    ensures Stream([], []) == []
  {
  }

  /** Exactly the clean units survive, and whatever is split, the units found are clean. */
  lemma SplitStreamIff(zeros: seq<nat>, nalus: seq<Nalu>)
    requires |zeros| == |nalus| && forall k :: 0 <= k < |zeros| ==> zeros[k] >= 2
    ensures Split(Stream(zeros, nalus)) == nalus <==> Clean(nalus)
  {
    hide StartCodeLen, NoCode, Clean, SplitFrom, Stream;
    SplitClean(Stream(zeros, nalus), 0, -1);
    if Clean(nalus) {
      SplitStream(zeros, nalus);
    }
  }

  /** A zero at the end of a unit is taken for padding of the next start code. */
  lemma TrailingZeroLost()
    ensures Split(Stream([3, 3], [[1, 0], [1]])) == [[1], [1]]
  {
    hide Split, Stream;
    StreamOfTwo(3, 3, [1, 0], [1]);
    StreamOfTwo(3, 4, [1], [1]);
    assert ZeroRun(4) == [0] + ZeroRun(3);
    assert Stream([3, 3], [[1, 0], [1]]) == Stream([3, 4], [[1], [1]]);
    assert Clean([[1], [1]]);
    SplitStream([3, 4], [[1], [1]]);
  }

  /** A start code inside a unit splits it. */
  lemma EmbeddedCodeSplits()
    ensures Split(Stream([3], [[1, 0, 0, 1, 2]])) == [[1], [2]]
  {
    hide Split, Stream;
    StreamOfOne(3, [1, 0, 0, 1, 2]);
    StreamOfTwo(3, 2, [1], [2]);
    assert ZeroRun(2) == [0, 0];
    assert Stream([3], [[1, 0, 0, 1, 2]]) == Stream([3, 2], [[1], [2]]);
    assert Clean([[1], [2]]);
    SplitStream([3, 2], [[1], [2]]);
  }

  lemma StreamOfOne(z: nat, a: Nalu)
    ensures Stream([z], [a]) == ZeroRun(z) + [1] + a
  {
    hide ZeroRun;
    assert [z][1..] == [] && [a][1..] == [];
    assert Stream([], []) == [];
  }

  lemma StreamOfTwo(y: nat, z: nat, a: Nalu, b: Nalu)
    ensures Stream([y, z], [a, b]) == ZeroRun(y) + [1] + a + ZeroRun(z) + [1] + b
  {
    hide ZeroRun;
    assert [y, z][1..] == [z] && [a, b][1..] == [b];
    StreamOfOne(z, b);
  }
}
