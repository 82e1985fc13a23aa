/**
 * The byte window of src/voip/media/mlow/mem.go: the pitch tables laid out at the fixed addresses
 * of the reference build, which DecodeSmplPitch reads back by address arithmetic.
 */
module SmplMem {
  import opened Bytes
  import opened RangeEncoding
  import opened PitchTables

  const MEM_GCLK := 0xb9f9a8
  const MEM_PCFG := 0xb9f9a8 + 0x5704
  const HDR_CONTOUR_MAP := 0xe7c10
  const HDR_LAG_CDF := 0xbaa7b0
  const HDR_FRAC_BASE := 0xbaa9be
  const HDR_DELTA_CDF := 0xbab13e
  const DELTA_BOUNDS := 0xe7ef0

  datatype Region = Region(base: nat, data: seq<byte>)
  {
    /** Whether n bytes from addr lie in the region. */
    predicate Covers(addr: nat, n: nat) {
      addr >= base && addr - base + n <= |data|
    }
  }

  /** The first region that covers n bytes from addr. */
  function RegionFor(regions: seq<Region>, addr: nat, n: nat): (k: int)
    ensures -1 <= k < |regions|
    ensures k >= 0 ==> regions[k].Covers(addr, n)
    ensures forall j :: 0 <= j < (if k < 0 then |regions| else k) ==> !regions[j].Covers(addr, n)
  {
    RegionFrom(regions, 0, addr, n)
  }

  function RegionFrom(regions: seq<Region>, i: nat, addr: nat, n: nat): (k: int)
    requires i <= |regions| && forall j :: 0 <= j < i ==> !regions[j].Covers(addr, n)
    ensures -1 <= k < |regions|
    ensures k >= 0 ==> regions[k].Covers(addr, n)
    ensures forall j :: 0 <= j < (if k < 0 then |regions| else k) ==> !regions[j].Covers(addr, n)
    decreases |regions| - i
  {
    if i == |regions| then -1
    else if regions[i].Covers(addr, n) then i
    else RegionFrom(regions, i + 1, addr, n)
  }

  /** The little-endian value of the n bytes at off. */
  function Little(data: seq<byte>, off: nat, n: nat): (v: nat)
    requires off + n <= |data|
    decreases n
  {
    if n == 0 then 0 else data[off] + 256 * Little(data, off + 1, n - 1)
  }

  datatype SmplMem = SmplMem(regions: seq<Region>, gClk: nat)
  {
    /** The little-endian value of n bytes at addr, or 0 outside every region. */
    function Read(addr: nat, n: nat): nat {
      var k := RegionFor(regions, addr, n);
      if k < 0 then 0 else Little(regions[k].data, addr - regions[k].base, n)
    }

    function U8(addr: nat): nat {
      Read(addr, 1)
    }

    function U16(addr: nat): nat {
      Read(addr, 2)
    }

    function U32(addr: nat): nat {
      Read(addr, 4)
    }

    function I32(addr: nat): int {
      if U32(addr) < 0x8000_0000 then U32(addr) else U32(addr) - 0x1_0000_0000
    }

    /** The n 16-bit entries from addr on. */
    function Halves(addr: nat, n: nat): (cdf: seq<int>)
      ensures |cdf| == n
    {
      seq(n, i requires 0 <= i => U16(addr + i * 2))
    }

    method CDFAt(addr: nat, n: nat) returns (out: seq<int>)
      ensures out == Halves(addr, n)
    {
      out := [];
      for i := 0 to n
        invariant |out| == i && forall j :: 0 <= j < i ==> out[j] == U16(addr + j * 2)
      {
        out := out + [U16(addr + i * 2)];
      }
    }
  }

  // ---- The layout ----

  function LittleBytes(x: nat, n: nat): (b: seq<byte>)
    ensures |b| == n
    decreases n
  {
    if n == 0 then [] else [x % 256] + LittleBytes(x / 256, n - 1)
  }

  /** Unsigned numbers, each in n little-endian bytes. */
  function Packed(vs: seq<int>, n: nat): (b: seq<byte>)
    requires forall i :: 0 <= i < |vs| ==> 0 <= vs[i]
    ensures |b| == |vs| * n
  {
    if |vs| == 0 then []
    else
      assert |vs| * n == (|vs| - 1) * n + n;
      Packed(vs[..|vs| - 1], n) + LittleBytes(vs[|vs| - 1], n)
  }

  function Flat(rows: seq<seq<int>>): seq<int> {
    if |rows| == 0 then [] else Flat(rows[..|rows| - 1]) + rows[|rows| - 1]
  }

  /** A row padded with zeros to eight entries. */
  function Eight(row: seq<int>): (r: seq<int>)
    ensures |r| == 8
  {
    seq(8, i requires 0 <= i < 8 => if i < |row| then row[i] else 0)
  }

  /** A contour record: blocks, segment lengths and the number of segments. */
  function RecordWords(bs: Blockseg): (r: seq<int>)
    ensures |r| == 17
  {
    Eight(bs.blocks) + Eight(bs.seglens) + [|bs.blocks|]
  }

  function RecordRows(records: seq<Blockseg>): (rows: seq<seq<int>>)
    ensures |rows| == |records| && forall c :: 0 <= c < |rows| ==> |rows[c]| == 17
  {
    seq(|records|, c requires 0 <= c < |records| => RecordWords(records[c]))
  }

  /** The words behind the records: counts and the addresses of the other tables. */
  const HEADER: seq<int> := [187, 217, 0xe7c10, 0xbaa7b0, 0xbaa9be, 0xe7d20, 0xe7ef0, 0xe8096, 0xbab13e]

  function RangeBytes(ranges: seq<(int, int)>): seq<int> {
    if |ranges| == 0 then []
    else RangeBytes(ranges[..|ranges| - 1]) + [ranges[|ranges| - 1].0, ranges[|ranges| - 1].1]
  }

  /** The regions that hold the tables t. */
  predicate HoldsTables(m: SmplMem, t: PitchTables) {
    && m.gClk == MEM_GCLK && |m.regions| == 6
    && IsRegion(m.regions[0], MEM_PCFG + 0x1d38, Flat(RecordRows(t.blocksegs)) + HEADER, 4)
    && IsRegion(m.regions[1], HDR_LAG_CDF, t.blocksegIdxCmf, 2)
    && IsRegion(m.regions[2], HDR_FRAC_BASE, Flat(t.deltaLagCmfs), 2)
    && IsRegion(m.regions[3], HDR_DELTA_CDF, Flat(t.blockTransitionCmf), 2)
    && IsRegion(m.regions[4], HDR_CONTOUR_MAP, t.blocksegs2idx, 1)
    && IsRegion(m.regions[5], DELTA_BOUNDS, RangeBytes(t.firstblockRange) + [0, 0], 1)
  }

  predicate IsRegion(r: Region, base: nat, vs: seq<int>, n: nat) {
    && (forall i :: 0 <= i < |vs| ==> 0 <= vs[i])
    && r == Region(base, Packed(vs, n))
  }

  // ---- Building ----

  lemma PackedOne(vs: seq<int>, x: int, n: nat)
    requires (forall i :: 0 <= i < |vs| ==> 0 <= vs[i]) && 0 <= x
    ensures Packed(vs + [x], n) == Packed(vs, n) + LittleBytes(x, n)
  {
    assert (vs + [x])[..|vs|] == vs;
  }

  /** put32 of eight entries, the missing ones as zero. */
  method PutEight(r0: seq<byte>, ghost words: seq<int>, row: seq<int>) returns (r: seq<byte>)
    requires (forall i :: 0 <= i < |words| ==> 0 <= words[i]) && r0 == Packed(words, 4)
    requires forall i :: 0 <= i < |row| ==> 0 <= row[i]
    ensures (forall i :: 0 <= i < 8 ==> 0 <= Eight(row)[i]) && r == Packed(words + Eight(row), 4)
  {
    hide Packed, LittleBytes;
    r := r0;
    assert words + Eight(row)[..0] == words;
    for i := 0 to 8
      invariant r == Packed(words + Eight(row)[..i], 4)
    {
      var v := 0;
      if i < |row| {
        v := row[i];
      }
      PackedOne(words + Eight(row)[..i], v, 4);
      assert words + Eight(row)[..i] + [v] == words + Eight(row)[..i + 1];
      r := r + LittleBytes(v, 4);
    }
    assert Eight(row)[..8] == Eight(row);
  }

  method U16Bytes(v: seq<int>) returns (b: seq<byte>)
    requires forall i :: 0 <= i < |v| ==> 0 <= v[i] < 0x1_0000
    ensures b == Packed(v, 2)
  {
    hide Packed, LittleBytes;
    b := [];
    EmptyPacked(2);
    for i := 0 to |v|
      invariant b == Packed(v[..i], 2)
    {
      PackedOne(v[..i], v[i], 2);
      assert v[..i] + [v[i]] == v[..i + 1];
      b := b + LittleBytes(v[i] % 0x1_0000, 2);
    }
    assert v[..|v|] == v;
  }

  lemma EmptyPacked(n: nat)
    ensures Packed([], n) == []
  {
  }

  method Concat(rows: seq<seq<int>>) returns (all: seq<int>)
    ensures all == Flat(rows)
  {
    all := [];
    for i := 0 to |rows|
      invariant all == Flat(rows[..i])
    {
      assert rows[..i + 1][..i] == rows[..i];
      all := all + rows[i];
    }
    assert rows[..|rows|] == rows;
  }

  /** One contour: its blocks, its segment lengths and how many there are. */
  method PutRecord(before: seq<byte>, ghost words: seq<int>, rec: Blockseg) returns (r: seq<byte>)
    requires rec.Valid() && (forall i :: 0 <= i < |words| ==> 0 <= words[i]) && before == Packed(words, 4)
    ensures (forall i :: 0 <= i < |RecordWords(rec)| ==> 0 <= RecordWords(rec)[i])
    ensures r == Packed(words + RecordWords(rec), 4)
  {
    hide Packed, LittleBytes, Eight;
    r := PutEight(before, words, rec.blocks);
    r := PutEight(r, words + Eight(rec.blocks), rec.seglens);
    PackedOne(words + Eight(rec.blocks) + Eight(rec.seglens), |rec.blocks|, 4);
    r := r + LittleBytes(|rec.blocks|, 4);
    assert words + RecordWords(rec) == words + Eight(rec.blocks) + Eight(rec.seglens) + [|rec.blocks|];
  }

  /** The words that the decoder reads its table addresses from. */
  method PutHeader(before: seq<byte>, ghost words: seq<int>) returns (r: seq<byte>)
    requires (forall i :: 0 <= i < |words| ==> 0 <= words[i]) && before == Packed(words, 4)
    ensures r == Packed(words + HEADER, 4)
  {
    hide Packed, LittleBytes;
    r := before;
    var h := HEADER;
    assert words + h[..0] == words;
    for i := 0 to 9
      invariant r == Packed(words + h[..i], 4)
    {
      PackedOne(words + h[..i], h[i], 4);
      assert words + h[..i] + [h[i]] == words + h[..i + 1];
      r := r + LittleBytes(h[i], 4);
    }
    assert h[..9] == HEADER;
  }

  /** The record region: every contour, then the header. */
  method RecordRegion(records: seq<Blockseg>) returns (r0: seq<byte>)
    requires forall c :: 0 <= c < |records| ==> records[c].Valid()
    ensures (forall i :: 0 <= i < |Flat(RecordRows(records))| ==> 0 <= Flat(RecordRows(records))[i])
    ensures r0 == Packed(Flat(RecordRows(records)) + HEADER, 4)
  {
    hide Packed, LittleBytes, RecordWords, Blockseg.Valid;
    r0 := [];
    EmptyPacked(4);
    ghost var words: seq<int> := [];
    for c := 0 to |records|
      invariant words == Flat(RecordRows(records[..c]))
      invariant forall i :: 0 <= i < |words| ==> 0 <= words[i]
      invariant r0 == Packed(words, 4)
    {
      r0 := PutRecord(r0, words, records[c]);
      FlatPush(records, c);
      words := words + RecordWords(records[c]);
    }
    assert records[..|records|] == records;
    r0 := PutHeader(r0, words);
  }

  lemma FlatPush(records: seq<Blockseg>, c: nat)
    requires c < |records|
    ensures Flat(RecordRows(records[..c + 1]))
            == Flat(RecordRows(records[..c])) + RecordWords(records[c])
  {
    hide RecordWords;
    var rows := RecordRows(records[..c + 1]);
    assert rows[..c] == RecordRows(records[..c]) && rows[c] == RecordWords(records[c]);
  }

  method ByteRow(v: seq<int>) returns (b: seq<byte>)
    requires forall i :: 0 <= i < |v| ==> 0 <= v[i] < 256
    ensures b == Packed(v, 1)
  {
    hide Packed, LittleBytes;
    b := [];
    EmptyPacked(1);
    for i := 0 to |v|
      invariant b == Packed(v[..i], 1)
    {
      PackedOne(v[..i], v[i], 1);
      OneByte(v[i]);
      assert v[..i] + [v[i]] == v[..i + 1];
      b := b + [v[i]];
    }
    assert v[..|v|] == v;
  }

  lemma OneByte(x: byte)
    ensures LittleBytes(x, 1) == [x]
  {
    assert LittleBytes(x / 256, 0) == [];
  }

  method BoundBytes(ranges: seq<(int, int)>) returns (b: seq<byte>)
    requires forall i :: 0 <= i < |ranges| ==> 0 <= ranges[i].0 < 256 && 0 <= ranges[i].1 < 256
    ensures (forall i :: 0 <= i < |RangeBytes(ranges)| ==> 0 <= RangeBytes(ranges)[i])
    ensures b == Packed(RangeBytes(ranges) + [0, 0], 1)
  {
    var v := [];
    for i := 0 to |ranges|
      invariant v == RangeBytes(ranges[..i]) && forall j :: 0 <= j < |v| ==> 0 <= v[j] < 256
    {
      assert ranges[..i + 1][..i] == ranges[..i];
      v := v + [ranges[i].0, ranges[i].1];
    }
    assert ranges[..|ranges|] == ranges;
    b := ByteRow(v + [0, 0]);
  }

  /** buildSmplMemFromSeed: the window holds exactly the tables. */
  method BuildSmplMem(t: PitchTables) returns (m: SmplMem)
    requires t.Valid()
    ensures HoldsTables(m, t)
  {
    hide Packed, Flat, RangeBytes, RecordRows;
    var regions := [];
    var r0 := RecordRegion(t.blocksegs);
    regions := regions + [Region(MEM_PCFG + 0x1d38, r0)];
    var lag := U16Bytes(t.blocksegIdxCmf);
    regions := regions + [Region(HDR_LAG_CDF, lag)];
    var frac := Concat(t.deltaLagCmfs);
    FlatBounded(t.deltaLagCmfs);
    var fracBytes := U16Bytes(frac);
    regions := regions + [Region(HDR_FRAC_BASE, fracBytes)];
    var delta := Concat(t.blockTransitionCmf);
    FlatBounded(t.blockTransitionCmf);
    var deltaBytes := U16Bytes(delta);
    regions := regions + [Region(HDR_DELTA_CDF, deltaBytes)];
    var contourMap := ByteRow(t.blocksegs2idx);
    regions := regions + [Region(HDR_CONTOUR_MAP, contourMap)];
    var bounds := BoundBytes(t.firstblockRange);
    regions := regions + [Region(DELTA_BOUNDS, bounds)];
    m := SmplMem(regions, MEM_GCLK);
  }

  lemma {:induction false} FlatBounded(rows: seq<seq<int>>)
    requires forall k :: 0 <= k < |rows| ==> ValidCdf(rows[k])
    ensures forall i :: 0 <= i < |Flat(rows)| ==> 0 <= Flat(rows)[i] < 0x1_0000
  {
    if |rows| > 0 {
      FlatBounded(rows[..|rows| - 1]);
    }
  }

  // ---- Reading back ----

  lemma {:induction false} LittleBack(x: nat, n: nat, pre: seq<byte>, post: seq<byte>)
    ensures Little(pre + LittleBytes(x, n) + post, |pre|, n) == x % Pow256(n)
    decreases n
  {
    if n > 0 {
      var b := LittleBytes(x / 256, n - 1);
      LittleBack(x / 256, n - 1, pre + [x % 256], post);
      assert pre + LittleBytes(x, n) + post == (pre + [x % 256]) + b + post;
      DigitSplit(x, Pow256(n - 1));
    }
  }

  lemma DigitSplit(x: nat, p: nat)
    requires p > 0
    ensures x % (256 * p) == x % 256 + 256 * (x / 256 % p)
  {
    var q := x / 256;
    DivMod(q, p);
    DivBounds(q, p);
    var r := x % 256 + 256 * (q % p);
    assert x == 256 * q + x % 256;
    assert x == (256 * p) * (q / p) + r by {
      assert 256 * (p * (q / p)) == (256 * p) * (q / p);
    }
    DivUnique(x, 256 * p, q / p, r);
  }

  lemma {:induction false} LittlePrefix(a: seq<byte>, b: seq<byte>, off: nat, n: nat)
    requires off + n <= |a|
    ensures Little(a + b, off, n) == Little(a, off, n)
    decreases n
  {
    if n > 0 {
      LittlePrefix(a, b, off + 1, n - 1);
    }
  }

  /** Entry i of a packed table. */
  lemma {:induction false} PackedAt(vs: seq<int>, n: nat, i: nat)
    requires (forall j :: 0 <= j < |vs| ==> 0 <= vs[j]) && i < |vs| && vs[i] < Pow256(n)
    ensures i * n + n <= |vs| * n && Little(Packed(vs, n), i * n, n) == vs[i]
    decreases |vs|
  {
    hide LittleBytes, Little, Pow256;
    var front := vs[..|vs| - 1];
    var a, b := Packed(front, n), LittleBytes(vs[|vs| - 1], n);
    MulLe(i + 1, |vs|, n);
    assert (i + 1) * n == i * n + n;
    if i < |vs| - 1 {
      PackedAt(front, n, i);
      LittlePrefix(a, b, i * n, n);
    } else {
      LittleBack(vs[i], n, a, []);
      assert a + b + [] == a + b;
      DivUnique(vs[i], Pow256(n), 0, vs[i]);
    }
  }

  /** Row k of equally long rows. */
  lemma {:induction false} FlatAt(rows: seq<seq<int>>, len: nat, k: nat, i: nat)
    requires (forall j :: 0 <= j < |rows| ==> |rows[j]| == len) && k < |rows| && i < len
    ensures |Flat(rows)| == |rows| * len && k * len + i < |rows| * len && Flat(rows)[k * len + i] == rows[k][i]
    decreases |rows|
  {
    FlatLength(rows, len);
    FlatLength(rows[..|rows| - 1], len);
    MulLe(k + 1, |rows|, len);
    assert (k + 1) * len == k * len + len;
    if k < |rows| - 1 {
      FlatAt(rows[..|rows| - 1], len, k, i);
    }
  }

  lemma {:induction false} FlatLength(rows: seq<seq<int>>, len: nat)
    requires forall j :: 0 <= j < |rows| ==> |rows[j]| == len
    ensures |Flat(rows)| == |rows| * len
  {
    if |rows| > 0 {
      FlatLength(rows[..|rows| - 1], len);
      assert (|rows| - 1) * len + len == |rows| * len;
    }
  }

  lemma {:induction false} RangeBytesAt(ranges: seq<(int, int)>, b: nat)
    requires b < |ranges|
    ensures |RangeBytes(ranges)| == 2 * |ranges|
    ensures RangeBytes(ranges)[2 * b] == ranges[b].0 && RangeBytes(ranges)[2 * b + 1] == ranges[b].1
    decreases |ranges|
  {
    if b < |ranges| - 1 {
      RangeBytesAt(ranges[..|ranges| - 1], b);
    } else if b > 0 {
      RangeBytesAt(ranges[..|ranges| - 1], b - 1);
    } else {
      assert RangeBytes(ranges[..0]) == [];
    }
  }

  lemma RegionSizes(m: SmplMem, t: PitchTables)
    requires t.ValidShape() && HoldsTables(m, t)
    ensures |m.regions[0].data| == 14792 && |m.regions[1].data| == 436 && |m.regions[2].data| == 1920
    ensures |m.regions[3].data| == 180 && |m.regions[4].data| == 217 && |m.regions[5].data| == 20
  {
    hide Packed, Flat, RangeBytes, RecordRows;
    FlatLength(RecordRows(t.blocksegs), 17);
    FlatLength(t.deltaLagCmfs, 320);
    FlatLength(t.blockTransitionCmf, 10);
    RangeBytesAt(t.firstblockRange, 0);
  }

  /** The regions do not overlap: what lies in one is read from there. */
  lemma RegionForThis(m: SmplMem, t: PitchTables, k: nat, off: nat, n: nat)
    requires t.ValidShape() && HoldsTables(m, t) && k < 6 && 0 < n && off + n <= |m.regions[k].data|
    ensures RegionFor(m.regions, m.regions[k].base + off, n) == k
  {
    hide Packed, Flat, RangeBytes, RecordRows;
    RegionSizes(m, t);
    var r := m.regions;
    assert r[0].base == 0xba6de4 && r[1].base == 0xbaa7b0 && r[2].base == 0xbaa9be && r[3].base == 0xbab13e
           && r[4].base == 0xe7c10 && r[5].base == 0xe7ef0;
  }

  lemma Pow256Values()
    ensures Pow256(1) == 256 && Pow256(2) == 0x1_0000 && Pow256(4) == 0x1_0000_0000
  {
    assert Pow256(3) == 0x100_0000;
  }

  /** Entry i of the table in region k. */
  lemma ReadEntry(m: SmplMem, t: PitchTables, k: nat, vs: seq<int>, n: nat, i: nat)
    requires t.ValidShape() && HoldsTables(m, t) && k < 6 && 0 < n
    requires IsRegion(m.regions[k], m.regions[k].base, vs, n) && i < |vs| && vs[i] < Pow256(n)
    ensures m.Read(m.regions[k].base + i * n, n) == vs[i]
  {
    hide HoldsTables, Packed, Little;
    PackedAt(vs, n, i);
    RegionForThis(m, t, k, i * n, n);
  }

  /** Word j of contour record c. */
  lemma ReadRecord(m: SmplMem, t: PitchTables, c: nat, j: nat)
    requires t.Valid() && HoldsTables(m, t) && c < NUM_CONTOURS && j < 17
    ensures m.I32(m.gClk + 0x5704 + c * 0x44 + 0x1d38 + j * 4) == RecordWords(t.blocksegs[c])[j]
  {
    hide Packed, Flat, RangeBytes, Eight, ValidCdf;
    var rows := RecordRows(t.blocksegs);
    FlatAt(rows, 17, c, j);
    RecordWordBound(t.blocksegs[c], j);
    Pow256Values();
    ReadEntry(m, t, 0, Flat(rows) + HEADER, 4, c * 17 + j);
  }

  lemma RecordWordBound(bs: Blockseg, j: nat)
    requires bs.Valid() && j < 17
    ensures 0 <= RecordWords(bs)[j] < 0x8000_0000
  {
    if 8 <= j < 8 + |bs.seglens| {
      SegBound(bs.seglens, j - 8, |bs.seglens|);
    }
  }


  /** Word i of the header. */
  lemma ReadWord(m: SmplMem, t: PitchTables, i: nat)
    requires t.Valid() && HoldsTables(m, t) && i < 9
    ensures m.U32(MEM_PCFG + 22236 + i * 4) == HEADER[i]
  {
    hide Packed, Flat, RangeBytes, ValidCdf, RecordRows;
    var rows := RecordRows(t.blocksegs);
    FlatLength(rows, 17);
    Pow256Values();
    ReadEntry(m, t, 0, Flat(rows) + HEADER, 4, 3689 + i);
  }

  lemma ReadHeader(m: SmplMem, t: PitchTables)
    requires t.Valid() && HoldsTables(m, t)
    ensures var pcfg := m.gClk + 0x5704;
            && m.U32(pcfg + 22240) == NUM_CONTOURS && m.U32(pcfg + 22244) == HDR_CONTOUR_MAP
            && m.U32(pcfg + 22248) == HDR_LAG_CDF && m.U32(pcfg + 22252) == HDR_FRAC_BASE
            && m.U32(pcfg + 22268) == HDR_DELTA_CDF
  {
    hide Packed, Flat, RangeBytes, ValidCdf, RecordRows, SmplMem.U32;
    ReadWord(m, t, 1);
    ReadWord(m, t, 2);
    ReadWord(m, t, 3);
    ReadWord(m, t, 4);
    ReadWord(m, t, 8);
  }

  /** A stretch of 16-bit entries of the table in region k. */
  lemma ReadHalves(m: SmplMem, t: PitchTables, k: nat, vs: seq<int>, start: nat, n: nat)
    requires t.ValidShape() && HoldsTables(m, t) && k < 6
    requires IsRegion(m.regions[k], m.regions[k].base, vs, 2) && start + n <= |vs|
    requires forall i :: 0 <= i < |vs| ==> vs[i] < 0x1_0000
    ensures m.Halves(m.regions[k].base + start * 2, n) == vs[start..start + n]
  {
    hide PitchTables.ValidShape, Packed, IsRegion, SmplMem.Read;
    Pow256Values();
    var addr := m.regions[k].base + start * 2;
    forall i | 0 <= i < n ensures m.U16(addr + i * 2) == vs[start + i] {
      ReadEntry(m, t, k, vs, 2, start + i);
    }
  }

  lemma ReadLagCdf(m: SmplMem, t: PitchTables, start: nat, n: nat)
    requires t.Valid() && HoldsTables(m, t) && start + n <= NUM_CONTOURS + 1
    ensures m.Halves(HDR_LAG_CDF + start * 2, n) == t.blocksegIdxCmf[start..start + n]
  {
    hide Packed, Flat, RangeBytes, RecordRows;
    ReadHalves(m, t, 1, t.blocksegIdxCmf, start, n);
  }

  /** The decoder's fractional-lag table for a gain mode, from entry start on. */
  lemma ReadFracCdf(m: SmplMem, t: PitchTables, mode: nat, start: nat, n: nat)
    requires t.Valid() && HoldsTables(m, t) && mode < 3 && start + n <= 320
    ensures m.Halves(HDR_FRAC_BASE + mode * 640 + start * 2, n) == t.deltaLagCmfs[mode][start..start + n]
  {
    hide Packed, Flat, RangeBytes, RecordRows;
    FlatBounded(t.deltaLagCmfs);
    FlatSlice(t.deltaLagCmfs, 320, mode, mode * 320, start, n);
    ReadHalves(m, t, 2, Flat(t.deltaLagCmfs), mode * 320 + start, n);
  }

  lemma ReadTransitionCdf(m: SmplMem, t: PitchTables, b: nat)
    requires t.Valid() && HoldsTables(m, t) && b < NUM_BLOCKS
    ensures m.Halves(HDR_DELTA_CDF + b * 20, 10) == t.blockTransitionCmf[b]
  {
    hide Packed, Flat, RangeBytes, RecordRows;
    FlatBounded(t.blockTransitionCmf);
    FlatSlice(t.blockTransitionCmf, 10, b, b * 10, 0, 10);
    ReadHalves(m, t, 3, Flat(t.blockTransitionCmf), b * 10, 10);
  }

  /** Part of row k, which starts at place at. */
  lemma FlatSlice(rows: seq<seq<int>>, len: nat, k: nat, at: nat, start: nat, n: nat)
    requires (forall j :: 0 <= j < |rows| ==> |rows[j]| == len) && k < |rows| && at == k * len && start + n <= len
    ensures at + start + n <= |Flat(rows)| && Flat(rows)[at + start..at + start + n] == rows[k][start..start + n]
  {
    hide Flat;
    RowInside(rows, len, k, at);
    SliceAt(Flat(rows), at, rows[k], start, n);
  }

  lemma RowInside(rows: seq<seq<int>>, len: nat, k: nat, at: nat)
    requires (forall j :: 0 <= j < |rows| ==> |rows[j]| == len) && k < |rows| && at == k * len
    ensures at + len <= |Flat(rows)| && forall i :: 0 <= i < len ==> Flat(rows)[at + i] == rows[k][i]
  {
    hide Flat;
    FlatLength(rows, len);
    MulLe(k + 1, |rows|, len);
    assert (k + 1) * len == at + len;
    forall i | 0 <= i < len ensures Flat(rows)[at + i] == rows[k][i] {
      FlatAt(rows, len, k, i);
    }
  }

  lemma SliceAt(all: seq<int>, at: nat, row: seq<int>, start: nat, n: nat)
    requires start + n <= |row| && at + |row| <= |all| && forall i :: 0 <= i < |row| ==> all[at + i] == row[i]
    ensures all[at + start..at + start + n] == row[start..start + n]
  {
    var part, same := all[at + start..at + start + n], row[start..start + n];
    forall i | 0 <= i < n ensures part[i] == same[i] {
      assert all[at + (start + i)] == row[start + i];
    }
  }

  lemma ReadContour(m: SmplMem, t: PitchTables, i: nat)
    requires t.Valid() && HoldsTables(m, t) && i < NUM_CONTOURS
    ensures m.U8(HDR_CONTOUR_MAP + i) == t.blocksegs2idx[i]
  {
    hide Packed, Flat, RangeBytes, RecordRows, ValidCdf;
    Pow256Values();
    ReadEntry(m, t, 4, t.blocksegs2idx, 1, i);
  }

  lemma ReadBounds(m: SmplMem, t: PitchTables, b: nat)
    requires t.Valid() && HoldsTables(m, t) && b < NUM_BLOCKS
    ensures m.U8(DELTA_BOUNDS + b * 2) == t.firstblockRange[b].0
    ensures m.U8(DELTA_BOUNDS + b * 2 + 1) == t.firstblockRange[b].1
  {
    hide Packed, Flat, RangeBytes, RecordRows, ValidCdf;
    Pow256Values();
    RangeBytesAt(t.firstblockRange, b);
    ReadEntry(m, t, 5, RangeBytes(t.firstblockRange) + [0, 0], 1, 2 * b);
    ReadEntry(m, t, 5, RangeBytes(t.firstblockRange) + [0, 0], 1, 2 * b + 1);
  }
}
