/**
 * The probability tables of the MLow codec and what is assumed of them.  Their contents come from
 * embedded seeds; the model takes any tables of the right shapes whose cumulative rows are
 * strictly increasing, which CdfExpansion proves of every row the seeds can expand to.
 */
module CodecTables {
  import opened Bytes
  import opened Intervals
  import opened RangeEncoding

  /** A run of n entries of a cumulative table, zero-filled where it leaves the table. */
  function CdfWindow(base: seq<int>, start: int, n: nat): (w: seq<int>)
    ensures |w| == n
  {
    seq(n, i => if 0 <= start + i < |base| then base[start + i] else 0)
  }

  /** A window that stays inside a usable table is itself usable. */
  lemma WindowValid(base: seq<int>, start: nat, n: nat)
    requires ValidCdf(base) && n >= 2 && start + n <= |base|
    ensures ValidCdf(CdfWindow(base, start, n))
  {
    var w := CdfWindow(base, start, n);
    forall i, j | 0 <= i < j < |w| ensures w[i] < w[j] {
      assert base[start + i] < base[start + j];
    }
  }

  /** What entry s is worth among n entries of a table from place at on: a range of frequencies. */
  function Share(table: seq<int>, at: nat, n: nat, s: nat): Sym
    requires s + 1 < n && at + n <= |table|
  {
    Sym(table[at + s] - table[at], table[at + s + 1] - table[at], table[at + n - 1] - table[at])
  }

  /** Entry s of a whole table. */
  function Entry(table: seq<int>, s: nat): Sym
    requires s + 1 < |table|
  {
    Share(table, 0, |table|, s)
  }

  // ---- Pulse, gain and long-term-prediction tables (cc_tables.go) ----

  const MAX_PULSES_PER_SF := 40

  /** Run-length tables for up to maxSamples positions, one for each number of pulses to come. */
  datatype RunlenCmfs = RunlenCmfs(maxSamples: int, cmfs: seq<seq<int>>)
  {
    predicate Valid(samples: int) {
      && maxSamples == samples && |cmfs| == 40
      && forall c :: 0 <= c < 40 ==> ValidCdf(cmfs[c]) && |cmfs[c]| == samples + 1
    }

    function Cmf(c: int): seq<int>
      requires 1 <= c <= |cmfs|
    {
      cmfs[c - 1]
    }
  }

  predicate SixteenBit(table: seq<int>) {
    forall i :: 0 <= i < |table| ==> -0x8000 <= table[i] < 0x8000
  }

  datatype CcTables = CcTables(
    nrgresGain4: seq<int>,
    nrgresShape4: seq<int>,
    fcbgOffset: seq<seq<int>>,
    acbgainsHr: seq<int>,
    acbgainsCbHrQ14: seq<int>,
    fcbgainsV: seq<int>,
    fcbgainsVDelta: seq<int>,
    gainReconBase: nat,
    gainRecon: seq<int>,
    splitCmfs: seq<seq<int>>,
    runlen: seq<RunlenCmfs>)
  {
    predicate Valid() {
      && |nrgresGain4| == 85 && ValidCdf(nrgresGain4)
      && |nrgresShape4| == 99 && ValidCdf(nrgresShape4)
      && |fcbgOffset| == 12
      && (forall i :: 0 <= i < 12 ==> |fcbgOffset[i]| == 177 && ValidCdf(fcbgOffset[i]))
      && |acbgainsHr| == 17 * 17
      && (forall prev :: -1 <= prev <= 15 ==> ValidCdf(AcbgainRow(prev)))
      && |acbgainsCbHrQ14| == 32 && SixteenBit(acbgainsCbHrQ14) && SixteenBit(gainRecon)
      && |fcbgainsV| == 35 && ValidCdf(fcbgainsV)
      && |fcbgainsVDelta| == 68 && ValidCdf(fcbgainsVDelta)
      && ValidSplits() && ValidRunlens()
    }

    predicate ValidSplits() {
      && |splitCmfs| == 159
      && (forall i :: 0 <= i < 159 ==>
            ValidCdf(splitCmfs[i]) && |splitCmfs[i]| == (i + 1) - 2 * MinHalf(i + 1) + 2)
    }

    predicate ValidRunlens() {
      |runlen| == 20 && forall o :: 0 <= o < 20 ==> runlen[o].Valid(8 * o + 8)
    }

    function AcbgainRow(prev: int): seq<int>
      requires -1 <= prev <= 15 && |acbgainsHr| == 17 * 17
    {
      acbgainsHr[(prev + 1) * 17..(prev + 1) * 17 + 17]
    }

    function AcbgainWeights(gi: int): (int, int)
      requires 0 <= gi < 16 && |acbgainsCbHrQ14| == 32
    {
      (acbgainsCbHrQ14[gi * 2], acbgainsCbHrQ14[gi * 2 + 1])
    }

    function FcbgainVDelta(prevFilt: int): seq<int>
      requires 0 <= prevFilt < 34 && |fcbgainsVDelta| == 68
    {
      fcbgainsVDelta[33 - prevFilt..33 - prevFilt + 35]
    }

    function FcbgOffset(tableIx: nat, bucket: nat, minOffset: nat): seq<int>
      requires tableIx < 3 && bucket < 4 && |fcbgOffset| == 12
      requires minOffset + 92 <= |fcbgOffset[tableIx * 4 + bucket]|
    {
      fcbgOffset[tableIx * 4 + bucket][minOffset..minOffset + 92]
    }

    function GainReconAt(addr: nat): (r: int)
      ensures SixteenBit(gainRecon) ==> -0x8000 <= r < 0x8000
    {
      var off := addr - gainReconBase;
      if off >= 0 && off % 2 == 0 && off / 2 < |gainRecon| then gainRecon[off / 2] else 0
    }

    function NrgStep(cfg: nat): int {
      GainReconAt(gainReconBase + cfg * 2)
    }

    function GainRecon(p4: bool, idx: nat): int {
      GainReconAt((if p4 then 0xf35f0 else 0xf3970) + idx * 2)
    }

    /** The split table for a count; nil outside 1..159. */
    function SplitCmf(total: int): seq<int> {
      if 0 <= total - 1 < |splitCmfs| then splitCmfs[total - 1] else []
    }

    function Runlen(oct: int): RunlenCmfs
      requires 1 <= oct <= |runlen|
    {
      runlen[oct - 1]
    }
  }

  /** The least first-half count when neither half may exceed two full subframes. */
  function MinHalf(n: int): int {
    Max(0, n - 2 * MAX_PULSES_PER_SF)
  }

  lemma FcbgainVDeltaValid(cc: CcTables, prev: int)
    requires cc.Valid() && 0 <= prev < 34
    ensures ValidCdf(cc.FcbgainVDelta(prev)) && |cc.FcbgainVDelta(prev)| == 35
  {
    SliceValid(cc.fcbgainsVDelta, 33 - prev, 35);
  }

  lemma SliceValid(base: seq<int>, start: nat, n: nat)
    requires ValidCdf(base) && n >= 2 && start + n <= |base|
    ensures ValidCdf(base[start..start + n])
  {
    var w := base[start..start + n];
    forall i, j | 0 <= i < j < |w| ensures w[i] < w[j] {
      assert base[start + i] < base[start + j];
    }
  }
}
