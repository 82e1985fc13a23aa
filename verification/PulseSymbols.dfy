/** The symbols of one excitation block: count, splits, run lengths and signs, in stream order. */
module PulseSymbols {
  import opened Bytes
  import opened Intervals
  import opened RangeEncoding
  import opened CodecTables
  import opened PulseSpec
  import opened PulseVectors

  // ---- Splits ----

  /** The first-half counts that a count of n allows when each side holds at most gran. */
  function SplitLow(n: int, gran: int): int {
    Max(0, n - gran)
  }

  function SplitHigh(n: int, gran: int): int {
    Min(n, gran)
  }

  /** One subframe pair: first subframe gets s0 of n pulses, neither more than 40. */
  function PairSyms(cc: CcTables, n: int, s0: int): seq<Sym>
    requires cc.Valid() && 0 <= n <= 80 && SplitLow(n, 40) <= s0 <= SplitHigh(n, 40)
  {
    var low, high := SplitLow(n, 40), SplitHigh(n, 40);
    if low == high then []
    else
      PairWindow(cc, n);
      [CdfSym(CdfWindow(cc.SplitCmf(n), low, high - low + 2), s0 - low)]
  }

  lemma PairWindow(cc: CcTables, n: int)
    requires cc.Valid() && 1 <= n <= 79
    ensures ValidCdf(CdfWindow(cc.SplitCmf(n), SplitLow(n, 40), SplitHigh(n, 40) - SplitLow(n, 40) + 2))
  {
    WindowValid(cc.SplitCmf(n), SplitLow(n, 40), SplitHigh(n, 40) - SplitLow(n, 40) + 2);
  }

  /** The whole frame: the first half gets sum of total pulses, neither half more than 80. */
  function HalvesSyms(cc: CcTables, total: int, sum: int): seq<Sym>
    requires cc.Valid() && 1 <= total <= 160 && SplitLow(total, 80) <= sum <= SplitHigh(total, 80)
  {
    var low, high := SplitLow(total, 80), SplitHigh(total, 80);
    if low == high then []
    else
      HalvesWindow(cc, total);
      [CdfSym(CdfWindow(cc.SplitCmf(total), 0, high - low + 2), sum - low)]
  }

  lemma HalvesWindow(cc: CcTables, total: int)
    requires cc.Valid() && 1 <= total <= 159
    ensures ValidCdf(CdfWindow(cc.SplitCmf(total), 0, SplitHigh(total, 80) - SplitLow(total, 80) + 2))
  {
    WindowValid(cc.SplitCmf(total), 0, SplitHigh(total, 80) - SplitLow(total, 80) + 2);
  }

  /** Counts of four subframes that a frame of at most 160 pulses can have. */
  predicate CountsFit(subfr: seq<int>, total: int) {
    && |subfr| == 4
    && (forall i :: 0 <= i < 4 ==> 0 <= subfr[i] <= 40)
    && subfr[0] + subfr[1] + subfr[2] + subfr[3] == total
  }

  function SplitSyms(cc: CcTables, total: int, subfr: seq<int>): seq<Sym>
    requires cc.Valid() && CountsFit(subfr, total)
  {
    if total == 0 then []
    else
      var sum := subfr[0] + subfr[1];
      HalvesSyms(cc, total, sum) + PairSyms(cc, sum, subfr[0]) + PairSyms(cc, total - sum, subfr[2])
  }

  // ---- Run lengths ----

  /** The run-length table with pos positions left and c pulses to come. */
  function RunWindow(cc: CcTables, pos: int, c: int): (w: seq<int>)
    requires cc.Valid() && 1 <= pos <= 80 && 1 <= c <= 40
    ensures |w| == pos + 1 && ValidCdf(w)
  {
    var bucket := cc.Runlen((pos + 7) / 8);
    WindowValid(bucket.Cmf(c), bucket.maxSamples - pos, pos + 1);
    CdfWindow(bucket.Cmf(c), bucket.maxSamples - pos, pos + 1)
  }

  /** The run lengths of a subframe, with c pulses to come and pos positions left. */
  function RunSyms(cc: CcTables, pos: int, c: int, runs: seq<int>): (ss: seq<Sym>)
    requires cc.Valid() && 1 <= pos <= 80 && |runs| <= c <= 40 && RunsFit(pos, runs)
    ensures |ss| == |runs|
    decreases |runs|
  {
    if |runs| == 0 then []
    else [CdfSym(RunWindow(cc, pos, c), runs[0])] + RunSyms(cc, pos - runs[0], c - 1, runs[1..])
  }

  /** The run lengths of consecutive subframes, each as long as its count. */
  predicate MagsFit(subfr: seq<int>, runs: seq<int>) {
    if |subfr| == 0 then |runs| == 0
    else
      && 0 <= subfr[0] <= 40 && subfr[0] <= |runs|
      && RunsFit(80, runs[..subfr[0]])
      && MagsFit(subfr[1..], runs[subfr[0]..])
  }

  function MagSyms(cc: CcTables, subfr: seq<int>, runs: seq<int>): seq<Sym>
    requires cc.Valid() && MagsFit(subfr, runs)
  {
    if |subfr| == 0 then []
    else RunSyms(cc, 80, subfr[0], runs[..subfr[0]]) + MagSyms(cc, subfr[1..], runs[subfr[0]..])
  }

  /** The pulses of consecutive subframes, the first starting at base. */
  function GatherAll(subfr: seq<int>, runs: seq<int>, base: int): (g: Spikes)
    ensures |g.pos| == |g.mag|
  {
    if |subfr| == 0 || !(0 <= subfr[0] <= |runs|) then Spikes([], [])
    else Join(Shift(Gather(runs[..subfr[0]]), base), GatherAll(subfr[1..], runs[subfr[0]..], base + 80))
  }

  function Shift(g: Spikes, base: int): (r: Spikes)
    ensures |r.pos| == |g.pos| && r.mag == g.mag
  {
    Spikes(seq(|g.pos|, i requires 0 <= i < |g.pos| => base + g.pos[i]), g.mag)
  }

  function Join(a: Spikes, b: Spikes): Spikes {
    Spikes(a.pos + b.pos, a.mag + b.mag)
  }

  // ---- Signs ----

  /** A sign batch, most significant bit first. */
  function BitsValue(signs: seq<int>): nat {
    if |signs| == 0 then 0
    else 2 * BitsValue(signs[..|signs| - 1]) + (if signs[|signs| - 1] > 0 then 1 else 0)
  }

  function SignBatches(signs: seq<int>): seq<RawSym> {
    if |signs| == 0 then []
    else
      var n := Min(|signs|, 15);
      [RawSym(BitsValue(signs[..n]), n)] + SignBatches(signs[n..])
  }

  /** Batches of fifteen signs, and a last one of what remains of n. */
  predicate BatchesFit(n: nat, syms: seq<RawSym>)
    decreases n
  {
    if n == 0 then |syms| == 0
    else
      && |syms| > 0 && syms[0].nbits == Min(n, 15) && syms[0].sym < Pow2(syms[0].nbits)
      && BatchesFit(n - Min(n, 15), syms[1..])
  }

  /** The sign at place q of a batch: +1 for a set bit. */
  function BatchSign(rs: RawSym, q: nat): int
    requires q < rs.nbits
  {
    if rs.sym / Pow2(rs.nbits - 1 - q) % 2 == 1 then 1 else -1
  }

  function BatchSigns(rs: RawSym): (signs: seq<int>)
    ensures |signs| == rs.nbits && AreSigns(signs)
  {
    seq(rs.nbits, q requires 0 <= q < rs.nbits => BatchSign(rs, q))
  }

  function AllSigns(n: nat, syms: seq<RawSym>): (signs: seq<int>)
    requires BatchesFit(n, syms)
    ensures |signs| == n && AreSigns(signs)
    decreases n
  {
    if n == 0 then [] else BatchSigns(syms[0]) + AllSigns(n - Min(n, 15), syms[1..])
  }

  function RawSyms(syms: seq<RawSym>): (ss: seq<Sym>)
    ensures |ss| == |syms|
  {
    if |syms| == 0 then []
    else [Sym(syms[0].sym, syms[0].sym + 1, Pow2(syms[0].nbits))] + RawSyms(syms[1..])
  }

  lemma {:induction false} BitsValueBound(signs: seq<int>)
    ensures BitsValue(signs) < Pow2(|signs|)
  {
    if |signs| > 0 {
      BitsValueBound(signs[..|signs| - 1]);
    }
  }

  /** Bit q of a batch value, counted from the top, is sign q. */
  lemma {:induction false} BitsValueAt(signs: seq<int>, q: nat)
    requires q < |signs|
    ensures BitsValue(signs) / Pow2(|signs| - 1 - q) % 2 == (if signs[q] > 0 then 1 else 0)
  {
    var n := |signs|;
    if q < n - 1 {
      BitsValueAt(signs[..n - 1], q);
      var v, p := BitsValue(signs[..n - 1]), Pow2(n - 2 - q);
      var b := if signs[n - 1] > 0 then 1 else 0;
      HalveTwice(v, b, p);
    }
  }

  lemma HalveTwice(v: nat, b: nat, p: nat)
    requires b <= 1 && p >= 1
    ensures (2 * v + b) / (2 * p) == v / p
  {
    DivBounds(v, p);
    DivMod(v, p);
    var d, r := v / p, v % p;
    assert d * (2 * p) == 2 * (d * p);
    DivUnique(2 * v + b, 2 * p, d, 2 * r + b);
  }

  /** Cutting signs into batches and reading the batches back loses nothing. */
  lemma {:induction false} BatchesBack(signs: seq<int>)
    requires AreSigns(signs)
    ensures BatchesFit(|signs|, SignBatches(signs))
    ensures AllSigns(|signs|, SignBatches(signs)) == signs
    decreases |signs|
  {
    if |signs| > 0 {
      var n := Min(|signs|, 15);
      BatchBack(signs[..n]);
      BatchesBack(signs[n..]);
      hide BatchSigns, BitsValue;
      assert SignBatches(signs)[1..] == SignBatches(signs[n..]);
      assert signs[..n] + signs[n..] == signs;
    }
  }

  lemma BatchBack(signs: seq<int>)
    requires AreSigns(signs)
    ensures BitsValue(signs) < Pow2(|signs|)
    ensures BatchSigns(RawSym(BitsValue(signs), |signs|)) == signs
  {
    BitsValueBound(signs);
    var rs := RawSym(BitsValue(signs), |signs|);
    forall q | 0 <= q < |signs| ensures BatchSigns(rs)[q] == signs[q] {
      BitsValueAt(signs, q);
    }
  }

  // ---- The block ----

  predicate ValidPulses(p: PulseParams) {
    && CountsFit(p.subfr, p.total)
    && MagsFit(p.subfr, p.magRuns)
    && BatchesFit(|GatherAll(p.subfr, p.magRuns, 0).pos|, p.signSyms)
  }

  function PulseSyms(cc: CcTables, p: PulseParams): seq<Sym>
    requires cc.Valid() && ValidPulses(p)
  {
    [CountSym(p.total)] + SplitSyms(cc, p.total, p.subfr) + MagSyms(cc, p.subfr, p.magRuns) + RawSyms(p.signSyms)
  }

  /** Every position lies between lo and hi, in increasing order. */
  predicate InOrder(pos: seq<int>, lo: int, hi: int) {
    && (forall i :: 0 <= i < |pos| ==> lo <= pos[i] < hi)
    && (forall i, j :: 0 <= i < j < |pos| ==> pos[i] < pos[j])
  }

  lemma JoinInOrder(a: seq<int>, b: seq<int>, lo: int, mid: int, hi: int)
    requires lo <= mid <= hi && InOrder(a, lo, mid) && InOrder(b, mid, hi)
    ensures InOrder(a + b, lo, hi)
  {
  }

  lemma {:induction false} GatherAllBounds(subfr: seq<int>, runs: seq<int>, base: int)
    requires MagsFit(subfr, runs)
    ensures InOrder(GatherAll(subfr, runs, base).pos, base, base + 80 * |subfr|)
  {
    if |subfr| > 0 {
      GatherAllBounds(subfr[1..], runs[subfr[0]..], base + 80);
      GatherBounds(80, runs[..subfr[0]]);
      GatherSorted(80, runs[..subfr[0]]);
      JoinInOrder(Shift(Gather(runs[..subfr[0]]), base).pos,
                  GatherAll(subfr[1..], runs[subfr[0]..], base + 80).pos, base, base + 80, base + 80 * |subfr|);
    }
  }

  lemma {:induction false} GatherSorted(pos: int, runs: seq<int>)
    requires RunsFit(pos, runs) && pos > 0
    ensures forall i, j :: 0 <= i < j < |Gather(runs).pos| ==> Gather(runs).pos[i] < Gather(runs).pos[j]
  {
    if |runs| > 0 {
      var r, m := runs[..|runs| - 1], runs[|runs| - 1];
      assert runs == r + [m];
      RunsFitPush(pos, r, m);
      GatherSorted(pos, r);
      GatherBounds(pos, r);
    }
  }

  /** The excitation a block describes: signed pulses scattered over 320 positions. */
  function Excitation(p: PulseParams): (v: seq<int>)
    requires ValidPulses(p)
    ensures |v| == 320
  {
    var g := GatherAll(p.subfr, p.magRuns, 0);
    Scatter(g.pos, Signed(g.mag, AllSigns(|g.pos|, p.signSyms)), 320)
  }
}
