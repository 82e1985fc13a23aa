/**
 * Pulse vectors and the symbols that stand for them: run lengths between pulses (a zero run adds
 * a unit to the pulse before it) and sign bits in batches of fifteen.  The two directions used by
 * the encoder and the decoder are inverse to each other.
 */
module PulseVectors {
  import opened Bytes

  function Sum(s: seq<int>): int {
    if |s| == 0 then 0 else Sum(s[..|s| - 1]) + s[|s| - 1]
  }

  function AbsSum(s: seq<int>): nat {
    if |s| == 0 then 0 else AbsSum(s[..|s| - 1]) + Abs(s[|s| - 1])
  }

  function Zeros(k: nat): (z: seq<int>)
    ensures |z| == k
  {
    seq(k, i => 0)
  }

  function Sign(x: int): int {
    if x < 0 then -1 else 1
  }

  // ---- From a vector to run lengths ----

  /** The position of the last pulse, 0 when there is none. */
  function LastPos(w: seq<int>): (p: nat)
    ensures |w| > 0 ==> p < |w|
    ensures |w| == 0 ==> p == 0
  {
    if |w| == 0 then 0
    else if w[|w| - 1] != 0 then |w| - 1
    else LastPos(w[..|w| - 1])
  }

  /** Run lengths of a subframe: the gap to each pulse, then a zero for each further unit of it. */
  function BuildRuns(w: seq<int>): seq<int> {
    if |w| == 0 then []
    else
      var before := w[..|w| - 1];
      var x := w[|w| - 1];
      if x == 0 then BuildRuns(before)
      else BuildRuns(before) + ([|before| - LastPos(before)] + Zeros(Abs(x) - 1))
  }

  function BuildSigns(w: seq<int>): seq<int> {
    if |w| == 0 then []
    else if w[|w| - 1] == 0 then BuildSigns(w[..|w| - 1])
    else BuildSigns(w[..|w| - 1]) + [Sign(w[|w| - 1])]
  }

  // ---- From run lengths to pulses ----

  /** Pulse positions and their magnitudes, in order. */
  datatype Spikes = Spikes(pos: seq<int>, mag: seq<int>)

  function Tip(g: Spikes): int {
    if |g.pos| == 0 then 0 else g.pos[|g.pos| - 1]
  }

  /** The last pulse gains k units. */
  function Thicken(g: Spikes, k: int): Spikes
    requires |g.mag| > 0
  {
    Spikes(g.pos, g.mag[|g.mag| - 1 := g.mag[|g.mag| - 1] + k])
  }

  /** A new pulse of k units at position p. */
  function AddPulse(g: Spikes, p: int, k: int): Spikes {
    Spikes(g.pos + [p], g.mag + [k])
  }

  /** One run length: a new pulse, or one more unit of the last. */
  function Grow(g: Spikes, m: int): (r: Spikes)
    requires |g.pos| == |g.mag|
    ensures |r.pos| == |r.mag| > 0
  {
    if m > 0 || |g.pos| == 0 then AddPulse(g, Tip(g) + m, 1) else Thicken(g, 1)
  }

  function Gather(runs: seq<int>): (g: Spikes)
    ensures |g.pos| == |g.mag|
    ensures |runs| > 0 <==> |g.pos| > 0
  {
    if |runs| == 0 then Spikes([], []) else Grow(Gather(runs[..|runs| - 1]), runs[|runs| - 1])
  }

  /** The pulses of a vector, read off directly. */
  function SpikesOf(w: seq<int>): (g: Spikes)
    ensures |g.pos| == |g.mag|
  {
    if |w| == 0 then Spikes([], [])
    else
      var g := SpikesOf(w[..|w| - 1]);
      if w[|w| - 1] == 0 then g else AddPulse(g, |w| - 1, Abs(w[|w| - 1]))
  }

  lemma GatherPush(runs: seq<int>, m: int)
    ensures Gather(runs + [m]) == Grow(Gather(runs), m)
  {
    var v := runs + [m];
    assert v[..|v| - 1] == runs && v[|v| - 1] == m;
  }

  /** A tail of k zero runs adds k units to the last pulse. */
  lemma {:induction false} GatherZeros(runs: seq<int>, k: nat)
    requires |runs| > 0
    ensures Gather(runs + Zeros(k)) == Thicken(Gather(runs), k)
  {
    if k == 0 {
      assert runs + Zeros(0) == runs;
    } else {
      GatherZeros(runs, k - 1);
      assert runs + Zeros(k) == (runs + Zeros(k - 1)) + [0];
      hide Gather;
      GatherPush(runs + Zeros(k - 1), 0);
    }
  }

  /** One pulse of magnitude k at distance m. */
  lemma GatherPulse(runs: seq<int>, m: int, k: nat)
    requires k >= 1
    ensures Gather(runs + ([m] + Zeros(k - 1))) == Thicken(Grow(Gather(runs), m), k - 1)
  {
    hide Gather, Grow, Thicken;
    Associate(runs, [m], Zeros(k - 1));
    GatherZeros(runs + [m], k - 1);
    GatherPush(runs, m);
  }

  lemma ThickenNew(g: Spikes, m: int, k: int)
    requires |g.pos| == |g.mag| && (m > 0 || |g.pos| == 0)
    ensures Thicken(Grow(g, m), k - 1) == AddPulse(g, Tip(g) + m, k)
  {
  }

  lemma BuildPush(w: seq<int>, x: int)
    requires x != 0
    ensures BuildRuns(w + [x]) == BuildRuns(w) + ([|w| - LastPos(w)] + Zeros(Abs(x) - 1))
    ensures BuildSigns(w + [x]) == BuildSigns(w) + [Sign(x)]
    ensures LastPos(w + [x]) == |w|
  {
    var v := w + [x];
    assert v[..|v| - 1] == w && v[|v| - 1] == x;
    assert BuildRuns(v) == BuildRuns(w) + ([|w| - LastPos(w)] + Zeros(Abs(x) - 1));
  }

  lemma SkipZero(w: seq<int>)
    ensures BuildRuns(w + [0]) == BuildRuns(w) && LastPos(w + [0]) == LastPos(w)
    ensures SpikesOf(w + [0]) == SpikesOf(w) && BuildSigns(w + [0]) == BuildSigns(w)
  {
    var v := w + [0];
    assert v[..|v| - 1] == w && v[|v| - 1] == 0;
  }

  lemma SpikesPush(w: seq<int>, x: int)
    requires x != 0
    ensures SpikesOf(w + [x]) == AddPulse(SpikesOf(w), |w|, Abs(x))
  {
    var v := w + [x];
    assert v[..|v| - 1] == w && v[|v| - 1] == x;
  }

  /** Gathering the run lengths of a vector finds exactly its pulses. */
  lemma {:induction false} GatherBuild(w: seq<int>)
    ensures Gather(BuildRuns(w)) == SpikesOf(w)
    ensures Tip(SpikesOf(w)) == LastPos(w)
  {
    if |w| > 0 {
      var before, x := w[..|w| - 1], w[|w| - 1];
      assert w == before + [x];
      GatherBuild(before);
      if x == 0 {
        SkipZero(before);
      } else {
        GatherBuildPulse(before, x);
      }
    }
  }

  lemma GatherBuildPulse(w: seq<int>, x: int)
    requires x != 0 && Gather(BuildRuns(w)) == SpikesOf(w) && Tip(SpikesOf(w)) == LastPos(w)
    ensures Gather(BuildRuns(w + [x])) == SpikesOf(w + [x])
    ensures Tip(SpikesOf(w + [x])) == LastPos(w + [x])
  {
    hide Gather, BuildRuns, SpikesOf, LastPos, BuildSigns;
    SpikesPush(w, x);
    BuildPush(w, x);
    NoRuns(w);
    var m := |w| - LastPos(w);
    assert Tip(SpikesOf(w)) + m == |w|;
    GatherPulse(BuildRuns(w), m, Abs(x));
    ThickenNew(SpikesOf(w), m, Abs(x));
  }

  /** Only an empty or all-zero vector has no run lengths, and then the last position is 0. */
  lemma NoRuns(w: seq<int>)
    requires Gather(BuildRuns(w)) == SpikesOf(w)
    ensures |w| - LastPos(w) > 0 || |BuildRuns(w)| == 0
  {
  }

  /** There are as many run lengths as units of pulse. */
  lemma {:induction false} BuildRunsCount(w: seq<int>)
    ensures |BuildRuns(w)| == AbsSum(w)
  {
    if |w| > 0 {
      BuildRunsCount(w[..|w| - 1]);
    }
  }

  // ---- Painting pulses into a vector ----

  /** The decoder's scatter: write each value at its position, if that is one of the n. */
  function Scatter(pos: seq<int>, vals: seq<int>, n: nat): (v: seq<int>)
    requires |pos| == |vals|
    ensures |v| == n
  {
    if |pos| == 0 then Zeros(n)
    else
      var v := Scatter(pos[..|pos| - 1], vals[..|vals| - 1], n);
      if 0 <= pos[|pos| - 1] < n then v[pos[|pos| - 1] := vals[|vals| - 1]] else v
  }

  /** Magnitudes with their signs. */
  function Signed(mag: seq<int>, signs: seq<int>): (vals: seq<int>)
    ensures |vals| == |mag|
  {
    seq(|mag|, i requires 0 <= i < |mag| => if i < |signs| then mag[i] * signs[i] else mag[i])
  }

  lemma {:induction false} ScatterIgnoresTail(pos: seq<int>, vals: seq<int>, n: nat, k: nat)
    requires |pos| == |vals| && n <= k
    requires forall i :: 0 <= i < |pos| ==> 0 <= pos[i] < n
    ensures Scatter(pos, vals, k) == Scatter(pos, vals, n) + Zeros(k - n)
  {
    if |pos| > 0 {
      ScatterIgnoresTail(pos[..|pos| - 1], vals[..|vals| - 1], n, k);
    }
  }

  lemma {:induction false} SignsCount(w: seq<int>)
    ensures |BuildSigns(w)| == |SpikesOf(w).pos|
  {
    if |w| > 0 {
      SignsCount(w[..|w| - 1]);
    }
  }

  /** Scattering the pulses of a vector gives the vector back. */
  lemma {:induction false} ScatterBack(w: seq<int>)
    ensures |BuildSigns(w)| == |SpikesOf(w).pos|
    ensures forall i :: 0 <= i < |SpikesOf(w).pos| ==> 0 <= SpikesOf(w).pos[i] < |w|
    ensures Scatter(SpikesOf(w).pos, Signed(SpikesOf(w).mag, BuildSigns(w)), |w|) == w
  {
    SignsCount(w);
    if |w| > 0 {
      var before, x := w[..|w| - 1], w[|w| - 1];
      assert w == before + [x];
      ScatterBack(before);
      SkipZero(before);
      hide SpikesOf, BuildSigns, Scatter, Signed;
      ScatterIgnoresTail(SpikesOf(before).pos, Signed(SpikesOf(before).mag, BuildSigns(before)), |before|, |w|);
      if x != 0 {
        ScatterBackPulse(before, x);
      } else {
        assert w == before + Zeros(1);
      }
    }
  }

  lemma ScatterBackPulse(w: seq<int>, x: int)
    requires x != 0
    requires |BuildSigns(w)| == |SpikesOf(w).pos| && |BuildSigns(w + [x])| == |SpikesOf(w + [x]).pos|
    requires forall i :: 0 <= i < |SpikesOf(w).pos| ==> 0 <= SpikesOf(w).pos[i] < |w|
    requires Scatter(SpikesOf(w).pos, Signed(SpikesOf(w).mag, BuildSigns(w)), |w| + 1) == w + Zeros(1)
    ensures forall i :: 0 <= i < |SpikesOf(w + [x]).pos| ==> 0 <= SpikesOf(w + [x]).pos[i] < |w| + 1
    ensures Scatter(SpikesOf(w + [x]).pos, Signed(SpikesOf(w + [x]).mag, BuildSigns(w + [x])), |w| + 1) == w + [x]
  {
    SpikesPush(w, x);
    BuildPush(w, x);
    hide SpikesOf, BuildSigns, BuildRuns, LastPos;
    var g, g', s, s' := SpikesOf(w), SpikesOf(w + [x]), BuildSigns(w), BuildSigns(w + [x]);
    assert g'.pos[..|g.pos|] == g.pos;
    assert Signed(g'.mag, s')[..|g.mag|] == Signed(g.mag, s);
    assert Abs(x) * Sign(x) == x;
  }

  // ---- From symbols to a vector and back to the symbols ----

  /** Run lengths that stay inside a window of pos positions. */
  predicate RunsFit(pos: int, runs: seq<int>) {
    |runs| == 0 || (0 <= runs[0] < pos && RunsFit(pos - runs[0], runs[1..]))
  }

  predicate AreSigns(signs: seq<int>) {
    forall i :: 0 <= i < |signs| ==> signs[i] == 1 || signs[i] == -1
  }

  lemma {:induction false} RunsFitPush(pos: int, runs: seq<int>, m: int)
    requires pos > 0
    ensures RunsFit(pos, runs + [m]) <==> RunsFit(pos, runs) && 0 <= m < pos - Sum(runs)
    ensures RunsFit(pos, runs) ==> 0 <= Sum(runs) < pos
    decreases |runs|
  {
    if |runs| > 0 {
      assert (runs + [m])[1..] == runs[1..] + [m];
      SumFront(runs);
      if 0 <= runs[0] < pos {
        RunsFitPush(pos - runs[0], runs[1..], m);
      }
    }
  }

  lemma {:induction false} SumFront(s: seq<int>)
    requires |s| > 0
    ensures Sum(s) == s[0] + Sum(s[1..])
  {
    if |s| > 1 {
      SumFront(s[..|s| - 1]);
      assert s[..|s| - 1][1..] == s[1..][..|s| - 2];
    }
  }

  lemma SumPush(s: seq<int>, m: int)
    ensures Sum(s + [m]) == Sum(s) + m
  {
    assert (s + [m])[..|s|] == s;
  }

  /** Gathered pulses lie in increasing order below the running position, each at least one unit. */
  lemma {:induction false} GatherBounds(pos: int, runs: seq<int>)
    requires RunsFit(pos, runs) && pos > 0
    ensures var g := Gather(runs);
            && Tip(g) == Sum(runs) && 0 <= Tip(g) < pos
            && (forall i :: 0 <= i < |g.pos| ==> 0 <= g.pos[i] <= Tip(g) && g.mag[i] >= 1)
            && (forall i :: 0 <= i < |g.pos| - 1 ==> g.pos[i] < Tip(g))
  {
    if |runs| > 0 {
      var r, m := runs[..|runs| - 1], runs[|runs| - 1];
      assert runs == r + [m];
      RunsFitPush(pos, r, m);
      hide Gather, Sum, RunsFit;
      SumPush(r, m);
      GatherBounds(pos, r);
      GatherPush(r, m);
      hide Tip;
      assert m > 0 || |r| == 0 ==> Gather(runs).mag[|Gather(runs).mag| - 1] == 1;
    }
  }

  lemma {:induction false} BuildZeros(w: seq<int>, k: nat)
    ensures BuildRuns(w + Zeros(k)) == BuildRuns(w)
    ensures BuildSigns(w + Zeros(k)) == BuildSigns(w)
    ensures LastPos(w + Zeros(k)) == LastPos(w)
  {
    hide BuildRuns, BuildSigns, LastPos;
    if k == 0 {
      assert w + Zeros(0) == w;
    } else {
      BuildZeros(w, k - 1);
      SkipZero(w + Zeros(k - 1));
      assert w + Zeros(k) == w + Zeros(k - 1) + [0];
    }
  }

  /** The vector that run lengths and signs describe, up to and including the last pulse. */
  function Painted(runs: seq<int>, signs: seq<int>): (w: seq<int>) {
    if |runs| == 0 then []
    else Scatter(Gather(runs).pos, Signed(Gather(runs).mag, signs), Max(0, Tip(Gather(runs)) + 1))
  }

  /** Building run lengths and signs from the described vector returns the ones it came from. */
  lemma {:induction false} BuildPainted(runs: seq<int>, signs: seq<int>)
    requires RunsFit(80, runs) && AreSigns(signs) && |signs| == |Gather(runs).pos|
    ensures BuildRuns(Painted(runs, signs)) == runs
    ensures BuildSigns(Painted(runs, signs)) == signs
    decreases |runs|
  {
    if |runs| > 0 {
      var r, m := runs[..|runs| - 1], runs[|runs| - 1];
      assert runs == r + [m];
      hide Painted, BuildRuns, BuildSigns, Gather, Scatter, RunsFit, LastPos;
      RunsFitPush(80, r, m);
      GatherBounds(80, r);
      GatherPush(r, m);
      if |r| == 0 {
        PaintFirst(m, signs);
      } else if m > 0 {
        BuildPainted(r, signs[..|signs| - 1]);
        BuildPaintedNext(r, m, signs);
      } else {
        BuildPainted(r, signs);
        BuildPaintedAgain(r, signs);
      }
    }
  }

  lemma BuildPaintedNext(r: seq<int>, m: int, signs: seq<int>)
    requires |r| > 0 && m > 0 && RunsFit(80, r) && RunsFit(80, r + [m]) && AreSigns(signs)
    requires |signs| == |Gather(r).pos| + 1 == |Gather(r + [m]).pos|
    requires BuildRuns(Painted(r, signs[..|signs| - 1])) == r
    requires BuildSigns(Painted(r, signs[..|signs| - 1])) == signs[..|signs| - 1]
    ensures BuildRuns(Painted(r + [m], signs)) == r + [m]
    ensures BuildSigns(Painted(r + [m], signs)) == signs
  {
    hide Painted, BuildRuns, BuildSigns, Gather, Scatter, RunsFit, LastPos;
    PaintNext(r, m, signs);
    var w, s := Painted(r, signs[..|signs| - 1]), signs[|signs| - 1];
    BuildZeros(w, m - 1);
    BuildPush(w + Zeros(m - 1), s);
    var _, _ := PaintedEnds(r, signs[..|signs| - 1]);
    assert r + ([m] + Zeros(Abs(s) - 1)) == r + [m];
  }

  lemma BuildPaintedAgain(r: seq<int>, signs: seq<int>)
    requires |r| > 0 && RunsFit(80, r) && RunsFit(80, r + [0]) && AreSigns(signs)
    requires |signs| == |Gather(r).pos| == |Gather(r + [0]).pos|
    requires BuildRuns(Painted(r, signs)) == r && BuildSigns(Painted(r, signs)) == signs
    ensures BuildRuns(Painted(r + [0], signs)) == r + [0]
    ensures BuildSigns(Painted(r + [0], signs)) == signs
  {
    hide Painted, BuildRuns, BuildSigns, Gather, Scatter, RunsFit, LastPos;
    PaintAgain(r, signs);
    var b, x := PaintedEnds(r, signs);
    BuildPush(b, x);
    var y := x + signs[|signs| - 1];
    BuildPush(b, y);
    assert (b + [x])[..|b|] == b;
    var l, d := BuildRuns(b), |b| - LastPos(b);
    assert l + ([d] + Zeros(Abs(y) - 1)) == l + ([d] + Zeros(Abs(x) - 1)) + [0];
  }

  lemma OneRun(m: int)
    requires 0 <= m < 80
    ensures RunsFit(80, [m]) && Gather([m]) == Spikes([m], [1])
  {
    GatherPush([], m);
    RunsFitPush(80, [], m);
    assert [] + [m] == [m];
  }

  lemma PaintOne(m: int, signs: seq<int>)
    requires 0 <= m < 80 && |signs| == 1 && AreSigns(signs)
    requires RunsFit(80, [m]) && Gather([m]) == Spikes([m], [1])
    ensures Painted([m], signs) == Zeros(m) + signs
  {
    hide Gather, RunsFit;
    var pos, vals := [m], Signed([1], signs);
    assert vals == signs && pos[..0] == [] && vals[..0] == [];
    assert Scatter(pos[..0], vals[..0], m + 1) == Zeros(m + 1);
    assert Scatter(pos, vals, m + 1) == Zeros(m + 1)[m := signs[0]];
  }

  lemma PaintFirst(m: int, signs: seq<int>)
    requires 0 <= m < 80 && |signs| == 1 && AreSigns(signs)
    ensures RunsFit(80, [m]) && Gather([m]) == Spikes([m], [1])
    ensures BuildRuns(Painted([m], signs)) == [m]
    ensures BuildSigns(Painted([m], signs)) == signs
  {
    OneRun(m);
    PaintOne(m, signs);
    hide Painted, Gather, RunsFit;
    assert [] + Zeros(m) == Zeros(m);
    BuildZeros([], m);
    assert signs == [signs[0]];
    BuildPush(Zeros(m), signs[0]);
  }

  /** The described vector ends in its last pulse, whose sign is the last sign. */
  lemma PaintedEnds(runs: seq<int>, signs: seq<int>) returns (b: seq<int>, x: int)
    requires |runs| > 0 && RunsFit(80, runs) && AreSigns(signs) && |signs| == |Gather(runs).pos|
    ensures Painted(runs, signs) == b + [x] && |b| == Tip(Gather(runs))
    ensures x == Gather(runs).mag[|signs| - 1] * signs[|signs| - 1] && x != 0
    ensures Sign(x) == signs[|signs| - 1] && Abs(x + Sign(x)) == Abs(x) + 1 && Sign(x + Sign(x)) == Sign(x)
    ensures LastPos(Painted(runs, signs)) == |b|
  {
    hide Gather, RunsFit, BuildRuns, BuildSigns;
    GatherBounds(80, runs);
    var w := Painted(runs, signs);
    b, x := w[..|w| - 1], w[|w| - 1];
    assert w == b + [x];
    SignedUnit(Gather(runs).mag[|signs| - 1], signs[|signs| - 1]);
    BuildPush(b, x);
  }

  lemma SignedUnit(mag: int, s: int)
    requires mag >= 1 && (s == 1 || s == -1)
    ensures mag * s != 0 && Sign(mag * s) == s && Abs(mag * s + s) == Abs(mag * s) + 1 && Sign(mag * s + s) == s
  {
  }

  lemma PaintNext(r: seq<int>, m: int, signs: seq<int>)
    requires |r| > 0 && m > 0 && RunsFit(80, r) && RunsFit(80, r + [m]) && AreSigns(signs)
    requires |signs| == |Gather(r).pos| + 1 == |Gather(r + [m]).pos|
    ensures Painted(r + [m], signs)
            == Painted(r, signs[..|signs| - 1]) + Zeros(m - 1) + [signs[|signs| - 1]]
  {
    hide Gather, RunsFit, BuildRuns, BuildSigns;
    GatherBounds(80, r);
    GatherBounds(80, r + [m]);
    GatherPush(r, m);
    var g, g' := Gather(r), Gather(r + [m]);
    var k := |signs| - 1;
    assert g'.pos[..k] == g.pos;
    assert Signed(g'.mag, signs)[..k] == Signed(g.mag, signs[..k]);
    assert Signed(g'.mag, signs)[k] == 1 * signs[k];
    ScatterIgnoresTail(g.pos, Signed(g.mag, signs[..k]), Tip(g) + 1, Tip(g') + 1);
  }

  lemma PaintAgain(r: seq<int>, signs: seq<int>)
    requires |r| > 0 && RunsFit(80, r) && RunsFit(80, r + [0]) && AreSigns(signs)
    requires |signs| == |Gather(r).pos| == |Gather(r + [0]).pos|
    ensures var w := Painted(r, signs);
            |w| > 0 && Painted(r + [0], signs) == w[..|w| - 1] + [w[|w| - 1] + signs[|signs| - 1]]
  {
    hide Gather, RunsFit, BuildRuns, BuildSigns;
    GatherBounds(80, r);
    GatherBounds(80, r + [0]);
    GatherPush(r, 0);
    var g, g' := Gather(r), Gather(r + [0]);
    var k := |signs| - 1;
    assert Signed(g'.mag, signs)[..k] == Signed(g.mag, signs)[..k];
    assert g'.mag[k] * signs[k] == g.mag[k] * signs[k] + signs[k];
  }
}
