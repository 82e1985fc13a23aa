/**
 * Pulse vectors and valid excitation parameters are in one-to-one correspondence: building the
 * parameters of a vector and painting the vector of the parameters undo each other.
 */
module PulseBijection {
  import opened Bytes
  import opened PulseSpec
  import opened PulseVectors
  import opened PulseSymbols

  /** The counts of consecutive subframes. */
  function CountsOf(v: seq<int>): seq<int>
    requires |v| % 80 == 0
  {
    if |v| == 0 then [] else [AbsSum(v[..80])] + CountsOf(v[80..])
  }

  /** Their run lengths, one subframe after the other. */
  function RunsOf(v: seq<int>): seq<int>
    requires |v| % 80 == 0
  {
    if |v| == 0 then [] else BuildRuns(v[..80]) + RunsOf(v[80..])
  }

  /** Every subframe holds at most 40 units of pulse. */
  predicate Sparse(v: seq<int>) {
    |v| % 80 == 0 && forall i :: 0 <= i < |CountsOf(v)| ==> CountsOf(v)[i] <= 40
  }

  function ParamsOf(v: seq<int>): PulseParams
    requires |v| == 320
  {
    PulseParams(Sum(CountsOf(v)), CountsOf(v), RunsOf(v), SignBatches(BuildSigns(v)))
  }

  // ---- Vector to parameters to vector ----

  lemma {:induction false} FitZeros(pos: int, runs: seq<int>, k: nat)
    requires pos > 0 && RunsFit(pos, runs)
    ensures RunsFit(pos, runs + Zeros(k)) && Sum(runs + Zeros(k)) == Sum(runs)
  {
    if k == 0 {
      assert runs + Zeros(0) == runs;
    } else {
      FitZeros(pos, runs, k - 1);
      assert runs + Zeros(k) == (runs + Zeros(k - 1)) + [0];
      RunsFitPush(pos, runs + Zeros(k - 1), 0);
      SumPush(runs + Zeros(k - 1), 0);
    }
  }

  /** The run lengths of a vector stay inside it. */
  lemma {:induction false} BuildFits(w: seq<int>, pos: int)
    requires |w| <= pos && pos > 0
    ensures RunsFit(pos, BuildRuns(w)) && Sum(BuildRuns(w)) == LastPos(w)
  {
    if |w| > 0 {
      var before, x := w[..|w| - 1], w[|w| - 1];
      assert w == before + [x];
      BuildFits(before, pos);
      if x == 0 {
        SkipZero(before);
      } else {
        var runs, m := BuildRuns(before), |before| - LastPos(before);
        BuildPush(before, x);
        hide BuildRuns, RunsFit, Sum, LastPos;
        RunsFitPush(pos, runs, m);
        SumPush(runs, m);
        FitZeros(pos, runs + [m], Abs(x) - 1);
        Associate(runs, [m], Zeros(Abs(x) - 1));
      }
    }
  }

  lemma {:induction false} RunsOfFit(v: seq<int>)
    requires Sparse(v)
    ensures MagsFit(CountsOf(v), RunsOf(v))
    ensures |v| > 0 ==> Sparse(v[80..])
    decreases |v|
  {
    if |v| > 0 {
      var w, rest := v[..80], v[80..];
      assert forall i :: 0 <= i < |CountsOf(rest)| ==> CountsOf(rest)[i] == CountsOf(v)[i + 1];
      BuildFits(w, 80);
      BuildRunsCount(w);
      RunsOfFit(rest);
      assert CountsOf(v)[0] == AbsSum(w) && CountsOf(v)[1..] == CountsOf(rest);
      assert RunsOf(v)[..AbsSum(w)] == BuildRuns(w) && RunsOf(v)[AbsSum(w)..] == RunsOf(rest);
    }
  }

  /** Pulses of a concatenation are the pulses of its parts. */
  lemma {:induction false} SpikesConcat(a: seq<int>, b: seq<int>)
    ensures SpikesOf(a + b) == Join(SpikesOf(a), Shift(SpikesOf(b), |a|))
    ensures BuildSigns(a + b) == BuildSigns(a) + BuildSigns(b)
  {
    if |b| == 0 {
      assert a + b == a;
    } else {
      var before, x := b[..|b| - 1], b[|b| - 1];
      SpikesConcat(a, before);
      assert b == before + [x];
      Associate(a, before, [x]);
      if x == 0 {
        SkipZero(a + before);
        SkipZero(before);
      } else {
        SpikesConcatPulse(a, before, x);
      }
    }
  }

  lemma SpikesConcatPulse(a: seq<int>, b: seq<int>, x: int)
    requires x != 0
    requires SpikesOf(a + b) == Join(SpikesOf(a), Shift(SpikesOf(b), |a|))
    requires BuildSigns(a + b) == BuildSigns(a) + BuildSigns(b)
    ensures SpikesOf(a + b + [x]) == Join(SpikesOf(a), Shift(SpikesOf(b + [x]), |a|))
    ensures BuildSigns(a + b + [x]) == BuildSigns(a) + BuildSigns(b + [x])
  {
    SpikesPush(a + b, x);
    SpikesPush(b, x);
    BuildPush(a + b, x);
    BuildPush(b, x);
    hide SpikesOf, BuildSigns, BuildRuns, LastPos;
    var s := SpikesOf(b);
    assert Shift(SpikesOf(b + [x]), |a|).pos == Shift(s, |a|).pos + [|a| + |b|];
    Associate(SpikesOf(a).pos, Shift(s, |a|).pos, [|a| + |b|]);
    Associate(SpikesOf(a).mag, s.mag, [Abs(x)]);
    Associate(BuildSigns(a), BuildSigns(b), [Sign(x)]);
  }

  lemma {:induction false} GatherAllOf(v: seq<int>, base: int)
    requires Sparse(v) && MagsFit(CountsOf(v), RunsOf(v))
    ensures GatherAll(CountsOf(v), RunsOf(v), base) == Shift(SpikesOf(v), base)
    decreases |v|
  {
    if |v| > 0 {
      var w, rest := v[..80], v[80..];
      RunsOfFit(v);
      RunsOfFit(rest);
      BuildRunsCount(w);
      assert CountsOf(v)[0] == AbsSum(w) && CountsOf(v)[1..] == CountsOf(rest);
      assert RunsOf(v)[..AbsSum(w)] == BuildRuns(w) && RunsOf(v)[AbsSum(w)..] == RunsOf(rest);
      GatherAllOf(rest, base + 80);
      GatherBuild(w);
      SpikesConcat(w, rest);
      assert v == w + rest;
      hide SpikesOf, BuildRuns, MagsFit, CountsOf, RunsOf, AbsSum;
      ShiftJoin(SpikesOf(w), SpikesOf(rest), base);
    }
  }

  lemma ShiftJoin(a: Spikes, b: Spikes, base: int)
    ensures Shift(Join(a, Shift(b, 80)), base) == Join(Shift(a, base), Shift(b, base + 80))
  {
    assert Shift(Join(a, Shift(b, 80)), base).pos == Join(Shift(a, base), Shift(b, base + 80)).pos;
  }

  lemma CountsOfFour(v: seq<int>)
    requires |v| == 320
    ensures |CountsOf(v)| == 4
    ensures Sum(CountsOf(v)) == CountsOf(v)[0] + CountsOf(v)[1] + CountsOf(v)[2] + CountsOf(v)[3]
    ensures forall i :: 0 <= i < 4 ==> CountsOf(v)[i] == AbsSum(v[80 * i..80 * i + 80])
  {
    var a, b, c := v[80..], v[160..], v[240..];
    assert a[80..] == b && b[80..] == c && c[80..] == [];
    assert a[..80] == v[80..160] && b[..80] == v[160..240] && c[..80] == v[240..320];
    assert CountsOf(c) == [AbsSum(c[..80])] + [];
    assert CountsOf(b) == [AbsSum(b[..80])] + CountsOf(c);
    assert CountsOf(a) == [AbsSum(a[..80])] + CountsOf(b);
    assert CountsOf(v) == [AbsSum(v[..80])] + CountsOf(a);
    SumFour(CountsOf(v));
  }

  lemma SumFour(s: seq<int>)
    requires |s| == 4
    ensures Sum(s) == s[0] + s[1] + s[2] + s[3]
  {
    assert s[..3][..2] == s[..2] && s[..2][..1] == s[..1] && s[..1][..0] == [];
    assert Sum(s[..1]) == s[0] && Sum(s[..2]) == s[0] + s[1] && Sum(s[..3]) == s[0] + s[1] + s[2];
  }

  /** Every vector with at most 40 units of pulse per subframe survives the parameters. */
  lemma VectorRoundTrip(v: seq<int>)
    requires |v| == 320 && Sparse(v)
    ensures ValidPulses(ParamsOf(v)) && Excitation(ParamsOf(v)) == v
  {
    var p := ParamsOf(v);
    CountsOfFour(v);
    RunsOfFit(v);
    GatherAllOf(v, 0);
    ScatterBack(v);
    assert Shift(SpikesOf(v), 0).pos == SpikesOf(v).pos;
    SignsOfVector(v);
    BatchesBack(BuildSigns(v));
  }

  lemma {:induction false} SignsOfVector(v: seq<int>)
    ensures AreSigns(BuildSigns(v))
  {
    if |v| > 0 {
      SignsOfVector(v[..|v| - 1]);
    }
  }

  // ---- Parameters to vector to parameters ----

  /** The subframe that run lengths and signs describe. */
  function OneSubframe(runs: seq<int>, signs: seq<int>): (w: seq<int>)
    ensures |w| == 80
  {
    Scatter(Gather(runs).pos, Signed(Gather(runs).mag, signs), 80)
  }

  /** The consecutive subframes that run lengths and signs describe, scattered at once. */
  function ScatterAll(subfr: seq<int>, runs: seq<int>, signs: seq<int>): (v: seq<int>)
    ensures |v| == 80 * |subfr|
  {
    Scatter(GatherAll(subfr, runs, 0).pos, Signed(GatherAll(subfr, runs, 0).mag, signs), 80 * |subfr|)
  }

  lemma {:induction false} GatherRebase(subfr: seq<int>, runs: seq<int>, base: int)
    requires MagsFit(subfr, runs)
    ensures GatherAll(subfr, runs, base) == Shift(GatherAll(subfr, runs, 0), base)
    decreases |subfr|
  {
    if |subfr| > 0 {
      var head, tail := runs[..subfr[0]], runs[subfr[0]..];
      GatherRebase(subfr[1..], tail, base + 80);
      GatherRebase(subfr[1..], tail, 80);
      var a, b := Gather(head), GatherAll(subfr[1..], tail, 0);
      assert Shift(a, 0).pos == a.pos;
      ShiftJoin(a, b, base);
    }
  }

  /** Scattering into two halves at once is scattering into each. */
  lemma {:induction false} ScatterJoin(p: seq<int>, u: seq<int>, n: nat, q: seq<int>, w: seq<int>, m: nat)
    requires |p| == |u| && (forall i :: 0 <= i < |p| ==> 0 <= p[i] < n)
    requires |q| == |w| && (forall i :: 0 <= i < |q| ==> 0 <= q[i] < m)
    ensures Scatter(p + Moved(q, n), u + w, n + m) == Scatter(p, u, n) + Scatter(q, w, m)
    decreases |q|
  {
    hide Scatter;
    if |q| == 0 {
      assert p + Moved(q, n) == p && u + w == u;
      ScatterIgnoresTail(p, u, n, n + m);
      assert Scatter(q, w, m) == Zeros(m) by { ScatterNone(q, w, m); }
    } else {
      var k := |q| - 1;
      ScatterJoin(p, u, n, q[..k], w[..k], m);
      MovedPrefix(p, u, q, w, n);
      ScatterPush(p + Moved(q, n), u + w, n + m);
      ScatterPush(q, w, m);
      UpdateJoined(Scatter(p, u, n), Scatter(q[..k], w[..k], m), q[k], w[k]);
    }
  }

  lemma ScatterNone(p: seq<int>, u: seq<int>, n: nat)
    requires |p| == |u| == 0
    ensures Scatter(p, u, n) == Zeros(n)
  {
  }

  lemma ScatterPush(p: seq<int>, u: seq<int>, n: nat)
    requires |p| == |u| > 0 && 0 <= p[|p| - 1] < n
    ensures Scatter(p, u, n) == Scatter(p[..|p| - 1], u[..|p| - 1], n)[p[|p| - 1] := u[|p| - 1]]
  {
  }

  lemma UpdateJoined(a: seq<int>, b: seq<int>, i: int, x: int)
    requires 0 <= i < |b|
    ensures (a + b)[|a| + i := x] == a + b[i := x]
  {
  }

  lemma MovedPrefix(p: seq<int>, u: seq<int>, q: seq<int>, w: seq<int>, n: int)
    requires |p| == |u| && |q| == |w| > 0
    ensures (p + Moved(q, n))[..|p| + |q| - 1] == p + Moved(q[..|q| - 1], n)
    ensures (u + w)[..|p| + |q| - 1] == u + w[..|q| - 1]
  {
  }

  function Moved(q: seq<int>, n: int): (r: seq<int>)
    ensures |r| == |q|
  {
    seq(|q|, i requires 0 <= i < |q| => n + q[i])
  }

  lemma GatherAllStep(subfr: seq<int>, runs: seq<int>, head: seq<int>, tail: seq<int>)
    requires |subfr| > 0 && MagsFit(subfr, runs) && head == runs[..subfr[0]] && tail == runs[subfr[0]..]
    ensures RunsFit(80, head) && MagsFit(subfr[1..], tail)
    ensures GatherAll(subfr, runs, 0).mag == Gather(head).mag + GatherAll(subfr[1..], tail, 0).mag
    ensures GatherAll(subfr, runs, 0).pos == Gather(head).pos + Moved(GatherAll(subfr[1..], tail, 0).pos, 80)
  {
    GatherRebase(subfr[1..], tail, 80);
    hide Gather, RunsFit;
    assert Shift(Gather(head), 0).pos == Gather(head).pos;
  }

  lemma SignedJoin(a: seq<int>, b: seq<int>, s: seq<int>, t: seq<int>)
    requires |a| == |s| && |b| == |t|
    ensures Signed(a + b, s + t) == Signed(a, s) + Signed(b, t)
  {
  }

  /** Two groups of pulses, the second moved behind the first 80 positions. */
  lemma JoinScatter(a: Spikes, s: seq<int>, b: Spikes, t: seq<int>, n: nat)
    requires |a.pos| == |a.mag| == |s| && |b.pos| == |b.mag| == |t|
    requires InOrder(a.pos, 0, 80) && InOrder(b.pos, 0, n)
    ensures Scatter(a.pos + Moved(b.pos, 80), Signed(a.mag + b.mag, s + t), 80 + n)
            == Scatter(a.pos, Signed(a.mag, s), 80) + Scatter(b.pos, Signed(b.mag, t), n)
  {
    SignedJoin(a.mag, b.mag, s, t);
    ScatterJoin(a.pos, Signed(a.mag, s), 80, b.pos, Signed(b.mag, t), n);
  }

  lemma GatherInOrder(runs: seq<int>)
    requires RunsFit(80, runs)
    ensures InOrder(Gather(runs).pos, 0, 80)
  {
    GatherBounds(80, runs);
    GatherSorted(80, runs);
  }

  lemma ScatterAllStep(subfr: seq<int>, runs: seq<int>, head: seq<int>, tail: seq<int>, s: seq<int>, t: seq<int>)
    requires |subfr| > 0 && MagsFit(subfr, runs) && head == runs[..subfr[0]] && tail == runs[subfr[0]..]
    requires |s| == |Gather(head).pos| && |t| == |GatherAll(subfr[1..], tail, 0).pos|
    ensures ScatterAll(subfr, runs, s + t) == OneSubframe(head, s) + ScatterAll(subfr[1..], tail, t)
  {
    hide Gather, Scatter, RunsFit, MagsFit, GatherAll, InOrder, Signed, Moved;
    GatherAllStep(subfr, runs, head, tail);
    GatherInOrder(head);
    GatherAllBounds(subfr[1..], tail, 0);
    JoinScatter(Gather(head), s, GatherAll(subfr[1..], tail, 0), t, 80 * |subfr[1..]|);
  }

  /** One subframe: its vector has the run lengths, signs and count it was painted from. */
  lemma SubframeBack(runs: seq<int>, signs: seq<int>)
    requires RunsFit(80, runs) && AreSigns(signs) && |signs| == |Gather(runs).pos|
    ensures BuildRuns(OneSubframe(runs, signs)) == runs
    ensures BuildSigns(OneSubframe(runs, signs)) == signs
    ensures AbsSum(OneSubframe(runs, signs)) == |runs|
  {
    hide OneSubframe, Painted, Gather, RunsFit, BuildRuns, BuildSigns, AbsSum;
    BuildRunsCount(OneSubframe(runs, signs));
    BuildPainted(runs, signs);
    SubframePainted(runs, signs);
    BuildZeros(Painted(runs, signs), 80 - |Painted(runs, signs)|);
  }

  lemma SubframePainted(runs: seq<int>, signs: seq<int>)
    requires RunsFit(80, runs) && |signs| == |Gather(runs).pos|
    ensures |Painted(runs, signs)| <= 80
    ensures OneSubframe(runs, signs) == Painted(runs, signs) + Zeros(80 - |Painted(runs, signs)|)
  {
    if |runs| == 0 {
      assert [] + Zeros(80) == OneSubframe(runs, signs);
    } else {
      SubframePaintedSome(runs, signs);
    }
  }

  lemma SubframePaintedSome(runs: seq<int>, signs: seq<int>)
    requires |runs| > 0 && RunsFit(80, runs) && |signs| == |Gather(runs).pos|
    ensures |Painted(runs, signs)| <= 80
    ensures OneSubframe(runs, signs) == Painted(runs, signs) + Zeros(80 - |Painted(runs, signs)|)
  {
    hide Scatter, Gather, RunsFit;
    GatherBounds(80, runs);
    ScatterIgnoresTail(Gather(runs).pos, Signed(Gather(runs).mag, signs), Tip(Gather(runs)) + 1, 80);
  }

  /** The vector scattered from the parameters has the counts, run lengths and signs of them. */
  lemma {:induction false} ScatterAllBack(subfr: seq<int>, runs: seq<int>, signs: seq<int>)
    requires MagsFit(subfr, runs) && AreSigns(signs) && |signs| == |GatherAll(subfr, runs, 0).pos|
    ensures CountsOf(ScatterAll(subfr, runs, signs)) == subfr
    ensures RunsOf(ScatterAll(subfr, runs, signs)) == runs
    ensures BuildSigns(ScatterAll(subfr, runs, signs)) == signs
    decreases |subfr|
  {
    if |subfr| > 0 {
      var head, tail := runs[..subfr[0]], runs[subfr[0]..];
      GatherAllStep(subfr, runs, head, tail);
      var s, t := signs[..|Gather(head).pos|], signs[|Gather(head).pos|..];
      ScatterAllBack(subfr[1..], tail, t);
      assert s + t == signs && head + tail == runs;
      ScatterAllBackStep(subfr, runs, head, tail, s, t);
    }
  }

  lemma ScatterAllBackStep(subfr: seq<int>, runs: seq<int>, head: seq<int>, tail: seq<int>, s: seq<int>, t: seq<int>)
    requires |subfr| > 0 && MagsFit(subfr, runs) && head == runs[..subfr[0]] && tail == runs[subfr[0]..]
    requires RunsFit(80, head) && AreSigns(s)
    requires |s| == |Gather(head).pos| && |t| == |GatherAll(subfr[1..], tail, 0).pos|
    requires CountsOf(ScatterAll(subfr[1..], tail, t)) == subfr[1..]
    ensures CountsOf(ScatterAll(subfr, runs, s + t)) == subfr
    ensures RunsOf(ScatterAll(subfr, runs, s + t)) == head + RunsOf(ScatterAll(subfr[1..], tail, t))
    ensures BuildSigns(ScatterAll(subfr, runs, s + t)) == s + BuildSigns(ScatterAll(subfr[1..], tail, t))
  {
    hide ScatterAll, Gather, GatherAll, RunsFit, AbsSum, BuildRuns, BuildSigns, OneSubframe, CountsOf, RunsOf;
    ScatterAllStep(subfr, runs, head, tail, s, t);
    hide MagsFit;
    SubframeBack(head, s);
    Glue(subfr, head, OneSubframe(head, s), ScatterAll(subfr[1..], tail, t));
  }

  lemma Glue(subfr: seq<int>, head: seq<int>, w: seq<int>, v: seq<int>)
    requires |w| == 80 && |v| % 80 == 0 && |subfr| > 0 && subfr[0] == |head|
    requires CountsOf(v) == subfr[1..] && AbsSum(w) == |head| && BuildRuns(w) == head
    ensures CountsOf(w + v) == subfr
    ensures RunsOf(w + v) == head + RunsOf(v)
    ensures BuildSigns(w + v) == BuildSigns(w) + BuildSigns(v)
  {
    CountsJoin(w, v);
    hide CountsOf, RunsOf, AbsSum, BuildRuns, BuildSigns, SpikesOf;
    SpikesConcat(w, v);
    assert [subfr[0]] + subfr[1..] == subfr;
  }

  lemma CountsJoin(w: seq<int>, rest: seq<int>)
    requires |w| == 80 && |rest| % 80 == 0
    ensures CountsOf(w + rest) == [AbsSum(w)] + CountsOf(rest)
    ensures RunsOf(w + rest) == BuildRuns(w) + RunsOf(rest)
  {
    var v := w + rest;
    assert v[..80] == w && v[80..] == rest;
  }

  /** All but the last bit of a batch are the batch halved. */
  lemma BatchHalf(rs: RawSym)
    requires rs.nbits > 0
    ensures BatchSigns(rs)[..rs.nbits - 1] == BatchSigns(RawSym(rs.sym / 2, rs.nbits - 1))
    ensures BatchSigns(rs)[rs.nbits - 1] == (if rs.sym % 2 == 1 then 1 else -1)
  {
    var half := RawSym(rs.sym / 2, rs.nbits - 1);
    forall q | 0 <= q < half.nbits ensures BatchSign(rs, q) == BatchSign(half, q) {
      HalveTwice(rs.sym / 2, rs.sym % 2, Pow2(half.nbits - 1 - q));
    }
    assert Pow2(0) == 1;
  }

  /** Reading the bits of a batch and packing them again gives the batch value. */
  lemma {:induction false} BitsBack(rs: RawSym)
    requires rs.sym < Pow2(rs.nbits)
    ensures BitsValue(BatchSigns(rs)) == rs.sym
    decreases rs.nbits
  {
    if rs.nbits > 0 {
      BitsBack(RawSym(rs.sym / 2, rs.nbits - 1));
      BatchHalf(rs);
    }
  }

  lemma {:induction false} SignBatchesBack(n: nat, syms: seq<RawSym>)
    requires BatchesFit(n, syms)
    ensures SignBatches(AllSigns(n, syms)) == syms
    decreases n
  {
    if n > 0 {
      var k := Min(n, 15);
      BitsBack(syms[0]);
      SignBatchesBack(n - k, syms[1..]);
      var s := AllSigns(n, syms);
      assert s[..k] == BatchSigns(syms[0]) && s[k..] == AllSigns(n - k, syms[1..]);
      assert [syms[0]] + syms[1..] == syms;
    }
  }

  /**
   * Every valid parameter set is the one built from its own excitation.  In particular each
   * subframe of a decoded excitation holds exactly its count of pulse units.
   */
  lemma ParamsRoundTrip(p: PulseParams)
    requires ValidPulses(p)
    ensures Sparse(Excitation(p)) && ParamsOf(Excitation(p)) == p
    ensures forall i :: 0 <= i < 4 ==> AbsSum(Excitation(p)[80 * i..80 * i + 80]) == p.subfr[i] <= 40
  {
    var g := GatherAll(p.subfr, p.magRuns, 0);
    var signs := AllSigns(|g.pos|, p.signSyms);
    assert Excitation(p) == ScatterAll(p.subfr, p.magRuns, signs);
    ScatterAllBack(p.subfr, p.magRuns, signs);
    SignBatchesBack(|g.pos|, p.signSyms);
    CountsOfFour(Excitation(p));
  }
}
