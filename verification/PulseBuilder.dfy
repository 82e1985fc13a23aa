/** smplBuildPulseParams of src/voip/media/mlow/analysis.go: the parameters of a pulse vector. */
module PulseBuilder {
  import opened Bytes
  import opened PulseSpec
  import opened PulseVectors
  import opened PulseSymbols
  import opened PulseBijection

  /** The pulse units of one subframe. */
  method SumSubframe(pulse: seq<int>, lo: nat, hi: nat) returns (s: nat)
    requires lo <= hi <= |pulse|
    ensures s == AbsSum(pulse[lo..hi])
  {
    s := 0;
    for n := lo to hi
      invariant s == AbsSum(pulse[lo..n])
    {
      assert pulse[lo..n + 1][..n - lo] == pulse[lo..n];
      var a := pulse[n];
      if a < 0 {
        a := -a;
      }
      s := s + a;
    }
  }

  /** A run of k zero run lengths. */
  method PushZeros(runs: seq<int>, k: nat) returns (r: seq<int>)
    ensures r == runs + Zeros(k)
  {
    r := runs;
    assert runs + Zeros(0) == runs;
    for i := 0 to k
      invariant r == runs + Zeros(i)
    {
      r := r + [0];
      assert runs + Zeros(i + 1) == runs + Zeros(i) + [0];
    }
  }

  /** The run lengths and signs of one subframe, appended to those before it. */
  method ScanSubframe(pulse: seq<int>, basePos: nat, runsBefore: seq<int>, signsBefore: seq<int>)
    returns (magRuns: seq<int>, signs: seq<int>)
    requires basePos + 80 <= |pulse|
    ensures magRuns == runsBefore + BuildRuns(pulse[basePos..basePos + 80])
    ensures signs == signsBefore + BuildSigns(pulse[basePos..basePos + 80])
  {
    hide BuildRuns, BuildSigns, LastPos;
    magRuns, signs := runsBefore, signsBefore;
    var runPos, first := basePos, true;
    NothingScanned(pulse[basePos..basePos]);
    for n := basePos to basePos + 80
      invariant magRuns == runsBefore + BuildRuns(pulse[basePos..n])
      invariant signs == signsBefore + BuildSigns(pulse[basePos..n])
      invariant runPos == basePos + LastPos(pulse[basePos..n])
      invariant first ==> runPos == basePos
    {
      ghost var w := pulse[basePos..n];
      assert pulse[basePos..n + 1] == w + [pulse[n]];
      var magv := pulse[n];
      if magv == 0 {
        SkipZero(w);
      } else {
        BuildPush(w, magv);
        var mag := magv;
        if mag < 0 {
          mag := -mag;
        }
        var m: int;
        if first {
          m := n - basePos;
        } else {
          m := n - runPos;
        }
        ghost var before := magRuns;
        magRuns := magRuns + [m];
        runPos := n;
        if mag > 1 {
          magRuns := PushZeros(magRuns, mag - 1);
        } else {
          assert magRuns + Zeros(0) == magRuns;
        }
        Associate(before, [m], Zeros(mag - 1));
        Associate(runsBefore, BuildRuns(w), [m] + Zeros(mag - 1));
        Associate(signsBefore, BuildSigns(w), [Sign(magv)]);
        if magv < 0 {
          signs := signs + [-1];
        } else {
          signs := signs + [1];
        }
        first := false;
      }
    }
  }

  lemma NothingScanned(w: seq<int>)
    requires |w| == 0
    ensures BuildRuns(w) == [] && BuildSigns(w) == [] && LastPos(w) == 0
  {
  }

  /** One batch of sign bits, most significant first. */
  method PackSigns(signs: seq<int>, p: nat, nbits: nat) returns (sym: nat)
    requires p + nbits <= |signs| && nbits <= 15
    ensures sym == BitsValue(signs[p..p + nbits])
  {
    sym := 0;
    var q := 0;
    while q < nbits
      invariant 0 <= q <= nbits && sym == BitsValue(signs[p..p + q]) * Pow2(nbits - q)
    {
      var bit := 0;
      if signs[p + q] > 0 {
        bit := 1;
      }
      PackStep(signs[p..p + q + 1], nbits - q);
      assert signs[p..p + q + 1][..q] == signs[p..p + q];
      // The bit's place is still clear: or-ing it in is adding it.
      sym := sym + bit * Pow2(nbits - 1 - q);
      q := q + 1;
    }
    assert Pow2(0) == 1;
  }

  lemma PackStep(signs: seq<int>, e: nat)
    requires |signs| > 0 && e > 0
    ensures BitsValue(signs) * Pow2(e - 1)
            == BitsValue(signs[..|signs| - 1]) * Pow2(e) + (if signs[|signs| - 1] > 0 then 1 else 0) * Pow2(e - 1)
  {
    var v, p := BitsValue(signs[..|signs| - 1]), Pow2(e - 1);
    var b := if signs[|signs| - 1] > 0 then 1 else 0;
    assert (2 * v + b) * p == v * (2 * p) + b * p;
  }

  method BatchSignsOf(signs: seq<int>) returns (signSyms: seq<RawSym>)
    ensures signSyms == SignBatches(signs)
  {
    signSyms := [];
    var numPos, p := |signs|, 0;
    assert signs[0..] == signs;
    while p < numPos
      invariant 0 <= p <= numPos && signSyms + SignBatches(signs[p..]) == SignBatches(signs)
    {
      var nbits := numPos - p;
      if nbits > 15 {
        nbits := 15;
      }
      var sym := PackSigns(signs, p, nbits);
      assert signs[p..][..nbits] == signs[p..p + nbits] && signs[p..][nbits..] == signs[p + nbits..];
      Associate(signSyms, [RawSym(sym, nbits)], SignBatches(signs[p + nbits..]));
      signSyms := signSyms + [RawSym(sym, nbits)];
      p := p + nbits;
    }
  }

  /** A subframe without pulses adds neither run lengths nor signs. */
  lemma EmptySubframe(w: seq<int>)
    requires AbsSum(w) == 0
    ensures BuildRuns(w) == [] && BuildSigns(w) == []
  {
    hide BuildRuns, BuildSigns, SpikesOf, AbsSum;
    BuildRunsCount(w);
    GatherBuild(w);
    SignsCount(w);
  }

  lemma {:induction false} RunsOfPush(v: seq<int>, w: seq<int>)
    requires |v| % 80 == 0 && |w| == 80
    ensures RunsOf(v + w) == RunsOf(v) + BuildRuns(w)
    ensures CountsOf(v + w) == CountsOf(v) + [AbsSum(w)]
    decreases |v|
  {
    hide BuildRuns, AbsSum;
    if |v| == 0 {
      assert v + w == w && w[..80] == w && w[80..] == [];
    } else {
      RunsOfPush(v[80..], w);
      assert (v + w)[..80] == v[..80] && (v + w)[80..] == v[80..] + w;
      Associate(BuildRuns(v[..80]), RunsOf(v[80..]), BuildRuns(w));
      Associate([AbsSum(v[..80])], CountsOf(v[80..]), [AbsSum(w)]);
    }
  }

  /** smplBuildPulseParams. */
  method BuildPulseParams(pulse: seq<int>) returns (pp: PulseParams)
    requires |pulse| == 320
    ensures pp == ParamsOf(pulse)
  {
    hide BuildRuns, BuildSigns, AbsSum, RunsOf, CountsOf, SignBatches, Sum, SpikesOf;
    var subfr: seq<int> := [];
    CountsOfFour(pulse);
    for sf := 0 to 4
      invariant |subfr| == sf && forall i :: 0 <= i < sf ==> subfr[i] == CountsOf(pulse)[i]
    {
      var s := SumSubframe(pulse, sf * 80, (sf + 1) * 80);
      subfr := subfr + [s];
    }
    assert subfr == CountsOf(pulse);
    var magRuns: seq<int>, signs: seq<int> := [], [];
    NoSubframes(pulse[..0]);
    for sf := 0 to 4
      invariant magRuns == RunsOf(pulse[..80 * sf]) && signs == BuildSigns(pulse[..80 * sf])
    {
      ghost var v, w := pulse[..80 * sf], pulse[80 * sf..80 * sf + 80];
      assert v + w == pulse[..80 * (sf + 1)];
      RunsOfPush(v, w);
      SpikesConcat(v, w);
      if subfr[sf] <= 0 {
        EmptySubframe(w);
      } else {
        magRuns, signs := ScanSubframe(pulse, 80 * sf, magRuns, signs);
      }
    }
    assert pulse[..320] == pulse;
    var signSyms := BatchSignsOf(signs);
    pp := PulseParams(subfr[0] + subfr[1] + subfr[2] + subfr[3], subfr, magRuns, signSyms);
  }

  lemma NoSubframes(v: seq<int>)
    requires |v| == 0
    ensures RunsOf(v) == [] && BuildSigns(v) == []
  {
  }
}
