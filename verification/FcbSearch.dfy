/**
 * The greedy fixed-codebook search (smplFcbSearch of src/voip/media/mlow/celp_enc.go) for the main
 * rate: each round adds the pulse that improves the match most, updating every trial's correlation
 * and energy instead of computing them again.
 */
module FcbSearch {
  import opened Reals
  import opened FcbEnergy

  const SF_LEN := 160
  const EPS := 0.0000000000000001

  // ---- What the search is about ----

  /** v with a trial pulse at i. */
  function Trial(sign: seq<real>, v: seq<real>, i: nat): (w: seq<real>)
    requires i < |v| == |sign|
    ensures |w| == |v|
  {
    AddPulse(v, i, sign[i])
  }

  /** The match of a pulse vector: its squared correlation over its energy. */
  function Score(phi: seq<real>, d: seq<real>, w: seq<real>): real {
    if Energy(phi, w) + EPS == 0.0 then 0.0 else Times(Corr(d, w), Corr(d, w)) / (Energy(phi, w) + EPS)
  }

  /** The match that a pulse at each place would give. */
  function Scores(phi: seq<real>, d: seq<real>, sign: seq<real>, v: seq<real>): (q: seq<real>)
    requires |v| == |sign|
    ensures |q| == |v|
  {
    seq(|v|, i requires 0 <= i < |v| => Score(phi, d, Trial(sign, v, i)))
  }

  /** The form is an energy: no vector of n samples has a negative one. */
  ghost predicate Positive(phi: seq<real>, n: nat) {
    forall v: seq<real> :: |v| == n ==> Energy(phi, v) >= 0.0
  }

  function Signs(d: seq<real>): (sign: seq<real>)
    ensures SignsOf(d, sign)
  {
    seq(|d|, i requires 0 <= i < |d| => if d[i] > 0.0 then 1.0 else -1.0)
  }

  predicate SignsOf(d: seq<real>, sign: seq<real>) {
    |sign| == |d| && forall i :: 0 <= i < |d| ==> sign[i] == if d[i] > 0.0 then 1.0 else -1.0
  }

  /** The first place where x is greatest. */
  predicate FirstMax(x: seq<real>, i: nat) {
    && i < |x| && (forall k :: 0 <= k < |x| ==> x[k] <= x[i]) && (forall k :: 0 <= k < i ==> x[k] < x[i])
  }

  method GetMaxi(x: seq<real>) returns (i: nat)
    requires |x| > 0
    ensures FirstMax(x, i)
  {
    i := 0;
    var mx := x[0];
    for n := 1 to |x|
      invariant i < n && mx == x[i]
      invariant (forall k :: 0 <= k < n ==> x[k] <= mx) && (forall k :: 0 <= k < i ==> x[k] < mx)
    {
      if x[n] > mx {
        mx := x[n];
        i := n;
      }
    }
  }

  /** celpCalcDAbsAndSign. */
  method CalcDAbsAndSign(d: seq<real>) returns (dAbs: seq<real>, dSign: seq<real>)
    ensures dSign == Signs(d) && |dAbs| == |d|
    ensures forall i :: 0 <= i < |d| ==> dAbs[i] == Times(dSign[i], d[i]) && dAbs[i] >= 0.0
  {
    dAbs, dSign := [], [];
    for i := 0 to |d|
      invariant |dAbs| == |dSign| == i
      invariant forall k :: 0 <= k < i ==> dSign[k] == if d[k] > 0.0 then 1.0 else -1.0
      invariant forall k :: 0 <= k < i ==> dAbs[k] == Times(dSign[k], d[k]) && dAbs[k] >= 0.0
    {
      UnitTimes(d[i]);
      if d[i] > 0.0 {
        dAbs, dSign := dAbs + [d[i]], dSign + [1.0];
      } else {
        dAbs, dSign := dAbs + [-d[i]], dSign + [-1.0];
      }
    }
  }

  lemma UnitTimes(x: real)
    ensures Times(1.0, x) == x && Times(-1.0, x) == -x
  {
  }

  // ---- The mirrored form ----

  /** phiFlip holds the form by signed distance, centred at SF_LEN. */
  predicate Flipped(phiFlip: seq<real>, phi: seq<real>) {
    |phiFlip| == 2 * SF_LEN && forall j :: 0 <= j < 2 * SF_LEN ==> phiFlip[j] == Phi(phi, j - SF_LEN)
  }

  /** The phiFlip construction of EncodeSubframe; phi is the response's autocorrelation, zero-padded in ePhi. */
  method BuildPhiFlip(phi: seq<real>, ePhi: seq<real>) returns (phiFlip: seq<real>)
    requires 0 < |phi| < SF_LEN && |ePhi| == SF_LEN
    requires forall i :: 0 <= i < SF_LEN ==> ePhi[i] == if i < |phi| then phi[i] else 0.0
    ensures Flipped(phiFlip, phi)
  {
    var lResp := |phi|;
    var flip := new real[2 * SF_LEN](i => 0.0);
    flip[SF_LEN] := ePhi[0];
    for i := 0 to lResp + 1
      invariant forall j :: 0 <= j < 2 * SF_LEN ==>
                  flip[j] == if SF_LEN - i < j < SF_LEN + i || j == SF_LEN then Phi(phi, j - SF_LEN) else 0.0
    {
      flip[SF_LEN - i] := ePhi[i];
      flip[SF_LEN + i] := ePhi[i];
    }
    phiFlip := flip[..];
  }

  function PhiColOffset(col: nat): int {
    SF_LEN - col
  }

  /** celpNonZeroRange: the places that the form reaches from col. */
  function NonZeroRange(col: nat, percRespLen: nat, n: nat): (r: (nat, nat))
    requires col < n && percRespLen > 0
    ensures r.0 <= r.1 <= n
  {
    var lo: int, hi: int := col - percRespLen + 1, col + percRespLen;
    (if lo < 0 then 0 else lo, if hi > n then n else hi)
  }

  // ---- The incremental tables ----

  /** num and den hold every trial's correlation and energy on top of v. */
  predicate Current(phi: seq<real>, d: seq<real>, sign: seq<real>, v: seq<real>, num: seq<real>, den: seq<real>) {
    && |v| == |d| == |sign| == |num| == |den|
    && (forall i :: 0 <= i < |v| ==> num[i] == Corr(d, Trial(sign, v, i)))
    && (forall i :: 0 <= i < |v| ==> den[i] == Energy(phi, Trial(sign, v, i)) + EPS)
  }

  lemma FirstTables(phi: seq<real>, d: seq<real>, sign: seq<real>, dAbs: seq<real>, v: seq<real>, i: nat)
    requires SignsOf(d, sign) && |v| == |d| == |dAbs| && i < |d| && dAbs[i] == Times(sign[i], d[i])
    requires forall a :: 0 <= a < |v| ==> v[a] == 0.0
    ensures Corr(d, Trial(sign, v, i)) == dAbs[i]
    ensures Energy(phi, Trial(sign, v, i)) == Phi(phi, 0)
  {
    hide Times, Corr, Energy;
    CorrPulse(d, v, i, sign[i]);
    CorrZero(d, v);
    FirstEnergy(phi, v, i, sign[i]);
  }

  lemma CorrZero(d: seq<real>, v: seq<real>)
    requires forall a :: 0 <= a < |v| ==> v[a] == 0.0
    ensures Corr(d, v) == 0.0
  {
    DotZero(v, At(d), |v|);
  }

  /** One more pulse, as every trial's correlation sees it. */
  lemma NextCorr(d: seq<real>, sign: seq<real>, v: seq<real>, p: nat, i: nat)
    requires |v| == |d| == |sign| && p < |v| && i < |v|
    ensures Corr(d, Trial(sign, AddPulse(v, p, sign[p]), i)) == Corr(d, Trial(sign, v, i)) + Times(sign[p], d[p])
  {
    hide Times, Corr;
    PulsesCommute(v, p, sign[p], i, sign[i]);
    CorrPulse(d, Trial(sign, v, i), p, sign[p]);
  }

  /** What the pulse at p adds to every trial's energy alike. */
  function Common(phi: seq<real>, sign: seq<real>, v: seq<real>, p: nat): real
    requires p < |v| == |sign|
  {
    2.0 * Times(sign[p], Field(phi, v, p)) + Phi(phi, 0)
  }

  /** And what it adds to the trial at i alone. */
  function Own(phi: seq<real>, sign: seq<real>, p: nat, i: nat): real
    requires p < |sign| && i < |sign|
  {
    2.0 * Times(sign[p], Times(sign[i], Phi(phi, i - p)))
  }

  lemma NextEnergy(phi: seq<real>, d: seq<real>, sign: seq<real>, v: seq<real>, p: nat, i: nat)
    requires SignsOf(d, sign) && |v| == |d| && p < |v| && i < |v|
    ensures Energy(phi, Trial(sign, AddPulse(v, p, sign[p]), i))
            == Energy(phi, Trial(sign, v, i)) + Common(phi, sign, v, p) + Own(phi, sign, p, i)
  {
    hide Times, Energy, Field, Phi;
    TrialEnergy(phi, v, p, sign[p], i, sign[i]);
  }

  /** num[i] += dAbs[position]. */
  method AddCorrelation(num: array<real>, dAbs: seq<real>, position: nat)
    requires position < |dAbs| == num.Length
    modifies num
    ensures forall i :: 0 <= i < num.Length ==> num[i] == old(num[i]) + dAbs[position]
  {
    for i := 0 to num.Length
      invariant forall k :: 0 <= k < i ==> num[k] == old(num[k]) + dAbs[position]
      invariant forall k :: i <= k < num.Length ==> num[k] == old(num[k])
    {
      num[i] := num[i] + dAbs[position];
    }
  }

  /** The part of the update that is the same for every trial. */
  method CommonEnergy(phiFlip: seq<real>, dSign: seq<real>, positions: seq<int>, position: nat, ghost phi: seq<real>)
    returns (dDen: real)
    requires Flipped(phiFlip, phi) && position < |dSign| <= SF_LEN
    requires forall k :: 0 <= k < |positions| ==> 0 <= positions[k] < |dSign|
    ensures dDen == Common(phi, dSign, Built(positions, dSign), position)
  {
    hide Times, Phi, Field;
    var sgn := dSign[position];
    var colOff := PhiColOffset(position);
    dDen := 0.0;
    FieldNothing(phi, Built(positions[..0], dSign), position);
    for i := 0 to |positions|
      invariant dDen == Field(phi, Built(positions[..i], dSign), position)
    {
      var pi := positions[i];
      BuiltNext(positions, dSign, i);
      FieldPulse(phi, Built(positions[..i], dSign), pi, dSign[pi], position);
      TimesSwap(phiFlip[colOff + pi], dSign[pi], 0.0);
      dDen := dDen + Times(phiFlip[colOff + pi], dSign[pi]);
    }
    assert positions[..|positions|] == positions;
    TimesTwo(sgn, dDen);
    dDen := Times(dDen, Times(2.0, sgn));
    dDen := dDen + phiFlip[colOff + position];
  }

  lemma TimesTwo(s: real, x: real)
    ensures Times(x, Times(2.0, s)) == 2.0 * Times(s, x)
  {
  }

  lemma TimesTwoSigns(s: real, t: real, x: real)
    ensures Times(Times(Times(2.0, s), t), x) == 2.0 * Times(s, Times(t, x))
  {
  }

  lemma FieldNothing(phi: seq<real>, v: seq<real>, p: int)
    requires forall a :: 0 <= a < |v| ==> v[a] == 0.0
    ensures Field(phi, v, p) == 0.0
  {
    DotZero(v, From(phi, p), |v|);
  }

  lemma BuiltNext(ps: seq<int>, sign: seq<real>, k: nat)
    requires k < |ps| && forall j :: 0 <= j < |ps| ==> 0 <= ps[j] < |sign|
    ensures Built(ps[..k + 1], sign) == AddPulse(Built(ps[..k], sign), ps[k], sign[ps[k]])
  {
    assert ps[..k + 1][..k] == ps[..k];
  }

  /** The two loops over den. */
  method AddEnergy(den: array<real>, dDen: real, phiFlip: seq<real>, dSign: seq<real>, position: nat, percRespLen: nat,
                   ghost phi: seq<real>)
    requires Flipped(phiFlip, phi) && position < |dSign| == den.Length <= SF_LEN
    requires 0 < percRespLen && |phi| <= percRespLen
    modifies den
    ensures forall i :: 0 <= i < den.Length ==> den[i] == old(den[i]) + dDen + Own(phi, dSign, position, i)
  {
    hide Times, Phi, Own;
    var n := den.Length;
    for i := 0 to n
      invariant forall k :: 0 <= k < i ==> den[k] == old(den[k]) + dDen
      invariant forall k :: i <= k < n ==> den[k] == old(den[k])
    {
      den[i] := den[i] + dDen;
    }
    var sgn, colOff := dSign[position], PhiColOffset(position);
    var (nz0, nz1) := NonZeroRange(position, percRespLen, n);
    for i := nz0 to nz1
      invariant forall k :: 0 <= k < n ==>
                  den[k] == old(den[k]) + dDen + if nz0 <= k < i then Own(phi, dSign, position, k) else 0.0
    {
      OwnTerm(phi, dSign, position, i);
      den[i] := den[i] + Times(Times(Times(2.0, sgn), dSign[i]), phiFlip[colOff + i]);
    }
    forall i | 0 <= i < n && !(nz0 <= i < nz1) ensures Own(phi, dSign, position, i) == 0.0 {
      NothingReached(phi, dSign, position, i);
    }
  }

  lemma OwnTerm(phi: seq<real>, sign: seq<real>, p: nat, i: nat)
    requires p < |sign| && i < |sign|
    ensures Times(Times(Times(2.0, sign[p]), sign[i]), Phi(phi, i - p)) == Own(phi, sign, p, i)
  {
    hide Times, Phi;
    TimesTwoSigns(sign[p], sign[i], Phi(phi, i - p));
  }

  lemma NothingReached(phi: seq<real>, sign: seq<real>, p: nat, i: nat)
    requires p < |sign| && i < |sign| && (i - p >= |phi| || p - i >= |phi|)
    ensures Own(phi, sign, p, i) == 0.0
  {
    hide Times;
    TimesZero(sign[i]);
    TimesZero(sign[p]);
  }

  // ---- The search ----

  /** What j pulses cost. */
  function Cost(j: nat, wnrgPerPulse: real): real {
    if j == 0 then 0.0 else Cost(j - 1, wnrgPerPulse) + wnrgPerPulse
  }

  /** The net gain of stopping at n pulses, when j pulses match qs[j - 1]. */
  function Net(qs: seq<real>, w: real, n: nat): real
    requires n <= |qs|
  {
    if n == 0 then 0.0 else qs[n - 1] - Cost(n, w)
  }

  /** The smallest pulse count of the greatest net gain. */
  predicate BestCount(qs: seq<real>, w: real, n: nat) {
    && n <= |qs|
    && (forall j :: 0 <= j <= |qs| ==> Net(qs, w, j) <= Net(qs, w, n))
    && (forall j :: 0 <= j < n ==> Net(qs, w, j) < Net(qs, w, n))
  }

  /** celpCheckIfBetter. */
  method CheckIfBetter(wnrg: real, nrgThr: real, wnrgPerPulse: real, ghost qs: seq<real>, ghost n: nat)
    returns (thr: real, better: bool)
    requires BestCount(qs, wnrgPerPulse, n) && nrgThr == Cost(|qs|, wnrgPerPulse) + Net(qs, wnrgPerPulse, n)
    ensures BestCount(qs + [wnrg], wnrgPerPulse, if better then |qs| + 1 else n)
    ensures thr == Cost(|qs| + 1, wnrgPerPulse) + Net(qs + [wnrg], wnrgPerPulse, if better then |qs| + 1 else n)
  {
    hide Cost;
    CostNext(|qs|, wnrgPerPulse);
    assert forall j :: 0 <= j <= |qs| ==> Net(qs + [wnrg], wnrgPerPulse, j) == Net(qs, wnrgPerPulse, j);
    thr := nrgThr + wnrgPerPulse;
    if wnrg > thr {
      thr := wnrg;
      return thr, true;
    }
    return thr, false;
  }

  lemma CostNext(j: nat, w: real)
    ensures Cost(j + 1, w) == Cost(j, w) + w
  {
  }

  /** Every pulse is the first place of the best match on top of those before it. */
  ghost predicate Greedy(phi: seq<real>, d: seq<real>, sign: seq<real>, positions: seq<int>) {
    && (forall j :: 0 <= j < |positions| ==> 0 <= positions[j] < |sign|)
    && forall j {:trigger positions[j]} :: 0 <= j < |positions| ==>
         FirstMax(Scores(phi, d, sign, Built(positions[..j], sign)), positions[j])
  }

  /** qs[j] is the match of the first j + 1 pulses. */
  ghost predicate Matches(phi: seq<real>, d: seq<real>, sign: seq<real>, positions: seq<int>, qs: seq<real>) {
    && (forall j :: 0 <= j < |positions| ==> 0 <= positions[j] < |sign|)
    && |qs| == |positions|
    && forall j {:trigger qs[j]} :: 0 <= j < |qs| ==> qs[j] == Score(phi, d, Built(positions[..j + 1], sign))
  }

  datatype FcbResult = FcbResult(nPulses: nat, pulses: seq<int>, wnrg: real, gain: real, fcbWnrg: real)

  /** The figures that go with a pulse count. */
  predicate Figures(phi: seq<real>, d: seq<real>, w: seq<real>, wnrg: real, gain: real, fcbWnrg: real) {
    && wnrg == Score(phi, d, w) && fcbWnrg == Energy(phi, w) + EPS && fcbWnrg != 0.0
    && gain == Corr(d, w) / fcbWnrg
  }

  lemma GreedyNext(phi: seq<real>, d: seq<real>, sign: seq<real>, positions: seq<int>, qs: seq<real>, p: nat, q: real)
    requires Greedy(phi, d, sign, positions) && Matches(phi, d, sign, positions, qs) && p < |sign|
    requires FirstMax(Scores(phi, d, sign, Built(positions, sign)), p)
    requires q == Score(phi, d, Trial(sign, Built(positions, sign), p))
    ensures Greedy(phi, d, sign, positions + [p]) && Matches(phi, d, sign, positions + [p], qs + [q])
    ensures Built(positions + [p], sign) == Trial(sign, Built(positions, sign), p)
  {
    hide FirstMax, Scores, Score, AddPulse, Greedy, Matches;
    GreedyPush(phi, d, sign, positions, p);
    assert (positions + [p])[..|positions|] == positions;
    MatchesPush(phi, d, sign, positions, qs, p, q);
  }

  lemma GreedyPush(phi: seq<real>, d: seq<real>, sign: seq<real>, positions: seq<int>, p: nat)
    requires Greedy(phi, d, sign, positions) && p < |sign|
    requires FirstMax(Scores(phi, d, sign, Built(positions, sign)), p)
    ensures Greedy(phi, d, sign, positions + [p])
  {
    hide FirstMax, Scores, Score, Built;
    var more := positions + [p];
    assert more[..|positions|] == positions;
    forall j | 0 <= j < |more| ensures FirstMax(Scores(phi, d, sign, Built(more[..j], sign)), more[j]) {
      if j < |positions| {
        assert more[..j] == positions[..j];
        assert positions[j] == more[j];
      }
    }
  }

  lemma MatchesPush(phi: seq<real>, d: seq<real>, sign: seq<real>, positions: seq<int>, qs: seq<real>, p: nat, q: real)
    requires Matches(phi, d, sign, positions, qs) && p < |sign|
    requires q == Score(phi, d, Built(positions + [p], sign))
    ensures Matches(phi, d, sign, positions + [p], qs + [q])
  {
    hide Score, Built;
    var more := positions + [p];
    assert more[..|positions| + 1] == more;
    forall j | 0 <= j < |more| ensures (qs + [q])[j] == Score(phi, d, Built(more[..j + 1], sign)) {
      if j < |positions| {
        assert more[..j + 1] == positions[..j + 1];
        assert qs[j] == (qs + [q])[j];
      }
    }
  }

  /** celpQ: the match of every trial. */
  method TrialScores(num: seq<real>, den: seq<real>, ghost phi: seq<real>, ghost d: seq<real>,
                     ghost sign: seq<real>, ghost v: seq<real>) returns (q: seq<real>)
    requires Current(phi, d, sign, v, num, den) && Positive(phi, |v|)
    ensures q == Scores(phi, d, sign, v)
  {
    hide Times, Corr, Energy;
    q := [];
    for i := 0 to |num|
      invariant |q| == i && forall k :: 0 <= k < i ==> q[k] == Score(phi, d, Trial(sign, v, k))
    {
      assert Energy(phi, Trial(sign, v, i)) >= 0.0;
      q := q + [Times(num[i], num[i]) / den[i]];
    }
  }

  /** The first pulse: with equal energies the best match is the greatest correlation. */
  lemma FirstPulse(phi: seq<real>, d: seq<real>, sign: seq<real>, v: seq<real>, num: seq<real>, den: seq<real>, p: nat)
    requires Current(phi, d, sign, v, num, den) && Positive(phi, |v|) && FirstMax(num, p)
    requires forall i :: 0 <= i < |v| ==> den[i] == den[p] && num[i] >= 0.0
    ensures FirstMax(Scores(phi, d, sign, v), p)
  {
    hide Times, Corr, Energy;
    assert Energy(phi, Trial(sign, v, p)) >= 0.0;
    var q, c := Scores(phi, d, sign, v), den[p];
    forall k | 0 <= k < |v| ensures q[k] == Times(num[k], num[k]) / c {
      assert Energy(phi, Trial(sign, v, k)) >= 0.0;
    }
    forall k | 0 <= k < |v| ensures q[k] <= q[p] && (k < p ==> q[k] < q[p]) {
      SquareOrder(num[k], num[p], c);
    }
  }

  lemma SquareOrder(a: real, b: real, c: real)
    requires 0.0 <= a <= b && c > 0.0
    ensures Times(a, a) / c <= Times(b, b) / c && (a < b ==> Times(a, a) / c < Times(b, b) / c)
  {
    if a < b {
      TimesSmaller(a, b);
      QuotientOrder(Times(a, a), Times(b, b), c);
    }
  }

  lemma TimesSmaller(a: real, b: real)
    requires 0.0 <= a < b
    ensures Times(a, a) < Times(b, b)
  {
    hide Times;
    TimesSigns(b - a, b);
    TimesSigns(b - a, a);
    TimesAdd(b, -a, b);
    TimesAdd(b, -a, a);
    TimesNegative(a, b);
    TimesNegative(a, a);
    TimesSwap(a, b, 0.0);
    TimesZero(b - a);
    assert b + -a == b - a;
  }

  lemma TimesNegative(a: real, b: real)
    ensures Times(-a, b) == -Times(a, b)
  {
  }

  lemma QuotientOrder(x: real, y: real, c: real)
    requires x < y && c > 0.0
    ensures x / c < y / c
  {
  }

  /** The tables take in the last pulse chosen. */
  method Advance(num: array<real>, den: array<real>, dAbs: seq<real>, dSign: seq<real>, phiFlip: seq<real>,
                 percRespLen: nat, positions: seq<int>, ghost phi: seq<real>, ghost d: seq<real>)
    requires num != den && |positions| > 0 && dSign == Signs(d) && |dAbs| == |d| <= SF_LEN && Flipped(phiFlip, phi)
    requires 0 < percRespLen && |phi| <= percRespLen
    requires forall i :: 0 <= i < |d| ==> dAbs[i] == Times(dSign[i], d[i])
    requires forall k :: 0 <= k < |positions| ==> 0 <= positions[k] < |d|
    requires Current(phi, d, dSign, Built(positions[..|positions| - 1], dSign), num[..], den[..])
    modifies num, den
    ensures Current(phi, d, dSign, Built(positions, dSign), num[..], den[..])
  {
    hide Times, Corr, Energy, Common, Own, Trial, Flipped, Built, AddPulse;
    var position := positions[|positions| - 1];
    ghost var v := Built(positions[..|positions| - 1], dSign);
    ghost var num0, den0 := num[..], den[..];
    AddCorrelation(num, dAbs, position);
    var dDen := CommonEnergy(phiFlip, dSign, positions[..|positions| - 1], position, phi);
    AddEnergy(den, dDen, phiFlip, dSign, position, percRespLen, phi);
    LastBuilt(positions, dSign);
    forall i | 0 <= i < |d|
      ensures num[i] == Corr(d, Trial(dSign, Built(positions, dSign), i))
      ensures den[i] == Energy(phi, Trial(dSign, Built(positions, dSign), i)) + EPS
    {
      assert num0[i] == Corr(d, Trial(dSign, v, i)) && den0[i] == Energy(phi, Trial(dSign, v, i)) + EPS;
      NextCorr(d, dSign, v, position, i);
      NextEnergy(phi, d, dSign, v, position, i);
    }
  }

  lemma LastBuilt(positions: seq<int>, sign: seq<real>)
    requires |positions| > 0 && forall k :: 0 <= k < |positions| ==> 0 <= positions[k] < |sign|
    ensures Built(positions, sign)
            == AddPulse(Built(positions[..|positions| - 1], sign), positions[|positions| - 1],
                        sign[positions[|positions| - 1]])
  {
  }

  /** The tables before any pulse. */
  method Start(d: seq<real>, dAbs: seq<real>, phi0: real, ghost phi: seq<real>)
    returns (num: array<real>, den: array<real>)
    requires |dAbs| == |d| && phi0 == Phi(phi, 0)
    requires forall i :: 0 <= i < |d| ==> dAbs[i] == Times(Signs(d)[i], d[i])
    ensures fresh(num) && fresh(den) && num != den && num[..] == dAbs
    ensures den.Length == |d| && forall i :: 0 <= i < |d| ==> den[i] == phi0 + EPS
    ensures Current(phi, d, Signs(d), Built([], Signs(d)), num[..], den[..])
  {
    hide Times, Corr, Energy, Phi;
    num, den := new real[|d|](i => 0.0), new real[|d|](i => 0.0);
    for i := 0 to |d|
      invariant forall k :: 0 <= k < i ==> den[k] == phi0 + EPS
    {
      den[i] := phi0 + EPS;
    }
    for i := 0 to |d|
      invariant forall k :: 0 <= k < i ==> num[k] == dAbs[k]
      invariant forall k :: 0 <= k < |d| ==> den[k] == phi0 + EPS
    {
      num[i] := dAbs[i];
    }
    forall i | 0 <= i < |d|
      ensures num[i] == Corr(d, Trial(Signs(d), Built([], Signs(d)), i))
      ensures den[i] == Energy(phi, Trial(Signs(d), Built([], Signs(d)), i)) + EPS
    {
      FirstTables(phi, d, Signs(d), dAbs, Built([], Signs(d)), i);
    }
  }

  /** The pulses of the answer: places from one up, with their signs. */
  predicate Coded(d: seq<real>, positions: seq<int>, pulses: seq<int>) {
    |pulses| <= |positions| && (forall j :: 0 <= j < |positions| ==> 0 <= positions[j] < |d|)
    && forall i :: 0 <= i < |pulses| ==>
         pulses[i] == if d[positions[i]] > 0.0 then 1 + positions[i] else -(1 + positions[i])
  }

  method CodePulses(dSign: seq<real>, positions: seq<int>, nPulses: nat, ghost d: seq<real>) returns (pulses: seq<int>)
    requires dSign == Signs(d) && nPulses <= |positions| && forall j :: 0 <= j < |positions| ==> 0 <= positions[j] < |d|
    ensures |pulses| == nPulses && Coded(d, positions, pulses)
  {
    pulses := [];
    for i := 0 to nPulses
      invariant |pulses| == i && Coded(d, positions, pulses)
    {
      var position := positions[i];
      if dSign[position] > 0.0 {
        pulses := pulses + [1 + position];
      } else {
        pulses := pulses + [-(1 + position)];
      }
    }
  }

  /** What is known after pulseNr rounds. */
  ghost predicate Searched(phi: seq<real>, d: seq<real>, w: real, positions: seq<int>, qs: seq<real>, thr: real,
                           n: nat, wnrg: real, gain: real, fcbWnrg: real) {
    && Greedy(phi, d, Signs(d), positions) && Matches(phi, d, Signs(d), positions, qs)
    && BestCount(qs, w, n) && thr == Cost(|qs|, w) + Net(qs, w, n)
    && if n > 0 then Figures(phi, d, Built(positions[..n], Signs(d)), wnrg, gain, fcbWnrg)
       else wnrg == gain == fcbWnrg == 0.0
  }

  /** The answer once the threshold has been looked at. */
  ghost predicate Answer(phi: seq<real>, d: seq<real>, w: real, positions: seq<int>, qs: seq<real>, res: FcbResult) {
    && Greedy(phi, d, Signs(d), positions) && Matches(phi, d, Signs(d), positions, qs)
    && (w >= 0.0 ==> BestCount(qs, w, res.nPulses))
    && |res.pulses| == res.nPulses && Coded(d, positions, res.pulses)
    && if res.nPulses > 0 then
         Figures(phi, d, Built(positions[..res.nPulses], Signs(d)), res.wnrg, res.gain, res.fcbWnrg)
       else res.wnrg == res.gain == res.fcbWnrg == 0.0
  }

  lemma BestAnswer(qs: seq<real>, w: real, n: nat, thr: real)
    requires BestCount(qs, w, n) && thr == Cost(|qs|, w) + Net(qs, w, n) && w >= 0.0 && thr <= 0.0
    ensures n == 0
  {
    CostNatural(|qs|, w);
    assert Net(qs, w, 0) == 0.0;
  }

  lemma {:induction false} CostNatural(j: nat, w: real)
    requires w >= 0.0
    ensures Cost(j, w) >= 0.0
  {
    if j > 0 {
      CostNatural(j - 1, w);
    }
  }

  /** One more round: the pulse at p, and the count it leaves. */
  lemma SearchedNext(phi: seq<real>, d: seq<real>, w: real, positions: seq<int>, qs: seq<real>, p: nat, q: real,
                     thr: real, n: nat, better: bool, wnrg: real, gain: real, fcbWnrg: real)
    requires Greedy(phi, d, Signs(d), positions) && Matches(phi, d, Signs(d), positions, qs) && n <= |qs|
    requires p < |d| && FirstMax(Scores(phi, d, Signs(d), Built(positions, Signs(d))), p)
    requires q == Score(phi, d, Trial(Signs(d), Built(positions, Signs(d)), p))
    requires var n' := if better then |qs| + 1 else n;
             BestCount(qs + [q], w, n') && thr == Cost(|qs| + 1, w) + Net(qs + [q], w, n')
    requires better ==> Figures(phi, d, Trial(Signs(d), Built(positions, Signs(d)), p), wnrg, gain, fcbWnrg)
    requires !better ==> if n > 0 then Figures(phi, d, Built(positions[..n], Signs(d)), wnrg, gain, fcbWnrg)
                         else wnrg == gain == fcbWnrg == 0.0
    ensures Searched(phi, d, w, positions + [p], qs + [q], thr, if better then |qs| + 1 else n, wnrg, gain, fcbWnrg)
  {
    hide FirstMax, Scores, Score, Signs, Figures, BestCount, Net, Cost, Energy, Corr, Trial, Greedy, Built, Times;
    GreedyNext(phi, d, Signs(d), positions, qs, p, q);
    assert (positions + [p])[..|positions| + 1] == positions + [p];
    assert (positions + [p])[..n] == positions[..n];
  }

  /** The figures of a trial, read off the tables. */
  lemma TrialFigures(phi: seq<real>, d: seq<real>, sign: seq<real>, v: seq<real>, num: seq<real>, den: seq<real>,
                     p: nat)
    requires Current(phi, d, sign, v, num, den) && Positive(phi, |v|) && p < |v|
    ensures Figures(phi, d, Trial(sign, v, p), Times(num[p], num[p]) / den[p], num[p] / den[p], den[p])
    ensures den[p] != 0.0 && Times(num[p], num[p] / den[p]) == Times(num[p], num[p]) / den[p]
  {
    hide Times, Corr, Energy;
    assert Energy(phi, Trial(sign, v, p)) >= 0.0;
    TimesQuotient(num[p], den[p]);
  }

  lemma TimesQuotient(a: real, b: real)
    requires b != 0.0
    ensures Times(a, a / b) == Times(a, a) / b
  {
  }

  lemma EmptySearch(phi: seq<real>, d: seq<real>, w: real)
    ensures Greedy(phi, d, Signs(d), []) && Matches(phi, d, Signs(d), [], [])
    ensures BestCount([], w, 0) && 0.0 == Cost(0, w) + Net([], w, 0)
  {
  }

  lemma FirstRound(phi: seq<real>, d: seq<real>, num: seq<real>, den: seq<real>, p: nat)
    requires Current(phi, d, Signs(d), Built([], Signs(d)), num, den) && Positive(phi, |d|) && FirstMax(num, p)
    requires forall i :: 0 <= i < |d| ==> den[i] == den[p] && num[i] >= 0.0
    ensures FirstMax(Scores(phi, d, Signs(d), Built([], Signs(d))), p)
  {
    hide Times, Corr, Energy, Scores, FirstMax, Signs, Built;
    FirstPulse(phi, d, Signs(d), Built([], Signs(d)), num, den, p);
  }

  lemma InRange(phi: seq<real>, d: seq<real>, w: real, positions: seq<int>, qs: seq<real>, thr: real,
                n: nat, wnrg: real, gain: real, fcbWnrg: real)
    requires Searched(phi, d, w, positions, qs, thr, n, wnrg, gain, fcbWnrg)
    ensures |qs| == |positions| && n <= |qs| && forall j :: 0 <= j < |positions| ==> 0 <= positions[j] < |d|
  {
    hide Times, Corr, Energy, Scores, FirstMax, Built;
  }

  lemma FlippedCentre(phiFlip: seq<real>, phi: seq<real>)
    requires Flipped(phiFlip, phi)
    ensures |phiFlip| == 2 * SF_LEN && phiFlip[SF_LEN] == Phi(phi, 0)
  {
  }

  /** The first pulse, before the loop. */
  method FirstChoice(num: array<real>, den: array<real>, ghost dAbs: seq<real>, ghost phi: seq<real>,
                     ghost d: seq<real>,
                     wnrgPerPulse: real)
    returns (placed: seq<int>, nrgThr: real, nPulses: nat, wnrg: real, gain: real, fcbWnrg: real, ghost qs: seq<real>)
    requires num[..] == dAbs && |dAbs| == |d| > 0 && Positive(phi, |d|) && den.Length == |d|
    requires forall i :: 0 <= i < |d| ==> dAbs[i] >= 0.0 && den[i] == den[0]
    requires Current(phi, d, Signs(d), Built([], Signs(d)), num[..], den[..])
    ensures |placed| == 1 && Searched(phi, d, wnrgPerPulse, placed, qs, nrgThr, nPulses, wnrg, gain, fcbWnrg)
  {
    hide Times, Corr, Energy, Signs, Positive, Current, Greedy, Matches, BestCount, Net, Cost, Figures, Scores,
      FirstMax, Built, Score, Trial, Searched;
    nPulses, wnrg, gain, fcbWnrg := 0, 0.0, 0.0, 0.0;
    ghost var v := Built([], Signs(d));
    var p0 := GetMaxi(num[..]);
    MaxInside(num[..], p0);
    TrialFigures(phi, d, Signs(d), v, num[..], den[..], p0);
    FirstRound(phi, d, num[..], den[..], p0);
    var ratio := num[p0] / den[p0];
    var wnrg0 := Times(num[p0], ratio);
    EmptySearch(phi, d, wnrgPerPulse);
    var better;
    nrgThr, better := CheckIfBetter(wnrg0, 0.0, wnrgPerPulse, [], 0);
    if better {
      nPulses, wnrg, gain, fcbWnrg := 1, wnrg0, ratio, den[p0];
    }
    ScoreOf(phi, d, Trial(Signs(d), v, p0), wnrg0, ratio, den[p0]);
    SearchedNext(phi, d, wnrgPerPulse, [], [], p0, wnrg0, nrgThr, 0, better, wnrg, gain, fcbWnrg);
    placed, qs := [p0], [wnrg0];
    assert [] + [p0] == placed && [] + [wnrg0] == qs;
  }

  lemma MaxInside(x: seq<real>, i: nat)
    requires FirstMax(x, i)
    ensures i < |x|
  {
  }

  lemma ScoreOf(phi: seq<real>, d: seq<real>, w: seq<real>, wnrg: real, gain: real, fcbWnrg: real)
    requires Figures(phi, d, w, wnrg, gain, fcbWnrg)
    ensures wnrg == Score(phi, d, w)
  {
    hide Score, Energy, Corr;
  }

  /** The next pulse, in the loop. */
  method NextChoice(num: seq<real>, den: seq<real>, before: seq<int>, thr0: real, n0: nat,
                    wnrg0: real, gain0: real, fcbWnrg0: real,
                    ghost phi: seq<real>, ghost d: seq<real>, wnrgPerPulse: real, ghost qs0: seq<real>)
    returns (placed: seq<int>, nrgThr: real, nPulses: nat, wnrg: real, gain: real, fcbWnrg: real, ghost qs: seq<real>)
    requires |d| > 0 && Positive(phi, |d|)
    requires Searched(phi, d, wnrgPerPulse, before, qs0, thr0, n0, wnrg0, gain0, fcbWnrg0)
    requires |num| == |den| == |d| && forall j :: 0 <= j < |before| ==> 0 <= before[j] < |d|
    requires Current(phi, d, Signs(d), Built(before, Signs(d)), num, den)
    ensures |placed| == |before| + 1 && placed[..|before|] == before
    ensures Searched(phi, d, wnrgPerPulse, placed, qs, nrgThr, nPulses, wnrg, gain, fcbWnrg)
  {
    hide Times, Corr, Energy, Signs, Positive, Current, Greedy, Matches, BestCount, Net, Cost, Figures, Scores,
      FirstMax, Built, Score, Trial;
    nPulses, wnrg, gain, fcbWnrg := n0, wnrg0, gain0, fcbWnrg0;
    ghost var v := Built(before, Signs(d));
    InRange(phi, d, wnrgPerPulse, before, qs0, thr0, n0, wnrg0, gain0, fcbWnrg0);
    var q := TrialScores(num, den, phi, d, Signs(d), v);
    var pp := GetMaxi(q);
    MaxInside(q, pp);
    TrialFigures(phi, d, Signs(d), v, num, den, pp);
    ScoresAt(phi, d, Signs(d), v, num, den, pp);
    var better;
    nrgThr, better := CheckIfBetter(q[pp], thr0, wnrgPerPulse, qs0, n0);
    if better {
      nPulses, wnrg, gain, fcbWnrg := |before| + 1, q[pp], num[pp] / den[pp], den[pp];
    }
    SearchedNext(phi, d, wnrgPerPulse, before, qs0, pp, q[pp], nrgThr, n0, better, wnrg, gain, fcbWnrg);
    placed, qs := before + [pp], qs0 + [q[pp]];
  }

  lemma ScoresAt(phi: seq<real>, d: seq<real>, sign: seq<real>, v: seq<real>, num: seq<real>, den: seq<real>, p: nat)
    requires Current(phi, d, sign, v, num, den) && Positive(phi, |v|) && p < |v|
    ensures Scores(phi, d, sign, v)[p] == Score(phi, d, Trial(sign, v, p)) == Times(num[p], num[p]) / den[p]
    ensures den[p] != 0.0
  {
    hide Times, Corr, Energy;
    assert Energy(phi, Trial(sign, v, p)) >= 0.0;
  }

  lemma Answered(phi: seq<real>, d: seq<real>, w: real, positions: seq<int>, qs: seq<real>, thr: real,
                 n: nat, wnrg: real, gain: real, fcbWnrg: real, pulses: seq<int>)
    requires Searched(phi, d, w, positions, qs, thr, n, wnrg, gain, fcbWnrg)
    requires |pulses| == n && Coded(d, positions, pulses)
    ensures Answer(phi, d, w, positions, qs, FcbResult(n, pulses, wnrg, gain, fcbWnrg))
  {
    hide Times, Corr, Energy, Greedy, Matches, BestCount, Figures, Built, Signs, Coded;
  }

  lemma Unanswered(phi: seq<real>, d: seq<real>, w: real, positions: seq<int>, qs: seq<real>, thr: real,
                   n: nat, wnrg: real, gain: real, fcbWnrg: real)
    requires Searched(phi, d, w, positions, qs, thr, n, wnrg, gain, fcbWnrg) && thr <= 0.0
    requires forall j :: 0 <= j < |positions| ==> 0 <= positions[j] < |d|
    ensures Answer(phi, d, w, positions, qs, FcbResult(0, [], 0.0, 0.0, 0.0))
  {
    hide Times, Corr, Energy, Greedy, Matches, BestCount, Figures, Built, Signs;
    if w >= 0.0 {
      BestAnswer(qs, w, n, thr);
    }
  }

  /** smplFcbSearch at the main rate. */
  method SmplFcbSearch(phi: seq<real>, phiFlip: seq<real>, percRespLen: nat, d: seq<real>, wnrgPerPulse: real,
                       fcbPulsesMax: nat)
    returns (res: FcbResult, ghost positions: seq<int>, ghost qs: seq<real>)
    requires 0 < |d| <= SF_LEN && Flipped(phiFlip, phi) && 0 < percRespLen && |phi| <= percRespLen
    requires Positive(phi, |d|) && fcbPulsesMax >= 1
    ensures |positions| == fcbPulsesMax && Answer(phi, d, wnrgPerPulse, positions, qs, res)
  {
    hide Times, Phi, Corr, Energy, Signs, Positive, Current, Greedy, Matches, BestCount, Net, Cost, Figures, Scores,
      FirstMax, Built, Flipped, Score, Trial, Searched, Answer, Coded;
    var dAbs, dSign := CalcDAbsAndSign(d);
    FlippedCentre(phiFlip, phi);
    var num, den := Start(d, dAbs, phiFlip[SF_LEN], phi);
    var placed, nrgThr, nPulses, wnrg, gain, fcbWnrg;
    placed, nrgThr, nPulses, wnrg, gain, fcbWnrg, qs := FirstChoice(num, den, dAbs, phi, d, wnrgPerPulse);
    InRange(phi, d, wnrgPerPulse, placed, qs, nrgThr, nPulses, wnrg, gain, fcbWnrg);
    for pulseNr := 1 to fcbPulsesMax
      invariant forall j :: 0 <= j < |placed| ==> 0 <= placed[j] < |d| == |dSign|
      invariant |placed| == pulseNr && num.Length == den.Length == |d|
      invariant Searched(phi, d, wnrgPerPulse, placed, qs, nrgThr, nPulses, wnrg, gain, fcbWnrg)
      invariant Current(phi, d, dSign, Built(placed[..pulseNr - 1], dSign), num[..], den[..])
    {
      Advance(num, den, dAbs, dSign, phiFlip, percRespLen, placed, phi, d);
      ghost var before := placed;
      placed, nrgThr, nPulses, wnrg, gain, fcbWnrg, qs :=
        NextChoice(num[..], den[..], placed, nrgThr, nPulses, wnrg, gain, fcbWnrg, phi, d, wnrgPerPulse, qs);
      assert placed[..pulseNr] == before;
      InRange(phi, d, wnrgPerPulse, placed, qs, nrgThr, nPulses, wnrg, gain, fcbWnrg);
    }
    positions := placed;
    InRange(phi, d, wnrgPerPulse, placed, qs, nrgThr, nPulses, wnrg, gain, fcbWnrg);
    if nrgThr > 0.0 {
      var pulses := CodePulses(dSign, placed, nPulses, d);
      Answered(phi, d, wnrgPerPulse, placed, qs, nrgThr, nPulses, wnrg, gain, fcbWnrg, pulses);
      res := FcbResult(nPulses, pulses, wnrg, gain, fcbWnrg);
    } else {
      Unanswered(phi, d, wnrgPerPulse, placed, qs, nrgThr, nPulses, wnrg, gain, fcbWnrg);
      res := FcbResult(0, [], 0.0, 0.0, 0.0);
    }
  }

  // ---- What the answer means ----

  lemma {:induction false} CostIs(j: nat, w: real)
    ensures Cost(j, w) == Times(j as real, w)
  {
    hide Times;
    if j == 0 {
      TimesZero(w);
    } else {
      CostIs(j - 1, w);
      TimesAdd((j - 1) as real, 1.0, w);
      TimesOne(w);
    }
  }

  lemma TimesOne(w: real)
    ensures Times(1.0, w) == w
  {
  }

  /**
   * The count n maximises the match less the price of its pulses, no pulses counting as zero; no
   * smaller count does.
   */
  lemma CountMeans(qs: seq<real>, w: real, n: nat, j: nat)
    requires BestCount(qs, w, n) && 1 <= j <= |qs|
    ensures n <= |qs|
    ensures var best := if n == 0 then 0.0 else qs[n - 1] - Times(n as real, w);
            && (n > 0 ==> best > 0.0) && qs[j - 1] - Times(j as real, w) <= best
            && (j < n ==> qs[j - 1] - Times(j as real, w) < best)
  {
    hide Cost, Times;
    CostIs(n, w);
    CostIs(j, w);
    assert Net(qs, w, 0) == 0.0 && Net(qs, w, j) == qs[j - 1] - Cost(j, w);
  }

  /** The match times the energy, with the constant that keeps it from zero, is the squared correlation. */
  lemma ScoreMeans(phi: seq<real>, d: seq<real>, w: seq<real>)
    requires Energy(phi, w) >= 0.0
    ensures Times(Score(phi, d, w), Energy(phi, w) + 0.0000000000000001) == Times(Corr(d, w), Corr(d, w))
  {
    hide Energy, Corr;
    TimesQuotient(Times(Corr(d, w), Corr(d, w)), Energy(phi, w) + EPS);
  }
}
