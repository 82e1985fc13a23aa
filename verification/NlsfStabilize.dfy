/**
 * The spacing repair of smplStabilizeNLSF (src/voip/media/mlow/synth.go), over the reals: it works
 * on the margins by which neighbouring frequencies exceed their least spacing.
 */
module NlsfStabilize {

  const MAX_LOOP := 1000
  const EPS := 0.00000095367431640625

  function Sum(v: seq<real>): real {
    if |v| == 0 then 0.0 else Sum(v[..|v| - 1]) + v[|v| - 1]
  }

  /** Frequency i, with the ends of the band on either side. */
  function Freq(nlsf: seq<real>, pi: real, i: int): real {
    if i < 0 then 0.0 else if i < |nlsf| then nlsf[i] else pi
  }

  /** How far the gap below frequency i exceeds its least spacing. */
  function Margin(nlsf: seq<real>, spacing: seq<real>, pi: real, i: nat): real
    requires i < |spacing|
  {
    Freq(nlsf, pi, i) - Freq(nlsf, pi, i - 1) - spacing[i]
  }

  function Margins(nlsf: seq<real>, spacing: seq<real>, pi: real): (m: seq<real>)
    ensures |m| == |spacing|
  {
    seq(|spacing|, i requires 0 <= i < |spacing| => Margin(nlsf, spacing, pi, i))
  }

  /** In order, and every gap, the last one up to pi included, at least its least spacing. */
  predicate Spaced(nlsf: seq<real>, spacing: seq<real>, pi: real) {
    forall i :: 0 <= i < |spacing| ==> Margin(nlsf, spacing, pi, i) >= 0.0
  }

  /** Where the smallest of the first n values stands; the first place of several. */
  function MinIndex(v: seq<real>, n: nat): (i: nat)
    requires 1 <= n <= |v|
    ensures i < n && forall k :: 0 <= k < n ==> v[i] <= v[k]
    ensures forall k :: 0 <= k < i ==> v[i] < v[k]
  {
    if n == 1 then 0 else
      var i := MinIndex(v, n - 1);
      if v[n - 1] < v[i] then n - 1 else i
  }

  method ArgMin(marg: array<real>) returns (m: real, idx: nat)
    requires marg.Length > 0
    ensures idx == MinIndex(marg[..], marg.Length) && m == marg[idx]
  {
    m, idx := marg[0], 0;
    for i := 1 to marg.Length
      invariant idx == MinIndex(marg[..], i) && m == marg[idx]
    {
      if marg[i] < m {
        m := marg[i];
        idx := i;
      }
    }
  }

  predicate Settled(v: seq<real>) {
    forall i :: 0 <= i < |v| ==> v[i] >= 0.0
  }

  lemma SettledMin(v: seq<real>)
    requires |v| > 0
    ensures Settled(v) <==> v[MinIndex(v, |v|)] >= 0.0
  {
  }

  /** d is added at place i and taken from its neighbours. */
  function Shift(v: seq<real>, i: nat, d: real): (w: seq<real>)
    requires i < |v| && |v| >= 2
    ensures |w| == |v|
  {
    var L := |v| - 1;
    if i == 0 then Moved(v, 0, 1, d)
    else if i == L then Moved(v, L, L - 1, d)
    else Spread(v, i, d)
  }

  function Moved(v: seq<real>, i: nat, j: nat, d: real): (w: seq<real>)
    requires i < |v| && j < |v|
    ensures |w| == |v|
  {
    v[i := v[i] + d][j := v[j] - d]
  }

  function Spread(v: seq<real>, i: nat, d: real): (w: seq<real>)
    requires 1 <= i < |v| - 1
    ensures |w| == |v|
  {
    v[i := v[i] + d][i - 1 := v[i - 1] - d * 0.5][i + 1 := v[i + 1] - d * 0.5]
  }

  /** Round r lifts the smallest value to r steps above zero. */
  function Round(v: seq<real>, r: nat): (w: seq<real>)
    requires |v| >= 2
    ensures |w| == |v|
  {
    var i := MinIndex(v, |v|);
    Shift(v, i, r as real * EPS - v[i])
  }

  function Rounds(v: seq<real>, n: nat): (w: seq<real>)
    requires |v| >= 2
    ensures |w| == |v|
  {
    if n == 0 then v else Round(Rounds(v, n - 1), n - 1)
  }

  /** A round takes from the neighbours exactly what it gives, and mends the worst place. */
  lemma RoundKeeps(v: seq<real>, r: nat)
    requires |v| >= 2
    ensures Sum(Round(v, r)) == Sum(v) && Round(v, r)[MinIndex(v, |v|)] == r as real * EPS
  {
    hide Sum, MinIndex, Shift;
    var i := MinIndex(v, |v|);
    ShiftSum(v, i, r as real * EPS - v[i]);
    ShiftAt(v, i, r as real * EPS - v[i]);
  }

  /** Conservation: no number of rounds changes the sum. */
  lemma {:induction false} RoundsKeep(v: seq<real>, n: nat)
    requires |v| >= 2
    ensures Sum(Rounds(v, n)) == Sum(v)
  {
    hide Sum, Round;
    if n > 0 {
      RoundsKeep(v, n - 1);
      RoundKeeps(Rounds(v, n - 1), n - 1);
    }
  }

  lemma ShiftAt(v: seq<real>, i: nat, d: real)
    requires i < |v| && |v| >= 2
    ensures Shift(v, i, d)[i] == v[i] + d
  {
  }

  lemma ShiftSum(v: seq<real>, i: nat, d: real)
    requires i < |v| && |v| >= 2
    ensures Sum(Shift(v, i, d)) == Sum(v)
  {
    hide Sum, Moved, Spread;
    if i == 0 {
      MoveTwo(v, 0, 1, d, v[0] + d, v[1] - d);
    } else if i == |v| - 1 {
      MoveTwo(v, i, i - 1, d, v[i] + d, v[i - 1] - d);
    } else {
      MoveThree(v, i, d, v[i] + d, v[i - 1] - d * 0.5, v[i + 1] - d * 0.5);
    }
  }

  /** Three updates at different places change the sum by what they change there. */
  lemma SumThree(v: seq<real>, i: nat, x: real, j: nat, y: real, k: nat, z: real)
    requires i < |v| && j < |v| && k < |v| && i != j && i != k && j != k
    ensures Sum(v[i := x][j := y][k := z]) == Sum(v) + x - v[i] + y - v[j] + z - v[k]
  {
    hide Sum;
    SumUpdate(v, i, x);
    SumUpdate(v[i := x], j, y);
    SumUpdate(v[i := x][j := y], k, z);
  }

  lemma MoveThree(v: seq<real>, i: nat, d: real, x: real, y: real, z: real)
    requires 1 <= i < |v| - 1 && x == v[i] + d && y == v[i - 1] - d * 0.5 && z == v[i + 1] - d * 0.5
    ensures Sum(Spread(v, i, d)) == Sum(v)
  {
    hide Sum;
    SumThree(v, i, x, i - 1, y, i + 1, z);
  }

  lemma MoveTwo(v: seq<real>, i: nat, j: nat, d: real, x: real, y: real)
    requires i < |v| && j < |v| && i != j && x == v[i] + d && y == v[j] - d
    ensures Sum(Moved(v, i, j, d)) == Sum(v)
  {
    hide Sum;
    SumTwo(v, i, x, j, y);
  }

  lemma SumTwo(v: seq<real>, i: nat, x: real, j: nat, y: real)
    requires i < |v| && j < |v| && i != j
    ensures Sum(v[i := x][j := y]) == Sum(v) + x - v[i] + y - v[j]
  {
    hide Sum;
    SumUpdate(v, i, x);
    SumUpdate(v[i := x], j, y);
  }

  lemma {:induction false} SumUpdate(v: seq<real>, i: nat, x: real)
    requires i < |v|
    ensures Sum(v[i := x]) == Sum(v) + x - v[i]
    decreases |v|
  {
    var n := |v| - 1;
    if i < n {
      SumUpdate(v[..n], i, x);
      assert v[i := x][..n] == v[..n][i := x];
    } else {
      assert v[i := x][..n] == v[..n];
    }
  }

  /** Moves d into the smallest margin from its neighbours. */
  method Transfer(marg: array<real>, sel: nat, d: real)
    requires marg.Length >= 2 && sel < marg.Length
    modifies marg
    ensures marg[..] == Shift(old(marg[..]), sel, d)
  {
    var L := marg.Length - 1;
    if sel == 0 {
      marg[0] := marg[0] + d;
      marg[1] := marg[1] - d;
    } else if sel == L {
      marg[L] := marg[L] + d;
      marg[L - 1] := marg[L - 1] - d;
    } else {
      marg[sel] := marg[sel] + d;
      var half := d * 0.5;
      marg[sel - 1] := marg[sel - 1] - half;
      marg[sel + 1] := marg[sel + 1] - half;
    }
  }

  /** The frequencies that margins stand for, up to place n. */
  function Rebuilt(marg: seq<real>, spacing: seq<real>, n: nat): real
    requires n < |marg| && n < |spacing|
  {
    if n == 0 then spacing[0] + marg[0] else Rebuilt(marg, spacing, n - 1) + marg[n] + spacing[n]
  }

  /** What one more step of the loop adds to frequency n. */
  function Push(v: seq<real>, i: nat, d: real, n: nat): real {
    if i == 0 then (if n == 0 then d else 0.0)
    else if i == |v| - 1 then (if n == |v| - 2 then -d else 0.0)
    else if n == i - 1 then d * -0.5
    else if n == i then d * 0.5
    else 0.0
  }

  lemma {:induction false} ShiftMoves(v: seq<real>, spacing: seq<real>, i: nat, d: real, n: nat)
    requires i < |v| && 2 <= |v| == |spacing| && n < |v| - 1
    ensures Rebuilt(Shift(v, i, d), spacing, n) == Rebuilt(v, spacing, n) + Push(v, i, d, n)
  {
    if n > 0 {
      ShiftMoves(v, spacing, i, d, n - 1);
    }
  }

  /**
   * One round, in frequencies: the two beside the worst gap move apart by the same amount, so their
   * sum stays; at an end of the band the one there moves alone; no other frequency moves.
   */
  lemma RoundMoves(v: seq<real>, spacing: seq<real>, r: nat, n: nat)
    requires 2 <= |v| == |spacing| && n < |v| - 1
    ensures var i := MinIndex(v, |v|);
            var d := r as real * EPS - v[i];
            var moved := Rebuilt(Round(v, r), spacing, n) - Rebuilt(v, spacing, n);
            && (0 < i < |v| - 1 && n == i - 1 ==> moved == -(d * 0.5))
            && (0 < i < |v| - 1 && n == i ==> moved == d * 0.5)
            && (i == 0 && n == 0 ==> moved == d) && (i == |v| - 1 && n == i - 1 ==> moved == -d)
            && (n != i && n + 1 != i ==> moved == 0.0)
  {
    hide Rebuilt, MinIndex, Shift;
    var i := MinIndex(v, |v|);
    ShiftMoves(v, spacing, i, r as real * EPS - v[i], n);
  }

  lemma {:induction false} RebuiltSum(marg: seq<real>, spacing: seq<real>, n: nat)
    requires n < |marg| && |marg| == |spacing|
    ensures Rebuilt(marg, spacing, n) == Sum(marg[..n + 1]) + Sum(spacing[..n + 1])
    decreases n
  {
    assert marg[..n + 1][..n] == marg[..n] && spacing[..n + 1][..n] == spacing[..n];
    if n > 0 {
      RebuiltSum(marg, spacing, n - 1);
    } else {
      assert Sum(marg[..0]) == 0.0 && Sum(spacing[..0]) == 0.0;
    }
  }

  /** Over any frequencies the margins and the spacings add up to the whole band. */
  lemma {:induction false} MarginsSum(nlsf: seq<real>, spacing: seq<real>, pi: real, n: nat)
    requires n <= |spacing|
    ensures Sum(Margins(nlsf, spacing, pi)[..n]) + Sum(spacing[..n]) == Freq(nlsf, pi, n - 1)
    decreases n
  {
    var m := Margins(nlsf, spacing, pi);
    if n > 0 {
      MarginsSum(nlsf, spacing, pi, n - 1);
      assert m[..n][..n - 1] == m[..n - 1] && spacing[..n][..n - 1] == spacing[..n - 1];
    }
  }

  /** Margins with the right sum are the margins of the frequencies rebuilt from them. */
  lemma RebuiltMargins(nlsf: seq<real>, marg: seq<real>, spacing: seq<real>, pi: real)
    requires |marg| == |spacing| == |nlsf| + 1 && |nlsf| > 0
    requires forall i :: 0 <= i < |nlsf| ==> nlsf[i] == Rebuilt(marg, spacing, i)
    requires Sum(marg) + Sum(spacing) == pi
    ensures Margins(nlsf, spacing, pi) == marg
  {
    var L := |nlsf|;
    RebuiltSum(marg, spacing, L);
    assert marg[..L + 1] == marg && spacing[..L + 1] == spacing;
    forall i | 0 <= i <= L ensures Margin(nlsf, spacing, pi, i) == marg[i] {
      if i == L {
        assert Rebuilt(marg, spacing, L) == pi;
      }
    }
  }

  /** Different frequencies have different margins. */
  lemma {:induction false} RebuiltSame(nlsf: seq<real>, spacing: seq<real>, pi: real, n: nat)
    requires n < |nlsf| && |spacing| == |nlsf| + 1
    ensures Rebuilt(Margins(nlsf, spacing, pi), spacing, n) == nlsf[n]
    decreases n
  {
    if n > 0 {
      RebuiltSame(nlsf, spacing, pi, n - 1);
    }
  }

  method FirstMargins(nlsf: array<real>, spacing: seq<real>, pi: real) returns (marg: array<real>)
    requires nlsf.Length > 0 && |spacing| == nlsf.Length + 1
    ensures fresh(marg) && marg.Length == |spacing| && marg[..] == Margins(nlsf[..], spacing, pi)
    ensures Sum(marg[..]) + Sum(spacing) == pi
  {
    hide Sum;
    var L := nlsf.Length;
    marg := new real[L + 1](i => 0.0);
    marg[0] := nlsf[0] - spacing[0];
    for i := 1 to L
      invariant forall k :: 0 <= k < i ==> marg[k] == Margin(nlsf[..], spacing, pi, k)
    {
      marg[i] := nlsf[i] - nlsf[i - 1] - spacing[i];
    }
    marg[L] := pi - nlsf[L - 1] - spacing[L];
    MarginsTotal(nlsf[..], spacing, pi);
  }

  lemma MarginsTotal(nlsf: seq<real>, spacing: seq<real>, pi: real)
    requires |spacing| == |nlsf| + 1
    ensures Sum(Margins(nlsf, spacing, pi)) + Sum(spacing) == pi
  {
    hide Sum, Margins;
    MarginsSum(nlsf, spacing, pi, |spacing|);
    var m := Margins(nlsf, spacing, pi);
    assert m[..|spacing|] == m && spacing[..|spacing|] == spacing;
  }

  /** The loop stops after the first settled round, or after MAX_LOOP rounds. */
  predicate Stops(v: seq<real>, n: nat)
    requires |v| >= 2
  {
    n <= MAX_LOOP && (Settled(Rounds(v, n)) || n == MAX_LOOP) && forall j :: 0 <= j < n ==> !Settled(Rounds(v, j))
  }

  /** The loop over the margins. */
  method Settle(marg: array<real>) returns (settled: bool, ghost rounds: nat)
    requires marg.Length >= 2
    modifies marg
    ensures marg[..] == Rounds(old(marg[..]), rounds) && Stops(old(marg[..]), rounds)
    ensures settled == Settled(marg[..])
  {
    hide MinIndex, Shift, Settled;
    ghost var m0 := marg[..];
    var min, sel := ArgMin(marg);
    SettledMin(marg[..]);
    var loopN := 0;
    rounds := 0;
    while min < 0.0
      invariant loopN < MAX_LOOP && marg[..] == Rounds(m0, rounds)
      invariant sel == MinIndex(marg[..], marg.Length) && min == marg[sel]
      invariant Settled(marg[..]) <==> min >= 0.0
      invariant rounds == if min < 0.0 || rounds == 0 then loopN else loopN + 1
      invariant forall j :: 0 <= j < rounds ==> !Settled(Rounds(m0, j))
      decreases MAX_LOOP - loopN, if min < 0.0 then 1 else 0
    {
      var d := loopN as real * EPS - min;
      Transfer(marg, sel, d);
      rounds := rounds + 1;
      min, sel := ArgMin(marg);
      SettledMin(marg[..]);
      if min < 0.0 {
        loopN := loopN + 1;
        if loopN == MAX_LOOP {
          break;
        }
      }
    }
    settled := min >= 0.0;
  }

  method Rebuild(nlsf: array<real>, marg: array<real>, spacing: seq<real>, pi: real)
    requires nlsf.Length > 0 && nlsf != marg && |spacing| == marg.Length == nlsf.Length + 1
    requires Sum(marg[..]) + Sum(spacing) == pi
    modifies nlsf
    ensures Margins(nlsf[..], spacing, pi) == marg[..]
    ensures forall i :: 0 <= i < nlsf.Length ==> nlsf[i] == Rebuilt(marg[..], spacing, i)
  {
    hide Sum, Margins;
    nlsf[0] := spacing[0] + marg[0];
    var run := nlsf[0];
    for i := 1 to nlsf.Length
      invariant run == Rebuilt(marg[..], spacing, i - 1)
      invariant forall k :: 0 <= k < i ==> nlsf[k] == Rebuilt(marg[..], spacing, k)
    {
      run := run + marg[i] + spacing[i];
      nlsf[i] := run;
    }
    RebuiltMargins(nlsf[..], marg[..], spacing, pi);
  }

  lemma SpacedMargins(nlsf: seq<real>, spacing: seq<real>, pi: real, m: seq<real>)
    requires m == Margins(nlsf, spacing, pi)
    ensures Spaced(nlsf, spacing, pi) <==> Settled(m)
  {
    hide Margin;
    forall i | 0 <= i < |m| ensures m[i] == Margin(nlsf, spacing, pi, i) {
    }
    if Spaced(nlsf, spacing, pi) {
      forall i | 0 <= i < |m| ensures m[i] >= 0.0 {
        assert Margin(nlsf, spacing, pi, i) >= 0.0;
      }
    }
  }

  /**
   * smplStabilizeNLSF.  The gaps of the result are the gaps of the input after the rounds, and it
   * has settled exactly when every gap is wide enough, which fails only at the round limit.
   */
  method StabilizeNLSF(nlsf: array<real>, spacing: seq<real>, pi: real) returns (settled: bool, ghost rounds: nat)
    requires nlsf.Length > 0 && |spacing| == nlsf.Length + 1
    modifies nlsf
    ensures var m0 := Margins(old(nlsf[..]), spacing, pi);
            Margins(nlsf[..], spacing, pi) == Rounds(m0, rounds) && Stops(m0, rounds)
    ensures settled <==> Spaced(nlsf[..], spacing, pi)
    ensures Spaced(old(nlsf[..]), spacing, pi) ==> nlsf[..] == old(nlsf[..])
  {
    hide Sum, Margins, Spaced, Rebuilt, Round;
    ghost var n0 := nlsf[..];
    var marg := FirstMargins(nlsf, spacing, pi);
    SpacedMargins(n0, spacing, pi, marg[..]);
    ghost var m0 := marg[..];
    settled, rounds := Settle(marg);
    RoundsKeep(m0, rounds);
    Rebuild(nlsf, marg, spacing, pi);
    SpacedMargins(nlsf[..], spacing, pi, marg[..]);
    if Spaced(n0, spacing, pi) {
      assert Rounds(m0, 0) == m0;
      assert marg[..] == m0;
      forall i | 0 <= i < nlsf.Length ensures nlsf[i] == n0[i] {
        RebuiltSame(n0, spacing, pi, i);
      }
    }
  }
}
