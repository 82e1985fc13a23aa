/**
 * The excitation block of one 20 ms internal frame as a list of range-coder symbols, and the
 * correspondence between pulse vectors and the run-length and sign symbols that carry them.
 */
module PulseSpec {
  import opened Bytes
  import opened Intervals

  datatype RawSym = RawSym(sym: nat, nbits: nat)

  datatype PulseParams = PulseParams(
    total: int,
    subfr: seq<int>,
    magRuns: seq<int>,
    signSyms: seq<RawSym>)

  // ---- Pulse count: the triangular prior of config 0 ----

  /** The quadratic part of the prior, in the source's 32-bit arithmetic. */
  function TriB(k: nat): nat {
    U32(U32(k - 1) * U32(k + 131070)) / 2
  }

  /** The prior's cumulative frequency, masked to 16 bits, for a frame of at most 160 pulses. */
  function TriT(k: nat): nat {
    U32(U32((k + 2) * 161) - TriB(k)) % 0x1_0000
  }

  lemma TriTZero()
    ensures TriT(0) == 321
  {
    assert U32(0 - 1) * U32(0 + 131070) == 562941363355650;
    DivUnique(562941363355650, 0x1_0000_0000, 131069, 4294836226);
    assert TriB(0) == 2147418113;
    assert U32((0 + 2) * 161) - TriB(0) == -2147417791;
  }

  lemma TriBExact(k: nat)
    requires 1 <= k <= 160
    ensures TriB(k) == (k - 1) * (k - 2) / 2 + (k - 1) * 65536
  {
    var j := k - 1;
    var m := j * (k - 2);
    MulBound(j, 159, k - 2, 158);
    assert j * (k + 131070) == m + j * 131072;
    HalfProduct(m + j * 131072, m, j);
    NoWrap(j);
    NoWrap(k + 131070);
    NoWrap(m + j * 131072);
  }

  /** Under the wrap-around the prior is an exact quadratic. */
  lemma TriTExact(k: nat)
    requires k <= 160
    ensures TriT(k) == Quadratic(k)
    ensures 0 < TriT(k) <= 13521
  {
    TriBounds(k);
    if k == 0 {
      TriTZero();
    } else {
      var q := Quadratic(k);
      assert (k + 2) * 161 - TriB(k) == q - (k - 1) * 65536 by { TriBExact(k); }
      hide U32, TriB, Quadratic;
      MaskBack(q, k - 1);
      NoWrap((k + 2) * 161);
    }
  }

  lemma HalfProduct(p: int, m: int, j: int)
    requires p == m + j * 131072
    ensures p / 2 == m / 2 + j * 65536
  {
  }

  /** Masking to 16 bits undoes the subtraction of a multiple of 2^16. */
  lemma MaskBack(t: int, j: int)
    requires 0 <= t < 0x1_0000 && 0 <= j <= 160
    ensures U32(t - j * 65536) % 0x1_0000 == t
  {
    var x := t - j * 65536;
    DivUnique(x, 0x1_0000, -j, t);
    DivUnique(x, 0x1_0000, 65536 * (x / 0x1_0000_0000) + U32(x) / 0x1_0000, U32(x) % 0x1_0000);
  }

  lemma MulBound(a: int, x: int, b: int, y: int)
    requires 0 <= a <= x && -1 <= b <= y && 0 <= y && (b < 0 ==> a == 0)
    ensures 0 <= a * b <= x * y
  {
    if b >= 0 {
      MulLe(a, x, b);
      MulLe(b, y, x);
    }
  }

  function Quadratic(k: nat): int {
    (k + 2) * 161 - (k - 1) * (k - 2) / 2
  }

  lemma QuadraticStep(k: nat)
    ensures Quadratic(k + 1) - Quadratic(k) == 162 - k
  {
    if k > 0 {
      assert k * (k - 1) == (k - 1) * (k - 2) + 2 * (k - 1);
    }
  }

  lemma {:induction false} TriBounds(k: nat)
    requires k <= 160
    ensures 321 <= Quadratic(k) <= Quadratic(160) == 13521
    decreases 160 - k
  {
    QuadraticRise(0, k);
    QuadraticRise(k, 160);
  }

  lemma {:induction false} QuadraticRise(a: nat, b: nat)
    requires a <= b <= 160
    ensures Quadratic(a) <= Quadratic(b)
    ensures a < b ==> Quadratic(a) < Quadratic(b)
    decreases b
  {
    if a < b {
      QuadraticRise(a, b - 1);
      QuadraticStep(b - 1);
    }
  }

  /** The prior is strictly increasing over every count a frame can have. */
  lemma TriTIncreasing(a: nat, b: nat)
    requires a < b <= 160
    ensures TriT(a) < TriT(b)
  {
    TriTExact(a);
    TriTExact(b);
    QuadraticRise(a, b);
  }

  function CountSym(total: nat): Sym {
    Sym(if total > 0 then TriT(total - 1) else 0, TriT(total), TriT(160))
  }

  lemma CountSymValid(total: nat)
    requires total <= 160
    ensures ValidSym(CountSym(total))
  {
    TriTExact(total);
    TriTExact(160);
    if total > 0 {
      TriTIncreasing(total - 1, total);
    }
    if total < 160 {
      TriTIncreasing(total, 160);
    }
  }
}
