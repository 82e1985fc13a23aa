/** Bytes, unsigned machine arithmetic, powers of two and sequences, shared by the whole model. */
module Bytes {

  type byte = x: int | 0 <= x < 256

  /** Go's uint32 conversion: every arithmetic result is reduced modulo 2^32. */
  function U32(x: int): (r: nat)
  {
    x % 0x1_0000_0000
  }

  lemma NoWrap(x: int)
    requires 0 <= x < 0x1_0000_0000
    ensures U32(x) == x
  {
  }

  function Min(a: int, b: int): int {
    if a < b then a else b
  }

  function Max(a: int, b: int): int {
    if a < b then b else a
  }

  function Abs(a: int): nat {
    if a < 0 then -a else a
  }

  /** Go's integer division, which truncates toward zero. */
  function TruncDiv(a: int, b: int): int
    requires b != 0
  {
    var q := Abs(a) / Abs(b);
    if (a < 0) == (b < 0) then q else -q
  }

  function Pow2(k: nat): (p: nat)
    ensures p >= 1
  {
    if k == 0 then 1 else 2 * Pow2(k - 1)
  }

  function Pow256(k: nat): (p: nat)
    ensures p >= 1
  {
    if k == 0 then 1 else 256 * Pow256(k - 1)
  }

  /** The big-endian value of a byte string. */
  function Value(bytes: seq<byte>): (v: nat)
  {
    if |bytes| == 0 then 0 else Value(bytes[..|bytes| - 1]) * 256 + bytes[|bytes| - 1]
  }

  lemma Pow2Values()
    ensures Pow2(15) == 0x8000 && Pow2(16) == 0x1_0000 && Pow2(22) == 0x40_0000 && Pow2(23) == 0x80_0000
    ensures Pow2(30) == 0x4000_0000 && Pow2(31) == 0x8000_0000
  {
    assert Pow2(4) == 16;
    assert Pow2(8) == 0x100;
    assert Pow2(12) == 0x1000;
    assert Pow2(16) == 0x1_0000;
    assert Pow2(20) == 0x10_0000;
    assert Pow2(24) == 0x100_0000;
    assert Pow2(28) == 0x1000_0000;
  }

  lemma {:induction false} Pow2Monotone(a: nat, b: nat)
    requires a <= b
    ensures Pow2(a) <= Pow2(b)
    decreases b
  {
    if a < b {
      Pow2Monotone(a, b - 1);
    }
  }

  lemma {:induction false} Pow2Add(a: nat, b: nat)
    ensures Pow2(a + b) == Pow2(a) * Pow2(b)
  {
    if a > 0 {
      Pow2Add(a - 1, b);
      var p, q := Pow2(a - 1), Pow2(b);
      assert 2 * (p * q) == (2 * p) * q;
    }
  }

  // ---- Division by a variable ----

  lemma MulLe(a: int, b: int, r: nat)
    requires a <= b
    ensures a * r <= b * r
    ensures a * r == r * a && b * r == r * b
  {
  }

  lemma DivBounds(a: nat, b: nat)
    requires b > 0
    ensures a / b * b <= a < a / b * b + b
    ensures a / b * b == b * (a / b)
  {
  }

  lemma DivMod(a: nat, b: nat)
    requires b > 0
    ensures a % b == a - a / b * b
  {
  }

  /** Quotient and remainder are determined by what they add up to. */
  lemma DivUnique(a: int, m: nat, q: int, r: nat)
    requires a == q * m + r && r < m
    ensures a / m == q && a % m == r
  {
    var q' := a / m;
    assert a == q' * m + a % m;
    if q' < q {
      MulLe(q' + 1, q, m);
    } else if q' > q {
      MulLe(q + 1, q', m);
    }
  }

  // ---- Sequences ----

  lemma Associate<T>(a: seq<T>, b: seq<T>, c: seq<T>)
    ensures a + (b + c) == a + b + c
  {
  }

  lemma AssociateFour<T>(a: seq<T>, b: seq<T>, c: seq<T>, d: seq<T>)
    ensures a + b + c + d == a + (b + (c + d)) == a + (b + c) + d == a + (b + c + d)
  {
  }

  lemma AssociateFive<T>(a: seq<T>, b: seq<T>, c: seq<T>, d: seq<T>, e: seq<T>)
    ensures a + b + c + d + e == a + (b + (c + (d + e)))
  {
  }
}
