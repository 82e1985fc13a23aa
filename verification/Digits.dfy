/**
 * The encoder's carry buffer.  Bytes already written, one pending byte `rem` (-1 when there is
 * none) and `ext` bytes 255 behind it are one base-256 number; a late carry turns the run of 255s
 * over and lands in `rem`.
 */
module Digits {
  import opened Bytes

  datatype Carry = Carry(out: seq<byte>, rem: int, ext: nat)

  predicate WellFormed(d: Carry) {
    -1 <= d.rem < 256 && (d.rem < 0 ==> d.out == [])
  }

  /** How many base-256 digits have been produced. */
  function Count(d: Carry): nat {
    |d.out| + (if d.rem >= 0 then 1 else 0) + d.ext
  }

  function Pending(d: Carry): int {
    if d.rem >= 0 then Value(d.out) * 256 + d.rem else 0
  }

  /** The number those digits stand for. */
  function Number(d: Carry): int {
    (Pending(d) + 1) * Pow256(d.ext) - 1
  }

  /** No carry may reach this number: the bytes in `out` are final. */
  function Ceiling(d: Carry): int {
    (if d.rem >= 0 then (Value(d.out) + 1) * 256 else 1) * Pow256(d.ext)
  }

  function Repeat(b: byte, k: nat): (s: seq<byte>)
    ensures |s| == k
  {
    if k == 0 then [] else Repeat(b, k - 1) + [b]
  }

  /** The written bytes once the pending one has taken its carry. */
  function Settled(d: Carry, carry: nat): seq<byte> {
    if d.rem >= 0 then d.out + [(d.rem + carry) % 256] else d.out
  }

  /** carryOut: produce the digit c, which may carry (c >= 256) into the digits before it. */
  function CarryOut(d: Carry, c: nat): Carry
    requires WellFormed(d)
  {
    if c != 255 then
      Carry(Settled(d, c / 256) + Repeat((255 + c / 256) % 256, d.ext), c % 256, 0)
    else
      d.(ext := d.ext + 1)
  }

  lemma {:induction false} ValueRepeat(s: seq<byte>, k: nat)
    ensures Value(s + Repeat(255, k)) == (Value(s) + 1) * Pow256(k) - 1
    ensures Value(s + Repeat(0, k)) == Value(s) * Pow256(k)
  {
    if k == 0 {
      assert s + Repeat(255, 0) == s && s + Repeat(0, 0) == s;
    } else {
      ValueRepeat(s, k - 1);
      ValuePush(s + Repeat(255, k - 1), 255);
      ValuePush(s + Repeat(0, k - 1), 0);
      assert s + Repeat(255, k) == (s + Repeat(255, k - 1)) + [255];
      assert s + Repeat(0, k) == (s + Repeat(0, k - 1)) + [0];
      Shift256(Value(s) + 1, Pow256(k - 1));
      Shift256(Value(s), Pow256(k - 1));
    }
  }

  lemma Shift256(a: int, p: int)
    ensures a * (256 * p) == a * p * 256
  {
  }

  lemma ValuePush(s: seq<byte>, b: byte)
    ensures Value(s + [b]) == Value(s) * 256 + b
  {
    assert (s + [b])[..|s|] == s;
  }

  /** The bytes a carry-out finalises are the number so far, plus the carry. */
  lemma Finalised(d: Carry, carry: nat)
    requires WellFormed(d) && carry <= 1
    requires carry == 1 ==> Number(d) + 1 < Ceiling(d)
    ensures Value(Settled(d, carry) + Repeat((255 + carry) % 256, d.ext)) == Number(d) + carry
  {
    ValueRepeat(Settled(d, carry), d.ext);
    SettledValue(d, carry);
  }

  lemma SettledValue(d: Carry, carry: nat)
    requires WellFormed(d) && carry <= 1
    requires carry == 1 ==> Number(d) + 1 < Ceiling(d)
    ensures Value(Settled(d, carry)) == Pending(d) + carry
  {
    if d.rem >= 0 {
      ValuePush(d.out, (d.rem + carry) % 256);
      if carry == 1 {
        CarryFits(d);
      }
    } else if carry == 1 {
      assert false;
    }
  }

  lemma CarryFits(d: Carry)
    requires WellFormed(d) && d.rem >= 0
    requires Number(d) + 1 < Ceiling(d)
    ensures d.rem < 255
  {
    assert d.rem == 255 ==> Pending(d) + 1 == (Value(d.out) + 1) * 256;
  }

  /** A carry-out appends a digit to the number: the carry is never lost and never overflows. */
  lemma CarryOutNumber(d: Carry, c: nat)
    requires WellFormed(d) && c < 512
    requires c >= 256 ==> Number(d) + 1 < Ceiling(d)
    ensures WellFormed(CarryOut(d, c))
    ensures Count(CarryOut(d, c)) == Count(d) + 1
    ensures Number(CarryOut(d, c)) == Number(d) * 256 + c
    ensures Ceiling(CarryOut(d, c))
            == (if c < 255 then (Number(d) + 1) * 256
                else if c == 255 then Ceiling(d) * 256
                else (Number(d) + 2) * 256)
  {
    if c == 255 {
      Shift256(Pending(d) + 1, Pow256(d.ext));
      Shift256(if d.rem >= 0 then (Value(d.out) + 1) * 256 else 1, Pow256(d.ext));
    } else {
      Finalised(d, c / 256);
    }
  }
}
