/**
 * What the encoder's registers mean: the carry buffer, `val` and `rng` together are one interval,
 * and each register-level step of rangecoder.go is a step of that interval.
 */
module EncoderMath {
  import opened Bytes
  import opened Intervals
  import opened Digits

  /** The interval that the registers stand for. */
  function Meaning(d: Carry, val: int, rng: int): Interval {
    Interval(Count(d) + 4, Number(d) * TOP + val, rng)
  }

  /** val may hold one carry bit that is still to be propagated, and it can always be absorbed. */
  predicate Sound(d: Carry, val: int, rng: int) {
    && WellFormed(d)
    && 0 <= val && 0 < rng <= TOP && val + rng < 0x1_0000_0000
    && Number(d) * TOP + val + rng <= Ceiling(d) * TOP
  }

  /** One round of normalize is one multiplication by 256. */
  lemma NormalizeRound(d: Carry, val: int, rng: int)
    requires Sound(d, val, rng) && rng <= BOT
    ensures 0 <= val / BOT < 512
    ensures Sound(CarryOut(d, val / BOT), U32(val * 256) % TOP, U32(rng * 256))
    ensures var m := Meaning(d, val, rng);
            Meaning(CarryOut(d, val / BOT), U32(val * 256) % TOP, U32(rng * 256))
            == Interval(m.n + 1, m.low * 256, m.rng * 256)
  {
    hide Number, Ceiling, Count, Digits.CarryOut;
    ShiftOutByte(val);
    CarryOutNumber(d, val / BOT);
  }

  lemma ShiftOutByte(val: nat)
    requires val < 0x1_0000_0000
    ensures U32(val * 256) % TOP == val * 256 - val / BOT * TOP
  {
    var x := val * 256;
    DivUnique(x, TOP, 2 * (x / 0x1_0000_0000) + U32(x) / TOP, U32(x) % TOP);
    DivUnique(x, TOP, val / BOT, val % BOT * 256);
  }

  /** The 32-bit arithmetic of Encode, val and rng after a symbol. */
  function NarrowVal(val: nat, rng: nat, s: Sym): nat
    requires s.ft > 0
  {
    if s.fl > 0 then U32(val + U32(rng - U32((rng / s.ft) * (s.ft - s.fl)))) else val
  }

  function NarrowRng(rng: nat, s: Sym): nat
    requires s.ft > 0
  {
    if s.fl > 0 then U32((rng / s.ft) * (s.fh - s.fl)) else U32(rng - U32((rng / s.ft) * (s.ft - s.fh)))
  }

  lemma Shares(rng: nat, s: Sym)
    requires BOT < rng <= TOP && ValidSym(s)
    ensures var r := rng / s.ft;
            0 <= r * (s.ft - s.fl) <= rng && 0 <= r * (s.fh - s.fl) <= rng && 0 <= r * (s.ft - s.fh) <= rng
  {
    var r := rng / s.ft;
    var a, b, c := s.fl, s.fh - s.fl, s.ft - s.fh;
    Distribute(r, a, b, c);
    DivBounds(rng, s.ft);
    assert s.ft == a + b + c && s.ft - s.fl == b + c;
  }

  /** No 32-bit step of Encode wraps, and val + rng does not grow. */
  lemma NarrowRegisters(val: nat, rng: nat, s: Sym)
    requires BOT < rng <= TOP && val + rng < 0x1_0000_0000 && ValidSym(s)
    ensures NarrowVal(val, rng, s) == val + Narrow(Interval(4, 0, rng), s).low
    ensures NarrowRng(rng, s) == Narrow(Interval(4, 0, rng), s).rng
    ensures 0 < NarrowRng(rng, s) <= TOP
    ensures val <= NarrowVal(val, rng, s) && NarrowVal(val, rng, s) + NarrowRng(rng, s) <= val + rng
  {
    NarrowBounds(Interval(4, 0, rng), s);
    Shares(rng, s);
    var r := rng / s.ft;
    var p, q, t := r * (s.ft - s.fl), r * (s.fh - s.fl), r * (s.ft - s.fh);
    NoWrap(p); NoWrap(q); NoWrap(t); NoWrap(rng - p); NoWrap(rng - t);
    NoWrap(val + (rng - p));
    assert s.fl > 0 ==> NarrowVal(val, rng, s) == val + (rng - p) && NarrowRng(rng, s) == q;
    assert s.fl == 0 ==> NarrowVal(val, rng, s) == val && NarrowRng(rng, s) == rng - t;
  }

  /** Encode narrows the interval by the symbol's share. */
  lemma NarrowSound(d: Carry, val: int, rng: int, s: Sym)
    requires Sound(d, val, rng) && BOT < rng && ValidSym(s)
    ensures Sound(d, NarrowVal(val, rng, s), NarrowRng(rng, s))
    ensures Meaning(d, NarrowVal(val, rng, s), NarrowRng(rng, s)) == Narrow(Meaning(d, val, rng), s)
  {
    NarrowRegisters(val, rng, s);
  }

  // ---- Done ----

  /** The number of significant bits, bits.Len32. */
  function Ilog(x: nat): nat {
    if x == 0 then 0 else 1 + Ilog(x / 2)
  }

  lemma {:induction false} IlogBounds(x: nat)
    requires x > 0
    ensures Ilog(x) > 0 && Pow2(Ilog(x) - 1) <= x < Pow2(Ilog(x))
  {
    if x > 1 {
      IlogBounds(x / 2);
      assert Pow2(Ilog(x) - 1) == 2 * Pow2(Ilog(x) - 2);
    }
  }

  /** A width in (BOT, TOP] has 24 to 32 significant bits. */
  lemma IlogRange(rng: nat)
    requires BOT < rng <= TOP
    ensures 24 <= Ilog(rng) <= 32
  {
    IlogBounds(rng);
    Pow2Values();
    if Ilog(rng) < 24 {
      Pow2Monotone(Ilog(rng), 23);
    } else if Ilog(rng) > 32 {
      Pow2Monotone(32, Ilog(rng) - 1);
    }
  }

  /** (TOP - 1) >> l. */
  lemma MaskShift(l: nat)
    requires l <= 31
    ensures (TOP - 1) / Pow2(l) == Pow2(31 - l) - 1
  {
    Pow2Add(31 - l, l);
    Pow2Values();
    MaskArith(TOP, Pow2(31 - l), Pow2(l));
  }

  lemma MaskArith(t: nat, q: nat, p: nat)
    requires p >= 1 && q >= 1 && t == q * p
    ensures (t - 1) / p == q - 1
  {
    assert (q - 1) * p == q * p - p;
    DivUnique(t - 1, p, q - 1, p - 1);
  }

  /** x rounded up to a multiple of msk + 1, written (x + msk) &^ msk in the source. */
  function RoundUp(x: nat, msk: nat): nat {
    U32(x + msk) - U32(x + msk) % (msk + 1)
  }

  /** What Done settles on: l leading bits, the mask of the bits behind them, and the code point. */
  datatype Final = Final(l: nat, msk: nat, end: nat)

  function Finish(val: nat, rng: nat): Final
    requires BOT < rng <= TOP
  {
    IlogRange(rng);
    var l := 32 - Ilog(rng);
    var msk := (TOP - 1) / Pow2(l);
    if RoundUp(val, msk) + msk >= val + rng then
      Final(l + 1, msk / 2, RoundUp(val, msk / 2))
    else
      Final(l, msk, RoundUp(val, msk))
  }

  lemma RoundUpFacts(x: nat, msk: nat)
    requires x + msk < 0x1_0000_0000
    ensures RoundUp(x, msk) % (msk + 1) == 0 && x <= RoundUp(x, msk) <= x + msk
  {
    var y, m := x + msk, msk + 1;
    DivBounds(y, m);
    DivMod(y, m);
    DivUnique(y / m * m, m, y / m, 0);
  }

  /** Every bit pattern behind the chosen leading bits stays inside the interval. */
  lemma FinishInside(val: nat, rng: nat)
    requires BOT < rng <= TOP && val + rng < 0x1_0000_0000
    ensures var f := Finish(val, rng);
            && f.l <= 9 && f.msk + 1 == Pow2(31 - f.l)
            && f.end % (f.msk + 1) == 0
            && val <= f.end && f.end + f.msk + 1 <= val + rng
            && (f.l == 0 ==> f.end == 0)
  {
    hide RoundUp;
    IlogRange(rng);
    IlogBounds(rng);
    var l := 32 - Ilog(rng);
    MaskShift(l);
    var half := Pow2(30 - l);
    assert Pow2(31 - l) == 2 * half <= rng;
    hide Pow2, Ilog;
    var msk := (TOP - 1) / Pow2(l);
    assert msk == 2 * half - 1 && msk / 2 == half - 1;
    RoundUpFacts(val, msk);
    RoundUpFacts(val, msk / 2);
    if RoundUp(val, msk) + msk >= val + rng {
      assert Finish(val, rng) == Final(l + 1, msk / 2, RoundUp(val, msk / 2));
      assert Pow2(31 - (l + 1)) == half;
    } else {
      assert Finish(val, rng) == Final(l, msk, RoundUp(val, msk));
    }
  }

  lemma FinishSound(d: Carry, val: nat, rng: nat)
    requires Sound(d, val, rng) && BOT < rng
    ensures Sound(d, Finish(val, rng).end, 1)
  {
    FinishInside(val, rng);
  }

  /** How many leading bits the flush fixes, read off the interval alone. */
  function FlushBits(iv: Interval): (l: nat)
    requires BOT < iv.rng <= TOP
  {
    Finish(iv.low % TOP, iv.rng).l
  }

  /** The bytes that the symbols take: one for each digit produced, and the flushed bits. */
  function BytesNeeded(ss: seq<Sym>): int {
    if ValidSyms(ss) then Steps(Whole, ss).n - 4 + (FlushBits(Steps(Whole, ss)) + 7) / 8 else 0
  }

  lemma RoundUpShift(x: nat, p: nat, q: nat)
    requires p > 0 && TOP == p * q && x + TOP + p <= 0x1_0000_0000
    ensures RoundUp(x + TOP, p - 1) == RoundUp(x, p - 1) + TOP
  {
    hide U32;
    var y := x + p - 1;
    NoWrap(y);
    NoWrap(y + TOP);
    DivMod(y, p);
    Distributes(y / p, q, p);
    DivUnique(y + TOP, p, y / p + q, y % p);
  }

  /** The flush depends only on where the interval lies within one period of the register. */
  lemma FinishShift(x: nat, rng: nat)
    requires BOT < rng <= TOP && x + TOP + rng < 0x1_0000_0000
    ensures Finish(x + TOP, rng).l == Finish(x, rng).l
  {
    hide RoundUp;
    IlogRange(rng);
    IlogBounds(rng);
    var l := 32 - Ilog(rng);
    MaskShift(l);
    Pow2Add(31 - l, l);
    Pow2Values();
    assert Pow2(31 - l) <= rng;
    RoundUpShift(x, Pow2(31 - l), Pow2(l));
  }

  lemma FlushBitsOf(d: Carry, val: nat, rng: nat)
    requires Sound(d, val, rng) && BOT < rng
    ensures FlushBits(Meaning(d, val, rng)) == Finish(val, rng).l
  {
    hide Finish, Number;
    var q, r := val / TOP, val % TOP;
    DivUnique(Number(d) * TOP + val, TOP, Number(d) + q, r);
    if q > 0 {
      FinishShift(val - TOP, rng);
    }
  }

  /** Fewer bits fix nothing: no block of a larger power of two fits into the interval. */
  lemma FlushBitsLeast(iv: Interval, l: nat, k: nat)
    requires iv.low >= 0 && BOT < iv.rng <= TOP && l <= 31
    requires iv.low <= k * Pow2(31 - l) && (k + 1) * Pow2(31 - l) <= iv.low + iv.rng
    ensures l >= FlushBits(iv)
  {
    hide RoundUp, Ilog, Pow2;
    var p := Pow2(31 - l);
    Distributes(k, 1, p);
    IlogRange(iv.rng);
    IlogBounds(iv.rng);
    var least := 32 - Ilog(iv.rng);
    if l < least {
      Pow2Monotone(Ilog(iv.rng), 31 - l);
    } else if l == least {
      Pow2Add(31 - l, l);
      Pow2Values();
      MaskShift(l);
      BlockFits(iv.low, iv.rng, p, Pow2(l), k);
    }
  }

  lemma Distributes(k: int, n: int, p: int)
    ensures (k + n) * p == k * p + p * n
  {
  }

  lemma BlockFits(low: nat, rng: nat, p: nat, q: nat, k: nat)
    requires p > 0 && TOP == p * q && low <= k * p && k * p + p <= low + rng && p <= rng <= TOP
    ensures RoundUp(low % TOP, p - 1) + p <= low % TOP + rng
  {
    hide RoundUp;
    var c := low / TOP;
    DivMod(low, TOP);
    Relocated(k, c, p, q);
    RoundUpLeast(low % TOP, p, k - c * q);
  }

  lemma Relocated(k: nat, c: nat, p: nat, q: nat)
    requires TOP == p * q
    ensures (k - c * q) * p == k * p - c * TOP
  {
    assert c * TOP == (c * q) * p;
  }

  /** Rounding up finds the first multiple. */
  lemma RoundUpLeast(x: nat, p: nat, e: int)
    requires p > 0 && x < TOP && p <= TOP && x <= e * p
    ensures RoundUp(x, p - 1) <= e * p
  {
    var y := x + p - 1;
    DivMod(y, p);
    if e < y / p {
      Distributes(e, 1, p);
      MulLe(e + 1, y / p, p);
    }
  }

  /** A multiple of a power of two is a multiple of every smaller one. */
  lemma {:induction false} AlignedDown(x: nat, a: nat, b: nat)
    requires b <= a && x % Pow2(a) == 0
    ensures x % Pow2(b) == 0
    decreases a
  {
    if b < a {
      var p := Pow2(a - 1);
      DivMod(x, Pow2(a));
      DivUnique(x, p, 2 * (x / Pow2(a)), 0);
      AlignedDown(x, a - 1, b);
    }
  }

  /** Shifting out eight bits of an aligned code point leaves nothing, or a point still aligned. */
  lemma ShiftAligned(end: nat, l: nat)
    requires 1 <= l <= 9 && end % Pow2(31 - l) == 0
    ensures l <= 8 ==> U32(end * 256) % TOP == 0
    ensures l == 9 ==> U32(end * 256) % TOP % Pow2(30) == 0
  {
    Pow2Values();
    if l == 9 {
      ShiftOfMultiple(end, 0x40_0000);
    } else {
      AlignedDown(end, 31 - l, 23);
      ShiftOfMultiple(end, BOT);
    }
  }

  lemma ShiftOfMultiple(end: nat, m: nat)
    requires (m == BOT || m == 0x40_0000) && end % m == 0
    ensures m == BOT ==> U32(end * 256) % TOP == 0
    ensures m == 0x40_0000 ==> U32(end * 256) % TOP % 0x4000_0000 == 0
  {
  }

  // ---- The finished bytes ----

  lemma {:induction false} PrefixOfBytes(bytes: seq<byte>, suffix: seq<byte>, k: nat)
    requires k <= |bytes|
    ensures Prefix(bytes + suffix, k) == Value(bytes[..k])
  {
    if k > 0 {
      PrefixOfBytes(bytes, suffix, k - 1);
      assert bytes[..k][..k - 1] == bytes[..k - 1];
    }
  }

  /**
   * After Done has shifted out j digits of the code point e and flushed the carry buffer, the
   * bytes followed by anything at all have a code that agrees with e in its leading bits.
   */
  lemma FlushedCode(out: seq<byte>, n: nat, j: nat, e: int, suffix: seq<byte>)
    requires j <= 2 && |out| == n + j
    requires e * Pow256(j) == Value(out) * TOP
    ensures e <= Code(out + suffix, n + 4) < e + Pow2(31 - 8 * j)
  {
    var buf := out + suffix;
    PrefixOfBytes(out, suffix, |out|);
    assert out[..|out|] == out;
    hide Prefix, Value;
    var v := Value(out);
    if j == 0 {
      PrefixFour(buf, n);
      Pow2Values();
    } else if j == 1 {
      PrefixThree(buf, n + 1);
      assert e * 256 == v * TOP by { assert Pow256(1) == 256; }
      Pow2Values();
    } else {
      PrefixTwo(buf, n + 2);
      assert e * 65536 == v * TOP by { assert Pow256(2) == 65536; }
      Pow2Values();
    }
  }

  lemma PrefixTwo(buf: seq<byte>, k: nat)
    ensures Prefix(buf, k) * 65536 <= Prefix(buf, k + 2) < Prefix(buf, k) * 65536 + 65536
  {
    assert Prefix(buf, k + 2) == Prefix(buf, k + 1) * 256 + ByteAt(buf, k + 1);
  }

  lemma PrefixThree(buf: seq<byte>, k: nat)
    ensures Prefix(buf, k) * 0x100_0000 <= Prefix(buf, k + 3) < Prefix(buf, k) * 0x100_0000 + 0x100_0000
  {
    PrefixTwo(buf, k);
    assert Prefix(buf, k + 3) == Prefix(buf, k + 2) * 256 + ByteAt(buf, k + 2);
  }

  lemma PrefixFour(buf: seq<byte>, k: nat)
    ensures Prefix(buf, k) * 0x1_0000_0000 <= Prefix(buf, k + 4) < Prefix(buf, k) * 0x1_0000_0000 + 0x1_0000_0000
  {
    PrefixThree(buf, k);
    assert Prefix(buf, k + 4) == Prefix(buf, k + 3) * 256 + ByteAt(buf, k + 3);
  }
}
