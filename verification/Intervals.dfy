/**
 * The range coder's meaning, free of buffers and registers (sections 4.1 and 5.1 of RFC 6716).
 *
 * A coder state is an interval [low, low + rng) of integers at scale n: the code string is looked
 * at through its first n bytes less one bit, 8n - 1 bits, and starts at n = 4.  Coding a symbol narrows the
 * interval; renormalising multiplies it by 256.  A byte string carries a list of symbols exactly
 * when its code lies in the interval the list narrows to.
 */
module Intervals {
  import opened Bytes

  const TOP: nat := 0x8000_0000
  const BOT: nat := 0x80_0000

  /** A symbol: cumulative frequencies [fl, fh) out of ft; any total that every width can be cut into. */
  datatype Sym = Sym(fl: int, fh: int, ft: int)

  predicate ValidSym(s: Sym) {
    0 <= s.fl < s.fh <= s.ft <= BOT
  }

  predicate ValidSyms(ss: seq<Sym>) {
    forall i :: 0 <= i < |ss| ==> ValidSym(ss[i])
  }

  datatype Interval = Interval(n: nat, low: int, rng: int)

  const Whole := Interval(4, 0, TOP)

  predicate Normal(iv: Interval) {
    iv.n >= 1 && BOT < iv.rng <= TOP
  }

  /** The sub-interval of a symbol, before renormalisation. */
  function Narrow(iv: Interval, s: Sym): Interval
    requires s.ft > 0
  {
    var r := iv.rng / s.ft;
    if s.fl > 0 then
      Interval(iv.n, iv.low + iv.rng - r * (s.ft - s.fl), r * (s.fh - s.fl))
    else
      Interval(iv.n, iv.low, iv.rng - r * (s.ft - s.fh))
  }

  function Renorm(iv: Interval): (r: Interval)
    requires iv.n >= 1 && 0 < iv.rng <= TOP
    ensures Normal(r) && r.n >= iv.n
    decreases TOP - iv.rng
  {
    if iv.rng <= BOT then Renorm(Interval(iv.n + 1, iv.low * 256, iv.rng * 256)) else iv
  }

  lemma Distribute(r: nat, a: nat, b: nat, c: nat)
    requires b >= 1
    ensures r * (a + b + c) == r * a + r * b + r * c
    ensures r * (b + c) == r * b + r * c
    ensures r * a >= 0 && r * c >= 0 && r * b >= r
  {
  }

  lemma DivPositive(a: nat, b: nat)
    requires 0 < b <= a
    ensures a / b >= 1
  {
  }

  lemma NarrowBounds(iv: Interval, s: Sym)
    requires Normal(iv) && ValidSym(s)
    ensures iv.rng / s.ft >= 1
    ensures 0 < Narrow(iv, s).rng <= iv.rng
    ensures iv.low <= Narrow(iv, s).low
    ensures Narrow(iv, s).low + Narrow(iv, s).rng == iv.low + iv.rng - (iv.rng / s.ft) * (s.ft - s.fh)
    ensures Narrow(iv, s).low + Narrow(iv, s).rng <= iv.low + iv.rng
  {
    var r := iv.rng / s.ft;
    var a, b, c := s.fl, s.fh - s.fl, s.ft - s.fh;
    DivBounds(iv.rng, s.ft);
    DivPositive(iv.rng, s.ft);
    Distribute(r, a, b, c);
    assert s.ft == a + b + c && s.ft - s.fl == b + c;
  }

  function Step(iv: Interval, s: Sym): (r: Interval)
    requires Normal(iv) && ValidSym(s)
    ensures Normal(r)
  {
    NarrowBounds(iv, s);
    Renorm(Narrow(iv, s))
  }

  /** The interval a list of symbols narrows to. */
  function Steps(iv: Interval, ss: seq<Sym>): (r: Interval)
    requires Normal(iv) && ValidSyms(ss)
    ensures Normal(r)
    decreases |ss|
  {
    if |ss| == 0 then iv else Steps(Step(iv, ss[0]), ss[1..])
  }

  lemma {:induction false} StepsAppend(iv: Interval, a: seq<Sym>, b: seq<Sym>)
    requires Normal(iv) && ValidSyms(a) && ValidSyms(b)
    ensures ValidSyms(a + b)
    ensures Steps(iv, a + b) == Steps(Steps(iv, a), b)
    decreases |a|
  {
    if |a| == 0 {
      assert a + b == b;
    } else {
      StepsAppend(Step(iv, a[0]), a[1..], b);
      assert (a + b)[1..] == a[1..] + b;
    }
  }

  // ---- The code string ----

  /** Byte i of a string that continues with zeros for ever. */
  function ByteAt(buf: seq<byte>, i: nat): byte {
    if i < |buf| then buf[i] else 0
  }

  /** The first k bytes of the zero-extended string, as one number. */
  function Prefix(buf: seq<byte>, k: nat): nat {
    if k == 0 then 0 else Prefix(buf, k - 1) * 256 + ByteAt(buf, k - 1)
  }

  /** The first 8n - 1 bits of the zero-extended string. */
  function Code(buf: seq<byte>, n: nat): nat {
    Prefix(buf, n) / 2
  }

  /** The eight bits that the code gains between scale n and scale n + 1. */
  function NextBits(buf: seq<byte>, n: nat): nat
    requires n >= 1
  {
    (ByteAt(buf, n - 1) * 256 + ByteAt(buf, n)) / 2 % 256
  }

  lemma CodeStep(buf: seq<byte>, n: nat)
    requires n >= 1
    ensures Code(buf, n + 1) == Code(buf, n) * 256 + NextBits(buf, n)
  {
    HalfStep(Prefix(buf, n - 1), ByteAt(buf, n - 1), ByteAt(buf, n));
  }

  lemma HalfStep(p: nat, a: byte, b: byte)
    ensures ((p * 256 + a) * 256 + b) / 2 == (p * 256 + a) / 2 * 256 + (a * 256 + b) / 2 % 256
  {
    var h := a / 2;
    assert (p * 256 + a) / 2 == p * 128 + h;
    assert (a * 256 + b) / 2 == a * 128 + b / 2;
    assert a * 128 == h * 256 + a % 2 * 128;
    assert ((p * 256 + a) * 256 + b) / 2 == (p * 256 + a) * 128 + b / 2;
  }

  predicate Contains(iv: Interval, buf: seq<byte>) {
    iv.low <= Code(buf, iv.n) < iv.low + iv.rng
  }

  lemma {:induction false} ContainsRenorm(iv: Interval, buf: seq<byte>)
    requires iv.n >= 1 && 0 < iv.rng <= TOP
    ensures Contains(Renorm(iv), buf) <==> Contains(iv, buf)
    decreases TOP - iv.rng
  {
    if iv.rng <= BOT {
      CodeStep(buf, iv.n);
      ContainsRenorm(Interval(iv.n + 1, iv.low * 256, iv.rng * 256), buf);
    }
  }

  /** A string that carries a list of symbols also lies in the interval the list starts from. */
  lemma {:induction false} ContainsSteps(iv: Interval, ss: seq<Sym>, buf: seq<byte>)
    requires Normal(iv) && ValidSyms(ss)
    requires Contains(Steps(iv, ss), buf)
    ensures Contains(iv, buf)
    decreases |ss|
  {
    if |ss| > 0 {
      ContainsSteps(Step(iv, ss[0]), ss[1..], buf);
      NarrowBounds(iv, ss[0]);
      ContainsRenorm(Narrow(iv, ss[0]), buf);
    }
  }

  /** The string carries the symbols, read from state iv on. */
  predicate Carries(iv: Interval, ss: seq<Sym>, buf: seq<byte>) {
    Normal(iv) && ValidSyms(ss) && Contains(Steps(iv, ss), buf)
  }

  lemma CarriesHead(iv: Interval, s: Sym, rest: seq<Sym>, buf: seq<byte>)
    requires Carries(iv, [s] + rest, buf)
    ensures ValidSym(s)
    ensures Carries(Step(iv, s), rest, buf)
    ensures Contains(Narrow(iv, s), buf)
  {
    assert ([s] + rest)[0] == s;
    assert ([s] + rest)[1..] == rest;
    forall i | 0 <= i < |rest| ensures ValidSym(rest[i]) {
      assert ([s] + rest)[i + 1] == rest[i];
    }
    ContainsSteps(Step(iv, s), rest, buf);
    NarrowBounds(iv, s);
    ContainsRenorm(Narrow(iv, s), buf);
  }

  // ---- Frequencies and codes ----

  /**
   * The value RangeDecoder.Decode computes for a code that sits `val` below the top of an
   * interval of width rng.
   */
  function Quantise(rng: nat, val: nat, ft: nat): (fs: int)
    requires ft > 0 && rng / ft > 0
    ensures 0 <= fs < ft
  {
    ft - Min(val / (rng / ft) + 1, ft)
  }

  /**
   * Locating a symbol by its frequency is the same as locating the code in the symbol's
   * sub-interval: the two forms of one test, in both directions.
   */
  lemma QuantiseIff(iv: Interval, s: Sym, code: int)
    requires Normal(iv) && ValidSym(s)
    requires iv.low <= code < iv.low + iv.rng
    ensures iv.rng / s.ft > 0
    ensures s.fl <= Quantise(iv.rng, iv.low + iv.rng - 1 - code, s.ft) < s.fh
            <==> Narrow(iv, s).low <= code < Narrow(iv, s).low + Narrow(iv, s).rng
  {
    NarrowBounds(iv, s);
    var r := iv.rng / s.ft;
    var val := iv.low + iv.rng - 1 - code;
    DivAtLeast(val, r, s.ft - s.fh);
    DivAtLeast(val, r, s.ft - s.fl);
    Distribute(r, s.fl, s.fh - s.fl, s.ft - s.fh);
    assert (s.fh - s.fl) + (s.ft - s.fh) == s.ft - s.fl;
  }

  lemma DivAtLeast(val: nat, r: nat, k: int)
    requires r > 0
    ensures val / r >= k <==> val >= r * k
  {
    DivBounds(val, r);
    if val / r >= k {
      MulLe(k, val / r, r);
    } else {
      MulLe(val / r + 1, k, r);
    }
  }
}
