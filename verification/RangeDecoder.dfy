/** The Opus/CELT range decoder of src/voip/media/mlow/rangecoder.go (section 4.1 of RFC 6716). */
module RangeDecoding {
  import opened Bytes
  import opened Intervals
  import opened EncoderMath
  import opened RangeEncoding

  class RangeDecoder {
    const buf: seq<byte>
    var offs: nat
    var rng: nat
    var val: nat
    var ext: nat
    var rem: nat
    var nbitsTotal: nat
    var err: int

    /** How many bytes, real or padding, have been looked at. */
    ghost function Seen(): nat
      reads this
    {
      nbitsTotal / 8
    }

    /** The input position and the held-back byte. */
    ghost predicate Reading()
      reads this
    {
      && nbitsTotal % 8 == 1 && Seen() >= 1
      && offs == Min(|buf|, Seen())
      && rem == ByteAt(buf, Seen() - 1)
    }

    ghost predicate Valid()
      reads this
    {
      Reading() && Seen() >= 4 && BOT < rng <= TOP && val < rng
    }

    /** The interval the decoder has narrowed to: val is the distance of the code from its top. */
    ghost function Here(): Interval
      reads this
    {
      Interval(Seen(), Code(buf, Seen()) + val + 1 - rng, rng)
    }

    /** The rest of the input carries these symbols. */
    ghost predicate Holds(ss: seq<Sym>)
      reads this
    {
      Valid() && Carries(Here(), ss, buf)
    }

    constructor (input: seq<byte>)
      ensures Valid() && buf == input && err == 0
      ensures Here() == Whole
    {
      hide Prefix;
      buf := input;
      offs, rng, val, ext, rem, nbitsTotal, err := 0, 128, 0, 0, 0, 9, 0;
      new;
      rem := ReadByte();
      val := U32(rng - 1 - rem / 2);
      FirstByte(buf);
      assert Here() == Interval(1, 0, 128);
      Normalize();
      RenormStart();
    }

    method ReadByte() returns (b: byte)
      modifies `offs
      ensures b == ByteAt(buf, old(offs)) && offs == Min(|buf|, old(offs) + 1)
      requires offs <= |buf|
    {
      if offs < |buf| {
        b := buf[offs];
        offs := offs + 1;
      } else {
        b := 0;
      }
    }

    /** One round of normalize: one more byte comes into view. */
    method NormalizeRound()
      requires Reading() && 0 < rng <= BOT && val < rng
      modifies `offs, `rng, `val, `rem, `nbitsTotal
      ensures Reading() && val < rng && rng == old(rng) * 256
      ensures Here() == old(Interval(Here().n + 1, Here().low * 256, Here().rng * 256))
    {
      hide Code, U32;
      ghost var here, v := Here(), val;
      ShiftIn(val, rng, ByteAt(buf, here.n - 1), ByteAt(buf, here.n));
      CodeStep(buf, here.n);
      nbitsTotal := nbitsTotal + 8;
      rng := U32(rng * 256);
      var sym0 := rem;
      rem := ReadByte();
      var sym := (sym0 * 256 + rem) / 2;
      val := U32(U32(val * 256) + (255 - sym % 256)) % TOP;
      assert val == v * 256 + 255 - NextBits(buf, here.n);
    }

    method Normalize()
      requires Reading() && 0 < rng <= TOP && val < rng
      modifies `offs, `rng, `val, `rem, `nbitsTotal
      ensures Reading() && BOT < rng <= TOP && val < rng
      ensures Here() == Renorm(old(Here()))
    {
      while rng <= BOT
        invariant Reading() && 0 < rng <= TOP && val < rng
        invariant Renorm(Here()) == Renorm(old(Here()))
        decreases TOP - rng
      {
        NormalizeRound();
      }
    }

    /** The cumulative frequency of the next symbol; the caller locates the symbol and updates. */
    method Decode(ft: nat) returns (fs: nat)
      requires Valid()
      modifies `ext, `err
      ensures ft == 0 || rng / ft == 0 ==> fs == 0 && ext == 1 && err == 1
      ensures ft > 0 && rng / ft > 0 ==>
                fs == Quantise(rng, val, ft) && ext == rng / ft && err == old(err)
    {
      if ft == 0 {
        err, ext := 1, 1;
        return 0;
      }
      ext := rng / ft;
      if ext == 0 {
        err, ext := 1, 1;
        return 0;
      }
      fs := ft - Min(val / ext + 1, ft);
    }

    /** Advance past the symbol [fl, fh) of ft, which the last Decode(ft) fell into. */
    method Update(fl: int, fh: int, ft: int)
      requires Valid() && ValidSym(Sym(fl, fh, ft))
      requires rng / ft > 0 && ext == rng / ft && fl <= Quantise(rng, val, ft) < fh
      modifies `offs, `rng, `val, `rem, `nbitsTotal
      ensures Valid() && Here() == Step(old(Here()), Sym(fl, fh, ft))
    {
      hide Code, Quantise, Narrow, ConsumeVal, NarrowRng;
      ghost var here, sym := Here(), Sym(fl, fh, ft);
      Consumed(here, sym, Code(buf, Seen()));
      Consume(fl, fh, ft);
      assert Here() == Narrow(here, sym);
      Normalize();
    }

    /** The register update of Update. */
    method Consume(fl: int, fh: int, ft: int)
      requires ft > 0 && ext == rng / ft
      modifies `rng, `val
      ensures val == ConsumeVal(old(val), old(rng), Sym(fl, fh, ft))
      ensures rng == NarrowRng(old(rng), Sym(fl, fh, ft))
    {
      var s := U32(ext * (ft - fh));
      val := U32(val - s);
      if fl > 0 {
        rng := U32(ext * (fh - fl));
      } else {
        rng := U32(rng - s);
      }
    }

    /** Decode a symbol against a cumulative table. */
    method DecodeCDF(cdf: seq<int>, ghost sent: int, ghost rest: seq<Sym>) returns (k: int)
      requires Valid() && (|cdf| < 2 || cdf[|cdf| - 1] <= cdf[0] || ValidCdf(cdf) || Framed(cdf))
      modifies this
      ensures Valid()
      ensures |cdf| < 2 || cdf[|cdf| - 1] <= cdf[0] ==> k == 0 && err == 1 && Here() == old(Here())
      ensures ValidCdf(cdf) ==> 0 <= k < |cdf| - 1 && err == old(err)
      ensures Framed(cdf) && cdf[0] < cdf[|cdf| - 1] ==> 0 <= k < |cdf| - 1 && cdf[k] < cdf[k + 1] && err == old(err)
      ensures ValidCdf(cdf) && 0 <= sent < |cdf| - 1 && old(Holds([CdfSym(cdf, sent)] + rest))
              ==> k == sent && Holds(rest)
    {
      var n := |cdf|;
      if n < 2 {
        err := 1;
        return 0;
      }
      var base := cdf[0];
      if cdf[n - 1] <= base {
        err := 1;
        return 0;
      }
      var ft := cdf[n - 1] - base;
      WideEnough(rng, ft);
      var fs := Decode(ft);
      var target := base + fs;
      k := 0;
      while k < n - 1
        invariant 0 <= k < n - 1 && cdf[k] <= target
      {
        if cdf[k + 1] > target {
          break;
        }
        k := k + 1;
      }
      if ValidCdf(cdf) && 0 <= sent < n - 1 && Holds([CdfSym(cdf, sent)] + rest) {
        HoldsHead(Here(), CdfSym(cdf, sent), rest, buf);
        assert sent == k;
      }
      Update(cdf[k] - base, cdf[k + 1] - base, ft);
    }

    /** Decode a uniform symbol of nbits bits. */
    method DecodeRawSymbol(nbits: nat, ghost sent: int, ghost rest: seq<Sym>) returns (sym: nat)
      requires Valid() && nbits <= 23
      modifies this
      ensures Valid() && sym < Pow2(nbits) && err == old(err)
      ensures 0 <= sent < Pow2(nbits) && old(Holds([Sym(sent, sent + 1, Pow2(nbits))] + rest))
              ==> sym == sent && Holds(rest)
    {
      RawBound(nbits);
      WideEnough(rng, Pow2(nbits));
      sym := DecodeBin(nbits);
      if 0 <= sent < Pow2(nbits) && Holds([Sym(sent, sent + 1, Pow2(nbits))] + rest) {
        HoldsHead(Here(), Sym(sent, sent + 1, Pow2(nbits)), rest, buf);
      }
      Update(sym, sym + 1, Pow2(nbits));
    }

    method DecodeBin(nbits: nat) returns (fs: nat)
      requires Valid() && rng / Pow2(nbits) > 0
      modifies `ext
      ensures fs == Quantise(rng, val, Pow2(nbits)) && ext == rng / Pow2(nbits)
    {
      ext := rng / Pow2(nbits);
      var ft := Pow2(nbits);
      fs := ft - Min(val / ext + 1, ft);
    }

    /** Decode the 64-symbol uniform fine-lag value. */
    method Decode64FineSym(ghost sent: int, ghost rest: seq<Sym>) returns (sym: int)
      requires Valid()
      modifies this
      ensures Valid() && 0 <= sym < 64 && err == old(err)
      ensures 0 <= sent < 64 && old(Holds([Sym(sent, sent + 1, 64)] + rest)) ==> sym == sent && Holds(rest)
    {
      sym := FineValue();
      if 0 <= sent < 64 && Holds([Sym(sent, sent + 1, 64)] + rest) {
        HoldsHead(Here(), Sym(sent, sent + 1, 64), rest, buf);
      }
      hide Quantise;
      Update(sym, sym + 1, 64);
    }

    method FineValue() returns (sym: int)
      requires Valid()
      modifies `ext
      ensures ext == rng / 64 && ext > 0
      ensures 0 <= sym < 64 && sym == Quantise(rng, val, 64)
    {
      ext := rng / 64;
      var s := val / ext;
      sym := 63 - s;
      if sym < 0 {
        sym := 0;
      } else if sym > 64 {
        sym := 64;
      }
    }
  }

  /** The 32-bit arithmetic of Update on val. */
  function ConsumeVal(val: nat, rng: nat, s: Sym): nat
    requires s.ft > 0
  {
    U32(val - U32((rng / s.ft) * (s.ft - s.fh)))
  }

  /** A code inside the symbol's share stays inside after the registers have moved to it. */
  lemma Consumed(iv: Interval, s: Sym, code: int)
    requires Normal(iv) && ValidSym(s) && iv.low <= code < iv.low + iv.rng
    requires iv.rng / s.ft > 0
    requires s.fl <= Quantise(iv.rng, iv.low + iv.rng - 1 - code, s.ft) < s.fh
    ensures var val := iv.low + iv.rng - 1 - code;
            var val' := ConsumeVal(val, iv.rng, s);
            && NarrowRng(iv.rng, s) == Narrow(iv, s).rng
            && 0 < Narrow(iv, s).rng <= TOP && val' < Narrow(iv, s).rng
            && code + val' + 1 - Narrow(iv, s).rng == Narrow(iv, s).low
            && Narrow(iv, s).n == iv.n
            && Step(iv, s) == Renorm(Narrow(iv, s))
  {
    QuantiseIff(iv, s, code);
    hide Quantise;
    NarrowBounds(iv, s);
    NarrowRegisters(0, iv.rng, s);
    Shares(iv.rng, s);
    var t := (iv.rng / s.ft) * (s.ft - s.fh);
    NoWrap(t);
    NoWrap(iv.low + iv.rng - 1 - code - t);
  }

  lemma WideEnough(rng: nat, ft: nat)
    requires BOT < rng && 0 < ft <= BOT
    ensures rng / ft > 0
  {
    DivPositive(rng, ft);
  }

  /** The next frequency of an input that carries s lies in s, and the rest is carried after it. */
  lemma HoldsHead(iv: Interval, s: Sym, rest: seq<Sym>, buf: seq<byte>)
    requires Normal(iv) && Contains(iv, buf) && Carries(iv, [s] + rest, buf)
    ensures ValidSym(s) && iv.rng / s.ft > 0
    ensures Carries(Step(iv, s), rest, buf)
    ensures s.fl <= Quantise(iv.rng, iv.low + iv.rng - 1 - Code(buf, iv.n), s.ft) < s.fh
  {
    CarriesHead(iv, s, rest, buf);
    QuantiseIff(iv, s, Code(buf, iv.n));
  }

  /** The 32-bit arithmetic of normalize loses nothing. */
  lemma ShiftIn(val: nat, rng: nat, a: byte, b: byte)
    requires val < rng <= BOT
    ensures U32(rng * 256) == rng * 256
    ensures U32(U32(val * 256) + (255 - (a * 256 + b) / 2 % 256)) % TOP
            == val * 256 + 255 - (a * 256 + b) / 2 % 256
  {
  }

  lemma FirstByte(buf: seq<byte>)
    ensures Prefix(buf, 1) == ByteAt(buf, 0)
  {
    assert Prefix(buf, 0) == 0;
  }

  lemma RenormStart()
    ensures Renorm(Interval(1, 0, 128)) == Whole
  {
    assert Renorm(Interval(3, 0, 128 * 65536)) == Whole;
  }
}
