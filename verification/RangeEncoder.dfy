/** The Opus/CELT range encoder of src/voip/media/mlow/rangecoder.go (section 5.1 of RFC 6716). */
module RangeEncoding {
  import opened Bytes
  import opened Intervals
  import opened Digits
  import opened EncoderMath

  /** The symbol that EncodeCDF codes for index s: frequencies are relative to the first entry. */
  function CdfSym(cdf: seq<int>, s: nat): Sym
    requires s + 1 < |cdf|
  {
    Sym(cdf[s] - cdf[0], cdf[s + 1] - cdf[0], cdf[|cdf| - 1] - cdf[0])
  }

  /** A usable cumulative table: 16-bit, strictly increasing, at least one symbol. */
  predicate ValidCdf(cdf: seq<int>) {
    && |cdf| >= 2
    && (forall i :: 0 <= i < |cdf| ==> 0 <= cdf[i] < 0x1_0000)
    && (forall i, j :: 0 <= i < j < |cdf| ==> cdf[i] < cdf[j])
  }

  /** A 16-bit table whose entries stay between its ends, if perhaps not in order. */
  predicate Framed(cdf: seq<int>) {
    |cdf| >= 2 && forall i :: 0 <= i < |cdf| ==> 0 <= cdf[0] <= cdf[i] <= cdf[|cdf| - 1] < 0x1_0000
  }

  lemma CdfSymValid(cdf: seq<int>, s: nat)
    requires ValidCdf(cdf) && s + 1 < |cdf|
    ensures ValidSym(CdfSym(cdf, s))
  {
  }

  class RangeEncoder {
    const buf: array<byte>
    var offs: nat
    var rng: nat
    var val: nat
    var ext: nat
    var rem: int
    var err: int
    var nbitsTotal: nat

    /** Every symbol encoded so far. */
    ghost var written: seq<Sym>

    /** Some caller asked for a symbol that does not exist. */
    ghost var misused: bool

    ghost function Buffered(): Carry
      reads this, buf
      requires offs <= buf.Length
    {
      Carry(buf[..offs], rem, ext)
    }

    ghost predicate Bounded()
      reads this
    {
      offs <= buf.Length && -1 <= rem < 256 && (err == 0 || err == -1)
    }

    /** The registers stand for iv, unless a byte was refused because iv is too fine for the buffer. */
    ghost predicate At(iv: Interval)
      reads this, buf
    {
      && Bounded() && val + rng < 0x1_0000_0000
      && iv.n >= 4 && rng == iv.rng && nbitsTotal == 33 + 8 * (iv.n - 4)
      && (err == 0 ==> Sound(Buffered(), val, rng) && Meaning(Buffered(), val, rng) == iv)
      && (err == -1 ==> misused || iv.n - 4 > buf.Length)
    }

    /** As long as no byte was refused, the registers are the interval of the written symbols. */
    ghost predicate Valid()
      reads this, buf
    {
      BOT < rng <= TOP && ValidSyms(written) && At(Steps(Whole, written))
    }

    constructor (size: nat)
      ensures Valid() && fresh(buf) && buf.Length == size
      ensures written == [] && err == 0 && !misused
    {
      buf := new byte[size](i => 0);
      misused := false;
      offs, rng, val, ext, rem, err, nbitsTotal := 0, TOP, 0, 0, -1, 0, 33;
      written := [];
    }

    method WriteByte(b: byte)
      requires offs <= buf.Length
      modifies `offs, `err, buf
      ensures offs <= buf.Length
      ensures old(offs) < buf.Length ==> err == old(err) && buf[..offs] == old(buf[..offs]) + [b]
      ensures old(offs) == buf.Length ==> err == -1 && offs == old(offs) && buf[..] == old(buf[..])
    {
      if offs < buf.Length {
        buf[offs] := b;
        offs := offs + 1;
      } else {
        err := -1;
      }
    }

    /** Writes the held-back run of 255s, as they are or turned over to zeros. */
    method WriteRun(sym: byte)
      requires Bounded()
      modifies `offs, `err, `ext, buf
      ensures Bounded() && ext == 0
      ensures err == 0 ==> old(err) == 0 && buf[..offs] == old(buf[..offs]) + Repeat(sym, old(ext))
      ensures err == -1 && old(err) == 0 ==> old(offs) + old(ext) > buf.Length
    {
      ghost var before, done := buf[..offs], 0;
      assert before + Repeat(sym, 0) == before;
      while ext > 0
        invariant Bounded() && done + ext == old(ext)
        invariant err == 0 ==> old(err) == 0 && buf[..offs] == before + Repeat(sym, done)
        invariant err == -1 && old(err) == 0 ==> |before| + done + ext > buf.Length
        decreases ext
      {
        WriteByte(sym);
        ext := ext - 1;
        done := done + 1;
      }
    }

    /** Buffers the nine-bit digit c, releasing the bytes that no later carry can change. */
    method CarryOut(c: nat)
      requires Bounded() && c < 512 && (err == 0 ==> WellFormed(Buffered()))
      modifies `offs, `err, `ext, `rem, buf
      ensures Bounded() && (err == 0 ==> old(err) == 0)
      ensures err == 0 ==> old(err) == 0 && Buffered() == Digits.CarryOut(old(Buffered()), c)
      ensures err == -1 && old(err) == 0 ==> old(Count(Buffered())) > buf.Length
    {
      ghost var d := Buffered();
      if c != 255 {
        var carry := c / 256;
        if rem >= 0 {
          WriteByte((rem + carry) % 256);
        }
        WriteRun((255 + carry) % 256);
        rem := c % 256;
      } else {
        ext := ext + 1;
      }
    }

    method Normalize(ghost iv: Interval)
      requires 0 < rng <= TOP && At(iv)
      modifies `offs, `rng, `val, `ext, `rem, `err, `nbitsTotal, buf
      ensures BOT < rng <= TOP && At(Renorm(iv)) && (err == 0 ==> old(err) == 0)
    {
      hide Number, Ceiling, Digits.CarryOut;
      ghost var now := iv;
      while rng <= BOT
        invariant 0 < rng <= TOP && At(now)
        invariant Renorm(now) == Renorm(iv) && (err == 0 ==> old(err) == 0)
        decreases TOP - rng
      {
        ghost var d := Buffered();
        if err == 0 {
          NormalizeRound(d, val, rng);
        }
        CarryOut(val / BOT);
        val := U32(val * 256) % TOP;
        rng := U32(rng * 256);
        nbitsTotal := nbitsTotal + 8;
        now := Interval(now.n + 1, now.low * 256, now.rng * 256);
      }
    }

    /** The register update of Encode. */
    method Share(fl: int, fh: int, ft: int)
      requires ft > 0
      modifies `val, `rng
      ensures val == NarrowVal(old(val), old(rng), Sym(fl, fh, ft))
      ensures rng == NarrowRng(old(rng), Sym(fl, fh, ft))
    {
      var r := rng / ft;
      if fl > 0 {
        val := U32(val + U32(rng - U32(r * (ft - fl))));
        rng := U32(r * (fh - fl));
      } else {
        rng := U32(rng - U32(r * (ft - fh)));
      }
    }

    /** Encode the symbol with cumulative range [fl, fh) out of ft. */
    method Encode(fl: int, fh: int, ft: int)
      requires Valid() && (ft == 0 || ValidSym(Sym(fl, fh, ft)))
      modifies this, buf
      ensures Valid() && (err == 0 ==> old(err) == 0)
      ensures ft == 0 ==> err == -1 && written == old(written)
      ensures ft > 0 ==> written == old(written) + [Sym(fl, fh, ft)] && misused == old(misused)
    {
      if ft == 0 {
        err := -1;
        misused := true;
        return;
      }
      ghost var s := Sym(fl, fh, ft);
      NarrowRegisters(val, rng, s);
      if err == 0 {
        NarrowSound(Buffered(), val, rng, s);
      }
      ghost var d, iv := Buffered(), Steps(Whole, written);
      assert NarrowRng(rng, s) == Narrow(iv, s).rng;
      assert err == 0 ==> Meaning(d, NarrowVal(val, rng, s), NarrowRng(rng, s)) == Narrow(iv, s);
      Share(fl, fh, ft);
      assert Buffered() == d;
      assert err == 0 ==> Sound(d, val, rng);
      assert err == 0 ==> Meaning(d, val, rng) == Narrow(iv, s);
      Normalize(Narrow(iv, s));
      StepsPush(written, s);
      written := written + [s];
    }

    /** Encode symbol s against a cumulative table. */
    method EncodeCDF(s: int, cdf: seq<int>)
      requires Valid()
      requires |cdf| >= 2 && 0 <= s < |cdf| - 1 && cdf[0] < cdf[|cdf| - 1] ==> ValidSym(CdfSym(cdf, s))
      modifies this, buf
      ensures Valid() && (err == 0 ==> old(err) == 0)
      ensures |cdf| < 2 || s < 0 || s + 1 >= |cdf| || cdf[|cdf| - 1] <= cdf[0]
              ==> err == -1 && written == old(written)
      ensures |cdf| >= 2 && 0 <= s < |cdf| - 1 && cdf[0] < cdf[|cdf| - 1]
              ==> written == old(written) + [CdfSym(cdf, s)] && misused == old(misused)
    {
      var n := |cdf|;
      if n < 2 || s < 0 || s + 1 >= n {
        err := -1;
        misused := true;
        return;
      }
      var base := cdf[0];
      if cdf[n - 1] <= base {
        err := -1;
        misused := true;
        return;
      }
      Encode(cdf[s] - base, cdf[s + 1] - base, cdf[n - 1] - base);
    }

    /** Encode a uniform symbol of nbits bits. */
    method EncodeRawSymbol(sym: nat, nbits: nat)
      requires Valid() && nbits <= 23 && sym < Pow2(nbits)
      modifies this, buf
      ensures Valid() && (err == 0 ==> old(err) == 0)
      ensures written == old(written) + [Sym(sym, sym + 1, Pow2(nbits))] && misused == old(misused)
    {
      RawBound(nbits);
      Encode(sym, sym + 1, Pow2(nbits));
    }

    /** The first half of Done: shift out the leading bits of the chosen code point. */
    method ShiftOut(l0: nat, end0: nat) returns (ghost j: nat)
      requires Bounded() && l0 <= 9 && end0 < 0x1_0000_0000 && end0 % Pow2(31 - l0) == 0
      requires l0 == 0 ==> end0 == 0
      requires err == 0 ==> Sound(Buffered(), end0, 1)
      modifies `offs, `err, `ext, `rem, buf
      ensures Bounded() && (err == 0 ==> old(err) == 0)
      ensures j == (l0 + 7) / 8
      ensures err == 0 ==>
                && WellFormed(Buffered())
                && Count(Buffered()) == old(Count(Buffered())) + j
                && Number(Buffered()) * TOP == (old(Number(Buffered())) * TOP + end0) * Pow256(j)
      ensures err == -1 && old(err) == 0 ==> old(Count(Buffered())) + j > buf.Length
    {
      hide Number, Ceiling, Count, Digits.CarryOut, Pow2;
      var l: int := l0;
      var end: nat := end0;
      j := 0;
      ghost var e := Number(Buffered()) * TOP + end0;
      ghost var scaled := e * Pow256(0);
      while l > 0
        invariant Bounded() && end < 0x1_0000_0000 && j <= 2 && l == l0 - 8 * j
        invariant j > 0 ==> 8 * (j - 1) < l0
        invariant l > 0 ==> end % Pow2(31 - l) == 0
        invariant j > 0 && l <= 0 ==> end == 0
        invariant j == 0 ==> end == end0 && Buffered() == old(Buffered()) && err == old(err)
        invariant scaled == e * Pow256(j)
        invariant err == 0 ==>
                    && old(err) == 0
                    && Sound(Buffered(), end, 1)
                    && Number(Buffered()) * TOP + end == scaled
                    && Count(Buffered()) == old(Count(Buffered())) + j
        invariant err == -1 && old(err) == 0 ==> old(Count(Buffered())) + j > buf.Length
        decreases l
      {
        ghost var d := Buffered();
        ShiftAligned(end, l);
        if err == 0 {
          NormalizeRound(d, end, 1);
        }
        Shift256(e, Pow256(j));
        scaled := scaled * 256;
        CarryOut(end / BOT);
        end := U32(end * 256) % TOP;
        l := l - 8;
        j := j + 1;
      }
    }

    /**
     * Flush.  Whatever bytes follow the ones written, the result carries exactly the symbols
     * that were encoded.  It takes exactly the bytes they need, and fails for want of room only
     * if those do not fit.
     */
    method Done()
      requires Valid()
      modifies this, buf
      ensures written == old(written)
      ensures offs <= buf.Length && (err == 0 || err == -1) && (err == 0 ==> old(err) == 0)
      ensures err == 0 ==> forall suffix: seq<byte> :: Carries(Whole, written, buf[..offs] + suffix)
      ensures err == 0 ==> forall i :: offs <= i < buf.Length ==> buf[i] == 0
      ensures err == 0 ==> offs == BytesNeeded(written)
      ensures err == -1 ==> old(misused) || BytesNeeded(written) > buf.Length
    {
      hide Number, Ceiling, Finish, FlushBits;
      ghost var d0 := Buffered();
      FinishInside(val, rng);
      if err == 0 {
        FinishSound(d0, val, rng);
        FlushBitsOf(d0, val, rng);
      }
      var l, end := ChooseEnd();
      ghost var j := ShiftOut(l, end);
      FlushBuffer();
      if err == 0 {
        forall suffix: seq<byte> ensures Carries(Whole, written, buf[..offs] + suffix) {
          FlushedInside(d0, buf[..offs], j, val, rng, suffix);
        }
      }
    }

    /** The shortest code point whose every continuation stays inside the interval. */
    method ChooseEnd() returns (l: nat, end: nat)
      requires BOT < rng <= TOP && val + rng < 0x1_0000_0000
      ensures l == Finish(val, rng).l && end == Finish(val, rng).end
    {
      hide RoundUp, Ilog, Pow2;
      IlogRange(rng);
      l := 32 - Ilog(rng);
      var msk := (TOP - 1) / Pow2(l);
      end := RoundUp(val, msk);
      if end + msk >= U32(val + rng) {
        l := l + 1;
        msk := msk / 2;
        end := RoundUp(val, msk);
      }
    }

    /** Release the carry buffer and clear the rest of the output. */
    method FlushBuffer()
      requires Bounded() && (err == 0 ==> WellFormed(Buffered()))
      modifies `offs, `err, `ext, `rem, buf
      ensures Bounded() && (err == 0 ==> old(err) == 0)
      ensures err == 0 ==> Value(buf[..offs]) == old(Number(Buffered())) && offs == old(Count(Buffered()))
      ensures err == -1 && old(err) == 0 ==> old(Count(Buffered())) > buf.Length
      ensures err == 0 ==> forall i :: offs <= i < buf.Length ==> buf[i] == 0
    {
      hide Number, Digits.CarryOut;
      ghost var d := Buffered();
      if rem >= 0 || ext > 0 {
        CarryOut(0);
      }
      ghost var out := buf[..offs];
      if err == 0 {
        Flushed(d);
        for i := offs to buf.Length
          invariant Bounded() && err == 0 && buf[..offs] == out
          invariant forall k :: offs <= k < i ==> buf[k] == 0
        {
          buf[i] := 0;
        }
      }
    }
  }

  /** What the last carry-out of Done leaves in the buffer. */
  lemma Flushed(d: Carry)
    requires WellFormed(d)
    ensures var out := if d.rem >= 0 || d.ext > 0 then Digits.CarryOut(d, 0).out else d.out;
            Value(out) == Number(d) && |out| == Count(d)
  {
    Finalised(d, 0);
  }

  lemma FlushedInside(d: Carry, out: seq<byte>, j: nat, val: nat, rng: nat, suffix: seq<byte>)
    requires Sound(d, val, rng) && BOT < rng
    requires j <= 2 && 8 * j >= Finish(val, rng).l
    requires |out| == Count(d) + j
    requires Value(out) * TOP == (Number(d) * TOP + Finish(val, rng).end) * Pow256(j)
    ensures Contains(Meaning(d, val, rng), out + suffix)
  {
    var f := Finish(val, rng);
    FinishInside(val, rng);
    FlushedCode(out, Count(d), j, Number(d) * TOP + f.end, suffix);
    Pow2Monotone(31 - 8 * j, 31 - f.l);
  }

  lemma StepsPush(ss: seq<Sym>, s: Sym)
    requires ValidSyms(ss) && ValidSym(s)
    ensures ValidSyms(ss + [s]) && Steps(Whole, ss + [s]) == Step(Steps(Whole, ss), s)
  {
    StepsAppend(Whole, ss, [s]);
    assert [s][1..] == [];
    assert Steps(Steps(Whole, ss), [s]) == Steps(Step(Steps(Whole, ss), s), []);
  }

  lemma RawBound(nbits: nat)
    requires nbits <= 23
    ensures Pow2(nbits) <= BOT
  {
    Pow2Monotone(nbits, 23);
    Pow2Values();
  }
}
