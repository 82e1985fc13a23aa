/** The law of the range coder on its own, for any symbols a caller may choose. */
module RangeRoundTrip {
  import opened Bytes
  import opened Intervals
  import opened EncoderMath
  import opened RangeEncoding
  import opened RangeDecoding

  /** The widths the coder passes through. */
  predicate Widths(ss: seq<Sym>, rngs: seq<int>)
    requires ValidSyms(ss)
  {
    |rngs| == |ss| && forall i :: 0 <= i < |ss| ==> rngs[i] == Steps(Whole, ss[..i + 1]).rng
  }

  /** Encode every symbol and flush. */
  method EncodeAll(ss: seq<Sym>, size: nat) returns (ok: bool, bytes: seq<byte>, rngs: seq<int>)
    requires ValidSyms(ss)
    ensures Widths(ss, rngs)
    ensures ok ==> forall suffix: seq<byte> :: Carries(Whole, ss, bytes + suffix)
    ensures ok <==> BytesNeeded(ss) <= size
    ensures ok ==> |bytes| == BytesNeeded(ss)
  {
    hide Steps, Carries;
    var enc := new RangeEncoder(size);
    rngs := [];
    for i := 0 to |ss|
      invariant enc.Valid() && fresh(enc) && fresh(enc.buf) && !enc.misused && enc.buf.Length == size
      invariant enc.written == ss[..i] && Widths(ss[..i], rngs)
    {
      enc.Encode(ss[i].fl, ss[i].fh, ss[i].ft);
      assert ss[..i] + [ss[i]] == ss[..i + 1];
      WidthsPush(ss, i, rngs, enc.rng);
      rngs := rngs + [enc.rng];
    }
    assert ss[..|ss|] == ss;
    enc.Done();
    ok, bytes := enc.err == 0, enc.buf[..enc.offs];
  }

  lemma WidthsPush(ss: seq<Sym>, i: nat, rngs: seq<int>, rng: int)
    requires i < |ss| && ValidSyms(ss) && Widths(ss[..i], rngs) && rng == Steps(Whole, ss[..i + 1]).rng
    ensures Widths(ss[..i + 1], rngs + [rng])
  {
    hide Steps, ValidSym;
    forall j | 0 <= j < i + 1 ensures (rngs + [rng])[j] == Steps(Whole, ss[..i + 1][..j + 1]).rng {
      assert ss[..i + 1][..j + 1] == ss[..j + 1];
      assert j < i ==> ss[..i][..j + 1] == ss[..j + 1];
    }
  }

  /** Decode against the totals of ss, locating each value in the share it was encoded as. */
  method DecodeAll(ss: seq<Sym>, bytes: seq<byte>) returns (values: seq<int>, rngs: seq<int>)
    requires Carries(Whole, ss, bytes)
    ensures |values| == |ss| && forall i :: 0 <= i < |ss| ==> ss[i].fl <= values[i] < ss[i].fh
    ensures Widths(ss, rngs)
  {
    hide Steps, Carries, Step, Quantise;
    var dec := new RangeDecoder(bytes);
    values, rngs := [], [];
    StepsNone();
    assert ss[0..] == ss && ss[..0] == [];
    CarriesSyms(ss, bytes);
    for i := 0 to |ss|
      invariant dec.Valid() && fresh(dec) && dec.buf == bytes && dec.Holds(ss[i..])
      invariant |values| == i && forall j :: 0 <= j < i ==> ss[j].fl <= values[j] < ss[j].fh
      invariant dec.Here() == Steps(Whole, ss[..i]) && Widths(ss[..i], rngs)
    {
      var s := ss[i];
      assert ss[i..] == [s] + ss[i + 1..] && ss[..i] + [s] == ss[..i + 1];
      HoldsHead(dec.Here(), s, ss[i + 1..], dec.buf);
      var v := dec.Decode(s.ft);
      StepsPush(ss[..i], s);
      dec.Update(s.fl, s.fh, s.ft);
      WidthsPush(ss, i, rngs, dec.rng);
      values, rngs := values + [v], rngs + [dec.rng];
    }
    assert ss[..|ss|] == ss;
  }

  lemma StepsNone()
    ensures Steps(Whole, []) == Whole
  {
  }

  lemma CarriesSyms(ss: seq<Sym>, bytes: seq<byte>)
    requires Carries(Whole, ss, bytes)
    ensures ValidSyms(ss)
  {
  }

  /**
   * Sections 4.1 and 5.1 of RFC 6716: what was encoded is found again, over the flushed bytes
   * followed by anything, with encoder and decoder equally wide after every symbol.
   */
  method RoundTrip(ss: seq<Sym>, size: nat, suffix: seq<byte>)
    returns (ok: bool, values: seq<int>, encRngs: seq<int>, decRngs: seq<int>)
    requires ValidSyms(ss)
    ensures ok <==> BytesNeeded(ss) <= size
    ensures ok ==>
              && |values| == |ss| && (forall i :: 0 <= i < |ss| ==> ss[i].fl <= values[i] < ss[i].fh)
              && encRngs == decRngs
  {
    hide Steps, Carries, BytesNeeded;
    var bytes;
    ok, bytes, encRngs := EncodeAll(ss, size);
    values, decRngs := [], [];
    if ok {
      values, decRngs := DecodeAll(ss, bytes + suffix);
    }
  }
}
