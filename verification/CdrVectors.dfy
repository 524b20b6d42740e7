/** The bytes of CDR in literals. */
module CdrVectors {
  import opened Common
  import opened Utf8
  import opened Cdr
  import opened CdrProofs
  import opened CdrCodec

  /** Every message begins with the encapsulation header of little-endian CDR. */
  lemma CdrHeader(v: Val, t: Ty)
    requires HasType(v, t)
    ensures EncWithHeader(v, t)[..4] == [0, 1, 0, 0] && EncWithHeader(v, t)[4..] == Enc(v, t, 0)
  {
    hide Enc, HasType;
  }

  lemma LittleEndian()
    ensures Le(4, 0x1234_5678) == [0x78, 0x56, 0x34, 0x12] && Le(2, 0xFFFE) == [0xFE, 0xFF]
    ensures Le(4, 3) == [3, 0, 0, 0] && Le(4, 2) == [2, 0, 0, 0] && Le(4, 1) == [1, 0, 0, 0]
  {
    assert Le(1, 0x12) == [0x12];
    assert Le(2, 0x1234) == [0x34, 0x12];
    assert Le(3, 0x12_3456) == [0x56, 0x34, 0x12];
    assert Le(1, 0xFF) == [0xFF];
    assert Le(1, 0) == [0] && Le(2, 0) == [0, 0] && Le(3, 0) == [0, 0, 0];
  }

  /** One value of each type, at a position that needs padding where the type has any. */
  lemma CdrNumbers()
    ensures Enc(VNum(0x1234_5678), TNum(Unsigned, W4), 5) == [0, 0, 0, 0x78, 0x56, 0x34, 0x12]
    ensures Enc(VNum(-2), TNum(Signed, W2), 5) == [0, 0xFE, 0xFF]
    ensures Enc(VBool(true), TBool, 5) == [1] && Enc(VBool(false), TBool, 5) == [0]
    ensures Enc(VChar(65), TChar, 5) == [65] && Enc(VUnit, TUnit, 3) == []
  {
    hide Le;
    LittleEndian();
    assert (-2) % 0x1_0000 == 0xFFFE;
    assert Pad(5, W4) == [0, 0, 0] && Pad(5, W2) == [0];
  }

  lemma CdrBytes()
    ensures HasType(VStr([104, 105]), TStr) && Enc(VStr([104, 105]), TStr, 0) == [3, 0, 0, 0, 104, 105, 0]
    ensures Enc(VBytes([7, 8]), TBytes, 0) == [2, 0, 0, 0, 7, 8]
    ensures Enc(VNone, TOption(TBool), 0) == [0] && Enc(VSome(VBool(true)), TOption(TBool), 0) == [1, 1]
  {
    hide Le, ValidUtf8;
    LittleEndian();
    AsciiIsUtf8([104, 105]);
    assert Pad(0, W4) == [];
  }

  /** A sequence begins with its length, a variant with its index, a struct with nothing. */
  lemma CdrSeq()
    ensures Enc(VSeq(VCons(VBool(true), VCons(VBool(false), VNil))), TSeq(TBool), 0) == [2, 0, 0, 0, 1, 0]
  {
    hide Le;
    LittleEndian();
    var one := VCons(VBool(false), VNil);
    var two := VCons(VBool(true), one);
    assert Num(W4, 2, 0) == [2, 0, 0, 0];
    assert Enc(VBool(false), TBool, 5) == [0] && Enc(VBool(true), TBool, 4) == [1];
    assert EncAll(one, TBool, 5) == [0] + EncAll(VNil, TBool, 6);
    assert EncAll(two, TBool, 4) == [1] + EncAll(one, TBool, 5);
    assert Count(two) == 2;
  }

  lemma CdrEnum()
    ensures Enc(VEnum(1, VBool(true)), TEnum(TCons(TUnit, TCons(TBool, TNil))), 0) == [1, 0, 0, 0, 1]
  {
    hide Le;
    LittleEndian();
    var ts := TCons(TUnit, TCons(TBool, TNil));
    assert Variant(ts, 1) == Variant(TCons(TBool, TNil), 0) == Some(TBool);
    assert Num(W4, 1, 0) == [1, 0, 0, 0];
  }

  lemma CdrStruct()
    ensures Enc(VStruct(VCons(VBool(true), VCons(VChar(65), VNil))), TStruct(TCons(TBool, TCons(TChar, TNil))), 0)
         == [1, 65]
  {
    var fields, ts := VCons(VChar(65), VNil), TCons(TChar, TNil);
    assert EncFields(fields, ts, 1) == [65] + EncFields(VNil, TNil, 2);
  }

  // ── What is refused ───────────────────────────────────────────────────

  /** A boolean or an option that begins with neither 0 nor 1. */
  lemma BadTag(b: byte, rest: seq<byte>, e: Ty)
    requires b > 1
    ensures Dec(TBool, [b] + rest, 0) == Err(InvalidBool) && Dec(TOption(e), [b] + rest, 0) == Err(InvalidBool)
  {
    assert Take([b] + rest, 0, 1) == Ok(([b], 1));
  }

  /** A string that is not UTF-8, and a string of length 0, which is empty. */
  lemma BadString(d: seq<byte>, end: byte, rest: seq<byte>)
    requires |d| + 1 < 0x1_0000_0000
    ensures var s := Le(4, |d| + 1) + d + [end] + rest;
      Dec(TStr, s, 0) == if ValidUtf8(d) then Ok((VStr(d), 4 + |d| + 1)) else Err(InvalidUtf8)
    ensures Dec(TStr, Le(4, 0) + rest, 0) == Ok((VStr([]), 4))
  {
    hide ValidUtf8, Le, LeValue;
    Pow256Values();
    LeRoundTrip(4, |d| + 1);
    LeRoundTrip(4, 0);
    var s := Le(4, |d| + 1) + d + [end] + rest;
    assert s[0..4] == Le(4, |d| + 1) && s[4..4 + |d| + 1] == d + [end];
    assert (d + [end])[..|d|] == d;
    assert (Le(4, 0) + rest)[0..4] == Le(4, 0);
  }

  /** A variant that the type does not have. */
  lemma BadVariant(ts: Tys, i: nat, rest: seq<byte>)
    requires i < 0x1_0000_0000 && Variant(ts, i) == None
    ensures Dec(TEnum(ts), Le(4, i) + rest, 0) == Err(DeserializeError)
  {
    hide Le, LeValue, DecVariant;
    Pow256Values();
    LeRoundTrip(4, i);
    assert (Le(4, i) + rest)[0..4] == Le(4, i);
    DecVariantIs(ts, i, Le(4, i) + rest, 4);
  }

  /** A message without the header of little-endian CDR; the third and fourth bytes are not looked at. */
  lemma BadHeader(buf: seq<byte>, t: Ty)
    ensures |buf| < 4 ==> DecWithHeader(t, buf) == Err(BufferUnderflow)
    ensures |buf| >= 4 && (buf[0] != 0 || buf[1] != 1) ==> DecWithHeader(t, buf) == Err(UnsupportedEncapsulation)
  {
    hide Dec;
    if |buf| >= 4 {
      assert buf[..2][0] == buf[0] && buf[..2][1] == buf[1];
    }
  }
}
