/** Properties of the CDR encoding: it depends on the position only modulo 8, what was
    written is read back, and every strict prefix is rejected. */
module CdrProofs {
  import opened Common
  import opened Utf8
  import opened Cdr

  // ── Alignment phase ───────────────────────────────────────────────────

  lemma NumPhase(w: Width, bits: nat, p: nat, q: nat)
    requires p % 8 == q % 8
    ensures Num(w, bits, p) == Num(w, bits, q)
    ensures (p + |Num(w, bits, p)|) % 8 == (q + |Num(w, bits, q)|) % 8
  {
    hide Pad, Le;
    PadPhase(p, q, w);
    ShiftPhase(p, q, |Num(w, bits, p)|);
  }

  lemma PadPhase(p: nat, q: nat, w: Width)
    requires p % 8 == q % 8
    ensures Pad(p, w) == Pad(q, w)
  {
    WidthPhase(p, q, w.Size());
    if p % w.Size() != 0 {
      assert Pad(p, w) == seq(w.Size() - p % w.Size(), _ => 0) == Pad(q, w);
    }
  }

  lemma WidthPhase(p: nat, q: nat, n: nat)
    requires p % 8 == q % 8 && n in {1, 2, 4, 8}
    ensures p % n == q % n
  {
    Residues(p / 8, p % 8);
    Residues(q / 8, q % 8);
  }

  lemma Residues(a: nat, r: nat)
    ensures (8 * a + r) % 2 == r % 2 && (8 * a + r) % 4 == r % 4
  {
    assert 8 * a + r == 2 * (4 * a) + r && 8 * a + r == 4 * (2 * a) + r;
    Even(4 * a, r);
    Quad(2 * a, r);
  }

  lemma Even(k: nat, r: nat)
    ensures (2 * k + r) % 2 == r % 2
  {
  }

  lemma Quad(k: nat, r: nat)
    ensures (4 * k + r) % 4 == r % 4
  {
  }

  lemma ShiftPhase(p: nat, q: nat, n: nat)
    requires p % 8 == q % 8
    ensures (p + n) % 8 == (q + n) % 8
  {
  }

  /** The bytes of a value depend on its position only modulo 8. */
  lemma {:induction false} EncPhase(v: Val, t: Ty, p: nat, q: nat)
    requires HasType(v, t) && p % 8 == q % 8
    ensures Enc(v, t, p) == Enc(v, t, q)
    decreases v, 0
  {
    hide Num, InRange, ValidUtf8, Bits, EncAll, EncFields;
    match t
    case TBool =>
    case TNum(_, width) => NumPhase(width, Bits(width, v.n), p, q);
    case TChar =>
    case TStr => NumPhase(W4, |v.s| + 1, p, q);
    case TBytes => NumPhase(W4, |v.d|, p, q);
    case TUnit =>
    case TOption(e) =>
      if v.VSome? {
        ShiftPhase(p, q, 1);
        EncPhase(v.some, e, p + 1, q + 1);
      }
    case TSeq(e) => SeqPhase(v.elems, e, p, q);
    case TStruct(ts) => EncFieldsPhase(v.parts, ts, p, q);
    case TEnum(ts) => EnumPhase(v.payload, Variant(ts, v.index).value, v.index, p, q);
  }

  lemma {:induction false} SeqPhase(vs: Vals, e: Ty, p: nat, q: nat)
    requires AllHaveType(vs, e) && p % 8 == q % 8
    ensures Num(W4, Count(vs), p) + EncAll(vs, e, p + |Num(W4, Count(vs), p)|)
         == Num(W4, Count(vs), q) + EncAll(vs, e, q + |Num(W4, Count(vs), q)|)
    decreases vs, 1
  {
    hide Num, EncAll, AllHaveType;
    NumPhase(W4, Count(vs), p, q);
    var n := |Num(W4, Count(vs), p)|;
    EncAllPhase(vs, e, p + n, q + n);
  }

  lemma {:induction false} EnumPhase(v: Val, t: Ty, i: nat, p: nat, q: nat)
    requires HasType(v, t) && p % 8 == q % 8
    ensures Num(W4, i, p) + Enc(v, t, p + |Num(W4, i, p)|) == Num(W4, i, q) + Enc(v, t, q + |Num(W4, i, q)|)
    decreases v, 1
  {
    hide Num, Enc, HasType;
    NumPhase(W4, i, p, q);
    var n := |Num(W4, i, p)|;
    EncPhase(v, t, p + n, q + n);
  }

  lemma {:induction false} EncAllPhase(vs: Vals, e: Ty, p: nat, q: nat)
    requires AllHaveType(vs, e) && p % 8 == q % 8
    ensures EncAll(vs, e, p) == EncAll(vs, e, q)
    decreases vs, 0
  {
    hide Enc, HasType;
    if vs.VCons? {
      EncPhase(vs.head, e, p, q);
      var n := |Enc(vs.head, e, p)|;
      ShiftPhase(p, q, n);
      EncAllPhase(vs.tail, e, p + n, q + n);
    }
  }

  lemma {:induction false} EncFieldsPhase(vs: Vals, ts: Tys, p: nat, q: nat)
    requires HaveTypes(vs, ts) && p % 8 == q % 8
    ensures EncFields(vs, ts, p) == EncFields(vs, ts, q)
    decreases vs, 0
  {
    hide Enc, HasType;
    if vs.VCons? {
      EncPhase(vs.head, ts.head, p, q);
      var n := |Enc(vs.head, ts.head, p)|;
      ShiftPhase(p, q, n);
      EncFieldsPhase(vs.tail, ts.tail, p + n, q + n);
    }
  }

  // ── Round trip ────────────────────────────────────────────────────────

  /** What a value becomes on the wire: characters keep their low eight bits. */
  function Narrow(v: Val): Val {
    match v
    case VChar(c) => VChar(c % 256)
    case VSome(w) => VSome(Narrow(w))
    case VSeq(vs) => VSeq(NarrowAll(vs))
    case VStruct(vs) => VStruct(NarrowAll(vs))
    case VEnum(i, w) => VEnum(i, Narrow(w))
    case _ => v
  }

  function NarrowAll(vs: Vals): Vals {
    match vs
    case VNil => VNil
    case VCons(head, tail) => VCons(Narrow(head), NarrowAll(tail))
  }

  /** Every character is at most U+00FF. */
  predicate Latin(v: Val) {
    match v
    case VChar(c) => c < 256
    case VSome(w) => Latin(w)
    case VSeq(vs) => AllLatin(vs)
    case VStruct(vs) => AllLatin(vs)
    case VEnum(_, w) => Latin(w)
    case _ => true
  }

  predicate AllLatin(vs: Vals) {
    match vs
    case VNil => true
    case VCons(head, tail) => Latin(head) && AllLatin(tail)
  }

  lemma {:induction false} NarrowIsIdentity(v: Val)
    ensures Narrow(v) == v <==> Latin(v)
  {
    match v
    case VSome(w) => NarrowIsIdentity(w);
    case VSeq(vs) => NarrowAllIsIdentity(vs);
    case VStruct(vs) => NarrowAllIsIdentity(vs);
    case VEnum(_, w) => NarrowIsIdentity(w);
    case _ =>
  }

  lemma {:induction false} NarrowAllIsIdentity(vs: Vals)
    ensures NarrowAll(vs) == vs <==> AllLatin(vs)
  {
    if vs.VCons? {
      NarrowIsIdentity(vs.head);
      NarrowAllIsIdentity(vs.tail);
    }
  }

  lemma TakeAt(s: seq<byte>, p: nat, d: seq<byte>)
    requires At(s, p, d)
    ensures Take(s, p, |d|) == Ok((d, p + |d|))
  {
  }

  lemma NumRead(s: seq<byte>, p: nat, w: Width, bits: nat)
    requires bits < w.Range() && At(s, p, Num(w, bits, p))
    ensures NumAt(s, p, w) == Ok((bits, p + |Num(w, bits, p)|))
  {
    var pad, d := Pad(p, w), Le(w.Size(), bits);
    AtSplit(s, p, pad, d);
    TakeAt(s, p + |pad|, d);
    LeRoundTrip(w.Size(), bits);
  }

  lemma FromBitsOfBits(kind: Kind, w: Width, n: int)
    requires InRange(kind, w, n)
    ensures FromBits(kind, w, Bits(w, n)) == n
  {
    if n < 0 {
      assert (n + w.Range()) % w.Range() == n % w.Range();
    }
  }

  /** A string on the wire: its length with the terminator, its bytes, a zero. */
  lemma StrRead(s: seq<byte>, p: nat, d: seq<byte>)
    requires ValidUtf8(d) && |d| + 1 < U32 && At(s, p, Num(W4, |d| + 1, p) + (d + [0]))
    ensures Dec(TStr, s, p) == Ok((VStr(d), p + |Num(W4, |d| + 1, p) + (d + [0])|))
  {
    hide NumAt, Num, ValidUtf8, At;
    var head := Num(W4, |d| + 1, p);
    AtSplit(s, p, head, d + [0]);
    NumRead(s, p, W4, |d| + 1);
    TakeAt(s, p + |head|, d + [0]);
    assert (d + [0])[..|d|] == d;
  }

  lemma BytesRead(s: seq<byte>, p: nat, d: seq<byte>)
    requires |d| < U32 && At(s, p, Num(W4, |d|, p) + d)
    ensures Dec(TBytes, s, p) == Ok((VBytes(d), p + |Num(W4, |d|, p) + d|))
  {
    hide NumAt, Num, At;
    AtSplit(s, p, Num(W4, |d|, p), d);
    NumRead(s, p, W4, |d|);
    TakeAt(s, p + |Num(W4, |d|, p)|, d);
  }

  /** Decoding at the position where a value was encoded returns the value with its characters
      narrowed, and consumes exactly its bytes, whatever stands around them. */
  lemma {:induction false} DecOfEnc(v: Val, t: Ty, s: seq<byte>, p: nat)
    requires HasType(v, t) && At(s, p, Enc(v, t, p))
    ensures Dec(t, s, p) == Ok((Narrow(v), p + |Enc(v, t, p)|))
    decreases v, 0
  {
    hide NumAt, Num, ValidUtf8, At, Take, InRange, FromBits, Bits, EncAll, EncFields;
    match t
    case TBool => LeafRead(v, t, s, p);
    case TNum(kind, w) => LeafRead(v, t, s, p);
    case TChar => LeafRead(v, t, s, p);
    case TStr => StrRead(s, p, v.s);
    case TBytes => BytesRead(s, p, v.d);
    case TUnit => LeafRead(v, t, s, p);
    case TOption(e) =>
      if v.VSome? {
        OptionRead(v.some, e, s, p);
      } else {
        LeafRead(v, t, s, p);
      }
    case TSeq(e) => SeqRead(v.elems, e, s, p);
    case TStruct(ts) => DecFieldsOfEnc(v.parts, ts, s, p);
    case TEnum(ts) => EnumRead(v.payload, ts, v.index, s, p);
  }

  lemma LeafRead(v: Val, t: Ty, s: seq<byte>, p: nat)
    requires HasType(v, t) && At(s, p, Enc(v, t, p)) && (v.VBool? || v.VNum? || v.VChar? || v.VUnit? || v.VNone?)
    ensures Dec(t, s, p) == Ok((Narrow(v), p + |Enc(v, t, p)|))
  {
    hide NumAt, Num, ValidUtf8, At, Take, InRange, FromBits, Bits, EncAll, EncFields, AllHaveType, HaveTypes, DecFields;
    hide DecAll, DecVariant;
    if t.TNum? {
      NumRead(s, p, t.width, Bits(t.width, v.n));
      FromBitsOfBits(t.kind, t.width, v.n);
    } else {
      TakeAt(s, p, Enc(v, t, p));
    }
  }

  lemma {:induction false} OptionRead(v: Val, e: Ty, s: seq<byte>, p: nat)
    requires HasType(v, e) && At(s, p, [1] + Enc(v, e, p + 1))
    ensures Dec(TOption(e), s, p) == Ok((VSome(Narrow(v)), p + |[1] + Enc(v, e, p + 1)|))
    decreases v, 1
  {
    hide Enc, HasType, At, Narrow;
    AtSplit(s, p, [1], Enc(v, e, p + 1));
    TakeAt(s, p, [1]);
    DecOfEnc(v, e, s, p + 1);
  }

  lemma {:induction false} SeqRead(vs: Vals, e: Ty, s: seq<byte>, p: nat)
    requires Count(vs) < U32 && AllHaveType(vs, e)
    requires var head := Num(W4, Count(vs), p); At(s, p, head + EncAll(vs, e, p + |head|))
    ensures var head := Num(W4, Count(vs), p);
      Dec(TSeq(e), s, p) == Ok((VSeq(NarrowAll(vs)), p + |head + EncAll(vs, e, p + |head|)|))
    decreases vs, 1
  {
    hide NumAt, Num, At, EncAll, AllHaveType, NarrowAll, DecAll;
    var head := Num(W4, Count(vs), p);
    AtSplit(s, p, head, EncAll(vs, e, p + |head|));
    NumRead(s, p, W4, Count(vs));
    DecAllOfEnc(vs, e, s, p + |head|);
  }

  lemma {:induction false} EnumRead(v: Val, ts: Tys, i: nat, s: seq<byte>, p: nat)
    requires i < U32 && Variant(ts, i).Some? && HasType(v, Variant(ts, i).value)
    requires var head := Num(W4, i, p); At(s, p, head + Enc(v, Variant(ts, i).value, p + |head|))
    ensures var head := Num(W4, i, p);
      Dec(TEnum(ts), s, p) == Ok((VEnum(i, Narrow(v)), p + |head + Enc(v, Variant(ts, i).value, p + |head|)|))
    decreases v, 1
  {
    hide NumAt, Num, At, Enc, HasType, Variant, DecVariant, Narrow;
    var head := Num(W4, i, p);
    AtSplit(s, p, head, Enc(v, Variant(ts, i).value, p + |head|));
    NumRead(s, p, W4, i);
    DecVariantIs(ts, i, s, p + |head|);
    DecOfEnc(v, Variant(ts, i).value, s, p + |head|);
  }

  lemma {:induction false} DecAllOfEnc(vs: Vals, e: Ty, s: seq<byte>, p: nat)
    requires AllHaveType(vs, e) && At(s, p, EncAll(vs, e, p))
    ensures DecAll(e, Count(vs), s, p) == Ok((NarrowAll(vs), p + |EncAll(vs, e, p)|))
    decreases vs, 0
  {
    hide At, HasType, Dec, Narrow, Enc;
    if vs.VCons? {
      var d := Enc(vs.head, e, p);
      AtSplit(s, p, d, EncAll(vs.tail, e, p + |d|));
      DecOfEnc(vs.head, e, s, p);
      DecAllOfEnc(vs.tail, e, s, p + |d|);
    }
  }

  lemma {:induction false} DecFieldsOfEnc(vs: Vals, ts: Tys, s: seq<byte>, p: nat)
    requires HaveTypes(vs, ts) && At(s, p, EncFields(vs, ts, p))
    ensures DecFields(ts, s, p) == Ok((NarrowAll(vs), p + |EncFields(vs, ts, p)|))
    decreases vs, 0
  {
    hide At, HasType, Dec, Narrow, Enc;
    if vs.VCons? {
      var d := Enc(vs.head, ts.head, p);
      AtSplit(s, p, d, EncFields(vs.tail, ts.tail, p + |d|));
      DecOfEnc(vs.head, ts.head, s, p);
      DecFieldsOfEnc(vs.tail, ts.tail, s, p + |d|);
    }
  }

  lemma {:induction false} DecVariantIs(ts: Tys, i: nat, s: seq<byte>, p: nat)
    ensures DecVariant(ts, i, s, p)
         == if Variant(ts, i).Some? then Dec(Variant(ts, i).value, s, p) else Err(DeserializeError)
  {
    if ts.TCons? && i > 0 {
      DecVariantIs(ts.tail, i - 1, s, p);
    }
  }

  /** The round trip holds for exactly the values whose characters are all at most U+00FF. */
  lemma CdrRoundTrip(v: Val, t: Ty, before: seq<byte>, rest: seq<byte>)
    requires HasType(v, t)
    ensures var d := Enc(v, t, |before|);
      var r := Dec(t, before + d + rest, |before|);
      && r.Ok? && r.value.1 == |before| + |d|
      && (r.value.0 == v <==> Latin(v))
  {
    hide Dec, Enc, HasType;
    AtConcat(before, Enc(v, t, |before|), rest);
    DecOfEnc(v, t, before + Enc(v, t, |before|) + rest, |before|);
    NarrowIsIdentity(v);
  }

  // ── Truncated input ───────────────────────────────────────────────────

  lemma NumCut(s: seq<byte>, p: nat, w: Width, bits: nat)
    requires CutShort(s, p, Num(w, bits, p))
    ensures NumAt(s, p, w) == Err(BufferUnderflow)
  {
  }

  lemma StrCut(s: seq<byte>, p: nat, d: seq<byte>)
    requires |d| + 1 < U32 && CutShort(s, p, Num(W4, |d| + 1, p) + (d + [0]))
    ensures Dec(TStr, s, p) == Err(BufferUnderflow)
  {
    hide NumAt, Num, ValidUtf8, At;
    CutSplit(s, p, Num(W4, |d| + 1, p), d + [0]);
    if CutShort(s, p, Num(W4, |d| + 1, p)) {
      NumCut(s, p, W4, |d| + 1);
    } else {
      NumRead(s, p, W4, |d| + 1);
    }
  }

  lemma BytesCut(s: seq<byte>, p: nat, d: seq<byte>)
    requires |d| < U32 && CutShort(s, p, Num(W4, |d|, p) + d)
    ensures Dec(TBytes, s, p) == Err(BufferUnderflow)
  {
    hide NumAt, Num, At;
    CutSplit(s, p, Num(W4, |d|, p), d);
    if CutShort(s, p, Num(W4, |d|, p)) {
      NumCut(s, p, W4, |d|);
    } else {
      NumRead(s, p, W4, |d|);
    }
  }

  /** Every strict prefix of an encoding is rejected as an underflow. */
  lemma {:induction false} DecOfCut(v: Val, t: Ty, s: seq<byte>, p: nat)
    requires HasType(v, t) && CutShort(s, p, Enc(v, t, p))
    ensures Dec(t, s, p) == Err(BufferUnderflow)
    decreases v, 0
  {
    hide NumAt, Num, ValidUtf8, At, InRange, FromBits, Bits;
    match t
    case TBool =>
    case TNum(kind, w) => NumCut(s, p, w, Bits(w, v.n));
    case TChar =>
    case TStr => StrCut(s, p, v.s);
    case TBytes => BytesCut(s, p, v.d);
    case TUnit =>
    case TOption(e) =>
      if v.VSome? {
        OptionCut(v.some, e, s, p);
      }
    case TSeq(e) => SeqCut(v.elems, e, s, p);
    case TStruct(ts) => DecFieldsOfCut(v.parts, ts, s, p);
    case TEnum(ts) => EnumCut(v.payload, ts, v.index, s, p);
  }

  lemma {:induction false} OptionCut(v: Val, e: Ty, s: seq<byte>, p: nat)
    requires HasType(v, e) && CutShort(s, p, [1] + Enc(v, e, p + 1))
    ensures Dec(TOption(e), s, p) == Err(BufferUnderflow)
    decreases v, 1
  {
    hide Enc, HasType;
    CutSplit(s, p, [1], Enc(v, e, p + 1));
    if At(s, p, [1]) && CutShort(s, p + 1, Enc(v, e, p + 1)) {
      TakeAt(s, p, [1]);
      DecOfCut(v, e, s, p + 1);
    }
  }

  lemma {:induction false} SeqCut(vs: Vals, e: Ty, s: seq<byte>, p: nat)
    requires Count(vs) < U32 && AllHaveType(vs, e)
    requires var head := Num(W4, Count(vs), p); CutShort(s, p, head + EncAll(vs, e, p + |head|))
    ensures Dec(TSeq(e), s, p) == Err(BufferUnderflow)
    decreases vs, 1
  {
    hide NumAt, Num, At, CutShort, EncAll, AllHaveType;
    var head := Num(W4, Count(vs), p);
    CutSplit(s, p, head, EncAll(vs, e, p + |head|));
    if CutShort(s, p, head) {
      NumCut(s, p, W4, Count(vs));
    } else {
      NumRead(s, p, W4, Count(vs));
      DecAllOfCut(vs, e, s, p + |head|);
    }
  }

  lemma {:induction false} EnumCut(v: Val, ts: Tys, i: nat, s: seq<byte>, p: nat)
    requires i < U32 && Variant(ts, i).Some? && HasType(v, Variant(ts, i).value)
    requires var head := Num(W4, i, p); CutShort(s, p, head + Enc(v, Variant(ts, i).value, p + |head|))
    ensures Dec(TEnum(ts), s, p) == Err(BufferUnderflow)
    decreases v, 1
  {
    hide NumAt, Num, At, CutShort, Enc, HasType, Variant, DecVariant;
    var head := Num(W4, i, p);
    CutSplit(s, p, head, Enc(v, Variant(ts, i).value, p + |head|));
    if CutShort(s, p, head) {
      NumCut(s, p, W4, i);
    } else {
      NumRead(s, p, W4, i);
      DecVariantIs(ts, i, s, p + |head|);
      DecOfCut(v, Variant(ts, i).value, s, p + |head|);
    }
  }

  lemma {:induction false} DecAllOfCut(vs: Vals, e: Ty, s: seq<byte>, p: nat)
    requires AllHaveType(vs, e) && CutShort(s, p, EncAll(vs, e, p))
    ensures DecAll(e, Count(vs), s, p) == Err(BufferUnderflow)
    decreases vs, 0
  {
    hide At, HasType, Dec, Enc;
    if vs.VCons? {
      var d := Enc(vs.head, e, p);
      CutSplit(s, p, d, EncAll(vs.tail, e, p + |d|));
      if CutShort(s, p, d) {
        DecOfCut(vs.head, e, s, p);
      } else {
        DecOfEnc(vs.head, e, s, p);
        DecAllOfCut(vs.tail, e, s, p + |d|);
      }
    }
  }

  lemma {:induction false} DecFieldsOfCut(vs: Vals, ts: Tys, s: seq<byte>, p: nat)
    requires HaveTypes(vs, ts) && CutShort(s, p, EncFields(vs, ts, p))
    ensures DecFields(ts, s, p) == Err(BufferUnderflow)
    decreases vs, 0
  {
    hide At, HasType, Dec, Enc;
    if vs.VCons? {
      var d := Enc(vs.head, ts.head, p);
      CutSplit(s, p, d, EncFields(vs.tail, ts.tail, p + |d|));
      if CutShort(s, p, d) {
        DecOfCut(vs.head, ts.head, s, p);
      } else {
        DecOfEnc(vs.head, ts.head, s, p);
        DecFieldsOfCut(vs.tail, ts.tail, s, p + |d|);
      }
    }
  }

  // ── What the decoder accepts ──────────────────────────────────────────

  lemma NumBound(s: seq<byte>, p: nat, w: Width)
    ensures NumAt(s, p, w).Ok? ==> NumAt(s, p, w).value.0 < w.Range()
  {
    var r := Take(s, p + |Pad(p, w)|, w.Size());
    if r.Ok? {
      LeValueBound(r.value.0);
    }
  }

  lemma EmptyIsUtf8()
    ensures ValidUtf8([])
  {
  }

  /** Whatever the bytes, a decoded value has the requested type and only narrow characters. */
  lemma {:induction false} DecSound(t: Ty, s: seq<byte>, p: nat)
    ensures Dec(t, s, p).Ok? ==> HasType(Dec(t, s, p).value.0, t) && Latin(Dec(t, s, p).value.0)
    decreases t, 0, 0
  {
    hide NumAt, ValidUtf8, Take;
    if Dec(t, s, p).Ok? {
      match t
      case TBool =>
      case TNum(kind, w) => NumBound(s, p, w);
      case TChar =>
      case TStr =>
        NumBound(s, p, W4);
        EmptyIsUtf8();
      case TBytes => NumBound(s, p, W4);
      case TUnit =>
      case TOption(e) => DecSound(e, s, Take(s, p, 1).value.1);
      case TSeq(e) =>
        NumBound(s, p, W4);
        var (len, q) := NumAt(s, p, W4).value;
        DecAllSound(e, len, s, q);
      case TStruct(ts) => DecFieldsSound(ts, s, p);
      case TEnum(ts) =>
        NumBound(s, p, W4);
        var (i, q) := NumAt(s, p, W4).value;
        DecVariantSound(ts, i, s, q);
    }
  }

  lemma {:induction false} DecAllSound(e: Ty, n: nat, s: seq<byte>, p: nat)
    ensures var r := DecAll(e, n, s, p);
      r.Ok? ==> Count(r.value.0) == n && AllHaveType(r.value.0, e) && AllLatin(r.value.0)
    decreases e, 1, n
  {
    hide HasType, Dec, Latin;
    if n > 0 {
      DecSound(e, s, p);
      if Dec(e, s, p).Ok? {
        DecAllSound(e, n - 1, s, Dec(e, s, p).value.1);
      }
    }
  }

  lemma {:induction false} DecFieldsSound(ts: Tys, s: seq<byte>, p: nat)
    ensures var r := DecFields(ts, s, p); r.Ok? ==> HaveTypes(r.value.0, ts) && AllLatin(r.value.0)
    decreases ts, 0, 0
  {
    hide HasType, Dec, Latin;
    if ts.TCons? {
      DecSound(ts.head, s, p);
      if Dec(ts.head, s, p).Ok? {
        DecFieldsSound(ts.tail, s, Dec(ts.head, s, p).value.1);
      }
    }
  }

  lemma {:induction false} DecVariantSound(ts: Tys, i: nat, s: seq<byte>, p: nat)
    ensures var r := DecVariant(ts, i, s, p);
      r.Ok? ==> Variant(ts, i).Some? && HasType(r.value.0, Variant(ts, i).value) && Latin(r.value.0)
    decreases ts, 0, 0
  {
    hide HasType, Dec, Latin;
    if ts.TCons? {
      if i == 0 {
        DecSound(ts.head, s, p);
      } else {
        DecVariantSound(ts.tail, i - 1, s, p);
      }
    }
  }

  /** A value survives decoding and encoding again: whatever bytes it was read from, what it is
      written as, at any position, is read as the same value. */
  lemma DecodedIsStable(t: Ty, s: seq<byte>, p: nat, before: seq<byte>, rest: seq<byte>)
    requires Dec(t, s, p).Ok?
    ensures var v := Dec(t, s, p).value.0;
      && HasType(v, t)
      && Dec(t, before + Enc(v, t, |before|) + rest, |before|) == Ok((v, |before| + |Enc(v, t, |before|)|))
  {
    hide Dec, Enc, HasType, Latin;
    DecSound(t, s, p);
    CdrRoundTrip(Dec(t, s, p).value.0, t, before, rest);
  }
}
