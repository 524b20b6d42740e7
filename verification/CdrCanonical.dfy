/** When encoding a decoded value gives back the bytes it was read from. The decoder does not look at padding
    and terminators, and it reads a length of 0 as an empty string; the encoder writes all of these in one way only. */
module CdrCanonical {
  import opened Common
  import opened Utf8
  import opened Cdr
  import opened CdrProofs

  /** The padding in front of a number is zero. */
  predicate ZeroPad(s: seq<byte>, p: nat, w: Width)
    requires NumAt(s, p, w).Ok?
  {
    forall i | p <= i < p + |Pad(p, w)| :: s[i] == 0
  }

  /** The bytes that make up the value at `p` have zero padding, zero terminators, and no length of 0 for a string. */
  predicate Canonical(t: Ty, s: seq<byte>, p: nat)
    requires Dec(t, s, p).Ok?
    decreases t, 0, 0
  {
    match t
    case TNum(_, w) => ZeroPad(s, p, w)
    case TStr =>
      var (len, q) := NumAt(s, p, W4).value;
      ZeroPad(s, p, W4) && len > 0 && s[q + len - 1] == 0
    case TBytes => ZeroPad(s, p, W4)
    case TOption(e) => s[p] == 1 ==> Canonical(e, s, p + 1)
    case TSeq(e) => ZeroPad(s, p, W4) && AllCanonical(e, NumAt(s, p, W4).value.0, s, NumAt(s, p, W4).value.1)
    case TStruct(ts) => FieldsCanonical(ts, s, p)
    case TEnum(ts) => ZeroPad(s, p, W4) && VariantCanonical(ts, NumAt(s, p, W4).value.0, s, NumAt(s, p, W4).value.1)
    case _ => true
  }

  predicate AllCanonical(e: Ty, n: nat, s: seq<byte>, p: nat)
    requires DecAll(e, n, s, p).Ok?
    decreases e, 1, n
  {
    n > 0 ==> Canonical(e, s, p) && AllCanonical(e, n - 1, s, Dec(e, s, p).value.1)
  }

  predicate FieldsCanonical(ts: Tys, s: seq<byte>, p: nat)
    requires DecFields(ts, s, p).Ok?
    decreases ts, 0, 0
  {
    ts.TCons? ==> Canonical(ts.head, s, p) && FieldsCanonical(ts.tail, s, Dec(ts.head, s, p).value.1)
  }

  predicate VariantCanonical(ts: Tys, i: nat, s: seq<byte>, p: nat)
    requires DecVariant(ts, i, s, p).Ok?
    decreases ts, 0, 0
  {
    ts.TCons? && if i == 0 then Canonical(ts.head, s, p) else VariantCanonical(ts.tail, i - 1, s, p)
  }

  // ── Numbers ───────────────────────────────────────────────────────────

  lemma {:induction false} LeOfValue(s: seq<byte>)
    ensures Le(|s|, LeValue(s)) == s
  {
    if s != [] {
      LeOfValue(s[1..]);
      assert LeValue(s) / 256 == LeValue(s[1..]) && LeValue(s) % 256 == s[0];
    }
  }

  lemma NumCanonical(s: seq<byte>, p: nat, w: Width)
    requires NumAt(s, p, w).Ok?
    ensures var (u, q) := NumAt(s, p, w).value;
      u < w.Range() && q == p + |Num(w, u, p)| && (At(s, p, Num(w, u, p)) <==> ZeroPad(s, p, w))
  {
    NumBound(s, p, w);
    var (u, q) := NumAt(s, p, w).value;
    var pad := Pad(p, w);
    var d := s[p + |pad|..p + |pad| + w.Size()];
    LeOfValue(d);
    AtSplit(s, p, pad, Le(w.Size(), u));
    assert At(s, p + |pad|, d);
  }

  lemma BitsOfFromBits(kind: Kind, w: Width, u: nat)
    requires u < w.Range()
    ensures Bits(w, FromBits(kind, w, u)) == u
  {
    if kind == Signed && 2 * u >= w.Range() {
      assert (u - w.Range()) % w.Range() == u;
    }
  }

  // ── Values ────────────────────────────────────────────────────────────

  /** The bytes of a decoded value stand where it was read from if and only if those bytes are canonical. */
  lemma {:induction false} CanonicalExactly(t: Ty, s: seq<byte>, p: nat)
    requires Dec(t, s, p).Ok? && p <= |s|
    ensures var v := Dec(t, s, p).value.0; HasType(v, t) && (At(s, p, Enc(v, t, p)) <==> Canonical(t, s, p))
    decreases t, 0, 0
  {
    hide NumAt, Num, ValidUtf8, At, ZeroPad, InRange, Bits, FromBits;
    DecSound(t, s, p);
    var v := Dec(t, s, p).value.0;
    match t
    case TBool => LeafCanonical(t, s, p);
    case TNum(kind, w) =>
      NumCanonical(s, p, w);
      BitsOfFromBits(kind, w, NumAt(s, p, w).value.0);
    case TChar => LeafCanonical(t, s, p);
    case TStr => StrCanonical(s, p);
    case TBytes => BytesCanonical(s, p);
    case TUnit => LeafCanonical(t, s, p);
    case TOption(e) => OptionCanonical(e, s, p);
    case TSeq(e) => SeqCanonical(e, s, p);
    case TStruct(ts) => FieldsExactly(ts, s, p);
    case TEnum(ts) => EnumCanonical(ts, s, p);
  }

  lemma LeafCanonical(t: Ty, s: seq<byte>, p: nat)
    requires Dec(t, s, p).Ok? && p <= |s| && (t.TBool? || t.TChar? || t.TUnit?)
    ensures var v := Dec(t, s, p).value.0; HasType(v, t) && At(s, p, Enc(v, t, p)) && Canonical(t, s, p)
  {
    DecSound(t, s, p);
  }

  lemma StrCanonical(s: seq<byte>, p: nat)
    requires Dec(TStr, s, p).Ok? && p <= |s|
    ensures var v := Dec(TStr, s, p).value.0; HasType(v, TStr) && (At(s, p, Enc(v, TStr, p)) <==> Canonical(TStr, s, p))
  {
    hide NumAt, Num, ValidUtf8, ZeroPad;
    DecSound(TStr, s, p);
    var v := Dec(TStr, s, p).value.0;
    var (len, q) := NumAt(s, p, W4).value;
    NumCanonical(s, p, W4);
    AtSplit(s, p, Num(W4, |v.s| + 1, p), v.s + [0]);
    AtSplit(s, q, v.s, [0]);
    if len == 0 && At(s, p, Num(W4, 1, p)) {
      NumRead(s, p, W4, 1);
    }
  }

  lemma BytesCanonical(s: seq<byte>, p: nat)
    requires Dec(TBytes, s, p).Ok? && p <= |s|
    ensures var v := Dec(TBytes, s, p).value.0;
      HasType(v, TBytes) && (At(s, p, Enc(v, TBytes, p)) <==> Canonical(TBytes, s, p))
  {
    hide NumAt, Num, ZeroPad;
    DecSound(TBytes, s, p);
    var v := Dec(TBytes, s, p).value.0;
    NumCanonical(s, p, W4);
    AtSplit(s, p, Num(W4, |v.d|, p), v.d);
  }

  lemma {:induction false} OptionCanonical(e: Ty, s: seq<byte>, p: nat)
    requires Dec(TOption(e), s, p).Ok? && p <= |s|
    ensures var v := Dec(TOption(e), s, p).value.0;
      HasType(v, TOption(e)) && (At(s, p, Enc(v, TOption(e), p)) <==> Canonical(TOption(e), s, p))
    decreases e, 2, 0
  {
    hide Num, NumAt;
    if s[p] == 1 {
      CanonicalExactly(e, s, p + 1);
      AtSplit(s, p, [1], Enc(Dec(e, s, p + 1).value.0, e, p + 1));
    }
  }

  lemma {:induction false} SeqCanonical(e: Ty, s: seq<byte>, p: nat)
    requires Dec(TSeq(e), s, p).Ok? && p <= |s|
    ensures var v := Dec(TSeq(e), s, p).value.0;
      HasType(v, TSeq(e)) && (At(s, p, Enc(v, TSeq(e), p)) <==> Canonical(TSeq(e), s, p))
    decreases e, 2, 0
  {
    hide Num, NumAt, At, ZeroPad, DecAll, AllCanonical, EncAll, AllHaveType;
    var (n, q) := NumAt(s, p, W4).value;
    NumCanonical(s, p, W4);
    AllExactly(e, n, s, q);
    var vs := DecAll(e, n, s, q).value.0;
    AtSplit(s, p, Num(W4, n, p), EncAll(vs, e, q));
  }

  lemma {:induction false} EnumCanonical(ts: Tys, s: seq<byte>, p: nat)
    requires Dec(TEnum(ts), s, p).Ok? && p <= |s|
    ensures var v := Dec(TEnum(ts), s, p).value.0;
      HasType(v, TEnum(ts)) && (At(s, p, Enc(v, TEnum(ts), p)) <==> Canonical(TEnum(ts), s, p))
    decreases ts, 1, 0
  {
    hide Num, NumAt, At, ZeroPad, DecVariant, VariantCanonical;
    var (i, q) := NumAt(s, p, W4).value;
    NumCanonical(s, p, W4);
    VariantExactly(ts, i, s, q);
    var v := DecVariant(ts, i, s, q).value.0;
    AtSplit(s, p, Num(W4, i, p), Enc(v, Variant(ts, i).value, q));
  }

  lemma {:induction false} AllExactly(e: Ty, n: nat, s: seq<byte>, p: nat)
    requires DecAll(e, n, s, p).Ok? && p <= |s|
    ensures var vs := DecAll(e, n, s, p).value.0;
      Count(vs) == n && AllHaveType(vs, e) && (At(s, p, EncAll(vs, e, p)) <==> AllCanonical(e, n, s, p))
    decreases e, 1, n
  {
    hide Enc, Dec, HasType, Canonical;
    DecAllSound(e, n, s, p);
    if n > 0 {
      var (v, q) := Dec(e, s, p).value;
      CanonicalExactly(e, s, p);
      AllExactly(e, n - 1, s, q);
      var d, vs := Enc(v, e, p), DecAll(e, n - 1, s, q).value.0;
      AtSplit(s, p, d, EncAll(vs, e, p + |d|));
      if At(s, p, d) {
        Consumed(e, s, p);
      }
    }
  }

  lemma {:induction false} FieldsExactly(ts: Tys, s: seq<byte>, p: nat)
    requires DecFields(ts, s, p).Ok? && p <= |s|
    ensures var vs := DecFields(ts, s, p).value.0;
      HaveTypes(vs, ts) && (At(s, p, EncFields(vs, ts, p)) <==> FieldsCanonical(ts, s, p))
    decreases ts, 0, 0
  {
    hide Enc, Dec, HasType, Canonical;
    DecFieldsSound(ts, s, p);
    if ts.TCons? {
      var (v, q) := Dec(ts.head, s, p).value;
      CanonicalExactly(ts.head, s, p);
      FieldsExactly(ts.tail, s, q);
      var d, vs := Enc(v, ts.head, p), DecFields(ts.tail, s, q).value.0;
      AtSplit(s, p, d, EncFields(vs, ts.tail, p + |d|));
      if At(s, p, d) {
        Consumed(ts.head, s, p);
      }
    }
  }

  lemma {:induction false} VariantExactly(ts: Tys, i: nat, s: seq<byte>, p: nat)
    requires DecVariant(ts, i, s, p).Ok? && p <= |s|
    ensures var v := DecVariant(ts, i, s, p).value.0;
      && Variant(ts, i).Some? && HasType(v, Variant(ts, i).value)
      && (At(s, p, Enc(v, Variant(ts, i).value, p)) <==> VariantCanonical(ts, i, s, p))
    decreases ts, 0, 0
  {
    hide Enc, Dec, HasType, Canonical;
    DecVariantSound(ts, i, s, p);
    if i == 0 {
      CanonicalExactly(ts.head, s, p);
    } else {
      VariantExactly(ts.tail, i - 1, s, p);
    }
  }

  /** Where a value was encoded, decoding consumes exactly its bytes. */
  lemma Consumed(t: Ty, s: seq<byte>, p: nat)
    requires Dec(t, s, p).Ok? && p <= |s|
    ensures var (v, q) := Dec(t, s, p).value; HasType(v, t) && (At(s, p, Enc(v, t, p)) ==> q == p + |Enc(v, t, p)|)
  {
    hide Dec, Enc, HasType;
    DecSound(t, s, p);
    var v := Dec(t, s, p).value.0;
    if At(s, p, Enc(v, t, p)) {
      DecOfEnc(v, t, s, p);
    }
  }

  /** Writing a decoded value again, at any position of the same phase, gives exactly the bytes it was read from
      if and only if those bytes were canonical. */
  lemma CdrReencodes(t: Ty, s: seq<byte>, p: nat, p': nat)
    requires Dec(t, s, p).Ok? && p <= |s| && p' % 8 == p % 8
    ensures var (v, q) := Dec(t, s, p).value;
      HasType(v, t) && (s[p..q] == Enc(v, t, p') <==> Canonical(t, s, p))
  {
    hide Dec, Enc, HasType, Canonical;
    var (v, q) := Dec(t, s, p).value;
    CanonicalExactly(t, s, p);
    Consumed(t, s, p);
    EncPhase(v, t, p, p');
  }
}
