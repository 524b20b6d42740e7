/** The CDR serializer and deserializer as the library runs them: a buffer or an
    input slice and a position that every step advances. */
module CdrCodec {
  import opened Common
  import opened Utf8
  import opened Cdr
  import opened CdrProofs

  type Res = Outcome<CdrError>

  /** Nothing before `lo` and nothing from `hi` on was changed. */
  ghost predicate Settled(s: seq<byte>, t: seq<byte>, lo: nat, hi: nat) {
    && |s| == |t|
    && (forall i | 0 <= i < lo && i < |s| :: t[i] == s[i])
    && (forall i | hi <= i < |s| :: t[i] == s[i])
  }

  lemma SettledThen(s: seq<byte>, t: seq<byte>, u: seq<byte>, lo: nat, mid: nat, hi: nat)
    requires Settled(s, t, lo, mid) && Settled(t, u, lo, hi) && mid <= hi
    ensures Settled(s, u, lo, hi)
  {
  }

  /** Writes into `buf` from `base` on; positions count from `base`. */
  class CdrSerializer {
    const buf: array<byte>
    const base: nat
    var pos: nat

    ghost predicate Valid()
      reads this
    {
      base + pos <= buf.Length
    }

    function Written(): (s: seq<byte>)
      requires Valid()
      reads this, buf
      ensures |s| == pos
    {
      buf[base..base + pos]
    }

    /** The outcome of writing `d` at `p`: it succeeds exactly when `d` fits, and then exactly
        `d` is added and nothing after it is touched. */
    ghost predicate Emitted(was: seq<byte>, written: seq<byte>, d: seq<byte>, r: Res)
      requires Valid()
      reads this, buf
    {
      && (r.Pass? ==> Written() == written + d && Settled(was, buf[..], base, base + pos))
      && (r.Fail? ==> r.error == BufferOverflow && base + |written| + |d| > buf.Length)
    }

    constructor (buf: array<byte>, base: nat)
      requires base <= buf.Length
      ensures Valid() && this.buf == buf && this.base == base && pos == 0
    {
      this.buf, this.base, this.pos := buf, base, 0;
    }

    method Align(w: Width) returns (r: Res)
      requires Valid()
      modifies this, buf
      ensures Valid() && Emitted(old(buf[..]), old(Written()), Pad(old(pos), w), r)
    {
      var rem := pos % w.Size();
      if rem != 0 {
        var padding := w.Size() - rem;
        if base + pos + padding > buf.Length {
          return Fail(BufferOverflow);
        }
        for i := 0 to padding
          invariant Valid() && pos == old(pos)
          invariant forall j | base + pos <= j < base + pos + i :: buf[j] == 0
          invariant forall j | 0 <= j < base + pos || base + pos + i <= j < buf.Length :: buf[j] == old(buf[j])
        {
          buf[base + pos + i] := 0;
        }
        pos := pos + padding;
      }
      return Pass;
    }

    method WriteBytes(data: seq<byte>) returns (r: Res)
      requires Valid()
      modifies this, buf
      ensures Valid() && Emitted(old(buf[..]), old(Written()), data, r)
    {
      if base + pos + |data| > buf.Length {
        return Fail(BufferOverflow);
      }
      forall i | 0 <= i < |data| {
        buf[base + pos + i] := data[i];
      }
      pos := pos + |data|;
      return Pass;
    }

    /** Align, then the little-endian bytes. */
    method SerializeNum(w: Width, bits: nat) returns (r: Res)
      requires Valid()
      modifies this, buf
      ensures Valid() && Emitted(old(buf[..]), old(Written()), Num(w, bits, old(pos)), r)
    {
      hide Pad, Le;
      ghost var b0, s, p := buf[..], Written(), pos;
      :- Align(w);
      ghost var b1, p1 := buf[..], pos;
      :- WriteBytes(Le(w.Size(), bits));
      SettledThen(b0, b1, buf[..], base, base + p1, base + pos);
      assert s + (Pad(p, w) + Le(w.Size(), bits)) == s + Pad(p, w) + Le(w.Size(), bits);
      return Pass;
    }

    /** A count or tag, then bytes. */
    method SerializeCounted(count: nat, data: seq<byte>) returns (r: Res)
      requires Valid()
      modifies this, buf
      ensures Valid() && Emitted(old(buf[..]), old(Written()), Num(W4, count, old(pos)) + data, r)
    {
      hide Num;
      ghost var b0, s, p := buf[..], Written(), pos;
      :- SerializeNum(W4, count);
      ghost var b1, p1 := buf[..], pos;
      :- WriteBytes(data);
      SettledThen(b0, b1, buf[..], base, base + p1, base + pos);
      assert s + (Num(W4, count, p) + data) == s + Num(W4, count, p) + data;
      return Pass;
    }

    method Serialize(v: Val, t: Ty) returns (r: Res)
      requires Valid() && HasType(v, t)
      modifies this, buf
      ensures Valid() && Emitted(old(buf[..]), old(Written()), Enc(v, t, old(pos)), r)
      decreases v, 0
    {
      hide Num, InRange, ValidUtf8, EncAll, EncFields, Settled;
      match t
      case TBool => r := WriteBytes([if v.b then 1 else 0]);
      case TNum(_, w) => r := SerializeNum(w, Bits(w, v.n));
      case TChar => r := WriteBytes([v.c % 256]);
      case TStr => r := SerializeCounted(|v.s| + 1, v.s + [0]);
      case TBytes => r := SerializeCounted(|v.d|, v.d);
      case TUnit => r := WriteBytes([]);
      case TOption(e) =>
        if v.VNone? {
          r := WriteBytes([0]);
        } else {
          r := SerializeSome(v.some, e);
        }
      case TSeq(e) => r := SerializeSeq(v.elems, e);
      case TStruct(ts) => r := SerializeFields(v.parts, ts);
      case TEnum(ts) => r := SerializeVariant(v.index, v.payload, Variant(ts, v.index).value);
    }

    method SerializeSome(v: Val, e: Ty) returns (r: Res)
      requires Valid() && HasType(v, e)
      modifies this, buf
      ensures Valid() && Emitted(old(buf[..]), old(Written()), [1] + Enc(v, e, old(pos) + 1), r)
      decreases v, 1
    {
      hide Enc, HasType;
      ghost var b0, s, p := buf[..], Written(), pos;
      :- WriteBytes([1]);
      ghost var b1, p1 := buf[..], pos;
      :- Serialize(v, e);
      SettledThen(b0, b1, buf[..], base, base + p1, base + pos);
      assert s + ([1] + Enc(v, e, p + 1)) == s + [1] + Enc(v, e, p + 1);
      return Pass;
    }

    method SerializeSeq(vs: Vals, e: Ty) returns (r: Res)
      requires Valid() && AllHaveType(vs, e)
      modifies this, buf
      ensures Valid()
      ensures var head := Num(W4, Count(vs), old(pos));
        Emitted(old(buf[..]), old(Written()), head + EncAll(vs, e, old(pos) + |head|), r)
      decreases vs, 1
    {
      hide Num, EncAll, AllHaveType;
      ghost var b0, s, p := buf[..], Written(), pos;
      :- SerializeNum(W4, Count(vs));
      ghost var b1, p1 := buf[..], pos;
      :- SerializeAll(vs, e);
      SettledThen(b0, b1, buf[..], base, base + p1, base + pos);
      assert s + (Num(W4, Count(vs), p) + EncAll(vs, e, p1)) == s + Num(W4, Count(vs), p) + EncAll(vs, e, p1);
      return Pass;
    }

    method SerializeVariant(i: nat, v: Val, t: Ty) returns (r: Res)
      requires Valid() && HasType(v, t)
      modifies this, buf
      ensures Valid()
      ensures var head := Num(W4, i, old(pos));
        Emitted(old(buf[..]), old(Written()), head + Enc(v, t, old(pos) + |head|), r)
      decreases v, 1
    {
      hide Num, Enc, HasType;
      ghost var b0, s, p := buf[..], Written(), pos;
      :- SerializeNum(W4, i);
      ghost var b1, p1 := buf[..], pos;
      :- Serialize(v, t);
      SettledThen(b0, b1, buf[..], base, base + p1, base + pos);
      assert s + (Num(W4, i, p) + Enc(v, t, p1)) == s + Num(W4, i, p) + Enc(v, t, p1);
      return Pass;
    }

    method SerializeAll(vs: Vals, e: Ty) returns (r: Res)
      requires Valid() && AllHaveType(vs, e)
      modifies this, buf
      ensures Valid() && Emitted(old(buf[..]), old(Written()), EncAll(vs, e, old(pos)), r)
      decreases vs, 0
    {
      hide Enc, HasType;
      if vs.VNil? {
        return Pass;
      }
      ghost var b0, s, d := buf[..], Written(), Enc(vs.head, e, pos);
      :- Serialize(vs.head, e);
      ghost var b1, p1 := buf[..], pos;
      :- SerializeAll(vs.tail, e);
      SettledThen(b0, b1, buf[..], base, base + p1, base + pos);
      assert s + (d + EncAll(vs.tail, e, p1)) == s + d + EncAll(vs.tail, e, p1);
      return Pass;
    }

    method SerializeFields(vs: Vals, ts: Tys) returns (r: Res)
      requires Valid() && HaveTypes(vs, ts)
      modifies this, buf
      ensures Valid() && Emitted(old(buf[..]), old(Written()), EncFields(vs, ts, old(pos)), r)
      decreases vs, 0
    {
      hide Enc, HasType;
      if vs.VNil? {
        return Pass;
      }
      ghost var b0, s, d := buf[..], Written(), Enc(vs.head, ts.head, pos);
      :- Serialize(vs.head, ts.head);
      ghost var b1, p1 := buf[..], pos;
      :- SerializeFields(vs.tail, ts.tail);
      SettledThen(b0, b1, buf[..], base, base + p1, base + pos);
      assert s + (d + EncFields(vs.tail, ts.tail, p1)) == s + d + EncFields(vs.tail, ts.tail, p1);
      return Pass;
    }
  }

  /** Reads from `input`; positions count from its start. */
  class CdrDeserializer {
    const input: seq<byte>
    var pos: nat

    ghost predicate Valid()
      reads this
    {
      pos <= |input|
    }

    constructor (input: seq<byte>)
      ensures Valid() && this.input == input && pos == 0
    {
      this.input, this.pos := input, 0;
    }

    method Align(w: Width) returns (r: Res)
      requires Valid()
      modifies this
      ensures Valid()
      ensures r.Pass? ==> pos == old(pos) + |Pad(old(pos), w)|
      ensures r.Fail? ==> r.error == BufferUnderflow && old(pos) + |Pad(old(pos), w)| > |input|
    {
      var rem := pos % w.Size();
      if rem != 0 {
        var padding := w.Size() - rem;
        if pos + padding > |input| {
          return Fail(BufferUnderflow);
        }
        pos := pos + padding;
      }
      return Pass;
    }

    method ReadBytes(n: nat) returns (r: Result<seq<byte>, CdrError>)
      requires Valid()
      modifies this
      ensures Valid() && Agrees(r, Take(input, old(pos), n), pos)
    {
      if pos + n > |input| {
        return Err(BufferUnderflow);
      }
      var slice := input[pos..pos + n];
      pos := pos + n;
      return Ok(slice);
    }

    method ReadNum(w: Width) returns (r: Result<nat, CdrError>)
      requires Valid()
      modifies this
      ensures Valid() && Agrees(r, NumAt(input, old(pos), w), pos)
    {
      hide Pad;
      var a := Align(w);
      if a.Fail? {
        return Err(a.error);
      }
      var d :- ReadBytes(w.Size());
      return Ok(LeValue(d));
    }

    method Deserialize(t: Ty) returns (r: Result<Val, CdrError>)
      requires Valid()
      modifies this
      ensures Valid() && Agrees(r, Dec(t, input, old(pos)), pos)
      decreases t, 0, 0
    {
      hide NumAt, Take, ValidUtf8, FromBits, DecAll, DecFields, DecVariant;
      match t
      case TBool =>
        var d :- ReadBytes(1);
        if d[0] == 0 {
          return Ok(VBool(false));
        } else if d[0] == 1 {
          return Ok(VBool(true));
        }
        return Err(InvalidBool);
      case TNum(kind, w) =>
        var u :- ReadNum(w);
        return Ok(VNum(FromBits(kind, w, u)));
      case TChar =>
        var d :- ReadBytes(1);
        return Ok(VChar(d[0]));
      case TStr => r := DeserializeStr();
      case TBytes =>
        var len :- ReadNum(W4);
        var d :- ReadBytes(len);
        return Ok(VBytes(d));
      case TUnit =>
        return Ok(VUnit);
      case TOption(e) => r := DeserializeOption(e);
      case TSeq(e) =>
        var len :- ReadNum(W4);
        var vs :- DeserializeElements(e, len);
        return Ok(VSeq(vs));
      case TStruct(ts) =>
        var vs :- DeserializeFields(ts);
        return Ok(VStruct(vs));
      case TEnum(ts) =>
        var i :- ReadNum(W4);
        var v :- DeserializeVariant(ts, i);
        return Ok(VEnum(i, v));
    }

    method DeserializeStr() returns (r: Result<Val, CdrError>)
      requires Valid()
      modifies this
      ensures Valid() && Agrees(r, Dec(TStr, input, old(pos)), pos)
    {
      hide NumAt, Take, ValidUtf8;
      var len :- ReadNum(W4);
      if len == 0 {
        return Ok(VStr([]));
      }
      var d :- ReadBytes(len);
      if !ValidUtf8(d[..len - 1]) {
        return Err(InvalidUtf8);
      }
      return Ok(VStr(d[..len - 1]));
    }

    method DeserializeOption(e: Ty) returns (r: Result<Val, CdrError>)
      requires Valid()
      modifies this
      ensures Valid() && Agrees(r, Dec(TOption(e), input, old(pos)), pos)
      decreases e, 1, 0
    {
      hide Take;
      var d :- ReadBytes(1);
      if d[0] == 0 {
        return Ok(VNone);
      } else if d[0] != 1 {
        return Err(InvalidBool);
      }
      var v :- Deserialize(e);
      return Ok(VSome(v));
    }

    /** SeqAccess: one element as long as some remain. */
    method DeserializeElements(e: Ty, remaining: nat) returns (r: Result<Vals, CdrError>)
      requires Valid()
      modifies this
      ensures Valid() && Agrees(r, DecAll(e, remaining, input, old(pos)), pos)
      decreases e, 1, remaining
    {
      hide Dec;
      if remaining == 0 {
        return Ok(VNil);
      }
      var v :- Deserialize(e);
      var vs :- DeserializeElements(e, remaining - 1);
      return Ok(VCons(v, vs));
    }

    method DeserializeFields(ts: Tys) returns (r: Result<Vals, CdrError>)
      requires Valid()
      modifies this
      ensures Valid() && Agrees(r, DecFields(ts, input, old(pos)), pos)
      decreases ts, 0, 0
    {
      hide Dec;
      match ts
      case TNil => return Ok(VNil);
      case TCons(t, rest) =>
        var v :- Deserialize(t);
        var vs :- DeserializeFields(rest);
        return Ok(VCons(v, vs));
    }

    method DeserializeVariant(ts: Tys, i: nat) returns (r: Result<Val, CdrError>)
      requires Valid()
      modifies this
      ensures Valid() && Agrees(r, DecVariant(ts, i, input, old(pos)), pos)
      decreases ts, 0, 0
    {
      hide Dec;
      match ts
      case TNil => return Err(DeserializeError);
      case TCons(t, rest) =>
        if i == 0 {
          r := Deserialize(t);
        } else {
          r := DeserializeVariant(rest, i - 1);
        }
    }
  }

  /** A method's result and the position it left agree with the specified value and position. */
  ghost predicate Agrees<T>(r: Result<T, CdrError>, spec: Result<(T, nat), CdrError>, pos: nat) {
    match spec
    case Ok((v, q)) => r == Ok(v) && pos == q
    case Err(e) => r == Err(e)
  }

  // ── With the encapsulation header ─────────────────────────────────────

  const CDR_LE_HEADER: seq<byte> := [0, 1, 0, 0]

  function EncWithHeader(v: Val, t: Ty): seq<byte>
    requires HasType(v, t)
  {
    CDR_LE_HEADER + Enc(v, t, 0)
  }

  function DecWithHeader(t: Ty, buf: seq<byte>): Result<(Val, nat), CdrError> {
    if |buf| < 4 then Err(BufferUnderflow)
    else if buf[..2] != [0, 1] then Err(UnsupportedEncapsulation)
    else
      var (v, n) :- Dec(t, buf[4..], 0);
      Ok((v, 4 + n))
  }

  method SerializeWithHeader(buf: array<byte>, v: Val, t: Ty) returns (r: Result<nat, CdrError>)
    requires HasType(v, t)
    modifies buf
    ensures r.Ok? <==> |EncWithHeader(v, t)| <= buf.Length
    ensures r.Ok? ==> r.value == |EncWithHeader(v, t)| && buf[..r.value] == EncWithHeader(v, t)
    ensures r.Ok? ==> forall i | r.value <= i < buf.Length :: buf[i] == old(buf[i])
    ensures r.Err? ==> r.error == BufferOverflow
  {
    hide Enc, HasType;
    if buf.Length < 4 {
      return Err(BufferOverflow);
    }
    buf[0], buf[1], buf[2], buf[3] := 0, 1, 0, 0;
    var ser := new CdrSerializer(buf, 4);
    var s := ser.Serialize(v, t);
    if s.Fail? {
      return Err(s.error);
    }
    assert buf[..4 + ser.pos] == buf[..4] + ser.Written();
    assert buf[..4] == CDR_LE_HEADER;
    return Ok(4 + ser.pos);
  }

  method DeserializeWithHeader(buf: seq<byte>, t: Ty) returns (r: Result<(Val, nat), CdrError>)
    ensures r == DecWithHeader(t, buf)
  {
    hide Dec;
    if |buf| < 4 {
      return Err(BufferUnderflow);
    }
    if buf[..2] != [0, 1] {
      return Err(UnsupportedEncapsulation);
    }
    var de := new CdrDeserializer(buf[4..]);
    var v :- de.Deserialize(t);
    return Ok((v, 4 + de.pos));
  }

  /** A whole message, header included: read back exactly, whatever follows, if and only if its
      characters are all at most U+00FF; and rejected when it is cut short. */
  lemma HeaderRoundTrip(v: Val, t: Ty, rest: seq<byte>)
    requires HasType(v, t)
    ensures var r := DecWithHeader(t, EncWithHeader(v, t) + rest);
      && r.Ok? && r.value.1 == |EncWithHeader(v, t)|
      && (r.value.0 == v <==> Latin(v))
  {
    hide Dec, Enc, HasType, Latin;
    var buf := EncWithHeader(v, t) + rest;
    assert buf[..2] == [0, 1];
    assert buf[4..] == [] + Enc(v, t, 0) + rest;
    CdrRoundTrip(v, t, [], rest);
  }

  lemma HeaderCutShort(v: Val, t: Ty, n: nat)
    requires HasType(v, t) && n < |EncWithHeader(v, t)|
    ensures DecWithHeader(t, EncWithHeader(v, t)[..n]) == Err(BufferUnderflow)
  {
    hide Dec, Enc, HasType;
    var buf := EncWithHeader(v, t)[..n];
    if n >= 4 {
      assert buf[..2] == [0, 1];
      assert buf[4..] == Enc(v, t, 0)[..n - 4];
      assert buf[4..][0..] == buf[4..];
      DecOfCut(v, t, buf[4..], 0);
    }
  }

  // ── Capacities ────────────────────────────────────────────────────────

  function CapForString(maxLen: nat): nat {
    4 + 4 + maxLen + 1
  }

  /** A message with one string. */
  function StringMessage(s: text): (v: Val)
    requires |s| + 1 < U32
    ensures HasType(v, TStruct(TCons(TStr, TNil)))
  {
    assert HasType(VStr(s), TStr) && HaveTypes(VNil, TNil);
    assert HaveTypes(VCons(VStr(s), VNil), TCons(TStr, TNil));
    VStruct(VCons(VStr(s), VNil))
  }

  /** A capacity computed for strings up to a length holds exactly the strings up to that length. */
  lemma StringFits(s: text, maxLen: nat)
    requires |s| + 1 < U32
    ensures var t := TStruct(TCons(TStr, TNil));
      |EncWithHeader(StringMessage(s), t)| <= CapForString(maxLen) <==> |s| <= maxLen
  {
    assert HasType(StringMessage(s), TStruct(TCons(TStr, TNil)));
    var v, fields := VStr(s), VCons(VStr(s), VNil);
    assert Enc(v, TStr, 0) == Num(W4, |s| + 1, 0) + (s + [0]);
    assert EncFields(fields, TCons(TStr, TNil), 0) == Enc(v, TStr, 0) + EncFields(VNil, TNil, |Enc(v, TStr, 0)|);
  }

  /** `n` fields of one number type. */
  function Repeat(t: Ty, n: nat): Tys {
    if n == 0 then TNil else TCons(t, Repeat(t, n - 1))
  }

  lemma {:induction false} ArraySize(kind: Kind, w: Width, n: nat, vs: Vals, p: nat)
    requires HaveTypes(vs, Repeat(TNum(kind, w), n)) && p % w.Size() == 0
    ensures |EncFields(vs, Repeat(TNum(kind, w), n), p)| == w.Size() * n
    decreases n
  {
    hide Enc, Width.Size;
    if n > 0 {
      NumberSize(kind, w, vs.head, p);
      OneMore(w, p, n);
      ArraySize(kind, w, n - 1, vs.tail, p + w.Size());
    }
  }

  lemma NumberSize(kind: Kind, w: Width, v: Val, p: nat)
    requires HasType(v, TNum(kind, w)) && p % w.Size() == 0
    ensures |Enc(v, TNum(kind, w), p)| == w.Size()
  {
  }

  lemma OneMore(w: Width, p: nat, n: nat)
    requires p % w.Size() == 0 && n > 0
    ensures (p + w.Size()) % w.Size() == 0 && w.Size() * n == w.Size() + w.Size() * (n - 1)
  {
    hide Width.Size;
    NextMultiple(w, p);
    Distribute(w.Size(), n);
  }

  lemma NextMultiple(w: Width, p: nat)
    requires p % w.Size() == 0
    ensures (p + w.Size()) % w.Size() == 0
  {
    match w
    case W1 =>
    case W2 =>
    case W4 =>
    case W8 =>
  }

  lemma Distribute(size: int, n: int)
    ensures size * n == size + size * (n - 1)
  {
  }

  /** `cdr_size_of!` for `f64 * n`, `f32 * n` and `bytes(n)`: the exact size of the message. */
  lemma NumbersSize(kind: Kind, w: Width, n: nat, v: Val)
    requires HasType(v, TStruct(Repeat(TNum(kind, w), n)))
    ensures |EncWithHeader(v, TStruct(Repeat(TNum(kind, w), n)))| == 4 + w.Size() * n
  {
    ArraySize(kind, w, n, v.parts, 0);
  }
}
