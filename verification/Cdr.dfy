/** The CDR encoding (section 9.3 of CORBA 3.3 Part 2): a universe of types and
    values in place of serde's visitors, the bytes of a value at a position, and
    the value at a position of some bytes. Positions count from the start of the
    body, so that alignment depends on them. */
module Cdr {
  import opened Common
  import opened Utf8

  datatype CdrError =
    | BufferOverflow
    | BufferUnderflow
    | InvalidBool
    | InvalidUtf8
    | UnsupportedEncapsulation
    | DeserializeError

  datatype Width = W1 | W2 | W4 | W8 {
    function Size(): (n: nat)
      ensures n in {1, 2, 4, 8}
    {
      match this
      case W1 => 1
      case W2 => 2
      case W4 => 4
      case W8 => 8
    }

    /** One more than the largest unsigned number of this width. */
    function Range(): (n: nat)
      ensures n > 0 && n == Pow256(Size())
    {
      Pow256Values();
      match this
      case W1 => 256
      case W2 => U16
      case W4 => U32
      case W8 => U64
    }
  }

  datatype Kind = Unsigned | Signed | Float

  /** Types. A float is its bit pattern. A tuple, struct or fixed-size array is TStruct; a map is
      a sequence of pairs; a unit, newtype, tuple or struct variant has payload TUnit, its type, or TStruct. */
  datatype Ty =
    | TBool
    | TNum(kind: Kind, width: Width)
    | TChar
    | TStr
    | TBytes
    | TUnit
    | TOption(elem: Ty)
    | TSeq(elem: Ty)
    | TStruct(fields: Tys)
    | TEnum(variants: Tys)

  datatype Tys = TNil | TCons(head: Ty, tail: Tys)

  datatype Val =
    | VBool(b: bool)
    | VNum(n: int)
    | VChar(c: nat)
    | VStr(s: seq<byte>)
    | VBytes(d: seq<byte>)
    | VUnit
    | VNone
    | VSome(some: Val)
    | VSeq(elems: Vals)
    | VStruct(parts: Vals)
    | VEnum(index: nat, payload: Val)

  datatype Vals = VNil | VCons(head: Val, tail: Vals)

  function Count(vs: Vals): nat {
    match vs
    case VNil => 0
    case VCons(_, tail) => 1 + Count(tail)
  }

  /** The type of variant `i`. */
  function Variant(ts: Tys, i: nat): Option<Ty> {
    match ts
    case TNil => None
    case TCons(head, tail) => if i == 0 then Some(head) else Variant(tail, i - 1)
  }

  // ── Well-typed values ─────────────────────────────────────────────────

  predicate InRange(kind: Kind, width: Width, n: int) {
    if kind == Signed then -(width.Range() as int) <= 2 * n < width.Range() else 0 <= n < width.Range()
  }

  /** Values of a type, with the lengths and variant numbers that a `u32` can carry. */
  predicate HasType(v: Val, t: Ty)
    decreases v
  {
    match t
    case TBool => v.VBool?
    case TNum(kind, width) => v.VNum? && InRange(kind, width, v.n)
    case TChar => v.VChar? && v.c < 0x11_0000
    case TStr => v.VStr? && ValidUtf8(v.s) && |v.s| + 1 < U32
    case TBytes => v.VBytes? && |v.d| < U32
    case TUnit => v.VUnit?
    case TOption(e) => v.VNone? || (v.VSome? && HasType(v.some, e))
    case TSeq(e) => v.VSeq? && Count(v.elems) < U32 && AllHaveType(v.elems, e)
    case TStruct(ts) => v.VStruct? && HaveTypes(v.parts, ts)
    case TEnum(ts) =>
      v.VEnum? && v.index < U32 && Variant(ts, v.index).Some? && HasType(v.payload, Variant(ts, v.index).value)
  }

  predicate AllHaveType(vs: Vals, e: Ty) {
    match vs
    case VNil => true
    case VCons(head, tail) => HasType(head, e) && AllHaveType(tail, e)
  }

  predicate HaveTypes(vs: Vals, ts: Tys) {
    match vs
    case VNil => ts.TNil?
    case VCons(head, tail) => ts.TCons? && HasType(head, ts.head) && HaveTypes(tail, ts.tail)
  }

  // ── The bytes of a value at a position ────────────────────────────────

  /** Zeros up to the next multiple of the width. */
  function Pad(p: nat, w: Width): (s: seq<byte>)
    ensures (p + |s|) % w.Size() == 0 && |s| < w.Size()
  {
    if p % w.Size() == 0 then [] else seq(w.Size() - p % w.Size(), _ => 0)
  }

  /** An aligned number of the given width, of which `bits` is the unsigned reading. */
  function Num(width: Width, bits: nat, p: nat): seq<byte> {
    Pad(p, width) + Le(width.Size(), bits)
  }

  /** Two's complement. */
  function Bits(width: Width, n: int): (bits: nat)
    ensures bits < width.Range()
  {
    n % width.Range()
  }

  function Enc(v: Val, t: Ty, p: nat): seq<byte>
    requires HasType(v, t)
    decreases v
  {
    match t
    case TBool => [if v.b then 1 else 0]
    case TNum(_, width) => Num(width, Bits(width, v.n), p)
    case TChar => [v.c % 256]
    case TStr => Num(W4, |v.s| + 1, p) + (v.s + [0])
    case TBytes => Num(W4, |v.d|, p) + v.d
    case TUnit => []
    case TOption(e) => if v.VNone? then [0] else [1] + Enc(v.some, e, p + 1)
    case TSeq(e) =>
      var head := Num(W4, Count(v.elems), p);
      head + EncAll(v.elems, e, p + |head|)
    case TStruct(ts) => EncFields(v.parts, ts, p)
    case TEnum(ts) =>
      var head := Num(W4, v.index, p);
      head + Enc(v.payload, Variant(ts, v.index).value, p + |head|)
  }

  function EncAll(vs: Vals, e: Ty, p: nat): seq<byte>
    requires AllHaveType(vs, e)
    decreases vs
  {
    match vs
    case VNil => []
    case VCons(head, tail) =>
      var d := Enc(head, e, p);
      d + EncAll(tail, e, p + |d|)
  }

  function EncFields(vs: Vals, ts: Tys, p: nat): seq<byte>
    requires HaveTypes(vs, ts)
    decreases vs
  {
    match vs
    case VNil => []
    case VCons(head, tail) =>
      var d := Enc(head, ts.head, p);
      d + EncFields(tail, ts.tail, p + |d|)
  }

  // ── The value at a position ───────────────────────────────────────────

  /** `n` bytes at `p`. */
  function Take(s: seq<byte>, p: nat, n: nat): (r: Result<(seq<byte>, nat), CdrError>)
    ensures r.Ok? ==> |r.value.0| == n && p <= r.value.1 <= |s|
  {
    if p + n > |s| then Err(BufferUnderflow) else Ok((s[p..p + n], p + n))
  }

  /** The unsigned number at the next aligned position; padding is not looked at. */
  function NumAt(s: seq<byte>, p: nat, width: Width): (r: Result<(nat, nat), CdrError>)
    ensures r.Ok? ==> p < r.value.1 <= |s|
  {
    var (d, q) :- Take(s, p + |Pad(p, width)|, width.Size());
    Ok((LeValue(d), q))
  }

  function FromBits(kind: Kind, width: Width, u: nat): int {
    if kind == Signed && 2 * u >= width.Range() then u - width.Range() else u
  }

  function Dec(t: Ty, s: seq<byte>, p: nat): (r: Result<(Val, nat), CdrError>)
    ensures r.Ok? && p <= |s| ==> p <= r.value.1 <= |s|
    decreases t, 0, 0
  {
    match t
    case TBool =>
      var (d, q) :- Take(s, p, 1);
      if d[0] == 0 then Ok((VBool(false), q)) else if d[0] == 1 then Ok((VBool(true), q)) else Err(InvalidBool)
    case TNum(kind, width) =>
      var (u, q) :- NumAt(s, p, width);
      Ok((VNum(FromBits(kind, width, u)), q))
    case TChar =>
      var (d, q) :- Take(s, p, 1);
      Ok((VChar(d[0]), q))
    case TStr =>
      var (len, q) :- NumAt(s, p, W4);
      if len == 0 then Ok((VStr([]), q))
      else
        var (d, q') :- Take(s, q, len);
        if ValidUtf8(d[..len - 1]) then Ok((VStr(d[..len - 1]), q')) else Err(InvalidUtf8)
    case TBytes =>
      var (len, q) :- NumAt(s, p, W4);
      var (d, q') :- Take(s, q, len);
      Ok((VBytes(d), q'))
    case TUnit => Ok((VUnit, p))
    case TOption(e) =>
      var (d, q) :- Take(s, p, 1);
      if d[0] == 0 then Ok((VNone, q))
      else if d[0] == 1 then
        var (v, q') :- Dec(e, s, q);
        Ok((VSome(v), q'))
      else Err(InvalidBool)
    case TSeq(e) =>
      var (len, q) :- NumAt(s, p, W4);
      var (vs, q') :- DecAll(e, len, s, q);
      Ok((VSeq(vs), q'))
    case TStruct(ts) =>
      var (vs, q) :- DecFields(ts, s, p);
      Ok((VStruct(vs), q))
    case TEnum(ts) =>
      var (i, q) :- NumAt(s, p, W4);
      var (v, q') :- DecVariant(ts, i, s, q);
      Ok((VEnum(i, v), q'))
  }

  function DecAll(e: Ty, remaining: nat, s: seq<byte>, p: nat): (r: Result<(Vals, nat), CdrError>)
    ensures r.Ok? && p <= |s| ==> p <= r.value.1 <= |s|
    decreases e, 1, remaining
  {
    if remaining == 0 then Ok((VNil, p))
    else
      var (v, q) :- Dec(e, s, p);
      var (vs, q') :- DecAll(e, remaining - 1, s, q);
      Ok((VCons(v, vs), q'))
  }

  function DecFields(ts: Tys, s: seq<byte>, p: nat): (r: Result<(Vals, nat), CdrError>)
    ensures r.Ok? && p <= |s| ==> p <= r.value.1 <= |s|
    decreases ts, 0, 0
  {
    match ts
    case TNil => Ok((VNil, p))
    case TCons(t, rest) =>
      var (v, q) :- Dec(t, s, p);
      var (vs, q') :- DecFields(rest, s, q);
      Ok((VCons(v, vs), q'))
  }

  /** The payload of variant `i`, or an error when there is no such variant. */
  function DecVariant(ts: Tys, i: nat, s: seq<byte>, p: nat): (r: Result<(Val, nat), CdrError>)
    ensures r.Ok? && p <= |s| ==> p <= r.value.1 <= |s|
    decreases ts, 0, 0
  {
    match ts
    case TNil => Err(DeserializeError)
    case TCons(t, rest) => if i == 0 then Dec(t, s, p) else DecVariant(rest, i - 1, s, p)
  }
}
