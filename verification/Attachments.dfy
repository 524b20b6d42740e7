/** The attachment of a published message or a request, as a ROS2 peer reads it: which bytes of a message it
    is, and what they say. The client itself never reads one. */
module Attachments {
  import opened Common
  import opened VByte
  import opened Utf8
  import opened Grammar
  import opened Decode
  import opened Completeness

  /** Sequence number, source timestamp and the sixteen bytes of the sender. */
  datatype Stamp = Stamp(seqNum: int, timestamp: int, gid: seq<byte>)

  /** A little-endian `i64`. */
  function Signed(s: seq<byte>): int {
    var u := LeValue(s);
    if u >= 0x8000_0000_0000_0000 then u - 0x1_0000_0000_0000_0000 else u
  }

  function StampOf(a: seq<byte>): Option<Stamp> {
    if |a| == 33 && a[16] == 16 then Some(Stamp(Signed(a[..8]), Signed(a[8..16]), a[17..])) else None
  }

  /** The data of the first extension with identifier `id` in the chain at `pos`, if it carries bytes. */
  function Find(b: seq<byte>, pos: nat, id: nat): Option<seq<byte>>
    decreases |b| - pos
  {
    if pos >= |b| then None
    else if b[pos] % 32 == id then
      (if b[pos] / 32 % 4 < 2 then None
       else match SliceDecode(b[pos + 1..])
            case Ok((data, _)) => Some(data)
            case Err(_) => None)
    else
      match SkipBody(b, pos + 1, b[pos])
      case Err(_) => None
      case Ok(next) => if b[pos] >= 128 then Find(b, next, id) else None
  }

  /** The number that a message stands for as an `i64`. */
  function AsI64(n: int): int {
    (n + 0x8000_0000_0000_0000) % 0x1_0000_0000_0000_0000 - 0x8000_0000_0000_0000
  }

  lemma AsI64Is(n: int)
    requires -0x8000_0000_0000_0000 <= n < 0x8000_0000_0000_0000
    ensures AsI64(n) == n
  {
  }

  /** An identifier of at most sixteen bytes, with zeros behind it. */
  function Padded(zid: seq<byte>): seq<byte> {
    seq(16, i requires 0 <= i < 16 => if i < |zid| then zid[i] else 0)
  }

  lemma SignedOfBits(n: int)
    ensures Signed(Le(8, I64Bits(n))) == AsI64(n)
  {
    Pow256Values();
    LeRoundTrip(8, I64Bits(n));
    hide LeValue, Le;
    assert n % U64 == I64Bits(n);
    assert n == U64 * (n / U64) + n % U64;
  }

  /** An attachment says what it was made from. */
  lemma AttachmentRead(seqNum: int, timestamp: int, zid: seq<byte>)
    requires |zid| <= 16
    ensures StampOf(Attachment(seqNum, timestamp, zid)) == Some(Stamp(AsI64(seqNum), AsI64(timestamp), Padded(zid)))
  {
    hide LeValue, Signed, Le;
    SignedOfBits(seqNum);
    SignedOfBits(timestamp);
    var a := Attachment(seqNum, timestamp, zid);
    assert a[..8] == Le(8, I64Bits(seqNum)) && a[8..16] == Le(8, I64Bits(timestamp));
    assert a[17..] == Gid(zid) == Padded(zid);
  }

  // ── Finding the attachment ────────────────────────────────────────────

  /** The data of the first extension with this identifier. */
  function DataOf(es: seq<Ext>, id: nat): Option<seq<byte>> {
    if es == [] then None
    else if es[0].id == id then (if es[0].ZBufExt? then Some(es[0].data) else None)
    else DataOf(es[1..], id)
  }

  lemma HeaderParts(e: Ext, more: bool)
    requires e.Valid()
    ensures var h := ExtHeader(e, more); h % 32 == e.id && h / 32 % 4 == e.Kind() && (h >= 128 <==> more)
  {
  }

  lemma {:induction false} Found(b: seq<byte>, p: nat, es: seq<Ext>, id: nat)
    requires ValidExts(es) && es != [] && At(b, p, ExtBytes(es))
    ensures Find(b, p, id) == DataOf(es, id)
    decreases |es|
  {
    hide At, SkipBody, ExtHeader, Flag, VBytes, SliceBytes, SliceDecode;
    var e, more := es[0], |es| > 1;
    var h, body, tail := ExtHeader(e, more), e.Body(), ExtBytes(es[1..]);
    HeadAt(b, p, h, body + tail);
    AtSplit(b, p + 1, body, tail);
    BodyAt(b, p + 1, e, more);
    HeaderParts(e, more);
    if e.id == id {
      if e.ZBufExt? {
        SliceAt(b, p + 1, e.data);
      }
    } else if more {
      Found(b, p + 1 + |body|, es[1..], id);
    }
  }

  /** Where the extensions of the Put in a Push begin, and the attachment there. */
  function PushStamp(b: seq<byte>): Option<Stamp> {
    if b == [] then None
    else
      match WireExprAt(b, 1, Flag(b[0], 32))
      case Err(_) => None
      case Ok((_, p1)) =>
        match SkipIf(Flag(b[0], 128), b, p1)
        case Err(_) => None
        case Ok(p2) => PutStamp(b, p2)
  }

  function PutStamp(b: seq<byte>, p: nat): Option<Stamp> {
    if p >= |b| || !Flag(b[p], 128) then None
    else
      match if Flag(b[p], 32) then TimestampAt(b, p + 1) else Ok(p + 1)
      case Err(_) => None
      case Ok(p1) =>
        match VByteIf(Flag(b[p], 64), b, p1)
        case Err(_) => None
        case Ok(p2) => (match Find(b, p2, 3) case Some(a) => StampOf(a) case None => None)
  }

  lemma PutStampAt(b: seq<byte>, p: nat, m: Put)
    requires m.Valid() && m.Schema().None? && At(b, p, m.Bytes())
    ensures PutStamp(b, p) == match DataOf(m.exts, 3) case Some(a) => StampOf(a) case None => None
  {
    hide TimestampAt, VByteIf, Find, Flag, At, VBytes, ExtBytes, SliceBytes, StampOf;
    var ts, number := m.TimestampBytes(), VByteOption(m.EncodingNumber());
    var h, es := Header(PUT, m.timestamp.Some?, m.encoding.Some?, m.exts != []), ExtBytes(m.exts);
    assert m.SchemaBytes() == [];
    Parts(b, p, h, ts, number + [], es, SliceBytes(m.payload));
    if m.timestamp.Some? {
      TimestampComplete(b, p + 1, m.timestamp.value);
    }
    assert number + [] == number;
    VByteIfAt(b, p + 1 + |ts|, m.EncodingNumber());
    if m.exts != [] {
      Found(b, p + 1 + |ts| + |number|, m.exts, 3);
    }
  }

  /** Of every Push without schema, the attachment that is found is the data of the first extension 3 of its Put. */
  lemma PushStampComplete(m: Push, rest: seq<byte>)
    requires m.Valid() && m.put.Schema().None?
    ensures PushStamp(m.Bytes() + rest) == match DataOf(m.put.exts, 3) case Some(a) => StampOf(a) case None => None
  {
    hide At, ExtBytes, VBytes, SkipIf, WireExprAt, Flag, PutStamp, StampOf, DataOf, Put.Bytes, WireExpr.Bytes;
    var b := m.Bytes() + rest;
    AtStart(m.Bytes(), rest);
    var key, es, put := m.key.Bytes(), ExtBytes(m.exts), m.put.Bytes();
    HeadAt(b, 0, Header(PUSH, m.key.suffix.Some?, m.key.mapped, m.exts != []), key + (es + put));
    AtSplit(b, 1, key, es + put);
    AtSplit(b, 1 + |key|, es, put);
    WireExprComplete(b, 1, m.key);
    ExtsIfAt(b, 1 + |key|, m.exts);
    PutStampAt(b, 1 + |key| + |es|, m.put);
  }

  /** A published message carries its number, its timestamp and its sender. */
  lemma DataPushStamped(key: text, payload: seq<byte>, seqNum: int, timestamp: int, zid: seq<byte>, rest: seq<byte>)
    requires |key| < U64 && |payload| < U64 && |zid| <= 16
    ensures PushStamp(DataPush(key, payload, seqNum, timestamp, zid).Bytes() + rest)
         == Some(Stamp(AsI64(seqNum), AsI64(timestamp), Padded(zid)))
  {
    hide PushStamp, StampOf, Attachment, Push.Bytes, Padded, AsI64;
    PushStampComplete(DataPush(key, payload, seqNum, timestamp, zid), rest);
    AttachmentRead(seqNum, timestamp, zid);
  }

  /** The service reads a request: its number, its key, its payload behind the encoding 0, and its attachment. */
  lemma RequestRead(requestId: nat, key: text, payload: seq<byte>, seqNum: int, timestamp: int, zid: seq<byte>)
    returns (n: nat, target: nat, query: nat)
    requires requestId < U32 && |key| < U64 && |payload| + 1 < U64 && |zid| <= 16
    ensures var b := RequestBytes(requestId, key, payload, seqNum, timestamp, zid);
      && 1 + n <= target < query < |b|
      && b[0] % 32 == 0x1C && VDecode(b[1..]) == Ok((requestId, n))
      && WireExprAt(b, 1 + n, Flag(b[0], 32)) == Ok(((0, key), target))
      && b[target] == 0x24 && b[target + 1] == 2
      && Skip(b, target) == Ok(query) && b[query] % 32 == 3
      && Find(b, query + 1, 3) == Some([0] + payload)
      && Find(b, query + 1, 5).Some?
      && StampOf(Find(b, query + 1, 5).value) == Some(Stamp(AsI64(seqNum), AsI64(timestamp), Padded(zid)))
  {
    hide At, ExtBytes, Attachment, Skip, WireExprAt, VDecode, RequestHead, Flag, Header, Find, StampOf, VBytes;
    hide WireExpr.Bytes, Padded, AsI64;
    var b := RequestBytes(requestId, key, payload, seqNum, timestamp, zid);
    n := |VBytes(requestId)|;
    target := 1 + n + |InlineKey(key).Bytes()|;
    query := target + |ExtBytes(TargetExt())|;
    var exts := QueryExts(payload, seqNum, timestamp, zid);
    RequestLayout(b, requestId, key, TargetExt(), exts);
    VByteAt(b, 1, requestId);
    WireExprComplete(b, 1 + n, InlineKey(key));
    ExtsAt(b, target, TargetExt());
    ExtBytesNotEmpty(TargetExt());
    TargetIs(b, target);
    HeaderFlags();
    QueryData(payload, Attachment(seqNum, timestamp, zid));
    Found(b, query + 1, exts, 3);
    Found(b, query + 1, exts, 5);
    AttachmentRead(seqNum, timestamp, zid);
  }

  /** The target of a query is 2, all matching queryables. */
  lemma TargetIs(b: seq<byte>, p: nat)
    requires At(b, p, ExtBytes(TargetExt()))
    ensures p + 1 < |b| && b[p] == 0x24 && b[p + 1] == 2
  {
    assert ExtBytes([]) == [];
    assert TargetExt()[1..] == [];
    assert ExtBytes(TargetExt()) == [0x24] + (VBytes(2) + []);
    assert VBytes(2) == [2];
    assert b[p..p + 2] == [0x24, 2];
    assert b[p] == b[p..p + 2][0] && b[p + 1] == b[p..p + 2][1];
  }

  lemma QueryData(payload: seq<byte>, att: seq<byte>)
    ensures DataOf([ZBufExt(3, false, VBytes(0) + payload), ZBufExt(5, false, att)], 3) == Some([0] + payload)
    ensures DataOf([ZBufExt(3, false, VBytes(0) + payload), ZBufExt(5, false, att)], 5) == Some(att)
  {
    var es := [ZBufExt(3, false, VBytes(0) + payload), ZBufExt(5, false, att)];
    assert es[1..] == [ZBufExt(5, false, att)];
  }
}
