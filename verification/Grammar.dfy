/** The messages of the Zenoh protocol that the client reads, as data, and the
    bytes each of them has on the wire. */
module Grammar {
  import opened Common
  import opened VByte
  import opened Utf8

  // Message identifiers: the low five bits of a header byte.
  const INIT: byte := 0x01
  const OPEN: byte := 0x02
  const CLOSE: byte := 0x03
  const KEEP_ALIVE: byte := 0x04
  const FRAME: byte := 0x05
  const FRAGMENT: byte := 0x06
  const RESPONSE_FINAL: byte := 0x1A
  const RESPONSE: byte := 0x1B
  const REQUEST: byte := 0x1C
  const PUSH: byte := 0x1D
  const DECLARE: byte := 0x1E
  const PUT: byte := 0x01
  const QUERY: byte := 0x03
  const REPLY: byte := 0x04
  const D_KEYEXPR: byte := 0x00
  const D_SUBSCRIBER: byte := 0x02
  const D_TOKEN: byte := 0x06

  /** A header byte: the identifier and the flags in bits 5, 6 and 7. */
  function Header(id: byte, bit5: bool, bit6: bool, bit7: bool): (h: byte)
    requires id < 32
    ensures h % 32 == id
    ensures Flag(h, 32) == bit5 && Flag(h, 64) == bit6 && Flag(h, 128) == bit7
  {
    id + (if bit5 then 32 else 0) + (if bit6 then 64 else 0) + (if bit7 then 128 else 0)
  }

  // ── Length-prefixed bytes ─────────────────────────────────────────────

  function SliceBytes(data: seq<byte>): seq<byte> {
    VBytes(|data|) + data
  }

  function VByteOption(v: Option<nat>): seq<byte> {
    if v.Some? then VBytes(v.value) else []
  }

  // ── Extensions ────────────────────────────────────────────────────────

  /** An extension carries nothing, one integer or a byte string; kinds 2 and 3 both mean a byte string. */
  datatype Ext =
    | UnitExt(id: nat)
    | Z64Ext(id: nat, value: nat)
    | ZBufExt(id: nat, reserved: bool, data: seq<byte>)
  {
    predicate Valid() {
      && id < 32
      && (Z64Ext? ==> value < U64)
      && (ZBufExt? ==> |data| < U64)
    }

    function Kind(): nat {
      match this
      case UnitExt(_) => 0
      case Z64Ext(_, _) => 1
      case ZBufExt(_, reserved, _) => if reserved then 3 else 2
    }

    function Body(): seq<byte> {
      match this
      case UnitExt(_) => []
      case Z64Ext(_, value) => VBytes(value)
      case ZBufExt(_, _, data) => SliceBytes(data)
    }
  }

  predicate ValidExts(es: seq<Ext>) {
    forall e | e in es :: e.Valid()
  }

  function ExtHeader(e: Ext, more: bool): byte
    requires e.Valid()
  {
    e.id + 32 * e.Kind() + (if more then 128 else 0)
  }

  /** A chain of extensions: every one but the last has the more-bit. */
  function ExtBytes(es: seq<Ext>): seq<byte>
    requires ValidExts(es)
  {
    if es == [] then []
    else [ExtHeader(es[0], |es| > 1)] + (es[0].Body() + ExtBytes(es[1..]))
  }

  // ── Push and Put ──────────────────────────────────────────────────────

  /** A key reference: a scope and, when it is named, a suffix. */
  datatype WireExpr = WireExpr(mapped: bool, scope: nat, suffix: Option<seq<byte>>) {
    predicate Valid() {
      && scope < U64
      && (suffix.Some? ==> ValidUtf8(suffix.value) && |suffix.value| < U64)
    }

    function Bytes(): seq<byte> {
      VBytes(scope) + if suffix.Some? then SliceBytes(suffix.value) else []
    }

    function Suffix(): seq<byte> {
      if suffix.Some? then suffix.value else []
    }
  }

  datatype Timestamp = Timestamp(time: nat, id: seq<byte>) {
    predicate Valid() {
      time < U64 && |id| < U64
    }
  }

  /** An encoding: an identifier and, when there is one, a schema. */
  datatype Encoding = Encoding(id: nat, schema: Option<seq<byte>>) {
    predicate Valid() {
      2 * id + 1 < U64 && (schema.Some? ==> |schema.value| < U64)
    }

    /** The identifier moved up one bit; bit 0 says whether a schema follows. */
    function Number(): nat {
      2 * id + if schema.Some? then 1 else 0
    }
  }

  /** A Put: optional timestamp, optional encoding, extensions, payload. */
  datatype Put = Put(timestamp: Option<Timestamp>, encoding: Option<Encoding>, exts: seq<Ext>, payload: seq<byte>) {
    predicate Valid() {
      && (timestamp.Some? ==> timestamp.value.Valid())
      && (encoding.Some? ==> encoding.value.Valid())
      && ValidExts(exts)
      && |payload| < U64
    }

    function Schema(): Option<seq<byte>> {
      if encoding.Some? then encoding.value.schema else None
    }

    function TimestampBytes(): seq<byte> {
      if timestamp.Some? then VBytes(timestamp.value.time) + SliceBytes(timestamp.value.id) else []
    }

    function EncodingNumber(): Option<nat> {
      if encoding.Some? then Some(encoding.value.Number()) else None
    }

    function SchemaBytes(): seq<byte> {
      if Schema().Some? then SliceBytes(Schema().value) else []
    }

    function Bytes(): seq<byte>
      requires Valid()
    {
      [Header(PUT, timestamp.Some?, encoding.Some?, exts != [])]
      + (TimestampBytes() + ((VByteOption(EncodingNumber()) + SchemaBytes()) + (ExtBytes(exts) + SliceBytes(payload))))
    }
  }

  datatype Push = Push(key: WireExpr, exts: seq<Ext>, put: Put) {
    predicate Valid() {
      key.Valid() && ValidExts(exts) && put.Valid()
    }

    function Bytes(): seq<byte>
      requires Valid()
    {
      [Header(PUSH, key.suffix.Some?, key.mapped, exts != [])] + (key.Bytes() + (ExtBytes(exts) + put.Bytes()))
    }
  }

  // ── Response ──────────────────────────────────────────────────────────

  datatype Response =
    | Response(requestId: nat, key: WireExpr, exts: seq<Ext>, consolidation: Option<nat>, replyBit6: bool,
               replyExts: seq<Ext>, put: Put)
    | Final(requestId: nat, bit5: bool, bit6: bool, exts: seq<Ext>)
  {
    predicate Valid() {
      && requestId < U64
      && ValidExts(exts)
      && (Response? ==>
            && key.Valid() && ValidExts(replyExts) && put.Valid()
            && (consolidation.Some? ==> consolidation.value < U64))
    }

    function Bytes(): seq<byte>
      requires Valid()
    {
      match this
      case Final(rid, b5, b6, es) => [Header(RESPONSE_FINAL, b5, b6, es != [])] + (VBytes(rid) + ExtBytes(es))
      case Response(rid, key, es, consolidation, b6, res, put) =>
        [Header(RESPONSE, key.suffix.Some?, key.mapped, es != [])]
        + (VBytes(rid) + (key.Bytes() + (ExtBytes(es) + ReplyBytes())))
    }

    function ReplyBytes(): seq<byte>
      requires Valid() && Response?
    {
      [Header(REPLY, consolidation.Some?, replyBit6, replyExts != [])]
      + (VByteOption(consolidation) + (ExtBytes(replyExts) + put.Bytes()))
    }
  }

  // ── Transport headers ─────────────────────────────────────────────────

  /** Frame header: identifier, reliability, sequence number and extensions. */
  function FrameHeaderBytes(sn: nat, reliable: bool, exts: seq<Ext>): seq<byte>
    requires ValidExts(exts)
  {
    [Header(FRAME, reliable, false, exts != [])] + (VBytes(sn) + ExtBytes(exts))
  }

  function FragmentHeaderBytes(sn: nat, reliable: bool, more: bool, exts: seq<Ext>): seq<byte>
    requires ValidExts(exts)
  {
    [Header(FRAGMENT, reliable, more, exts != [])] + (VBytes(sn) + ExtBytes(exts))
  }

  // ── What the client sends ─────────────────────────────────────────────

  /** A node identifier of at most sixteen bytes, padded with zeros. */
  function Gid(zid: seq<byte>): (g: seq<byte>)
    requires |zid| <= 16
    ensures |g| == 16
  {
    zid + seq(16 - |zid|, _ => 0)
  }

  /** The publisher attachment: sequence number, timestamp and identifier. */
  function Attachment(seqNum: int, timestamp: int, zid: seq<byte>): (a: seq<byte>)
    requires |zid| <= 16
    ensures |a| == 33
  {
    Le(8, I64Bits(seqNum)) + (Le(8, I64Bits(timestamp)) + ([16] + Gid(zid)))
  }

  function InlineKey(key: seq<byte>): WireExpr {
    WireExpr(false, 0, Some(key))
  }

  /** The Push with which a publisher sends one message. */
  function DataPush(key: text, payload: seq<byte>, seqNum: int, timestamp: int, zid: seq<byte>): (m: Push)
    requires |key| < U64 && |payload| < U64 && |zid| <= 16
    ensures m.Valid()
  {
    Push(InlineKey(key), [], Put(None, None, [ZBufExt(3, false, Attachment(seqNum, timestamp, zid))], payload))
  }

  /** A Push of a Put with an inline key and no extensions. */
  function PlainPush(key: text, encodingId: nat, payload: seq<byte>): (m: Push)
    requires |key| < U64 && |payload| < U64 && 2 * encodingId < U64
    ensures m.Valid()
  {
    Push(InlineKey(key), [], Put(None, if encodingId != 0 then Some(Encoding(encodingId, None)) else None, [], payload))
  }

  function TargetExt(): seq<Ext> {
    [Z64Ext(4, 2)]
  }

  function QueryExts(payload: seq<byte>, seqNum: int, timestamp: int, zid: seq<byte>): (es: seq<Ext>)
    requires |zid| <= 16 && |payload| + 1 < U64
    ensures ValidExts(es)
  {
    [ZBufExt(3, false, VBytes(0) + payload), ZBufExt(5, false, Attachment(seqNum, timestamp, zid))]
  }

  /** What precedes the extensions of a Request, and the Request with its Query. */
  function RequestHead(requestId: nat, key: seq<byte>): seq<byte> {
    [Header(REQUEST, true, false, true)] + (VBytes(requestId) + InlineKey(key).Bytes())
  }

  function RequestBytes(requestId: nat, key: seq<byte>, payload: seq<byte>, seqNum: int, timestamp: int,
          zid: seq<byte>): seq<byte>
    requires |zid| <= 16 && |payload| + 1 < U64
  {
    RequestHead(requestId, key)
    + (ExtBytes(TargetExt())
       + ([Header(QUERY, false, false, true)] + ExtBytes(QueryExts(payload, seqNum, timestamp, zid))))
  }

  /** A declaration with an inline key: of a key expression (`id` is the key id) or of a liveliness token. */
  function DeclareInlineBytes(kind: byte, id: nat, key: seq<byte>): seq<byte>
    requires kind < 32
  {
    [DECLARE, Header(kind, key != [], false, false)]
    + (VBytes(id) + (VBytes(0) + if key != [] then SliceBytes(key) else []))
  }

  /** A subscriber declaration that refers to a key id of the sender. */
  function DeclareSubscriberBytes(subId: nat, keyId: nat): seq<byte> {
    [DECLARE, Header(D_SUBSCRIBER, false, true, false)] + (VBytes(subId) + VBytes(keyId))
  }
}
