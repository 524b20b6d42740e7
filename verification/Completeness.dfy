/** Every message of the grammar is read back exactly, whatever bytes follow it. */
module Completeness {
  import opened Common
  import opened VByte
  import opened Utf8
  import opened Grammar
  import opened Decode

  /** The header byte of a message and what follows it. */
  lemma HeadAt(b: seq<byte>, p: nat, h: byte, rest: seq<byte>)
    requires At(b, p, [h] + rest)
    ensures p < |b| && b[p] == h && At(b, p + 1, rest)
  {
    AtSplit(b, p, [h], rest);
    assert b[p] == b[p..p + 1][0];
  }

  /** The header byte of a message and the four parts that follow it. */
  lemma Parts(b: seq<byte>, p: nat, h: byte, c: seq<byte>, d: seq<byte>, e: seq<byte>, f: seq<byte>)
    requires At(b, p, [h] + (c + (d + (e + f))))
    ensures p < |b| && b[p] == h
    ensures At(b, p + 1, c)
    ensures At(b, p + 1 + |c|, d)
    ensures At(b, p + 1 + |c| + |d|, e)
    ensures At(b, p + 1 + |c| + |d| + |e|, f)
  {
    HeadAt(b, p, h, c + (d + (e + f)));
    hide At;
    AtSplit(b, p + 1, c, d + (e + f));
    AtSplit(b, p + 1 + |c|, d, e + f);
    AtSplit(b, p + 1 + |c| + |d|, e, f);
  }

  lemma SliceAt(b: seq<byte>, p: nat, data: seq<byte>)
    requires |data| < U64 && At(b, p, SliceBytes(data))
    ensures SliceDecode(b[p..]) == Ok((data, |SliceBytes(data)|))
  {
    AtSplit(b, p, VBytes(|data|), data);
    VByteAt(b, p, |data|);
    var n := |VBytes(|data|)|;
    assert b[p..][n..n + |data|] == b[p + n..p + n + |data|];
  }

  lemma BodyAt(b: seq<byte>, p: nat, e: Ext, more: bool)
    requires e.Valid() && At(b, p, e.Body())
    ensures SkipBody(b, p, ExtHeader(e, more)) == Ok(p + |e.Body()|)
  {
    match e
    case UnitExt(_) =>
    case Z64Ext(_, value) => VByteAt(b, p, value);
    case ZBufExt(_, _, data) => SliceAt(b, p, data);
  }

  /** A well-formed chain is skipped to its end. */
  lemma {:induction false} ExtsAt(b: seq<byte>, p: nat, es: seq<Ext>)
    requires ValidExts(es) && es != [] && At(b, p, ExtBytes(es))
    ensures Skip(b, p) == Ok(p + |ExtBytes(es)|)
    decreases |es|
  {
    hide At, SkipBody, Skip, ExtHeader, Flag, VBytes, SliceBytes;
    var e, more := es[0], |es| > 1;
    var h, body, tail := ExtHeader(e, more), e.Body(), ExtBytes(es[1..]);
    HeadAt(b, p, h, body + tail);
    AtSplit(b, p + 1, body, tail);
    BodyAt(b, p + 1, e, more);
    MoreBit(e, more);
    if more {
      ExtsAt(b, p + 1 + |body|, es[1..]);
    }
    SkipStep(b, p, p + 1 + |body|);
  }

  lemma MoreBit(e: Ext, more: bool)
    requires e.Valid()
    ensures Flag(ExtHeader(e, more), 128) == more
  {
  }

  lemma SkipStep(b: seq<byte>, p: nat, next: nat)
    requires p < |b| && SkipBody(b, p + 1, b[p]) == Ok(next)
    ensures Skip(b, p) == if Flag(b[p], 128) then Skip(b, next) else Ok(next)
  {
    hide SkipBody, Flag;
  }

  lemma VByteIfAt(b: seq<byte>, p: nat, v: Option<nat>)
    requires (v.Some? ==> v.value < U64) && At(b, p, VByteOption(v))
    ensures VByteIf(v.Some?, b, p) == Ok(p + |VByteOption(v)|)
  {
    if v.Some? {
      VByteAt(b, p, v.value);
    }
  }

  lemma ExtsIfAt(b: seq<byte>, p: nat, es: seq<Ext>)
    requires ValidExts(es) && At(b, p, ExtBytes(es))
    ensures SkipIf(es != [], b, p) == Ok(p + |ExtBytes(es)|)
  {
    if es != [] {
      ExtsAt(b, p, es);
    }
  }

  lemma WireExprComplete(b: seq<byte>, p: nat, k: WireExpr)
    requires k.Valid() && At(b, p, k.Bytes())
    ensures WireExprAt(b, p, k.suffix.Some?) == Ok(((k.scope, k.Suffix()), p + |k.Bytes()|))
  {
    hide VBytes, VDecode, VValue, SliceBytes, SliceDecode, ValidUtf8;
    AtSplit(b, p, VBytes(k.scope), if k.suffix.Some? then SliceBytes(k.suffix.value) else []);
    VByteAt(b, p, k.scope);
    if k.suffix.Some? {
      SliceAt(b, p + |VBytes(k.scope)|, k.suffix.value);
    }
  }

  lemma TimestampComplete(b: seq<byte>, p: nat, t: Timestamp)
    requires t.Valid() && At(b, p, VBytes(t.time) + SliceBytes(t.id))
    ensures TimestampAt(b, p) == Ok(p + |VBytes(t.time) + SliceBytes(t.id)|)
  {
    hide VBytes, VDecode, VValue;
    AtSplit(b, p, VBytes(t.time), SliceBytes(t.id));
    VByteAt(b, p, t.time);
    AtSplit(b, p + |VBytes(t.time)|, VBytes(|t.id|), t.id);
    VByteAt(b, p + |VBytes(t.time)|, |t.id|);
  }

  /** The last steps of reading a Put: the payload at the position where the extensions end. */
  function PayloadAt(b: seq<byte>, at: Result<nat, TransportError>): Result<Option<(seq<byte>, nat)>, TransportError>
    requires at.Ok? ==> at.value <= |b|
  {
    var p3 :- at;
    var (payload, n) :- SliceDecode(b[p3..]);
    Ok(Some((payload, p3 + n)))
  }

  lemma PutSteps(b: seq<byte>, p: nat, p1: nat, p2: nat)
    requires p < |b| && b[p] % 32 == PUT && p1 <= |b| && p2 <= |b|
    requires (if Flag(b[p], 32) then TimestampAt(b, p + 1) else Ok(p + 1)) == Ok(p1)
    requires VByteIf(Flag(b[p], 64), b, p1) == Ok(p2)
    ensures PutAt(b, p) == PayloadAt(b, SkipIf(Flag(b[p], 128), b, p2))
  {
    hide TimestampAt, VByteIf, SkipIf, SliceDecode, Flag;
  }

  /** Where the parts of a Put stand, and what is left to be read behind its encoding identifier. */
  lemma PutParts(b: seq<byte>, p: nat, m: Put) returns (q: nat)
    requires m.Valid() && At(b, p, m.Bytes())
    ensures q == p + BeforeSchema(m) <= |b|
    ensures q + |m.SchemaBytes()| + |ExtBytes(m.exts)| + |SliceBytes(m.payload)| == p + |m.Bytes()| <= |b|
    ensures At(b, q, m.SchemaBytes()) && At(b, q + |m.SchemaBytes()|, ExtBytes(m.exts))
    ensures At(b, q + |m.SchemaBytes()| + |ExtBytes(m.exts)|, SliceBytes(m.payload))
    ensures PutAt(b, p) == PayloadAt(b, SkipIf(m.exts != [], b, q))
  {
    hide TimestampAt, VByteIf, SkipIf, SliceDecode, Flag, At, VBytes, ExtBytes, SliceBytes, VDecode, Skip, PutAt;
    hide PayloadAt;
    var ts, number, schema := m.TimestampBytes(), VByteOption(m.EncodingNumber()), m.SchemaBytes();
    var es, pay := ExtBytes(m.exts), SliceBytes(m.payload);
    Parts(b, p, Header(PUT, m.timestamp.Some?, m.encoding.Some?, m.exts != []), ts, number + schema, es, pay);
    var p1 := p + 1 + |ts|;
    q := p1 + |number|;
    if m.timestamp.Some? {
      TimestampComplete(b, p + 1, m.timestamp.value);
    }
    AtSplit(b, p1, number, schema);
    VByteIfAt(b, p1, m.EncodingNumber());
    AtBound(b, q + |schema| + |es|, pay);
    PutSteps(b, p, p1, q);
  }

  lemma AtBound(b: seq<byte>, p: nat, d: seq<byte>)
    requires At(b, p, d)
    ensures p + |d| <= |b|
  {
  }

  /** How many bytes of a Put precede its schema. */
  function BeforeSchema(m: Put): nat {
    1 + |m.TimestampBytes()| + |VByteOption(m.EncodingNumber())|
  }

  /** The number `length` is read at the position `at`, and the bytes it counts end at `end`. */
  predicate CountsUpTo(b: seq<byte>, at: Result<nat, TransportError>, length: nat, end: nat) {
    && at.Ok? && at.value <= |b|
    && var n := VDecode(b[at.value..]);
       n.Ok? && n.value.0 == length && at.value + n.value.1 + length == end
  }

  /** The decoder does not know schemas. It reads a Put back if there is none, or if there are extensions and
      the chain that it sees in the bytes of the schema ends where the length of the payload is read. */
  predicate ReadsBack(b: seq<byte>, p: nat, m: Put)
    requires m.Valid()
  {
    || m.Schema().None?
    || (m.exts != [] && CountsUpTo(b, Skip(b, p + BeforeSchema(m)), |m.payload|, p + |m.Bytes()|))
  }

  /** A Put is decoded to exactly its payload and its length if and only if it reads back in this sense. */
  lemma PutComplete(b: seq<byte>, p: nat, m: Put)
    requires m.Valid() && At(b, p, m.Bytes())
    ensures PutAt(b, p) == Ok(Some((m.payload, p + |m.Bytes()|))) <==> ReadsBack(b, p, m)
  {
    hide At, VBytes, ExtBytes, SliceBytes, VDecode, Skip, PutAt, Put.Bytes, Put.SchemaBytes, SliceDecode, CountsUpTo;
    var q := PutParts(b, p, m);
    var es := ExtBytes(m.exts);
    SliceAt(b, q + |m.SchemaBytes()| + |es|, m.payload);
    if m.Schema().None? {
      NoSchema(m);
      ExtsIfAt(b, q, m.exts);
    } else if m.exts == [] {
      SchemaRead(b, q, m);
    } else {
      PayloadEnds(b, q + |m.SchemaBytes()| + |es|, m.payload);
      PayloadCounted(b, Skip(b, q), m.payload, p + |m.Bytes()|);
    }
  }

  lemma PayloadEnds(b: seq<byte>, at: nat, payload: seq<byte>)
    requires At(b, at, SliceBytes(payload))
    ensures var end := at + |SliceBytes(payload)|; |payload| <= end <= |b| && b[end - |payload|..end] == payload
  {
    hide VBytes;
    AtSplit(b, at, VBytes(|payload|), payload);
  }

  lemma NoSchema(m: Put)
    requires m.Schema().None?
    ensures m.SchemaBytes() == []
  {
  }

  /** Without extensions, the schema is what is read as the payload, and reading ends too early. */
  lemma SchemaRead(b: seq<byte>, q: nat, m: Put)
    requires m.Valid() && m.Schema().Some? && m.exts == [] && At(b, q, m.SchemaBytes()) && q <= |b|
    ensures PayloadAt(b, SkipIf(false, b, q)) == Ok(Some((m.Schema().value, q + |m.SchemaBytes()|)))
    ensures |SliceBytes(m.payload)| > 0
  {
    hide VBytes, SliceDecode;
    SliceAt(b, q, m.Schema().value);
  }

  /** The payload is read, up to `end`, if and only if its length is. */
  lemma PayloadCounted(b: seq<byte>, at: Result<nat, TransportError>, payload: seq<byte>, end: nat)
    requires (at.Ok? ==> at.value <= |b|) && |payload| <= end <= |b| && b[end - |payload|..end] == payload
    ensures PayloadAt(b, at) == Ok(Some((payload, end))) <==> CountsUpTo(b, at, |payload|, end)
  {
    hide VDecode;
    if at.Ok? && VDecode(b[at.value..]).Ok? {
      var (length, n) := VDecode(b[at.value..]).value;
      if at.value + n + length <= |b| {
        assert b[at.value..][n..n + length] == b[at.value + n..at.value + n + length];
      }
    }
  }

  /** When the chain seen in the schema ends exactly at the payload, the Put is read back. */
  lemma EndsAtPayload(b: seq<byte>, p: nat, m: Put)
    requires m.Valid() && At(b, p, m.Bytes()) && m.exts != []
    requires Skip(b, p + BeforeSchema(m)) == Ok(p + |m.Bytes()| - |SliceBytes(m.payload)|)
    ensures ReadsBack(b, p, m)
  {
    hide At, VBytes, ExtBytes, VDecode, Skip, PutAt, Put.Bytes, Put.SchemaBytes, SliceDecode, VValue;
    var q := PutParts(b, p, m);
    var at := q + |m.SchemaBytes()| + |ExtBytes(m.exts)|;
    AtSplit(b, at, VBytes(|m.payload|), m.payload);
    VByteAt(b, at, |m.payload|);
    AtBound(b, at, VBytes(|m.payload|));
  }

  /** It may also end before the payload, where the length happens to be read with padding: an empty payload
      behind an extension that ends with the byte 128. */
  lemma EndsBeforePayload()
    ensures var schema := [65] + seq(63, _ => 0);
      var m := Put(None, Some(Encoding(0, Some(schema))), [ZBufExt(1, false, [128])], []);
      && m.Valid() && ReadsBack(m.Bytes(), 0, m)
      && Skip(m.Bytes(), BeforeSchema(m)).Ok? && Skip(m.Bytes(), BeforeSchema(m)).value + 1 < |m.Bytes()|
  {
    hide Put.Bytes, Skip, VDecode, SliceDecode, VBytes;
    var schema: seq<byte> := [65] + seq(63, _ => 0);
    var m := Put(None, Some(Encoding(0, Some(schema))), [ZBufExt(1, false, [128])], []);
    var b := [193, 1, 64] + schema + [65, 1, 128, 0];
    PaddedBytes(schema);
    ShortNumber(b[3..], 65);
    assert b[3..][1..66] == b[4..69];
    PaddedSkip(b);
    PaddedZero(b[69..]);
  }

  lemma PaddedBytes(schema: seq<byte>)
    requires |schema| == 64
    ensures var m := Put(None, Some(Encoding(0, Some(schema))), [ZBufExt(1, false, [128])], []);
      m.Valid() && m.Bytes() == [193, 1, 64] + schema + [65, 1, 128, 0] && BeforeSchema(m) == 2
  {
    var e := ZBufExt(1, false, [128]);
    var m := Put(None, Some(Encoding(0, Some(schema))), [e], []);
    assert VBytes(0) == [0] && VBytes(1) == [1] && VBytes(64) == [64];
    assert SliceBytes([128]) == [1, 128] && SliceBytes([]) == [0] && SliceBytes(schema) == [64] + schema;
    assert ExtBytes([]) == [];
    assert [e][1..] == [];
    assert ExtBytes([e]) == [65] + ([1, 128] + []) == [65, 1, 128];
    hide VBytes, SliceBytes, ExtBytes;
    assert m.Bytes() == [193] + ([] + (([1] + ([64] + schema)) + ([65, 1, 128] + [0])));
  }

  lemma ShortNumber(s: seq<byte>, n: byte)
    requires s != [] && s[0] == n < 128
    ensures VDecode(s) == Ok((n as nat, 1))
  {
  }

  lemma PaddedZero(s: seq<byte>)
    requires s == [128, 0]
    ensures VDecode(s) == Ok((0, 2))
  {
    assert s[1..] == [0];
    assert VValue([0], 1) == Ok((0, 1));
  }

  lemma PaddedSkip(b: seq<byte>)
    requires |b| == 71 && b[2] == 64 && VDecode(b[3..]) == Ok((65, 1))
    ensures Skip(b, 2) == Ok(69)
  {
    hide VDecode;
    assert SliceDecode(b[3..]) == Ok((b[3..][1..66], 66));
  }

  /** A Put whose encoding carries a schema, and which has no extensions, is never read back: the decoder
      takes the schema for the payload and stops in front of the payload. */
  lemma SchemaTakenForPayload(b: seq<byte>, p: nat, m: Put)
    requires m.Valid() && At(b, p, m.Bytes()) && m.exts == [] && m.Schema().Some?
    ensures PutAt(b, p) == Ok(Some((m.Schema().value, p + |m.Bytes()| - |SliceBytes(m.payload)|)))
  {
    hide At, VBytes, SliceBytes, VDecode, PutAt, Put.Bytes, Put.SchemaBytes, SliceDecode, PayloadAt;
    var q := PutParts(b, p, m);
    SchemaRead(b, q, m);
    assert ExtBytes(m.exts) == [];
  }

  // ── Push ──────────────────────────────────────────────────────────────

  lemma PushSteps(b: seq<byte>, key: (nat, seq<byte>), p1: nat, p2: nat)
    requires b != [] && b[0] % 32 == PUSH && p1 <= |b|
    requires WireExprAt(b, 1, Flag(b[0], 32)) == Ok((key, p1))
    requires SkipIf(Flag(b[0], 128), b, p1) == Ok(p2)
    ensures forall payload, end :: PushPut(b) == Ok(Some((IncomingPut(key.0, key.1, payload), end))) <==>
        PutAt(b, p2) == Ok(Some((payload, end)))
  {
    hide WireExprAt, SkipIf, PutAt, Flag;
  }

  lemma PushPutAt(b: seq<byte>, m: Push)
    requires m.Valid() && At(b, 0, m.Bytes())
    ensures |m.put.Bytes()| <= |m.Bytes()|
    ensures PushPut(b) == Ok(Some((IncomingPut(m.key.scope, m.key.Suffix(), m.put.payload), |m.Bytes()|)))
       <==> ReadsBack(b, |m.Bytes()| - |m.put.Bytes()|, m.put)
  {
    hide At, ExtBytes, VBytes, SkipIf, PutAt, WireExprAt, PushPut, Flag, ReadsBack;
    hide Put.Bytes, WireExpr.Bytes, WireExpr.Suffix;
    var key, es, put := m.key.Bytes(), ExtBytes(m.exts), m.put.Bytes();
    HeadAt(b, 0, Header(PUSH, m.key.suffix.Some?, m.key.mapped, m.exts != []), key + (es + put));
    AtSplit(b, 1, key, es + put);
    AtSplit(b, 1 + |key|, es, put);
    WireExprComplete(b, 1, m.key);
    ExtsIfAt(b, 1 + |key|, m.exts);
    PutComplete(b, 1 + |key| + |es|, m.put);
    PushSteps(b, (m.key.scope, m.key.Suffix()), 1 + |key|, 1 + |key| + |es|);
  }

  /** A Push of a Put is decoded to exactly its scope, suffix and payload, and exactly its bytes are consumed,
      if and only if its Put reads back; in particular whenever there is no schema. */
  lemma PushPutComplete(m: Push, rest: seq<byte>)
    requires m.Valid()
    ensures |m.put.Bytes()| <= |m.Bytes()|
    ensures PushPut(m.Bytes() + rest)
        == Ok(Some((IncomingPut(m.key.scope, m.key.Suffix(), m.put.payload), |m.Bytes()|)))
       <==> ReadsBack(m.Bytes() + rest, |m.Bytes()| - |m.put.Bytes()|, m.put)
    ensures m.put.Schema().None? ==>
      PushPut(m.Bytes() + rest) == Ok(Some((IncomingPut(m.key.scope, m.key.Suffix(), m.put.payload), |m.Bytes()|)))
  {
    hide PushPut, Push.Bytes, Put.Bytes, Skip, CountsUpTo;
    AtStart(m.Bytes(), rest);
    PushPutAt(m.Bytes() + rest, m);
  }

  /** What stands at the start of a concatenation. */
  lemma AtStart(d: seq<byte>, rest: seq<byte>)
    ensures At(d + rest, 0, d)
  {
  }

  lemma ReplySteps(b: seq<byte>, p: nat, p3: nat, p4: nat)
    requires p < |b| && b[p] % 32 == REPLY && p3 <= |b|
    requires VByteIf(Flag(b[p], 32), b, p + 1) == Ok(p3)
    requires SkipIf(Flag(b[p], 128), b, p3) == Ok(p4)
    ensures ReplyAt(b, p) == PutAt(b, p4)
  {
    hide VByteIf, SkipIf, PutAt, Flag;
  }

  lemma ReplyComplete(b: seq<byte>, p: nat, m: Response)
    requires m.Valid() && m.Response? && At(b, p, m.ReplyBytes())
    ensures |m.put.Bytes()| <= |m.ReplyBytes()|
    ensures ReplyAt(b, p) == Ok(Some((m.put.payload, p + |m.ReplyBytes()|)))
       <==> ReadsBack(b, p + |m.ReplyBytes()| - |m.put.Bytes()|, m.put)
  {
    hide At, ExtBytes, VBytes, SkipIf, PutAt, VByteIf, ReplyAt, Flag, ReadsBack;
    hide Put.Bytes;
    var cons := VByteOption(m.consolidation);
    var es, put := ExtBytes(m.replyExts), m.put.Bytes();
    HeadAt(b, p, Header(REPLY, m.consolidation.Some?, m.replyBit6, m.replyExts != []), cons + (es + put));
    AtSplit(b, p + 1, cons, es + put);
    AtSplit(b, p + 1 + |cons|, es, put);
    VByteIfAt(b, p + 1, m.consolidation);
    ExtsIfAt(b, p + 1 + |cons|, m.replyExts);
    PutComplete(b, p + 1 + |cons| + |es|, m.put);
    ReplySteps(b, p, p + 1 + |cons|, p + 1 + |cons| + |es|);
  }

  /** What the service client reads from a Response or a ResponseFinal. */
  function Meaning(m: Response): ResponseMsg {
    match m
    case Final(rid, _, _, _) => NoMore(rid % U32)
    case Response(rid, key, _, _, _, _, put) => Reply(rid % U32, key.scope, key.Suffix(), put.payload)
  }

  lemma FinalAt(b: seq<byte>, m: Response)
    requires m.Valid() && m.Final? && At(b, 0, m.Bytes())
    ensures ResponseOf(b) == Ok(Some((Meaning(m), |m.Bytes()|)))
  {
    SnAndExtsAt(b, Header(RESPONSE_FINAL, m.bit5, m.bit6, m.exts != []), m.requestId, m.exts);
    hide At, ExtBytes, VBytes, SkipIf, VDecode;
  }

  lemma ResponseSteps(b: seq<byte>, rid: nat, n: nat, key: (nat, seq<byte>), p1: nat, p2: nat)
    requires b != [] && b[0] % 32 == RESPONSE && 1 + n <= |b| && p1 <= |b|
    requires VDecode(b[1..]) == Ok((rid, n))
    requires WireExprAt(b, 1 + n, Flag(b[0], 32)) == Ok((key, p1))
    requires SkipIf(Flag(b[0], 128), b, p1) == Ok(p2)
    ensures forall payload, end :: ResponseOf(b) == Ok(Some((Reply(rid % U32, key.0, key.1, payload), end)))
                              <==> ReplyAt(b, p2) == Ok(Some((payload, end)))
  {
    hide WireExprAt, SkipIf, ReplyAt, Flag, VDecode;
  }

  lemma ResponseAt(b: seq<byte>, m: Response)
    requires m.Valid() && m.Response? && At(b, 0, m.Bytes())
    ensures |m.put.Bytes()| <= |m.Bytes()|
    ensures ResponseOf(b) == Ok(Some((Meaning(m), |m.Bytes()|))) <==> ReadsBack(b, |m.Bytes()| - |m.put.Bytes()|, m.put)
  {
    hide At, ExtBytes, VBytes, SkipIf, ReplyAt, WireExprAt, VDecode, ResponseOf, Flag, ReadsBack;
    hide WireExpr.Bytes, Response.ReplyBytes, WireExpr.Suffix, Put.Bytes;
    var rid, key, es, reply := VBytes(m.requestId), m.key.Bytes(), ExtBytes(m.exts), m.ReplyBytes();
    Parts(b, 0, Header(RESPONSE, m.key.suffix.Some?, m.key.mapped, m.exts != []), rid, key, es, reply);
    VByteAt(b, 1, m.requestId);
    WireExprComplete(b, 1 + |rid|, m.key);
    ExtsIfAt(b, 1 + |rid| + |key|, m.exts);
    ReplyComplete(b, 1 + |rid| + |key| + |es|, m);
    ResponseSteps(b, m.requestId, |rid|, (m.key.scope, m.key.Suffix()), 1 + |rid| + |key|, 1 + |rid| + |key| + |es|);
  }

  /** A Response of a Reply of a Put is decoded to exactly its meaning if and only if its Put reads back, in
      particular whenever there is no schema; a ResponseFinal always is. */
  lemma ResponseComplete(m: Response, rest: seq<byte>)
    requires m.Valid()
    ensures m.Final? ==> ResponseOf(m.Bytes() + rest) == Ok(Some((Meaning(m), |m.Bytes()|)))
    ensures m.Response? ==> |m.put.Bytes()| <= |m.Bytes()|
    ensures m.Response? ==> (ResponseOf(m.Bytes() + rest) == Ok(Some((Meaning(m), |m.Bytes()|)))
                             <==> ReadsBack(m.Bytes() + rest, |m.Bytes()| - |m.put.Bytes()|, m.put))
    ensures m.Response? && m.put.Schema().None? ==> ResponseOf(m.Bytes() + rest) == Ok(Some((Meaning(m), |m.Bytes()|)))
  {
    hide ResponseOf, Response.Bytes, Put.Bytes, Skip, CountsUpTo;
    AtStart(m.Bytes(), rest);
    if m.Final? {
      FinalAt(m.Bytes() + rest, m);
    } else {
      ResponseAt(m.Bytes() + rest, m);
    }
  }

  lemma FrameHeaderComplete(sn: nat, reliable: bool, exts: seq<Ext>, body: seq<byte>)
    requires sn < U64 && ValidExts(exts)
    ensures FrameHeader(FrameHeaderBytes(sn, reliable, exts) + body)
        == Ok((sn, reliable, |FrameHeaderBytes(sn, reliable, exts)|))
  {
    var h := FrameHeaderBytes(sn, reliable, exts);
    AtStart(h, body);
    SnAndExtsAt(h + body, Header(FRAME, reliable, false, exts != []), sn, exts);
  }

  lemma FragmentHeaderComplete(sn: nat, reliable: bool, more: bool, exts: seq<Ext>, body: seq<byte>)
    requires sn < U64 && ValidExts(exts)
    ensures FragmentHeader(FragmentHeaderBytes(sn, reliable, more, exts) + body)
         == Ok((sn, reliable, more, |FragmentHeaderBytes(sn, reliable, more, exts)|))
  {
    var h := FragmentHeaderBytes(sn, reliable, more, exts);
    AtStart(h, body);
    SnAndExtsAt(h + body, Header(FRAGMENT, reliable, more, exts != []), sn, exts);
  }

  lemma SnAndExtsAt(b: seq<byte>, h: byte, sn: nat, exts: seq<Ext>)
    requires sn < U64 && ValidExts(exts) && At(b, 0, [h] + (VBytes(sn) + ExtBytes(exts)))
    ensures b != [] && b[0] == h && VDecode(b[1..]) == Ok((sn, |VBytes(sn)|))
    ensures SkipIf(exts != [], b, 1 + |VBytes(sn)|) == Ok(1 + |VBytes(sn)| + |ExtBytes(exts)|)
  {
    hide ExtBytes, VBytes, SkipIf;
    HeadAt(b, 0, h, VBytes(sn) + ExtBytes(exts));
    AtSplit(b, 1, VBytes(sn), ExtBytes(exts));
    VByteAt(b, 1, sn);
    ExtsIfAt(b, 1 + |VBytes(sn)|, exts);
  }

  // ── Sent messages, read back ──────────────────────────────────────────

  /** The client's own decoder walks a Request it encoded: the request id and the key are
      there, the extensions after them end at the Query header, and those after the Query
      header end at the end of the message. */
  lemma RequestSelfConsistent(requestId: nat, key: text, payload: seq<byte>, seqNum: int, timestamp: int,
          zid: seq<byte>)
    returns (b: seq<byte>, n: nat, target: nat, query: nat)
    requires requestId < U32 && |key| < U64 && |payload| + 1 < U64 && |zid| <= 16
    ensures b == RequestBytes(requestId, key, payload, seqNum, timestamp, zid)
    ensures 0 < 1 + n <= target < query < |b|
    ensures b[0] % 32 == REQUEST && Flag(b[0], 32) && Flag(b[0], 128)
    ensures VDecode(b[1..]) == Ok((requestId, n))
    ensures WireExprAt(b, 1 + n, true) == Ok(((0, key), target))
    ensures Skip(b, target) == Ok(query)
    ensures b[query] % 32 == QUERY && Flag(b[query], 128)
    ensures Skip(b, query + 1) == Ok(|b|)
  {
    hide At, ExtBytes, VBytes, Attachment, Skip, WireExprAt, VDecode, RequestHead, Flag, Header;
    hide WireExpr.Bytes;
    b := RequestBytes(requestId, key, payload, seqNum, timestamp, zid);
    n := |VBytes(requestId)|;
    var exts := QueryExts(payload, seqNum, timestamp, zid);
    target := 1 + n + |InlineKey(key).Bytes()|;
    query := target + |ExtBytes(TargetExt())|;
    RequestLayout(b, requestId, key, TargetExt(), exts);
    VByteAt(b, 1, requestId);
    WireExprComplete(b, 1 + n, InlineKey(key));
    ExtsAt(b, target, TargetExt());
    ExtsAt(b, query + 1, exts);
    ExtBytesNotEmpty(TargetExt());
    HeaderFlags();
  }

  lemma ExtBytesNotEmpty(es: seq<Ext>)
    requires ValidExts(es) && es != []
    ensures ExtBytes(es) != []
  {
  }

  lemma HeaderFlags()
    ensures Header(REQUEST, true, false, true) % 32 == REQUEST && Header(QUERY, false, false, true) % 32 == QUERY
    ensures Flag(Header(REQUEST, true, false, true), 32) && Flag(Header(REQUEST, true, false, true), 128)
    ensures Flag(Header(QUERY, false, false, true), 128)
  {
  }

  lemma RequestLayout(b: seq<byte>, requestId: nat, key: text, target: seq<Ext>, exts: seq<Ext>)
    requires ValidExts(target) && ValidExts(exts)
    requires b == RequestHead(requestId, key)
        + (ExtBytes(target) + ([Header(QUERY, false, false, true)] + ExtBytes(exts)))
    ensures var n, m := |VBytes(requestId)|, |InlineKey(key).Bytes()|;
      && |b| == 1 + n + m + |ExtBytes(target)| + 1 + |ExtBytes(exts)|
      && b[0] == Header(REQUEST, true, false, true)
      && At(b, 1, VBytes(requestId))
      && At(b, 1 + n, InlineKey(key).Bytes())
      && At(b, 1 + n + m, ExtBytes(target))
      && b[1 + n + m + |ExtBytes(target)|] == Header(QUERY, false, false, true)
      && At(b, 1 + n + m + |ExtBytes(target)| + 1, ExtBytes(exts))
  {
    hide At, ExtBytes, VBytes, Header;
    hide WireExpr.Bytes;
    var head, rid, wire := RequestHead(requestId, key), VBytes(requestId), InlineKey(key).Bytes();
    var tail := [Header(QUERY, false, false, true)] + ExtBytes(exts);
    AtWhole(b);
    AtSplit(b, 0, head, ExtBytes(target) + tail);
    HeadAt(b, 0, Header(REQUEST, true, false, true), rid + wire);
    AtSplit(b, 1, rid, wire);
    AtSplit(b, |head|, ExtBytes(target), tail);
    HeadAt(b, |head| + |ExtBytes(target)|, Header(QUERY, false, false, true), ExtBytes(exts));
  }

  lemma AtWhole(b: seq<byte>)
    ensures At(b, 0, b)
  {
  }
}
