/** The encoders of sent messages, appending to a buffer. Each succeeds exactly when
    its message fits, and then adds exactly the bytes that the grammar gives the message. */
module Encode {
  import opened Common
  import opened Writing
  import opened VByte
  import opened Utf8
  import opened Grammar

  type E = TransportError

  method EncodeSlice(w: Writer, data: seq<byte>) returns (r: Outcome<E>)
    requires w.Valid() && |data| < U64
    modifies w, w.buf
    ensures w.Valid() && Appended(old(w.Written()), w.Written(), w.buf.Length, SliceBytes(data), r)
  {
    hide VBytes;
    ghost var s := w.Written();
    :- EncodeVByte(w, |data|);
    :- w.PutBytes(data);
    Join2(s, VBytes(|data|), data);
    return Pass;
  }

  /** Scope 0, then the key as suffix. */
  method EncodeInlineKey(w: Writer, key: seq<byte>) returns (r: Outcome<E>)
    requires w.Valid() && |key| < U64
    modifies w, w.buf
    ensures w.Valid() && Appended(old(w.Written()), w.Written(), w.buf.Length, InlineKey(key).Bytes(), r)
  {
    hide VBytes, SliceBytes;
    ghost var s := w.Written();
    :- EncodeVByte(w, 0);
    :- EncodeSlice(w, key);
    Join2(s, VBytes(0), SliceBytes(key));
    return Pass;
  }

  /** One bounds check for the whole attachment, then its four fields. */
  method EncodeAttachment(w: Writer, seqNum: int, timestamp: int, zid: seq<byte>) returns (r: Outcome<E>)
    requires w.Valid() && |zid| <= 16
    modifies w, w.buf
    ensures w.Valid() && Appended(old(w.Written()), w.Written(), w.buf.Length, Attachment(seqNum, timestamp, zid), r)
  {
    hide Le;
    if w.pos + 33 > w.buf.Length {
      return Fail(FrameTooLarge);
    }
    ghost var s := w.Written();
    w.CopyBytes(Le(8, I64Bits(seqNum)));
    w.CopyBytes(Le(8, I64Bits(timestamp)));
    w.CopyBytes([16]);
    w.CopyBytes(Gid(zid));
    Join4(s, Le(8, I64Bits(seqNum)), Le(8, I64Bits(timestamp)), [16], Gid(zid));
    return Pass;
  }

  /** An extension that carries bytes: header, length and data. */
  lemma ZBufParts(id: nat, data: seq<byte>, more: bool)
    requires id < 32 && |data| < U64
    ensures ExtHeader(ZBufExt(id, false, data), more) == id + 64 + if more then 128 else 0
    ensures ZBufExt(id, false, data).Body() == SliceBytes(data)
  {
  }

  lemma SingleExt(e: Ext)
    requires e.Valid()
    ensures ExtBytes([e]) == [ExtHeader(e, false)] + e.Body()
  {
    assert ExtBytes([]) == [];
  }

  /** The attachment as the last extension: header, length 33 and the attachment. */
  method EncodeAttachmentExt(w: Writer, id: nat, seqNum: int, timestamp: int, zid: seq<byte>) returns (r: Outcome<E>)
    requires w.Valid() && |zid| <= 16 && id < 32
    modifies w, w.buf
    ensures w.Valid()
    ensures Appended(old(w.Written()), w.Written(), w.buf.Length,
        ExtBytes([ZBufExt(id, false, Attachment(seqNum, timestamp, zid))]), r)
  {
    ghost var s, att := w.Written(), Attachment(seqNum, timestamp, zid);
    SingleExt(ZBufExt(id, false, att));
    ZBufParts(id, att, false);
    hide VBytes, ExtBytes, Attachment;
    :- w.PutByte(id + 64);
    :- EncodeVByte(w, 33);
    :- EncodeAttachment(w, seqNum, timestamp, zid);
    Join3(s, [id + 64], VBytes(33), att);
    return Pass;
  }

  method EncodeFrameHeader(w: Writer, sn: nat, reliable: bool) returns (r: Outcome<E>)
    requires w.Valid() && sn < U64
    modifies w, w.buf
    ensures w.Valid() && Appended(old(w.Written()), w.Written(), w.buf.Length, FrameHeaderBytes(sn, reliable, []), r)
  {
    ghost var s := w.Written();
    assert FrameHeaderBytes(sn, reliable, []) == [Header(FRAME, reliable, false, false)] + VBytes(sn);
    hide VBytes, FrameHeaderBytes;
    :- w.PutByte(Header(FRAME, reliable, false, false));
    :- EncodeVByte(w, sn);
    Join2(s, [Header(FRAME, reliable, false, false)], VBytes(sn));
    return Pass;
  }

  // ── Push and Put ──────────────────────────────────────────────────────

  method EncodePushPutWithAttachment(w: Writer, key: text, payload: seq<byte>, seqNum: int, timestamp: int,
          zid: seq<byte>)
    returns (r: Outcome<E>)
    requires w.Valid() && |key| < U64 && |payload| < U64 && |zid| <= 16
    modifies w, w.buf
    ensures w.Valid()
    ensures Appended(old(w.Written()), w.Written(), w.buf.Length,
        DataPush(key, payload, seqNum, timestamp, zid).Bytes(), r)
  {
    var push, put := Header(PUSH, true, false, false), Header(PUT, false, false, true);
    ghost var s, ext := w.Written(), ExtBytes([ZBufExt(3, false, Attachment(seqNum, timestamp, zid))]);
    DataPushParts(key, payload, seqNum, timestamp, zid);
    hide VBytes, SliceBytes, ExtBytes, Push.Bytes, WireExpr.Bytes, Attachment;
    :- w.PutByte(push);
    :- EncodeInlineKey(w, key);
    :- w.PutByte(put);
    :- EncodeAttachmentExt(w, 3, seqNum, timestamp, zid);
    :- EncodeSlice(w, payload);
    Join5(s, [push], InlineKey(key).Bytes(), [put], ext, SliceBytes(payload));
    return Pass;
  }

  /** The parts of a data Push, in the order the encoder writes them. */
  lemma DataPushParts(key: text, payload: seq<byte>, seqNum: int, timestamp: int, zid: seq<byte>)
    requires |key| < U64 && |payload| < U64 && |zid| <= 16
    ensures DataPush(key, payload, seqNum, timestamp, zid).Bytes()
         == [Header(PUSH, true, false, false)]
            + (InlineKey(key).Bytes()
               + ([Header(PUT, false, false, true)]
                  + (ExtBytes([ZBufExt(3, false, Attachment(seqNum, timestamp, zid))]) + SliceBytes(payload))))
  {
    var m := DataPush(key, payload, seqNum, timestamp, zid);
    PlainPutParts(m.put);
    assert ExtBytes(m.exts) == [];
    hide ExtBytes, WireExpr.Bytes, Put.Bytes, SliceBytes;
    assert [] + m.put.Bytes() == m.put.Bytes();
  }

  lemma PlainPutParts(m: Put)
    requires m.Valid() && m.timestamp == None && m.encoding == None
    ensures m.Bytes() == [Header(PUT, false, false, m.exts != [])] + (ExtBytes(m.exts) + SliceBytes(m.payload))
  {
    hide ExtBytes, SliceBytes;
    var tail := ExtBytes(m.exts) + SliceBytes(m.payload);
    assert [] + (([] + []) + tail) == tail;
  }

  method EncodeVByteOption(w: Writer, v: Option<nat>) returns (r: Outcome<E>)
    requires w.Valid() && (v.Some? ==> v.value < U64)
    modifies w, w.buf
    ensures w.Valid() && Appended(old(w.Written()), w.Written(), w.buf.Length, VByteOption(v), r)
  {
    r := Pass;
    if v.Some? {
      r := EncodeVByte(w, v.value);
    }
  }

  /** A Push without attachment; the encoding is written only when its id is not zero. */
  method EncodePushPut(w: Writer, key: text, encodingId: nat, payload: seq<byte>) returns (r: Outcome<E>)
    requires w.Valid() && |key| < U64 && |payload| < U64 && 2 * encodingId < U64
    modifies w, w.buf
    ensures w.Valid()
    ensures Appended(old(w.Written()), w.Written(), w.buf.Length, PlainPush(key, encodingId, payload).Bytes(), r)
  {
    var push, put := Header(PUSH, true, false, false), Header(PUT, false, encodingId != 0, false);
    var enc := if encodingId != 0 then Some(2 * encodingId) else None;
    ghost var s := w.Written();
    PlainPushParts(key, encodingId, payload);
    hide VBytes, SliceBytes, ExtBytes, Push.Bytes, WireExpr.Bytes;
    :- w.PutByte(push);
    :- EncodeInlineKey(w, key);
    :- w.PutByte(put);
    :- EncodeVByteOption(w, enc);
    :- EncodeSlice(w, payload);
    Join5(s, [push], InlineKey(key).Bytes(), [put], VByteOption(enc), SliceBytes(payload));
    return Pass;
  }

  lemma PlainPushParts(key: text, encodingId: nat, payload: seq<byte>)
    requires |key| < U64 && |payload| < U64 && 2 * encodingId < U64
    ensures PlainPush(key, encodingId, payload).Bytes()
         == [Header(PUSH, true, false, false)]
            + (InlineKey(key).Bytes()
               + ([Header(PUT, false, encodingId != 0, false)]
                  + (VByteOption(if encodingId != 0 then Some(2 * encodingId) else None) + SliceBytes(payload))))
  {
    var m := PlainPush(key, encodingId, payload);
    assert ExtBytes(m.exts) == [];
    assert ExtBytes(m.put.exts) == [];
    hide ExtBytes, WireExpr.Bytes, SliceBytes, VBytes;
    var enc, pay := VByteOption(m.put.EncodingNumber()), SliceBytes(payload);
    assert [] + ((enc + []) + ([] + pay)) == enc + pay;
    assert [] + m.put.Bytes() == m.put.Bytes();
  }

  // ── Declarations ──────────────────────────────────────────────────────

  /** A key expression or a token, declared with an inline key whose suffix is left out when empty. */
  method EncodeDeclareInline(w: Writer, kind: byte, id: nat, key: seq<byte>) returns (r: Outcome<E>)
    requires w.Valid() && kind < 32 && id < U64 && |key| < U64
    modifies w, w.buf
    ensures w.Valid() && Appended(old(w.Written()), w.Written(), w.buf.Length, DeclareInlineBytes(kind, id, key), r)
  {
    hide VBytes, SliceBytes, Header;
    var h := Header(kind, key != [], false, false);
    ghost var s, suffix := w.Written(), if key != [] then SliceBytes(key) else [];
    assert [DECLARE, h] == [DECLARE] + [h];
    Join2([DECLARE], [h], VBytes(id) + (VBytes(0) + suffix));
    :- w.PutByte(DECLARE);
    :- w.PutByte(h);
    :- EncodeVByte(w, id);
    :- EncodeVByte(w, 0);
    if key != [] {
      :- EncodeSlice(w, key);
    }
    Join5(s, [DECLARE], [h], VBytes(id), VBytes(0), suffix);
    return Pass;
  }

  method EncodeDeclareSubscriber(w: Writer, subId: nat, keyId: nat) returns (r: Outcome<E>)
    requires w.Valid() && subId < U64 && keyId < U64
    modifies w, w.buf
    ensures w.Valid() && Appended(old(w.Written()), w.Written(), w.buf.Length, DeclareSubscriberBytes(subId, keyId), r)
  {
    hide VBytes, Header;
    var h := Header(D_SUBSCRIBER, false, true, false);
    ghost var s := w.Written();
    assert [DECLARE, h] == [DECLARE] + [h];
    Join2([DECLARE], [h], VBytes(subId) + VBytes(keyId));
    :- w.PutByte(DECLARE);
    :- w.PutByte(h);
    :- EncodeVByte(w, subId);
    :- EncodeVByte(w, keyId);
    Join4(s, [DECLARE], [h], VBytes(subId), VBytes(keyId));
    return Pass;
  }

  // ── Request and Query ─────────────────────────────────────────────────

  method EncodeRequestHead(w: Writer, requestId: nat, key: seq<byte>) returns (r: Outcome<E>)
    requires w.Valid() && requestId < U32 && |key| < U64
    modifies w, w.buf
    ensures w.Valid() && Appended(old(w.Written()), w.Written(), w.buf.Length, RequestHead(requestId, key), r)
  {
    hide VBytes, WireExpr.Bytes, Header;
    ghost var s := w.Written();
    :- w.PutByte(Header(REQUEST, true, false, true));
    :- EncodeVByte(w, requestId);
    :- EncodeInlineKey(w, key);
    Join3(s, [Header(REQUEST, true, false, true)], VBytes(requestId), InlineKey(key).Bytes());
    return Pass;
  }

  /** The Query body: an extension announced as `1 + payload` bytes, holding encoding 0 and the payload. */
  method EncodeQueryBody(w: Writer, payload: seq<byte>) returns (r: Outcome<E>)
    requires w.Valid() && |payload| + 1 < U64
    modifies w, w.buf
    ensures w.Valid()
    ensures Appended(old(w.Written()), w.Written(), w.buf.Length, [0xC3] + SliceBytes(VBytes(0) + payload), r)
  {
    assert |VBytes(0)| == 1;
    hide VBytes;
    ghost var s := w.Written();
    :- w.PutByte(0xC3);
    :- EncodeVByte(w, 1 + |payload|);
    :- EncodeVByte(w, 0);
    :- w.PutBytes(payload);
    Join4(s, [0xC3], VBytes(1 + |payload|), VBytes(0), payload);
    return Pass;
  }

  method EncodeRequestQuery(w: Writer, requestId: nat, key: seq<byte>, payload: seq<byte>, seqNum: int, timestamp: int,
          zid: seq<byte>)
    returns (r: Outcome<E>)
    requires w.Valid() && requestId < U32 && |key| < U64 && |payload| + 1 < U64 && |zid| <= 16
    modifies w, w.buf
    ensures w.Valid()
    ensures Appended(old(w.Written()), w.Written(), w.buf.Length,
        RequestBytes(requestId, key, payload, seqNum, timestamp, zid), r)
  {
    ghost var s, body := w.Written(), [0xC3] + SliceBytes(VBytes(0) + payload);
    ghost var att := ExtBytes([ZBufExt(5, false, Attachment(seqNum, timestamp, zid))]);
    RequestParts(requestId, key, payload, seqNum, timestamp, zid);
    var query := Header(QUERY, false, false, true);
    hide VBytes, SliceBytes, ExtBytes, RequestHead, RequestBytes, Attachment, Header;
    :- EncodeRequestHead(w, requestId, key);
    :- w.PutByte(0x24);
    :- EncodeVByte(w, 2);
    :- w.PutByte(query);
    :- EncodeQueryBody(w, payload);
    :- EncodeAttachmentExt(w, 5, seqNum, timestamp, zid);
    Join6(s, RequestHead(requestId, key), [0x24], VBytes(2), [query], body, att);
    return Pass;
  }

  /** The parts of a Request, in the order the encoder writes them. */
  lemma RequestParts(requestId: nat, key: seq<byte>, payload: seq<byte>, seqNum: int, timestamp: int, zid: seq<byte>)
    requires |payload| + 1 < U64 && |zid| <= 16
    ensures RequestBytes(requestId, key, payload, seqNum, timestamp, zid)
         == RequestHead(requestId, key)
            + ([0x24] + (VBytes(2)
               + ([Header(QUERY, false, false, true)]
                  + (([0xC3] + SliceBytes(VBytes(0) + payload))
                     + ExtBytes([ZBufExt(5, false, Attachment(seqNum, timestamp, zid))])))))
  {
    QueryParts(payload, Attachment(seqNum, timestamp, zid));
    SingleExt(TargetExt()[0]);
    var query := [Header(QUERY, false, false, true)] + ExtBytes(QueryExts(payload, seqNum, timestamp, zid));
    hide VBytes, SliceBytes, RequestHead, Attachment, Header, ExtBytes, QueryExts;
    Join2([0x24], VBytes(2), query);
  }

  lemma QueryParts(payload: seq<byte>, att: seq<byte>)
    requires |payload| + 1 < U64 && |att| == 33
    ensures ExtBytes([ZBufExt(3, false, VBytes(0) + payload), ZBufExt(5, false, att)])
         == ([0xC3] + SliceBytes(VBytes(0) + payload)) + ExtBytes([ZBufExt(5, false, att)])
  {
    assert |VBytes(0)| == 1;
    var e, f := ZBufExt(3, false, VBytes(0) + payload), ZBufExt(5, false, att);
    assert [e, f][1..] == [f];
    ZBufParts(3, VBytes(0) + payload, true);
    hide VBytes, SliceBytes, ExtHeader, Ext.Body;
    Join2([0xC3], e.Body(), ExtBytes([f]));
  }

  // ── Sizes ─────────────────────────────────────────────────────────────

  /** What a data Push takes beyond its key and payload is at most 42 bytes, as long as both
      lengths take at most two bytes; the batching estimate allows 64. */
  lemma DataPushSize(key: text, payload: seq<byte>, seqNum: int, timestamp: int, zid: seq<byte>)
    requires |key| < 16384 && |payload| < 16384 && |zid| <= 16
    ensures |key| + |payload| + 40 <= |DataPush(key, payload, seqNum, timestamp, zid).Bytes()| <= |key| + |payload| + 42
  {
    var att := Attachment(seqNum, timestamp, zid);
    DataPushParts(key, payload, seqNum, timestamp, zid);
    SingleExt(ZBufExt(3, false, att));
    ZBufParts(3, att, false);
    VBytesLength(0);
    VBytesLength(33);
    VBytesLength(|key|);
    VBytesLength(|payload|);
    hide VBytes, ExtBytes, Attachment, Header;
  }

  lemma FrameHeaderSize(sn: nat, reliable: bool)
    requires sn < U64
    ensures 2 <= |FrameHeaderBytes(sn, reliable, [])| <= 11
  {
    VBytesLength(sn);
    assert ExtBytes([]) == [];
  }

  lemma DeclareSizes(kind: byte, id: nat, key: seq<byte>, subId: nat, keyId: nat)
    requires kind < 32 && id < U32 && |key| < 16384 && subId < U32 && keyId < U16
    ensures |DeclareInlineBytes(kind, id, key)| <= |key| + 10
    ensures |DeclareSubscriberBytes(subId, keyId)| <= 10
  {
    VBytesLength(id);
    VBytesLength(0);
    VBytesLength(|key|);
    VBytesLength(subId);
    VBytesLength(keyId);
  }

  /** What a request takes beyond its key and payload. */
  lemma RequestSize(requestId: nat, key: seq<byte>, payload: seq<byte>, seqNum: int, timestamp: int, zid: seq<byte>)
    requires requestId < U32 && |key| < 16384 && |payload| + 1 < 16384 && |zid| <= 16
    ensures var b := RequestBytes(requestId, key, payload, seqNum, timestamp, zid);
      |key| + |payload| + 45 <= |b| <= |key| + |payload| + 51
  {
    hide VBytes, ExtBytes, Attachment, Header;
    var att := Attachment(seqNum, timestamp, zid);
    RequestParts(requestId, key, payload, seqNum, timestamp, zid);
    SingleExt(ZBufExt(5, false, att));
    ZBufParts(5, att, false);
    VBytesLength(requestId);
    VBytesLength(0);
    VBytesLength(2);
    VBytesLength(33);
    VBytesLength(|key|);
    VBytesLength(|payload| + 1);
  }
}
