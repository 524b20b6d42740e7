/** The bytes themselves: what the formats look like, in literals, so that no two of the functions above
    can be wrong in the same way. The QoS strings, keys and tokens are those of the library's own tests. */
module Vectors {
  import opened Common
  import opened VByte
  import opened Utf8
  import opened Grammar
  import opened Decode
  import opened Completeness
  import opened Encode
  import opened Names
  import opened Liveliness
  import opened Framing
  import opened Handshakes

  /** The bytes of an ASCII string. */
  function Ascii(s: string): seq<byte>
    requires forall i | 0 <= i < |s| :: s[i] as int < 128
  {
    seq(|s|, i requires 0 <= i < |s| => s[i] as int)
  }

  // ── Numbers ───────────────────────────────────────────────────────────

  /** The number that a string of decimal digits denotes. */
  function NumberOf(s: seq<byte>): int {
    if s == [] then 0 else 10 * NumberOf(s[..|s| - 1]) + (s[|s| - 1] as int - 48)
  }

  lemma {:induction false} DigitsDenote(n: nat)
    ensures NumberOf(Digits(n)) == n
  {
    if n > 0 {
      DigitsDenote(n / 10);
      var s := Digits(n);
      assert s[..|s| - 1] == Digits(n / 10);
    }
  }

  /** A numeral denotes its number, in digits, and does not begin with 0 unless it is "0". */
  lemma DecimalDenotes(n: nat)
    ensures NumberOf(Decimal(n)) == n && forall i | 0 <= i < |Decimal(n)| :: 48 <= Decimal(n)[i] <= 57
    ensures |Decimal(n)| == 1 || (Decimal(n) != [] && Decimal(n)[0] != 48)
  {
    DigitsDenote(n);
    DigitsAreDigits(n);
    if n == 0 {
      assert [ZERO][..0] == [];
      assert NumberOf([ZERO]) == 10 * NumberOf([]) + 0;
    }
  }

  /** Low bytes first, and low groups first. */
  lemma LowFirst()
    ensures Le(4, 0x1234_5678) == [0x78, 0x56, 0x34, 0x12]
    ensures Le(2, 258) == [2, 1]
    ensures VBytes(42) == [42] && VBytes(300) == [0xAC, 0x02] && VBytes(128) == [0x80, 0x01]
    ensures Framed([7, 8, 9]) == [3, 0, 7, 8, 9]
  {
    assert Le(0, 0) == [];
    assert Le(1, 0x12) == [0x12];
    assert Le(2, 0x1234) == [0x34, 0x12];
    assert Le(3, 0x12_3456) == [0x56, 0x34, 0x12];
    assert Le(1, 1) == [1] && Le(1, 0) == [0];
    assert Le(2, 3) == [3, 0];
    assert VBytes(2) == [2] && VBytes(1) == [1];
  }

  // ── Names ─────────────────────────────────────────────────────────────

  lemma SmallNumerals()
    ensures Decimal(0) == [48] && Decimal(1) == [49] && Decimal(5) == [53] && Decimal(10) == [49, 48]
    ensures Decimal(42) == [52, 50]
  {
    assert Digits(0) == [] && Digits(1) == [49] && Digits(4) == [52] && Digits(5) == [53];
    assert Digits(10) == [49, 48] && Digits(42) == [52, 50];
  }

  /** Best effort is 2, transient local is 1, keep-all is 2 with depth 0; a depth of 42 is left out. */
  lemma QosStrings()
    ensures QosString(QOS_DEFAULT) == Ascii("::,10:,:,:,,")
    ensures QosString(Qos(BestEffort, Volatile, KeepLast(5))) == Ascii("2::,5:,:,:,,")
    ensures QosString(Qos(Reliable, TransientLocal, KeepLast(1))) == Ascii(":1:,1:,:,:,,")
    ensures QosString(Qos(Reliable, Volatile, KeepAll)) == Ascii("::2,0:,:,:,,")
    ensures QosString(Qos(Reliable, Volatile, KeepLast(42))) == Ascii("::,:,:,:,,")
  {
    SmallNumerals();
    hide Decimal;
  }

  /** Domain, name, type and hash, in this order, between slashes; one leading slash is dropped. */
  lemma Keys(typeName: text, hash: text, scan: text)
    requires scan == Ascii("scan")
    ensures KeyExpr(Topic(42, scan, typeName, hash)) == Ascii("42/scan/") + typeName + Ascii("/") + hash
    ensures ValidUtf8([SLASH] + scan)
    ensures KeyExpr(Topic(42, [SLASH] + scan, typeName, hash)) == Ascii("42/scan/") + typeName + Ascii("/") + hash
  {
    hide ValidUtf8;
    AsciiIsUtf8([SLASH]);
    Utf8Concat([SLASH], scan);
    SmallNumerals();
    hide Decimal;
    assert ([SLASH] + scan)[1..] == scan;
    var a, b := Ascii("42/scan/"), [52, 50] + [SLASH] + scan + [SLASH];
    assert a == b;
    assert Ascii("/") == [SLASH];
  }

  /** Mangling, and hexadecimal digits in lower case. */
  lemma Mangled()
    ensures Replace(Absolute(Ascii("baker_link/status"))) == Ascii("%baker_link%status")
    ensures Replace(Absolute(Ascii("/my_ns"))) == Ascii("%my_ns") && Replace(Absolute([])) == Ascii("%")
    ensures Replace(Relative(Ascii("node1"))) == Ascii("node1") && Replace(Relative([])) == Ascii("%")
    ensures Hex([0x0A, 0xBC]) == Ascii("0abc")
  {
    hide Replace, Absolute, Relative, Hex, Ascii;
    MangledTopic();
    MangledNames();
    HexVector();
  }

  lemma MangledTopic()
    ensures Replace(Absolute(Ascii("baker_link/status"))) == Ascii("%baker_link%status")
  {
    var a := Ascii("baker_link/status");
    assert Absolute(a) == [SLASH] + a;
  }

  lemma MangledNames()
    ensures Replace(Absolute(Ascii("/my_ns"))) == Ascii("%my_ns") && Replace(Absolute([])) == Ascii("%")
    ensures Replace(Relative(Ascii("node1"))) == Ascii("node1") && Replace(Relative([])) == Ascii("%")
  {
  }

  lemma HexVector()
    ensures Hex([0x0A, 0xBC]) == Ascii("0abc")
  {
    assert Hex([0xBC]) == [0x62, 0x63] + Hex([]);
    assert [0x0A, 0xBC][1..] == [0xBC];
  }

  /** The fields of the token of a test, in their order. */
  lemma TokenVector(hash: seq<byte>)
    requires Free(hash, SLASH) && hash != []
    ensures var e := Entity(0, [0xAA], 0, 1, PublisherEntity, [], Ascii("/my_ns"), Ascii("node1"),
                            Ascii("baker_link/status"), Ascii("T"), hash, QOS_DEFAULT);
      Split(Token(e)) == [Ascii("@ros2_lv"), Ascii("0"), Ascii("aa"), Ascii("0"), Ascii("1"), Ascii("MP"), Ascii("%"),
                          Ascii("%my_ns"), Ascii("node1"), Ascii("%baker_link%status"), Ascii("T"), hash,
                          Ascii("::,10:,:,:,,")]
  {
    hide Token, Split, QosString, Decimal, Replace, Absolute, Relative, Hex, Ascii, Fields;
    var e := Entity(0, [0xAA], 0, 1, PublisherEntity, [], Ascii("/my_ns"), Ascii("node1"),
                    Ascii("baker_link/status"), Ascii("T"), hash, QOS_DEFAULT);
    TokenFields(e);
    QosStrings();
    EntityCodes();
    TokenNumbers();
    Mangled();
    ShortNames(hash);
    FieldsAre(e);
  }

  lemma TokenNumbers()
    ensures Decimal(0) == Ascii("0") && Decimal(1) == Ascii("1") && Hex([0xAA]) == Ascii("aa")
    ensures PREFIX == Ascii("@ros2_lv")
  {
    SmallNumerals();
    hide Decimal;
    assert Hex([0xAA]) == [0x61, 0x61] + Hex([]);
  }

  lemma ShortNames(hash: seq<byte>)
    requires Free(hash, SLASH) && hash != []
    ensures Replace(Relative(hash)) == hash && Replace(Relative(Ascii("T"))) == Ascii("T")
  {
  }

  lemma FieldsAre(e: Entity)
    ensures Fields(e)
         == [PREFIX, Decimal(e.domain), Hex(e.zid), Decimal(e.nodeId), Decimal(e.entityId), e.entityType.Code(),
             Replace(Absolute(e.enclave)), Replace(Absolute(e.namespace)), Replace(Relative(e.node)),
             Replace(Absolute(e.topic)), Replace(Relative(e.typeName)), Replace(Relative(e.typeHash)), QosString(e.qos)]
  {
  }

  lemma EntityCodes()
    ensures PublisherEntity.Code() == Ascii("MP") && SubscriberEntity.Code() == Ascii("MS")
    ensures ServiceServer.Code() == Ascii("SS") && ServiceClient.Code() == Ascii("SC")
  {
  }

  // ── Messages ──────────────────────────────────────────────────────────

  /** What the client says first: identifier 1, version 9, the length of its identifier and the role of a client. */
  lemma HelloBytes(zid: seq<byte>)
    requires 1 <= |zid| <= 16
    ensures Hello(zid) == [0x01, 9, 16 * (|zid| - 1) + 2] + zid
  {
  }

  /** And second: identifier 2, a lease of 10000 milliseconds, number 0 and the cookie. */
  lemma EchoBytes(cookie: seq<byte>)
    requires |cookie| < 128
    ensures Echo(cookie) == [0x02, 0x90, 0x4E, 0x00, |cookie|] + cookie
  {
    assert VBytes(78) == [78] && VBytes(10000) == [0x90, 0x4E] && VBytes(0) == [0] && VBytes(|cookie|) == [|cookie|];
  }

  /** What a router answers: version, role and identifier, batch size and cookie; and its lease and first number. */
  lemma AckBytes()
    ensures InitAckOf([0x61, 9, 0x00, 0xAA, 0x0A, 0x02, 0x01, 2, 0xC1, 0xC2])
         == Ok((InitAck(9, Router, [0xAA], [0xC1, 0xC2], Some(258)), 10))
    ensures OpenAckOf([0x22, 10, 5]) == Ok(((10, 5), 3))
    ensures OpenAckOf([0x62, 10, 5]) == Ok(((10000, 5), 3))
  {
    hide InitAckOf, OpenAckOf;
    InitAckBytes();
    OpenAckVectors();
    InitAckComplete(InitAck(9, Router, [0xAA], [0xC1, 0xC2], Some(258)), 0, 10, [], []);
    OpenAckComplete(false, 10, 5, [], []);
    OpenAckComplete(true, 10, 5, [], []);
  }

  lemma InitAckBytes()
    ensures var ack := InitAck(9, Router, [0xAA], [0xC1, 0xC2], Some(258));
      && ack.Bytes(0, 10, []) == [0x61, 9, 0x00, 0xAA, 0x0A, 0x02, 0x01, 2, 0xC1, 0xC2]
      && ack.Bytes(0, 10, []) + [] == ack.Bytes(0, 10, [])
  {
    hide Le, VBytes, ExtBytes;
    LowFirst();
    OneByte(2);
    NoExts();
  }

  lemma OpenAckVectors()
    ensures OpenAckBytes(false, 10, 5, []) + [] == [0x22, 10, 5] && |VBytes(10)| == |VBytes(5)| == 1
    ensures OpenAckBytes(true, 10, 5, []) + [] == [0x62, 10, 5]
  {
    OneByte(10);
    OneByte(5);
    NoExts();
    hide VBytes, ExtBytes;
  }

  lemma OneByte(n: byte)
    ensures n < 128 ==> VBytes(n) == [n]
  {
  }

  lemma NoExts()
    ensures ExtBytes([]) == []
  {
  }

  lemma Headers()
    ensures FrameHeaderBytes(42, true, []) == [0x25, 42] && FrameHeaderBytes(42, false, []) == [0x05, 42]
    ensures FragmentHeaderBytes(42, true, true, []) == [0x66, 42]
    ensures FragmentHeaderBytes(42, true, false, []) == [0x26, 42]
    ensures KEEP_ALIVE == 4
  {
    assert ExtBytes([]) == [];
    assert VBytes(42) == [42];
  }

  /** A published message with a short key and payload. */
  lemma PushBytes(key: text, payload: seq<byte>, zid: seq<byte>)
    requires |key| < 128 && |payload| < 128 && |zid| <= 16
    ensures DataPush(key, payload, 1, 2, zid).Bytes()
         == [0x3D, 0, |key|] + key + [0x81, 0x43, 33] + [1, 0, 0, 0, 0, 0, 0, 0] + [2, 0, 0, 0, 0, 0, 0, 0] + [16]
            + Gid(zid) + [|payload|] + payload
  {
    hide VBytes, Le, ExtBytes, Push.Bytes, I64Bits;
    var att := Attachment(1, 2, zid);
    OneByte(0);
    OneByte(33);
    OneByte(|key|);
    OneByte(|payload|);
    LeOne(1);
    LeOne(2);
    DataPushParts(key, payload, 1, 2, zid);
    SingleExt(ZBufExt(3, false, att));
    ZBufParts(3, att, false);
    PushJoined(key, payload, [1, 0, 0, 0, 0, 0, 0, 0], [2, 0, 0, 0, 0, 0, 0, 0], Gid(zid));
  }

  lemma PushJoined(key: seq<byte>, payload: seq<byte>, a: seq<byte>, b: seq<byte>, g: seq<byte>)
    requires |key| < 128 && |payload| < 128
    ensures [0x3D]
            + (([0] + ([|key|] + key))
               + ([0x81] + (([0x43] + ([33] + (a + (b + ([16] + g))))) + ([|payload|] + payload))))
         == [0x3D, 0, |key|] + key + [0x81, 0x43, 33] + a + b + [16] + g + [|payload|] + payload
  {
    var p := [|payload|] + payload;
    assert a + (b + ([16] + g)) == a + b + [16] + g;
    assert [0x43] + ([33] + (a + b + [16] + g)) == [0x43, 33] + a + b + [16] + g;
    assert [0x81] + (([0x43, 33] + a + b + [16] + g) + p) == [0x81, 0x43, 33] + a + b + [16] + g + p;
    assert [0x3D] + (([0] + ([|key|] + key)) + ([0x81, 0x43, 33] + a + b + [16] + g + p))
        == [0x3D, 0, |key|] + key + [0x81, 0x43, 33] + a + b + [16] + g + p;
  }

  /** A Push without attachment, with encoding 5 and without one. */
  lemma PlainPushBytes()
    ensures PlainPush([107], 5, [7]).Bytes() == [0x3D, 0, 1, 107, 0x41, 10, 1, 7]
    ensures PlainPush([107], 0, [7]).Bytes() == [0x3D, 0, 1, 107, 0x01, 1, 7]
  {
    hide VBytes, ExtBytes, Push.Bytes;
    OneByte(0);
    OneByte(1);
    OneByte(10);
    PlainPushParts([107], 5, [7]);
    PlainPushParts([107], 0, [7]);
  }

  /** What a router sends: a Push under key id 1, whose Put has a timestamp; and one with an extension on each. */
  lemma PushVectors()
    ensures PushPut([0x1D, 1, 0x21, 5, 2, 0xAA, 0xBB, 1, 7]) == Ok(Some((IncomingPut(1, [], [7]), 9)))
    ensures PushPut([0x9D, 1, 0x21, 5, 0x81, 0x43, 1, 9, 1, 7]) == Ok(Some((IncomingPut(1, [], [7]), 10)))
  {
    hide VBytes, ExtBytes, PushPut, Push.Bytes, Put.Bytes, ReadsBack;
    OneByte(1);
    OneByte(2);
    OneByte(5);
    NoExts();
    var k := WireExpr(false, 1, None);
    var m := Push(k, [], Put(Some(Timestamp(5, [0xAA, 0xBB])), None, [], [7]));
    PutIs(m.put, [5, 2, 0xAA, 0xBB], []);
    PushIs(m, [1], [], [0x21, 5, 2, 0xAA, 0xBB, 1, 7]);
    assert m.Bytes() + [] == [0x1D, 1, 0x21, 5, 2, 0xAA, 0xBB, 1, 7];
    assert m.Bytes() == m.Bytes() + [];
    PushPutComplete(m, []);
    var e, f := Z64Ext(1, 5), ZBufExt(3, false, [9]);
    SingleExt(e);
    SingleExt(f);
    var m' := Push(k, [e], Put(None, None, [f], [7]));
    PutIs(m'.put, [], [0x43, 1, 9]);
    PushIs(m', [1], [0x21, 5], [0x81, 0x43, 1, 9, 1, 7]);
    assert m'.Bytes() + [] == [0x9D, 1, 0x21, 5, 0x81, 0x43, 1, 9, 1, 7];
    assert m'.Bytes() == m'.Bytes() + [];
    PushPutComplete(m', []);
  }

  lemma PutIs(m: Put, ts: seq<byte>, es: seq<byte>)
    requires m.Valid() && m.encoding == None && |m.payload| < 128
    requires ts == m.TimestampBytes() && es == ExtBytes(m.exts)
    ensures m.Bytes() == [Header(PUT, m.timestamp.Some?, false, m.exts != [])] + ts + es + [|m.payload|] + m.payload
  {
    hide ExtBytes;
    OneByte(|m.payload|);
    assert ([] + []) + (es + ([|m.payload|] + m.payload)) == es + [|m.payload|] + m.payload;
    assert ts + (es + [|m.payload|] + m.payload) == ts + es + [|m.payload|] + m.payload;
  }

  lemma PushIs(m: Push, key: seq<byte>, es: seq<byte>, put: seq<byte>)
    requires m.Valid() && m.key.suffix == None
    requires key == VBytes(m.key.scope) && es == ExtBytes(m.exts) && put == m.put.Bytes()
    ensures m.Bytes() + [] == [Header(PUSH, false, m.key.mapped, m.exts != [])] + key + es + put
  {
    hide ExtBytes, VBytes, Put.Bytes;
    assert (key + []) + (es + put) == key + es + put;
  }

  /** Answers to a call: a Reply without and with a consolidation, and the end of the answers. */
  lemma ResponseVectors()
    ensures ResponseOf([0x1B, 7, 1, 0x04, 0x01, 1, 9]) == Ok(Some((Reply(7, 1, [], [9]), 7)))
    ensures ResponseOf([0x1B, 7, 1, 0x24, 3, 0x01, 1, 9]) == Ok(Some((Reply(7, 1, [], [9]), 8)))
    ensures ResponseOf([0x1A, 7]) == Ok(Some((NoMore(7), 2)))
  {
    hide VBytes, ExtBytes, ResponseOf, Response.Bytes, Put.Bytes, ReadsBack;
    OneByte(1);
    OneByte(3);
    OneByte(7);
    NoExts();
    var put := Put(None, None, [], [9]);
    PutIs(put, [], []);
    var m := Response(7, WireExpr(false, 1, None), [], None, false, [], put);
    var m' := Response(7, WireExpr(false, 1, None), [], Some(3), false, [], put);
    var final := Final(7, false, false, []);
    ResponseComplete(m, []);
    ResponseComplete(m', []);
    ResponseComplete(final, []);
    assert m.Bytes() + [] == [0x1B, 7, 1, 0x04, 0x01, 1, 9] by { ResponseIs(m, [7], [1], []); }
    assert m'.Bytes() + [] == [0x1B, 7, 1, 0x24, 3, 0x01, 1, 9] by { ResponseIs(m', [7], [1], [3]); }
    FinalIs(final);
    assert final.Bytes() + [] == [0x1A, 7];
  }

  lemma FinalIs(m: Response)
    requires m.Valid() && m.Final? && m.exts == []
    ensures m.Bytes() == [Header(RESPONSE_FINAL, m.bit5, m.bit6, false)] + VBytes(m.requestId)
  {
    NoExts();
    hide VBytes;
  }

  lemma ResponseIs(m: Response, rid: seq<byte>, key: seq<byte>, c: seq<byte>)
    requires m.Valid() && m.Response? && m.key.suffix == None && m.exts == [] && m.replyExts == []
    requires rid == VBytes(m.requestId) && key == VBytes(m.key.scope) && c == VByteOption(m.consolidation)
    ensures m.Bytes() == [Header(RESPONSE, false, m.key.mapped, false)] + rid + key
                         + [Header(REPLY, m.consolidation.Some?, m.replyBit6, false)] + c + m.put.Bytes()
  {
    NoExts();
    hide VBytes, Put.Bytes, ExtBytes;
    var put, h := m.put.Bytes(), Header(REPLY, m.consolidation.Some?, m.replyBit6, false);
    assert c + ([] + put) == c + put;
    assert rid + ((key + []) + ([] + ([h] + (c + put)))) == rid + key + [h] + c + put;
  }

  lemma LeOne(n: byte)
    ensures Le(8, I64Bits(n)) == [n, 0, 0, 0, 0, 0, 0, 0]
  {
    hide Le, I64Bits;
    LeZero(7);
    assert seq(7, _ => 0) == [0, 0, 0, 0, 0, 0, 0];
    LeStep(n);
  }

  lemma LeStep(n: byte)
    ensures Le(8, I64Bits(n)) == [n] + Le(7, 0)
  {
  }

  lemma {:induction false} LeZero(k: nat)
    ensures Le(k, 0) == seq(k, _ => 0)
  {
    if k > 0 {
      LeZero(k - 1);
    }
  }

  /** A reader of declarations: kind, identifier, and the key reference behind them. */
  function DeclareOf(b: seq<byte>): Result<(nat, nat, nat, seq<byte>), TransportError> {
    if |b| < 2 || b[0] % 32 != 0x1E then Err(InvalidEncoding)
    else
      var (id, n) :- VDecode(b[2..]);
      if 2 + n > |b| then Err(InvalidEncoding)
      else
        var ((scope, suffix), _) :- WireExprAt(b, 2 + n, b[1] / 32 % 2 == 1);
        Ok((b[1] % 32, id, scope, suffix))
  }

  /** A declaration announces its kind and its identifier, and then the key in full. */
  lemma DeclareRead(kind: byte, id: nat, key: text)
    requires kind < 32 && id < U64 && |key| < U64
    ensures DeclareOf(DeclareInlineBytes(kind, id, key)) == Ok((kind as nat, id, 0, key))
  {
    hide VBytes, SliceBytes, At, VDecode, ValidUtf8, WireExprAt;
    var b := DeclareInlineBytes(kind, id, key);
    var k := WireExpr(false, 0, if key != [] then Some(key) else None);
    assert b == [DECLARE, Header(kind, key != [], false, false)] + (VBytes(id) + k.Bytes());
    DeclareParts(b, Header(kind, key != [], false, false), VBytes(id), k.Bytes());
    assert Utf8.ValidUtf8(key);
    VByteAt(b, 2, id);
    WireExprComplete(b, 2 + |VBytes(id)|, k);
  }

  /** A subscriber is declared under a key id that this side declared. */
  lemma SubscriberRead(subId: nat, keyId: nat)
    requires subId < U64 && keyId < U64
    ensures DeclareOf(DeclareSubscriberBytes(subId, keyId)) == Ok((2, subId, keyId, []))
    ensures DeclareSubscriberBytes(subId, keyId)[1] / 64 % 2 == 1
  {
    hide VBytes, SliceBytes, At, VDecode, WireExprAt;
    var b := DeclareSubscriberBytes(subId, keyId);
    var k := WireExpr(true, keyId, None);
    assert k.Bytes() == VBytes(keyId) + [];
    assert VBytes(keyId) + [] == VBytes(keyId);
    DeclareParts(b, Header(D_SUBSCRIBER, false, true, false), VBytes(subId), k.Bytes());
    VByteAt(b, 2, subId);
    WireExprComplete(b, 2 + |VBytes(subId)|, k);
  }

  lemma DeclareParts(b: seq<byte>, h: byte, id: seq<byte>, key: seq<byte>)
    requires b == [DECLARE, h] + (id + key)
    ensures |b| >= 2 && b[0] == DECLARE && b[1] == h && At(b, 2, id) && At(b, 2 + |id|, key)
  {
    AtWhole(b);
    AtSplit(b, 0, [DECLARE, h], id + key);
    AtSplit(b, 2, id, key);
  }

  /** Declarations of a key, a token and a subscriber have kinds 0, 6 and 2. */
  lemma Kinds()
    ensures D_KEYEXPR == 0 && D_TOKEN == 6 && D_SUBSCRIBER == 2
  {
  }
}
