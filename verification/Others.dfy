/** What the decoders do not take: messages of other kinds, and messages that are cut short. */
module OtherMessages {
  import opened Common
  import opened VByte
  import opened Utf8
  import opened Grammar
  import opened Decode
  import opened Completeness

  // ── Other kinds ───────────────────────────────────────────────────────

  /** A Push whose body is not a Put, a Del for example, with any bytes behind the header of that body. */
  function OtherPush(key: WireExpr, exts: seq<Ext>, body: byte, rest: seq<byte>): seq<byte>
    requires key.Valid() && ValidExts(exts)
  {
    [Header(PUSH, key.suffix.Some?, key.mapped, exts != [])] + (key.Bytes() + (ExtBytes(exts) + ([body] + rest)))
  }

  /** It is passed over. */
  lemma OtherPushIsNothing(key: WireExpr, exts: seq<Ext>, body: byte, rest: seq<byte>)
    requires key.Valid() && ValidExts(exts) && body % 32 != 1
    ensures PushPut(OtherPush(key, exts, body, rest)) == Ok(None)
  {
    hide At, ExtBytes, VBytes, SkipIf, WireExprAt, Flag, WireExpr.Bytes, WireExpr.Suffix;
    var b := OtherPush(key, exts, body, rest);
    var k, es := key.Bytes(), ExtBytes(exts);
    AtWhole(b);
    HeadAt(b, 0, Header(PUSH, key.suffix.Some?, key.mapped, exts != []), k + (es + ([body] + rest)));
    AtSplit(b, 1, k, es + ([body] + rest));
    AtSplit(b, 1 + |k|, es, [body] + rest);
    HeadAt(b, 1 + |k| + |es|, body, rest);
    WireExprComplete(b, 1, key);
    ExtsIfAt(b, 1 + |k|, exts);
  }

  /** A Response whose body is not a Reply, an Err for example. */
  function OtherResponse(rid: nat, key: WireExpr, exts: seq<Ext>, body: byte, rest: seq<byte>): seq<byte>
    requires key.Valid() && ValidExts(exts)
  {
    [Header(RESPONSE, key.suffix.Some?, key.mapped, exts != [])]
    + (VBytes(rid) + (key.Bytes() + (ExtBytes(exts) + ([body] + rest))))
  }

  lemma ResponseBody(b: seq<byte>, rid: nat, key: WireExpr, exts: seq<Ext>, tail: seq<byte>) returns (p: nat)
    requires rid < U64 && key.Valid() && ValidExts(exts)
    requires b == [Header(RESPONSE, key.suffix.Some?, key.mapped, exts != [])]
                  + (VBytes(rid) + (key.Bytes() + (ExtBytes(exts) + tail)))
    ensures At(b, p, tail)
    ensures ReplyAt(b, p) == Ok(None) ==> ResponseOf(b) == Ok(None)
    ensures ReplyAt(b, p).Err? ==> ResponseOf(b).Err?
  {
    hide At, ExtBytes, VBytes, SkipIf, WireExprAt, Flag, WireExpr.Bytes, WireExpr.Suffix, ReplyAt, VDecode;
    var r, k, es := VBytes(rid), key.Bytes(), ExtBytes(exts);
    AtWhole(b);
    Parts(b, 0, Header(RESPONSE, key.suffix.Some?, key.mapped, exts != []), r, k, es, tail);
    p := 1 + |r| + |k| + |es|;
    VByteAt(b, 1, rid);
    WireExprComplete(b, 1 + |r|, key);
    ExtsIfAt(b, 1 + |r| + |k|, exts);
  }

  lemma OtherResponseIsNothing(rid: nat, key: WireExpr, exts: seq<Ext>, body: byte, rest: seq<byte>)
    requires rid < U64 && key.Valid() && ValidExts(exts) && body % 32 != 4
    ensures ResponseOf(OtherResponse(rid, key, exts, body, rest)) == Ok(None)
  {
    hide At, ResponseOf, OtherResponse;
    var b := OtherResponse(rid, key, exts, body, rest);
    OtherResponseIs(rid, key, exts, body, rest);
    var p := ResponseBody(b, rid, key, exts, [body] + rest);
    HeadAt(b, p, body, rest);
  }

  lemma OtherResponseIs(rid: nat, key: WireExpr, exts: seq<Ext>, body: byte, rest: seq<byte>)
    requires key.Valid() && ValidExts(exts)
    ensures OtherResponse(rid, key, exts, body, rest)
         == [Header(RESPONSE, key.suffix.Some?, key.mapped, exts != [])]
            + (VBytes(rid) + (key.Bytes() + (ExtBytes(exts) + ([body] + rest))))
  {
  }

  /** A Reply whose body is not a Put. */
  function OtherReply(consolidation: Option<nat>, bit6: bool, exts: seq<Ext>, body: byte, rest: seq<byte>): seq<byte>
    requires ValidExts(exts)
  {
    [Header(REPLY, consolidation.Some?, bit6, exts != [])]
    + (VByteOption(consolidation) + (ExtBytes(exts) + ([body] + rest)))
  }

  lemma OtherReplyIsNothing(rid: nat, key: WireExpr, exts: seq<Ext>, consolidation: Option<nat>, bit6: bool,
          replyExts: seq<Ext>, body: byte, rest: seq<byte>)
    requires rid < U64 && key.Valid() && ValidExts(exts) && ValidExts(replyExts) && body % 32 != 1
    requires consolidation.Some? ==> consolidation.value < U64
    ensures ResponseOf([Header(RESPONSE, key.suffix.Some?, key.mapped, exts != [])]
                       + (VBytes(rid) + (key.Bytes() + (ExtBytes(exts)
                          + OtherReply(consolidation, bit6, replyExts, body, rest))))) == Ok(None)
  {
    hide At, ResponseOf, ExtBytes, VBytes, VByteOption, OtherReply, WireExpr.Bytes, Header, VByteIf, SkipIf, Flag;
    var reply := OtherReply(consolidation, bit6, replyExts, body, rest);
    var b := [Header(RESPONSE, key.suffix.Some?, key.mapped, exts != [])]
             + (VBytes(rid) + (key.Bytes() + (ExtBytes(exts) + reply)));
    var p := ResponseBody(b, rid, key, exts, reply);
    OtherReplyAt(b, p, consolidation, bit6, replyExts, body, rest);
  }

  lemma OtherReplyAt(b: seq<byte>, p: nat, consolidation: Option<nat>, bit6: bool, exts: seq<Ext>, body: byte,
          rest: seq<byte>)
    requires ValidExts(exts) && body % 32 != 1 && (consolidation.Some? ==> consolidation.value < U64)
    requires At(b, p, OtherReply(consolidation, bit6, exts, body, rest))
    ensures ReplyAt(b, p) == Ok(None)
  {
    hide At, ExtBytes, VBytes, VByteIf, SkipIf, Flag, VByteOption;
    var c, es := VByteOption(consolidation), ExtBytes(exts);
    HeadAt(b, p, Header(REPLY, consolidation.Some?, bit6, exts != []), c + (es + ([body] + rest)));
    AtSplit(b, p + 1, c, es + ([body] + rest));
    AtSplit(b, p + 1 + |c|, es, [body] + rest);
    VByteIfAt(b, p + 1, consolidation);
    ExtsIfAt(b, p + 1 + |c|, exts);
    HeadAt(b, p + 1 + |c| + |es|, body, rest);
  }

  /** Anything that begins neither as a Push nor as a Response or ResponseFinal. */
  lemma OtherKinds(b: seq<byte>)
    ensures b == [] || b[0] % 32 != 0x1D ==> PushPut(b) == Ok(None)
    ensures b == [] || (b[0] % 32 != 0x1B && b[0] % 32 != 0x1A) ==> ResponseOf(b) == Ok(None)
  {
  }

  // ── Messages that are cut short ───────────────────────────────────────

  lemma {:induction false} VValueCut(s: seq<byte>, v: nat, k: nat)
    requires k <= 9 && v < Lim(k) && s < VBytes(v)
    ensures VValue(s, k) == Err(InvalidEncoding)
    decreases v
  {
    if s != [] {
      assert s[0] == VBytes(v)[0];
      if v >= 128 {
        assert VBytes(v)[1..] == VBytes(v / 128);
        assert s[1..] < VBytes(v / 128);
        VValueCut(s[1..], v / 128, k + 1);
      }
    }
  }

  lemma VByteCut(b: seq<byte>, p: nat, v: nat)
    requires v < U64 && CutShort(b, p, VBytes(v))
    ensures VDecode(b[p..]) == Err(InvalidEncoding)
  {
    LimValues();
    VValueCut(b[p..], v, 0);
  }

  lemma SliceCut(b: seq<byte>, p: nat, data: seq<byte>)
    requires |data| < U64 && CutShort(b, p, SliceBytes(data))
    ensures SliceDecode(b[p..]) == Err(InvalidEncoding)
  {
    hide VBytes, VDecode;
    CutSplit(b, p, VBytes(|data|), data);
    if CutShort(b, p, VBytes(|data|)) {
      VByteCut(b, p, |data|);
    } else {
      VByteAt(b, p, |data|);
    }
  }

  lemma WireExprCut(b: seq<byte>, p: nat, k: WireExpr)
    requires k.Valid() && CutShort(b, p, k.Bytes())
    ensures WireExprAt(b, p, k.suffix.Some?) == Err(InvalidEncoding)
  {
    hide VBytes, VDecode, SliceBytes, SliceDecode, ValidUtf8, At, CutShort;
    assert p <= |b| by { CutBound(b, p, k.Bytes()); }
    CutSplit(b, p, VBytes(k.scope), if k.suffix.Some? then SliceBytes(k.suffix.value) else []);
    NothingCut(b, p + |VBytes(k.scope)|);
    if CutShort(b, p, VBytes(k.scope)) {
      VByteCut(b, p, k.scope);
    } else {
      VByteAt(b, p, k.scope);
      SliceCut(b, p + |VBytes(k.scope)|, k.suffix.value);
    }
  }

  lemma CutBound(b: seq<byte>, p: nat, d: seq<byte>)
    requires CutShort(b, p, d)
    ensures p <= |b| < p + |d|
  {
  }

  lemma NothingCut(b: seq<byte>, p: nat)
    ensures !CutShort(b, p, [])
  {
  }

  lemma TimestampCut(b: seq<byte>, p: nat, t: Timestamp)
    requires t.Valid() && CutShort(b, p, VBytes(t.time) + SliceBytes(t.id))
    ensures p <= |b| && TimestampAt(b, p) == Err(InvalidEncoding)
  {
    hide VBytes, VDecode;
    CutSplit(b, p, VBytes(t.time), SliceBytes(t.id));
    if CutShort(b, p, VBytes(t.time)) {
      VByteCut(b, p, t.time);
    } else {
      VByteAt(b, p, t.time);
      CutSplit(b, p + |VBytes(t.time)|, VBytes(|t.id|), t.id);
      if CutShort(b, p + |VBytes(t.time)|, VBytes(|t.id|)) {
        VByteCut(b, p + |VBytes(t.time)|, |t.id|);
      } else {
        VByteAt(b, p + |VBytes(t.time)|, |t.id|);
      }
    }
  }

  lemma HeadCut(b: seq<byte>, p: nat, h: byte, rest: seq<byte>)
    requires CutShort(b, p, [h] + rest)
    ensures p == |b| || (p < |b| && b[p] == h && CutShort(b, p + 1, rest))
  {
    CutSplit(b, p, [h], rest);
    if At(b, p, [h]) {
      assert b[p] == b[p..p + 1][0];
    }
  }

  lemma PutCut(b: seq<byte>, p: nat, m: Put)
    requires m.Valid() && m.exts == [] && m.Schema().None? && CutShort(b, p, m.Bytes())
    ensures PutAt(b, p) == Err(InvalidEncoding)
  {
    hide VBytes, VDecode, SliceBytes, SliceDecode, At, CutShort, TimestampAt, VByteIf, SkipIf, Flag, Header;
    hide ExtBytes;
    var ts, number, pay := m.TimestampBytes(), VByteOption(m.EncodingNumber()), SliceBytes(m.payload);
    var h := Header(PUT, m.timestamp.Some?, m.encoding.Some?, false);
    PlainParts(m);
    CutBound(b, p, m.Bytes());
    HeadCut(b, p, h, ts + (number + pay));
    if p < |b| {
      PutTailCut(b, p, m, h);
    }
  }

  lemma PlainParts(m: Put)
    requires m.Valid() && m.exts == [] && m.Schema().None?
    ensures m.Bytes() == [Header(PUT, m.timestamp.Some?, m.encoding.Some?, false)]
                         + (m.TimestampBytes() + (VByteOption(m.EncodingNumber()) + SliceBytes(m.payload)))
    ensures Header(PUT, m.timestamp.Some?, m.encoding.Some?, false) % 32 == PUT
  {
    hide VBytes, SliceBytes;
    assert ExtBytes(m.exts) == [] && m.SchemaBytes() == [];
    var number, pay := VByteOption(m.EncodingNumber()), SliceBytes(m.payload);
    assert (number + []) + ([] + pay) == number + pay;
  }

  lemma PutTailCut(b: seq<byte>, p: nat, m: Put, h: byte)
    requires m.Valid() && p < |b| && b[p] == h == Header(PUT, m.timestamp.Some?, m.encoding.Some?, false)
    requires CutShort(b, p + 1, m.TimestampBytes() + (VByteOption(m.EncodingNumber()) + SliceBytes(m.payload)))
    ensures PutAt(b, p) == Err(InvalidEncoding)
  {
    hide VBytes, VDecode, SliceBytes, SliceDecode, At, CutShort, TimestampAt, Skip;
    var ts, number, pay := m.TimestampBytes(), VByteOption(m.EncodingNumber()), SliceBytes(m.payload);
    NothingCut(b, p + 1);
    NothingCut(b, p + 1 + |ts|);
    CutSplit(b, p + 1, ts, number + pay);
    if CutShort(b, p + 1, ts) {
      TimestampCut(b, p + 1, m.timestamp.value);
    } else {
      if m.timestamp.Some? {
        TimestampComplete(b, p + 1, m.timestamp.value);
      }
      CutBound(b, p + 1 + |ts|, number + pay);
      CutSplit(b, p + 1 + |ts|, number, pay);
      if CutShort(b, p + 1 + |ts|, number) {
        VByteCut(b, p + 1 + |ts|, m.EncodingNumber().value);
      } else {
        VByteIfAt(b, p + 1 + |ts|, m.EncodingNumber());
        CutBound(b, p + 1 + |ts| + |number|, pay);
        SliceCut(b, p + 1 + |ts| + |number|, m.payload);
      }
    }
  }

  /** Every strict prefix of a Push without extensions, but the empty one, is an error. */
  lemma PushCut(m: Push, n: nat)
    requires m.Valid() && m.exts == [] && m.put.exts == [] && m.put.Schema().None? && 0 < n < |m.Bytes()|
    ensures PushPut(m.Bytes()[..n]) == Err(InvalidEncoding)
  {
    hide VBytes, VDecode, SliceBytes, SliceDecode, At, CutShort, Put.Bytes, WireExpr.Bytes, PutAt, WireExprAt, Flag;
    var b := m.Bytes()[..n];
    var key, put := m.key.Bytes(), m.put.Bytes();
    var h := Header(PUSH, m.key.suffix.Some?, m.key.mapped, false);
    assert ExtBytes(m.exts) == [];
    assert [] + put == put;
    assert m.Bytes() == [h] + (key + put);
    PrefixIsCut(m.Bytes(), n);
    HeadCut(b, 0, h, key + put);
    CutSplit(b, 1, key, put);
    if CutShort(b, 1, key) {
      WireExprCut(b, 1, m.key);
    } else {
      WireExprComplete(b, 1, m.key);
      PutCut(b, 1 + |key|, m.put);
    }
  }

  /** The same for a Response without extensions, and for a ResponseFinal. */
  lemma ResponseCut(m: Response, n: nat)
    requires m.Valid() && m.exts == [] && 0 < n < |m.Bytes()|
    requires m.Response? ==> m.replyExts == [] && m.put.exts == [] && m.put.Schema().None?
    ensures ResponseOf(m.Bytes()[..n]) == Err(InvalidEncoding)
  {
    hide VBytes, VDecode, At, CutShort, WireExpr.Bytes, WireExprAt, Flag, Response.ReplyBytes, ReplyAt, Skip;
    var b := m.Bytes()[..n];
    assert ExtBytes(m.exts) == [];
    PrefixIsCut(m.Bytes(), n);
    var rid := VBytes(m.requestId);
    if m.Final? {
      var h := Header(RESPONSE_FINAL, m.bit5, m.bit6, false);
      assert rid + [] == rid;
      HeadCut(b, 0, h, rid);
      VByteCut(b, 1, m.requestId);
    } else {
      var key, reply := m.key.Bytes(), m.ReplyBytes();
      var h := Header(RESPONSE, m.key.suffix.Some?, m.key.mapped, false);
      assert [] + reply == reply;
      HeadCut(b, 0, h, rid + (key + reply));
      ResponseTailCut(b, m, rid, key, reply);
    }
  }

  lemma ResponseTailCut(b: seq<byte>, m: Response, rid: seq<byte>, key: seq<byte>, reply: seq<byte>)
    requires m.Valid() && m.Response? && m.replyExts == [] && m.put.exts == [] && m.put.Schema().None?
    requires b != [] && b[0] == Header(RESPONSE, m.key.suffix.Some?, m.key.mapped, false)
    requires rid == VBytes(m.requestId) && key == m.key.Bytes() && reply == m.ReplyBytes()
    requires CutShort(b, 1, rid + (key + reply))
    ensures ResponseOf(b) == Err(InvalidEncoding)
  {
    hide VBytes, VDecode, At, CutShort, WireExpr.Bytes, WireExprAt, Response.ReplyBytes, ReplyAt, Skip;
    CutSplit(b, 1, rid, key + reply);
    if CutShort(b, 1, rid) {
      VByteCut(b, 1, m.requestId);
    } else {
      VByteAt(b, 1, m.requestId);
      CutSplit(b, 1 + |rid|, key, reply);
      if CutShort(b, 1 + |rid|, key) {
        CutBound(b, 1 + |rid|, key);
        WireExprCut(b, 1 + |rid|, m.key);
      } else {
        WireExprComplete(b, 1 + |rid|, m.key);
        ReplyCut(b, 1 + |rid| + |key|, m);
      }
    }
  }

  lemma ReplyCut(b: seq<byte>, p: nat, m: Response)
    requires m.Valid() && m.Response? && m.replyExts == [] && m.put.exts == [] && m.put.Schema().None?
    requires CutShort(b, p, m.ReplyBytes())
    ensures ReplyAt(b, p) == Err(InvalidEncoding)
  {
    hide VBytes, VDecode, At, CutShort, Put.Bytes, PutAt, Skip;
    var c, put := VByteOption(m.consolidation), m.put.Bytes();
    var h := Header(REPLY, m.consolidation.Some?, m.replyBit6, false);
    assert ExtBytes(m.replyExts) == [];
    assert [] + put == put;
    CutBound(b, p, m.ReplyBytes());
    HeadCut(b, p, h, c + put);
    NothingCut(b, p + 1);
    if p < |b| {
      CutSplit(b, p + 1, c, put);
      if CutShort(b, p + 1, c) {
        VByteCut(b, p + 1, m.consolidation.value);
      } else {
        VByteIfAt(b, p + 1, m.consolidation);
        PutCut(b, p + 1 + |c|, m.put);
      }
    }
  }

  /** A Push whose suffix is not UTF-8 is an error. */
  lemma BadSuffix(scope: nat, mapped: bool, suffix: seq<byte>, rest: seq<byte>)
    requires scope < U64 && |suffix| < U64 && !ValidUtf8(suffix)
    ensures PushPut([Header(PUSH, true, mapped, false)] + (VBytes(scope) + (SliceBytes(suffix) + rest)))
         == Err(InvalidEncoding)
  {
    hide VBytes, VDecode, SliceBytes, SliceDecode, At, ValidUtf8, PutAt, WireExprAt, SkipIf;
    var h := Header(PUSH, true, mapped, false);
    var b := [h] + (VBytes(scope) + (SliceBytes(suffix) + rest));
    AtWhole(b);
    HeadAt(b, 0, h, VBytes(scope) + (SliceBytes(suffix) + rest));
    BadSuffixAt(b, 1, scope, suffix, rest);
  }

  lemma BadSuffixAt(b: seq<byte>, p: nat, scope: nat, suffix: seq<byte>, rest: seq<byte>)
    requires scope < U64 && |suffix| < U64 && !ValidUtf8(suffix)
    requires At(b, p, VBytes(scope) + (SliceBytes(suffix) + rest))
    ensures p <= |b| && WireExprAt(b, p, true) == Err(InvalidEncoding)
  {
    hide VBytes, VDecode, VValue, SliceBytes, SliceDecode, At, ValidUtf8, WireExprAt;
    var n := |VBytes(scope)|;
    AtBound(b, p, VBytes(scope) + (SliceBytes(suffix) + rest));
    AtSplit(b, p, VBytes(scope), SliceBytes(suffix) + rest);
    AtSplit(b, p + n, SliceBytes(suffix), rest);
    VByteAt(b, p, scope);
    SliceAt(b, p + n, suffix);
    BadSuffixStep(b, p, scope, n, suffix);
  }

  lemma BadSuffixStep(b: seq<byte>, p: nat, scope: nat, n: nat, suffix: seq<byte>)
    requires p + n <= |b| && VDecode(b[p..]) == Ok((scope, n))
    requires SliceDecode(b[p + n..]).Ok? && SliceDecode(b[p + n..]).value.0 == suffix && !ValidUtf8(suffix)
    ensures WireExprAt(b, p, true) == Err(InvalidEncoding)
  {
    hide VDecode, SliceDecode, ValidUtf8;
  }

  lemma PrefixIsCut(d: seq<byte>, n: nat)
    requires n < |d|
    ensures CutShort(d[..n], 0, d)
  {
    assert d[..n][0..] == d[..n];
  }
}
