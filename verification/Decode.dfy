/** The decoders of received messages: a specification of each as a function of
    the bytes, the cursor loops that compute it, and the proof that every message
    of the grammar is read back whatever bytes follow it. */
module Decode {
  import opened Common
  import opened VByte
  import opened Utf8
  import opened Grammar

  type E = TransportError

  // ── Specification ─────────────────────────────────────────────────────

  function SliceDecode(s: seq<byte>): (r: Result<(seq<byte>, nat), E>)
    ensures r.Ok? ==> |r.value.0| <= r.value.1 <= |s|
  {
    var (len, n) :- VDecode(s);
    if n + len > |s| then Err(InvalidEncoding) else Ok((s[n..n + len], n + len))
  }

  function SkipBody(b: seq<byte>, pos: nat, ext: byte): (r: Result<nat, E>)
    requires pos <= |b|
    ensures r.Ok? ==> pos <= r.value <= |b|
  {
    if ext / 32 % 4 == 0 then Ok(pos)
    else if ext / 32 % 4 == 1 then
      var (_, n) :- VDecode(b[pos..]);
      Ok(pos + n)
    else
      var (_, n) :- SliceDecode(b[pos..]);
      Ok(pos + n)
  }

  /** Position after the chain of extensions at `pos`. A chain cut off at the end of the
      buffer right after an extension is accepted. */
  function Skip(b: seq<byte>, pos: nat): (r: Result<nat, E>)
    ensures r.Ok? && pos <= |b| ==> pos <= r.value <= |b|
    decreases |b| - pos
  {
    if pos >= |b| then Ok(pos)
    else
      var next :- SkipBody(b, pos + 1, b[pos]);
      if Flag(b[pos], 128) then Skip(b, next) else Ok(next)
  }

  function SkipIf(present: bool, b: seq<byte>, pos: nat): (r: Result<nat, E>)
    ensures r.Ok? && pos <= |b| ==> pos <= r.value <= |b|
  {
    if present then Skip(b, pos) else Ok(pos)
  }

  /** Scope and, when named, suffix; with the position after them. */
  function WireExprAt(b: seq<byte>, pos: nat, named: bool): (r: Result<((nat, seq<byte>), nat), E>)
    requires pos <= |b|
    ensures r.Ok? ==> pos < r.value.1 <= |b|
  {
    var (scope, n) :- VDecode(b[pos..]);
    if !named then Ok(((scope, []), pos + n))
    else
      var (suffix, m) :- SliceDecode(b[pos + n..]);
      if ValidUtf8(suffix) then Ok(((scope, suffix), pos + n + m)) else Err(InvalidEncoding)
  }

  function TimestampAt(b: seq<byte>, pos: nat): (r: Result<nat, E>)
    requires pos <= |b|
    ensures r.Ok? ==> pos < r.value <= |b|
  {
    var (_, n) :- VDecode(b[pos..]);
    var (size, m) :- VDecode(b[pos + n..]);
    if pos + n + m + size > |b| then Err(InvalidEncoding) else Ok(pos + n + m + size)
  }

  function VByteIf(present: bool, b: seq<byte>, pos: nat): (r: Result<nat, E>)
    requires pos <= |b|
    ensures r.Ok? ==> pos <= r.value <= |b|
  {
    if !present then Ok(pos)
    else
      var (_, n) :- VDecode(b[pos..]);
      Ok(pos + n)
  }

  /** The body of a Push or a Reply: the payload and the position after it, or nothing if it is not a Put. */
  function PutAt(b: seq<byte>, pos: nat): (r: Result<Option<(seq<byte>, nat)>, E>)
    ensures r.Ok? && r.value.Some? ==> pos < r.value.value.1 <= |b|
  {
    if pos >= |b| then Err(InvalidEncoding)
    else if b[pos] % 32 != PUT then Ok(None)
    else
      var h := b[pos];
      var p1 :- if Flag(h, 32) then TimestampAt(b, pos + 1) else Ok(pos + 1);
      var p2 :- VByteIf(Flag(h, 64), b, p1);
      var p3 :- SkipIf(Flag(h, 128), b, p2);
      var (payload, n) :- SliceDecode(b[p3..]);
      Ok(Some((payload, p3 + n)))
  }

  datatype IncomingPut = IncomingPut(scope: nat, suffix: seq<byte>, payload: seq<byte>)

  function PushPut(b: seq<byte>): (r: Result<Option<(IncomingPut, nat)>, E>)
    ensures r.Ok? && r.value.Some? ==> 0 < r.value.value.1 <= |b|
  {
    if b == [] || b[0] % 32 != PUSH then Ok(None)
    else
      var (key, p1) :- WireExprAt(b, 1, Flag(b[0], 32));
      var p2 :- SkipIf(Flag(b[0], 128), b, p1);
      var put :- PutAt(b, p2);
      match put
      case None => Ok(None)
      case Some((payload, end)) => Ok(Some((IncomingPut(key.0, key.1, payload), end)))
  }

  /** The body of a Response: a Reply, whose own body is a Put. */
  function ReplyAt(b: seq<byte>, pos: nat): (r: Result<Option<(seq<byte>, nat)>, E>)
    ensures r.Ok? && r.value.Some? ==> pos < r.value.value.1 <= |b|
  {
    if pos >= |b| then Err(InvalidEncoding)
    else if b[pos] % 32 != REPLY then Ok(None)
    else
      var p3 :- VByteIf(Flag(b[pos], 32), b, pos + 1);
      var p4 :- SkipIf(Flag(b[pos], 128), b, p3);
      PutAt(b, p4)
  }

  datatype ResponseMsg =
    | Reply(requestId: nat, scope: nat, suffix: seq<byte>, payload: seq<byte>)
    | NoMore(requestId: nat)

  /** `request_id as u32` keeps the low 32 bits. */
  function ResponseOf(b: seq<byte>): (r: Result<Option<(ResponseMsg, nat)>, E>)
    ensures r.Ok? && r.value.Some? ==> 0 < r.value.value.1 <= |b|
  {
    if b == [] then Ok(None)
    else if b[0] % 32 == RESPONSE_FINAL then
      var (rid, n) :- VDecode(b[1..]);
      var end :- SkipIf(Flag(b[0], 128), b, 1 + n);
      Ok(Some((NoMore(rid % U32), end)))
    else if b[0] % 32 != RESPONSE then Ok(None)
    else
      var (rid, n) :- VDecode(b[1..]);
      var (key, p1) :- WireExprAt(b, 1 + n, Flag(b[0], 32));
      var p2 :- SkipIf(Flag(b[0], 128), b, p1);
      var reply :- ReplyAt(b, p2);
      match reply
      case None => Ok(None)
      case Some((payload, end)) => Ok(Some((Reply(rid % U32, key.0, key.1, payload), end)))
  }

  /** Sequence number, reliability and position of the body. */
  function FrameHeader(b: seq<byte>): (r: Result<(nat, bool, nat), E>)
    ensures r.Ok? ==> r.value.2 <= |b|
  {
    if b == [] || b[0] % 32 != FRAME then Err(InvalidEncoding)
    else
      var (sn, n) :- VDecode(b[1..]);
      var pos :- SkipIf(Flag(b[0], 128), b, 1 + n);
      Ok((sn, Flag(b[0], 32), pos))
  }

  /** Sequence number, reliability, more-flag and position of the body. */
  function FragmentHeader(b: seq<byte>): (r: Result<(nat, bool, bool, nat), E>)
    ensures r.Ok? ==> r.value.3 <= |b|
  {
    if b == [] || b[0] % 32 != FRAGMENT then Err(InvalidEncoding)
    else
      var (sn, n) :- VDecode(b[1..]);
      var pos :- SkipIf(Flag(b[0], 128), b, 1 + n);
      Ok((sn, Flag(b[0], 32), Flag(b[0], 64), pos))
  }

  // ── The decoders ──────────────────────────────────────────────────────

  method DecodeSlice(buf: seq<byte>) returns (r: Result<(seq<byte>, nat), E>)
    ensures r == SliceDecode(buf)
  {
    var x :- DecodeVByte(buf);
    var (len, hdr) := x;
    if hdr + len > |buf| {
      return Err(InvalidEncoding);
    }
    return Ok((buf[hdr..hdr + len], hdr + len));
  }

  method SkipExtensions(buf: seq<byte>, start: nat) returns (r: Result<nat, E>)
    requires start <= |buf|
    ensures r == Skip(buf, start)
  {
    hide SliceDecode, VDecode, Flag;
    var pos := start;
    while pos < |buf|
      invariant start <= pos <= |buf|
      invariant Skip(buf, start) == Skip(buf, pos)
      decreases |buf| - pos
    {
      var ext := buf[pos];
      pos := pos + 1;
      var encoding := ext / 32 % 4;
      if encoding == 1 {
        var x :- DecodeVByte(buf[pos..]);
        pos := pos + x.1;
      } else if encoding == 2 || encoding == 3 {
        var x :- DecodeSlice(buf[pos..]);
        pos := pos + x.1;
      }
      if !Flag(ext, 128) {
        return Ok(pos);
      }
    }
    return Ok(pos);
  }

  /** Timestamp: a VByte time, then a VByte-counted identifier. */
  method SkipTimestamp(buf: seq<byte>, start: nat) returns (r: Result<nat, E>)
    requires start <= |buf|
    ensures r == TimestampAt(buf, start)
  {
    var pos := start;
    var time :- DecodeVByte(buf[pos..]);
    pos := pos + time.1;
    var size :- DecodeVByte(buf[pos..]);
    pos := pos + size.1;
    if pos + size.0 > |buf| {
      return Err(InvalidEncoding);
    }
    return Ok(pos + size.0);
  }

  /** The body shared by a Push and a Reply, read from the cursor `start`. */
  method DecodePut(buf: seq<byte>, start: nat) returns (r: Result<Option<(seq<byte>, nat)>, E>)
    ensures r == PutAt(buf, start)
  {
    hide TimestampAt, Skip, SliceDecode, VDecode, Flag;
    var pos := start;
    if pos >= |buf| {
      return Err(InvalidEncoding);
    }
    var h := buf[pos];
    pos := pos + 1;
    if h % 32 != PUT {
      return Ok(None);
    }
    if Flag(h, 32) {
      pos :- SkipTimestamp(buf, pos);
    }
    if Flag(h, 64) {
      var enc :- DecodeVByte(buf[pos..]);
      pos := pos + enc.1;
    }
    if Flag(h, 128) {
      pos :- SkipExtensions(buf, pos);
    }
    var payload :- DecodeSlice(buf[pos..]);
    return Ok(Some((payload.0, pos + payload.1)));
  }

  method DecodeWireExpr(buf: seq<byte>, start: nat, named: bool) returns (r: Result<((nat, seq<byte>), nat), E>)
    requires start <= |buf|
    ensures r == WireExprAt(buf, start, named)
  {
    var pos := start;
    var scope :- DecodeVByte(buf[pos..]);
    pos := pos + scope.1;
    var suffix := [];
    if named {
      var x :- DecodeSlice(buf[pos..]);
      pos := pos + x.1;
      if !ValidUtf8(x.0) {
        return Err(InvalidEncoding);
      }
      suffix := x.0;
    }
    return Ok(((scope.0, suffix), pos));
  }

  method DecodePushPut(buf: seq<byte>) returns (r: Result<Option<(IncomingPut, nat)>, E>)
    ensures r == PushPut(buf)
  {
    if |buf| == 0 {
      return Ok(None);
    }
    var h := buf[0];
    if h % 32 != PUSH {
      return Ok(None);
    }
    var key :- DecodeWireExpr(buf, 1, Flag(h, 32));
    var pos := key.1;
    if Flag(h, 128) {
      pos :- SkipExtensions(buf, pos);
    }
    var put :- DecodePut(buf, pos);
    match put {
      case None =>
        return Ok(None);
      case Some(p) =>
        return Ok(Some((IncomingPut(key.0.0, key.0.1, p.0), p.1)));
    }
  }

  method DecodeReply(buf: seq<byte>, start: nat) returns (r: Result<Option<(seq<byte>, nat)>, E>)
    ensures r == ReplyAt(buf, start)
  {
    var pos := start;
    if pos >= |buf| {
      return Err(InvalidEncoding);
    }
    var h := buf[pos];
    pos := pos + 1;
    if h % 32 != REPLY {
      return Ok(None);
    }
    if Flag(h, 32) {
      var c :- DecodeVByte(buf[pos..]);
      pos := pos + c.1;
    }
    if Flag(h, 128) {
      pos :- SkipExtensions(buf, pos);
    }
    r := DecodePut(buf, pos);
  }

  method DecodeResponse(buf: seq<byte>) returns (r: Result<Option<(ResponseMsg, nat)>, E>)
    ensures r == ResponseOf(buf)
  {
    if |buf| == 0 {
      return Ok(None);
    }
    var h := buf[0];
    var pos := 1;
    if h % 32 == RESPONSE_FINAL {
      var rid :- DecodeVByte(buf[pos..]);
      pos := pos + rid.1;
      if Flag(h, 128) {
        pos :- SkipExtensions(buf, pos);
      }
      return Ok(Some((NoMore(rid.0 % U32), pos)));
    }
    if h % 32 != RESPONSE {
      return Ok(None);
    }
    var rid :- DecodeVByte(buf[pos..]);
    pos := pos + rid.1;
    var key :- DecodeWireExpr(buf, pos, Flag(h, 32));
    pos := key.1;
    if Flag(h, 128) {
      pos :- SkipExtensions(buf, pos);
    }
    var put :- DecodeReply(buf, pos);
    match put {
      case None =>
        return Ok(None);
      case Some(p) =>
        return Ok(Some((Reply(rid.0 % U32, key.0.0, key.0.1, p.0), p.1)));
    }
  }

  method DecodeFrameHeader(buf: seq<byte>) returns (r: Result<(nat, bool, nat), E>)
    ensures r == FrameHeader(buf)
  {
    if |buf| == 0 || buf[0] % 32 != FRAME {
      return Err(InvalidEncoding);
    }
    var sn :- DecodeVByte(buf[1..]);
    var pos := 1 + sn.1;
    if Flag(buf[0], 128) {
      pos :- SkipExtensions(buf, pos);
    }
    return Ok((sn.0, Flag(buf[0], 32), pos));
  }

  method DecodeFragmentHeader(buf: seq<byte>) returns (r: Result<(nat, bool, bool, nat), E>)
    ensures r == FragmentHeader(buf)
  {
    if |buf| == 0 || buf[0] % 32 != FRAGMENT {
      return Err(InvalidEncoding);
    }
    var sn :- DecodeVByte(buf[1..]);
    var pos := 1 + sn.1;
    if Flag(buf[0], 128) {
      pos :- SkipExtensions(buf, pos);
    }
    return Ok((sn.0, Flag(buf[0], 32), Flag(buf[0], 64), pos));
  }
}
