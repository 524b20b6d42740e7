/** Opening a session: InitSyn, InitAck, OpenSyn, OpenAck. */
module Handshakes {
  import opened Common
  import opened Writing
  import opened VByte
  import opened Grammar
  import opened Decode
  import opened Completeness
  import opened Encode
  import opened Framing

  type E = TransportError

  const PROTO_VERSION: byte := 9
  const DEFAULT_LEASE_MS: nat := 10000
  const MAX_COOKIE: nat := 256

  // ── Messages ──────────────────────────────────────────────────────────

  datatype WhatAmI = Router | Peer | Client {
    function Code(): (c: byte)
      ensures c < 3
    {
      match this
      case Router => 0
      case Peer => 1
      case Client => 2
    }
  }

  function WhatAmIOf(code: nat): Option<WhatAmI> {
    if code == 0 then Some(Router) else if code == 1 then Some(Peer) else if code == 2 then Some(Client) else None
  }

  /** An identifier of 1 to 16 bytes and the role, packed into one byte; two bits are not used. */
  function ZidFlags(zid: seq<byte>, whatami: WhatAmI, unused: nat): (f: byte)
    requires 1 <= |zid| <= 16 && unused < 4
    ensures f / 16 + 1 == |zid| && f % 4 == whatami.Code()
  {
    16 * (|zid| - 1) + 4 * unused + whatami.Code()
  }

  function InitSynBytes(version: byte, whatami: WhatAmI, zid: seq<byte>, batchSize: Option<nat>): seq<byte>
    requires 1 <= |zid| <= 16
  {
    [Header(INIT, false, batchSize.Some?, false)]
      + ([version] + ([ZidFlags(zid, whatami, 0)] + (zid + BatchBytes(0, batchSize))))
  }

  /** Resolution and batch size, when there is one. */
  function BatchBytes(resolution: byte, batchSize: Option<nat>): seq<byte> {
    if batchSize.Some? then [resolution] + Le(2, batchSize.value) else []
  }

  datatype InitAck = InitAck(version: byte, whatami: WhatAmI, zid: seq<byte>, cookie: seq<byte>,
                             batchSize: Option<nat>) {
    predicate Valid() {
      1 <= |zid| <= 16 && |cookie| < U64 && (batchSize.Some? ==> batchSize.value < U16)
    }

    /** On the wire, with whatever the receiver does not look at. */
    function Bytes(unused: nat, resolution: byte, exts: seq<Ext>): seq<byte>
      requires Valid() && ValidExts(exts) && unused < 4
    {
      [Header(INIT, true, batchSize.Some?, exts != [])]
      + ([version]
         + ([ZidFlags(zid, whatami, unused)]
            + (zid + (BatchBytes(resolution, batchSize) + (SliceBytes(cookie) + ExtBytes(exts))))))
    }
  }

  function OpenSynBytes(lease: nat, initialSn: nat, cookie: seq<byte>): seq<byte> {
    [OPEN] + (VBytes(lease) + (VBytes(initialSn) + SliceBytes(cookie)))
  }

  /** The lease counts seconds or milliseconds. */
  function OpenAckBytes(seconds: bool, lease: nat, initialSn: nat, exts: seq<Ext>): seq<byte>
    requires ValidExts(exts)
  {
    [Header(OPEN, true, seconds, exts != [])] + (VBytes(lease) + (VBytes(initialSn) + ExtBytes(exts)))
  }

  // ── Decoders ──────────────────────────────────────────────────────────

  function BatchAt(present: bool, b: seq<byte>, pos: nat): (r: Result<(Option<nat>, nat), E>)
    ensures r.Ok? && pos <= |b| ==> pos <= r.value.1 <= |b|
  {
    if !present then Ok((None, pos))
    else if pos + 3 > |b| then Err(InvalidEncoding)
    else Ok((Some(LeValue(b[pos + 1..pos + 3])), pos + 3))
  }

  function InitAckOf(b: seq<byte>): (r: Result<(InitAck, nat), E>)
    ensures r.Ok? ==> r.value.0.Valid() && |r.value.0.cookie| <= MAX_COOKIE
  {
    if b == [] || b[0] % 32 != INIT || !Flag(b[0], 32) || |b| < 3 then Err(InvalidEncoding)
    else if WhatAmIOf(b[2] % 4).None? || 3 + (b[2] / 16 + 1) > |b| then Err(InvalidEncoding)
    else
      var p1 := 3 + (b[2] / 16 + 1);
      var (batch, p2) :- BatchAt(Flag(b[0], 64), b, p1);
      var (cookie, n) :- SliceDecode(b[p2..]);
      if |cookie| > MAX_COOKIE then Err(FrameTooLarge)
      else
        var end :- SkipIf(Flag(b[0], 128), b, p2 + n);
        BatchBound(b, p1);
        Ok((InitAck(b[1], WhatAmIOf(b[2] % 4).value, b[3..p1], cookie, batch), end))
  }

  lemma BatchBound(b: seq<byte>, p: nat)
    requires p <= |b|
    ensures p + 3 <= |b| ==> LeValue(b[p + 1..p + 3]) < U16
  {
    if p + 3 <= |b| {
      LeValueBound(b[p + 1..p + 3]);
      Pow256Values();
    }
  }

  /** Lease in milliseconds, the router's first sequence number, and where it ends. */
  function OpenAckOf(b: seq<byte>): Result<((nat, nat), nat), E> {
    if b == [] || b[0] % 32 != OPEN || !Flag(b[0], 32) then Err(InvalidEncoding)
    else
      var (lease, m) :- VDecode(b[1..]);
      var (sn, n) :- VDecode(b[1 + m..]);
      Ok(((if Flag(b[0], 64) then lease * 1000 else lease, sn), 1 + m + n))
  }

  method DecodeInitAck(buf: seq<byte>) returns (r: Result<(InitAck, nat), E>)
    ensures r == InitAckOf(buf)
  {
    hide SliceDecode, Skip, Flag, LeValue;
    var pos := 0;
    if |buf| == 0 {
      return Err(InvalidEncoding);
    }
    var header := buf[pos];
    pos := pos + 1;
    if header % 32 != INIT || !Flag(header, 32) || pos >= |buf| {
      return Err(InvalidEncoding);
    }
    var version := buf[pos];
    pos := pos + 1;
    if pos >= |buf| {
      return Err(InvalidEncoding);
    }
    var flags := buf[pos];
    pos := pos + 1;
    var whatami := WhatAmIOf(flags % 4);
    var zidLen := flags / 16 + 1;
    if whatami.None? || pos + zidLen > |buf| {
      return Err(InvalidEncoding);
    }
    var zid := buf[pos..pos + zidLen];
    pos := pos + zidLen;
    var batchSize := None;
    if Flag(header, 64) {
      if pos + 3 > |buf| {
        return Err(InvalidEncoding);
      }
      batchSize := Some(LeValue(buf[pos + 1..pos + 3]));
      pos := pos + 3;
    }
    var cookie :- DecodeSlice(buf[pos..]);
    pos := pos + cookie.1;
    if |cookie.0| > MAX_COOKIE {
      return Err(FrameTooLarge);
    }
    if Flag(header, 128) {
      pos :- SkipExtensions(buf, pos);
    }
    return Ok((InitAck(version, whatami.value, zid, cookie.0, batchSize), pos));
  }

  method DecodeOpenAck(buf: seq<byte>) returns (r: Result<((nat, nat), nat), E>)
    ensures r == OpenAckOf(buf)
  {
    if |buf| == 0 || buf[0] % 32 != OPEN || !Flag(buf[0], 32) {
      return Err(InvalidEncoding);
    }
    var lease :- DecodeVByte(buf[1..]);
    var sn :- DecodeVByte(buf[1 + lease.1..]);
    return Ok(((if Flag(buf[0], 64) then lease.0 * 1000 else lease.0, sn.0), 1 + lease.1 + sn.1));
  }

  // ── Encoders ──────────────────────────────────────────────────────────

  method EncodeInitSyn(w: Writer, version: byte, whatami: WhatAmI, zid: seq<byte>, batchSize: Option<nat>)
    returns (r: Outcome<E>)
    requires w.Valid() && 1 <= |zid| <= 16
    modifies w, w.buf
    ensures w.Valid()
    ensures Appended(old(w.Written()), w.Written(), w.buf.Length, InitSynBytes(version, whatami, zid, batchSize), r)
  {
    hide Header, Le, ZidFlags;
    var h, flags := Header(INIT, false, batchSize.Some?, false), ZidFlags(zid, whatami, 0);
    ghost var s := w.Written();
    :- w.PutByte(h);
    :- w.PutByte(version);
    :- w.PutByte(flags);
    :- w.PutBytes(zid);
    if batchSize.Some? {
      :- w.PutBytes([0] + Le(2, batchSize.value));
    }
    Join5(s, [h], [version], [flags], zid, BatchBytes(0, batchSize));
    return Pass;
  }

  method EncodeOpenSyn(w: Writer, lease: nat, initialSn: nat, cookie: seq<byte>) returns (r: Outcome<E>)
    requires w.Valid() && lease < U64 && initialSn < U64 && |cookie| < U64
    modifies w, w.buf
    ensures w.Valid()
    ensures Appended(old(w.Written()), w.Written(), w.buf.Length, OpenSynBytes(lease, initialSn, cookie), r)
  {
    hide VBytes, SliceBytes;
    ghost var s := w.Written();
    :- w.PutByte(OPEN);
    :- EncodeVByte(w, lease);
    :- EncodeVByte(w, initialSn);
    :- EncodeSlice(w, cookie);
    Join4(s, [OPEN], VBytes(lease), VBytes(initialSn), SliceBytes(cookie));
    return Pass;
  }

  // ── The client ────────────────────────────────────────────────────────

  datatype Session = Session(routerZid: seq<byte>, leaseMs: nat, ourLeaseMs: nat, initialSn: nat, routerInitialSn: nat)

  /** The messages the client sends. */
  function Hello(zid: seq<byte>): seq<byte>
    requires 1 <= |zid| <= 16
  {
    InitSynBytes(PROTO_VERSION, Client, zid, None)
  }

  function Echo(cookie: seq<byte>): seq<byte> {
    OpenSynBytes(DEFAULT_LEASE_MS, 0, cookie)
  }

  /** The handshake on a stream of what the router says: what the client sends, and how it ends. */
  function Handshake(zid: seq<byte>, stream: seq<byte>, budget: nat, txCap: nat,
          rxCap: nat): (seq<seq<byte>>, Result<Session, E>)
    requires 1 <= |zid| <= 16
  {
    if |Hello(zid)| > txCap then ([], Err(FrameTooLarge))
    else if budget == 0 then ([], Err(Io))
    else
      match ReadOne(stream, rxCap)
      case Err(e) => ([Hello(zid)], Err(e))
      case Ok((first, rest)) =>
        match InitAckOf(first)
        case Err(e) => ([Hello(zid)], Err(e))
        case Ok((ack, _)) =>
          if ack.version != PROTO_VERSION then ([Hello(zid)], Err(VersionMismatch))
          else if |Echo(ack.cookie)| > txCap then ([Hello(zid)], Err(FrameTooLarge))
          else if budget == 1 then ([Hello(zid)], Err(Io))
          else ([Hello(zid), Echo(ack.cookie)], Opened(ack, rest, rxCap))
  }

  function Opened(ack: InitAck, stream: seq<byte>, rxCap: nat): Result<Session, E> {
    var (second, _) :- ReadOne(stream, rxCap);
    var ((lease, sn), _) :- OpenAckOf(second);
    Ok(Session(ack.zid, lease, DEFAULT_LEASE_MS, 0, sn))
  }

  lemma HelloSize(zid: seq<byte>)
    requires 1 <= |zid| <= 16
    ensures |Hello(zid)| == 3 + |zid| && Hello(zid)[0] % 32 == INIT
  {
  }

  /** For a cookie that the client accepts, OpenSyn takes at most 262 bytes. */
  lemma EchoSize(cookie: seq<byte>)
    requires |cookie| <= MAX_COOKIE
    ensures |Echo(cookie)| <= 262 && Echo(cookie)[0] % 32 == OPEN
  {
    VBytesLength(DEFAULT_LEASE_MS);
    VBytesLength(0);
    VBytesLength(|cookie|);
  }

  method ClientHandshake(link: Link, zid: seq<byte>, tx: array<byte>, rx: array<byte>) returns (r: Result<Session, E>)
    requires link.Valid() && 1 <= |zid| <= 16 && tx != rx && tx.Length < U16
    modifies link, tx, rx
    ensures link.Valid()
    ensures (link.sent, r)
        == (old(link.sent) + Handshake(zid, old(link.input), old(link.budget), tx.Length, rx.Length).0,
                               Handshake(zid, old(link.input), old(link.budget), tx.Length, rx.Length).1)
  {
    hide InitSynBytes, OpenSynBytes, InitAckOf, OpenAckOf, ReadOne, Stream;
    ghost var sent := link.sent;
    assert sent + [] == sent;
    var w := new Writer(tx);
    var x := EncodeInitSyn(w, PROTO_VERSION, Client, zid, None);
    if x.Fail? {
      return Err(x.error);
    }
    assert [] + Hello(zid) == Hello(zid);
    x := link.WriteFrame(w.Written());
    if x.Fail? {
      return Err(x.error);
    }
    var n :- link.ReadFrame(rx);
    var ack :- DecodeInitAck(rx[..n]);
    if ack.0.version != PROTO_VERSION {
      return Err(VersionMismatch);
    }
    w.Restart();
    x := EncodeOpenSyn(w, DEFAULT_LEASE_MS, 0, ack.0.cookie);
    if x.Fail? {
      return Err(x.error);
    }
    assert [] + Echo(ack.0.cookie) == Echo(ack.0.cookie);
    x := link.WriteFrame(w.Written());
    if x.Fail? {
      return Err(x.error);
    }
    assert sent + [Hello(zid)] + [Echo(ack.0.cookie)] == sent + [Hello(zid), Echo(ack.0.cookie)];
    n :- link.ReadFrame(rx);
    var open :- DecodeOpenAck(rx[..n]);
    return Ok(Session(ack.0.zid, open.0.0, DEFAULT_LEASE_MS, 0, open.0.1));
  }

  // ── The decoders read every answer ────────────────────────────────────

  lemma BatchComplete(b: seq<byte>, p: nat, resolution: byte, batchSize: Option<nat>)
    requires At(b, p, BatchBytes(resolution, batchSize)) && (batchSize.Some? ==> batchSize.value < U16)
    ensures BatchAt(batchSize.Some?, b, p) == Ok((batchSize, p + |BatchBytes(resolution, batchSize)|))
  {
    if batchSize.Some? {
      Pow256Values();
      LeRoundTrip(2, batchSize.value);
      assert b[p + 1..p + 3] == b[p..p + 3][1..] == Le(2, batchSize.value);
    }
  }

  /** Every InitAck is read back, whatever its unused bits, its extensions and what follows it; only
      a cookie of more than 256 bytes is refused. */
  lemma InitAckComplete(ack: InitAck, unused: nat, resolution: byte, exts: seq<Ext>, rest: seq<byte>)
    requires ack.Valid() && ValidExts(exts) && unused < 4
    ensures InitAckOf(ack.Bytes(unused, resolution, exts) + rest)
         == if |ack.cookie| <= MAX_COOKIE then Ok((ack, |ack.Bytes(unused, resolution, exts)|)) else Err(FrameTooLarge)
  {
    hide SliceDecode, Skip, BatchAt, BatchBytes, SliceBytes, ExtBytes, ZidFlags, InitAck.Bytes, At, LeValue;
    var b := ack.Bytes(unused, resolution, exts) + rest;
    var h, flags := Header(INIT, true, ack.batchSize.Some?, exts != []), ZidFlags(ack.zid, ack.whatami, unused);
    var batch, slice := BatchBytes(resolution, ack.batchSize), SliceBytes(ack.cookie);
    AtStart(ack.Bytes(unused, resolution, exts), rest);
    InitAckIs(ack, unused, resolution, exts);
    InitAckParts(b, h, ack.version, flags, ack.zid, batch, slice, ExtBytes(exts));
    var p1 := 3 + |ack.zid|;
    BatchComplete(b, p1, resolution, ack.batchSize);
    SliceAt(b, p1 + |batch|, ack.cookie);
    ExtsIfAt(b, p1 + |batch| + |slice|, exts);
    AtWithin(b, p1 + |batch|, slice);
    WhatAmIRead(ack.whatami);
  }

  lemma WhatAmIRead(w: WhatAmI)
    ensures WhatAmIOf(w.Code()) == Some(w)
  {
  }

  lemma InitAckIs(ack: InitAck, unused: nat, resolution: byte, exts: seq<Ext>)
    requires ack.Valid() && ValidExts(exts) && unused < 4
    ensures ack.Bytes(unused, resolution, exts)
         == [Header(INIT, true, ack.batchSize.Some?, exts != [])]
            + ([ack.version] + ([ZidFlags(ack.zid, ack.whatami, unused)]
               + (ack.zid + (BatchBytes(resolution, ack.batchSize) + (SliceBytes(ack.cookie) + ExtBytes(exts))))))
    ensures |ack.Bytes(unused, resolution, exts)|
         == 3 + |ack.zid| + |BatchBytes(resolution, ack.batchSize)| + |SliceBytes(ack.cookie)| + |ExtBytes(exts)|
  {
    hide BatchBytes, SliceBytes, ExtBytes, ZidFlags, Header;
  }

  lemma InitAckParts(b: seq<byte>, h: byte, version: byte, flags: byte, zid: seq<byte>, batch: seq<byte>,
          slice: seq<byte>, exts: seq<byte>)
    requires At(b, 0, [h] + ([version] + ([flags] + (zid + (batch + (slice + exts))))))
    ensures |b| >= 3 + |zid| && b[0] == h && b[1] == version && b[2] == flags
    ensures At(b, 3, zid) && b[3..3 + |zid|] == zid && At(b, 3 + |zid|, batch)
    ensures At(b, 3 + |zid| + |batch|, slice) && At(b, 3 + |zid| + |batch| + |slice|, exts)
  {
    HeadAt(b, 0, h, [version] + ([flags] + (zid + (batch + (slice + exts)))));
    HeadAt(b, 1, version, [flags] + (zid + (batch + (slice + exts))));
    HeadAt(b, 2, flags, zid + (batch + (slice + exts)));
    AtSplit(b, 3, zid, batch + (slice + exts));
    AtSplit(b, 3 + |zid|, batch, slice + exts);
    AtSplit(b, 3 + |zid| + |batch|, slice, exts);
  }

  /** A header, two numbers and what follows them. */
  lemma NumbersAt(b: seq<byte>, h: byte, u: nat, v: nat, tail: seq<byte>)
    requires u < U64 && v < U64 && At(b, 0, [h] + (VBytes(u) + (VBytes(v) + tail)))
    ensures b != [] && b[0] == h && 1 + |VBytes(u)| <= |b|
    ensures VDecode(b[1..]) == Ok((u, |VBytes(u)|)) && VDecode(b[1 + |VBytes(u)|..]) == Ok((v, |VBytes(v)|))
    ensures At(b, 1 + |VBytes(u)| + |VBytes(v)|, tail)
  {
    hide VBytes, VDecode, VValue, At;
    HeadAt(b, 0, h, VBytes(u) + (VBytes(v) + tail));
    AtSplit(b, 1, VBytes(u), VBytes(v) + tail);
    AtSplit(b, 1 + |VBytes(u)|, VBytes(v), tail);
    AtWithin(b, 1 + |VBytes(u)|, VBytes(v));
    VByteAt(b, 1, u);
    VByteAt(b, 1 + |VBytes(u)|, v);
  }

  lemma AtWithin(b: seq<byte>, p: nat, d: seq<byte>)
    requires At(b, p, d)
    ensures p + |d| <= |b|
  {
  }

  /** Every OpenAck is read back, with its lease in milliseconds. */
  lemma OpenAckComplete(seconds: bool, lease: nat, sn: nat, exts: seq<Ext>, rest: seq<byte>)
    requires lease < U64 && sn < U64 && ValidExts(exts)
    ensures OpenAckOf(OpenAckBytes(seconds, lease, sn, exts) + rest)
         == Ok(((if seconds then lease * 1000 else lease, sn), 1 + |VBytes(lease)| + |VBytes(sn)|))
  {
    hide VBytes, VDecode, VValue, ExtBytes, OpenAckBytes, At;
    var b, h := OpenAckBytes(seconds, lease, sn, exts) + rest, Header(OPEN, true, seconds, exts != []);
    AtStart(OpenAckBytes(seconds, lease, sn, exts), rest);
    OpenAckIs(seconds, lease, sn, exts);
    NumbersAt(b, h, lease, sn, ExtBytes(exts));
  }

  lemma OpenAckIs(seconds: bool, lease: nat, sn: nat, exts: seq<Ext>)
    requires ValidExts(exts)
    ensures OpenAckBytes(seconds, lease, sn, exts)
         == [Header(OPEN, true, seconds, exts != [])] + (VBytes(lease) + (VBytes(sn) + ExtBytes(exts)))
  {
  }

  // ── Agreement with a router that checks its cookie ────────────────────

  /** How a router reads OpenSyn: lease, first sequence number and cookie. */
  function OpenSynOf(b: seq<byte>): Result<(nat, nat, seq<byte>), E> {
    if b == [] || b[0] % 32 != OPEN || Flag(b[0], 32) then Err(InvalidEncoding)
    else
      var (lease, m) :- VDecode(b[1..]);
      var (sn, n) :- VDecode(b[1 + m..]);
      var (cookie, _) :- SliceDecode(b[1 + m + n..]);
      Ok((lease, sn, cookie))
  }

  /** A router: its InitAck with the cookie it made up, and what it answers to an OpenSyn that carries this cookie. */
  datatype RouterSide = RouterSide(ack: InitAck, unused: nat, resolution: byte, ackExts: seq<Ext>,
                                   seconds: bool, lease: nat, sn: nat, openExts: seq<Ext>)
  {
    predicate Valid() {
      && ack.Valid() && unused < 4 && ValidExts(ackExts)
      && lease < U64 && sn < U64 && ValidExts(openExts)
    }

    function FirstAnswer(): seq<byte>
      requires Valid()
    {
      ack.Bytes(unused, resolution, ackExts)
    }

    /** The answer to the second message of the client, and the lease and the number the router takes from it. */
    function SecondAnswer(openSyn: seq<byte>): Option<(seq<byte>, nat, nat)>
      requires Valid()
    {
      match OpenSynOf(openSyn)
      case Ok((clientLease, clientSn, cookie)) =>
        if cookie == ack.cookie then Some((OpenAckBytes(seconds, lease, sn, openExts), clientLease, clientSn)) else None
      case Err(_) => None
    }

    function LeaseMs(): nat {
      if seconds then lease * 1000 else lease
    }
  }

  /** The router gets its cookie back byte for byte, with the client's lease and first number. */
  lemma EchoRead(cookie: seq<byte>)
    requires |cookie| < U64
    ensures OpenSynOf(Echo(cookie)) == Ok((DEFAULT_LEASE_MS, 0, cookie))
  {
    hide VBytes, VDecode, VValue, SliceBytes, SliceDecode, At;
    var b := Echo(cookie);
    assert b + [] == b;
    AtStart(b, []);
    NumbersAt(b, OPEN, DEFAULT_LEASE_MS, 0, SliceBytes(cookie));
    SliceAt(b, 1 + |VBytes(DEFAULT_LEASE_MS)| + |VBytes(0)|, cookie);
    AtWithin(b, 1 + |VBytes(DEFAULT_LEASE_MS)| + |VBytes(0)|, SliceBytes(cookie));
    assert !Flag(OPEN, 32);
  }

  /** With a router that checks its cookie, over a link that takes two frames and with a buffer of 512 bytes,
      the handshake succeeds if and only if the router speaks version 9 and its cookie has at most 256
      bytes. Then both sides have the same view of both leases and both first numbers. */
  lemma Agreement(zid: seq<byte>, router: RouterSide, rest: seq<byte>, budget: nat, txCap: nat, rxCap: nat)
    requires 1 <= |zid| <= 16 && router.Valid() && budget >= 2 && txCap >= 512
    requires |router.FirstAnswer()| < U16 && |router.FirstAnswer()| <= rxCap
    requires |OpenAckBytes(router.seconds, router.lease, router.sn, router.openExts)| < U16
    requires |OpenAckBytes(router.seconds, router.lease, router.sn, router.openExts)| <= rxCap
    ensures router.SecondAnswer(Echo(router.ack.cookie))
         == Some((OpenAckBytes(router.seconds, router.lease, router.sn, router.openExts), DEFAULT_LEASE_MS, 0))
    ensures var second := router.SecondAnswer(Echo(router.ack.cookie)).value;
      var (sent, r) := Handshake(zid, Framed(router.FirstAnswer()) + (Framed(second.0) + rest), budget, txCap, rxCap);
      && (r.Ok? <==> router.ack.version == 9 && |router.ack.cookie| <= 256)
      && (r.Err? ==> r.error == if |router.ack.cookie| > 256 then FrameTooLarge else VersionMismatch)
      && (r.Ok? ==>
            && sent == [Hello(zid), Echo(router.ack.cookie)]
            && r.value == Session(router.ack.zid, router.LeaseMs(), second.1, second.2, router.sn))
  {
    hide InitAckOf, OpenAckOf, ReadOne, Hello, Echo, Framed, OpenAckBytes, InitAck.Bytes, OpenSynOf;
    var second := OpenAckBytes(router.seconds, router.lease, router.sn, router.openExts);
    EchoRead(router.ack.cookie);
    HelloSize(zid);
    if |router.ack.cookie| <= MAX_COOKIE {
      EchoSize(router.ack.cookie);
    }
    InitAckComplete(router.ack, router.unused, router.resolution, router.ackExts, []);
    OpenAckComplete(router.seconds, router.lease, router.sn, router.openExts, []);
    ReadFramed(router.FirstAnswer(), Framed(second) + rest, rxCap);
    ReadFramed(second, rest, rxCap);
    assert router.FirstAnswer() + [] == router.FirstAnswer() && second + [] == second;
  }

  /** Against any peer, the client succeeds only after an InitAck of version 9 and an OpenAck, and its
      OpenSyn carries the cookie of that InitAck. */
  lemma SuccessMeans(zid: seq<byte>, stream: seq<byte>, budget: nat, txCap: nat, rxCap: nat)
    requires 1 <= |zid| <= 16
    ensures var (sent, r) := Handshake(zid, stream, budget, txCap, rxCap);
      var frames := ReadMany(stream, rxCap, 2);
      r.Ok? ==> (
        && frames.Ok? && |frames.value.0| == 2
        && InitAckOf(frames.value.0[0]).Ok? && OpenAckOf(frames.value.0[1]).Ok?
        && var ack := InitAckOf(frames.value.0[0]).value.0;
           && ack.version == PROTO_VERSION && |sent| == 2
           && OpenSynOf(sent[1]) == Ok((r.value.ourLeaseMs, r.value.initialSn, ack.cookie)))
  {
    hide InitAckOf, OpenAckOf, ReadOne, Hello, Echo, OpenSynOf;
    if Handshake(zid, stream, budget, txCap, rxCap).1.Err? {
      return;
    }
    var (first, rest) := ReadOne(stream, rxCap).value;
    var (second, end) := ReadOne(rest, rxCap).value;
    EchoRead(InitAckOf(first).value.0.cookie);
    assert ReadMany(end, rxCap, 0) == Ok(([], end));
    assert ReadMany(rest, rxCap, 1) == Ok(([second] + [], end));
    assert ReadMany(stream, rxCap, 2) == Ok(([first] + ([second] + []), end));
  }
}
