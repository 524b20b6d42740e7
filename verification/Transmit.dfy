/** What draining a publisher puts on the wire: how messages are packed into frames,
    what a receiver reads from the frames, and what a failed write loses. */
module Transmit {
  import opened Common
  import opened Utf8
  import opened Grammar
  import opened Decode
  import opened Completeness
  import opened Attachments
  import opened Encode

  const TX_FRAME_BUF: nat := 1024
  const CDR_DRAIN_BUF: nat := 512

  datatype Message = Message(data: seq<byte>, seqNum: int, timestamp: int)

  /** The key and the identifier under which a publisher sends. */
  datatype Sender = Sender(key: text, gid: seq<byte>) {
    predicate Valid() {
      |key| <= 256 && |gid| <= 16
    }
  }

  /** A message as it leaves the queue: cut to the size of the scratch buffer. */
  function Clip(m: Message): (c: Message)
    ensures Fits(c) && (Fits(m) ==> c == m)
  {
    m.(data := m.data[..Min(|m.data|, CDR_DRAIN_BUF)])
  }

  function ClipAll(ms: seq<Message>): (cs: seq<Message>)
    ensures |cs| == |ms| && AllFit(cs) && forall i | 0 <= i < |ms| :: cs[i] == Clip(ms[i])
  {
    seq(|ms|, i requires 0 <= i < |ms| => Clip(ms[i]))
  }

  predicate Fits(m: Message) {
    |m.data| <= CDR_DRAIN_BUF
  }

  predicate AllFit(ms: seq<Message>) {
    forall i | 0 <= i < |ms| :: Fits(ms[i])
  }

  // ── Frames ────────────────────────────────────────────────────────────

  /** One message on the wire. */
  function Wire(s: Sender, m: Message): seq<byte>
    requires s.Valid() && Fits(m)
  {
    DataPush(s.key, m.data, m.seqNum, m.timestamp, s.gid).Bytes()
  }

  function Body(s: Sender, ms: seq<Message>): seq<byte>
    requires s.Valid() && AllFit(ms)
  {
    if ms == [] then [] else Wire(s, ms[0]) + Body(s, ms[1..])
  }

  /** A frame with number `sn` that carries `ms`. */
  function FrameOf(s: Sender, sn: nat, ms: seq<Message>): seq<byte>
    requires s.Valid() && AllFit(ms)
  {
    FrameHeaderBytes(sn % U64, true, []) + Body(s, ms)
  }

  predicate AllGroupsFit(groups: seq<seq<Message>>) {
    forall g | g in groups :: AllFit(g)
  }

  /** One frame for each group, numbered from `sn` on. */
  function Frames(s: Sender, sn: nat, groups: seq<seq<Message>>): (fs: seq<seq<byte>>)
    requires s.Valid() && AllGroupsFit(groups)
    ensures |fs| == |groups|
    decreases |groups|
  {
    if groups == [] then [] else [FrameOf(s, sn, groups[0])] + Frames(s, sn + 1, groups[1..])
  }

  function Flatten(groups: seq<seq<Message>>): seq<Message> {
    if groups == [] then [] else groups[0] + Flatten(groups[1..])
  }

  // ── Packing ───────────────────────────────────────────────────────────

  /** The estimate of what a message will take. */
  function Estimate(s: Sender, m: Message): nat {
    |s.key| + |m.data| + 64
  }

  /** How the messages `ms` are packed when frame `sn` already holds `open`: a frame is closed
      when the next message might not fit any more, and at the end. */
  function Pack(s: Sender, sn: nat, open: seq<Message>, ms: seq<Message>): (groups: seq<seq<Message>>)
    requires s.Valid() && AllFit(open) && AllFit(ms)
    ensures AllGroupsFit(groups)
    decreases |ms|
  {
    if ms == [] then
      if open == [] then [] else [open]
    else if open != [] && |FrameOf(s, sn, open)| + Estimate(s, ms[0]) > TX_FRAME_BUF then
      [open] + Pack(s, sn + 1, [ms[0]], ms[1..])
    else
      Pack(s, sn, open + [ms[0]], ms[1..])
  }

  /** One message per frame. */
  function Singles(ms: seq<Message>): (groups: seq<seq<Message>>)
    requires AllFit(ms)
    ensures AllGroupsFit(groups)
  {
    if ms == [] then [] else [[ms[0]]] + Singles(ms[1..])
  }

  lemma {:induction false} FlattenPack(s: Sender, sn: nat, open: seq<Message>, ms: seq<Message>)
    requires s.Valid() && AllFit(open) && AllFit(ms)
    ensures Flatten(Pack(s, sn, open, ms)) == open + ms
    decreases |ms|
  {
    hide FrameOf, AllFit, Estimate;
    if ms == [] {
      if open != [] {
        assert [open][1..] == [];
      }
    } else if open != [] && |FrameOf(s, sn, open)| + Estimate(s, ms[0]) > TX_FRAME_BUF {
      PackStep(s, sn, open, ms);
      FlattenPack(s, sn + 1, [ms[0]], ms[1..]);
      assert ([open] + Pack(s, sn + 1, [ms[0]], ms[1..]))[1..] == Pack(s, sn + 1, [ms[0]], ms[1..]);
      assert open + ([ms[0]] + ms[1..]) == open + ms;
    } else {
      PackStep(s, sn, open, ms);
      FlattenPack(s, sn, open + [ms[0]], ms[1..]);
      assert open + [ms[0]] + ms[1..] == open + ms;
    }
  }

  lemma {:induction false} FlattenSingles(ms: seq<Message>)
    requires AllFit(ms)
    ensures Flatten(Singles(ms)) == ms && |Singles(ms)| == |ms|
  {
    if ms != [] {
      FlattenSingles(ms[1..]);
      assert ([[ms[0]]] + Singles(ms[1..]))[1..] == Singles(ms[1..]);
      assert [ms[0]] + ms[1..] == ms;
    }
  }

  // ── Sizes ─────────────────────────────────────────────────────────────

  lemma WireSize(s: Sender, m: Message)
    requires s.Valid() && Fits(m)
    ensures |s.key| + |m.data| + 40 <= |Wire(s, m)| <= |s.key| + |m.data| + 42
  {
    DataPushSize(s.key, m.data, m.seqNum, m.timestamp, s.gid);
  }

  lemma {:induction false} BodySnoc(s: Sender, ms: seq<Message>, m: Message)
    requires s.Valid() && AllFit(ms) && Fits(m)
    ensures Body(s, ms + [m]) == Body(s, ms) + Wire(s, m)
  {
    hide Wire;
    if ms == [] {
      assert ([] + [m])[1..] == [];
    } else {
      BodySnoc(s, ms[1..], m);
      assert (ms + [m])[1..] == ms[1..] + [m];
    }
  }

  /** Adding a message to a frame appends its bytes. */
  lemma FrameSnoc(s: Sender, sn: nat, ms: seq<Message>, m: Message)
    requires s.Valid() && AllFit(ms) && Fits(m)
    ensures FrameOf(s, sn, ms + [m]) == FrameOf(s, sn, ms) + Wire(s, m)
  {
    hide Wire, Body, FrameHeaderBytes;
    BodySnoc(s, ms, m);
  }

  /** A frame with nothing in it yet is its header, of at most eleven bytes. */
  lemma EmptyFrame(s: Sender, sn: nat)
    requires s.Valid()
    ensures FrameOf(s, sn, []) == FrameHeaderBytes(sn % U64, true, []) && 2 <= |FrameOf(s, sn, [])| <= 11
  {
    hide FrameHeaderBytes;
    FrameHeaderSize(sn % U64, true);
  }

  /** The estimate is sound: whenever the packing rule lets a message into a frame, it fits. */
  lemma EstimateSound(s: Sender, sn: nat, open: seq<Message>, m: Message)
    requires s.Valid() && AllFit(open) && Fits(m)
    requires open == [] || |FrameOf(s, sn, open)| + Estimate(s, m) <= TX_FRAME_BUF
    ensures |FrameOf(s, sn, open + [m])| <= TX_FRAME_BUF
  {
    hide FrameOf, Wire;
    FrameSnoc(s, sn, open, m);
    WireSize(s, m);
    if open == [] {
      EmptyFrame(s, sn);
    }
  }

  /** Every message takes more than forty bytes, so a frame that fits holds at most 25 of them. */
  lemma {:induction false} FrameHoldsAtMost(s: Sender, sn: nat, ms: seq<Message>)
    requires s.Valid() && AllFit(ms)
    ensures |FrameOf(s, sn, ms)| >= 2 + 40 * |ms|
    ensures |FrameOf(s, sn, ms)| <= TX_FRAME_BUF ==> |ms| <= 25
    decreases |ms|
  {
    hide FrameOf, Wire;
    if ms == [] {
      EmptyFrame(s, sn);
    } else {
      var front, last := ms[..|ms| - 1], ms[|ms| - 1];
      assert ms == front + [last];
      FrameSnoc(s, sn, front, last);
      WireSize(s, last);
      FrameHoldsAtMost(s, sn, front);
    }
  }

  /** Every frame holds a message and fits into the frame buffer. */
  predicate Within(s: Sender, sn: nat, groups: seq<seq<Message>>)
    requires s.Valid() && AllGroupsFit(groups)
    decreases |groups|
  {
    groups == [] || (groups[0] != [] && |FrameOf(s, sn, groups[0])| <= TX_FRAME_BUF && Within(s, sn + 1, groups[1..]))
  }

  /** Packing never overfills a frame. */
  lemma {:induction false} PackedFramesFit(s: Sender, sn: nat, open: seq<Message>, ms: seq<Message>)
    requires s.Valid() && AllFit(open) && AllFit(ms)
    requires |FrameOf(s, sn, open)| <= TX_FRAME_BUF
    ensures Within(s, sn, Pack(s, sn, open, ms))
    decreases |ms|
  {
    hide FrameOf, Wire, AllFit, Estimate;
    if ms == [] {
      assert open != [] ==> [open][1..] == [];
    } else {
      PackStep(s, sn, open, ms);
      if open != [] && |FrameOf(s, sn, open)| + Estimate(s, ms[0]) > TX_FRAME_BUF {
        EstimateSound(s, sn + 1, [], ms[0]);
        assert [] + [ms[0]] == [ms[0]];
        PackedFramesFit(s, sn + 1, [ms[0]], ms[1..]);
        var rest := Pack(s, sn + 1, [ms[0]], ms[1..]);
        assert ([open] + rest)[0] == open && ([open] + rest)[1..] == rest;
      } else {
        EstimateSound(s, sn, open, ms[0]);
        PackedFramesFit(s, sn, open + [ms[0]], ms[1..]);
      }
    }
  }

  lemma PackStep(s: Sender, sn: nat, open: seq<Message>, ms: seq<Message>)
    requires s.Valid() && AllFit(open) && AllFit(ms) && ms != []
    ensures AllFit([]) && Fits(ms[0]) && AllFit(ms[1..]) && AllFit([ms[0]]) && AllFit(open + [ms[0]])
  {
  }

  // ── What a receiver reads ─────────────────────────────────────────────

  /** A message with the attachment that a ROS2 peer finds in it. */
  datatype Heard = Heard(put: IncomingPut, stamp: Option<Stamp>)

  /** All messages in the body of a frame, by repeated decoding. */
  function Messages(b: seq<byte>): Option<seq<Heard>>
    decreases |b|
  {
    if b == [] then Some([])
    else
      match PushPut(b)
      case Ok(Some((put, n))) =>
        (match Messages(b[n..])
         case Some(rest) => Some([Heard(put, PushStamp(b))] + rest)
         case None => None)
      case _ => None
  }

  datatype Received = Received(sn: nat, puts: seq<Heard>)

  /** Number and messages of a frame. */
  function Receive(frame: seq<byte>): Option<Received> {
    match FrameHeader(frame)
    case Ok((sn, _, pos)) =>
      (match Messages(frame[pos..])
       case Some(puts) => Some(Received(sn, puts))
       case None => None)
    case Err(_) => None
  }

  /** The message as the receiver sees it: inline key and payload, sequence number, timestamp and sender. */
  function Seen(s: Sender, m: Message): Heard {
    Heard(IncomingPut(0, s.key, m.data), Some(Stamp(AsI64(m.seqNum), AsI64(m.timestamp), Padded(s.gid))))
  }

  function SeenAll(s: Sender, ms: seq<Message>): seq<Heard> {
    if ms == [] then [] else [Seen(s, ms[0])] + SeenAll(s, ms[1..])
  }

  lemma {:induction false} MessagesOfBody(s: Sender, ms: seq<Message>)
    requires s.Valid() && AllFit(ms)
    ensures Messages(Body(s, ms)) == Some(SeenAll(s, ms))
  {
    hide PushPut, PushStamp, Push.Bytes, DataPush, AsI64, Padded;
    if ms != [] {
      var m := ms[0];
      var push := DataPush(s.key, m.data, m.seqNum, m.timestamp, s.gid);
      MessagesOfBody(s, ms[1..]);
      PushPutComplete(push, Body(s, ms[1..]));
      DataPushSeen(s, m);
      DataPushStamped(s.key, m.data, m.seqNum, m.timestamp, s.gid, Body(s, ms[1..]));
      WireSize(s, m);
      assert (push.Bytes() + Body(s, ms[1..]))[|push.Bytes()|..] == Body(s, ms[1..]);
    }
  }

  lemma DataPushSeen(s: Sender, m: Message)
    requires s.Valid() && Fits(m)
    ensures DataPush(s.key, m.data, m.seqNum, m.timestamp, s.gid).put.Schema().None?
    ensures var push := DataPush(s.key, m.data, m.seqNum, m.timestamp, s.gid);
      IncomingPut(push.key.scope, push.key.Suffix(), push.put.payload) == Seen(s, m).put
  {
  }

  /** A frame is read back as its number and its messages, each once and in order. */
  lemma ReceiveFrame(s: Sender, sn: nat, ms: seq<Message>)
    requires s.Valid() && AllFit(ms)
    ensures Receive(FrameOf(s, sn, ms)) == Some(Received(sn % U64, SeenAll(s, ms)))
  {
    hide FrameHeader, FrameHeaderBytes, Messages, Body, SeenAll;
    FrameHeaderComplete(sn % U64, true, [], Body(s, ms));
    MessagesOfBody(s, ms);
    var h := FrameHeaderBytes(sn % U64, true, []);
    assert (h + Body(s, ms))[|h|..] == Body(s, ms);
  }

  /** The messages of a run of frames, if every frame decodes. */
  function Contents(frames: seq<seq<byte>>): Option<seq<Heard>> {
    if frames == [] then Some([])
    else
      match (Receive(frames[0]), Contents(frames[1..]))
      case (Some(r), Some(rest)) => Some(r.puts + rest)
      case _ => None
  }

  /** The numbers of a run of frames. */
  function Numbers(frames: seq<seq<byte>>): seq<Option<nat>> {
    if frames == [] then []
    else [match Receive(frames[0]) case Some(r) => Some(r.sn) case None => None] + Numbers(frames[1..])
  }

  function Counting(sn: nat, n: nat): seq<Option<nat>>
    decreases n
  {
    if n == 0 then [] else [Some(sn % U64)] + Counting(sn + 1, n - 1)
  }

  lemma {:induction false} SeenConcat(s: Sender, a: seq<Message>, b: seq<Message>)
    ensures SeenAll(s, a + b) == SeenAll(s, a) + SeenAll(s, b)
  {
    hide Seen;
    if a == [] {
      assert a + b == b;
    } else {
      SeenConcat(s, a[1..], b);
      assert (a + b)[0] == a[0] && (a + b)[1..] == a[1..] + b;
      assert [Seen(s, a[0])] + (SeenAll(s, a[1..]) + SeenAll(s, b))
          == [Seen(s, a[0])] + SeenAll(s, a[1..]) + SeenAll(s, b);
    }
  }

  /** However messages are grouped into frames, a receiver reads them all, in order, from frames
      whose numbers count up from the first. */
  lemma {:induction false} FramesContents(s: Sender, sn: nat, groups: seq<seq<Message>>)
    requires s.Valid() && AllGroupsFit(groups)
    ensures Contents(Frames(s, sn, groups)) == Some(SeenAll(s, Flatten(groups)))
    ensures Numbers(Frames(s, sn, groups)) == Counting(sn, |groups|)
    decreases |groups|
  {
    hide Receive, FrameOf, AllFit;
    if groups != [] {
      var fs := Frames(s, sn + 1, groups[1..]);
      ReceiveFrame(s, sn, groups[0]);
      FramesContents(s, sn + 1, groups[1..]);
      SeenConcat(s, groups[0], Flatten(groups[1..]));
      assert ([FrameOf(s, sn, groups[0])] + fs)[1..] == fs;
    }
  }

  /** The batched frames and the one-message frames of the same messages carry the same. */
  lemma BatchingRefines(s: Sender, sn: nat, sn': nat, ms: seq<Message>)
    requires s.Valid() && AllFit(ms)
    ensures var batched, single := Frames(s, sn, Pack(s, sn, [], ms)), Frames(s, sn', Singles(ms));
      && Contents(batched) == Contents(single) == Some(SeenAll(s, ms))
      && |batched| <= |single| == |ms|
  {
    hide Contents, Frames, Pack, Singles, SeenAll;
    FlattenPack(s, sn, [], ms);
    FlattenSingles(ms);
    assert [] + ms == ms;
    FramesContents(s, sn, Pack(s, sn, [], ms));
    FramesContents(s, sn', Singles(ms));
    PackAtMost(s, sn, [], ms);
  }

  lemma {:induction false} PackAtMost(s: Sender, sn: nat, open: seq<Message>, ms: seq<Message>)
    requires s.Valid() && AllFit(open) && AllFit(ms)
    ensures |Pack(s, sn, open, ms)| <= |ms| + if open == [] then 0 else 1
    decreases |ms|
  {
    hide FrameOf, AllFit, Estimate;
    if ms != [] {
      PackStep(s, sn, open, ms);
      if open != [] && |FrameOf(s, sn, open)| + Estimate(s, ms[0]) > TX_FRAME_BUF {
        PackAtMost(s, sn + 1, [ms[0]], ms[1..]);
      } else {
        PackAtMost(s, sn, open + [ms[0]], ms[1..]);
      }
    }
  }
}
