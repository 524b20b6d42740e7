/** The node: its tables and counters, and draining publishers into frames. */
module Nodes {
  import opened Common
  import opened Writing
  import opened Utf8
  import opened Grammar
  import opened Encode
  import opened Cdr
  import opened CdrCodec
  import opened Names
  import opened Liveliness
  import opened Framing
  import opened Transmit
  import opened Failures
  import opened Queues
  import opened Routing
  import opened Drains
  import opened Refinement
  import opened Numbering
  import opened Fragments
  import opened Receiving
  import opened Clock
  import opened VByte
  import opened Decode
  import opened Attachments
  import opened Vectors

  const MAX_PUBS: nat := 8
  const MAX_SUBS: nat := 4

  /** What a service call returns. */
  datatype CallError = Unsent(error: Error) | Unreadable(cdr: CdrError) | ServiceNoReply | Broken(cause: TransportError)

  function CallResult(a: Answer, t: Ty): Result<Val, CallError> {
    match a
    case Replied(payload) =>
      (match DecWithHeader(t, payload)
       case Ok((v, _)) => Ok(v)
       case Err(e) => Err(Unreadable(e)))
    case NoReply => Err(ServiceNoReply)
    case Closed => Err(Broken(ConnectionClosed))
    case Lost(e) => Err(Broken(e))
  }

  /** How many of the rounds are timeouts. */
  function CountTimeouts(rounds: seq<bool>): nat {
    if rounds == [] then 0 else (if rounds[0] then 1 else 0) + CountTimeouts(rounds[1..])
  }

  lemma {:induction false} CountConcat(a: seq<bool>, b: seq<bool>)
    ensures CountTimeouts(a + b) == CountTimeouts(a) + CountTimeouts(b)
  {
    if a == [] {
      assert a + b == b;
    } else {
      CountConcat(a[1..], b);
      assert (a + b)[0] == a[0] && (a + b)[1..] == a[1..] + b;
    }
  }

  lemma CountNext(rounds: seq<bool>, i: nat)
    requires i < |rounds|
    ensures CountTimeouts(rounds[..i + 1]) == CountTimeouts(rounds[..i]) + if rounds[i] then 1 else 0
  {
    assert rounds[..i + 1] == rounds[..i] + [rounds[i]];
    CountConcat(rounds[..i], [rounds[i]]);
    assert [rounds[i]][1..] == [];
  }

  lemma {:induction false} CountNone(rounds: seq<bool>, i: nat)
    requires i <= |rounds|
    ensures (forall k | 0 <= k < |rounds| :: !rounds[k]) ==> CountTimeouts(rounds[..i]) == 0
    decreases i
  {
    if i > 0 {
      CountNone(rounds, i - 1);
      CountNext(rounds, i - 1);
    }
  }

  /** A node whose drain is of either kind: the one that batches messages and keeps the last one when a write
      fails, or that of the simple node, which sends every message in a frame of its own. Everything else is
      that of the batching node. */
  class Node {
    const mode: Mode
    const link: Link
    const gid: seq<byte>
    const name: text
    const namespace: text
    const domain: nat
    var sn: nat
    var keyIdGen: nat
    var entityIdGen: nat
    var requestIdGen: nat
    var publishers: seq<Publisher>
    var subscribers: seq<Entry>

    ghost predicate Valid()
      reads this, link, publishers, Subs(subscribers)
    {
      && link.Valid() && 1 <= |gid| <= 16 && domain < U32
      && sn < U64 && keyIdGen < U16 && entityIdGen < U32 && requestIdGen < U32
      && |publishers| <= MAX_PUBS && (forall p | p in publishers :: p.Valid() && p.topic.Valid())
      && |subscribers| <= MAX_SUBS && ValidSubs(subscribers)
    }

    /** A node right after its handshake. */
    constructor (mode: Mode, link: Link, gid: seq<byte>, name: text, namespace: text, domain: nat)
      requires link.Valid() && 1 <= |gid| <= 16 && domain < U32
      ensures Valid() && this.mode == mode && this.link == link && this.gid == gid
      ensures this.name == name && this.namespace == namespace && this.domain == domain
      ensures sn == 0 && keyIdGen == 1 && entityIdGen == 1 && requestIdGen == 1 && publishers == [] && subscribers == []
    {
      this.mode, this.link, this.gid := mode, link, gid;
      this.name, this.namespace, this.domain := name, namespace, domain;
      sn, keyIdGen, entityIdGen, requestIdGen := 0, 1, 1, 1;
      publishers, subscribers := [], [];
    }

    /** The outcome of a drain agrees with its specification. */
    ghost predicate Meets(d: Drained, sent: seq<seq<byte>>, budget: nat, pending: seq<Message>, r: Outcome<Error>)
      reads this, link
    {
      && link.Valid() && link.sent == sent + d.frames && link.budget == budget - |d.frames|
      && sn == d.sn && ClipAll(pending) == d.kept && r == d.result
    }

    // ── One publisher ─────────────────────────────────────────────────────

    /** The frame under construction. */
    ghost predicate Building(w: Writer, s: Sender, n: nat, open: seq<Message>, started: bool)
      requires s.Valid() && AllFit(open)
      reads this, w, w.buf
    {
      && w.Valid() && w.buf.Length == TX_FRAME_BUF
      && (started <==> open != [])
      && (started ==> w.Written() == FrameOf(s, n, open))
      && sn == (if started then n + 1 else n) % U64
    }

    /** The message that was put into the frame last is still in the scratch buffer. */
    static ghost predicate Last(scratch: seq<byte>, n: nat, seqNum: int, timestamp: int, open: seq<Message>) {
      open != [] ==> n <= |scratch| && Message(scratch[..n], seqNum, timestamp) == open[|open| - 1]
    }

    lemma NothingBuilt(w: Writer, scratch: array<byte>, s: Sender)
      requires w.Valid() && w.buf.Length == TX_FRAME_BUF && s.Valid() && sn < U64
      ensures AllFit([]) && Building(w, s, sn, [], false) && Last(scratch[..], 0, 0, 0, [])
    {
    }

    static lemma LastPut(scratch: seq<byte>, n: nat, seqNum: int, timestamp: int, open: seq<Message>)
      requires n <= |scratch|
      ensures Last(scratch, n, seqNum, timestamp, open + [Message(scratch[..n], seqNum, timestamp)])
    {
    }

    /** Puts the message in the scratch buffer into the frame, starting a frame if there is none. */
    method PutMessage(w: Writer, s: Sender, data: seq<byte>, seqNum: int, timestamp: int, started: bool, ghost n: nat,
            ghost open: seq<Message>)
      requires s.Valid() && AllFit(open) && Building(w, s, n, open, started) && |data| <= CDR_DRAIN_BUF
      requires |FrameOf(s, n, open + [Message(data, seqNum, timestamp)])| <= TX_FRAME_BUF
      modifies `sn, w, w.buf
      ensures w.Valid() && AllFit(open + [Message(data, seqNum, timestamp)])
      ensures Building(w, s, n, open + [Message(data, seqNum, timestamp)], true)
    {
      hide FrameOf;
      if !started {
        StartFrame(w, s, sn, n);
        sn := (sn + 1) % U64;
      }
      AddMessage(w, s, data, seqNum, timestamp, n, open);
    }

    /** Writes the frame under construction; when that fails, the given message goes into the retry slot. */
    method WriteBatch(p: Publisher, w: Writer, data: seq<byte>, seqNum: int, timestamp: int, ghost s: Sender,
            ghost n: nat, ghost groups: seq<seq<Message>>, ghost k: nat, ghost sent: seq<seq<byte>>)
      returns (x: Outcome<TE>)
      requires link.Valid() && p.Valid() && p.retry == None && w.Valid() && |data| <= RETRY_CDR_CAP
      requires s.Valid() && AllGroupsFit(groups) && k < |groups| && groups[k] in groups
      requires w.Written() == FrameOf(s, n + k, groups[k]) && w.pos <= TX_FRAME_BUF
      requires link.sent == sent + Frames(s, n, groups)[..k]
      modifies link, p
      ensures link.Valid() && p.Valid()
      ensures x.Pass? ==> link.sent == sent + Frames(s, n, groups)[..k + 1] && link.budget == old(link.budget) - 1
      ensures x.Pass? ==> p.Pending() == old(p.Pending()) && p.retry == old(p.retry)
      ensures x.Fail? ==> x.error == Io && old(link.budget) == 0 && link.budget == 0 && link.sent == old(link.sent)
      ensures x.Fail? ==> p.Pending() == [Message(data, seqNum, timestamp)] + old(p.queue)
      ensures link.input == old(link.input)
    {
      hide FrameOf, Frames;
      FramesSnoc(s, n, groups, k);
      x := link.WriteFrame(w.Written());
      if x.Fail? {
        assert data[..|data|] == data;
        p.StashRetry(data, seqNum, timestamp);
      }
    }

    /** Writes the frame under construction if the next message, `data`, might not fit into it any more. */
    method MakeRoom(p: Publisher, w: Writer, s: Sender, data: seq<byte>, seqNum: int, timestamp: int, started: bool,
            ghost n: nat, ghost groups: seq<seq<Message>>, ghost k: nat, ghost open: seq<Message>,
            ghost rest: seq<Message>, ghost sent: seq<seq<byte>>)
      returns (x: Outcome<TE>, started': bool, ghost k': nat, ghost open': seq<Message>)
      requires link.Valid() && p.Valid() && |data| <= CDR_DRAIN_BUF && s.Valid() && NoneEmpty(groups)
      requires rest == ClipAll(p.Pending()) && p.retry == None && AllFit(open)
      requires Progress(s, n, groups, k, open, [Message(data, seqNum, timestamp)] + rest)
      requires Building(w, s, n + k, open, started)
      requires link.sent == sent + Frames(s, n, groups)[..k]
      modifies link, p, w
      ensures link.Valid() && p.Valid()
      ensures x.Pass? ==> Progress(s, n, groups, k', open', [Message(data, seqNum, timestamp)] + rest)
      ensures x.Pass? ==> !Overflows(s, n + k', open', Message(data, seqNum, timestamp))
      ensures w.Valid() && k' <= |groups| && AllFit(open')
      ensures x.Pass? ==> Building(w, s, n + k', open', started') && k' + link.budget == k + old(link.budget)
      ensures x.Pass? ==> link.sent == sent + Frames(s, n, groups)[..k']
      ensures x.Pass? ==> p.Pending() == old(p.Pending()) && p.retry == old(p.retry)
      ensures x.Fail? ==> x.error == Io && old(link.budget) == 0 && link.budget == 0 && link.sent == old(link.sent)
      ensures x.Fail? ==> k < |groups|
      ensures x.Fail? ==> sn == (n + k + 1) % U64
      ensures x.Fail? ==> ClipAll(p.Pending()) == Kept(groups, k) && |Kept(groups, k)| == |rest| + 1
      ensures link.input == old(link.input)
    {
      hide FrameOf, Frames, Pack, Kept, ClipAll;
      x, started', k', open' := Pass, started, k, open;
      if started && w.pos + (|s.key| + |data| + 64) > TX_FRAME_BUF {
        ProgressFlush(s, n, groups, k, open, Message(data, seqNum, timestamp), rest);
        ClipFirst([Message(data, seqNum, timestamp)] + p.queue);
        assert ([Message(data, seqNum, timestamp)] + p.queue)[1..] == p.queue == p.Pending();
        x := WriteBatch(p, w, data, seqNum, timestamp, s, n, groups, k, sent);
        if x.Pass? {
          w.Restart();
          started', k', open' := false, k + 1, [];
        }
      }
    }

    /** Puts the next message, the first `size` bytes of the scratch buffer, into the frame under construction,
        after making room for it. */
    method SendNext(p: Publisher, w: Writer, s: Sender, scratch: array<byte>, size: nat, seqNum: int, timestamp: int,
            started: bool, ghost n: nat, ghost groups: seq<seq<Message>>, ghost k: nat, ghost open: seq<Message>,
            ghost rest: seq<Message>, ghost sent: seq<seq<byte>>)
      returns (x: Outcome<TE>, ghost k': nat, ghost open': seq<Message>)
      requires link.Valid() && p.Valid() && size <= scratch.Length == CDR_DRAIN_BUF && scratch != w.buf && s.Valid()
      requires NoneEmpty(groups)
      requires rest == ClipAll(p.Pending()) && p.retry == None && AllFit(open)
      requires Progress(s, n, groups, k, open, [Message(scratch[..size], seqNum, timestamp)] + rest)
      requires Building(w, s, n + k, open, started)
      requires link.sent == sent + Frames(s, n, groups)[..k]
      requires ValidSubs(subscribers)
      modifies `sn, link, p, w, w.buf
      ensures ValidSubs(subscribers) && QueuesOf(subscribers) == old(QueuesOf(subscribers))
      ensures link.Valid() && p.Valid() && w.Valid() && k' <= |groups| && AllFit(open')
      ensures x.Pass? ==> Progress(s, n, groups, k', open', rest) && Building(w, s, n + k', open', true)
      ensures x.Pass? ==> Last(scratch[..], size, seqNum, timestamp, open')
      ensures x.Pass? ==> k' + link.budget == k + old(link.budget)
      ensures x.Pass? ==> link.sent == sent + Frames(s, n, groups)[..k']
      ensures x.Pass? ==> p.Pending() == old(p.Pending()) && p.retry == old(p.retry)
      ensures x.Fail? ==> x.error == Io && old(link.budget) == 0 && link.budget == 0 && link.sent == old(link.sent)
      ensures x.Fail? ==> k < |groups| && sn == (n + k + 1) % U64
      ensures x.Fail? ==> ClipAll(p.Pending()) == Kept(groups, k) && |Kept(groups, k)| == |rest| + 1
      ensures link.input == old(link.input)
    {
      hide FrameOf, Frames, Pack, Kept, ClipAll, Progress, Overflows, Building, Publisher.Valid;
      var started';
      var data := scratch[..size];
      x, started', k', open' := MakeRoom(p, w, s, data, seqNum, timestamp, started, n, groups, k, open, rest, sent);
      if x.Pass? {
        ProgressAdd(s, n, groups, k', open', Message(data, seqNum, timestamp), rest);
        PutMessage(w, s, data, seqNum, timestamp, started', n + k', open');
        assert scratch[..][..size] == data;
        LastPut(scratch[..], size, seqNum, timestamp, open');
        open' := open' + [Message(data, seqNum, timestamp)];
      }
    }

    /** Writes the frame under construction, if there is one, after the queue has been emptied. */
    method Finish(p: Publisher, w: Writer, scratch: array<byte>, started: bool, lastN: nat, lastSeq: int, lastTs: int,
            ghost s: Sender, ghost n: nat, ghost groups: seq<seq<Message>>, ghost k: nat, ghost open: seq<Message>,
            ghost sent: seq<seq<byte>>)
      returns (x: Outcome<TE>)
      requires link.Valid() && p.Valid() && p.Pending() == [] && s.Valid() && NoneEmpty(groups) && AllFit(open)
      requires k <= |groups| && Progress(s, n, groups, k, open, []) && Building(w, s, n + k, open, started)
      requires Last(scratch[..], lastN, lastSeq, lastTs, open) && scratch.Length == CDR_DRAIN_BUF
      requires link.sent == sent + Frames(s, n, groups)[..k]
      requires ValidSubs(subscribers)
      modifies link, p
      ensures ValidSubs(subscribers) && QueuesOf(subscribers) == old(QueuesOf(subscribers))
      ensures link.Valid() && p.Valid()
      ensures x.Pass? ==> link.sent == sent + Frames(s, n, groups)[..|groups|]
      ensures x.Pass? ==> |groups| + link.budget == k + old(link.budget)
      ensures x.Pass? ==> sn == (n + |groups|) % U64 && ClipAll(p.Pending()) == []
      ensures x.Fail? ==> x.error == Io && old(link.budget) == 0 && link.budget == 0 && link.sent == old(link.sent)
      ensures x.Fail? ==> k < |groups| && sn == (n + k + 1) % U64
      ensures x.Fail? ==> ClipAll(p.Pending()) == Kept(groups, k) && |Kept(groups, k)| == 1
      ensures link.input == old(link.input)
    {
      hide FrameOf, Frames, Pack, Kept, ClipAll;
      ProgressEnd(s, n, groups, k, open);
      x := Pass;
      if started {
        ghost var last := open[|open| - 1];
        ClipFirst([last]);
        assert [last][1..] == [];
        assert scratch[..][..lastN] == scratch[..lastN];
        x := WriteBatch(p, w, scratch[..lastN], lastSeq, lastTs, s, n, groups, k, sent);
      }
    }

    method DrainToNetwork(p: Publisher, key: text, w: Writer, scratch: array<byte>) returns (r: Outcome<Error>)
      requires link.Valid() && sn < U64 && |gid| <= 16 && p.Valid() && ValidSubs(subscribers)
      requires p.locality != SessionLocal && |key| <= MAX_KEY_EXPR_LEN
      requires w.Valid() && w.buf.Length == TX_FRAME_BUF && scratch.Length == CDR_DRAIN_BUF && scratch != w.buf
      modifies `sn, link, p, w, w.buf, scratch, Subs(subscribers)
      ensures p.Valid() && w.Valid() && ValidSubs(subscribers)
      ensures Meets(DrainSpec(p.locality, Some(key), gid, old(sn), ClipAll(old(p.Pending())), old(link.budget)),
                    old(link.sent), old(link.budget), p.Pending(), r)
      ensures HandedOut(p.locality, p.topic, subscribers, ClipAll(old(p.Pending())),
                        DrainSpec(p.locality, Some(key), gid, old(sn), ClipAll(old(p.Pending())),
                                  old(link.budget)).taken,
                        old(QueuesOf(subscribers)), QueuesOf(subscribers))
      ensures link.input == old(link.input)
    {
      hide FrameOf, Frames, HandedOut, ClipAll, Publisher.Pending, Pack, DrainSpec, Kept, Packing;
      hide Progress, Overflows, Publisher.Valid, Dispatching, QueuesOf, Building, Last, ValidSubs, Subs, Link.Valid;
      hide Writer.Valid, AllFit, Dispatch, Estimate, Clip;
      var s := Sender(key, gid);
      ghost var ms, before := ClipAll(p.Pending()), QueuesOf(subscribers);
      ghost var sn0, sent, budget := sn, link.sent, link.budget;
      ghost var groups := Packing(s, sn, ms);
      ghost var k: nat, open := 0, [];
      var batchStarted, lastN, lastSeq, lastTs := false, 0, 0, 0;
      ProgressStart(s, sn, ms);
      DispatchingStart(p, subscribers);
      NothingBuilt(w, scratch, s);
      ghost var pending, now := p.Pending(), before;
      while true
        invariant link.Valid() && p.Valid() && ValidSubs(subscribers) && w.Valid()
        invariant p.Pending() == pending && QueuesOf(subscribers) == now
        invariant k <= |groups| && AllFit(open) && Progress(s, sn0, groups, k, open, ClipAll(pending))
        invariant Dispatching(p.locality, p.topic, subscribers, pending, ms, before, now)
        invariant Building(w, s, sn0 + k, open, batchStarted)
        invariant Last(scratch[..], lastN, lastSeq, lastTs, open)
        invariant link.sent == sent + Frames(s, sn0, groups)[..k] && link.budget == budget - k
        invariant link.input == old(link.input)
        decreases |pending|
      {
        ghost var all := pending;
        var d := TakeNext(p, subscribers, scratch, ms, before);
        pending, now := p.Pending(), QueuesOf(subscribers);
        if d.None? {
          break;
        }
        ClipFirst(all);
        DispatchingRest(p.locality, p.topic, subscribers, pending, ms, before, now);
        var (n, seqNum, timestamp) := d.value;
        var x;
        x, k, open := SendNext(p, w, s, scratch, n, seqNum, timestamp, batchStarted, sn0, groups, k, open,
                               ClipAll(pending), sent);
        if x.Fail? {
          DrainFails(p.locality, key, gid, sn0, ms, budget);
          return Fail(Transport(x.error));
        }
        batchStarted, lastN, lastSeq, lastTs := true, n, seqNum, timestamp;
      }
      DispatchingRest(p.locality, p.topic, subscribers, pending, ms, before, now);
      var x := Finish(p, w, scratch, batchStarted, lastN, lastSeq, lastTs, s, sn0, groups, k, open, sent);
      if x.Fail? {
        DrainFails(p.locality, key, gid, sn0, ms, budget);
        return Fail(Transport(x.error));
      }
      DrainPasses(p.locality, key, gid, sn0, ms, budget);
      return Pass;
    }

    /** A session-local publisher: its messages go to the local subscriptions only. */
    method DrainLocally(p: Publisher, scratch: array<byte>)
      requires p.Valid() && ValidSubs(subscribers) && scratch.Length == CDR_DRAIN_BUF
      modifies p, scratch, Subs(subscribers)
      ensures p.Valid() && ValidSubs(subscribers) && p.Pending() == []
      ensures HandedOut(p.locality, p.topic, subscribers, ClipAll(old(p.Pending())), |old(p.Pending())|,
                        old(QueuesOf(subscribers)), QueuesOf(subscribers))
    {
      hide HandedOut, ClipAll, Dispatching, QueuesOf, ValidSubs, Subs, Publisher.Valid, Publisher.Pending;
      ghost var ms, before := ClipAll(p.Pending()), QueuesOf(subscribers);
      DispatchingStart(p, subscribers);
      while true
        invariant p.Valid() && ValidSubs(subscribers)
        invariant Dispatching(p.locality, p.topic, subscribers, p.Pending(), ms, before, QueuesOf(subscribers))
        decreases |p.Pending()|
      {
        var d := TakeNext(p, subscribers, scratch, ms, before);
        DispatchingRest(p.locality, p.topic, subscribers, p.Pending(), ms, before, QueuesOf(subscribers));
        if d.None? {
          break;
        }
      }
    }

    /** A frame of its own for each message; the message whose write fails is gone. */
    method DrainOneByOne(p: Publisher, key: text, w: Writer, scratch: array<byte>) returns (r: Outcome<Error>)
      requires link.Valid() && sn < U64 && |gid| <= 16 && p.Valid() && ValidSubs(subscribers)
      requires p.locality != SessionLocal && |key| <= MAX_KEY_EXPR_LEN
      requires w.Valid() && w.buf.Length == TX_FRAME_BUF && scratch.Length == CDR_DRAIN_BUF && scratch != w.buf
      modifies `sn, link, p, w, w.buf, scratch, Subs(subscribers)
      ensures p.Valid() && w.Valid() && ValidSubs(subscribers)
      ensures Meets(PlainSpec(p.locality, Some(key), gid, old(sn), ClipAll(old(p.Pending())), old(link.budget)),
                    old(link.sent), old(link.budget), p.Pending(), r)
      ensures HandedOut(p.locality, p.topic, subscribers, ClipAll(old(p.Pending())),
                        PlainSpec(p.locality, Some(key), gid, old(sn), ClipAll(old(p.Pending())),
                                  old(link.budget)).taken,
                        old(QueuesOf(subscribers)), QueuesOf(subscribers))
      ensures link.input == old(link.input)
    {
      hide FrameOf, Frames, HandedOut, ClipAll, Publisher.Pending, Singles, Dispatching, QueuesOf, ValidSubs, Subs;
      hide Link.Valid, Publisher.Valid, Writer.Valid, AllFit, Dispatch, PlainSpec, Clip, DispatchAll, Dispatched;
      hide Numbered, Estimate, Fits;
      var s := Sender(key, gid);
      ghost var ms, before := ClipAll(p.Pending()), QueuesOf(subscribers);
      ghost var sn0, sent, budget := sn, link.sent, link.budget;
      ghost var k: nat := 0;
      SinglesCount(ms);
      DispatchingStart(p, subscribers);
      ghost var pending, now := p.Pending(), before;
      while true
        invariant link.Valid() && p.Valid() && ValidSubs(subscribers) && w.Valid()
        invariant p.Pending() == pending && QueuesOf(subscribers) == now
        invariant Dispatching(p.locality, p.topic, subscribers, pending, ms, before, now)
        invariant k + |pending| == |ms| && sn == (sn0 + k) % U64
        invariant link.sent == sent + Frames(s, sn0, Singles(ms))[..k] && link.budget == budget - k
        invariant link.input == old(link.input)
        decreases |pending|
      {
        DispatchingRest(p.locality, p.topic, subscribers, pending, ms, before, now);
        var d := TakeNext(p, subscribers, scratch, ms, before);
        pending, now := p.Pending(), QueuesOf(subscribers);
        if d.None? {
          break;
        }
        DispatchingRest(p.locality, p.topic, subscribers, pending, ms, before, now);
        var (n, seqNum, timestamp) := d.value;
        var x := SendAlone(w, s, scratch[..n], seqNum, timestamp, sn0, ms, k, sent);
        if x.Fail? {
          PlainFails(p.locality, key, gid, sn0, ms, budget);
          return Fail(Transport(x.error));
        }
        k := k + 1;
      }
      DispatchingRest(p.locality, p.topic, subscribers, pending, ms, before, now);
      PlainPasses(p.locality, key, gid, sn0, ms, budget);
      return Pass;
    }

    /** Sends message `k` in a frame of its own. */
    method SendAlone(w: Writer, s: Sender, data: seq<byte>, seqNum: int, timestamp: int, ghost n: nat,
            ghost ms: seq<Message>, ghost k: nat, ghost sent: seq<seq<byte>>)
      returns (x: Outcome<TE>)
      requires link.Valid() && w.Valid() && w.buf.Length == TX_FRAME_BUF && ValidSubs(subscribers)
      requires s.Valid() && AllFit(ms) && k < |ms| == |Singles(ms)| && sn == (n + k) % U64
      requires |data| <= CDR_DRAIN_BUF && Message(data, seqNum, timestamp) == ms[k]
      requires link.sent == sent + Frames(s, n, Singles(ms))[..k]
      modifies `sn, link, w, w.buf
      ensures link.Valid() && w.Valid() && sn == (n + k + 1) % U64
      ensures ValidSubs(subscribers) && QueuesOf(subscribers) == old(QueuesOf(subscribers))
      ensures x.Pass? ==> link.sent == sent + Frames(s, n, Singles(ms))[..k + 1] && link.budget == old(link.budget) - 1
      ensures x.Fail? ==> x.error == Io && old(link.budget) == 0 && link.budget == 0 && link.sent == old(link.sent)
      ensures link.input == old(link.input)
    {
      hide FrameOf, Frames, Singles, AllFit, Fits;
      PlainFrame(s, n, ms, k);
      StartFrame(w, s, sn, n + k);
      sn := (sn + 1) % U64;
      AddMessage(w, s, data, seqNum, timestamp, n + k, []);
      x := link.WriteFrame(w.Written());
    }

    method DrainPublisher(p: Publisher, w: Writer, scratch: array<byte>) returns (r: Outcome<Error>)
      requires link.Valid() && sn < U64 && |gid| <= 16 && p.Valid() && p.topic.Valid() && ValidSubs(subscribers)
      requires w.Valid() && w.buf.Length == TX_FRAME_BUF && scratch.Length == CDR_DRAIN_BUF && scratch != w.buf
      modifies `sn, link, p, w, w.buf, scratch, Subs(subscribers)
      ensures p.Valid() && w.Valid() && ValidSubs(subscribers)
      ensures Meets(Spec(mode, p, gid, old(sn), ClipAll(old(p.Pending())), old(link.budget)),
                    old(link.sent), old(link.budget), p.Pending(), r)
      ensures HandedOut(p.locality, p.topic, subscribers, ClipAll(old(p.Pending())),
                        Spec(mode, p, gid, old(sn), ClipAll(old(p.Pending())), old(link.budget)).taken,
                        old(QueuesOf(subscribers)), QueuesOf(subscribers))
      ensures link.input == old(link.input)
    {
      hide HandedOut, QueuesOf, ValidSubs, Publisher.Valid, Publisher.Pending, Link.Valid, KeyOf, AllFit, Packing;
      hide Frames, KeyExpr, ClipAll;
      ghost var ms := ClipAll(p.Pending());
      if p.locality == SessionLocal {
        DrainLocally(p, scratch);
        return Pass;
      }
      var key := ToKeyExpr(p.topic);
      if key.None? {
        DispatchedNone(p, subscribers);
        return Fail(InvalidArgument);
      }
      match mode {
        case Batched =>
          r := DrainToNetwork(p, key.value, w, scratch);
        case OneByOne =>
          r := DrainOneByOne(p, key.value, w, scratch);
      }
    }

    // ── All publishers ────────────────────────────────────────────────────

    /** What a drain reads and changes. */
    ghost function Now(): Net
      reads this, link, publishers, Subs(subscribers)
    {
      Net(sn, link.budget, PendingOf(publishers), QueuesOf(subscribers))
    }

    lemma NowCovers()
      requires Valid()
      ensures Covers(publishers, subscribers, Now())
      ensures Now().sn == sn && Now().budget == link.budget
      ensures |gid| <= 16 && sn < U64
    {
      StartCovers(publishers, subscribers, sn, link.budget);
    }

    lemma NowIs()
      ensures Now().sn == sn && Now().budget == link.budget && Now().inboxes == QueuesOf(subscribers)
    {
    }

    lemma NowReads(i: nat)
      requires Valid() && i < |publishers|
      ensures var p := publishers[i];
        p in Now().pending && Now().pending[p] == ClipAll(p.Pending()) && Now().sn == sn && Now().budget == link.budget
    {
    }

    /** One round of the loop over the publishers. */
    method DrainNth(i: nat, w: Writer, scratch: array<byte>) returns (r: Outcome<Error>)
      requires Valid() && i < |publishers| && AllFit(ClipAll(publishers[i].Pending()))
      requires w.Valid() && w.buf.Length == TX_FRAME_BUF && scratch.Length == CDR_DRAIN_BUF && scratch != w.buf
      requires Covers([publishers[i]], subscribers, Now()) && publishers[i] in Now().pending
      modifies `sn, link, publishers, w, w.buf, scratch, Subs(subscribers)
      ensures Valid() && w.Valid()
      ensures var d := Spec(mode, publishers[i], gid, old(sn), old(Now()).pending[publishers[i]], old(link.budget));
        && Now() == After(publishers[i], subscribers, old(Now()), d)
        && link.sent == old(link.sent) + d.frames && r == d.result
      ensures link.input == old(link.input)
    {
      hide Spec, DispatchAll, Dispatched, ClipAll, QueuesOf, Link.Valid, Covers, Publisher.Pending, Publisher.Valid;
      hide AllFit, Numbers, Counting;
      SpecEnds(mode, publishers[i], gid, sn, ClipAll(publishers[i].Pending()), link.budget);
      r := DrainPublisher(publishers[i], w, scratch);
    }

    /** Drains every publisher in turn, up to the first error. */
    method DrainAll(w: Writer, scratch: array<byte>) returns (r: Outcome<Error>)
      requires Valid() && w.Valid() && w.buf.Length == TX_FRAME_BUF && scratch.Length == CDR_DRAIN_BUF
      requires scratch != w.buf
      modifies `sn, link, publishers, w, w.buf, scratch, Subs(subscribers)
      ensures Valid()
      ensures Covers(publishers, subscribers, old(Now()))
      ensures var run := DrainRun(mode, publishers, subscribers, gid, old(Now()));
        Now() == run.net && link.sent == old(link.sent) + run.frames && r == run.result
      ensures old(Numbered()) ==> Numbered()
      ensures link.input == old(link.input)
    {
      hide GapFree, Spec, DrainRun, Now, Valid, Covers, Left, After, ClipAll, AllFit, Publisher.Pending, Subs;
      ghost var before, sent, frames := Now(), link.sent, [];
      NowCovers();
      if Numbered() {
        DrainKeepsNumbers(mode, publishers, subscribers, gid, before, sent);
      }
      LeftStart(mode, publishers, subscribers, gid, before);
      for i := 0 to |publishers|
        invariant Valid() && w.Valid()
        invariant Left(mode, publishers, i, subscribers, gid, before, Now(), frames)
        invariant link.sent == sent + frames && link.input == old(link.input)
      {
        ghost var p, now := publishers[i], Now();
        LeftStep(mode, publishers, i, subscribers, gid, before, now, frames);
        NowReads(i);
        ghost var d := Spec(mode, p, gid, sn, now.pending[p], link.budget);
        r := DrainNth(i, w, scratch);
        if r.Fail? {
          NowIs();
          return;
        }
        frames := frames + d.frames;
      }
      NowIs();
      LeftEnd(mode, publishers, subscribers, gid, before, Now(), frames);
      return Pass;
    }

    method DrainPublishers() returns (r: Outcome<Error>)
      requires Valid()
      modifies `sn, link, publishers, Subs(subscribers)
      ensures Valid()
      ensures Covers(publishers, subscribers, old(Now()))
      ensures var run := DrainRun(mode, publishers, subscribers, gid, old(Now()));
        Now() == run.net && link.sent == old(link.sent) + run.frames && r == run.result
      ensures old(Numbered()) ==> Numbered()
      ensures link.input == old(link.input)
    {
      hide Numbered, DrainRun, Covers, Valid, Now;
      NowCovers();
      var buf, scratch := new byte[TX_FRAME_BUF], new byte[CDR_DRAIN_BUF];
      var w := new Writer(buf);
      r := DrainAll(w, scratch);
    }

    // ── Declarations ──────────────────────────────────────────────────────

    /** All frames so far are numbered without a gap. */
    ghost predicate Numbered()
      reads this, link
    {
      GapFree(link.sent, sn, link.budget)
    }

    /** One number has been taken, and `body` has been sent in a frame with that number if the link was up. */
    ghost predicate SentFrame(sn0: nat, sent: seq<seq<byte>>, budget: nat, body: seq<byte>, r: Outcome<Error>)
      reads this, link
    {
      && sn == (sn0 + 1) % U64
      && (budget > 0 ==>
        r == Pass && link.sent == sent + [FrameHeaderBytes(sn0, true, []) + body] && link.budget == budget - 1)
      && (budget == 0 ==> r == Fail(Transport(Io)) && link.sent == sent && link.budget == 0)
    }

    lemma SentFrameNumbered(sn0: nat, sent: seq<seq<byte>>, budget: nat, body: seq<byte>, r: Outcome<Error>)
      requires sn0 < U64 && GapFree(sent, sn0, budget) && SentFrame(sn0, sent, budget, body, r)
      ensures Numbered()
    {
      hide FrameHeaderBytes;
      if budget > 0 {
        NextFrame(sent, sn0, budget, body);
      }
    }

    /** The header of the next frame; the number is taken whatever becomes of the frame. */
    method BeginFrame(w: Writer)
      requires w.Valid() && w.Written() == [] && w.buf.Length >= 11 && sn < U64
      modifies `sn, w, w.buf
      ensures w.Valid() && w.Written() == FrameHeaderBytes(old(sn), true, []) && w.pos <= 11
      ensures sn == (old(sn) + 1) % U64
    {
      hide FrameHeaderBytes;
      FrameHeaderSize(sn, true);
      var x := EncodeFrameHeader(w, sn, true);
      if x.Fail? {
        assert false;
      }
      assert [] + FrameHeaderBytes(sn, true, []) == FrameHeaderBytes(sn, true, []);
      sn := (sn + 1) % U64;
    }

    /** Writes the finished frame. */
    method WriteOut(w: Writer, ghost sn0: nat, ghost body: seq<byte>) returns (r: Outcome<Error>)
      requires link.Valid() && w.Valid() && w.buf.Length < U16
      requires w.Written() == FrameHeaderBytes(sn0, true, []) + body && sn == (sn0 + 1) % U64
      modifies link
      ensures link.Valid() && link.input == old(link.input)
      ensures SentFrame(sn0, old(link.sent), old(link.budget), body, r)
    {
      hide FrameHeaderBytes;
      var x := link.WriteFrame(w.Written());
      return if x.Pass? then Pass else Fail(Transport(x.error));
    }

    /** A buffer of 512 bytes always holds the declaration of a key. */
    method DeclareKeyExpr(key: text) returns (keyId: nat, r: Outcome<Error>)
      requires link.Valid() && sn < U64 && keyIdGen < U16 && |key| <= MAX_KEY_EXPR_LEN
      modifies `sn, `keyIdGen, link
      ensures link.Valid() && link.input == old(link.input)
      ensures keyId == old(keyIdGen) && keyIdGen == (old(keyIdGen) + 1) % U16
      ensures SentFrame(old(sn), old(link.sent), old(link.budget), DeclareInlineBytes(D_KEYEXPR, old(keyIdGen), key), r)
    {
      hide FrameHeaderBytes, DeclareInlineBytes, DeclareSubscriberBytes, Link.Valid;
      keyId := keyIdGen;
      keyIdGen := (keyIdGen + 1) % U16;
      DeclareSizes(D_KEYEXPR, keyId, key, 0, 0);
      var buf := new byte[512];
      var w := new Writer(buf);
      ghost var sn0 := sn;
      BeginFrame(w);
      var x := EncodeDeclareInline(w, D_KEYEXPR, keyId, key);
      if x.Fail? {
        assert false;
      }
      r := WriteOut(w, sn0, DeclareInlineBytes(D_KEYEXPR, keyId, key));
    }

    /** A buffer of 128 bytes always holds the declaration of a subscriber. */
    method DeclareSubscriber(keyId: nat) returns (r: Outcome<Error>)
      requires link.Valid() && sn < U64 && keyId < U16
      modifies `sn, link
      ensures link.Valid() && link.input == old(link.input)
      ensures SentFrame(old(sn), old(link.sent), old(link.budget), DeclareSubscriberBytes(keyId, keyId), r)
    {
      hide FrameHeaderBytes, DeclareInlineBytes, DeclareSubscriberBytes, Link.Valid;
      DeclareSizes(0, 0, [], keyId, keyId);
      var buf := new byte[128];
      var w := new Writer(buf);
      ghost var sn0 := sn;
      BeginFrame(w);
      var x := EncodeDeclareSubscriber(w, keyId, keyId);
      if x.Fail? {
        assert false;
      }
      r := WriteOut(w, sn0, DeclareSubscriberBytes(keyId, keyId));
    }

    /** The entity that a publisher, subscriber or service client of this node declares. */
    function EntityOf(entityType: EntityType, entityId: nat, topic: Topic): Entity {
      Entity(domain, gid, 0, entityId, entityType, [], namespace, name, topic.name, topic.typeName, topic.typeHash,
        QOS_DEFAULT)
    }

    /** What the token of such an entity says, field by field. */
    lemma TokenSays(entityType: EntityType, entityId: nat, topic: Topic)
      ensures var fs := Split(Token(EntityOf(entityType, entityId, topic)));
        && |fs| == 13 && fs[1] == Decimal(domain) && fs[2] == Hex(gid) && fs[3] == [48] && fs[4] == Decimal(entityId)
        && fs[5] == entityType.Code() && fs[6] == [0x25] && fs[7] == Replace(Absolute(namespace))
        && fs[8] == Replace(Relative(name)) && fs[9] == Replace(Absolute(topic.name))
        && fs[10] == Replace(Relative(topic.typeName)) && fs[11] == Replace(Relative(topic.typeHash))
        && fs[12] == [58, 58, 44, 49, 48, 58, 44, 58, 44, 58, 44, 44]
    {
      hide Token, Split, Decimal, QosString, Hex;
      TokenFields(EntityOf(entityType, entityId, topic));
      QosStrings();
      SmallNumerals();
    }

    /** A token that is too long takes an entity id but no frame number; any other token fits into a
        buffer of 768 bytes. */
    method DeclareLiveliness(entityType: EntityType, topic: Topic) returns (r: Outcome<Error>)
      requires link.Valid() && sn < U64 && entityIdGen < U32 && domain < U32 && topic.Valid()
      modifies `sn, `entityIdGen, link
      ensures link.Valid() && link.input == old(link.input) && entityIdGen == old(entityIdGen) + 1
      ensures match TokenOf(EntityOf(entityType, old(entityIdGen), topic))
        case None =>
          r == Fail(InvalidArgument) && sn == old(sn) && link.sent == old(link.sent) && link.budget == old(link.budget)
        case Some(token) =>
          SentFrame(old(sn), old(link.sent), old(link.budget), DeclareInlineBytes(D_TOKEN, old(entityIdGen), token), r)
    {
      hide FrameHeaderBytes, DeclareInlineBytes, DeclareSubscriberBytes, Link.Valid, Token;
      var entityId := entityIdGen;
      entityIdGen := entityIdGen + 1;
      var token := BuildLivelinessToken(EntityOf(entityType, entityId, topic));
      if token.None? {
        return Fail(InvalidArgument);
      }
      DeclareSizes(D_TOKEN, entityId, token.value, 0, 0);
      var buf := new byte[768];
      var w := new Writer(buf);
      ghost var sn0 := sn;
      BeginFrame(w);
      var x := EncodeDeclareInline(w, D_TOKEN, entityId, token.value);
      if x.Fail? {
        assert false;
      }
      r := WriteOut(w, sn0, DeclareInlineBytes(D_TOKEN, entityId, token.value));
    }

    method SendKeepalive() returns (r: Outcome<Error>)
      requires link.Valid()
      modifies link
      ensures link.Valid() && link.input == old(link.input)
      ensures r.Pass? <==> old(link.budget) > 0
      ensures r.Pass? ==> link.sent == old(link.sent) + [[KEEP_ALIVE]] && link.budget == old(link.budget) - 1
      ensures r.Fail? ==> r == Fail(Transport(Io)) && link.sent == old(link.sent) && link.budget == old(link.budget)
      ensures old(Numbered()) ==> Numbered()
    {
      hide GapFree;
      var x := link.WriteFrame([KEEP_ALIVE]);
      if x.Fail? {
        return Fail(Transport(x.error));
      }
      if old(Numbered()) {
        NotAFrame(old(link.sent), sn, old(link.budget), [KEEP_ALIVE]);
      }
      return Pass;
    }

    // ── Creating publishers and subscriptions ─────────────────────────────

    /** A publisher beyond the eighth is declared but never drained. */
    method CreatePublisher(p: Publisher) returns (r: Outcome<Error>)
      requires Valid() && p.Valid() && p.topic.Valid() && entityIdGen + 1 < U32
      modifies `sn, `entityIdGen, `publishers, link
      ensures Valid()
      ensures old(Numbered()) ==> Numbered()
      ensures publishers == if r.Pass? && |old(publishers)| < MAX_PUBS then old(publishers) + [p] else old(publishers)
      ensures r.Pass? <==> (
        || p.locality == SessionLocal
        || (TokenOf(EntityOf(PublisherEntity, old(entityIdGen), p.topic)).Some? && old(link.budget) > 0))
      ensures p.locality == SessionLocal ==> link.sent == old(link.sent) && sn == old(sn)
      ensures entityIdGen == old(entityIdGen) + if p.locality == SessionLocal then 0 else 1
      ensures p.locality != SessionLocal ==> (
        match TokenOf(EntityOf(PublisherEntity, old(entityIdGen), p.topic))
        case None => r == Fail(InvalidArgument) && sn == old(sn) && link.sent == old(link.sent)
        case Some(token) =>
          SentFrame(old(sn), old(link.sent), old(link.budget), DeclareInlineBytes(D_TOKEN, old(entityIdGen), token), r))
    {
      hide FrameHeaderBytes, DeclareInlineBytes, Stream, Publisher.Valid, TokenOf, GapFree;
      if p.locality != SessionLocal {
        ghost var numbered, sn0, sent, budget := Numbered(), sn, link.sent, link.budget;
        ghost var token := TokenOf(EntityOf(PublisherEntity, entityIdGen, p.topic));
        ghost var body := DeclareInlineBytes(D_TOKEN, entityIdGen, if token.Some? then token.value else []);
        r := DeclareLiveliness(PublisherEntity, p.topic);
        if numbered && token.Some? {
          SentFrameNumbered(sn0, sent, budget, body, r);
        }
        if r.Fail? {
          return;
        }
      }
      if |publishers| < MAX_PUBS {
        publishers := publishers + [p];
      }
      return Pass;
    }

    /** Declares a key and a subscriber under the id that the key got. */
    method DeclareKeyAndSubscriber(key: text) returns (keyId: nat, r: Outcome<Error>)
      requires link.Valid() && sn < U64 && keyIdGen < U16 && |key| <= MAX_KEY_EXPR_LEN
      modifies `sn, `keyIdGen, link
      ensures link.Valid() && sn < U64 && keyId == old(keyIdGen) && keyIdGen == (old(keyIdGen) + 1) % U16
      ensures old(Numbered()) ==> Numbered()
      ensures r.Pass? <==> old(link.budget) > 1
      ensures r.Pass? ==> sn == (old(sn) + 2) % U64 && link.budget == old(link.budget) - 2
      ensures r.Pass? ==>
                link.sent == old(link.sent)
                             + [FrameHeaderBytes(old(sn), true, []) + DeclareInlineBytes(D_KEYEXPR, keyId, key),
                                FrameHeaderBytes((old(sn) + 1) % U64, true, []) + DeclareSubscriberBytes(keyId, keyId)]
    {
      hide FrameHeaderBytes, DeclareInlineBytes, DeclareSubscriberBytes, Link.Valid, GapFree;
      ghost var numbered, sn0, sent, budget := Numbered(), sn, link.sent, link.budget;
      keyId, r := DeclareKeyExpr(key);
      if numbered {
        SentFrameNumbered(sn0, sent, budget, DeclareInlineBytes(D_KEYEXPR, keyId, key), r);
      }
      if r.Fail? {
        return;
      }
      ghost var sn1, sent1, budget1 := sn, link.sent, link.budget;
      r := DeclareSubscriber(keyId);
      if numbered {
        SentFrameNumbered(sn1, sent1, budget1, DeclareSubscriberBytes(keyId, keyId), r);
      }
    }

    /** What a network subscription declares: its key, itself and its token; and the key id it got. */
    method DeclareSubscription(topic: Topic) returns (keyId: nat, r: Outcome<Error>)
      requires link.Valid() && sn < U64 && keyIdGen < U16 && entityIdGen < U32 && domain < U32 && topic.Valid()
      modifies `sn, `keyIdGen, `entityIdGen, link
      ensures link.Valid() && sn < U64
      ensures old(Numbered()) ==> Numbered()
      ensures keyIdGen == if KeyOf(topic).Some? then (old(keyIdGen) + 1) % U16 else old(keyIdGen)
      ensures entityIdGen == old(entityIdGen) + if KeyOf(topic).Some? && old(link.budget) > 1 then 1 else 0
      ensures r.Pass? <==> (
        && KeyOf(topic).Some? && TokenOf(EntityOf(SubscriberEntity, old(entityIdGen), topic)).Some?
        && old(link.budget) > 2)
      ensures r.Pass? ==> keyId == old(keyIdGen)
      ensures r.Pass? ==> (
        var token := TokenOf(EntityOf(SubscriberEntity, old(entityIdGen), topic)).value;
        link.sent == old(link.sent)
                     + [FrameHeaderBytes(old(sn), true, []) + DeclareInlineBytes(D_KEYEXPR, keyId, KeyOf(topic).value),
                        FrameHeaderBytes((old(sn) + 1) % U64, true, []) + DeclareSubscriberBytes(keyId, keyId)]
                     + [FrameHeaderBytes((old(sn) + 2) % U64, true, [])
                        + DeclareInlineBytes(D_TOKEN, old(entityIdGen), token)])
    {
      hide FrameHeaderBytes, DeclareInlineBytes, DeclareSubscriberBytes, Link.Valid, TokenOf, KeyOf, GapFree;
      keyId := 0;
      var key := ToKeyExpr(topic);
      if key.None? {
        return 0, Fail(InvalidArgument);
      }
      keyId, r := DeclareKeyAndSubscriber(key.value);
      if r.Fail? {
        return;
      }
      ghost var numbered, sn0, sent, budget := Numbered(), sn, link.sent, link.budget;
      ghost var token := TokenOf(EntityOf(SubscriberEntity, entityIdGen, topic));
      ghost var body := DeclareInlineBytes(D_TOKEN, entityIdGen, if token.Some? then token.value else []);
      r := DeclareLiveliness(SubscriberEntity, topic);
      if numbered && token.Some? {
        SentFrameNumbered(sn0, sent, budget, body, r);
      }
    }

    /** A subscription beyond the fourth is declared but never gets anything. */
    method CreateSubscription(topic: Topic, sub: Subscription) returns (r: Outcome<Error>)
      requires Valid() && topic.Valid() && sub.Valid() && entityIdGen + 1 < U32
      modifies `sn, `keyIdGen, `entityIdGen, `subscribers, link
      ensures Valid()
      ensures old(Numbered()) ==> Numbered()
      ensures var keyId := if sub.locality == SessionLocal then 0 else old(keyIdGen);
        subscribers == if r.Pass? && |old(subscribers)| < MAX_SUBS
                       then old(subscribers) + [Entry(keyId, sub.locality, topic, sub)]
                       else old(subscribers)
      ensures keyIdGen == (old(keyIdGen) + if sub.locality != SessionLocal && KeyOf(topic).Some? then 1 else 0) % U16
      ensures var declared := sub.locality != SessionLocal && KeyOf(topic).Some? && old(link.budget) > 1;
        entityIdGen == old(entityIdGen) + if declared then 1 else 0
      ensures old(Keyed(subscribers, keyIdGen)) && old(keyIdGen) <= keyIdGen ==> Keyed(subscribers, keyIdGen)
      ensures sub.locality == SessionLocal ==> r == Pass && link.sent == old(link.sent) && sn == old(sn)
      ensures sub.locality != SessionLocal ==> (
        r.Pass? <==> (
          && KeyOf(topic).Some? && TokenOf(EntityOf(SubscriberEntity, old(entityIdGen), topic)).Some?
          && old(link.budget) > 2))
      ensures sub.locality != SessionLocal && r.Pass? ==> (
        var token := TokenOf(EntityOf(SubscriberEntity, old(entityIdGen), topic)).value;
        link.sent == old(link.sent)
                     + [FrameHeaderBytes(old(sn), true, [])
                        + DeclareInlineBytes(D_KEYEXPR, old(keyIdGen), KeyOf(topic).value),
                        FrameHeaderBytes((old(sn) + 1) % U64, true, [])
                        + DeclareSubscriberBytes(old(keyIdGen), old(keyIdGen))]
                     + [FrameHeaderBytes((old(sn) + 2) % U64, true, [])
                        + DeclareInlineBytes(D_TOKEN, old(entityIdGen), token)])
    {
      hide FrameHeaderBytes, DeclareInlineBytes, DeclareSubscriberBytes, Link.Valid, TokenOf, KeyOf, GapFree;
      hide Publisher.Valid, Keyed;
      var keyId := 0;
      if sub.locality != SessionLocal {
        keyId, r := DeclareSubscription(topic);
        if old(Keyed(subscribers, keyIdGen)) {
          KeyedSnoc(subscribers, old(keyIdGen), Entry(old(keyIdGen), sub.locality, topic, sub));
        }
        if r.Fail? {
          return;
        }
      } else if Keyed(subscribers, keyIdGen) {
        KeyedLocal(subscribers, keyIdGen, Entry(0, sub.locality, topic, sub));
      }
      if |subscribers| < MAX_SUBS {
        subscribers := subscribers + [Entry(keyId, sub.locality, topic, sub)];
      }
      return Pass;
    }

    // ── Service calls ─────────────────────────────────────────────────────

    /** The request with which a service call starts. */
    ghost function CallBytes(requestId: nat, key: text, request: seq<byte>): seq<byte>
      requires |gid| <= 16 && |request| + 1 < U64
    {
      RequestBytes(requestId, key, request, requestId, 0, gid)
    }

    /** What the service reads from it: the request id, the key, the request, and as its attachment the request
        id as sequence number, no timestamp, and the identifier of this node. */
    lemma CallSays(requestId: nat, key: text, request: seq<byte>) returns (n: nat, target: nat, query: nat)
      requires requestId < U32 && |key| < U64 && |request| + 1 < U64 && |gid| <= 16
      ensures var b := CallBytes(requestId, key, request);
        && 1 + n <= target < query < |b|
        && b[0] % 32 == 0x1C && VDecode(b[1..]) == Ok((requestId, n))
        && WireExprAt(b, 1 + n, Flag(b[0], 32)) == Ok(((0, key), target))
        && Skip(b, target) == Ok(query) && b[query] % 32 == 3
        && Find(b, query + 1, 3) == Some([0] + request)
        && Find(b, query + 1, 5).Some?
        && StampOf(Find(b, query + 1, 5).value) == Some(Stamp(requestId, 0, Padded(gid)))
    {
      hide RequestBytes, VDecode, WireExprAt, Skip, Find, StampOf, Padded, Flag;
      n, target, query := RequestRead(requestId, key, request, requestId, 0, gid);
      AsI64Is(requestId);
      AsI64Is(0);
    }

    /** A service call gets as far as its frame, but the request does not fit into it. */
    ghost predicate Oversized(topic: Topic, request: seq<byte>)
      requires Valid() && |request| + 1 < U64
      reads this, link, publishers, Subs(subscribers)
    {
      && KeyOf(topic).Some?
      && TokenOf(EntityOf(ServiceClient, entityIdGen, topic)).Some?
      && link.budget > 1
      && TX_FRAME_BUF < |FrameHeaderBytes((sn + 1) % U64, true, [])|
                        + |CallBytes(requestIdGen, KeyOf(topic).value, request)|
    }

    /** A call whose key and request together take at most 962 bytes always fits; above 977 bytes it never does. */
    lemma WhatFits(topic: Topic, request: seq<byte>)
      requires Valid() && |request| + 1 < 16384
      ensures KeyOf(topic).Some? && |KeyOf(topic).value| + |request| <= 962 ==> !Oversized(topic, request)
      ensures (KeyOf(topic).Some? && |KeyOf(topic).value| + |request| > 977
               && TokenOf(EntityOf(ServiceClient, entityIdGen, topic)).Some? && link.budget > 1) ==>
                Oversized(topic, request)
    {
      hide FrameHeaderBytes, RequestBytes, KeyOf, TokenOf, Link.Valid, Publisher.Valid, ValidSubs;
      if KeyOf(topic).Some? {
        FrameHeaderSize((sn + 1) % U64, true);
        RequestSize(requestIdGen, KeyOf(topic).value, request, requestIdGen, 0, gid);
      }
    }

    /** The last step of sending a request: the number is taken before the request is found not to fit. */
    method SendRequest(requestId: nat, key: text, request: seq<byte>) returns (r: Outcome<Error>)
      requires link.Valid() && sn < U64 && |gid| <= 16 && requestId < U32 && |key| <= MAX_KEY_EXPR_LEN
      requires |request| + 1 < U64
      modifies `sn, link
      ensures link.Valid() && link.input == old(link.input)
      ensures if |FrameHeaderBytes(old(sn), true, [])| + |CallBytes(requestId, key, request)| <= TX_FRAME_BUF
              then SentFrame(old(sn), old(link.sent), old(link.budget), CallBytes(requestId, key, request), r)
              else && r == Fail(Transport(FrameTooLarge)) && sn == (old(sn) + 1) % U64
                   && link.sent == old(link.sent) && link.budget == old(link.budget)
    {
      hide FrameHeaderBytes, RequestBytes, Link.Valid;
      var buf := new byte[TX_FRAME_BUF];
      var w := new Writer(buf);
      ghost var sn0 := sn;
      BeginFrame(w);
      var x := EncodeRequestQuery(w, requestId, key, request, requestId, 0, gid);
      if x.Fail? {
        return Fail(Transport(x.error));
      }
      r := WriteOut(w, sn0, CallBytes(requestId, key, request));
    }

    /** Declares the client of the service, then sends the request. */
    method DeclareAndSend(topic: Topic, requestId: nat, key: text, request: seq<byte>) returns (r: Outcome<Error>)
      requires link.Valid() && sn < U64 && 1 <= |gid| <= 16 && domain < U32 && entityIdGen + 1 < U32 && topic.Valid()
      requires requestId < U32 && |key| <= MAX_KEY_EXPR_LEN && |request| + 1 < U64
      modifies `sn, `entityIdGen, link
      ensures link.Valid() && link.input == old(link.input) && sn < U64 && entityIdGen == old(entityIdGen) + 1
      ensures (&& TokenOf(EntityOf(ServiceClient, old(entityIdGen), topic)).Some?
               && old(link.budget) > 0
               && TX_FRAME_BUF < |FrameHeaderBytes((old(sn) + 1) % U64, true, [])|
                                 + |CallBytes(requestId, key, request)|)
              <==> r == Fail(Transport(FrameTooLarge))
      ensures old(Numbered()) ==> (
        Numbered() <==> !(&& TokenOf(EntityOf(ServiceClient, old(entityIdGen), topic)).Some?
                          && old(link.budget) > 1
                          && TX_FRAME_BUF < |FrameHeaderBytes((old(sn) + 1) % U64, true, [])|
                                            + |CallBytes(requestId, key, request)|))
      ensures r.Pass? ==> link.sent != []
      ensures r.Pass? ==> link.sent[|link.sent| - 1]
                          == FrameHeaderBytes((old(sn) + 1) % U64, true, []) + CallBytes(requestId, key, request)
    {
      hide FrameHeaderBytes, DeclareInlineBytes, Link.Valid, TokenOf, GapFree, CallBytes;
      ghost var numbered, sn0, sent, budget := Numbered(), sn, link.sent, link.budget;
      ghost var token := TokenOf(EntityOf(ServiceClient, entityIdGen, topic));
      ghost var body := DeclareInlineBytes(D_TOKEN, entityIdGen, if token.Some? then token.value else []);
      r := DeclareLiveliness(ServiceClient, topic);
      if numbered && token.Some? {
        SentFrameNumbered(sn0, sent, budget, body, r);
      }
      if r.Fail? {
        return;
      }
      sn0, sent, budget := sn, link.sent, link.budget;
      r := SendRequest(requestId, key, request);
      if numbered {
        if r == Fail(Transport(FrameTooLarge)) {
          SkippedOnLink(sent, sn0, budget);
        } else {
          SentFrameNumbered(sn0, sent, budget, CallBytes(requestId, key, request), r);
        }
      }
    }

    /** Starts a service call. Every call that gets here takes a request id. The numbering stays without
        a gap if and only if the request fits into its frame: one that does not costs a number. */
    method StartCall(topic: Topic, v: Val, t: Ty, cdrCap: nat) returns (requestId: nat, r: Outcome<Error>)
      requires Valid() && topic.Valid() && HasType(v, t) && cdrCap + 1 < U64 && |EncWithHeader(v, t)| + 1 < U64
      requires entityIdGen + 1 < U32
      modifies `sn, `entityIdGen, `requestIdGen, link
      ensures Valid() && link.input == old(link.input)
      ensures KeyOf(topic).None? ==> (
        && r == Fail(InvalidArgument) && requestIdGen == old(requestIdGen) && sn == old(sn)
        && link.sent == old(link.sent))
      ensures KeyOf(topic).Some? && |EncWithHeader(v, t)| > cdrCap ==> (
        && r == Fail(Serialization(BufferOverflow)) && requestIdGen == old(requestIdGen) && sn == old(sn)
        && link.sent == old(link.sent))
      ensures KeyOf(topic).Some? && |EncWithHeader(v, t)| <= cdrCap ==>
          requestId == old(requestIdGen) && requestIdGen == (old(requestIdGen) + 1) % U32
      ensures entityIdGen == old(entityIdGen) + if KeyOf(topic).Some? && |EncWithHeader(v, t)| <= cdrCap then 1 else 0
      ensures r == Fail(Transport(FrameTooLarge)) && old(link.budget) > 1
              <==> |EncWithHeader(v, t)| <= cdrCap && old(Oversized(topic, EncWithHeader(v, t)))
      ensures old(Numbered()) ==> (Numbered() <==> !(r == Fail(Transport(FrameTooLarge)) && old(link.budget) > 1))
      ensures r.Pass? ==> KeyOf(topic).Some? && |EncWithHeader(v, t)| <= cdrCap && link.sent != []
      ensures r.Pass? ==> link.sent[|link.sent| - 1]
                          == FrameHeaderBytes((old(sn) + 1) % U64, true, [])
                             + CallBytes(requestId, KeyOf(topic).value, EncWithHeader(v, t))
    {
      hide FrameHeaderBytes, DeclareInlineBytes, Stream, Publisher.Valid, TokenOf, KeyOf, GapFree, CallBytes;
      hide EncWithHeader, HasType;
      requestId := 0;
      var key := ToKeyExpr(topic);
      if key.None? {
        return 0, Fail(InvalidArgument);
      }
      var raw := new byte[cdrCap];
      var n := SerializeWithHeader(raw, v, t);
      if n.Err? {
        return 0, Fail(Serialization(n.error));
      }
      requestId := requestIdGen;
      requestIdGen := (requestIdGen + 1) % U32;
      r := DeclareAndSend(topic, requestId, key.value, raw[..n.value]);
    }

    method WaitForAnswer(requestId: nat) returns (a: Answer)
      requires Valid()
      modifies link, Subs(subscribers)
      ensures Valid() && (Numbered() <==> old(Numbered()))
      ensures Holds(subscribers, old(QueuesOf(subscribers)))
      ensures (a, QueuesOf(subscribers)) == Await(subscribers, old(link.input), requestId, old(QueuesOf(subscribers)))
    {
      hide GapFree, Await, QueuesOf, Publisher.Valid;
      a := AwaitReply(link, subscribers, requestId);
    }

    /** Sends a request and waits for its answer; what arrives meanwhile is delivered. */
    method CallService(topic: Topic, v: Val, t: Ty, cdrCap: nat, answerType: Ty)
      returns (started: bool, r: Result<Val, CallError>)
      requires Valid() && topic.Valid() && HasType(v, t) && cdrCap + 1 < U64 && |EncWithHeader(v, t)| + 1 < U64
      requires entityIdGen + 1 < U32
      modifies `sn, `entityIdGen, `requestIdGen, link, Subs(subscribers)
      ensures Valid()
      ensures Holds(subscribers, old(QueuesOf(subscribers)))
      ensures started ==> (
        var (a, qs) := Await(subscribers, old(link.input), old(requestIdGen), old(QueuesOf(subscribers)));
        r == CallResult(a, answerType) && QueuesOf(subscribers) == qs)
      ensures !started ==> r.Err? && r.error.Unsent? && QueuesOf(subscribers) == old(QueuesOf(subscribers))
      ensures entityIdGen == old(entityIdGen) + if KeyOf(topic).Some? && |EncWithHeader(v, t)| <= cdrCap then 1 else 0
      ensures r == Err(Unsent(Transport(FrameTooLarge))) && old(link.budget) > 1
              <==> |EncWithHeader(v, t)| <= cdrCap && old(Oversized(topic, EncWithHeader(v, t)))
      ensures old(Numbered()) ==>
          (Numbered() <==> !(r == Err(Unsent(Transport(FrameTooLarge))) && old(link.budget) > 1))
    {
      hide Valid, Numbered, EncWithHeader, DecWithHeader, HasType, Await, KeyOf, TokenOf, Oversized, QueuesOf, Holds;
      HoldsQueues(subscribers);
      var requestId, x := StartCall(topic, v, t, cdrCap);
      if x.Fail? {
        return false, Err(Unsent(x.error));
      }
      var a := WaitForAnswer(requestId);
      started := true;
      match a {
        case Replied(payload) =>
          var d := DeserializeWithHeader(payload, answerType);
          r := if d.Ok? then Ok(d.value.0) else Err(Unreadable(d.error));
        case NoReply =>
          r := Err(ServiceNoReply);
        case Closed =>
          r := Err(Broken(ConnectionClosed));
        case Lost(e) =>
          r := Err(Broken(e));
      }
    }

    // ── Spinning ──────────────────────────────────────────────────────────

    method HandleMessage(message: seq<byte>, asm: FragmentAssembler) returns (r: Outcome<Error>)
      requires Valid() && asm.Valid()
      modifies Subs(subscribers), asm, asm.buf
      ensures Valid() && asm.Valid()
      ensures Holds(subscribers, old(QueuesOf(subscribers)))
      ensures (Inflow(QueuesOf(subscribers), asm.Pending()), r)
           == Arrival(subscribers, message, asm.buf.Length, old(Inflow(QueuesOf(subscribers), asm.Pending())))
    {
      hide Arrival, Publisher.Valid;
      r := DispatchFrame(subscribers, message, asm);
    }

    /** One round of spinning. First the publishers are drained. Then either the next message comes in and is
        handled, or the read times out and a second drain and a keepalive follow. */
    method SpinOnce(timeout: bool, rx: array<byte>, asm: FragmentAssembler) returns (r: Outcome<Error>)
      requires Valid() && asm.Valid() && rx != asm.buf
      modifies `sn, link, publishers, Subs(subscribers), rx, asm, asm.buf
      ensures Valid() && asm.Valid()
      ensures old(Numbered()) ==> Numbered()
      ensures r.Pass? ==> Keepalives(link.sent) == Keepalives(old(link.sent)) + if timeout then 1 else 0
      ensures Keepalives(old(link.sent)) <= Keepalives(link.sent)
      ensures Keepalives(link.sent) <= Keepalives(old(link.sent)) + if timeout then 1 else 0
      ensures Covers(publishers, subscribers, old(Now()))
      ensures r.Pass? && timeout ==> |link.sent| > |old(link.sent)|
      ensures r.Pass? && !timeout ==>
                link.sent == old(link.sent) + DrainRun(mode, publishers, subscribers, gid, old(Now())).frames
      ensures var drained := DrainRun(mode, publishers, subscribers, gid, old(Now()));
        && Covers(publishers, subscribers, drained.net) && Holds(subscribers, drained.net.inboxes)
        && (drained.result.Fail? ==> r == drained.result)
        && (drained.result.Pass? ==>
              if timeout
              then TimedOut(DrainRun(mode, publishers, subscribers, gid, drained.net), r)
              else Handled(old(link.input), rx.Length, asm, Inflow(drained.net.inboxes, old(asm.Pending())), r))
    {
      hide GapFree, Keepalives, DrainRun, Covers, Now, Valid, Arrival, ReadOne, QueuesOf, Holds;
      r := DrainOnly();
      NowIs();
      NowCovers();
      HoldsQueues(subscribers);
      if r.Fail? {
        return;
      }
      if timeout {
        r := DrainOnly();
        NowIs();
        if r.Fail? {
          return;
        }
        r := KeepAlive();
      } else {
        var n := ReadMessage(rx);
        if n.Err? {
          return Fail(Transport(n.error));
        }
        r := HandleMessage(rx[..n.value], asm);
      }
    }

    /** The second drain of a round, and the keepalive after it. */
    ghost predicate TimedOut(second: Outflow, r: Outcome<Error>)
      reads this, link, Subs(subscribers)
    {
      if second.result.Fail? then r == second.result
      else && QueuesOf(subscribers) == second.net.inboxes
           && r == if second.net.budget > 0 then Pass else Fail(Transport(Io))
    }

    /** The next message of the stream has been handled. */
    ghost predicate Handled(stream: seq<byte>, capacity: nat, asm: FragmentAssembler, before: Inflow, r: Outcome<Error>)
      requires asm.Valid() && Holds(subscribers, before.inboxes)
      reads this, link, Subs(subscribers), asm, asm.buf
    {
      match ReadOne(stream, capacity)
      case Err(e) => r == Fail(Transport(e))
      case Ok((message, rest)) =>
        && link.input == rest
        && (Inflow(QueuesOf(subscribers), asm.Pending()), r) == Arrival(subscribers, message, asm.buf.Length, before)
    }

    method DrainOnly() returns (r: Outcome<Error>)
      requires Valid()
      modifies `sn, link, publishers, Subs(subscribers)
      ensures Valid() && Keepalives(link.sent) == Keepalives(old(link.sent)) && link.input == old(link.input)
      ensures old(Numbered()) ==> Numbered()
      ensures Covers(publishers, subscribers, old(Now()))
      ensures var run := DrainRun(mode, publishers, subscribers, gid, old(Now()));
        Now() == run.net && r == run.result && link.sent == old(link.sent) + run.frames
    {
      hide DrainRun, Covers, Now, Keepalives, GapFree, Spec;
      NowCovers();
      ghost var before, sent := Now(), link.sent;
      r := DrainPublishers();
      DrainSendsNoKeepalive(mode, publishers, subscribers, gid, before, sent);
    }

    method ReadMessage(rx: array<byte>) returns (n: Result<nat, TE>)
      requires Valid()
      modifies link, rx
      ensures Valid() && link.sent == old(link.sent) && link.budget == old(link.budget)
      ensures QueuesOf(subscribers) == old(QueuesOf(subscribers))
      ensures match ReadOne(old(link.input), rx.Length)
        case Ok((f, rest)) => n == Ok(|f|) && |f| <= rx.Length && rx[..|f|] == f && link.input == rest
        case Err(e) => n == Err(e)
    {
      hide ReadOne, Publisher.Valid;
      n := link.ReadFrame(rx);
    }

    method KeepAlive() returns (r: Outcome<Error>)
      requires Valid()
      modifies link
      ensures Valid() && (old(Numbered()) ==> Numbered())
      ensures Keepalives(link.sent) == Keepalives(old(link.sent)) + if r.Pass? then 1 else 0
      ensures r == if old(link.budget) > 0 then Pass else Fail(Transport(Io))
      ensures r.Pass? ==> link.sent == old(link.sent) + [[KEEP_ALIVE]]
      ensures QueuesOf(subscribers) == old(QueuesOf(subscribers))
    {
      hide Publisher.Valid, Keepalives;
      r := SendKeepalive();
      OneKeepalive(old(link.sent));
    }

    /** What went out during rounds of spinning: `counts[i]` messages had been sent before round `i`. A round
        that ends with a timeout always sends something, any other one if and only if its drain does. */
    ghost predicate Spun(rounds: seq<Round>, timeouts: seq<bool>, waits: seq<nat>, counts: seq<nat>) {
      && |rounds| <= |timeouts| == |waits| && |counts| == |rounds| + 1
      && forall i | 0 <= i < |rounds| ::
           && rounds[i].timeout == timeouts[i] && rounds[i].waited == waits[i] && counts[i] <= counts[i + 1]
           && (counts[i] < counts[i + 1] <==> rounds[i].sends || timeouts[i])
    }

    /** Drives the session for as long as nothing fails; `timeouts` says in which rounds the read times out
        before a message comes, and `waits` how long it takes. One keepalive is sent for each timeout and none
        for anything else, so steady incoming traffic suppresses them. The frames stay numbered without a
        gap. The rounds are what the longest silence depends on. */
    method Spin(timeouts: seq<bool>, ghost waits: seq<nat>)
      returns (r: Outcome<Error>, ghost rounds: seq<Round>, ghost counts: seq<nat>)
      requires Valid() && |waits| == |timeouts|
      modifies `sn, link, publishers, Subs(subscribers)
      ensures Valid()
      ensures old(Numbered()) ==> Numbered()
      ensures r.Pass? ==> Keepalives(link.sent) == Keepalives(old(link.sent)) + CountTimeouts(timeouts)
      ensures (forall i | 0 <= i < |timeouts| :: !timeouts[i]) ==> Keepalives(link.sent) == Keepalives(old(link.sent))
      ensures Spun(rounds, timeouts, waits, counts) && counts[0] == |old(link.sent)|
      ensures r.Pass? ==> |rounds| == |timeouts| && counts[|rounds|] == |link.sent|
    {
      hide GapFree, Keepalives;
      var rx := new byte[RX_BUF_SIZE];
      var asm := new FragmentAssembler(FRAGMENT_BUF_SIZE);
      r, rounds, counts := SpinOn(timeouts, waits, rx, asm);
    }

    method SpinOn(timeouts: seq<bool>, ghost waits: seq<nat>, rx: array<byte>, asm: FragmentAssembler)
      returns (r: Outcome<Error>, ghost rounds: seq<Round>, ghost counts: seq<nat>)
      requires Valid() && asm.Valid() && rx != asm.buf && |waits| == |timeouts|
      modifies `sn, link, publishers, Subs(subscribers), rx, asm, asm.buf
      ensures Valid()
      ensures old(Numbered()) ==> Numbered()
      ensures r.Pass? ==> Keepalives(link.sent) == Keepalives(old(link.sent)) + CountTimeouts(timeouts)
      ensures (forall i | 0 <= i < |timeouts| :: !timeouts[i]) ==> Keepalives(link.sent) == Keepalives(old(link.sent))
      ensures Spun(rounds, timeouts, waits, counts) && counts[0] == |old(link.sent)|
      ensures r.Pass? ==> |rounds| == |timeouts| && counts[|rounds|] == |link.sent|
    {
      hide GapFree, Keepalives, Valid, Numbered, DrainRun, Covers, Holds, TimedOut, Handled, Now, Spun;
      ghost var sent, numbered := link.sent, Numbered();
      rounds, counts := [], [|link.sent|];
      SpunNone(timeouts, waits, |link.sent|);
      for i := 0 to |timeouts|
        invariant Valid() && asm.Valid() && (numbered ==> Numbered())
        invariant Keepalives(link.sent) == Keepalives(sent) + CountTimeouts(timeouts[..i])
        invariant Spun(rounds, timeouts, waits, counts) && |rounds| == i && |counts| == i + 1
        invariant counts[0] == |sent| && counts[i] == |link.sent|
      {
        CountNext(timeouts, i);
        ghost var sends;
        r, sends := SpinRound(timeouts[i], rx, asm);
        if r.Fail? {
          CountNone(timeouts, i);
          return;
        }
        SpunNext(rounds, timeouts, waits, counts, sends, |link.sent|);
        rounds, counts := rounds + [Round(sends, waits[i], timeouts[i])], counts + [|link.sent|];
      }
      assert timeouts[..|timeouts|] == timeouts;
      CountNone(timeouts, |timeouts|);
      return Pass, rounds, counts;
    }

    /** One round, and whether its first drain sent something. */
    method SpinRound(timeout: bool, rx: array<byte>, asm: FragmentAssembler)
      returns (r: Outcome<Error>, ghost sends: bool)
      requires Valid() && asm.Valid() && rx != asm.buf
      modifies `sn, link, publishers, Subs(subscribers), rx, asm, asm.buf
      ensures Valid() && asm.Valid()
      ensures old(Numbered()) ==> Numbered()
      ensures r.Pass? ==> Keepalives(link.sent) == Keepalives(old(link.sent)) + if timeout then 1 else 0
      ensures Keepalives(old(link.sent)) <= Keepalives(link.sent)
      ensures Keepalives(link.sent) <= Keepalives(old(link.sent)) + if timeout then 1 else 0
      ensures r.Pass? ==> |old(link.sent)| <= |link.sent|
      ensures r.Pass? ==> (|old(link.sent)| < |link.sent| <==> sends || timeout)
    {
      hide GapFree, Keepalives, Valid, Numbered, DrainRun, Covers, Holds, TimedOut, Handled, Now;
      NowCovers();
      sends := DrainRun(mode, publishers, subscribers, gid, Now()).frames != [];
      r := SpinOnce(timeout, rx, asm);
    }

    lemma SpunNone(timeouts: seq<bool>, waits: seq<nat>, count: nat)
      requires |waits| == |timeouts|
      ensures Spun([], timeouts, waits, [count])
    {
    }

    lemma SpunNext(rounds: seq<Round>, timeouts: seq<bool>, waits: seq<nat>, counts: seq<nat>, sends: bool, count: nat)
      requires Spun(rounds, timeouts, waits, counts) && |rounds| < |timeouts| && |counts| == |rounds| + 1
      requires counts[|rounds|] <= count && (counts[|rounds|] < count <==> sends || timeouts[|rounds|])
      ensures var i := |rounds|;
        Spun(rounds + [Round(sends, waits[i], timeouts[i])], timeouts, waits, counts + [count])
    {
    }

    /** Spins until the connection drops, then waits. Because the policy is started afresh each time, the wait
        is always the initial delay and never grows, and a limit on the attempts counts one of them only. */
    method SpinAndBackoff(policy: ReconnectPolicy, timeouts: seq<bool>, ghost waits: seq<nat>) returns (waited: nat)
      requires Valid() && |waits| == |timeouts|
      modifies `sn, link, publishers, Subs(subscribers), policy
      ensures policy.Valid() && waited == policy.initialDelay && policy.attempts == 1
      ensures policy.ShouldRetry() <==> policy.maxAttempts != 1
    {
      policy.Reset();
      var _, _, _ := Spin(timeouts, waits);
      waited := policy.WaitAndAdvance();
    }
  }
}
