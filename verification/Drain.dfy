/** What draining one publisher does, as a function of its queue, the sequence number
    and the link, and the steps from which the node's drain loops are made. */
module Drains {
  import opened Common
  import opened Writing
  import opened Utf8
  import opened Grammar
  import opened Encode
  import opened Names
  import opened Cdr
  import opened CdrProofs
  import opened CdrCodec
  import opened Transmit
  import opened Failures
  import opened Queues
  import opened Routing

  type TE = TransportError

  datatype Error = Transport(error: TransportError) | InvalidArgument | Serialization(cdr: CdrError)

  // ── Specification of one drain ────────────────────────────────────────

  /** What draining one publisher does: the frames it adds, the next sequence number, what is queued
      afterwards, how many messages were taken out and dispatched locally, and the result. */
  datatype Drained = Drained(frames: seq<seq<byte>>, sn: nat, kept: seq<Message>, taken: nat, result: Outcome<Error>)

  function DrainSpec(locality: Locality, key: Option<text>, gid: seq<byte>, sn: nat, ms: seq<Message>,
          budget: nat): (d: Drained)
    requires |gid| <= 16 && AllFit(ms) && (key.Some? ==> |key.value| <= 256)
    ensures |d.frames| <= budget
  {
    if locality == SessionLocal then Drained([], sn, [], |ms|, Pass)
    else if key.None? then Drained([], sn, ms, 0, Fail(InvalidArgument))
    else
      var s := Sender(key.value, gid);
      var groups := Packing(s, sn, ms);
      var frames := Frames(s, sn, groups);
      if |groups| <= budget then Drained(frames, (sn + |groups|) % U64, [], |ms|, Pass)
      else
        var kept := Kept(groups, budget);
        Drained(frames[..budget], (sn + budget + 1) % U64, kept, |ms| + 1 - Min(|kept|, |ms|), Fail(Transport(Io)))
  }

  function Payloads(ms: seq<Message>): seq<seq<byte>> {
    seq(|ms|, i requires 0 <= i < |ms| => ms[i].data)
  }

  /** The payloads that a drain dispatches to the local subscriptions. */
  function Dispatched(locality: Locality, ms: seq<Message>, taken: nat): seq<seq<byte>> {
    if locality == Remote then [] else Payloads(ms[..Min(taken, |ms|)])
  }

  /** All frames were written. */
  lemma DrainPasses(locality: Locality, key: text, gid: seq<byte>, sn: nat, ms: seq<Message>, budget: nat)
    requires locality != SessionLocal && |gid| <= 16 && AllFit(ms) && |key| <= 256
    requires |Packing(Sender(key, gid), sn, ms)| <= budget
    ensures var groups := Packing(Sender(key, gid), sn, ms);
      DrainSpec(locality, Some(key), gid, sn, ms, budget)
      == Drained(Frames(Sender(key, gid), sn, groups)[..|groups|], (sn + |groups|) % U64, [], |ms|, Pass)
  {
    hide Frames, Packing, AllFit;
  }

  /** The write of frame `budget` failed. */
  lemma DrainFails(locality: Locality, key: text, gid: seq<byte>, sn: nat, ms: seq<Message>, budget: nat)
    requires locality != SessionLocal && |gid| <= 16 && AllFit(ms) && |key| <= 256
    requires budget < |Packing(Sender(key, gid), sn, ms)|
    ensures var groups := Packing(Sender(key, gid), sn, ms);
      var kept := Kept(groups, budget);
      && |kept| <= |ms|
      && DrainSpec(locality, Some(key), gid, sn, ms, budget)
         == Drained(Frames(Sender(key, gid), sn, groups)[..budget], (sn + budget + 1) % U64, kept,
                    |ms| + 1 - |kept|, Fail(Transport(Io)))
  {
    hide Frames, Packing, Kept, AllFit, Flatten, Acked, Lost;
    DrainConserves(Packing(Sender(key, gid), sn, ms), budget);
  }

  /** A message that was kept after a failed write has been dispatched to the local subscriptions: it is the
      last one that this drain dispatched, and the first one that the next drain will find. */
  lemma StashDispatchedTwice(key: text, gid: seq<byte>, sn: nat, ms: seq<Message>, budget: nat)
    requires |gid| <= 16 && AllFit(ms) && |key| <= 256
    ensures var d := DrainSpec(Any, Some(key), gid, sn, ms, budget);
      d.result.Fail? ==> (
        && 0 < d.taken <= |ms| && d.kept == ms[d.taken - 1..]
        && Dispatched(Any, ms, d.taken) == Payloads(ms[..d.taken])
        && Payloads(ms[..d.taken])[d.taken - 1] == d.kept[0].data)
  {
    hide Packing, Frames, Flatten, Kept, Lost, Acked, AllFit;
    var groups := Packing(Sender(key, gid), sn, ms);
    if |groups| <= budget {
      DrainPasses(Any, key, gid, sn, ms, budget);
    } else {
      DrainFails(Any, key, gid, sn, ms, budget);
      KeptIsRest(groups, budget);
    }
  }

  lemma KeptIsRest(groups: seq<seq<Message>>, budget: nat)
    requires NoneEmpty(groups)
    ensures var kept, ms := Kept(groups, budget), Flatten(groups);
      |kept| <= |ms| && kept == ms[|ms| - |kept|..] && (budget < |groups| ==> kept != [])
  {
    hide Flatten, Kept, Lost, Acked;
    DrainConserves(groups, budget);
    var before := Flatten(Acked(groups, budget)) + Lost(groups, budget);
    assert (before + Kept(groups, budget))[|before|..] == Kept(groups, budget);
  }

  // ── From sender to receiver on one node ───────────────────────────────

  /** Values that were encoded, queued, drained and dispatched locally to a subscription that was empty: it
      holds the first ones, as many as its capacity, and what it returns for each is the value that was sent
      if and only if the characters of that value are all at most U+00FF. */
  lemma LocalEndToEnd(locality: Locality, entries: seq<Entry>, topic: Topic, vs: seq<Val>, t: Ty, ms: seq<Message>,
          qs: Inboxes, d: Subscription)
    requires locality != Remote && |vs| == |ms|
    requires (forall i | 0 <= i < |entries| :: entries[i].dispatch in qs) && d in qs && qs[d] == []
    requires Matches(entries, topic, d) == 1
    requires forall i | 0 <= i < |vs| :: HasType(vs[i], t) && ms[i].data == EncWithHeader(vs[i], t)
    requires forall i | 0 <= i < |vs| :: |ms[i].data| <= CDR_DRAIN_BUF && |ms[i].data| <= d.msgSize
    ensures var q := DispatchAll(entries, topic, Dispatched(locality, ClipAll(ms), |ms|), qs)[d];
      && |q| == Min(d.queueCap, |ms|)
      && forall i | 0 <= i < |q| :: Decoded(t, q[i]) == Ok(vs[i]) <==> Latin(vs[i])
  {
    hide DispatchAll, Matches, EncWithHeader, DecWithHeader, HasType, Latin, Repeated, Dispatched;
    WholePayloads(locality, ms);
    var payloads := Payloads(ms);
    LocalDeliveryFifo(entries, topic, payloads, qs, d);
    var q := DispatchAll(entries, topic, payloads, qs)[d];
    assert q == [] + Cut(payloads, d.msgSize)[..Min(d.queueCap, |ms|)];
    forall i | 0 <= i < |q|
      ensures Decoded(t, q[i]) == Ok(vs[i]) <==> Latin(vs[i])
    {
      var data := ms[i].data;
      assert data[..|data|] == data && q[i] == data;
      HeaderRoundTrip(vs[i], t, []);
      assert data + [] == data;
    }
  }

  lemma WholePayloads(locality: Locality, ms: seq<Message>)
    requires locality != Remote && AllFit(ms)
    ensures Dispatched(locality, ClipAll(ms), |ms|) == Payloads(ms)
  {
    assert ClipAll(ms) == ms;
    assert ms[..|ms|] == ms;
  }

  // ── Steps of the packing loop ─────────────────────────────────────────

  /** The loop has written `k` frames, holds `open` in the next one, and has `rest` still to drain. */
  ghost predicate Progress(s: Sender, sn: nat, groups: seq<seq<Message>>, k: nat, open: seq<Message>,
          rest: seq<Message>)
    requires s.Valid()
  {
    && AllFit(open) && AllFit(rest)
    && AllGroupsFit(groups)
    && k <= |groups|
    && groups[k..] == Pack(s, sn + k, open, rest)
    && |FrameOf(s, sn + k, open)| <= TX_FRAME_BUF
  }

  lemma ProgressStart(s: Sender, sn: nat, ms: seq<Message>)
    requires s.Valid() && AllFit(ms)
    ensures Progress(s, sn, Packing(s, sn, ms), 0, [], ms)
  {
    EmptyFrame(s, sn);
    assert Packing(s, sn, ms)[0..] == Pack(s, sn, [], ms);
  }

  predicate Overflows(s: Sender, sn: nat, open: seq<Message>, m: Message)
    requires s.Valid() && AllFit(open)
  {
    open != [] && |FrameOf(s, sn, open)| + Estimate(s, m) > TX_FRAME_BUF
  }

  /** The next message goes into the open frame. */
  lemma ProgressAdd(s: Sender, sn: nat, groups: seq<seq<Message>>, k: nat, open: seq<Message>, m: Message,
          rest: seq<Message>)
    requires s.Valid() && Progress(s, sn, groups, k, open, [m] + rest) && !Overflows(s, sn + k, open, m)
    ensures AllFit(open + [m]) && |FrameOf(s, sn + k, open + [m])| <= TX_FRAME_BUF
    ensures Progress(s, sn, groups, k, open + [m], rest)
  {
    hide FrameOf, Estimate;
    PackStep(s, sn + k, open, [m] + rest);
    assert ([m] + rest)[1..] == rest;
    EstimateSound(s, sn + k, open, m);
  }

  /** The open frame is closed; the next message starts another one. If the write fails, that
      message and everything behind it is what is kept. */
  lemma ProgressFlush(s: Sender, sn: nat, groups: seq<seq<Message>>, k: nat, open: seq<Message>, m: Message,
          rest: seq<Message>)
    requires s.Valid() && NoneEmpty(groups) && Progress(s, sn, groups, k, open, [m] + rest)
    requires Overflows(s, sn + k, open, m)
    ensures k + 1 < |groups| && groups[k] == open
    ensures Kept(groups, k) == [m] + rest
    ensures Progress(s, sn, groups, k + 1, [], [m] + rest)
  {
    hide FrameOf, Estimate;
    var all := [m] + rest;
    PackStep(s, sn + k, open, all);
    assert all[1..] == rest;
    var next := Pack(s, sn + (k + 1), [m], rest);
    assert groups[k..] == [open] + next;
    assert groups[k] == groups[k..][0] && groups[k + 1..] == groups[k..][1..] == next;
    FlattenPack(s, sn + (k + 1), [m], rest);
    assert [] + [m] == [m];
    assert Pack(s, sn + (k + 1), [], all) == next;
    PackNotEmpty(s, sn + (k + 1), [m], rest);
    EmptyFrame(s, sn + (k + 1));
  }

  lemma {:induction false} PackNotEmpty(s: Sender, sn: nat, open: seq<Message>, ms: seq<Message>)
    requires s.Valid() && AllFit(open) && AllFit(ms) && open != []
    ensures Pack(s, sn, open, ms) != []
    decreases |ms|
  {
    hide FrameOf, Estimate, AllFit;
    if ms != [] {
      PackStep(s, sn, open, ms);
      if !(|FrameOf(s, sn, open)| + Estimate(s, ms[0]) > TX_FRAME_BUF) {
        PackNotEmpty(s, sn, open + [ms[0]], ms[1..]);
      }
    }
  }

  /** Nothing is left to drain: the open frame, if any, is the last one. */
  lemma ProgressEnd(s: Sender, sn: nat, groups: seq<seq<Message>>, k: nat, open: seq<Message>)
    requires s.Valid() && NoneEmpty(groups) && Progress(s, sn, groups, k, open, [])
    ensures open == [] ==> k == |groups|
    ensures open != [] ==> k + 1 == |groups| && groups[k] == open && Kept(groups, k) == [open[|open| - 1]]
  {
    hide FrameOf;
    if open != [] {
      assert groups[k..] == [open];
      assert groups[k] == groups[k..][0];
    }
  }

  /** One more frame has been written. */
  lemma FramesSnoc(s: Sender, sn: nat, groups: seq<seq<Message>>, k: nat)
    requires s.Valid() && AllGroupsFit(groups) && k < |groups|
    ensures Frames(s, sn, groups)[..k + 1] == Frames(s, sn, groups)[..k] + [FrameOf(s, sn + k, groups[k])]
  {
    hide FrameOf;
    FrameNumber(s, sn, groups, k);
  }

  lemma {:induction false} FrameNumber(s: Sender, sn: nat, groups: seq<seq<Message>>, k: nat)
    requires s.Valid() && AllGroupsFit(groups) && k < |groups|
    ensures groups[k] in groups && Frames(s, sn, groups)[k] == FrameOf(s, sn + k, groups[k])
    decreases k
  {
    hide FrameOf, AllFit;
    if k > 0 {
      FrameNumber(s, sn + 1, groups[1..], k - 1);
      assert sn + 1 + (k - 1) == sn + k;
    }
  }

  // ── Building a frame ──────────────────────────────────────────────────

  /** The header always fits into an empty frame buffer, so the encoder's error is never returned. */
  method StartFrame(w: Writer, s: Sender, sn: nat, ghost n: nat)
    requires w.Valid() && w.buf.Length == TX_FRAME_BUF && s.Valid() && sn < U64 && sn == n % U64
    modifies w, w.buf
    ensures w.Valid() && w.Written() == FrameOf(s, n, [])
  {
    hide FrameHeaderBytes, FrameOf;
    EmptyFrame(s, n);
    w.Restart();
    var r := EncodeFrameHeader(w, sn, true);
    if r.Fail? {
      assert false;
    }
    assert [] + FrameOf(s, n, []) == FrameOf(s, n, []);
  }

  /** A message that the packing rule lets in always fits, so the encoder's error is never returned. */
  method AddMessage(w: Writer, s: Sender, data: seq<byte>, seqNum: int, timestamp: int, ghost n: nat,
          ghost open: seq<Message>)
    requires w.Valid() && w.buf.Length == TX_FRAME_BUF && s.Valid() && AllFit(open) && |data| <= CDR_DRAIN_BUF
    requires w.Written() == FrameOf(s, n, open)
    requires |FrameOf(s, n, open + [Message(data, seqNum, timestamp)])| <= TX_FRAME_BUF
    modifies w, w.buf
    ensures w.Valid() && w.Written() == FrameOf(s, n, open + [Message(data, seqNum, timestamp)])
  {
    hide FrameOf, Push.Bytes, DataPush;
    FrameSnoc(s, n, open, Message(data, seqNum, timestamp));
    var r := EncodePushPutWithAttachment(w, s.key, data, seqNum, timestamp, s.gid);
    if r.Fail? {
      assert false;
    }
  }

  // ── Taking messages out of a queue ────────────────────────────────────

  lemma ClipFirst(ms: seq<Message>)
    requires ms != []
    ensures ClipAll(ms) == [Clip(ms[0])] + ClipAll(ms[1..])
  {
  }

  /** The first `taken` messages have been dispatched to the local subscriptions, and nothing else has. */
  ghost predicate HandedOut(locality: Locality, topic: Topic, entries: seq<Entry>, ms: seq<Message>, taken: nat,
          before: Inboxes, now: Inboxes) {
    before.Keys == Subs(entries) && now == DispatchAll(entries, topic, Dispatched(locality, ms, taken), before)
  }

  /** `pending` is the end of `ms`, and the messages of `ms` before it have been dispatched. */
  ghost predicate Dispatching(locality: Locality, topic: Topic, entries: seq<Entry>, pending: seq<Message>,
          ms: seq<Message>, before: Inboxes, now: Inboxes) {
    && |pending| <= |ms|
    && ClipAll(pending) == ms[|ms| - |pending|..]
    && HandedOut(locality, topic, entries, ms, |ms| - |pending|, before, now)
  }

  lemma DispatchingStart(p: Publisher, entries: seq<Entry>)
    ensures Dispatching(p.locality, p.topic, entries, p.Pending(), ClipAll(p.Pending()), QueuesOf(entries),
        QueuesOf(entries))
  {
    hide ClipAll, Publisher.Pending;
    var ms := ClipAll(p.Pending());
    assert ms[0..] == ms;
    assert Payloads(ms[..0]) == [];
  }

  lemma DispatchingRest(locality: Locality, topic: Topic, entries: seq<Entry>, pending: seq<Message>, ms: seq<Message>,
          before: Inboxes, now: Inboxes)
    requires Dispatching(locality, topic, entries, pending, ms, before, now)
    ensures |pending| <= |ms| && ClipAll(pending) == ms[|ms| - |pending|..]
    ensures HandedOut(locality, topic, entries, ms, |ms| - |pending|, before, now)
    ensures pending != [] ==> Clip(pending[0]) == ms[|ms| - |pending|]
  {
    hide DispatchAll, Dispatched;
  }

  lemma DispatchedNone(p: Publisher, entries: seq<Entry>)
    ensures HandedOut(p.locality, p.topic, entries, ClipAll(p.Pending()), 0, QueuesOf(entries), QueuesOf(entries))
  {
    DispatchingStart(p, entries);
  }

  lemma DispatchedSnoc(locality: Locality, ms: seq<Message>, n: nat)
    requires n < |ms|
    ensures locality == Remote ==> Dispatched(locality, ms, n + 1) == Dispatched(locality, ms, n)
    ensures locality != Remote ==> Dispatched(locality, ms, n + 1) == Dispatched(locality, ms, n) + [ms[n].data]
  {
    assert ms[..n + 1] == ms[..n] + [ms[n]];
  }

  /** Dispatches the message with index `n` to the local subscriptions, unless the publisher is remote-only. */
  method Deliver(locality: Locality, topic: Topic, entries: seq<Entry>, payload: seq<byte>, ghost ms: seq<Message>,
          ghost n: nat, ghost before: Inboxes)
    requires ValidSubs(entries) && n < |ms| && payload == ms[n].data
    requires HandedOut(locality, topic, entries, ms, n, before, QueuesOf(entries))
    modifies Subs(entries)
    ensures ValidSubs(entries)
    ensures HandedOut(locality, topic, entries, ms, n + 1, before, QueuesOf(entries))
  {
    hide Dispatch, DispatchAll, Dispatched;
    DispatchedSnoc(locality, ms, n);
    if locality != Remote {
      DispatchAllSnoc(entries, topic, Dispatched(locality, ms, n), payload, before);
      DispatchLocal(entries, topic, payload);
    }
  }

  lemma NextOf(all: seq<Message>, ms: seq<Message>)
    requires all != [] && |all| <= |ms| && ClipAll(all) == ms[|ms| - |all|..]
    ensures Clip(all[0]) == ms[|ms| - |all|]
    ensures ClipAll(all[1..]) == ms[|ms| - |all| + 1..]
  {
    ClipFirst(all);
    assert ms[|ms| - |all|..][1..] == ms[|ms| - |all| + 1..];
  }

  /** Takes the next message and dispatches it to the local subscriptions unless the publisher is remote-only. */
  method TakeNext(p: Publisher, entries: seq<Entry>, scratch: array<byte>, ghost ms: seq<Message>,
          ghost before: Inboxes)
    returns (d: Option<(nat, int, int)>)
    requires p.Valid() && ValidSubs(entries) && scratch.Length == CDR_DRAIN_BUF
    requires Dispatching(p.locality, p.topic, entries, p.Pending(), ms, before, QueuesOf(entries))
    modifies p, scratch, Subs(entries)
    ensures p.Valid() && ValidSubs(entries)
    ensures Dispatching(p.locality, p.topic, entries, p.Pending(), ms, before, QueuesOf(entries))
    ensures d.None? <==> old(p.Pending()) == []
    ensures d.None? ==> p.Pending() == [] && scratch[..] == old(scratch[..])
    ensures d.Some? ==> p.Pending() == old(p.Pending())[1..] && p.retry == None
    ensures d.Some? ==> d.value.0 <= CDR_DRAIN_BUF
    ensures d.Some? ==> Message(scratch[..d.value.0], d.value.1, d.value.2) == Clip(old(p.Pending())[0])
  {
    hide Dispatch, DispatchAll, Dispatched, ClipAll, Publisher.Pending;
    ghost var all := p.Pending();
    d := p.TryDrainInto(scratch);
    if d.Some? {
      NextOf(all, ms);
      Deliver(p.locality, p.topic, entries, scratch[..d.value.0], ms, |ms| - |all|, before);
    }
  }
}
