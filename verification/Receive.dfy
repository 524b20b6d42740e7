/** What the node does with what it receives: frames, fragments and the answers to
    service calls. */
module Receiving {
  import opened Common
  import opened Grammar
  import opened Decode
  import opened Completeness
  import opened VByte
  import opened OtherMessages
  import opened Names
  import opened Queues
  import opened Framing
  import opened Routing
  import opened Drains
  import opened Fragments

  const FRAGMENT_BUF_SIZE: nat := 16384
  const RX_BUF_SIZE: nat := 4096

  // ── Specification ─────────────────────────────────────────────────────

  /** The queues after the body of a frame, or an assembled message, was delivered: its first Push of a
      Put goes to the subscription declared under its scope, and whatever follows is ignored. */
  ghost function Delivered(entries: seq<Entry>, body: seq<byte>, qs: Inboxes): (qs': Inboxes)
    requires forall i | 0 <= i < |entries| :: entries[i].dispatch in qs
    ensures qs'.Keys == qs.Keys
  {
    match PushPut(body)
    case Ok(Some((put, _))) =>
      TargetInTable(entries, put.scope);
      Route(entries, put.scope, put.payload, qs)
    case _ => qs
  }

  /** What one received message changes: the queues and the message under reassembly. */
  datatype Inflow = Inflow(inboxes: Inboxes, pending: Option<seq<byte>>)

  ghost predicate Holds(entries: seq<Entry>, qs: Inboxes) {
    forall i | 0 <= i < |entries| :: entries[i].dispatch in qs
  }

  ghost function Arrival(entries: seq<Entry>, message: seq<byte>, cap: nat, st: Inflow): (Inflow, Outcome<Error>)
    requires Holds(entries, st.inboxes)
  {
    if message == [] then (st, Pass)
    else if message[0] % 32 == FRAME then
      match FrameHeader(message)
      case Ok((_, _, pos)) => (Inflow(Delivered(entries, message[pos..], st.inboxes), st.pending), Pass)
      case Err(_) => (st, Pass)
    else if message[0] % 32 == FRAGMENT then
      match FragmentHeader(message)
      case Ok((_, _, more, pos)) =>
        (var (pending, out) := Step(st.pending, cap, Fragment(more, message[pos..]));
         match out
         case Ok(Some(assembled)) => (Inflow(Delivered(entries, assembled, st.inboxes), pending), Pass)
         case _ => (Inflow(st.inboxes, pending), Pass))
      case Err(_) => (st, Pass)
    else if message[0] % 32 == CLOSE then (st, Fail(Transport(ConnectionClosed)))
    else (st, Pass)
  }

  // ── Dispatching one message ───────────────────────────────────────────

  method DeliverBody(entries: seq<Entry>, body: seq<byte>)
    requires ValidSubs(entries)
    modifies Subs(entries)
    ensures ValidSubs(entries)
    ensures QueuesOf(entries) == Delivered(entries, body, old(QueuesOf(entries)))
  {
    hide PushPut, Route;
    var x := DecodePushPut(body);
    if x.Ok? && x.value.Some? {
      var (put, _) := x.value.value;
      RouteToSubscribers(entries, put.scope, put.payload);
    }
  }

  method DispatchFrame(entries: seq<Entry>, message: seq<byte>, asm: FragmentAssembler) returns (r: Outcome<Error>)
    requires ValidSubs(entries) && asm.Valid()
    modifies Subs(entries), asm, asm.buf
    ensures ValidSubs(entries) && asm.Valid()
    ensures Holds(entries, old(QueuesOf(entries)))
    ensures (Inflow(QueuesOf(entries), asm.Pending()), r)
         == Arrival(entries, message, asm.buf.Length, old(Inflow(QueuesOf(entries), asm.Pending())))
  {
    hide FrameHeader, FragmentHeader, Delivered, Step, Route;
    assert Holds(entries, QueuesOf(entries)) by {
      assert forall i | 0 <= i < |entries| :: entries[i].dispatch in Subs(entries);
    }
    if |message| == 0 {
      return Pass;
    }
    var kind := message[0] % 32;
    if kind == FRAME {
      var h := DecodeFrameHeader(message);
      if h.Ok? {
        DeliverBody(entries, message[h.value.2..]);
      }
      return Pass;
    } else if kind == FRAGMENT {
      var h := DecodeFragmentHeader(message);
      if h.Ok? {
        var (_, _, more, pos) := h.value;
        var out := asm.Feed(more, message[pos..]);
        if out.Ok? && out.value.Some? {
          DeliverBody(entries, out.value.value);
        }
      }
      return Pass;
    } else if kind == CLOSE {
      return Fail(Transport(ConnectionClosed));
    }
    return Pass;
  }

  // ── Fragmented and unfragmented delivery ──────────────────────────────

  /** The queues and the message under reassembly after a run of messages. */
  ghost function Arrivals(entries: seq<Entry>, messages: seq<seq<byte>>, cap: nat, st: Inflow): (st': Inflow)
    requires Holds(entries, st.inboxes)
    decreases |messages|
  {
    if messages == [] then st else Arrivals(entries, messages[1..], cap, Arrival(entries, messages[0], cap, st).0)
  }

  /** One transport message for each fragment, with any sequence numbers. */
  function Carried(sns: seq<nat>, fragments: seq<Fragment>): seq<seq<byte>>
    requires |sns| == |fragments|
  {
    seq(|sns|, i requires 0 <= i < |sns| =>
      FragmentHeaderBytes(sns[i], true, fragments[i].more, []) + fragments[i].payload)
  }

  /** One frame for each body. */
  function InFrames(sns: seq<nat>, bodies: seq<seq<byte>>): seq<seq<byte>>
    requires |sns| == |bodies|
  {
    seq(|sns|, i requires 0 <= i < |sns| => FrameHeaderBytes(sns[i], true, []) + bodies[i])
  }

  /** Delivering several bodies one after the other. */
  ghost function DeliveredAll(entries: seq<Entry>, bodies: seq<seq<byte>>, qs: Inboxes): (qs': Inboxes)
    requires Holds(entries, qs)
    ensures qs'.Keys == qs.Keys
    decreases |bodies|
  {
    if bodies == [] then qs else DeliveredAll(entries, bodies[1..], Delivered(entries, bodies[0], qs))
  }

  lemma FrameArrives(entries: seq<Entry>, sn: nat, body: seq<byte>, cap: nat, st: Inflow)
    requires Holds(entries, st.inboxes) && sn < U64
    ensures Arrival(entries, FrameHeaderBytes(sn, true, []) + body, cap, st)
        == (Inflow(Delivered(entries, body, st.inboxes), st.pending), Pass)
  {
    var h := FrameHeaderBytes(sn, true, []);
    assert (h + body)[0] == h[0] == Header(FRAME, true, false, false);
    FrameHeaderComplete(sn, true, [], body);
    assert (h + body)[|h|..] == body;
    hide FrameHeader, Delivered, FrameHeaderBytes, Header;
  }

  lemma FragmentArrives(entries: seq<Entry>, sn: nat, more: bool, body: seq<byte>, cap: nat, st: Inflow)
    requires Holds(entries, st.inboxes) && sn < U64
    ensures var (pending, out) := Step(st.pending, cap, Fragment(more, body));
      Arrival(entries, FragmentHeaderBytes(sn, true, more, []) + body, cap, st)
      == (Inflow(if out.Ok? && out.value.Some? then Delivered(entries, out.value.value, st.inboxes) else st.inboxes,
                 pending), Pass)
  {
    var h := FragmentHeaderBytes(sn, true, more, []);
    assert (h + body)[0] == h[0] == Header(FRAGMENT, true, more, false);
    FragmentHeaderComplete(sn, true, more, [], body);
    assert (h + body)[|h|..] == body;
    hide FragmentHeader, Delivered, FragmentHeaderBytes, Header, Step;
  }

  /** Whatever fragments arrive, exactly what the assembler makes of them is delivered. */
  lemma {:induction false} FragmentsArrive(entries: seq<Entry>, sns: seq<nat>, fragments: seq<Fragment>, cap: nat,
          qs: Inboxes, pending: Option<seq<byte>>)
    requires Holds(entries, qs) && |sns| == |fragments| && forall i | 0 <= i < |sns| :: sns[i] < U64
    ensures var (end, out) := Assemble(pending, cap, fragments);
      Arrivals(entries, Carried(sns, fragments), cap, Inflow(qs, pending))
      == Inflow(DeliveredAll(entries, out, qs), end)
    decreases |fragments|
  {
    hide Arrival, Delivered, FragmentHeaderBytes, Step;
    if fragments != [] {
      var f, ms := fragments[0], Carried(sns, fragments);
      assert ms[1..] == Carried(sns[1..], fragments[1..]);
      FragmentArrives(entries, sns[0], f.more, f.payload, cap, Inflow(qs, pending));
      var (next, out) := Step(pending, cap, f);
      var later := Assemble(next, cap, fragments[1..]).1;
      if out.Ok? && out.value.Some? {
        FragmentsArrive(entries, sns[1..], fragments[1..], cap, Delivered(entries, out.value.value, qs), next);
        assert ([out.value.value] + later)[1..] == later;
      } else {
        FragmentsArrive(entries, sns[1..], fragments[1..], cap, qs, next);
        assert [] + later == later;
      }
    }
  }

  lemma {:induction false} FramesArrive(entries: seq<Entry>, sns: seq<nat>, bodies: seq<seq<byte>>, cap: nat,
          st: Inflow)
    requires Holds(entries, st.inboxes) && |sns| == |bodies| && forall i | 0 <= i < |sns| :: sns[i] < U64
    ensures Arrivals(entries, InFrames(sns, bodies), cap, st)
         == Inflow(DeliveredAll(entries, bodies, st.inboxes), st.pending)
    decreases |bodies|
  {
    hide Arrival, Delivered, FrameHeaderBytes;
    if bodies != [] {
      assert InFrames(sns, bodies)[1..] == InFrames(sns[1..], bodies[1..]);
      FrameArrives(entries, sns[0], bodies[0], cap, st);
      FramesArrive(entries, sns[1..], bodies[1..], cap, st.(inboxes := Delivered(entries, bodies[0], st.inboxes)));
    }
  }

  /** Delivering bodies in fragments is delivering them in frames: for every stream of bodies within the
      capacity, each cut into any pieces, one after the other, carried under any sequence numbers, the same
      queues get the same payloads in the same order. */
  lemma FragmentedIsUnfragmented(entries: seq<Entry>, sns: seq<nat>, sns': seq<nat>, bodies: seq<seq<seq<byte>>>,
          cap: nat, qs: Inboxes)
    requires Holds(entries, qs) && |sns| == |Train(bodies)| && |sns'| == |ConcatAll(bodies)|
    requires forall pieces | pieces in bodies :: pieces != [] && |Concat(pieces)| <= cap
    requires (forall i | 0 <= i < |sns| :: sns[i] < U64) && (forall i | 0 <= i < |sns'| :: sns'[i] < U64)
    ensures Arrivals(entries, Carried(sns, Train(bodies)), cap, Inflow(qs, None))
         == Arrivals(entries, InFrames(sns', ConcatAll(bodies)), cap, Inflow(qs, None))
  {
    hide Arrivals, Assemble, Concat, Carried, InFrames, Train, ConcatAll, DeliveredAll;
    StreamReassembled(cap, bodies);
    FragmentsArrive(entries, sns, Train(bodies), cap, qs, None);
    FramesArrive(entries, sns', ConcatAll(bodies), cap, Inflow(qs, None));
  }

  // ── Frames with several messages ──────────────────────────────────────

  /** Of a frame with several messages, exactly the first is delivered, whatever follows it; this is so for
      every Push whose Put reads back, in particular for every one without a schema. */
  lemma OnlyFirstDelivered(entries: seq<Entry>, m: Push, rest: seq<byte>, qs: Inboxes)
    requires Holds(entries, qs) && m.Valid()
    ensures |m.put.Bytes()| <= |m.Bytes()|
    ensures ReadsBack(m.Bytes() + rest, |m.Bytes()| - |m.put.Bytes()|, m.put) ==>
      Delivered(entries, m.Bytes() + rest, qs) == Route(entries, m.key.scope, m.put.payload, qs)
  {
    hide PushPut, Push.Bytes, Put.Bytes, Route, ReadsBack;
    PushPutComplete(m, rest);
  }

  /** Messages that are all read back, whatever follows them. */
  predicate Plain(ms: seq<Push>) {
    forall i | 0 <= i < |ms| :: ms[i].Valid() && ms[i].put.Schema().None?
  }

  function Bodies(ms: seq<Push>): seq<byte>
    requires Plain(ms)
  {
    if ms == [] then [] else ms[0].Bytes() + Bodies(ms[1..])
  }

  /** What routing every message of the frame would do. */
  ghost function EachRouted(entries: seq<Entry>, ms: seq<Push>, qs: Inboxes): (qs': Inboxes)
    requires Holds(entries, qs)
    ensures qs'.Keys == qs.Keys
    decreases |ms|
  {
    if ms == [] then qs else EachRouted(entries, ms[1..], RouteOne(entries, ms[0], qs))
  }

  ghost function RouteOne(entries: seq<Entry>, m: Push, qs: Inboxes): (qs': Inboxes)
    requires Holds(entries, qs)
    ensures qs'.Keys == qs.Keys
  {
    TargetInTable(entries, m.key.scope);
    Route(entries, m.key.scope, m.put.payload, qs)
  }

  /** A message that would change nothing: it has no target, or the queue of its target is full. */
  ghost predicate Ineffective(entries: seq<Entry>, m: Push, qs: Inboxes)
    requires Holds(entries, qs)
  {
    TargetInTable(entries, m.key.scope);
    match Target(entries, m.key.scope)
    case None => true
    case Some(e) => |qs[e.dispatch]| >= e.dispatch.queueCap
  }

  lemma RouteGrows(entries: seq<Entry>, m: Push, qs: Inboxes)
    requires Holds(entries, qs)
    ensures forall d | d in qs :: |qs[d]| <= |RouteOne(entries, m, qs)[d]|
    ensures RouteOne(entries, m, qs) == qs <==> Ineffective(entries, m, qs)
    ensures !Ineffective(entries, m, qs) ==> exists d | d in qs :: |qs[d]| < |RouteOne(entries, m, qs)[d]|
  {
    TargetInTable(entries, m.key.scope);
    var t := Target(entries, m.key.scope);
    if t.Some? {
      var d := t.value.dispatch;
      var qs' := RouteOne(entries, m, qs);
      assert qs'[d] == Offer(qs[d], d.queueCap, d.msgSize, m.put.payload);
      if Ineffective(entries, m, qs) {
        assert qs' == qs;
      } else {
        assert |qs[d]| < |qs'[d]|;
      }
    }
  }

  lemma {:induction false} EachGrows(entries: seq<Entry>, ms: seq<Push>, qs: Inboxes)
    requires Holds(entries, qs)
    ensures forall d | d in qs :: |qs[d]| <= |EachRouted(entries, ms, qs)[d]|
    ensures EachRouted(entries, ms, qs) == qs <==> forall i | 0 <= i < |ms| :: Ineffective(entries, ms[i], qs)
    decreases |ms|
  {
    hide RouteOne, Ineffective;
    if ms != [] {
      RouteGrows(entries, ms[0], qs);
      EachGrows(entries, ms[1..], RouteOne(entries, ms[0], qs));
      assert forall i | 0 < i < |ms| :: ms[i] == ms[1..][i - 1];
    }
  }

  /** A frame is delivered whole, every message of it to the target of its scope, if and only if none of the
      messages behind the first has a target whose queue has room once the first has been delivered. */
  lemma DeliveredWhole(entries: seq<Entry>, ms: seq<Push>, qs: Inboxes)
    requires Holds(entries, qs) && Plain(ms) && ms != []
    ensures Delivered(entries, Bodies(ms), qs) == RouteOne(entries, ms[0], qs)
    ensures Delivered(entries, Bodies(ms), qs) == EachRouted(entries, ms, qs)
       <==> forall i | 1 <= i < |ms| :: Ineffective(entries, ms[i], RouteOne(entries, ms[0], qs))
  {
    hide Delivered, Ineffective, Push.Bytes, RouteOne, Bodies, Plain;
    FirstRouted(entries, ms, qs);
    EachGrows(entries, ms[1..], RouteOne(entries, ms[0], qs));
    assert forall i | 1 <= i < |ms| :: ms[i] == ms[1..][i - 1];
    assert forall i | 0 <= i < |ms[1..]| :: ms[1..][i] == ms[i + 1];
  }

  lemma FirstRouted(entries: seq<Entry>, ms: seq<Push>, qs: Inboxes)
    requires Holds(entries, qs) && Plain(ms) && ms != []
    ensures Delivered(entries, Bodies(ms), qs) == RouteOne(entries, ms[0], qs)
  {
    hide Delivered, Push.Bytes, ReadsBack, Put.Bytes, Route;
    assert Plain(ms[1..]);
    OnlyFirstDelivered(entries, ms[0], Bodies(ms[1..]), qs);
    NoSchemaReadsBack(ms[0].Bytes() + Bodies(ms[1..]), |ms[0].Bytes()| - |ms[0].put.Bytes()|, ms[0].put);
  }

  lemma NoSchemaReadsBack(b: seq<byte>, p: nat, m: Put)
    requires m.Valid() && m.Schema().None?
    ensures ReadsBack(b, p, m)
  {
  }

  lemma RoutedOne(d: Subscription, topic: Topic, m: Push, qs: Inboxes)
    requires d in qs && |qs[d]| < d.queueCap && m.key.scope == 1 && |m.put.payload| <= d.msgSize
    ensures Holds([Entry(1, Any, topic, d)], qs)
    ensures RouteOne([Entry(1, Any, topic, d)], m, qs)[d] == qs[d] + [m.put.payload]
  {
    assert m.put.payload[..|m.put.payload|] == m.put.payload;
  }

  /** Two payloads for a subscription with room for both: the second is lost. */
  lemma SecondIsLost(d: Subscription, topic: Topic, first: seq<byte>, second: seq<byte>)
    requires d.queueCap >= 2 && |first| <= d.msgSize && |second| <= d.msgSize && |first| < U64 && |second| < U64
    ensures var entries := [Entry(1, Any, topic, d)];
      var ms := [Push(WireExpr(true, 1, None), [], Put(None, None, [], first)),
                 Push(WireExpr(true, 1, None), [], Put(None, None, [], second))];
      && Plain(ms) && Holds(entries, map[d := []])
      && Delivered(entries, Bodies(ms), map[d := []])[d] == [first]
      && EachRouted(entries, ms, map[d := []])[d] == [first, second]
  {
    hide Delivered, Push.Bytes, Put.Bytes, RouteOne, Ineffective;
    var entries := [Entry(1, Any, topic, d)];
    var m1 := Push(WireExpr(true, 1, None), [], Put(None, None, [], first));
    var m2 := Push(WireExpr(true, 1, None), [], Put(None, None, [], second));
    var qs: Inboxes := map[d := []];
    assert m1.Valid() && m2.Valid();
    assert first[..|first|] == first && second[..|second|] == second;
    RoutedOne(d, topic, m1, qs);
    var q1 := RouteOne(entries, m1, qs);
    RoutedOne(d, topic, m2, q1);
    assert [m1, m2][1..] == [m2] && [m2][1..] == [];
    assert EachRouted(entries, [m2], q1) == EachRouted(entries, [], RouteOne(entries, m2, q1));
    assert EachRouted(entries, [m1, m2], qs) == EachRouted(entries, [m2], q1);
    DeliveredWhole(entries, [m1, m2], qs);
  }

  // ── Waiting for the answer to a service call ──────────────────────────

  datatype Answer = Replied(payload: seq<byte>) | NoReply | Closed | Lost(error: TransportError)

  /** How a message ends the wait for the answer to request `requestId`, if it does. */
  function Reaction(message: seq<byte>, requestId: nat): Option<Answer> {
    if message == [] then None
    else if message[0] % 32 == FRAME then
      match FrameHeader(message)
      case Err(_) => None
      case Ok((_, _, pos)) =>
        match ResponseOf(message[pos..])
        case Ok(Some((Reply(rid, _, _, payload), _))) => if rid == requestId then Some(Replied(payload)) else None
        case Ok(Some((NoMore(rid), _))) => if rid == requestId then Some(NoReply) else None
        case _ => None
    else if message[0] % 32 == CLOSE then Some(Closed)
    else None
  }

  /** What arrives while waiting is delivered if it came in a frame; fragments are passed over. */
  ghost function Meanwhile(entries: seq<Entry>, message: seq<byte>, qs: Inboxes): (qs': Inboxes)
    requires Holds(entries, qs)
    ensures Holds(entries, qs')
  {
    if message != [] && message[0] % 32 == FRAME then Arrival(entries, message, 0, Inflow(qs, None)).0.inboxes else qs
  }

  /** Waiting for an answer on a stream: the answer and the queues then. */
  ghost function Await(entries: seq<Entry>, stream: seq<byte>, requestId: nat, qs: Inboxes): (Answer, Inboxes)
    requires Holds(entries, qs)
    decreases |stream|
  {
    match ReadOne(stream, RX_BUF_SIZE)
    case Err(e) => (Lost(e), qs)
    case Ok((message, rest)) =>
      match Reaction(message, requestId)
      case Some(a) => (a, qs)
      case None => Await(entries, rest, requestId, Meanwhile(entries, message, qs))
  }

  method React(message: seq<byte>, requestId: nat) returns (a: Option<Answer>)
    ensures a == Reaction(message, requestId)
  {
    hide FrameHeader, ResponseOf;
    if |message| == 0 {
      return None;
    }
    if message[0] % 32 == FRAME {
      var h := DecodeFrameHeader(message);
      if h.Ok? {
        var x := DecodeResponse(message[h.value.2..]);
        if x.Ok? && x.value.Some? {
          match x.value.value.0 {
            case Reply(rid, _, _, payload) =>
              if rid == requestId {
                return Some(Replied(payload));
              }
            case NoMore(rid) =>
              if rid == requestId {
                return Some(NoReply);
              }
          }
        }
      }
    } else if message[0] % 32 == CLOSE {
      return Some(Closed);
    }
    return None;
  }

  /** Delivers a message that is not the awaited answer. */
  method PassOn(entries: seq<Entry>, message: seq<byte>, asm: FragmentAssembler)
    requires ValidSubs(entries) && asm.Valid()
    modifies Subs(entries), asm, asm.buf
    ensures ValidSubs(entries) && asm.Valid()
    ensures Holds(entries, old(QueuesOf(entries)))
    ensures QueuesOf(entries) == Meanwhile(entries, message, old(QueuesOf(entries)))
  {
    hide FrameHeader, FragmentHeader, Delivered, Step, Route;
    assert Holds(entries, QueuesOf(entries)) by {
      assert forall i | 0 <= i < |entries| :: entries[i].dispatch in Subs(entries);
    }
    if |message| > 0 && message[0] % 32 == FRAME {
      var _ := DispatchFrame(entries, message, asm);
    }
  }

  method AwaitReply(link: Link, entries: seq<Entry>, requestId: nat) returns (a: Answer)
    requires link.Valid() && ValidSubs(entries)
    modifies link, Subs(entries)
    ensures link.Valid() && ValidSubs(entries) && link.sent == old(link.sent) && link.budget == old(link.budget)
    ensures Holds(entries, old(QueuesOf(entries)))
    ensures (a, QueuesOf(entries)) == Await(entries, old(link.input), requestId, old(QueuesOf(entries)))
  {
    hide Reaction, Meanwhile, ReadOne, QueuesOf, ValidSubs, Link.Valid;
    HoldsQueues(entries);
    var rx := new byte[RX_BUF_SIZE];
    var asm := new FragmentAssembler(FRAGMENT_BUF_SIZE);
    while true
      invariant link.Valid() && ValidSubs(entries) && asm.Valid() && fresh(asm) && fresh(asm.buf)
      invariant link.sent == old(link.sent) && link.budget == old(link.budget)
      invariant Holds(entries, QueuesOf(entries))
      invariant Await(entries, old(link.input), requestId, old(QueuesOf(entries)))
          == Await(entries, link.input, requestId, QueuesOf(entries))
      decreases |link.input|
    {
      var n := link.ReadFrame(rx);
      if n.Err? {
        return Lost(n.error);
      }
      var message := rx[..n.value];
      var x := React(message, requestId);
      if x.Some? {
        return x.value;
      }
      PassOn(entries, message, asm);
    }
  }

  lemma HoldsQueues(entries: seq<Entry>)
    ensures Holds(entries, QueuesOf(entries))
  {
    assert forall i | 0 <= i < |entries| :: entries[i].dispatch in Subs(entries);
  }

  // ── Which answer ends the wait ────────────────────────────────────────

  /** Every response is recognised, with any extensions, if its Put reads back, as every one without a schema
      does; it ends the wait if and only if its request id agrees with ours in the low 32 bits. */
  lemma ResponseReacts(m: Response, sn: nat, rest: seq<byte>, requestId: nat)
    requires m.Valid() && sn < U64
    ensures m.Response? ==> |m.put.Bytes()| <= |m.Bytes()|
    ensures m.Final? || ReadsBack(m.Bytes() + rest, |m.Bytes()| - |m.put.Bytes()|, m.put) ==>
      Reaction(FrameHeaderBytes(sn, true, []) + (m.Bytes() + rest), requestId)
      == if m.requestId % U32 != requestId then None
         else if m.Final? then Some(NoReply) else Some(Replied(m.put.payload))
  {
    hide FrameHeader, ResponseOf, FrameHeaderBytes, Response.Bytes, Put.Bytes, Header, ReadsBack;
    var h, body := FrameHeaderBytes(sn, true, []), m.Bytes() + rest;
    FrameStarts(sn, body);
    FrameHeaderComplete(sn, true, [], body);
    ResponseComplete(m, rest);
    assert (h + body)[|h|..] == body;
  }

  lemma FrameStarts(sn: nat, body: seq<byte>)
    ensures var b := FrameHeaderBytes(sn, true, []) + body; b != [] && b[0] % 32 == FRAME
  {
    var h := FrameHeaderBytes(sn, true, []);
    assert (h + body)[0] == h[0] == Header(FRAME, true, false, false);
  }

  /** The queues after messages arrived none of which was the answer. */
  ghost function MeanwhileAll(entries: seq<Entry>, messages: seq<seq<byte>>, qs: Inboxes): (qs': Inboxes)
    requires Holds(entries, qs)
    ensures Holds(entries, qs')
    decreases |messages|
  {
    if messages == [] then qs else MeanwhileAll(entries, messages[1..], Meanwhile(entries, messages[0], qs))
  }

  /** The first message on the stream that answers the request is the answer; everything before it is
      delivered as usual, and nothing behind it is read. */
  lemma {:induction false} FirstAnswerWins(entries: seq<Entry>, before: seq<seq<byte>>, answer: seq<byte>,
          rest: seq<byte>, requestId: nat, qs: Inboxes)
    requires Holds(entries, qs) && |answer| <= RX_BUF_SIZE && Reaction(answer, requestId).Some?
    requires forall i | 0 <= i < |before| :: |before[i]| <= RX_BUF_SIZE && Reaction(before[i], requestId) == None
    ensures Await(entries, Stream(before + [answer]) + rest, requestId, qs)
         == (Reaction(answer, requestId).value, MeanwhileAll(entries, before, qs))
    decreases |before|
  {
    hide Reaction, Meanwhile, ReadOne, Framed, Holds;
    var all := before + [answer];
    ReadFramed(all[0], Stream(all[1..]) + rest, RX_BUF_SIZE);
    assert Framed(all[0]) + (Stream(all[1..]) + rest) == Stream(all) + rest;
    if before != [] {
      assert all[1..] == before[1..] + [answer];
      FirstAnswerWins(entries, before[1..], answer, rest, requestId, Meanwhile(entries, before[0], qs));
    }
  }

  // ── What passes by while waiting ──────────────────────────────────────

  /** One message of the stream that is not the answer. */
  lemma WaitStep(entries: seq<Entry>, message: seq<byte>, stream: seq<byte>, requestId: nat, qs: Inboxes)
    requires Holds(entries, qs) && |message| <= RX_BUF_SIZE && Reaction(message, requestId) == None
    ensures Await(entries, Framed(message) + stream, requestId, qs)
         == Await(entries, stream, requestId, Meanwhile(entries, message, qs))
  {
    hide Reaction, Meanwhile, ReadOne, Framed;
    ReadFramed(message, stream, RX_BUF_SIZE);
  }

  /** A frame with a Push that comes while a call waits, under any number and with anything behind it. */
  datatype PushFrame = PushFrame(sn: nat, push: Push, rest: seq<byte>) {
    predicate Valid() {
      sn < U64 && push.Valid() && push.put.Schema().None? && |Bytes()| <= 4096
    }

    function Bytes(): seq<byte>
      requires push.Valid()
    {
      FrameHeaderBytes(sn, true, []) + (push.Bytes() + rest)
    }
  }

  /** Its payload goes to the target of its scope, and the wait goes on. */
  lemma PushWhileWaiting(entries: seq<Entry>, f: PushFrame, stream: seq<byte>, requestId: nat, qs: Inboxes)
    requires Holds(entries, qs) && f.Valid()
    ensures Await(entries, Framed(f.Bytes()) + stream, requestId, qs)
         == Await(entries, stream, requestId, Route(entries, f.push.key.scope, f.push.put.payload, qs))
  {
    hide Await, Route, Framed, FrameHeaderBytes, Push.Bytes, Put.Bytes, Delivered, ReadsBack, FrameHeader, PushPut;
    hide ResponseOf;
    var body := f.push.Bytes() + f.rest;
    FrameStarts(f.sn, body);
    FrameArrives(entries, f.sn, body, 0, Inflow(qs, None));
    OnlyFirstDelivered(entries, f.push, f.rest, qs);
    NoSchemaReadsBack(body, |f.push.Bytes()| - |f.push.put.Bytes()|, f.push.put);
    PushIsNoResponse(f.push, f.rest);
    FrameReaction(f.sn, body, requestId);
    WaitStep(entries, f.Bytes(), stream, requestId, qs);
  }

  lemma PushIsNoResponse(m: Push, rest: seq<byte>)
    requires m.Valid()
    ensures ResponseOf(m.Bytes() + rest) == Ok(None)
  {
    hide Put.Bytes, WireExpr.Bytes, ExtBytes;
    OtherKinds(m.Bytes() + rest);
  }

  lemma FrameReaction(sn: nat, body: seq<byte>, requestId: nat)
    requires sn < U64
    ensures ResponseOf(body) == Ok(None) || ResponseOf(body).Err? ==>
              Reaction(FrameHeaderBytes(sn, true, []) + body, requestId) == None
  {
    hide FrameHeaderBytes, FrameHeader, ResponseOf;
    FrameStarts(sn, body);
    FrameHeaderComplete(sn, true, [], body);
    var h := FrameHeaderBytes(sn, true, []);
    assert (h + body)[|h|..] == body;
  }

  /** Routing the Push of each of these frames, in order. */
  ghost function RoutedAll(entries: seq<Entry>, fs: seq<PushFrame>, qs: Inboxes): (qs': Inboxes)
    requires Holds(entries, qs)
    ensures Holds(entries, qs')
    decreases |fs|
  {
    if fs == [] then qs
    else RoutedAll(entries, fs[1..], Route(entries, fs[0].push.key.scope, fs[0].push.put.payload, qs))
  }

  function StreamOf(fs: seq<PushFrame>, rest: seq<byte>): seq<byte>
    requires forall f | f in fs :: f.Valid()
  {
    if fs == [] then rest
    else
      assert fs[0] in fs && fs[0].Valid();
      Framed(fs[0].Bytes()) + StreamOf(fs[1..], rest)
  }

  /** Whatever published messages come before the answer, each reaches the target of its scope, in order, before
      the call returns with that answer. */
  lemma {:induction false} WaitingDelivers(entries: seq<Entry>, fs: seq<PushFrame>, answer: seq<byte>,
          rest: seq<byte>, requestId: nat, qs: Inboxes)
    requires Holds(entries, qs) && (forall f | f in fs :: f.Valid())
    requires |answer| <= 4096 && Reaction(answer, requestId).Some?
    ensures Await(entries, StreamOf(fs, Framed(answer) + rest), requestId, qs)
         == (Reaction(answer, requestId).value, RoutedAll(entries, fs, qs))
    decreases |fs|
  {
    hide Route, Framed, Reaction, ReadOne, Meanwhile, PushFrame.Bytes, PushFrame.Valid;
    if fs == [] {
      ReadFramed(answer, rest, RX_BUF_SIZE);
    } else {
      assert fs[0] in fs && forall f | f in fs[1..] :: f in fs;
      PushWhileWaiting(entries, fs[0], StreamOf(fs[1..], Framed(answer) + rest), requestId, qs);
      RouteHolds(entries, fs[0], qs);
      WaitingDelivers(entries, fs[1..], answer, rest, requestId,
                      Route(entries, fs[0].push.key.scope, fs[0].push.put.payload, qs));
    }
  }

  lemma RouteHolds(entries: seq<Entry>, f: PushFrame, qs: Inboxes)
    requires Holds(entries, qs)
    ensures Holds(entries, Route(entries, f.push.key.scope, f.push.put.payload, qs))
  {
  }

  /** Fragments, keepalives and everything else that is neither a frame nor a Close change nothing. */
  lemma IgnoredWhileWaiting(entries: seq<Entry>, message: seq<byte>, stream: seq<byte>, requestId: nat, qs: Inboxes)
    requires Holds(entries, qs) && |message| <= 4096
    requires message == [] || (message[0] % 32 != 5 && message[0] % 32 != 3)
    ensures Await(entries, Framed(message) + stream, requestId, qs) == Await(entries, stream, requestId, qs)
  {
    hide Await, Framed;
    WaitStep(entries, message, stream, requestId, qs);
  }

  /** A Close ends the wait, and so does the end of the stream. */
  lemma EndsWaiting(entries: seq<Entry>, message: seq<byte>, stream: seq<byte>, requestId: nat, qs: Inboxes)
    requires Holds(entries, qs) && |message| <= 4096
    ensures message != [] && message[0] % 32 == 3 ==>
              Await(entries, Framed(message) + stream, requestId, qs) == (Closed, qs)
    ensures |stream| < 2 ==> Await(entries, stream, requestId, qs) == (Lost(Io), qs)
  {
    hide Framed;
    ReadFramed(message, stream, RX_BUF_SIZE);
  }

  // ── What changes nothing ──────────────────────────────────────────────

  /** Whatever is neither frame nor fragment: a Close ends the session, everything else passes. */
  lemma OtherArrivals(entries: seq<Entry>, message: seq<byte>, cap: nat, st: Inflow)
    requires Holds(entries, st.inboxes)
    requires message == [] || (message[0] % 32 != 5 && message[0] % 32 != 6)
    ensures Arrival(entries, message, cap, st)
         == (st, if message != [] && message[0] % 32 == 3 then Fail(Transport(ConnectionClosed)) else Pass)
  {
  }

  /** A frame or fragment without a number passes, and a Push that is cut short delivers nothing. */
  lemma CutArrivals(entries: seq<Entry>, h: byte, m: Push, n: nat, cap: nat, st: Inflow, requestId: nat)
    requires Holds(entries, st.inboxes) && (h % 32 == 5 || h % 32 == 6)
    requires m.Valid() && m.exts == [] && m.put.exts == [] && m.put.Schema().None? && 0 < n < |m.Bytes()|
    ensures Arrival(entries, [h], cap, st) == (st, Pass) && Reaction([h], requestId) == None
    ensures Delivered(entries, m.Bytes()[..n], st.inboxes) == st.inboxes
  {
    hide PushPut, Put.Bytes, Push.Bytes, Route, ResponseOf;
    PushCut(m, n);
    assert [h][1..] == [];
    NothingDecodes();
  }

  lemma NothingDecodes()
    ensures VDecode([]) == Err(InvalidEncoding)
  {
  }

  /** A Push of anything but a Put, under any key, delivers nothing and answers no call. */
  lemma OtherPushIgnored(entries: seq<Entry>, key: WireExpr, exts: seq<Ext>, body: byte, rest: seq<byte>, sn: nat,
          requestId: nat, qs: Inboxes)
    requires Holds(entries, qs) && key.Valid() && ValidExts(exts) && body % 32 != 1 && sn < U64
    ensures Delivered(entries, OtherPush(key, exts, body, rest), qs) == qs
    ensures Reaction(FrameHeaderBytes(sn, true, []) + OtherPush(key, exts, body, rest), requestId) == None
  {
    OtherPushStarts(key, exts, body, rest);
    hide OtherPush, FrameHeaderBytes, Reaction, ResponseOf, PushPut, Route;
    OtherPushIsNothing(key, exts, body, rest);
    OtherKinds(OtherPush(key, exts, body, rest));
    FrameReaction(sn, OtherPush(key, exts, body, rest), requestId);
  }

  lemma OtherPushStarts(key: WireExpr, exts: seq<Ext>, body: byte, rest: seq<byte>)
    requires key.Valid() && ValidExts(exts)
    ensures var b := OtherPush(key, exts, body, rest); b != [] && b[0] % 32 == 0x1D
  {
  }

  /** A Response without a Reply, or with a Reply of anything but a Put, is no answer. */
  lemma OtherResponseIgnored(rid: nat, key: WireExpr, exts: seq<Ext>, consolidation: Option<nat>, bit6: bool,
          replyExts: seq<Ext>, body: byte, rest: seq<byte>, sn: nat, requestId: nat)
    requires rid < U64 && key.Valid() && ValidExts(exts) && ValidExts(replyExts) && sn < U64
    requires consolidation.Some? ==> consolidation.value < U64
    ensures body % 32 != 4 ==>
              Reaction(FrameHeaderBytes(sn, true, []) + OtherResponse(rid, key, exts, body, rest), requestId) == None
    ensures body % 32 != 1 ==> (
              var reply := OtherReply(consolidation, bit6, replyExts, body, rest);
              var m := [Header(RESPONSE, key.suffix.Some?, key.mapped, exts != [])]
                       + (VBytes(rid) + (key.Bytes() + (ExtBytes(exts) + reply)));
              Reaction(FrameHeaderBytes(sn, true, []) + m, requestId) == None)
  {
    hide OtherResponse, OtherReply, FrameHeaderBytes, Reaction, ResponseOf, Header, VBytes, ExtBytes, WireExpr.Bytes;
    if body % 32 != 4 {
      OtherResponseIsNothing(rid, key, exts, body, rest);
      FrameReaction(sn, OtherResponse(rid, key, exts, body, rest), requestId);
    }
    if body % 32 != 1 {
      var reply := OtherReply(consolidation, bit6, replyExts, body, rest);
      var m := [Header(RESPONSE, key.suffix.Some?, key.mapped, exts != [])]
               + (VBytes(rid) + (key.Bytes() + (ExtBytes(exts) + reply)));
      OtherReplyIsNothing(rid, key, exts, consolidation, bit6, replyExts, body, rest);
      FrameReaction(sn, m, requestId);
    }
  }
}
