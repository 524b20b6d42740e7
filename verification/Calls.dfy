/** What a service call returns to the application, from the bytes on the stream. */
module Calls {
  import opened Common
  import opened Grammar
  import opened Cdr
  import opened CdrProofs
  import opened CdrCodec
  import opened Framing
  import opened Routing
  import opened Receiving
  import opened Nodes

  /** A Response in a frame of its own, which is read whole. */
  predicate Answers(m: Response, sn: nat, rest: seq<byte>) {
    && m.Valid() && sn < U64 && (m.Response? ==> m.put.Schema().None?)
    && |FrameHeaderBytes(sn, true, []) + (m.Bytes() + rest)| <= 4096
  }

  /** The service encoded `v` and replied to our request. Whatever published messages come first, each reaches
      the target of its scope, and the call returns `v` if and only if its characters are at most U+00FF. */
  lemma CallReturns(entries: seq<Entry>, before: seq<PushFrame>, m: Response, sn: nat, rest: seq<byte>,
          stream: seq<byte>, requestId: nat, qs: Inboxes, v: Val, t: Ty)
    requires Holds(entries, qs) && (forall f | f in before :: f.Valid()) && Answers(m, sn, rest)
    requires m.Response? && m.requestId % 0x1_0000_0000 == requestId
    requires HasType(v, t) && m.put.payload == EncWithHeader(v, t)
    ensures var answer := FrameHeaderBytes(sn, true, []) + (m.Bytes() + rest);
      var (a, qs') := Await(entries, StreamOf(before, Framed(answer) + stream), requestId, qs);
      qs' == RoutedAll(entries, before, qs) && (CallResult(a, t) == Ok(v) <==> Latin(v))
  {
    hide Await, RoutedAll, StreamOf, Framed, FrameHeaderBytes, Response.Bytes, EncWithHeader, DecWithHeader, HasType;
    hide Latin, Reaction, Put.Bytes, PushFrame.Valid;
    ResponseReacts(m, sn, rest, requestId);
    WaitingDelivers(entries, before, FrameHeaderBytes(sn, true, []) + (m.Bytes() + rest), stream, requestId, qs);
    HeaderRoundTrip(v, t, []);
    assert EncWithHeader(v, t) + [] == EncWithHeader(v, t);
  }

  /** How a call fails: the service has nothing to say, the router closes the session, or the stream ends. */
  lemma CallFails(entries: seq<Entry>, before: seq<PushFrame>, m: Response, sn: nat, rest: seq<byte>,
          stream: seq<byte>, requestId: nat, qs: Inboxes, t: Ty)
    requires Holds(entries, qs) && (forall f | f in before :: f.Valid()) && Answers(m, sn, rest) && m.Final?
    requires m.requestId % 0x1_0000_0000 == requestId
    ensures var answer := FrameHeaderBytes(sn, true, []) + (m.Bytes() + rest);
      CallResult(Await(entries, StreamOf(before, Framed(answer) + stream), requestId, qs).0, t) == Err(ServiceNoReply)
    ensures CallResult(Await(entries, StreamOf(before, Framed([3, 0]) + stream), requestId, qs).0, t)
         == Err(Broken(ConnectionClosed))
    ensures CallResult(Await(entries, [], requestId, qs).0, t) == Err(Broken(Io))
  {
    ClosedIs(requestId);
    hide Await, RoutedAll, StreamOf, Framed, FrameHeaderBytes, Response.Bytes, Reaction, PushFrame.Valid;
    ResponseReacts(m, sn, rest, requestId);
    WaitingDelivers(entries, before, FrameHeaderBytes(sn, true, []) + (m.Bytes() + rest), stream, requestId, qs);
    WaitingDelivers(entries, before, [3, 0], stream, requestId, qs);
    EndsWaiting(entries, [], [], requestId, qs);
  }

  lemma ClosedIs(requestId: nat)
    ensures Reaction([3, 0], requestId) == Some(Closed)
  {
  }
}
