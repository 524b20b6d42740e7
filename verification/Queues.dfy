/** The queues between the application and the node: the outgoing queue of a
    publisher with its retry slot and sequence counter, and the incoming queue of
    a subscription. */
module Queues {
  import opened Common
  import opened Cdr
  import opened CdrProofs
  import opened CdrCodec
  import opened Names
  import opened Transmit

  datatype Locality = Any | SessionLocal | Remote

  datatype SendError = Encoding(error: CdrError) | BufferFull

  const RETRY_CDR_CAP: nat := 512
  const I64_LIMIT: int := 0x8000_0000_0000_0000

  /** `wrapping_add(1)` on an `i64`. */
  function Next(n: int): int {
    if n + 1 == I64_LIMIT then -I64_LIMIT else n + 1
  }

  class Publisher {
    const topic: Topic
    const locality: Locality
    const cdrCap: nat
    const queueCap: nat
    var queue: seq<Message>
    var retry: Option<Message>
    var counter: int

    ghost predicate Valid()
      reads this
    {
      && |queue| <= queueCap
      && (forall i | 0 <= i < |queue| :: |queue[i].data| <= cdrCap)
      && (retry.Some? ==> |retry.value.data| <= RETRY_CDR_CAP)
      && -I64_LIMIT <= counter < I64_LIMIT
    }

    /** Everything waiting to be drained, the retry slot first. */
    function Pending(): seq<Message>
      reads this
    {
      (if retry.Some? then [retry.value] else []) + queue
    }

    constructor (topic: Topic, locality: Locality, cdrCap: nat, queueCap: nat)
      ensures Valid() && Pending() == [] && counter == 0
      ensures this.topic == topic && this.locality == locality && this.cdrCap == cdrCap && this.queueCap == queueCap
    {
      this.topic, this.locality, this.cdrCap, this.queueCap := topic, locality, cdrCap, queueCap;
      queue, retry, counter := [], None, 0;
    }

    /** The first half of `send`: encode the message and take a sequence number for it. A message
        that does not fit takes no number. */
    method Prepare(v: Val, t: Ty, timestamp: int) returns (r: Result<Message, SendError>)
      requires Valid() && HasType(v, t)
      modifies this
      ensures Valid() && queue == old(queue) && retry == old(retry)
      ensures r.Ok? <==> |EncWithHeader(v, t)| <= cdrCap
      ensures r.Ok? ==> r.value == Message(EncWithHeader(v, t), old(counter), timestamp)
      ensures r.Ok? ==> counter == Next(old(counter))
      ensures r.Err? ==> r.error == Encoding(BufferOverflow) && counter == old(counter)
    {
      var raw := new byte[cdrCap];
      var n := SerializeWithHeader(raw, v, t);
      if n.Err? {
        return Err(Encoding(n.error));
      }
      var seqNum := counter;
      counter := Next(counter);
      return Ok(Message(raw[..n.value], seqNum, timestamp));
    }

    /** The second half of `send`: put a prepared message into the queue, as soon as there is room. */
    method Enqueue(m: Message) returns (done: bool)
      requires Valid() && |m.data| <= cdrCap
      modifies this
      ensures Valid() && retry == old(retry) && counter == old(counter)
      ensures done <==> |old(queue)| < queueCap
      ensures queue == old(queue) + if done then [m] else []
      ensures Pending() == old(Pending()) + if done then [m] else []
    {
      done := |queue| < queueCap;
      if done {
        queue := queue + [m];
      }
    }

    /** Without waiting, and with neither number nor timestamp. */
    method TrySend(v: Val, t: Ty) returns (r: Outcome<SendError>)
      requires Valid() && HasType(v, t)
      modifies this
      ensures Valid() && retry == old(retry) && counter == old(counter)
      ensures r.Pass? <==> |EncWithHeader(v, t)| <= cdrCap && |old(queue)| < queueCap
      ensures r.Pass? ==> Pending() == old(Pending()) + [Message(EncWithHeader(v, t), 0, 0)]
      ensures r.Fail? ==> queue == old(queue)
      ensures r.Fail? ==> r.error == if |EncWithHeader(v, t)| > cdrCap then Encoding(BufferOverflow) else BufferFull
    {
      var raw := new byte[cdrCap];
      var n := SerializeWithHeader(raw, v, t);
      if n.Err? {
        return Fail(Encoding(n.error));
      }
      var done := Enqueue(Message(raw[..n.value], 0, 0));
      return if done then Pass else Fail(BufferFull);
    }

    /** Takes the next pending message, cut to the size of `out`; the retry slot goes first. */
    method TryDrainInto(out: array<byte>) returns (r: Option<(nat, int, int)>)
      requires Valid()
      modifies this, out
      ensures Valid() && counter == old(counter)
      ensures r.Some? <==> old(Pending()) != []
      ensures r.None? ==> Pending() == [] && out[..] == old(out[..])
      ensures r.Some? ==> Pending() == old(Pending())[1..] && retry == None
      ensures r.Some? ==> var m := old(Pending())[0];
        && r.value == (Min(|m.data|, out.Length), m.seqNum, m.timestamp)
        && out[..r.value.0] == m.data[..r.value.0]
    {
      if retry.Some? {
        var m := retry.value;
        retry := None;
        var n := Min(|m.data|, out.Length);
        forall i | 0 <= i < n {
          out[i] := m.data[i];
        }
        return Some((n, m.seqNum, m.timestamp));
      }
      if queue == [] {
        return None;
      }
      var m := queue[0];
      queue := queue[1..];
      var n := Min(|m.data|, out.Length);
      forall i | 0 <= i < n {
        out[i] := m.data[i];
      }
      return Some((n, m.seqNum, m.timestamp));
    }

    /** Puts a message into the retry slot, replacing what was there. */
    method StashRetry(data: seq<byte>, seqNum: int, timestamp: int)
      requires Valid()
      modifies this
      ensures Valid() && queue == old(queue) && counter == old(counter)
      ensures retry == Some(Message(data[..Min(|data|, RETRY_CDR_CAP)], seqNum, timestamp))
    {
      retry := Some(Message(data[..Min(|data|, RETRY_CDR_CAP)], seqNum, timestamp));
    }
  }

  // ── Subscriptions ─────────────────────────────────────────────────────

  /** A queue after a payload was offered: cut to the message size, and dropped when the queue is full. */
  function Offer(queue: seq<seq<byte>>, queueCap: nat, msgSize: nat, payload: seq<byte>): seq<seq<byte>> {
    if |queue| < queueCap then queue + [payload[..Min(|payload|, msgSize)]] else queue
  }

  /** What the application gets for a raw payload. */
  function Decoded(t: Ty, raw: seq<byte>): Result<Val, CdrError> {
    match DecWithHeader(t, raw)
    case Ok((v, _)) => Ok(v)
    case Err(e) => Err(e)
  }

  class Subscription {
    const msgSize: nat
    const queueCap: nat
    const locality: Locality
    var queue: seq<seq<byte>>

    ghost predicate Valid()
      reads this
    {
      |queue| <= queueCap && forall i | 0 <= i < |queue| :: |queue[i]| <= msgSize
    }

    constructor (msgSize: nat, queueCap: nat, locality: Locality)
      ensures Valid() && queue == []
      ensures this.msgSize == msgSize && this.queueCap == queueCap && this.locality == locality
    {
      this.msgSize, this.queueCap, this.locality, this.queue := msgSize, queueCap, locality, [];
    }

    method Push(payload: seq<byte>)
      requires Valid()
      modifies this
      ensures Valid() && queue == Offer(old(queue), queueCap, msgSize, payload)
    {
      var cut := payload[..Min(|payload|, msgSize)];
      if |queue| < queueCap {
        queue := queue + [cut];
      }
    }

    method TryRecv(t: Ty) returns (r: Option<Result<Val, CdrError>>)
      requires Valid()
      modifies this
      ensures Valid()
      ensures old(queue) == [] ==> r == None && queue == []
      ensures old(queue) != [] ==> queue == old(queue)[1..] && r == Some(Decoded(t, old(queue)[0]))
    {
      if queue == [] {
        return None;
      }
      var raw := queue[0];
      queue := queue[1..];
      var d := DeserializeWithHeader(raw, t);
      match d {
        case Ok(p) => return Some(Ok(p.0));
        case Err(e) => return Some(Err(e));
      }
    }

    /** Drops whatever is queued. */
    method Clear()
      requires Valid()
      modifies this
      ensures Valid() && queue == []
    {
      while queue != []
        invariant Valid()
        decreases |queue|
      {
        queue := queue[1..];
      }
    }
  }

  /** A queue after a run of payloads was offered without any being received in between: it
      takes the first ones, as many as there was room for, and drops the others. */
  function OfferAll(queue: seq<seq<byte>>, queueCap: nat, msgSize: nat, payloads: seq<seq<byte>>): seq<seq<byte>>
    decreases |payloads|
  {
    if payloads == [] then queue
    else OfferAll(Offer(queue, queueCap, msgSize, payloads[0]), queueCap, msgSize, payloads[1..])
  }

  function Cut(payloads: seq<seq<byte>>, msgSize: nat): seq<seq<byte>> {
    seq(|payloads|, i requires 0 <= i < |payloads| => payloads[i][..Min(|payloads[i]|, msgSize)])
  }

  lemma {:induction false} OfferAllTakesFirst(queue: seq<seq<byte>>, queueCap: nat, msgSize: nat,
          payloads: seq<seq<byte>>)
    requires |queue| <= queueCap
    ensures OfferAll(queue, queueCap, msgSize, payloads)
        == queue + Cut(payloads, msgSize)[..Min(queueCap - |queue|, |payloads|)]
    decreases |payloads|
  {
    if payloads != [] {
      OfferAllTakesFirst(Offer(queue, queueCap, msgSize, payloads[0]), queueCap, msgSize, payloads[1..]);
      assert Cut(payloads, msgSize) == [payloads[0][..Min(|payloads[0]|, msgSize)]] + Cut(payloads[1..], msgSize);
    }
  }

  /** A message that fits the publisher, the scratch buffer and the subscription is received as it was
      sent, if and only if its characters are all at most U+00FF. */
  lemma LocalPathRoundTrip(v: Val, t: Ty, seqNum: int, timestamp: int, queueCap: nat, msgSize: nat)
    requires HasType(v, t) && queueCap > 0
    requires |EncWithHeader(v, t)| <= CDR_DRAIN_BUF && |EncWithHeader(v, t)| <= msgSize
    ensures var drained := Clip(Message(EncWithHeader(v, t), seqNum, timestamp));
      var queue := Offer([], queueCap, msgSize, drained.data);
      |queue| == 1 && (DecWithHeader(t, queue[0]) == Ok((v, |EncWithHeader(v, t)|)) <==> Latin(v))
  {
    hide EncWithHeader, DecWithHeader, HasType, Latin;
    var d := EncWithHeader(v, t);
    assert d[..|d|] == d && d + [] == d;
    HeaderRoundTrip(v, t, []);
  }
}
