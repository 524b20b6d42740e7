/** Runs of the receiving side: payloads come from local publishers and from the
    network while the application takes messages out of its subscriptions. */
module Deliveries {
  import opened Common
  import opened Cdr
  import opened Names
  import opened Queues
  import opened Routing

  datatype Event =
    | Local(topic: Topic, payload: seq<byte>)
    | Network(scope: nat, payload: seq<byte>)
    | TryRecv(d: Subscription)

  /** Only subscriptions of the table are received from. */
  predicate Served(e: Event, keys: set<Subscription>) {
    e.TryRecv? ==> e.d in keys
  }

  predicate Known(evs: seq<Event>, keys: set<Subscription>) {
    forall i | 0 <= i < |evs| :: Served(evs[i], keys)
  }

  predicate Covered(entries: seq<Entry>, keys: set<Subscription>) {
    forall i | 0 <= i < |entries| :: entries[i].dispatch in keys
  }

  // ── What the node does ────────────────────────────────────────────────

  ghost function After(entries: seq<Entry>, e: Event, qs: Inboxes): (qs': Inboxes)
    requires Covered(entries, qs.Keys) && Served(e, qs.Keys)
    ensures qs'.Keys == qs.Keys
  {
    match e
    case Local(topic, payload) => Dispatch(entries, topic, payload, qs)
    case Network(scope, payload) =>
      TargetInTable(entries, scope);
      Route(entries, scope, payload, qs)
    case TryRecv(d) =>
      if qs[d] == [] then qs else qs[d := qs[d][1..]]
  }

  /** What one event takes out of the queue of `d`. */
  ghost function TakenBy(e: Event, qs: Inboxes, d: Subscription): seq<seq<byte>>
    requires d in qs
  {
    if e == TryRecv(d) && qs[d] != [] then [qs[d][0]] else []
  }

  /** The queues after a run. */
  ghost function Play(entries: seq<Entry>, evs: seq<Event>, qs: Inboxes): (qs': Inboxes)
    requires Covered(entries, qs.Keys) && Known(evs, qs.Keys)
    ensures qs'.Keys == qs.Keys
    decreases |evs|
  {
    if evs == [] then qs
    else
      Play(entries, evs[1..], After(entries, evs[0], qs))
  }

  /** Everything received from `d` in a run, in order. */
  ghost function Taken(entries: seq<Entry>, evs: seq<Event>, qs: Inboxes, d: Subscription): seq<seq<byte>>
    requires Covered(entries, qs.Keys) && Known(evs, qs.Keys) && d in qs
    decreases |evs|
  {
    if evs == [] then []
    else
      TakenBy(evs[0], qs, d) + Taken(entries, evs[1..], After(entries, evs[0], qs), d)
  }

  // ── What was promised ─────────────────────────────────────────────────

  /** How often an event offers its payload to `d`. */
  function Copies(entries: seq<Entry>, e: Event, d: Subscription): nat {
    match e
    case Local(topic, _) => Matches(entries, topic, d)
    case Network(scope, _) =>
      if Target(entries, scope).Some? && Target(entries, scope).value.dispatch == d then 1 else 0
    case TryRecv(_) => 0
  }

  /** The payloads offered to `d` that met a queue with room. It knows how long the queue is, but not
      what is in it. */
  function Accepted(entries: seq<Entry>, evs: seq<Event>, d: Subscription, length: nat): seq<seq<byte>>
    requires length <= d.queueCap
    decreases |evs|
  {
    if evs == [] then []
    else if evs[0].TryRecv? then
      Accepted(entries, evs[1..], d, if evs[0].d == d && length > 0 then length - 1 else length)
    else
      var n := Min(Copies(entries, evs[0], d), d.queueCap - length);
      var payload := evs[0].payload;
      seq(n, _ => payload[..Min(|payload|, d.msgSize)]) + Accepted(entries, evs[1..], d, length + n)
  }

  // ── They agree ────────────────────────────────────────────────────────

  lemma Offered(entries: seq<Entry>, e: Event, qs: Inboxes, d: Subscription)
    requires Covered(entries, qs.Keys) && Served(e, qs.Keys) && d in qs && !e.TryRecv?
    ensures After(entries, e, qs)[d]
        == OfferAll(qs[d], d.queueCap, d.msgSize, seq(Copies(entries, e, d), _ => e.payload))
  {
    hide Dispatch, Matches, Offer;
    match e {
      case Local(topic, payload) =>
        DispatchReaches(entries, topic, payload, qs, d);
      case Network(scope, payload) =>
        TargetInTable(entries, scope);
        if Copies(entries, e, d) == 1 {
          assert seq(1, _ => e.payload)[1..] == [];
        }
    }
  }

  lemma OneOffer(entries: seq<Entry>, e: Event, qs: Inboxes, d: Subscription)
    requires Covered(entries, qs.Keys) && Served(e, qs.Keys) && d in qs && !e.TryRecv? && |qs[d]| <= d.queueCap
    ensures var n := Min(Copies(entries, e, d), d.queueCap - |qs[d]|);
      After(entries, e, qs)[d] == qs[d] + seq(n, _ => e.payload[..Min(|e.payload|, d.msgSize)])
  {
    hide After, Copies, OfferAll;
    var all := seq(Copies(entries, e, d), _ => e.payload);
    var n := Min(|all|, d.queueCap - |qs[d]|);
    Offered(entries, e, qs, d);
    OfferAllTakesFirst(qs[d], d.queueCap, d.msgSize, all);
    assert Cut(all, d.msgSize)[..n] == seq(n, _ => e.payload[..Min(|e.payload|, d.msgSize)]);
  }

  /** In every run of deliveries and receives, what was received from a subscription followed by what is
      still queued is what was queued at first followed by exactly the payloads, cut to the message
      size, that met a queue with room: none is lost, repeated or overtaken. */
  lemma {:induction false} ReceivedInOrder(entries: seq<Entry>, evs: seq<Event>, qs: Inboxes, d: Subscription)
    requires Covered(entries, qs.Keys) && Known(evs, qs.Keys) && d in qs && |qs[d]| <= d.queueCap
    ensures Taken(entries, evs, qs, d) + Play(entries, evs, qs)[d] == qs[d] + Accepted(entries, evs, d, |qs[d]|)
    ensures |Play(entries, evs, qs)[d]| <= d.queueCap
    decreases |evs|
  {
    hide After, Copies;
    if evs != [] {
      var e := evs[0];
      var qs' := After(entries, e, qs);
      var taken, rest := Taken(entries, evs[1..], qs', d), Play(entries, evs[1..], qs')[d];
      if e.TryRecv? {
        OneReceive(entries, e, qs, d);
        ReceivedInOrder(entries, evs[1..], qs', d);
        Associate(TakenBy(e, qs, d), taken, rest);
        Associate(TakenBy(e, qs, d), qs'[d], Accepted(entries, evs[1..], d, |qs'[d]|));
        assert TakenBy(e, qs, d) + qs'[d] == qs[d];
      } else {
        OneOffer(entries, e, qs, d);
        ReceivedInOrder(entries, evs[1..], qs', d);
        var more := seq(Min(Copies(entries, e, d), d.queueCap - |qs[d]|),
            _ => e.payload[..Min(|e.payload|, d.msgSize)]);
        Associate(qs[d], more, Accepted(entries, evs[1..], d, |qs'[d]|));
        assert [] + taken == taken;
      }
    }
  }

  lemma Associate(a: seq<seq<byte>>, b: seq<seq<byte>>, c: seq<seq<byte>>)
    ensures a + b + c == a + (b + c)
  {
  }

  lemma NothingYet(entries: seq<Entry>, qs: Inboxes)
    requires Covered(entries, qs.Keys)
    ensures Play(entries, [], qs) == qs && forall d | d in qs :: Taken(entries, [], qs, d) == []
    ensures forall t: Ty :: DecodedAll(t, []) == []
  {
  }

  lemma OneReceive(entries: seq<Entry>, e: Event, qs: Inboxes, d: Subscription)
    requires Covered(entries, qs.Keys) && Served(e, qs.Keys) && d in qs && e.TryRecv?
    ensures After(entries, e, qs)[d] == if e.d == d && qs[d] != [] then qs[d][1..] else qs[d]
  {
  }

  /** Dispatching several payloads at once, as a drain does, is a run. */
  lemma {:induction false} DispatchedIsRun(entries: seq<Entry>, topic: Topic, payloads: seq<seq<byte>>, qs: Inboxes)
    requires Covered(entries, qs.Keys)
    ensures var evs := seq(|payloads|, i requires 0 <= i < |payloads| => Local(topic, payloads[i]));
      Play(entries, evs, qs) == DispatchAll(entries, topic, payloads, qs)
    decreases |payloads|
  {
    hide Dispatch;
    var evs := seq(|payloads|, i requires 0 <= i < |payloads| => Local(topic, payloads[i]));
    if payloads != [] {
      var rest := payloads[1..];
      assert evs[1..] == seq(|rest|, i requires 0 <= i < |rest| => Local(topic, rest[i]));
      DispatchedIsRun(entries, topic, rest, Dispatch(entries, topic, payloads[0], qs));
    }
  }

  // ── The run as it happens ─────────────────────────────────────────────

  function DecodedAll(t: Ty, raws: seq<seq<byte>>): seq<Result<Val, CdrError>> {
    seq(|raws|, i requires 0 <= i < |raws| => Decoded(t, raws[i]))
  }

  /** Taking one more event. */
  lemma {:induction false} PlaySnoc(entries: seq<Entry>, evs: seq<Event>, e: Event, qs: Inboxes)
    requires Covered(entries, qs.Keys) && Known(evs, qs.Keys) && Served(e, qs.Keys)
    ensures Known(evs + [e], qs.Keys)
    ensures Play(entries, evs + [e], qs) == After(entries, e, Play(entries, evs, qs))
    ensures forall d | d in qs ::
              Taken(entries, evs + [e], qs, d) == Taken(entries, evs, qs, d) + TakenBy(e, Play(entries, evs, qs), d)
    decreases |evs|
  {
    hide After, TakenBy;
    if evs == [] {
      assert [] + [e] == [e] && [e][1..] == [];
    } else {
      assert (evs + [e])[0] == evs[0] && (evs + [e])[1..] == evs[1..] + [e];
      PlaySnoc(entries, evs[1..], e, After(entries, evs[0], qs));
    }
  }

  lemma TakenOnce(e: Event, qs: Inboxes)
    ensures forall d | d in qs :: |TakenBy(e, qs, d)| <= 1 && (!e.TryRecv? || e.d != d ==> TakenBy(e, qs, d) == [])
  {
  }

  /** One event. */
  method Happen(entries: seq<Entry>, e: Event, types: map<Subscription, Ty>)
    returns (got: Option<Result<Val, CdrError>>)
    requires ValidSubs(entries) && Served(e, Subs(entries)) && types.Keys == Subs(entries)
    modifies Subs(entries)
    ensures ValidSubs(entries) && Covered(entries, Subs(entries))
    ensures QueuesOf(entries) == After(entries, e, old(QueuesOf(entries)))
    ensures e.TryRecv? ==> (
      var raws := TakenBy(e, old(QueuesOf(entries)), e.d);
      got == if raws == [] then None else Some(Decoded(types[e.d], raws[0])))
  {
    hide Dispatch, Route, TopicsMatch;
    got := None;
    match e {
      case Local(topic, payload) => DispatchLocal(entries, topic, payload);
      case Network(scope, payload) => RouteToSubscribers(entries, scope, payload);
      case TryRecv(d) => got := d.TryRecv(types[d]);
    }
  }

  lemma DecodedSnoc(types: map<Subscription, Ty>, got: map<Subscription, seq<Result<Val, CdrError>>>,
          entries: seq<Entry>, evs: seq<Event>, e: Event, qs: Inboxes)
    requires Covered(entries, qs.Keys) && Known(evs, qs.Keys) && Served(e, qs.Keys) && Known(evs + [e], qs.Keys)
    requires got.Keys == qs.Keys == types.Keys
    requires forall d | d in got :: got[d] == DecodedAll(types[d], Taken(entries, evs, qs, d))
    ensures forall d | d in got ::
              var raws := TakenBy(e, Play(entries, evs, qs), d);
              DecodedAll(types[d], Taken(entries, evs + [e], qs, d))
              == if raws == [] then got[d] else got[d] + [Decoded(types[d], raws[0])]
  {
    hide After, TakenBy, Play, Taken, Decoded;
    PlaySnoc(entries, evs, e, qs);
    TakenOnce(e, Play(entries, evs, qs));
  }

  /** One event more. */
  method HappenNext(entries: seq<Entry>, ghost evs: seq<Event>, e: Event, types: map<Subscription, Ty>,
          got: map<Subscription, seq<Result<Val, CdrError>>>, ghost qs: Inboxes)
    returns (got': map<Subscription, seq<Result<Val, CdrError>>>)
    requires ValidSubs(entries) && Covered(entries, qs.Keys) && Known(evs, qs.Keys) && Served(e, qs.Keys)
    requires got.Keys == types.Keys == qs.Keys == Subs(entries) && QueuesOf(entries) == Play(entries, evs, qs)
    requires forall d | d in got :: got[d] == DecodedAll(types[d], Taken(entries, evs, qs, d))
    modifies Subs(entries)
    ensures ValidSubs(entries) && Known(evs + [e], qs.Keys)
    ensures got'.Keys == got.Keys && QueuesOf(entries) == Play(entries, evs + [e], qs)
    ensures forall d | d in got :: got'[d] == DecodedAll(types[d], Taken(entries, evs + [e], qs, d))
  {
    hide After, TakenBy, QueuesOf, Decoded, ValidSubs, DecodedAll, Play, Taken;
    PlaySnoc(entries, evs, e, qs);
    TakenOnce(e, QueuesOf(entries));
    DecodedSnoc(types, got, entries, evs, e, qs);
    var v := Happen(entries, e, types);
    got' := if e.TryRecv? && v.Some? then got[e.d := got[e.d] + [v.value]] else got;
  }

  /** A run of the node's deliveries and the application's receives. What the application has got from each
      subscription, together with what is still queued there, is what `ReceivedInOrder` says. */
  method Deliver(entries: seq<Entry>, evs: seq<Event>, types: map<Subscription, Ty>)
    returns (got: map<Subscription, seq<Result<Val, CdrError>>>)
    requires ValidSubs(entries) && Known(evs, Subs(entries)) && types.Keys == Subs(entries)
    modifies Subs(entries)
    ensures ValidSubs(entries) && Covered(entries, Subs(entries)) && got.Keys == Subs(entries)
    ensures QueuesOf(entries) == Play(entries, evs, old(QueuesOf(entries)))
    ensures forall d | d in got :: got[d] == DecodedAll(types[d], Taken(entries, evs, old(QueuesOf(entries)), d))
  {
    hide After, TakenBy, QueuesOf, Decoded, ValidSubs, DecodedAll, Play, Taken;
    ghost var qs := QueuesOf(entries);
    got := map d | d in types :: [];
    assert evs[..0] == [];
    NothingYet(entries, qs);
    for i := 0 to |evs|
      invariant ValidSubs(entries) && Known(evs[..i], Subs(entries)) && got.Keys == Subs(entries)
      invariant QueuesOf(entries) == Play(entries, evs[..i], qs)
      invariant forall d | d in got :: got[d] == DecodedAll(types[d], Taken(entries, evs[..i], qs, d))
    {
      assert evs[..i + 1] == evs[..i] + [evs[i]];
      got := HappenNext(entries, evs[..i], evs[i], types, got, qs);
    }
    assert evs[..|evs|] == evs;
  }
}
