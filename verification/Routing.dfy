/** The routing table of a node: delivery to local subscriptions by topic, and to
    declared subscriptions by key id. Queues are described as a map from
    subscriptions to what they hold, so that a subscription may be registered twice. */
module Routing {
  import opened Common
  import opened Names
  import opened Queues

  datatype Entry = Entry(keyId: nat, locality: Locality, topic: Topic, dispatch: Subscription)

  type Inboxes = map<Subscription, seq<seq<byte>>>

  function Subs(entries: seq<Entry>): set<Subscription> {
    set i | 0 <= i < |entries| :: entries[i].dispatch
  }

  ghost predicate ValidSubs(entries: seq<Entry>)
    reads Subs(entries)
  {
    forall d | d in Subs(entries) :: d.Valid()
  }

  ghost function QueuesOf(entries: seq<Entry>): (qs: Inboxes)
    reads Subs(entries)
    ensures qs.Keys == Subs(entries) && forall d | d in Subs(entries) :: qs[d] == d.queue
  {
    map d | d in Subs(entries) :: d.queue
  }

  /** The queues after one payload was offered to one subscription. */
  ghost function Push(qs: Inboxes, d: Subscription, payload: seq<byte>): (qs': Inboxes)
    requires d in qs
    ensures qs'.Keys == qs.Keys
  {
    qs[d := Offer(qs[d], d.queueCap, d.msgSize, payload)]
  }

  // ── Local delivery ────────────────────────────────────────────────────

  predicate TakesLocal(e: Entry, topic: Topic) {
    e.locality != Remote && TopicsMatch(e.topic, topic)
  }

  /** The queues after a payload on `topic` was dispatched to the local subscriptions. */
  ghost function Dispatch(entries: seq<Entry>, topic: Topic, payload: seq<byte>, qs: Inboxes): (qs': Inboxes)
    requires forall i | 0 <= i < |entries| :: entries[i].dispatch in qs
    ensures qs'.Keys == qs.Keys
    decreases |entries|
  {
    if entries == [] then qs
    else
      var e := entries[0];
      Dispatch(entries[1..], topic, payload, if TakesLocal(e, topic) then Push(qs, e.dispatch, payload) else qs)
  }

  ghost function DispatchAll(entries: seq<Entry>, topic: Topic, payloads: seq<seq<byte>>, qs: Inboxes): (qs': Inboxes)
    requires forall i | 0 <= i < |entries| :: entries[i].dispatch in qs
    ensures qs'.Keys == qs.Keys
    decreases |payloads|
  {
    if payloads == [] then qs else DispatchAll(entries, topic, payloads[1..], Dispatch(entries, topic, payloads[0], qs))
  }

  lemma {:induction false} DispatchAllSnoc(entries: seq<Entry>, topic: Topic, payloads: seq<seq<byte>>, last: seq<byte>,
          qs: Inboxes)
    requires forall i | 0 <= i < |entries| :: entries[i].dispatch in qs
    ensures DispatchAll(entries, topic, payloads + [last], qs)
        == Dispatch(entries, topic, last, DispatchAll(entries, topic, payloads, qs))
    decreases |payloads|
  {
    hide Dispatch;
    if payloads == [] {
      assert ([] + [last])[1..] == [] && ([] + [last])[0] == last;
    } else {
      assert (payloads + [last])[0] == payloads[0] && (payloads + [last])[1..] == payloads[1..] + [last];
      DispatchAllSnoc(entries, topic, payloads[1..], last, Dispatch(entries, topic, payloads[0], qs));
    }
  }

  method DispatchLocal(entries: seq<Entry>, topic: Topic, payload: seq<byte>)
    requires ValidSubs(entries)
    modifies Subs(entries)
    ensures ValidSubs(entries)
    ensures QueuesOf(entries) == Dispatch(entries, topic, payload, old(QueuesOf(entries)))
  {
    hide TopicsMatch, Offer, Push;
    ghost var qs := QueuesOf(entries);
    for i := 0 to |entries|
      invariant ValidSubs(entries)
      invariant Dispatch(entries, topic, payload, qs) == Dispatch(entries[i..], topic, payload, QueuesOf(entries))
    {
      var e := entries[i];
      assert entries[i..][0] == e && entries[i..][1..] == entries[i + 1..];
      if e.locality != Remote {
        if TopicsMatch(e.topic, topic) {
          PushTo(entries, i, payload);
        }
      }
    }
  }

  /** Pushes a payload into the queue of an entry. */
  method PushTo(entries: seq<Entry>, i: nat, payload: seq<byte>)
    requires ValidSubs(entries) && i < |entries|
    modifies Subs(entries)
    ensures ValidSubs(entries)
    ensures entries[i].dispatch in old(QueuesOf(entries))
    ensures QueuesOf(entries) == Push(old(QueuesOf(entries)), entries[i].dispatch, payload)
  {
    hide Offer;
    ghost var before := QueuesOf(entries);
    assert entries[i].dispatch in Subs(entries);
    entries[i].dispatch.Push(payload);
    assert QueuesOf(entries) == Push(before, entries[i].dispatch, payload);
  }

  // ── Who gets a local message ──────────────────────────────────────────

  /** The entry leads a local message on `topic` to `d`: it is of the same domain and the same name, leading
      slashes aside, and not remote-only. */
  predicate LeadsTo(e: Entry, topic: Topic, d: Subscription) {
    && e.dispatch == d && (e.locality == Any || e.locality == SessionLocal)
    && e.topic.domain == topic.domain && Trim(e.topic.name) == Trim(topic.name)
  }

  function Takers(entries: seq<Entry>, topic: Topic, d: Subscription): set<nat> {
    set i: nat | i < |entries| && LeadsTo(entries[i], topic, d)
  }

  lemma LeadsToIs(e: Entry, topic: Topic, d: Subscription)
    ensures LeadsTo(e, topic, d) <==> TakesLocal(e, topic) && e.dispatch == d
  {
  }

  /** How many entries lead a local message on `topic` to `d`. */
  function Matches(entries: seq<Entry>, topic: Topic, d: Subscription): nat {
    |Takers(entries, topic, d)|
  }

  lemma MatchesSnoc(entries: seq<Entry>, e: Entry, topic: Topic, d: Subscription)
    ensures Matches(entries + [e], topic, d)
         == Matches(entries, topic, d) + if TakesLocal(e, topic) && e.dispatch == d then 1 else 0
  {
    hide LeadsTo, TakesLocal;
    LeadsToIs(e, topic, d);
    var n := |entries|;
    var all := entries + [e];
    assert forall i: nat | i < n :: all[i] == entries[i];
    if TakesLocal(e, topic) && e.dispatch == d {
      assert Takers(all, topic, d) == Takers(entries, topic, d) + {n};
    } else {
      assert Takers(all, topic, d) == Takers(entries, topic, d);
    }
  }

  /** The dispatch loop looks at the entries one by one. */
  lemma {:induction false} MatchesCons(e: Entry, entries: seq<Entry>, topic: Topic, d: Subscription)
    ensures Matches([e] + entries, topic, d)
         == (if TakesLocal(e, topic) && e.dispatch == d then 1 else 0) + Matches(entries, topic, d)
    decreases |entries|
  {
    hide Matches, TakesLocal;
    if entries == [] {
      assert [e] + [] == [] + [e];
      MatchesNone(topic, d);
      MatchesSnoc([], e, topic, d);
    } else {
      var front, last := entries[..|entries| - 1], entries[|entries| - 1];
      assert entries == front + [last] && [e] + entries == [e] + front + [last];
      MatchesCons(e, front, topic, d);
      MatchesSnoc(front, last, topic, d);
      MatchesSnoc([e] + front, last, topic, d);
    }
  }

  lemma MatchesNone(topic: Topic, d: Subscription)
    ensures Matches([], topic, d) == 0
  {
    assert Takers([], topic, d) == {};
  }

  /** Every subscription gets the payload once for each of its matching entries, and no other queue changes. */
  lemma {:induction false} DispatchReaches(entries: seq<Entry>, topic: Topic, payload: seq<byte>, qs: Inboxes,
          d: Subscription)
    requires (forall i | 0 <= i < |entries| :: entries[i].dispatch in qs) && d in qs
    ensures Dispatch(entries, topic, payload, qs)[d]
         == OfferAll(qs[d], d.queueCap, d.msgSize, seq(Matches(entries, topic, d), _ => payload))
    decreases |entries|
  {
    hide Matches;
    if entries == [] {
      MatchesNone(topic, d);
    } else {
      var e := entries[0];
      assert [e] + entries[1..] == entries;
      MatchesCons(e, entries[1..], topic, d);
      var qs' := if TakesLocal(e, topic) then Push(qs, e.dispatch, payload) else qs;
      assert Dispatch(entries, topic, payload, qs) == Dispatch(entries[1..], topic, payload, qs');
      DispatchReaches(entries[1..], topic, payload, qs', d);
      var n := Matches(entries[1..], topic, d);
      if TakesLocal(e, topic) && e.dispatch == d {
        OfferRepeat(qs[d], d.queueCap, d.msgSize, payload, n);
      }
    }
  }

  /** A subscription all of whose entries are remote-only, or of another domain or name, gets nothing. */
  lemma OthersGetNothing(entries: seq<Entry>, topic: Topic, payload: seq<byte>, qs: Inboxes, d: Subscription)
    requires (forall i | 0 <= i < |entries| :: entries[i].dispatch in qs) && d in qs
    requires forall i | 0 <= i < |entries| && entries[i].dispatch == d ::
               entries[i].locality == Remote || entries[i].topic.domain != topic.domain
               || Trim(entries[i].topic.name) != Trim(topic.name)
    ensures Dispatch(entries, topic, payload, qs)[d] == qs[d]
  {
    hide Dispatch, Trim;
    assert Takers(entries, topic, d) == {};
    DispatchReaches(entries, topic, payload, qs, d);
  }

  lemma OfferRepeat(queue: seq<seq<byte>>, queueCap: nat, msgSize: nat, payload: seq<byte>, n: nat)
    ensures OfferAll(Offer(queue, queueCap, msgSize, payload), queueCap, msgSize, seq(n, _ => payload))
         == OfferAll(queue, queueCap, msgSize, seq(n + 1, _ => payload))
  {
    var more := seq(n + 1, _ => payload);
    assert more[0] == payload && more[1..] == seq(n, _ => payload);
  }

  /** Every payload `n` times. */
  function Repeated(payloads: seq<seq<byte>>, n: nat): seq<seq<byte>> {
    if payloads == [] then [] else seq(n, _ => payloads[0]) + Repeated(payloads[1..], n)
  }

  /** A subscription receives, in order, every payload once for each of its matching entries, as long as
      its queue has room; one without a matching entry receives nothing. */
  lemma LocalDeliveryFifo(entries: seq<Entry>, topic: Topic, payloads: seq<seq<byte>>, qs: Inboxes, d: Subscription)
    requires (forall i | 0 <= i < |entries| :: entries[i].dispatch in qs) && d in qs && |qs[d]| <= d.queueCap
    ensures var offered := Repeated(payloads, Matches(entries, topic, d));
      DispatchAll(entries, topic, payloads, qs)[d]
        == qs[d] + Cut(offered, d.msgSize)[..Min(d.queueCap - |qs[d]|, |offered|)]
    ensures Matches(entries, topic, d) == 1 ==> Repeated(payloads, 1) == payloads
    ensures Matches(entries, topic, d) == 0 ==> Repeated(payloads, 0) == []
  {
    hide DispatchAll, Matches, OfferAll, Cut;
    LocalDeliveryIsOffers(entries, topic, payloads, qs, d);
    OfferAllTakesFirst(qs[d], d.queueCap, d.msgSize, Repeated(payloads, Matches(entries, topic, d)));
    RepeatedOnce(payloads);
  }

  lemma {:induction false} RepeatedOnce(payloads: seq<seq<byte>>)
    ensures Repeated(payloads, 1) == payloads && Repeated(payloads, 0) == []
  {
    if payloads != [] {
      RepeatedOnce(payloads[1..]);
      assert seq(1, _ => payloads[0]) == [payloads[0]] && seq(0, _ => payloads[0]) == [];
    }
  }

  lemma {:induction false} LocalDeliveryIsOffers(entries: seq<Entry>, topic: Topic, payloads: seq<seq<byte>>,
          qs: Inboxes, d: Subscription)
    requires (forall i | 0 <= i < |entries| :: entries[i].dispatch in qs) && d in qs
    ensures DispatchAll(entries, topic, payloads, qs)[d]
         == OfferAll(qs[d], d.queueCap, d.msgSize, Repeated(payloads, Matches(entries, topic, d)))
    decreases |payloads|
  {
    hide Dispatch, Matches, Offer;
    if payloads != [] {
      var n := Matches(entries, topic, d);
      DispatchReaches(entries, topic, payloads[0], qs, d);
      OfferAllConcat(qs[d], d.queueCap, d.msgSize, seq(n, _ => payloads[0]), Repeated(payloads[1..], n));
      LocalDeliveryIsOffers(entries, topic, payloads[1..], Dispatch(entries, topic, payloads[0], qs), d);
    }
  }

  lemma {:induction false} OfferAllConcat(queue: seq<seq<byte>>, queueCap: nat, msgSize: nat, a: seq<seq<byte>>,
          b: seq<seq<byte>>)
    ensures OfferAll(queue, queueCap, msgSize, a + b)
        == OfferAll(OfferAll(queue, queueCap, msgSize, a), queueCap, msgSize, b)
    decreases |a|
  {
    hide Offer;
    if a == [] {
      assert a + b == b;
    } else {
      assert (a + b)[0] == a[0] && (a + b)[1..] == a[1..] + b;
      OfferAllConcat(Offer(queue, queueCap, msgSize, a[0]), queueCap, msgSize, a[1..], b);
    }
  }

  // ── Network delivery ──────────────────────────────────────────────────

  predicate TakesNetwork(e: Entry) {
    e.keyId != 0 && e.locality != SessionLocal
  }

  /** The entry that first-match-and-break picks for a scope, which is cut to sixteen bits. */
  function Target(entries: seq<Entry>, scope: nat): Option<Entry> {
    if entries == [] then None
    else if TakesNetwork(entries[0]) && scope % U16 == entries[0].keyId then Some(entries[0])
    else Target(entries[1..], scope)
  }

  ghost function Route(entries: seq<Entry>, scope: nat, payload: seq<byte>, qs: Inboxes): Inboxes
    requires forall i | 0 <= i < |entries| :: entries[i].dispatch in qs
  {
    TargetInTable(entries, scope);
    match Target(entries, scope)
    case None => qs
    case Some(e) => Push(qs, e.dispatch, payload)
  }

  lemma {:induction false} TargetInTable(entries: seq<Entry>, scope: nat)
    ensures Target(entries, scope).Some? ==> Target(entries, scope).value in entries
    ensures Target(entries, scope).Some? ==> TakesNetwork(Target(entries, scope).value)
    ensures Target(entries, scope).Some? ==> Target(entries, scope).value.keyId == scope % U16
  {
    if entries != [] {
      TargetInTable(entries[1..], scope);
    }
  }

  method RouteToSubscribers(entries: seq<Entry>, scope: nat, payload: seq<byte>)
    requires ValidSubs(entries)
    modifies Subs(entries)
    ensures ValidSubs(entries)
    ensures QueuesOf(entries) == Route(entries, scope, payload, old(QueuesOf(entries)))
  {
    var scopeId := scope % U16;
    for i := 0 to |entries|
      invariant ValidSubs(entries) && QueuesOf(entries) == old(QueuesOf(entries))
      invariant Target(entries, scope) == Target(entries[i..], scope)
    {
      var e := entries[i];
      assert e.dispatch in Subs(entries);
      assert entries[i..][0] == e && entries[i..][1..] == entries[i + 1..];
      if e.keyId == 0 || e.locality == SessionLocal {
        continue;
      }
      if scopeId == e.keyId {
        ghost var before := QueuesOf(entries);
        e.dispatch.Push(payload);
        assert QueuesOf(entries) == Push(before, e.dispatch, payload);
        break;
      }
    }
  }

  /** Network entries have key ids that grow from entry to entry and stay below the next one to be given out. */
  predicate Distinct(entries: seq<Entry>, next: nat) {
    forall i | 0 <= i < |entries| && TakesNetwork(entries[i]) ::
      && entries[i].keyId < next
      && forall j | 0 <= j < i && TakesNetwork(entries[j]) :: entries[j].keyId < entries[i].keyId
  }

  /** A new entry with a fresh key id, or none at all, keeps the key ids distinct. */
  lemma DistinctSnoc(entries: seq<Entry>, next: nat, e: Entry)
    requires Distinct(entries, next) && (TakesNetwork(e) ==> e.keyId == next)
    ensures Distinct(entries + [e], next + 1) && Distinct(entries, next + 1)
  {
    var all := entries + [e];
    forall i | 0 <= i < |all| && TakesNetwork(all[i])
      ensures all[i].keyId < next + 1 && forall j | 0 <= j < i && TakesNetwork(all[j]) :: all[j].keyId < all[i].keyId
    {
    }
  }

  lemma DistinctLocal(entries: seq<Entry>, next: nat, e: Entry)
    requires Distinct(entries, next) && !TakesNetwork(e)
    ensures Distinct(entries + [e], next)
  {
    var all := entries + [e];
    forall i | 0 <= i < |all| && TakesNetwork(all[i])
      ensures all[i].keyId < next && forall j | 0 <= j < i && TakesNetwork(all[j]) :: all[j].keyId < all[i].keyId
    {
    }
  }

  /** The key ids of a table up to the wrap: every entry that is not session-local has one, it is not 0,
      no two are equal, and the next one is still free. */
  predicate Keyed(entries: seq<Entry>, next: nat) {
    && 1 <= next && Distinct(entries, next)
    && forall i | 0 <= i < |entries| && entries[i].locality != SessionLocal :: TakesNetwork(entries[i])
  }

  lemma KeyedSnoc(entries: seq<Entry>, next: nat, e: Entry)
    requires Keyed(entries, next) && e.keyId == next && e.locality != SessionLocal
    ensures Keyed(entries + [e], next + 1) && Keyed(entries, next + 1)
  {
    DistinctSnoc(entries, next, e);
  }

  lemma KeyedLocal(entries: seq<Entry>, next: nat, e: Entry)
    requires Keyed(entries, next) && e.locality == SessionLocal
    ensures Keyed(entries + [e], next)
  {
    DistinctLocal(entries, next, e);
  }

  /** Entry `i` was declared to the network under `scope`; a session-local entry never is, and 0 is no key id. */
  predicate DeclaredUnder(entries: seq<Entry>, scope: nat, i: nat) {
    && i < |entries| && entries[i].keyId == scope && scope != 0
    && (entries[i].locality == Any || entries[i].locality == Remote)
  }

  /** In any table, also after the key ids have wrapped, the target is the first entry declared under the scope. */
  lemma {:induction false} FirstMatch(entries: seq<Entry>, scope: nat, i: nat)
    requires DeclaredUnder(entries, scope % 65536, i)
    requires forall j | 0 <= j < i :: !DeclaredUnder(entries, scope % 65536, j)
    ensures Target(entries, scope) == Some(entries[i])
    decreases |entries|
  {
    if i > 0 {
      assert !DeclaredUnder(entries, scope % U16, 0);
      forall j | 0 <= j < i - 1
        ensures !DeclaredUnder(entries[1..], scope % U16, j)
      {
        assert !DeclaredUnder(entries, scope % U16, j + 1);
      }
      FirstMatch(entries[1..], scope, i - 1);
    }
  }

  lemma {:induction false} TargetIsDeclared(entries: seq<Entry>, next: nat, scope: nat, i: nat)
    requires Distinct(entries, next) && DeclaredUnder(entries, scope % U16, i)
    ensures Target(entries, scope) == Some(entries[i])
    decreases |entries|
  {
    if i > 0 {
      assert !(TakesNetwork(entries[0]) && entries[0].keyId == scope % U16);
      assert forall k | 0 <= k < |entries[1..]| :: entries[1..][k] == entries[k + 1];
      TargetIsDeclared(entries[1..], next, scope, i - 1);
    }
  }

  lemma {:induction false} NoTarget(entries: seq<Entry>, scope: nat)
    requires forall i | 0 <= i < |entries| :: !DeclaredUnder(entries, scope % U16, i)
    ensures Target(entries, scope) == None
  {
    if entries != [] {
      assert !DeclaredUnder(entries, scope % U16, 0);
      forall k | 0 <= k < |entries[1..]|
        ensures !DeclaredUnder(entries[1..], scope % U16, k)
      {
        assert !DeclaredUnder(entries, scope % U16, k + 1);
      }
      NoTarget(entries[1..], scope);
    }
  }

  /** Delivery to exactly the declared subscription: for a scope below 65536, a payload reaches an
      entry if and only if that entry was declared under the scope. */
  lemma RoutesToDeclared(entries: seq<Entry>, next: nat, scope: nat)
    requires Distinct(entries, next) && scope < U16
    ensures forall i | 0 <= i < |entries| && DeclaredUnder(entries, scope, i) ::
              Target(entries, scope) == Some(entries[i])
    ensures (forall i | 0 <= i < |entries| :: !DeclaredUnder(entries, scope, i)) ==> Target(entries, scope) == None
  {
    forall i | 0 <= i < |entries| && DeclaredUnder(entries, scope, i)
      ensures Target(entries, scope) == Some(entries[i])
    {
      TargetIsDeclared(entries, next, scope, i);
    }
    if forall i | 0 <= i < |entries| :: !DeclaredUnder(entries, scope, i) {
      NoTarget(entries, scope);
    }
  }

  /** A larger scope, under which nothing can be declared, is delivered all the same if and only if
      its low sixteen bits are the key id of a network entry. */
  lemma LargeScopeMisrouted(entries: seq<Entry>, next: nat, scope: nat)
    requires Distinct(entries, next) && scope >= U16
    ensures Target(entries, scope).Some? <==> exists i | 0 <= i < |entries| :: DeclaredUnder(entries, scope % U16, i)
  {
    if exists i | 0 <= i < |entries| :: DeclaredUnder(entries, scope % U16, i) {
      var i :| 0 <= i < |entries| && DeclaredUnder(entries, scope % U16, i);
      TargetIsDeclared(entries, next, scope, i);
    } else {
      NoTarget(entries, scope);
    }
  }
}
