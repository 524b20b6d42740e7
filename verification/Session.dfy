/** From a connection to a session: the handshake, and the node it leads to. */
module Sessions {
  import opened Common
  import opened Utf8
  import opened Transmit
  import opened Framing
  import opened Handshakes
  import opened Numbering
  import opened Drains
  import opened Refinement
  import opened Nodes
  import opened Cdr
  import opened CdrCodec
  import opened Names
  import opened Queues
  import opened Routing
  import opened Liveliness
  import opened Receiving

  const MIN_LEASE_MS: nat := 2000

  lemma GreetingIsNoFrame(zid: seq<byte>, cookie: seq<byte>)
    requires 1 <= |zid| <= 16 && |cookie| <= MAX_COOKIE
    ensures SnOf(Hello(zid)) == None && SnOf(Echo(cookie)) == None
  {
    HelloSize(zid);
    EchoSize(cookie);
  }

  /** Nothing the handshake sends is a frame, so numbering starts with the number that OpenSyn announces. */
  lemma NumberingStarts(zid: seq<byte>, cookie: seq<byte>, budget: nat)
    requires 1 <= |zid| <= 16 && |cookie| <= MAX_COOKIE
    ensures GapFree([Hello(zid), Echo(cookie)], 0, budget)
  {
    hide SnOf, Hello, Echo;
    GreetingIsNoFrame(zid, cookie);
    var sent := [Hello(zid), Echo(cookie)];
    var none: seq<seq<byte>> := [];
    assert sent[1..] == [Echo(cookie)] && sent[1..][1..] == none;
    assert Sns(none) == [];
    assert Sns(sent[1..]) == [];
    assert Counting(0, 0) == [];
  }

  lemma Sent(zid: seq<byte>, stream: seq<byte>, budget: nat, txCap: nat, rxCap: nat) returns (cookie: seq<byte>)
    requires 1 <= |zid| <= 16 && Handshake(zid, stream, budget, txCap, rxCap).1.Ok?
    ensures |cookie| <= MAX_COOKIE
    ensures Handshake(zid, stream, budget, txCap, rxCap).0 == [Hello(zid), Echo(cookie)]
    ensures Handshake(zid, stream, budget, txCap, rxCap).1.value.initialSn == 0
  {
    hide InitAckOf, OpenAckOf, ReadOne, Hello, Echo;
    cookie := InitAckOf(ReadOne(stream, rxCap).value.0).value.0.cookie;
  }

  /** A node on a fresh connection. Its first frame gets the number that its OpenSyn announced, and it
      takes the router's lease for at least two seconds. */
  method Build(mode: Mode, link: Link, zid: seq<byte>, name: text, namespace: text, domain: nat)
    returns (r: Result<Node, Error>, leaseMs: nat)
    requires link.Valid() && link.sent == [] && 1 <= |zid| <= 16 && domain < U32
    modifies link
    ensures link.Valid()
    ensures var h := Handshake(zid, old(link.input), old(link.budget), 512, 4096);
      && link.sent == h.0
      && (r.Ok? <==> h.1.Ok?)
      && (r.Err? ==> r.error == Transport(h.1.error))
      && (r.Ok? ==> leaseMs == if h.1.value.leaseMs < MIN_LEASE_MS then MIN_LEASE_MS else h.1.value.leaseMs)
    ensures r.Ok? ==> fresh(r.value) && r.value.Valid()
    ensures r.Ok? ==> r.value.link == link && r.value.gid == zid && r.value.mode == mode
    ensures r.Ok? ==> r.value.publishers == [] && r.value.subscribers == []
    ensures r.Ok? ==> r.value.keyIdGen == 1 && r.value.entityIdGen == 1
    ensures r.Ok? ==> r.value.Numbered() && |link.sent| == 2
    ensures r.Ok? ==> OpenSynOf(link.sent[1]).Ok? && OpenSynOf(link.sent[1]).value.1 == r.value.sn
  {
    hide Handshake, Hello, Echo, OpenSynOf, GapFree;
    var tx, rx := new byte[512], new byte[4096];
    leaseMs := 0;
    ghost var stream, budget := link.input, link.budget;
    var h := ClientHandshake(link, zid, tx, rx);
    if h.Err? {
      return Err(Transport(h.error)), 0;
    }
    ghost var cookie := Sent(zid, stream, budget, 512, 4096);
    EchoRead(cookie);
    var node := new Node(mode, link, zid, name, namespace, domain);
    NumberingStarts(zid, cookie, link.budget);
    leaseMs := if h.value.leaseMs < MIN_LEASE_MS then MIN_LEASE_MS else h.value.leaseMs;
    return Ok(node), leaseMs;
  }

  // ── Sessions ──────────────────────────────────────────────────────────

  /** What an application does with a node. */
  datatype Op =
    | AddPublisher(p: Publisher)
    | AddSubscription(topic: Topic, d: Subscription)
    | Send(p: Publisher, v: Val, t: Ty)
    | Receive(d: Subscription, t: Ty)
    | DrainNow
    | Beat
    | SpinFor(timeouts: seq<bool>)
    | Call(topic: Topic, v: Val, t: Ty, cdrCap: nat, answerType: Ty)

  predicate ValidOp(op: Op) {
    match op
    case AddPublisher(p) => p.topic.Valid()
    case AddSubscription(topic, _) => topic.Valid()
    case Send(_, v, t) => HasType(v, t)
    case Call(topic, v, t, cdrCap, _) =>
      topic.Valid() && HasType(v, t) && cdrCap + 1 < U64 && |EncWithHeader(v, t)| + 1 < U64
    case _ => true
  }

  function PubsOf(ops: seq<Op>): set<Publisher> {
    (set i | 0 <= i < |ops| && ops[i].AddPublisher? :: ops[i].p) + (set i | 0 <= i < |ops| && ops[i].Send? :: ops[i].p)
  }

  function SubsOf(ops: seq<Op>): set<Subscription> {
    (set i | 0 <= i < |ops| && ops[i].AddSubscription? :: ops[i].d)
    + (set i | 0 <= i < |ops| && ops[i].Receive? :: ops[i].d)
  }

  /** How many key ids the operations take. */
  function KeysTaken(ops: seq<Op>): nat {
    if ops == [] then 0 else KeysTaken(ops[..|ops| - 1]) + KeyTaken(ops[|ops| - 1])
  }

  function KeyTaken(op: Op): nat {
    if op.AddSubscription? && op.d.locality != SessionLocal && KeyOf(op.topic).Some? then 1 else 0
  }

  lemma KeysTakenGrow(ops: seq<Op>, i: nat)
    requires i < |ops|
    ensures KeysTaken(ops[..i + 1]) == KeysTaken(ops[..i]) + KeyTaken(ops[i])
    ensures KeysTaken(ops[..i + 1]) <= KeysTaken(ops)
    decreases |ops| - i
  {
    hide KeyTaken;
    assert ops[..i + 1][..i] == ops[..i];
    if i + 1 < |ops| {
      KeysTakenGrow(ops, i + 1);
    } else {
      assert ops[..i + 1] == ops;
    }
  }

  /** A call that its frame always holds. */
  predicate Fitting(op: Op)
    requires ValidOp(op)
  {
    op.Call? && KeyOf(op.topic).Some? ==> |KeyOf(op.topic).value| + |EncWithHeader(op.v, op.t)| <= 962
  }

  /** Everything the node holds is among these publishers and subscriptions, which are all valid. */
  ghost predicate Among(node: Node, ps: set<Publisher>, ds: set<Subscription>)
    reads node, ps, ds
  {
    && (forall p | p in node.publishers :: p in ps) && Subs(node.subscribers) <= ds
    && (forall p | p in ps :: p.Valid()) && (forall d | d in ds :: d.Valid())
  }

  /** The application's side of the queues. */
  method UseQueues(node: Node, op: Op, ghost ps: set<Publisher>, ghost ds: set<Subscription>)
    requires node.Valid() && ValidOp(op) && Among(node, ps, ds)
    requires (op.Send? && op.p in ps) || (op.Receive? && op.d in ds)
    modifies ps, ds
    ensures node.Valid() && Among(node, ps, ds)
  {
    hide KeyOf, EncWithHeader, HasType, Link.Valid;
    if op.Send? {
      var _ := op.p.TrySend(op.v, op.t);
    } else {
      var _ := op.d.TryRecv(op.t);
    }
  }

  method AddToTables(node: Node, op: Op, ghost ps: set<Publisher>, ghost ds: set<Subscription>)
    requires node.Valid() && ValidOp(op) && node.entityIdGen + 1 < U32 && Among(node, ps, ds)
    requires (op.AddPublisher? && op.p in ps) || (op.AddSubscription? && op.d in ds)
    modifies node, node.link
    ensures node.Valid() && Among(node, ps, ds) && node.entityIdGen <= old(node.entityIdGen) + 1
    ensures node.keyIdGen == (old(node.keyIdGen) + KeyTaken(op)) % U16
    ensures old(Keyed(node.subscribers, node.keyIdGen)) && old(node.keyIdGen) <= node.keyIdGen ==>
              Keyed(node.subscribers, node.keyIdGen)
    ensures old(node.Numbered()) ==> node.Numbered()
  {
    hide KeyOf, EncWithHeader, HasType, Link.Valid, Keyed, Node.Numbered, TokenOf, Publisher.Valid, Subscription.Valid;
    if op.AddPublisher? {
      var _ := node.CreatePublisher(op.p);
    } else {
      var _ := node.CreateSubscription(op.topic, op.d);
    }
  }

  /** A call leaves a gap only if its request does not fit. */
  method MakeCall(node: Node, op: Op, ghost ps: set<Publisher>, ghost ds: set<Subscription>) returns (ghost gap: bool)
    requires node.Valid() && ValidOp(op) && node.entityIdGen + 1 < U32 && Among(node, ps, ds) && op.Call?
    modifies node, node.link, ds
    ensures node.Valid() && Among(node, ps, ds) && node.entityIdGen <= old(node.entityIdGen) + 1
    ensures node.keyIdGen == old(node.keyIdGen) && node.subscribers == old(node.subscribers)
    ensures old(node.Numbered()) ==> (node.Numbered() <==> !gap)
    ensures gap ==> !Fitting(op)
  {
    hide KeyOf, EncWithHeader, HasType, Link.Valid, Node.Numbered, Node.Oversized, TokenOf, Publisher.Valid;
    hide Subscription.Valid, Await, CallResult;
    if Fitting(op) && KeyOf(op.topic).Some? {
      node.WhatFits(op.topic, EncWithHeader(op.v, op.t));
    }
    NoKey(node, op);
    var _, r := node.CallService(op.topic, op.v, op.t, op.cdrCap, op.answerType);
    gap := r == Err(Unsent(Transport(FrameTooLarge))) && old(node.link.budget) > 1;
  }

  lemma NoKey(node: Node, op: Op)
    requires node.Valid() && ValidOp(op) && op.Call?
    ensures KeyOf(op.topic).None? ==> !node.Oversized(op.topic, EncWithHeader(op.v, op.t))
  {
    hide KeyOf, EncWithHeader;
  }

  method Drive(node: Node, op: Op, ghost ps: set<Publisher>, ghost ds: set<Subscription>)
    requires node.Valid() && Among(node, ps, ds) && (op.DrainNow? || op.Beat? || op.SpinFor?)
    modifies node, node.link, ps, ds
    ensures node.Valid() && Among(node, ps, ds) && node.entityIdGen == old(node.entityIdGen)
    ensures node.keyIdGen == old(node.keyIdGen) && node.subscribers == old(node.subscribers)
    ensures old(node.Numbered()) ==> node.Numbered()
  {
    hide Link.Valid, Node.Numbered, Publisher.Valid, Subscription.Valid, DrainRun, Covers, Node.Now;
    if op.DrainNow? {
      var _ := node.DrainPublishers();
    } else if op.Beat? {
      var _ := node.SendKeepalive();
    } else {
      var _, _, _ := node.Spin(op.timeouts, seq(|op.timeouts|, _ => 0));
    }
  }

  lemma InScope(ops: seq<Op>, i: nat, ps: set<Publisher>, ds: set<Subscription>)
    requires i < |ops| && PubsOf(ops) <= ps && SubsOf(ops) <= ds
    ensures ops[i].AddPublisher? || ops[i].Send? ==> ops[i].p in ps
    ensures ops[i].AddSubscription? || ops[i].Receive? ==> ops[i].d in ds
  {
    if ops[i].AddPublisher? || ops[i].Send? {
      assert ops[i].p in PubsOf(ops);
    }
    if ops[i].AddSubscription? || ops[i].Receive? {
      assert ops[i].d in SubsOf(ops);
    }
  }

  /** One operation. `gap` says that it took a number for a request that did not fit into its frame. */
  method Step(node: Node, op: Op, ghost ps: set<Publisher>, ghost ds: set<Subscription>) returns (ghost gap: bool)
    requires node.Valid() && ValidOp(op) && node.entityIdGen + 1 < U32 && Among(node, ps, ds)
    requires op.AddPublisher? || op.Send? ==> op.p in ps
    requires op.AddSubscription? || op.Receive? ==> op.d in ds
    modifies node, node.link, ps, ds
    ensures node.Valid() && Among(node, ps, ds) && node.entityIdGen <= old(node.entityIdGen) + 1
    ensures node.keyIdGen == (old(node.keyIdGen) + KeyTaken(op)) % U16
    ensures old(Keyed(node.subscribers, node.keyIdGen)) && old(node.keyIdGen) <= node.keyIdGen ==>
              Keyed(node.subscribers, node.keyIdGen)
    ensures old(node.Numbered()) && !gap ==> node.Numbered()
    ensures gap ==> !Fitting(op)
  {
    hide Keyed, Node.Valid, Fitting, ValidOp, Among, KeyOf;
    KeyRange(node);
    gap := false;
    match op {
      case AddPublisher(_) | AddSubscription(_, _) =>
        AddToTables(node, op, ps, ds);
      case Send(_, _, _) | Receive(_, _) =>
        UseQueues(node, op, ps, ds);
      case Call(_, _, _, _, _) =>
        gap := MakeCall(node, op, ps, ds);
      case _ =>
        Drive(node, op, ps, ds);
    }
  }

  lemma KeyRange(node: Node)
    requires node.Valid()
    ensures node.keyIdGen < U16
  {
  }

  /** Any sequence of operations on a node. If every request fits into its frame, the frames stay numbered
      without a gap. The entries of the table that are not session-local have distinct key ids other than 0
      until the key ids wrap. */
  method Perform(node: Node, ops: seq<Op>, ghost ps: set<Publisher>, ghost ds: set<Subscription>)
    returns (ghost gaps: set<nat>)
    requires node.Valid() && Among(node, ps, ds) && PubsOf(ops) <= ps && SubsOf(ops) <= ds
    requires (forall i | 0 <= i < |ops| :: ValidOp(ops[i])) && node.entityIdGen + |ops| < U32
    modifies node, node.link, ps, ds
    ensures node.Valid() && Among(node, ps, ds)
    ensures node.keyIdGen == (old(node.keyIdGen) + KeysTaken(ops)) % U16
    ensures old(Keyed(node.subscribers, node.keyIdGen)) && old(node.keyIdGen) + KeysTaken(ops) < U16 ==>
              Keyed(node.subscribers, node.keyIdGen)
    ensures old(node.Numbered()) && gaps == {} ==> node.Numbered()
    ensures forall i | i in gaps :: i < |ops| && !Fitting(ops[i])
  {
    hide Keyed, Node.Valid, Fitting, ValidOp, Among, Node.Numbered, KeyTaken, KeysTaken, PubsOf, SubsOf;
    gaps := {};
    ghost var key := node.keyIdGen;
    KeyRange(node);
    KeysTakenNone(ops);
    for i := 0 to |ops|
      invariant node.Valid() && Among(node, ps, ds) && node.entityIdGen <= old(node.entityIdGen) + i
      invariant node.keyIdGen == (key + KeysTaken(ops[..i])) % U16
      invariant old(Keyed(node.subscribers, node.keyIdGen)) && key + KeysTaken(ops[..i]) < U16 ==>
                  Keyed(node.subscribers, node.keyIdGen)
      invariant old(node.Numbered()) && gaps == {} ==> node.Numbered()
      invariant forall k | k in gaps :: k < i && !Fitting(ops[k])
    {
      KeysTakenGrow(ops, i);
      KeyWraps(key + KeysTaken(ops[..i]), KeyTaken(ops[i]));
      InScope(ops, i, ps, ds);
      ghost var gap := Step(node, ops[i], ps, ds);
      if gap {
        gaps := gaps + {i};
      }
    }
    assert ops[..|ops|] == ops;
  }

  /** A whole session: the handshake, then any sequence of operations on the node. If every request fits into
      its frame, the frames are numbered without a gap from the number that OpenSyn announced; as long as fewer
      than 65535 key ids are taken, every entry that can get network data has an id of its own, which is not 0. */
  method RunSession(mode: Mode, link: Link, zid: seq<byte>, name: text, namespace: text, domain: nat, ops: seq<Op>)
    returns (r: Result<Node, Error>)
    requires link.Valid() && link.sent == [] && 1 <= |zid| <= 16 && domain < U32
    requires (forall p | p in PubsOf(ops) :: p.Valid()) && (forall d | d in SubsOf(ops) :: d.Valid())
    requires (forall i | 0 <= i < |ops| :: ValidOp(ops[i])) && |ops| + 1 < U32
    modifies link, PubsOf(ops), SubsOf(ops)
    ensures r.Ok? <==> Handshake(zid, old(link.input), old(link.budget), 512, 4096).1.Ok?
    ensures r.Ok? ==> fresh(r.value) && r.value.Valid() && r.value.link == link
    ensures r.Ok? ==> r.value.keyIdGen == (1 + KeysTaken(ops)) % U16
    ensures r.Ok? && 1 + KeysTaken(ops) < U16 ==> Keyed(r.value.subscribers, 1 + KeysTaken(ops))
    ensures r.Ok? && (forall i | 0 <= i < |ops| :: Fitting(ops[i])) ==> r.value.Numbered()
  {
    hide Handshake, KeysTaken, ValidOp, Fitting, Node.Numbered, OpenSynOf, Link.Valid;
    ghost var ps, ds := PubsOf(ops), SubsOf(ops);
    var leaseMs;
    r, leaseMs := Build(mode, link, zid, name, namespace, domain);
    if r.Ok? {
      assert Subs(r.value.subscribers) == {};
      ghost var gaps := Perform(r.value, ops, ps, ds);
      assert gaps != {} ==> exists i :: i in gaps;
    }
  }

  lemma KeyWraps(a: nat, b: nat)
    ensures (a % U16 + b) % U16 == (a + b) % U16
    ensures a + b < U16 ==> a % U16 == a && (a + b) % U16 == a + b
  {
  }

  lemma KeysTakenNone(ops: seq<Op>)
    ensures KeysTaken(ops[..0]) == 0
  {
  }
}
