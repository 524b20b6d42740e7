/** Several senders sending through one publisher. A send is two steps, taking a
    sequence number and entering the queue once there is room; the steps of
    different senders and of the drain interleave in any order. */
module Senders {
  import opened Common
  import opened Cdr
  import opened CdrCodec
  import opened Transmit
  import opened Queues

  datatype Tagged = Tagged(sender: nat, message: Message)

  /** `held` are the messages that have a number but are not in the queue yet, one for each sender in the
      middle of a send. `issued` records every message in the order in which numbers were taken. */
  datatype State = State(counter: int, held: map<nat, Message>, queue: seq<Tagged>, drained: seq<Tagged>,
                         issued: seq<Tagged>)

  const START := State(0, map[], [], [], [])

  /** A sender that starts a send has a value that can be encoded within the capacity; one that has not fails
      before it takes a number. */
  datatype Action =
    | TakeNumber(sender: nat, v: Val, t: Ty, timestamp: int)
    | EnterQueue(sender: nat)
    | Drain

  /** The capacities of the queue and of a message. */
  datatype Caps = Caps(queue: nat, cdr: nat)

  predicate Enabled(st: State, a: Action, cap: Caps) {
    match a
    case TakeNumber(sender, v, t, _) => sender !in st.held && HasType(v, t) && |EncWithHeader(v, t)| <= cap.cdr
    case EnterQueue(sender) => sender in st.held && |st.queue| < cap.queue
    case Drain => st.queue != []
  }

  function Apply(st: State, a: Action, cap: Caps): State
    requires Enabled(st, a, cap)
  {
    match a
    case TakeNumber(sender, v, t, timestamp) =>
      var m := Message(EncWithHeader(v, t), st.counter, timestamp);
      st.(counter := Next(st.counter), held := st.held[sender := m], issued := st.issued + [Tagged(sender, m)])
    case EnterQueue(sender) =>
      st.(held := st.held - {sender}, queue := st.queue + [Tagged(sender, st.held[sender])])
    case Drain =>
      st.(queue := st.queue[1..], drained := st.drained + [st.queue[0]])
  }

  predicate Possible(st: State, run: seq<Action>, cap: Caps)
    decreases |run|
  {
    run == [] || (Enabled(st, run[0], cap) && Possible(Apply(st, run[0], cap), run[1..], cap))
  }

  function Exec(st: State, run: seq<Action>, cap: Caps): State
    requires Possible(st, run, cap)
    decreases |run|
  {
    if run == [] then st else Exec(Apply(st, run[0], cap), run[1..], cap)
  }

  // ── Numbers ───────────────────────────────────────────────────────────

  /** `n` as an `i64` that counts up and wraps around. */
  function Wrap(n: nat): (w: int)
    ensures -I64_LIMIT <= w < I64_LIMIT && (n < I64_LIMIT ==> w == n)
  {
    (n + I64_LIMIT) % U64 - I64_LIMIT
  }

  lemma WrapNext(n: nat)
    ensures Next(Wrap(n)) == Wrap(n + 1)
  {
  }

  lemma WrapInjective(i: nat, j: nat)
    requires i < j < i + U64
    ensures Wrap(i) != Wrap(j)
  {
  }

  // ── Invariant ─────────────────────────────────────────────────────────

  /** The messages of one sender, in order. */
  function Of(sender: nat, ms: seq<Tagged>): seq<Tagged> {
    if ms == [] then [] else (if ms[0].sender == sender then [ms[0]] else []) + Of(sender, ms[1..])
  }

  function HeldBy(sender: nat, held: map<nat, Message>): seq<Tagged> {
    if sender in held then [Tagged(sender, held[sender])] else []
  }

  /** Each sender's messages are, in the order in which it sent them, drained, queued or still held. */
  ghost predicate InOrder(st: State, sender: nat) {
    Of(sender, st.issued) == Of(sender, st.drained) + Of(sender, st.queue) + HeldBy(sender, st.held)
  }

  ghost predicate Inv(st: State, cap: Caps) {
    && st.counter == Wrap(|st.issued|)
    && (forall i | 0 <= i < |st.issued| :: st.issued[i].message.seqNum == Wrap(i))
    && |st.issued| == |st.drained| + |st.queue| + |st.held|
    && |st.queue| <= cap.queue
    && (forall sender: nat :: InOrder(st, sender))
  }

  lemma OfStep(sender: nat, ms: seq<Tagged>)
    requires ms != []
    ensures Of(sender, ms) == (if ms[0].sender == sender then [ms[0]] else []) + Of(sender, ms[1..])
  {
  }

  lemma OfNone(sender: nat)
    ensures Of(sender, []) == []
  {
  }

  lemma {:induction false} OfConcat(sender: nat, a: seq<Tagged>, b: seq<Tagged>)
    ensures Of(sender, a + b) == Of(sender, a) + Of(sender, b)
    decreases |a|
  {
    hide Of;
    OfNone(sender);
    if a == [] {
      assert a + b == b;
    } else {
      var first := if a[0].sender == sender then [a[0]] else [];
      OfConcat(sender, a[1..], b);
      OfStep(sender, a);
      assert (a + b)[0] == a[0] && (a + b)[1..] == a[1..] + b;
      OfStep(sender, a + b);
      assert first + (Of(sender, a[1..]) + Of(sender, b)) == first + Of(sender, a[1..]) + Of(sender, b);
    }
  }

  lemma OfOne(sender: nat, m: Tagged)
    ensures Of(sender, [m]) == if m.sender == sender then [m] else []
  {
    assert [m][1..] == [];
  }

  lemma Regroup(a: seq<Tagged>, b: seq<Tagged>, c: seq<Tagged>)
    ensures a + (b + c) == a + b + c
  {
  }

  lemma StepKeepsOrder(st: State, a: Action, cap: Caps, sender: nat)
    requires Enabled(st, a, cap) && InOrder(st, sender)
    ensures InOrder(Apply(st, a, cap), sender)
  {
    hide Of, EncWithHeader, HasType;
    var st' := Apply(st, a, cap);
    match a
    case TakeNumber(sender', v, t, timestamp) =>
      var m := Tagged(sender', Message(EncWithHeader(v, t), st.counter, timestamp));
      OfConcat(sender, st.issued, [m]);
      OfOne(sender, m);
    case EnterQueue(t) =>
      var m := Tagged(t, st.held[t]);
      OfConcat(sender, st.queue, [m]);
      OfOne(sender, m);
      Regroup(Of(sender, st.drained), Of(sender, st.queue), Of(sender, [m]));
    case Drain =>
      var m := st.queue[0];
      assert st.queue == [m] + st.queue[1..];
      OfConcat(sender, [m], st.queue[1..]);
      OfConcat(sender, st.drained, [m]);
      Regroup(Of(sender, st.drained), Of(sender, [m]), Of(sender, st.queue[1..]));
  }

  lemma StepKeepsInv(st: State, a: Action, cap: Caps)
    requires Inv(st, cap) && Enabled(st, a, cap)
    ensures Inv(Apply(st, a, cap), cap)
  {
    hide InOrder, Wrap, Apply;
    StepKeepsCounts(st, a, cap);
    forall sender: nat
      ensures InOrder(Apply(st, a, cap), sender)
    {
      StepKeepsOrder(st, a, cap, sender);
    }
  }

  /** The parts of the invariant that do not depend on the sender. */
  lemma StepKeepsCounts(st: State, a: Action, cap: Caps)
    requires Enabled(st, a, cap) && |st.queue| <= cap.queue && st.counter == Wrap(|st.issued|)
    requires forall i | 0 <= i < |st.issued| :: st.issued[i].message.seqNum == Wrap(i)
    requires |st.issued| == |st.drained| + |st.queue| + |st.held|
    ensures var st' := Apply(st, a, cap);
      && st'.counter == Wrap(|st'.issued|)
      && (forall i | 0 <= i < |st'.issued| :: st'.issued[i].message.seqNum == Wrap(i))
      && |st'.issued| == |st'.drained| + |st'.queue| + |st'.held|
      && |st'.queue| <= cap.queue
  {
    hide Wrap, Next, EncWithHeader, HasType;
    match a
    case TakeNumber(sender, v, t, timestamp) =>
      var m := Message(EncWithHeader(v, t), st.counter, timestamp);
      AddedKey(st.held, sender, m);
      NextNumber(st.issued, st.counter, Tagged(sender, m));
    case EnterQueue(t) => RemovedKey(st.held, t);
    case Drain =>
  }

  lemma NextNumber(issued: seq<Tagged>, counter: int, m: Tagged)
    requires counter == Wrap(|issued|) && m.message.seqNum == counter
    requires forall i | 0 <= i < |issued| :: issued[i].message.seqNum == Wrap(i)
    ensures Next(counter) == Wrap(|issued + [m]|)
    ensures forall i | 0 <= i < |issued + [m]| :: (issued + [m])[i].message.seqNum == Wrap(i)
  {
    hide Wrap, Next;
    WrapNext(|issued|);
  }

  lemma AddedKey(m: map<nat, Message>, k: nat, v: Message)
    requires k !in m
    ensures |m[k := v]| == |m| + 1
  {
    assert m[k := v].Keys == m.Keys + {k};
  }

  lemma RemovedKey(m: map<nat, Message>, k: nat)
    requires k in m
    ensures |m - {k}| == |m| - 1
  {
    assert (m - {k}).Keys == m.Keys - {k};
  }

  lemma {:induction false} RunKeepsInv(st: State, run: seq<Action>, cap: Caps)
    requires Inv(st, cap) && Possible(st, run, cap)
    ensures Inv(Exec(st, run, cap), cap)
    decreases |run|
  {
    hide Inv, Enabled, Apply;
    if run != [] {
      StepKeepsInv(st, run[0], cap);
      RunKeepsInv(Apply(st, run[0], cap), run[1..], cap);
    }
  }

  /** In every interleaving: the numbers taken are 0, 1, 2 and so on and, short of two to the power of 64
      sends, no number is taken twice; nothing is lost or duplicated; and each sender's messages leave
      in the order in which the sender sent them. */
  lemma EveryInterleaving(run: seq<Action>, cap: Caps)
    requires Possible(START, run, cap)
    ensures var st := Exec(START, run, cap);
      && (forall i | 0 <= i < |st.issued| :: st.issued[i].message.seqNum == Wrap(i))
      && (|st.issued| <= U64 ==>
        forall i, j | 0 <= i < j < |st.issued| :: st.issued[i].message.seqNum != st.issued[j].message.seqNum)
      && |st.issued| == |st.drained| + |st.queue| + |st.held|
      && (forall sender: nat ::
            Of(sender, st.issued) == Of(sender, st.drained) + Of(sender, st.queue) + HeldBy(sender, st.held))
  {
    hide Enabled, Apply, Exec, Wrap;
    StartInv(cap);
    RunKeepsInv(START, run, cap);
    var st := Exec(START, run, cap);
    forall sender: nat
      ensures Of(sender, st.issued) == Of(sender, st.drained) + Of(sender, st.queue) + HeldBy(sender, st.held)
    {
      assert InOrder(st, sender);
    }
    forall i, j | 0 <= i < j < |st.issued| && |st.issued| <= U64
      ensures st.issued[i].message.seqNum != st.issued[j].message.seqNum
    {
      WrapInjective(i, j);
    }
  }

  lemma StartInv(cap: Caps)
    ensures Inv(START, cap)
  {
  }

  /** Between senders there is no order: a later number can be drained before an earlier one. */
  lemma NumbersOvertake(v: Val, t: Ty, cap: Caps)
    requires HasType(v, t) && |EncWithHeader(v, t)| <= cap.cdr && cap.queue > 0
    ensures var data := EncWithHeader(v, t);
      var run := [TakeNumber(1, v, t, 0), TakeNumber(2, v, t, 0), EnterQueue(2), Drain, EnterQueue(1), Drain];
      Possible(START, run, cap)
        && Exec(START, run, cap).drained == [Tagged(2, Message(data, 1, 0)), Tagged(1, Message(data, 0, 0))]
  {
    hide EncWithHeader, HasType, Possible, Exec;
    var run := [TakeNumber(1, v, t, 0), TakeNumber(2, v, t, 0), EnterQueue(2), Drain, EnterQueue(1), Drain];
    var s2 := Apply(Apply(START, run[0], cap), run[1], cap);
    var s4 := Apply(Apply(s2, run[2], cap), run[3], cap);
    var s6 := Apply(Apply(s4, run[4], cap), run[5], cap);
    assert s4.queue == [];
    NoSteps(s6, cap);
    TwoSteps(s4, run[4], run[5], [], cap);
    assert run[4..] == [run[4], run[5]] + [];
    TwoSteps(s2, run[2], run[3], run[4..], cap);
    assert run[2..] == [run[2], run[3]] + run[4..];
    TwoSteps(START, run[0], run[1], run[2..], cap);
    assert run == [run[0], run[1]] + run[2..];
  }

  lemma NoSteps(st: State, cap: Caps)
    ensures Possible(st, [], cap) && Exec(st, [], cap) == st
  {
  }

  lemma TwoSteps(st: State, a: Action, b: Action, rest: seq<Action>, cap: Caps)
    requires Enabled(st, a, cap) && Enabled(Apply(st, a, cap), b, cap)
    requires Possible(Apply(Apply(st, a, cap), b, cap), rest, cap)
    ensures Possible(st, [a, b] + rest, cap)
    ensures Exec(st, [a, b] + rest, cap) == Exec(Apply(Apply(st, a, cap), b, cap), rest, cap)
  {
    hide Enabled, Apply;
    assert ([a, b] + rest)[1..] == [b] + rest && ([b] + rest)[1..] == rest;
  }

  // ── When numbers leave in order ───────────────────────────────────────

  /** Everything that has entered the queue, in order. */
  function Entered(st: State): seq<Tagged> {
    st.drained + st.queue
  }

  /** The message that this sender holds has the lowest number of those that have not entered yet. */
  predicate ItsTurn(st: State, sender: nat)
    requires sender in st.held
  {
    |Entered(st)| < |st.issued| && st.issued[|Entered(st)|] == Tagged(sender, st.held[sender])
  }

  /** Every message enters the queue in its turn. */
  predicate InTurn(st: State, run: seq<Action>, cap: Caps)
    requires Possible(st, run, cap)
    decreases |run|
  {
    run == [] || (
      && (run[0].EnterQueue? ==> ItsTurn(st, run[0].sender))
      && InTurn(Apply(st, run[0], cap), run[1..], cap))
  }

  lemma StepEnters(st: State, a: Action, cap: Caps)
    requires Enabled(st, a, cap)
    ensures var st' := Apply(st, a, cap);
      && st.issued <= st'.issued
      && (a.EnterQueue? ==> st'.issued == st.issued)
      && (a.EnterQueue? ==> Entered(st') == Entered(st) + [Tagged(a.sender, st.held[a.sender])])
      && (!a.EnterQueue? ==> Entered(st') == Entered(st))
  {
    hide EncWithHeader, HasType;
  }

  /** A message keeps the numbers in order if and only if it enters in its turn; an order once broken stays broken. */
  lemma StepInTurn(st: State, a: Action, cap: Caps)
    requires Inv(st, cap) && Enabled(st, a, cap)
    ensures Entered(Apply(st, a, cap)) <= Apply(st, a, cap).issued
       <==> Entered(st) <= st.issued && (a.EnterQueue? ==> ItsTurn(st, a.sender))
  {
    hide Apply, InOrder, EncWithHeader, HasType;
    StepEnters(st, a, cap);
    var st' := Apply(st, a, cap);
    var n := |Entered(st)|;
    assert st'.issued[..n] == st.issued[..n];
    if a.EnterQueue? {
      EntersOne(st, a.sender, cap);
      assert Entered(st')[..n] == Entered(st) && Entered(st')[n] == Tagged(a.sender, st.held[a.sender]);
      assert st.issued[..n + 1] == st.issued[..n] + [st.issued[n]];
    }
  }

  lemma EntersOne(st: State, sender: nat, cap: Caps)
    requires Inv(st, cap) && sender in st.held
    ensures |Entered(st)| < |st.issued|
  {
    RemovedKey(st.held, sender);
  }

  lemma {:induction false} RunInTurn(st: State, run: seq<Action>, cap: Caps)
    requires Inv(st, cap) && Possible(st, run, cap)
    ensures Entered(Exec(st, run, cap)) <= Exec(st, run, cap).issued
       <==> Entered(st) <= st.issued && InTurn(st, run, cap)
    decreases |run|
  {
    hide Inv, Enabled, Apply, Entered, ItsTurn;
    if run != [] {
      StepKeepsInv(st, run[0], cap);
      StepInTurn(st, run[0], cap);
      RunInTurn(Apply(st, run[0], cap), run[1..], cap);
    }
  }

  lemma {:induction false} OfIsPart(sender: nat, ms: seq<Tagged>)
    ensures forall m :: m in Of(sender, ms) <==> m in ms && m.sender == sender
  {
    if ms != [] {
      OfIsPart(sender, ms[1..]);
      assert ms == [ms[0]] + ms[1..];
    }
  }

  lemma EnteredWasIssued(st: State, m: Tagged)
    requires InOrder(st, m.sender) && m in Entered(st)
    ensures m in st.issued
  {
    hide Of;
    OfIsPart(m.sender, st.issued);
    OfIsPart(m.sender, st.drained);
    OfIsPart(m.sender, st.queue);
    assert m in Of(m.sender, st.drained) + Of(m.sender, st.queue);
  }

  /** The messages that have entered carry the numbers 0, 1, 2 and so on if and only if they are the first
      ones issued. */
  lemma NumbersAreOrder(st: State, cap: Caps)
    requires Inv(st, cap) && |st.issued| <= U64
    ensures Entered(st) <= st.issued <==> forall i | 0 <= i < |Entered(st)| :: Entered(st)[i].message.seqNum == Wrap(i)
  {
    hide InOrder, Wrap;
    if forall i | 0 <= i < |Entered(st)| :: Entered(st)[i].message.seqNum == Wrap(i) {
      forall i | 0 <= i < |Entered(st)|
        ensures Entered(st)[i] == st.issued[i]
      {
        assert InOrder(st, Entered(st)[i].sender);
        EnteredWasIssued(st, Entered(st)[i]);
        var j :| 0 <= j < |st.issued| && st.issued[j] == Entered(st)[i];
        SameNumber(i, j);
      }
    }
  }

  lemma SameNumber(i: nat, j: nat)
    requires i < U64 && j < U64 && Wrap(i) == Wrap(j)
    ensures i == j
  {
    hide Wrap;
    if i < j {
      WrapInjective(i, j);
    } else if j < i {
      WrapInjective(j, i);
    }
  }

  /** In every interleaving the messages have entered the queue in the order in which their numbers were taken,
      none left out in between, if and only if each entered in its turn; and then, and short of two to the power
      of 64 sends only then, their numbers are 0, 1, 2 and so on. */
  lemma LeaveInOrder(run: seq<Action>, cap: Caps)
    requires Possible(START, run, cap)
    ensures var st := Exec(START, run, cap);
      && (st.drained + st.queue <= st.issued <==> InTurn(START, run, cap))
      && (|st.issued| <= U64 ==> (
            (forall i | 0 <= i < |st.drained + st.queue| :: (st.drained + st.queue)[i].message.seqNum == Wrap(i))
            <==> InTurn(START, run, cap)))
  {
    hide Inv, Enabled, Apply, Exec, InTurn, Wrap;
    StartInv(cap);
    RunKeepsInv(START, run, cap);
    RunInTurn(START, run, cap);
    if |Exec(START, run, cap).issued| <= U64 {
      NumbersAreOrder(Exec(START, run, cap), cap);
    }
  }

  /** No send begins before the one before it has entered the queue. */
  predicate OneByOne(st: State, run: seq<Action>, cap: Caps)
    requires Possible(st, run, cap)
    decreases |run|
  {
    run == [] || (
      && (run[0].TakeNumber? ==> st.held == map[])
      && OneByOne(Apply(st, run[0], cap), run[1..], cap))
  }

  /** The message that is held, if there is one, is the last one issued. */
  ghost predicate HoldsLast(st: State) {
    forall sender | sender in st.held ::
      st.held.Keys == {sender} && st.issued != [] && st.issued[|st.issued| - 1] == Tagged(sender, st.held[sender])
  }

  lemma StepHoldsLast(st: State, a: Action, cap: Caps)
    requires Inv(st, cap) && Enabled(st, a, cap) && HoldsLast(st) && (a.TakeNumber? ==> st.held == map[])
    ensures HoldsLast(Apply(st, a, cap))
    ensures a.EnterQueue? ==> ItsTurn(st, a.sender)
  {
    hide EncWithHeader, HasType, InOrder;
    if a.EnterQueue? {
      assert |st.held.Keys| == 1;
    }
  }

  lemma {:induction false} OneByOneInTurn(st: State, run: seq<Action>, cap: Caps)
    requires Inv(st, cap) && HoldsLast(st) && Possible(st, run, cap) && OneByOne(st, run, cap)
    ensures InTurn(st, run, cap)
    decreases |run|
  {
    hide Inv, Enabled, Apply, HoldsLast, ItsTurn;
    if run != [] {
      StepKeepsInv(st, run[0], cap);
      StepHoldsLast(st, run[0], cap);
      OneByOneInTurn(Apply(st, run[0], cap), run[1..], cap);
    }
  }

  /** If at most one send is in progress at any time, messages leave in the order of their numbers. */
  lemma OneSendAtATime(run: seq<Action>, cap: Caps)
    requires Possible(START, run, cap) && OneByOne(START, run, cap)
    ensures var st := Exec(START, run, cap); st.drained + st.queue <= st.issued
  {
    hide Inv, Possible, Exec, InTurn, OneByOne;
    StartInv(cap);
    OneByOneInTurn(START, run, cap);
    LeaveInOrder(run, cap);
  }

  // ── The machine is what the methods of a publisher do ─────────────────

  function Untagged(ms: seq<Tagged>): (r: seq<Message>)
    ensures |r| == |ms|
  {
    seq(|ms|, i requires 0 <= i < |ms| => ms[i].message)
  }

  /** The publisher and the senders in the middle of a send are in state `st`. */
  ghost predicate Mirrors(p: Publisher, held: map<nat, Message>, drained: seq<Message>, st: State)
    reads p
  {
    && p.Valid() && p.retry == None && p.queue == Untagged(st.queue) && p.counter == st.counter
    && held == st.held && (forall sender | sender in held :: |held[sender].data| <= p.cdrCap)
    && drained == ClipAll(Untagged(st.drained))
  }

  /** One action of a run, carried out by the methods of the publisher. */
  method Act(p: Publisher, a: Action, held: map<nat, Message>, drained: seq<Message>, scratch: array<byte>,
          ghost st: State)
    returns (held': map<nat, Message>, drained': seq<Message>)
    requires Mirrors(p, held, drained, st) && Enabled(st, a, Caps(p.queueCap, p.cdrCap))
    requires scratch.Length == CDR_DRAIN_BUF
    modifies p, scratch
    ensures Mirrors(p, held', drained', Apply(st, a, Caps(p.queueCap, p.cdrCap)))
  {
    hide EncWithHeader, HasType, ClipAll;
    held', drained' := held, drained;
    match a {
      case TakeNumber(sender, v, t, timestamp) =>
        var m := p.Prepare(v, t, timestamp);
        if m.Ok? {
          held' := held[sender := m.value];
        }
      case EnterQueue(sender) =>
        UntaggedSnoc(st.queue, Tagged(sender, held[sender]));
        var _ := p.Enqueue(held[sender]);
        held' := held - {sender};
      case Drain =>
        assert p.Pending() == Untagged(st.queue);
        assert Untagged(st.queue)[1..] == Untagged(st.queue[1..]);
        ClippedSnoc(st.drained, st.queue[0]);
        var d := p.TryDrainInto(scratch);
        if d.Some? {
          drained' := drained + [Message(scratch[..d.value.0], d.value.1, d.value.2)];
        }
    }
  }

  lemma UntaggedSnoc(ms: seq<Tagged>, m: Tagged)
    ensures Untagged(ms + [m]) == Untagged(ms) + [m.message]
  {
  }

  lemma ClippedSnoc(ms: seq<Tagged>, m: Tagged)
    ensures ClipAll(Untagged(ms + [m])) == ClipAll(Untagged(ms)) + [Clip(m.message)]
  {
  }

  /** Every run of the machine, carried out by the methods of a new publisher, leaves it in the state
      that the machine predicts; so what holds in every interleaving holds of the publisher. */
  method Interleave(p: Publisher, run: seq<Action>) returns (held: map<nat, Message>, drained: seq<Message>)
    requires p.Valid() && p.Pending() == [] && p.counter == 0 && Possible(START, run, Caps(p.queueCap, p.cdrCap))
    modifies p
    ensures Mirrors(p, held, drained, Exec(START, run, Caps(p.queueCap, p.cdrCap)))
  {
    hide Mirrors, Enabled, Apply, Publisher.Valid;
    ghost var cap := Caps(p.queueCap, p.cdrCap);
    ghost var st := START;
    var scratch := new byte[CDR_DRAIN_BUF];
    held, drained := map[], [];
    MirrorStart(p);
    for i := 0 to |run|
      invariant Mirrors(p, held, drained, st)
      invariant Possible(st, run[i..], cap) && Exec(st, run[i..], cap) == Exec(START, run, cap)
    {
      assert run[i..][0] == run[i] && run[i..][1..] == run[i + 1..];
      held, drained := Act(p, run[i], held, drained, scratch, st);
      st := Apply(st, run[i], cap);
    }
  }

  lemma MirrorStart(p: Publisher)
    requires p.Valid() && p.Pending() == [] && p.counter == 0
    ensures Mirrors(p, map[], [], START)
  {
    assert p.retry == None && p.queue == [];
  }
}
