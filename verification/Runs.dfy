/** Runs of drains over several connections: what the network receives and what the
    local subscriptions get, when every failed write is followed by another drain. */
module Runs {
  import opened Common
  import opened Names
  import opened Transmit
  import opened Failures
  import opened Queues
  import opened Drains
  import opened Refinement
  import opened Routing
  import opened Framing
  import opened Nodes

  /** The drain of one connection of a run. */
  function DrainOn(locality: Locality, s: Sender, queued: seq<Message>, c: Connection): Drained
    requires s.Valid() && AllFit(queued)
  {
    DrainSpec(locality, Some(s.key), s.gid, c.sn, queued, c.budget)
  }

  /** The two ways in which a drain can end: everything was taken and written, or a write failed, and then the
      last message taken is the first one kept. */
  lemma DrainEnds(locality: Locality, s: Sender, queued: seq<Message>, c: Connection)
    requires s.Valid() && AllFit(queued) && locality != SessionLocal
    ensures var d, groups := DrainOn(locality, s, queued, c), Packing(s, c.sn, queued);
      && d.kept == Kept(groups, c.budget) && AllFit(d.kept) && |Acked(groups, c.budget)| <= |groups|
      && d.frames == Frames(s, c.sn, groups)[..|Acked(groups, c.budget)|]
      && (d.result.Pass? ==> d.taken == |queued| && d.kept == [])
      && (d.result.Fail? ==> 0 < d.taken <= |queued| && d.kept == queued[d.taken - 1..])
  {
    hide Packing, Frames, Flatten, Kept, Lost, AllFit;
    assert Sender(s.key, s.gid) == s;
    var groups := Packing(s, c.sn, queued);
    KeptFits(s, c.sn, queued, c.budget);
    if |groups| <= c.budget {
      Pieces(groups, c.budget);
      DrainPasses(locality, s.key, s.gid, c.sn, queued, c.budget);
    } else {
      DrainFails(locality, s.key, s.gid, c.sn, queued, c.budget);
      KeptIsRest(groups, c.budget);
    }
  }

  /** What is queued when the next connection is up. */
  function NextQueue(locality: Locality, s: Sender, queued: seq<Message>, c: Connection): (next: seq<Message>)
    requires s.Valid() && AllFit(queued) && AllFit(c.arrivals) && locality != SessionLocal
    ensures AllFit(next)
  {
    DrainEnds(locality, s, queued, c);
    DrainOn(locality, s, queued, c).kept + c.arrivals
  }

  // ── The network side ──────────────────────────────────────────────────

  /** All data frames of a run, connection by connection. */
  function RunFrames(locality: Locality, s: Sender, queued: seq<Message>, cs: seq<Connection>): seq<seq<byte>>
    requires s.Valid() && AllFit(queued) && AllArrivalsFit(cs) && locality != SessionLocal
    decreases |cs|
  {
    if cs == [] then []
    else
      DrainOn(locality, s, queued, cs[0]).frames
      + RunFrames(locality, s, NextQueue(locality, s, queued, cs[0]), cs[1..])
  }

  /** What is queued at the end of a run. */
  function RunQueue(locality: Locality, s: Sender, queued: seq<Message>, cs: seq<Connection>): seq<Message>
    requires s.Valid() && AllFit(queued) && AllArrivalsFit(cs) && locality != SessionLocal
    decreases |cs|
  {
    if cs == [] then queued else RunQueue(locality, s, NextQueue(locality, s, queued, cs[0]), cs[1..])
  }

  /** A receiver that reads every frame written in a run of drains, failures and reconnections gets exactly
      the acknowledged messages, in order; and the drains leave queued exactly what the run leaves. */
  lemma {:induction false} RunContents(locality: Locality, s: Sender, queued: seq<Message>, cs: seq<Connection>)
    requires s.Valid() && AllFit(queued) && AllArrivalsFit(cs) && locality != SessionLocal
    ensures Contents(RunFrames(locality, s, queued, cs)) == Some(SeenAll(s, Run(s, queued, cs).acked))
    ensures RunQueue(locality, s, queued, cs) == Run(s, queued, cs).queued
    decreases |cs|
  {
    hide Contents, SeenAll, AllFit, Packing, Frames, Kept, Lost, Acked, Flatten, DrainOn, Run, AllArrivalsFit;
    if cs == [] {
      RunNone(s, queued);
      NoContents(s);
    } else {
      var c, groups := cs[0], Packing(s, cs[0].sn, queued);
      ArrivalsFit(cs);
      RunStep(s, queued, cs);
      DrainEnds(locality, s, queued, c);
      AckedContents(s, c.sn, queued, c.budget);
      var next := NextQueue(locality, s, queued, c);
      RunContents(locality, s, next, cs[1..]);
      ContentsConcat(DrainOn(locality, s, queued, c).frames, RunFrames(locality, s, next, cs[1..]));
      SeenConcat(s, Flatten(Acked(groups, c.budget)), Run(s, next, cs[1..]).acked);
    }
  }

  lemma NoContents(s: Sender)
    ensures Contents([]) == Some(SeenAll(s, []))
  {
  }

  // ── The local side ────────────────────────────────────────────────────

  /** Everything that the drains of a run dispatch to the local subscriptions. */
  function LocalRun(locality: Locality, s: Sender, queued: seq<Message>, cs: seq<Connection>): seq<seq<byte>>
    requires s.Valid() && AllFit(queued) && AllArrivalsFit(cs) && locality != SessionLocal
    decreases |cs|
  {
    if cs == [] then []
    else
      Dispatched(locality, queued, DrainOn(locality, s, queued, cs[0]).taken)
      + LocalRun(locality, s, NextQueue(locality, s, queued, cs[0]), cs[1..])
  }

  /** How many messages a drain took, and whether a write failed. */
  datatype Mark = Mark(taken: nat, failed: bool) {
    /** How far the drain got for good. */
    function Done(): int { if failed then taken - 1 else taken }
  }

  function Marks(s: Sender, queued: seq<Message>, cs: seq<Connection>): seq<Mark>
    requires s.Valid() && AllFit(queued) && AllArrivalsFit(cs)
    decreases |cs|
  {
    if cs == [] then []
    else
      var d := DrainOn(Any, s, queued, cs[0]);
      [Mark(d.taken, d.result.Fail?)] + Marks(s, NextQueue(Any, s, queued, cs[0]), cs[1..])
  }

  /** Drains that share a stream of `n` messages: each starts where the one before it got for good, and one that
      comes after a failure takes something. */
  predicate Share(marks: seq<Mark>, n: nat) {
    marks == [] || (
      && marks[0].taken <= n && (marks[0].failed ==> marks[0].taken > 0)
      && (marks[0].failed && |marks| > 1 ==> marks[1].taken > 0)
      && Share(marks[1..], n - marks[0].Done()))
  }

  /** The stream, with the last message before each failure once more. */
  function Repeating(ms: seq<Message>, marks: seq<Mark>): seq<seq<byte>>
    requires Share(marks, |ms|)
    decreases |marks|
  {
    if marks == [] then []
    else Payloads(ms[..marks[0].taken]) + Repeating(ms[marks[0].Done()..], marks[1..])
  }

  /** Two drains, the first of which fails: the last message that the first one dispatched is the only one
      that is dispatched again, and none is left out. */
  lemma FailedThenPassed(s: Sender, queued: seq<Message>, c: Connection, c': Connection)
    requires s.Valid() && AllFit(queued) && AllFit(c.arrivals)
    ensures var d, next := DrainOn(Any, s, queued, c), NextQueue(Any, s, queued, c);
      var d' := DrainOn(Any, s, next, c');
      d.result.Fail? ==> (
        && 0 < d.taken <= |queued|
        && next == queued[d.taken - 1..] + c.arrivals
        && (d'.result.Pass? ==>
              Dispatched(Any, queued, d.taken) + Dispatched(Any, next, d'.taken)
              == Payloads(queued[..d.taken]) + Payloads(queued[d.taken - 1..] + c.arrivals)))
  {
    hide AllFit, DrainOn;
    DrainEnds(Any, s, queued, c);
    var next := NextQueue(Any, s, queued, c);
    DrainEnds(Any, s, next, c');
    assert next[..|next|] == next;
  }

  lemma LocalRunStep(s: Sender, queued: seq<Message>, cs: seq<Connection>)
    requires s.Valid() && AllFit(queued) && AllArrivalsFit(cs) && cs != []
    ensures AllFit(cs[0].arrivals) && AllArrivalsFit(cs[1..])
    ensures var d, next := DrainOn(Any, s, queued, cs[0]), NextQueue(Any, s, queued, cs[0]);
      && LocalRun(Any, s, queued, cs) == Dispatched(Any, queued, d.taken) + LocalRun(Any, s, next, cs[1..])
      && Marks(s, queued, cs) == [Mark(d.taken, d.result.Fail?)] + Marks(s, next, cs[1..])
  {
    hide AllFit, DrainOn, NextQueue, Dispatched;
    ArrivalsFit(cs);
  }

  lemma OneDrain(s: Sender, queued: seq<Message>, cs: seq<Connection>)
    requires s.Valid() && AllFit(queued) && AllArrivalsFit(cs) && cs != [] && AllFit(cs[0].arrivals)
    ensures var d, next := DrainOn(Any, s, queued, cs[0]), NextQueue(Any, s, queued, cs[0]);
      var m, all := Mark(d.taken, d.result.Fail?), queued + Arrivals(cs);
      && m.taken <= |queued| <= |all| && (m.failed ==> m.taken > 0 && next != []) && (queued != [] ==> m.taken > 0)
      && Dispatched(Any, queued, d.taken) == Payloads(all[..m.taken])
      && all[m.Done()..] == next + Arrivals(cs[1..])
  {
    hide AllFit, DrainOn, AllArrivalsFit, Payloads, Packing, Frames, Kept, Acked, Dispatched, NextQueue, Arrivals;
    var d, rest := DrainOn(Any, s, queued, cs[0]), Arrivals(cs);
    DrainEnds(Any, s, queued, cs[0]);
    DispatchedIs(queued, d.taken);
    NextIs(Any, s, queued, cs[0]);
    ArrivalsStep(cs);
    assert (queued + rest)[..d.taken] == queued[..d.taken];
    CutBehind(queued, cs[0].arrivals, Arrivals(cs[1..]), Mark(d.taken, d.result.Fail?).Done());
  }

  lemma DispatchedIs(ms: seq<Message>, n: nat)
    requires n <= |ms|
    ensures Dispatched(Any, ms, n) == Payloads(ms[..n])
  {
    hide Payloads;
  }

  lemma NextIs(locality: Locality, s: Sender, queued: seq<Message>, c: Connection)
    requires s.Valid() && AllFit(queued) && AllFit(c.arrivals) && locality != SessionLocal
    ensures NextQueue(locality, s, queued, c) == DrainOn(locality, s, queued, c).kept + c.arrivals
  {
    hide DrainOn, AllFit;
  }

  lemma CutBehind(a: seq<Message>, b: seq<Message>, c: seq<Message>, k: nat)
    requires k <= |a|
    ensures (a + (b + c))[k..] == a[k..] + b + c && a[|a|..] == [] && [] + b == b
  {
  }

  /** Over every run, the local subscriptions get the stream of all messages in order, with one step back of one
      message for each failed write. */
  lemma {:induction false} LocalRunRepeats(s: Sender, queued: seq<Message>, cs: seq<Connection>)
    requires s.Valid() && AllFit(queued) && AllArrivalsFit(cs)
    ensures |Marks(s, queued, cs)| == |cs| && Share(Marks(s, queued, cs), |queued + Arrivals(cs)|)
    ensures LocalRun(Any, s, queued, cs) == Repeating(queued + Arrivals(cs), Marks(s, queued, cs))
    decreases |cs|
  {
    hide AllFit, DrainOn, NextQueue, LocalRun, Marks, Arrivals, Dispatched, AllArrivalsFit, Payloads;
    if cs == [] {
      NoMarks(s, queued);
    } else {
      LocalRunStep(s, queued, cs);
      OneDrain(s, queued, cs);
      var next := NextQueue(Any, s, queued, cs[0]);
      LocalRunRepeats(s, next, cs[1..]);
      if |cs| > 1 {
        LocalRunStep(s, next, cs[1..]);
        OneDrain(s, next, cs[1..]);
      }
    }
  }

  lemma NoMarks(s: Sender, queued: seq<Message>)
    requires s.Valid() && AllFit(queued)
    ensures AllArrivalsFit([]) && Marks(s, queued, []) == [] && LocalRun(Any, s, queued, []) == []
  {
  }

  lemma NoArrivals(cs: seq<Connection>)
    ensures cs == [] ==> Arrivals(cs) == []
  {
  }

  /** How many messages of the stream were dispatched at all. */
  function Reach(marks: seq<Mark>): int {
    if marks == [] then 0
    else if |marks| == 1 then marks[0].taken
    else marks[0].Done() + Reach(marks[1..])
  }

  /** The payloads that were dispatched again: one for each failure that another drain followed. */
  function Again(ms: seq<Message>, marks: seq<Mark>): seq<seq<byte>>
    requires Share(marks, |ms|)
    decreases |marks|
  {
    if |marks| <= 1 then []
    else (if marks[0].failed then [ms[marks[0].taken - 1].data] else []) + Again(ms[marks[0].Done()..], marks[1..])
  }

  function FailedOnes(marks: seq<Mark>): nat {
    if marks == [] then 0 else (if marks[0].failed then 1 else 0) + FailedOnes(marks[1..])
  }

  /** The stream with repetitions is the part of the stream that was reached, every message once, and one more
      copy for each failure but one of the last drain, which nothing has followed yet. */
  lemma {:induction false} RepeatingCounts(ms: seq<Message>, marks: seq<Mark>)
    requires Share(marks, |ms|) && marks != []
    ensures marks[0].taken <= Reach(marks) <= |ms|
    ensures multiset(Repeating(ms, marks)) == multiset(Payloads(ms[..Reach(marks)])) + multiset(Again(ms, marks))
    ensures |Again(ms, marks)| == FailedOnes(marks[..|marks| - 1])
    decreases |marks|
  {
    hide Payloads, Repeating, Again, Reach, Share, FailedOnes;
    var m := marks[0];
    RepeatingStep(ms, marks);
    if |marks| > 1 {
      RepeatingCounts(ms[m.Done()..], marks[1..]);
      RepeatingSum(ms, m, marks[1..]);
    }
  }

  lemma RepeatingSum(ms: seq<Message>, m: Mark, marks: seq<Mark>)
    requires 0 <= m.Done() <= m.taken <= |ms| && m.Done() + Reach(marks) <= |ms|
    requires var rest := ms[m.Done()..];
      && Share(marks, |rest|) && 0 <= Reach(marks) <= |rest|
      && multiset(Repeating(rest, marks)) == multiset(Payloads(rest[..Reach(marks)])) + multiset(Again(rest, marks))
    ensures var rest := ms[m.Done()..];
      multiset(Payloads(ms[..m.taken]) + Repeating(rest, marks))
      == multiset(Payloads(ms[..m.Done() + Reach(marks)]))
         + multiset((if m.failed then [ms[m.taken - 1].data] else []) + Again(rest, marks))
  {
    hide Payloads, Repeating, Again, Reach, Share;
    var rest := ms[m.Done()..];
    PayloadsSplit(ms, m.Done(), m.taken);
    PayloadsSplit(ms, m.Done(), m.Done() + Reach(marks));
    OneMore(ms, m.taken);
    Sums(Payloads(ms[..m.Done()]), if m.failed then [ms[m.taken - 1].data] else [], Repeating(rest, marks),
         Payloads(rest[..Reach(marks)]), Again(rest, marks));
  }

  lemma RepeatingStep(ms: seq<Message>, marks: seq<Mark>)
    requires Share(marks, |ms|) && marks != []
    ensures 0 <= marks[0].Done() <= marks[0].taken <= |ms| && Share(marks[1..], |ms[marks[0].Done()..]|)
    ensures |marks| == 1 ==> FailedOnes(marks[..|marks| - 1]) == 0
    ensures |marks| > 1 ==> FailedOnes(marks[..|marks| - 1])
                            == (if marks[0].failed then 1 else 0) + FailedOnes(marks[1..][..|marks[1..]| - 1])
    ensures |marks| > 1 && marks[0].failed ==> marks[1].taken > 0
    ensures var m, rest := marks[0], ms[marks[0].Done()..];
      && Repeating(ms, marks) == Payloads(ms[..m.taken]) + Repeating(rest, marks[1..])
      && (|marks| == 1 ==>
        Repeating(ms, marks) == Payloads(ms[..m.taken]) && Reach(marks) == m.taken && Again(ms, marks) == [])
      && (|marks| > 1 ==> (
            && Reach(marks) == m.Done() + Reach(marks[1..])
            && Again(ms, marks) == (if m.failed then [ms[m.taken - 1].data] else []) + Again(rest, marks[1..])))
  {
    hide Payloads;
    if |marks| > 1 {
      assert marks[..|marks| - 1][1..] == marks[1..][..|marks[1..]| - 1];
    }
  }

  lemma PayloadsSplit(ms: seq<Message>, a: int, b: int)
    requires 0 <= a <= b <= |ms|
    ensures Payloads(ms[..b]) == Payloads(ms[..a]) + Payloads(ms[a..][..b - a])
  {
  }

  lemma OneMore(ms: seq<Message>, n: nat)
    requires n <= |ms|
    ensures n > 0 ==> Payloads(ms[n - 1..][..1]) == [ms[n - 1].data]
    ensures Payloads(ms[n..][..0]) == []
  {
  }

  lemma Sums(done: seq<seq<byte>>, again: seq<seq<byte>>, rest: seq<seq<byte>>, once: seq<seq<byte>>,
          twice: seq<seq<byte>>)
    requires multiset(rest) == multiset(once) + multiset(twice)
    ensures multiset(done + again + rest) == multiset(done + once) + multiset(again + twice)
  {
    MultisetSum(done + again, rest);
    MultisetSum(done, again);
    MultisetSum(done, once);
    MultisetSum(again, twice);
  }

  lemma MultisetSum(a: seq<seq<byte>>, b: seq<seq<byte>>)
    ensures multiset(a + b) == multiset(a) + multiset(b)
  {
  }

  lemma ReachStep(m: Mark, rest: seq<Mark>)
    ensures Reach([m] + rest) == if rest == [] then m.taken else m.Done() + Reach(rest)
  {
    assert ([m] + rest)[1..] == rest;
  }

  /** No message is left out: those that were dispatched, and those that are still queued, are the whole stream,
      and only the last message of a last drain that failed is among both. */
  lemma {:induction false} NoneLeftOut(s: Sender, queued: seq<Message>, cs: seq<Connection>)
    requires s.Valid() && AllFit(queued) && AllArrivalsFit(cs) && cs != []
    ensures var marks, all := Marks(s, queued, cs), queued + Arrivals(cs);
      && |marks| == |cs|
      && Reach(marks) + |RunQueue(Any, s, queued, cs)| == |all| + if marks[|marks| - 1].failed then 1 else 0
    decreases |cs|
  {
    hide AllFit, DrainOn, NextQueue, Arrivals, Dispatched, AllArrivalsFit, Payloads, LocalRun, Marks, Reach;
    LocalRunStep(s, queued, cs);
    OneDrain(s, queued, cs);
    var d, next := DrainOn(Any, s, queued, cs[0]), NextQueue(Any, s, queued, cs[0]);
    ReachStep(Mark(d.taken, d.result.Fail?), Marks(s, next, cs[1..]));
    assert RunQueue(Any, s, queued, cs) == RunQueue(Any, s, next, cs[1..]);
    if |cs| == 1 {
      NoMarks(s, next);
      NoArrivals(cs[1..]);
    } else {
      NoneLeftOut(s, next, cs[1..]);
    }
  }

  lemma ArrivalsFit(cs: seq<Connection>)
    requires cs != [] && AllArrivalsFit(cs)
    ensures AllFit(cs[0].arrivals) && AllArrivalsFit(cs[1..])
  {
    assert cs[0] in cs;
  }

  // ── The run as it happens ─────────────────────────────────────────────

  /** A drain of a table with one publisher. */
  lemma OnlyPublisher(p: Publisher, entries: seq<Entry>, gid: seq<byte>, net: Net)
    requires |gid| <= 16 && Covers([p], entries, net) && p.locality != SessionLocal && KeyOf(p.topic).Some?
    ensures p in net.pending && AllFit(net.pending[p])
    ensures var run := DrainRun(Batched, [p], entries, gid, net);
      var d := DrainSpec(p.locality, KeyOf(p.topic), gid, net.sn, net.pending[p], net.budget);
      && p in run.net.pending && run.net.pending[p] == d.kept && run.frames == d.frames
  {
    hide DrainSpec, KeyOf, AllFit, DispatchAll, Dispatched;
    assert p in [p];
    assert [p][1..] == [];
    AfterCovers(Batched, [p], entries, gid, net);
  }

  predicate Sendable(p: Publisher, later: seq<Message>) {
    forall m | m in later :: |m.data| <= p.cdrCap
  }

  /** Messages that the application sends; those that find no room are left out. */
  method SendAll(p: Publisher, later: seq<Message>) returns (n: nat)
    requires p.Valid() && Sendable(p, later)
    modifies p
    ensures p.Valid() && n <= |later| && p.Pending() == old(p.Pending()) + later[..n]
  {
    n := 0;
    while n < |later|
      invariant p.Valid() && n <= |later| && p.Pending() == old(p.Pending()) + later[..n]
    {
      hide Publisher.Valid;
      var done := p.Enqueue(later[n]);
      if !done {
        return;
      }
      assert later[..n + 1] == later[..n] + [later[n]];
      n := n + 1;
    }
  }

  lemma ClipConcat(a: seq<Message>, b: seq<Message>)
    ensures ClipAll(a + b) == ClipAll(a) + ClipAll(b)
  {
  }

  /** What a node with this publisher alone sends as. */
  ghost function SenderOf(p: Publisher, gid: seq<byte>): (s: Sender)
    requires KeyOf(p.topic).Some? && |gid| <= 16
    ensures s.Valid()
  {
    Sender(KeyOf(p.topic).value, gid)
  }

  /** The drain of a node with one publisher is the drain of a run. */
  method DrainAlone(node: Node, p: Publisher, ghost c: Connection)
    requires node.Valid() && node.mode == Batched && node.publishers == [p] && p.locality != SessionLocal
    requires KeyOf(p.topic).Some? && c.sn == node.sn && c.budget == node.link.budget
    modifies node`sn, node.link, p, Subs(node.subscribers)
    ensures node.Valid() && p.Valid() && AllFit(old(ClipAll(p.Pending())))
    ensures var d := DrainOn(p.locality, SenderOf(p, node.gid), old(ClipAll(p.Pending())), c);
      ClipAll(p.Pending()) == d.kept && node.link.sent == old(node.link.sent) + d.frames
  {
    hide DrainSpec, KeyOf, AllFit, ClipAll, DrainRun, Covers, Link.Valid, Publisher.Valid, Publisher.Pending;
    node.NowCovers();
    node.NowReads(0);
    OnlyPublisher(p, node.subscribers, node.gid, node.Now());
    var _ := node.DrainPublishers();
    node.NowReads(0);
  }

  /** One connection: a new node drains the publisher, and then the application goes on sending. */
  method Connect(p: Publisher, link: Link, gid: seq<byte>, later: seq<Message>) returns (ghost c: Connection)
    requires p.Valid() && p.topic.Valid() && p.locality != SessionLocal && KeyOf(p.topic).Some?
    requires link.Valid() && 1 <= |gid| <= 16 && Sendable(p, later)
    modifies link, p
    ensures p.Valid() && link.Valid() && AllFit(c.arrivals) && FoundRoom(c.arrivals, later)
    ensures c.sn == 0 && c.budget == old(link.budget) && AllFit(old(ClipAll(p.Pending())))
    ensures var s, queued := SenderOf(p, gid), old(ClipAll(p.Pending()));
      && ClipAll(p.Pending()) == NextQueue(p.locality, s, queued, c)
      && link.sent == old(link.sent) + DrainOn(p.locality, s, queued, c).frames
  {
    hide KeyOf, AllFit, ClipAll, Link.Valid, Publisher.Pending, DrainOn, NextQueue;
    var node := new Node(Batched, link, gid, [], [], 0);
    node.publishers := [p];
    c := Connection(0, link.budget, []);
    DrainAlone(node, p, c);
    ghost var kept := p.Pending();
    var n := SendAll(p, later);
    ClipConcat(kept, later[..n]);
    ClipFits(later, n);
    SameDrain(p.locality, SenderOf(p, gid), old(ClipAll(p.Pending())), c, ClipAll(later[..n]));
    c := c.(arrivals := ClipAll(later[..n]));
    NextIs(p.locality, SenderOf(p, gid), old(ClipAll(p.Pending())), c);
  }

  lemma SameDrain(locality: Locality, s: Sender, queued: seq<Message>, c: Connection, arrivals: seq<Message>)
    requires s.Valid() && AllFit(queued)
    ensures DrainOn(locality, s, queued, c) == DrainOn(locality, s, queued, c.(arrivals := arrivals))
  {
    hide DrainSpec;
  }

  /** The first ones of these messages found room. */
  predicate FoundRoom(arrivals: seq<Message>, later: seq<Message>) {
    arrivals <= ClipAll(later)
  }

  lemma ClipFits(ms: seq<Message>, n: nat)
    requires n <= |ms|
    ensures AllFit(ClipAll(ms[..n])) && ClipAll(ms[..n]) <= ClipAll(ms)
  {
  }

  /** One more connection. */
  lemma {:induction false} RunSnoc(locality: Locality, s: Sender, queued: seq<Message>, cs: seq<Connection>,
      c: Connection)
    requires s.Valid() && AllFit(queued) && AllArrivalsFit(cs) && AllFit(c.arrivals) && locality != SessionLocal
    ensures AllArrivalsFit(cs + [c])
    ensures var last := RunQueue(locality, s, queued, cs);
      && AllFit(last)
      && RunQueue(locality, s, queued, cs + [c]) == NextQueue(locality, s, last, c)
      && RunFrames(locality, s, queued, cs + [c])
        == RunFrames(locality, s, queued, cs) + DrainOn(locality, s, last, c).frames
    decreases |cs|
  {
    hide AllFit, NextQueue, DrainOn;
    if cs == [] {
      assert [] + [c] == [c] && [c][1..] == [];
      assert RunFrames(locality, s, queued, [c]) == DrainOn(locality, s, queued, c).frames + [];
    } else {
      ArrivalsFit(cs);
      RunSnoc(locality, s, NextQueue(locality, s, queued, cs[0]), cs[1..], c);
      assert (cs + [c])[0] == cs[0] && (cs + [c])[1..] == cs[1..] + [c];
    }
  }

  /** All that was written to these links. */
  ghost function Written(links: seq<Link>): seq<seq<byte>>
    reads links
  {
    if links == [] then [] else Written(links[..|links| - 1]) + links[|links| - 1].sent
  }

  /** One more connection of a run. */
  method ConnectNext(p: Publisher, link: Link, gid: seq<byte>, later: seq<Message>, ghost queued: seq<Message>,
          ghost cs: seq<Connection>)
    returns (ghost c: Connection)
    requires p.Valid() && p.topic.Valid() && p.locality != SessionLocal && KeyOf(p.topic).Some?
    requires link.Valid() && link.sent == [] && 1 <= |gid| <= 16 && Sendable(p, later)
    requires AllFit(queued) && AllArrivalsFit(cs)
    requires ClipAll(p.Pending()) == RunQueue(p.locality, SenderOf(p, gid), queued, cs)
    modifies link, p
    ensures p.Valid() && AllArrivalsFit(cs + [c])
    ensures FoundRoom(c.arrivals, later) && c.budget == old(link.budget)
    ensures ClipAll(p.Pending()) == RunQueue(p.locality, SenderOf(p, gid), queued, cs + [c])
    ensures RunFrames(p.locality, SenderOf(p, gid), queued, cs + [c])
         == RunFrames(p.locality, SenderOf(p, gid), queued, cs) + link.sent
  {
    hide KeyOf, AllFit, ClipAll, Link.Valid, Publisher.Pending, Publisher.Valid, DrainOn, NextQueue, Sendable;
    hide RunQueue, RunFrames, AllArrivalsFit, SenderOf, FoundRoom;
    c := Connect(p, link, gid, later);
    RunSnoc(p.locality, SenderOf(p, gid), queued, cs, c);
  }

  function Joined(parts: seq<seq<seq<byte>>>): seq<seq<byte>> {
    if parts == [] then [] else Joined(parts[..|parts| - 1]) + parts[|parts| - 1]
  }

  lemma {:induction false} WrittenIs(links: seq<Link>, parts: seq<seq<seq<byte>>>)
    requires |parts| == |links| && forall i | 0 <= i < |links| :: links[i].sent == parts[i]
    ensures Written(links) == Joined(parts)
    decreases |links|
  {
    if links != [] {
      WrittenIs(links[..|links| - 1], parts[..|parts| - 1]);
    }
  }

  lemma JoinedSnoc(parts: seq<seq<seq<byte>>>, part: seq<seq<byte>>)
    ensures Joined(parts + [part]) == Joined(parts) + part && Joined([]) == []
  {
    assert (parts + [part])[..|parts|] == parts;
  }

  /** A publisher that lives through many connections, each of which may break at any frame. A receiver of all
      that was written gets exactly the acknowledged messages of the run, and what is queued in the end is
      what the run leaves queued; `RunConserves` says how these relate to what was sent. */
  method Reconnect(p: Publisher, links: seq<Link>, gid: seq<byte>, laters: seq<seq<Message>>)
    returns (ghost cs: seq<Connection>)
    requires p.Valid() && p.topic.Valid() && p.locality != SessionLocal && KeyOf(p.topic).Some? && 1 <= |gid| <= 16
    requires |laters| == |links| && forall i, j | 0 <= i < j < |links| :: links[i] != links[j]
    requires forall i | 0 <= i < |links| :: links[i].Valid() && links[i].sent == []
    requires forall i | 0 <= i < |links| :: Sendable(p, laters[i])
    modifies links, p
    ensures p.Valid() && |cs| == |links| && AllArrivalsFit(cs) && AllFit(old(ClipAll(p.Pending())))
    ensures forall i | 0 <= i < |links| :: FoundRoom(cs[i].arrivals, laters[i]) && cs[i].budget == old(links[i].budget)
    ensures var run := Run(SenderOf(p, gid), old(ClipAll(p.Pending())), cs);
      ClipAll(p.Pending()) == run.queued && Contents(Written(links)) == Some(SeenAll(SenderOf(p, gid), run.acked))
  {
    hide KeyOf, AllFit, ClipAll, Link.Valid, Publisher.Pending, Publisher.Valid, DrainOn, Contents, NextQueue;
    hide Sendable, SenderOf, FoundRoom, RunQueue, RunFrames, Run, SeenAll, AllArrivalsFit, Joined, Written;
    ghost var s, queued := SenderOf(p, gid), ClipAll(p.Pending());
    ghost var parts: seq<seq<seq<byte>>> := [];
    cs := [];
    NoRun(p, s);
    JoinedSnoc([], []);
    for i := 0 to |links|
      invariant p.Valid() && |cs| == i && AllArrivalsFit(cs)
      invariant forall j | i <= j < |links| :: links[j].Valid() && links[j].sent == []
      invariant forall j | i <= j < |links| :: links[j].budget == old(links[j].budget)
      invariant forall j | 0 <= j < i :: FoundRoom(cs[j].arrivals, laters[j]) && cs[j].budget == old(links[j].budget)
      invariant ClipAll(p.Pending()) == RunQueue(p.locality, s, queued, cs)
      invariant |parts| == i && forall j | 0 <= j < i :: links[j].sent == parts[j]
      invariant Joined(parts) == RunFrames(p.locality, s, queued, cs)
    {
      ghost var c := ConnectNext(p, links[i], gid, laters[i], queued, cs);
      JoinedSnoc(parts, links[i].sent);
      cs, parts := cs + [c], parts + [links[i].sent];
    }
    WrittenIs(links, parts);
    RunContents(p.locality, s, queued, cs);
  }

  lemma NoRun(p: Publisher, s: Sender)
    requires p.Valid() && s.Valid() && p.locality != SessionLocal
    ensures AllFit(ClipAll(p.Pending())) && AllArrivalsFit([])
    ensures RunQueue(p.locality, s, ClipAll(p.Pending()), []) == ClipAll(p.Pending())
    ensures RunFrames(p.locality, s, ClipAll(p.Pending()), []) == []
  {
  }
}
