/** What a failed write loses and what it keeps, for one drain and over runs of
    drains, failures and reconnections. */
module Failures {
  import opened Common
  import opened Transmit

  /** The groups whose frames were written when the link takes `budget` more frames. */
  function Acked(groups: seq<seq<Message>>, budget: nat): seq<seq<Message>> {
    groups[..Min(budget, |groups|)]
  }

  predicate NoneEmpty(groups: seq<seq<Message>>) {
    forall i | 0 <= i < |groups| :: groups[i] != []
  }

  /** What is queued after the drain, stashed message first: nothing if every write succeeded.
      If a frame other than the last one failed, everything after it; if the last one failed, its last message. */
  function Kept(groups: seq<seq<Message>>, budget: nat): seq<Message>
    requires NoneEmpty(groups)
  {
    if |groups| <= budget then []
    else if budget + 1 < |groups| then Flatten(groups[budget + 1..])
    else [groups[budget][|groups[budget]| - 1]]
  }

  /** What is neither acknowledged nor kept. */
  function Lost(groups: seq<seq<Message>>, budget: nat): seq<Message>
    requires NoneEmpty(groups)
  {
    if |groups| <= budget then []
    else if budget + 1 < |groups| then groups[budget]
    else groups[budget][..|groups[budget]| - 1]
  }

  /** No write fails, or only that of the last frame, which holds one message. */
  predicate NoLoss(groups: seq<seq<Message>>, budget: nat) {
    |groups| <= budget || (budget + 1 == |groups| && |groups[budget]| == 1)
  }

  lemma {:induction false} FlattenConcat(a: seq<seq<Message>>, b: seq<seq<Message>>)
    ensures Flatten(a + b) == Flatten(a) + Flatten(b)
  {
    if a == [] {
      assert a + b == b;
    } else {
      FlattenConcat(a[1..], b);
      assert (a + b)[0] == a[0] && (a + b)[1..] == a[1..] + b;
      Associate(a[0], Flatten(a[1..]), Flatten(b));
    }
  }

  lemma CutAt(groups: seq<seq<Message>>, n: nat)
    requires n < |groups|
    ensures Flatten(groups) == Flatten(groups[..n]) + groups[n] + Flatten(groups[n + 1..])
  {
    var before, g, after := groups[..n], groups[n], groups[n + 1..];
    assert groups == before + ([g] + after);
    FlattenConcat(before, [g] + after);
    assert ([g] + after)[1..] == after;
    hide Flatten;
    Associate(Flatten(before), g, Flatten(after));
  }

  lemma Associate(a: seq<Message>, b: seq<Message>, c: seq<Message>)
    ensures a + (b + c) == a + b + c
  {
  }

  /** Acknowledged, lost and kept messages are the drained ones, cut into three pieces in this order;
      what is lost was in the frame whose write failed: all of that frame, unless it is the last one, which loses
      all but its last message. */
  lemma DrainConserves(groups: seq<seq<Message>>, budget: nat)
    requires NoneEmpty(groups)
    ensures Flatten(Acked(groups, budget)) + Lost(groups, budget) + Kept(groups, budget) == Flatten(groups)
    ensures Lost(groups, budget) != [] ==> budget < |groups| && Lost(groups, budget) <= groups[budget]
    ensures |groups| > budget ==> Kept(groups, budget) != []
    ensures budget + 1 < |groups| ==> Lost(groups, budget) == groups[budget]
    ensures budget + 1 == |groups| ==> Lost(groups, budget) == groups[budget][..|groups[budget]| - 1]
    ensures Lost(groups, budget) == [] <==> NoLoss(groups, budget)
  {
    hide Flatten, Acked, Kept, Lost;
    Pieces(groups, budget);
    if budget < |groups| {
      CutAt(groups, budget);
      if budget + 1 == |groups| {
        FlattenNone();
        CutLast(Flatten(groups[..budget]), groups[budget]);
      } else {
        FlattenNotEmpty(groups[budget + 1..]);
      }
    }
  }

  /** The three pieces of a drain, case by case. */
  lemma Pieces(groups: seq<seq<Message>>, budget: nat)
    requires NoneEmpty(groups)
    ensures |groups| <= budget ==>
        Acked(groups, budget) == groups && Lost(groups, budget) == [] && Kept(groups, budget) == []
    ensures |groups| <= budget ==> Flatten(groups) + [] + [] == Flatten(groups)
    ensures budget < |groups| ==> Acked(groups, budget) == groups[..budget]
    ensures budget + 1 < |groups| ==>
        Lost(groups, budget) == groups[budget] && Kept(groups, budget) == Flatten(groups[budget + 1..])
    ensures budget + 1 == |groups| ==> Lost(groups, budget) == groups[budget][..|groups[budget]| - 1]
    ensures budget + 1 == |groups| ==> Kept(groups, budget) == [groups[budget][|groups[budget]| - 1]]
    ensures budget + 1 == |groups| ==> groups[budget + 1..] == []
  {
    hide Flatten;
  }

  lemma CutLast(a: seq<Message>, g: seq<Message>)
    requires g != []
    ensures a + g[..|g| - 1] + [g[|g| - 1]] == a + g + []
  {
    assert g == g[..|g| - 1] + [g[|g| - 1]];
  }

  lemma FlattenNotEmpty(groups: seq<seq<Message>>)
    requires groups != [] && groups[0] != []
    ensures Flatten(groups) != []
  {
  }

  lemma FlattenNone()
    ensures Flatten([]) == []
  {
  }

  lemma {:induction false} WithinNotEmpty(s: Sender, sn: nat, groups: seq<seq<Message>>)
    requires s.Valid() && AllGroupsFit(groups) && Within(s, sn, groups)
    ensures forall i | 0 <= i < |groups| :: groups[i] != [] && |groups[i]| <= 25
    decreases |groups|
  {
    hide FrameOf, AllFit;
    if groups != [] {
      FrameHoldsAtMost(s, sn, groups[0]);
      WithinNotEmpty(s, sn + 1, groups[1..]);
      assert forall i | 0 < i < |groups| :: groups[i] == groups[1..][i - 1];
    }
  }

  /** The packing of a queue: no frame is empty or holds more than 25 messages. */
  function Packing(s: Sender, sn: nat, ms: seq<Message>): (groups: seq<seq<Message>>)
    requires s.Valid() && AllFit(ms)
    ensures AllGroupsFit(groups) && Flatten(groups) == ms && Within(s, sn, groups)
    ensures NoneEmpty(groups) && forall i | 0 <= i < |groups| :: |groups[i]| <= 25
  {
    var groups := Pack(s, sn, [], ms);
    FlattenPack(s, sn, [], ms);
    EmptyFrame(s, sn);
    PackedFramesFit(s, sn, [], ms);
    WithinNotEmpty(s, sn, groups);
    assert [] + ms == ms;
    groups
  }

  lemma {:induction false} FlattenFits(groups: seq<seq<Message>>)
    requires AllGroupsFit(groups)
    ensures AllFit(Flatten(groups))
  {
    if groups != [] {
      assert groups[0] in groups;
      assert forall g | g in groups[1..] :: g in groups;
      FlattenFits(groups[1..]);
    }
  }

  lemma KeptFits(s: Sender, sn: nat, ms: seq<Message>, budget: nat)
    requires s.Valid() && AllFit(ms)
    ensures AllFit(Kept(Packing(s, sn, ms), budget))
  {
    var groups := Packing(s, sn, ms);
    if budget < |groups| {
      assert groups[budget] in groups;
      FlattenFits(groups[budget + 1..]);
    }
  }

  // ── Runs: drain, fail, reconnect, drain ───────────────────────────────

  /** One connection: the number its first data frame gets, how many frames it takes before it
      breaks, and the messages queued before the next connection is up. */
  datatype Connection = Connection(sn: nat, budget: nat, arrivals: seq<Message>)

  predicate AllArrivalsFit(cs: seq<Connection>) {
    forall c | c in cs :: AllFit(c.arrivals)
  }

  function Arrivals(cs: seq<Connection>): seq<Message> {
    if cs == [] then [] else cs[0].arrivals + Arrivals(cs[1..])
  }

  /** Acknowledged messages, what each failure lost, and what is still queued at the end. */
  datatype Outcomes = Outcomes(acked: seq<Message>, lost: seq<seq<Message>>, queued: seq<Message>)

  function Run(s: Sender, queued: seq<Message>, cs: seq<Connection>): Outcomes
    requires s.Valid() && AllFit(queued) && AllArrivalsFit(cs)
    decreases |cs|
  {
    if cs == [] then Outcomes([], [], queued)
    else
      var c, groups := cs[0], Packing(s, cs[0].sn, queued);
      KeptFits(s, c.sn, queued, c.budget);
      var rest := Run(s, Kept(groups, c.budget) + c.arrivals, cs[1..]);
      Outcomes(Flatten(Acked(groups, c.budget)) + rest.acked, [Lost(groups, c.budget)] + rest.lost, rest.queued)
  }

  /** `a` is `b` with some messages left out. */
  predicate Subsequence(a: seq<Message>, b: seq<Message>) {
    if a == [] then true
    else if b == [] then false
    else (a[0] == b[0] && Subsequence(a[1..], b[1..])) || Subsequence(a, b[1..])
  }

  lemma {:induction false} SubsequencePrefix(p: seq<Message>, a: seq<Message>, b: seq<Message>)
    requires Subsequence(a, b)
    ensures Subsequence(p + a, p + b)
  {
    if p == [] {
      assert p + a == a && p + b == b;
    } else {
      SubsequencePrefix(p[1..], a, b);
      assert (p + a)[1..] == p[1..] + a && (p + b)[1..] == p[1..] + b;
    }
  }

  lemma {:induction false} SubsequenceSkip(a: seq<Message>, q: seq<Message>, b: seq<Message>)
    requires Subsequence(a, b)
    ensures Subsequence(a, q + b)
  {
    if q == [] {
      assert q + b == b;
    } else {
      SubsequenceSkip(a, q[1..], b);
      assert (q + b)[1..] == q[1..] + b;
    }
  }

  lemma {:induction false} SubsequenceSelf(a: seq<Message>)
    ensures Subsequence(a, a)
  {
    if a != [] {
      SubsequenceSelf(a[1..]);
    }
  }

  lemma RunStep(s: Sender, queued: seq<Message>, cs: seq<Connection>)
    requires s.Valid() && AllFit(queued) && AllArrivalsFit(cs) && cs != []
    ensures var groups := Packing(s, cs[0].sn, queued);
      var next := Kept(groups, cs[0].budget) + cs[0].arrivals;
      && AllFit(next) && AllArrivalsFit(cs[1..])
      && Run(s, queued, cs).acked == Flatten(Acked(groups, cs[0].budget)) + Run(s, next, cs[1..]).acked
      && Run(s, queued, cs).lost == [Lost(groups, cs[0].budget)] + Run(s, next, cs[1..]).lost
      && Run(s, queued, cs).queued == Run(s, next, cs[1..]).queued
  {
    hide AllFit, Packing, Flatten, Kept, Lost, Acked;
    KeptFits(s, cs[0].sn, queued, cs[0].budget);
    NextFits(Kept(Packing(s, cs[0].sn, queued), cs[0].budget), cs);
  }

  /** Over every run of connections: no message is duplicated or invented, acknowledged and queued
      messages keep the order in which they were queued, and each failure loses at most 25 messages. */
  lemma {:induction false} RunConserves(s: Sender, queued: seq<Message>, cs: seq<Connection>)
    requires s.Valid() && AllFit(queued) && AllArrivalsFit(cs)
    ensures var r := Run(s, queued, cs);
      && multiset(r.acked) + multiset(Flatten(r.lost)) + multiset(r.queued) == multiset(queued) + multiset(Arrivals(cs))
      && Subsequence(r.acked + r.queued, queued + Arrivals(cs))
      && (forall i | 0 <= i < |r.lost| :: |r.lost[i]| <= 25)
    decreases |cs|
  {
    hide AllFit, Subsequence, Packing, Kept, Lost, Acked, AllArrivalsFit, Run, Flatten, Arrivals;
    if cs == [] {
      RunNone(s, queued);
    } else {
      RunStep(s, queued, cs);
      var c, groups := cs[0], Packing(s, cs[0].sn, queued);
      var acked, lost, kept := Flatten(Acked(groups, c.budget)), Lost(groups, c.budget), Kept(groups, c.budget);
      RunConserves(s, kept + c.arrivals, cs[1..]);
      DrainConserves(groups, c.budget);
      LostBound(groups, c.budget);
      ArrivalsStep(cs);
      RunStepCounts(acked, lost, kept, c.arrivals, Run(s, kept + c.arrivals, cs[1..]), Arrivals(cs[1..]));
      RunStepOrder(acked, lost, kept, c.arrivals, Run(s, kept + c.arrivals, cs[1..]), Arrivals(cs[1..]));
    }
  }

  // ── When nothing is lost ──────────────────────────────────────────────

  /** On each connection no write fails, or only that of a last frame with one message. */
  predicate NoLossInRun(s: Sender, queued: seq<Message>, cs: seq<Connection>)
    requires s.Valid() && AllFit(queued) && AllArrivalsFit(cs)
    decreases |cs|
  {
    cs == [] || (
      var c, groups := cs[0], Packing(s, cs[0].sn, queued);
      KeptFits(s, c.sn, queued, c.budget);
      NoLoss(groups, c.budget) && NoLossInRun(s, Kept(groups, c.budget) + c.arrivals, cs[1..]))
  }

  /** A run loses nothing if and only if no connection of it does. */
  lemma {:induction false} NothingLost(s: Sender, queued: seq<Message>, cs: seq<Connection>)
    requires s.Valid() && AllFit(queued) && AllArrivalsFit(cs)
    ensures Flatten(Run(s, queued, cs).lost) == [] <==> NoLossInRun(s, queued, cs)
    decreases |cs|
  {
    hide AllFit, Packing, Kept, Lost, Acked, AllArrivalsFit, Run, Flatten, NoLoss;
    if cs == [] {
      RunNone(s, queued);
    } else {
      RunStep(s, queued, cs);
      var c, groups := cs[0], Packing(s, cs[0].sn, queued);
      var next := Kept(groups, c.budget) + c.arrivals;
      DrainConserves(groups, c.budget);
      NothingLost(s, next, cs[1..]);
      FlattenCons(Lost(groups, c.budget), Run(s, next, cs[1..]).lost);
    }
  }

  lemma FlattenCons(g: seq<Message>, rest: seq<seq<Message>>)
    ensures Flatten([g] + rest) == g + Flatten(rest)
  {
    assert ([g] + rest)[1..] == rest;
  }

  /** Two short messages share a frame; when its write fails, the first is gone and the second is kept. */
  lemma FirstOfTwoIsLost(s: Sender, sn: nat, first: Message, second: Message)
    requires s.Valid() && 2 * |s.key| + |first.data| + |second.data| <= 907 && AllFit([first, second])
    ensures Packing(s, sn, [first, second]) == [[first, second]]
    ensures var c := Connection(sn, 0, []);
      AllArrivalsFit([c]) && Run(s, [first, second], [c]) == Outcomes([], [[first]], [second])
  {
    hide FrameOf, Estimate, Run;
    var ms, c := [first, second], Connection(sn, 0, []);
    PackTwo(s, sn, first, second);
    var groups := Packing(s, sn, ms);
    assert Flatten(Acked(groups, 0)) == [] && [c][1..] == [];
    assert Kept(groups, 0) == [second] && Lost(groups, 0) == [first];
    RunStep(s, ms, [c]);
    assert [second] + [] == [second];
    RunNone(s, [second]);
  }

  lemma PackTwo(s: Sender, sn: nat, first: Message, second: Message)
    requires s.Valid() && 2 * |s.key| + |first.data| + |second.data| <= 907 && AllFit([first, second])
    ensures Pack(s, sn, [], [first, second]) == [[first, second]]
  {
    hide FrameOf, Wire;
    var ms := [first, second];
    assert Fits(ms[0]) && Fits(ms[1]);
    PackStep(s, sn, [], ms);
    EmptyFrame(s, sn);
    FrameSnoc(s, sn, [], first);
    WireSize(s, first);
    assert [] + [first] == [first] && [first] + [second] == ms && ms[1..] == [second] && [second][1..] == [];
    assert Pack(s, sn, [], ms) == Pack(s, sn, [first], [second]);
    assert Pack(s, sn, [first], [second]) == Pack(s, sn, ms, []);
  }

  lemma RunNone(s: Sender, queued: seq<Message>)
    requires s.Valid() && AllFit(queued)
    ensures Run(s, queued, []) == Outcomes([], [], queued) && Arrivals([]) == []
    ensures Flatten([]) == [] && [] + queued == queued && queued + [] == queued
    ensures Subsequence(queued, queued)
  {
    hide Subsequence;
    SubsequenceSelf(queued);
  }

  lemma ArrivalsStep(cs: seq<Connection>)
    requires cs != []
    ensures Arrivals(cs) == cs[0].arrivals + Arrivals(cs[1..])
  {
  }

  lemma NextFits(kept: seq<Message>, cs: seq<Connection>)
    requires AllFit(kept) && cs != [] && AllArrivalsFit(cs)
    ensures AllFit(kept + cs[0].arrivals) && AllArrivalsFit(cs[1..])
  {
    assert cs[0] in cs;
  }

  lemma LostBound(groups: seq<seq<Message>>, budget: nat)
    requires NoneEmpty(groups) && forall i | 0 <= i < |groups| :: |groups[i]| <= 25
    ensures |Lost(groups, budget)| <= 25
  {
  }

  lemma RunStepCounts(acked: seq<Message>, lost: seq<Message>, kept: seq<Message>, new_: seq<Message>, rest: Outcomes,
          later: seq<Message>)
    requires multiset(rest.acked) + multiset(Flatten(rest.lost)) + multiset(rest.queued)
        == multiset(kept + new_) + multiset(later)
    ensures multiset(acked + rest.acked) + multiset(Flatten([lost] + rest.lost)) + multiset(rest.queued)
         == multiset(acked + lost + kept) + multiset(new_ + later)
  {
    assert ([lost] + rest.lost)[1..] == rest.lost;
    MultisetConcat(acked, rest.acked);
    MultisetConcat(lost, Flatten(rest.lost));
    MultisetConcat(acked + lost, kept);
    MultisetConcat(acked, lost);
    MultisetConcat(new_, later);
    MultisetConcat(kept, new_);
    Regroup(multiset(acked), multiset(lost), multiset(kept), multiset(new_), multiset(later),
            multiset(rest.acked), multiset(Flatten(rest.lost)), multiset(rest.queued));
  }

  lemma Regroup(a: multiset<Message>, l: multiset<Message>, k: multiset<Message>, n: multiset<Message>,
          t: multiset<Message>, ra: multiset<Message>, rl: multiset<Message>, rq: multiset<Message>)
    requires ra + rl + rq == k + n + t
    ensures a + ra + (l + rl) + rq == a + l + k + (n + t)
  {
    forall m: Message
      ensures (a + ra + (l + rl) + rq)[m] == (a + l + k + (n + t))[m]
    {
      assert (ra + rl + rq)[m] == (k + n + t)[m];
    }
  }

  lemma MultisetConcat(a: seq<Message>, b: seq<Message>)
    ensures multiset(a + b) == multiset(a) + multiset(b)
  {
  }

  lemma RunStepOrder(acked: seq<Message>, lost: seq<Message>, kept: seq<Message>, new_: seq<Message>, rest: Outcomes,
          later: seq<Message>)
    requires Subsequence(rest.acked + rest.queued, kept + new_ + later)
    ensures Subsequence(acked + rest.acked + rest.queued, acked + lost + kept + (new_ + later))
  {
    hide Subsequence;
    SubsequenceSkip(rest.acked + rest.queued, lost, kept + new_ + later);
    SubsequencePrefix(acked, rest.acked + rest.queued, lost + (kept + new_ + later));
    assert acked + (lost + (kept + new_ + later)) == acked + lost + kept + (new_ + later);
    assert acked + (rest.acked + rest.queued) == acked + rest.acked + rest.queued;
  }

  /** What a receiver that gets every acknowledged frame of one drain reads. */
  lemma AckedContents(s: Sender, sn: nat, queued: seq<Message>, budget: nat)
    requires s.Valid() && AllFit(queued)
    ensures var groups := Packing(s, sn, queued);
      Contents(Frames(s, sn, groups)[..|Acked(groups, budget)|]) == Some(SeenAll(s, Flatten(Acked(groups, budget))))
  {
    var groups := Packing(s, sn, queued);
    var n := |Acked(groups, budget)|;
    FramesPrefix(s, sn, groups, n);
    hide Contents, Frames, SeenAll;
    FramesContents(s, sn, groups[..n]);
  }

  lemma {:induction false} FramesPrefix(s: Sender, sn: nat, groups: seq<seq<Message>>, n: nat)
    requires s.Valid() && AllGroupsFit(groups) && n <= |groups|
    ensures AllGroupsFit(groups[..n]) && Frames(s, sn, groups)[..n] == Frames(s, sn, groups[..n])
    decreases n
  {
    hide FrameOf, AllFit;
    if n > 0 {
      FramesPrefix(s, sn + 1, groups[1..], n - 1);
      assert groups[1..][..n - 1] == groups[..n][1..];
      assert groups[..n][0] == groups[0];
    }
  }
}
