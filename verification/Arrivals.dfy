/** Senders do not wait for a drain: messages enter a queue while the drain writes frames from it. */
module ArrivingMessages {
  import opened Common
  import opened Transmit
  import opened Failures
  import opened Queues
  import opened Drains
  import opened Refinement

  /** What the packing loop did: the groups it wrote, what it left queued, what had arrived by then, and whether
      a write failed. */
  datatype Looped = Looped(written: seq<seq<Message>>, kept: seq<Message>, arrived: seq<Message>, failed: bool)

  predicate EachFits(later: seq<seq<Message>>) {
    forall i | 0 <= i < |later| :: AllFit(later[i])
  }

  /** The packing loop on a queue into which `later[0]` arrives while the first message taken is dealt with,
      `later[1]` during the second, and so on; `open` is in the frame under construction. A message that has
      been taken is put into the frame, after that frame was written if it might not fit. */
  function PackingLoop(s: Sender, sn: nat, open: seq<Message>, queue: seq<Message>, later: seq<seq<Message>>,
          budget: nat): Looped
    requires s.Valid() && AllFit(open) && AllFit(queue) && EachFits(later)
    decreases |later|, |queue|
  {
    if queue == [] then
      if open == [] then Looped([], [], [], false)
      else if budget > 0 then Looped([open], [], [], false)
      else Looped([], [open[|open| - 1]], [], true)
    else
      var m, came := queue[0], if later == [] then [] else later[0];
      var next := queue[1..] + came;
      var later' := if later == [] then [] else later[1..];
      if open != [] && |FrameOf(s, sn, open)| + Estimate(s, m) > TX_FRAME_BUF then
        if budget == 0 then Looped([], [m] + next, came, true)
        else
          var r := PackingLoop(s, sn + 1, [m], next, later', budget - 1);
          Looped([open] + r.written, r.kept, came + r.arrived, r.failed)
      else
        var r := PackingLoop(s, sn, open + [m], next, later', budget);
        r.(arrived := came + r.arrived)
  }

  /** The outcome of the loop is that of a packing of all messages, those that arrived included. */
  ghost predicate AsPacked(s: Sender, sn: nat, open: seq<Message>, queue: seq<Message>, budget: nat, r: Looped)
    requires s.Valid() && AllFit(open)
  {
    && AllFit(queue + r.arrived)
    && var groups := Pack(s, sn, open, queue + r.arrived);
       && NoneEmpty(groups)
       && r.written == Acked(groups, budget) && r.kept == Kept(groups, budget) && (r.failed <==> budget < |groups|)
  }

  lemma LoopEnds(s: Sender, sn: nat, open: seq<Message>, later: seq<seq<Message>>, budget: nat)
    requires s.Valid() && AllFit(open) && EachFits(later)
    ensures AsPacked(s, sn, open, [], budget, PackingLoop(s, sn, open, [], later, budget))
    ensures PackingLoop(s, sn, open, [], later, budget).arrived == []
  {
    hide FrameOf, Estimate;
    assert Pack(s, sn, open, [] + []) == if open == [] then [] else [open];
  }

  /** The next message fits into the open frame. */
  lemma LoopAdds(s: Sender, sn: nat, open: seq<Message>, queue: seq<Message>, came: seq<Message>, budget: nat,
          r: Looped)
    requires s.Valid() && AllFit(open) && AllFit(queue) && AllFit(came) && queue != []
    requires !Overflows(s, sn, open, queue[0])
    requires AllFit(open + [queue[0]]) && AsPacked(s, sn, open + [queue[0]], queue[1..] + came, budget, r)
    ensures AsPacked(s, sn, open, queue, budget, r.(arrived := came + r.arrived))
  {
    hide FrameOf, Estimate, Kept, Acked;
    var all := queue + (came + r.arrived);
    assert all[1..] == queue[1..] + came + r.arrived && all[0] == queue[0];
    assert AllFit(all);
  }

  /** The open frame was written. */
  lemma LoopWrites(s: Sender, sn: nat, open: seq<Message>, queue: seq<Message>, came: seq<Message>, budget: nat,
          r: Looped)
    requires s.Valid() && AllFit(open) && AllFit(queue) && AllFit(came) && queue != [] && budget > 0
    requires Overflows(s, sn, open, queue[0])
    requires AllFit([queue[0]]) && AsPacked(s, sn + 1, [queue[0]], queue[1..] + came, budget - 1, r)
    ensures AsPacked(s, sn, open, queue, budget, Looped([open] + r.written, r.kept, came + r.arrived, r.failed))
  {
    hide FrameOf, Estimate, Flatten;
    var all := queue + (came + r.arrived);
    assert all[1..] == queue[1..] + came + r.arrived && all[0] == queue[0];
    assert AllFit(all);
    var groups := Pack(s, sn + 1, [queue[0]], all[1..]);
    assert Pack(s, sn, open, all) == [open] + groups;
    if budget < |groups| {
      assert ([open] + groups)[budget + 1..] == groups[budget..];
    }
    assert Acked([open] + groups, budget) == [open] + Acked(groups, budget - 1);
  }

  /** The write of the open frame failed; the message at hand is kept, in front of the queue. */
  lemma LoopFails(s: Sender, sn: nat, open: seq<Message>, queue: seq<Message>, came: seq<Message>)
    requires s.Valid() && AllFit(open) && AllFit(queue) && AllFit(came) && queue != []
    requires Overflows(s, sn, open, queue[0])
    ensures AsPacked(s, sn, open, queue, 0, Looped([], [queue[0]] + (queue[1..] + came), came, true))
  {
    hide FrameOf, Estimate, Flatten;
    var all := queue + came;
    assert all[1..] == queue[1..] + came && all[0] == queue[0];
    assert AllFit(all);
    PackStep(s, sn, open, all);
    var groups := Pack(s, sn + 1, [queue[0]], all[1..]);
    PackNotEmpty(s, sn + 1, [queue[0]], all[1..]);
    PackNoneEmpty(s, sn + 1, [queue[0]], all[1..]);
    FlattenPack(s, sn + 1, [queue[0]], all[1..]);
    assert ([open] + groups)[1..] == groups;
  }

  lemma {:induction false} PackNoneEmpty(s: Sender, sn: nat, open: seq<Message>, ms: seq<Message>)
    requires s.Valid() && AllFit(open) && AllFit(ms)
    ensures NoneEmpty(Pack(s, sn, open, ms))
    decreases |ms|
  {
    hide FrameOf, Estimate, AllFit;
    if ms != [] {
      PackStep(s, sn, open, ms);
      PackNoneEmpty(s, sn + 1, [ms[0]], ms[1..]);
      PackNoneEmpty(s, sn, open + [ms[0]], ms[1..]);
    }
  }

  lemma {:induction false} LoopPacks(s: Sender, sn: nat, open: seq<Message>, queue: seq<Message>,
          later: seq<seq<Message>>, budget: nat)
    requires s.Valid() && AllFit(open) && AllFit(queue) && EachFits(later)
    ensures AsPacked(s, sn, open, queue, budget, PackingLoop(s, sn, open, queue, later, budget))
    ensures PackingLoop(s, sn, open, queue, later, budget).arrived <= Flatten(later)
    decreases |later|, |queue|
  {
    hide FrameOf, Estimate, AsPacked;
    if queue == [] {
      LoopEnds(s, sn, open, later, budget);
    } else {
      var m, came := queue[0], if later == [] then [] else later[0];
      var next, later' := queue[1..] + came, if later == [] then [] else later[1..];
      assert AllFit([m]) && AllFit(open + [m]);
      if Overflows(s, sn, open, m) {
        if budget == 0 {
          LoopFails(s, sn, open, queue, came);
        } else {
          LoopPacks(s, sn + 1, [m], next, later', budget - 1);
          LoopWrites(s, sn, open, queue, came, budget, PackingLoop(s, sn + 1, [m], next, later', budget - 1));
        }
      } else {
        LoopPacks(s, sn, open + [m], next, later', budget);
        LoopAdds(s, sn, open, queue, came, budget, PackingLoop(s, sn, open + [m], next, later', budget));
      }
    }
  }

  /** A drain into whose queue messages arrive meanwhile does what a drain does that finds them, as far as they
      came before its end, queued at the start: it writes the same frames, fails in the same way and keeps
      the same messages. */
  lemma ArrivalsAreQueued(locality: Locality, s: Sender, sn: nat, queue: seq<Message>, later: seq<seq<Message>>,
          budget: nat)
    requires s.Valid() && AllFit(queue) && EachFits(later) && locality != SessionLocal
    ensures var r := PackingLoop(s, sn, [], queue, later, budget);
      && r.arrived <= Flatten(later) && AllFit(queue + r.arrived) && AllGroupsFit(r.written)
      && var d := DrainSpec(locality, Some(s.key), s.gid, sn, queue + r.arrived, budget);
         d.frames == Frames(s, sn, r.written) && d.kept == r.kept && (d.result.Fail? <==> r.failed)
  {
    hide Frames, FrameOf, Estimate, Flatten, Kept, AllFit, PackingLoop, Pack;
    assert Sender(s.key, s.gid) == s;
    NoMessages();
    LoopPacks(s, sn, [], queue, later, budget);
    var r := PackingLoop(s, sn, [], queue, later, budget);
    var all := queue + r.arrived;
    PackingIsPack(s, sn, all);
    var groups := Packing(s, sn, all);
    FramesPrefix(s, sn, groups, |Acked(groups, budget)|);
    if |groups| <= budget {
      DrainPasses(locality, s.key, s.gid, sn, all, budget);
      Pieces(groups, budget);
      FramesCount(s, sn, groups);
    } else {
      DrainFails(locality, s.key, s.gid, sn, all, budget);
    }
  }

  lemma NoMessages()
    ensures AllFit([])
  {
  }
}
