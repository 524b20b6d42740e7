/** When a frame is closed, in terms of the lengths alone: what the packing of a queue is, said without the
    loop that makes it. */
module Packings {
  import opened Transmit
  import opened Failures

  /** The group was filled by the rule: with each message but its first, 64 bytes, the key and the message
      were still to spare in a frame of 1024. */
  ghost predicate Admitted(s: Sender, sn: nat, g: seq<Message>)
    requires s.Valid() && AllFit(g)
  {
    forall j | 0 < j < |g| :: |FrameOf(s, sn, g[..j])| + |s.key| + |g[j].data| + 64 <= 1024
  }

  /** The frame of the group had no such room for the next message. */
  predicate Full(s: Sender, sn: nat, g: seq<Message>, next: Message)
    requires s.Valid() && AllFit(g)
  {
    |FrameOf(s, sn, g)| + |s.key| + |next.data| + 64 > 1024
  }

  /** A grouping in which no frame is empty, each was filled by the rule, and none was closed too early. */
  ghost predicate Greedy(s: Sender, sn: nat, groups: seq<seq<Message>>)
    requires s.Valid() && AllGroupsFit(groups)
    decreases |groups|
  {
    groups == [] || (
      && groups[0] != [] && Admitted(s, sn, groups[0])
      && (|groups| > 1 ==> groups[1] != [] && Full(s, sn, groups[0], groups[1][0]))
      && Greedy(s, sn + 1, groups[1..]))
  }

  lemma AdmitNext(s: Sender, sn: nat, g: seq<Message>, m: Message)
    requires s.Valid() && AllFit(g) && Fits(m) && Admitted(s, sn, g)
    requires g == [] || |FrameOf(s, sn, g)| + |s.key| + |m.data| + 64 <= 1024
    ensures AllFit(g + [m]) && Admitted(s, sn, g + [m])
  {
    hide FrameOf;
    var all := g + [m];
    forall j | 0 < j < |all|
      ensures |FrameOf(s, sn, all[..j])| + |s.key| + |all[j].data| + 64 <= 1024
    {
      if j < |g| {
        assert all[..j] == g[..j] && all[j] == g[j];
      } else {
        assert all[..j] == g && all[j] == m;
      }
    }
  }

  lemma {:induction false} PackIsGreedy(s: Sender, sn: nat, open: seq<Message>, ms: seq<Message>)
    requires s.Valid() && AllFit(open) && AllFit(ms) && Admitted(s, sn, open)
    ensures Greedy(s, sn, Pack(s, sn, open, ms))
    ensures open + ms != [] ==> (
      var groups := Pack(s, sn, open, ms); groups != [] && groups[0] != [] && groups[0][0] == (open + ms)[0])
    decreases |ms|
  {
    hide FrameOf, Admitted, AllFit;
    if ms == [] {
      assert open != [] ==> [open][1..] == [] && Greedy(s, sn + 1, []);
    } else {
      PackStep(s, sn, open, ms);
      var m := ms[0];
      if open != [] && |FrameOf(s, sn, open)| + Estimate(s, m) > TX_FRAME_BUF {
        NothingAdmitted(s, sn + 1);
        AdmitNext(s, sn + 1, [], m);
        assert [] + [m] == [m] && ([m] + ms[1..])[0] == m;
        PackIsGreedy(s, sn + 1, [m], ms[1..]);
        var rest := Pack(s, sn + 1, [m], ms[1..]);
        assert ([open] + rest)[1..] == rest && ([open] + rest)[1] == rest[0];
      } else {
        AdmitNext(s, sn, open, m);
        PackIsGreedy(s, sn, open + [m], ms[1..]);
        assert open + [m] + ms[1..] == open + ms;
      }
    }
  }

  lemma NothingAdmitted(s: Sender, sn: nat)
    requires s.Valid()
    ensures AllFit([]) && Admitted(s, sn, [])
  {
  }

  /** The packing of a queue is filled by the rule, and holds the queue. */
  lemma PackingIsGreedy(s: Sender, sn: nat, ms: seq<Message>)
    requires s.Valid() && AllFit(ms)
    ensures Greedy(s, sn, Packing(s, sn, ms)) && Flatten(Packing(s, sn, ms)) == ms
  {
    NothingAdmitted(s, sn);
    PackIsGreedy(s, sn, [], ms);
  }

  lemma FlattenFirst(groups: seq<seq<Message>>)
    requires groups != []
    ensures Flatten(groups) == groups[0] + Flatten(groups[1..])
    ensures |groups| > 1 && groups[1] != [] ==>
              |Flatten(groups)| > |groups[0]| && Flatten(groups)[|groups[0]|] == groups[1][0]
  {
  }

  /** Whatever follows the first group did not fit into its frame. */
  lemma FullBefore(s: Sender, sn: nat, groups: seq<seq<Message>>)
    requires s.Valid() && AllGroupsFit(groups) && groups != [] && Greedy(s, sn, groups)
    ensures groups[0] in groups
    ensures |Flatten(groups)| > |groups[0]| ==> Full(s, sn, groups[0], Flatten(groups)[|groups[0]|])
  {
    hide FrameOf, Full, Admitted;
    FlattenFirst(groups);
    if |groups| == 1 {
      assert Flatten(groups[1..]) == [];
    }
  }

  lemma NotFullWithin(s: Sender, sn: nat, g: seq<Message>, h: seq<Message>)
    requires s.Valid() && AllFit(g) && AllFit(h) && Admitted(s, sn, h) && g != []
    ensures g < h ==> !Full(s, sn, g, h[|g|])
  {
    hide FrameOf;
    if g < h {
      assert h[..|g|] == g;
    }
  }

  /** Of two such groupings of the same messages, the first groups are equal: the shorter one was not full. */
  lemma FirstGroup(s: Sender, sn: nat, a: seq<seq<Message>>, b: seq<seq<Message>>)
    requires s.Valid() && AllGroupsFit(a) && AllGroupsFit(b) && a != [] && b != []
    requires Greedy(s, sn, a) && Greedy(s, sn, b) && Flatten(a) == Flatten(b)
    ensures |b[0]| <= |a[0]|
  {
    hide Full, Admitted, AllFit;
    FlattenFirst(a);
    FlattenFirst(b);
    FullBefore(s, sn, a);
    FullBefore(s, sn, b);
    NotFullWithin(s, sn, a[0], b[0]);
    Shorter(a[0], Flatten(a[1..]), b[0], Flatten(b[1..]));
  }

  lemma Shorter(g: seq<Message>, x: seq<Message>, h: seq<Message>, y: seq<Message>)
    requires g + x == h + y
    ensures |g| < |h| ==> g < h && |g + x| > |g| && (g + x)[|g|] == h[|g|]
  {
    if |g| < |h| {
      assert h == (g + x)[..|h|] && g == (g + x)[..|g|];
    }
  }

  /** The rule determines the grouping: there is exactly one for each queue and first number. */
  lemma {:induction false} GreedyUnique(s: Sender, sn: nat, a: seq<seq<Message>>, b: seq<seq<Message>>)
    requires s.Valid() && AllGroupsFit(a) && AllGroupsFit(b)
    requires Greedy(s, sn, a) && Greedy(s, sn, b) && Flatten(a) == Flatten(b)
    ensures a == b
    decreases |a|
  {
    hide Admitted, Full, AllFit;
    if a != [] && b != [] {
      FirstGroup(s, sn, a, b);
      FirstGroup(s, sn, b, a);
      FlattenFirst(a);
      FlattenFirst(b);
      var ms := Flatten(a);
      assert a[0] == ms[..|a[0]|] == b[0];
      assert Flatten(a[1..]) == ms[|a[0]|..] == Flatten(b[1..]);
      GreedyUnique(s, sn + 1, a[1..], b[1..]);
      assert a == [a[0]] + a[1..] && b == [b[0]] + b[1..];
    } else {
      NonEmptyFlatten(a);
      NonEmptyFlatten(b);
    }
  }

  lemma NonEmptyFlatten(groups: seq<seq<Message>>)
    ensures groups != [] && groups[0] != [] ==> Flatten(groups) != []
  {
  }

  /** A grouping of the messages is the packing that a drain sends if and only if it is filled by the rule. */
  lemma PackingExactly(s: Sender, sn: nat, ms: seq<Message>, groups: seq<seq<Message>>)
    requires s.Valid() && AllFit(ms) && AllGroupsFit(groups)
    ensures groups == Packing(s, sn, ms) <==> Greedy(s, sn, groups) && Flatten(groups) == ms
  {
    hide Packing, Greedy, Flatten;
    PackingIsGreedy(s, sn, ms);
    if Greedy(s, sn, groups) && Flatten(groups) == ms {
      GreedyUnique(s, sn, groups, Packing(s, sn, ms));
    }
  }
}
