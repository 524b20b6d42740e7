/** Draining all publishers of a node, batched or with one message per frame, as a
    fold over the publishers; and the proof that batching changes nothing but the
    number of frames. */
module Refinement {
  import opened Common
  import opened Utf8
  import opened Names
  import opened Decode
  import opened Transmit
  import opened Failures
  import opened Queues
  import opened Routing
  import opened Drains

  datatype Mode = Batched | OneByOne

  /** What draining one publisher does with one message per frame and no retry slot: the message
      whose write fails is gone, the ones behind it stay queued. */
  function PlainSpec(locality: Locality, key: Option<text>, gid: seq<byte>, sn: nat, ms: seq<Message>,
          budget: nat): (d: Drained)
    requires |gid| <= 16 && AllFit(ms) && (key.Some? ==> |key.value| <= 256)
    ensures |d.frames| <= budget
  {
    if locality == SessionLocal then Drained([], sn, [], |ms|, Pass)
    else if key.None? then Drained([], sn, ms, 0, Fail(InvalidArgument))
    else
      var frames := Frames(Sender(key.value, gid), sn, Singles(ms));
      SinglesCount(ms);
      if |ms| <= budget then Drained(frames, (sn + |ms|) % U64, [], |ms|, Pass)
      else Drained(frames[..budget], (sn + budget + 1) % U64, ms[budget + 1..], budget + 1, Fail(Transport(Io)))
  }

  lemma PlainPasses(locality: Locality, key: text, gid: seq<byte>, sn: nat, ms: seq<Message>, budget: nat)
    requires locality != SessionLocal && |gid| <= 16 && AllFit(ms) && |key| <= 256 && |ms| <= budget
    ensures |Singles(ms)| == |ms|
    ensures PlainSpec(locality, Some(key), gid, sn, ms, budget)
         == Drained(Frames(Sender(key, gid), sn, Singles(ms))[..|ms|], (sn + |ms|) % U64, [], |ms|, Pass)
  {
    hide Frames, Singles, AllFit;
    SinglesCount(ms);
  }

  lemma PlainFails(locality: Locality, key: text, gid: seq<byte>, sn: nat, ms: seq<Message>, budget: nat)
    requires locality != SessionLocal && |gid| <= 16 && AllFit(ms) && |key| <= 256 && budget < |ms|
    ensures |Singles(ms)| == |ms|
    ensures PlainSpec(locality, Some(key), gid, sn, ms, budget)
         == Drained(Frames(Sender(key, gid), sn, Singles(ms))[..budget], (sn + budget + 1) % U64, ms[budget + 1..],
                    budget + 1, Fail(Transport(Io)))
  {
    hide Frames, Singles, AllFit;
    SinglesCount(ms);
  }

  lemma SinglesCount(ms: seq<Message>)
    requires AllFit(ms)
    ensures |Singles(ms)| == |ms|
  {
    FlattenSingles(ms);
  }

  lemma {:induction false} SinglesAt(ms: seq<Message>, k: nat)
    requires AllFit(ms) && k < |ms|
    ensures |Singles(ms)| == |ms| && Singles(ms)[k] == [ms[k]]
  {
    SinglesCount(ms);
    if k > 0 {
      SinglesAt(ms[1..], k - 1);
    }
  }

  /** One more message has been sent in a frame of its own. */
  lemma PlainFrame(s: Sender, sn: nat, ms: seq<Message>, k: nat)
    requires s.Valid() && AllFit(ms) && k < |ms|
    ensures |Singles(ms)| == |ms| && AllFit([]) && AllFit([ms[k]])
    ensures Frames(s, sn, Singles(ms))[..k + 1] == Frames(s, sn, Singles(ms))[..k] + [FrameOf(s, sn + k, [ms[k]])]
    ensures |FrameOf(s, sn + k, [] + [ms[k]])| <= TX_FRAME_BUF && [] + [ms[k]] == [ms[k]]
  {
    hide FrameOf, Frames, Singles;
    SinglesAt(ms, k);
    FramesSnoc(s, sn, Singles(ms), k);
    EstimateSound(s, sn + k, [], ms[k]);
  }

  function Spec(mode: Mode, p: Publisher, gid: seq<byte>, sn: nat, ms: seq<Message>, budget: nat): (d: Drained)
    requires |gid| <= 16 && AllFit(ms)
    ensures |d.frames| <= budget
  {
    match mode
    case Batched => DrainSpec(p.locality, KeyOf(p.topic), gid, sn, ms, budget)
    case OneByOne => PlainSpec(p.locality, KeyOf(p.topic), gid, sn, ms, budget)
  }

  /** What a drain of all publishers reads and changes: the next sequence number, how many frames
      the link still takes, the queues of the publishers and those of the local subscriptions. */
  datatype Net = Net(sn: nat, budget: nat, pending: map<Publisher, seq<Message>>, inboxes: Inboxes)

  ghost predicate Covers(ps: seq<Publisher>, entries: seq<Entry>, net: Net) {
    && (forall p | p in ps :: p in net.pending)
    && (forall p | p in net.pending :: AllFit(net.pending[p]))
    && (forall i | 0 <= i < |entries| :: entries[i].dispatch in net.inboxes)
  }

  /** The state after one publisher was drained. */
  ghost function After(p: Publisher, entries: seq<Entry>, net: Net, d: Drained): Net
    requires Covers([p], entries, net) && |d.frames| <= net.budget
  {
    assert p in [p];
    Net(d.sn, net.budget - |d.frames|, net.pending[p := d.kept],
        DispatchAll(entries, p.topic, Dispatched(p.locality, net.pending[p], d.taken), net.inboxes))
  }

  lemma AfterCovers(mode: Mode, ps: seq<Publisher>, entries: seq<Entry>, gid: seq<byte>, net: Net)
    requires ps != [] && |gid| <= 16 && Covers(ps, entries, net)
    ensures Covers([ps[0]], entries, net) && ps[0] in net.pending && AllFit(net.pending[ps[0]])
    ensures Covers(ps[1..], entries,
        After(ps[0], entries, net, Spec(mode, ps[0], gid, net.sn, net.pending[ps[0]], net.budget)))
  {
    hide AllFit, DrainSpec, PlainSpec, DispatchAll, Dispatched;
    var p := ps[0];
    assert p in ps;
    KeptSpecFits(mode, p, gid, net.sn, net.pending[p], net.budget);
  }

  lemma KeptSpecFits(mode: Mode, p: Publisher, gid: seq<byte>, sn: nat, ms: seq<Message>, budget: nat)
    requires |gid| <= 16 && AllFit(ms)
    ensures AllFit(Spec(mode, p, gid, sn, ms, budget).kept)
  {
    hide Frames, Packing, Kept, KeyOf;
    if mode == Batched && p.locality != SessionLocal && KeyOf(p.topic).Some? {
      KeptFits(Sender(KeyOf(p.topic).value, gid), sn, ms, budget);
    }
  }

  datatype Outflow = Outflow(net: Net, frames: seq<seq<byte>>, result: Outcome<Error>)

  /** Draining one publisher after the other, up to the first error. */
  ghost function DrainRun(mode: Mode, ps: seq<Publisher>, entries: seq<Entry>, gid: seq<byte>, net: Net): Outflow
    requires |gid| <= 16 && Covers(ps, entries, net)
    decreases |ps|
  {
    if ps == [] then Outflow(net, [], Pass)
    else
      AfterCovers(mode, ps, entries, gid, net);
      var d := Spec(mode, ps[0], gid, net.sn, net.pending[ps[0]], net.budget);
      var next := After(ps[0], entries, net, d);
      if d.result.Fail? then Outflow(next, d.frames, d.result)
      else
        var rest := DrainRun(mode, ps[1..], entries, gid, next);
        Outflow(rest.net, d.frames + rest.frames, rest.result)
  }

  // ── Runs of frames ────────────────────────────────────────────────────

  lemma {:induction false} ContentsConcat(a: seq<seq<byte>>, b: seq<seq<byte>>)
    ensures Contents(a).Some? && Contents(b).Some? ==> Contents(a + b) == Some(Contents(a).value + Contents(b).value)
  {
    hide Receive;
    hide Contents;
    ContentsOfNone();
    if Contents(a).None? || Contents(b).None? {
    } else if a == [] {
      assert a + b == b;
      assert [] + Contents(b).value == Contents(b).value;
    } else {
      ContentsStep(a);
      ContentsConcat(a[1..], b);
      assert (a + b)[0] == a[0] && (a + b)[1..] == a[1..] + b;
      ContentsStep(a + b);
      assert Receive(a[0]).value.puts + (Contents(a[1..]).value + Contents(b).value)
          == Receive(a[0]).value.puts + Contents(a[1..]).value + Contents(b).value;
    }
  }

  lemma ContentsStep(fs: seq<seq<byte>>)
    requires fs != []
    ensures Contents(fs).Some? <==> Receive(fs[0]).Some? && Contents(fs[1..]).Some?
    ensures Contents(fs).Some? ==> Contents(fs).value == Receive(fs[0]).value.puts + Contents(fs[1..]).value
  {
    hide Receive;
  }

  lemma {:induction false} NumbersConcat(a: seq<seq<byte>>, b: seq<seq<byte>>)
    ensures Numbers(a + b) == Numbers(a) + Numbers(b)
  {
    hide Receive;
    if a == [] {
      assert a + b == b;
    } else {
      NumbersConcat(a[1..], b);
      assert (a + b)[0] == a[0] && (a + b)[1..] == a[1..] + b;
    }
  }

  lemma {:induction false} NumbersPrefix(fs: seq<seq<byte>>, n: nat)
    requires n <= |fs|
    ensures |Numbers(fs)| == |fs| && Numbers(fs[..n]) == Numbers(fs)[..n]
  {
    hide Receive;
    if fs != [] {
      NumbersPrefix(fs[1..], if n > 0 then n - 1 else 0);
      if n > 0 {
        assert fs[..n][1..] == fs[1..][..n - 1];
      }
    }
  }

  lemma {:induction false} CountingConcat(sn: nat, m: nat, n: nat)
    ensures Counting(sn, m + n) == Counting(sn, m) + Counting(sn + m, n)
    decreases m
  {
    if m > 0 {
      CountingConcat(sn + 1, m - 1, n);
      assert sn + 1 + (m - 1) == sn + m;
      assert m - 1 + n == m + n - 1;
    }
  }

  lemma {:induction false} CountingPrefix(sn: nat, m: nat, n: nat)
    requires m <= n
    ensures |Counting(sn, n)| == n && Counting(sn, n)[..m] == Counting(sn, m)
    decreases n
  {
    if n > 0 {
      CountingPrefix(sn + 1, if m > 0 then m - 1 else 0, n - 1);
    }
  }

  /** Numbers count modulo two to the power of 64. */
  lemma {:induction false} CountingWraps(sn: nat, n: nat)
    ensures Counting(sn % U64, n) == Counting(sn, n)
    decreases n
  {
    if n > 0 {
      Wraps(sn, 0);
      Wraps(sn, 1);
      CountingWraps(sn % U64 + 1, n - 1);
      CountingWraps(sn + 1, n - 1);
      assert Counting(sn % U64, n) == [Some(sn % U64)] + Counting(sn % U64 + 1, n - 1);
    }
  }

  lemma Wraps(a: nat, b: nat)
    ensures (a % U64 + b) % U64 == (a + b) % U64
  {
  }

  // ── One publisher ─────────────────────────────────────────────────────

  /** How a drain ends: with success, without having sent anything because the topic has no key, or
      with a write that failed when the link took no more frames, which costs one number. */
  ghost predicate EndsRight(d: Drained, sn: nat, budget: nat) {
    && Numbers(d.frames) == Counting(sn, |d.frames|)
    && d.sn < U64
    && match d.result {
         case Pass => d.sn == (sn + |d.frames|) % U64 && d.kept == []
         case Fail(InvalidArgument) => d.sn == sn && d.frames == []
         case Fail(Transport(_)) => d.sn == (sn + |d.frames| + 1) % U64 && |d.frames| == budget
         case Fail(Serialization(_)) => false
       }
  }

  lemma SpecEnds(mode: Mode, p: Publisher, gid: seq<byte>, sn: nat, ms: seq<Message>, budget: nat)
    requires |gid| <= 16 && AllFit(ms) && sn < U64
    ensures EndsRight(Spec(mode, p, gid, sn, ms, budget), sn, budget)
  {
    hide Numbers, Frames, Packing, Counting, KeyOf, Singles, Kept, AllFit;
    NumbersOfNone(sn);
    if p.locality != SessionLocal && KeyOf(p.topic).Some? {
      var key := KeyOf(p.topic).value;
      match mode
      case Batched => BatchedEnds(p.locality, key, gid, sn, ms, budget);
      case OneByOne => PlainEnds(p.locality, key, gid, sn, ms, budget);
    }
  }

  lemma BatchedEnds(locality: Locality, key: text, gid: seq<byte>, sn: nat, ms: seq<Message>, budget: nat)
    requires |gid| <= 16 && AllFit(ms) && |key| <= 256 && locality != SessionLocal
    ensures EndsRight(DrainSpec(locality, Some(key), gid, sn, ms, budget), sn, budget)
  {
    hide Numbers, Frames, Packing, Counting, Kept, AllFit, DrainSpec;
    var s := Sender(key, gid);
    var groups := Packing(s, sn, ms);
    FrameNumbers(s, sn, groups, Min(budget, |groups|));
    if |groups| <= budget {
      DrainPasses(locality, key, gid, sn, ms, budget);
    } else {
      DrainFails(locality, key, gid, sn, ms, budget);
    }
  }

  lemma PlainEnds(locality: Locality, key: text, gid: seq<byte>, sn: nat, ms: seq<Message>, budget: nat)
    requires |gid| <= 16 && AllFit(ms) && |key| <= 256 && locality != SessionLocal
    ensures EndsRight(PlainSpec(locality, Some(key), gid, sn, ms, budget), sn, budget)
  {
    hide Numbers, Frames, Singles, Counting, AllFit, PlainSpec;
    SinglesCount(ms);
    FrameNumbers(Sender(key, gid), sn, Singles(ms), Min(budget, |ms|));
    if |ms| <= budget {
      PlainPasses(locality, key, gid, sn, ms, budget);
    } else {
      PlainFails(locality, key, gid, sn, ms, budget);
    }
  }

  lemma NumbersOfNone(sn: nat)
    ensures Numbers([]) == Counting(sn, 0)
  {
  }

  lemma FrameNumbers(s: Sender, sn: nat, groups: seq<seq<Message>>, n: nat)
    requires s.Valid() && AllGroupsFit(groups) && n <= |groups|
    ensures Numbers(Frames(s, sn, groups)[..n]) == Counting(sn, n)
    ensures Frames(s, sn, groups)[..|groups|] == Frames(s, sn, groups)
  {
    hide Numbers, Frames, Counting;
    FramesContents(s, sn, groups);
    NumbersPrefix(Frames(s, sn, groups), n);
    CountingPrefix(sn, n, |groups|);
  }

  // ── All publishers ────────────────────────────────────────────────────

  /** Over all publishers, the frames of a drain have consecutive numbers, starting with the node's next
      number; a write that fails is the only thing that uses up a number without a frame on the wire. */
  lemma {:induction false} RunNumbers(mode: Mode, ps: seq<Publisher>, entries: seq<Entry>, gid: seq<byte>, net: Net)
    requires |gid| <= 16 && Covers(ps, entries, net) && net.sn < U64
    ensures var r := DrainRun(mode, ps, entries, gid, net);
      && Numbers(r.frames) == Counting(net.sn, |r.frames|)
      && r.net.budget == net.budget - |r.frames|
      && r.net.sn == (net.sn + |r.frames| + if r.result.Fail? && r.result.error.Transport? then 1 else 0) % U64
      && (r.result.Fail? && r.result.error.Transport? ==> r.net.budget == 0)
    decreases |ps|
  {
    hide Numbers, Counting, Spec, DispatchAll, Dispatched, AllFit, Covers;
    assert net.sn % U64 == net.sn;
    if ps == [] {
      NumbersOfNone(net.sn);
    } else {
      AfterCovers(mode, ps, entries, gid, net);
      var d := Spec(mode, ps[0], gid, net.sn, net.pending[ps[0]], net.budget);
      SpecEnds(mode, ps[0], gid, net.sn, net.pending[ps[0]], net.budget);
      if d.result.Pass? {
        var next := After(ps[0], entries, net, d);
        RunNumbers(mode, ps[1..], entries, gid, next);
        var rest := DrainRun(mode, ps[1..], entries, gid, next);
        NumbersConcat(d.frames, rest.frames);
        CountingConcat(net.sn, |d.frames|, |rest.frames|);
        CountingWraps(net.sn + |d.frames|, |rest.frames|);
        Wraps(net.sn + |d.frames|, |rest.frames|);
        Wraps(net.sn + |d.frames|, |rest.frames| + 1);
      }
    }
  }

  lemma BothPass(p: Publisher, gid: seq<byte>, sn: nat, sn': nat, ms: seq<Message>, budget: nat, budget': nat)
    requires |gid| <= 16 && AllFit(ms) && budget <= budget'
    requires Spec(OneByOne, p, gid, sn, ms, budget).result != Fail(Transport(Io))
    ensures var plain, batched := Spec(OneByOne, p, gid, sn, ms, budget), Spec(Batched, p, gid, sn', ms, budget');
      && batched.result == plain.result && batched.kept == plain.kept && batched.taken == plain.taken
      && |batched.frames| <= |plain.frames|
      && Contents(batched.frames).Some? && Contents(batched.frames) == Contents(plain.frames)
  {
    hide Contents, Frames, Packing, Pack, KeyOf, Singles, Kept, SeenAll, AllFit;
    ContentsOfNone();
    if p.locality != SessionLocal && KeyOf(p.topic).Some? {
      var s := Sender(KeyOf(p.topic).value, gid);
      PackingIsPack(s, sn', ms);
      BatchingRefines(s, sn', sn, ms);
      SinglesCount(ms);
    }
  }

  lemma ContentsOfNone()
    ensures Contents([]) == Some([])
  {
  }

  lemma PackingIsPack(s: Sender, sn: nat, ms: seq<Message>)
    requires s.Valid() && AllFit(ms)
    ensures AllFit([]) && Packing(s, sn, ms) == Pack(s, sn, [], ms)
  {
  }

  /** Batching refines sending one message per frame: whenever no write of the plain drain fails, the
      batched drain of the same queues ends with the same result, delivers the same messages in the same
      order to the network and the same ones to the local subscriptions, leaves the same queues and needs
      no more frames. */
  lemma {:induction false} BatchedRefinesPlain(ps: seq<Publisher>, entries: seq<Entry>, gid: seq<byte>, net: Net,
          net': Net)
    requires |gid| <= 16 && Covers(ps, entries, net) && Covers(ps, entries, net')
    requires net'.pending == net.pending && net'.inboxes == net.inboxes && net'.budget >= net.budget
    requires DrainRun(OneByOne, ps, entries, gid, net).result != Fail(Transport(Io))
    ensures var plain, batched := DrainRun(OneByOne, ps, entries, gid, net), DrainRun(Batched, ps, entries, gid, net');
      && batched.result == plain.result
      && Contents(batched.frames).Some? && Contents(batched.frames) == Contents(plain.frames)
      && batched.net.inboxes == plain.net.inboxes && batched.net.pending == plain.net.pending
      && |batched.frames| <= |plain.frames|
    decreases |ps|
  {
    hide Contents, Spec, DispatchAll, Dispatched, AllFit, Covers;
    ContentsOfNone();
    if ps != [] {
      AfterCovers(OneByOne, ps, entries, gid, net);
      AfterCovers(Batched, ps, entries, gid, net');
      var p, ms := ps[0], net.pending[ps[0]];
      var d, d' := Spec(OneByOne, p, gid, net.sn, ms, net.budget), Spec(Batched, p, gid, net'.sn, ms, net'.budget);
      BothPass(p, gid, net.sn, net'.sn, ms, net.budget, net'.budget);
      if d.result.Pass? {
        var next, next' := After(p, entries, net, d), After(p, entries, net', d');
        BatchedRefinesPlain(ps[1..], entries, gid, next, next');
        ContentsConcat(d.frames, DrainRun(OneByOne, ps[1..], entries, gid, next).frames);
        ContentsConcat(d'.frames, DrainRun(Batched, ps[1..], entries, gid, next').frames);
      }
    }
  }

  // ── What a passed drain delivers ──────────────────────────────────────

  /** The messages that a receiver should see: those of the publishers that are not session-local, publisher
      by publisher, in the order of each queue. A publisher that is registered twice has nothing left the
      second time. */
  ghost function Expected(ps: seq<Publisher>, gid: seq<byte>, pending: map<Publisher, seq<Message>>): seq<Heard>
    requires forall p | p in ps :: p in pending && (p.locality == SessionLocal || KeyOf(p.topic).Some?)
    decreases |ps|
  {
    if ps == [] then []
    else
      var p := ps[0];
      assert p in ps;
      (if p.locality == SessionLocal then [] else SeenAll(Sender(KeyOf(p.topic).value, gid), pending[p]))
      + Expected(ps[1..], gid, pending[p := []])
  }

  lemma PassedSpec(mode: Mode, p: Publisher, gid: seq<byte>, sn: nat, ms: seq<Message>, budget: nat)
    requires |gid| <= 16 && AllFit(ms) && Spec(mode, p, gid, sn, ms, budget).result == Pass
    ensures p.locality == SessionLocal || KeyOf(p.topic).Some?
    ensures var d := Spec(mode, p, gid, sn, ms, budget);
      && d.kept == [] && d.taken == |ms|
      && Contents(d.frames)
        == Some(if p.locality == SessionLocal then [] else SeenAll(Sender(KeyOf(p.topic).value, gid), ms))
  {
    hide Contents, Frames, Packing, Pack, KeyOf, Singles, Kept, SeenAll, AllFit;
    ContentsOfNone();
    if p.locality != SessionLocal && KeyOf(p.topic).Some? {
      var s := Sender(KeyOf(p.topic).value, gid);
      PackingIsPack(s, sn, ms);
      BatchingRefines(s, sn, sn, ms);
    }
  }

  /** A drain that passes empties every queue, and delivers each message exactly once, in the order of its queue. */
  lemma {:induction false} PassedRunDelivers(mode: Mode, ps: seq<Publisher>, entries: seq<Entry>, gid: seq<byte>,
          net: Net)
    requires |gid| <= 16 && Covers(ps, entries, net) && DrainRun(mode, ps, entries, gid, net).result == Pass
    ensures forall p | p in ps :: p in net.pending && (p.locality == SessionLocal || KeyOf(p.topic).Some?)
    ensures Contents(DrainRun(mode, ps, entries, gid, net).frames) == Some(Expected(ps, gid, net.pending))
    ensures DrainRun(mode, ps, entries, gid, net).net.pending.Keys == net.pending.Keys
    ensures forall p | p in net.pending ::
              DrainRun(mode, ps, entries, gid, net).net.pending[p] == if p in ps then [] else net.pending[p]
    decreases |ps|
  {
    hide Contents, Spec, DispatchAll, Dispatched, AllFit, Covers, KeyOf, SeenAll;
    ContentsOfNone();
    if ps != [] {
      AfterCovers(mode, ps, entries, gid, net);
      var p, ms := ps[0], net.pending[ps[0]];
      var d := Spec(mode, p, gid, net.sn, ms, net.budget);
      PassedSpec(mode, p, gid, net.sn, ms, net.budget);
      var next := After(p, entries, net, d);
      PassedRunDelivers(mode, ps[1..], entries, gid, next);
      ContentsConcat(d.frames, DrainRun(mode, ps[1..], entries, gid, next).frames);
      assert forall q | q in ps :: q == p || q in ps[1..];
    }
  }

  /** What a passed drain offers to subscription `d`: publisher by publisher, each message once for each matching
      entry; nothing from a remote-only publisher. */
  ghost function Offers(ps: seq<Publisher>, entries: seq<Entry>, d: Subscription,
          pending: map<Publisher, seq<Message>>): seq<seq<byte>>
    requires forall p | p in ps :: p in pending
    decreases |ps|
  {
    if ps == [] then []
    else
      var p := ps[0];
      assert p in ps;
      (if p.locality == Remote then [] else Repeated(Payloads(pending[p]), Matches(entries, p.topic, d)))
      + Offers(ps[1..], entries, d, pending[p := []])
  }

  /** A drain that passes leaves in every local subscription what was there and then these offers, as far as there
      was room. */
  lemma {:induction false} PassedRunOffers(mode: Mode, ps: seq<Publisher>, entries: seq<Entry>, gid: seq<byte>,
          net: Net, d: Subscription)
    requires |gid| <= 16 && Covers(ps, entries, net) && DrainRun(mode, ps, entries, gid, net).result == Pass
    requires d in net.inboxes
    ensures (forall p | p in ps :: p in net.pending) && d in DrainRun(mode, ps, entries, gid, net).net.inboxes
    ensures DrainRun(mode, ps, entries, gid, net).net.inboxes[d]
         == OfferAll(net.inboxes[d], d.queueCap, d.msgSize, Offers(ps, entries, d, net.pending))
    decreases |ps|
  {
    hide Contents, Spec, DispatchAll, Dispatched, AllFit, Covers, KeyOf, SeenAll, OfferAll, Matches, Repeated, Payloads;
    if ps == [] {
      NoOffers(net.inboxes[d], d);
    } else {
      DrainRunStep(mode, ps, entries, gid, net);
      var p, ms := ps[0], net.pending[ps[0]];
      var d' := Spec(mode, p, gid, net.sn, ms, net.budget);
      var next := After(p, entries, net, d');
      PassedSpec(mode, p, gid, net.sn, ms, net.budget);
      CoversTable(ps, entries, net);
      OneOfOffers(p, entries, net, ms, d);
      PassedRunOffers(mode, ps[1..], entries, gid, next, d);
      OfferAllConcat(net.inboxes[d], d.queueCap, d.msgSize,
                     if p.locality == Remote then [] else Repeated(Payloads(ms), Matches(entries, p.topic, d)),
                     Offers(ps[1..], entries, d, next.pending));
    }
  }

  lemma NoOffers(queue: seq<seq<byte>>, d: Subscription)
    ensures OfferAll(queue, d.queueCap, d.msgSize, []) == queue
  {
  }

  lemma CoversTable(ps: seq<Publisher>, entries: seq<Entry>, net: Net)
    requires Covers(ps, entries, net)
    ensures forall p | p in ps :: p in net.pending
    ensures forall i | 0 <= i < |entries| :: entries[i].dispatch in net.inboxes
  {
  }

  lemma OneOfOffers(p: Publisher, entries: seq<Entry>, net: Net, ms: seq<Message>, d: Subscription)
    requires (forall i | 0 <= i < |entries| :: entries[i].dispatch in net.inboxes) && d in net.inboxes
    ensures DispatchAll(entries, p.topic, Dispatched(p.locality, ms, |ms|), net.inboxes)[d]
         == OfferAll(net.inboxes[d], d.queueCap, d.msgSize,
                     if p.locality == Remote then [] else Repeated(Payloads(ms), Matches(entries, p.topic, d)))
  {
    hide DispatchAll, Matches, OfferAll, Payloads;
    assert ms[..|ms|] == ms;
    LocalDeliveryIsOffers(entries, p.topic, Dispatched(p.locality, ms, |ms|), net.inboxes, d);
  }

  /** Session-local publishers send nothing and take no number. */
  lemma {:induction false} SessionLocalStaysHere(mode: Mode, ps: seq<Publisher>, entries: seq<Entry>, gid: seq<byte>,
          net: Net)
    requires |gid| <= 16 && Covers(ps, entries, net) && forall p | p in ps :: p.locality == SessionLocal
    ensures var run := DrainRun(mode, ps, entries, gid, net);
      run.frames == [] && run.result == Pass && run.net.sn == net.sn && run.net.budget == net.budget
    decreases |ps|
  {
    hide DispatchAll, Dispatched, AllFit, Covers, KeyOf;
    if ps != [] {
      DrainRunStep(mode, ps, entries, gid, net);
      assert ps[0] in ps && forall p | p in ps[1..] :: p in ps;
      var d := Spec(mode, ps[0], gid, net.sn, net.pending[ps[0]], net.budget);
      SessionLocalStaysHere(mode, ps[1..], entries, gid, After(ps[0], entries, net, d));
    }
  }

  // ── What a failed drain delivers ──────────────────────────────────────

  /** How the drain of one publisher fails: without a key nothing happens; otherwise its messages are cut into
      those that were written, those that are lost, at most 25 of them, and those that it keeps. */
  lemma FailedSpec(mode: Mode, p: Publisher, gid: seq<byte>, sn: nat, ms: seq<Message>, budget: nat)
    returns (acked: seq<Message>, lost: seq<Message>)
    requires |gid| <= 16 && AllFit(ms) && Spec(mode, p, gid, sn, ms, budget).result.Fail?
    ensures p.locality != SessionLocal
    ensures var d := Spec(mode, p, gid, sn, ms, budget);
      && ms == acked + lost + d.kept && |lost| <= (if mode == Batched then 25 else 1)
      && Contents(d.frames)
         == Some(if KeyOf(p.topic).Some? then SeenAll(Sender(KeyOf(p.topic).value, gid), acked) else [])
      && (KeyOf(p.topic).None? ==> d.result == Fail(InvalidArgument) && acked == lost == [] && d.frames == [])
      && (KeyOf(p.topic).Some? ==> d.result == Fail(Transport(Io)) && ms != [] && |d.frames| == budget)
  {
    hide Contents, Frames, Packing, Pack, KeyOf, Singles, Kept, Lost, Acked, SeenAll, AllFit, Flatten;
    ContentsOfNone();
    acked, lost := [], [];
    if KeyOf(p.topic).Some? {
      var s := Sender(KeyOf(p.topic).value, gid);
      match mode {
        case Batched => acked, lost := BatchFails(p.locality, s, sn, ms, budget);
        case OneByOne => acked, lost := PlainFailed(p.locality, s, sn, ms, budget);
      }
    }
  }

  lemma BatchFails(locality: Locality, s: Sender, sn: nat, ms: seq<Message>, budget: nat)
    returns (acked: seq<Message>, lost: seq<Message>)
    requires s.Valid() && AllFit(ms) && locality != SessionLocal
    requires DrainSpec(locality, Some(s.key), s.gid, sn, ms, budget).result.Fail?
    ensures var d := DrainSpec(locality, Some(s.key), s.gid, sn, ms, budget);
      && ms == acked + lost + d.kept && |lost| <= 25 && ms != [] && |d.frames| == budget
      && d.result == Fail(Transport(Io)) && Contents(d.frames) == Some(SeenAll(s, acked))
  {
    hide Contents, Frames, Packing, SeenAll, AllFit, Flatten, Kept, Lost, Acked;
    assert Sender(s.key, s.gid) == s;
    var groups := Packing(s, sn, ms);
    if |groups| > budget {
      acked, lost := Flatten(Acked(groups, budget)), Lost(groups, budget);
      DrainFails(locality, s.key, s.gid, sn, ms, budget);
      DrainConserves(groups, budget);
      LostBound(groups, budget);
      Pieces(groups, budget);
      AckedContents(s, sn, ms, budget);
      FramesCount(s, sn, groups);
    }
  }

  lemma {:induction false} FramesCount(s: Sender, sn: nat, groups: seq<seq<Message>>)
    requires s.Valid() && AllGroupsFit(groups)
    ensures |Frames(s, sn, groups)| == |groups|
    decreases |groups|
  {
    hide FrameOf, AllFit;
    if groups != [] {
      FramesCount(s, sn + 1, groups[1..]);
    }
  }

  lemma PlainFailed(locality: Locality, s: Sender, sn: nat, ms: seq<Message>, budget: nat)
    returns (acked: seq<Message>, lost: seq<Message>)
    requires s.Valid() && AllFit(ms) && locality != SessionLocal
    requires PlainSpec(locality, Some(s.key), s.gid, sn, ms, budget).result.Fail?
    ensures var d := PlainSpec(locality, Some(s.key), s.gid, sn, ms, budget);
      && ms == acked + lost + d.kept && |lost| == 1 && ms != [] && |d.frames| == budget
      && d.result == Fail(Transport(Io)) && Contents(d.frames) == Some(SeenAll(s, acked))
  {
    hide Contents, Frames, SeenAll, Singles, Flatten;
    assert Sender(s.key, s.gid) == s;
    if |ms| > budget {
      acked, lost := ms[..budget], [ms[budget]];
      assert ms == acked + lost + ms[budget + 1..];
      PlainFails(locality, s.key, s.gid, sn, ms, budget);
      SinglesPrefix(ms, budget);
      FlattenSingles(acked);
      FramesPrefix(s, sn, Singles(ms), budget);
      FramesContents(s, sn, Singles(acked));
      FramesCount(s, sn, Singles(acked));
    }
  }

  lemma {:induction false} SinglesPrefix(ms: seq<Message>, n: nat)
    requires AllFit(ms) && n <= |ms|
    ensures |Singles(ms)| == |ms| && Singles(ms)[..n] == Singles(ms[..n])
  {
    SinglesCount(ms);
    if n > 0 {
      SinglesPrefix(ms[1..], n - 1);
      assert ms[..n][1..] == ms[1..][..n - 1];
    }
  }

  lemma NothingExpected(gid: seq<byte>, pending: map<Publisher, seq<Message>>)
    ensures Expected([], gid, pending) == [] && forall a: seq<Heard> :: [] + a == a
  {
  }

  lemma RunOfNone(mode: Mode, ps: seq<Publisher>, entries: seq<Entry>, gid: seq<byte>, net: Net)
    requires |gid| <= 16 && Covers(ps, entries, net)
    ensures ps == [] ==> DrainRun(mode, ps, entries, gid, net).result == Pass
  {
  }

  lemma ExpectedCons(p: Publisher, ps: seq<Publisher>, gid: seq<byte>, pending: map<Publisher, seq<Message>>)
    requires forall q | q == p || q in ps :: q in pending && (q.locality == SessionLocal || KeyOf(q.topic).Some?)
    requires |gid| <= 16
    ensures Expected([p] + ps, gid, pending)
         == (if p.locality == SessionLocal then [] else SeenAll(Sender(KeyOf(p.topic).value, gid), pending[p]))
            + Expected(ps, gid, pending[p := []])
  {
    hide KeyOf, SeenAll;
    assert ([p] + ps)[1..] == ps;
  }

  /** A drain with outflow `run` failed at publisher `k`, of whose messages `acked` were written and `lost` are gone. */
  ghost predicate FailsAt(mode: Mode, ps: seq<Publisher>, gid: seq<byte>, pending: map<Publisher, seq<Message>>,
          run: Outflow, k: nat, acked: seq<Message>, lost: seq<Message>)
    requires |gid| <= 16
  {
    && k < |ps| && ps[k] !in ps[..k] && ps[k].locality != SessionLocal && ps[k] in pending
    && (forall p | p in ps[..k] :: p in pending && (p.locality == SessionLocal || KeyOf(p.topic).Some?))
    && run.net.pending.Keys == pending.Keys
    && pending[ps[k]] == acked + lost + run.net.pending[ps[k]] && |lost| <= (if mode == Batched then 25 else 1)
    && (forall p | p in pending && p != ps[k] :: run.net.pending[p] == if p in ps[..k] then [] else pending[p])
    && Contents(run.frames) == Some(Expected(ps[..k], gid, pending) + SeenOf(ps[k], gid, acked))
    && match KeyOf(ps[k].topic)
       case None => run.result == Fail(InvalidArgument) && acked == lost == []
       case Some(_) => run.result == Fail(Transport(Io)) && pending[ps[k]] != []
  }

  /** What a receiver reads of these messages of a publisher. */
  function SeenOf(p: Publisher, gid: seq<byte>, ms: seq<Message>): seq<Heard>
    requires |gid| <= 16
  {
    if KeyOf(p.topic).Some? then SeenAll(Sender(KeyOf(p.topic).value, gid), ms) else []
  }

  lemma FailsFirst(mode: Mode, ps: seq<Publisher>, entries: seq<Entry>, gid: seq<byte>, net: Net)
    returns (acked: seq<Message>, lost: seq<Message>)
    requires |gid| <= 16 && Covers(ps, entries, net) && ps != []
    requires ps[0] in net.pending && AllFit(net.pending[ps[0]]) && Covers([ps[0]], entries, net)
    requires Spec(mode, ps[0], gid, net.sn, net.pending[ps[0]], net.budget).result.Fail?
    ensures var d := Spec(mode, ps[0], gid, net.sn, net.pending[ps[0]], net.budget);
      FailsAt(mode, ps, gid, net.pending, Outflow(After(ps[0], entries, net, d), d.frames, d.result), 0, acked, lost)
  {
    hide Contents, Spec, DispatchAll, Dispatched, AllFit, Covers, KeyOf, SeenAll, Expected;
    NothingExpected(gid, net.pending);
    acked, lost := FailedSpec(mode, ps[0], gid, net.sn, net.pending[ps[0]], net.budget);
  }

  lemma FailsLater(mode: Mode, p: Publisher, ps: seq<Publisher>, gid: seq<byte>,
          pending: map<Publisher, seq<Message>>, frames: seq<seq<byte>>, run: Outflow, k: nat, acked: seq<Message>,
          lost: seq<Message>)
    requires |gid| <= 16 && p in pending && (p.locality == SessionLocal || KeyOf(p.topic).Some?)
    requires FailsAt(mode, ps, gid, pending[p := []], run, k, acked, lost)
    requires Contents(frames)
          == Some(if p.locality == SessionLocal then [] else SeenAll(Sender(KeyOf(p.topic).value, gid), pending[p]))
    ensures FailsAt(mode, [p] + ps, gid, pending, run.(frames := frames + run.frames), k + 1, acked, lost)
  {
    hide Contents, KeyOf, SeenAll, Expected, SeenOf;
    var all := [p] + ps;
    assert all[..k + 1] == [p] + ps[..k] && all[k + 1] == ps[k];
    assert p != ps[k];
    assert forall q :: q in all[..k + 1] <==> q == p || q in ps[..k];
    FailedContents(p, ps, gid, pending, frames, run, k, acked);
  }

  lemma FailedContents(p: Publisher, ps: seq<Publisher>, gid: seq<byte>, pending: map<Publisher, seq<Message>>,
          frames: seq<seq<byte>>, run: Outflow, k: nat, acked: seq<Message>)
    requires |gid| <= 16 && k < |ps| && p in pending && (p.locality == SessionLocal || KeyOf(p.topic).Some?)
    requires forall q | q in ps[..k] :: q in pending && (q.locality == SessionLocal || KeyOf(q.topic).Some?)
    requires Contents(frames)
          == Some(if p.locality == SessionLocal then [] else SeenAll(Sender(KeyOf(p.topic).value, gid), pending[p]))
    requires Contents(run.frames) == Some(Expected(ps[..k], gid, pending[p := []]) + SeenOf(ps[k], gid, acked))
    ensures Contents(frames + run.frames) == Some(Expected([p] + ps[..k], gid, pending) + SeenOf(ps[k], gid, acked))
  {
    hide Contents, KeyOf, SeenAll, Expected, SeenOf;
    ExpectedCons(p, ps[..k], gid, pending);
    ContentsConcat(frames, run.frames);
    Joined(Contents(frames).value, Expected(ps[..k], gid, pending[p := []]), SeenOf(ps[k], gid, acked));
  }

  lemma Joined(a: seq<Heard>, b: seq<Heard>, c: seq<Heard>)
    ensures a + (b + c) == a + b + c
  {
  }

  /** A drain that fails: the publishers before the failing one are read in full, that one up to the messages in
      the frames that were written, and the later ones are untouched. Over all publishers at most 25
      messages are lost, all of them of the failing one. */
  lemma {:induction false} FailedRunDelivers(mode: Mode, ps: seq<Publisher>, entries: seq<Entry>, gid: seq<byte>,
          net: Net)
    returns (k: nat, acked: seq<Message>, lost: seq<Message>)
    requires |gid| <= 16 && Covers(ps, entries, net) && DrainRun(mode, ps, entries, gid, net).result.Fail?
    ensures FailsAt(mode, ps, gid, net.pending, DrainRun(mode, ps, entries, gid, net), k, acked, lost)
    decreases |ps|
  {
    hide Contents, Spec, DispatchAll, Dispatched, AllFit, Covers, KeyOf, SeenAll, Expected, DrainRun, FailsAt;
    RunOfNone(mode, ps, entries, gid, net);
    DrainRunStep(mode, ps, entries, gid, net);
    var p, ms := ps[0], net.pending[ps[0]];
    var d := Spec(mode, p, gid, net.sn, ms, net.budget);
    if d.result.Fail? {
      k := 0;
      acked, lost := FailsFirst(mode, ps, entries, gid, net);
    } else {
      var next := After(p, entries, net, d);
      PassedSpec(mode, p, gid, net.sn, ms, net.budget);
      k, acked, lost := FailedRunDelivers(mode, ps[1..], entries, gid, next);
      FailsLater(mode, p, ps[1..], gid, net.pending, d.frames, DrainRun(mode, ps[1..], entries, gid, next), k,
                 acked, lost);
      k := k + 1;
      assert [p] + ps[1..] == ps;
    }
  }

  // ── Steps of the loop over the publishers ─────────────────────────────

  /** The queues of the publishers, as a drain finds them. */
  ghost function PendingOf(ps: seq<Publisher>): (m: map<Publisher, seq<Message>>)
    reads ps
    ensures m.Keys == set p | p in ps
  {
    map p | p in ps :: ClipAll(p.Pending())
  }

  lemma StartCovers(ps: seq<Publisher>, entries: seq<Entry>, sn: nat, budget: nat)
    ensures Covers(ps, entries, Net(sn, budget, PendingOf(ps), QueuesOf(entries)))
  {
    hide ClipAll, Publisher.Pending, AllFit;
    assert forall p | p in ps :: p in PendingOf(ps);
    assert forall i | 0 <= i < |entries| :: entries[i].dispatch in Subs(entries);
  }

  /** The rest of a drain starts where the drain of its first publisher ended. */
  lemma DrainRunStep(mode: Mode, ps: seq<Publisher>, entries: seq<Entry>, gid: seq<byte>, net: Net)
    requires ps != [] && |gid| <= 16 && Covers(ps, entries, net)
    ensures ps[0] in net.pending && AllFit(net.pending[ps[0]]) && Covers([ps[0]], entries, net)
    ensures var d := Spec(mode, ps[0], gid, net.sn, net.pending[ps[0]], net.budget);
      var next := After(ps[0], entries, net, d);
      && Covers(ps[1..], entries, next)
      && (d.result.Fail? ==> DrainRun(mode, ps, entries, gid, net) == Outflow(next, d.frames, d.result))
      && (d.result.Pass? ==>
            var rest := DrainRun(mode, ps[1..], entries, gid, next);
            DrainRun(mode, ps, entries, gid, net) == Outflow(rest.net, d.frames + rest.frames, rest.result))
  {
    hide Spec, DispatchAll, Dispatched, AllFit, Covers;
    AfterCovers(mode, ps, entries, gid, net);
  }

  /** After `i` publishers, what the whole drain does is what has been done and what the drain of the rest does. */
  ghost predicate Left(mode: Mode, ps: seq<Publisher>, i: nat, entries: seq<Entry>, gid: seq<byte>, before: Net,
          now: Net, frames: seq<seq<byte>>) {
    && |gid| <= 16 && i <= |ps| && Covers(ps, entries, before) && Covers(ps[i..], entries, now)
    && var rest := DrainRun(mode, ps[i..], entries, gid, now);
       DrainRun(mode, ps, entries, gid, before) == Outflow(rest.net, frames + rest.frames, rest.result)
  }

  lemma LeftStart(mode: Mode, ps: seq<Publisher>, entries: seq<Entry>, gid: seq<byte>, net: Net)
    requires |gid| <= 16 && Covers(ps, entries, net)
    ensures Left(mode, ps, 0, entries, gid, net, net, [])
  {
    hide DrainRun, Covers;
    assert ps[0..] == ps;
    var run := DrainRun(mode, ps, entries, gid, net);
    assert [] + run.frames == run.frames;
  }

  lemma LeftStep(mode: Mode, ps: seq<Publisher>, i: nat, entries: seq<Entry>, gid: seq<byte>, before: Net, now: Net,
          frames: seq<seq<byte>>)
    requires i < |ps| && Left(mode, ps, i, entries, gid, before, now, frames)
    ensures ps[i] in now.pending && AllFit(now.pending[ps[i]]) && Covers([ps[i]], entries, now)
    ensures var d := Spec(mode, ps[i], gid, now.sn, now.pending[ps[i]], now.budget);
      var next := After(ps[i], entries, now, d);
      && (d.result.Fail? ==> DrainRun(mode, ps, entries, gid, before) == Outflow(next, frames + d.frames, d.result))
      && (d.result.Pass? ==> Left(mode, ps, i + 1, entries, gid, before, next, frames + d.frames))
  {
    hide Spec, DrainRun, AllFit, Covers, After;
    DrainRunStep(mode, ps[i..], entries, gid, now);
    assert ps[i..][0] == ps[i] && ps[i..][1..] == ps[i + 1..];
    var d := Spec(mode, ps[i], gid, now.sn, now.pending[ps[i]], now.budget);
    if d.result.Pass? {
      var rest := DrainRun(mode, ps[i + 1..], entries, gid, After(ps[i], entries, now, d));
      assert frames + (d.frames + rest.frames) == frames + d.frames + rest.frames;
    }
  }

  lemma LeftEnd(mode: Mode, ps: seq<Publisher>, entries: seq<Entry>, gid: seq<byte>, before: Net, now: Net,
          frames: seq<seq<byte>>)
    requires Left(mode, ps, |ps|, entries, gid, before, now, frames)
    ensures DrainRun(mode, ps, entries, gid, before) == Outflow(now, frames, Pass)
  {
    assert ps[|ps|..] == [] && frames + [] == frames;
  }
}
