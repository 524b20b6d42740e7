/** The sequence numbers of the frames on a link. */
module Numbering {
  import opened Common
  import opened Grammar
  import opened Decode
  import opened Completeness
  import opened Transmit
  import opened Queues
  import opened Routing
  import opened Refinement

  /** The number of a frame, for messages that are frames. */
  function SnOf(message: seq<byte>): Option<nat> {
    match FrameHeader(message)
    case Ok((sn, _, _)) => Some(sn)
    case Err(_) => None
  }

  /** The numbers of all frames among the messages, in order. */
  function Sns(sent: seq<seq<byte>>): seq<Option<nat>> {
    if sent == [] then []
    else (if SnOf(sent[0]).Some? then [SnOf(sent[0])] else []) + Sns(sent[1..])
  }

  /** The frames sent so far are numbered 0, 1, 2 and so on, and while the link is up the next one
      gets the next number. */
  ghost predicate GapFree(sent: seq<seq<byte>>, sn: nat, budget: nat) {
    && Sns(sent) == Counting(0, |Sns(sent)|)
    && (budget > 0 ==> sn == |Sns(sent)| % U64)
  }

  lemma {:induction false} SnsConcat(a: seq<seq<byte>>, b: seq<seq<byte>>)
    ensures Sns(a + b) == Sns(a) + Sns(b)
  {
    hide SnOf;
    if a == [] {
      assert a + b == b;
    } else {
      SnsConcat(a[1..], b);
      assert (a + b)[0] == a[0] && (a + b)[1..] == a[1..] + b;
    }
  }

  lemma {:induction false} SnsOfNumbers(fs: seq<seq<byte>>, sn: nat)
    requires Numbers(fs) == Counting(sn, |fs|)
    ensures Sns(fs) == Counting(sn, |fs|)
    decreases |fs|
  {
    hide FrameHeader, Messages;
    if fs != [] {
      var rest := Counting(sn + 1, |fs| - 1);
      assert Counting(sn, |fs|) == [Some(sn % U64)] + rest;
      assert Numbers(fs[1..]) == Numbers(fs)[1..] == rest;
      SnsOfNumbers(fs[1..], sn + 1);
      assert Numbers(fs)[0] == Some(sn % U64);
    }
  }

  lemma CountingOn(m: nat, n: nat)
    ensures Counting(0, m) + Counting(m % U64, n) == Counting(0, m + n) && |Counting(0, m + n)| == m + n
  {
    hide Counting;
    CountingWraps(m, n);
    CountingConcat(0, m, n);
    CountingPrefix(0, 0, m + n);
  }

  /** A run of frames that continues the numbering. */
  lemma MoreFrames(sent: seq<seq<byte>>, sn: nat, budget: nat, frames: seq<seq<byte>>, sn': nat, budget': nat)
    requires GapFree(sent, sn, budget) && Numbers(frames) == Counting(sn, |frames|)
    requires frames != [] ==> budget > 0
    requires budget' > 0 ==> budget > 0 && sn' == (sn + |frames|) % U64
    ensures GapFree(sent + frames, sn', budget')
  {
    hide Counting, Numbers, Sns;
    SnsConcat(sent, frames);
    SnsOfNumbers(frames, sn);
    if frames == [] {
      assert sent + frames == sent;
    } else {
      CountingOn(|Sns(sent)|, |frames|);
      Wraps(|Sns(sent)|, |frames|);
    }
    if budget' > 0 {
      Wraps(|Sns(sent)|, |frames|);
      CountingPrefix(sn, 0, |frames|);
    }
  }

  /** One message with a frame header continues the numbering, whatever its body. */
  lemma NextFrame(sent: seq<seq<byte>>, sn: nat, budget: nat, body: seq<byte>)
    requires GapFree(sent, sn, budget) && budget > 0 && sn < U64
    ensures GapFree(sent + [FrameHeaderBytes(sn, true, []) + body], (sn + 1) % U64, budget - 1)
  {
    hide Counting, Sns;
    SnsConcat(sent, [FrameHeaderBytes(sn, true, []) + body]);
    OneFrame(sn, body);
    CountingOn(|Sns(sent)|, 1);
    Wraps(|Sns(sent)|, 1);
  }

  lemma OneFrame(sn: nat, body: seq<byte>)
    requires sn < U64
    ensures Sns([FrameHeaderBytes(sn, true, []) + body]) == Counting(sn, 1)
  {
    hide FrameHeader, FrameHeaderBytes;
    FrameHeaderComplete(sn, true, [], body);
    var f := FrameHeaderBytes(sn, true, []) + body;
    assert Sns([f][1..]) == [];
    assert Counting(sn + 1, 0) == [];
  }

  /** A message that is not a frame does not matter. */
  lemma NotAFrame(sent: seq<seq<byte>>, sn: nat, budget: nat, message: seq<byte>)
    requires GapFree(sent, sn, budget) && budget > 0 && SnOf(message) == None
    ensures GapFree(sent + [message], sn, budget - 1)
  {
    hide Counting;
    SnsConcat(sent, [message]);
    assert [message][1..] == [];
    assert Sns(sent) + [] == Sns(sent);
  }

  /** A number that was taken for nothing leaves a gap, as long as the link is up. */
  lemma SkippedNumber(sent: seq<seq<byte>>, sn: nat, budget: nat)
    requires GapFree(sent, sn, budget) && budget > 0
    ensures !GapFree(sent, (sn + 1) % U64, budget)
  {
  }

  /** The numbering stays without a gap if and only if the link is down, where no frame can follow. */
  lemma SkippedOnLink(sent: seq<seq<byte>>, sn: nat, budget: nat)
    requires GapFree(sent, sn, budget)
    ensures GapFree(sent, (sn + 1) % U64, budget) <==> budget == 0
  {
    if budget > 0 {
      SkippedNumber(sent, sn, budget);
    }
  }

  /** Draining keeps the numbering, also when it fails. */
  lemma DrainKeepsNumbers(mode: Mode, ps: seq<Publisher>, entries: seq<Entry>, gid: seq<byte>, net: Net,
          sent: seq<seq<byte>>)
    requires |gid| <= 16 && Covers(ps, entries, net) && net.sn < U64 && GapFree(sent, net.sn, net.budget)
    ensures var run := DrainRun(mode, ps, entries, gid, net);
      GapFree(sent + run.frames, run.net.sn, run.net.budget)
  {
    hide DrainRun, Covers, Numbers, Counting, GapFree;
    RunNumbers(mode, ps, entries, gid, net);
    var run := DrainRun(mode, ps, entries, gid, net);
    MoreFrames(sent, net.sn, net.budget, run.frames, run.net.sn, run.net.budget);
  }

  // ── Keepalives ────────────────────────────────────────────────────────

  function Keepalives(sent: seq<seq<byte>>): nat {
    if sent == [] then 0 else (if sent[0] == [KEEP_ALIVE] then 1 else 0) + Keepalives(sent[1..])
  }

  lemma {:induction false} KeepalivesConcat(a: seq<seq<byte>>, b: seq<seq<byte>>)
    ensures Keepalives(a + b) == Keepalives(a) + Keepalives(b)
  {
    if a == [] {
      assert a + b == b;
    } else {
      KeepalivesConcat(a[1..], b);
      assert (a + b)[0] == a[0] && (a + b)[1..] == a[1..] + b;
    }
  }

  lemma {:induction false} FramesAreNotKeepalives(fs: seq<seq<byte>>, sn: nat)
    requires Numbers(fs) == Counting(sn, |fs|)
    ensures Keepalives(fs) == 0
    decreases |fs|
  {
    hide Messages, Skip;
    if fs != [] {
      assert Counting(sn, |fs|) == [Some(sn % U64)] + Counting(sn + 1, |fs| - 1);
      assert Numbers(fs[1..]) == Numbers(fs)[1..] == Counting(sn + 1, |fs| - 1);
      FramesAreNotKeepalives(fs[1..], sn + 1);
      assert Numbers(fs)[0] == Some(sn % U64);
      assert Receive(fs[0]).Some? && FrameHeader(fs[0]).Ok?;
    }
  }

  /** Draining sends no keepalives. */
  lemma DrainSendsNoKeepalive(mode: Mode, ps: seq<Publisher>, entries: seq<Entry>, gid: seq<byte>, net: Net,
          sent: seq<seq<byte>>)
    requires |gid| <= 16 && Covers(ps, entries, net) && net.sn < U64
    ensures Keepalives(sent + DrainRun(mode, ps, entries, gid, net).frames) == Keepalives(sent)
  {
    hide DrainRun, Covers, Numbers, Counting, Keepalives;
    RunNumbers(mode, ps, entries, gid, net);
    var frames := DrainRun(mode, ps, entries, gid, net).frames;
    FramesAreNotKeepalives(frames, net.sn);
    KeepalivesConcat(sent, frames);
  }

  lemma OneKeepalive(sent: seq<seq<byte>>)
    ensures Keepalives(sent + [[KEEP_ALIVE]]) == Keepalives(sent) + 1
  {
    KeepalivesConcat(sent, [[KEEP_ALIVE]]);
    var one: seq<seq<byte>> := [[KEEP_ALIVE]];
    assert one[1..] == [];
  }
}
