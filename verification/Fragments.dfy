/** Reassembly of fragmented messages. */
module Fragments {
  import opened Common

  type E = TransportError

  datatype Fragment = Fragment(more: bool, payload: seq<byte>)

  // ── Specification: a message under way, or none ───────────────────────

  function Begun(pending: Option<seq<byte>>): seq<byte> {
    if pending.Some? then pending.value else []
  }

  /** One fragment: what is under way afterwards, and what comes out. A message that grows beyond the
      capacity is dropped, and with the next fragment another one begins. */
  function Step(pending: Option<seq<byte>>, cap: nat, f: Fragment): (Option<seq<byte>>, Result<Option<seq<byte>>, E>) {
    var all := Begun(pending) + f.payload;
    if |all| > cap then (None, Err(FrameTooLarge))
    else if f.more then (Some(all), Ok(None))
    else (None, Ok(Some(all)))
  }

  /** What is under way after a run of fragments, and everything that came out. */
  function Assemble(pending: Option<seq<byte>>, cap: nat, fs: seq<Fragment>): (Option<seq<byte>>, seq<seq<byte>>)
    decreases |fs|
  {
    if fs == [] then (pending, [])
    else
      var (next, out) := Step(pending, cap, fs[0]);
      var (end, rest) := Assemble(next, cap, fs[1..]);
      (end, (if out.Ok? && out.value.Some? then [out.value.value] else []) + rest)
  }

  // ── The assembler ─────────────────────────────────────────────────────

  class FragmentAssembler {
    const buf: array<byte>
    var len: nat
    var active: bool

    ghost predicate Valid()
      reads this
    {
      len <= buf.Length
    }

    function Pending(): Option<seq<byte>>
      requires Valid()
      reads this, buf
    {
      if active then Some(buf[..len]) else None
    }

    constructor (cap: nat)
      ensures Valid() && fresh(buf) && buf.Length == cap && Pending() == None
    {
      buf := new byte[cap];
      len, active := 0, false;
    }

    method Feed(more: bool, payload: seq<byte>) returns (r: Result<Option<seq<byte>>, E>)
      requires Valid()
      modifies this, buf
      ensures Valid() && (Pending(), r) == Step(old(Pending()), buf.Length, Fragment(more, payload))
    {
      if !active {
        len, active := 0, true;
      }
      ghost var done := buf[..len];
      var newLen := len + |payload|;
      if newLen > buf.Length {
        Reset();
        return Err(FrameTooLarge);
      }
      forall i | 0 <= i < |payload| {
        buf[len + i] := payload[i];
      }
      len := newLen;
      assert buf[..len] == done + payload;
      if more {
        return Ok(None);
      }
      active := false;
      return Ok(Some(buf[..len]));
    }

    method Reset()
      modifies this
      ensures Valid() && Pending() == None
    {
      len, active := 0, false;
    }
  }

  // ── Streams of fragmented messages ────────────────────────────────────

  function Concat(pieces: seq<seq<byte>>): seq<byte> {
    if pieces == [] then [] else pieces[0] + Concat(pieces[1..])
  }

  /** The fragments of a message that was cut into pieces: all but the last say that more follows. */
  function Cuts(pieces: seq<seq<byte>>): seq<Fragment> {
    if pieces == [] then [] else [Fragment(|pieces| > 1, pieces[0])] + Cuts(pieces[1..])
  }

  /** The fragments of several messages, one message after the other. */
  function Train(messages: seq<seq<seq<byte>>>): seq<Fragment> {
    if messages == [] then [] else Cuts(messages[0]) + Train(messages[1..])
  }

  function ConcatAll(messages: seq<seq<seq<byte>>>): seq<seq<byte>> {
    if messages == [] then [] else [Concat(messages[0])] + ConcatAll(messages[1..])
  }

  lemma {:induction false} AssembleConcat(pending: Option<seq<byte>>, cap: nat, a: seq<Fragment>, b: seq<Fragment>)
    ensures var (mid, first) := Assemble(pending, cap, a);
      var (end, second) := Assemble(mid, cap, b);
      Assemble(pending, cap, a + b) == (end, first + second)
    decreases |a|
  {
    hide Step;
    if a == [] {
      assert a + b == b;
      assert [] + Assemble(pending, cap, b).1 == Assemble(pending, cap, b).1;
    } else {
      var (next, out) := Step(pending, cap, a[0]);
      AssembleConcat(next, cap, a[1..], b);
      assert (a + b)[0] == a[0] && (a + b)[1..] == a[1..] + b;
      var o := if out.Ok? && out.value.Some? then [out.value.value] else [];
      var (mid, first) := Assemble(next, cap, a[1..]);
      var second := Assemble(mid, cap, b).1;
      assert o + (first + second) == o + first + second;
    }
  }

  // ── What comes out ────────────────────────────────────────────────────

  predicate Within(pending: Option<seq<byte>>, cap: nat) {
    |Begun(pending)| <= cap
  }

  /** How many of the pieces are gone after the last overflow, when `n` bytes are under way at the start;
      none if there is no overflow. The piece that overflows is gone too. */
  function Dropped(n: nat, cap: nat, pieces: seq<seq<byte>>): (d: nat)
    ensures d <= |pieces|
    decreases |pieces|
  {
    if pieces == [] then 0
    else if n + |pieces[0]| > cap then 1 + Dropped(0, cap, pieces[1..])
    else
      var d := Dropped(n + |pieces[0]|, cap, pieces[1..]);
      if d == 0 then 0 else 1 + d
  }

  /** There is an overflow if and only if everything together exceeds the capacity. What is left after it
      fits, and is strictly shorter than the pieces. */
  lemma {:induction false} DroppedWhen(n: nat, cap: nat, pieces: seq<seq<byte>>)
    requires n <= cap
    ensures Dropped(n, cap, pieces) == 0 <==> n + |Concat(pieces)| <= cap
    ensures var d := Dropped(n, cap, pieces);
      d > 0 ==> |Concat(pieces[d..])| <= cap && |Concat(pieces[d..])| < |Concat(pieces)|
    decreases |pieces|
  {
    if pieces != [] {
      var d, first, rest := Dropped(n, cap, pieces), pieces[0], pieces[1..];
      if n + |first| > cap {
        DroppedWhen(0, cap, rest);
        assert pieces[d..] == rest[d - 1..];
        assert rest[0..] == rest;
      } else {
        DroppedWhen(n + |first|, cap, rest);
        if d > 0 {
          assert pieces[d..] == rest[d - 1..];
        }
      }
    }
  }

  /** Exactly what comes out of the fragments of a message: everything, behind the bytes that were under way,
      if all of it fits; otherwise the pieces after the last overflow, or nothing when the last piece overflows. */
  function Out(pending: Option<seq<byte>>, cap: nat, pieces: seq<seq<byte>>): seq<seq<byte>> {
    var d := Dropped(|Begun(pending)|, cap, pieces);
    if d == 0 then [Begun(pending) + Concat(pieces)]
    else if d == |pieces| then []
    else [Concat(pieces[d..])]
  }

  lemma CutsStep(pieces: seq<seq<byte>>)
    requires pieces != []
    ensures Cuts(pieces) != [] && Cuts(pieces)[0] == Fragment(|pieces| > 1, pieces[0])
    ensures Cuts(pieces)[1..] == Cuts(pieces[1..])
  {
  }

  /** A message leaves nothing under way, whatever comes out of it. When it is too long for what is under way
      already, this is at most a strictly shorter rest of it, which fits. */
  lemma WhatComesOut(pending: Option<seq<byte>>, cap: nat, pieces: seq<seq<byte>>)
    requires pieces != [] && Within(pending, cap)
    ensures Assemble(pending, cap, Cuts(pieces)) == (None, Out(pending, cap, pieces))
    ensures |Begun(pending)| + |Concat(pieces)| <= cap <==>
        Out(pending, cap, pieces) == [Begun(pending) + Concat(pieces)]
    ensures |Begun(pending)| + |Concat(pieces)| > cap && Out(pending, cap, pieces) != [] ==>
      exists k | 0 < k < |pieces| ::
        && Out(pending, cap, pieces) == [Concat(pieces[k..])]
        && |Concat(pieces[k..])| <= cap && |Concat(pieces[k..])| < |Concat(pieces)|
  {
    hide Assemble, Cuts, Concat, Dropped;
    ComesOut(pending, cap, pieces);
    DroppedWhen(|Begun(pending)|, cap, pieces);
    var d := Dropped(|Begun(pending)|, cap, pieces);
    if 0 < d < |pieces| {
      assert Out(pending, cap, pieces) == [Concat(pieces[d..])];
      assert |Begun(pending) + Concat(pieces)| >= |Concat(pieces)| > |Concat(pieces[d..])|;
    }
  }

  lemma {:induction false} ComesOut(pending: Option<seq<byte>>, cap: nat, pieces: seq<seq<byte>>)
    requires pieces != [] && Within(pending, cap)
    ensures Assemble(pending, cap, Cuts(pieces)) == (None, Out(pending, cap, pieces))
    decreases |pieces|
  {
    hide Cuts;
    CutsStep(pieces);
    var first, rest := pieces[0], pieces[1..];
    var (next, out) := Step(pending, cap, Cuts(pieces)[0]);
    var all := Begun(pending) + first;
    assert all + Concat(rest) == Begun(pending) + Concat(pieces);
    if |pieces| > 1 {
      ComesOut(next, cap, rest);
      OutStep(pending, cap, pieces, next);
      assert [] + Out(next, cap, rest) == Out(next, cap, rest);
    } else {
      NoCuts();
      assert rest == [] && Cuts(rest) == [] && Concat(rest) == [];
      OneFragment(pending, cap, Cuts(pieces));
      assert Begun(pending) + Concat(pieces) == all;
      assert Dropped(0, cap, rest) == 0 && Dropped(|all|, cap, rest) == 0;
    }
  }

  lemma OneFragment(pending: Option<seq<byte>>, cap: nat, fs: seq<Fragment>)
    requires fs != [] && fs[1..] == []
    ensures var (next, out) := Step(pending, cap, fs[0]);
      Assemble(pending, cap, fs) == (next, if out.Ok? && out.value.Some? then [out.value.value] else [])
  {
    hide Step;
    var (next, out) := Step(pending, cap, fs[0]);
    assert Assemble(next, cap, []) == (next, []);
    var o := if out.Ok? && out.value.Some? then [out.value.value] else [];
    assert o + [] == o;
  }

  lemma NoCuts()
    ensures Cuts([]) == [] && Concat([]) == []
  {
  }

  lemma OutStep(pending: Option<seq<byte>>, cap: nat, pieces: seq<seq<byte>>, next: Option<seq<byte>>)
    requires |pieces| > 1 && Within(pending, cap)
    requires next == Step(pending, cap, Fragment(true, pieces[0])).0
    ensures Within(next, cap) && Out(pending, cap, pieces) == Out(next, cap, pieces[1..])
  {
    var d, rest := Dropped(|Begun(pending)|, cap, pieces), pieces[1..];
    assert Begun(pending) + pieces[0] + Concat(rest) == Begun(pending) + Concat(pieces);
    assert [] + Concat(rest) == Concat(rest);
    if d > 0 {
      assert pieces[d..] == rest[d - 1..];
      assert rest[0..] == rest;
    }
  }

  /** A message comes out as it was sent if and only if nothing but empty fragments is under way and it is
      within the capacity. Both can be checked before its first fragment is fed. */
  lemma Intact(pending: Option<seq<byte>>, cap: nat, pieces: seq<seq<byte>>)
    requires pieces != [] && Within(pending, cap)
    ensures Assemble(pending, cap, Cuts(pieces)).1 == [Concat(pieces)] <==>
        Begun(pending) == [] && |Concat(pieces)| <= cap
  {
    hide Assemble, Cuts, Concat, Dropped;
    ComesOut(pending, cap, pieces);
    DroppedWhen(|Begun(pending)|, cap, pieces);
    assert Begun(pending) == [] ==> Begun(pending) + Concat(pieces) == Concat(pieces);
    assert Begun(pending) != [] ==> |Begun(pending) + Concat(pieces)| > |Concat(pieces)|;
  }

  lemma {:induction false} AtMostOnePerMessage(cap: nat, messages: seq<seq<seq<byte>>>)
    requires forall m | m in messages :: m != []
    ensures Assemble(None, cap, Train(messages)).0 == None
    ensures |Assemble(None, cap, Train(messages)).1| <= |messages|
  {
    hide Cuts, Step, Dropped;
    if messages != [] {
      assert messages[0] in messages && forall m | m in messages[1..] :: m in messages;
      ComesOut(None, cap, messages[0]);
      AtMostOnePerMessage(cap, messages[1..]);
      AssembleConcat(None, cap, Cuts(messages[0]), Train(messages[1..]));
    }
  }

  /** Whatever pieces the messages of a stream were cut into, what comes out is exactly the original
      messages, in order, if and only if every one of them is within the capacity. */
  lemma {:induction false} StreamReassembled(cap: nat, messages: seq<seq<seq<byte>>>)
    requires forall m | m in messages :: m != []
    ensures Assemble(None, cap, Train(messages)).0 == None
    ensures Assemble(None, cap, Train(messages)).1 == ConcatAll(messages)
       <==> forall m | m in messages :: |Concat(m)| <= cap
  {
    hide Step, Cuts, Concat, Dropped;
    AtMostOnePerMessage(cap, messages);
    if messages != [] {
      var first, rest := messages[0], messages[1..];
      assert first in messages && forall m | m in rest :: m in messages;
      ComesOut(None, cap, first);
      Intact(None, cap, first);
      AtMostOnePerMessage(cap, rest);
      AssembleConcat(None, cap, Cuts(first), Train(rest));
      StreamReassembled(cap, rest);
      assert forall m | m in messages :: m == first || m in rest;
      assert ConcatAll(messages)[0] == Concat(first) && ConcatAll(messages)[1..] == ConcatAll(rest);
      SameLength(messages);
      SameLength(rest);
      var out, later := Assemble(None, cap, Cuts(first)).1, Assemble(None, cap, Train(rest)).1;
      if |out| == 1 {
        assert (out + later)[0] == out[0] && (out + later)[1..] == later;
      }
    }
  }

  lemma {:induction false} SameLength(messages: seq<seq<seq<byte>>>)
    ensures |ConcatAll(messages)| == |messages|
  {
    if messages != [] {
      SameLength(messages[1..]);
    }
  }

  // ── An abandoned message ──────────────────────────────────────────────

  /** The fragments of a message whose end never came. */
  function Started(pieces: seq<seq<byte>>): seq<Fragment> {
    if pieces == [] then [] else [Fragment(true, pieces[0])] + Started(pieces[1..])
  }

  /** What an abandoned message leaves under way: its pieces after the last overflow. */
  function Leftover(pending: Option<seq<byte>>, cap: nat, abandoned: seq<seq<byte>>): Option<seq<byte>> {
    var d := Dropped(|Begun(pending)|, cap, abandoned);
    if abandoned == [] then pending
    else if d == 0 then Some(Begun(pending) + Concat(abandoned))
    else if d == |abandoned| then None
    else Some(Concat(abandoned[d..]))
  }

  lemma {:induction false} WhatIsLeft(pending: Option<seq<byte>>, cap: nat, abandoned: seq<seq<byte>>)
    requires Within(pending, cap)
    ensures Assemble(pending, cap, Started(abandoned)) == (Leftover(pending, cap, abandoned), [])
    ensures Within(Leftover(pending, cap, abandoned), cap)
    decreases |abandoned|
  {
    if abandoned != [] {
      var rest := abandoned[1..];
      var next := Step(pending, cap, Fragment(true, abandoned[0])).0;
      WhatIsLeft(next, cap, rest);
      LeftoverStep(pending, cap, abandoned, next);
      var f := Fragment(true, abandoned[0]);
      assert Started(abandoned)[0] == f && Started(abandoned)[1..] == Started(rest);
      assert [] + Assemble(next, cap, Started(rest)).1 == Assemble(next, cap, Started(rest)).1;
    }
  }

  lemma LeftoverStep(pending: Option<seq<byte>>, cap: nat, abandoned: seq<seq<byte>>, next: Option<seq<byte>>)
    requires abandoned != [] && Within(pending, cap)
    requires next == Step(pending, cap, Fragment(true, abandoned[0])).0
    ensures Leftover(pending, cap, abandoned) == Leftover(next, cap, abandoned[1..])
  {
    var d, rest := Dropped(|Begun(pending)|, cap, abandoned), abandoned[1..];
    assert Begun(pending) + abandoned[0] + Concat(rest) == Begun(pending) + Concat(abandoned);
    assert Begun(pending) + abandoned[0] + [] == Begun(pending) + abandoned[0];
    assert [] + Concat(rest) == Concat(rest);
    if d > 0 {
      assert abandoned[d..] == rest[d - 1..];
      assert rest[0..] == rest;
    }
  }

  /** The assembler does not look at sequence numbers. The message after an abandoned one comes out as it
      was sent if and only if it is within the capacity and the abandoned one left nothing under way: either
      what it carried after its last overflow is empty, or its last fragment overflowed. */
  lemma AbandonedIsJoined(pending: Option<seq<byte>>, cap: nat, abandoned: seq<seq<byte>>, pieces: seq<seq<byte>>)
    requires pieces != [] && Within(pending, cap)
    ensures Assemble(pending, cap, Started(abandoned) + Cuts(pieces))
         == (None, Out(Leftover(pending, cap, abandoned), cap, pieces))
    ensures Assemble(pending, cap, Started(abandoned) + Cuts(pieces)).1 == [Concat(pieces)]
       <==> Begun(Leftover(pending, cap, abandoned)) == [] && |Concat(pieces)| <= cap
  {
    hide Assemble, Concat, Cuts, Started, Leftover, Dropped, Out;
    var left := Leftover(pending, cap, abandoned);
    WhatIsLeft(pending, cap, abandoned);
    AssembleConcat(pending, cap, Started(abandoned), Cuts(pieces));
    ComesOut(left, cap, pieces);
    Intact(left, cap, pieces);
    var out := Out(left, cap, pieces);
    assert [] + out == out;
  }
}
