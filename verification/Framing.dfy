/** Length-prefixed frames over a byte stream, and the link of a session. */
module Framing {
  import opened Common

  type E = TransportError

  /** Two bytes of length, then the frame. */
  function Framed(f: seq<byte>): seq<byte> {
    Le(2, |f|) + f
  }

  function Stream(fs: seq<seq<byte>>): seq<byte> {
    if fs == [] then [] else Framed(fs[0]) + Stream(fs[1..])
  }

  /** The first frame of a stream and what follows it, for a buffer of `capacity` bytes. */
  function ReadOne(stream: seq<byte>, capacity: nat): (r: Result<(seq<byte>, seq<byte>), E>)
    ensures r.Ok? ==> |r.value.0| <= capacity && |r.value.1| < |stream|
  {
    if |stream| < 2 then Err(Io)
    else
      var len := LeValue(stream[..2]);
      if len == 0 then Ok(([], stream[2..]))
      else if len > capacity then Err(FrameTooLarge)
      else if len > |stream| - 2 then Err(Io)
      else Ok((stream[2..2 + len], stream[2 + len..]))
  }

  /** Reading `n` frames one after the other. */
  function ReadMany(stream: seq<byte>, capacity: nat, n: nat): Result<(seq<seq<byte>>, seq<byte>), E> {
    if n == 0 then Ok(([], stream))
    else
      var (f, rest) :- ReadOne(stream, capacity);
      var (fs, end) :- ReadMany(rest, capacity, n - 1);
      Ok(([f] + fs, end))
  }

  lemma ReadFramed(f: seq<byte>, rest: seq<byte>, capacity: nat)
    requires |f| < U16 && |f| <= capacity
    ensures ReadOne(Framed(f) + rest, capacity) == Ok((f, rest))
  {
    var s := Framed(f) + rest;
    Pow256Values();
    LeRoundTrip(2, |f|);
    assert s[..2] == Le(2, |f|);
    assert s[2..2 + |f|] == f;
    assert s[2 + |f|..] == rest;
  }

  /** A frame that is longer than the buffer is refused, and one of which not all has come is an end of the stream. */
  lemma ReadRefused(f: seq<byte>, rest: seq<byte>, n: nat, capacity: nat)
    requires |f| < U16 && n < |Framed(f)|
    ensures |f| > capacity ==> ReadOne(Framed(f) + rest, capacity) == Err(FrameTooLarge)
    ensures |f| <= capacity || n < 2 ==> ReadOne(Framed(f)[..n], capacity) == Err(Io)
  {
    Pow256Values();
    LeRoundTrip(2, |f|);
    assert (Framed(f) + rest)[..2] == Le(2, |f|);
    if n >= 2 {
      assert Framed(f)[..n][..2] == Le(2, |f|);
    }
  }

  /** What was written frame by frame is read back frame by frame, in order, whatever follows. */
  lemma {:induction false} StreamRoundTrip(fs: seq<seq<byte>>, rest: seq<byte>, capacity: nat)
    requires forall i | 0 <= i < |fs| :: |fs[i]| < U16 && |fs[i]| <= capacity
    ensures ReadMany(Stream(fs) + rest, capacity, |fs|) == Ok((fs, rest))
    decreases |fs|
  {
    hide ReadOne, Framed;
    if fs == [] {
      assert Stream(fs) + rest == rest;
    } else {
      ReadFramed(fs[0], Stream(fs[1..]) + rest, capacity);
      StreamRoundTrip(fs[1..], rest, capacity);
      assert Framed(fs[0]) + (Stream(fs[1..]) + rest) == Stream(fs) + rest;
      assert [fs[0]] + fs[1..] == fs;
    }
  }

  lemma {:induction false} StreamSnoc(fs: seq<seq<byte>>, f: seq<byte>)
    ensures Stream(fs + [f]) == Stream(fs) + Framed(f)
  {
    hide Framed;
    if fs == [] {
      assert [] + [f] == [f];
      assert [f][1..] == [];
    } else {
      StreamSnoc(fs[1..], f);
      assert (fs + [f])[0] == fs[0] && (fs + [f])[1..] == fs[1..] + [f];
      assert Framed(fs[0]) + (Stream(fs[1..]) + Framed(f)) == Framed(fs[0]) + Stream(fs[1..]) + Framed(f);
    }
  }

  /** A connection. `budget` is the number of frames that can still be written before it breaks;
      a write is one step that happens or fails, and a failed one leaves nothing on the wire. */
  class Link {
    var output: seq<byte>
    var input: seq<byte>
    var budget: nat
    ghost var sent: seq<seq<byte>>

    ghost predicate Valid()
      reads this
    {
      && output == Stream(sent)
      && forall i | 0 <= i < |sent| :: |sent[i]| < U16
    }

    constructor (input: seq<byte>, budget: nat)
      ensures Valid() && sent == [] && this.input == input && this.budget == budget
    {
      this.output, this.input, this.budget, this.sent := [], input, budget, [];
    }

    method WriteFrame(payload: seq<byte>) returns (r: Outcome<E>)
      requires Valid()
      modifies this
      ensures Valid() && input == old(input)
      ensures r.Pass? <==> |payload| < U16 && old(budget) > 0
      ensures r.Pass? ==> sent == old(sent) + [payload] && budget == old(budget) - 1
      ensures r.Fail? ==> sent == old(sent) && budget == old(budget)
      ensures r.Fail? ==> r.error == if |payload| >= U16 then FrameTooLarge else Io
    {
      if |payload| > 0xFFFF {
        return Fail(FrameTooLarge);
      }
      if budget == 0 {
        return Fail(Io);
      }
      StreamSnoc(sent, payload);
      output := output + Le(2, |payload|) + payload;
      assert Stream(old(sent)) + Framed(payload) == Stream(old(sent)) + Le(2, |payload|) + payload;
      sent := sent + [payload];
      budget := budget - 1;
      return Pass;
    }

    /** Reads the next frame into `buf` and returns its length. */
    method ReadFrame(buf: array<byte>) returns (r: Result<nat, E>)
      requires Valid()
      modifies this, buf
      ensures Valid() && sent == old(sent) && budget == old(budget)
      ensures match ReadOne(old(input), buf.Length)
        case Ok((f, rest)) => r == Ok(|f|) && |f| <= buf.Length && buf[..|f|] == f && input == rest
        case Err(e) => r == Err(e)
    {
      if |input| < 2 {
        return Err(Io);
      }
      var len := LeValue(input[..2]);
      input := input[2..];
      if len == 0 {
        return Ok(0);
      }
      if len > buf.Length {
        return Err(FrameTooLarge);
      }
      if len > |input| {
        return Err(Io);
      }
      assert old(input)[2..][..len] == old(input)[2..2 + len];
      assert old(input)[2..][len..] == old(input)[2 + len..];
      forall i | 0 <= i < len {
        buf[i] := input[i];
      }
      input := input[len..];
      return Ok(len);
    }

    /** What the other end reads from the output is exactly what was sent. */
    lemma OutputIsSent(capacity: nat)
      requires Valid() && forall i | 0 <= i < |sent| :: |sent[i]| <= capacity
      ensures ReadMany(output, capacity, |sent|) == Ok((sent, []))
    {
      assert Stream(sent) + [] == Stream(sent);
      StreamRoundTrip(sent, [], capacity);
    }
  }
}
