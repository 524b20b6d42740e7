/** A buffer that is filled from the front: the array and the position that every
    encoder advances. */
module Writing {
  import opened Common

  /** The outcome of appending `d` to what was written before: it succeeds exactly when
      `d` fits into the capacity, and then exactly `d` is added. */
  ghost predicate Appended(before: seq<byte>, after: seq<byte>, capacity: nat, d: seq<byte>,
          r: Outcome<TransportError>) {
    && (r.Pass? ==> after == before + d)
    && (r.Fail? ==> r.error == FrameTooLarge && |before| + |d| > capacity)
  }

  class Writer {
    const buf: array<byte>
    var pos: nat

    ghost predicate Valid()
      reads this
    {
      pos <= buf.Length
    }

    function Written(): (s: seq<byte>)
      requires Valid()
      reads this, buf
      ensures |s| == pos
    {
      buf[..pos]
    }

    constructor (buf: array<byte>)
      ensures Valid() && this.buf == buf && Written() == []
    {
      this.buf := buf;
      pos := 0;
    }

    /** Start over at the front of the buffer. */
    method Restart()
      modifies this
      ensures Valid() && Written() == []
    {
      pos := 0;
    }

    method PutByte(x: byte) returns (r: Outcome<TransportError>)
      requires Valid()
      modifies this, buf
      ensures Valid() && Appended(old(Written()), Written(), buf.Length, [x], r)
    {
      if pos >= buf.Length {
        return Fail(FrameTooLarge);
      }
      buf[pos] := x;
      pos := pos + 1;
      return Pass;
    }

    /** A byte that is left out in some cases. */
    method PutIf(present: bool, x: byte) returns (r: Outcome<TransportError>)
      requires Valid()
      modifies this, buf
      ensures Valid() && Appended(old(Written()), Written(), buf.Length, if present then [x] else [], r)
    {
      r := Pass;
      if present {
        r := PutByte(x);
      }
    }

    method PutBytes(data: seq<byte>) returns (r: Outcome<TransportError>)
      requires Valid()
      modifies this, buf
      ensures Valid() && Appended(old(Written()), Written(), buf.Length, data, r)
    {
      if pos + |data| > buf.Length {
        return Fail(FrameTooLarge);
      }
      CopyBytes(data);
      return Pass;
    }

    /** `copy_from_slice` after a bounds check by the caller. */
    method CopyBytes(data: seq<byte>)
      requires Valid() && pos + |data| <= buf.Length
      modifies this, buf
      ensures Valid() && Written() == old(Written()) + data
    {
      forall i | 0 <= i < |data| {
        buf[pos + i] := data[i];
      }
      pos := pos + |data|;
    }
  }

  // ── Appending several pieces is appending their concatenation ─────────

  lemma Join2(s: seq<byte>, a: seq<byte>, b: seq<byte>)
    ensures s + a + b == s + (a + b)
  {
  }

  lemma Join3(s: seq<byte>, a: seq<byte>, b: seq<byte>, c: seq<byte>)
    ensures s + a + b + c == s + (a + (b + c))
  {
    Join2(s, a, b + c);
    Join2(s + a, b, c);
  }

  lemma Join4(s: seq<byte>, a: seq<byte>, b: seq<byte>, c: seq<byte>, d: seq<byte>)
    ensures s + a + b + c + d == s + (a + (b + (c + d)))
  {
    Join2(s, a, b + (c + d));
    Join3(s + a, b, c, d);
  }

  lemma Join5(s: seq<byte>, a: seq<byte>, b: seq<byte>, c: seq<byte>, d: seq<byte>, e: seq<byte>)
    ensures s + a + b + c + d + e == s + (a + (b + (c + (d + e))))
  {
    Join2(s, a, b + (c + (d + e)));
    Join4(s + a, b, c, d, e);
  }

  lemma Join6(s: seq<byte>, a: seq<byte>, b: seq<byte>, c: seq<byte>, d: seq<byte>, e: seq<byte>, f: seq<byte>)
    ensures s + a + b + c + d + e + f == s + (a + (b + (c + (d + (e + f)))))
  {
    Join2(s, a, b + (c + (d + (e + f))));
    Join5(s + a, b, c, d, e, f);
  }
}
