/** Result and Option types, the error values of the transport layer, bytes,
    and what it means for bytes to stand at a position. */
module Common {

  datatype Option<+T> = None | Some(value: T)

  datatype Result<+T, +E> = Ok(value: T) | Err(error: E) {
    predicate IsFailure() {
      Err?
    }

    function PropagateFailure<U>(): Result<U, E>
      requires Err?
    {
      Err(error)
    }

    function Extract(): T
      requires Ok?
    {
      value
    }
  }

  /** A result without a value. */
  datatype Outcome<+E> = Pass | Fail(error: E) {
    predicate IsFailure() {
      Fail?
    }

    function PropagateFailure(): Outcome<E>
      requires Fail?
    {
      this
    }
  }

  datatype TransportError =
    | Io
    | VersionMismatch
    | FrameTooLarge
    | InvalidEncoding
    | ConnectionClosed

  type byte = x: int | 0 <= x < 256

  const U16: nat := 0x1_0000
  const U32: nat := 0x1_0000_0000
  const U64: nat := 0x1_0000_0000_0000_0000

  function Min(a: nat, b: nat): nat {
    if a < b then a else b
  }

  /** Bit `k` of a header byte, where `weight` is two to the power of `k`. */
  predicate Flag(header: byte, weight: nat)
    requires weight > 0
  {
    header / weight % 2 == 1
  }

  // ── Little-endian integers ────────────────────────────────────────────

  /** The `n` low-order bytes of `v`, least significant first. */
  function Le(n: nat, v: nat): (s: seq<byte>)
    ensures |s| == n
  {
    if n == 0 then [] else [v % 256] + Le(n - 1, v / 256)
  }

  function LeValue(s: seq<byte>): nat {
    if s == [] then 0 else s[0] + 256 * LeValue(s[1..])
  }

  function Pow256(n: nat): nat {
    if n == 0 then 1 else 256 * Pow256(n - 1)
  }

  lemma {:induction false} LeRoundTrip(n: nat, v: nat)
    requires v < Pow256(n)
    ensures LeValue(Le(n, v)) == v
  {
    if n > 0 {
      LeRoundTrip(n - 1, v / 256);
      assert Le(n, v)[1..] == Le(n - 1, v / 256);
    }
  }

  lemma {:induction false} LeValueBound(s: seq<byte>)
    ensures LeValue(s) < Pow256(|s|)
  {
    if s != [] {
      LeValueBound(s[1..]);
    }
  }

  lemma Pow256Values()
    ensures Pow256(1) == 256 && Pow256(2) == U16 && Pow256(4) == U32 && Pow256(8) == U64
  {
    assert Pow256(3) == 256 * Pow256(2);
    assert Pow256(4) == 256 * Pow256(3);
    assert Pow256(5) == 256 * Pow256(4);
    assert Pow256(6) == 256 * Pow256(5);
    assert Pow256(7) == 256 * Pow256(6);
  }

  /** An `i64` as the unsigned number with the same bits. */
  function I64Bits(v: int): nat {
    v % U64
  }

  // ── Reading: what stands at a position ────────────────────────────────

  /** `d` stands in `b` at position `p`. */
  ghost predicate At(b: seq<byte>, p: nat, d: seq<byte>) {
    p + |d| <= |b| && b[p..p + |d|] == d
  }

  lemma AtSplit(b: seq<byte>, p: nat, d: seq<byte>, e: seq<byte>)
    ensures At(b, p, d + e) <==> At(b, p, d) && At(b, p + |d|, e)
  {
    if p + |d| + |e| <= |b| {
      assert b[p..p + |d| + |e|] == b[p..p + |d|] + b[p + |d|..p + |d| + |e|];
      if At(b, p, d + e) {
        assert b[p..p + |d|] == (d + e)[..|d|] == d;
        assert b[p + |d|..p + |d| + |e|] == (d + e)[|d|..] == e;
      }
    }
  }

  lemma AtConcat(a: seq<byte>, d: seq<byte>, e: seq<byte>)
    ensures At(a + d + e, |a|, d)
  {
  }

  /** From `p` on, `s` holds a strict prefix of `d` and then ends. */
  ghost predicate CutShort(s: seq<byte>, p: nat, d: seq<byte>) {
    p <= |s| && s[p..] < d
  }

  /** A strict prefix of a concatenation either cuts the first part short, or holds it and cuts the second. */
  lemma CutSplit(s: seq<byte>, p: nat, d: seq<byte>, e: seq<byte>)
    requires CutShort(s, p, d + e)
    ensures CutShort(s, p, d) || (At(s, p, d) && CutShort(s, p + |d|, e))
  {
    var n := |s| - p;
    if n < |d| {
      assert s[p..] == (d + e)[..n] == d[..n];
    } else {
      assert s[p..] == (d + e)[..n] == d + e[..n - |d|];
      assert s[p..p + |d|] == s[p..][..|d|] == d;
      assert s[p + |d|..] == s[p..][|d|..] == e[..n - |d|];
    }
  }
}
