/** Variable-length integers: unsigned LEB128 of at most ten bytes, the
    encoder writing into a buffer and the decoder looping over a slice. */
module VByte {
  import opened Common
  import opened Writing

  // ── Specification ─────────────────────────────────────────────────────

  /** Groups of seven bits, least significant first; every byte but the last carries bit 7. */
  function VBytes(v: nat): (s: seq<byte>)
    ensures |s| >= 1
    decreases v
  {
    if v < 128 then [v] else [v % 128 + 128] + VBytes(v / 128)
  }

  /** The value of the groups from the `k`-th byte on. The tenth byte is shifted by 63,
      so that only its lowest bit survives in a `u64`. */
  function VValue(s: seq<byte>, k: nat): (r: Result<(nat, nat), TransportError>)
    requires k <= 9
    ensures r.Ok? ==> r.value.0 < Lim(k) && 1 <= r.value.1 <= |s| && r.value.1 <= 10 - k
    decreases |s|
  {
    if s == [] then Err(InvalidEncoding)
    else
      var d := if k == 9 then s[0] % 2 else s[0] % 128;
      if s[0] < 128 then Ok((d, 1))
      else if k == 9 then Err(InvalidEncoding)
      else
        var (v, n) :- VValue(s[1..], k + 1);
        Ok((d + 128 * v, n + 1))
  }

  /** One more than the largest value the bytes from the `k`-th on can carry. */
  function Lim(k: nat): (n: nat)
    requires k <= 9
    ensures n >= 2 && (k < 9 ==> n >= 128)
    decreases 9 - k
  {
    if k == 9 then 2 else 128 * Lim(k + 1)
  }

  function Pow128(k: nat): nat {
    if k == 0 then 1 else 128 * Pow128(k - 1)
  }

  /** Decoding at the start of `s`. */
  function VDecode(s: seq<byte>): (r: Result<(nat, nat), TransportError>)
    ensures r.Ok? ==> r.value.0 < U64 && 1 <= r.value.1 <= |s|
  {
    LimValues();
    VValue(s, 0)
  }

  // ── Properties ────────────────────────────────────────────────────────

  lemma LimValues()
    ensures Lim(0) == U64
    ensures Pow128(9) * 2 == U64
  {
    assert Lim(6) == 128 * Lim(7) && Lim(7) == 128 * Lim(8) && Lim(8) == 128 * Lim(9);
    assert Lim(3) == 128 * Lim(4) && Lim(4) == 128 * Lim(5) && Lim(5) == 128 * Lim(6);
    assert Lim(0) == 128 * Lim(1) && Lim(1) == 128 * Lim(2) && Lim(2) == 128 * Lim(3);
    assert Pow128(3) == 128 * Pow128(2) && Pow128(2) == 128 * Pow128(1) && Pow128(1) == 128;
    assert Pow128(6) == 128 * Pow128(5) && Pow128(5) == 128 * Pow128(4) && Pow128(4) == 128 * Pow128(3);
    assert Pow128(9) == 128 * Pow128(8) && Pow128(8) == 128 * Pow128(7) && Pow128(7) == 128 * Pow128(6);
  }

  /** `k` bytes are enough exactly for the values below 128 to the power of `k`: the encoding is minimal. */
  lemma {:induction false} VBytesMinimal(v: nat, k: nat)
    requires k >= 1
    ensures |VBytes(v)| <= k <==> v < Pow128(k)
    decreases k
  {
    if k == 1 {
      assert Pow128(1) == 128 * Pow128(0);
    } else if v >= 128 {
      VBytesMinimal(v / 128, k - 1);
    } else {
      Pow128Positive(k - 1);
    }
  }

  lemma {:induction false} Pow128Positive(k: nat)
    ensures Pow128(k) >= 1
  {
    if k > 0 {
      Pow128Positive(k - 1);
    }
  }

  /** Every `u64` takes between one and ten bytes; the bounds the batching estimate rests on. */
  lemma VBytesLength(v: nat)
    requires v < U64
    ensures 1 <= |VBytes(v)| <= 10
    ensures v < 128 ==> |VBytes(v)| == 1
    ensures v < 16384 ==> |VBytes(v)| <= 2
    ensures v < U16 ==> |VBytes(v)| <= 3
    ensures v < U32 ==> |VBytes(v)| <= 5
  {
    assert Pow128(2) == 16384 && Pow128(3) == 2097152 && Pow128(4) == 268435456;
    assert Pow128(5) == 128 * Pow128(4);
    assert Pow128(10) == 128 * Pow128(9);
    LimValues();
    VBytesMinimal(v, 2);
    VBytesMinimal(v, 3);
    VBytesMinimal(v, 5);
    VBytesMinimal(v, 10);
  }

  lemma {:induction false} VValueOfVBytes(v: nat, k: nat, rest: seq<byte>)
    requires k <= 9 && v < Lim(k)
    ensures VValue(VBytes(v) + rest, k) == Ok((v, |VBytes(v)|))
    decreases v
  {
    var s := VBytes(v) + rest;
    if v >= 128 {
      assert k < 9;
      VValueOfVBytes(v / 128, k + 1, rest);
      assert s[1..] == VBytes(v / 128) + rest;
    }
  }

  /** Decoding what was encoded returns the value, whatever bytes follow. */
  lemma VByteRoundTrip(v: nat, rest: seq<byte>)
    requires v < U64
    ensures VDecode(VBytes(v) + rest) == Ok((v, |VBytes(v)|))
  {
    LimValues();
    VValueOfVBytes(v, 0, rest);
  }

  lemma VByteAt(b: seq<byte>, p: nat, v: nat)
    requires v < U64 && At(b, p, VBytes(v))
    ensures p + |VBytes(v)| <= |b| && VDecode(b[p..]) == Ok((v, |VBytes(v)|))
  {
    var n := |VBytes(v)|;
    assert b[p..] == VBytes(v) + b[p + n..];
    VByteRoundTrip(v, b[p + n..]);
  }

  /** No encoding is a proper prefix of another. */
  lemma VBytePrefixFree(u: nat, v: nat, rest: seq<byte>)
    requires u < U64 && v < U64
    requires VBytes(v) == VBytes(u) + rest
    ensures u == v && rest == []
  {
    VByteRoundTrip(u, rest);
    VByteRoundTrip(v, []);
    assert VBytes(v) + [] == VBytes(v);
  }

  /** The shortest form: no zero group on top, and in the tenth byte only its lowest bit. */
  predicate Canonical(c: seq<byte>, k: nat)
    requires c != []
  {
    && (|c| > 1 ==> c[|c| - 1] != 0)
    && (k + |c| - 1 == 9 ==> c[|c| - 1] <= 1)
  }

  /** The decoder accepts more than the encoder emits: re-encoding gives back the
      consumed bytes if and only if they are in shortest form. */
  lemma {:induction false} VByteReencodes(s: seq<byte>, k: nat)
    requires k <= 9 && VValue(s, k).Ok?
    ensures var (v, n) := VValue(s, k).value;
      && (VBytes(v) == s[..n] <==> Canonical(s[..n], k))
      && (v == 0 && (n > 1 || s[0] != 0) ==> !Canonical(s[..n], k))
    decreases |s|
  {
    if s[0] < 128 {
      assert s[..1] == [s[0]];
    } else {
      VByteReencodes(s[1..], k + 1);
      var (v, n) := VValue(s[1..], k + 1).value;
      assert s[..n + 1] == [s[0]] + s[1..][..n];
      ReencodeStep(s[0], s[1..][..n], v);
    }
  }

  lemma ReencodeStep(b: byte, c: seq<byte>, v: nat)
    requires b >= 128
    ensures VBytes(b % 128 + 128 * v) == [b] + c <==> v > 0 && VBytes(v) == c
  {
    if v > 0 {
      assert VBytes(b % 128 + 128 * v) == [b] + VBytes(v);
      assert ([b] + c)[1..] == c && ([b] + VBytes(v))[1..] == VBytes(v);
    } else {
      assert VBytes(b % 128)[0] != ([b] + c)[0];
    }
  }

  /** Two different ten-byte inputs decode to the same value: decoding is not injective. */
  lemma VByteNotInjective()
    ensures var low := seq(9, i => 128 as byte); VDecode(low + [1]) == VDecode(low + [3]) && VDecode(low + [1]).Ok?
  {
    VByteTop(seq(9, i => 128 as byte), 0, 1);
    VByteTop(seq(9, i => 128 as byte), 0, 3);
  }

  /** A run of empty groups below a top byte. */
  lemma {:induction false} VByteTop(low: seq<byte>, k: nat, top: byte)
    requires k + |low| == 9 && (forall i | 0 <= i < |low| :: low[i] == 128) && top < 128
    ensures VValue(low + [top], k) == Ok((if top % 2 == 1 then Lim(k) / 2 else 0, |low| + 1))
    decreases 9 - k
  {
    hide Lim;
    HalfLim(k);
    if k < 9 {
      assert (low + [top])[0] == 128 && (low + [top])[1..] == low[1..] + [top];
      VByteTop(low[1..], k + 1, top);
    } else {
      assert low + [top] == [top];
    }
  }

  lemma HalfLim(k: nat)
    requires k <= 9
    ensures Lim(k) / 2 == if k == 9 then 1 else 128 * (Lim(k + 1) / 2)
  {
    if k < 9 {
      assert Lim(k) == 2 * (64 * Lim(k + 1));
      assert Lim(k + 1) % 2 == 0;
    }
  }

  // ── The encoder and the decoder ───────────────────────────────────────

  method EncodeVByte(w: Writer, value: nat) returns (r: Outcome<TransportError>)
    requires w.Valid() && value < U64
    modifies w, w.buf
    ensures w.Valid() && Appended(old(w.Written()), w.Written(), w.buf.Length, VBytes(value), r)
  {
    var v := value;
    ghost var start: seq<byte>, done: seq<byte> := w.Written(), [];
    while v >= 128
      invariant w.Valid() && w.Written() == start + done
      invariant VBytes(value) == done + VBytes(v)
      decreases v
    {
      :- w.PutByte(v % 128 + 128);
      Join2(start, done, [v % 128 + 128]);
      VBytesStep(done, v);
      done := done + [v % 128 + 128];
      v := v / 128;
    }
    :- w.PutByte(v);
    Join2(start, done, [v]);
    return Pass;
  }

  lemma VBytesStep(done: seq<byte>, v: nat)
    requires v >= 128
    ensures done + VBytes(v) == done + [v % 128 + 128] + VBytes(v / 128)
  {
  }

  /** `value |= (byte & 0x7F) << shift` in a `u64`: the groups do not overlap, so the or is
      a sum, and what the shift pushes out of the top is lost. */
  method DecodeVByte(buf: seq<byte>) returns (r: Result<(nat, nat), TransportError>)
    ensures r == VDecode(buf)
  {
    hide VValue, Lim;
    var value: nat := 0;
    var shift := 0;
    var weight: nat := 1;
    ghost var k := 0;
    for i := 0 to |buf|
      invariant i == k <= 9 && shift == 7 * k && weight == Pow128(k)
      invariant VDecode(buf) == Resume(value, weight, i, VValue(buf[i..], k))
    {
      DecodeStep(buf[i..], value, weight, i, k);
      assert buf[i..][1..] == buf[i + 1..];
      var b := buf[i];
      value := value + b % 128 * weight % U64;
      if b / 128 == 0 {
        return Ok((value, i + 1));
      }
      shift := shift + 7;
      if shift >= 64 {
        return Err(InvalidEncoding);
      }
      weight := weight * 128;
      k := k + 1;
    }
    VValueEmpty(k);
    return Err(InvalidEncoding);
  }

  lemma VValueEmpty(k: nat)
    requires k <= 9
    ensures VValue([], k) == Err(InvalidEncoding)
  {
  }

  /** The state of the decoding loop after `i` bytes, put in front of the value of the remaining ones. */
  ghost function Resume(value: nat, weight: nat, i: nat,
          r: Result<(nat, nat), TransportError>): Result<(nat, nat), TransportError> {
    match r
    case Err(e) => Err(e)
    case Ok((v, n)) => Ok((value + weight * v, i + n))
  }

  /** One round of the decoding loop. */
  lemma DecodeStep(s: seq<byte>, value: nat, weight: nat, i: nat, k: nat)
    requires s != [] && k <= 9 && weight == Pow128(k)
    ensures var next := value + s[0] % 128 * weight % U64;
      Resume(value, weight, i, VValue(s, k)) ==
        if s[0] < 128 then Ok((next, i + 1))
        else if k == 9 then Err(InvalidEncoding)
        else Resume(next, weight * 128, i + 1, VValue(s[1..], k + 1))
  {
    GroupInWord(s[0], k, weight);
    hide Pow128, Lim;
    if s[0] >= 128 && k < 9 && VValue(s[1..], k + 1).Ok? {
      Regroup(weight, s[0] % 128, VValue(s[1..], k + 1).value.0);
    }
  }

  lemma Regroup(w: nat, d: nat, v: nat)
    ensures w * (d + 128 * v) == w * d + w * 128 * v
  {
  }

  /** Shifting a seven-bit group to position `k` inside 64 bits. */
  lemma GroupInWord(b: byte, k: nat, weight: nat)
    requires k <= 9 && weight == Pow128(k)
    ensures b % 128 * weight % U64 == weight * (if k == 9 then b % 2 else b % 128)
  {
    LimValues();
    if k == 9 {
      assert weight == U64 / 2;
      TopGroup(b % 128);
    } else {
      Pow128Monotone(k + 1, 9);
      assert 128 * weight < U64;
      hide Pow128;
      ProductFits(b % 128, weight);
    }
  }

  lemma TopGroup(d: nat)
    ensures d * (U64 / 2) % U64 == U64 / 2 * (d % 2)
  {
    var q, r := d / 2, d % 2;
    assert d * (U64 / 2) == q * U64 + r * (U64 / 2);
    if r == 0 {
      assert d * (U64 / 2) == q * U64;
    } else {
      assert d * (U64 / 2) == q * U64 + U64 / 2;
    }
  }

  lemma ProductFits(d: nat, w: nat)
    requires d < 128 && 128 * w < U64
    ensures d * w < U64
  {
    assert d * w <= 127 * w;
  }

  lemma {:induction false} Pow128Monotone(j: nat, k: nat)
    requires j <= k
    ensures Pow128(j) <= Pow128(k)
    decreases k
  {
    if j < k {
      Pow128Monotone(j, k - 1);
    }
  }
}
