/** UTF-8 validity as RFC 3629 section 4 defines it, for the places where the
    decoders turn bytes into a string. */
module Utf8 {
  import opened Common

  predicate Tail(b: byte) {
    0x80 <= b <= 0xBF
  }

  /** Length of the well-formed character at the start of `s`, or 0 if there is none. */
  function CharLength(s: seq<byte>): (n: nat)
    ensures n <= 4 && n <= |s|
  {
    if |s| >= 1 && s[0] <= 0x7F then 1
    else if |s| >= 2 && 0xC2 <= s[0] <= 0xDF && Tail(s[1]) then 2
    else if |s| >= 3 && 0xE0 <= s[0] <= 0xEF && Tail(s[1]) && Tail(s[2])
            && (s[0] == 0xE0 ==> s[1] >= 0xA0) && (s[0] == 0xED ==> s[1] <= 0x9F) then 3
    else if |s| >= 4 && 0xF0 <= s[0] <= 0xF4 && Tail(s[1]) && Tail(s[2]) && Tail(s[3])
            && (s[0] == 0xF0 ==> s[1] >= 0x90) && (s[0] == 0xF4 ==> s[1] <= 0x8F) then 4
    else 0
  }

  predicate ValidUtf8(s: seq<byte>)
    decreases |s|
  {
    s == [] || (CharLength(s) > 0 && ValidUtf8(s[CharLength(s)..]))
  }

  /** A string is a byte sequence that is valid UTF-8. */
  type text = s: seq<byte> | ValidUtf8(s)

  lemma {:induction false} Utf8Concat(s: seq<byte>, t: seq<byte>)
    requires ValidUtf8(s) && ValidUtf8(t)
    ensures ValidUtf8(s + t)
    decreases |s|
  {
    hide CharLength;
    if s == [] {
      assert s + t == t;
    } else {
      var n := CharLength(s);
      Utf8Concat(s[n..], t);
      CharLengthConcat(s, t);
      assert (s + t)[n..] == s[n..] + t;
    }
  }

  lemma CharLengthConcat(s: seq<byte>, t: seq<byte>)
    requires CharLength(s) > 0
    ensures CharLength(s + t) == CharLength(s)
  {
    var u := s + t;
    assert u[0] == s[0];
    assert |s| >= 2 ==> u[1] == s[1];
    assert |s| >= 3 ==> u[2] == s[2];
    assert |s| >= 4 ==> u[3] == s[3];
  }

  lemma {:induction false} AsciiIsUtf8(s: seq<byte>)
    requires forall i | 0 <= i < |s| :: s[i] < 128
    ensures ValidUtf8(s)
  {
    if s != [] {
      AsciiIsUtf8(s[1..]);
    }
  }

  /** An ASCII byte is a character of its own, so what stands before and behind it is valid too. */
  lemma {:induction false} Utf8Cut(x: seq<byte>, c: byte, y: seq<byte>)
    requires c < 128 && ValidUtf8(x + [c] + y)
    ensures ValidUtf8(x) && ValidUtf8(y)
    decreases |x|
  {
    var s := x + [c] + y;
    if x == [] {
      assert s[0] == c && s[1..] == y;
    } else {
      var n := CharLength(s);
      CharBefore(x, c, y);
      assert s[n..] == x[n..] + [c] + y;
      Utf8Cut(x[n..], c, y);
    }
  }

  lemma CharBefore(x: seq<byte>, c: byte, y: seq<byte>)
    requires c < 128 && x != [] && CharLength(x + [c] + y) > 0
    ensures CharLength(x + [c] + y) == CharLength(x) <= |x|
  {
    var s := x + [c] + y;
    assert s[|x|] == c && !Tail(c);
    assert s[0] == x[0];
    assert |x| >= 2 ==> s[1] == x[1];
    assert |x| >= 3 ==> s[2] == x[2];
    assert |x| >= 4 ==> s[3] == x[3];
  }

  /** Exchanging ASCII bytes for ASCII bytes keeps a string valid. */
  lemma {:induction false} Utf8Exchange(a: seq<byte>, b: seq<byte>)
    requires |a| == |b| && forall i | 0 <= i < |a| :: a[i] == b[i] || (a[i] < 128 && b[i] < 128)
    requires ValidUtf8(a)
    ensures ValidUtf8(b)
    decreases |a|
  {
    if a != [] {
      Utf8Exchange(a[CharLength(a)..], b[CharLength(a)..]);
    }
  }

  // ── Characters ────────────────────────────────────────────────────────

  /** A Unicode scalar value: no surrogate, and at most U+10FFFF. */
  predicate Scalar(c: nat) {
    c < 0xD800 || 0xE000 <= c < 0x11_0000
  }

  /** The bytes of a character, by section 3 of RFC 3629. */
  function CharBytes(c: nat): (s: seq<byte>)
    requires Scalar(c)
    ensures 1 <= |s| <= 4
  {
    if c < 0x80 then [c]
    else if c < 0x800 then [0xC0 + c / 64, 0x80 + c % 64]
    else if c < 0x1_0000 then [0xE0 + c / 4096, 0x80 + c / 64 % 64, 0x80 + c % 64]
    else [0xF0 + c / 262144, 0x80 + c / 4096 % 64, 0x80 + c / 64 % 64, 0x80 + c % 64]
  }

  predicate AllScalar(cs: seq<nat>) {
    forall i | 0 <= i < |cs| :: Scalar(cs[i])
  }

  function TextBytes(cs: seq<nat>): seq<byte>
    requires AllScalar(cs)
  {
    if cs == [] then [] else CharBytes(cs[0]) + TextBytes(cs[1..])
  }

  lemma CharIsRead(c: nat, t: seq<byte>)
    requires Scalar(c)
    ensures CharLength(CharBytes(c) + t) == |CharBytes(c)|
  {
  }

  lemma TwoBytes(a: byte, b: byte) returns (c: nat)
    requires 0xC2 <= a <= 0xDF && Tail(b)
    ensures Scalar(c) && CharBytes(c) == [a, b]
  {
    c := (a - 0xC0) as nat * 64 + (b - 0x80);
  }

  lemma ThreeBytes(a: byte, b: byte, d: byte) returns (c: nat)
    requires 0xE0 <= a <= 0xEF && Tail(b) && Tail(d) && (a == 0xE0 ==> b >= 0xA0) && (a == 0xED ==> b <= 0x9F)
    ensures Scalar(c) && CharBytes(c) == [a, b, d]
  {
    c := (a - 0xE0) as nat * 4096 + (b - 0x80) as nat * 64 + (d - 0x80);
  }

  lemma FourBytes(a: byte, b: byte, d: byte, e: byte) returns (c: nat)
    requires 0xF0 <= a <= 0xF4 && Tail(b) && Tail(d) && Tail(e)
    requires (a == 0xF0 ==> b >= 0x90) && (a == 0xF4 ==> b <= 0x8F)
    ensures Scalar(c) && CharBytes(c) == [a, b, d, e]
  {
    var r: nat := 64 * (a - 0xF0) + (b - 0x80);
    var q: nat := 64 * r + (d - 0x80);
    c := 64 * q + (e - 0x80);
    Grouped(a - 0xF0, b - 0x80);
    Grouped(r, d - 0x80);
    Grouped(q, e - 0x80);
    Shifted(c);
  }

  lemma Grouped(high: nat, low: nat)
    requires low < 64
    ensures (64 * high + low) / 64 == high && (64 * high + low) % 64 == low
  {
  }

  lemma Shifted(c: nat)
    ensures c / 4096 == c / 64 / 64 && c / 262144 == c / 64 / 64 / 64
  {
  }

  lemma CharIsWritten(s: seq<byte>) returns (c: nat)
    requires CharLength(s) > 0
    ensures Scalar(c) && CharBytes(c) == s[..CharLength(s)]
  {
    hide CharBytes;
    var n := CharLength(s);
    if n == 1 {
      c := s[0];
      OneChar(c);
      assert s[..1] == [s[0]];
    } else if n == 2 {
      c := TwoBytes(s[0], s[1]);
      assert s[..2] == [s[0], s[1]];
    } else if n == 3 {
      c := ThreeBytes(s[0], s[1], s[2]);
      assert s[..3] == [s[0], s[1], s[2]];
    } else {
      c := FourBytes(s[0], s[1], s[2], s[3]);
      assert s[..4] == [s[0], s[1], s[2], s[3]];
    }
  }

  lemma OneChar(c: nat)
    ensures c < 0x80 ==> Scalar(c) && CharBytes(c) == [c]
  {
  }

  lemma {:induction false} TextIsValid(cs: seq<nat>)
    requires AllScalar(cs)
    ensures ValidUtf8(TextBytes(cs))
    decreases |cs|
  {
    hide CharLength, CharBytes;
    if cs != [] {
      TextIsValid(cs[1..]);
      CharIsRead(cs[0], TextBytes(cs[1..]));
      var b := CharBytes(cs[0]);
      assert (b + TextBytes(cs[1..]))[|b|..] == TextBytes(cs[1..]);
    }
  }

  lemma {:induction false} ValidIsText(s: seq<byte>) returns (cs: seq<nat>)
    requires ValidUtf8(s)
    ensures AllScalar(cs) && TextBytes(cs) == s
    decreases |s|
  {
    hide CharLength, CharBytes;
    cs := [];
    if s != [] {
      var c := CharIsWritten(s);
      var rest := ValidIsText(s[CharLength(s)..]);
      cs := [c] + rest;
      assert cs[1..] == rest;
      assert s == s[..CharLength(s)] + s[CharLength(s)..];
    }
  }

  /** Bytes are accepted as a string if and only if they are the encoding of a sequence of characters. */
  lemma Utf8Exactly(s: seq<byte>)
    ensures ValidUtf8(s) <==> exists cs: seq<nat> :: AllScalar(cs) && TextBytes(cs) == s
  {
    hide ValidUtf8, TextBytes;
    if ValidUtf8(s) {
      var cs := ValidIsText(s);
    }
    forall cs: seq<nat> | AllScalar(cs) && TextBytes(cs) == s
      ensures ValidUtf8(s)
    {
      TextIsValid(cs);
    }
  }
}
