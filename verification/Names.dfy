/** Names on the wire: decimal numbers, topic key expressions and QoS strings,
    the printers that build them in a bounded string, and what
    each of them determines. Strings are their UTF-8 bytes, so that a capacity
    counts what the library's strings count. */
module Names {
  import opened Common
  import opened Writing
  import opened Utf8

  const SLASH: byte := 0x2F
  const PERCENT: byte := 0x25
  const COLON: byte := 0x3A
  const COMMA: byte := 0x2C
  const ZERO: byte := 0x30

  /** The byte does not occur. */
  predicate Free(s: seq<byte>, x: byte) {
    forall i | 0 <= i < |s| :: s[i] != x
  }

  // ── Separators ────────────────────────────────────────────────────────

  /** The first separator of a string splits it in one way. */
  lemma FirstSeparator(a: seq<byte>, b: seq<byte>, c: seq<byte>, d: seq<byte>, x: byte)
    requires Free(a, x) && Free(c, x) && a + [x] + b == c + [x] + d
    ensures a == c && b == d
  {
    var s, t := a + [x] + b, c + [x] + d;
    assert s[|a|] == x && t[|c|] == x;
    assert forall i | 0 <= i < |a| :: s[i] == a[i];
    assert forall i | 0 <= i < |c| :: t[i] == c[i];
    assert |a| == |c|;
    assert a == s[..|a|] && c == t[..|c|];
    assert b == s[|a| + 1..] && d == t[|c| + 1..];
  }

  /** The last separator of a string splits it in one way. */
  lemma LastSeparator(a: seq<byte>, b: seq<byte>, c: seq<byte>, d: seq<byte>, x: byte)
    requires Free(b, x) && Free(d, x) && a + [x] + b == c + [x] + d
    ensures a == c && b == d
  {
    var s, t := a + [x] + b, c + [x] + d;
    assert s[|a|] == x && t[|c|] == x;
    assert forall i | |a| < i < |s| :: s[i] == b[i - |a| - 1];
    assert forall i | |c| < i < |t| :: t[i] == d[i - |c| - 1];
    assert |a| == |c|;
    assert a == s[..|a|] && c == t[..|c|];
    assert b == s[|a| + 1..] && d == t[|c| + 1..];
  }

  // ── Decimal numbers ───────────────────────────────────────────────────

  function Digits(n: nat): seq<byte> {
    if n == 0 then [] else Digits(n / 10) + [ZERO + n % 10]
  }

  /** The canonical numeral: no leading zero, and "0" for zero. */
  function Decimal(n: nat): seq<byte> {
    if n == 0 then [ZERO] else Digits(n)
  }

  function Pow10(k: nat): nat {
    if k == 0 then 1 else 10 * Pow10(k - 1)
  }

  lemma {:induction false} DigitsLength(n: nat, k: nat)
    requires n < Pow10(k)
    ensures |Digits(n)| <= k
  {
    if n > 0 {
      DigitsLength(n / 10, k - 1);
    }
  }

  /** A `u32` has at most ten digits. */
  lemma DecimalLength(n: nat)
    requires n < U32
    ensures |Digits(n)| <= 10 && 1 <= |Decimal(n)| <= 10
  {
    assert Pow10(5) == 10 * Pow10(4) && Pow10(4) == 10 * Pow10(3) && Pow10(3) == 10 * Pow10(2) && Pow10(2) == 100;
    assert Pow10(10) == 10 * Pow10(9) && Pow10(9) == 10 * Pow10(8) && Pow10(8) == 10 * Pow10(7);
    assert Pow10(7) == 10 * Pow10(6) && Pow10(6) == 10 * Pow10(5);
    DigitsLength(n, 10);
    DigitsAreDigits(n);
  }

  predicate IsDigit(b: byte) {
    ZERO <= b <= ZERO + 9
  }

  lemma {:induction false} DigitsAreDigits(n: nat)
    ensures forall i | 0 <= i < |Digits(n)| :: IsDigit(Digits(n)[i])
    ensures n > 0 ==> Digits(n) != [] && Digits(n)[0] != ZERO
  {
    if n > 0 {
      DigitsAreDigits(n / 10);
      if n / 10 > 0 {
        assert Digits(n)[0] == Digits(n / 10)[0];
      }
    }
  }

  lemma {:induction false} DigitsInjective(m: nat, n: nat)
    requires Digits(m) == Digits(n)
    ensures m == n
  {
    if m > 0 && n > 0 {
      var s := Digits(m);
      assert s[|s| - 1] == ZERO + m % 10 == ZERO + n % 10;
      assert s[..|s| - 1] == Digits(m / 10) == Digits(n / 10);
      DigitsInjective(m / 10, n / 10);
    }
  }

  lemma DecimalInjective(m: nat, n: nat)
    requires Decimal(m) == Decimal(n)
    ensures m == n
  {
    DigitsAreDigits(m);
    DigitsAreDigits(n);
    if m > 0 && n > 0 {
      DigitsInjective(m, n);
    }
  }

  /** A numeral contains digits only. */
  lemma DecimalFree(n: nat, x: byte)
    requires !IsDigit(x)
    ensures Free(Decimal(n), x)
  {
    DigitsAreDigits(n);
  }

  /** `write_u32` and `push_u32`: fill a ten-byte scratch buffer from the back, then push what was filled. */
  method PushDecimal(w: Writer, val: nat) returns (r: Outcome<TransportError>)
    requires w.Valid() && val < U32
    modifies w, w.buf
    ensures w.Valid() && Appended(old(w.Written()), w.Written(), w.buf.Length, Decimal(val), r)
  {
    hide Digits, Pow10;
    if val == 0 {
      r := w.PutByte(ZERO);
      return;
    }
    DecimalLength(val);
    var scratch := new byte[10];
    var pos := 10;
    var v := val;
    while v > 0
      invariant 0 <= pos <= 10 && |Digits(v)| <= pos
      invariant Digits(val) == Digits(v) + scratch[pos..]
      invariant w.Valid() && w.Written() == old(w.Written())
      decreases v
    {
      ghost var tail := scratch[pos..];
      DigitsStep(v, tail);
      pos := pos - 1;
      scratch[pos] := ZERO + v % 10;
      assert scratch[pos..] == [ZERO + v % 10] + tail;
      v := v / 10;
    }
    DigitsOfZero();
    assert [] + scratch[pos..] == scratch[pos..];
    r := w.PutBytes(scratch[pos..]);
  }

  lemma DigitsStep(v: nat, tail: seq<byte>)
    requires v > 0
    ensures |Digits(v)| == |Digits(v / 10)| + 1
    ensures Digits(v) + tail == Digits(v / 10) + ([ZERO + v % 10] + tail)
  {
  }

  lemma DigitsOfZero()
    ensures Digits(0) == []
  {
  }

  // ── Topic key expressions ─────────────────────────────────────────────

  const MAX_KEY_EXPR_LEN: nat := 256

  datatype Topic = Topic(domain: nat, name: text, typeName: text, typeHash: text) {
    predicate Valid() {
      domain < U32
    }
  }

  /** `strip_prefix('/')`: one leading slash is dropped. */
  function Strip(name: seq<byte>): seq<byte> {
    if name != [] && name[0] == SLASH then name[1..] else name
  }

  /** `trim_start_matches('/')`: every leading slash is dropped. */
  function Trim(name: seq<byte>): seq<byte> {
    if name != [] && name[0] == SLASH then Trim(name[1..]) else name
  }

  /** Domain, topic, type and hash, separated by slashes. */
  function KeyExpr(t: Topic): seq<byte> {
    Decimal(t.domain) + [SLASH] + Strip(t.name) + [SLASH] + t.typeName + [SLASH] + t.typeHash
  }

  lemma StripIsUtf8(name: text)
    ensures ValidUtf8(Strip(name))
  {
  }

  lemma KeyExprIsUtf8(t: Topic)
    ensures ValidUtf8(KeyExpr(t))
  {
    hide ValidUtf8, Digits, Strip;
    DigitsAreDigits(t.domain);
    AsciiIsUtf8(Decimal(t.domain));
    AsciiIsUtf8([SLASH]);
    StripIsUtf8(t.name);
    var a := Decimal(t.domain) + [SLASH];
    var b := a + Strip(t.name);
    var c := b + [SLASH] + t.typeName;
    Utf8Concat(Decimal(t.domain), [SLASH]);
    Utf8Concat(a, Strip(t.name));
    Utf8Concat(b, [SLASH]);
    Utf8Concat(b + [SLASH], t.typeName);
    Utf8Concat(c, [SLASH]);
    Utf8Concat(c + [SLASH], t.typeHash);
  }

  /** The key of a topic, if it fits into the capacity. */
  function KeyOf(t: Topic): (k: Option<text>)
    ensures k.Some? <==> |KeyExpr(t)| <= MAX_KEY_EXPR_LEN
    ensures k.Some? ==> k.value == KeyExpr(t)
  {
    KeyExprIsUtf8(t);
    if |KeyExpr(t)| <= MAX_KEY_EXPR_LEN then Some(KeyExpr(t)) else None
  }

  method ToKeyExpr(t: Topic) returns (k: Option<text>)
    requires t.Valid()
    ensures k == KeyOf(t)
  {
    hide Digits, ValidUtf8;
    KeyExprIsUtf8(t);
    var buf := new byte[MAX_KEY_EXPR_LEN];
    var w := new Writer(buf);
    var r := BuildKeyExpr(w, t);
    if r.Fail? {
      return None;
    }
    assert [] + KeyExpr(t) == KeyExpr(t);
    return Some(w.Written());
  }

  method BuildKeyExpr(w: Writer, t: Topic) returns (r: Outcome<TransportError>)
    requires w.Valid() && t.Valid() && w.Written() == []
    modifies w, w.buf
    ensures w.Valid() && Appended([], w.Written(), w.buf.Length, KeyExpr(t), r)
  {
    hide Digits, Decimal, Strip;
    :- PushDecimal(w, t.domain);
    :- w.PutByte(SLASH);
    :- w.PutBytes(Strip(t.name));
    :- w.PutByte(SLASH);
    :- w.PutBytes(t.typeName);
    :- w.PutByte(SLASH);
    :- w.PutBytes(t.typeHash);
    assert [] + Decimal(t.domain) == Decimal(t.domain);
    assert [] + KeyExpr(t) == KeyExpr(t);
    return Pass;
  }

  /** The key expression determines the domain, the topic without one leading slash, the type and
      the hash, although topics may contain slashes. */
  lemma KeyExprInjective(t: Topic, u: Topic)
    requires Free(t.typeName, SLASH) && Free(t.typeHash, SLASH) && Free(u.typeName, SLASH) && Free(u.typeHash, SLASH)
    requires KeyExpr(t) == KeyExpr(u)
    ensures t.domain == u.domain && Strip(t.name) == Strip(u.name) && t.typeName == u.typeName
    ensures t.typeHash == u.typeHash
  {
    hide Decimal, Strip, Free;
    var a, b := Decimal(t.domain) + [SLASH] + Strip(t.name), Decimal(u.domain) + [SLASH] + Strip(u.name);
    LastSeparator(a + [SLASH] + t.typeName, t.typeHash, b + [SLASH] + u.typeName, u.typeHash, SLASH);
    LastSeparator(a, t.typeName, b, u.typeName, SLASH);
    DecimalFree(t.domain, SLASH);
    DecimalFree(u.domain, SLASH);
    FirstSeparator(Decimal(t.domain), Strip(t.name), Decimal(u.domain), Strip(u.name), SLASH);
    DecimalInjective(t.domain, u.domain);
  }

  // ── Which keys are ambiguous ──────────────────────────────────────────

  /** No part of the key contains a separator. */
  predicate Slashless(t: Topic) {
    Free(Strip(t.name), SLASH) && Free(t.typeName, SLASH) && Free(t.typeHash, SLASH)
  }

  predicate SameParts(t: Topic, u: Topic) {
    t.domain == u.domain && Strip(t.name) == Strip(u.name) && t.typeName == u.typeName && t.typeHash == u.typeHash
  }

  /** Among all topics, and among all valid ones, whatever their types and hashes contain, the key determines
      the parts of a topic if and only if none of them contains a slash. */
  lemma KeyDetermines(t: Topic)
    ensures Slashless(t) <==> forall u: Topic | KeyExpr(u) == KeyExpr(t) :: SameParts(t, u)
    ensures t.Valid() ==> (Slashless(t) <==> forall u: Topic | u.Valid() && KeyExpr(u) == KeyExpr(t) :: SameParts(t, u))
  {
    hide KeyExpr, Strip, SameParts, Slashless;
    if Slashless(t) {
      forall u: Topic | KeyExpr(u) == KeyExpr(t)
        ensures SameParts(t, u)
      {
        SlashlessAlone(t, u);
      }
    } else {
      var u := KeyPartner(t);
    }
  }

  /** Every topic with a slash in its name, type or hash shares its key with a different topic. */
  lemma KeyPartner(t: Topic) returns (u: Topic)
    requires !Slashless(t)
    ensures KeyExpr(u) == KeyExpr(t) && !SameParts(t, u)
    ensures t.Valid() ==> u.Valid()
  {
    hide KeyExpr, Strip;
    if !Free(t.typeName, SLASH) {
      u := TypePartner(t);
    } else if !Free(t.typeHash, SLASH) {
      u := HashPartner(t);
    } else {
      u := NamePartner(t);
    }
  }

  lemma FirstSlash(s: text) returns (x: text, y: text)
    requires !Free(s, SLASH)
    ensures s == x + [SLASH] + y
  {
    var i :| 0 <= i < |s| && s[i] == SLASH;
    assert s == s[..i] + [SLASH] + s[i + 1..];
    Utf8Cut(s[..i], SLASH, s[i + 1..]);
    x, y := s[..i], s[i + 1..];
  }

  /** A name that is stripped to `s`. */
  lemma Unstripped(s: text) returns (name: text)
    ensures Strip(name) == s
  {
    hide ValidUtf8;
    AsciiIsUtf8([SLASH]);
    Utf8Concat([SLASH], s);
    name := [SLASH] + s;
    assert name[1..] == s;
  }

  lemma WithSlash(a: text, b: text) returns (c: text)
    ensures c == a + [SLASH] + b
  {
    hide ValidUtf8;
    AsciiIsUtf8([SLASH]);
    Utf8Concat(a, [SLASH]);
    Utf8Concat(a + [SLASH], b);
    c := a + [SLASH] + b;
  }

  /** What stands before the first slash of the type is moved into the name. */
  lemma TypePartner(t: Topic) returns (u: Topic)
    requires !Free(t.typeName, SLASH)
    ensures KeyExpr(u) == KeyExpr(t) && u.typeName != t.typeName && u.domain == t.domain
  {
    hide Decimal, Strip, ValidUtf8, Free;
    StripIsUtf8(t.name);
    var x, y := FirstSlash(t.typeName);
    var s := WithSlash(Strip(t.name), x);
    var name := Unstripped(s);
    u := Topic(t.domain, name, y, t.typeHash);
    var d := Decimal(t.domain) + [SLASH];
    assert d + (Strip(t.name) + [SLASH] + x) + [SLASH] + y == d + Strip(t.name) + [SLASH] + (x + [SLASH] + y);
  }

  /** The type is moved into the name, and what stands before the first slash of the hash becomes the type. */
  lemma HashPartner(t: Topic) returns (u: Topic)
    requires !Free(t.typeHash, SLASH)
    ensures KeyExpr(u) == KeyExpr(t) && u.typeHash != t.typeHash && u.domain == t.domain
  {
    hide Decimal, Strip, ValidUtf8, Free;
    StripIsUtf8(t.name);
    var x, y := FirstSlash(t.typeHash);
    var s := WithSlash(Strip(t.name), t.typeName);
    var name := Unstripped(s);
    u := Topic(t.domain, name, x, y);
    var d := Decimal(t.domain) + [SLASH];
    var e := d + Strip(t.name) + [SLASH] + t.typeName;
    assert d + (Strip(t.name) + [SLASH] + t.typeName) == e;
    assert e + [SLASH] + x + [SLASH] + y == e + [SLASH] + (x + [SLASH] + y);
  }

  /** What stands behind the first slash of the name is moved into the type. */
  lemma NamePartner(t: Topic) returns (u: Topic)
    requires !Free(Strip(t.name), SLASH)
    ensures KeyExpr(u) == KeyExpr(t) && u.typeName != t.typeName && u.domain == t.domain
  {
    hide Decimal, Strip, ValidUtf8, Free;
    StripIsUtf8(t.name);
    var x, y := FirstSlash(Strip(t.name));
    var typeName := WithSlash(y, t.typeName);
    var name := Unstripped(x);
    u := Topic(t.domain, name, typeName, t.typeHash);
    var d := Decimal(t.domain) + [SLASH];
    assert d + x + [SLASH] + (y + [SLASH] + t.typeName) == d + (x + [SLASH] + y) + [SLASH] + t.typeName;
  }

  function Occurrences(s: seq<byte>, x: byte): nat {
    if s == [] then 0 else (if s[0] == x then 1 else 0) + Occurrences(s[1..], x)
  }

  lemma {:induction false} OccurrencesConcat(a: seq<byte>, b: seq<byte>, x: byte)
    ensures Occurrences(a + b, x) == Occurrences(a, x) + Occurrences(b, x)
  {
    if a == [] {
      assert a + b == b;
    } else {
      OccurrencesConcat(a[1..], b, x);
      assert (a + b)[0] == a[0] && (a + b)[1..] == a[1..] + b;
    }
  }

  lemma {:induction false} FreeMeansNone(s: seq<byte>, x: byte)
    ensures Free(s, x) <==> Occurrences(s, x) == 0
  {
    if s != [] {
      FreeMeansNone(s[1..], x);
      assert forall i | 0 < i < |s| :: s[i] == s[1..][i - 1];
    }
  }

  lemma KeySlashes(t: Topic)
    ensures Occurrences(KeyExpr(t), SLASH)
         == 3 + Occurrences(Strip(t.name), SLASH) + Occurrences(t.typeName, SLASH) + Occurrences(t.typeHash, SLASH)
  {
    hide Decimal, Strip, ValidUtf8, Occurrences;
    var a := Decimal(t.domain);
    var b := a + [SLASH];
    var c := b + Strip(t.name);
    var d := c + [SLASH];
    var e := d + t.typeName;
    OneSlash();
    DecimalFree(t.domain, SLASH);
    FreeMeansNone(a, SLASH);
    OccurrencesConcat(a, [SLASH], SLASH);
    OccurrencesConcat(b, Strip(t.name), SLASH);
    OccurrencesConcat(c, [SLASH], SLASH);
    OccurrencesConcat(d, t.typeName, SLASH);
    OccurrencesConcat(e, [SLASH], SLASH);
    OccurrencesConcat(e + [SLASH], t.typeHash, SLASH);
  }

  lemma OneSlash()
    ensures Occurrences([SLASH], SLASH) == 1
  {
    assert Occurrences([], SLASH) == 0;
  }

  lemma SlashlessAlone(t: Topic, u: Topic)
    requires Slashless(t) && KeyExpr(u) == KeyExpr(t)
    ensures SameParts(t, u)
  {
    hide KeyExpr, Strip, Occurrences, Free;
    KeySlashes(t);
    KeySlashes(u);
    FreeMeansNone(Strip(t.name), SLASH);
    FreeMeansNone(t.typeName, SLASH);
    FreeMeansNone(t.typeHash, SLASH);
    FreeMeansNone(u.typeName, SLASH);
    FreeMeansNone(u.typeHash, SLASH);
    KeyExprInjective(t, u);
  }

  // ── Local matching of topics ──────────────────────────────────────────

  /** Two topics match locally when domain and name agree, leading slashes aside. */
  predicate TopicsMatch(t: Topic, u: Topic) {
    t.domain == u.domain && Trim(t.name) == Trim(u.name)
  }

  /** The number of leading slashes. */
  function Slashes(name: seq<byte>): nat {
    if name != [] && name[0] == SLASH then 1 + Slashes(name[1..]) else 0
  }

  lemma {:induction false} SlashesAndTrim(name: seq<byte>)
    ensures |name| == Slashes(name) + |Trim(name)|
    ensures Trim(Strip(name)) == Trim(name)
    ensures |Strip(name)| == |Trim(name)| + if Slashes(name) == 0 then 0 else Slashes(name) - 1
    ensures Slashes(name) <= 1 ==> Strip(name) == Trim(name)
  {
    if name != [] && name[0] == SLASH {
      SlashesAndTrim(name[1..]);
    }
  }

  lemma {:induction false} SameName(a: seq<byte>, b: seq<byte>)
    requires Trim(a) == Trim(b) && Slashes(a) == Slashes(b)
    ensures a == b
    decreases |a|
  {
    if Slashes(a) > 0 {
      SameName(a[1..], b[1..]);
      assert a == [SLASH] + a[1..] && b == [SLASH] + b[1..];
    }
  }

  /** A common type and hash cancel, whatever they contain. */
  lemma SameTail(t: Topic, u: Topic)
    requires u.typeName == t.typeName && u.typeHash == t.typeHash && KeyExpr(t) == KeyExpr(u)
    ensures t.domain == u.domain && Strip(t.name) == Strip(u.name)
  {
    hide Decimal, Strip, Free;
    var tail := [SLASH] + t.typeName + [SLASH] + t.typeHash;
    var a, b := Decimal(t.domain) + [SLASH] + Strip(t.name), Decimal(u.domain) + [SLASH] + Strip(u.name);
    assert a + tail == KeyExpr(t) && b + tail == KeyExpr(u);
    assert a == (a + tail)[..|a|] && b == (b + tail)[..|b|];
    DecimalFree(t.domain, SLASH);
    DecimalFree(u.domain, SLASH);
    FirstSeparator(Decimal(t.domain), Strip(t.name), Decimal(u.domain), Strip(u.name), SLASH);
    DecimalInjective(t.domain, u.domain);
  }

  /** Topics with one type and hash have the same key if and only if domain and name agree, one leading slash
      aside; then they match locally. Topics that match locally have the same key if and only if their names
      begin with the same number of slashes, or with at most one each. */
  lemma MatchingAgreesWithKeys(t: Topic, u: Topic)
    requires u.typeName == t.typeName && u.typeHash == t.typeHash
    ensures KeyExpr(t) == KeyExpr(u) <==> t.domain == u.domain && Strip(t.name) == Strip(u.name)
    ensures KeyExpr(t) == KeyExpr(u) ==> TopicsMatch(t, u)
    ensures TopicsMatch(t, u) ==> (
      KeyExpr(t) == KeyExpr(u)
      <==> Slashes(t.name) == Slashes(u.name) || (Slashes(t.name) <= 1 && Slashes(u.name) <= 1))
  {
    hide Trim, Strip, Slashes, Free, Decimal;
    SlashesAndTrim(t.name);
    SlashesAndTrim(u.name);
    if KeyExpr(t) == KeyExpr(u) {
      SameTail(t, u);
    }
    if TopicsMatch(t, u) && Slashes(t.name) == Slashes(u.name) {
      SameName(t.name, u.name);
    }
  }

  /** Every topic has a partner that matches it locally and has another key: two more leading slashes suffice. */
  lemma EveryTopicDisagrees(t: Topic)
    ensures ValidUtf8([SLASH, SLASH] + t.name)
    ensures var u := t.(name := [SLASH, SLASH] + t.name); TopicsMatch(t, u) && KeyExpr(t) != KeyExpr(u)
  {
    AsciiIsUtf8([SLASH, SLASH]);
    Utf8Concat([SLASH, SLASH], t.name);
    MoreSlashes(t.name);
    SlashesAndTrim(t.name);
    SlashesAndTrim([SLASH, SLASH] + t.name);
    hide ValidUtf8, Trim, Slashes, Decimal, Strip;
    var u := t.(name := [SLASH, SLASH] + t.name);
    assert |KeyExpr(u)| - |Strip(u.name)| == |KeyExpr(t)| - |Strip(t.name)|;
  }

  lemma MoreSlashes(name: seq<byte>)
    ensures Slashes([SLASH, SLASH] + name) == 2 + Slashes(name) && Trim([SLASH, SLASH] + name) == Trim(name)
  {
    var n := [SLASH, SLASH] + name;
    assert n[1..] == [SLASH] + name && n[1..][1..] == name;
  }

  // ── QoS ───────────────────────────────────────────────────────────────

  datatype Reliability = BestEffort | Reliable
  datatype Durability = Volatile | TransientLocal
  datatype History = KeepLast(n: nat) | KeepAll

  datatype Qos = Qos(reliability: Reliability, durability: Durability, history: History) {
    predicate Valid() {
      history.KeepLast? ==> history.n < U32
    }
  }

  const QOS_DEFAULT := Qos(Reliable, Volatile, KeepLast(10))
  const DEFAULT_DEPTH: nat := 42

  function Depth(h: History): nat {
    match h
    case KeepLast(n) => n
    case KeepAll => 0
  }

  /** The four fields that can differ from the defaults of rmw_zenoh_cpp; a default is left out. */
  function ReliabilityField(q: Qos): seq<byte> {
    if q.reliability == BestEffort then [ZERO + 2] else []
  }

  function DurabilityField(q: Qos): seq<byte> {
    if q.durability == TransientLocal then [ZERO + 1] else []
  }

  function HistoryField(q: Qos): seq<byte> {
    if q.history.KeepAll? then [ZERO + 2] else []
  }

  function DepthField(q: Qos): seq<byte> {
    if Depth(q.history) == DEFAULT_DEPTH then [] else Decimal(Depth(q.history))
  }

  /** Deadline, lifespan and liveliness, which are always left out. */
  const QOS_TAIL: seq<byte> := [COMMA, COLON, COMMA, COLON, COMMA, COMMA]

  function QosString(q: Qos): seq<byte> {
    ReliabilityField(q) + [COLON]
      + (DurabilityField(q) + [COLON] + (HistoryField(q) + [COMMA] + (DepthField(q) + [COLON] + QOS_TAIL)))
  }

  lemma QosFieldsFree(q: Qos, x: byte)
    requires !IsDigit(x)
    ensures Free(ReliabilityField(q), x) && Free(DurabilityField(q), x) && Free(HistoryField(q), x)
    ensures Free(DepthField(q), x)
  {
    DecimalFree(Depth(q.history), x);
  }

  /** The QoS string determines the profile, although defaults are left out. */
  lemma QosInjective(p: Qos, q: Qos)
    requires QosString(p) == QosString(q)
    ensures p == q
  {
    hide Decimal, Free;
    QosFieldsFree(p, COLON);
    QosFieldsFree(q, COLON);
    QosFieldsFree(p, COMMA);
    QosFieldsFree(q, COMMA);
    QosFields(ReliabilityField(p), DurabilityField(p), HistoryField(p), DepthField(p),
              ReliabilityField(q), DurabilityField(q), HistoryField(q), DepthField(q));
    if Depth(p.history) != DEFAULT_DEPTH && Depth(q.history) != DEFAULT_DEPTH {
      DecimalInjective(Depth(p.history), Depth(q.history));
    }
    DecimalNotEmpty(Depth(p.history));
    DecimalNotEmpty(Depth(q.history));
  }

  lemma DecimalNotEmpty(n: nat)
    ensures Decimal(n) != []
  {
    DigitsAreDigits(n);
  }

  lemma QosFields(a: seq<byte>, b: seq<byte>, c: seq<byte>, d: seq<byte>, a': seq<byte>, b': seq<byte>, c': seq<byte>,
          d': seq<byte>)
    requires Free(a, COLON) && Free(b, COLON) && Free(c, COMMA) && Free(d, COLON)
    requires Free(a', COLON) && Free(b', COLON) && Free(c', COMMA) && Free(d', COLON)
    requires a + [COLON] + (b + [COLON] + (c + [COMMA] + (d + [COLON] + QOS_TAIL)))
          == a' + [COLON] + (b' + [COLON] + (c' + [COMMA] + (d' + [COLON] + QOS_TAIL)))
    ensures a == a' && b == b' && c == c' && d == d'
  {
    hide Free;
    FirstSeparator(a, b + [COLON] + (c + [COMMA] + (d + [COLON] + QOS_TAIL)),
                   a', b' + [COLON] + (c' + [COMMA] + (d' + [COLON] + QOS_TAIL)), COLON);
    FirstSeparator(b, c + [COMMA] + (d + [COLON] + QOS_TAIL), b', c' + [COMMA] + (d' + [COLON] + QOS_TAIL), COLON);
    FirstSeparator(c, d + [COLON] + QOS_TAIL, c', d' + [COLON] + QOS_TAIL, COMMA);
    FirstSeparator(d, QOS_TAIL, d', QOS_TAIL, COLON);
  }

  method PushQos(w: Writer, q: Qos) returns (r: Outcome<TransportError>)
    requires w.Valid() && q.Valid()
    modifies w, w.buf
    ensures w.Valid() && Appended(old(w.Written()), w.Written(), w.buf.Length, QosString(q), r)
  {
    hide Decimal, HistoryField, DepthField;
    ghost var s, tail := w.Written(), HistoryField(q) + [COMMA] + (DepthField(q) + [COLON] + QOS_TAIL);
    :- w.PutIf(q.reliability == BestEffort, ZERO + 2);
    :- w.PutByte(COLON);
    :- w.PutIf(q.durability == TransientLocal, ZERO + 1);
    :- w.PutByte(COLON);
    :- PushHistory(w, q);
    Nest(s, ReliabilityField(q), [COLON], DurabilityField(q), [COLON], tail);
    return Pass;
  }

  method PushHistory(w: Writer, q: Qos) returns (r: Outcome<TransportError>)
    requires w.Valid() && q.Valid()
    modifies w, w.buf
    ensures w.Valid()
    ensures Appended(old(w.Written()), w.Written(), w.buf.Length,
                     HistoryField(q) + [COMMA] + (DepthField(q) + [COLON] + QOS_TAIL), r)
  {
    hide Decimal;
    ghost var s := w.Written();
    :- w.PutIf(q.history.KeepAll?, ZERO + 2);
    :- w.PutByte(COMMA);
    :- PushDepth(w, Depth(q.history));
    :- w.PutByte(COLON);
    :- w.PutBytes(QOS_TAIL);
    Nest(s, HistoryField(q), [COMMA], DepthField(q), [COLON], QOS_TAIL);
    return Pass;
  }

  method PushDepth(w: Writer, depth: nat) returns (r: Outcome<TransportError>)
    requires w.Valid() && depth < U32
    modifies w, w.buf
    ensures w.Valid()
    ensures Appended(old(w.Written()), w.Written(), w.buf.Length,
                     if depth == DEFAULT_DEPTH then [] else Decimal(depth), r)
  {
    r := Pass;
    if depth != DEFAULT_DEPTH {
      r := PushDecimal(w, depth);
    }
  }

  lemma Nest(s: seq<byte>, a: seq<byte>, b: seq<byte>, c: seq<byte>, d: seq<byte>, e: seq<byte>)
    ensures s + a + b + c + d + e == s + (a + b + (c + d + e))
  {
    Join2(s, a, b);
    Join3(s + (a + b), c, d, e);
    Join2(s, a + b, c + d + e);
    Join2(c, d, e);
  }
}
