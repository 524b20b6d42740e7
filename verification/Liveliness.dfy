/** Liveliness tokens: thirteen fields separated by slashes, with the slashes
    inside names replaced by percent signs. */
module Liveliness {
  import opened Common
  import opened Writing
  import opened Utf8
  import opened Names

  // ── Fields and separators ─────────────────────────────────────────────

  function Join(fs: seq<seq<byte>>): seq<byte>
    requires fs != []
  {
    if |fs| == 1 then fs[0] else fs[0] + [SLASH] + Join(fs[1..])
  }

  function Split(s: seq<byte>): (fs: seq<seq<byte>>)
    ensures fs != []
  {
    if s == [] then [[]]
    else
      var rest := Split(s[1..]);
      if s[0] == SLASH then [[]] + rest else [[s[0]] + rest[0]] + rest[1..]
  }

  predicate AllFree(fs: seq<seq<byte>>) {
    forall i | 0 <= i < |fs| :: Free(fs[i], SLASH)
  }

  lemma {:induction false} SplitField(f: seq<byte>, rest: seq<byte>)
    requires Free(f, SLASH)
    ensures Split(f + [SLASH] + rest) == [f] + Split(rest)
    ensures Split(f) == [f]
    decreases |f|
  {
    var s := f + [SLASH] + rest;
    if f == [] {
      assert s[1..] == rest;
    } else {
      SplitField(f[1..], rest);
      assert s[1..] == f[1..] + [SLASH] + rest;
      assert [f[0]] + f[1..] == f;
    }
  }

  /** Splitting at the slashes gives back the fields, when no field contains one. */
  lemma {:induction false} SplitOfJoin(fs: seq<seq<byte>>)
    requires fs != [] && AllFree(fs)
    ensures Split(Join(fs)) == fs
    decreases |fs|
  {
    if |fs| == 1 {
      SplitField(fs[0], []);
    } else {
      assert forall i | 0 <= i < |fs[1..]| :: fs[1..][i] == fs[i + 1];
      SplitOfJoin(fs[1..]);
      SplitField(fs[0], Join(fs[1..]));
      assert [fs[0]] + fs[1..] == fs;
    }
  }

  /** Adding a field at the end. */
  lemma {:induction false} JoinSnoc(fs: seq<seq<byte>>, f: seq<byte>)
    requires fs != []
    ensures Join(fs + [f]) == Join(fs) + [SLASH] + f
    decreases |fs|
  {
    if |fs| == 1 {
      assert (fs + [f])[1..] == [f];
    } else {
      JoinSnoc(fs[1..], f);
      assert (fs + [f])[1..] == fs[1..] + [f];
      Join2(fs[0] + [SLASH], Join(fs[1..]), [SLASH]);
      assert fs[0] + [SLASH] + (Join(fs[1..]) + [SLASH] + f) == fs[0] + [SLASH] + Join(fs[1..]) + [SLASH] + f;
    }
  }

  // ── Mangling ──────────────────────────────────────────────────────────

  function MangleByte(b: byte): byte {
    if b == SLASH then PERCENT else b
  }

  /** Every slash becomes a percent sign. A slash never occurs inside a multi-byte character. */
  function Replace(name: seq<byte>): (s: seq<byte>)
    ensures |s| == |name| && Free(s, SLASH)
  {
    seq(|name|, i requires 0 <= i < |name| => MangleByte(name[i]))
  }

  /** What an empty name stands for. */
  function Relative(name: seq<byte>): seq<byte> {
    if name == [] then [SLASH] else name
  }

  /** The absolute form of a name. */
  function Absolute(name: seq<byte>): seq<byte> {
    if name == [] then [SLASH] else if name[0] == SLASH then name else [SLASH] + name
  }

  lemma ReplaceInjective(a: seq<byte>, b: seq<byte>)
    requires Free(a, PERCENT) && Free(b, PERCENT) && Replace(a) == Replace(b)
    ensures a == b
  {
    forall i | 0 <= i < |a|
      ensures a[i] == b[i]
    {
      assert Replace(a)[i] == Replace(b)[i];
    }
  }

  lemma NormalFree(name: seq<byte>)
    requires Free(name, PERCENT)
    ensures Free(Relative(name), PERCENT) && Free(Absolute(name), PERCENT)
  {
  }

  /** `push_mangled` and, from its second step on, `push_mangled_absolute`. */
  method PushReplaced(w: Writer, name: seq<byte>) returns (r: Outcome<TransportError>)
    requires w.Valid()
    modifies w, w.buf
    ensures w.Valid() && Appended(old(w.Written()), w.Written(), w.buf.Length, Replace(name), r)
  {
    ghost var s := w.Written();
    for i := 0 to |name|
      invariant w.Valid() && w.Written() == s + Replace(name)[..i]
    {
      :- w.PutByte(MangleByte(name[i]));
      assert Replace(name)[..i + 1] == Replace(name)[..i] + [MangleByte(name[i])];
      Join2(s, Replace(name)[..i], [MangleByte(name[i])]);
    }
    assert Replace(name)[..|name|] == Replace(name);
    return Pass;
  }

  method PushMangled(w: Writer, name: seq<byte>) returns (r: Outcome<TransportError>)
    requires w.Valid()
    modifies w, w.buf
    ensures w.Valid() && Appended(old(w.Written()), w.Written(), w.buf.Length, Replace(Relative(name)), r)
  {
    if name == [] || name == [SLASH] {
      assert Replace(Relative(name)) == [PERCENT];
      r := w.PutByte(PERCENT);
      return;
    }
    r := PushReplaced(w, name);
  }

  method PushMangledAbsolute(w: Writer, name: seq<byte>) returns (r: Outcome<TransportError>)
    requires w.Valid()
    modifies w, w.buf
    ensures w.Valid() && Appended(old(w.Written()), w.Written(), w.buf.Length, Replace(Absolute(name)), r)
  {
    if name == [] || name == [SLASH] {
      assert Replace(Absolute(name)) == [PERCENT];
      r := w.PutByte(PERCENT);
      return;
    }
    ghost var s := w.Written();
    if name[0] != SLASH {
      :- w.PutByte(PERCENT);
      assert Replace(Absolute(name)) == [PERCENT] + Replace(name);
      Join2(s, [PERCENT], Replace(name));
    }
    r := PushReplaced(w, name);
  }

  // ── Hexadecimal identifiers ───────────────────────────────────────────

  function HexDigit(n: nat): byte
    requires n < 16
  {
    if n < 10 then ZERO + n else 0x61 + (n - 10)
  }

  function Hex(zid: seq<byte>): (s: seq<byte>)
    ensures |s| == 2 * |zid| && Free(s, SLASH)
  {
    if zid == [] then [] else [HexDigit(zid[0] / 16), HexDigit(zid[0] % 16)] + Hex(zid[1..])
  }

  lemma {:induction false} HexInjective(a: seq<byte>, b: seq<byte>)
    requires Hex(a) == Hex(b)
    ensures a == b
  {
    if a != [] {
      var s := Hex(a);
      assert s[0] == HexDigit(a[0] / 16) == HexDigit(b[0] / 16);
      assert s[1] == HexDigit(a[0] % 16) == HexDigit(b[0] % 16);
      assert s[2..] == Hex(a[1..]) == Hex(b[1..]);
      HexInjective(a[1..], b[1..]);
      assert a == [a[0]] + a[1..] && b == [b[0]] + b[1..];
    }
  }

  lemma {:induction false} HexSnoc(a: seq<byte>, x: byte)
    ensures Hex(a + [x]) == Hex(a) + [HexDigit(x / 16), HexDigit(x % 16)]
  {
    if a == [] {
      assert a + [x] == [x];
    } else {
      assert (a + [x])[1..] == a[1..] + [x];
      HexSnoc(a[1..], x);
    }
  }

  method PushHex(w: Writer, zid: seq<byte>) returns (r: Outcome<TransportError>)
    requires w.Valid()
    modifies w, w.buf
    ensures w.Valid() && Appended(old(w.Written()), w.Written(), w.buf.Length, Hex(zid), r)
  {
    ghost var s := w.Written();
    for i := 0 to |zid|
      invariant w.Valid() && w.Written() == s + Hex(zid[..i])
    {
      HexPrefix(zid, i);
      :- w.PutByte(HexDigit(zid[i] / 16));
      :- w.PutByte(HexDigit(zid[i] % 16));
      Join3(s, Hex(zid[..i]), [HexDigit(zid[i] / 16)], [HexDigit(zid[i] % 16)]);
    }
    assert zid[..|zid|] == zid;
    return Pass;
  }

  lemma HexPrefix(zid: seq<byte>, i: nat)
    requires i < |zid|
    ensures Hex(zid[..i + 1]) == Hex(zid[..i]) + ([HexDigit(zid[i] / 16)] + [HexDigit(zid[i] % 16)])
    ensures |Hex(zid[..i])| + 2 <= |Hex(zid)|
  {
    assert zid[..i + 1] == zid[..i] + [zid[i]];
    HexSnoc(zid[..i], zid[i]);
  }

  // ── Tokens ────────────────────────────────────────────────────────────

  const MAX_LIVELINESS_LEN: nat := 512

  /** "@ros2_lv" */
  const PREFIX: seq<byte> := [0x40, 0x72, 0x6F, 0x73, 0x32, 0x5F, 0x6C, 0x76]

  datatype EntityType = PublisherEntity | SubscriberEntity | ServiceServer | ServiceClient {
    /** "MP", "MS", "SS", "SC" */
    function Code(): seq<byte> {
      match this
      case PublisherEntity => [0x4D, 0x50]
      case SubscriberEntity => [0x4D, 0x53]
      case ServiceServer => [0x53, 0x53]
      case ServiceClient => [0x53, 0x43]
    }
  }

  datatype Entity = Entity(domain: nat, zid: seq<byte>, nodeId: nat, entityId: nat, entityType: EntityType,
                           enclave: seq<byte>, namespace: seq<byte>, node: seq<byte>, topic: seq<byte>,
                           typeName: seq<byte>, typeHash: seq<byte>, qos: Qos)
  {
    predicate Valid() {
      domain < U32 && nodeId < U32 && entityId < U32 && qos.Valid()
    }

    /** Names without percent signs. */
    predicate PercentFree() {
      && Free(enclave, PERCENT) && Free(namespace, PERCENT) && Free(node, PERCENT)
      && Free(topic, PERCENT) && Free(typeName, PERCENT) && Free(typeHash, PERCENT)
    }

    /** The same entity with its names as they stand in the token. */
    function Mangled(): Entity {
      this.(enclave := Replace(Absolute(enclave)), namespace := Replace(Absolute(namespace)),
            node := Replace(Relative(node)), topic := Replace(Absolute(topic)),
            typeName := Replace(Relative(typeName)), typeHash := Replace(Relative(typeHash)))
    }

    predicate ValidNames() {
      && ValidUtf8(enclave) && ValidUtf8(namespace) && ValidUtf8(node)
      && ValidUtf8(topic) && ValidUtf8(typeName) && ValidUtf8(typeHash)
    }

    /** The same entity with its names in the form the token stands for. */
    function Normal(): Entity {
      this.(enclave := Absolute(enclave), namespace := Absolute(namespace), node := Relative(node),
            topic := Absolute(topic), typeName := Relative(typeName), typeHash := Relative(typeHash))
    }
  }

  function Fields(e: Entity): (fs: seq<seq<byte>>)
    ensures |fs| == 13
  {
    [PREFIX, Decimal(e.domain), Hex(e.zid), Decimal(e.nodeId), Decimal(e.entityId), e.entityType.Code(),
     Replace(Absolute(e.enclave)), Replace(Absolute(e.namespace)), Replace(Relative(e.node)),
     Replace(Absolute(e.topic)), Replace(Relative(e.typeName)), Replace(Relative(e.typeHash)), QosString(e.qos)]
  }

  function Token(e: Entity): seq<byte> {
    Join(Fields(e))
  }

  lemma QosFree(q: Qos)
    ensures Free(QosString(q), SLASH)
  {
    hide Decimal;
    QosFieldsFree(q, SLASH);
  }

  /** No field contains a slash, so a token splits into exactly its thirteen fields. */
  lemma TokenFields(e: Entity)
    ensures Split(Token(e)) == Fields(e) && |Split(Token(e))| == 13
  {
    DecimalFree(e.domain, SLASH);
    DecimalFree(e.nodeId, SLASH);
    DecimalFree(e.entityId, SLASH);
    QosFree(e.qos);
    hide Decimal, Replace, Hex, QosString;
    SplitOfJoin(Fields(e));
  }

  /** Two entities have the same token if and only if their numbers, types and profiles agree, and their names
      once they are mangled. */
  lemma TokenSame(e: Entity, f: Entity)
    ensures Token(e) == Token(f) <==> e.Mangled() == f.Mangled()
  {
    hide Decimal, Replace, Hex, QosString, Free, Token, Split, Absolute, Relative, Entity.Mangled, Fields;
    TokenFields(e);
    TokenFields(f);
    SameFields(e, f);
    if Fields(e) == Fields(f) {
      SameJoin(e, f);
    }
  }

  lemma SameJoin(e: Entity, f: Entity)
    requires Fields(e) == Fields(f)
    ensures Token(e) == Token(f)
  {
    hide Fields;
  }

  lemma SameFields(e: Entity, f: Entity)
    ensures Fields(e) == Fields(f) <==> e.Mangled() == f.Mangled()
  {
    hide Decimal, Replace, Hex, QosString, Absolute, Relative;
    var s, t := Fields(e), Fields(f);
    if s == t {
      assert s[1] == t[1] && s[2] == t[2] && s[3] == t[3] && s[4] == t[4] && s[5] == t[5] && s[6] == t[6];
      assert s[7] == t[7] && s[8] == t[8] && s[9] == t[9] && s[10] == t[10] && s[11] == t[11] && s[12] == t[12];
      DecimalInjective(e.domain, f.domain);
      HexInjective(e.zid, f.zid);
      DecimalInjective(e.nodeId, f.nodeId);
      DecimalInjective(e.entityId, f.entityId);
      QosInjective(e.qos, f.qos);
    }
  }

  /** For names without percent signs, two entities have the same token if and only if they agree up
      to the normal form of their names: the token determines every field. */
  lemma TokenInjective(e: Entity, f: Entity)
    requires e.PercentFree() && f.PercentFree()
    ensures Token(e) == Token(f) <==> e.Normal() == f.Normal()
  {
    hide Token, Replace, Free, Absolute, Relative;
    TokenSame(e, f);
    SameName(e.enclave, f.enclave, true);
    SameName(e.namespace, f.namespace, true);
    SameName(e.node, f.node, false);
    SameName(e.topic, f.topic, true);
    SameName(e.typeName, f.typeName, false);
    SameName(e.typeHash, f.typeHash, false);
  }

  /** The normal form of a name. */
  function NormalName(name: seq<byte>, absolute: bool): (n: seq<byte>)
    ensures n != [] && (absolute ==> n[0] == SLASH)
  {
    if absolute then Absolute(name) else Relative(name)
  }

  lemma SameName(a: seq<byte>, b: seq<byte>, absolute: bool)
    requires Free(a, PERCENT) && Free(b, PERCENT)
    ensures Replace(NormalName(a, absolute)) == Replace(NormalName(b, absolute))
       <==> NormalName(a, absolute) == NormalName(b, absolute)
  {
    NormalFree(a);
    NormalFree(b);
    if Replace(NormalName(a, absolute)) == Replace(NormalName(b, absolute)) {
      ReplaceInjective(NormalName(a, absolute), NormalName(b, absolute));
    }
  }

  // ── Which tokens are ambiguous ────────────────────────────────────────

  /** The normal form of the name has a slash or a percent sign, other than the slash that every absolute
      name begins with: mangling does not tell these two from each other. */
  predicate Changeable(name: seq<byte>, absolute: bool) {
    exists i | (if absolute then 1 else 0) <= i < |NormalName(name, absolute)| ::
      NormalName(name, absolute)[i] in {SLASH, PERCENT}
  }

  predicate Ambiguous(e: Entity) {
    || Changeable(e.enclave, true) || Changeable(e.namespace, true) || Changeable(e.node, false)
    || Changeable(e.topic, true) || Changeable(e.typeName, false) || Changeable(e.typeHash, false)
  }

  /** Among all entities, and among all valid ones with names in UTF-8, the token determines an entity, up to
      the normal form of its names, if and only if no name has a changeable character. */
  lemma TokenDetermines(e: Entity)
    ensures !Ambiguous(e) <==> forall f: Entity | Token(f) == Token(e) :: f.Normal() == e.Normal()
    ensures e.Valid() && e.ValidNames() ==> (
      !Ambiguous(e)
      <==> forall f: Entity | f.Valid() && f.ValidNames() && Token(f) == Token(e) :: f.Normal() == e.Normal())
  {
    hide Token, Ambiguous, Entity.Normal;
    if Ambiguous(e) {
      var f := TokenPartner(e);
    } else {
      forall f: Entity | Token(f) == Token(e)
        ensures f.Normal() == e.Normal()
      {
        UnambiguousAlone(e, f);
      }
    }
  }

  lemma UnambiguousAlone(e: Entity, f: Entity)
    requires !Ambiguous(e) && Token(f) == Token(e)
    ensures f.Normal() == e.Normal()
  {
    hide Token, Replace, Absolute, Relative, Changeable;
    TokenSame(e, f);
    Unchangeable(e.enclave, f.enclave, true);
    Unchangeable(e.namespace, f.namespace, true);
    Unchangeable(e.node, f.node, false);
    Unchangeable(e.topic, f.topic, true);
    Unchangeable(e.typeName, f.typeName, false);
    Unchangeable(e.typeHash, f.typeHash, false);
  }

  lemma Unchangeable(a: seq<byte>, b: seq<byte>, absolute: bool)
    requires !Changeable(a, absolute)
    ensures Replace(NormalName(a, absolute)) == Replace(NormalName(b, absolute)) ==>
      NormalName(a, absolute) == NormalName(b, absolute)
  {
    hide Absolute, Relative;
    var m, n := NormalName(a, absolute), NormalName(b, absolute);
    if Replace(m) == Replace(n) {
      forall i | 0 <= i < |m|
        ensures m[i] == n[i]
      {
        assert Replace(m)[i] == Replace(n)[i];
        if absolute && i == 0 {
          assert m[i] == n[i] == SLASH;
        } else {
          assert m[i] !in {SLASH, PERCENT};
        }
      }
    }
  }

  /** Every entity with a changeable character shares its token with a different one. */
  lemma TokenPartner(e: Entity) returns (f: Entity)
    requires Ambiguous(e)
    ensures Token(f) == Token(e) && f.Normal() != e.Normal()
    ensures (e.Valid() ==> f.Valid()) && (e.ValidNames() ==> f.ValidNames())
  {
    hide Token, Replace, Absolute, Relative, Changeable, ValidUtf8;
    if Changeable(e.enclave, true) {
      var name := Changed(e.enclave, true);
      f := e.(enclave := name);
    } else if Changeable(e.namespace, true) {
      var name := Changed(e.namespace, true);
      f := e.(namespace := name);
    } else if Changeable(e.node, false) {
      var name := Changed(e.node, false);
      f := e.(node := name);
    } else if Changeable(e.topic, true) {
      var name := Changed(e.topic, true);
      f := e.(topic := name);
    } else if Changeable(e.typeName, false) {
      var name := Changed(e.typeName, false);
      f := e.(typeName := name);
    } else {
      var name := Changed(e.typeHash, false);
      f := e.(typeHash := name);
    }
    TokenSame(e, f);
  }

  /** The name with one slash exchanged for a percent sign or the other way round. */
  lemma Changed(name: seq<byte>, absolute: bool) returns (other: seq<byte>)
    requires Changeable(name, absolute)
    ensures Replace(NormalName(other, absolute)) == Replace(NormalName(name, absolute))
    ensures NormalName(other, absolute) != NormalName(name, absolute)
    ensures ValidUtf8(name) ==> ValidUtf8(other)
  {
    hide ValidUtf8;
    var n := NormalName(name, absolute);
    var i :| (if absolute then 1 else 0) <= i < |n| && n[i] in {SLASH, PERCENT};
    other := n[i := if n[i] == SLASH then PERCENT else SLASH];
    assert other[i] != n[i];
    assert NormalName(other, absolute) == other;
    NormalIsUtf8(name, absolute);
    if ValidUtf8(n) {
      Utf8Exchange(n, other);
    }
  }

  lemma NormalIsUtf8(name: seq<byte>, absolute: bool)
    ensures ValidUtf8(name) ==> ValidUtf8(NormalName(name, absolute))
  {
    hide ValidUtf8;
    AsciiIsUtf8([SLASH]);
    if ValidUtf8(name) {
      Utf8Concat([SLASH], name);
    }
  }

  /** The token of an entity, if it fits into the capacity. */
  function TokenOf(e: Entity): Option<seq<byte>> {
    if |Token(e)| <= MAX_LIVELINESS_LEN then Some(Token(e)) else None
  }

  method BuildLivelinessToken(e: Entity) returns (t: Option<seq<byte>>)
    requires e.Valid()
    ensures t == TokenOf(e)
  {
    hide Token;
    var buf := new byte[MAX_LIVELINESS_LEN];
    var w := new Writer(buf);
    var r := PushToken(w, e);
    if r.Fail? {
      return None;
    }
    assert [] + Token(e) == Token(e);
    return Some(w.Written());
  }

  /** What was written are the first `n` fields. */
  ghost predicate FieldsDone(s: seq<byte>, fs: seq<seq<byte>>, n: nat) {
    0 < n <= |fs| && s == Join(fs[..n])
  }

  /** The next field follows after a slash, and what is written is never longer than the whole. */
  lemma NextField(s: seq<byte>, fs: seq<seq<byte>>, n: nat)
    requires FieldsDone(s, fs, n) && n < |fs|
    ensures FieldsDone(s + ([SLASH] + fs[n]), fs, n + 1)
    ensures |s| + 1 + |fs[n]| <= |Join(fs)|
  {
    assert fs[..n + 1] == fs[..n] + [fs[n]];
    JoinSnoc(fs[..n], fs[n]);
    Join2(s, [SLASH], fs[n]);
    PrefixLonger(fs, n + 1);
  }

  lemma {:induction false} PrefixLonger(fs: seq<seq<byte>>, n: nat)
    requires 0 < n <= |fs|
    ensures |Join(fs[..n])| <= |Join(fs)|
    decreases |fs| - n
  {
    if n == |fs| {
      assert fs[..n] == fs;
    } else {
      assert fs[..n + 1] == fs[..n] + [fs[n]];
      JoinSnoc(fs[..n], fs[n]);
      PrefixLonger(fs, n + 1);
    }
  }

  lemma AllFields(s: seq<byte>, fs: seq<seq<byte>>)
    requires FieldsDone(s, fs, |fs|)
    ensures s == Join(fs)
  {
    assert fs[..|fs|] == fs;
  }

  method PushDecimalField(w: Writer, n: nat) returns (r: Outcome<TransportError>)
    requires w.Valid() && n < U32
    modifies w, w.buf
    ensures w.Valid() && Appended(old(w.Written()), w.Written(), w.buf.Length, [SLASH] + Decimal(n), r)
  {
    hide Decimal;
    ghost var s := w.Written();
    :- w.PutByte(SLASH);
    :- PushDecimal(w, n);
    Join2(s, [SLASH], Decimal(n));
    return Pass;
  }

  method PushHexField(w: Writer, zid: seq<byte>) returns (r: Outcome<TransportError>)
    requires w.Valid()
    modifies w, w.buf
    ensures w.Valid() && Appended(old(w.Written()), w.Written(), w.buf.Length, [SLASH] + Hex(zid), r)
  {
    hide Hex;
    ghost var s := w.Written();
    :- w.PutByte(SLASH);
    :- PushHex(w, zid);
    Join2(s, [SLASH], Hex(zid));
    return Pass;
  }

  method PushRelativeField(w: Writer, name: seq<byte>) returns (r: Outcome<TransportError>)
    requires w.Valid()
    modifies w, w.buf
    ensures w.Valid() && Appended(old(w.Written()), w.Written(), w.buf.Length, [SLASH] + Replace(Relative(name)), r)
  {
    hide Replace, Relative;
    ghost var s := w.Written();
    :- w.PutByte(SLASH);
    :- PushMangled(w, name);
    Join2(s, [SLASH], Replace(Relative(name)));
    return Pass;
  }

  method PushAbsoluteField(w: Writer, name: seq<byte>) returns (r: Outcome<TransportError>)
    requires w.Valid()
    modifies w, w.buf
    ensures w.Valid() && Appended(old(w.Written()), w.Written(), w.buf.Length, [SLASH] + Replace(Absolute(name)), r)
  {
    hide Replace, Absolute;
    ghost var s := w.Written();
    :- w.PutByte(SLASH);
    :- PushMangledAbsolute(w, name);
    Join2(s, [SLASH], Replace(Absolute(name)));
    return Pass;
  }

  method PushQosField(w: Writer, q: Qos) returns (r: Outcome<TransportError>)
    requires w.Valid() && q.Valid()
    modifies w, w.buf
    ensures w.Valid() && Appended(old(w.Written()), w.Written(), w.buf.Length, [SLASH] + QosString(q), r)
  {
    hide QosString;
    ghost var s := w.Written();
    :- w.PutByte(SLASH);
    :- PushQos(w, q);
    Join2(s, [SLASH], QosString(q));
    return Pass;
  }

  method PushToken(w: Writer, e: Entity) returns (r: Outcome<TransportError>)
    requires w.Valid() && e.Valid() && w.Written() == []
    modifies w, w.buf
    ensures w.Valid()
    ensures r.Pass? ==> w.Written() == Token(e)
    ensures r.Fail? ==> |Token(e)| > w.buf.Length
  {
    hide FieldsDone, QosString, Join, Fields;
    FieldValues(e);
    ghost var fs := Fields(e);
    :- PushIds(w, e);
    :- PushNames(w, e);
    NextField(w.Written(), fs, 12);
    :- PushQosField(w, e.qos);
    AllFields(w.Written(), fs);
    return Pass;
  }

  /** The prefix, the numbers, the identifier and the entity type. */
  method PushIds(w: Writer, e: Entity) returns (r: Outcome<TransportError>)
    requires w.Valid() && e.Valid() && w.Written() == []
    modifies w, w.buf
    ensures w.Valid()
    ensures r.Pass? ==> FieldsDone(w.Written(), Fields(e), 6)
    ensures r.Fail? ==> |Token(e)| > w.buf.Length
  {
    hide FieldsDone, Decimal, Hex, Join, Fields, EntityType.Code;
    FieldValues(e);
    ghost var fs := Fields(e);
    FirstField(fs);
    :- w.PutBytes(PREFIX);
    assert w.Written() == PREFIX;
    NextField(w.Written(), fs, 1);
    :- PushDecimalField(w, e.domain);
    NextField(w.Written(), fs, 2);
    :- PushHexField(w, e.zid);
    NextField(w.Written(), fs, 3);
    :- PushDecimalField(w, e.nodeId);
    NextField(w.Written(), fs, 4);
    :- PushDecimalField(w, e.entityId);
    NextField(w.Written(), fs, 5);
    :- w.PutBytes([SLASH] + e.entityType.Code());
    return Pass;
  }

  /** The mangled names. */
  method PushNames(w: Writer, e: Entity) returns (r: Outcome<TransportError>)
    requires w.Valid() && FieldsDone(w.Written(), Fields(e), 6)
    modifies w, w.buf
    ensures w.Valid()
    ensures r.Pass? ==> FieldsDone(w.Written(), Fields(e), 12)
    ensures r.Fail? ==> |Token(e)| > w.buf.Length
  {
    hide FieldsDone, Replace, Absolute, Relative, Join, Fields;
    FieldValues(e);
    ghost var fs := Fields(e);
    NextField(w.Written(), fs, 6);
    :- PushAbsoluteField(w, e.enclave);
    NextField(w.Written(), fs, 7);
    :- PushAbsoluteField(w, e.namespace);
    NextField(w.Written(), fs, 8);
    :- PushRelativeField(w, e.node);
    NextField(w.Written(), fs, 9);
    :- PushAbsoluteField(w, e.topic);
    NextField(w.Written(), fs, 10);
    :- PushRelativeField(w, e.typeName);
    NextField(w.Written(), fs, 11);
    :- PushRelativeField(w, e.typeHash);
    return Pass;
  }

  lemma FieldValues(e: Entity)
    ensures var fs := Fields(e);
      && fs[0] == PREFIX && fs[1] == Decimal(e.domain) && fs[2] == Hex(e.zid) && fs[3] == Decimal(e.nodeId)
      && fs[4] == Decimal(e.entityId) && fs[5] == e.entityType.Code()
      && fs[6] == Replace(Absolute(e.enclave)) && fs[7] == Replace(Absolute(e.namespace))
        && fs[8] == Replace(Relative(e.node))
      && fs[9] == Replace(Absolute(e.topic)) && fs[10] == Replace(Relative(e.typeName))
        && fs[11] == Replace(Relative(e.typeHash))
      && fs[12] == QosString(e.qos)
  {
  }

  lemma FirstField(fs: seq<seq<byte>>)
    requires fs != []
    ensures FieldsDone(fs[0], fs, 1) && |fs[0]| <= |Join(fs)|
  {
    assert fs[..1] == [fs[0]];
    PrefixLonger(fs, 1);
  }
}
