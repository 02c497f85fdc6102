/** The two transaction preimages (src/types.rs): the canonical length-prefixed
    one, and the legacy one that joins fields with `|`. */
module Signing {
  import opened Base
  import opened Types
  import opened Decimal

  const TX_DOMAIN_V2: Bytes := "inazuma-tx-v2"

  // ---- canonical (v2) preimage ----

  /** `n` as `width` big-endian bytes; higher bits are dropped, as a Rust cast drops them. */
  function BigEndian(n: nat, width: nat): (b: Bytes)
    ensures |b| == width
    decreases width
  {
    if width == 0 then "" else BigEndian(n / 256, width - 1) + [(n % 256) as char]
  }

  /** A length-prefixed field. */
  function Field(b: Bytes): Bytes {
    BigEndian(|b|, 4) + b
  }

  function Fields(items: seq<Bytes>): Bytes {
    if items == [] then "" else Field(items[0]) + Fields(items[1..])
  }

  function FieldList(items: seq<Bytes>): Bytes {
    BigEndian(|items|, 4) + Fields(items)
  }

  function Flag(b: bool): Bytes {
    if b then "\U{01}" else "\U{00}"
  }

  function PayloadPart(p: Payload): Bytes {
    Field(p.token) + (Field(p.symbol) + (Field(p.name) +
    ([p.decimals as char] + (Flag(p.mintable) + (Field(p.code) + Field(p.args))))))
  }

  function ShieldedPart(s: ShieldedData): Bytes {
    Field(s.anchor) + (FieldList(s.nullifiers) + (FieldList(s.commitments) +
    (Field(s.proof) + Field(s.publicUnshield))))
  }

  function Tail(tx: Transaction): Bytes {
    (if tx.payload.None? then Flag(false) else Flag(true) + PayloadPart(tx.payload.value)) +
    (if tx.shielded.None? then Flag(false) else Flag(true) + ShieldedPart(tx.shielded.value))
  }

  function Canonical(tx: Transaction): Bytes {
    Field(TX_DOMAIN_V2) + (BigEndian(tx.chainId, 8) + (Field(tx.kind.Tag()) +
    (Field(tx.fromPubkey) + (Field(tx.to) + (BigEndian(tx.amount, 16) +
    (BigEndian(tx.fee, 16) + (BigEndian(tx.nonce, 8) + Tail(tx))))))))
  }

  /** Append one encoded item; `done + Field(b)` followed by `rest` is unchanged text. */
  method PushField(buf: Bytes, b: Bytes, ghost rest: Bytes) returns (out: Bytes)
    ensures out + rest == buf + (Field(b) + rest)
  {
    out := buf + BigEndian(|b|, 4);
    out := out + b;
  }

  method PushList(buf: Bytes, items: seq<Bytes>, ghost rest: Bytes) returns (out: Bytes)
    ensures out + rest == buf + (FieldList(items) + rest)
  {
    hide Field, BigEndian;
    out := buf + BigEndian(|items|, 4);
    for i := 0 to |items|
      invariant out + (Fields(items[i..]) + rest) == buf + (FieldList(items) + rest)
    {
      assert items[i..][1..] == items[i + 1..];
      assert Fields(items[i..]) + rest == Field(items[i]) + (Fields(items[i + 1..]) + rest);
      out := PushField(out, items[i], Fields(items[i + 1..]) + rest);
    }
  }

  method PushPayload(buf: Bytes, p: Payload, ghost rest: Bytes) returns (out: Bytes)
    ensures out + rest == buf + (PayloadPart(p) + rest)
  {
    hide Field, Flag;
    ghost var r5 := Field(p.code) + (Field(p.args) + rest);
    ghost var r3 := [p.decimals as char] + (Flag(p.mintable) + r5);
    assert PayloadPart(p) + rest == Field(p.token) + (Field(p.symbol) + (Field(p.name) + r3));
    out := PushField(buf, p.token, Field(p.symbol) + (Field(p.name) + r3));
    out := PushField(out, p.symbol, Field(p.name) + r3);
    out := PushField(out, p.name, r3);
    assert out + r3 == ((out + [p.decimals as char]) + Flag(p.mintable)) + r5;
    out := out + [p.decimals as char];
    out := out + Flag(p.mintable);
    out := PushField(out, p.code, Field(p.args) + rest);
    out := PushField(out, p.args, rest);
  }

  method PushShielded(buf: Bytes, s: ShieldedData, ghost rest: Bytes) returns (out: Bytes)
    ensures out + rest == buf + (ShieldedPart(s) + rest)
  {
    hide Field, FieldList;
    ghost var r3 := Field(s.proof) + (Field(s.publicUnshield) + rest);
    assert ShieldedPart(s) + rest == Field(s.anchor) + (FieldList(s.nullifiers) + (FieldList(s.commitments) + r3));
    out := PushField(buf, s.anchor, FieldList(s.nullifiers) + (FieldList(s.commitments) + r3));
    out := PushList(out, s.nullifiers, FieldList(s.commitments) + r3);
    out := PushList(out, s.commitments, r3);
    out := PushField(out, s.proof, Field(s.publicUnshield) + rest);
    out := PushField(out, s.publicUnshield, rest);
  }

  method PushTail(buf: Bytes, tx: Transaction) returns (out: Bytes)
    ensures out == buf + Tail(tx)
  {
    hide PayloadPart, ShieldedPart, Flag;
    ghost var rest := if tx.shielded.None? then Flag(false) else Flag(true) + ShieldedPart(tx.shielded.value);
    match tx.payload {
      case None =>
        out := buf + Flag(false);
      case Some(p) =>
        out := PushPayload(buf + Flag(true), p, rest);
    }
    assert out + rest == buf + Tail(tx);
    match tx.shielded {
      case None =>
        out := out + Flag(false);
      case Some(s) =>
        ghost var before := out;
        out := PushShielded(out + Flag(true), s, "");
        assert out + "" == out && ShieldedPart(s) + "" == ShieldedPart(s);
        assert (before + Flag(true)) + ShieldedPart(s) == before + rest;
    }
  }

  /** The canonical preimage, appended to a buffer field by field. */
  method CanonicalSigningBytes(tx: Transaction) returns (b: Bytes)
    ensures b == Canonical(tx)
  {
    hide Field, BigEndian, Tail;
    ghost var t5 := BigEndian(tx.amount, 16) + (BigEndian(tx.fee, 16) + (BigEndian(tx.nonce, 8) + Tail(tx)));
    ghost var t3 := Field(tx.fromPubkey) + (Field(tx.to) + t5);
    ghost var t1 := BigEndian(tx.chainId, 8) + (Field(tx.kind.Tag()) + t3);
    b := PushField("", TX_DOMAIN_V2, t1);
    assert "" + (Field(TX_DOMAIN_V2) + t1) == Canonical(tx);
    assert b + t1 == (b + BigEndian(tx.chainId, 8)) + (Field(tx.kind.Tag()) + t3);
    b := b + BigEndian(tx.chainId, 8);
    b := PushField(b, tx.kind.Tag(), t3);
    b := PushField(b, tx.fromPubkey, Field(tx.to) + t5);
    b := PushField(b, tx.to, t5);
    assert b + t5 == (((b + BigEndian(tx.amount, 16)) + BigEndian(tx.fee, 16)) + BigEndian(tx.nonce, 8)) + Tail(tx);
    b := b + BigEndian(tx.amount, 16);
    b := b + BigEndian(tx.fee, 16);
    b := b + BigEndian(tx.nonce, 8);
    b := PushTail(b, tx);
  }

  // ---- every encoder can be read back from the front of a longer string ----

  function Pow256(n: nat): (p: nat)
    ensures p >= 1
  {
    if n == 0 then 1 else 256 * Pow256(n - 1)
  }

  lemma {:induction false} BigEndianInjective(m: nat, n: nat, width: nat)
    requires m < Pow256(width) && n < Pow256(width)
    requires BigEndian(m, width) == BigEndian(n, width)
    ensures m == n
    decreases width
  {
    if width > 0 {
      var a, b := BigEndian(m, width), BigEndian(n, width);
      assert a[..width - 1] == BigEndian(m / 256, width - 1) && b[..width - 1] == BigEndian(n / 256, width - 1);
      assert a[width - 1] == (m % 256) as char && b[width - 1] == (n % 256) as char;
      BigEndianInjective(m / 256, n / 256, width - 1);
    }
  }

  lemma SamePrefix(x: Bytes, s: Bytes, y: Bytes, t: Bytes)
    requires x + s == y + t && |x| == |y|
    ensures x == y && s == t
  {
    assert x == (x + s)[..|x|] && y == (y + t)[..|y|];
    assert s == (x + s)[|x|..] && t == (y + t)[|y|..];
  }

  lemma ReadNumber(m: nat, s: Bytes, n: nat, t: Bytes, width: nat)
    requires m < Pow256(width) && n < Pow256(width)
    requires BigEndian(m, width) + s == BigEndian(n, width) + t
    ensures m == n && s == t
  {
    SamePrefix(BigEndian(m, width), s, BigEndian(n, width), t);
    BigEndianInjective(m, n, width);
  }

  lemma Widths()
    ensures Pow256(4) == 0x1_0000_0000
    ensures Pow256(8) == U64_MAX + 1
    ensures Pow256(16) == U128_MAX + 1
  {
    assert Pow256(2) == 65536;
    assert Pow256(4) == 0x1_0000_0000;
    assert Pow256(6) == 0x1_0000_0000_0000;
    assert Pow256(8) == 0x1_0000_0000_0000_0000;
    assert Pow256(10) == 0x1_0000_0000_0000_0000_0000;
    assert Pow256(12) == 0x1_0000_0000_0000_0000_0000_0000;
    assert Pow256(14) == 0x1_0000_0000_0000_0000_0000_0000_0000;
    assert Pow256(16) == 0x1_0000_0000_0000_0000_0000_0000_0000_0000;
  }

  predicate Short(b: Bytes) {
    |b| < 0x1_0000_0000
  }

  lemma ReadField(x: Bytes, s: Bytes, y: Bytes, t: Bytes)
    requires Short(x) && Short(y)
    requires Field(x) + s == Field(y) + t
    ensures x == y && s == t
  {
    hide BigEndian, Pow256;
    Widths();
    assert Field(x) + s == BigEndian(|x|, 4) + (x + s);
    assert Field(y) + t == BigEndian(|y|, 4) + (y + t);
    ReadNumber(|x|, x + s, |y|, y + t, 4);
    SamePrefix(x, s, y, t);
  }

  lemma {:induction false} ReadFields(x: seq<Bytes>, s: Bytes, y: seq<Bytes>, t: Bytes)
    requires (forall b :: b in x ==> Short(b)) && (forall b :: b in y ==> Short(b))
    requires |x| == |y| && Fields(x) + s == Fields(y) + t
    ensures x == y && s == t
  {
    hide Field, Short;
    if x == [] {
      assert Fields(x) + s == s && Fields(y) + t == t;
    } else {
      assert Fields(x) + s == Field(x[0]) + (Fields(x[1..]) + s);
      assert Fields(y) + t == Field(y[0]) + (Fields(y[1..]) + t);
      ReadField(x[0], Fields(x[1..]) + s, y[0], Fields(y[1..]) + t);
      ReadFields(x[1..], s, y[1..], t);
      assert x == [x[0]] + x[1..] && y == [y[0]] + y[1..];
    }
  }

  predicate ShortList(items: seq<Bytes>) {
    |items| < 0x1_0000_0000 && forall b :: b in items ==> Short(b)
  }

  lemma ReadList(x: seq<Bytes>, s: Bytes, y: seq<Bytes>, t: Bytes)
    requires ShortList(x) && ShortList(y)
    requires FieldList(x) + s == FieldList(y) + t
    ensures x == y && s == t
  {
    hide BigEndian, Pow256, Fields;
    Widths();
    assert FieldList(x) + s == BigEndian(|x|, 4) + (Fields(x) + s);
    assert FieldList(y) + t == BigEndian(|y|, 4) + (Fields(y) + t);
    ReadNumber(|x|, Fields(x) + s, |y|, Fields(y) + t, 4);
    ReadFields(x, s, y, t);
  }

  lemma ReadFlag(x: bool, s: Bytes, y: bool, t: Bytes)
    requires Flag(x) + s == Flag(y) + t
    ensures x == y && s == t
  {
    SamePrefix(Flag(x), s, Flag(y), t);
  }

  predicate ShortPayload(p: Payload) {
    Short(p.token) && Short(p.symbol) && Short(p.name) && Short(p.code) && Short(p.args)
  }

  predicate ShortShielded(s: ShieldedData) {
    && Short(s.anchor) && ShortList(s.nullifiers) && ShortList(s.commitments)
    && Short(s.proof) && Short(s.publicUnshield)
  }

  lemma ReadPayload(p: Payload, s: Bytes, q: Payload, t: Bytes)
    requires ShortPayload(p) && ShortPayload(q)
    requires PayloadPart(p) + s == PayloadPart(q) + t
    ensures p == q && s == t
  {
    hide Field, Flag, Short;
    var p5, q5 := Field(p.code) + (Field(p.args) + s), Field(q.code) + (Field(q.args) + t);
    var p4, q4 := Flag(p.mintable) + p5, Flag(q.mintable) + q5;
    var p3, q3 := [p.decimals as char] + p4, [q.decimals as char] + q4;
    assert PayloadPart(p) + s == Field(p.token) + (Field(p.symbol) + (Field(p.name) + p3));
    assert PayloadPart(q) + t == Field(q.token) + (Field(q.symbol) + (Field(q.name) + q3));
    ReadField(p.token, Field(p.symbol) + (Field(p.name) + p3), q.token, Field(q.symbol) + (Field(q.name) + q3));
    ReadField(p.symbol, Field(p.name) + p3, q.symbol, Field(q.name) + q3);
    ReadField(p.name, p3, q.name, q3);
    SamePrefix([p.decimals as char], p4, [q.decimals as char], q4);
    ReadFlag(p.mintable, p5, q.mintable, q5);
    ReadField(p.code, Field(p.args) + s, q.code, Field(q.args) + t);
    ReadField(p.args, s, q.args, t);
  }

  lemma ReadShielded(p: ShieldedData, s: Bytes, q: ShieldedData, t: Bytes)
    requires ShortShielded(p) && ShortShielded(q)
    requires ShieldedPart(p) + s == ShieldedPart(q) + t
    ensures p == q && s == t
  {
    hide Field, FieldList, Short, ShortList;
    var p3, q3 := Field(p.proof) + (Field(p.publicUnshield) + s), Field(q.proof) + (Field(q.publicUnshield) + t);
    assert ShieldedPart(p) + s == Field(p.anchor) + (FieldList(p.nullifiers) + (FieldList(p.commitments) + p3));
    assert ShieldedPart(q) + t == Field(q.anchor) + (FieldList(q.nullifiers) + (FieldList(q.commitments) + q3));
    ReadField(p.anchor, FieldList(p.nullifiers) + (FieldList(p.commitments) + p3),
              q.anchor, FieldList(q.nullifiers) + (FieldList(q.commitments) + q3));
    ReadList(p.nullifiers, FieldList(p.commitments) + p3, q.nullifiers, FieldList(q.commitments) + q3);
    ReadList(p.commitments, p3, q.commitments, q3);
    ReadField(p.proof, Field(p.publicUnshield) + s, q.proof, Field(q.publicUnshield) + t);
    ReadField(p.publicUnshield, s, q.publicUnshield, t);
  }

  /** Every field is shorter than 2^32 bytes, so no length prefix wraps. */
  predicate Sized(tx: Transaction) {
    && Short(tx.fromPubkey) && Short(tx.to)
    && (tx.payload.Some? ==> ShortPayload(tx.payload.value))
    && (tx.shielded.Some? ==> ShortShielded(tx.shielded.value))
  }

  lemma ReadTail(a: Transaction, b: Transaction)
    requires Sized(a) && Sized(b) && Tail(a) == Tail(b)
    ensures a.payload == b.payload && a.shielded == b.shielded
  {
    hide PayloadPart, ShieldedPart, ShortPayload, ShortShielded, Short, Flag;
    var s := if a.shielded.None? then Flag(false) else Flag(true) + ShieldedPart(a.shielded.value);
    var t := if b.shielded.None? then Flag(false) else Flag(true) + ShieldedPart(b.shielded.value);
    var x := if a.payload.None? then "" else PayloadPart(a.payload.value);
    var y := if b.payload.None? then "" else PayloadPart(b.payload.value);
    assert Tail(a) == Flag(a.payload.Some?) + (x + s);
    assert Tail(b) == Flag(b.payload.Some?) + (y + t);
    ReadFlag(a.payload.Some?, x + s, b.payload.Some?, y + t);
    if a.payload.Some? {
      ReadPayload(a.payload.value, s, b.payload.value, t);
    } else {
      assert x + s == s && y + t == t;
    }
    var u := if a.shielded.None? then "" else ShieldedPart(a.shielded.value);
    var v := if b.shielded.None? then "" else ShieldedPart(b.shielded.value);
    assert s == Flag(a.shielded.Some?) + u && t == Flag(b.shielded.Some?) + v;
    ReadFlag(a.shielded.Some?, u, b.shielded.Some?, v);
    if a.shielded.Some? {
      assert u + "" == u && v + "" == v;
      ReadShielded(a.shielded.value, "", b.shielded.value, "");
    }
  }

  function KindOf(tag: Bytes): Option<TxKind> {
    if tag == "transfer" then Some(Transfer)
    else if tag == "stake" then Some(Stake)
    else if tag == "unstake" then Some(Unstake)
    else if tag == "reportequivocation" then Some(ReportEquivocation)
    else if tag == "unjail" then Some(Unjail)
    else if tag == "createtoken" then Some(CreateToken)
    else if tag == "minttoken" then Some(MintToken)
    else if tag == "tokentransfer" then Some(TokenTransfer)
    else if tag == "burntoken" then Some(BurnToken)
    else if tag == "deploycontract" then Some(DeployContract)
    else if tag == "callcontract" then Some(CallContract)
    else if tag == "shield" then Some(Shield)
    else if tag == "privatetransfer" then Some(PrivateTransfer)
    else if tag == "unshield" then Some(Unshield)
    else None
  }

  lemma TagsDiffer(a: TxKind, b: TxKind)
    requires a.Tag() == b.Tag()
    ensures a == b
  {
    TagNamesKind(a);
    TagNamesKind(b);
  }

  lemma TagNamesKind(k: TxKind)
    ensures KindOf(k.Tag()) == Some(k) && 0 < |k.Tag()| < 20
  {
  }

  /** One canonical preimage, one transaction: nothing but the signature may differ. */
  lemma CanonicalInjective(a: Transaction, b: Transaction)
    requires Sized(a) && Sized(b) && Canonical(a) == Canonical(b)
    ensures a.(signature := b.signature) == b
  {
    hide Field, BigEndian, Tail, Pow256, Short;
    assert Short(TX_DOMAIN_V2) && Short(a.kind.Tag()) && Short(b.kind.Tag()) by {
      ShortTags(a.kind);
      ShortTags(b.kind);
    }
    var a6, b6 := BigEndian(a.nonce, 8) + Tail(a), BigEndian(b.nonce, 8) + Tail(b);
    var a5, b5 := BigEndian(a.fee, 16) + a6, BigEndian(b.fee, 16) + b6;
    var a4, b4 := BigEndian(a.amount, 16) + a5, BigEndian(b.amount, 16) + b5;
    var a3, b3 := Field(a.to) + a4, Field(b.to) + b4;
    var a2, b2 := Field(a.fromPubkey) + a3, Field(b.fromPubkey) + b3;
    var a1, b1 := Field(a.kind.Tag()) + a2, Field(b.kind.Tag()) + b2;
    var a0, b0 := BigEndian(a.chainId, 8) + a1, BigEndian(b.chainId, 8) + b1;
    Widths();
    ReadField(TX_DOMAIN_V2, a0, TX_DOMAIN_V2, b0);
    ReadNumber(a.chainId, a1, b.chainId, b1, 8);
    ReadField(a.kind.Tag(), a2, b.kind.Tag(), b2);
    TagsDiffer(a.kind, b.kind);
    ReadField(a.fromPubkey, a3, b.fromPubkey, b3);
    ReadField(a.to, a4, b.to, b4);
    ReadNumber(a.amount, a5, b.amount, b5, 16);
    ReadNumber(a.fee, a6, b.fee, b6, 16);
    ReadNumber(a.nonce, Tail(a), b.nonce, Tail(b), 8);
    ReadTail(a, b);
  }

  lemma ShortTags(k: TxKind)
    ensures Short(TX_DOMAIN_V2) && Short(k.Tag())
  {
    TagNamesKind(k);
  }

  // ---- legacy preimage ----

  predicate DelimiterFree(s: Bytes) {
    '|' !in s
  }

  function Bool(b: bool): Bytes {
    if b then "true" else "false"
  }

  /** The payload's share of the legacy preimage: contract fields only when present. */
  function SigningPart(p: Payload): Bytes {
    var base := p.token + "|" + p.symbol + "|" + p.name + "|" + Dec(p.decimals) + "|" + Bool(p.mintable);
    if p.code == "" && p.args == "" then base else base + "|" + p.code + "|" + p.args
  }

  function SigningBytes(tx: Transaction): Bytes {
    var base := "inazuma-tx|" + Dec(tx.chainId) + "|" + tx.kind.Tag() + "|" + tx.fromPubkey + "|" + tx.to
                + "|" + Dec(tx.amount) + "|" + Dec(tx.fee) + "|" + Dec(tx.nonce);
    match tx.payload
    case None => base
    case Some(p) => base + "|" + SigningPart(p)
  }

  /** The guard checked before a legacy signature is trusted. */
  predicate FieldsUnambiguous(tx: Transaction) {
    && DelimiterFree(tx.fromPubkey) && DelimiterFree(tx.to)
    && match tx.payload
       case None => true
       case Some(p) => && DelimiterFree(p.token) && DelimiterFree(p.symbol) && DelimiterFree(p.name)
                       && DelimiterFree(p.code) && DelimiterFree(p.args)
  }

  function Join(fields: seq<Bytes>): Bytes
    requires fields != []
  {
    if |fields| == 1 then fields[0] else fields[0] + "|" + Join(fields[1..])
  }

  function PayloadFields(p: Payload): seq<Bytes> {
    [p.token, p.symbol, p.name, Dec(p.decimals), Bool(p.mintable)] +
    if p.code == "" && p.args == "" then [] else [p.code, p.args]
  }

  function LegacyFields(tx: Transaction): seq<Bytes> {
    ["inazuma-tx", Dec(tx.chainId), tx.kind.Tag(), tx.fromPubkey, tx.to, Dec(tx.amount), Dec(tx.fee), Dec(tx.nonce)] +
    if tx.payload.None? then [] else PayloadFields(tx.payload.value)
  }

  lemma {:induction false} JoinAppend(a: seq<Bytes>, b: seq<Bytes>)
    requires a != [] && b != []
    ensures Join(a + b) == Join(a) + "|" + Join(b)
  {
    if |a| == 1 {
      assert (a + b)[1..] == b;
    } else {
      assert (a + b)[1..] == a[1..] + b;
      JoinAppend(a[1..], b);
    }
  }

  lemma PayloadIsJoin(p: Payload)
    ensures SigningPart(p) == Join(PayloadFields(p))
  {
    hide Join, Dec, Bool;
    JoinFive(p.token, p.symbol, p.name, Dec(p.decimals), Bool(p.mintable));
    var base := [p.token, p.symbol, p.name, Dec(p.decimals), Bool(p.mintable)];
    if p.code == "" && p.args == "" {
      assert PayloadFields(p) == base;
    } else {
      JoinAppend(base, [p.code, p.args]);
      JoinTwo(p.code, p.args);
    }
  }

  lemma JoinTwo(a: Bytes, b: Bytes)
    ensures Join([a, b]) == a + "|" + b
  {
    assert [a, b][1..] == [b];
  }

  lemma JoinFive(a: Bytes, b: Bytes, c: Bytes, d: Bytes, e: Bytes)
    ensures Join([a, b, c, d, e]) == a + "|" + b + "|" + c + "|" + d + "|" + e
  {
    hide Join;
    assert [a, b, c, d, e] == [a, b] + ([c, d] + [e]);
    JoinTwo(a, b);
    JoinTwo(c, d);
    JoinOne(e);
    JoinAppend([c, d], [e]);
    JoinAppend([a, b], [c, d] + [e]);
  }

  lemma JoinOne(f: Bytes)
    ensures Join([f]) == f
  {
  }

  lemma JoinEight(a: Bytes, b: Bytes, c: Bytes, d: Bytes, e: Bytes, f: Bytes, g: Bytes, h: Bytes)
    ensures Join([a, b, c, d, e, f, g, h]) == a + "|" + b + "|" + c + "|" + d + "|" + e + "|" + f + "|" + g + "|" + h
  {
    hide Join;
    assert [a, b, c, d, e, f, g, h] == [a, b, c, d, e] + ([f, g] + [h]);
    JoinFive(a, b, c, d, e);
    JoinTwo(f, g);
    JoinOne(h);
    JoinAppend([f, g], [h]);
    JoinAppend([a, b, c, d, e], [f, g] + [h]);
  }

  lemma LegacyIsJoin(tx: Transaction)
    ensures SigningBytes(tx) == Join(LegacyFields(tx))
  {
    hide Join, Dec, SigningPart, PayloadFields, TxKind.Tag;
    var base := ["inazuma-tx", Dec(tx.chainId), tx.kind.Tag(), tx.fromPubkey, tx.to,
                 Dec(tx.amount), Dec(tx.fee), Dec(tx.nonce)];
    JoinEight("inazuma-tx", Dec(tx.chainId), tx.kind.Tag(), tx.fromPubkey, tx.to,
              Dec(tx.amount), Dec(tx.fee), Dec(tx.nonce));
    assert "inazuma-tx" + "|" == "inazuma-tx|";
    if tx.payload.Some? {
      PayloadNotEmpty(tx.payload.value);
      PayloadIsJoin(tx.payload.value);
      JoinAppend(base, PayloadFields(tx.payload.value));
    } else {
      assert LegacyFields(tx) == base;
    }
  }

  lemma PayloadNotEmpty(p: Payload)
    ensures PayloadFields(p) != []
  {
  }

  lemma {:induction false} JoinInjective(a: seq<Bytes>, b: seq<Bytes>)
    requires a != [] && b != []
    requires (forall f :: f in a ==> DelimiterFree(f)) && (forall f :: f in b ==> DelimiterFree(f))
    requires Join(a) == Join(b)
    ensures a == b
  {
    var r := if |a| == 1 then "" else "|" + Join(a[1..]);
    var s := if |b| == 1 then "" else "|" + Join(b[1..]);
    assert Join(a) == a[0] + r && Join(b) == b[0] + s;
    FirstField(a[0], r, b[0], s);
    assert |a| > 1 <==> |b| > 1;
    if |a| > 1 {
      assert r[1..] == Join(a[1..]) && s[1..] == Join(b[1..]);
      JoinInjective(a[1..], b[1..]);
      assert a == [a[0]] + a[1..] && b == [b[0]] + b[1..];
    }
  }

  /** The first field ends at the first delimiter, or is all there is. */
  lemma FirstField(a: Bytes, r: Bytes, b: Bytes, s: Bytes)
    requires DelimiterFree(a) && DelimiterFree(b) && a + r == b + s
    requires (r != "" ==> r[0] == '|') && (s != "" ==> s[0] == '|')
    ensures a == b && r == s
  {
    FieldEndsAtDelimiter(a, r);
    FieldEndsAtDelimiter(b, s);
    SamePrefix(a, r, b, s);
  }

  /** Where the first delimiter stands, or the length when there is none. */
  function FieldEnd(x: Bytes): nat {
    if x == "" || x[0] == '|' then 0 else 1 + FieldEnd(x[1..])
  }

  lemma {:induction false} FieldEndsAtDelimiter(a: Bytes, r: Bytes)
    requires DelimiterFree(a) && (r != "" ==> r[0] == '|')
    ensures FieldEnd(a + r) == |a|
  {
    if a == "" {
      assert a + r == r;
    } else {
      assert (a + r)[1..] == a[1..] + r;
      FieldEndsAtDelimiter(a[1..], r);
    }
  }

  lemma LegacyFieldsDelimiterFree(tx: Transaction)
    requires FieldsUnambiguous(tx)
    ensures forall f :: f in LegacyFields(tx) ==> DelimiterFree(f)
  {
    DecDelimiterFree(tx.chainId);
    DecDelimiterFree(tx.amount);
    DecDelimiterFree(tx.fee);
    DecDelimiterFree(tx.nonce);
    TagDelimiterFree(tx.kind);
    if tx.payload.Some? {
      DecDelimiterFree(tx.payload.value.decimals);
    }
  }

  lemma DecDelimiterFree(n: nat)
    ensures DelimiterFree(Dec(n))
  {
    if '|' in Dec(n) {
      DecIsDigits(n, '|');
    }
  }

  lemma TagDelimiterFree(k: TxKind)
    ensures DelimiterFree(k.Tag())
  {
  }

  /** One legacy preimage, one transaction on every field it covers, whichever of the
      three payload shapes each side uses. */
  lemma LegacyInjective(a: Transaction, b: Transaction)
    requires FieldsUnambiguous(a) && FieldsUnambiguous(b)
    requires SigningBytes(a) == SigningBytes(b)
    ensures a.(shielded := b.shielded, signature := b.signature) == b
  {
    hide Join, Dec, SigningBytes, FieldsUnambiguous, DelimiterFree;
    LegacyIsJoin(a);
    LegacyIsJoin(b);
    LegacyFieldsDelimiterFree(a);
    LegacyFieldsDelimiterFree(b);
    var x, y := LegacyFields(a), LegacyFields(b);
    JoinInjective(x, y);
    assert x[1] == y[1] && x[2] == y[2] && x[3] == y[3] && x[4] == y[4];
    assert x[5] == y[5] && x[6] == y[6] && x[7] == y[7];
    DecInjective(a.chainId, b.chainId);
    DecInjective(a.amount, b.amount);
    DecInjective(a.fee, b.fee);
    DecInjective(a.nonce, b.nonce);
    TagsDiffer(a.kind, b.kind);
    if a.payload.Some? {
      var p, q := a.payload.value, b.payload.value;
      assert x[8..] == PayloadFields(p) && y[8..] == PayloadFields(q);
      PayloadFieldsInjective(p, q);
    }
  }

  lemma PayloadFieldsInjective(p: Payload, q: Payload)
    requires PayloadFields(p) == PayloadFields(q)
    ensures p == q
  {
    hide Dec;
    var x, y := PayloadFields(p), PayloadFields(q);
    assert x[0] == y[0] && x[1] == y[1] && x[2] == y[2] && x[3] == y[3] && x[4] == y[4];
    DecInjective(p.decimals, q.decimals);
    assert |"true"| != |"false"|;
    if |x| == 7 {
      assert x[5] == y[5] && x[6] == y[6];
    }
  }

  /** No bytes are both a canonical and a legacy preimage. */
  lemma PreimagesDisjoint(a: Transaction, b: Transaction)
    ensures Canonical(a) != SigningBytes(b)
  {
    hide Dec;
    var n := |TX_DOMAIN_V2|;
    assert BigEndian(n, 4)[0] == '\U{00}' by {
      FirstByte(n);
    }
    assert Canonical(a)[0] == BigEndian(n, 4)[0];
    assert SigningBytes(b)[0] == 'i';
  }

  lemma FirstByte(n: nat)
    requires n < 0x100_0000
    ensures BigEndian(n, 4)[0] == '\U{00}'
  {
    var b1 := BigEndian(n / 256 / 256 / 256, 1);
    assert BigEndian(n / 256 / 256 / 256 / 256, 0) == "";
    assert BigEndian(n / 256 / 256, 2)[0] == b1[0];
    assert BigEndian(n / 256, 3)[0] == b1[0];
    assert BigEndian(n, 4)[0] == b1[0];
  }
}
