/** The signed envelope, node identifiers, and the external primitives ce-mail builds on. */
module Envelopes {
  import opened Encoding
  import opened Unicode

  type NodeId = bs: Bytes | |bs| == 32 witness seq(32, _ => 0)

  /** A capability chain; its contents matter only to `authorize`. */
  type Grant = seq<Bytes>

  /** The revocation view a request is judged against: the last fetched on-chain set, or everything
      when the lock around that set is poisoned. */
  datatype Revocations = Listed(entries: set<(NodeId, u64)>) | EverythingRevoked

  /** External operations as parameters: hex SHA-256, Ed25519 verification, and the capability check
      `authorize(recipient, audience, now, grant, revocations)` for the ability `mail:accept`. Every
      theorem holds for all choices of them; a theorem that needs an ideal hash says so. */
  datatype Primitives = Primitives(
    hash: Bytes -> string,
    verifySignature: (NodeId, Bytes, Bytes) -> bool,
    authorize: (NodeId, NodeId, u64, Grant, Revocations) -> bool
  )

  ghost predicate InjectiveHash(p: Primitives) {
    forall a, b :: p.hash(a) == p.hash(b) ==> a == b
  }

  // ---- node identifiers ----

  function HexValue(c: char): (v: Option<nat>)
    ensures v.Some? ==> v.value < 16 && c != ':' && !IsWhitespace(c)
  {
    if '0' <= c <= '9' then Some(c as int - '0' as int)
    else if 'a' <= c <= 'f' then Some(c as int - 'a' as int + 10)
    else if 'A' <= c <= 'F' then Some(c as int - 'A' as int + 10)
    else None
  }

  function DecodeHex(s: string): (bs: Option<Bytes>)
    ensures bs.Some? ==> forall c :: c in s ==> HexValue(c).Some?
  {
    if s == [] then Some([])
    else if |s| == 1 then None
    else
      match (HexValue(s[0]), HexValue(s[1]), DecodeHex(s[2..]))
      case (Some(h), Some(l), Some(rest)) =>
        assert s == [s[0], s[1]] + s[2..];
        Some([16 * h + l] + rest)
      case _ => None
  }

  /** Surrounding white space and letter case are ignored, so several strings name one node. */
  function ParseNodeId(s: string): Option<NodeId> {
    match DecodeHex(Trim(s))
    case Some(bs) => if |bs| == 32 then Some(bs) else None
    case None => None
  }

  // ---- how ids are written ----

  function HexDigit(v: nat): char
    requires v < 16
  {
    if v < 10 then ('0' as int + v) as char else ('a' as int + v - 10) as char
  }

  function EncodeHex(bs: Bytes): string {
    if bs == [] then [] else [HexDigit(bs[0] / 16), HexDigit(bs[0] % 16)] + EncodeHex(bs[1..])
  }

  function NodeIdHex(id: NodeId): string {
    EncodeHex(id)
  }

  lemma {:induction false} HexRoundTrip(bs: Bytes)
    ensures DecodeHex(EncodeHex(bs)) == Some(bs)
  {
    if bs != [] {
      HexRoundTrip(bs[1..]);
      var h, l := HexDigit(bs[0] / 16), HexDigit(bs[0] % 16);
      assert HexValue(h) == Some(bs[0] / 16) && HexValue(l) == Some(bs[0] % 16);
      assert EncodeHex(bs) == [h, l] + EncodeHex(bs[1..]);
      assert EncodeHex(bs)[2..] == EncodeHex(bs[1..]);
      assert [bs[0]] + bs[1..] == bs;
    }
  }

  lemma NodeIdRoundTrip(id: NodeId)
    ensures ParseNodeId(NodeIdHex(id)) == Some(id)
  {
    HexRoundTrip(id);
    var s := NodeIdHex(id);
    assert s != [] ==> s[0] in s && s[|s| - 1] in s;
    TrimmedIsFixed(s);
  }

  /** The digits of an id: for each byte the high half and the low half. */
  lemma {:induction false} HexDigits(bs: Bytes, i: nat)
    requires i < |bs|
    ensures |EncodeHex(bs)| == 2 * |bs|
    ensures EncodeHex(bs)[2 * i] == "0123456789abcdef"[bs[i] / 16]
    ensures EncodeHex(bs)[2 * i + 1] == "0123456789abcdef"[bs[i] % 16]
  {
    hide HexDigit;
    var h, l, rest := HexDigit(bs[0] / 16), HexDigit(bs[0] % 16), EncodeHex(bs[1..]);
    assert EncodeHex(bs) == [h, l] + rest;
    HexAlphabet(bs[0] / 16);
    HexAlphabet(bs[0] % 16);
    if i > 0 {
      HexDigits(bs[1..], i - 1);
      assert EncodeHex(bs)[2 * i] == rest[2 * (i - 1)] && EncodeHex(bs)[2 * i + 1] == rest[2 * (i - 1) + 1];
    } else if |bs| > 1 {
      HexDigits(bs[1..], 0);
    }
  }

  lemma HexAlphabet(v: nat)
    requires v < 16
    ensures HexDigit(v) == "0123456789abcdef"[v]
  {
  }

  lemma HexLower(c: char)
    ensures HexValue(LowerChar(c)) == HexValue(c)
    ensures HexValue(c).Some? ==> HexDigit(HexValue(c).value) == LowerChar(c)
  {
  }

  lemma HexSpellings(t: string, bs: Bytes)
    ensures DecodeHex(t) == Some(bs) <==> Lower(t) == EncodeHex(bs)
  {
    hide DecodeHex, EncodeHex, Lower;
    HexRoundTrip(bs);
    LowerSameHex(t);
    if DecodeHex(t) == Some(bs) {
      DecodedIsHex(t);
    }
  }

  lemma {:induction false} DecodedIsHex(t: string)
    requires DecodeHex(t).Some?
    ensures Lower(t) == EncodeHex(DecodeHex(t).value)
    decreases |t|
  {
    hide DecodeHex, EncodeHex, HexValue, HexDigit, LowerChar;
    if t == [] {
      NoHex(t);
    } else {
      var h, l, rest := HexStep(t);
      DecodedIsHex(t[2..]);
      HexLower(t[0]);
      HexLower(t[1]);
      EncodeStep(h, l, rest);
      assert Lower(t) == [LowerChar(t[0]), LowerChar(t[1])] + Lower(t[2..]);
    }
  }

  lemma NoHex(t: string)
    requires t == []
    ensures DecodeHex(t) == Some([]) && EncodeHex([]) == Lower(t)
  {
  }

  lemma HexStep(t: string) returns (h: nat, l: nat, rest: Bytes)
    requires t != [] && DecodeHex(t).Some?
    ensures |t| >= 2 && HexValue(t[0]) == Some(h) && HexValue(t[1]) == Some(l) && DecodeHex(t[2..]) == Some(rest)
    ensures h < 16 && l < 16 && DecodeHex(t) == Some([16 * h + l] + rest)
  {
    hide IsWhitespace, DecodeHex;
    NotOneDigit(t);
    DecodeStep(t, HexValue(t[0]), HexValue(t[1]), DecodeHex(t[2..]));
    h, l, rest := HexValue(t[0]).value, HexValue(t[1]).value, DecodeHex(t[2..]).value;
  }

  lemma NotOneDigit(t: string)
    ensures |t| == 1 ==> DecodeHex(t).None?
  {
  }

  lemma DecodeStep(t: string, h: Option<nat>, l: Option<nat>, r: Option<Bytes>)
    requires |t| >= 2 && h == HexValue(t[0]) && l == HexValue(t[1]) && r == DecodeHex(t[2..])
    ensures h.Some? && l.Some? && r.Some? ==>
              h.value < 16 && l.value < 16 && DecodeHex(t) == Some([16 * h.value + l.value] + r.value)
    ensures !(h.Some? && l.Some? && r.Some?) ==> DecodeHex(t).None?
  {
    hide HexValue, IsWhitespace;
  }

  lemma EncodeStep(h: nat, l: nat, rest: Bytes)
    requires h < 16 && l < 16
    ensures EncodeHex([16 * h + l] + rest) == [HexDigit(h), HexDigit(l)] + EncodeHex(rest)
  {
    hide HexDigit;
    assert ([16 * h + l] + rest)[1..] == rest;
  }

  lemma {:induction false} LowerSameHex(t: string)
    ensures DecodeHex(Lower(t)) == DecodeHex(t)
    decreases |t|
  {
    if |t| > 1 {
      HexLower(t[0]);
      HexLower(t[1]);
      LowerSameHex(t[2..]);
      assert Lower(t)[2..] == Lower(t[2..]);
    }
  }

  /** The strings that name a node: its hex digits in either case, with any white space around them. */
  lemma SpellingsOfNode(s: string, id: NodeId)
    ensures ParseNodeId(s) == Some(id) <==> Lower(Trim(s)) == NodeIdHex(id)
  {
    HexSpellings(Trim(s), id);
  }

  /** So every digit may be written in upper case. */
  lemma UpperCaseNames(s: string, id: NodeId)
    requires |s| == |NodeIdHex(id)|
    requires forall i :: 0 <= i < |s| ==>
               var h := NodeIdHex(id)[i];
               s[i] == h || ('a' <= h <= 'f' && s[i] as int == h as int - 32)
    ensures ParseNodeId(s) == Some(id)
  {
    var h := NodeIdHex(id);
    HexRoundTrip(id);
    forall i | 0 <= i < |s|
      ensures LowerChar(s[i]) == h[i] && !IsWhitespace(s[i])
    {
      assert h[i] in h && HexValue(h[i]).Some?;
      HexIsLower(id, i);
    }
    assert Lower(s) == h;
    TrimmedIsFixed(s);
    SpellingsOfNode(s, id);
  }

  lemma {:induction false} HexIsLower(bs: Bytes, i: nat)
    requires i < |EncodeHex(bs)|
    ensures LowerChar(EncodeHex(bs)[i]) == EncodeHex(bs)[i]
  {
    if i >= 2 {
      HexIsLower(bs[1..], i - 2);
      assert EncodeHex(bs)[2..] == EncodeHex(bs[1..]);
    }
  }

  /** A string that parses as a node id has no colon anywhere, not even in what is trimmed away. */
  lemma ParsedHasNoColon(s: string)
    ensures ParseNodeId(s).Some? ==> ':' !in s
  {
    TrimStartDrops(s);
    TrimEndDrops(TrimStart(s));
  }

  lemma {:induction false} TrimStartDrops(s: string)
    ensures forall c :: c in s ==> c in TrimStart(s) || IsWhitespace(c)
  {
    if s != [] && IsWhitespace(s[0]) {
      TrimStartDrops(s[1..]);
      assert s == [s[0]] + s[1..];
    }
  }

  lemma {:induction false} TrimEndDrops(s: string)
    ensures forall c :: c in s ==> c in TrimEnd(s) || IsWhitespace(c)
  {
    if s != [] && IsWhitespace(s[|s| - 1]) {
      TrimEndDrops(s[..|s| - 1]);
      assert s == s[..|s| - 1] + [s[|s| - 1]];
    }
  }

  // ---- envelopes ----

  datatype EnvelopeBody = EnvelopeBody(
    from: string,
    to: string,
    subject: string,
    bodyCid: string,
    attachmentCids: seq<string>,
    inReplyTo: string,
    sentAt: u64,
    postageReceipt: string
  )

  datatype Envelope = Envelope(body: EnvelopeBody, sig: Bytes)

  /** What Rust's `String` and `Vec` guarantee about the lengths in an envelope body. */
  predicate Sized(e: EnvelopeBody) {
    && FitsPrefix(e.from) && FitsPrefix(e.to) && FitsPrefix(e.subject) && FitsPrefix(e.bodyCid)
    && |e.attachmentCids| < U64_LIMIT && (forall c :: c in e.attachmentCids ==> FitsPrefix(c))
    && FitsPrefix(e.inReplyTo) && FitsPrefix(e.postageReceipt)
  }

  /** The eight fields in declaration order, followed by `tail`. */
  function EncodeBodyOnto(e: EnvelopeBody, tail: Bytes): Bytes {
    EncodeString(e.from) + (EncodeString(e.to) + (EncodeString(e.subject) + (EncodeString(e.bodyCid)
    + (EncodeStrings(e.attachmentCids) + (EncodeString(e.inReplyTo) + (EncodeU64(e.sentAt)
    + (EncodeString(e.postageReceipt) + tail)))))))
  }

  /** "ce-mail-envelope-v1" */
  const ENVELOPE_DOMAIN: Bytes :=
    [0x63, 0x65, 0x2d, 0x6d, 0x61, 0x69, 0x6c, 0x2d, 0x65, 0x6e, 0x76, 0x65, 0x6c, 0x6f, 0x70, 0x65, 0x2d, 0x76, 0x31]

  function SigningBytes(e: EnvelopeBody): Bytes {
    EncodeBytes(ENVELOPE_DOMAIN) + EncodeBodyOnto(e, [])
  }

  function MessageId(p: Primitives, e: EnvelopeBody): string {
    p.hash(SigningBytes(e))
  }

  predicate Verifies(p: Primitives, e: Envelope) {
    match ParseNodeId(e.body.from)
    case None => false
    case Some(from) => p.verifySignature(from, SigningBytes(e.body), e.sig)
  }

  /** The wire form whose length `encoded_len` measures. */
  function EncodeEnvelope(e: Envelope): Bytes {
    EncodeBodyOnto(e.body, EncodeBytes(e.sig))
  }

  /** The domain prefix is the text it is meant to be. */
  lemma DomainText()
    ensures ENVELOPE_DOMAIN == Utf8("ce-mail-envelope-v1")
  {
    hide Utf8;
    IsUtf8(ENVELOPE_DOMAIN, "ce-mail-envelope-v1");
  }

  lemma {:induction false} IsUtf8(bs: Bytes, s: string)
    requires |bs| == |s| && forall i :: 0 <= i < |s| ==> s[i] as int < 0x80 && bs[i] == s[i] as int
    ensures bs == Utf8(s)
  {
    if s != [] {
      IsUtf8(bs[1..], s[1..]);
      assert bs == [s[0] as int] + bs[1..];
    }
  }

  /** A reader finds the fields in declaration order. */
  lemma FieldOrder(e: EnvelopeBody, tail: Bytes)
      returns (r1: Bytes, r2: Bytes, r3: Bytes, r4: Bytes, r5: Bytes, r6: Bytes, r7: Bytes)
    requires Sized(e)
    ensures DecodeString(EncodeBodyOnto(e, tail)) == Parsed(e.from, r1)
    ensures DecodeString(r1) == Parsed(e.to, r2)
    ensures DecodeString(r2) == Parsed(e.subject, r3)
    ensures DecodeString(r3) == Parsed(e.bodyCid, r4)
    ensures DecodeStrings(r4) == Parsed(e.attachmentCids, r5)
    ensures DecodeString(r5) == Parsed(e.inReplyTo, r6)
    ensures DecodeU64(r6) == Parsed(e.sentAt as nat, r7)
    ensures DecodeString(r7) == Parsed(e.postageReceipt, tail)
  {
    hide EncodeString, DecodeString, EncodeStrings, DecodeStrings, EncodeU64, DecodeU64, FitsPrefix;
    r7 := EncodeString(e.postageReceipt) + tail;
    r6 := EncodeU64(e.sentAt) + r7;
    r5 := EncodeString(e.inReplyTo) + r6;
    r4 := EncodeStrings(e.attachmentCids) + r5;
    r3 := EncodeString(e.bodyCid) + r4;
    r2 := EncodeString(e.subject) + r3;
    r1 := EncodeString(e.to) + r2;
    StringRoundTrip(e.from, r1);
    StringRoundTrip(e.to, r2);
    StringRoundTrip(e.subject, r3);
    StringRoundTrip(e.bodyCid, r4);
    StringsRoundTrip(e.attachmentCids, r5);
    StringRoundTrip(e.inReplyTo, r6);
    U64RoundTrip(e.sentAt, r7);
    StringRoundTrip(e.postageReceipt, tail);
  }

  ghost function TotalLength(ss: seq<string>): nat {
    if ss == [] then 0 else 8 + |Utf8(ss[0])| + TotalLength(ss[1..])
  }

  lemma {:induction false} ConcatLength(ss: seq<string>)
    ensures |ConcatStrings(ss)| == TotalLength(ss)
  {
    if ss != [] {
      ConcatLength(ss[1..]);
    }
  }

  /** The measured length: every field in full, eight bytes for each length, count and time. */
  lemma EncodedLength(e: Envelope)
    ensures var b := e.body;
      |EncodeEnvelope(e)| ==
        72 + |Utf8(b.from)| + |Utf8(b.to)| + |Utf8(b.subject)| + |Utf8(b.bodyCid)| + |Utf8(b.inReplyTo)|
        + |Utf8(b.postageReceipt)| + TotalLength(b.attachmentCids) + |e.sig|
  {
    ConcatLength(e.body.attachmentCids);
  }

  lemma StringCancels(a: string, x: Bytes, b: string, y: Bytes)
    requires FitsPrefix(a) && FitsPrefix(b)
    requires EncodeString(a) + x == EncodeString(b) + y
    ensures a == b && x == y
  {
    StringRoundTrip(a, x);
    StringRoundTrip(b, y);
  }

  /** Body encodings are prefix-free: whatever follows, the eight fields can be told apart. */
  lemma BodyCancels(a: EnvelopeBody, x: Bytes, b: EnvelopeBody, y: Bytes)
    requires Sized(a) && Sized(b)
    requires EncodeBodyOnto(a, x) == EncodeBodyOnto(b, y)
    ensures a == b && x == y
  {
    var a7, b7 := EncodeString(a.postageReceipt) + x, EncodeString(b.postageReceipt) + y;
    var a6, b6 := EncodeU64(a.sentAt) + a7, EncodeU64(b.sentAt) + b7;
    var a5, b5 := EncodeString(a.inReplyTo) + a6, EncodeString(b.inReplyTo) + b6;
    var a4, b4 := EncodeStrings(a.attachmentCids) + a5, EncodeStrings(b.attachmentCids) + b5;
    FirstFourCancel(a, a4, b, b4);
    StringsRoundTrip(a.attachmentCids, a5);
    StringsRoundTrip(b.attachmentCids, b5);
    StringCancels(a.inReplyTo, a6, b.inReplyTo, b6);
    U64RoundTrip(a.sentAt, a7);
    U64RoundTrip(b.sentAt, b7);
    StringCancels(a.postageReceipt, x, b.postageReceipt, y);
  }

  lemma FirstFourCancel(a: EnvelopeBody, x: Bytes, b: EnvelopeBody, y: Bytes)
    requires Sized(a) && Sized(b)
    requires EncodeString(a.from) + (EncodeString(a.to) + (EncodeString(a.subject) + (EncodeString(a.bodyCid) + x)))
          == EncodeString(b.from) + (EncodeString(b.to) + (EncodeString(b.subject) + (EncodeString(b.bodyCid) + y)))
    ensures a.from == b.from && a.to == b.to && a.subject == b.subject && a.bodyCid == b.bodyCid && x == y
  {
    var a3, b3 := EncodeString(a.bodyCid) + x, EncodeString(b.bodyCid) + y;
    var a2, b2 := EncodeString(a.subject) + a3, EncodeString(b.subject) + b3;
    var a1, b1 := EncodeString(a.to) + a2, EncodeString(b.to) + b2;
    StringCancels(a.from, a1, b.from, b1);
    StringCancels(a.to, a2, b.to, b2);
    StringCancels(a.subject, a3, b.subject, b3);
    StringCancels(a.bodyCid, x, b.bodyCid, y);
  }

  /** The signed bytes determine all eight fields, the list of attachment CIDs included. */
  lemma SigningBytesInjective(a: EnvelopeBody, b: EnvelopeBody)
    requires Sized(a) && Sized(b)
    ensures SigningBytes(a) == SigningBytes(b) <==> a == b
  {
    if SigningBytes(a) == SigningBytes(b) {
      BytesRoundTrip(ENVELOPE_DOMAIN, EncodeBodyOnto(a, []));
      BytesRoundTrip(ENVELOPE_DOMAIN, EncodeBodyOnto(b, []));
      BodyCancels(a, [], b, []);
    }
  }

  /** Under an injective hash a message id identifies one envelope body. */
  lemma MessageIdIdentifies(p: Primitives, a: EnvelopeBody, b: EnvelopeBody)
    requires InjectiveHash(p) && Sized(a) && Sized(b)
    ensures MessageId(p, a) == MessageId(p, b) <==> a == b
  {
    SigningBytesInjective(a, b);
  }
}
