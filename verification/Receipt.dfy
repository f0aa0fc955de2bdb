/** Signed delivery and read receipts. */
module Receipts {
  import opened Encoding
  import opened Envelopes

  datatype ReceiptKind = Delivered | Read {
    function Tag(): byte {
      match this
      case Delivered => 1
      case Read => 2
    }
  }

  datatype ReceiptBody = ReceiptBody(messageId: string, signer: string, kind: ReceiptKind, at: u64)

  datatype Receipt = Receipt(body: ReceiptBody, sig: Bytes)

  /** "ce-mail-receipt-v1" */
  const RECEIPT_DOMAIN: Bytes :=
    [0x63, 0x65, 0x2d, 0x6d, 0x61, 0x69, 0x6c, 0x2d, 0x72, 0x65, 0x63, 0x65, 0x69, 0x70, 0x74, 0x2d, 0x76, 0x31]

  function ReceiptFields(b: ReceiptBody): Bytes {
    EncodeString(b.messageId) + (EncodeString(b.signer) + ([b.kind.Tag()] + EncodeU64(b.at)))
  }

  function ReceiptSigningBytes(b: ReceiptBody): Bytes {
    EncodeBytes(RECEIPT_DOMAIN) + ReceiptFields(b)
  }

  predicate ReceiptVerifies(p: Primitives, r: Receipt) {
    match ParseNodeId(r.body.signer)
    case None => false
    case Some(key) => p.verifySignature(key, ReceiptSigningBytes(r.body), r.sig)
  }

  /** `message_id:tag:signer`; the signer field is called `by` in the source. */
  function DedupKey(r: Receipt): string {
    r.body.messageId + ":" + (if r.body.kind.Delivered? then "1" else "2") + ":" + r.body.signer
  }

  /** No signature over an envelope can ever be replayed as one over a receipt. */
  lemma DomainsSeparate(e: EnvelopeBody, r: ReceiptBody)
    ensures SigningBytes(e) != ReceiptSigningBytes(r)
  {
    BytesRoundTrip(ENVELOPE_DOMAIN, EncodeBodyOnto(e, []));
    BytesRoundTrip(RECEIPT_DOMAIN, ReceiptFields(r));
  }

  lemma ReceiptSigningBytesInjective(a: ReceiptBody, b: ReceiptBody)
    requires FitsPrefix(a.messageId) && FitsPrefix(a.signer) && FitsPrefix(b.messageId) && FitsPrefix(b.signer)
    ensures ReceiptSigningBytes(a) == ReceiptSigningBytes(b) <==> a == b
  {
    if ReceiptSigningBytes(a) == ReceiptSigningBytes(b) {
      var ta, tb := [a.kind.Tag()] + EncodeU64(a.at), [b.kind.Tag()] + EncodeU64(b.at);
      BytesRoundTrip(RECEIPT_DOMAIN, ReceiptFields(a));
      BytesRoundTrip(RECEIPT_DOMAIN, ReceiptFields(b));
      StringCancels(a.messageId, EncodeString(a.signer) + ta, b.messageId, EncodeString(b.signer) + tb);
      StringCancels(a.signer, ta, b.signer, tb);
      assert ta[0] == tb[0] && ta[1..] == EncodeU64(a.at) && tb[1..] == EncodeU64(b.at);
      assert EncodeU64(a.at) + [] == EncodeU64(a.at) && EncodeU64(b.at) + [] == EncodeU64(b.at);
      U64RoundTrip(a.at, []);
      U64RoundTrip(b.at, []);
    }
  }

  lemma ReceiptDomainText()
    ensures RECEIPT_DOMAIN == Utf8("ce-mail-receipt-v1")
  {
    hide Utf8;
    IsUtf8(RECEIPT_DOMAIN, "ce-mail-receipt-v1");
  }

  /** Behind the domain a reader finds message id, signer, one byte for the kind, and the time. */
  lemma ReceiptFieldOrder(b: ReceiptBody) returns (r1: Bytes, r2: Bytes, r3: Bytes)
    requires FitsPrefix(b.messageId) && FitsPrefix(b.signer)
    ensures DecodeBytes(ReceiptSigningBytes(b)) == Parsed(Utf8("ce-mail-receipt-v1"), r1)
    ensures DecodeString(r1) == Parsed(b.messageId, r2)
    ensures DecodeString(r2) == Parsed(b.signer, r3)
    ensures |r3| == 9 && r3[0] == (if b.kind == Delivered then 1 else 2)
    ensures DecodeU64(r3[1..]) == Parsed(b.at as nat, [])
  {
    hide EncodeString, DecodeString, FitsPrefix, EncodeU64, DecodeU64, Utf8;
    r3 := [b.kind.Tag()] + EncodeU64(b.at);
    r2 := EncodeString(b.signer) + r3;
    r1 := ReceiptFields(b);
    ReceiptDomainText();
    BytesRoundTrip(RECEIPT_DOMAIN, r1);
    StringRoundTrip(b.messageId, r2);
    StringRoundTrip(b.signer, r3);
    U64RoundTrip(b.at, []);
    assert r3[1..] == EncodeU64(b.at) && EncodeU64(b.at) + [] == EncodeU64(b.at);
  }

  ghost function LastColon(s: string): int {
    if s == [] then -1 else if s[|s| - 1] == ':' then |s| - 1 else LastColon(s[..|s| - 1])
  }

  lemma {:induction false} LastColonAt(m: string, x: string)
    requires ':' !in x
    ensures LastColon(m + ":" + x) == |m|
  {
    var s := m + ":" + x;
    if x == [] {
      assert s[|s| - 1] == ':';
    } else {
      assert s[|s| - 1] == x[|x| - 1] && x[|x| - 1] in x;
      assert s[..|s| - 1] == m + ":" + x[..|x| - 1];
      LastColonAt(m, x[..|x| - 1]);
    }
  }

  /** A key can be cut at its last colon when the part after it holds no colon itself. */
  lemma KeySuffix(m: string, n: string, x: string, y: string)
    requires ':' !in x && ':' !in y
    requires m + ":" + x == n + ":" + y
    ensures m == n && x == y
  {
    LastColonAt(m, x);
    LastColonAt(n, y);
    var k := m + ":" + x;
    assert k[..|m|] == m && k[|m| + 1..] == x;
    assert k[..|n|] == n && k[|n| + 1..] == y;
  }

  /** Two receipts whose signer field parses share a de-dup key exactly when they acknowledge the
      same message, in the same way, under the same spelling of the signer. */
  lemma DedupKeyExact(a: Receipt, b: Receipt)
    requires ParseNodeId(a.body.signer).Some? && ParseNodeId(b.body.signer).Some?
    ensures DedupKey(a) == DedupKey(b) <==>
            a.body.messageId == b.body.messageId && a.body.kind == b.body.kind && a.body.signer == b.body.signer
  {
    ParsedHasNoColon(a.body.signer);
    ParsedHasNoColon(b.body.signer);
    if DedupKey(a) == DedupKey(b) {
      var ta, tb := if a.body.kind.Delivered? then "1" else "2", if b.body.kind.Delivered? then "1" else "2";
      KeySuffix(a.body.messageId + ":" + ta, b.body.messageId + ":" + tb, a.body.signer, b.body.signer);
      KeySuffix(a.body.messageId, b.body.messageId, ta, tb);
    }
  }

  /** Without that guard the key is ambiguous: whatever the message id and the rest of the signer field, a
      colon in the signer can stand for part of a message id. The signer then never parses, so the
      receipt does not verify. */
  lemma DedupKeyAmbiguousUnchecked(a: Receipt, b: Receipt, m: string, x: string)
    requires a.body.messageId == m && a.body.kind == Delivered && a.body.signer == "1:" + x
    requires b.body.messageId == m + ":1" && b.body.kind == Delivered && b.body.signer == x
    ensures a.body != b.body && DedupKey(a) == DedupKey(b)
    ensures forall p: Primitives :: !ReceiptVerifies(p, a)
  {
    hide ParseNodeId;
    assert DedupKey(a) == m + ":1:1:" + x == DedupKey(b);
    assert a.body.signer[1] == ':';
    ParsedHasNoColon(a.body.signer);
  }
}
