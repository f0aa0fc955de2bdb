/** What is sealed into a blob: attachments, raw bodies, and bodies that carry a confidential subject. */
module Contents {
  import opened Encoding

  /** Marks a structured body; anything else in first place is a raw one. */
  const BODY_CONTENT_MAGIC: byte := 0xC5

  datatype BodyContent = BodyContent(subject: string, body: Bytes)

  datatype Attachment = Attachment(filename: string, contentType: string, bytes: Bytes)

  function EncodeContent(c: BodyContent): Bytes {
    [BODY_CONTENT_MAGIC] + (EncodeString(c.subject) + EncodeBytes(c.body))
  }

  /** Trailing bytes are ignored, as bincode does. */
  function TryDecode(bs: Bytes): (c: Option<BodyContent>)
    ensures c.Some? ==> |c.value.body| < |bs|
  {
    if bs == [] || bs[0] != BODY_CONTENT_MAGIC then None else
    match DecodeString(bs[1..])
    case Malformed => None
    case Parsed(subject, rest) =>
      match DecodeBytes(rest)
      case Malformed => None
      case Parsed(body, _) => Some(BodyContent(subject, body))
  }

  function EncodeAttachment(a: Attachment): Bytes {
    EncodeString(a.filename) + (EncodeString(a.contentType) + EncodeBytes(a.bytes))
  }

  function DecodeAttachment(bs: Bytes): Option<Attachment> {
    match DecodeString(bs)
    case Malformed => None
    case Parsed(filename, rest) =>
      match DecodeString(rest)
      case Malformed => None
      case Parsed(contentType, rest') =>
        match DecodeBytes(rest')
        case Malformed => None
        case Parsed(bytes, _) => Some(Attachment(filename, contentType, bytes))
  }

  lemma LastBytesRoundTrip(bs: Bytes)
    requires |bs| < U64_LIMIT
    ensures DecodeBytes(EncodeBytes(bs)) == Parsed(bs, [])
  {
    BytesRoundTrip(bs, []);
    assert EncodeBytes(bs) + [] == EncodeBytes(bs);
  }

  lemma ContentRoundTrip(c: BodyContent)
    requires FitsPrefix(c.subject) && |c.body| < U64_LIMIT
    ensures TryDecode(EncodeContent(c)) == Some(c)
  {
    hide EncodeString, EncodeBytes, DecodeString, DecodeBytes, FitsPrefix;
    var rest := EncodeString(c.subject) + EncodeBytes(c.body);
    assert EncodeContent(c)[1..] == rest;
    StringRoundTrip(c.subject, EncodeBytes(c.body));
    LastBytesRoundTrip(c.body);
  }

  lemma AttachmentRoundTrip(a: Attachment)
    requires FitsPrefix(a.filename) && FitsPrefix(a.contentType) && |a.bytes| < U64_LIMIT
    ensures DecodeAttachment(EncodeAttachment(a)) == Some(a)
  {
    hide EncodeString, EncodeBytes, DecodeString, DecodeBytes, FitsPrefix;
    StringRoundTrip(a.filename, EncodeString(a.contentType) + EncodeBytes(a.bytes));
    StringRoundTrip(a.contentType, EncodeBytes(a.bytes));
    LastBytesRoundTrip(a.bytes);
  }

  /** A reader finds the magic byte, the subject and the body, in this order; of an attachment its name, its type
      and its bytes. */
  lemma ContentFieldOrder(c: BodyContent) returns (r: Bytes)
    requires FitsPrefix(c.subject) && |c.body| < U64_LIMIT
    ensures EncodeContent(c)[0] == 0xC5 && DecodeString(EncodeContent(c)[1..]) == Parsed(c.subject, r)
    ensures DecodeBytes(r) == Parsed(c.body, [])
  {
    hide EncodeString, EncodeBytes, DecodeString, DecodeBytes, FitsPrefix;
    r := EncodeBytes(c.body);
    assert EncodeContent(c)[1..] == EncodeString(c.subject) + r;
    StringRoundTrip(c.subject, r);
    LastBytesRoundTrip(c.body);
  }

  lemma AttachmentFieldOrder(a: Attachment) returns (r: Bytes, r': Bytes)
    requires FitsPrefix(a.filename) && FitsPrefix(a.contentType) && |a.bytes| < U64_LIMIT
    ensures DecodeString(EncodeAttachment(a)) == Parsed(a.filename, r)
    ensures DecodeString(r) == Parsed(a.contentType, r') && DecodeBytes(r') == Parsed(a.bytes, [])
  {
    hide EncodeString, EncodeBytes, DecodeString, DecodeBytes, FitsPrefix;
    r' := EncodeBytes(a.bytes);
    r := EncodeString(a.contentType) + r';
    StringRoundTrip(a.filename, r);
    StringRoundTrip(a.contentType, r');
    LastBytesRoundTrip(a.bytes);
  }

  // ---- raw bodies that could be taken for structured ones ----

  lemma {:induction false} HighByte(bs: Bytes)
    requires bs != []
    ensures FromLittleEndian(bs) >= bs[|bs| - 1] * Pow256(|bs| - 1)
  {
    if |bs| > 1 {
      HighByte(bs[1..]);
      assert bs[1..][|bs| - 2] == bs[|bs| - 1];
      assert bs[|bs| - 1] * Pow256(|bs| - 1) == 256 * (bs[|bs| - 1] * Pow256(|bs| - 2));
    }
  }

  /** A body is only ever taken for a structured one if its ninth byte is zero. */
  lemma NinthByteTells(bs: Bytes)
    requires |bs| <= 0x100_0000_0000_0000
    ensures TryDecode(bs).Some? ==> |bs| > 8 && bs[8] == 0
  {
    if |bs| > 8 && bs[8] != 0 {
      var rest := bs[1..];
      HighByte(rest[..8]);
      assert rest[..8][7] == bs[8];
      assert Pow256(7) == 0x100_0000_0000_0000 by {
        assert Pow256(3) == 0x100_0000;
      }
      assert FromLittleEndian(rest[..8]) >= Pow256(7);
    }
  }

  lemma {:induction false} NoZeroByte(s: string)
    requires forall c :: c in s ==> c as int != 0
    ensures forall b :: b in Utf8(s) ==> b != 0
  {
    if s != [] {
      assert s[0] in s && forall c :: c in s[1..] ==> c in s;
      NoZeroByte(s[1..]);
    }
  }

  /** The magic byte starts characters such as U+0151, so text bodies may begin with it. Text without
      NUL characters is still never misread, whatever it begins with. */
  lemma TextIsNeverMisread(s: string)
    requires forall c :: c in s ==> c as int != 0
    requires |Utf8(s)| <= 0x100_0000_0000_0000
    ensures TryDecode(Utf8(s)) == None
  {
    hide Utf8, TryDecode;
    var bs := Utf8(s);
    NoZeroByte(s);
    NinthByteTells(bs);
    assert |bs| > 8 ==> bs[8] in bs;
  }
}
