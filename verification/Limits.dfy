/** Size and count limits on what a mailbox accepts from the network. */
module Limiting {
  import opened Encoding
  import opened Envelopes

  datatype Limits = Limits(
    maxSubjectBytes: u64,
    maxCidBytes: u64,
    maxAttachments: u64,
    maxPostageBytes: u64,
    maxEnvelopeBytes: u64,
    maxPage: u64,
    maxAttachmentBytes: u64,
    maxBodyBytes: u64
  )

  const DEFAULT_LIMITS: Limits := Limits(
    4 * 1024, 256, 64, 1024, 256 * 1024, 500, 40 * 1024 * 1024, 25 * 1024 * 1024)

  datatype LimitError =
    | SubjectTooLarge | BodyCidTooLarge | InReplyToTooLarge | PostageTooLarge
    | TooManyAttachments | AttachmentCidTooLarge(index: nat) | EnvelopeTooLarge

  function ByteLen(s: string): nat {
    |Utf8(s)|
  }

  /** The first over-long CID at or after position `i`. */
  function FirstOversized(l: Limits, cids: seq<string>, i: nat): (r: Option<nat>)
    requires i <= |cids|
    ensures r.None? <==> forall k :: i <= k < |cids| ==> ByteLen(cids[k]) <= l.maxCidBytes
    ensures r.Some? ==> i <= r.value < |cids| && ByteLen(cids[r.value]) > l.maxCidBytes
    ensures r.Some? ==> forall k :: i <= k < r.value ==> ByteLen(cids[k]) <= l.maxCidBytes
    decreases |cids| - i
  {
    if i == |cids| then None
    else if ByteLen(cids[i]) > l.maxCidBytes then Some(i)
    else FirstOversized(l, cids, i + 1)
  }

  ghost predicate WithinLimits(l: Limits, e: Envelope) {
    && ByteLen(e.body.subject) <= l.maxSubjectBytes
    && ByteLen(e.body.bodyCid) <= l.maxCidBytes
    && ByteLen(e.body.inReplyTo) <= l.maxCidBytes
    && ByteLen(e.body.postageReceipt) <= l.maxPostageBytes
    && |e.body.attachmentCids| <= l.maxAttachments
    && (forall k :: 0 <= k < |e.body.attachmentCids| ==> ByteLen(e.body.attachmentCids[k]) <= l.maxCidBytes)
    && |EncodeEnvelope(e)| <= l.maxEnvelopeBytes
  }

  /** The guards in source order; the first one exceeded is reported. */
  function CheckEnvelope(l: Limits, e: Envelope): (r: Option<LimitError>)
    ensures r.None? <==> WithinLimits(l, e)
  {
    var b := e.body;
    if ByteLen(b.subject) > l.maxSubjectBytes then Some(SubjectTooLarge)
    else if ByteLen(b.bodyCid) > l.maxCidBytes then Some(BodyCidTooLarge)
    else if ByteLen(b.inReplyTo) > l.maxCidBytes then Some(InReplyToTooLarge)
    else if ByteLen(b.postageReceipt) > l.maxPostageBytes then Some(PostageTooLarge)
    else if |b.attachmentCids| > l.maxAttachments then Some(TooManyAttachments)
    else
      match FirstOversized(l, b.attachmentCids, 0)
      case Some(i) => Some(AttachmentCidTooLarge(i))
      case None => if |EncodeEnvelope(e)| > l.maxEnvelopeBytes then Some(EnvelopeTooLarge) else None
  }

  /** What is reported: the first field, in this order, that is longer than its limit, and nothing exactly if
      all of them, each attachment id and the whole envelope are within theirs. Lengths are in bytes. */
  lemma ReportedLimit(l: Limits, e: Envelope)
    ensures var b := e.body;
      var fields := |Utf8(b.subject)| <= l.maxSubjectBytes && |Utf8(b.bodyCid)| <= l.maxCidBytes
                    && |Utf8(b.inReplyTo)| <= l.maxCidBytes && |Utf8(b.postageReceipt)| <= l.maxPostageBytes
                    && |b.attachmentCids| <= l.maxAttachments;
      match CheckEnvelope(l, e)
      case None =>
        && fields && |EncodeEnvelope(e)| <= l.maxEnvelopeBytes
        && forall i :: 0 <= i < |b.attachmentCids| ==> |Utf8(b.attachmentCids[i])| <= l.maxCidBytes
      case Some(SubjectTooLarge) => |Utf8(b.subject)| > l.maxSubjectBytes
      case Some(BodyCidTooLarge) =>
        |Utf8(b.subject)| <= l.maxSubjectBytes && |Utf8(b.bodyCid)| > l.maxCidBytes
      case Some(InReplyToTooLarge) =>
        && |Utf8(b.subject)| <= l.maxSubjectBytes && |Utf8(b.bodyCid)| <= l.maxCidBytes
        && |Utf8(b.inReplyTo)| > l.maxCidBytes
      case Some(PostageTooLarge) =>
        && |Utf8(b.subject)| <= l.maxSubjectBytes && |Utf8(b.bodyCid)| <= l.maxCidBytes
        && |Utf8(b.inReplyTo)| <= l.maxCidBytes && |Utf8(b.postageReceipt)| > l.maxPostageBytes
      case Some(TooManyAttachments) => |b.attachmentCids| > l.maxAttachments
      case Some(AttachmentCidTooLarge(i)) =>
        && fields && i < |b.attachmentCids| && |Utf8(b.attachmentCids[i])| > l.maxCidBytes
        && forall j :: 0 <= j < i ==> |Utf8(b.attachmentCids[j])| <= l.maxCidBytes
      case Some(EnvelopeTooLarge) =>
        && fields && |EncodeEnvelope(e)| > l.maxEnvelopeBytes
        && forall i :: 0 <= i < |b.attachmentCids| ==> |Utf8(b.attachmentCids[i])| <= l.maxCidBytes
  {
    hide Utf8, EncodeEnvelope;
  }

  /** `limit.clamp(1, max_page)`, which panics when the ceiling is below the floor. */
  function ClampPage(l: Limits, limit: u64): (r: Option<u64>)
    ensures r.None? <==> l.maxPage == 0
    ensures r.Some? ==> 1 <= r.value <= l.maxPage && (1 <= limit <= l.maxPage ==> r.value == limit)
    ensures r.Some? && limit > l.maxPage ==> r.value == l.maxPage
  {
    if l.maxPage == 0 then None
    else if limit < 1 then Some(1)
    else if limit > l.maxPage then Some(l.maxPage)
    else Some(limit)
  }
}
