/** The mail client: composing and sending, draining and opening. External are the blob store, the sealing
    of plaintext to a node, the node's signing key, and the wire to the mailbox, which may fail. */
module Client {
  import opened Encoding
  import opened Envelopes
  import opened Limiting
  import opened Contents
  import opened Lanes
  import opened Store
  import opened Mailbox
  import opened Runs
  import opened Service
  import opened ServiceRuns
  import opened Requests

  /** `seal(recipient, randomness, plaintext)` gives the bytes of a sealed blob, or fails; `open` reads one
      with the secret of a node. */
  datatype Sealing = Sealing(seal: (NodeId, nat, Bytes) -> Option<Bytes>, open: (NodeId, Bytes) -> Option<Bytes>)

  /** What is sealed to a node, that node can open. */
  ghost predicate OpensWhatIsSealed(x: Sealing) {
    forall r, n, m :: x.seal(r, n, m).Some? ==> x.open(r, x.seal(r, n, m).value) == Some(m)
  }

  datatype Identity = Identity(id: NodeId, sign: Bytes -> Bytes)

  type Blobs = map<string, Bytes>

  ghost predicate Grows(m: Blobs, m': Blobs) {
    forall c :: c in m ==> c in m' && m'[c] == m[c]
  }

  ghost predicate IdealCids(cidOf: Bytes -> string) {
    (forall a, b :: cidOf(a) == cidOf(b) ==> a == b) && (forall a :: cidOf(a) != "")
  }

  /** The node's blob store: content-addressed, never forgets. `refuses(i)` says whether it fails to take the
      blob offered to it as number `i`; `puts` counts them. */
  class BlobStore {
    const cidOf: Bytes -> string
    const refuses: nat -> bool
    var blobs: Blobs
    var puts: nat

    constructor (cidOf: Bytes -> string, refuses: nat -> bool)
      requires IdealCids(cidOf)
      ensures Valid() && this.cidOf == cidOf && this.refuses == refuses && blobs == map[] && puts == 0
    {
      this.cidOf, this.refuses := cidOf, refuses;
      blobs, puts := map[], 0;
    }

    ghost predicate Valid()
      reads this
    {
      IdealCids(cidOf) && forall c :: c in blobs ==> cidOf(blobs[c]) == c
    }

    method Put(bytes: Bytes) returns (cid: Option<string>)
      requires Valid()
      modifies this
      ensures Valid() && Grows(old(blobs), blobs) && puts == old(puts) + 1
      ensures cid == if refuses(old(puts)) then None else Some(cidOf(bytes))
      ensures cid.None? ==> blobs == old(blobs)
      ensures cid.Some? ==> cid.value != "" && blobs == old(blobs)[cid.value := bytes]
    {
      var refused := refuses(puts);
      puts := puts + 1;
      if refused {
        return None;
      }
      blobs := blobs[cidOf(bytes) := bytes];
      return Some(cidOf(bytes));
    }
  }

  /** Nothing goes wrong on this side: sealing to `r` works, and so does storing each blob offered from
      number `from` up to `to`. */
  ghost predicate Smooth(x: Sealing, r: NodeId, refuses: nat -> bool, from: nat, to: nat) {
    && (forall n: nat, m :: x.seal(r, n, m).Some?)
    && (forall i :: from <= i < to ==> !refuses(i))
  }

  // ---- sending ----

  datatype SendOptions = SendOptions(
    to: string,
    subject: string,
    body: Bytes,
    attachments: seq<Attachment>,
    inReplyTo: string,
    sealSubject: bool,
    postageReceipt: string,
    mailbox: Option<string>,
    grant: Grant
  )

  datatype SendError =
    | UnknownRecipient | BodyTooLarge | AttachmentsTooMany | AttachmentTooLarge(index: nat)
    | Unavailable | Turned(reason: Rejection) | UnexpectedReply

  datatype Result<+T> = Ok(value: T) | Err(error: SendError)

  const REDACTED_SUBJECT := "(encrypted subject)"

  ghost predicate IsSeal(x: Sealing, r: NodeId, n: nat, plaintext: Bytes, blob: Bytes) {
    x.seal(r, n, plaintext) == Some(blob)
  }

  /** Is `cid` a blob that seals `plaintext` to `r`? */
  ghost predicate Seals(x: Sealing, r: NodeId, m: Blobs, cid: string, plaintext: Bytes) {
    cid != "" && cid in m && exists n: nat :: IsSeal(x, r, n, plaintext, m[cid])
  }

  ghost predicate SealsAll(x: Sealing, r: NodeId, m: Blobs, cids: seq<string>, attachments: seq<Attachment>) {
    |cids| == |attachments| && forall i :: 0 <= i < |cids| ==> Seals(x, r, m, cids[i], EncodeAttachment(attachments[i]))
  }

  ghost predicate SealsBody(x: Sealing, r: NodeId, m: Blobs, e: EnvelopeBody, opts: SendOptions) {
    if opts.sealSubject then
      e.subject == REDACTED_SUBJECT && Seals(x, r, m, e.bodyCid, EncodeContent(BodyContent(opts.subject, opts.body)))
    else
      e.subject == opts.subject
      && if opts.body == [] then e.bodyCid == "" else Seals(x, r, m, e.bodyCid, opts.body)
  }

  /** `e` is an envelope for what the options say, with everything it refers to in the blob store. */
  ghost predicate Carries(x: Sealing, r: NodeId, m: Blobs, e: EnvelopeBody, opts: SendOptions) {
    && e.to == opts.to && e.inReplyTo == opts.inReplyTo && e.postageReceipt == opts.postageReceipt
    && SealsBody(x, r, m, e, opts)
    && SealsAll(x, r, m, e.attachmentCids, opts.attachments)
  }

  /** The client checks its own payload limits before it does anything else. */
  ghost predicate Sendable(l: Limits, opts: SendOptions) {
    && ParseNodeId(opts.to).Some? && |opts.body| <= l.maxBodyBytes && |opts.attachments| <= l.maxAttachments
    && forall i :: 0 <= i < |opts.attachments| ==> |opts.attachments[i].bytes| <= l.maxAttachmentBytes
  }

  // ---- opening ----

  datatype Content = Content(body: Bytes, sealedSubject: Option<string>)

  datatype Message = Message(envelope: Envelope, body: Bytes, sealedSubject: Option<string>) {
    function Subject(): string {
      match sealedSubject
      case Some(s) => s
      case None => envelope.body.subject
    }
  }

  function Fetch(x: Sealing, id: NodeId, m: Blobs, cid: string): Option<Bytes> {
    if cid in m then x.open(id, m[cid]) else None
  }

  function OpenContent(x: Sealing, id: NodeId, m: Blobs, e: EnvelopeBody): Option<Content> {
    if e.bodyCid == "" then Some(Content([], None)) else
    match Fetch(x, id, m, e.bodyCid)
    case None => None
    case Some(plaintext) =>
      match TryDecode(plaintext)
      case Some(c) => Some(Content(c.body, Some(c.subject)))
      case None => Some(Content(plaintext, None))
  }

  function OpenAttachment(x: Sealing, id: NodeId, m: Blobs, e: EnvelopeBody, i: nat): Option<Attachment> {
    if i >= |e.attachmentCids| || e.attachmentCids[i] == "" then None else
    match Fetch(x, id, m, e.attachmentCids[i])
    case None => None
    case Some(plaintext) => DecodeAttachment(plaintext)
  }

  function AsMessage(x: Sealing, id: NodeId, m: Blobs, e: Envelope): Message {
    match OpenContent(x, id, m, e.body)
    case Some(c) => Message(e, c.body, c.sealedSubject)
    case None => Message(e, [], None)
  }

  /** Envelopes that do not verify are skipped; one whose body cannot be opened is kept, empty. */
  ghost function Messages(p: Primitives, x: Sealing, id: NodeId, m: Blobs, es: seq<Envelope>): seq<Message> {
    if es == [] then []
    else Messages(p, x, id, m, es[..|es| - 1])
         + if Verifies(p, es[|es| - 1]) then [AsMessage(x, id, m, es[|es| - 1])] else []
  }

  ghost function NextAt(mailbox: MailService, s: State, ev: Event): State {
    HandleNext(mailbox.prims, mailbox.store.rules, mailbox.limits, s, ev)
  }

  ghost function OutcomeAt(mailbox: MailService, s: State, ev: Event): Outcome {
    HandleOutcome(mailbox.prims, mailbox.store.rules, mailbox.limits, s, ev)
  }

  class MailClient {
    const me: Identity
    const prims: Primitives
    const sealing: Sealing
    const limits: Limits
    const store: BlobStore

    constructor (me: Identity, prims: Primitives, sealing: Sealing, limits: Limits, store: BlobStore)
      ensures this.me == me && this.prims == prims && this.sealing == sealing
      ensures this.limits == limits && this.store == store
    {
      this.me, this.prims, this.sealing, this.limits, this.store := me, prims, sealing, limits, store;
    }

    method CheckOptions(opts: SendOptions) returns (r: Option<SendError>)
      ensures r.None? <==> Sendable(limits, opts)
      ensures r == Some(UnknownRecipient) <==> ParseNodeId(opts.to).None?
      ensures r == Some(BodyTooLarge) <==> ParseNodeId(opts.to).Some? && |opts.body| > limits.maxBodyBytes
      ensures r == Some(AttachmentsTooMany) <==>
                && ParseNodeId(opts.to).Some? && |opts.body| <= limits.maxBodyBytes
                && |opts.attachments| > limits.maxAttachments
      ensures r.None? ==> forall i :: 0 <= i < |opts.attachments| ==>
                                        |opts.attachments[i].bytes| <= limits.maxAttachmentBytes
      ensures r.Some? ==> r.value.UnknownRecipient? || r.value.BodyTooLarge? || r.value.AttachmentsTooMany?
                          || r.value.AttachmentTooLarge?
      ensures r.Some? && r.value.AttachmentTooLarge? ==>
                && r.value.index < |opts.attachments|
                && |opts.attachments[r.value.index].bytes| > limits.maxAttachmentBytes
                && forall j :: 0 <= j < r.value.index ==> |opts.attachments[j].bytes| <= limits.maxAttachmentBytes
    {
      if ParseNodeId(opts.to).None? {
        return Some(UnknownRecipient);
      }
      if |opts.body| > limits.maxBodyBytes {
        return Some(BodyTooLarge);
      }
      if |opts.attachments| > limits.maxAttachments {
        return Some(AttachmentsTooMany);
      }
      for i := 0 to |opts.attachments|
        invariant forall j :: 0 <= j < i ==> |opts.attachments[j].bytes| <= limits.maxAttachmentBytes
      {
        if |opts.attachments[i].bytes| > limits.maxAttachmentBytes {
          return Some(AttachmentTooLarge(i));
        }
      }
      return None;
    }

    /** Seal with new randomness and store the blob. */
    method SealAndPut(recipient: NodeId, plaintext: Bytes) returns (cid: Option<string>)
      requires store.Valid()
      modifies store
      ensures store.Valid() && Grows(old(store.blobs), store.blobs) && old(store.puts) <= store.puts
      ensures cid.Some? ==> Seals(sealing, recipient, store.blobs, cid.value, plaintext)
      ensures Smooth(sealing, recipient, store.refuses, old(store.puts), store.puts) ==> cid.Some?
    {
      var randomness :| randomness >= 0;
      var sealedBlob := sealing.seal(recipient, randomness, plaintext);
      if sealedBlob.Some? {
        cid := store.Put(sealedBlob.value);
        assert cid.Some? ==> IsSeal(sealing, recipient, randomness, plaintext, store.blobs[cid.value]);
      } else {
        cid := None;
      }
    }

    method SealBody(recipient: NodeId, opts: SendOptions) returns (r: Option<(string, string)>)
      requires store.Valid()
      modifies store
      ensures store.Valid() && Grows(old(store.blobs), store.blobs) && old(store.puts) <= store.puts
      ensures !opts.sealSubject && opts.body == [] ==> r.Some? && store.blobs == old(store.blobs)
      ensures Smooth(sealing, recipient, store.refuses, old(store.puts), store.puts) ==> r.Some?
      ensures r.Some? ==> forall e: EnvelopeBody ::
        (e.bodyCid == r.value.0 && e.subject == r.value.1 ==> SealsBody(sealing, recipient, store.blobs, e, opts))
    {
      if !opts.sealSubject && opts.body == [] {
        return Some(("", opts.subject));
      }
      var subject := if opts.sealSubject then REDACTED_SUBJECT else opts.subject;
      var plaintext := if opts.sealSubject then EncodeContent(BodyContent(opts.subject, opts.body)) else opts.body;
      var cid := SealAndPut(recipient, plaintext);
      if cid.None? {
        return None;
      }
      return Some((cid.value, subject));
    }

    method SealAttachments(recipient: NodeId, attachments: seq<Attachment>) returns (r: Option<seq<string>>)
      requires store.Valid()
      modifies store
      ensures store.Valid() && Grows(old(store.blobs), store.blobs) && old(store.puts) <= store.puts
      ensures r.Some? ==> SealsAll(sealing, recipient, store.blobs, r.value, attachments)
      ensures Smooth(sealing, recipient, store.refuses, old(store.puts), store.puts) ==> r.Some?
    {
      hide EncodeAttachment;
      var cids := [];
      for i := 0 to |attachments|
        invariant store.Valid() && Grows(old(store.blobs), store.blobs) && old(store.puts) <= store.puts
        invariant SealsAll(sealing, recipient, store.blobs, cids, attachments[..i])
      {
        ghost var m := store.blobs;
        var cid := SealAndPut(recipient, EncodeAttachment(attachments[i]));
        if cid.None? {
          return None;
        }
        SealsAllSnoc(sealing, recipient, m, store.blobs, cids, attachments[..i], cid.value, attachments[i]);
        cids := cids + [cid.value];
        assert attachments[..i + 1] == attachments[..i] + [attachments[i]];
      }
      assert attachments[..|attachments|] == attachments;
      return Some(cids);
    }

    /** Compose, seal and sign. Nothing is stored for options beyond the limits. It fails for those, for an
        unknown recipient, and otherwise only if sealing fails or a blob is refused. */
    method Compose(opts: SendOptions, now: u64) returns (r: Result<Envelope>)
      requires store.Valid()
      modifies store
      ensures store.Valid() && Grows(old(store.blobs), store.blobs) && old(store.puts) <= store.puts
      ensures r == Err(UnknownRecipient) <==> ParseNodeId(opts.to).None?
      ensures r == Err(BodyTooLarge) <==> ParseNodeId(opts.to).Some? && |opts.body| > limits.maxBodyBytes
      ensures r == Err(AttachmentsTooMany) <==>
                && ParseNodeId(opts.to).Some? && |opts.body| <= limits.maxBodyBytes
                && |opts.attachments| > limits.maxAttachments
      ensures r.Err? && r.error.AttachmentTooLarge? ==>
                && r.error.index < |opts.attachments|
                && |opts.attachments[r.error.index].bytes| > limits.maxAttachmentBytes
                && forall j :: 0 <= j < r.error.index ==> |opts.attachments[j].bytes| <= limits.maxAttachmentBytes
      ensures r.Ok? || r.error.UnknownRecipient? || r.error.BodyTooLarge? || r.error.AttachmentsTooMany?
              || r.error.AttachmentTooLarge? || r.error.Unavailable?
      ensures !Sendable(limits, opts) ==> r.Err? && r.error != Unavailable && store.blobs == old(store.blobs)
      ensures r == Err(Unavailable) ==>
                && ParseNodeId(opts.to).Some?
                && ((exists n: nat, m :: sealing.seal(ParseNodeId(opts.to).value, n, m).None?)
                    || exists i :: old(store.puts) <= i < store.puts && store.refuses(i))
      ensures r.Ok? ==>
                var b := r.value.body;
                && ParseNodeId(opts.to).Some? && Carries(sealing, ParseNodeId(opts.to).value, store.blobs, b, opts)
                && b.from == NodeIdHex(me.id) && b.sentAt == now && r.value.sig == me.sign(SigningBytes(b))
    {
      hide ParseNodeId, EncodeAttachment, EncodeContent, SigningBytes, NodeIdHex, SealsBody, SealsAll, IdealCids;
      var problem := CheckOptions(opts);
      if problem.Some? {
        return Err(problem.value);
      }
      var recipient := ParseNodeId(opts.to).value;
      var sealedBody := SealBody(recipient, opts);
      if sealedBody.None? {
        return Err(Unavailable);
      }
      ghost var m := store.blobs;
      var cids := SealAttachments(recipient, opts.attachments);
      if cids.None? {
        return Err(Unavailable);
      }
      var body := EnvelopeBody(NodeIdHex(me.id), opts.to, sealedBody.value.1, sealedBody.value.0, cids.value,
                               opts.inReplyTo, now, opts.postageReceipt);
      SealsBodyGrows(sealing, recipient, m, store.blobs, body, opts);
      return Ok(Envelope(body, me.sign(SigningBytes(body))));
    }

    /** Sends to whatever service answers for the mailbox, or for the recipient when no mailbox is named; only a
        mailbox is shown the grant. The request or its reply may get lost. */
    method Send(opts: SendOptions, now: u64, mailbox: MailService, mailboxNow: u64, revoked: Revocations,
                requestLost: bool, replyLost: bool, overflowChecks: bool)
        returns (r: Result<string>, ghost sent: Result<Envelope>)
      requires store.Valid() && mailbox.Valid()
      modifies store, mailbox.store
      ensures store.Valid() && mailbox.Valid() && Grows(old(store.blobs), store.blobs) && old(store.puts) <= store.puts
      ensures sent.Ok? ==> ParseNodeId(opts.to).Some? && sent.value.body.from == NodeIdHex(me.id)
      ensures sent.Ok? ==> sent.value.sig == me.sign(SigningBytes(sent.value.body)) && sent.value.body.sentAt == now
      ensures sent.Ok? ==> Carries(sealing, ParseNodeId(opts.to).value, store.blobs, sent.value.body, opts)
      ensures sent.Err? ==> r == Err(sent.error) && mailbox.store.model == old(mailbox.store.model)
      ensures match sent
        case Ok(_) => Sendable(limits, opts)
        case Err(UnknownRecipient) => ParseNodeId(opts.to).None?
        case Err(BodyTooLarge) => |opts.body| > limits.maxBodyBytes
        case Err(AttachmentsTooMany) => |opts.attachments| > limits.maxAttachments
        case Err(AttachmentTooLarge(i)) =>
          i < |opts.attachments| && |opts.attachments[i].bytes| > limits.maxAttachmentBytes
        case Err(Unavailable) =>
          && ParseNodeId(opts.to).Some?
          && ((exists n: nat, m :: sealing.seal(ParseNodeId(opts.to).value, n, m).None?)
              || exists i :: old(store.puts) <= i < store.puts && store.refuses(i))
        case _ => false
      ensures requestLost ==> mailbox.store.model == old(mailbox.store.model)
      ensures sent.Ok? ==>
                var ev := Event(me.id, DeliverMail(sent.value, if opts.mailbox.Some? then opts.grant else []),
                                mailboxNow, revoked);
                var out := OutcomeAt(mailbox, old(mailbox.store.model), ev);
                && (!requestLost ==> mailbox.store.model == NextAt(mailbox, old(mailbox.store.model), ev))
                && (requestLost || replyLost ==> r == Err(Unavailable))
                && (!requestLost && !replyLost ==>
                      && out.Replied? && (out.reply.Delivered? || out.reply.Error?)
                      && (out.reply.Delivered? ==> r == Ok(MessageId(prims, sent.value.body)))
                      && (out.reply.Error? ==> r == Err(Turned(out.reply.reason))))
    {
      hide ParseNodeId, SigningBytes, NodeIdHex, Carries, HandleNext, HandleOutcome, Sendable;
      sent := Err(Unavailable);
      var composed := Compose(opts, now);
      sent := composed;
      if composed.Err? {
        return Err(composed.error), sent;
      }
      if requestLost {
        return Err(Unavailable), sent;
      }
      var grant := if opts.mailbox.Some? then opts.grant else [];
      var ev := Event(me.id, DeliverMail(composed.value, grant), mailboxNow, revoked);
      DeliverReply(mailbox.prims, mailbox.store.rules, mailbox.limits, mailbox.store.model, ev);
      var outcome := mailbox.Handle(ev, overflowChecks);
      if replyLost {
        return Err(Unavailable), sent;
      }
      match outcome {
        case Panic => r := Err(Unavailable);
        case Replied(reply) =>
          r := if reply.Delivered? then Ok(MessageId(prims, composed.value.body))
               else if reply.Error? then Err(Turned(reply.reason)) else Err(UnexpectedReply);
      }
    }

    method ComposeMessages(es: seq<Envelope>) returns (out: seq<Message>)
      ensures out == Messages(prims, sealing, me.id, store.blobs, es)
    {
      hide Verifies, AsMessage;
      out := [];
      for i := 0 to |es|
        invariant out == Messages(prims, sealing, me.id, store.blobs, es[..i])
      {
        assert es[..i + 1][..i] == es[..i];
        if Verifies(prims, es[i]) {
          out := out + [AsMessage(sealing, me.id, store.blobs, es[i])];
        }
      }
      assert es[..|es|] == es;
    }

    /** All attachments in order, or nothing if any of them cannot be opened. */
    method OpenAttachments(e: Envelope) returns (out: Option<seq<Attachment>>)
      ensures out.Some? <==>
        forall i :: 0 <= i < |e.body.attachmentCids| ==> OpenAttachment(sealing, me.id, store.blobs, e.body, i).Some?
      ensures out.Some? ==> |out.value| == |e.body.attachmentCids|
      ensures out.Some? ==>
        forall i :: 0 <= i < |out.value| ==>
          OpenAttachment(sealing, me.id, store.blobs, e.body, i) == Some(out.value[i])
    {
      hide OpenAttachment;
      var files := [];
      for i := 0 to |e.body.attachmentCids|
        invariant |files| == i
        invariant forall j :: 0 <= j < i ==> OpenAttachment(sealing, me.id, store.blobs, e.body, j) == Some(files[j])
      {
        var a := OpenAttachment(sealing, me.id, store.blobs, e.body, i);
        if a.None? {
          return None;
        }
        files := files + [a.value];
      }
      return Some(files);
    }

    /** Drain this client's own queue and open what verifies. It fails only if the request or its reply is lost,
        for no mailbox refuses a node its own mail. */
    method DrainInbox(mailbox: MailService, since: u64, grant: Grant, now: u64, revoked: Revocations,
                      requestLost: bool, replyLost: bool, overflowChecks: bool)
        returns (r: Result<(seq<Message>, nat)>)
      requires mailbox.Valid()
      modifies mailbox.store
      ensures mailbox.Valid() && mailbox.store.model == old(mailbox.store.model)
      ensures if requestLost || replyLost then r == Err(Unavailable) else r.Ok?
      ensures r.Ok? ==>
                var q := Pending(mailbox.store.model, NodeIdHex(me.id));
                r.value.0 == Messages(prims, sealing, me.id, store.blobs, Bare(From(q, since))) && r.value.1 == |q|
    {
      hide ParseNodeId, NodeIdHex, MailboxStore.Valid;
      if requestLost {
        return Err(Unavailable);
      }
      var ev := Event(me.id, Drain(NodeIdHex(me.id), since, grant), now, revoked);
      NodeIdRoundTrip(me.id);
      DrainOutcome(mailbox.prims, mailbox.store.rules, mailbox.limits, mailbox.store.model, ev);
      OwnersAreNotRefused(mailbox.prims, mailbox.store.rules, mailbox.limits, mailbox.store.model, ev, me.id);
      var outcome := mailbox.Handle(ev, overflowChecks);
      if replyLost {
        return Err(Unavailable);
      }
      match outcome {
        case Replied(Drained(es, cursor)) =>
          var messages := ComposeMessages(es);
          r := Ok((messages, cursor));
        case Replied(Error(reason)) => r := Err(Turned(reason));
        case _ => r := Err(UnexpectedReply);
      }
    }
  }

  /** A delivery is answered as one, or with an error. */
  lemma DeliverReply(p: Primitives, k: Rules, limits: Limits, s: State, ev: Event)
    requires ev.request.DeliverMail?
    ensures var out := HandleOutcome(p, k, limits, s, ev);
      out.Replied? && (out.reply.Delivered? || out.reply.Error?)
  {
    hide ParseNodeId, CheckEnvelope, AcceptInto;
  }

  lemma DrainOutcome(p: Primitives, k: Rules, limits: Limits, s: State, ev: Event)
    requires ev.request.Drain?
    ensures HandleNext(p, k, limits, s, ev) == s
    ensures var out, q := HandleOutcome(p, k, limits, s, ev), Pending(s, ev.request.recipient);
      out == Replied(Drained(Bare(From(q, ev.request.since)), |q|)) || (out.Replied? && out.reply.Error?)
  {
    hide ParseNodeId, CheckEnvelope, Pending, From, PageOverflows, AcceptInto, PutReceiptInto, AckIn,
      CollectFrom;
  }

  lemma SealsAllSnoc(x: Sealing, r: NodeId, m: Blobs, m': Blobs, cids: seq<string>, attachments: seq<Attachment>,
                     cid: string, a: Attachment)
    requires SealsAll(x, r, m, cids, attachments) && Grows(m, m') && Seals(x, r, m', cid, EncodeAttachment(a))
    ensures SealsAll(x, r, m', cids + [cid], attachments + [a])
  {
    hide EncodeAttachment;
  }

  lemma SealsBodyGrows(x: Sealing, r: NodeId, m: Blobs, m': Blobs, e: EnvelopeBody, opts: SendOptions)
    requires SealsBody(x, r, m, e, opts) && Grows(m, m')
    ensures SealsBody(x, r, m', e, opts)
  {
    hide EncodeContent;
  }

  // ---- sent and opened ----

  /** The lengths Rust's `String` and `Vec` guarantee. */
  ghost predicate SizesFit(opts: SendOptions) {
    && FitsPrefix(opts.subject) && |opts.body| < U64_LIMIT
    && forall a :: a in opts.attachments ==>
         FitsPrefix(a.filename) && FitsPrefix(a.contentType) && |a.bytes| < U64_LIMIT
  }

  lemma SealedIsFetched(x: Sealing, r: NodeId, m: Blobs, m': Blobs, cid: string, plaintext: Bytes)
    requires OpensWhatIsSealed(x) && Seals(x, r, m, cid, plaintext) && Grows(m, m')
    ensures cid != "" && Fetch(x, r, m', cid) == Some(plaintext)
  {
    var n: nat :| IsSeal(x, r, n, plaintext, m[cid]);
    assert x.seal(r, n, plaintext).Some?;
  }

  /** Attachments come back complete and in order, however the blob store grew in the meantime. */
  lemma AttachmentsRoundTrip(x: Sealing, r: NodeId, m: Blobs, m': Blobs, e: EnvelopeBody, opts: SendOptions)
    requires OpensWhatIsSealed(x) && Carries(x, r, m, e, opts) && Grows(m, m') && SizesFit(opts)
    ensures |e.attachmentCids| == |opts.attachments|
    ensures forall i :: 0 <= i < |opts.attachments| ==> OpenAttachment(x, r, m', e, i) == Some(opts.attachments[i])
  {
    hide EncodeAttachment, DecodeAttachment, FitsPrefix, Fetch, Seals, OpensWhatIsSealed;
    forall i | 0 <= i < |opts.attachments|
      ensures OpenAttachment(x, r, m', e, i) == Some(opts.attachments[i])
    {
      var a := opts.attachments[i];
      SealedIsFetched(x, r, m, m', e.attachmentCids[i], EncodeAttachment(a));
      AttachmentRoundTrip(a);
    }
  }

  /** The body, and the subject wherever it was, come back exactly when the subject was sealed or the raw
      body does not itself read as a structured one. */
  lemma ContentComesBack(x: Sealing, r: NodeId, m: Blobs, m': Blobs, e: Envelope, opts: SendOptions)
    requires OpensWhatIsSealed(x) && Carries(x, r, m, e.body, opts) && Grows(m, m') && SizesFit(opts)
    ensures var msg := AsMessage(x, r, m', e);
      && msg.envelope == e
      && (msg.body == opts.body && msg.Subject() == opts.subject <==> opts.sealSubject || TryDecode(opts.body) == None)
    ensures opts.sealSubject ==> e.body.subject == REDACTED_SUBJECT
  {
    hide EncodeContent, TryDecode, FitsPrefix, Fetch, Seals, SealsAll, OpensWhatIsSealed;
    if opts.sealSubject {
      var c := BodyContent(opts.subject, opts.body);
      SealedIsFetched(x, r, m, m', e.body.bodyCid, EncodeContent(c));
      ContentRoundTrip(c);
    } else {
      EmptyIsRaw();
      if opts.body != [] {
        SealedIsFetched(x, r, m, m', e.body.bodyCid, opts.body);
      }
    }
  }

  lemma EmptyIsRaw()
    ensures TryDecode([]) == None
  {
  }

  /** A text body without NUL characters always comes back. */
  lemma TextComesBack(x: Sealing, r: NodeId, m: Blobs, m': Blobs, e: Envelope, opts: SendOptions, text: string)
    requires OpensWhatIsSealed(x) && Carries(x, r, m, e.body, opts) && Grows(m, m') && SizesFit(opts)
    requires opts.body == Utf8(text) && (forall c :: c in text ==> c as int != 0)
    requires |Utf8(text)| <= 0x100_0000_0000_0000
    ensures AsMessage(x, r, m', e).body == Utf8(text) && AsMessage(x, r, m', e).Subject() == opts.subject
  {
    hide Carries, AsMessage, OpensWhatIsSealed, SizesFit;
    TextIsNeverMisread(text);
    ContentComesBack(x, r, m, m', e, opts);
  }

  /** Not every body comes back: the encoding of any structured body, sent raw, is opened as what it
      encodes. */
  lemma RawContentIsMisread(x: Sealing, r: NodeId, m: Blobs, m': Blobs, e: Envelope, opts: SendOptions, c: BodyContent)
    requires OpensWhatIsSealed(x) && Carries(x, r, m, e.body, opts) && Grows(m, m')
    requires FitsPrefix(c.subject) && |c.body| < U64_LIMIT
    requires !opts.sealSubject && opts.body == EncodeContent(c)
    ensures AsMessage(x, r, m', e).body == c.body != opts.body && AsMessage(x, r, m', e).Subject() == c.subject
  {
    hide TryDecode, FitsPrefix, Fetch, Seals, SealsAll, OpensWhatIsSealed;
    ContentRoundTrip(c);
    SealedIsFetched(x, r, m, m', e.body.bodyCid, opts.body);
    assert TryDecode(opts.body) == Some(c);
  }

  lemma {:induction false} MessageOf(p: Primitives, x: Sealing, id: NodeId, m: Blobs, es: seq<Envelope>, e: Envelope)
    ensures AsMessage(x, id, m, e) in Messages(p, x, id, m, es) <==> e in es && Verifies(p, e)
  {
    hide Verifies, OpenContent;
    if es != [] {
      MessageOf(p, x, id, m, es[..|es| - 1], e);
      assert es == es[..|es| - 1] + [es[|es| - 1]];
    }
  }

  /** What is made of a drained inbox is made of its envelopes one by one, in order. */
  lemma {:induction false} MessagesConcat(p: Primitives, x: Sealing, id: NodeId, m: Blobs, es: seq<Envelope>,
                                          fs: seq<Envelope>)
    ensures Messages(p, x, id, m, es + fs) == Messages(p, x, id, m, es) + Messages(p, x, id, m, fs)
  {
    hide Verifies, AsMessage;
    if fs == [] {
      assert es + fs == es;
    } else {
      MessagesConcat(p, x, id, m, es, fs[..|fs| - 1]);
      assert (es + fs)[..|es + fs| - 1] == es + fs[..|fs| - 1];
    }
  }

  /** One envelope gives one message if its signature verifies under its sender's id, and none otherwise. A
      body that is missing, cannot be opened or was not sent is an empty one. */
  lemma MessageOfOne(p: Primitives, x: Sealing, id: NodeId, m: Blobs, e: Envelope)
    ensures var from, ms, cid := ParseNodeId(e.body.from), Messages(p, x, id, m, [e]), e.body.bodyCid;
      if from.None? || !p.verifySignature(from.value, SigningBytes(e.body), e.sig) then ms == []
      else
        && |ms| == 1 && ms[0].envelope == e
        && if cid == "" || cid !in m || x.open(id, m[cid]).None? then
             ms[0].body == [] && ms[0].Subject() == e.body.subject
           else
             var plaintext := x.open(id, m[cid]).value;
             match TryDecode(plaintext)
             case Some(c) => ms[0].body == c.body && ms[0].Subject() == c.subject
             case None => ms[0].body == plaintext && ms[0].Subject() == e.body.subject
  {
    hide ParseNodeId, SigningBytes, TryDecode;
    assert [e][..0] == [];
  }

  // ---- end to end ----

  /** What an honest client sends is turned away for two reasons only: it exceeds the mailbox's limits, or
      the recipient gave the mailbox no grant that holds at that time. */
  lemma HonestMailIsDelivered(p: Primitives, me: Identity, limits: Limits, s: State, ev: Event)
    requires StateOk(MailRules(p), s) && ev.request.DeliverMail?
    requires forall bytes :: p.verifySignature(me.id, bytes, me.sign(bytes))
    requires var e := ev.request.envelope;
      && e.body.from == NodeIdHex(me.id) && e.sig == me.sign(SigningBytes(e.body)) && ParseNodeId(e.body.to).Some?
    ensures var e, out := ev.request.envelope, HandleOutcome(p, MailRules(p), limits, s, ev);
      out.Replied? && out.reply.Delivered? <==>
        && WithinLimits(limits, e)
        && p.authorize(ParseNodeId(e.body.to).value, s.selfId, ev.now, ev.request.grant, ev.revoked)
  {
    hide ParseNodeId, WithinLimits, SigningBytes, NodeIdHex, StateOk, HandleOutcome, HandleNext, Pending;
    NodeIdRoundTrip(me.id);
    DeliverExactly(p, limits, s, ev);
  }


  /** Mail reported as delivered under the recipient's own spelling is in what the recipient drains
      next, after any traffic in which nobody entitled to acknowledges it and less than a full queue of further
      mail is stored for it; and what it opens to is what was sent. */
  lemma MailArrives(p: Primitives, x: Sealing, limits: Limits, s: State, id: NodeId, opts: SendOptions, m: Blobs,
                    deliver: Event, traffic: seq<Event>, m': Blobs)
    requires StateOk(MailRules(p), s) && OpensWhatIsSealed(x) && SizesFit(opts)
    requires deliver.request.DeliverMail? && Carries(x, id, m, deliver.request.envelope.body, opts)
    requires opts.to == NodeIdHex(id)
    requires HandleOutcome(p, MailRules(p), limits, s, deliver) == Replied(MailReply.Delivered(false))
    requires NoneAcks(p, traffic, NodeIdHex(id)) && Grows(m, m')
    requires var s' := HandleNext(p, MailRules(p), limits, s, deliver);
      |StoredFor(MailRules(p), s', Admitted(p, limits, s'.selfId, traffic), NodeIdHex(id))| < s.capacity
    ensures var s' := HandleNext(p, MailRules(p), limits, s, deliver);
      var drained := Bare(Pending(ServiceRun(p, MailRules(p), limits, s', traffic), NodeIdHex(id)));
      var e := deliver.request.envelope;
      var msg := AsMessage(x, id, m', e);
      && msg in Messages(p, x, id, m', drained)
      && (msg.body == opts.body && msg.Subject() == opts.subject <==> opts.sealSubject || TryDecode(opts.body) == None)
      && |e.body.attachmentCids| == |opts.attachments|
      && forall i :: 0 <= i < |opts.attachments| ==> OpenAttachment(x, id, m', e.body, i) == Some(opts.attachments[i])
  {
    hide ParseNodeId, CheckEnvelope, NodeIdHex, StateOk, OpensWhatIsSealed, SizesFit, AsMessage, OpenAttachment,
      TryDecode,
      Verifies, StoredFor, ServiceRun, Admitted, Pending, Carries, Messages, HandleNext, HandleOutcome, Run;
    var k, e, own := MailRules(p), deliver.request.envelope, NodeIdHex(id);
    var s' := HandleNext(p, k, limits, s, deliver);
    var end := ServiceRun(p, k, limits, s', traffic);
    HandleOk(p, k, limits, s, deliver);
    assert e.body.to == own by {
      AddressedTo(x, id, m, e.body, opts);
    }
    NewestDelivered(p, k, limits, s, deliver);
    ServiceRunIsRun(p, k, limits, s', traffic);
    NoneAdmitted(p, limits, s'.selfId, traffic, own);
    NewestStays(k, s', Admitted(p, limits, s'.selfId, traffic), own);
    LaneIsPending(end, own);
    var i :| 0 <= i < |Pending(end, own)| && Pending(end, own)[i] == StoredEnvelope(e, deliver.now);
    assert Bare(Pending(end, own))[i] == e;
    DeliveredVerifies(p, limits, s, deliver);
    MessageOf(p, x, id, m', Bare(Pending(end, own)), e);
    ContentComesBack(x, id, m, m', e, opts);
    AttachmentsRoundTrip(x, id, m, m', e.body, opts);
  }

  lemma AddressedTo(x: Sealing, id: NodeId, m: Blobs, e: EnvelopeBody, opts: SendOptions)
    requires Carries(x, id, m, e, opts)
    ensures e.to == opts.to
  {
  }

  lemma DeliveredVerifies(p: Primitives, limits: Limits, s: State, ev: Event)
    requires ev.request.DeliverMail?
    requires HandleOutcome(p, MailRules(p), limits, s, ev) == Replied(MailReply.Delivered(false))
    ensures Verifies(p, ev.request.envelope)
  {
    hide ParseNodeId, CheckEnvelope, SigningBytes;
  }
}
