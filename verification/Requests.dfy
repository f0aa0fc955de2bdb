/** What each request is answered and does, for every state and every request, said of the queues alone: who
    may ask, what the reply holds, and what every queue is afterwards. */
module Requests {
  import opened Encoding
  import opened Envelopes
  import opened Receipts
  import opened Limiting
  import opened Lanes
  import opened Store
  import opened Runs
  import opened Service
  import opened ServiceRuns

  // ---- mail ----

  /** Delivering: the recipient's name, the limits, the mailbox's grant, the sender's signature, and whether
      the message is pending or was acknowledged, in this order. An envelope that passes all of it is
      appended to the queue it names, whose oldest entry makes room if it was full. */
  lemma DeliverExactly(p: Primitives, limits: Limits, s: State, ev: Event)
    requires StateOk(MailRules(p), s) && ev.request.DeliverMail?
    ensures var e, s' := ev.request.envelope, HandleNext(p, MailRules(p), limits, s, ev);
      var out, to, from :=
        HandleOutcome(p, MailRules(p), limits, s, ev), ParseNodeId(e.body.to), ParseNodeId(e.body.from);
      var q := Pending(s, e.body.to);
      var known := exists x :: (x in q || x in MailLane(s, e.body.to).acked)
                               && p.hash(SigningBytes(x.envelope.body)) == p.hash(SigningBytes(e.body));
      if to.None? then out == Replied(Error(BadRecipient)) && s' == s
      else if !WithinLimits(limits, e) then
        out == Replied(Error(OverLimit(CheckEnvelope(limits, e).value))) && s' == s
      else if !p.authorize(to.value, s.selfId, ev.now, ev.request.grant, ev.revoked) then
        out == Replied(Error(NotAuthorized)) && s' == s
      else if from.None? || !p.verifySignature(from.value, SigningBytes(e.body), e.sig) then
        out == Replied(Error(NotStored(Unverifiable))) && s' == s
      else if known then out == Replied(MailReply.Delivered(true)) && s' == s
      else
        && out == Replied(MailReply.Delivered(false))
        && Pending(s', e.body.to) == (if |q| == s.capacity then q[1..] else q) + [StoredEnvelope(e, ev.now)]
  {
    hide ParseNodeId, CheckEnvelope, WithinLimits, SigningBytes, StateOk, LaneOf;
    var k, e := MailRules(p), ev.request.envelope;
    NobodyIsEmpty();
    DuplicateExact(k, s, e, ev.now);
    if Answer(k, s, Deliver(e, ev.now)) == Deposited(Done(Stored)) {
      StoredIsLast(k, s, e, ev.now);
    }
  }

  lemma NobodyIsEmpty()
    ensures ParseNodeId("").None?
  {
  }

  /** Every queue but the one a request names stays as it is, and the mailbox its own. */
  lemma OthersUntouched(p: Primitives, k: Rules, limits: Limits, s: State, ev: Event, r: string)
    ensures var s' := HandleNext(p, k, limits, s, ev); s'.selfId == s.selfId && s'.capacity == s.capacity
    ensures var s', request := HandleNext(p, k, limits, s, ev), ev.request;
      (request.DeliverMail? ==> request.envelope.body.to != r) && (request.AckMail? ==> request.recipient != r) ==>
        Pending(s', r) == Pending(s, r)
    ensures !(ev.request.AckMail? && ev.request.recipient == r) ==>
              MailLane(HandleNext(p, k, limits, s, ev), r).acked == MailLane(s, r).acked
    ensures var s', request := HandleNext(p, k, limits, s, ev), ev.request;
      (request.DepositReceipt? ==> request.forSender != r) && (request.TakeReceipts? ==> request.sender != r) ==>
        ReceiptLane(s', r).Queue() == ReceiptLane(s, r).Queue()
  {
    hide ParseNodeId, CheckEnvelope, LaneOf, Next, Lane.Queue;
    match Plan(p, limits, s.selfId, ev) {
      case Perform(op) =>
        LaneStep(k, s, op, r);
        AckedStep(k, s, op, r);
        LaneIsPending(s, r);
        LaneIsPending(Next(k, s, op), r);
        ReceiptStep(k, s, op, r);
        SameMailbox(k, s, op);
      case _ =>
    }
  }

  lemma SameMailbox(k: Rules, s: State, op: Op)
    ensures Next(k, s, op).selfId == s.selfId && Next(k, s, op).capacity == s.capacity
  {
  }

  /** Draining: the recipient itself and whoever it authorized get the envelopes pending from the cursor
      on, in order, and the length of the queue; nobody else gets any. */
  lemma DrainExactly(p: Primitives, k: Rules, limits: Limits, s: State, ev: Event)
    requires ev.request.Drain?
    ensures HandleNext(p, k, limits, s, ev) == s
    ensures var out, id, since :=
        HandleOutcome(p, k, limits, s, ev), ParseNodeId(ev.request.recipient), ev.request.since;
      var q := Pending(s, ev.request.recipient);
      if id.None? then out == Replied(Error(BadRecipient))
      else if ev.requester != id.value
              && !p.authorize(id.value, ev.requester, ev.now, ev.request.grant, ev.revoked) then
        out == Replied(Error(NotAuthorized))
      else
        && out.Replied? && out.reply.Drained? && out.reply.cursor == |q|
        && |out.reply.drained| == |q| - (if since < |q| then since else |q|)
        && forall i :: 0 <= i < |out.reply.drained| ==> out.reply.drained[i] == q[since + i].envelope
  {
    hide ParseNodeId, CheckEnvelope, Pending;
  }

  /** Acknowledging: the same nodes remove the first entries up to the cursor, and are told how many. */
  lemma AckExactly(p: Primitives, k: Rules, limits: Limits, s: State, ev: Event)
    requires StateOk(k, s) && ev.request.AckMail?
    ensures var out, id, s' := HandleOutcome(p, k, limits, s, ev), ParseNodeId(ev.request.recipient),
        HandleNext(p, k, limits, s, ev);
      var r := ev.request.recipient;
      var q := Pending(s, r);
      var n := if ev.request.cursor < |q| then ev.request.cursor else |q|;
      if id.None? then out == Replied(Error(BadRecipient)) && s' == s
      else if ev.requester != id.value
              && !p.authorize(id.value, ev.requester, ev.now, ev.request.grant, ev.revoked) then
        out == Replied(Error(NotAuthorized)) && s' == s
      else
        && out == Replied(Acked(n)) && Pending(s', r) == q[n..]
        && MailLane(s', r).acked == MailLane(s, r).acked + q[..n]
  {
    hide ParseNodeId, CheckEnvelope, StateOk, LaneOf, Next, Answer, Pending;
    AckStep(k, s, ev.request.recipient, ev.request.cursor);
  }

  lemma AckStep(k: Rules, s: State, r: string, cursor: u64)
    requires StateOk(k, s)
    ensures var q, s' := Pending(s, r), Next(k, s, Ack(r, cursor));
      var n := if cursor < |q| then cursor else |q|;
      && Answer(k, s, Ack(r, cursor)) == Removed(n) && Pending(s', r) == q[n..]
      && MailLane(s', r).acked == MailLane(s, r).acked + q[..n]
  {
    hide StateOk, LaneOf, Next;
    AckMoves(k, s, r, cursor, r);
    AckedStep(k, s, Ack(r, cursor), r);
    NothingToAck(s, r);
  }

  lemma NothingToAck(s: State, r: string)
    ensures r !in s.mail ==> Pending(s, r) == []
  {
  }

  /** A page: at least one envelope if there is any, at most as many as asked for and as the ceiling allows,
      starting at the cursor; the next cursor is where the page ends, and `more` says whether the
      queue goes on. */
  lemma PageExactly(p: Primitives, k: Rules, limits: Limits, s: State, ev: Event)
    requires ev.request.DrainPage?
    ensures HandleNext(p, k, limits, s, ev) == s
    ensures var out, id, since :=
        HandleOutcome(p, k, limits, s, ev), ParseNodeId(ev.request.recipient), ev.request.since;
      var q, limit := Pending(s, ev.request.recipient), ev.request.limit;
      var most := if limit > limits.maxPage then limits.maxPage else if limit == 0 then 1 else limit;
      if id.None? then out == Replied(Error(BadRecipient))
      else if ev.requester != id.value
              && !p.authorize(id.value, ev.requester, ev.now, ev.request.grant, ev.revoked) then
        out == Replied(Error(NotAuthorized))
      else if limits.maxPage == 0 then out == Panic
      else if since >= |q| then out == Replied(PageOfMail([], |q|, false))
      else if since + most > 0xFFFF_FFFF_FFFF_FFFF then out == Panic
      else
        && out.Replied? && out.reply.PageOfMail?
        && |out.reply.page| == (if since + most < |q| then most else |q| - since)
        && out.reply.next == since + |out.reply.page| && (out.reply.more <==> out.reply.next < |q|)
        && forall i :: 0 <= i < |out.reply.page| ==> out.reply.page[i] == q[since + i].envelope
  {
    hide ParseNodeId, CheckEnvelope, Pending;
  }

  // ---- receipts ----

  /** Depositing a receipt: like delivering, with the receipt's own key; nothing is ever acknowledged. */
  lemma DepositExactly(p: Primitives, limits: Limits, s: State, ev: Event)
    requires StateOk(MailRules(p), s) && ev.request.DepositReceipt?
    ensures var x, receipt, s' := ev.request.forSender, ev.request.receipt, HandleNext(p, MailRules(p), limits, s, ev);
      var out, id, signer :=
        HandleOutcome(p, MailRules(p), limits, s, ev), ParseNodeId(x), ParseNodeId(receipt.body.signer);
      var q := ReceiptLane(s, x).Queue();
      if id.None? then out == Replied(Error(BadSender)) && s' == s
      else if !p.authorize(id.value, s.selfId, ev.now, ev.request.grant, ev.revoked) then
        out == Replied(Error(NotAuthorized)) && s' == s
      else if signer.None? || !p.verifySignature(signer.value, ReceiptSigningBytes(receipt.body), receipt.sig) then
        out == Replied(Error(NotStored(Unverifiable))) && s' == s
      else if exists y :: y in q && DedupKey(y) == DedupKey(receipt) then
        out == Replied(ReceiptAccepted(true)) && s' == s
      else
        && out == Replied(ReceiptAccepted(false))
        && ReceiptLane(s', x).Queue() == (if |q| == s.capacity then q[1..] else q) + [receipt]
  {
    hide ParseNodeId, CheckEnvelope, ReceiptSigningBytes, StateOk, LaneOf, DedupKey;
    var k, x, receipt := MailRules(p), ev.request.forSender, ev.request.receipt;
    NobodyIsEmpty();
    PutReceiptExactly(k, s, x, receipt, x);
  }

  /** Collecting: the sender itself and whoever it authorized get all receipts of that sender, in order, and
      none is left; nobody else gets any. */
  lemma TakeExactly(p: Primitives, k: Rules, limits: Limits, s: State, ev: Event)
    requires ev.request.TakeReceipts?
    ensures var out, id, s' := HandleOutcome(p, k, limits, s, ev), ParseNodeId(ev.request.sender),
        HandleNext(p, k, limits, s, ev);
      var q := ReceiptLane(s, ev.request.sender).Queue();
      if id.None? then out == Replied(Error(BadSender)) && s' == s
      else if ev.requester != id.value
              && !p.authorize(id.value, ev.requester, ev.now, ev.request.grant, ev.revoked) then
        out == Replied(Error(NotAuthorized)) && s' == s
      else out == Replied(ReceiptList(q)) && ReceiptLane(s', ev.request.sender).Queue() == []
  {
    hide ParseNodeId, CheckEnvelope;
  }

  /** In figures, for a mailbox with the default limits: what it accepts, and the largest page it sends. */
  lemma DefaultBounds(p: Primitives, k: Rules, s: State, ev: Event)
    ensures var out := HandleOutcome(p, k, DEFAULT_LIMITS, s, ev);
      && (ev.request.DrainPage? && out.Replied? && out.reply.PageOfMail? ==> |out.reply.page| <= 500)
      && (ev.request.DeliverMail? && out.Replied? && out.reply.Delivered? ==>
            var b := ev.request.envelope.body;
            && |Utf8(b.subject)| <= 4096 && |Utf8(b.bodyCid)| <= 256 && |Utf8(b.inReplyTo)| <= 256
            && |Utf8(b.postageReceipt)| <= 1024 && |b.attachmentCids| <= 64
            && |EncodeEnvelope(ev.request.envelope)| <= 262144)
  {
    hide ParseNodeId, Utf8, EncodeEnvelope, Pending, AcceptInto, PageOverflows;
    if ev.request.DrainPage? {
      PageExactly(p, k, DEFAULT_LIMITS, s, ev);
    } else if ev.request.DeliverMail? {
      ReportedLimit(DEFAULT_LIMITS, ev.request.envelope);
    }
  }

  // ---- who can do what, over all requests ----

  /** Mail leaves a mailbox in a reply, or is removed from it, only at the request of the node the queue
      belongs to or of one it authorized at that time; and it enters only with a grant of that node
      to the mailbox. */
  lemma MailNeedsConsent(p: Primitives, limits: Limits, s: State, ev: Event, r: string)
    requires StateOk(MailRules(p), s)
    ensures var out := HandleOutcome(p, MailRules(p), limits, s, ev);
      out.Replied? && (out.reply.Drained? || out.reply.PageOfMail?) ==>
        && (ev.request.Drain? || ev.request.DrainPage?)
        && var id := ParseNodeId(ev.request.recipient);
           id.Some?
           && (ev.requester == id.value || p.authorize(id.value, ev.requester, ev.now, ev.request.grant, ev.revoked))
    ensures Pending(HandleNext(p, MailRules(p), limits, s, ev), r) != Pending(s, r) ==>
              var id := ParseNodeId(r);
              && id.Some?
              && if ev.request.DeliverMail? then p.authorize(id.value, s.selfId, ev.now, ev.request.grant, ev.revoked)
                 else ev.request.AckMail?
                      && (ev.requester == id.value
                          || p.authorize(id.value, ev.requester, ev.now, ev.request.grant, ev.revoked))
  {
    hide HandleNext, HandleOutcome, StateOk, ParseNodeId, WithinLimits, SigningBytes, Pending, MailLane;
    OthersUntouched(p, MailRules(p), limits, s, ev, r);
    ReplyKind(p, MailRules(p), limits, s, ev);
    match ev.request {
      case DeliverMail(_, _) => DeliverExactly(p, limits, s, ev);
      case Drain(_, _, _) => DrainExactly(p, MailRules(p), limits, s, ev);
      case AckMail(_, _, _) => AckExactly(p, MailRules(p), limits, s, ev);
      case DrainPage(_, _, _, _) => PageExactly(p, MailRules(p), limits, s, ev);
      case _ =>
    }
  }

  lemma ReplyKind(p: Primitives, k: Rules, limits: Limits, s: State, ev: Event)
    ensures var out := HandleOutcome(p, k, limits, s, ev);
      out.Replied? && !out.reply.Error? ==>
        && (out.reply.Drained? <==> ev.request.Drain?) && (out.reply.PageOfMail? <==> ev.request.DrainPage?)
        && (out.reply.ReceiptList? <==> ev.request.TakeReceipts?)
  {
    hide ParseNodeId, CheckEnvelope, Pending;
  }

  /** The same for receipts: they are handed out and forgotten only for the sender they are kept for or one
      it authorized, and stored only with its grant to the mailbox. */
  lemma ReceiptsNeedConsent(p: Primitives, limits: Limits, s: State, ev: Event, x: string)
    requires StateOk(MailRules(p), s)
    ensures var out := HandleOutcome(p, MailRules(p), limits, s, ev);
      out.Replied? && out.reply.ReceiptList? ==>
        && ev.request.TakeReceipts?
        && var id := ParseNodeId(ev.request.sender);
           id.Some?
           && (ev.requester == id.value || p.authorize(id.value, ev.requester, ev.now, ev.request.grant, ev.revoked))
    ensures var q, q' := ReceiptLane(s, x).Queue(), ReceiptLane(HandleNext(p, MailRules(p), limits, s, ev), x).Queue();
      q' != q ==>
        var id := ParseNodeId(x);
        && id.Some?
        && if ev.request.DepositReceipt? then
             && p.authorize(id.value, s.selfId, ev.now, ev.request.grant, ev.revoked)
             && q' == (if |q| == s.capacity then q[1..] else q) + [ev.request.receipt]
           else
             && ev.request.TakeReceipts? && q' == []
             && (ev.requester == id.value
                 || p.authorize(id.value, ev.requester, ev.now, ev.request.grant, ev.revoked))
  {
    hide HandleNext, HandleOutcome, StateOk, ParseNodeId, ReceiptSigningBytes, ReceiptLane, DedupKey;
    OthersUntouched(p, MailRules(p), limits, s, ev, x);
    ReplyKind(p, MailRules(p), limits, s, ev);
    match ev.request {
      case DepositReceipt(_, _, _) => DepositExactly(p, limits, s, ev);
      case TakeReceipts(_, _) => TakeExactly(p, MailRules(p), limits, s, ev);
      case _ =>
    }
  }

  /** A node is never refused its own mail and receipts, and a delegate is not either. */
  lemma OwnersAreNotRefused(p: Primitives, k: Rules, limits: Limits, s: State, ev: Event, id: NodeId)
    requires ev.requester == id || p.authorize(id, ev.requester, ev.now, ev.request.grant, ev.revoked)
    requires match ev.request
      case Drain(r, _, _) => ParseNodeId(r) == Some(id)
      case AckMail(r, _, _) => ParseNodeId(r) == Some(id)
      case DrainPage(r, _, _, _) => ParseNodeId(r) == Some(id)
      case TakeReceipts(x, _) => ParseNodeId(x) == Some(id)
      case _ => false
    ensures var out := HandleOutcome(p, k, limits, s, ev); out == Panic || !out.reply.Error?
  {
    hide ParseNodeId, CheckEnvelope, Pending, AcceptInto, PutReceiptInto;
  }
}
