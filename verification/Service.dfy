/** The mailbox service: every inbound request passes a gate (recipient syntax, size limits, capability)
    and then becomes one store operation. */
module Service {
  import opened Encoding
  import opened Envelopes
  import opened Receipts
  import opened Limiting
  import opened Lanes
  import opened Store
  import opened Mailbox
  import opened Runs

  datatype MailRequest =
    | DeliverMail(envelope: Envelope, grant: Grant)
    | Drain(recipient: string, since: u64, grant: Grant)
    | AckMail(recipient: string, cursor: u64, grant: Grant)
    | DrainPage(recipient: string, since: u64, limit: u64, grant: Grant)
    | DepositReceipt(forSender: string, receipt: Receipt, grant: Grant)
    | TakeReceipts(sender: string, grant: Grant)

  datatype Rejection =
    | BadRecipient | BadSender | OverLimit(limit: LimitError) | NotAuthorized | NotStored(error: StoreError)

  datatype MailReply =
    | Delivered(duplicate: bool)
    | Drained(drained: seq<Envelope>, cursor: nat)
    | PageOfMail(page: seq<Envelope>, next: nat, more: bool)
    | Acked(removed: nat)
    | ReceiptAccepted(duplicateReceipt: bool)
    | ReceiptList(receipts: seq<Receipt>)
    | Error(reason: Rejection)

  /** A request is answered, or the handler panics. */
  datatype Outcome = Replied(reply: MailReply) | Panic

  function Bare(stored: seq<StoredEnvelope>): (es: seq<Envelope>)
    ensures |es| == |stored| && forall i :: 0 <= i < |es| ==> es[i] == stored[i].envelope
  {
    seq(|stored|, i requires 0 <= i < |stored| => stored[i].envelope)
  }

  /** Whether `requester` may act for `recipient`: it is the recipient, or holds its grant. */
  predicate MayActFor(p: Primitives, recipient: NodeId, requester: NodeId, now: u64, grant: Grant,
                      revoked: Revocations)
  {
    requester == recipient || p.authorize(recipient, requester, now, grant, revoked)
  }

  // ---- specification ----

  datatype Planned = Reject(reason: Rejection) | Perform(op: Op) | Abort

  /** The gate. Its verdict depends on the request and on nothing that is stored. */
  ghost function Plan(p: Primitives, limits: Limits, selfId: NodeId, ev: Event): Planned {
    match ev.request
    case DeliverMail(e, grant) =>
      (match ParseNodeId(e.body.to)
       case None => Reject(BadRecipient)
       case Some(recipient) =>
         if CheckEnvelope(limits, e).Some? then Reject(OverLimit(CheckEnvelope(limits, e).value))
         else if !p.authorize(recipient, selfId, ev.now, grant, ev.revoked) then Reject(NotAuthorized)
         else Perform(Deliver(e, ev.now)))
    case Drain(r, since, grant) =>
      (match ParseNodeId(r)
       case None => Reject(BadRecipient)
       case Some(recipient) =>
         if MayActFor(p, recipient, ev.requester, ev.now, grant, ev.revoked) then Perform(ReadFrom(r, since))
         else Reject(NotAuthorized))
    case AckMail(r, cursor, grant) =>
      (match ParseNodeId(r)
       case None => Reject(BadRecipient)
       case Some(recipient) =>
         if MayActFor(p, recipient, ev.requester, ev.now, grant, ev.revoked) then Perform(Ack(r, cursor))
         else Reject(NotAuthorized))
    case DrainPage(r, since, limit, grant) =>
      (match ParseNodeId(r)
       case None => Reject(BadRecipient)
       case Some(recipient) =>
         if !MayActFor(p, recipient, ev.requester, ev.now, grant, ev.revoked) then Reject(NotAuthorized)
         else match ClampPage(limits, limit)
           case None => Abort
           case Some(clamped) => Perform(ReadPage(r, since, clamped)))
    case DepositReceipt(x, receipt, grant) =>
      (match ParseNodeId(x)
       case None => Reject(BadSender)
       case Some(sender) =>
         if p.authorize(sender, selfId, ev.now, grant, ev.revoked) then Perform(PutReceipt(x, receipt))
         else Reject(NotAuthorized))
    case TakeReceipts(x, grant) =>
      (match ParseNodeId(x)
       case None => Reject(BadSender)
       case Some(sender) =>
         if MayActFor(p, sender, ev.requester, ev.now, grant, ev.revoked) then Perform(CollectReceipts(x))
         else Reject(NotAuthorized))
  }

  ghost function AsOutcome(op: Op, r: Reply): Outcome {
    match r
    case Deposited(Refused(e)) => Replied(Error(NotStored(e)))
    case Deposited(Done(a)) =>
      Replied(if op.Deliver? then MailReply.Delivered(a == Duplicate) else ReceiptAccepted(a == Duplicate))
    case Mail(es, c) => Replied(Drained(Bare(es), c))
    case Page(es, c, more) => Replied(PageOfMail(Bare(es), c, more))
    case Removed(n) => Replied(Acked(n))
    case Collected(rs) => Replied(ReceiptList(rs))
    case _ => Panic
  }

  datatype Event = Event(requester: NodeId, request: MailRequest, now: u64, revoked: Revocations)

  ghost function HandleNext(p: Primitives, k: Rules, limits: Limits, s: State, ev: Event): State {
    match Plan(p, limits, s.selfId, ev)
    case Perform(op) => Next(k, s, op)
    case _ => s
  }

  ghost function HandleOutcome(p: Primitives, k: Rules, limits: Limits, s: State, ev: Event): Outcome {
    match Plan(p, limits, s.selfId, ev)
    case Reject(reason) => Replied(Error(reason))
    case Abort => Panic
    case Perform(op) => AsOutcome(op, Answer(k, s, op))
  }

  // ---- implementation ----

  class MailService {
    const prims: Primitives
    const store: MailboxStore
    const limits: Limits

    ghost predicate Valid()
      reads this, store
    {
      store.Valid()
    }

    constructor (prims: Primitives, store: MailboxStore, limits: Limits)
      ensures Valid() <==> store.Valid()
      ensures this.prims == prims && this.store == store && this.limits == limits
    {
      this.prims := prims;
      this.store := store;
      this.limits := limits;
    }

    /** One request at a time, gate first: nothing is stored, read or removed for a rejected request. */
    method Handle(ev: Event, overflowChecks: bool) returns (out: Outcome)
      requires Valid()
      modifies store
      ensures Valid()
      ensures store.model == HandleNext(prims, store.rules, limits, old(store.model), ev)
      ensures out == HandleOutcome(prims, store.rules, limits, old(store.model), ev)
    {
      match ev.request {
        case DeliverMail(_, _) => out := HandleDeliver(ev);
        case Drain(_, _, _) => out := HandleDrain(ev);
        case AckMail(_, _, _) => out := HandleAck(ev);
        case DrainPage(_, _, _, _) => out := HandleDrainPage(ev, overflowChecks);
        case DepositReceipt(_, _, _) => out := HandleDeposit(ev);
        case TakeReceipts(_, _) => out := HandleTake(ev);
      }
    }

    method HandleDeliver(ev: Event) returns (out: Outcome)
      requires Valid() && ev.request.DeliverMail?
      modifies store
      ensures Valid()
      ensures store.model == HandleNext(prims, store.rules, limits, old(store.model), ev)
      ensures out == HandleOutcome(prims, store.rules, limits, old(store.model), ev)
    {
      var e := ev.request.envelope;
      var named := ParseNodeId(e.body.to);
      if named.None? {
        return Replied(Error(BadRecipient));
      }
      var over := CheckEnvelope(limits, e);
      if over.Some? {
        return Replied(Error(OverLimit(over.value)));
      }
      if !prims.authorize(named.value, store.selfId, ev.now, ev.request.grant, ev.revoked) {
        return Replied(Error(NotAuthorized));
      }
      var d := store.Accept(e, ev.now);
      match d {
        case Refused(error) => out := Replied(Error(NotStored(error)));
        case Done(a) => out := Replied(MailReply.Delivered(a == Duplicate));
      }
    }

    method HandleDrain(ev: Event) returns (out: Outcome)
      requires Valid() && ev.request.Drain?
      modifies store
      ensures Valid()
      ensures store.model == HandleNext(prims, store.rules, limits, old(store.model), ev)
      ensures out == HandleOutcome(prims, store.rules, limits, old(store.model), ev)
    {
      hide TableOk, StateOk, From, LaneOf, ParseNodeId;
      var named := ParseNodeId(ev.request.recipient);
      if named.None? {
        return Replied(Error(BadRecipient));
      }
      if !MayActFor(prims, named.value, ev.requester, ev.now, ev.request.grant, ev.revoked) {
        return Replied(Error(NotAuthorized));
      }
      var stored, cursor := store.ReadFrom(ev.request.recipient, ev.request.since);
      out := Replied(Drained(Bare(stored), cursor));
    }

    method HandleAck(ev: Event) returns (out: Outcome)
      requires Valid() && ev.request.AckMail?
      modifies store
      ensures Valid()
      ensures store.model == HandleNext(prims, store.rules, limits, old(store.model), ev)
      ensures out == HandleOutcome(prims, store.rules, limits, old(store.model), ev)
    {
      hide TableOk, StateOk, From, LaneOf, ParseNodeId;
      var named := ParseNodeId(ev.request.recipient);
      if named.None? {
        return Replied(Error(BadRecipient));
      }
      if !MayActFor(prims, named.value, ev.requester, ev.now, ev.request.grant, ev.revoked) {
        return Replied(Error(NotAuthorized));
      }
      var removed := store.Ack(ev.request.recipient, ev.request.cursor);
      out := Replied(Acked(removed));
    }

    method HandleDrainPage(ev: Event, overflowChecks: bool) returns (out: Outcome)
      requires Valid() && ev.request.DrainPage?
      modifies store
      ensures Valid()
      ensures store.model == HandleNext(prims, store.rules, limits, old(store.model), ev)
      ensures out == HandleOutcome(prims, store.rules, limits, old(store.model), ev)
    {
      hide TableOk, StateOk, From, LaneOf, ParseNodeId;
      var named := ParseNodeId(ev.request.recipient);
      if named.None? {
        return Replied(Error(BadRecipient));
      }
      if !MayActFor(prims, named.value, ev.requester, ev.now, ev.request.grant, ev.revoked) {
        return Replied(Error(NotAuthorized));
      }
      var clamped := ClampPage(limits, ev.request.limit);
      if clamped.None? {
        return Panic;
      }
      PendingFits(store.rules, store.model, ev.request.recipient);
      var page := store.ReadPage(ev.request.recipient, ev.request.since, clamped.value, overflowChecks);
      match page {
        case Page(es, next, more) => out := Replied(PageOfMail(Bare(es), next, more));
        case _ => out := Panic;
      }
    }

    method HandleDeposit(ev: Event) returns (out: Outcome)
      requires Valid() && ev.request.DepositReceipt?
      modifies store
      ensures Valid()
      ensures store.model == HandleNext(prims, store.rules, limits, old(store.model), ev)
      ensures out == HandleOutcome(prims, store.rules, limits, old(store.model), ev)
    {
      hide TableOk, StateOk, From, LaneOf, ParseNodeId;
      var named := ParseNodeId(ev.request.forSender);
      if named.None? {
        return Replied(Error(BadSender));
      }
      if !prims.authorize(named.value, store.selfId, ev.now, ev.request.grant, ev.revoked) {
        return Replied(Error(NotAuthorized));
      }
      var d := store.PutReceipt(ev.request.forSender, ev.request.receipt);
      match d {
        case Refused(error) => out := Replied(Error(NotStored(error)));
        case Done(a) => out := Replied(ReceiptAccepted(a == Duplicate));
      }
    }

    method HandleTake(ev: Event) returns (out: Outcome)
      requires Valid() && ev.request.TakeReceipts?
      modifies store
      ensures Valid()
      ensures store.model == HandleNext(prims, store.rules, limits, old(store.model), ev)
      ensures out == HandleOutcome(prims, store.rules, limits, old(store.model), ev)
    {
      hide TableOk, StateOk, From, LaneOf, ParseNodeId;
      var named := ParseNodeId(ev.request.sender);
      if named.None? {
        return Replied(Error(BadSender));
      }
      if !MayActFor(prims, named.value, ev.requester, ev.now, ev.request.grant, ev.revoked) {
        return Replied(Error(NotAuthorized));
      }
      var rs := store.CollectReceipts(ev.request.sender);
      out := Replied(ReceiptList(rs));
    }
  }
}
