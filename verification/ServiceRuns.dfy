/** Properties of whole runs of the service: how mail gets in, how it gets out, and when it panics. */
module ServiceRuns {
  import opened Encoding
  import opened Unicode
  import opened Envelopes
  import opened Limiting
  import opened Lanes
  import opened Store
  import opened Runs
  import opened Service

  ghost function ServiceRun(p: Primitives, k: Rules, limits: Limits, s: State, events: seq<Event>): State
    decreases |events|
  {
    if events == [] then s
    else HandleNext(p, k, limits, ServiceRun(p, k, limits, s, events[..|events| - 1]), events[|events| - 1])
  }

  lemma HandleOk(p: Primitives, k: Rules, limits: Limits, s: State, ev: Event)
    requires StateOk(k, s)
    ensures var s' := HandleNext(p, k, limits, s, ev);
      StateOk(k, s') && s'.selfId == s.selfId && s'.capacity == s.capacity
  {
    match Plan(p, limits, s.selfId, ev) {
      case Perform(op) => StepOk(k, s, op);
      case _ =>
    }
  }

  lemma {:induction false} ServiceRunOk(p: Primitives, k: Rules, limits: Limits, s: State, events: seq<Event>)
    requires StateOk(k, s)
    ensures var s' := ServiceRun(p, k, limits, s, events);
      StateOk(k, s') && s'.selfId == s.selfId && s'.capacity == s.capacity
    decreases |events|
  {
    if events != [] {
      ServiceRunOk(p, k, limits, s, events[..|events| - 1]);
      HandleOk(p, k, limits, ServiceRun(p, k, limits, s, events[..|events| - 1]), events[|events| - 1]);
    }
  }

  /** The store operations that get past the gate. They do not depend on what is stored. */
  ghost function Admitted(p: Primitives, limits: Limits, selfId: NodeId, events: seq<Event>): seq<Op> {
    if events == [] then []
    else Admitted(p, limits, selfId, events[..|events| - 1])
         + match Plan(p, limits, selfId, events[|events| - 1])
           case Perform(op) => [op]
           case _ => []
  }

  lemma RunSnoc(k: Rules, s: State, ops: seq<Op>, op: Op)
    ensures Run(k, s, ops + [op]) == Next(k, Run(k, s, ops), op)
  {
    hide Next;
    assert (ops + [op])[..|ops + [op]| - 1] == ops;
  }

  /** A run of the service is a run of the store over the admitted operations: whatever holds of every
      run of the store holds behind the gate. */
  lemma {:induction false} ServiceRunIsRun(p: Primitives, k: Rules, limits: Limits, s: State, events: seq<Event>)
    requires StateOk(k, s)
    ensures ServiceRun(p, k, limits, s, events) == Run(k, s, Admitted(p, limits, s.selfId, events))
    decreases |events|
  {
    hide StateOk, Plan, Next;
    if events != [] {
      var before, ev := events[..|events| - 1], events[|events| - 1];
      ServiceRunIsRun(p, k, limits, s, before);
      ServiceRunOk(p, k, limits, s, before);
      match Plan(p, limits, s.selfId, ev) {
        case Perform(op) => RunSnoc(k, s, Admitted(p, limits, s.selfId, before), op);
        case _ => assert Admitted(p, limits, s.selfId, events) == Admitted(p, limits, s.selfId, before);
      }
    }
  }

  lemma {:induction false} ServiceRunSplit(p: Primitives, k: Rules, limits: Limits, s: State, events: seq<Event>,
                                           i: nat)
    requires i <= |events|
    ensures ServiceRun(p, k, limits, s, events)
         == ServiceRun(p, k, limits, ServiceRun(p, k, limits, s, events[..i]), events[i..])
    decreases |events|
  {
    hide HandleNext;
    if i == |events| {
      assert events[..i] == events && events[i..] == [];
    } else {
      var before := events[..|events| - 1];
      ServiceRunSplit(p, k, limits, s, before, i);
      assert before[..i] == events[..i] && before[i..] == events[i..][..|events[i..]| - 1];
    }
  }

  // ---- how mail gets in and out ----

  /** `ev` delivered `x` to the queue `r`: the envelope names that queue, verifies, is within limits, and
      came with a grant from the node `r` stands for, valid at the time recorded with it. */
  ghost predicate CameBy(p: Primitives, k: Rules, limits: Limits, selfId: NodeId, ev: Event, r: string,
                         x: StoredEnvelope)
  {
    && ev.request.DeliverMail? && ev.request.envelope == x.envelope && ev.now == x.storedAt
    && x.envelope.body.to == r && k.envelopeVerifies(x.envelope) && WithinLimits(limits, x.envelope)
    && ParseNodeId(r).Some?
    && p.authorize(ParseNodeId(r).value, selfId, ev.now, ev.request.grant, ev.revoked)
  }

  ghost predicate AckedBy(p: Primitives, ev: Event, r: string) {
    && ev.request.AckMail? && ev.request.recipient == r && ParseNodeId(r).Some?
    && var id := ParseNodeId(r).value;
       ev.requester == id || p.authorize(id, ev.requester, ev.now, ev.request.grant, ev.revoked)
  }

  /** The only ways a request can change the queue `r`: an authorized delivery appends one envelope (and
      evicts the oldest if the queue was full), or the recipient or its delegate acknowledges a prefix. */
  ghost predicate QueueMoves(p: Primitives, k: Rules, limits: Limits, s: State, ev: Event, r: string,
                             q': seq<StoredEnvelope>)
  {
    var q := Pending(s, r);
    || q' == q
    || (AckedBy(p, ev, r) && q' == q[Min(ev.request.cursor, |q|)..])
    || (ev.request.DeliverMail?
        && CameBy(p, k, limits, s.selfId, ev, r, StoredEnvelope(ev.request.envelope, ev.now))
        && q' == (if |q| == s.capacity then From(q, 1) else q) + [StoredEnvelope(ev.request.envelope, ev.now)])
  }

  lemma DeliverMoves(k: Rules, s: State, e: Envelope, now: u64, r: string)
    requires StateOk(k, s)
    ensures var q, q' := Pending(s, r), Pending(Next(k, s, Deliver(e, now)), r);
      || q' == q
      || (e.body.to == r && k.envelopeVerifies(e)
          && q' == (if |q| == s.capacity then From(q, 1) else q) + [StoredEnvelope(e, now)])
  {
    LaneStep(k, s, Deliver(e, now), r);
    LaneOfOk(s.mail, EnvKey(k), s.capacity, r);
    if LaneNext(k, s.capacity, MailLane(s, r), Deliver(e, now), r) != MailLane(s, r) {
      AppendQueue(MailLane(s, r), EnvKey(k), s.capacity, StoredEnvelope(e, now));
    }
  }

  lemma AckMoves(k: Rules, s: State, x: string, cursor: u64, r: string)
    requires StateOk(k, s)
    ensures var q, q' := Pending(s, r), Pending(Next(k, s, Ack(x, cursor)), r);
      q' == if x == r then q[Min(cursor, |q|)..] else q
  {
    LaneStep(k, s, Ack(x, cursor), r);
    LaneOfOk(s.mail, EnvKey(k), s.capacity, r);
    AcknowledgeOk(MailLane(s, r), EnvKey(k), s.capacity, cursor);
  }

  lemma EntryAndExit(p: Primitives, k: Rules, limits: Limits, s: State, ev: Event, r: string)
    requires StateOk(k, s)
    ensures QueueMoves(p, k, limits, s, ev, r, Pending(HandleNext(p, k, limits, s, ev), r))
  {
    hide ParseNodeId, StateOk, LaneOf, CheckEnvelope, WithinLimits;
    match Plan(p, limits, s.selfId, ev) {
      case Perform(Deliver(e, now)) => DeliverMoves(k, s, e, now, r);
      case Perform(Ack(x, cursor)) => AckMoves(k, s, x, cursor, r);
      case Perform(PutReceipt(x, receipt)) => assert Next(k, s, PutReceipt(x, receipt)).mail == s.mail;
      case Perform(CollectReceipts(x)) => assert Next(k, s, CollectReceipts(x)).mail == s.mail;
      case _ =>
    }
  }

  lemma NothingPending(s: State, r: string)
    requires IsNew(s)
    ensures Pending(s, r) == []
  {
  }

  // ---- lives: runs with restarts in between ----

  /** A request, or a restart that loads what was saved when the first `to` things had happened. */
  datatype Happening = Request(event: Event) | Restart(to: nat)

  ghost function Life(p: Primitives, k: Rules, limits: Limits, s: State, h: seq<Happening>): State
    decreases |h|
  {
    if h == [] then s else
      match h[|h| - 1]
      case Request(ev) => HandleNext(p, k, limits, Life(p, k, limits, s, h[..|h| - 1]), ev)
      case Restart(to) => Reload(ImageOf(Life(p, k, limits, s, h[..Min(to, |h| - 1)])))
  }

  lemma {:induction false} LifeOk(p: Primitives, k: Rules, limits: Limits, s: State, h: seq<Happening>)
    requires StateOk(k, s)
    ensures var s' := Life(p, k, limits, s, h);
      StateOk(k, s') && s'.selfId == s.selfId && s'.capacity == s.capacity
    decreases |h|
  {
    hide StateOk, HandleNext, ImageOk;
    if h != [] {
      match h[|h| - 1] {
        case Request(ev) =>
          LifeOk(p, k, limits, s, h[..|h| - 1]);
          HandleOk(p, k, limits, Life(p, k, limits, s, h[..|h| - 1]), ev);
        case Restart(to) =>
          LifeOk(p, k, limits, s, h[..Min(to, |h| - 1)]);
          ReloadStays(k, Life(p, k, limits, s, h[..Min(to, |h| - 1)]));
      }
    }
  }

  lemma ReloadStays(k: Rules, s: State)
    requires StateOk(k, s)
    ensures var s' := Reload(ImageOf(s));
      StateOk(k, s') && s'.selfId == s.selfId && s'.capacity == s.capacity
  {
    SavedImageOk(k, s);
    ReloadOk(k, ImageOf(s));
  }

  /** Everything queued got in through the gate: some earlier request of the life delivered it. */
  lemma {:induction false} FindArrival(p: Primitives, k: Rules, limits: Limits, s: State, h: seq<Happening>,
                                       r: string, x: StoredEnvelope) returns (i: nat)
    requires IsNew(s) && x in Pending(Life(p, k, limits, s, h), r)
    ensures i < |h| && h[i].Request? && CameBy(p, k, limits, s.selfId, h[i].event, r, x)
    decreases |h|
  {
    hide CameBy, StateOk, AckedBy, HandleNext, Pending, IsNew, Reload, ImageOf;
    NewOk(k, s);
    NothingPending(s, r);
    match h[|h| - 1] {
      case Request(ev) =>
        var before := h[..|h| - 1];
        LifeOk(p, k, limits, s, before);
        if x in Pending(Life(p, k, limits, s, before), r) {
          i := FindArrival(p, k, limits, s, before, r, x);
          assert h[i] == before[i];
        } else {
          EntryAndExit(p, k, limits, Life(p, k, limits, s, before), ev, r);
          i := |h| - 1;
        }
      case Restart(to) =>
        var earlier := h[..Min(to, |h| - 1)];
        ReloadKeepsPending(Life(p, k, limits, s, earlier), r);
        i := FindArrival(p, k, limits, s, earlier, r, x);
        assert h[i] == earlier[i];
    }
  }

  lemma Provenance(p: Primitives, limits: Limits, s: State, h: seq<Happening>, r: string, x: StoredEnvelope)
    requires IsNew(s) && x in Pending(Life(p, MailRules(p), limits, s, h), r)
    ensures exists i :: 0 <= i < |h| && h[i].Request? && CameBy(p, MailRules(p), limits, s.selfId, h[i].event, r, x)
    ensures Verifies(p, x.envelope) && x.envelope.body.to == r && WithinLimits(limits, x.envelope)
  {
    var i := FindArrival(p, MailRules(p), limits, s, h, r, x);
  }

  /** Nobody entitled to acknowledges mail of `r`. */
  ghost predicate NoneAcks(p: Primitives, events: seq<Event>, r: string) {
    forall ev :: ev in events ==> !AckedBy(p, ev, r)
  }

  lemma PlansNoAck(p: Primitives, limits: Limits, selfId: NodeId, ev: Event, r: string)
    requires !AckedBy(p, ev, r)
    ensures Plan(p, limits, selfId, ev).Perform? ==>
              !(Plan(p, limits, selfId, ev).op.Ack? && Plan(p, limits, selfId, ev).op.recipient == r)
  {
    hide ParseNodeId, CheckEnvelope;
  }

  lemma {:induction false} NoneAdmitted(p: Primitives, limits: Limits, selfId: NodeId, events: seq<Event>, r: string)
    requires NoneAcks(p, events, r)
    ensures NoAckOf(Admitted(p, limits, selfId, events), r)
  {
    hide Plan, AckedBy;
    if events != [] {
      PlansNoAck(p, limits, selfId, events[|events| - 1], r);
      NoneAdmitted(p, limits, selfId, events[..|events| - 1], r);
    }
  }

  lemma NewestDelivered(p: Primitives, k: Rules, limits: Limits, s: State, ev: Event)
    requires StateOk(k, s) && ev.request.DeliverMail?
    requires HandleOutcome(p, k, limits, s, ev) == Replied(MailReply.Delivered(false))
    ensures var q := Pending(HandleNext(p, k, limits, s, ev), ev.request.envelope.body.to);
      q != [] && q[|q| - 1] == StoredEnvelope(ev.request.envelope, ev.now)
  {
    hide HandleOutcome, HandleNext, Next, Answer, StateOk, Pending;
    DeliveredIsStored(p, k, limits, s, ev);
    StoredIsLast(k, s, ev.request.envelope, ev.now);
  }

  /** The reply hands out this envelope. */
  ghost predicate Shows(out: Outcome, e: Envelope) {
    && out.Replied?
    && ((out.reply.Drained? && e in out.reply.drained) || (out.reply.PageOfMail? && e in out.reply.page))
  }

  lemma ShownIsPending(p: Primitives, k: Rules, limits: Limits, s: State, ev: Event, e: Envelope)
      returns (r: string, x: StoredEnvelope)
    requires Shows(HandleOutcome(p, k, limits, s, ev), e)
    ensures x in Pending(s, r) && x.envelope == e && ParseNodeId(r).Some?
    ensures var id := ParseNodeId(r).value;
      ev.requester == id || p.authorize(id, ev.requester, ev.now, ev.request.grant, ev.revoked)
  {
    hide ParseNodeId, CheckEnvelope, Pending, PageOverflows, AcceptInto, PutReceiptInto, AckIn, CollectFrom;
    if ev.request.Drain? {
      r := ev.request.recipient;
      var es := From(Pending(s, r), ev.request.since);
      var i :| 0 <= i < |es| && Bare(es)[i] == e;
      x := es[i];
      FromIn(Pending(s, r), ev.request.since, x);
    } else {
      r := ev.request.recipient;
      var limit := ClampPage(limits, ev.request.limit).value;
      var es := PageOf(Pending(s, r), ev.request.since, limit);
      var i :| 0 <= i < |es| && Bare(es)[i] == e;
      x := es[i];
      PageIn(Pending(s, r), ev.request.since, limit, x);
    }
  }

  lemma FromIn<T>(q: seq<T>, since: nat, x: T)
    requires x in From(q, since)
    ensures x in q
  {
  }

  lemma PageIn<T>(q: seq<T>, since: nat, limit: u64, x: T)
    requires x in PageOf(q, since, limit)
    ensures x in q
  {
  }

  /** Whatever was sent and however often the process was restarted, mail is only ever shown to the node it
      is addressed to or to a delegate of that node, and only mail that verifies and was within limits. */
  lemma OnlyEntitledSeeMail(p: Primitives, limits: Limits, s: State, h: seq<Happening>, ev: Event, e: Envelope)
    requires IsNew(s)
    requires Shows(HandleOutcome(p, MailRules(p), limits, Life(p, MailRules(p), limits, s, h), ev), e)
    ensures ParseNodeId(e.body.to).Some?
    ensures var id := ParseNodeId(e.body.to).value;
      ev.requester == id || p.authorize(id, ev.requester, ev.now, ev.request.grant, ev.revoked)
    ensures Verifies(p, e) && WithinLimits(limits, e)
  {
    hide IsNew, HandleOutcome, Life, Pending, Shows, ParseNodeId, Verifies, WithinLimits;
    var r, x := ShownIsPending(p, MailRules(p), limits, Life(p, MailRules(p), limits, s, h), ev, e);
    Provenance(p, limits, s, h, r, x);
  }

  // ---- memory ----

  ghost function TotalBytes(q: seq<StoredEnvelope>): nat {
    if q == [] then 0 else |EncodeEnvelope(q[0].envelope)| + TotalBytes(q[1..])
  }

  lemma {:induction false} TotalBytesBound(q: seq<StoredEnvelope>, each: nat)
    requires forall x :: x in q ==> |EncodeEnvelope(x.envelope)| <= each
    ensures TotalBytes(q) <= |q| * each
  {
    hide EncodeEnvelope;
    if q != [] {
      TotalBytesBound(q[1..], each);
      assert |q| * each == each + (|q| - 1) * each;
    }
  }

  /** Whatever is sent and however often the process restarts, a queue never holds more than
      `capacity * max_envelope_bytes` bytes of mail. */
  lemma MemoryBounded(p: Primitives, limits: Limits, s: State, h: seq<Happening>, r: string)
    requires IsNew(s)
    ensures var q := Pending(Life(p, MailRules(p), limits, s, h), r);
      |q| <= s.capacity && TotalBytes(q) <= s.capacity * limits.maxEnvelopeBytes
  {
    hide StateOk, Life, Pending, Verifies;
    var k := MailRules(p);
    var s' := Life(p, k, limits, s, h);
    var q := Pending(s', r);
    NewOk(k, s);
    LifeOk(p, k, limits, s, h);
    PendingFits(k, s', r);
    forall x | x in q
      ensures |EncodeEnvelope(x.envelope)| <= limits.maxEnvelopeBytes
    {
      Provenance(p, limits, s, h, r, x);
    }
    TotalBytesBound(q, limits.maxEnvelopeBytes);
    MulMonotone(|q|, s.capacity, limits.maxEnvelopeBytes);
  }

  lemma MulMonotone(a: nat, b: nat, m: nat)
    requires a <= b
    ensures a * m <= b * m
  {
  }

  // ---- panics ----

  ghost predicate AuthorizedPage(p: Primitives, ev: Event) {
    && ev.request.DrainPage? && ParseNodeId(ev.request.recipient).Some?
    && var id := ParseNodeId(ev.request.recipient).value;
       ev.requester == id || p.authorize(id, ev.requester, ev.now, ev.request.grant, ev.revoked)
  }

  /** The handler documents that it never panics. It does, exactly for an authorized page request when
      the configured page ceiling is zero, or when the end of the page exceeds the largest `usize`. */
  lemma PanicsExactly(p: Primitives, k: Rules, limits: Limits, s: State, ev: Event)
    ensures HandleOutcome(p, k, limits, s, ev) == Panic <==>
            && AuthorizedPage(p, ev)
            && (limits.maxPage == 0
                || PageOverflows(Pending(s, ev.request.recipient), ev.request.since,
                                 ClampPage(limits, ev.request.limit).value))
  {
    hide ParseNodeId, CheckEnvelope, PageOverflows, Pending, PageOf, PageEnd, AckIn, CollectFrom;
    if !ev.request.DrainPage? {
      OnlyPagesPanic(p, k, limits, s, ev);
    }
  }

  lemma OnlyPagesPanic(p: Primitives, k: Rules, limits: Limits, s: State, ev: Event)
    requires !ev.request.DrainPage?
    ensures HandleOutcome(p, k, limits, s, ev) != Panic
  {
    hide ParseNodeId, CheckEnvelope, Pending, AcceptInto, PutReceiptInto;
  }

  /** Under a sane configuration, which the defaults are, no request of any run panics. */
  lemma NeverPanics(p: Primitives, k: Rules, limits: Limits, s: State, events: seq<Event>, ev: Event)
    requires StateOk(k, s)
    requires 1 <= limits.maxPage && s.capacity + limits.maxPage <= U64_LIMIT
    ensures HandleOutcome(p, k, limits, ServiceRun(p, k, limits, s, events), ev) != Panic
  {
    var s' := ServiceRun(p, k, limits, s, events);
    ServiceRunOk(p, k, limits, s, events);
    PanicsExactly(p, k, limits, s', ev);
    if ev.request.DrainPage? {
      PendingFits(k, s', ev.request.recipient);
    }
  }

  /** The default limits are such a configuration, for any capacity that leaves room for one page. */
  lemma DefaultsNeverPanic(p: Primitives, k: Rules, s: State, events: seq<Event>, ev: Event)
    requires StateOk(k, s) && s.capacity <= U64_LIMIT - DEFAULT_LIMITS.maxPage
    ensures HandleOutcome(p, k, DEFAULT_LIMITS, ServiceRun(p, k, DEFAULT_LIMITS, s, events), ev) != Panic
  {
    hide StateOk, HandleOutcome, ServiceRun;
    NeverPanics(p, k, DEFAULT_LIMITS, s, events, ev);
  }

  // ---- spelling of recipients ----

  /** A delivery reaches the queue its recipient's own client drains exactly when the envelope spells
      the recipient the way that client does. Other spellings of the same node pass the same gate but
      are filed elsewhere. */
  lemma DeliveredWhereOwnerLooks(p: Primitives, k: Rules, limits: Limits, s: State, ev: Event, id: NodeId)
    requires StateOk(k, s) && ev.request.DeliverMail?
    requires HandleOutcome(p, k, limits, s, ev) == Replied(MailReply.Delivered(false))
    requires ParseNodeId(ev.request.envelope.body.to) == Some(id)
    ensures var q, q' := Pending(s, NodeIdHex(id)), Pending(HandleNext(p, k, limits, s, ev), NodeIdHex(id));
      (q' != q <==> ev.request.envelope.body.to == NodeIdHex(id))
      && (q' != q ==> q' != [] && q'[|q'| - 1] == StoredEnvelope(ev.request.envelope, ev.now))
  {
    hide ParseNodeId, NodeIdHex, StateOk, HandleOutcome, HandleNext, Next, Answer, Pending;
    var e, own := ev.request.envelope, NodeIdHex(id);
    DeliveredIsStored(p, k, limits, s, ev);
    if e.body.to == own {
      NewestDelivered(p, k, limits, s, ev);
      NewEntry(k, s, e, ev.now);
    } else {
      OtherQueue(k, s, e, ev.now, own);
    }
  }

  lemma DeliveredIsStored(p: Primitives, k: Rules, limits: Limits, s: State, ev: Event)
    requires ev.request.DeliverMail?
    requires HandleOutcome(p, k, limits, s, ev) == Replied(MailReply.Delivered(false))
    ensures HandleNext(p, k, limits, s, ev) == Next(k, s, Deliver(ev.request.envelope, ev.now))
    ensures Answer(k, s, Deliver(ev.request.envelope, ev.now)) == Deposited(Done(Stored))
  {
    hide ParseNodeId, CheckEnvelope, AcceptInto;
  }

  lemma OtherQueue(k: Rules, s: State, e: Envelope, now: u64, r: string)
    requires e.body.to != r
    ensures Pending(Next(k, s, Deliver(e, now)), r) == Pending(s, r)
  {
    hide LaneOf, Next;
    LaneStep(k, s, Deliver(e, now), r);
  }

  lemma NewEntry(k: Rules, s: State, e: Envelope, now: u64)
    requires StateOk(k, s) && Answer(k, s, Deliver(e, now)) == Deposited(Done(Stored))
    ensures StoredEnvelope(e, now) !in Pending(s, e.body.to)
    ensures StoredEnvelope(e, now) in Pending(Next(k, s, Deliver(e, now)), e.body.to)
  {
    var q, x := Pending(s, e.body.to), StoredEnvelope(e, now);
    forall y | y in q
      ensures y != x
    {
      assert EnvKey(k)(y) in KeySet(q, EnvKey(k));
    }
    StoredIsLast(k, s, e, now);
  }

  /** Every node has such another spelling. */
  lemma AnotherSpelling(id: NodeId)
    ensures ParseNodeId(" " + NodeIdHex(id)) == Some(id) && " " + NodeIdHex(id) != NodeIdHex(id)
  {
    NodeIdRoundTrip(id);
    var s := NodeIdHex(id);
    assert (" " + s)[1..] == s;
    assert Trim(" " + s) == Trim(s);
  }

  // ---- what cannot change the store ----

  /** `request_mutates` of the serve loop. */
  predicate Mutates(r: MailRequest) {
    r.DeliverMail? || r.AckMail? || r.DepositReceipt? || r.TakeReceipts?
  }

  /** A request that is not classed as mutating, or that is answered with an error, changes nothing. */
  lemma ErrorsAndReadsChangeNothing(p: Primitives, k: Rules, limits: Limits, s: State, ev: Event)
    requires !Mutates(ev.request) || HandleOutcome(p, k, limits, s, ev) == Panic
             || HandleOutcome(p, k, limits, s, ev).reply.Error?
    ensures HandleNext(p, k, limits, s, ev) == s
  {
    hide ParseNodeId, CheckEnvelope, Append, Acknowledge;
  }
}
