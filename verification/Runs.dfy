/** Properties of whole runs of the store, for every sequence of operations. */
module Runs {
  import opened Encoding
  import opened Envelopes
  import opened Receipts
  import opened Lanes
  import opened Store

  /** What one operation does to the mail lane of `r`, given that lane alone. */
  ghost function LaneNext(k: Rules, cap: u64, l: Lane<StoredEnvelope>, op: Op, r: string): Lane<StoredEnvelope> {
    match op
    case Deliver(e, now) =>
      if e.body.to == r && r != "" && k.envelopeVerifies(e) && !Knows(l, EnvKey(k), k.messageId(e))
      then Append(l, cap, StoredEnvelope(e, now)) else l
    case Ack(x, cursor) => if x == r then Acknowledge(l, cursor) else l
    case _ => l
  }

  ghost function LaneRun(k: Rules, cap: u64, l: Lane<StoredEnvelope>, ops: seq<Op>, r: string): Lane<StoredEnvelope>
    decreases |ops|
  {
    if ops == [] then l
    else LaneNext(k, cap, LaneRun(k, cap, l, ops[..|ops| - 1], r), ops[|ops| - 1], r)
  }

  lemma LaneStep(k: Rules, s: State, op: Op, r: string)
    ensures MailLane(Next(k, s, op), r) == LaneNext(k, s.capacity, MailLane(s, r), op, r)
  {
    hide Append, Acknowledge, Knows, LaneOf, PutReceiptInto, CollectFrom, AckIn;
    match op {
      case Deliver(e, now) =>
        LaneOfUpdate(s.mail, e.body.to, Append(MailLane(s, e.body.to), s.capacity, StoredEnvelope(e, now)), r);
      case Ack(x, cursor) => AckLane(s, x, cursor, r);
      case PutReceipt(x, receipt) => PutReceiptKeepsMail(k, s, x, receipt);
      case CollectReceipts(x) => CollectKeepsMail(s, x);
      case _ =>
    }
  }

  lemma AckLane(s: State, x: string, cursor: nat, r: string)
    ensures LaneOf(AckIn(s, x, cursor).0.mail, r) ==
            if x == r then Acknowledge(LaneOf(s.mail, r), cursor) else LaneOf(s.mail, r)
  {
    if x in s.mail {
      LaneOfUpdate(s.mail, x, Acknowledge(s.mail[x], cursor), r);
    } else {
      var l := LaneOf(s.mail, x);
      assert Acknowledge(l, cursor).acked == l.acked;
    }
  }

  lemma PutReceiptKeepsMail(k: Rules, s: State, x: string, receipt: Receipt)
    ensures PutReceiptInto(k, s, x, receipt).0.mail == s.mail
  {
  }

  lemma CollectKeepsMail(s: State, x: string)
    ensures CollectFrom(s, x).0.mail == s.mail
  {
  }

  /** Recipients do not interfere: a run acts on each lane as if the others were not there. */
  lemma {:induction false} LanesIndependent(k: Rules, s: State, ops: seq<Op>, r: string)
    requires StateOk(k, s)
    ensures MailLane(Run(k, s, ops), r) == LaneRun(k, s.capacity, MailLane(s, r), ops, r)
    decreases |ops|
  {
    if ops != [] {
      var before := ops[..|ops| - 1];
      LanesIndependent(k, s, before, r);
      RunOk(k, s, before);
      LaneStep(k, Run(k, s, before), ops[|ops| - 1], r);
    }
  }

  lemma LaneNextOk(k: Rules, cap: u64, l: Lane<StoredEnvelope>, op: Op, r: string)
    requires cap >= 1 && LaneOk(l, EnvKey(k), cap)
    ensures LaneOk(LaneNext(k, cap, l, op, r), EnvKey(k), cap)
  {
    match op {
      case Deliver(e, now) =>
        if LaneNext(k, cap, l, op, r) != l {
          AppendQueue(l, EnvKey(k), cap, StoredEnvelope(e, now));
        }
      case Ack(x, cursor) => AcknowledgeOk(l, EnvKey(k), cap, cursor);
      case _ =>
    }
  }

  lemma {:induction false} LaneRunOk(k: Rules, cap: u64, l: Lane<StoredEnvelope>, ops: seq<Op>, r: string)
    requires cap >= 1 && LaneOk(l, EnvKey(k), cap)
    ensures LaneOk(LaneRun(k, cap, l, ops, r), EnvKey(k), cap)
    decreases |ops|
  {
    if ops != [] {
      LaneRunOk(k, cap, l, ops[..|ops| - 1], r);
      LaneNextOk(k, cap, LaneRun(k, cap, l, ops[..|ops| - 1], r), ops[|ops| - 1], r);
    }
  }

  // ---- what a client can see: replies determine the log ----

  /** What one operation visibly stores for `r`, and visibly removes for `r`. */
  ghost function StoredBy(k: Rules, s: State, op: Op, r: string): seq<StoredEnvelope> {
    if op.Deliver? && op.envelope.body.to == r && Answer(k, s, op) == Deposited(Done(Stored))
    then [StoredEnvelope(op.envelope, op.now)] else []
  }

  ghost function RemovedBy(k: Rules, s: State, op: Op, r: string): nat {
    if op.Ack? && op.recipient == r then Answer(k, s, op).count else 0
  }

  /** The envelopes for `r` that a run answered with `Stored`, in order. */
  ghost function StoredFor(k: Rules, s: State, ops: seq<Op>, r: string): seq<StoredEnvelope>
    decreases |ops|
  {
    if ops == [] then [] else
      var before := ops[..|ops| - 1];
      StoredFor(k, s, before, r) + StoredBy(k, Run(k, s, before), ops[|ops| - 1], r)
  }

  /** The sum of the counts a run answered to acknowledgements by `r`. */
  ghost function RemovedFor(k: Rules, s: State, ops: seq<Op>, r: string): nat
    decreases |ops|
  {
    if ops == [] then 0 else
      var before := ops[..|ops| - 1];
      RemovedFor(k, s, before, r) + RemovedBy(k, Run(k, s, before), ops[|ops| - 1], r)
  }

  lemma LogStep(k: Rules, s: State, op: Op, r: string)
    ensures MailLane(Next(k, s, op), r).log == MailLane(s, r).log + StoredBy(k, s, op, r)
    ensures |MailLane(Next(k, s, op), r).acked| == |MailLane(s, r).acked| + RemovedBy(k, s, op, r)
  {
    hide KeySet, PageOf, PageOverflows, ImageOf;
    LaneStep(k, s, op, r);
    assert MailLane(s, r).log + [] == MailLane(s, r).log;
  }

  lemma {:induction false} LogIsReplies(k: Rules, s: State, ops: seq<Op>, r: string)
    ensures MailLane(Run(k, s, ops), r).log == MailLane(s, r).log + StoredFor(k, s, ops, r)
    ensures |MailLane(Run(k, s, ops), r).acked| == |MailLane(s, r).acked| + RemovedFor(k, s, ops, r)
    decreases |ops|
  {
    if ops == [] {
      assert MailLane(s, r).log + [] == MailLane(s, r).log;
    } else {
      var before := ops[..|ops| - 1];
      LogIsReplies(k, s, before, r);
      LogStep(k, Run(k, s, before), ops[|ops| - 1], r);
    }
  }

  ghost predicate IsSuffix<T>(q: seq<T>, whole: seq<T>) {
    |q| <= |whole| && whole[|whole| - |q|..] == q
  }

  lemma LaneIsPending(s: State, r: string)
    ensures MailLane(s, r).Queue() == Pending(s, r)
  {
  }

  lemma QueueIsSuffix<T>(l: Lane<T>, key: T -> string, cap: nat)
    requires LaneOk(l, key, cap)
    ensures IsSuffix(l.Queue(), l.log)
    ensures |l.log| == |l.Queue()| + |l.acked| + l.evicted
  {
    assert l.Base() == |l.log| - |l.Queue()|;
  }

  lemma LogFromStart(k: Rules, s: State, ops: seq<Op>, r: string)
    requires IsStarted(s)
    ensures MailLane(Run(k, s, ops), r).log == Pending(s, r) + StoredFor(k, s, ops, r)
    ensures |MailLane(Run(k, s, ops), r).acked| == RemovedFor(k, s, ops, r)
  {
    hide LaneOf, Run, StoredFor, RemovedFor, IsStarted, Pending;
    LogIsReplies(k, s, ops, r);
    StartedLane(s, r);
  }

  lemma RunLaneOk(k: Rules, s: State, ops: seq<Op>, r: string)
    requires StateOk(k, s)
    ensures LaneOk(MailLane(Run(k, s, ops), r), EnvKey(k), s.capacity)
  {
    RunOk(k, s, ops);
    LaneOfOk(Run(k, s, ops).mail, EnvKey(k), s.capacity, r);
  }

  /** Log refinement. After any run from a new or a loaded store, what is pending for `r` is exactly a
      suffix of what was pending at the start followed by the envelopes reported stored for `r`; what is
      missing was acknowledged or evicted, one for one. */
  lemma QueueIsSuffixOfStored(k: Rules, s: State, ops: seq<Op>, r: string)
    requires StateOk(k, s) && IsStarted(s)
    ensures var stored := Pending(s, r) + StoredFor(k, s, ops, r);
      var q := Pending(Run(k, s, ops), r);
      && IsSuffix(q, stored)
      && |stored| == |q| + RemovedFor(k, s, ops, r) + MailLane(Run(k, s, ops), r).evicted
      && |q| <= s.capacity
      && DistinctKeys(q, EnvKey(k))
  {
    hide StateOk, IsStarted, LaneOf, Run, StoredFor, RemovedFor;
    LogFromStart(k, s, ops, r);
    RunLaneOk(k, s, ops, r);
    LaneIsPending(Run(k, s, ops), r);
    QueueIsSuffix(MailLane(Run(k, s, ops), r), EnvKey(k), s.capacity);
  }

  /** An envelope just reported stored is the last one pending, and only it is new. */
  lemma StoredIsLast(k: Rules, s: State, e: Envelope, now: u64)
    requires StateOk(k, s)
    requires Answer(k, s, Deliver(e, now)) == Deposited(Done(Stored))
    ensures var q := Pending(s, e.body.to);
      var q' := Pending(Next(k, s, Deliver(e, now)), e.body.to);
      q' == (if |q| == s.capacity then q[1..] else q) + [StoredEnvelope(e, now)]
  {
    var r := e.body.to;
    LaneOfOk(s.mail, EnvKey(k), s.capacity, r);
    AppendQueue(MailLane(s, r), EnvKey(k), s.capacity, StoredEnvelope(e, now));
  }

  // ---- de-duplication ----

  /** `Duplicate` is the answer exactly for envelopes that are queued or were acknowledged. */
  lemma DuplicateExact(k: Rules, s: State, e: Envelope, now: u64)
    requires StateOk(k, s)
    ensures Answer(k, s, Deliver(e, now)) == Deposited(Done(Duplicate)) <==>
            && k.envelopeVerifies(e) && e.body.to != ""
            && exists x ::
                 && (x in Pending(s, e.body.to) || x in MailLane(s, e.body.to).acked)
                 && k.messageId(x.envelope) == k.messageId(e)
  {
    var l := MailLane(s, e.body.to);
    if Knows(l, EnvKey(k), k.messageId(e)) {
      var x :| (x in l.Queue() || x in l.acked) && EnvKey(k)(x) == k.messageId(e);
      assert k.messageId(x.envelope) == k.messageId(e);
    }
  }

  /** Every delivery to a store, by what is pending and what was acknowledged: the signature is looked at first,
      then the recipient, then the id. Only a new message changes anything, and only in its own queue. */
  lemma AcceptExactly(k: Rules, s: State, e: Envelope, now: u64, other: string)
    requires StateOk(k, s)
    ensures var r, s' := e.body.to, Next(k, s, Deliver(e, now));
      var q, reply := Pending(s, r), Answer(k, s, Deliver(e, now));
      if !k.envelopeVerifies(e) then reply == Deposited(Refused(Unverifiable)) && s' == s
      else if r == "" then reply == Deposited(Refused(NoRecipient)) && s' == s
      else if exists x :: (x in q || x in MailLane(s, r).acked) && k.messageId(x.envelope) == k.messageId(e) then
        reply == Deposited(Done(Duplicate)) && s' == s
      else
        && reply == Deposited(Done(Stored))
        && Pending(s', r) == (if |q| == s.capacity then q[1..] else q) + [StoredEnvelope(e, now)]
        && (other != r ==> Pending(s', other) == Pending(s, other))
        && MailLane(s', other).acked == MailLane(s, other).acked && s'.receipts == s.receipts
  {
    hide StateOk, LaneOf;
    DuplicateExact(k, s, e, now);
    LaneStep(k, s, Deliver(e, now), other);
    AckedStep(k, s, Deliver(e, now), other);
    if Answer(k, s, Deliver(e, now)) == Deposited(Done(Stored)) {
      StoredIsLast(k, s, e, now);
    }
  }

  /** The envelopes that acknowledgements by `r` removed in a run, in order. */
  ghost function AckedFor(k: Rules, s: State, ops: seq<Op>, r: string): seq<StoredEnvelope>
    decreases |ops|
  {
    if ops == [] then [] else
      var before, op := ops[..|ops| - 1], ops[|ops| - 1];
      AckedFor(k, s, before, r)
      + if op.Ack? && op.recipient == r then UpTo(Pending(Run(k, s, before), r), op.cursor) else []
  }

  ghost function UpTo<T>(q: seq<T>, n: nat): seq<T> {
    q[..Min(n, |q|)]
  }

  lemma AckedStep(k: Rules, s: State, op: Op, r: string)
    ensures MailLane(Next(k, s, op), r).acked ==
            MailLane(s, r).acked + (if op.Ack? && op.recipient == r then UpTo(Pending(s, r), op.cursor) else [])
  {
    LaneStep(k, s, op, r);
    assert MailLane(s, r).acked + [] == MailLane(s, r).acked;
  }

  lemma {:induction false} AckedIsRemoved(k: Rules, s: State, ops: seq<Op>, r: string)
    ensures MailLane(Run(k, s, ops), r).acked == MailLane(s, r).acked + AckedFor(k, s, ops, r)
    decreases |ops|
  {
    hide LaneOf, Next, UpTo;
    if ops == [] {
      assert MailLane(s, r).acked + [] == MailLane(s, r).acked;
    } else {
      AckedIsRemoved(k, s, ops[..|ops| - 1], r);
      AckedStep(k, Run(k, s, ops[..|ops| - 1]), ops[|ops| - 1], r);
    }
  }

  /** De-duplication over whole runs of a new or a loaded store: a delivery is answered `Duplicate` exactly
      when a message with its id is pending, or some acknowledgement of the run removed one. */
  lemma DuplicateOverRuns(k: Rules, s: State, ops: seq<Op>, e: Envelope, now: u64)
    requires StateOk(k, s) && IsStarted(s)
    ensures var s', r := Run(k, s, ops), e.body.to;
      Answer(k, s', Deliver(e, now)) == Deposited(Done(Duplicate)) <==>
        && k.envelopeVerifies(e) && r != ""
        && exists x :: (x in Pending(s', r) || x in AckedFor(k, s, ops, r)) && k.messageId(x.envelope) == k.messageId(e)
  {
    hide LaneOf, Answer, AckedFor, Pending, StateOk, IsStarted, Run;
    RunOk(k, s, ops);
    DuplicateExact(k, Run(k, s, ops), e, now);
    AckedIsRemoved(k, s, ops, e.body.to);
    StartedLane(s, e.body.to);
  }

  lemma NothingAckedYet(s: State, r: string)
    requires IsNew(s)
    ensures var l := MailLane(s, r); l.log == [] && l.acked == [] && l.evicted == 0
  {
  }

  // ---- the size of the de-dup index ----

  /** The index is documented to be bounded by the capacity. It holds one id for every message pending
      and for every message ever acknowledged, so it is exactly as long as those are few enough. */
  lemma IndexSize(k: Rules, s: State, ops: seq<Op>, r: string)
    requires StateOk(k, s) && IsStarted(s)
    ensures var s' := Run(k, s, ops);
      && |Index(k, s', r)| == |Pending(s', r)| + RemovedFor(k, s, ops, r)
      && (|Index(k, s', r)| <= s.capacity <==> |Pending(s', r)| + RemovedFor(k, s, ops, r) <= s.capacity)
  {
    hide LaneOf, KeySet, RemovedFor, StateOk, IsStarted, Run;
    LogFromStart(k, s, ops, r);
    RunLaneOk(k, s, ops, r);
    KnownCount(MailLane(Run(k, s, ops), r), EnvKey(k), s.capacity);
  }

  /** Room for one message, one acknowledged, one more delivered: two ids. */
  lemma IndexOutgrows(k: Rules, s: State, a: Envelope, b: Envelope, now: u64, r: string)
    requires IsNew(s) && s.capacity == 1 && r != "" && a.body.to == r && b.body.to == r
    requires k.envelopeVerifies(a) && k.envelopeVerifies(b) && k.messageId(a) != k.messageId(b)
    ensures var s' := Run(k, s, [Deliver(a, now), Ack(r, 1), Deliver(b, now)]);
      |Index(k, s', r)| == 2 > s'.capacity
  {
    hide Run, LaneOf, LaneNext, StateOk, Next, KeySet, RemovedFor, StoredFor;
    var ops, none: seq<Op> := [Deliver(a, now), Ack(r, 1), Deliver(b, now)], [];
    assert ops == none + [ops[0]] + [ops[1]] + [ops[2]];
    NewOk(k, s);
    LanesIndependent(k, s, ops, r);
    LaneRunSnoc(k, 1, MailLane(s, r), none, ops[0], r);
    LaneRunSnoc(k, 1, MailLane(s, r), none + [ops[0]], ops[1], r);
    LaneRunSnoc(k, 1, MailLane(s, r), none + [ops[0]] + [ops[1]], ops[2], r);
    NothingAckedYet(s, r);
    ThreeLanes(k, MailLane(s, r), a, b, now, r);
    RunOk(k, s, ops);
    RunLaneOk(k, s, ops, r);
    KnownCount(MailLane(Run(k, s, ops), r), EnvKey(k), s.capacity);
  }

  lemma LaneRunSnoc(k: Rules, cap: u64, l: Lane<StoredEnvelope>, ops: seq<Op>, op: Op, r: string)
    ensures LaneRun(k, cap, l, [], r) == l
    ensures LaneRun(k, cap, l, ops + [op], r) == LaneNext(k, cap, LaneRun(k, cap, l, ops, r), op, r)
  {
    hide LaneNext;
    assert (ops + [op])[..|ops + [op]| - 1] == ops;
  }

  lemma DeliverToEmpty(k: Rules, l: Lane<StoredEnvelope>, e: Envelope, now: u64)
    requires l.Base() == |l.log| && k.envelopeVerifies(e) && e.body.to != ""
    requires forall x :: x in l.acked ==> k.messageId(x.envelope) != k.messageId(e)
    ensures var l' := LaneNext(k, 1, l, Deliver(e, now), e.body.to);
      l'.Base() <= |l'.log| && l'.Queue() == [StoredEnvelope(e, now)] && l'.acked == l.acked
  {
    hide Append, Knows, KeySet, Lane.Queue;
    var x := StoredEnvelope(e, now);
    EmptyQueue(l);
    NotKnown(k, l, e);
    AppendShape(l, 1, x);
    AppendKeepsAcked(l, 1, x);
    var none: seq<StoredEnvelope> := [];
    assert (none + [x])[0..] == [x];
  }

  lemma EmptyQueue<T>(l: Lane<T>)
    requires l.Base() == |l.log|
    ensures l.Queue() == []
  {
  }

  lemma NotKnown(k: Rules, l: Lane<StoredEnvelope>, e: Envelope)
    requires l.Queue() == [] && forall x :: x in l.acked ==> k.messageId(x.envelope) != k.messageId(e)
    ensures !Knows(l, EnvKey(k), k.messageId(e))
  {
  }

  lemma AckTheOne(k: Rules, l: Lane<StoredEnvelope>, x: StoredEnvelope, r: string)
    requires l.Base() <= |l.log| && l.Queue() == [x] && l.acked == []
    ensures var l' := LaneNext(k, 1, l, Ack(r, 1), r);
      l'.acked == [x] && l'.Base() == |l'.log|
  {
    assert l.acked + [x] == [x] && [x][..1] == [x];
  }

  lemma ThreeLanes(k: Rules, l: Lane<StoredEnvelope>, a: Envelope, b: Envelope, now: u64, r: string)
    requires l.log == [] && l.acked == [] && l.evicted == 0
    requires r != "" && a.body.to == r && b.body.to == r
    requires k.envelopeVerifies(a) && k.envelopeVerifies(b) && k.messageId(a) != k.messageId(b)
    ensures var l1 := LaneNext(k, 1, l, Deliver(a, now), r);
      var l2 := LaneNext(k, 1, l1, Ack(r, 1), r);
      var l3 := LaneNext(k, 1, l2, Deliver(b, now), r);
      |l3.Queue()| == 1 && |l3.acked| == 1
  {
    hide LaneNext, Lane.Queue;
    var l1 := LaneNext(k, 1, l, Deliver(a, now), r);
    DeliverToEmpty(k, l, a, now);
    AckTheOne(k, l1, StoredEnvelope(a, now), r);
    DeliverToEmpty(k, LaneNext(k, 1, l1, Ack(r, 1), r), b, now);
  }

  lemma {:induction false} AckedOnlyGrows(k: Rules, cap: u64, l: Lane<StoredEnvelope>, ops: seq<Op>, r: string)
    ensures l.acked <= LaneRun(k, cap, l, ops, r).acked
    decreases |ops|
  {
    if ops != [] {
      AckedOnlyGrows(k, cap, l, ops[..|ops| - 1], r);
    }
  }

  /** Once acknowledged, a message never comes back: in every later state it is not pending, and
      delivering it again is answered `Duplicate` and changes nothing. */
  lemma AckedNeverReturns(k: Rules, s: State, ops: seq<Op>, x: StoredEnvelope, e: Envelope, now: u64)
    requires StateOk(k, s)
    requires x in MailLane(s, e.body.to).acked && k.messageId(e) == k.messageId(x.envelope)
    requires k.envelopeVerifies(e) && e.body.to != ""
    ensures var s' := Run(k, s, ops);
      && (forall y :: y in Pending(s', e.body.to) ==> k.messageId(y.envelope) != k.messageId(e))
      && Answer(k, s', Deliver(e, now)) == Deposited(Done(Duplicate))
      && Next(k, s', Deliver(e, now)) == s'
  {
    var r := e.body.to;
    LaneOfOk(s.mail, EnvKey(k), s.capacity, r);
    LanesIndependent(k, s, ops, r);
    LaneRunOk(k, s.capacity, MailLane(s, r), ops, r);
    AckedOnlyGrows(k, s.capacity, MailLane(s, r), ops, r);
    var l' := MailLane(Run(k, s, ops), r);
    var i :| 0 <= i < |MailLane(s, r).acked| && MailLane(s, r).acked[i] == x;
    assert l'.acked[i] == x && x in l'.acked;
    assert EnvKey(k)(x) in KeySet(l'.acked, EnvKey(k));
    forall y | y in l'.Queue()
      ensures k.messageId(y.envelope) != k.messageId(e)
    {
      assert EnvKey(k)(y) in KeySet(l'.Queue(), EnvKey(k));
    }
  }

  // ---- drain, then acknowledge ----

  ghost predicate NoAckOf(ops: seq<Op>, r: string) {
    forall op :: op in ops ==> !(op.Ack? && op.recipient == r)
  }

  /** Without acknowledgements a lane only grows, and evicts only while it is full. */
  lemma {:induction false} GrowsWithoutAck(k: Rules, cap: u64, l: Lane<StoredEnvelope>, ops: seq<Op>, r: string)
    requires cap >= 1 && LaneOk(l, EnvKey(k), cap) && NoAckOf(ops, r)
    ensures var l' := LaneRun(k, cap, l, ops, r);
      && LaneOk(l', EnvKey(k), cap)
      && l.log <= l'.log && l'.acked == l.acked && l.evicted <= l'.evicted
      && |l.Queue()| <= |l'.Queue()|
      && (l'.evicted > l.evicted ==> |l'.Queue()| == cap)
    decreases |ops|
  {
    LaneRunOk(k, cap, l, ops, r);
    if ops != [] {
      var before, op := ops[..|ops| - 1], ops[|ops| - 1];
      GrowsWithoutAck(k, cap, l, before, r);
      var m := LaneRun(k, cap, l, before, r);
      if op.Deliver? && LaneNext(k, cap, m, op, r) != m {
        AppendQueue(m, EnvKey(k), cap, StoredEnvelope(op.envelope, op.now));
      }
    }
  }

  /** How long mail waits for a recipient who does not acknowledge anything: the newest entry of a queue
      is evicted exactly when a full capacity of further mail has been stored for that recipient. */
  lemma NewestStays(k: Rules, s: State, ops: seq<Op>, r: string)
    requires StateOk(k, s) && NoAckOf(ops, r) && Pending(s, r) != []
    ensures var q, l := Pending(s, r), MailLane(Run(k, s, ops), r);
      && |MailLane(s, r).log| <= |l.log|
      && (l.Base() < |MailLane(s, r).log| <==> |StoredFor(k, s, ops, r)| < s.capacity)
      && (|StoredFor(k, s, ops, r)| < s.capacity ==> q[|q| - 1] in l.Queue())
  {
    var l0, l1 := MailLane(s, r), MailLane(Run(k, s, ops), r);
    LaneOfOk(s.mail, EnvKey(k), s.capacity, r);
    LanesIndependent(k, s, ops, r);
    GrowsWithoutAck(k, s.capacity, l0, ops, r);
    LogIsReplies(k, s, ops, r);
    NewestInLog(l0, l1, s.capacity);
  }

  lemma NewestInLog(l0: Lane<StoredEnvelope>, l1: Lane<StoredEnvelope>, cap: nat)
    requires l0.Base() < |l0.log| && l0.log <= l1.log && l1.acked == l0.acked && l0.evicted <= l1.evicted
    requires |l1.Queue()| <= cap && l1.Base() <= |l1.log|
    requires l1.evicted > l0.evicted ==> |l1.Queue()| == cap
    ensures l1.Base() < |l0.log| <==> |l1.log| - |l0.log| < cap
    ensures l1.Base() < |l0.log| ==> l0.Queue()[|l0.Queue()| - 1] in l1.Queue()
  {
    var j := |l0.log| - 1;
    assert l0.Queue()[|l0.Queue()| - 1] == l0.log[j] == l1.log[j];
    if l1.Base() <= j {
      assert l1.Queue()[j - l1.Base()] == l1.log[j];
    }
  }

  ghost function Later<T>(l0: Lane<T>, l1: Lane<T>): seq<T> {
    From(l1.log, |l0.log|)
  }

  function Max(a: nat, b: nat): nat {
    if a <= b then b else a
  }

  /** `l0` is the lane when everything in it was drained, `l1` when that cursor is acknowledged, `l2`
      afterwards. `n` entries were drained and `e` evicted in between. The acknowledgement removes the
      log from `l1.Base()` up to `upTo`, of which the client never saw what lies past both the end of
      its drain and the entries already evicted: `Min(e, n)` entries. Later arrivals stay, in order. */
  ghost predicate AckOutcome(l0: Lane<StoredEnvelope>, l1: Lane<StoredEnvelope>, l2: Lane<StoredEnvelope>) {
    var n, e := |l0.Queue()|, l1.evicted - l0.evicted;
    var upTo := l1.Base() + Min(n, |l1.Queue()|);
    && e >= 0 && l0.log <= l1.log && upTo <= |l1.log|
    && l2.acked == l0.acked + l1.log[l1.Base()..upTo]
    && l2.Queue() == l1.log[upTo..]
    && upTo - Max(|l0.log|, l1.Base()) == Min(e, n)
  }

  lemma GrownAckOutcome(l0: Lane<StoredEnvelope>, l1: Lane<StoredEnvelope>, cap: nat)
    requires l0.Base() <= |l0.log| && |l0.Queue()| <= cap && l1.Base() <= |l1.log|
    requires l0.log <= l1.log && l1.acked == l0.acked && l0.evicted <= l1.evicted
    requires |l0.Queue()| <= |l1.Queue()| && (l1.evicted > l0.evicted ==> |l1.Queue()| == cap)
    ensures AckOutcome(l0, l1, Acknowledge(l1, |l0.Queue()|))
  {
    var n := |l0.Queue()|;
    var upTo := l1.Base() + n;
    assert l1.Queue()[..n] == l1.log[l1.Base()..upTo];
    var l2 := Acknowledge(l1, n);
    assert l2.Base() == upTo && l2.Queue() == l1.log[upTo..];
  }

  /** A client drains everything pending for `r` and acknowledges the cursor it was given. In between
      anything may happen except another acknowledgement by `r`. */
  lemma DrainThenAck(k: Rules, s: State, ops: seq<Op>, r: string)
    requires StateOk(k, s) && NoAckOf(ops, r)
    ensures var l1 := MailLane(Run(k, s, ops), r);
      AckOutcome(MailLane(s, r), l1, Acknowledge(l1, |Pending(s, r)|))
  {
    LaneOfOk(s.mail, EnvKey(k), s.capacity, r);
    LanesIndependent(k, s, ops, r);
    GrowsWithoutAck(k, s.capacity, MailLane(s, r), ops, r);
    GrownAckOutcome(MailLane(s, r), MailLane(Run(k, s, ops), r), s.capacity);
  }

  /** So the acknowledgement removes exactly what was drained, and keeps exactly the later arrivals,
      if and only if nothing was evicted in between. */
  lemma AckExactIffNoEviction(k: Rules, s: State, ops: seq<Op>, r: string)
    requires StateOk(k, s) && NoAckOf(ops, r)
    ensures var l0, l1 := MailLane(s, r), MailLane(Run(k, s, ops), r);
      var l2 := Acknowledge(l1, |l0.Queue()|);
      l2.acked == l0.acked + l0.Queue() && l2.Queue() == Later(l0, l1) <==> l1.evicted == l0.evicted
  {
    DrainThenAck(k, s, ops, r);
    var l0, l1 := MailLane(s, r), MailLane(Run(k, s, ops), r);
    LaneOfOk(s.mail, EnvKey(k), s.capacity, r);
    LanesIndependent(k, s, ops, r);
    GrowsWithoutAck(k, s.capacity, l0, ops, r);
    AckExactLane(l0, l1, Acknowledge(l1, |l0.Queue()|));
  }

  lemma AckExactLane(l0: Lane<StoredEnvelope>, l1: Lane<StoredEnvelope>, l2: Lane<StoredEnvelope>)
    requires AckOutcome(l0, l1, l2) && l0.Base() <= |l0.log| && |l1.acked| == |l0.acked|
    ensures l2.acked == l0.acked + l0.Queue() && l2.Queue() == Later(l0, l1) <==> l1.evicted == l0.evicted
  {
    var n := |l0.Queue()|;
    var upTo := l1.Base() + Min(n, |l1.Queue()|);
    assert |l2.Queue()| == |l1.log| - upTo && |Later(l0, l1)| == |l1.log| - |l0.log|;
    if l1.evicted == l0.evicted {
      assert upTo == |l0.log| && l1.Base() == l0.Base();
      assert l1.log[..upTo] == l0.log;
      assert l1.log[l1.Base()..upTo] == l1.log[..upTo][l1.Base()..];
    } else if n > 0 {
      assert upTo > |l0.log|;
    } else {
      assert upTo > |l0.log|;
    }
  }

  // ---- a saved cursor ----

  lemma PendingFits(k: Rules, s: State, r: string)
    requires StateOk(k, s)
    ensures |Pending(s, r)| <= s.capacity < U64_LIMIT
  {
    LaneOfOk(s.mail, EnvKey(k), s.capacity, r);
  }

  lemma {:induction false} LaneOnlyGrows(k: Rules, cap: u64, l: Lane<StoredEnvelope>, ops: seq<Op>, r: string)
    requires cap >= 1 && LaneOk(l, EnvKey(k), cap)
    ensures var l' := LaneRun(k, cap, l, ops, r);
      LaneOk(l', EnvKey(k), cap) && l.log <= l'.log && l.Base() <= l'.Base()
    decreases |ops|
  {
    hide LaneOk;
    LaneRunOk(k, cap, l, ops, r);
    if ops != [] {
      LaneOnlyGrows(k, cap, l, ops[..|ops| - 1], r);
    }
  }

  /** A cursor kept while anything at all happens. A client has seen the mail of `r` up to cursor `c`, and
      reads on from `c` later. Cursors are positions in a queue that loses its head, so of the mail
      still pending that it has not seen, the read skips as many messages as were lost from the head in
      between, up to `c`; it misses nothing exactly if none was lost, or `c` is zero, or there is
      nothing new. */
  lemma SavedCursorReads(k: Rules, s: State, ops: seq<Op>, r: string, c: u64)
    requires StateOk(k, s) && c <= |Pending(s, r)|
    ensures var s' := Run(k, s, ops);
      var l0, l1 := MailLane(s, r), MailLane(s', r);
      var unseen := From(l1.log, Max(l0.Base() + c, l1.Base()));
      && l0.Base() <= l1.Base() && l0.log <= l1.log
      && IsSuffix(unseen, Pending(s', r))
      && Answer(k, s', ReadFrom(r, c)) == Mail(From(unseen, Min(l1.Base() - l0.Base(), c)), |Pending(s', r)|)
      && (From(Pending(s', r), c) == unseen <==> l1.Base() == l0.Base() || c == 0 || unseen == [])
  {
    hide StateOk, LaneOf, LaneOk, Run, Answer, From, IsSuffix, Lane.Queue, Lane.Base;
    RunOnlyGrows(k, s, ops, r);
    CursorInLog(MailLane(s, r), MailLane(Run(k, s, ops), r), c);
    ReadFromAnswer(k, Run(k, s, ops), r, c);
  }

  lemma RunOnlyGrows(k: Rules, s: State, ops: seq<Op>, r: string)
    requires StateOk(k, s)
    ensures var l0, l1 := MailLane(s, r), MailLane(Run(k, s, ops), r);
      && l0.log <= l1.log && l0.Base() <= l1.Base() <= |l1.log|
      && l0.Base() + |Pending(s, r)| == |l0.log|
  {
    hide LaneOf, Run;
    LaneOfOk(s.mail, EnvKey(k), s.capacity, r);
    LanesIndependent(k, s, ops, r);
    LaneOnlyGrows(k, s.capacity, MailLane(s, r), ops, r);
  }

  lemma ReadFromAnswer(k: Rules, s: State, r: string, c: u64)
    ensures Answer(k, s, ReadFrom(r, c)) == Mail(From(Pending(s, r), c), |Pending(s, r)|)
    ensures MailLane(s, r).Queue() == Pending(s, r)
  {
    hide LaneOf;
  }

  lemma CursorInLog<T>(l0: Lane<T>, l1: Lane<T>, c: nat)
    requires l0.Base() + c <= |l0.log| <= |l1.log| && l0.Base() <= l1.Base() <= |l1.log|
    ensures var unseen := From(l1.log, Max(l0.Base() + c, l1.Base()));
      && IsSuffix(unseen, l1.Queue())
      && From(l1.Queue(), c) == From(unseen, Min(l1.Base() - l0.Base(), c))
      && (From(l1.Queue(), c) == unseen <==> l1.Base() == l0.Base() || c == 0 || unseen == [])
  {
    var start, n := Max(l0.Base() + c, l1.Base()), Min(l1.Base() - l0.Base(), c);
    assert l1.Base() + c == start + n;
    FromFrom(l1.log, l1.Base(), c);
    FromFrom(l1.log, start, n);
    FromFrom(l1.log, l1.Base(), start - l1.Base());
    assert From(l1.log, l1.Base()) == l1.Queue();
  }

  lemma FromFrom<T>(q: seq<T>, a: nat, b: nat)
    requires a <= |q|
    ensures From(From(q, a), b) == From(q, a + b)
    ensures |From(q, a)| == |q| - a
  {
  }

  /** Eviction alone is enough: a client that has read a full queue and acknowledges nothing reads nothing
      any more when it goes on from its cursor, whatever arrives, ever. */
  lemma EvictionHidesMail(k: Rules, s: State, ops: seq<Op>, r: string)
    requires StateOk(k, s) && |Pending(s, r)| == s.capacity && NoAckOf(ops, r)
    ensures var s' := Run(k, s, ops);
      && Answer(k, s', ReadFrom(r, s.capacity)) == Mail([], s.capacity)
      && Pending(s', r) == From(Pending(s, r) + StoredFor(k, s, ops, r), |StoredFor(k, s, ops, r)|)
  {
    hide StateOk, Run, NoAckOf, LaneOf, LaneOk, LaneRun, StoredFor, Lane.Queue;
    LaneStarts(k, s, r);
    LanesIndependent(k, s, ops, r);
    GrowsWithoutAck(k, s.capacity, MailLane(s, r), ops, r);
    LogIsReplies(k, s, ops, r);
    SlidingWindow(MailLane(s, r), MailLane(Run(k, s, ops), r), EnvKey(k), s.capacity, StoredFor(k, s, ops, r));
    ReadFromAnswer(k, Run(k, s, ops), r, s.capacity);
  }

  lemma SlidingWindow<T>(l: Lane<T>, l': Lane<T>, key: T -> string, cap: nat, stored: seq<T>)
    requires LaneOk(l, key, cap) && LaneOk(l', key, cap) && |l.Queue()| == cap <= |l'.Queue()|
    requires l'.log == l.log + stored
    ensures |l'.Queue()| == cap && l'.Queue() == From(l.Queue() + stored, |stored|)
  {
    hide DistinctKeys, KeySet;
    assert l'.Base() == l.Base() + |stored|;
    if cap > 0 {
      assert (l.Queue() + stored)[|stored|..] == l'.log[l'.Base()..];
    }
  }

  lemma AckAll(k: Rules, s: State, r: string, c: u64)
    requires StateOk(k, s) && c == |Pending(s, r)|
    ensures var s1 := Next(k, s, Ack(r, c));
      && StateOk(k, s1) && s1.capacity == s.capacity
      && MailLane(s1, r).log == MailLane(s, r).log && MailLane(s1, r).Queue() == []
  {
    StepOk(k, s, Ack(r, c));
    LaneStep(k, s, Ack(r, c), r);
    LaneOfOk(s.mail, EnvKey(k), s.capacity, r);
    AcknowledgeOk(MailLane(s, r), EnvKey(k), s.capacity, c);
  }

  /** From an empty queue on, everything pending arrived later. */
  lemma PendingIsLater(k: Rules, s: State, ops: seq<Op>, r: string)
    requires StateOk(k, s) && NoAckOf(ops, r) && Pending(s, r) == []
    ensures var l := MailLane(Run(k, s, ops), r);
      MailLane(s, r).log <= l.log && IsSuffix(l.Queue(), Later(MailLane(s, r), l))
  {
    hide Run, NoAckOf, LaneRun, KeySet, DistinctKeys;
    LaneOfOk(s.mail, EnvKey(k), s.capacity, r);
    LanesIndependent(k, s, ops, r);
    GrowsWithoutAck(k, s.capacity, MailLane(s, r), ops, r);
    var l0, l := MailLane(s, r), MailLane(Run(k, s, ops), r);
    assert l.Base() >= |l0.log| && l.Queue() == l.log[l.Base()..];
  }

  /** The command line drains, saves the cursor it was given, acknowledges it, and later drains from
      the saved cursor. Cursors are queue indices, so after the acknowledgement removed `c` entries the
      next drain skips the first `c` new ones: it returns all that is pending (none of which the client
      has seen) if and only if `c` is zero or nothing is pending. */
  lemma SavedCursorSkips(k: Rules, s: State, ops: seq<Op>, r: string, c: u64)
    requires StateOk(k, s) && NoAckOf(ops, r)
    requires c == |Pending(s, r)|
    ensures var s2 := Run(k, Next(k, s, Ack(r, c)), ops);
      var p := Pending(s2, r);
      && IsSuffix(p, Later(MailLane(s, r), MailLane(s2, r)))
      && Answer(k, s2, ReadFrom(r, c)) == Mail(From(p, c), |p|)
      && |From(p, c)| == |p| - Min(c, |p|)
      && (From(p, c) == p <==> c == 0 || p == [])
  {
    hide StateOk, NoAckOf, IsSuffix, LaneOf, Run;
    AckAll(k, s, r, c);
    PendingIsLater(k, Next(k, s, Ack(r, c)), ops, r);
  }

  // ---- acknowledging what a drain did not show ----

  /** The entries of a log from position `a` up to `b`. */
  ghost function Between<T>(q: seq<T>, a: nat, b: nat): seq<T> {
    if a <= b <= |q| then q[a..b] else []
  }

  /** One `inbox --ack` from the saved cursor `c`: it drains, and acknowledges all that was pending unless
      the cursor is already past it. `ops` is what reaches the mailbox in between. */
  ghost function InboxAck(k: Rules, s: State, r: string, c: nat, ops: seq<Op>): State {
    var n := |Pending(s, r)|;
    if c < n < U64_LIMIT then Next(k, Run(k, s, ops), Ack(r, n)) else Run(k, s, ops)
  }

  /** The mail that an acknowledgement of `n` entries removes, by what the client has seen of it. It had read
      the log up to `end` before, and its drain showed the queue of `l1` from `c` on. */
  ghost predicate Removes(l1: Lane<StoredEnvelope>, l2: Lane<StoredEnvelope>, removed: seq<StoredEnvelope>,
                          end: nat, c: nat, n: nat)
  {
    var seen, skipped, shown := Max(l2.Base(), end), Max(l2.Base(), l1.Base() + c), Max(l2.Base(), |l1.log|);
    && l2.Base() <= seen <= skipped <= shown <= l2.Base() + n <= |l2.log|
    && removed == Between(l2.log, l2.Base(), seen) + Between(l2.log, seen, skipped)
                  + Between(l2.log, skipped, shown) + Between(l2.log, shown, l2.Base() + n)
  }

  /** How much of that the client never saw: what its drain skipped, and what came after it. */
  ghost function Unseen(l1: Lane<StoredEnvelope>, l2: Lane<StoredEnvelope>, end: nat, c: nat, n: nat): int {
    (Max(l2.Base(), l1.Base() + c) - Max(l2.Base(), end)) + (l2.Base() + n - Max(l2.Base(), |l1.log|))
  }

  /** The loss, for every run of the command. A client has read the mail of `r` up to cursor `c`; anything
      happens; it runs `inbox --ack` from `c`, while anything but an acknowledgement by `r` happens.
      Nothing is removed if nothing is pending past the cursor. Otherwise as much is removed as was
      pending at the drain, and what that takes with it unseen is nothing if and only if the queue lost
      nothing while the command ran, and nothing since the cursor was saved or the cursor is zero. */
  lemma AckRemovesUnseen(k: Rules, s: State, ops1: seq<Op>, r: string, c: u64, ops2: seq<Op>)
    requires StateOk(k, s) && c <= |Pending(s, r)| && NoAckOf(ops2, r)
    ensures var s1 := Run(k, s, ops1);
      var s2, s3, n := Run(k, s1, ops2), InboxAck(k, s1, r, c, ops2), |Pending(s1, r)|;
      var l0, l1, l2, l3 := MailLane(s, r), MailLane(s1, r), MailLane(s2, r), MailLane(s3, r);
      if n <= c then l3 == l2 else
        && n <= |l2.Queue()| && l3.acked == l2.acked + UpTo(l2.Queue(), n) && l3.Queue() == From(l2.Queue(), n)
        && Removes(l1, l2, UpTo(l2.Queue(), n), l0.Base() + c, c, n)
        && (Unseen(l1, l2, l0.Base() + c, c, n) == 0 <==>
            l2.Base() == l1.Base() && (l1.Base() == l0.Base() || c == 0))
  {
    hide StateOk, Run, Next, NoAckOf, LaneOf, Lane.Queue, Lane.Base, Removes, Unseen, UpTo, From, LaneOk;
    var s1, n := Run(k, s, ops1), |Pending(Run(k, s, ops1), r)|;
    var s2 := Run(k, s1, ops2);
    RunOnlyGrows(k, s, ops1, r);
    RunOk(k, s, ops1);
    RunOnlyGrows(k, s1, ops2, r);
    RunOk(k, s1, ops2);
    PendingFits(k, s1, r);
    TurnGrowsQueue(k, s1, ops2, r);
    if n > c {
      AckTakes(k, s2, r, n);
      RemovedParts(MailLane(s, r), MailLane(s1, r), MailLane(s2, r), c, n);
    }
  }

  lemma TurnGrowsQueue(k: Rules, s: State, ops: seq<Op>, r: string)
    requires StateOk(k, s) && NoAckOf(ops, r)
    ensures |Pending(s, r)| <= |Pending(Run(k, s, ops), r)|
    ensures Pending(s, r) == MailLane(s, r).Queue() && Pending(Run(k, s, ops), r) == MailLane(Run(k, s, ops), r).Queue()
    ensures MailLane(s, r).Base() + |Pending(s, r)| == |MailLane(s, r).log|
    ensures var l := MailLane(Run(k, s, ops), r); l.Base() + |l.Queue()| == |l.log|
  {
    hide StateOk, LaneOf, LaneRun, Run, NoAckOf;
    LaneStarts(k, s, r);
    LanesIndependent(k, s, ops, r);
    GrowsWithoutAck(k, s.capacity, MailLane(s, r), ops, r);
  }

  lemma AckTakes(k: Rules, s: State, r: string, n: nat)
    requires StateOk(k, s) && n < U64_LIMIT && n <= |Pending(s, r)|
    ensures var l, l' := MailLane(s, r), MailLane(Next(k, s, Ack(r, n)), r);
      l'.acked == l.acked + UpTo(l.Queue(), n) && l'.Queue() == From(l.Queue(), n)
  {
    hide StateOk, Next, LaneOf, Lane.Queue;
    LaneStep(k, s, Ack(r, n), r);
    LaneStarts(k, s, r);
    AcknowledgeOk(MailLane(s, r), EnvKey(k), s.capacity, n);
    LaneIsPending(s, r);
    AckedStep(k, s, Ack(r, n), r);
    DropIsFrom(MailLane(s, r).Queue(), n);
  }

  lemma DropIsFrom<T>(q: seq<T>, n: nat)
    requires n <= |q|
    ensures q[Min(n, |q|)..] == From(q, n)
  {
  }

  lemma RemovedParts(l0: Lane<StoredEnvelope>, l1: Lane<StoredEnvelope>, l2: Lane<StoredEnvelope>, c: nat, n: nat)
    requires l0.Base() <= l1.Base() <= l2.Base() && l0.Base() + c <= |l0.log| <= |l1.log| <= |l2.log|
    requires l1.Base() + n == |l1.log| && l2.Base() + |l2.Queue()| == |l2.log| && c < n <= |l2.Queue()|
    ensures Removes(l1, l2, UpTo(l2.Queue(), n), l0.Base() + c, c, n)
    ensures Unseen(l1, l2, l0.Base() + c, c, n) == 0 <==>
            l2.Base() == l1.Base() && (l1.Base() == l0.Base() || c == 0)
  {
    hide Lane.Queue, Between, UpTo;
    var base, end := l2.Base(), l0.Base() + c;
    var seen, skipped, shown := Max(base, end), Max(base, l1.Base() + c), Max(base, |l1.log|);
    FourParts(l2.log, base, seen, skipped, shown, base + n);
    QueueHead(l2, n);
  }

  lemma QueueHead<T>(l: Lane<T>, n: nat)
    requires l.Base() + |l.Queue()| == |l.log| && n <= |l.Queue()|
    ensures UpTo(l.Queue(), n) == Between(l.log, l.Base(), l.Base() + n)
  {
    assert l.log[l.Base()..][..n] == l.log[l.Base()..l.Base() + n];
  }

  lemma TwoParts<T>(q: seq<T>, a: nat, b: nat, c: nat)
    requires a <= b <= c <= |q|
    ensures Between(q, a, c) == Between(q, a, b) + Between(q, b, c)
  {
  }

  lemma FourParts<T>(q: seq<T>, a: nat, b: nat, c: nat, d: nat, e: nat)
    requires a <= b <= c <= d <= e <= |q|
    ensures Between(q, a, e) == Between(q, a, b) + Between(q, b, c) + Between(q, c, d) + Between(q, d, e)
  {
    hide Between;
    TwoParts(q, a, d, e);
    TwoParts(q, a, c, d);
    TwoParts(q, a, b, c);
  }

  /** The smallest case: everything drained and acknowledged, the cursor saved, and more than that many new
      messages since. The next drain shows only the later ones, and its acknowledgement deletes them all;
      every one of the first `c` is deleted unseen. */
  lemma SecondAckDeletesUnseen(k: Rules, s: State, ops: seq<Op>, r: string, c: u64)
    requires StateOk(k, s) && NoAckOf(ops, r) && 0 < c == |Pending(s, r)|
    requires c < |Pending(Run(k, Next(k, s, Ack(r, c)), ops), r)|
    ensures var s2 := Run(k, Next(k, s, Ack(r, c)), ops);
      var p, s3 := Pending(s2, r), InboxAck(k, s2, r, c, []);
      && IsSuffix(p, Later(MailLane(s, r), MailLane(s2, r)))
      && Answer(k, s2, ReadFrom(r, c)) == Mail(From(p, c), |p|)
      && Pending(s3, r) == [] && MailLane(s3, r).acked == MailLane(s2, r).acked + (UpTo(p, c) + From(p, c))
      && |UpTo(p, c)| == c
  {
    hide StateOk, NoAckOf, IsSuffix, LaneOf, Run, Next, Answer;
    AckAll(k, s, r, c);
    var s1 := Next(k, s, Ack(r, c));
    SavedCursorSkips(k, s, ops, r, c);
    var s2 := Run(k, s1, ops);
    RunOk(k, s1, ops);
    PendingFits(k, s2, r);
    NothingRun(k, s2);
    AckTakes(k, s2, r, |Pending(s2, r)|);
    LaneIsPending(s2, r);
    LaneIsPending(InboxAck(k, s2, r, c, []), r);
    TakeAll(Pending(s2, r), c);
  }

  lemma NothingRun(k: Rules, s: State)
    ensures Run(k, s, []) == s
  {
  }

  lemma TakeAll<T>(q: seq<T>, c: nat)
    requires c <= |q|
    ensures UpTo(q, |q|) == q == UpTo(q, c) + From(q, c) && From(q, |q|) == [] && |UpTo(q, c)| == c
  {
  }

  // ---- pages ----

  /** One turn of a paging client: what the mailbox did since its last page, and the limit it asks for. */
  datatype Turn = Turn(between: seq<Op>, limit: u64)

  ghost function StateAfter(k: Rules, s: State, turns: seq<Turn>): State
    decreases |turns|
  {
    if turns == [] then s else Run(k, StateAfter(k, s, turns[..|turns| - 1]), turns[|turns| - 1].between)
  }

  ghost function CursorAfter(k: Rules, s: State, r: string, start: nat, turns: seq<Turn>): nat
    decreases |turns|
  {
    if turns == [] then start else
      PageEnd(Pending(StateAfter(k, s, turns), r), CursorAfter(k, s, r, start, turns[..|turns| - 1]),
              turns[|turns| - 1].limit)
  }

  /** The pages received, concatenated. */
  ghost function PagesAfter(k: Rules, s: State, r: string, start: nat, turns: seq<Turn>): seq<StoredEnvelope>
    decreases |turns|
  {
    if turns == [] then [] else
      var before := turns[..|turns| - 1];
      PagesAfter(k, s, r, start, before)
      + PageOf(Pending(StateAfter(k, s, turns), r), CursorAfter(k, s, r, start, before), turns[|turns| - 1].limit)
  }

  ghost predicate NoAckBetween(turns: seq<Turn>, r: string) {
    forall t :: t in turns ==> NoAckOf(t.between, r)
  }

  lemma {:induction false} TurnsGrow(k: Rules, s: State, turns: seq<Turn>, r: string)
    requires StateOk(k, s) && NoAckBetween(turns, r)
    ensures var s' := StateAfter(k, s, turns);
      && StateOk(k, s') && s'.capacity == s.capacity
      && MailLane(s, r).evicted <= MailLane(s', r).evicted
    decreases |turns|
  {
    if turns != [] {
      var before, t := turns[..|turns| - 1], turns[|turns| - 1];
      TurnsGrow(k, s, before, r);
      TurnGrows(k, StateAfter(k, s, before), t, r);
    }
  }

  lemma TurnGrows(k: Rules, s: State, t: Turn, r: string)
    requires StateOk(k, s) && NoAckOf(t.between, r)
    ensures var s' := Run(k, s, t.between);
      && StateOk(k, s') && s'.capacity == s.capacity
      && MailLane(s, r).evicted <= MailLane(s', r).evicted
      && (MailLane(s, r).evicted == MailLane(s', r).evicted ==> Pending(s, r) <= Pending(s', r))
  {
    hide StateOk, LaneOf, LaneRun, LaneOk, Run, NoAckOf, Lane.Queue;
    RunOk(k, s, t.between);
    LaneStarts(k, s, r);
    LanesIndependent(k, s, t.between, r);
    GrowsWithoutAck(k, s.capacity, MailLane(s, r), t.between, r);
    QueueExtends(MailLane(s, r), MailLane(Run(k, s, t.between), r), EnvKey(k), s.capacity);
  }

  lemma LaneStarts(k: Rules, s: State, r: string)
    requires StateOk(k, s)
    ensures s.capacity >= 1 && LaneOk(MailLane(s, r), EnvKey(k), s.capacity)
  {
    LaneOfOk(s.mail, EnvKey(k), s.capacity, r);
  }

  lemma QueueExtends<T>(l: Lane<T>, l': Lane<T>, key: T -> string, cap: nat)
    requires LaneOk(l, key, cap) && l.log <= l'.log && l.acked == l'.acked
    ensures l.evicted == l'.evicted ==> l.Queue() <= l'.Queue()
  {
    hide DistinctKeys, KeySet;
  }

  /** What a page is, from a cursor within the queue: what lies between that cursor and the next one, at
      most as much as was asked for, and exactly that much unless it ends the queue. */
  lemma PageWithinLimit(k: Rules, s: State, r: string, since: u64, limit: u64, es: seq<StoredEnvelope>, next: nat,
                        more: bool)
    requires Answer(k, s, ReadPage(r, since, limit)) == Page(es, next, more) && since <= |Pending(s, r)|
    ensures var q, most := Pending(s, r), if limit == 0 then 1 else limit;
      && |es| <= most && next == since + |es| <= |q| && es == q[since..next]
      && (more <==> next < |q|) && (more ==> |es| == most)
  {
    hide Pending;
  }

  /** Pages are refused only where their end is not a `usize`; past the end there is an empty one. */
  lemma PageRefused(k: Rules, s: State, r: string, since: u64, limit: u64)
    ensures var q, most := Pending(s, r), if limit == 0 then 1 else limit;
      var reply := Answer(k, s, ReadPage(r, since, limit));
      && (reply == Panicked <==> since < |q| && since + most > 0xFFFF_FFFF_FFFF_FFFF)
      && (since >= |q| ==> reply == Page([], |q|, false))
      && (reply == Panicked || reply.Page?)
  {
    hide Pending;
  }

  lemma PageExtends<T>(q0: seq<T>, q: seq<T>, start: nat, c: nat, limit: u64)
    requires q0 <= q && start <= c <= |q0|
    ensures c <= PageEnd(q, c, limit) <= |q|
    ensures q0[start..c] + PageOf(q, c, limit) == q[start..PageEnd(q, c, limit)]
  {
    var e := PageEnd(q, c, limit);
    assert q0[start..c] == q[start..c];
    assert q[start..c] + q[c..e] == q[start..e];
    assert PageOf(q, c, limit) == q[c..e];
  }

  /** Paging while mail keeps arriving: as long as nothing was acknowledged by `r` or evicted, the pages
      received are exactly the queue from the starting cursor to the current one, nothing twice and
      nothing skipped, whatever the limits; and `more` is false exactly when they reach the end. */
  lemma {:induction false} PagesCover(k: Rules, s: State, r: string, start: nat, turns: seq<Turn>)
    requires StateOk(k, s) && NoAckBetween(turns, r) && start <= |Pending(s, r)|
    requires MailLane(StateAfter(k, s, turns), r).evicted == MailLane(s, r).evicted
    ensures var q := Pending(StateAfter(k, s, turns), r);
      var c := CursorAfter(k, s, r, start, turns);
      && Pending(s, r) <= q && start <= c <= |q|
      && PagesAfter(k, s, r, start, turns) == q[start..c]
      && (c == |q| ==> PagesAfter(k, s, r, start, turns) == q[start..])
    decreases |turns|
  {
    hide StateOk, LaneOf, PageEnd, PageOf, Run, NoAckOf;
    if turns != [] {
      var before, t := turns[..|turns| - 1], turns[|turns| - 1];
      TurnsGrow(k, s, before, r);
      TurnGrows(k, StateAfter(k, s, before), t, r);
      PagesCover(k, s, r, start, before);
      PageExtends(Pending(StateAfter(k, s, before), r), Pending(StateAfter(k, s, turns), r), start,
                  CursorAfter(k, s, r, start, before), t.limit);
    }
  }

  /** Once arrivals stop, asking for pages until `more` is false ends, and yields all that was left. */
  ghost function PageUntilDone<T>(q: seq<T>, cursor: nat, limit: u64): (all: seq<T>)
    ensures all == From(q, cursor)
    decreases |q| - cursor
  {
    var end := PageEnd(q, cursor, limit);
    if end < |q| then PageOf(q, cursor, limit) + PageUntilDone(q, end, limit) else PageOf(q, cursor, limit)
  }

  // ---- receipts ----

  /** The receipts a run reported stored for `x` since `x` last collected; if it never did, after those
      there at the start. */
  ghost function DepositedFor(k: Rules, s: State, ops: seq<Op>, x: string): seq<Receipt>
    decreases |ops|
  {
    if ops == [] then ReceiptLane(s, x).Queue() else
      var before, op := ops[..|ops| - 1], ops[|ops| - 1];
      if op == CollectReceipts(x) then []
      else if op.PutReceipt? && op.sender == x && Answer(k, Run(k, s, before), op) == Deposited(Done(Stored))
      then DepositedFor(k, s, before, x) + [op.receipt]
      else DepositedFor(k, s, before, x)
  }

  ghost function Overrun(n: nat, cap: nat): nat {
    if n > cap then n - cap else 0
  }

  lemma ReceiptStep(k: Rules, s: State, op: Op, x: string)
    ensures var l, l' := ReceiptLane(s, x), ReceiptLane(Next(k, s, op), x);
      if op == CollectReceipts(x) then l'.log == [] && l'.acked == [] && l'.evicted == 0
      else if op.PutReceipt? && op.sender == x && Answer(k, s, op) == Deposited(Done(Stored))
      then l' == Append(l, s.capacity, op.receipt)
      else l' == l
  {
    hide Knows, Append, KeySet;
  }

  lemma {:induction false} ReceiptLog(k: Rules, s: State, ops: seq<Op>, x: string)
    requires StateOk(k, s) && IsStarted(s)
    ensures var l := ReceiptLane(Run(k, s, ops), x);
      && l.log == DepositedFor(k, s, ops, x)
      && l.acked == [] && l.evicted == Overrun(|l.log|, s.capacity)
    decreases |ops|
  {
    hide StateOk, IsStarted, LaneOf;
    if ops == [] {
      StartedLane(s, x);
      ReceiptsFit(k, s, x);
    } else {
      var before, op := ops[..|ops| - 1], ops[|ops| - 1];
      ReceiptLog(k, s, before, x);
      RunOk(k, s, before);
      ReceiptStep(k, Run(k, s, before), op, x);
    }
  }

  lemma ReceiptsFit(k: Rules, s: State, x: string)
    requires StateOk(k, s)
    ensures |ReceiptLane(s, x).Queue()| <= s.capacity
  {
    LaneOfOk(s.receipts, k.dedupKey, s.capacity, x);
  }

  /** Collecting returns the newest receipts stored since the last collection, in order: all of them,
      or the last `capacity` if there were more. It leaves none behind. */
  lemma CollectReturnsNewest(k: Rules, s: State, ops: seq<Op>, x: string)
    requires StateOk(k, s) && IsStarted(s)
    ensures var d := DepositedFor(k, s, ops, x);
      var s' := Run(k, s, ops);
      && Answer(k, s', CollectReceipts(x)) == Collected(d[Overrun(|d|, s.capacity)..])
      && ReceiptLane(Next(k, s', CollectReceipts(x)), x).Queue() == []
  {
    hide StateOk, IsStarted, DepositedFor, Run;
    ReceiptLog(k, s, ops, x);
  }

  lemma ReceiptDuplicate(k: Rules, s: State, x: string, receipt: Receipt)
    requires StateOk(k, s)
    ensures Knows(ReceiptLane(s, x), k.dedupKey, k.dedupKey(receipt)) <==>
            exists y :: y in ReceiptLane(s, x).Queue() && k.dedupKey(y) == k.dedupKey(receipt)
  {
    var l := ReceiptLane(s, x);
    assert l.acked == [];
    assert forall key :: key !in KeySet(l.acked, k.dedupKey);
  }

  lemma ReceiptIsLast(k: Rules, s: State, x: string, receipt: Receipt)
    requires StateOk(k, s) && Answer(k, s, Op.PutReceipt(x, receipt)) == Deposited(Done(Stored))
    ensures var q := ReceiptLane(s, x).Queue();
      ReceiptLane(Next(k, s, Op.PutReceipt(x, receipt)), x).Queue()
        == (if |q| == s.capacity then q[1..] else q) + [receipt]
  {
    LaneOfOk(s.receipts, k.dedupKey, s.capacity, x);
    AppendQueue(ReceiptLane(s, x), k.dedupKey, s.capacity, receipt);
  }

  /** Every deposit of a receipt, as for mail; but nothing is acknowledged, so only pending receipts count. */
  lemma PutReceiptExactly(k: Rules, s: State, x: string, receipt: Receipt, other: string)
    requires StateOk(k, s)
    ensures var s', reply := Next(k, s, Op.PutReceipt(x, receipt)), Answer(k, s, Op.PutReceipt(x, receipt));
      var q := ReceiptLane(s, x).Queue();
      if !k.receiptVerifies(receipt) then reply == Deposited(Refused(Unverifiable)) && s' == s
      else if x == "" then reply == Deposited(Refused(NoRecipient)) && s' == s
      else if exists y :: y in q && k.dedupKey(y) == k.dedupKey(receipt) then
        reply == Deposited(Done(Duplicate)) && s' == s
      else
        && reply == Deposited(Done(Stored))
        && ReceiptLane(s', x).Queue() == (if |q| == s.capacity then q[1..] else q) + [receipt]
        && (other != x ==> ReceiptLane(s', other).Queue() == ReceiptLane(s, other).Queue()) && s'.mail == s.mail
  {
    hide StateOk, LaneOf, Lane.Queue;
    ReceiptDuplicate(k, s, x, receipt);
    ReceiptStep(k, s, Op.PutReceipt(x, receipt), other);
    PutReceiptKeepsMail(k, s, x, receipt);
    if Answer(k, s, Op.PutReceipt(x, receipt)) == Deposited(Done(Stored)) {
      ReceiptIsLast(k, s, x, receipt);
    }
  }
}
