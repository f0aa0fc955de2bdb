/** The specification of a mailbox store: a map of lanes for mail, one for receipts, and what each
    operation does to them. `Mailbox.MailboxStore` is the implementation proved against it. */
module Store {
  import opened Encoding
  import opened Envelopes
  import opened Receipts
  import opened Lanes

  datatype StoredEnvelope = StoredEnvelope(envelope: Envelope, storedAt: u64)

  datatype Accepted = Stored | Duplicate

  datatype StoreError = Unverifiable | NoRecipient

  datatype Deposit = Done(outcome: Accepted) | Refused(error: StoreError)

  /** What is persisted: the queues, never the de-dup indexes. */
  datatype Image = Image(
    selfId: NodeId,
    queues: map<string, seq<StoredEnvelope>>,
    capacity: u64,
    receipts: map<string, seq<Receipt>>
  )

  datatype State = State(
    selfId: NodeId,
    capacity: u64,
    mail: map<string, Lane<StoredEnvelope>>,
    receipts: map<string, Lane<Receipt>>
  )

  /** What the store asks of an envelope or a receipt: does it verify, and what identifies it. */
  datatype Rules = Rules(
    envelopeVerifies: Envelope -> bool,
    messageId: Envelope -> string,
    receiptVerifies: Receipt -> bool,
    dedupKey: Receipt -> string
  )

  /** The rules of ce-mail. Theorems about the store hold for any rules, so for these. */
  function MailRules(p: Primitives): Rules {
    Rules((e: Envelope) => Verifies(p, e), (e: Envelope) => MessageId(p, e.body),
          (r: Receipt) => ReceiptVerifies(p, r), (r: Receipt) => DedupKey(r))
  }

  function EnvKey(k: Rules): StoredEnvelope -> string {
    (x: StoredEnvelope) => k.messageId(x.envelope)
  }

  ghost function MailLane(s: State, r: string): Lane<StoredEnvelope> {
    LaneOf(s.mail, r)
  }

  ghost function ReceiptLane(s: State, r: string): Lane<Receipt> {
    LaneOf(s.receipts, r)
  }

  ghost function Pending(s: State, r: string): seq<StoredEnvelope> {
    MailLane(s, r).Queue()
  }

  /** What the de-dup index of `r` holds: the ids of pending and of acknowledged messages. */
  ghost function Index(k: Rules, s: State, r: string): set<string> {
    KeySet(Pending(s, r), EnvKey(k)) + KeySet(MailLane(s, r).acked, EnvKey(k))
  }

  /** Receipts are never acknowledged: they leave by eviction or by collection. */
  ghost predicate NeverAcked<T>(m: map<string, Lane<T>>) {
    forall r :: r in m ==> m[r].acked == []
  }

  ghost predicate StateOk(k: Rules, s: State) {
    && s.capacity >= 1
    && LanesOk(s.mail, EnvKey(k), s.capacity)
    && LanesOk(s.receipts, k.dedupKey, s.capacity)
    && NeverAcked(s.receipts)
  }

  function AtLeastOne(n: u64): u64 {
    if n == 0 then 1 else n
  }

  /** A new mailbox: nothing stored, room for at least one entry per recipient. */
  ghost predicate IsNew(s: State) {
    s.capacity >= 1 && s.mail == map[] && s.receipts == map[]
  }

  /** A lane with nothing behind it: what it logged is what is queued. */
  ghost predicate NothingGone<T>(m: map<string, Lane<T>>) {
    forall r :: r in m ==> m[r].acked == [] && m[r].evicted == 0
  }

  /** A process has just started: with an empty mailbox, or with one it loaded. */
  ghost predicate IsStarted(s: State) {
    NothingGone(s.mail) && NothingGone(s.receipts)
  }

  // ---- the operations ----

  ghost function AcceptInto(k: Rules, s: State, e: Envelope, now: u64): (State, Deposit) {
    var to := e.body.to;
    if !k.envelopeVerifies(e) then (s, Refused(Unverifiable))
    else if to == "" then (s, Refused(NoRecipient))
    else if Knows(MailLane(s, to), EnvKey(k), k.messageId(e)) then (s, Done(Duplicate))
    else (s.(mail := s.mail[to := Append(MailLane(s, to), s.capacity, StoredEnvelope(e, now))]), Done(Stored))
  }

  ghost function PutReceiptInto(k: Rules, s: State, sender: string, r: Receipt): (State, Deposit) {
    if !k.receiptVerifies(r) then (s, Refused(Unverifiable))
    else if sender == "" then (s, Refused(NoRecipient))
    else if Knows(ReceiptLane(s, sender), k.dedupKey, k.dedupKey(r)) then (s, Done(Duplicate))
    else (s.(receipts := s.receipts[sender := Append(ReceiptLane(s, sender), s.capacity, r)]), Done(Stored))
  }

  ghost function AckIn(s: State, r: string, cursor: nat): (State, nat) {
    if r in s.mail then
      (s.(mail := s.mail[r := Acknowledge(s.mail[r], cursor)]), Min(cursor, |Pending(s, r)|))
    else
      (s, 0)
  }

  /** Collecting empties the lane: later receipts start a new log. */
  ghost function CollectFrom(s: State, sender: string): (State, seq<Receipt>) {
    (s.(receipts := s.receipts - {sender}), ReceiptLane(s, sender).Queue())
  }

  /** Everything queued from index `since` on. */
  ghost function From<T>(q: seq<T>, since: nat): seq<T> {
    if since < |q| then q[since..] else []
  }

  /** A page panics when its end index is not a `usize`. */
  ghost predicate PageOverflows<T>(q: seq<T>, since: u64, limit: u64) {
    since < |q| && since + AtLeastOne(limit) >= U64_LIMIT
  }

  ghost function PageEnd<T>(q: seq<T>, since: nat, limit: u64): nat {
    if since < |q| then Min(since + AtLeastOne(limit), |q|) else |q|
  }

  ghost function PageOf<T>(q: seq<T>, since: nat, limit: u64): seq<T> {
    if since < |q| then q[since..PageEnd(q, since, limit)] else []
  }

  ghost function ImageOf(s: State): Image {
    Image(s.selfId, map r | r in s.mail :: s.mail[r].Queue(), s.capacity,
          map r | r in s.receipts :: s.receipts[r].Queue())
  }

  ghost function Reloaded<T>(q: seq<T>): Lane<T> {
    Lane(q, [], 0)
  }

  /** Loading starts new logs from the saved queues and remembers no acknowledgement. */
  ghost function Reload(i: Image): State {
    State(i.selfId, AtLeastOne(i.capacity), map r | r in i.queues :: Reloaded(i.queues[r]),
          map r | r in i.receipts :: Reloaded(i.receipts[r]))
  }

  // ---- one step of the store ----

  datatype Op =
    | Deliver(envelope: Envelope, now: u64)
    | ReadFrom(recipient: string, since: u64)
    | ReadPage(recipient: string, since: u64, limit: u64)
    | Ack(recipient: string, cursor: u64)
    | PutReceipt(sender: string, receipt: Receipt)
    | CollectReceipts(sender: string)
    | PendingCount(recipient: string)
    | Snapshot

  datatype Reply =
    | Deposited(deposit: Deposit)
    | Mail(envelopes: seq<StoredEnvelope>, cursor: nat)
    | Page(envelopes: seq<StoredEnvelope>, cursor: nat, more: bool)
    | Removed(count: nat)
    | Collected(receipts: seq<Receipt>)
    | Count(count: nat)
    | Saved(image: Image)
    | Panicked

  ghost function Next(k: Rules, s: State, op: Op): State {
    match op
    case Deliver(e, now) => AcceptInto(k, s, e, now).0
    case Ack(r, cursor) => AckIn(s, r, cursor).0
    case PutReceipt(sender, receipt) => PutReceiptInto(k, s, sender, receipt).0
    case CollectReceipts(sender) => CollectFrom(s, sender).0
    case _ => s
  }

  ghost function Answer(k: Rules, s: State, op: Op): Reply {
    match op
    case Deliver(e, now) => Deposited(AcceptInto(k, s, e, now).1)
    case ReadFrom(r, since) => Mail(From(Pending(s, r), since), |Pending(s, r)|)
    case ReadPage(r, since, limit) =>
      var q := Pending(s, r);
      if PageOverflows(q, since, limit) then Panicked
      else Page(PageOf(q, since, limit), PageEnd(q, since, limit), PageEnd(q, since, limit) < |q|)
    case Ack(r, cursor) => Removed(AckIn(s, r, cursor).1)
    case PutReceipt(sender, receipt) => Deposited(PutReceiptInto(k, s, sender, receipt).1)
    case CollectReceipts(sender) => Collected(CollectFrom(s, sender).1)
    case PendingCount(r) => Count(|Pending(s, r)|)
    case Snapshot => Saved(ImageOf(s))
  }

  ghost function Run(k: Rules, s: State, ops: seq<Op>): State
    decreases |ops|
  {
    if ops == [] then s else Next(k, Run(k, s, ops[..|ops| - 1]), ops[|ops| - 1])
  }

  /** The reply to each operation of a run, in order. */
  ghost function Replies(k: Rules, s: State, ops: seq<Op>): (rs: seq<Reply>)
    ensures |rs| == |ops|
    decreases |ops|
  {
    if ops == [] then []
    else Replies(k, s, ops[..|ops| - 1]) + [Answer(k, Run(k, s, ops[..|ops| - 1]), ops[|ops| - 1])]
  }

  lemma NewOk(k: Rules, s: State)
    requires IsNew(s)
    ensures StateOk(k, s)
  {
  }

  lemma NewIsStarted(s: State)
    requires IsNew(s)
    ensures IsStarted(s)
  {
  }

  lemma LoadedIsStarted(i: Image)
    ensures IsStarted(Reload(i))
  {
  }

  lemma StartedLane(s: State, r: string)
    requires IsStarted(s)
    ensures var l := MailLane(s, r); l.acked == [] && l.evicted == 0 && l.log == Pending(s, r)
    ensures var l := ReceiptLane(s, r); l.acked == [] && l.evicted == 0 && l.log == l.Queue()
  {
    WholeLog(MailLane(s, r));
    WholeLog(ReceiptLane(s, r));
  }

  lemma WholeLog<T>(l: Lane<T>)
    requires l.acked == [] && l.evicted == 0
    ensures l.log == l.Queue()
  {
  }

  /** Loading what was saved gives back every queue. */
  lemma ReloadKeepsPending(s: State, r: string)
    ensures Pending(Reload(ImageOf(s)), r) == Pending(s, r)
  {
    if r in s.mail {
      WholeLog(Reloaded(s.mail[r].Queue()));
    }
  }

  lemma DeliverOk(k: Rules, s: State, e: Envelope, now: u64)
    requires StateOk(k, s)
    ensures StateOk(k, AcceptInto(k, s, e, now).0)
  {
    var (s', d) := AcceptInto(k, s, e, now);
    if d == Done(Stored) {
      var x := StoredEnvelope(e, now);
      AppendKeepsLanes(s.mail, EnvKey(k), s.capacity, e.body.to, x);
      assert s'.mail == s.mail[e.body.to := Append(LaneOf(s.mail, e.body.to), s.capacity, x)];
      assert LanesOk(s'.mail, EnvKey(k), s'.capacity);
    } else {
      assert s' == s;
    }
  }

  lemma PutReceiptOk(k: Rules, s: State, sender: string, receipt: Receipt)
    requires StateOk(k, s)
    ensures StateOk(k, PutReceiptInto(k, s, sender, receipt).0)
  {
    var (s', d) := PutReceiptInto(k, s, sender, receipt);
    if d == Done(Stored) {
      AppendKeepsLanes(s.receipts, k.dedupKey, s.capacity, sender, receipt);
      assert s'.receipts == s.receipts[sender := Append(LaneOf(s.receipts, sender), s.capacity, receipt)];
      assert LanesOk(s'.receipts, k.dedupKey, s'.capacity);
    } else {
      assert s' == s;
    }
  }

  /** Every operation keeps the invariant of every lane. */
  lemma StepOk(k: Rules, s: State, op: Op)
    requires StateOk(k, s)
    ensures StateOk(k, Next(k, s, op))
    ensures Next(k, s, op).capacity == s.capacity && Next(k, s, op).selfId == s.selfId
  {
    match op {
      case Deliver(e, now) => DeliverOk(k, s, e, now);
      case Ack(r, cursor) =>
        if r in s.mail {
          AcknowledgeKeepsLanes(s.mail, EnvKey(k), s.capacity, r, cursor);
        }
      case PutReceipt(sender, receipt) => PutReceiptOk(k, s, sender, receipt);
      case CollectReceipts(sender) =>
        RemoveKeepsLanes(s.receipts, k.dedupKey, s.capacity, sender);
      case _ =>
    }
  }

  lemma {:induction false} RunOk(k: Rules, s: State, ops: seq<Op>)
    requires StateOk(k, s)
    ensures StateOk(k, Run(k, s, ops))
    ensures Run(k, s, ops).capacity == s.capacity && Run(k, s, ops).selfId == s.selfId
    decreases |ops|
  {
    if ops != [] {
      RunOk(k, s, ops[..|ops| - 1]);
      StepOk(k, Run(k, s, ops[..|ops| - 1]), ops[|ops| - 1]);
    }
  }

  // ---- persisted images ----

  ghost predicate QueuesOk<T>(queues: map<string, seq<T>>, key: T -> string, cap: nat) {
    forall r :: r in queues ==> |queues[r]| <= cap && DistinctKeys(queues[r], key)
  }

  /** What holds of every image this code writes. */
  ghost predicate ImageOk(k: Rules, i: Image) {
    QueuesOk(i.queues, EnvKey(k), AtLeastOne(i.capacity)) && QueuesOk(i.receipts, k.dedupKey, AtLeastOne(i.capacity))
  }

  lemma SavedImageOk(k: Rules, s: State)
    requires StateOk(k, s)
    ensures ImageOk(k, ImageOf(s))
  {
    forall r | r in s.mail
      ensures |s.mail[r].Queue()| <= s.capacity && DistinctKeys(s.mail[r].Queue(), EnvKey(k))
    {
      assert LaneOk(s.mail[r], EnvKey(k), s.capacity);
    }
    forall r | r in s.receipts
      ensures |s.receipts[r].Queue()| <= s.capacity && DistinctKeys(s.receipts[r].Queue(), k.dedupKey)
    {
      assert LaneOk(s.receipts[r], k.dedupKey, s.capacity);
    }
  }

  lemma ReloadedOk<T>(q: seq<T>, key: T -> string, cap: nat)
    requires |q| <= cap && DistinctKeys(q, key)
    ensures LaneOk(Reloaded(q), key, cap) && Reloaded(q).Queue() == q
  {
    assert Reloaded(q).Queue() == q;
  }

  lemma ReloadedLanesOk<T>(queues: map<string, seq<T>>, key: T -> string, cap: nat)
    requires QueuesOk(queues, key, cap)
    ensures LanesOk(map r | r in queues :: Reloaded(queues[r]), key, cap)
  {
    forall r | r in queues
      ensures LaneOk(Reloaded(queues[r]), key, cap)
    {
      ReloadedOk(queues[r], key, cap);
    }
  }

  lemma LanesOkOnlyIf<T>(queues: map<string, seq<T>>, key: T -> string, cap: nat)
    requires LanesOk(map r | r in queues :: Reloaded(queues[r]), key, cap)
    ensures QueuesOk(queues, key, cap)
  {
    var m := map r | r in queues :: Reloaded(queues[r]);
    forall r | r in queues
      ensures |queues[r]| <= cap && DistinctKeys(queues[r], key)
    {
      assert LaneOk(m[r], key, cap) && m[r].Queue() == queues[r];
    }
  }

  /** What loads as a sound store is exactly what this code could have saved. */
  lemma ReloadOkIff(k: Rules, i: Image)
    ensures StateOk(k, Reload(i)) <==> ImageOk(k, i)
  {
    hide QueuesOk, LanesOk;
    if ImageOk(k, i) {
      ReloadOk(k, i);
    }
    if StateOk(k, Reload(i)) {
      LanesOkOnlyIf(i.queues, EnvKey(k), AtLeastOne(i.capacity));
      LanesOkOnlyIf(i.receipts, k.dedupKey, AtLeastOne(i.capacity));
    }
  }

  lemma ReloadOk(k: Rules, i: Image)
    requires ImageOk(k, i)
    ensures StateOk(k, Reload(i))
  {
    ReloadedLanesOk(i.queues, EnvKey(k), AtLeastOne(i.capacity));
    ReloadedLanesOk(i.receipts, k.dedupKey, AtLeastOne(i.capacity));
  }
}
