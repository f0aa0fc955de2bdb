/** A store that was saved and loaded again, compared with the one that was never restarted. */
module Reloading {
  import opened Encoding
  import opened Envelopes
  import opened Receipts
  import opened Lanes
  import opened Store

  /** Same queue; the restarted lane remembers the same acknowledgements except the keys `lost`. */
  ghost predicate SimLane<T>(l: Lane<T>, t: Lane<T>, key: T -> string, lost: set<string>) {
    && l.Queue() == t.Queue()
    && KeySet(l.acked, key) == KeySet(t.acked, key) + lost
    && KeySet(t.acked, key) !! lost
  }

  ghost predicate SimLanes<T>(m: map<string, Lane<T>>, n: map<string, Lane<T>>, key: T -> string,
                              lost: map<string, set<string>>)
  {
    && m.Keys == n.Keys
    && lost.Keys <= m.Keys
    && forall r :: r in m ==> SimLane(m[r], n[r], key, LostAt(lost, r))
  }

  ghost function LostAt(lost: map<string, set<string>>, r: string): set<string> {
    if r in lost then lost[r] else {}
  }

  /** The keys acknowledged before the save, per recipient. */
  ghost function AckedKeys<T>(m: map<string, Lane<T>>, key: T -> string): map<string, set<string>> {
    map r | r in m :: KeySet(m[r].acked, key)
  }

  ghost predicate Sim(k: Rules, s: State, t: State, lost: map<string, set<string>>) {
    && s.selfId == t.selfId && s.capacity == t.capacity
    && SimLanes(s.mail, t.mail, EnvKey(k), lost)
    && s.receipts.Keys == t.receipts.Keys
    && forall r :: r in s.receipts ==> s.receipts[r].Queue() == t.receipts[r].Queue()
  }

  /** Delivers a message that was acknowledged before the save. */
  ghost predicate Redelivers(k: Rules, lost: map<string, set<string>>, op: Op) {
    && op.Deliver? && k.envelopeVerifies(op.envelope) && op.envelope.body.to != ""
    && k.messageId(op.envelope) in LostAt(lost, op.envelope.body.to)
  }

  lemma ReloadedSims<T>(l: Lane<T>, key: T -> string, cap: nat)
    requires LaneOk(l, key, cap)
    ensures SimLane(l, Reloaded(l.Queue()), key, KeySet(l.acked, key))
  {
    assert Reloaded(l.Queue()).Queue() == l.Queue();
    assert forall x :: x !in Reloaded(l.Queue()).acked;
  }

  lemma ReloadedLanesSim<T>(m: map<string, Lane<T>>, n: map<string, Lane<T>>, key: T -> string, cap: nat)
    requires LanesOk(m, key, cap)
    requires n.Keys == m.Keys && forall r :: r in m ==> n[r] == Reloaded(m[r].Queue())
    ensures SimLanes(m, n, key, AckedKeys(m, key))
  {
    forall r | r in m
      ensures SimLane(m[r], n[r], key, LostAt(AckedKeys(m, key), r))
    {
      ReloadedSims(m[r], key, cap);
    }
  }

  ghost function Lost(k: Rules, s: State): map<string, set<string>> {
    AckedKeys(s.mail, EnvKey(k))
  }

  lemma ReloadStartsSim(k: Rules, s: State)
    requires StateOk(k, s)
    ensures StateOk(k, Reload(ImageOf(s)))
    ensures Sim(k, s, Reload(ImageOf(s)), Lost(k, s))
  {
    SavedImageOk(k, s);
    ReloadOk(k, ImageOf(s));
    ReloadedLanesSim(s.mail, Reload(ImageOf(s)).mail, EnvKey(k), s.capacity);
  }

  // ---- one step ----

  lemma SimKnows<T>(l: Lane<T>, t: Lane<T>, key: T -> string, lost: set<string>, x: string)
    requires SimLane(l, t, key, lost)
    ensures Knows(l, key, x) <==> Knows(t, key, x) || x in lost
  {
  }

  lemma SimAppend<T>(l: Lane<T>, t: Lane<T>, key: T -> string, lost: set<string>, cap: nat, x: T)
    requires SimLane(l, t, key, lost) && LaneOk(l, key, cap) && LaneOk(t, key, cap) && cap >= 1
    requires !Knows(l, key, key(x))
    ensures SimLane(Append(l, cap, x), Append(t, cap, x), key, lost)
  {
    SimKnows(l, t, key, lost, key(x));
    AppendQueue(l, key, cap, x);
    AppendQueue(t, key, cap, x);
  }

  lemma SimAcknowledge<T>(l: Lane<T>, t: Lane<T>, key: T -> string, lost: set<string>, cap: nat, n: nat)
    requires SimLane(l, t, key, lost) && LaneOk(l, key, cap) && LaneOk(t, key, cap)
    ensures SimLane(Acknowledge(l, n), Acknowledge(t, n), key, lost)
  {
    AcknowledgeOk(l, key, cap, n);
    AcknowledgeOk(t, key, cap, n);
    var gone := l.Queue()[..Min(n, |l.Queue()|)];
    KeySetConcat(l.acked, gone, key);
    KeySetConcat(t.acked, gone, key);
    DistinctSplit(l.Queue(), key, |gone|);
  }

  lemma SimLaneOf<T>(m: map<string, Lane<T>>, n: map<string, Lane<T>>, key: T -> string,
                     lost: map<string, set<string>>, r: string)
    requires SimLanes(m, n, key, lost)
    ensures SimLane(LaneOf(m, r), LaneOf(n, r), key, LostAt(lost, r))
  {
    if r !in m {
      assert LaneOf(m, r) == LaneOf(n, r);
      assert forall x :: x !in LaneOf(n, r).acked;
    }
  }

  lemma SimDeliver(k: Rules, s: State, t: State, lost: map<string, set<string>>, e: Envelope, now: u64)
    requires StateOk(k, s) && StateOk(k, t) && Sim(k, s, t, lost)
    requires !Redelivers(k, lost, Deliver(e, now))
    ensures AcceptInto(k, s, e, now).1 == AcceptInto(k, t, e, now).1
    ensures Sim(k, AcceptInto(k, s, e, now).0, AcceptInto(k, t, e, now).0, lost)
  {
    var r := e.body.to;
    SimLaneOf(s.mail, t.mail, EnvKey(k), lost, r);
    SimKnows(MailLane(s, r), MailLane(t, r), EnvKey(k), LostAt(lost, r), k.messageId(e));
    if AcceptInto(k, s, e, now).1 == Done(Stored) {
      var x := StoredEnvelope(e, now);
      LaneOfOk(s.mail, EnvKey(k), s.capacity, r);
      LaneOfOk(t.mail, EnvKey(k), t.capacity, r);
      SimAppend(MailLane(s, r), MailLane(t, r), EnvKey(k), LostAt(lost, r), s.capacity, x);
      SimUpdate(s.mail, t.mail, EnvKey(k), lost, r,
                Append(MailLane(s, r), s.capacity, x), Append(MailLane(t, r), s.capacity, x));
    } else {
      assert AcceptInto(k, s, e, now).0 == s && AcceptInto(k, t, e, now).0 == t;
    }
  }

  lemma SimUpdate<T>(m: map<string, Lane<T>>, n: map<string, Lane<T>>, key: T -> string,
                     lost: map<string, set<string>>, r: string, l: Lane<T>, t: Lane<T>)
    requires SimLanes(m, n, key, lost) && SimLane(l, t, key, LostAt(lost, r))
    ensures SimLanes(m[r := l], n[r := t], key, lost)
  {
  }

  /** Two lanes that remember no acknowledgement are alike as soon as their queues are. */
  lemma AppendSameQueue<T>(l: Lane<T>, m: Lane<T>, key: T -> string, cap: nat, x: T)
    requires LaneOk(l, key, cap) && LaneOk(m, key, cap) && cap >= 1
    requires l.Queue() == m.Queue() && l.acked == [] && m.acked == []
    ensures Knows(l, key, key(x)) == Knows(m, key, key(x))
    ensures !Knows(l, key, key(x)) ==> Append(l, cap, x).Queue() == Append(m, cap, x).Queue()
  {
    if !Knows(l, key, key(x)) {
      AppendQueue(l, key, cap, x);
      AppendQueue(m, key, cap, x);
    }
  }

  lemma SimPutReceipt(k: Rules, s: State, t: State, lost: map<string, set<string>>, x: string, receipt: Receipt)
    requires StateOk(k, s) && StateOk(k, t) && Sim(k, s, t, lost)
    ensures PutReceiptInto(k, s, x, receipt).1 == PutReceiptInto(k, t, x, receipt).1
    ensures Sim(k, PutReceiptInto(k, s, x, receipt).0, PutReceiptInto(k, t, x, receipt).0, lost)
  {
    LaneOfOk(s.receipts, k.dedupKey, s.capacity, x);
    LaneOfOk(t.receipts, k.dedupKey, t.capacity, x);
    AppendSameQueue(ReceiptLane(s, x), ReceiptLane(t, x), k.dedupKey, s.capacity, receipt);
  }

  lemma SimAck(k: Rules, s: State, t: State, lost: map<string, set<string>>, r: string, n: nat)
    requires StateOk(k, s) && StateOk(k, t) && Sim(k, s, t, lost)
    ensures AckIn(s, r, n).1 == AckIn(t, r, n).1
    ensures Sim(k, AckIn(s, r, n).0, AckIn(t, r, n).0, lost)
  {
    if r in s.mail {
      SimAcknowledge(s.mail[r], t.mail[r], EnvKey(k), LostAt(lost, r), s.capacity, n);
      SimUpdate(s.mail, t.mail, EnvKey(k), lost, r, Acknowledge(s.mail[r], n), Acknowledge(t.mail[r], n));
    }
  }

  lemma SimCollect(k: Rules, s: State, t: State, lost: map<string, set<string>>, x: string)
    requires Sim(k, s, t, lost)
    ensures CollectFrom(s, x).1 == CollectFrom(t, x).1
    ensures Sim(k, CollectFrom(s, x).0, CollectFrom(t, x).0, lost)
  {
    hide SimLanes;
  }

  lemma SimImage(k: Rules, s: State, t: State, lost: map<string, set<string>>)
    requires Sim(k, s, t, lost)
    ensures ImageOf(s) == ImageOf(t)
  {
    assert ImageOf(s).queues == ImageOf(t).queues;
    assert ImageOf(s).receipts == ImageOf(t).receipts;
  }

  /** An operation that redelivers nothing lost gets the same answer, and keeps the stores alike. */
  lemma SimStep(k: Rules, s: State, t: State, lost: map<string, set<string>>, op: Op)
    requires StateOk(k, s) && StateOk(k, t) && Sim(k, s, t, lost) && !Redelivers(k, lost, op)
    ensures Answer(k, s, op) == Answer(k, t, op)
    ensures Sim(k, Next(k, s, op), Next(k, t, op), lost)
  {
    hide StateOk, SimLanes, AcceptInto, AckIn, PutReceiptInto, CollectFrom, LaneOf, PageOf, PageEnd, PageOverflows,
      From;
    match op {
      case Deliver(e, now) => SimDeliver(k, s, t, lost, e, now);
      case Ack(r, cursor) => SimAck(k, s, t, lost, r, cursor);
      case PutReceipt(x, receipt) => SimPutReceipt(k, s, t, lost, x, receipt);
      case CollectReceipts(x) => SimCollect(k, s, t, lost, x);
      case ReadFrom(r, since) => SimLaneOf(s.mail, t.mail, EnvKey(k), lost, r);
      case ReadPage(r, since, limit) => SimLaneOf(s.mail, t.mail, EnvKey(k), lost, r);
      case PendingCount(r) => SimLaneOf(s.mail, t.mail, EnvKey(k), lost, r);
      case Snapshot => SimImage(k, s, t, lost);
    }
  }

  /** What is saved survives loading: a restart that handles nothing writes the same image again. */
  lemma SaveLoadSave(k: Rules, s: State)
    requires StateOk(k, s)
    ensures ImageOf(Reload(ImageOf(s))) == ImageOf(s)
  {
    ReloadStartsSim(k, s);
    SimImage(k, s, Reload(ImageOf(s)), Lost(k, s));
  }

  // ---- whole runs ----

  ghost predicate NoneRedelivers(k: Rules, lost: map<string, set<string>>, ops: seq<Op>) {
    forall op :: op in ops ==> !Redelivers(k, lost, op)
  }

  lemma {:induction false} SimRun(k: Rules, s: State, t: State, lost: map<string, set<string>>, ops: seq<Op>)
    requires StateOk(k, s) && StateOk(k, t) && Sim(k, s, t, lost) && NoneRedelivers(k, lost, ops)
    ensures Replies(k, s, ops) == Replies(k, t, ops)
    ensures Sim(k, Run(k, s, ops), Run(k, t, ops), lost)
    decreases |ops|
  {
    if ops != [] {
      var before := ops[..|ops| - 1];
      SimRun(k, s, t, lost, before);
      RunOk(k, s, before);
      RunOk(k, t, before);
      SimStep(k, Run(k, s, before), Run(k, t, before), lost, ops[|ops| - 1]);
    }
  }

  /** The first redelivery of a lost message gives the restart away: `Duplicate` before, `Stored` after. */
  lemma RedeliveryTells(k: Rules, s: State, t: State, lost: map<string, set<string>>, op: Op)
    requires StateOk(k, s) && Sim(k, s, t, lost) && Redelivers(k, lost, op)
    ensures Answer(k, s, op) == Deposited(Done(Duplicate))
    ensures Answer(k, t, op) == Deposited(Done(Stored))
  {
    var r, x := op.envelope.body.to, k.messageId(op.envelope);
    SimLaneOf(s.mail, t.mail, EnvKey(k), lost, r);
    SimKnows(MailLane(s, r), MailLane(t, r), EnvKey(k), LostAt(lost, r), x);
    LaneOfOk(s.mail, EnvKey(k), s.capacity, r);
  }

  lemma DifferAtEnd<T>(a: seq<T>, x: T, b: seq<T>, y: T)
    requires |a| == |b| && (a != b || x != y)
    ensures a + [x] != b + [y]
  {
    assert (a + [x])[..|a|] == a && (b + [y])[..|b|] == b;
    assert (a + [x])[|a|] == x && (b + [y])[|b|] == y;
  }

  lemma {:induction false} SomeRedeliveryTells(k: Rules, s: State, t: State, lost: map<string, set<string>>,
                                               ops: seq<Op>)
    requires StateOk(k, s) && StateOk(k, t) && Sim(k, s, t, lost) && !NoneRedelivers(k, lost, ops)
    ensures Replies(k, s, ops) != Replies(k, t, ops)
    decreases |ops|
  {
    hide StateOk, Sim, Redelivers, Lanes.LanesOk, Answer, Next;
    var before, op := ops[..|ops| - 1], ops[|ops| - 1];
    if NoneRedelivers(k, lost, before) {
      assert ops == before + [op];
      SimRun(k, s, t, lost, before);
      RunOk(k, s, before);
      RedeliveryTells(k, Run(k, s, before), Run(k, t, before), lost, op);
    } else {
      SomeRedeliveryTells(k, s, t, lost, before);
    }
    DifferAtEnd(Replies(k, s, before), Answer(k, Run(k, s, before), op),
                Replies(k, t, before), Answer(k, Run(k, t, before), op));
  }

  /** Save and load are invisible, for any later sequence of operations, exactly as long as none of
      them delivers again a message that had been acknowledged before the save. */
  lemma ReloadFaithful(k: Rules, s: State, ops: seq<Op>)
    requires StateOk(k, s)
    ensures Replies(k, s, ops) == Replies(k, Reload(ImageOf(s)), ops) <==> NoneRedelivers(k, Lost(k, s), ops)
    ensures NoneRedelivers(k, Lost(k, s), ops) ==>
            ImageOf(Run(k, s, ops)) == ImageOf(Run(k, Reload(ImageOf(s)), ops))
  {
    var t := Reload(ImageOf(s));
    ReloadStartsSim(k, s);
    if NoneRedelivers(k, Lost(k, s), ops) {
      SimRun(k, s, t, Lost(k, s), ops);
      SimImage(k, Run(k, s, ops), Run(k, t, ops), Lost(k, s));
    } else {
      SomeRedeliveryTells(k, s, t, Lost(k, s), ops);
    }
  }
}
