/** The mailbox store as the source keeps it: queues and de-dup indexes in maps, updated in place.
    The ghost field `model` is the state of the specification that they implement. */
module Mailbox {
  import opened Encoding
  import opened Envelopes
  import opened Receipts
  import opened Lanes
  import opened Store
  import opened StoreFiles

  /** One queue and its de-dup index implement one lane. The index holds the keys of queued and of
      acknowledged entries, and nothing of what was evicted. */
  ghost predicate Tracks<T>(l: Lane<T>, key: T -> string, cap: nat, q: seq<T>, ids: set<string>) {
    LaneOk(l, key, cap) && q == l.Queue() && ids == KeySet(q, key) + KeySet(l.acked, key)
  }

  ghost predicate TableOk<T>(m: map<string, Lane<T>>, key: T -> string, cap: nat,
                             queues: map<string, seq<T>>, seen: map<string, set<string>>)
  {
    m.Keys == queues.Keys == seen.Keys && forall r :: r in m ==> Tracks(m[r], key, cap, queues[r], seen[r])
  }

  function Overflow<T>(q: seq<T>, cap: nat): (n: nat)
    ensures n <= |q|
  {
    if |q| > cap then |q| - cap else 0
  }

  lemma AppendTracks<T>(l: Lane<T>, key: T -> string, cap: nat, q: seq<T>, ids: set<string>, x: T)
    requires Tracks(l, key, cap, q, ids) && cap >= 1 && key(x) !in ids
    ensures var q' := q + [x];
      var d := Overflow(q', cap);
      Tracks(Append(l, cap, x), key, cap, q'[d..], ids + {key(x)} - KeySet(q'[..d], key))
  {
    hide KeySet, DistinctKeys, Append, Lane.Queue;
    var d := Overflow(q + [x], cap);
    TracksRoom(l, key, cap, q, ids);
    AppendQueue(l, key, cap, x);
    PushKeys(q, key, x, d);
    AppendKeepsAcked(l, cap, x);
    ForgetEvicted(KeySet(q, key), KeySet(l.acked, key), key(x), KeySet((q + [x])[..d], key));
  }

  lemma TracksRoom<T>(l: Lane<T>, key: T -> string, cap: nat, q: seq<T>, ids: set<string>)
    requires Tracks(l, key, cap, q, ids)
    ensures |q| <= cap && DistinctKeys(q, key) && KeySet(q, key) !! KeySet(l.acked, key)
  {
  }

  /** Forgetting evicted keys leaves the acknowledged ones alone. */
  lemma ForgetEvicted(queued: set<string>, acked: set<string>, k: string, evicted: set<string>)
    requires queued !! acked && k !in acked && evicted <= queued + {k}
    ensures queued + acked + {k} - evicted == queued + {k} - evicted + acked
  {
  }

  lemma AppendTable<T>(m: map<string, Lane<T>>, key: T -> string, cap: nat,
                       queues: map<string, seq<T>>, seen: map<string, set<string>>,
                       r: string, x: T, q': seq<T>, ids': set<string>)
    requires TableOk(m, key, cap, queues, seen)
    requires Tracks(Append(LaneOf(m, r), cap, x), key, cap, q', ids')
    ensures TableOk(m[r := Append(LaneOf(m, r), cap, x)], key, cap, queues[r := q'], seen[r := ids'])
  {
  }

  lemma TableKeys<T>(m: map<string, Lane<T>>, key: T -> string, cap: nat,
                     queues: map<string, seq<T>>, seen: map<string, set<string>>)
    requires TableOk(m, key, cap, queues, seen)
    ensures m.Keys == queues.Keys == seen.Keys
  {
  }

  lemma AcknowledgeTable<T>(m: map<string, Lane<T>>, key: T -> string, cap: nat,
                            queues: map<string, seq<T>>, seen: map<string, set<string>>, r: string, n: nat)
    requires TableOk(m, key, cap, queues, seen) && r in queues
    ensures r in m && LaneOf(m, r) == m[r] && m[r].Queue() == queues[r]
    ensures TableOk(m[r := Acknowledge(m[r], n)], key, cap, queues[r := queues[r][Min(n, |queues[r]|)..]], seen)
  {
    AcknowledgeOk(m[r], key, cap, n);
  }

  /** The index entry of a recipient is exactly what its lane knows. */
  lemma IndexExact<T>(m: map<string, Lane<T>>, key: T -> string, cap: nat,
                      queues: map<string, seq<T>>, seen: map<string, set<string>>, r: string)
    requires TableOk(m, key, cap, queues, seen)
    ensures Tracks(LaneOf(m, r), key, cap, if r in queues then queues[r] else [], if r in seen then seen[r] else {})
  {
    if r !in m {
      LaneOfOk(m, key, cap, r);
    }
  }

  /** Forget the keys of evicted entries, so that the index stays as bounded as the queue. */
  method Forget<T>(ids: set<string>, evicted: seq<T>, key: T -> string) returns (left: set<string>)
    ensures left == ids - KeySet(evicted, key)
  {
    left := ids;
    for i := 0 to |evicted|
      invariant left == ids - KeySet(evicted[..i], key)
    {
      left := left - {key(evicted[i])};
      assert evicted[..i + 1] == evicted[..i] + [evicted[i]];
      KeySetConcat(evicted[..i], [evicted[i]], key);
      assert KeySet([evicted[i]], key) == {key(evicted[i])};
    }
    assert evicted[..|evicted|] == evicted;
  }

  /** The tail that `accept` and `put_receipt` share: index, push, and evict past capacity. */
  method PushBounded<T>(ghost l: Lane<T>, key: T -> string, cap: u64, q: seq<T>, ids: set<string>, x: T)
    returns (q': seq<T>, ids': set<string>)
    requires Tracks(l, key, cap, q, ids) && cap >= 1 && key(x) !in ids
    ensures Tracks(Append(l, cap, x), key, cap, q', ids')
  {
    AppendTracks(l, key, cap, q, ids, x);
    ids' := ids + {key(x)};
    q' := q + [x];
    if |q'| > cap {
      var overflow := |q'| - cap;
      ids' := Forget(ids', q'[..overflow], key);
      q' := q'[overflow..];
    }
  }

  /** Rebuild an index from the queues; a hash map hands out its entries in no fixed order. */
  method RebuildIndex<T>(queues: map<string, seq<T>>, key: T -> string) returns (seen: map<string, set<string>>)
    ensures seen.Keys == queues.Keys
    ensures forall r :: r in queues ==> seen[r] == KeySet(queues[r], key)
  {
    seen := map[];
    var todo := queues.Keys;
    while todo != {}
      invariant todo <= queues.Keys && seen.Keys == queues.Keys - todo
      invariant forall r :: r in seen ==> seen[r] == KeySet(queues[r], key)
      decreases todo
    {
      var r :| r in todo;
      var q, ids := queues[r], {};
      for i := 0 to |q|
        invariant ids == KeySet(q[..i], key)
      {
        ids := ids + {key(q[i])};
        assert q[..i + 1] == q[..i] + [q[i]];
        KeySetConcat(q[..i], [q[i]], key);
        assert KeySet([q[i]], key) == {key(q[i])};
      }
      assert q[..|q|] == q;
      seen := seen[r := ids];
      todo := todo - {r};
    }
  }

  lemma ReloadedTracks<T>(q: seq<T>, key: T -> string, cap: nat, ids: set<string>)
    requires |q| <= cap && DistinctKeys(q, key) && ids == KeySet(q, key)
    ensures Tracks(Reloaded(q), key, cap, q, ids)
  {
    ReloadedOk(q, key, cap);
    assert forall x :: x !in Reloaded(q).acked;
  }

  lemma ReloadTracks<T>(m: map<string, Lane<T>>, queues: map<string, seq<T>>, key: T -> string, cap: nat,
                        seen: map<string, set<string>>)
    requires QueuesOk(queues, key, cap)
    requires m.Keys == seen.Keys == queues.Keys
    requires forall r :: r in queues ==> m[r] == Reloaded(queues[r]) && seen[r] == KeySet(queues[r], key)
    ensures TableOk(m, key, cap, queues, seen)
  {
    forall r | r in m
      ensures Tracks(m[r], key, cap, queues[r], seen[r])
    {
      ReloadedTracks(queues[r], key, cap, seen[r]);
    }
  }

  class MailboxStore {
    const rules: Rules
    const selfId: NodeId
    const capacity: u64
    var queues: map<string, seq<StoredEnvelope>>
    var seen: map<string, set<string>>
    var receipts: map<string, seq<Receipt>>
    var receiptsSeen: map<string, set<string>>
    ghost var model: State

    ghost predicate Valid()
      reads this
    {
      && StateOk(rules, model)
      && capacity >= 1 && model.capacity == capacity && model.selfId == selfId
      && TableOk(model.mail, EnvKey(rules), capacity, queues, seen)
      && TableOk(model.receipts, rules.dedupKey, capacity, receipts, receiptsSeen)
    }

    constructor (rules: Rules, selfId: NodeId, capacity: u64)
      ensures Valid()
      ensures this.rules == rules && IsNew(model)
      ensures model.selfId == selfId && model.capacity == AtLeastOne(capacity)
    {
      this.rules := rules;
      this.selfId := selfId;
      this.capacity := AtLeastOne(capacity);
      queues, seen, receipts, receiptsSeen := map[], map[], map[], map[];
      model := State(selfId, AtLeastOne(capacity), map[], map[]);
    }

    method Accept(envelope: Envelope, now: u64) returns (r: Deposit)
      requires Valid()
      modifies this
      ensures Valid()
      ensures (model, r) == AcceptInto(rules, old(model), envelope, now)
    {
      if !rules.envelopeVerifies(envelope) {
        return Refused(Unverifiable);
      }
      var to := envelope.body.to;
      if to == "" {
        return Refused(NoRecipient);
      }
      var ids := if to in seen then seen[to] else {};
      IndexExact(model.mail, EnvKey(rules), capacity, queues, seen, to);
      if rules.messageId(envelope) in ids {
        return Done(Duplicate);
      }
      var q := if to in queues then queues[to] else [];
      var x := StoredEnvelope(envelope, now);
      q, ids := PushBounded(LaneOf(model.mail, to), EnvKey(rules), capacity, q, ids, x);
      DeliverOk(rules, model, envelope, now);
      AppendTable(model.mail, EnvKey(rules), capacity, queues, seen, to, x, q, ids);
      queues := queues[to := q];
      seen := seen[to := ids];
      model := model.(mail := model.mail[to := Append(LaneOf(model.mail, to), capacity, x)]);
      return Done(Stored);
    }

    method PutReceipt(sender: string, receipt: Receipt) returns (r: Deposit)
      requires Valid()
      modifies this
      ensures Valid()
      ensures (model, r) == PutReceiptInto(rules, old(model), sender, receipt)
    {
      hide StateOk, TableOk, KeySet;
      if !rules.receiptVerifies(receipt) {
        return Refused(Unverifiable);
      }
      if sender == "" {
        return Refused(NoRecipient);
      }
      var ids := if sender in receiptsSeen then receiptsSeen[sender] else {};
      IndexExact(model.receipts, rules.dedupKey, capacity, receipts, receiptsSeen, sender);
      if rules.dedupKey(receipt) in ids {
        return Done(Duplicate);
      }
      var q := if sender in receipts then receipts[sender] else [];
      q, ids := PushBounded(LaneOf(model.receipts, sender), rules.dedupKey, capacity, q, ids, receipt);
      PutReceiptOk(rules, model, sender, receipt);
      AppendTable(model.receipts, rules.dedupKey, capacity, receipts, receiptsSeen, sender, receipt, q, ids);
      receipts := receipts[sender := q];
      receiptsSeen := receiptsSeen[sender := ids];
      model := model.(receipts := model.receipts[sender := Append(LaneOf(model.receipts, sender), capacity, receipt)]);
      return Done(Stored);
    }

    method Ack(recipient: string, cursor: u64) returns (removed: nat)
      requires Valid()
      modifies this
      ensures Valid()
      ensures (model, removed) == AckIn(old(model), recipient, cursor)
    {
      hide TableOk, StateOk, LaneOk, KeySet, LaneOf;
      TableKeys(model.mail, EnvKey(rules), capacity, queues, seen);
      if recipient !in queues {
        return 0;
      }
      var q := queues[recipient];
      var n := if cursor <= |q| then cursor else |q|;
      StepOk(rules, model, Op.Ack(recipient, cursor));
      AcknowledgeTable(model.mail, EnvKey(rules), capacity, queues, seen, recipient, cursor);
      queues := queues[recipient := q[n..]];
      model := model.(mail := model.mail[recipient := Acknowledge(model.mail[recipient], cursor)]);
      return n;
    }

    method CollectReceipts(sender: string) returns (collected: seq<Receipt>)
      requires Valid()
      modifies this
      ensures Valid()
      ensures (model, collected) == CollectFrom(old(model), sender)
    {
      collected := if sender in receipts then receipts[sender] else [];
      RemoveKeepsLanes(model.receipts, rules.dedupKey, capacity, sender);
      receiptsSeen := receiptsSeen - {sender};
      receipts := receipts - {sender};
      model := model.(receipts := model.receipts - {sender});
    }

    method PendingCount(recipient: string) returns (n: nat)
      requires Valid()
      ensures n == |Pending(model, recipient)| && Count(n) == Answer(rules, model, Op.PendingCount(recipient))
    {
      n := if recipient in queues then |queues[recipient]| else 0;
    }

    method ReadFrom(recipient: string, since: u64) returns (stored: seq<StoredEnvelope>, next: nat)
      requires Valid()
      ensures var q := Pending(model, recipient);
        && stored == (if since < |q| then q[since..] else []) && next == |q|
        && Mail(stored, next) == Answer(rules, model, Op.ReadFrom(recipient, since))
    {
      if recipient !in queues {
        return [], 0;
      }
      var q := queues[recipient];
      if since < |q| {
        return q[since..], |q|;
      }
      return [], |q|;
    }

    /** `overflowChecks` is the build profile. With it the addition panics; without it the sum wraps
        and the slice panics, because a wrapped end lies before its start. */
    method ReadPage(recipient: string, since: u64, limit: u64, overflowChecks: bool) returns (reply: Reply)
      requires Valid()
      requires |Pending(model, recipient)| < U64_LIMIT
      ensures reply == Answer(rules, model, Op.ReadPage(recipient, since, limit))
      ensures var q, most := Pending(model, recipient), if limit == 0 then 1 else limit;
        reply.Page? && since <= |q| ==>
          && |reply.envelopes| <= most && reply.cursor == since + |reply.envelopes| <= |q|
          && reply.envelopes == q[since..reply.cursor]
          && (reply.more <==> reply.cursor < |q|) && (reply.more ==> |reply.envelopes| == most)
    {
      hide StateOk, TableOk, LaneOk, KeySet, LaneOf;
      IndexExact(model.mail, EnvKey(rules), capacity, queues, seen, recipient);
      var atMost := if limit < 1 then 1 else limit;
      if recipient !in queues {
        return Page([], 0, false);
      }
      var q := queues[recipient];
      if since >= |q| {
        return Page([], |q|, false);
      }
      if overflowChecks && since + atMost >= U64_LIMIT {
        return Panicked;
      }
      var sum := (since + atMost) % U64_LIMIT;
      var end := if sum <= |q| then sum else |q|;
      if end < since {
        return Panicked;
      }
      return Page(q[since..end], end, end < |q|);
    }

    /** The value that is saved: queues, capacity and id, but no index. */
    method Snapshot() returns (image: Image)
      requires Valid()
      ensures image == ImageOf(model) && Saved(image) == Answer(rules, model, Op.Snapshot)
      ensures image == Image(selfId, queues, capacity, receipts)
    {
      image := Image(selfId, queues, capacity, receipts);
      assert image.queues == ImageOf(model).queues;
      assert image.receipts == ImageOf(model).receipts;
    }

    method TryToBytes() returns (bytes: Bytes)
      requires Valid()
      ensures SizedImage(ImageOf(model)) ==> FromBytes(bytes) == Some(ImageOf(model))
    {
      hide FromBytes, SizedImage, ImageOf;
      var image := Snapshot();
      bytes := ToBytes(image);
    }

    static method Load(rules: Rules, bytes: Bytes) returns (st: Option<MailboxStore>)
      ensures st.Some? <==> FromBytes(bytes).Some?
      ensures st.Some? ==> fresh(st.value) && st.value.rules == rules
      ensures st.Some? ==> st.value.model == Reload(FromBytes(bytes).value)
      ensures st.Some? && ImageOk(rules, FromBytes(bytes).value) ==> st.value.Valid()
    {
      hide FromBytes, ImageOk, Reload, MailboxStore.Valid;
      var image := FromBytes(bytes);
      if image.None? {
        return None;
      }
      var loaded := new MailboxStore.Rebuild(rules, image.value);
      return Some(loaded);
    }

    /** Load a persisted image, rebuilding both indexes from the queues. Any image loads; the store is
        sound exactly if the image is one that this code could have saved. */
    constructor Rebuild(rules: Rules, image: Image)
      ensures this.rules == rules && selfId == image.selfId && capacity == AtLeastOne(image.capacity)
      ensures queues == image.queues && receipts == image.receipts
      ensures seen.Keys == queues.Keys && forall r :: r in queues ==> seen[r] == KeySet(queues[r], EnvKey(rules))
      ensures receiptsSeen.Keys == receipts.Keys
      ensures forall r :: r in receipts ==> receiptsSeen[r] == KeySet(receipts[r], rules.dedupKey)
      ensures model == Reload(image)
      ensures Valid() <==> ImageOk(rules, image)
    {
      this.rules := rules;
      selfId := image.selfId;
      capacity := AtLeastOne(image.capacity);
      queues, receipts := image.queues, image.receipts;
      var s := RebuildIndex(image.queues, EnvKey(rules));
      var rs := RebuildIndex(image.receipts, rules.dedupKey);
      seen, receiptsSeen := s, rs;
      model := Reload(image);
      ReloadOkIff(rules, image);
      if ImageOk(rules, image) {
        ReloadTracks(Reload(image).mail, image.queues, EnvKey(rules), AtLeastOne(image.capacity), s);
        ReloadTracks(Reload(image).receipts, image.receipts, rules.dedupKey, AtLeastOne(image.capacity), rs);
      }
      new;
      hide StateOk, TableOk, ImageOk, KeySet, Reload;
    }
  }

  /** What the specification calls pending is what is in the maps. */
  lemma FieldsArePending(st: MailboxStore, r: string)
    requires st.Valid()
    ensures Pending(st.model, r) == if r in st.queues then st.queues[r] else []
    ensures ReceiptLane(st.model, r).Queue() == if r in st.receipts then st.receipts[r] else []
  {
    hide StateOk, KeySet, DistinctKeys;
    IndexExact(st.model.mail, EnvKey(st.rules), st.capacity, st.queues, st.seen, r);
    IndexExact(st.model.receipts, st.rules.dedupKey, st.capacity, st.receipts, st.receiptsSeen, r);
  }

  /** The mail index holds the ids of pending and acknowledged messages; the receipt index those of
      pending receipts, so that one is bounded by the capacity. */
  lemma IndexSizes(st: MailboxStore, r: string)
    requires st.Valid()
    ensures var ids := if r in st.seen then st.seen[r] else {};
      ids == Index(st.rules, st.model, r)
      && |ids| == |Pending(st.model, r)| + |MailLane(st.model, r).acked|
    ensures var ids := if r in st.receiptsSeen then st.receiptsSeen[r] else {};
      |ids| == |ReceiptLane(st.model, r).Queue()| <= st.capacity
  {
    hide StateOk, TableOk, LaneOf, KeySet;
    IndexExact(st.model.mail, EnvKey(st.rules), st.capacity, st.queues, st.seen, r);
    IndexExact(st.model.receipts, st.rules.dedupKey, st.capacity, st.receipts, st.receiptsSeen, r);
    KnownCount(MailLane(st.model, r), EnvKey(st.rules), st.capacity);
    KnownCount(ReceiptLane(st.model, r), st.rules.dedupKey, st.capacity);
    ReceiptsNeverAcked(st.rules, st.model, r);
  }

  lemma ReceiptsNeverAcked(k: Rules, s: State, r: string)
    requires StateOk(k, s)
    ensures ReceiptLane(s, r).acked == []
  {
  }
}
