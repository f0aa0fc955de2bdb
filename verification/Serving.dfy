/** The serve loop: polled messages are handled in batches, and the store is written after a batch that
    may have changed it. What is on disk is compared with what is in memory, and with what a restart
    makes of it. */
module Serving {
  import opened Encoding
  import opened Envelopes
  import opened Limiting
  import opened Lanes
  import opened Store
  import opened Mailbox
  import opened Runs
  import opened Reloading
  import opened Service
  import opened ServiceRuns

  /** A polled message. `request` is what its payload decodes to, `now` and `revoked` what the clock and
      the shared revocation set say when it is handled. */
  datatype AppMessage = AppMessage(
    onMailTopic: bool,
    replyToken: Option<u64>,
    from: string,
    request: Option<MailRequest>,
    now: u64,
    revoked: Revocations
  )

  datatype Config = Config(prims: Primitives, rules: Rules, limits: Limits)

  /** Messages on other topics, without a reply token, from an unreadable sender or with an unreadable
      payload are skipped. */
  predicate IsRequest(m: AppMessage) {
    m.onMailTopic && m.replyToken.Some? && ParseNodeId(m.from).Some? && m.request.Some?
  }

  function AsEvent(m: AppMessage): Event
    requires IsRequest(m)
  {
    Event(ParseNodeId(m.from).value, m.request.value, m.now, m.revoked)
  }

  ghost function Requests(messages: seq<AppMessage>): seq<Event> {
    if messages == [] then []
    else Requests(messages[..|messages| - 1])
         + if IsRequest(messages[|messages| - 1]) then [AsEvent(messages[|messages| - 1])] else []
  }

  ghost function Tokens(messages: seq<AppMessage>): seq<u64> {
    if messages == [] then []
    else Tokens(messages[..|messages| - 1])
         + if IsRequest(messages[|messages| - 1]) then [messages[|messages| - 1].replyToken.value] else []
  }

  datatype Sent = Sent(token: u64, reply: MailReply)

  /** Where a batch stands: after a panic nothing more of it is handled. */
  datatype Progress = Progress(store: State, sent: seq<Sent>, dirty: bool, panicked: bool)

  ghost function HandleMessage(c: Config, b: Progress, m: AppMessage): Progress {
    if b.panicked || !IsRequest(m) then b else
    match HandleOutcome(c.prims, c.rules, c.limits, b.store, AsEvent(m))
    case Panic => b.(panicked := true)
    case Replied(reply) =>
      Progress(HandleNext(c.prims, c.rules, c.limits, b.store, AsEvent(m)), b.sent + [Sent(m.replyToken.value, reply)],
               b.dirty || (Mutates(AsEvent(m).request) && !reply.Error?), false)
  }

  ghost function Handled(c: Config, s: State, messages: seq<AppMessage>): Progress {
    if messages == [] then Progress(s, [], false, false)
    else HandleMessage(c, Handled(c, s, messages[..|messages| - 1]), messages[|messages| - 1])
  }

  // ---- one batch ----

  ghost predicate SomeMutated(sent: seq<Sent>, evs: seq<Event>) {
    exists i :: 0 <= i < |sent| && i < |evs| && Mutates(evs[i].request) && !sent[i].reply.Error?
  }

  lemma SomeMutatedSnoc(sent: seq<Sent>, evs: seq<Event>, x: Sent, ev: Event)
    requires |sent| <= |evs|
    ensures SomeMutated(sent, evs + [ev]) == SomeMutated(sent, evs)
    ensures |sent| == |evs| ==>
              SomeMutated(sent + [x], evs + [ev]) ==
              (SomeMutated(sent, evs) || (Mutates(ev.request) && !x.reply.Error?))
  {
    hide Mutates;
    if SomeMutated(sent, evs) {
      var i :| 0 <= i < |sent| && i < |evs| && Mutates(evs[i].request) && !sent[i].reply.Error?;
      assert (evs + [ev])[i] == evs[i] && (sent + [x])[i] == sent[i];
    }
    if SomeMutated(sent, evs + [ev]) {
      var i :| 0 <= i < |sent| && i < |evs + [ev]| && Mutates((evs + [ev])[i].request) && !sent[i].reply.Error?;
      assert (evs + [ev])[i] == evs[i];
    }
    if |sent| == |evs| {
      assert (evs + [ev])[|sent|] == ev && (sent + [x])[|sent|] == x;
    }
  }

  /** `b` answered a prefix of the requests `evs`, each as the service would, to the right token; it is
      short of all of them exactly if the next one panics, and dirty exactly if one of them was of a kind
      that can change the store and was not refused. */
  ghost predicate Answers(c: Config, s: State, b: Progress, evs: seq<Event>, tokens: seq<u64>) {
    && |b.sent| <= |evs| == |tokens|
    && b.store == ServiceRun(c.prims, c.rules, c.limits, s, evs[..|b.sent|])
    && (b.panicked <==> |b.sent| < |evs|)
    && (b.panicked ==> HandleOutcome(c.prims, c.rules, c.limits, b.store, evs[|b.sent|]) == Panic)
    && b.dirty == SomeMutated(b.sent, evs)
    && (forall i :: 0 <= i < |b.sent| ==>
          b.sent[i].token == tokens[i]
          && Replied(b.sent[i].reply) == HandleOutcome(c.prims, c.rules, c.limits,
               ServiceRun(c.prims, c.rules, c.limits, s, evs[..i]), evs[i]))
  }

  lemma AnswersSnoc(c: Config, s: State, b: Progress, evs: seq<Event>, tokens: seq<u64>, m: AppMessage)
    requires Answers(c, s, b, evs, tokens) && IsRequest(m)
    ensures Answers(c, s, HandleMessage(c, b, m), evs + [AsEvent(m)], tokens + [m.replyToken.value])
  {
    hide ParseNodeId, AsEvent, HandleOutcome, HandleNext, ServiceRun, Mutates;
    hide SomeMutated;
    var evs' := evs + [AsEvent(m)];
    forall i | 0 <= i <= |evs|
      ensures evs'[..i] == evs[..i]
    {
    }
    match HandleOutcome(c.prims, c.rules, c.limits, b.store, AsEvent(m)) {
      case Replied(reply) => SomeMutatedSnoc(b.sent, evs, Sent(m.replyToken.value, reply), AsEvent(m));
      case Panic => SomeMutatedSnoc(b.sent, evs, Sent(0, Acked(0)), AsEvent(m));
    }
    if !b.panicked {
      assert evs'[..|evs|] == evs == evs[..|b.sent|];
      RunSnoc(c, s, evs, AsEvent(m));
      assert evs'[..|evs'|] == evs';
    }
  }

  /** A batch handles its requests in order up to the first panic. */
  lemma {:induction false} BatchIsServiceRun(c: Config, s: State, messages: seq<AppMessage>)
    ensures Answers(c, s, Handled(c, s, messages), Requests(messages), Tokens(messages))
  {
    hide IsRequest, AsEvent;
    if messages == [] {
      EmptyRun(c, s);
    } else {
      hide Answers, HandleOutcome, HandleNext;
      var before, m := messages[..|messages| - 1], messages[|messages| - 1];
      BatchIsServiceRun(c, s, before);
      if IsRequest(m) {
        AnswersSnoc(c, s, Handled(c, s, before), Requests(before), Tokens(before), m);
      } else {
        assert Requests(messages) == Requests(before) && Tokens(messages) == Tokens(before);
      }
    }
  }

  /** In a batch without a panic, message by message: one that came on the mail topic with a reply token, from a
      readable sender and with a readable request is answered to its token, with what the service says to
      that request in its turn; any other is passed over. */
  lemma EachRequestAnswered(c: Config, s: State, messages: seq<AppMessage>, i: nat)
    requires i < |messages| && !Handled(c, s, messages).panicked
    ensures var before, after, m := Handled(c, s, messages[..i]), Handled(c, s, messages[..i + 1]), messages[i];
      && after.sent <= Handled(c, s, messages).sent
      && if m.onMailTopic && m.replyToken.Some? && ParseNodeId(m.from).Some? && m.request.Some? then
           var ev := Event(ParseNodeId(m.from).value, m.request.value, m.now, m.revoked);
           var out := HandleOutcome(c.prims, c.rules, c.limits, before.store, ev);
           && out.Replied? && after.sent == before.sent + [Sent(m.replyToken.value, out.reply)]
           && after.store == HandleNext(c.prims, c.rules, c.limits, before.store, ev)
         else after == before
  {
    hide ParseNodeId, HandleOutcome, HandleNext, Handled, Mutates;
    RepliesStay(c, s, messages, i + 1);
    HandledSnoc(c, s, messages, i);
  }

  lemma {:induction false} RepliesStay(c: Config, s: State, messages: seq<AppMessage>, n: nat)
    requires n <= |messages|
    ensures var b, b' := Handled(c, s, messages[..n]), Handled(c, s, messages);
      b.sent <= b'.sent && (b.panicked ==> b'.panicked)
    decreases |messages|
  {
    hide ParseNodeId, HandleOutcome, HandleNext, Handled, Mutates;
    if n == |messages| {
      assert messages[..n] == messages;
    } else {
      var last := |messages| - 1;
      RepliesStay(c, s, messages[..last], n);
      assert messages[..last][..n] == messages[..n];
      HandledSnoc(c, s, messages, last);
      assert messages[..last + 1] == messages;
    }
  }

  /** A batch of reads, or of no requests at all, changes nothing and is not written. */
  lemma {:induction false} ReadsAreNotSaved(c: Config, s: State, messages: seq<AppMessage>)
    requires forall m :: m in messages ==> m.request.None? || m.request.value.Drain? || m.request.value.DrainPage?
    ensures !Handled(c, s, messages).dirty && Handled(c, s, messages).store == s
  {
    hide ParseNodeId, HandleOutcome, HandleNext;
    if messages != [] {
      ReadsAreNotSaved(c, s, messages[..|messages| - 1]);
    }
    CleanChangedNothing(c, s, messages);
  }

  lemma EmptyRun(c: Config, s: State)
    ensures ServiceRun(c.prims, c.rules, c.limits, s, []) == s
  {
  }

  lemma RunSnoc(c: Config, s: State, evs: seq<Event>, ev: Event)
    ensures ServiceRun(c.prims, c.rules, c.limits, s, evs + [ev])
         == HandleNext(c.prims, c.rules, c.limits, ServiceRun(c.prims, c.rules, c.limits, s, evs), ev)
  {
    assert (evs + [ev])[..|evs + [ev]| - 1] == evs;
  }

  /** The dirty flag never misses a change. */
  lemma {:induction false} CleanChangedNothing(c: Config, s: State, messages: seq<AppMessage>)
    ensures !Handled(c, s, messages).dirty ==> Handled(c, s, messages).store == s
  {
    hide HandleOutcome, HandleNext;
    if messages != [] {
      var before, m := messages[..|messages| - 1], messages[|messages| - 1];
      CleanChangedNothing(c, s, before);
      if IsRequest(m) && !Handled(c, s, before).panicked && !Handled(c, s, messages).dirty {
        ErrorsAndReadsChangeNothing(c.prims, c.rules, c.limits, Handled(c, s, before).store, AsEvent(m));
      }
    }
  }

  lemma {:induction false} HandledOk(c: Config, s: State, messages: seq<AppMessage>)
    requires StateOk(c.rules, s)
    ensures StateOk(c.rules, Handled(c, s, messages).store)
  {
    hide StateOk, HandleOutcome, HandleNext;
    if messages != [] {
      var before, m := messages[..|messages| - 1], messages[|messages| - 1];
      HandledOk(c, s, before);
      if IsRequest(m) {
        HandleOk(c.prims, c.rules, c.limits, Handled(c, s, before).store, AsEvent(m));
      }
    }
  }

  // ---- the server ----

  /** One pass of the loop: the messages it gets to handle, whether a write, if one is tried, succeeds, and
      whether the process is stopped after its last reply and before the write. */
  datatype Batch = Batch(messages: seq<AppMessage>, writeOk: bool, stops: bool)

  datatype Server = Server(store: State, disk: Option<Image>, running: bool)

  ghost predicate Writes(c: Config, s: State, b: Batch) {
    Handled(c, s, b.messages).dirty && !Handled(c, s, b.messages).panicked && !b.stops && b.writeOk
  }

  ghost function ServeOne(c: Config, v: Server, b: Batch): Server {
    if !v.running then v else
      var h := Handled(c, v.store, b.messages);
      Server(h.store, if Writes(c, v.store, b) then Some(ImageOf(h.store)) else v.disk, !h.panicked && !b.stops)
  }

  ghost function Serve(c: Config, v: Server, batches: seq<Batch>): Server {
    if batches == [] then v else ServeOne(c, Serve(c, v, batches[..|batches| - 1]), batches[|batches| - 1])
  }

  /** A server that stopped or panicked does nothing any more. */
  lemma {:induction false} NothingAfterTheEnd(c: Config, v: Server, batches: seq<Batch>)
    requires !v.running
    ensures Serve(c, v, batches) == v
  {
    hide Handled;
    if batches != [] {
      NothingAfterTheEnd(c, v, batches[..|batches| - 1]);
    }
  }

  class MailboxServer {
    const svc: MailService
    const hasPath: bool
    var disk: Option<Image>
    var running: bool

    ghost predicate Valid()
      reads this, svc, svc.store
    {
      svc.Valid()
    }

    ghost function Conf(): Config {
      Config(svc.prims, svc.store.rules, svc.limits)
    }

    ghost function Now(): Server
      reads this, svc.store
    {
      Server(svc.store.model, disk, running)
    }

    /** Loads the store if there is one on disk, whoever wrote it, and starts an empty one otherwise. `disk` is
        what is at the store path; without a path it is never read. */
    constructor Start(prims: Primitives, rules: Rules, limits: Limits, selfId: NodeId, capacity: u64,
                      hasPath: bool, disk: Option<Image>)
      ensures fresh(svc) && fresh(svc.store) && running
      ensures Valid() <==> hasPath && disk.Some? ==> ImageOk(rules, disk.value)
      ensures Conf() == Config(prims, rules, limits)
      ensures this.hasPath == hasPath && this.disk == disk
      ensures if hasPath && disk.Some? then svc.store.model == Reload(disk.value)
              else IsNew(svc.store.model) && svc.store.model.selfId == selfId
                   && svc.store.model.capacity == AtLeastOne(capacity)
    {
      var store: MailboxStore;
      if hasPath && disk.Some? {
        store := new MailboxStore.Rebuild(rules, disk.value);
      } else {
        store := new MailboxStore(rules, selfId, capacity);
      }
      svc := new MailService(prims, store, limits);
      this.hasPath := hasPath;
      this.disk := disk;
      running := true;
    }

    /** Handles the requests of one batch in order and replies to each, up to a panic, which ends it all. */
    method HandleBatch(messages: seq<AppMessage>, overflowChecks: bool) returns (sent: seq<Sent>, dirty: bool)
      requires Valid() && running
      modifies `running, svc.store
      ensures Valid()
      ensures Progress(svc.store.model, sent, dirty, !running) == Handled(Conf(), old(svc.store.model), messages)
    {
      hide Handled, HandleNext, HandleOutcome, ParseNodeId;
      ghost var start := svc.store.model;
      dirty := false;
      sent := [];
      assert messages[..0] == [];
      HandledNone(Conf(), start);
      for i := 0 to |messages|
        invariant Valid() && running
        invariant Progress(svc.store.model, sent, dirty, false) == Handled(Conf(), start, messages[..i])
      {
        var m := messages[i];
        HandledSnoc(Conf(), start, messages, i);
        if IsRequest(m) {
          var ev := AsEvent(m);
          var outcome := svc.Handle(ev, overflowChecks);
          match outcome {
            case Panic =>
              PanicEnds(Conf(), start, messages, i + 1);
              PanicKeeps(Conf(), start, messages[..i], m);
              running := false;
              return;
            case Replied(reply) =>
              if Mutates(ev.request) && !reply.Error? {
                dirty := true;
              }
              sent := sent + [Sent(m.replyToken.value, reply)];
          }
        }
      }
      assert messages[..|messages|] == messages;
    }

    /** Handles one batch, then writes the store once if the batch was dirty and there is a path. */
    method ServeBatch(messages: seq<AppMessage>, writeOk: bool, stops: bool, overflowChecks: bool)
        returns (sent: seq<Sent>)
      requires Valid() && running
      modifies this, svc.store
      ensures Valid()
      ensures Now() == ServeOne(Conf(), old(Now()), Batch(messages, writeOk && hasPath, stops))
      ensures sent == Handled(Conf(), old(svc.store.model), messages).sent
    {
      hide Handled, ImageOf;
      var dirty: bool;
      sent, dirty := HandleBatch(messages, overflowChecks);
      running := running && !stops;
      if running && dirty && hasPath {
        var image := svc.store.Snapshot();
        if writeOk {
          disk := Some(image);
        }
      }
    }
  }

  lemma HandledNone(c: Config, s: State)
    ensures Handled(c, s, []) == Progress(s, [], false, false)
  {
  }

  lemma HandledSnoc(c: Config, s: State, messages: seq<AppMessage>, i: nat)
    requires i < |messages|
    ensures Handled(c, s, messages[..i + 1]) == HandleMessage(c, Handled(c, s, messages[..i]), messages[i])
  {
    hide HandleMessage;
    assert messages[..i + 1][..i] == messages[..i];
  }

  lemma {:induction false} PanicEnds(c: Config, s: State, messages: seq<AppMessage>, i: nat)
    requires i <= |messages| && Handled(c, s, messages[..i]).panicked
    ensures Handled(c, s, messages) == Handled(c, s, messages[..i])
    decreases |messages| - i
  {
    hide Handled;
    if i == |messages| {
      assert messages[..i] == messages;
    } else {
      HandledSnoc(c, s, messages, i);
      PanicEnds(c, s, messages, i + 1);
    }
  }

  lemma PanicKeeps(c: Config, s: State, before: seq<AppMessage>, m: AppMessage)
    requires IsRequest(m)
    requires HandleOutcome(c.prims, c.rules, c.limits, Handled(c, s, before).store, AsEvent(m)) == Panic
    ensures HandleNext(c.prims, c.rules, c.limits, Handled(c, s, before).store, AsEvent(m))
         == Handled(c, s, before).store
  {
    hide HandleOutcome, HandleNext, Handled;
    ErrorsAndReadsChangeNothing(c.prims, c.rules, c.limits, Handled(c, s, before).store, AsEvent(m));
  }

  // ---- what is on disk ----

  /** Either the disk holds what memory holds, or nothing has been written and nothing changed. */
  ghost predicate InSync(start: Server, v: Server) {
    v.disk == Some(ImageOf(v.store)) || (v.disk == start.disk && v.store == start.store)
  }

  /** So reads never touch the disk. */
  lemma ReadsLeaveDisk(c: Config, v: Server, b: Batch)
    requires forall m :: m in b.messages ==> m.request.None? || m.request.value.Drain? || m.request.value.DrainPage?
    ensures ServeOne(c, v, b).disk == v.disk && ServeOne(c, v, b).store == v.store
  {
    hide Handled;
    ReadsAreNotSaved(c, v.store, b.messages);
  }

  /** If every write succeeds, disk and memory agree after each batch the server survives. */
  lemma {:induction false} DiskAgrees(c: Config, start: Server, batches: seq<Batch>)
    requires forall b :: b in batches ==> b.writeOk
    ensures Serve(c, start, batches).running ==> InSync(start, Serve(c, start, batches))
  {
    hide Handled, ImageOf;
    if batches != [] {
      var before, b := batches[..|batches| - 1], batches[|batches| - 1];
      DiskAgrees(c, start, before);
      CleanChangedNothing(c, Serve(c, start, before).store, b.messages);
    }
  }

  /** What exactly the disk holds after any run, with any pattern of failing writes and panics: the
      store as it stood after the last batch that wrote it. Batches since then changed the store only
      if their write failed or the server died in them. */
  lemma {:induction false} DiskIsLastWritten(c: Config, start: Server, batches: seq<Batch>) returns (n: nat)
    ensures n <= |batches|
    ensures var v := Serve(c, start, batches[..n]);
      Serve(c, start, batches).disk == if n == 0 then start.disk else Some(ImageOf(v.store))
    ensures forall i :: n <= i < |batches| ==> Unwritten(c, Serve(c, start, batches[..i]), batches[i])
  {
    hide Serve, ServeOne, ImageOf, Unwritten, Writes;
    if batches == [] {
      n := 0;
      ServeNone(c, start);
    } else {
      var before, b := batches[..|batches| - 1], batches[|batches| - 1];
      n := DiskIsLastWritten(c, start, before);
      forall i | 0 <= i <= |before|
        ensures batches[..i] == before[..i]
      {
      }
      assert before[..|before|] == before && batches[..|batches|] == batches;
      ServeSnoc(c, start, before, b);
      assert batches == before + [b];
      WrittenOrNot(c, Serve(c, start, before), b);
      if Serve(c, start, before).running && Writes(c, Serve(c, start, before).store, b) {
        n := |batches|;
      } else {
        forall i | n <= i < |batches|
          ensures Unwritten(c, Serve(c, start, batches[..i]), batches[i])
        {
          assert i < |before| ==> before[i] == batches[i];
        }
      }
    }
  }

  lemma ServeNone(c: Config, start: Server)
    ensures Serve(c, start, []) == start
  {
  }

  lemma ServeSnoc(c: Config, start: Server, batches: seq<Batch>, b: Batch)
    ensures Serve(c, start, batches + [b]) == ServeOne(c, Serve(c, start, batches), b)
  {
    hide ServeOne;
    assert (batches + [b])[..|batches + [b]| - 1] == batches;
  }

  /** A batch that leaves the disk alone, and the store too unless its write failed or it died. */
  ghost predicate Unwritten(c: Config, v: Server, b: Batch) {
    var v' := ServeOne(c, v, b);
    v'.disk == v.disk && (v'.store == v.store || !b.writeOk || !v'.running)
  }

  lemma WrittenOrNot(c: Config, v: Server, b: Batch)
    ensures if v.running && Writes(c, v.store, b) then ServeOne(c, v, b).disk == Some(ImageOf(ServeOne(c, v, b).store))
            else Unwritten(c, v, b) && ServeOne(c, v, b).disk == v.disk
  {
    hide Handled, ImageOf;
    CleanChangedNothing(c, v.store, b.messages);
  }

  /** A failed write is not made up for: clean batches after it leave the disk behind. */
  lemma {:induction false} FailedWriteIsNotRetried(c: Config, v: Server, batches: seq<Batch>)
    requires forall i :: 0 <= i < |batches| ==> !Handled(c, v.store, batches[i].messages).dirty
    ensures Serve(c, v, batches).disk == v.disk && Serve(c, v, batches).store == v.store
  {
    hide Handled, ImageOf;
    if batches != [] {
      var before, b := batches[..|batches| - 1], batches[|batches| - 1];
      assert forall i :: 0 <= i < |before| ==> before[i] == batches[i];
      FailedWriteIsNotRetried(c, v, before);
      CleanChangedNothing(c, v.store, b.messages);
    }
  }

  lemma {:induction false} ServeOk(c: Config, v: Server, batches: seq<Batch>)
    requires StateOk(c.rules, v.store)
    ensures StateOk(c.rules, Serve(c, v, batches).store)
  {
    hide StateOk, Handled, ImageOf;
    if batches != [] {
      ServeOk(c, v, batches[..|batches| - 1]);
      HandledOk(c, Serve(c, v, batches[..|batches| - 1]).store, batches[|batches| - 1].messages);
    }
  }

  /** Restart after any run, however it ended: the loaded store answers every later sequence of
      operations as the store did after the last written batch, exactly as long as no message that had
      been acknowledged by then is delivered again. */
  lemma RestartResumes(c: Config, start: Server, batches: seq<Batch>, ops: seq<Op>) returns (n: nat)
    requires StateOk(c.rules, start.store)
    requires start.disk == None || start.disk == Some(ImageOf(start.store))
    ensures n <= |batches|
    ensures forall i :: n <= i < |batches| ==> Unwritten(c, Serve(c, start, batches[..i]), batches[i])
    ensures var v, end := Serve(c, start, batches[..n]).store, Serve(c, start, batches);
      && StateOk(c.rules, v)
      && (end.disk == None ==> n == 0)
      && (end.disk.Some? ==>
            && ImageOk(c.rules, end.disk.value)
            && (Replies(c.rules, v, ops) == Replies(c.rules, Reload(end.disk.value), ops)
                <==> NoneRedelivers(c.rules, Lost(c.rules, v), ops)))
  {
    hide StateOk, ImageOk, ImageOf, Reload, Lost, NoneRedelivers, Unwritten, ServeOne;
    n := DiskIsLastWritten(c, start, batches);
    var v := Serve(c, start, batches[..n]).store;
    ServeOk(c, start, batches[..n]);
    SavedImageOk(c.rules, v);
    ReloadFaithful(c.rules, v, ops);
  }

  ghost predicate Holds(image: Image, r: string, x: StoredEnvelope) {
    r in image.queues && x in image.queues[r]
  }

  lemma ImageHolds(s: State, r: string, x: StoredEnvelope)
    ensures Holds(ImageOf(s), r, x) <==> x in Pending(s, r)
  {
  }

  ghost predicate OnDisk(disk: Option<Image>, r: string, x: StoredEnvelope) {
    disk.Some? && Holds(disk.value, r, x)
  }

  /** For every server and every batch: a message is on disk afterwards exactly if the batch was written
      and it is still pending at its end, or the batch was not written and it was on disk before. */
  lemma OnDiskAfter(c: Config, v: Server, b: Batch, r: string, x: StoredEnvelope)
    requires v.running
    ensures var v' := ServeOne(c, v, b);
      OnDisk(v'.disk, r, x) <==> if Writes(c, v.store, b) then x in Pending(v'.store, r) else OnDisk(v.disk, r, x)
  {
    hide Handled, ImageOf, Pending, Holds;
    ImageHolds(ServeOne(c, v, b).store, r, x);
  }

  /** Request number `i` of the batch delivered new mail and was told so. */
  ghost predicate ToldDelivered(c: Config, v: Server, b: Batch, i: nat) {
    var h, evs := Handled(c, v.store, b.messages), Requests(b.messages);
    && i < |h.sent| && i < |evs|
    && evs[i].request.DeliverMail? && h.sent[i].reply == MailReply.Delivered(false)
  }

  /** An answer is no promise: mail reported as delivered is on disk after its batch exactly if neither a
      panic nor a stop kept the batch from its write, the write worked and the mail is still pending; or
      if the very same entry was on disk already. */
  lemma AnsweredIsDurableIffWritten(c: Config, v: Server, b: Batch, i: nat)
    requires v.running && ToldDelivered(c, v, b, i)
    ensures i < |Requests(b.messages)| && Requests(b.messages)[i].request.DeliverMail?
    ensures var ev, v' := Requests(b.messages)[i], ServeOne(c, v, b);
      var r, x := ev.request.envelope.body.to, StoredEnvelope(ev.request.envelope, ev.now);
      OnDisk(v'.disk, r, x) <==>
        if b.writeOk && !b.stops && !Handled(c, v.store, b.messages).panicked then x in Pending(v'.store, r)
        else OnDisk(v.disk, r, x)
  {
    hide Handled, ImageOf, Pending, Requests, OnDisk, HandleOutcome, ServiceRun;
    BatchIsServiceRun(c, v.store, b.messages);
    assert SomeMutated(Handled(c, v.store, b.messages).sent, Requests(b.messages)) by {
      assert Mutates(Requests(b.messages)[i].request);
    }
    var ev := Requests(b.messages)[i];
    OnDiskAfter(c, v, b, ev.request.envelope.body.to, StoredEnvelope(ev.request.envelope, ev.now));
  }

  /** What the batch handled after request number `i`. */
  ghost function HandledAfter(c: Config, v: Server, b: Batch, i: nat): seq<Event> {
    From(UpTo(Requests(b.messages), |Handled(c, v.store, b.messages).sent|), i + 1)
  }

  ghost function StoreAfter(c: Config, v: Server, b: Batch, i: nat): State {
    ServiceRun(c.prims, c.rules, c.limits, v.store, UpTo(Requests(b.messages), i + 1))
  }

  lemma ToldMeans(c: Config, v: Server, b: Batch, i: nat) returns (before: State)
    requires StateOk(c.rules, v.store) && v.running && ToldDelivered(c, v, b, i)
    ensures StateOk(c.rules, before) && before.capacity == v.store.capacity
    ensures HandleOutcome(c.prims, c.rules, c.limits, before, Requests(b.messages)[i])
         == Replied(MailReply.Delivered(false))
    ensures StoreAfter(c, v, b, i) == HandleNext(c.prims, c.rules, c.limits, before, Requests(b.messages)[i])
    ensures ServeOne(c, v, b).store
         == ServiceRun(c.prims, c.rules, c.limits, StoreAfter(c, v, b, i), HandledAfter(c, v, b, i))
  {
    hide StateOk, Handled, ImageOf, Requests, HandleOutcome, HandleNext, ServiceRun, SomeMutated;
    var h, evs := Handled(c, v.store, b.messages), Requests(b.messages);
    BatchIsServiceRun(c, v.store, b.messages);
    before := ServiceRun(c.prims, c.rules, c.limits, v.store, evs[..i]);
    ServiceRunOk(c.prims, c.rules, c.limits, v.store, evs[..i]);
    RunSnoc(c, v.store, evs[..i], evs[i]);
    assert evs[..i + 1] == evs[..i] + [evs[i]] && evs[..|h.sent|][..i + 1] == evs[..i + 1];
    ServiceRunSplit(c.prims, c.rules, c.limits, v.store, evs[..|h.sent|], i + 1);
    assert UpTo(evs, i + 1) == evs[..i + 1] && UpTo(evs, |h.sent|) == evs[..|h.sent|];
    assert HandledAfter(c, v, b, i) == evs[..|h.sent|][i + 1..];
  }

  /** It is still pending if, in the rest of the batch, nobody entitled to acknowledges that recipient's
      mail and less than a full queue of further mail is stored for it. */
  lemma AnsweredStaysInBatch(c: Config, v: Server, b: Batch, i: nat)
    requires StateOk(c.rules, v.store) && v.running && ToldDelivered(c, v, b, i)
    requires var r := Requests(b.messages)[i].request.envelope.body.to;
      var rest, s := HandledAfter(c, v, b, i), StoreAfter(c, v, b, i);
      && NoneAcks(c.prims, rest, r)
      && |StoredFor(c.rules, s, Admitted(c.prims, c.limits, s.selfId, rest), r)| < v.store.capacity
    ensures var ev := Requests(b.messages)[i];
      StoredEnvelope(ev.request.envelope, ev.now) in Pending(ServeOne(c, v, b).store, ev.request.envelope.body.to)
  {
    hide StateOk, Handled, ImageOf, Pending, Requests, HandleOutcome, HandleNext, ServiceRun, NoneAcks, StoredFor,
      Admitted,
      HandledAfter, StoreAfter, ServeOne;
    var before := ToldMeans(c, v, b, i);
    HandleOk(c.prims, c.rules, c.limits, before, Requests(b.messages)[i]);
    NewestDelivered(c.prims, c.rules, c.limits, before, Requests(b.messages)[i]);
    NewestSurvives(c, StoreAfter(c, v, b, i), HandledAfter(c, v, b, i),
                   Requests(b.messages)[i].request.envelope.body.to);
  }

  lemma NewestSurvives(c: Config, s: State, events: seq<Event>, r: string)
    requires StateOk(c.rules, s) && Pending(s, r) != [] && NoneAcks(c.prims, events, r)
    requires |StoredFor(c.rules, s, Admitted(c.prims, c.limits, s.selfId, events), r)| < s.capacity
    ensures Pending(s, r)[|Pending(s, r)| - 1] in Pending(ServiceRun(c.prims, c.rules, c.limits, s, events), r)
  {
    hide StateOk, ServiceRun, NoneAcks, StoredFor, Admitted, Run, LaneOf;
    var ops := Admitted(c.prims, c.limits, s.selfId, events);
    ServiceRunIsRun(c.prims, c.rules, c.limits, s, events);
    NoneAdmitted(c.prims, c.limits, s.selfId, events, r);
    NewestStays(c.rules, s, ops, r);
  }

  /** What a process starting on this disk begins with. */
  ghost predicate RestartsAs(disk: Option<Image>, s: State) {
    if disk.Some? then s == Reload(disk.value) else IsNew(s)
  }

  lemma RestartShows(disk: Option<Image>, s: State, r: string, x: StoredEnvelope)
    requires RestartsAs(disk, s)
    ensures x in Pending(s, r) <==> OnDisk(disk, r, x)
  {
    if disk.Some? {
      LoadedQueue(disk.value, r);
    } else {
      NothingPending(s, r);
    }
  }

  lemma LoadedQueue(i: Image, r: string)
    ensures Pending(Reload(i), r) == if r in i.queues then i.queues[r] else []
  {
    if r in i.queues {
      assert Reloaded(i.queues[r]).Queue() == i.queues[r];
    }
  }

  /** Two ways in which mail that was reported delivered is gone after a restart, neither of them rare: the
      write of its batch fails, or the process is stopped between its reply and that write. */
  lemma AnsweredThenLost(c: Config, v: Server, b: Batch, i: nat, restarted: State)
    requires v.running && ToldDelivered(c, v, b, i) && (b.stops || !b.writeOk)
    requires RestartsAs(ServeOne(c, v, b).disk, restarted)
    requires var ev := Requests(b.messages)[i];
      !OnDisk(v.disk, ev.request.envelope.body.to, StoredEnvelope(ev.request.envelope, ev.now))
    ensures var ev := Requests(b.messages)[i];
      StoredEnvelope(ev.request.envelope, ev.now) !in Pending(restarted, ev.request.envelope.body.to)
  {
    hide Handled, ImageOf, Pending, Requests, OnDisk, RestartsAs, ServeOne;
    AnsweredIsDurableIffWritten(c, v, b, i);
    var ev := Requests(b.messages)[i];
    var r, x := ev.request.envelope.body.to, StoredEnvelope(ev.request.envelope, ev.now);
    RestartShows(ServeOne(c, v, b).disk, restarted, r, x);
  }

  /** The smallest such input: a fresh server, and one delivery that it accepts. */
  lemma FirstMailLost(c: Config, v: Server, m: AppMessage, stops: bool, restarted: State)
    requires StateOk(c.rules, v.store) && v.running && v.disk == None
    requires IsRequest(m) && AsEvent(m).request.DeliverMail?
    requires HandleOutcome(c.prims, c.rules, c.limits, v.store, AsEvent(m)) == Replied(MailReply.Delivered(false))
    requires RestartsAs(ServeOne(c, v, Batch([m], false, stops)).disk, restarted)
    ensures Handled(c, v.store, [m]).sent == [Sent(m.replyToken.value, MailReply.Delivered(false))]
    ensures var e := AsEvent(m).request.envelope;
      && StoredEnvelope(e, m.now) in Pending(ServeOne(c, v, Batch([m], false, stops)).store, e.body.to)
      && Pending(restarted, e.body.to) == []
  {
    hide HandleOutcome, HandleNext, Pending, IsRequest, AsEvent, StateOk, ImageOf;
    OneMessage(c, v.store, m);
    var e := AsEvent(m).request.envelope;
    NewestDelivered(c.prims, c.rules, c.limits, v.store, AsEvent(m));
    NowOf(m);
    NothingPending(restarted, e.body.to);
  }

  lemma OneMessage(c: Config, s: State, m: AppMessage)
    ensures Handled(c, s, [m]) == HandleMessage(c, Progress(s, [], false, false), m)
  {
    hide HandleMessage;
    HandledSnoc(c, s, [m], 0);
    assert [m][..0] == [] && [m][..1] == [m];
    HandledNone(c, s);
  }

  lemma NowOf(m: AppMessage)
    requires IsRequest(m)
    ensures AsEvent(m).now == m.now
  {
  }

  /** The loop runs under the default limits, where no batch panics. */
  lemma NoBatchPanics(c: Config, s: State, messages: seq<AppMessage>)
    requires StateOk(c.rules, s) && c.limits == DEFAULT_LIMITS && s.capacity <= U64_LIMIT - DEFAULT_LIMITS.maxPage
    ensures !Handled(c, s, messages).panicked
  {
    hide StateOk, HandleOutcome, HandleNext, ServiceRun, ParseNodeId, DEFAULT_LIMITS;
    BatchIsServiceRun(c, s, messages);
    var b, evs := Handled(c, s, messages), Requests(messages);
    if b.panicked {
      DefaultsNeverPanic(c.prims, c.rules, s, evs[..|b.sent|], evs[|b.sent|]);
    }
  }

  /** A service set up with other limits, such as a page ceiling of zero, can panic; that would take the
      write with it, and what earlier messages of the batch were told, although writing would have worked. */
  lemma PanicDropsAnswered(c: Config, v: Server, m1: AppMessage, m2: AppMessage)
    requires v.running && ToldDelivered(c, v, Batch([m1], true, false), 0)
    requires IsRequest(m2)
    requires HandleOutcome(c.prims, c.rules, c.limits, Handled(c, v.store, [m1]).store, AsEvent(m2)) == Panic
    ensures ToldDelivered(c, v, Batch([m1, m2], true, false), 0)
    ensures !ServeOne(c, v, Batch([m1, m2], true, false)).running
    ensures ServeOne(c, v, Batch([m1, m2], true, false)).disk == v.disk
  {
    hide HandleOutcome, HandleNext, IsRequest, AsEvent, ImageOf;
    assert [m1, m2][..1] == [m1];
    HandledSnoc(c, v.store, [m1, m2], 1);
    assert [m1, m2][..2] == [m1, m2];
    var reqs := Requests([m1]);
    assert Requests([m1, m2]) == reqs + [AsEvent(m2)];
  }
}
