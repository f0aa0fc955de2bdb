/** `SharedMailbox`: any number of threads share one store behind a mutex. A schedule is any sequence of
    thread numbers; each turn lets that thread take its next step if it can. A store operation is not
    one step: a thread reads the store, and later writes back what it made of what it read. Only the
    lock keeps another thread from writing in between; the same threads without it lose updates. */
module SharedStore {
  import opened Encoding
  import opened Envelopes
  import opened Lanes
  import opened Store
  import opened Runs

  // ---- the sequential object ----

  /** A panic while the lock is held poisons it for good. */
  datatype Guarded = Guarded(store: State, poisoned: bool)

  datatype Result = Ran(reply: Reply) | LockPoisoned

  ghost function GuardedNext(k: Rules, g: Guarded, op: Op): Guarded {
    if g.poisoned then g else Guarded(Next(k, g.store, op), Answer(k, g.store, op) == Panicked)
  }

  ghost function GuardedAnswer(k: Rules, g: Guarded, op: Op): Result {
    if g.poisoned then LockPoisoned else Ran(Answer(k, g.store, op))
  }

  // ---- the threads ----

  /** Where a thread is inside `with`. `at` is the number of operations performed when it called, `seen`
      the store it has read and not yet written back. */
  datatype Phase =
    | Idle
    | Waiting(op: Op, at: nat)
    | Holding(op: Op, at: nat)
    | Loaded(op: Op, at: nat, seen: Guarded)
    | Leaving(op: Op, at: nat, index: nat, result: Result)

  /** A completed call: it took effect as operation number `index` of the history, between the lengths
      the history had when the call was made and when it returned. */
  datatype Response = Response(op: Op, result: Result, at: nat, index: nat, returned: nat)

  datatype Thread = Thread(todo: seq<Op>, phase: Phase, responses: seq<Response>)

  datatype Entry = Entry(thread: nat, op: Op, result: Result)

  datatype Lock = Free | HeldBy(thread: nat)

  datatype System = System(guarded: Guarded, lock: Lock, threads: seq<Thread>, history: seq<Entry>)

  /** The next step of thread `t`: call, acquire, read, write back or release. A blocked thread stays put.
      With `locked` false the threads do the same without taking the lock. */
  ghost function Step(k: Rules, locked: bool, s: System, t: nat): System {
    if t >= |s.threads| then s else
      var th := s.threads[t];
      match th.phase
      case Idle =>
        if th.todo == [] then s
        else s.(threads := s.threads[t := th.(todo := th.todo[1..], phase := Waiting(th.todo[0], |s.history|))])
      case Waiting(op, at) =>
        if locked && s.lock != Free then s
        else s.(lock := if locked then HeldBy(t) else s.lock, threads := s.threads[t := th.(phase := Holding(op, at))])
      case Holding(op, at) => s.(threads := s.threads[t := th.(phase := Loaded(op, at, s.guarded))])
      case Loaded(op, at, seen) =>
        var result := GuardedAnswer(k, seen, op);
        System(GuardedNext(k, seen, op), s.lock,
               s.threads[t := th.(phase := Leaving(op, at, |s.history|, result))],
               s.history + [Entry(t, op, result)])
      case Leaving(op, at, index, result) =>
        s.(lock := if locked then Free else s.lock,
           threads := s.threads[t := th.(phase := Idle,
                                         responses := th.responses + [Response(op, result, at, index, |s.history|)])])
  }

  ghost function Interleave(k: Rules, locked: bool, s: System, schedule: seq<nat>): System
    decreases |schedule|
  {
    if schedule == [] then s
    else Step(k, locked, Interleave(k, locked, s, schedule[..|schedule| - 1]), schedule[|schedule| - 1])
  }

  // ---- the invariant ----

  ghost function OpsIn(h: seq<Entry>): (ops: seq<Op>)
    ensures |ops| == |h|
  {
    if h == [] then [] else OpsIn(h[..|h| - 1]) + [h[|h| - 1].op]
  }

  /** The operations of one thread, in the order of the history. */
  ghost function OpsOf(h: seq<Entry>, t: nat): seq<Op> {
    if h == [] then []
    else OpsOf(h[..|h| - 1], t) + (if h[|h| - 1].thread == t then [h[|h| - 1].op] else [])
  }

  ghost function Replay(k: Rules, g: Guarded, h: seq<Entry>): Guarded {
    if h == [] then g else GuardedNext(k, Replay(k, g, h[..|h| - 1]), h[|h| - 1].op)
  }

  /** The history is a sequential execution: each result is what the operation answers in its turn. */
  ghost predicate Sequential(k: Rules, g: Guarded, h: seq<Entry>) {
    h != [] ==>
      && Sequential(k, g, h[..|h| - 1])
      && h[|h| - 1].result == GuardedAnswer(k, Replay(k, g, h[..|h| - 1]), h[|h| - 1].op)
  }

  ghost predicate TookEffect(h: seq<Entry>, t: nat, op: Op, result: Result, at: nat, index: nat) {
    at <= index < |h| && h[index] == Entry(t, op, result)
  }

  ghost predicate PhaseOk(h: seq<Entry>, t: nat, phase: Phase) {
    match phase
    case Idle => true
    case Waiting(op, at) => at <= |h|
    case Holding(op, at) => at <= |h|
    case Loaded(op, at, seen) => at <= |h|
    case Leaving(op, at, index, result) => TookEffect(h, t, op, result, at, index)
  }

  ghost predicate ResponseOk(h: seq<Entry>, t: nat, r: Response) {
    TookEffect(h, t, r.op, r.result, r.at, r.index) && r.index < r.returned <= |h|
  }

  ghost function Pending(phase: Phase): seq<Op> {
    if phase.Waiting? || phase.Holding? || phase.Loaded? then [phase.op] else []
  }

  /** `program` is what the thread was given to do: what it did, what it is about to do, what is left. */
  ghost predicate ThreadOk(h: seq<Entry>, t: nat, program: seq<Op>, th: Thread) {
    && program == OpsOf(h, t) + Pending(th.phase) + th.todo
    && PhaseOk(h, t, th.phase)
    && forall r :: r in th.responses ==> ResponseOk(h, t, r)
  }

  ghost predicate HasLock(th: Thread) {
    th.phase.Holding? || th.phase.Loaded? || th.phase.Leaving?
  }

  /** Mutual exclusion, and what it is for: nobody writes between a thread's read and its write. */
  ghost predicate Inv(k: Rules, g: Guarded, programs: seq<seq<Op>>, s: System) {
    && |s.threads| == |programs|
    && s.guarded == Replay(k, g, s.history) && Sequential(k, g, s.history)
    && (forall t: nat :: t < |s.threads| ==> ThreadOk(s.history, t, programs[t], s.threads[t]))
    && (forall t: nat :: t < |s.threads| ==> (HasLock(s.threads[t]) <==> s.lock == HeldBy(t)))
    && (s.lock.HeldBy? ==> s.lock.thread < |s.threads|)
    && (forall t: nat :: t < |s.threads| && s.threads[t].phase.Loaded? ==> s.threads[t].phase.seen == s.guarded)
  }

  /** Nothing has happened yet: every thread is idle with its whole program before it. */
  ghost predicate Initial(s: System, g: Guarded, programs: seq<seq<Op>>) {
    && s.guarded == g && s.lock == Free && s.history == [] && |s.threads| == |programs|
    && forall t :: 0 <= t < |programs| ==> s.threads[t] == Thread(programs[t], Idle, [])
  }

  lemma OthersUnmoved(h: seq<Entry>, e: Entry, t: nat, program: seq<Op>, th: Thread)
    requires ThreadOk(h, t, program, th) && e.thread != t
    ensures ThreadOk(h + [e], t, program, th)
  {
    hide OpsOf;
    OpsOfSnoc(h, e, t);
    assert OpsOf(h, t) + [] == OpsOf(h, t);
  }

  lemma OpsOfSnoc(h: seq<Entry>, e: Entry, t: nat)
    ensures OpsOf(h + [e], t) == OpsOf(h, t) + (if e.thread == t then [e.op] else [])
  {
    assert (h + [e])[..|h + [e]| - 1] == h;
  }

  lemma HistorySnoc(k: Rules, g: Guarded, h: seq<Entry>, e: Entry)
    requires Sequential(k, g, h) && e.result == GuardedAnswer(k, Replay(k, g, h), e.op)
    ensures Sequential(k, g, h + [e]) && Replay(k, g, h + [e]) == GuardedNext(k, Replay(k, g, h), e.op)
  {
    assert (h + [e])[..|h + [e]| - 1] == h;
  }

  lemma CallKeeps(h: seq<Entry>, t: nat, program: seq<Op>, th: Thread)
    requires ThreadOk(h, t, program, th) && th.phase == Idle && th.todo != []
    ensures ThreadOk(h, t, program, th.(todo := th.todo[1..], phase := Waiting(th.todo[0], |h|)))
  {
    hide OpsOf, ResponseOk;
    assert th.todo == [th.todo[0]] + th.todo[1..];
  }

  lemma OperateKeeps(h: seq<Entry>, t: nat, program: seq<Op>, th: Thread, result: Result)
    requires ThreadOk(h, t, program, th) && th.phase.Loaded?
    ensures ThreadOk(h + [Entry(t, th.phase.op, result)], t, program,
                     th.(phase := Leaving(th.phase.op, th.phase.at, |h|, result)))
  {
    hide OpsOf;
    OpsOfSnoc(h, Entry(t, th.phase.op, result), t);
  }

  lemma ReleaseKeeps(h: seq<Entry>, t: nat, program: seq<Op>, th: Thread)
    requires ThreadOk(h, t, program, th) && th.phase.Leaving?
    ensures ThreadOk(h, t, program, th.(phase := Idle,
              responses := th.responses + [Response(th.phase.op, th.phase.result, th.phase.at, th.phase.index, |h|)]))
  {
    hide OpsOf;
  }

  lemma OperateStep(k: Rules, g: Guarded, programs: seq<seq<Op>>, s: System, t: nat)
    requires Inv(k, g, programs, s) && t < |s.threads| && s.threads[t].phase.Loaded?
    ensures Inv(k, g, programs, Step(k, true, s, t))
  {
    hide ThreadOk, Sequential, Replay, GuardedNext, GuardedAnswer;
    var th := s.threads[t];
    var e := Entry(t, th.phase.op, GuardedAnswer(k, s.guarded, th.phase.op));
    HistorySnoc(k, g, s.history, e);
    OperateKeeps(s.history, t, programs[t], th, e.result);
    forall u: nat | u < |s.threads| && u != t
      ensures ThreadOk(s.history + [e], u, programs[u], s.threads[u])
    {
      OthersUnmoved(s.history, e, u, programs[u], s.threads[u]);
    }
  }

  /** Every step of every thread keeps the invariant. */
  lemma StepKeeps(k: Rules, g: Guarded, programs: seq<seq<Op>>, s: System, t: nat)
    requires Inv(k, g, programs, s)
    ensures Inv(k, g, programs, Step(k, true, s, t))
  {
    if t < |s.threads| {
      var th := s.threads[t];
      if th.phase.Loaded? {
        OperateStep(k, g, programs, s, t);
      } else {
        QuietStep(k, g, programs, s, t);
      }
    }
  }

  lemma QuietStep(k: Rules, g: Guarded, programs: seq<seq<Op>>, s: System, t: nat)
    requires Inv(k, g, programs, s) && t < |s.threads| && !s.threads[t].phase.Loaded?
    ensures Inv(k, g, programs, Step(k, true, s, t))
  {
    hide Sequential, Replay, OpsOf, ResponseOk;
    var th := s.threads[t];
    match th.phase {
      case Idle =>
        if th.todo != [] {
          CallKeeps(s.history, t, programs[t], th);
        }
      case Waiting(op, at) =>
      case Holding(op, at) =>
      case Leaving(op, at, index, result) =>
        ReleaseKeeps(s.history, t, programs[t], th);
    }
  }

  lemma {:induction false} InterleaveKeeps(k: Rules, g: Guarded, programs: seq<seq<Op>>, s: System, schedule: seq<nat>)
    requires Initial(s, g, programs)
    ensures Inv(k, g, programs, Interleave(k, true, s, schedule))
    decreases |schedule|
  {
    if schedule == [] {
      forall t: nat | t < |programs|
        ensures ThreadOk(s.history, t, programs[t], s.threads[t])
      {
        assert OpsOf([], t) + Pending(Idle) + programs[t] == programs[t];
      }
    } else {
      InterleaveKeeps(k, g, programs, s, schedule[..|schedule| - 1]);
      StepKeeps(k, g, programs, Interleave(k, true, s, schedule[..|schedule| - 1]), schedule[|schedule| - 1]);
    }
  }

  // ---- linearizability ----

  /** For every schedule: the history is a sequential execution of the store, every completed call got
      the result its operation has there, and took effect between its call and its return. */
  lemma Linearizable(k: Rules, g: Guarded, programs: seq<seq<Op>>, s: System, schedule: seq<nat>)
    requires Initial(s, g, programs)
    ensures var e := Interleave(k, true, s, schedule);
      && Sequential(k, g, e.history) && e.guarded == Replay(k, g, e.history)
      && forall t: nat, r :: t < |e.threads| && r in e.threads[t].responses ==> ResponseOk(e.history, t, r)
  {
    InterleaveKeeps(k, g, programs, s, schedule);
  }

  /** Calls that do not overlap take effect in real-time order. */
  lemma RealTimeOrder(k: Rules, g: Guarded, programs: seq<seq<Op>>, s: System, schedule: seq<nat>,
                      t: nat, r: Response, u: nat, q: Response)
    requires Initial(s, g, programs)
    requires var e := Interleave(k, true, s, schedule);
      t < |e.threads| && u < |e.threads| && r in e.threads[t].responses && q in e.threads[u].responses
    requires r.returned <= q.at
    ensures r.index < q.index
  {
    InterleaveKeeps(k, g, programs, s, schedule);
  }

  ghost predicate Finished(s: System) {
    forall t :: 0 <= t < |s.threads| ==> s.threads[t].phase == Idle && s.threads[t].todo == []
  }

  /** When all threads are done no operation was lost, duplicated or reordered within its thread. */
  lemma AllOperationsOnce(k: Rules, g: Guarded, programs: seq<seq<Op>>, s: System, schedule: seq<nat>)
    requires Initial(s, g, programs) && Finished(Interleave(k, true, s, schedule))
    ensures forall t: nat :: t < |programs| ==> OpsOf(Interleave(k, true, s, schedule).history, t) == programs[t]
  {
    InterleaveKeeps(k, g, programs, s, schedule);
    var e := Interleave(k, true, s, schedule);
    forall t: nat | t < |programs|
      ensures OpsOf(e.history, t) == programs[t]
    {
      assert ThreadOk(e.history, t, programs[t], e.threads[t]);
    }
  }

  /** As long as the lock was not poisoned, the store is that of the sequential run. */
  lemma {:induction false} ReplayIsRun(k: Rules, g: Guarded, h: seq<Entry>)
    requires !Replay(k, g, h).poisoned
    ensures !g.poisoned && Replay(k, g, h).store == Run(k, g.store, OpsIn(h))
    decreases |h|
  {
    if h != [] {
      ReplayIsRun(k, g, h[..|h| - 1]);
      assert OpsIn(h)[..|h| - 1] == OpsIn(h[..|h| - 1]);
    }
  }

  /** And the results are those the store gives when the operations of the history are run one by one. */
  lemma ResultsAreReplies(k: Rules, g: Guarded, programs: seq<seq<Op>>, s: System, schedule: seq<nat>, i: nat)
    requires Initial(s, g, programs) && !Interleave(k, true, s, schedule).guarded.poisoned
    requires i < |Interleave(k, true, s, schedule).history|
    ensures var h := Interleave(k, true, s, schedule).history;
      h[i].result == Ran(Answer(k, Run(k, g.store, OpsIn(h)[..i]), h[i].op))
  {
    hide ThreadOk;
    InterleaveKeeps(k, g, programs, s, schedule);
    SequentialReplies(k, g, Interleave(k, true, s, schedule).history, i);
  }

  lemma {:induction false} SequentialReplies(k: Rules, g: Guarded, h: seq<Entry>, i: nat)
    requires Sequential(k, g, h) && !Replay(k, g, h).poisoned && i < |h|
    ensures h[i].result == Ran(Answer(k, Run(k, g.store, OpsIn(h)[..i]), h[i].op))
    decreases |h|
  {
    hide Next, Answer;
    var before := h[..|h| - 1];
    ReplayIsRun(k, g, before);
    assert OpsIn(h)[..|h| - 1] == OpsIn(before);
    if i < |before| {
      SequentialReplies(k, g, before, i);
      assert OpsIn(h)[..i] == OpsIn(before)[..i];
    }
  }

  // ---- every call is answered ----

  ghost function Answered(rs: seq<Response>): (ops: seq<Op>)
    ensures |ops| == |rs| && forall i :: 0 <= i < |rs| ==> ops[i] == rs[i].op
  {
    seq(|rs|, i requires 0 <= i < |rs| => rs[i].op)
  }

  ghost function InFlight(phase: Phase): seq<Op> {
    if phase.Idle? then [] else [phase.op]
  }

  /** What a thread was told so far, what it is waiting for, and what is left make up its program. */
  ghost predicate Told(program: seq<Op>, th: Thread) {
    program == Answered(th.responses) + InFlight(th.phase) + th.todo
  }

  lemma StepTells(k: Rules, locked: bool, programs: seq<seq<Op>>, s: System, t: nat)
    requires |s.threads| == |programs| && forall u: nat :: u < |programs| ==> Told(programs[u], s.threads[u])
    ensures var e := Step(k, locked, s, t);
      |e.threads| == |programs| && forall u: nat :: u < |programs| ==> Told(programs[u], e.threads[u])
  {
    hide GuardedNext, GuardedAnswer;
    if t < |s.threads| {
      var th := s.threads[t];
      assert Told(programs[t], th);
      match th.phase {
        case Idle =>
          if th.todo != [] {
            assert th.todo == [th.todo[0]] + th.todo[1..];
          }
        case Leaving(op, at, index, result) =>
          var r := Response(op, result, at, index, |s.history|);
          assert Answered(th.responses + [r]) == Answered(th.responses) + [op];
        case _ =>
      }
    }
  }

  lemma {:induction false} InterleaveTells(k: Rules, locked: bool, programs: seq<seq<Op>>, s: System,
                                           schedule: seq<nat>)
    requires |s.threads| == |programs| && forall u: nat :: u < |programs| ==> Told(programs[u], s.threads[u])
    ensures var e := Interleave(k, locked, s, schedule);
      |e.threads| == |programs| && forall u: nat :: u < |programs| ==> Told(programs[u], e.threads[u])
    decreases |schedule|
  {
    hide Step, Told;
    if schedule != [] {
      InterleaveTells(k, locked, programs, s, schedule[..|schedule| - 1]);
      StepTells(k, locked, programs, Interleave(k, locked, s, schedule[..|schedule| - 1]), schedule[|schedule| - 1]);
    }
  }

  /** When all threads are done each was answered once for every operation of its program, in its order. */
  lemma EveryCallAnswered(k: Rules, g: Guarded, programs: seq<seq<Op>>, s: System, schedule: seq<nat>, t: nat)
    requires Initial(s, g, programs) && Finished(Interleave(k, true, s, schedule)) && t < |programs|
    ensures var e := Interleave(k, true, s, schedule);
      && |e.threads| == |programs| && |e.threads[t].responses| == |programs[t]|
      && forall i :: 0 <= i < |programs[t]| ==> e.threads[t].responses[i].op == programs[t][i]
  {
    hide Interleave;
    forall u: nat | u < |programs|
      ensures Told(programs[u], s.threads[u])
    {
      assert Answered([]) + InFlight(Idle) + programs[u] == programs[u];
    }
    InterleaveTells(k, true, programs, s, schedule);
    assert Told(programs[t], Interleave(k, true, s, schedule).threads[t]);
  }

  // ---- progress ----

  /** How many steps a thread has still to take. */
  ghost function StepsLeft(th: Thread): nat {
    5 * |th.todo|
    + match th.phase
      case Idle => 0
      case Waiting(_, _) => 4
      case Holding(_, _) => 3
      case Loaded(_, _, _) => 2
      case Leaving(_, _, _, _) => 1
  }

  ghost function Work(threads: seq<Thread>): nat {
    if threads == [] then 0 else Work(threads[..|threads| - 1]) + StepsLeft(threads[|threads| - 1])
  }

  lemma {:induction false} WorkUpdate(threads: seq<Thread>, t: nat, th: Thread)
    requires t < |threads|
    ensures Work(threads[t := th]) + StepsLeft(threads[t]) == Work(threads) + StepsLeft(th)
    decreases |threads|
  {
    hide StepsLeft;
    var last, updated := |threads| - 1, threads[t := th];
    if t < last {
      WorkUpdate(threads[..last], t, th);
      assert updated[..last] == threads[..last][t := th];
    } else {
      assert updated[..last] == threads[..last];
    }
  }

  /** A step that does anything brings the end nearer by one, so no schedule can keep threads busy for ever. */
  lemma StepWorks(k: Rules, locked: bool, s: System, t: nat)
    ensures var e := Step(k, locked, s, t); e == s || Work(e.threads) + 1 == Work(s.threads)
  {
    hide Work, GuardedNext, GuardedAnswer;
    var e := Step(k, locked, s, t);
    if t < |s.threads| && e != s {
      WorkUpdate(s.threads, t, e.threads[t]);
      assert e.threads == s.threads[t := e.threads[t]];
    }
  }

  /** No deadlock: as long as a thread is not done, some thread can take a step. */
  lemma SomeoneCanMove(k: Rules, g: Guarded, programs: seq<seq<Op>>, s: System) returns (t: nat)
    requires Inv(k, g, programs, s) && !Finished(s)
    ensures t < |s.threads| && Step(k, true, s, t) != s
  {
    hide ThreadOk, Sequential, Replay, GuardedNext, GuardedAnswer;
    if s.lock.HeldBy? {
      t := s.lock.thread;
      assert HasLock(s.threads[t]);
    } else {
      t :| t < |s.threads| && !(s.threads[t].phase == Idle && s.threads[t].todo == []);
      assert !HasLock(s.threads[t]);
    }
    assert Step(k, true, s, t).threads[t] != s.threads[t];
  }

  lemma {:induction false} InterleaveCons(k: Rules, locked: bool, s: System, t: nat, schedule: seq<nat>)
    ensures Interleave(k, locked, s, [t] + schedule) == Interleave(k, locked, Step(k, locked, s, t), schedule)
    decreases |schedule|
  {
    hide Step;
    var longer := [t] + schedule;
    if schedule == [] {
      assert longer[..|longer| - 1] == [] && longer[|longer| - 1] == t;
    } else {
      InterleaveCons(k, locked, s, t, schedule[..|schedule| - 1]);
      assert longer[..|longer| - 1] == [t] + schedule[..|schedule| - 1];
    }
  }

  lemma {:induction false} CanFinish(k: Rules, g: Guarded, programs: seq<seq<Op>>, s: System)
      returns (more: seq<nat>)
    requires Inv(k, g, programs, s)
    ensures Finished(Interleave(k, true, s, more)) && |more| == Work(s.threads)
    decreases Work(s.threads)
  {
    hide Inv, Step, Work;
    if Finished(s) {
      more := [];
      NoWorkLeft(s.threads);
    } else {
      var t := SomeoneCanMove(k, g, programs, s);
      StepWorks(k, true, s, t);
      StepKeeps(k, g, programs, s, t);
      more := CanFinish(k, g, programs, Step(k, true, s, t));
      InterleaveCons(k, true, s, t, more);
      more := [t] + more;
    }
  }

  lemma {:induction false} NoWorkLeft(threads: seq<Thread>)
    requires forall t :: 0 <= t < |threads| ==> threads[t].phase == Idle && threads[t].todo == []
    ensures Work(threads) == 0
  {
    if threads != [] {
      NoWorkLeft(threads[..|threads| - 1]);
    }
  }

  /** However the threads were scheduled so far, they can all be brought to their end, poisoned lock or not, in
      exactly as many steps as are left. */
  lemma AlwaysCanFinish(k: Rules, g: Guarded, programs: seq<seq<Op>>, s: System, schedule: seq<nat>)
      returns (more: seq<nat>)
    requires Initial(s, g, programs)
    ensures Finished(Interleave(k, true, s, schedule + more))
    ensures |more| == Work(Interleave(k, true, s, schedule).threads)
  {
    hide Inv, Step, Work;
    InterleaveKeeps(k, g, programs, s, schedule);
    more := CanFinish(k, g, programs, Interleave(k, true, s, schedule));
    InterleaveConcat(k, s, schedule, more);
  }

  lemma {:induction false} InterleaveConcat(k: Rules, s: System, schedule: seq<nat>, more: seq<nat>)
    ensures Interleave(k, true, s, schedule + more) == Interleave(k, true, Interleave(k, true, s, schedule), more)
    decreases |more|
  {
    hide Step;
    if more == [] {
      assert schedule + more == schedule;
    } else {
      var longer := schedule + more;
      InterleaveConcat(k, s, schedule, more[..|more| - 1]);
      assert longer[..|longer| - 1] == schedule + more[..|more| - 1];
    }
  }

  /** Hence for every schedule, nothing a recipient was sent is lost from the books: what was stored is
      pending, acknowledged or evicted, one for one. */
  lemma SharedConservation(k: Rules, g: Guarded, programs: seq<seq<Op>>, s: System, schedule: seq<nat>, r: string)
    requires Initial(s, g, programs) && StateOk(k, g.store) && IsStarted(g.store)
    ensures var e := Interleave(k, true, s, schedule);
      !e.guarded.poisoned ==>
        var ops := OpsIn(e.history);
        |Store.Pending(g.store, r)| + |StoredFor(k, g.store, ops, r)| ==
          |Store.Pending(e.guarded.store, r)| + RemovedFor(k, g.store, ops, r) + MailLane(e.guarded.store, r).evicted
  {
    InterleaveKeeps(k, g, programs, s, schedule);
    var e := Interleave(k, true, s, schedule);
    if !e.guarded.poisoned {
      ReplayIsRun(k, g, e.history);
      QueueIsSuffixOfStored(k, g.store, OpsIn(e.history), r);
    }
  }

  lemma StepKeepsPoison(k: Rules, g: Guarded, programs: seq<seq<Op>>, s: System, t: nat)
    requires Inv(k, g, programs, s) && s.guarded.poisoned
    ensures var e := Step(k, true, s, t);
      && e.guarded == s.guarded && s.history <= e.history
      && forall i :: |s.history| <= i < |e.history| ==> e.history[i].result == LockPoisoned
  {
    hide ThreadOk, Sequential, Replay;
  }

  lemma InterleaveSnoc(k: Rules, locked: bool, s: System, schedule: seq<nat>, t: nat)
    ensures Interleave(k, locked, s, schedule + [t]) == Step(k, locked, Interleave(k, locked, s, schedule), t)
  {
    hide Step;
    assert (schedule + [t])[..|schedule + [t]| - 1] == schedule;
  }

  /** After a poisoning panic, whatever the threads still do, the store stays as it is and every operation
      that takes its turn is refused. */
  lemma {:induction false} PoisonLasts(k: Rules, g: Guarded, programs: seq<seq<Op>>, s: System, schedule: seq<nat>,
                                       more: seq<nat>)
    requires Initial(s, g, programs) && Interleave(k, true, s, schedule).guarded.poisoned
    ensures var e, e' := Interleave(k, true, s, schedule), Interleave(k, true, s, schedule + more);
      && e'.guarded == e.guarded && e.history <= e'.history
      && forall i :: |e.history| <= i < |e'.history| ==> e'.history[i].result == LockPoisoned
    decreases |more|
  {
    hide Step, Inv, Interleave;
    if more == [] {
      assert schedule + more == schedule;
    } else {
      var before, t := more[..|more| - 1], more[|more| - 1];
      PoisonLasts(k, g, programs, s, schedule, before);
      InterleaveKeeps(k, g, programs, s, schedule + before);
      StepKeepsPoison(k, g, programs, Interleave(k, true, s, schedule + before), t);
      InterleaveSnoc(k, true, s, schedule + before, t);
      assert schedule + more == schedule + before + [t];
    }
  }

  /** The lock is poisoned by exactly one operation: a page read whose end index overflows. */
  lemma PoisonedOnlyByPage(k: Rules, g: Guarded, op: Op)
    requires !g.poisoned
    ensures GuardedNext(k, g, op).poisoned <==>
            op.ReadPage? && PageOverflows(Store.Pending(g.store, op.recipient), op.since, op.limit)
  {
    hide PageOverflows, PageOf, PageEnd;
  }

  // ---- without the lock ----

  /** Two threads and a free lock. */
  ghost function Pair(g: Guarded, a: Thread, b: Thread, h: seq<Entry>): System {
    System(g, Free, [a, b], h)
  }

  /** Each of the two threads takes a step. */
  ghost function Both(k: Rules, s: System): System {
    Step(k, false, Step(k, false, s, 0), 1)
  }

  lemma BothCall(k: Rules, g: Guarded, x: Op, y: Op)
    ensures Both(k, Pair(g, Thread([x], Idle, []), Thread([y], Idle, []), []))
         == Pair(g, Thread([], Waiting(x, 0), []), Thread([], Waiting(y, 0), []), [])
  {
    var s := Pair(g, Thread([x], Idle, []), Thread([y], Idle, []), []);
    var s' := Step(k, false, s, 0);
    assert [x][1..] == [] && [y][1..] == [];
    assert s'.threads == [Thread([], Waiting(x, 0), []), Thread([y], Idle, [])];
    assert Step(k, false, s', 1).threads == [Thread([], Waiting(x, 0), []), Thread([], Waiting(y, 0), [])];
  }

  lemma BothRead(k: Rules, g: Guarded, x: Op, y: Op)
    ensures Both(k, Both(k, Pair(g, Thread([], Waiting(x, 0), []), Thread([], Waiting(y, 0), []), [])))
         == Pair(g, Thread([], Loaded(x, 0, g), []), Thread([], Loaded(y, 0, g), []), [])
  {
    var s := Pair(g, Thread([], Waiting(x, 0), []), Thread([], Waiting(y, 0), []), []);
    assert Both(k, s).threads == [Thread([], Holding(x, 0), []), Thread([], Holding(y, 0), [])];
    assert Both(k, Both(k, s)).threads == [Thread([], Loaded(x, 0, g), []), Thread([], Loaded(y, 0, g), [])];
  }

  lemma BothWrite(k: Rules, g: Guarded, x: Op, y: Op)
    ensures var rx, ry := GuardedAnswer(k, g, x), GuardedAnswer(k, g, y);
      Both(k, Pair(g, Thread([], Loaded(x, 0, g), []), Thread([], Loaded(y, 0, g), []), []))
        == Pair(GuardedNext(k, g, y), Thread([], Leaving(x, 0, 0, rx), []), Thread([], Leaving(y, 0, 1, ry), []),
                [Entry(0, x, rx), Entry(1, y, ry)])
  {
    hide GuardedNext, GuardedAnswer;
    var s := Pair(g, Thread([], Loaded(x, 0, g), []), Thread([], Loaded(y, 0, g), []), []);
    var rx, ry := GuardedAnswer(k, g, x), GuardedAnswer(k, g, y);
    assert Both(k, s).threads == [Thread([], Leaving(x, 0, 0, rx), []), Thread([], Leaving(y, 0, 1, ry), [])];
  }

  lemma BothLeave(k: Rules, g: Guarded, x: Op, rx: Result, y: Op, ry: Result, h: seq<Entry>)
    ensures Both(k, Pair(g, Thread([], Leaving(x, 0, 0, rx), []), Thread([], Leaving(y, 0, 1, ry), []), h))
         == Pair(g, Thread([], Idle, [Response(x, rx, 0, 0, |h|)]), Thread([], Idle, [Response(y, ry, 0, 1, |h|)]), h)
  {
    var s := Pair(g, Thread([], Leaving(x, 0, 0, rx), []), Thread([], Leaving(y, 0, 1, ry), []), h);
    var none: seq<Response> := [];
    assert none + [Response(x, rx, 0, 0, |h|)] == [Response(x, rx, 0, 0, |h|)];
    assert none + [Response(y, ry, 0, 1, |h|)] == [Response(y, ry, 0, 1, |h|)];
    assert Both(k, s).threads
        == [Thread([], Idle, [Response(x, rx, 0, 0, |h|)]), Thread([], Idle, [Response(y, ry, 0, 1, |h|)])];
  }

  lemma InterleaveBoth(k: Rules, s: System, schedule: seq<nat>)
    ensures Interleave(k, false, s, schedule + [0, 1]) == Both(k, Interleave(k, false, s, schedule))
  {
    hide Step, Interleave;
    InterleaveSnoc(k, false, s, schedule, 0);
    InterleaveSnoc(k, false, s, schedule + [0], 1);
    assert schedule + [0, 1] == schedule + [0] + [1];
  }

  ghost function SideBySide(): seq<nat> {
    [0, 1] + [0, 1] + [0, 1] + [0, 1] + [0, 1]
  }

  /** Two threads that run side by side without the lock: both read before either writes. Each gets the
      answer it would get alone, and the second write undoes the first, whatever the operations are. */
  lemma UnlockedLosesUpdate(k: Rules, g: Guarded, s: System, x: Op, y: Op)
    requires Initial(s, g, [[x], [y]])
    ensures Interleave(k, false, s, SideBySide())
         == Pair(GuardedNext(k, g, y), Thread([], Idle, [Response(x, GuardedAnswer(k, g, x), 0, 0, 2)]),
                 Thread([], Idle, [Response(y, GuardedAnswer(k, g, y), 0, 1, 2)]),
                 [Entry(0, x, GuardedAnswer(k, g, x)), Entry(1, y, GuardedAnswer(k, g, y))])
  {
    hide Both, Step, Interleave, GuardedNext, GuardedAnswer;
    assert s == Pair(g, Thread([x], Idle, []), Thread([y], Idle, []), []) by {
      assert s.threads == [Thread([x], Idle, []), Thread([y], Idle, [])];
    }
    NothingScheduled(k, s);
    var start: seq<nat> := [];
    assert start + [0, 1] == [0, 1];
    InterleaveBoth(k, s, start);
    InterleaveBoth(k, s, [0, 1]);
    InterleaveBoth(k, s, [0, 1] + [0, 1]);
    InterleaveBoth(k, s, [0, 1] + [0, 1] + [0, 1]);
    InterleaveBoth(k, s, [0, 1] + [0, 1] + [0, 1] + [0, 1]);
    var rx, ry := GuardedAnswer(k, g, x), GuardedAnswer(k, g, y);
    BothCall(k, g, x, y);
    BothRead(k, g, x, y);
    BothWrite(k, g, x, y);
    BothLeave(k, GuardedNext(k, g, y), x, rx, y, ry, [Entry(0, x, rx), Entry(1, y, ry)]);
  }

  lemma NothingScheduled(k: Rules, s: System)
    ensures Interleave(k, false, s, []) == s
  {
  }

  /** In particular, of two deliveries to an empty mailbox both are answered `Stored` and one is nowhere:
      not pending, not acknowledged, not evicted. `SharedConservation` rules this out with the lock. */
  lemma UnlockedLosesMail(k: Rules, g: Guarded, s: System, a: Envelope, b: Envelope, now: u64)
    requires Initial(s, g, [[Deliver(a, now)], [Deliver(b, now)]]) && !g.poisoned && IsNew(g.store)
    requires k.envelopeVerifies(a) && k.envelopeVerifies(b)
    requires a.body.to != "" && b.body.to != "" && a.body.to != b.body.to
    ensures var e := Interleave(k, false, s, SideBySide());
      && Finished(e) && !e.guarded.poisoned && |e.threads| == 2
      && (forall i :: 0 <= i < 2 ==>
            |e.threads[i].responses| == 1 && e.threads[i].responses[0].result == Ran(Deposited(Done(Stored))))
      && MailLane(e.guarded.store, a.body.to).log == []
  {
    hide Interleave, SideBySide;
    UnlockedLosesUpdate(k, g, s, Deliver(a, now), Deliver(b, now));
    NothingAckedYet(g.store, a.body.to);
    NothingAckedYet(g.store, b.body.to);
    FirstIsStored(k, g.store, a, now);
    FirstIsStored(k, g.store, b, now);
    LaneStep(k, g.store, Deliver(b, now), a.body.to);
  }

  lemma FirstIsStored(k: Rules, s: State, e: Envelope, now: u64)
    requires IsNew(s) && k.envelopeVerifies(e) && e.body.to != ""
    ensures Answer(k, s, Deliver(e, now)) == Deposited(Done(Stored))
  {
    hide LaneOf;
    NothingAckedYet(s, e.body.to);
  }
}
