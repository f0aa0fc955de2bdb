/** The inbox command on a file system that may stop or lose power: it saves the snapshot of what it drained,
    and only then the cursor, each with `atomic_write`. Runs of the command follow one another, and other
    processes may write other files at the same time. */
module InboxCommand {
  import opened Encoding
  import opened Persistence

  const SNAPSHOT := "inbox.json"
  const CURSOR := "inbox.cursor"

  predicate IsPairFile(file: string) {
    file == SNAPSHOT || file == CURSOR
  }

  /** One run of the command: its process, the ids of the mail pending for it, the cursor it drains from,
      and the two values it saves. */
  datatype Job = Job(pid: nat, pending: seq<string>, start: nat, snapshot: Bytes, cursor: Bytes)

  datatype Phase = Fetched | SavingSnapshot | SnapshotSaved | SavingCursor | Over

  /** The last of `jobs` is running, in `phase`. `owner[i]` is the number of the run that was running when
      commit `i` was made. */
  datatype Machine = Machine(fs: Fs, jobs: seq<Job>, phase: Phase, owner: seq<nat>)

  datatype Turn = Begin(job: Job) | Do(action: Action)

  ghost function Current(m: Machine): Job
    requires m.jobs != []
  {
    m.jobs[|m.jobs| - 1]
  }

  /** A run begins when no write of an earlier one is under way. The snapshot is the first thing a run
      writes; the cursor is written once the snapshot's write has returned. */
  ghost predicate Allowed(m: Machine, t: Turn) {
    match t
    case Begin(job) => forall pid :: pid in m.fs.writers ==> !IsPairFile(m.fs.writers[pid].file)
    case Do(a) =>
      a.Create? && IsPairFile(a.file) ==>
        && m.jobs != [] && a.pid == Current(m).pid
        && if a.file == SNAPSHOT then m.phase == Fetched && a.value == Current(m).snapshot
           else m.phase == SnapshotSaved && a.value == Current(m).cursor
  }

  /** A write returns when its directory was synced or could not be, and fails when it stops before its
      rename; a failure, a finished cursor and a power loss end the run. */
  ghost function PhaseAfter(m: Machine, a: Action): Phase {
    match a
    case Create(_, file, _, _) =>
      if file == SNAPSHOT then SavingSnapshot else if file == CURSOR then SavingCursor else m.phase
    case SyncDir(pid) => PhaseOnReturn(m, pid)
    case Stop(pid) => PhaseOnReturn(m, pid)
    case PowerLoss(_, _) => Over
    case _ => m.phase
  }

  ghost function PhaseOnReturn(m: Machine, pid: nat): Phase {
    if pid !in m.fs.writers || !IsPairFile(m.fs.writers[pid].file) then m.phase
    else if m.fs.writers[pid].file == SNAPSHOT && m.fs.writers[pid].stage == Renamed then SnapshotSaved
    else Over
  }

  ghost function OwnerAfter(m: Machine, a: Action): seq<nat> {
    match a
    case Rename(_) => m.owner + [if m.jobs == [] then 0 else |m.jobs| - 1]
    case PowerLoss(survives, _) =>
      if survives < |m.fs.marks| && m.fs.marks[survives] <= |m.owner| then m.owner[..m.fs.marks[survives]] else m.owner
    case _ => m.owner
  }

  ghost function Take(m: Machine, t: Turn): Machine
    requires WellFormed(m.fs)
  {
    if !Allowed(m, t) then m else
    match t
    case Begin(job) => m.(jobs := m.jobs + [job], phase := Fetched)
    case Do(a) =>
      if !Enabled(m.fs, a) then m
      else Machine(Perform(m.fs, a), m.jobs, PhaseAfter(m, a), OwnerAfter(m, a))
  }

  ghost function Turns(m: Machine, turns: seq<Turn>): (e: Machine)
    requires WellFormed(m.fs)
    ensures WellFormed(e.fs)
  {
    if turns == [] then m else Take(Turns(m, turns[..|turns| - 1]), turns[|turns| - 1])
  }

  // ---- the invariant ----

  ghost predicate HasSnapshot(commits: seq<Commit>, owner: seq<nat>, run: nat) {
    exists i :: 0 <= i < |commits| && i < |owner| && commits[i].file == SNAPSHOT && owner[i] == run
  }

  /** Each snapshot and cursor committed is that of its run, runs commit one after the other, and a cursor
      only after the snapshot of the same run. */
  ghost predicate CommitsOk(commits: seq<Commit>, owner: seq<nat>, jobs: seq<Job>) {
    && |owner| == |commits|
    && (forall i :: 0 <= i < |commits| && commits[i].file == SNAPSHOT ==>
          owner[i] < |jobs| && commits[i].value == jobs[owner[i]].snapshot)
    && (forall i :: 0 <= i < |commits| && commits[i].file == CURSOR ==>
          && owner[i] < |jobs| && commits[i].value == jobs[owner[i]].cursor
          && HasSnapshot(commits[..i], owner[..i], owner[i]))
    && (forall i, j :: 0 <= i < j < |commits| && IsPairFile(commits[i].file) && IsPairFile(commits[j].file) ==>
          owner[i] <= owner[j])
  }

  ghost predicate SnapshotDone(m: Machine) {
    m.jobs != [] && HasSnapshot(m.fs.commits, m.owner, |m.jobs| - 1)
  }

  /** A write of the pair under way is the one the current run is in. */
  ghost predicate PairWriterOk(m: Machine, pid: nat, w: Writer) {
    IsPairFile(w.file) ==>
      && m.jobs != [] && pid == Current(m).pid
      && (if w.file == SNAPSHOT then w.value == Current(m).snapshot && m.phase == SavingSnapshot
          else w.value == Current(m).cursor && m.phase == SavingCursor)
      && (w.file == SNAPSHOT && w.stage == Renamed ==> SnapshotDone(m))
  }

  ghost predicate PairOk(m: Machine) {
    && CommitsOk(m.fs.commits, m.owner, m.jobs)
    && (forall pid :: pid in m.fs.writers ==> PairWriterOk(m, pid, m.fs.writers[pid]))
    && (m.phase == SnapshotSaved || m.phase == SavingCursor ==> SnapshotDone(m))
  }

  lemma SnapshotSnoc(commits: seq<Commit>, owner: seq<nat>, c: Commit, o: nat, run: nat)
    requires |owner| == |commits|
    ensures HasSnapshot(commits, owner, run) ==> HasSnapshot(commits + [c], owner + [o], run)
    ensures c.file == SNAPSHOT && o == run ==> HasSnapshot(commits + [c], owner + [o], run)
  {
    if HasSnapshot(commits, owner, run) {
      var i :| 0 <= i < |commits| && i < |owner| && commits[i].file == SNAPSHOT && owner[i] == run;
      assert (commits + [c])[i] == commits[i] && (owner + [o])[i] == owner[i];
    }
    assert (commits + [c])[|commits|] == c && (owner + [o])[|owner|] == o;
  }

  lemma CommitsSnoc(commits: seq<Commit>, owner: seq<nat>, jobs: seq<Job>, c: Commit, run: nat)
    requires CommitsOk(commits, owner, jobs)
    requires IsPairFile(c.file) ==> run + 1 == |jobs|
    requires c.file == SNAPSHOT ==> c.value == jobs[run].snapshot
    requires c.file == CURSOR ==> c.value == jobs[run].cursor && HasSnapshot(commits, owner, run)
    ensures CommitsOk(commits + [c], owner + [run], jobs)
  {
    hide HasSnapshot;
    var cs, os := commits + [c], owner + [run];
    forall i | 0 <= i < |cs|
      ensures cs[..i] == commits[..i] && os[..i] == owner[..i]
    {
    }
    assert commits[..|commits|] == commits && owner[..|owner|] == owner;
  }

  lemma CommitsPrefix(commits: seq<Commit>, owner: seq<nat>, jobs: seq<Job>, n: nat)
    requires CommitsOk(commits, owner, jobs) && n <= |commits|
    ensures CommitsOk(commits[..n], owner[..n], jobs)
  {
    hide HasSnapshot;
    forall i | 0 <= i < n
      ensures commits[..n][..i] == commits[..i] && owner[..n][..i] == owner[..i]
    {
    }
  }

  lemma RenamePairOk(before: map<string, Bytes>, m: Machine, pid: nat)
    requires Inv(before, m.fs) && WellFormed(m.fs) && PairOk(m) && Enabled(m.fs, Rename(pid))
    ensures PairOk(Take(m, Do(Rename(pid))))
  {
    hide Inv, Now, CommitsOk, HasSnapshot;
    var w, run := m.fs.writers[pid], if m.jobs == [] then 0 else |m.jobs| - 1;
    var c := Commit(w.file, w.value);
    assert PairWriterOk(m, pid, w);
    CommitsLength(m);
    CommitsSnoc(m.fs.commits, m.owner, m.jobs, c, run);
    SnapshotSnoc(m.fs.commits, m.owner, c, run, run);
    var m' := Take(m, Do(Rename(pid)));
    forall q | q in m'.fs.writers
      ensures PairWriterOk(m', q, m'.fs.writers[q])
    {
      assert PairWriterOk(m, q, m.fs.writers[q]);
    }
  }

  lemma CommitsLength(m: Machine)
    requires PairOk(m)
    ensures |m.owner| == |m.fs.commits|
  {
  }

  lemma PowerLossPairOk(before: map<string, Bytes>, m: Machine, survives: nat, junk: map<nat, Bytes>)
    requires Inv(before, m.fs) && WellFormed(m.fs) && PairOk(m) && survives < |m.fs.dirs|
    ensures PairOk(Take(m, Do(PowerLoss(survives, junk))))
  {
    hide Inv, Survivors, CommitsOk;
    MarkFits(before, m.fs, survives);
    CommitsLength(m);
    CommitsPrefix(m.fs.commits, m.owner, m.jobs, m.fs.marks[survives]);
  }

  lemma QuietTurnPairOk(m: Machine, a: Action)
    requires WellFormed(m.fs) && PairOk(m) && Enabled(m.fs, a) && Allowed(m, Do(a)) && !a.Rename? && !a.PowerLoss?
    ensures PairOk(Take(m, Do(a)))
  {
    hide CommitsOk, HasSnapshot, Now;
    var m' := Take(m, Do(a));
    assert m'.fs.commits == m.fs.commits && m'.owner == m.owner;
    forall q | q in m'.fs.writers
      ensures PairWriterOk(m', q, m'.fs.writers[q])
    {
      if q in m.fs.writers {
        assert PairWriterOk(m, q, m.fs.writers[q]);
      }
      if (a.SyncDir? || a.Stop?) && a.pid in m.fs.writers {
        assert PairWriterOk(m, a.pid, m.fs.writers[a.pid]);
      }
    }
  }

  lemma BeginPairOk(m: Machine, job: Job)
    requires WellFormed(m.fs) && PairOk(m) && Allowed(m, Begin(job))
    ensures PairOk(Take(m, Begin(job)))
  {
    hide HasSnapshot;
  }

  lemma TurnPairOk(before: map<string, Bytes>, m: Machine, t: Turn)
    requires Inv(before, m.fs) && WellFormed(m.fs) && PairOk(m)
    ensures Inv(before, Take(m, t).fs) && PairOk(Take(m, t))
  {
    hide Inv, Perform, PairOk, Allowed, Enabled;
    if Allowed(m, t) {
      match t {
        case Begin(job) => BeginPairOk(m, job);
        case Do(a) =>
          ActionKeeps(before, m.fs, a);
          if Enabled(m.fs, a) {
            match a {
              case Rename(pid) => RenamePairOk(before, m, pid);
              case PowerLoss(survives, junk) =>
                LossInRange(m.fs, survives, junk);
                PowerLossPairOk(before, m, survives, junk);
              case _ => QuietTurnPairOk(m, a);
            }
          }
      }
    }
  }

  lemma {:induction false} TurnsPairOk(before: map<string, Bytes>, m: Machine, turns: seq<Turn>)
    requires Inv(before, m.fs) && WellFormed(m.fs) && PairOk(m)
    ensures Inv(before, Turns(m, turns).fs) && PairOk(Turns(m, turns))
  {
    hide Inv, PairOk, Take;
    if turns != [] {
      TurnsPairOk(before, m, turns[..|turns| - 1]);
      TurnPairOk(before, Turns(m, turns[..|turns| - 1]), turns[|turns| - 1]);
    }
  }

  // ---- what a reader finds ----

  lemma SnapshotNotBehind(commits: seq<Commit>, owner: seq<nat>, jobs: seq<Job>)
    requires CommitsOk(commits, owner, jobs)
    ensures var s, c := LastOn(commits, SNAPSHOT), LastOn(commits, CURSOR);
      c >= 0 ==> s >= 0 && owner[c] <= owner[s]
  {
    var s, c := LastOn(commits, SNAPSHOT), LastOn(commits, CURSOR);
    if c >= 0 {
      assert HasSnapshot(commits[..c], owner[..c], owner[c]);
      var i :| 0 <= i < c && commits[..c][i].file == SNAPSHOT && owner[..c][i] == owner[c];
      assert commits[i].file == SNAPSHOT && owner[i] == owner[c];
    }
  }

  ghost predicate Started(before: map<string, Bytes>, m: Machine) {
    Quiet(before, m.fs) && m.jobs == [] && m.owner == [] && m.phase == Over
  }

  /** The number of the run whose write of `file` can be read, or -1. */
  ghost function RunOf(m: Machine, file: string): int {
    var i := LastOn(m.fs.commits, file);
    if 0 <= i < |m.owner| then m.owner[i] else -1
  }

  /** Whatever runs there are, however each is cut short, by a stop, a failing step or a power loss, and
      whatever else is written in between: the cursor on disk is never from a later run than the
      snapshot on disk. */
  lemma CursorNeverAhead(before: map<string, Bytes>, m: Machine, turns: seq<Turn>)
    requires Started(before, m)
    ensures WellFormed(m.fs)
    ensures var e := Turns(m, turns);
      var s, c := RunOf(e, SNAPSHOT), RunOf(e, CURSOR);
      && -1 <= c <= s < |e.jobs|
      && Visible(e.fs, Now(e.fs), SNAPSHOT) ==
         (if s < 0 then Visible(m.fs, Now(m.fs), SNAPSHOT) else Some(e.jobs[s].snapshot))
      && Visible(e.fs, Now(e.fs), CURSOR) ==
         (if c < 0 then Visible(m.fs, Now(m.fs), CURSOR) else Some(e.jobs[c].cursor))
  {
    hide Inv, Visible, Now, ValueAfter, HasSnapshot;
    QuietDiskOk(before, m.fs);
    InvWellFormed(before, m.fs);
    NowShows(before, m.fs);
    QuietPairOk(before, m);
    TurnsPairOk(before, m, turns);
    var e := Turns(m, turns);
    NowShows(before, e.fs);
    LastIsVisible(before, e.fs.commits, SNAPSHOT);
    LastIsVisible(before, e.fs.commits, CURSOR);
    SnapshotNotBehind(e.fs.commits, e.owner, e.jobs);
  }

  // ---- runs complete ----

  lemma TurnSnoc(m: Machine, turns: seq<Turn>, t: Turn)
    requires WellFormed(m.fs)
    ensures Turns(m, turns + [t]) == Take(Turns(m, turns), t)
  {
    hide Take;
    assert (turns + [t])[..|turns + [t]| - 1] == turns;
  }

  /** The write of one file of the pair, uninterrupted. */
  lemma PairWrite(before: map<string, Bytes>, m: Machine, file: string, value: Bytes, inode: nat)
      returns (t1: Turn, t2: Turn, t3: Turn, t4: Turn, t5: Turn, e: Machine)
    requires Inv(before, m.fs) && WellFormed(m.fs) && m.jobs != [] && IsPairFile(file)
    requires Current(m).pid !in m.fs.writers && inode !in m.fs.inodes
    requires if file == SNAPSHOT then m.phase == Fetched && value == Current(m).snapshot
             else m.phase == SnapshotSaved && value == Current(m).cursor
    ensures WellFormed(Take(m, t1).fs) && WellFormed(Take(Take(m, t1), t2).fs)
    ensures WellFormed(Take(Take(Take(m, t1), t2), t3).fs) && WellFormed(Take(Take(Take(Take(m, t1), t2), t3), t4).fs)
    ensures e == Take(Take(Take(Take(Take(m, t1), t2), t3), t4), t5)
    ensures Inv(before, e.fs) && WellFormed(e.fs) && e.fs.commits == m.fs.commits + [Commit(file, value)]
    ensures e.owner == m.owner + [|m.jobs| - 1] && e.jobs == m.jobs && e.fs.writers == m.fs.writers
    ensures e.phase == if file == SNAPSHOT then SnapshotSaved else Over
  {
    hide Inv, Perform, Enabled;
    var pid := Current(m).pid;
    t1, t2, t3 := Do(Create(pid, file, value, inode)), Do(Write(pid, |value|)), Do(Sync(pid));
    t4, t5 := Do(Rename(pid)), Do(SyncDir(pid));
    var s1, s2, s3, s4, s5 := WholeWrite(before, m.fs, pid, file, value, inode);
    var saving := if file == SNAPSHOT then SavingSnapshot else SavingCursor;
    assert Take(m, t1) == Machine(s1, m.jobs, saving, m.owner);
    assert Take(Take(m, t1), t2) == Machine(s2, m.jobs, saving, m.owner);
    assert Take(Take(Take(m, t1), t2), t3) == Machine(s3, m.jobs, saving, m.owner);
    var renamed := Machine(s4, m.jobs, saving, m.owner + [|m.jobs| - 1]);
    assert Take(Take(Take(Take(m, t1), t2), t3), t4) == renamed;
    e := Take(renamed, t5);
  }

  /** A run that nothing cuts short commits both files: whatever happened before, it can begin when no write of
      the pair is under way, and can go on to its end. */
  lemma RunCanComplete(before: map<string, Bytes>, m: Machine, job: Job) returns (turns: seq<Turn>)
    requires Inv(before, m.fs) && WellFormed(m.fs) && |m.owner| == |m.fs.commits| && job.pid !in m.fs.writers
    requires forall pid :: pid in m.fs.writers ==> !IsPairFile(m.fs.writers[pid].file)
    ensures var e := Turns(m, turns);
      e.jobs == m.jobs + [job] && RunOf(e, SNAPSHOT) == |m.jobs| && RunOf(e, CURSOR) == |m.jobs|
  {
    hide Inv, Take, Perform, Enabled;
    var m0 := BeginTurn(m, job);
    var first := FreeInode(m0.fs);
    var t1, t2, t3, t4, t5, m1 := PairWrite(before, m0, SNAPSHOT, job.snapshot, first);
    var next := FreeInode(m1.fs);
    var u1, u2, u3, u4, u5, m2 := PairWrite(before, m1, CURSOR, job.cursor, next);
    NoTurns(m);
    TurnSnoc(m, [], Begin(job));
    assert [] + [Begin(job)] == [Begin(job)];
    FiveTurns(m, [Begin(job)], t1, t2, t3, t4, t5);
    FiveTurns(m, [Begin(job)] + [t1] + [t2] + [t3] + [t4] + [t5], u1, u2, u3, u4, u5);
    turns := [Begin(job)] + [t1] + [t2] + [t3] + [t4] + [t5] + [u1] + [u2] + [u3] + [u4] + [u5];
    assert Turns(m, turns) == m2;
    LastOfTwo(m.fs.commits, Commit(SNAPSHOT, job.snapshot), Commit(CURSOR, job.cursor));
  }

  lemma BeginTurn(m: Machine, job: Job) returns (e: Machine)
    requires WellFormed(m.fs) && forall pid :: pid in m.fs.writers ==> !IsPairFile(m.fs.writers[pid].file)
    ensures e == Take(m, Begin(job)) == m.(jobs := m.jobs + [job], phase := Fetched)
  {
    e := Take(m, Begin(job));
  }

  lemma FreeInode(s: Fs) returns (n: nat)
    ensures n !in s.inodes
  {
    n := SomeUnused(s.inodes.Keys);
    assert n !in s.inodes.Keys;
  }

  lemma NoTurns(m: Machine)
    requires WellFormed(m.fs)
    ensures Turns(m, []) == m
  {
  }

  lemma FiveTurns(m: Machine, turns: seq<Turn>, t1: Turn, t2: Turn, t3: Turn, t4: Turn, t5: Turn)
    requires WellFormed(m.fs)
    ensures var s := turns + [t1] + [t2] + [t3] + [t4] + [t5];
      var e1 := Turns(m, turns + [t1]);
      && e1 == Take(Turns(m, turns), t1)
      && Turns(m, turns + [t1] + [t2]) == Take(e1, t2)
      && Turns(m, turns + [t1] + [t2] + [t3]) == Take(Turns(m, turns + [t1] + [t2]), t3)
      && Turns(m, turns + [t1] + [t2] + [t3] + [t4]) == Take(Turns(m, turns + [t1] + [t2] + [t3]), t4)
      && Turns(m, s) == Take(Turns(m, turns + [t1] + [t2] + [t3] + [t4]), t5)
  {
    hide Take;
    TurnSnoc(m, turns, t1);
    TurnSnoc(m, turns + [t1], t2);
    TurnSnoc(m, turns + [t1] + [t2], t3);
    TurnSnoc(m, turns + [t1] + [t2] + [t3], t4);
    TurnSnoc(m, turns + [t1] + [t2] + [t3] + [t4], t5);
  }

  lemma LastOfTwo(commits: seq<Commit>, c: Commit, d: Commit)
    requires c.file == SNAPSHOT && d.file == CURSOR
    ensures LastOn(commits + [c] + [d], CURSOR) == |commits| + 1 && LastOn(commits + [c] + [d], SNAPSHOT) == |commits|
  {
    var more := commits + [c] + [d];
    assert more[..|more| - 1] == commits + [c] && (commits + [c])[|commits|] == c;
  }

  // ---- one run, step by step ----

  /** Snapshot, then cursor; an error ends the run. Only success moves the cursor. */
  method SavePair(d: Disk, job: Job, first: Fault, second: Fault) returns (ok: bool)
    requires Inv(d.before, d.fs) && job.pid !in d.fs.writers
    modifies d
    ensures Inv(d.before, d.fs) && d.fs.writers.Keys == old(d.fs.writers.Keys)
    ensures WellFormed(d.fs) && old(WellFormed(d.fs))
    ensures ok <==> (first.NoFault? || first.FailDirSync?) && (second.NoFault? || second.FailDirSync?)
    ensures forall f :: Visible(d.fs, Now(d.fs), f) ==
                        if f == CURSOR && ok then Some(job.cursor)
                        else if f == SNAPSHOT && (first.NoFault? || first.FailDirSync?) then Some(job.snapshot)
                        else old(Visible(d.fs, Now(d.fs), f))
  {
    hide Inv, Visible, Now;
    InvWellFormed(d.before, d.fs);
    ghost var unused := SomeUnused(d.fs.inodes.Keys);
    assert unused !in d.fs.inodes.Keys;
    var inode :| inode >= 0 && inode !in d.fs.inodes;
    ok := d.AtomicWrite(job.pid, SNAPSHOT, job.snapshot, inode, first);
    InvWellFormed(d.before, d.fs);
    if ok {
      unused := SomeUnused(d.fs.inodes.Keys);
      assert unused !in d.fs.inodes.Keys;
      inode :| inode >= 0 && inode !in d.fs.inodes;
      ok := d.AtomicWrite(job.pid, CURSOR, job.cursor, inode, second);
      InvWellFormed(d.before, d.fs);
    }
  }

  lemma QuietPairOk(before: map<string, Bytes>, m: Machine)
    requires Started(before, m)
    ensures PairOk(m) && m.fs.commits == []
  {
  }
}
