/** The mailbox server's saves in order: a server that handles batch after batch and saves through `atomic_write`,
    on a file system that may stop it or lose power at every step. What comes back is never older than
    the last save known to be on disk. */
module Saving {
  import opened Encoding
  import opened Store
  import opened Persistence
  import opened Serving
  import opened Restarting
  import opened StoreFiles

  /** What is fixed: the server as it starts, the batches it will be given, its process and its store file. */
  datatype Setup = Setup(conf: Config, start: Server, batches: seq<Batch>, pid: nat, file: string)

  datatype Phase = Polling | MustSave | SavingNow | Down

  /** `done` batches are handled. `owner[i]` is the number of the batch handled last when commit `i` was made. */
  datatype Machine = Machine(fs: Fs, done: nat, phase: Phase, owner: seq<nat>)

  /** The server handles its next batch, or a save fails before it begins, or the file system takes a step. */
  datatype Turn = NextBatch | GiveUp | Do(action: Action)

  /** The store file is written only by the server, only after a batch that calls for it, and with a form of
      the store after that batch; the next batch waits for the write to return. */
  ghost predicate Allowed(u: Setup, m: Machine, t: Turn) {
    match t
    case NextBatch => m.phase == Polling && m.done < |u.batches|
    case GiveUp => m.phase == MustSave
    case Do(a) =>
      a.Create? && a.file == u.file ==>
        && m.phase == MustSave && a.pid == u.pid && m.done > 0
        && IsSaveOf(u.conf, u.start, u.batches, m.done - 1, a.value)
  }

  ghost function PhaseAfterBatch(u: Setup, m: Machine): Phase
    requires m.done < |u.batches|
  {
    if Tries(u.conf, u.start, u.batches, m.done) then MustSave
    else if Serve(u.conf, u.start, u.batches[..m.done + 1]).running then Polling
    else Down
  }

  ghost function PhaseAfter(u: Setup, m: Machine, a: Action): Phase {
    match a
    case Create(_, file, _, _) => if file == u.file then SavingNow else m.phase
    case SyncDir(pid) => PhaseOnReturn(u, m, pid)
    case Stop(pid) => PhaseOnReturn(u, m, pid)
    case PowerLoss(_, _) => Down
    case _ => m.phase
  }

  ghost function PhaseOnReturn(u: Setup, m: Machine, pid: nat): Phase {
    if pid in m.fs.writers && m.fs.writers[pid].file == u.file then Polling else m.phase
  }

  ghost function OwnerAfter(m: Machine, a: Action): seq<nat> {
    match a
    case Rename(_) => m.owner + [if m.done == 0 then 0 else m.done - 1]
    case PowerLoss(survives, _) =>
      if survives < |m.fs.marks| && m.fs.marks[survives] <= |m.owner| then m.owner[..m.fs.marks[survives]] else m.owner
    case _ => m.owner
  }

  ghost function Take(u: Setup, m: Machine, t: Turn): (e: Machine)
    requires WellFormed(m.fs)
    ensures WellFormed(e.fs)
  {
    if !Allowed(u, m, t) then m else
    match t
    case NextBatch => m.(done := m.done + 1, phase := PhaseAfterBatch(u, m))
    case GiveUp => m.(phase := Polling)
    case Do(a) =>
      if !Enabled(m.fs, a) then m
      else Machine(Perform(m.fs, a), m.done, PhaseAfter(u, m, a), OwnerAfter(m, a))
  }

  ghost function Turns(u: Setup, m: Machine, turns: seq<Turn>): (e: Machine)
    requires WellFormed(m.fs)
    ensures WellFormed(e.fs)
  {
    if turns == [] then m else Take(u, Turns(u, m, turns[..|turns| - 1]), turns[|turns| - 1])
  }

  // ---- the invariant ----

  /** The saves committed so far are of different batches, in order. */
  ghost predicate SavesOk(u: Setup, commits: seq<Commit>, owner: seq<nat>, done: nat) {
    && |owner| == |commits|
    && (forall i :: 0 <= i < |commits| && commits[i].file == u.file ==>
          owner[i] < done && IsSaveOf(u.conf, u.start, u.batches, owner[i], commits[i].value))
    && (forall i, j :: 0 <= i < j < |commits| && commits[i].file == u.file && commits[j].file == u.file ==>
          owner[i] < owner[j])
  }

  /** The last batch has not been saved yet. */
  ghost predicate Unsaved(u: Setup, m: Machine) {
    m.done > 0 && SavesOk(u, m.fs.commits, m.owner, m.done - 1)
  }

  ghost predicate SaverOk(u: Setup, m: Machine, pid: nat, w: Writer) {
    w.file == u.file ==>
      && pid == u.pid && m.phase == SavingNow && m.done > 0
      && IsSaveOf(u.conf, u.start, u.batches, m.done - 1, w.value)
      && (w.stage != Renamed ==> Unsaved(u, m))
  }

  ghost predicate MachineOk(u: Setup, m: Machine) {
    && SavesOk(u, m.fs.commits, m.owner, m.done)
    && (forall pid :: pid in m.fs.writers ==> SaverOk(u, m, pid, m.fs.writers[pid]))
    && (m.phase == MustSave ==> Unsaved(u, m))
  }

  lemma SavesSnoc(u: Setup, commits: seq<Commit>, owner: seq<nat>, done: nat, c: Commit)
    requires SavesOk(u, commits, owner, done)
    requires c.file == u.file ==> done > 0 && SavesOk(u, commits, owner, done - 1)
                                  && IsSaveOf(u.conf, u.start, u.batches, done - 1, c.value)
    ensures SavesOk(u, commits + [c], owner + [if done == 0 then 0 else done - 1], done)
  {
    hide IsSaveOf;
  }

  lemma SavesPrefix(u: Setup, commits: seq<Commit>, owner: seq<nat>, done: nat, n: nat)
    requires SavesOk(u, commits, owner, done) && n <= |commits|
    ensures SavesOk(u, commits[..n], owner[..n], done)
  {
    hide IsSaveOf;
  }

  lemma SavesMore(u: Setup, commits: seq<Commit>, owner: seq<nat>, done: nat)
    requires SavesOk(u, commits, owner, done)
    ensures SavesOk(u, commits, owner, done + 1)
  {
    hide IsSaveOf;
  }

  lemma BatchKeeps(u: Setup, m: Machine)
    requires WellFormed(m.fs) && MachineOk(u, m) && Allowed(u, m, NextBatch)
    ensures MachineOk(u, Take(u, m, NextBatch))
  {
    hide SavesOk, IsSaveOf, Tries, Serve;
    SavesMore(u, m.fs.commits, m.owner, m.done);
    var m' := Take(u, m, NextBatch);
    forall q | q in m'.fs.writers
      ensures SaverOk(u, m', q, m'.fs.writers[q])
    {
      assert SaverOk(u, m, q, m.fs.writers[q]);
    }
  }

  lemma RenameKeepsSaves(u: Setup, m: Machine, pid: nat)
    requires WellFormed(m.fs) && MachineOk(u, m) && Enabled(m.fs, Rename(pid))
    ensures MachineOk(u, Take(u, m, Do(Rename(pid))))
  {
    hide SavesOk, IsSaveOf, Now;
    var w := m.fs.writers[pid];
    var c := Commit(w.file, w.value);
    assert SaverOk(u, m, pid, w);
    SavesSnoc(u, m.fs.commits, m.owner, m.done, c);
    if m.done > 0 && w.file != u.file && Unsaved(u, m) {
      UnsavedSnoc(u, m.fs.commits, m.owner, m.done - 1, c, m.done - 1);
    }
    var m' := Take(u, m, Do(Rename(pid)));
    forall q | q in m'.fs.writers
      ensures SaverOk(u, m', q, m'.fs.writers[q])
    {
      assert SaverOk(u, m, q, m.fs.writers[q]);
    }
  }

  lemma UnsavedSnoc(u: Setup, commits: seq<Commit>, owner: seq<nat>, done: nat, c: Commit, o: nat)
    requires SavesOk(u, commits, owner, done) && c.file != u.file
    ensures SavesOk(u, commits + [c], owner + [o], done)
  {
    hide IsSaveOf;
  }

  lemma SavesLength(u: Setup, m: Machine)
    requires MachineOk(u, m)
    ensures |m.owner| == |m.fs.commits|
  {
  }

  lemma PowerLossKeepsSaves(before: map<string, Bytes>, u: Setup, m: Machine, survives: nat, junk: map<nat, Bytes>)
    requires Inv(before, m.fs) && WellFormed(m.fs) && MachineOk(u, m) && survives < |m.fs.dirs|
    ensures MachineOk(u, Take(u, m, Do(PowerLoss(survives, junk))))
  {
    hide Inv, Survivors, SavesOk, IsSaveOf;
    MarkFits(before, m.fs, survives);
    SavesLength(u, m);
    SavesPrefix(u, m.fs.commits, m.owner, m.done, m.fs.marks[survives]);
  }

  lemma QuietTurnKeepsSaves(u: Setup, m: Machine, a: Action)
    requires WellFormed(m.fs) && MachineOk(u, m) && Enabled(m.fs, a) && Allowed(u, m, Do(a))
    requires !a.Rename? && !a.PowerLoss?
    ensures MachineOk(u, Take(u, m, Do(a)))
  {
    hide SavesOk, IsSaveOf, Now;
    var m' := Take(u, m, Do(a));
    assert m'.fs.commits == m.fs.commits && m'.owner == m.owner;
    forall q | q in m'.fs.writers
      ensures SaverOk(u, m', q, m'.fs.writers[q])
    {
      if q in m.fs.writers {
        assert SaverOk(u, m, q, m.fs.writers[q]);
      }
      if (a.SyncDir? || a.Stop?) && a.pid in m.fs.writers {
        assert SaverOk(u, m, a.pid, m.fs.writers[a.pid]);
      }
    }
  }

  lemma GiveUpKeeps(u: Setup, m: Machine)
    requires WellFormed(m.fs) && MachineOk(u, m)
    ensures MachineOk(u, Take(u, m, GiveUp))
  {
    hide SavesOk, IsSaveOf;
    var m' := Take(u, m, GiveUp);
    forall q | q in m'.fs.writers
      ensures SaverOk(u, m', q, m'.fs.writers[q])
    {
      assert SaverOk(u, m, q, m.fs.writers[q]);
    }
  }

  lemma TurnKeeps(before: map<string, Bytes>, u: Setup, m: Machine, t: Turn)
    requires Inv(before, m.fs) && WellFormed(m.fs) && MachineOk(u, m)
    ensures Inv(before, Take(u, m, t).fs) && MachineOk(u, Take(u, m, t))
  {
    hide Inv, Perform, MachineOk, Allowed, Enabled;
    if Allowed(u, m, t) {
      match t {
        case NextBatch => BatchKeeps(u, m);
        case GiveUp => GiveUpKeeps(u, m);
        case Do(a) =>
          ActionKeeps(before, m.fs, a);
          if Enabled(m.fs, a) {
            match a {
              case Rename(pid) => RenameKeepsSaves(u, m, pid);
              case PowerLoss(survives, junk) =>
                LossInRange(m.fs, survives, junk);
                PowerLossKeepsSaves(before, u, m, survives, junk);
              case _ => QuietTurnKeepsSaves(u, m, a);
            }
          }
      }
    }
  }

  lemma {:induction false} TurnsKeep(before: map<string, Bytes>, u: Setup, m: Machine, turns: seq<Turn>)
    requires Inv(before, m.fs) && WellFormed(m.fs) && MachineOk(u, m)
    ensures Inv(before, Turns(u, m, turns).fs) && MachineOk(u, Turns(u, m, turns))
  {
    hide Inv, MachineOk, Take;
    if turns != [] {
      TurnsKeep(before, u, m, turns[..|turns| - 1]);
      TurnKeeps(before, u, Turns(u, m, turns[..|turns| - 1]), turns[|turns| - 1]);
    }
  }

  // ---- what is on disk stays ----

  /** These commits, by these batches, have reached the disk. */
  ghost predicate OnDiskFor(m: Machine, commits: seq<Commit>, owner: seq<nat>)
    requires WellFormed(m.fs)
  {
    |commits| <= m.fs.marks[0] && commits <= m.fs.commits && owner <= m.owner && |owner| == |commits|
  }

  lemma TurnKeepsOnDisk(before: map<string, Bytes>, u: Setup, m: Machine, t: Turn, commits: seq<Commit>,
                        owner: seq<nat>)
    requires Inv(before, m.fs) && WellFormed(m.fs) && MachineOk(u, m) && OnDiskFor(m, commits, owner)
    ensures OnDiskFor(Take(u, m, t), commits, owner)
  {
    hide Inv, Perform, MachineOk, Allowed, SavesOk, PhaseAfter, PhaseAfterBatch;
    if Allowed(u, m, t) && t.Do? && Enabled(m.fs, t.action) {
      StepKeepsSynced(before, m.fs, t.action);
      assert commits <= m.fs.commits[..m.fs.marks[0]];
      if t.action.PowerLoss? {
        LossInRange(m.fs, t.action.survives, t.action.junk);
        MarkFits(before, m.fs, t.action.survives);
        SavesLength(u, m);
        assert m.owner[..m.fs.marks[t.action.survives]][..|owner|] == m.owner[..|owner|];
      }
    }
  }

  lemma {:induction false} TurnsKeepOnDisk(before: map<string, Bytes>, u: Setup, m: Machine, turns: seq<Turn>,
                                           commits: seq<Commit>, owner: seq<nat>)
    requires Inv(before, m.fs) && WellFormed(m.fs) && MachineOk(u, m) && OnDiskFor(m, commits, owner)
    ensures OnDiskFor(Turns(u, m, turns), commits, owner)
  {
    hide Inv, MachineOk, Take, OnDiskFor;
    if turns != [] {
      var earlier := turns[..|turns| - 1];
      TurnsKeepOnDisk(before, u, m, earlier, commits, owner);
      TurnsKeep(before, u, m, earlier);
      TurnKeepsOnDisk(before, u, Turns(u, m, earlier), turns[|turns| - 1], commits, owner);
    }
  }

  /** The batch whose save can be read, or -1. */
  ghost function SavedBatch(u: Setup, m: Machine): int {
    var i := LastOn(m.fs.commits, u.file);
    if 0 <= i < |m.owner| then m.owner[i] else -1
  }

  lemma {:induction false} LastGrows(commits: seq<Commit>, more: seq<Commit>, file: string)
    requires commits <= more
    ensures LastOn(commits, file) <= LastOn(more, file)
    decreases |more|
  {
    if commits != more {
      assert commits <= more[..|more| - 1];
      LastGrows(commits, more[..|more| - 1], file);
    }
  }

  lemma SavedGrows(u: Setup, m: Machine, m': Machine)
    requires WellFormed(m'.fs) && MachineOk(u, m) && MachineOk(u, m') && OnDiskFor(m', m.fs.commits, m.owner)
    ensures SavedBatch(u, m) <= SavedBatch(u, m')
  {
    hide IsSaveOf;
    LastGrows(m.fs.commits, m'.fs.commits, u.file);
    var i := LastOn(m.fs.commits, u.file);
    if i >= 0 {
      assert m'.fs.commits[i] == m.fs.commits[i] && m'.owner[i] == m.owner[i];
    }
  }

  ghost predicate Begun(before: map<string, Bytes>, m: Machine) {
    Quiet(before, m.fs) && m.done == 0 && m.phase == Polling && m.owner == []
  }

  lemma BegunOk(before: map<string, Bytes>, u: Setup, m: Machine)
    requires Begun(before, m)
    ensures MachineOk(u, m) && m.fs.commits == []
  {
  }

  /** The store file after any batches, cut short anywhere: as it was at first, or as the store after the
      batch it was last saved for. */
  lemma FileIsSavedBatch(before: map<string, Bytes>, u: Setup, m: Machine, turns: seq<Turn>)
    requires Begun(before, m) && WellFormed(m.fs)
    ensures var e := Turns(u, m, turns);
      var j := SavedBatch(u, e);
      && -1 <= j < e.done
      && if j < 0 then FileAs(e.fs, u.file) == FileAs(m.fs, u.file)
         else Tries(u.conf, u.start, u.batches, j) && j < |u.batches|
              && FileAs(e.fs, u.file) == Some(ImageOf(Serve(u.conf, u.start, u.batches[..j + 1]).store))
  {
    hide Inv, Visible, Persistence.Now, ValueAfter, FromBytes, Tries, ImageOf, Serve, Turns;
    QuietDiskOk(before, m.fs);
    BegunOk(before, u, m);
    TurnsKeep(before, u, m, turns);
    var e := Turns(u, m, turns);
    NowShows(before, m.fs);
    NowShows(before, e.fs);
    LastIsVisible(before, e.fs.commits, u.file);
    var i := LastOn(e.fs.commits, u.file);
    SavesLength(u, e);
    if i >= 0 {
      assert IsSaveOf(u.conf, u.start, u.batches, e.owner[i], e.fs.commits[i].value);
      TriesInRange(u.conf, u.start, u.batches, e.owner[i]);
    }
  }

  /** And never older than the last save known to be on disk. When everything committed has reached the
      disk, as it has when a directory sync returns, then whatever happens after, batches, other
      writers, failing writes, stops and power losses, the store file never goes back behind the batch
      it holds at that point; and what it holds loads as faithfully as any reload. */
  lemma NeverOlderThanSynced(before: map<string, Bytes>, u: Setup, m: Machine, turns: seq<Turn>, more: seq<Turn>,
                             ops: seq<Op>)
    requires StateOk(u.conf.rules, u.start.store) && Begun(before, m) && WellFormed(m.fs)
    requires Turns(u, m, turns).fs.marks[0] == |Turns(u, m, turns).fs.commits|
    ensures var e := Turns(u, m, turns);
      var later := Turns(u, e, more);
      var j := SavedBatch(u, later);
      && SavedBatch(u, e) <= j
      && (j >= 0 ==> LoadsAsAfter(u.conf, u.start, u.batches, j, FileAs(later.fs, u.file), ops))
  {
    hide StateOk, Inv, Quiet, Turns, MachineOk, SavedBatch, FileAs, Tries, Serve, ImageOf, LoadsAs, Begun;
    Unhide(before, m);
    QuietDiskOk(before, m.fs);
    BegunOk(before, u, m);
    var e := Turns(u, m, turns);
    TurnsKeep(before, u, m, turns);
    var later := Turns(u, e, more);
    TurnsKeep(before, u, e, more);
    SavesLength(u, e);
    TurnsKeepOnDisk(before, u, e, more, e.fs.commits, e.owner);
    SavedGrows(u, e, later);
    TurnsConcat(u, m, turns, more);
    FileIsSavedBatch(before, u, m, turns + more);
    var j := SavedBatch(u, later);
    if j >= 0 {
      ServeOk(u.conf, u.start, u.batches[..j + 1]);
      LoadsAsSaved(u.conf.rules, Serve(u.conf, u.start, u.batches[..j + 1]).store, ops);
    }
  }

  lemma Unhide(before: map<string, Bytes>, m: Machine)
    requires Begun(before, m)
    ensures Quiet(before, m.fs)
  {
  }

  lemma {:induction false} TurnsConcat(u: Setup, m: Machine, turns: seq<Turn>, more: seq<Turn>)
    requires WellFormed(m.fs)
    ensures Turns(u, Turns(u, m, turns), more) == Turns(u, m, turns + more)
  {
    hide Take;
    if more == [] {
      assert turns + more == turns;
    } else {
      TurnsConcat(u, m, turns, more[..|more| - 1]);
      assert (turns + more)[..|turns + more| - 1] == turns + more[..|more| - 1];
    }
  }

  /** A directory sync that succeeds brings about just that. */
  lemma SyncReachesDisk(u: Setup, m: Machine, pid: nat)
    requires WellFormed(m.fs) && Enabled(m.fs, SyncDir(pid)) && m.fs.marks[|m.fs.marks| - 1] == |m.fs.commits|
    ensures var e := Take(u, m, Do(SyncDir(pid)));
      e.fs.marks[0] == |e.fs.commits| && SavedBatch(u, e) == SavedBatch(u, m)
  {
    hide Enabled;
  }

  // ---- saves complete ----

  lemma TurnSnoc(u: Setup, m: Machine, turns: seq<Turn>, t: Turn)
    requires WellFormed(m.fs)
    ensures Turns(u, m, turns + [t]) == Take(u, Turns(u, m, turns), t)
    ensures Turns(u, m, []) == m
  {
    hide Take;
    assert (turns + [t])[..|turns + [t]| - 1] == turns;
  }

  lemma FiveTurns(u: Setup, m: Machine, t1: Turn, t2: Turn, t3: Turn, t4: Turn, t5: Turn)
    requires WellFormed(m.fs)
    ensures Turns(u, m, [t1, t2, t3, t4, t5]) == Take(u, Take(u, Take(u, Take(u, Take(u, m, t1), t2), t3), t4), t5)
  {
    hide Take, Turns;
    var none: seq<Turn> := [];
    var one := none + [t1];
    var two := one + [t2];
    var three := two + [t3];
    var four := three + [t4];
    TurnSnoc(u, m, none, t1);
    TurnSnoc(u, m, one, t2);
    TurnSnoc(u, m, two, t3);
    TurnSnoc(u, m, three, t4);
    TurnSnoc(u, m, four, t5);
    ListOfFive(t1, t2, t3, t4, t5);
  }

  lemma ListOfFive<T>(a: T, b: T, c: T, d: T, e: T)
    ensures var none: seq<T> := []; none + [a] + [b] + [c] + [d] + [e] == [a, b, c, d, e]
  {
  }

  /** A save that nothing cuts short makes the store file that of the batch just handled, on disk, and the
      server goes on to the next one. */
  lemma SaveCanComplete(before: map<string, Bytes>, u: Setup, m: Machine, v: Bytes) returns (turns: seq<Turn>)
    requires Inv(before, m.fs) && WellFormed(m.fs) && MachineOk(u, m) && m.phase == MustSave
    requires u.pid !in m.fs.writers && IsSaveOf(u.conf, u.start, u.batches, m.done - 1, v)
    ensures var e := Turns(u, m, turns);
      && SavedBatch(u, e) == m.done - 1 && e.phase == Polling && e.done == m.done
      && e.fs.marks[0] == |e.fs.commits|
  {
    hide Inv, Perform, Enabled, IsSaveOf, Turns, MachineOk, SavedBatch;
    var pid := u.pid;
    var inode := SomeUnused(m.fs.inodes.Keys);
    assert inode !in m.fs.inodes.Keys;
    ReadyToSave(u, m);
    var s1, s2, s3, s4, s5 := WholeWrite(before, m.fs, pid, u.file, v, inode);
    var t1, t2, t3 := Do(Create(pid, u.file, v, inode)), Do(Write(pid, |v|)), Do(Sync(pid));
    var t4, t5 := Do(Rename(pid)), Do(SyncDir(pid));
    assert Take(u, m, t1) == Machine(s1, m.done, SavingNow, m.owner);
    assert Take(u, Take(u, m, t1), t2) == Machine(s2, m.done, SavingNow, m.owner);
    assert Take(u, Take(u, Take(u, m, t1), t2), t3) == Machine(s3, m.done, SavingNow, m.owner);
    var renamed := Machine(s4, m.done, SavingNow, m.owner + [m.done - 1]);
    assert Take(u, Take(u, Take(u, Take(u, m, t1), t2), t3), t4) == renamed;
    turns := [t1, t2, t3, t4, t5];
    FiveTurns(u, m, t1, t2, t3, t4, t5);
    LastSaved(u, Take(u, renamed, t5), m.fs.commits, v);
  }

  lemma ReadyToSave(u: Setup, m: Machine)
    requires MachineOk(u, m) && m.phase == MustSave
    ensures m.done > 0 && |m.owner| == |m.fs.commits|
  {
  }

  lemma LastSaved(u: Setup, m: Machine, commits: seq<Commit>, v: Bytes)
    requires m.fs.commits == commits + [Commit(u.file, v)] && |m.owner| == |m.fs.commits|
    ensures SavedBatch(u, m) == m.owner[|m.owner| - 1]
  {
  }

  /** And a batch that calls for a save leads there: the server takes it whenever it is polling. */
  lemma BatchCanBegin(u: Setup, m: Machine)
    requires WellFormed(m.fs) && m.phase == Polling && m.done < |u.batches|
    ensures var e := Take(u, m, NextBatch);
      && e.done == m.done + 1 && e.fs == m.fs
      && (e.phase == MustSave <==> Tries(u.conf, u.start, u.batches, m.done))
      && (e.phase == Down ==> !Serve(u.conf, u.start, u.batches[..m.done + 1]).running)
  {
    hide Tries, Serve;
  }
}
