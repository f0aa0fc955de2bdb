/** `atomic_write` as steps on a file system that may lose power, or a process, between any two of them.

    The file system keeps what POSIX.1-2017 (IEEE Std 1003.1, System Interfaces) promises: `rename()`
    replaces the target in one step, and data is safe once `fsync()` returned. Data that was not synced
    may come back as anything. One thing is assumed that POSIX leaves open: directory changes may be
    written back late, but in order, as journaling file systems do. After a power loss the directory is
    then in one of the states it went through since it was last synced. */
module Persistence {
  import opened Encoding

  datatype Name = Target(file: string) | Temp(tempFor: string, pid: nat)

  type Dir = map<Name, nat>

  datatype Inode = Inode(content: Bytes, synced: bool)

  datatype Stage = Writing | Flushed | Renamed

  /** A process inside `atomic_write`, with the inode its open file handle refers to. */
  datatype Writer = Writer(file: string, value: Bytes, inode: nat, stage: Stage)

  datatype Commit = Commit(file: string, value: Bytes)

  /** `dirs` are the directory states a power loss may fall back to, the last one being current.
      `commits` lists the renames that took effect, and `marks[i]` how many of them `dirs[i]` shows. */
  datatype Fs = Fs(inodes: map<nat, Inode>, dirs: seq<Dir>, writers: map<nat, Writer>,
                   commits: seq<Commit>, marks: seq<nat>)

  datatype Action =
    | Create(pid: nat, file: string, value: Bytes, newInode: nat)
    | Write(pid: nat, count: nat)
    | Sync(pid: nat)
    | Rename(pid: nat)
    | SyncDir(pid: nat)
    | Stop(pid: nat)
    | WriteBack(upTo: nat)
    | PowerLoss(survives: nat, junk: map<nat, Bytes>)

  function Now(s: Fs): Dir
    requires s.dirs != []
  {
    s.dirs[|s.dirs| - 1]
  }

  predicate WellFormed(s: Fs) {
    s.dirs != [] && |s.marks| == |s.dirs|
  }

  /** Can this step happen now? */
  predicate Enabled(s: Fs, a: Action)
    requires WellFormed(s)
  {
    match a
    case Create(pid, file, value, newInode) => pid !in s.writers && newInode !in s.inodes
    case Write(pid, count) =>
      pid in s.writers && s.writers[pid].stage == Writing && count <= |s.writers[pid].value|
      && s.writers[pid].inode in s.inodes
    case Sync(pid) =>
      pid in s.writers && s.writers[pid].stage == Writing
      && s.writers[pid].inode in s.inodes && s.inodes[s.writers[pid].inode].content == s.writers[pid].value
    case Rename(pid) =>
      pid in s.writers && s.writers[pid].stage == Flushed && Temp(s.writers[pid].file, pid) in Now(s)
    case SyncDir(pid) => pid in s.writers && s.writers[pid].stage == Renamed
    case Stop(pid) => pid in s.writers
    case WriteBack(upTo) => upTo < |s.dirs|
    case PowerLoss(survives, junk) => survives < |s.dirs|
  }

  /** Opening the temporary file truncates it if a crashed writer with the same pid left one behind. */
  function AfterCreate(s: Fs, pid: nat, file: string, value: Bytes, newInode: nat): Fs
    requires WellFormed(s)
  {
    var t := Temp(file, pid);
    if t in Now(s) then
      s.(inodes := s.inodes[Now(s)[t] := Inode([], false)],
         writers := s.writers[pid := Writer(file, value, Now(s)[t], Writing)])
    else
      s.(inodes := s.inodes[newInode := Inode([], false)], dirs := s.dirs + [Now(s)[t := newInode]],
         writers := s.writers[pid := Writer(file, value, newInode, Writing)],
         marks := s.marks + [|s.commits|])
  }

  function AfterRename(s: Fs, pid: nat): Fs
    requires WellFormed(s) && Enabled(s, Rename(pid))
  {
    var w := s.writers[pid];
    var t := Temp(w.file, pid);
    s.(dirs := s.dirs + [(Now(s) - {t})[Target(w.file) := Now(s)[t]]],
       writers := s.writers[pid := w.(stage := Renamed)],
       commits := s.commits + [Commit(w.file, w.value)],
       marks := s.marks + [|s.commits| + 1])
  }

  function Survivors(inodes: map<nat, Inode>, junk: map<nat, Bytes>): map<nat, Inode> {
    map i | i in inodes :: if inodes[i].synced then inodes[i] else Inode(if i in junk then junk[i] else [], false)
  }

  function NoWriters(): map<nat, Writer> {
    map[]
  }

  function Perform(s: Fs, a: Action): Fs
    requires WellFormed(s)
  {
    if !Enabled(s, a) then s else
    match a
    case Create(pid, file, value, newInode) => AfterCreate(s, pid, file, value, newInode)
    case Write(pid, count) =>
      var w := s.writers[pid];
      s.(inodes := s.inodes[w.inode := Inode(w.value[..count], false)])
    case Sync(pid) =>
      var w := s.writers[pid];
      s.(inodes := s.inodes[w.inode := Inode(w.value, true)], writers := s.writers[pid := w.(stage := Flushed)])
    case Rename(pid) => AfterRename(s, pid)
    case SyncDir(pid) =>
      s.(dirs := [Now(s)], marks := [s.marks[|s.marks| - 1]], writers := s.writers - {pid})
    case Stop(pid) => s.(writers := s.writers - {pid})
    case WriteBack(upTo) => s.(dirs := s.dirs[upTo..], marks := s.marks[upTo..])
    case PowerLoss(survives, junk) =>
      Fs(Survivors(s.inodes, junk), [s.dirs[survives]], NoWriters(),
         if s.marks[survives] <= |s.commits| then s.commits[..s.marks[survives]] else s.commits, [s.marks[survives]])
  }

  // ---- what a reader sees, and what it should see ----

  ghost function Visible(s: Fs, d: Dir, file: string): Option<Bytes> {
    if Target(file) in d && d[Target(file)] in s.inodes then Some(s.inodes[d[Target(file)]].content) else None
  }

  /** The value of `file` after whole writes only: the last committed one, or what was there before. */
  ghost function ValueAfter(before: map<string, Bytes>, commits: seq<Commit>, file: string): Option<Bytes> {
    if commits == [] then (if file in before then Some(before[file]) else None)
    else if commits[|commits| - 1].file == file then Some(commits[|commits| - 1].value)
    else ValueAfter(before, commits[..|commits| - 1], file)
  }

  // ---- the invariant ----

  ghost predicate Injective(d: Dir) {
    forall a, b :: a in d && b in d && d[a] == d[b] ==> a == b
  }

  /** This directory state shows exactly the first `mark` commits, in files that are safely on disk and
      that no writer's temporary name leads to any more. */
  ghost predicate DirOk(s: Fs, before: map<string, Bytes>, d: Dir, mark: nat, now: Dir) {
    && Injective(d)
    && (forall n :: n in d ==> d[n] in s.inodes)
    && mark <= |s.commits|
    && (forall f :: Visible(s, d, f) == ValueAfter(before, s.commits[..mark], f))
    && (forall f :: Target(f) in d ==> d[Target(f)] in s.inodes && s.inodes[d[Target(f)]].synced)
    && (forall f, g, pid :: Target(f) in d && Temp(g, pid) in now ==> now[Temp(g, pid)] != d[Target(f)])
  }

  ghost predicate WriterOk(s: Fs, pid: nat, w: Writer)
    requires WellFormed(s)
  {
    w.stage != Renamed ==>
      && Temp(w.file, pid) in Now(s) && Now(s)[Temp(w.file, pid)] == w.inode && w.inode in s.inodes
      && (w.stage == Flushed ==> s.inodes[w.inode] == Inode(w.value, true))
  }

  ghost predicate Inv(before: map<string, Bytes>, s: Fs) {
    && WellFormed(s)
    && s.marks[|s.marks| - 1] == |s.commits|
    && (forall i, j :: 0 <= i < j < |s.marks| ==> s.marks[i] <= s.marks[j])
    && (forall i :: 0 <= i < |s.dirs| ==> DirOk(s, before, s.dirs[i], s.marks[i], Now(s)))
    && (forall pid :: pid in s.writers ==> WriterOk(s, pid, s.writers[pid]))
  }

  /** Changing an inode that no target leads to changes no directory's view. */
  lemma TempWriteKeepsDir(s: Fs, s': Fs, before: map<string, Bytes>, d: Dir, mark: nat, i: nat, x: Inode)
    requires WellFormed(s) && DirOk(s, before, d, mark, Now(s))
    requires forall f :: Target(f) in d ==> d[Target(f)] != i
    requires s'.inodes == s.inodes[i := x] && s'.commits == s.commits
    ensures DirOk(s', before, d, mark, Now(s))
  {
    hide ValueAfter;
    forall f
      ensures Visible(s', d, f) == ValueAfter(before, s'.commits[..mark], f)
    {
      assert Visible(s, d, f) == Visible(s', d, f);
    }
  }

  lemma CreateKeeps(before: map<string, Bytes>, s: Fs, pid: nat, file: string, value: Bytes, newInode: nat)
    requires Inv(before, s) && Enabled(s, Create(pid, file, value, newInode))
    ensures Inv(before, AfterCreate(s, pid, file, value, newInode))
  {
    hide ValueAfter, Visible;
    var s', t := AfterCreate(s, pid, file, value, newInode), Temp(file, pid);
    var i := if t in Now(s) then Now(s)[t] else newInode;
    assert DirOk(s, before, Now(s), s.marks[|s.marks| - 1], Now(s));
    CreateKeepsWriters(before, s, pid, file, value, newInode);
    hide WriterOk;
    forall j | 0 <= j < |s.dirs|
      ensures DirOk(s', before, s.dirs[j], s.marks[j], Now(s'))
    {
      assert DirOk(s, before, s.dirs[j], s.marks[j], Now(s));
      TempWriteKeepsDir(s, s', before, s.dirs[j], s.marks[j], i, Inode([], false));
    }
    if t !in Now(s) {
      NewTempDir(before, s, s', t, newInode);
    }
  }

  lemma CreateKeepsWriters(before: map<string, Bytes>, s: Fs, pid: nat, file: string, value: Bytes, newInode: nat)
    requires Inv(before, s) && Enabled(s, Create(pid, file, value, newInode))
    ensures var s' := AfterCreate(s, pid, file, value, newInode);
      forall q :: q in s'.writers ==> WriterOk(s', q, s'.writers[q])
  {
    hide DirOk;
    var s', now := AfterCreate(s, pid, file, value, newInode), Now(s);
    DirInjective(before, s);
    forall q | q in s'.writers
      ensures WriterOk(s', q, s'.writers[q])
    {
      if q != pid {
        assert WriterOk(s, q, s.writers[q]);
      }
    }
  }

  lemma DirInjective(before: map<string, Bytes>, s: Fs)
    requires Inv(before, s)
    ensures Injective(Now(s))
  {
    hide Injective;
    assert DirOk(s, before, Now(s), s.marks[|s.marks| - 1], Now(s));
  }

  lemma NewTempDir(before: map<string, Bytes>, s: Fs, s': Fs, t: Name, newInode: nat)
    requires WellFormed(s) && DirOk(s, before, Now(s), |s.commits|, Now(s))
    requires t.Temp? && t !in Now(s) && newInode !in s.inodes
    requires s'.inodes == s.inodes[newInode := Inode([], false)] && s'.commits == s.commits
    ensures DirOk(s', before, Now(s)[t := newInode], |s.commits|, Now(s)[t := newInode])
  {
    hide ValueAfter;
    var d := Now(s)[t := newInode];
    forall f
      ensures Visible(s', d, f) == ValueAfter(before, s'.commits[..|s.commits|], f)
    {
      assert Visible(s, Now(s), f) == Visible(s', d, f);
    }
  }

  lemma WriteKeeps(before: map<string, Bytes>, s: Fs, pid: nat, x: Inode, w': Writer)
    requires Inv(before, s) && pid in s.writers && s.writers[pid].stage == Writing
    requires w' == s.writers[pid] || (w' == s.writers[pid].(stage := Flushed) && x == Inode(w'.value, true))
    ensures Inv(before, s.(inodes := s.inodes[s.writers[pid].inode := x], writers := s.writers[pid := w']))
  {
    hide ValueAfter, Visible;
    var w := s.writers[pid];
    var s' := s.(inodes := s.inodes[w.inode := x], writers := s.writers[pid := w']);
    assert WriterOk(s, pid, w);
    forall j | 0 <= j < |s.dirs|
      ensures DirOk(s', before, s.dirs[j], s.marks[j], Now(s'))
    {
      assert DirOk(s, before, s.dirs[j], s.marks[j], Now(s));
      TempWriteKeepsDir(s, s', before, s.dirs[j], s.marks[j], w.inode, x);
    }
    assert DirOk(s, before, Now(s), s.marks[|s.marks| - 1], Now(s));
    forall q | q in s'.writers
      ensures WriterOk(s', q, s'.writers[q])
    {
      if q != pid {
        assert WriterOk(s, q, s.writers[q]);
      }
    }
  }

  lemma ValueSnoc(before: map<string, Bytes>, commits: seq<Commit>, c: Commit, f: string)
    ensures ValueAfter(before, commits + [c], f) ==
            if c.file == f then Some(c.value) else ValueAfter(before, commits, f)
  {
    assert (commits + [c])[..|commits + [c]| - 1] == commits;
  }

  lemma RenamedDir(before: map<string, Bytes>, s: Fs, s': Fs, pid: nat)
    requires WellFormed(s) && DirOk(s, before, Now(s), |s.commits|, Now(s))
    requires Enabled(s, Rename(pid)) && WriterOk(s, pid, s.writers[pid]) && s' == AfterRename(s, pid)
    ensures DirOk(s', before, Now(s'), |s'.commits|, Now(s'))
  {
    hide ValueAfter;
    var w, d := s.writers[pid], Now(s');
    var c := Commit(w.file, w.value);
    forall f
      ensures Visible(s', d, f) == ValueAfter(before, s'.commits[..|s'.commits|], f)
    {
      ValueSnoc(before, s.commits, c, f);
      assert s'.commits[..|s'.commits|] == s.commits + [c] && s.commits[..|s.commits|] == s.commits;
      assert f != w.file ==> Visible(s', d, f) == Visible(s, Now(s), f);
    }
  }

  lemma RenameKeeps(before: map<string, Bytes>, s: Fs, pid: nat)
    requires Inv(before, s) && Enabled(s, Rename(pid))
    ensures Inv(before, AfterRename(s, pid))
  {
    hide ValueAfter, Visible;
    var s' := AfterRename(s, pid);
    assert WriterOk(s, pid, s.writers[pid]);
    assert DirOk(s, before, Now(s), s.marks[|s.marks| - 1], Now(s));
    RenamedDir(before, s, s', pid);
    forall j | 0 <= j < |s.dirs|
      ensures DirOk(s', before, s.dirs[j], s.marks[j], Now(s'))
    {
      assert DirOk(s, before, s.dirs[j], s.marks[j], Now(s));
      OlderDir(before, s, s', s.dirs[j], s.marks[j]);
    }
    forall q | q in s'.writers
      ensures WriterOk(s', q, s'.writers[q])
    {
      if q != pid {
        assert WriterOk(s, q, s.writers[q]);
      }
    }
  }

  /** Fewer temporary names and more commits leave an older directory state as good as it was. */
  lemma OlderDir(before: map<string, Bytes>, s: Fs, s': Fs, d: Dir, mark: nat)
    requires WellFormed(s) && WellFormed(s') && DirOk(s, before, d, mark, Now(s))
    requires s'.inodes == s.inodes && s.commits <= s'.commits
    requires forall g, pid :: Temp(g, pid) in Now(s') ==>
               Temp(g, pid) in Now(s) && Now(s')[Temp(g, pid)] == Now(s)[Temp(g, pid)]
    ensures DirOk(s', before, d, mark, Now(s'))
  {
    hide ValueAfter;
    assert s'.commits[..mark] == s.commits[..mark];
    forall f
      ensures Visible(s', d, f) == ValueAfter(before, s'.commits[..mark], f)
    {
      assert Visible(s, d, f) == Visible(s', d, f);
    }
  }

  lemma PowerLossKeeps(before: map<string, Bytes>, s: Fs, survives: nat, junk: map<nat, Bytes>)
    requires Inv(before, s) && survives < |s.dirs|
    ensures Inv(before, Perform(s, PowerLoss(survives, junk)))
  {
    hide ValueAfter;
    var s', d, mark := Perform(s, PowerLoss(survives, junk)), s.dirs[survives], s.marks[survives];
    assert DirOk(s, before, d, mark, Now(s));
    assert Now(s') == d && s'.commits[..mark] == s.commits[..mark];
    forall f
      ensures Visible(s', d, f) == ValueAfter(before, s'.commits[..mark], f)
    {
      assert Visible(s, d, f) == Visible(s', d, f);
    }
  }

  lemma TailKeeps(before: map<string, Bytes>, s: Fs, upTo: nat, writers: map<nat, Writer>)
    requires Inv(before, s) && upTo < |s.dirs|
    requires forall pid :: pid in writers ==> pid in s.writers && writers[pid] == s.writers[pid]
    ensures Inv(before, s.(dirs := s.dirs[upTo..], marks := s.marks[upTo..], writers := writers))
  {
    hide DirOk, ValueAfter;
    var s' := s.(dirs := s.dirs[upTo..], marks := s.marks[upTo..], writers := writers);
    assert Now(s') == Now(s);
    forall i | 0 <= i < |s'.dirs|
      ensures DirOk(s', before, s'.dirs[i], s'.marks[i], Now(s'))
    {
      assert DirOk(s, before, s.dirs[upTo + i], s.marks[upTo + i], Now(s));
      SameDir(before, s, s', s.dirs[upTo + i], s.marks[upTo + i]);
    }
    forall pid | pid in s'.writers
      ensures WriterOk(s', pid, s'.writers[pid])
    {
      assert WriterOk(s, pid, s.writers[pid]);
    }
  }

  lemma SameDir(before: map<string, Bytes>, s: Fs, s': Fs, d: Dir, mark: nat)
    requires WellFormed(s) && DirOk(s, before, d, mark, Now(s))
    requires s'.inodes == s.inodes && s'.commits == s.commits
    ensures DirOk(s', before, d, mark, Now(s))
  {
    hide ValueAfter;
    forall f
      ensures Visible(s', d, f) == ValueAfter(before, s'.commits[..mark], f)
    {
      assert Visible(s, d, f) == Visible(s', d, f);
    }
  }

  lemma ActionKeeps(before: map<string, Bytes>, s: Fs, a: Action)
    requires Inv(before, s)
    ensures Inv(before, Perform(s, a))
  {
    hide Inv, DirOk, WriterOk, AfterCreate, AfterRename, Survivors;
    InvWellFormed(before, s);
    if Enabled(s, a) {
      match a {
        case Create(pid, file, value, newInode) => CreateKeeps(before, s, pid, file, value, newInode);
        case Write(pid, count) =>
          WriteKeeps(before, s, pid, Inode(s.writers[pid].value[..count], false), s.writers[pid]);
          assert s.writers[pid := s.writers[pid]] == s.writers;
        case Sync(pid) =>
          var w := s.writers[pid];
          WriteKeeps(before, s, pid, Inode(w.value, true), w.(stage := Flushed));
        case Rename(pid) => RenameKeeps(before, s, pid);
        case SyncDir(pid) =>
          TailKeeps(before, s, |s.dirs| - 1, s.writers - {pid});
          assert s.dirs[|s.dirs| - 1..] == [Now(s)] && s.marks[|s.marks| - 1..] == [s.marks[|s.marks| - 1]];
        case Stop(pid) =>
          TailKeeps(before, s, 0, s.writers - {pid});
          assert s.dirs[0..] == s.dirs && s.marks[0..] == s.marks;
        case WriteBack(upTo) => TailKeeps(before, s, upTo, s.writers);
        case PowerLoss(survives, junk) => PowerLossKeeps(before, s, survives, junk);
      }
    }
  }

  lemma InvWellFormed(before: map<string, Bytes>, s: Fs)
    requires Inv(before, s)
    ensures WellFormed(s)
  {
  }

  /** A disk nobody is writing to, all of whose files are safe: `before` is what they hold. */
  ghost predicate Quiet(before: map<string, Bytes>, s: Fs) {
    && s.commits == [] && s.marks == [0] && |s.dirs| == 1 && |s.writers| == 0
    && Injective(Now(s)) && (forall n :: n in Now(s) ==> Now(s)[n] in s.inodes)
    && (forall f :: Target(f) in Now(s) ==> s.inodes[Now(s)[Target(f)]].synced)
    && (forall f :: f in before <==> Target(f) in Now(s))
    && (forall f :: f in before ==> s.inodes[Now(s)[Target(f)]].content == before[f])
  }

  lemma QuietDiskOk(before: map<string, Bytes>, s: Fs)
    requires Quiet(before, s)
    ensures Inv(before, s)
  {
    forall f
      ensures Visible(s, Now(s), f) == ValueAfter(before, s.commits[..0], f)
    {
      assert s.commits[..0] == [];
    }
    assert DirOk(s, before, s.dirs[0], 0, Now(s));
  }

  // ---- whole histories ----

  ghost function History(s: Fs, actions: seq<Action>): (e: Fs)
    requires WellFormed(s)
    ensures WellFormed(e)
    decreases |actions|
  {
    if actions == [] then s else Perform(History(s, actions[..|actions| - 1]), actions[|actions| - 1])
  }

  lemma {:induction false} HistoryKeeps(before: map<string, Bytes>, s: Fs, actions: seq<Action>)
    requires Inv(before, s)
    ensures Inv(before, History(s, actions))
    decreases |actions|
  {
    hide Inv, Perform;
    InvWellFormed(before, s);
    if actions != [] {
      HistoryKeeps(before, s, actions[..|actions| - 1]);
      ActionKeeps(before, History(s, actions[..|actions| - 1]), actions[|actions| - 1]);
    }
  }

  /** Crash atomicity. Whatever the writers do and wherever processes stop or power fails, what can be
      read is at every moment the result of whole committed writes, in order, and never part of one. */
  lemma OnlyWholeWrites(before: map<string, Bytes>, s: Fs, actions: seq<Action>, file: string)
    requires Inv(before, s)
    ensures var e := History(s, actions);
      Visible(e, Now(e), file) == ValueAfter(before, e.commits, file)
  {
    hide Inv, Visible, ValueAfter, Perform;
    InvWellFormed(before, s);
    HistoryKeeps(before, s, actions);
    NowShows(before, History(s, actions));
  }

  /** Every file reads as the committed writes say, now. */
  lemma NowShows(before: map<string, Bytes>, s: Fs)
    requires Inv(before, s)
    ensures WellFormed(s) && forall f :: Visible(s, Now(s), f) == ValueAfter(before, s.commits, f)
  {
    hide Visible, ValueAfter, Injective;
    assert DirOk(s, before, Now(s), s.marks[|s.marks| - 1], Now(s));
    assert s.commits[..|s.commits|] == s.commits;
  }

  lemma FlushedCanRename(before: map<string, Bytes>, s: Fs, pid: nat)
    requires Inv(before, s) && pid in s.writers && s.writers[pid].stage == Flushed
    ensures WellFormed(s) && Enabled(s, Rename(pid)) && s.marks[|s.marks| - 1] == |s.commits|
  {
    hide DirOk;
    assert WriterOk(s, pid, s.writers[pid]);
  }

  /** What one step can do to the committed writes. Only a power loss takes any back, and never one that
      the directory showed when it last reached the disk. */
  lemma StepKeepsSynced(before: map<string, Bytes>, s: Fs, a: Action)
    requires Inv(before, s)
    ensures var e := Perform(s, a);
      && s.marks[0] <= |s.commits| && s.marks[0] <= e.marks[0] <= |e.commits|
      && s.commits[..s.marks[0]] <= e.commits
      && |e.commits| <= |s.commits| + (if a.Rename? then 1 else 0)
      && (!a.PowerLoss? ==> s.commits <= e.commits)
  {
    hide DirOk, WriterOk, Survivors;
    MarkFits(before, s, 0);
    if a.PowerLoss? && a.survives < |s.dirs| {
      MarkFits(before, s, a.survives);
    }
  }

  lemma MarkFits(before: map<string, Bytes>, s: Fs, i: nat)
    requires Inv(before, s) && i < |s.dirs|
    ensures s.marks[0] <= s.marks[i] <= |s.commits|
  {
    assert DirOk(s, before, s.dirs[i], s.marks[i], Now(s));
  }

  function Renames(actions: seq<Action>): nat {
    if actions == [] then 0
    else Renames(actions[..|actions| - 1]) + (if actions[|actions| - 1].Rename? then 1 else 0)
  }

  /** Durability over whole histories: writes the directory had on disk are never lost, and at most the
      renames made since then can be added or taken back. */
  lemma {:induction false} SyncedNeverLost(before: map<string, Bytes>, s: Fs, actions: seq<Action>)
    requires Inv(before, s)
    ensures var e := History(s, actions);
      && s.marks[0] <= |s.commits| && s.marks[0] <= e.marks[0] <= |e.commits|
      && s.commits[..s.marks[0]] <= e.commits
      && |e.commits| <= |s.commits| + Renames(actions)
    decreases |actions|
  {
    hide Inv, Perform, Enabled;
    InvWellFormed(before, s);
    if actions == [] {
      MarkFits(before, s, 0);
    } else {
      var m, a := History(s, actions[..|actions| - 1]), actions[|actions| - 1];
      SyncedNeverLost(before, s, actions[..|actions| - 1]);
      HistoryKeeps(before, s, actions[..|actions| - 1]);
      StepKeepsSynced(before, m, a);
      assert s.commits[..s.marks[0]] <= m.commits[..m.marks[0]];
    }
  }

  /** When every earlier directory sync succeeded, a write cut short at any point, by any number of
      stops and power losses, leaves the last value or the one being written. */
  lemma LastOrCurrent(before: map<string, Bytes>, s: Fs, actions: seq<Action>, file: string)
    requires Inv(before, s) && WellFormed(s) && s.marks[0] == |s.commits| && Renames(actions) <= 1
    ensures var e := History(s, actions);
      || Visible(e, Now(e), file) == Visible(s, Now(s), file)
      || (s.commits < e.commits && e.commits[|s.commits|].file == file
          && Visible(e, Now(e), file) == Some(e.commits[|s.commits|].value))
  {
    hide Inv, Perform, Enabled, Visible, ValueAfter;
    InvWellFormed(before, s);
    var e := History(s, actions);
    SyncedNeverLost(before, s, actions);
    assert s.commits[..s.marks[0]] == s.commits;
    OnlyWholeWrites(before, s, actions, file);
    NowShows(before, s);
    if s.commits < e.commits {
      assert e.commits == s.commits + [e.commits[|s.commits|]];
      ValueSnoc(before, s.commits, e.commits[|s.commits|], file);
    } else {
      assert e.commits == s.commits;
    }
  }

  /** Every write of `file` that is under way, or committed past the first `n`, is of one of these values. */
  ghost predicate OnlyWrites(s: Fs, n: nat, file: string, vs: set<Bytes>) {
    && (forall pid :: pid in s.writers && s.writers[pid].file == file ==> s.writers[pid].value in vs)
    && (forall i :: n <= i < |s.commits| && s.commits[i].file == file ==> s.commits[i].value in vs)
  }

  /** The values that calls were asked to write to `file`. */
  ghost function Asked(actions: seq<Action>, file: string): set<Bytes> {
    set a | a in actions && a.Create? && a.file == file :: a.value
  }

  lemma {:induction false} HistoryWritesOnly(s: Fs, actions: seq<Action>, n: nat, file: string, vs: set<Bytes>)
    requires WellFormed(s) && OnlyWrites(s, n, file, vs)
    ensures OnlyWrites(History(s, actions), n, file, vs + Asked(actions, file))
    decreases |actions|
  {
    hide Perform, Enabled, OnlyWrites, Asked;
    if actions == [] {
      MoreWrites(s, n, file, vs, vs + Asked(actions, file));
    } else {
      var before, a := actions[..|actions| - 1], actions[|actions| - 1];
      HistoryWritesOnly(s, before, n, file, vs);
      AskedSnoc(before, a, file);
      assert actions == before + [a];
      MoreWrites(History(s, before), n, file, vs + Asked(before, file), vs + Asked(actions, file));
      StepWritesOnly(History(s, before), a, n, file, vs + Asked(actions, file));
    }
  }

  lemma MoreWrites(s: Fs, n: nat, file: string, vs: set<Bytes>, more: set<Bytes>)
    requires OnlyWrites(s, n, file, vs) && vs <= more
    ensures OnlyWrites(s, n, file, more)
  {
  }

  lemma AskedSnoc(actions: seq<Action>, a: Action, file: string)
    ensures Asked(actions, file) <= Asked(actions + [a], file)
    ensures a.Create? && a.file == file ==> a.value in Asked(actions + [a], file)
  {
    forall v | v in Asked(actions, file)
      ensures v in Asked(actions + [a], file)
    {
      var b :| b in actions && b.Create? && b.file == file && b.value == v;
      assert b in actions + [a];
    }
    assert a in actions + [a];
  }

  lemma StepWritesOnly(s: Fs, a: Action, n: nat, file: string, vs: set<Bytes>)
    requires WellFormed(s) && OnlyWrites(s, n, file, vs)
    requires a.Create? && a.file == file ==> a.value in vs
    ensures OnlyWrites(Perform(s, a), n, file, vs)
  {
    hide Now, Survivors;
  }

  lemma {:induction false} ValueIsCommitted(before: map<string, Bytes>, commits: seq<Commit>, n: nat, file: string)
    requires n <= |commits|
    ensures || ValueAfter(before, commits, file) == ValueAfter(before, commits[..n], file)
            || exists i :: n <= i < |commits| && commits[i].file == file
                           && ValueAfter(before, commits, file) == Some(commits[i].value)
    decreases |commits|
  {
    if n == |commits| {
      assert commits[..n] == commits;
    } else if commits[|commits| - 1].file != file {
      var earlier := commits[..|commits| - 1];
      ValueIsCommitted(before, earlier, n, file);
      assert earlier[..n] == commits[..n];
      if ValueAfter(before, earlier, file) != ValueAfter(before, earlier[..n], file) {
        var i :| n <= i < |earlier| && earlier[i].file == file
                 && ValueAfter(before, earlier, file) == Some(earlier[i].value);
        assert commits[i] == earlier[i];
      }
    }
  }

  /** Crash atomicity in terms of the calls. From a disk nobody is writing to, after any calls with any
      values, wherever they were cut short, `file` reads as it did at first or as one complete value that
      some call was asked to write to it. */
  lemma OnlyAskedFor(before: map<string, Bytes>, s: Fs, actions: seq<Action>, file: string)
    requires Quiet(before, s)
    ensures WellFormed(s) && WellFormed(History(s, actions))
    ensures var e := History(s, actions);
      || Visible(e, Now(e), file) == Visible(s, Now(s), file)
      || (Visible(e, Now(e), file).Some? && Visible(e, Now(e), file).value in Asked(actions, file))
  {
    hide Inv, Visible, Asked, Perform, Now;
    QuietDiskOk(before, s);
    InvWellFormed(before, s);
    NowShows(before, s);
    OnlyWholeWrites(before, s, actions, file);
    NothingWritten(before, s, file);
    HistoryWritesOnly(s, actions, 0, file, {});
    var e := History(s, actions);
    ValueIsCommitted(before, e.commits, 0, file);
    assert e.commits[..0] == s.commits;
  }

  lemma NothingWritten(before: map<string, Bytes>, s: Fs, file: string)
    requires Quiet(before, s)
    ensures s.commits == [] && OnlyWrites(s, 0, file, {})
  {
  }

  lemma LossInRange(s: Fs, survives: nat, junk: map<nat, Bytes>)
    requires WellFormed(s) && Enabled(s, PowerLoss(survives, junk))
    ensures survives < |s.dirs|
  {
  }

  // ---- which write can be read ----

  ghost function LastOn(commits: seq<Commit>, file: string): (i: int)
    ensures -1 <= i < |commits| && (i >= 0 ==> commits[i].file == file)
    ensures forall j :: i < j < |commits| ==> commits[j].file != file
  {
    if commits == [] then -1
    else if commits[|commits| - 1].file == file then |commits| - 1
    else LastOn(commits[..|commits| - 1], file)
  }

  lemma {:induction false} LastIsVisible(before: map<string, Bytes>, commits: seq<Commit>, file: string)
    ensures var i := LastOn(commits, file);
      ValueAfter(before, commits, file) == if i < 0 then ValueAfter(before, [], file) else Some(commits[i].value)
  {
    if commits != [] && commits[|commits| - 1].file != file {
      LastIsVisible(before, commits[..|commits| - 1], file);
    }
  }

  // ---- what can go wrong and what can be done ----

  /** Nothing protects data that was not synced: a power loss may leave any bytes in its place. */
  lemma UnsyncedMayBeAnything(s: Fs, survives: nat, i: nat, bytes: Bytes)
    requires WellFormed(s) && survives < |s.dirs| && i in s.inodes && !s.inodes[i].synced
    ensures var e := Perform(s, PowerLoss(survives, map[i := bytes])); i in e.inodes && e.inodes[i].content == bytes
  {
  }

  /** And nothing but the directory sync protects a rename: a power loss between the two may undo it, and every
      file reads again as before it. */
  lemma UnsyncedRenameMayBeUndone(before: map<string, Bytes>, s: Fs, pid: nat, junk: map<nat, Bytes>)
      returns (survives: nat)
    requires Inv(before, s) && WellFormed(s) && Enabled(s, Rename(pid))
    ensures var renamed := Perform(s, Rename(pid));
      var e := Perform(renamed, PowerLoss(survives, junk));
      && |renamed.commits| == |s.commits| + 1 && e.commits == s.commits
      && WellFormed(e) && forall f :: Visible(e, Now(e), f) == Visible(s, Now(s), f)
  {
    hide Inv, Visible, ValueAfter, DirOk;
    survives := |s.dirs| - 1;
    var renamed := Perform(s, Rename(pid));
    LastMark(before, s);
    ActionKeeps(before, s, Rename(pid));
    ActionKeeps(before, renamed, PowerLoss(survives, junk));
    NowShows(before, s);
    NowShows(before, Perform(renamed, PowerLoss(survives, junk)));
  }

  lemma LastMark(before: map<string, Bytes>, s: Fs)
    requires Inv(before, s)
    ensures WellFormed(s) && s.marks[|s.marks| - 1] == |s.commits|
  {
  }

  /** The system may also write a renamed directory back by itself; then nothing renamed so far can be undone. */
  lemma WriteBackIsEnough(before: map<string, Bytes>, s: Fs)
    requires Inv(before, s) && WellFormed(s)
    ensures var e := Perform(s, WriteBack(|s.dirs| - 1)); e.marks == [|s.commits|] && e.dirs == [Now(s)]
  {
    hide Inv;
    LastMark(before, s);
  }

  /** A whole write, step by step: each step is possible after the one before, and together they commit the
      value and leave nothing behind. */
  lemma WholeWrite(before: map<string, Bytes>, s: Fs, pid: nat, file: string, value: Bytes, inode: nat)
      returns (s1: Fs, s2: Fs, s3: Fs, s4: Fs, e: Fs)
    requires Inv(before, s) && WellFormed(s) && pid !in s.writers && inode !in s.inodes
    ensures Enabled(s, Create(pid, file, value, inode)) && s1 == Perform(s, Create(pid, file, value, inode))
    ensures WellFormed(s1) && Enabled(s1, Write(pid, |value|)) && s2 == Perform(s1, Write(pid, |value|))
    ensures WellFormed(s2) && Enabled(s2, Sync(pid)) && s3 == Perform(s2, Sync(pid))
    ensures WellFormed(s3) && Enabled(s3, Rename(pid)) && s4 == Perform(s3, Rename(pid))
    ensures WellFormed(s4) && Enabled(s4, SyncDir(pid)) && e == Perform(s4, SyncDir(pid))
    ensures Inv(before, e) && WellFormed(e)
    ensures s1.commits == s2.commits == s3.commits == s.commits
    ensures s4.commits == e.commits == s.commits + [Commit(file, value)]
    ensures pid in s4.writers && s4.writers[pid].file == file && s4.writers[pid].stage == Renamed
    ensures e.writers == s.writers && e.marks == [|e.commits|]
  {
    hide Inv, Now;
    s1 := Perform(s, Create(pid, file, value, inode));
    ActionKeeps(before, s, Create(pid, file, value, inode));
    InvWellFormed(before, s1);
    s2 := Perform(s1, Write(pid, |value|));
    ActionKeeps(before, s1, Write(pid, |value|));
    InvWellFormed(before, s2);
    assert value[..|value|] == value;
    s3 := Perform(s2, Sync(pid));
    ActionKeeps(before, s2, Sync(pid));
    FlushedCanRename(before, s3, pid);
    s4 := Perform(s3, Rename(pid));
    ActionKeeps(before, s3, Rename(pid));
    InvWellFormed(before, s4);
    LastMark(before, s4);
    e := Perform(s4, SyncDir(pid));
    ActionKeeps(before, s4, SyncDir(pid));
    InvWellFormed(before, e);
  }

  // ---- the method itself ----

  /** Where the operating system reports an error, if it does. */
  datatype Fault = NoFault | FailMakeDir | FailCreate | FailWrite(written: nat) | FailSync | FailRename | FailDirSync

  /** There is always an inode nobody uses. */
  lemma {:induction false} SomeUnused(used: set<nat>) returns (n: nat)
    ensures forall i :: i in used ==> i < n
    decreases used
  {
    if used == {} {
      n := 0;
    } else {
      var i :| i in used;
      var m := SomeUnused(used - {i});
      n := if i < m then m else i + 1;
      assert forall j :: j in used ==> j == i || j in used - {i};
    }
  }

  class Disk {
    var fs: Fs
    ghost const before: map<string, Bytes>

    constructor (fs: Fs, ghost before: map<string, Bytes>)
      requires Inv(before, fs)
      ensures this.fs == fs && this.before == before
    {
      this.fs := fs;
      this.before := before;
    }

    method Step(a: Action)
      requires Inv(before, fs) && WellFormed(fs) && Enabled(fs, a)
      modifies this
      ensures Inv(before, fs) && WellFormed(fs) && fs == Perform(old(fs), a)
    {
      hide Inv, Perform, Enabled;
      ActionKeeps(before, fs, a);
      fs := Perform(fs, a);
      InvWellFormed(before, fs);
    }

    /** Puts the bytes under the temporary name and makes them safe, or gives up. */
    method WriteTemp(pid: nat, file: string, bytes: Bytes, newInode: nat, fault: Fault) returns (ok: bool)
      requires Inv(before, fs) && pid !in fs.writers && newInode !in fs.inodes
      modifies this
      ensures Inv(before, fs) && fs.commits == old(fs.commits) && fs.marks[0] == old(fs.marks[0])
      ensures ok <==> !fault.FailMakeDir? && !fault.FailCreate? && !fault.FailWrite? && !fault.FailSync?
      ensures pid in fs.writers <==> ok
      ensures forall q :: q != pid && q in fs.writers <==> q in old(fs.writers)
      ensures ok ==> var w := fs.writers[pid]; w.file == file && w.value == bytes && w.stage == Flushed
    {
      hide Inv, Visible, ValueAfter, Now;
      ok := false;
      InvWellFormed(before, fs);
      if fault.FailMakeDir? || fault.FailCreate? {
        return;
      }
      Step(Create(pid, file, bytes, newInode));
      if fault.FailWrite? {
        Step(Write(pid, if fault.written <= |bytes| then fault.written else |bytes|));
        Step(Stop(pid));
        return;
      }
      Step(Write(pid, |bytes|));
      if fault.FailSync? {
        Step(Stop(pid));
        return;
      }
      Step(Sync(pid));
      ok := true;
    }

    /** Gives the bytes their real name. */
    method Publish(pid: nat, fault: Fault) returns (ok: bool)
      requires Inv(before, fs) && pid in fs.writers && fs.writers[pid].stage == Flushed
      modifies this
      ensures Inv(before, fs) && pid !in fs.writers
      ensures forall q :: q in fs.writers <==> q != pid && q in old(fs.writers)
      ensures ok <==> !fault.FailRename?
      ensures var w := old(fs.writers[pid]);
        fs.commits == if ok then old(fs.commits) + [Commit(w.file, w.value)] else old(fs.commits)
      ensures if fault.FailRename? || fault.FailDirSync? then fs.marks[0] == old(fs.marks[0])
              else fs.marks == [|fs.commits|]
    {
      hide Inv, Visible, ValueAfter, Now;
      FlushedCanRename(before, fs, pid);
      ok := !fault.FailRename?;
      if ok {
        Step(Rename(pid));
      }
      Step(if fault.FailRename? || fault.FailDirSync? then Stop(pid) else SyncDir(pid));
    }

    /** Replaces `file` by `bytes` as one step for every reader, or reports an error and changes no file.
        Success means durable, unless the directory could not be synced. */
    method AtomicWrite(pid: nat, file: string, bytes: Bytes, newInode: nat, fault: Fault) returns (ok: bool)
      requires Inv(before, fs) && pid !in fs.writers && newInode !in fs.inodes
      modifies this
      ensures Inv(before, fs) && fs.writers.Keys == old(fs.writers.Keys)
      ensures ok <==> fault.NoFault? || fault.FailDirSync?
      ensures fs.commits == if ok then old(fs.commits) + [Commit(file, bytes)] else old(fs.commits)
      ensures forall f :: Visible(fs, Now(fs), f) ==
                          if ok && f == file then Some(bytes) else old(Visible(fs, Now(fs), f))
      ensures fault.NoFault? ==> fs.marks == [|fs.commits|]
      ensures !fault.NoFault? ==> fs.marks[0] == old(fs.marks[0])
    {
      hide Inv, Visible, ValueAfter, Now;
      NowShows(before, fs);
      forall f {
        ValueSnoc(before, fs.commits, Commit(file, bytes), f);
      }
      ok := WriteTemp(pid, file, bytes, newInode, fault);
      if ok {
        ok := Publish(pid, fault);
      }
      NowShows(before, fs);
    }
  }
}
