/** What the inbox command's snapshot shows of the mail before its cursor. The snapshot is overwritten by every
    run with that run's drain alone, so it is only ever a window. */
module InboxMail {
  import opened Encoding
  import opened Unicode
  import opened Persistence
  import opened InboxCommand
  import Store

  // ---- the cursor file ----

  function Digit(n: nat): char
    requires n < 10
  {
    ('0' as int + n) as char
  }

  /** `to_string` of a `usize`. */
  function Decimal(n: nat): (s: string)
    ensures s != [] && AllDigits(s)
  {
    if n < 10 then [Digit(n)] else Decimal(n / 10) + [Digit(n % 10)]
  }

  predicate AllDigits(s: string) {
    forall c :: c in s ==> IsDigit(c)
  }

  function Value(s: string): nat
    requires AllDigits(s)
  {
    if s == [] then 0 else
      var last := s[|s| - 1];
      assert IsDigit(last);
      10 * Value(s[..|s| - 1]) + (last as int - '0' as int)
  }

  /** `parse` of a `usize`: an optional plus sign and at least one digit, in range. */
  function ParseUsize(s: string): Option<nat> {
    var digits := if s != [] && s[0] == '+' then s[1..] else s;
    if digits == [] || !AllDigits(digits) || Value(digits) >= U64_LIMIT then None else Some(Value(digits))
  }

  function CursorBytes(n: nat): Bytes {
    Utf8(Decimal(n))
  }

  /** A missing, unreadable or malformed cursor file counts as zero. */
  function ReadCursor(file: Option<Bytes>): nat {
    match file
    case None => 0
    case Some(bytes) =>
      match DecodeUtf8(bytes)
      case None => 0
      case Some(text) =>
        match ParseUsize(Trim(text))
        case None => 0
        case Some(n) => n
  }

  lemma {:induction false} DecimalValue(n: nat)
    ensures Value(Decimal(n)) == n
  {
    if n >= 10 {
      DecimalValue(n / 10);
      assert Decimal(n)[..|Decimal(n)| - 1] == Decimal(n / 10);
    }
  }

  lemma CursorRoundTrip(n: nat)
    requires n < U64_LIMIT
    ensures ReadCursor(Some(CursorBytes(n))) == n
  {
    var s := Decimal(n);
    Utf8RoundTrip(s);
    DecimalValue(n);
    assert s[0] in s && s[|s| - 1] in s;
    TrimmedIsFixed(s);
  }

  /** A cursor other than zero was read from a file that holds this number in digits, perhaps after a plus sign and
      between white space; everything else counts as zero. */
  lemma CursorMeans(file: Option<Bytes>) returns (text: string, digits: string)
    requires ReadCursor(file) != 0
    ensures file.Some? && DecodeUtf8(file.value) == Some(text)
    ensures Trim(text) == digits || Trim(text) == "+" + digits
    ensures digits != [] && AllDigits(digits) && Value(digits) == ReadCursor(file) < U64_LIMIT
  {
    text := DecodeUtf8(file.value).value;
    var t := Trim(text);
    if t[0] == '+' {
      digits := t[1..];
      assert t == "+" + digits;
    } else {
      digits := t;
    }
  }

  // ---- runs that follow the command ----

  /** Reads the ids of the messages in a snapshot. */
  type Reader = Bytes -> seq<string>

  /** What the values of a run are: it drains the mail pending from the saved cursor, and saves what it
      drained and the length of the queue. */
  ghost predicate JobOk(show: Reader, job: Job) {
    && job.start <= |job.pending| < U64_LIMIT
    && show(job.snapshot) == Store.From(job.pending, job.start)
    && job.cursor == CursorBytes(|job.pending|)
  }

  /** From run to run mail only arrives. */
  ghost predicate JobsOk(show: Reader, jobs: seq<Job>) {
    && (forall i :: 0 <= i < |jobs| ==> JobOk(show, jobs[i]))
    && (forall i, j :: 0 <= i <= j < |jobs| ==> jobs[i].pending <= jobs[j].pending)
  }

  /** A run that begins now reads the cursor that is visible now. */
  ghost predicate BeginsWell(show: Reader, m: Machine, job: Job)
    requires WellFormed(m.fs)
  {
    && JobOk(show, job) && job.start == ReadCursor(Visible(m.fs, Now(m.fs), CURSOR))
    && (m.jobs != [] ==> Current(m).pending <= job.pending)
  }

  /** A run that finds no cursor begins at the front of the queue and shows all of it. */
  lemma FirstRunShowsAll(show: Reader, m: Machine, job: Job)
    requires WellFormed(m.fs) && BeginsWell(show, m, job) && Visible(m.fs, Now(m.fs), CURSOR).None?
    ensures job.start == 0 && show(job.snapshot) == job.pending
  {
    hide Visible, Now;
    assert job.pending[0..] == job.pending;
  }

  ghost predicate Follows(show: Reader, m: Machine, turns: seq<Turn>)
    requires WellFormed(m.fs)
  {
    forall i :: 0 <= i < |turns| && turns[i].Begin? ==> BeginsWell(show, Turns(m, turns[..i]), turns[i].job)
  }

  ghost function SavedCursor(before: map<string, Bytes>, commits: seq<Commit>): nat {
    ReadCursor(ValueAfter(before, commits, CURSOR))
  }

  /** Each snapshot was committed while the cursor its run started from was still the one on disk. */
  ghost predicate StartsOk(before: map<string, Bytes>, commits: seq<Commit>, owner: seq<nat>, jobs: seq<Job>) {
    && |owner| == |commits|
    && forall i :: 0 <= i < |commits| && commits[i].file == SNAPSHOT ==>
         owner[i] < |jobs| && SavedCursor(before, commits[..i]) == jobs[owner[i]].start
  }

  ghost predicate MailOk(show: Reader, before: map<string, Bytes>, m: Machine) {
    && JobsOk(show, m.jobs)
    && StartsOk(before, m.fs.commits, m.owner, m.jobs)
    && (m.phase == Fetched || m.phase == SavingSnapshot ==>
          m.jobs != [] && SavedCursor(before, m.fs.commits) == Current(m).start)
  }

  lemma StartsSnoc(before: map<string, Bytes>, commits: seq<Commit>, owner: seq<nat>, jobs: seq<Job>, c: Commit,
                   run: nat)
    requires StartsOk(before, commits, owner, jobs)
    requires c.file == SNAPSHOT ==> run < |jobs| && SavedCursor(before, commits) == jobs[run].start
    ensures StartsOk(before, commits + [c], owner + [run], jobs)
    ensures c.file != CURSOR ==> SavedCursor(before, commits + [c]) == SavedCursor(before, commits)
  {
    hide ReadCursor;
    forall i | 0 <= i <= |commits|
      ensures (commits + [c])[..i] == commits[..i]
    {
    }
    assert commits[..|commits|] == commits;
    ValueSnoc(before, commits, c, CURSOR);
  }

  lemma StartsPrefix(before: map<string, Bytes>, commits: seq<Commit>, owner: seq<nat>, jobs: seq<Job>, n: nat)
    requires StartsOk(before, commits, owner, jobs) && n <= |commits|
    ensures StartsOk(before, commits[..n], owner[..n], jobs)
  {
    hide SavedCursor;
    forall i | 0 <= i < n
      ensures commits[..n][..i] == commits[..i]
    {
    }
  }

  lemma JobsSnoc(show: Reader, jobs: seq<Job>, job: Job)
    requires JobsOk(show, jobs) && JobOk(show, job) && (jobs != [] ==> jobs[|jobs| - 1].pending <= job.pending)
    ensures JobsOk(show, jobs + [job])
  {
    hide JobOk;
    forall i, j | 0 <= i <= j < |jobs + [job]|
      ensures (jobs + [job])[i].pending <= (jobs + [job])[j].pending
    {
      if j == |jobs| && i < j {
        assert jobs[i].pending <= jobs[|jobs| - 1].pending;
      }
    }
  }

  lemma BeginMailOk(show: Reader, before: map<string, Bytes>, m: Machine, job: Job)
    requires WellFormed(m.fs) && Inv(before, m.fs) && MailOk(show, before, m)
    requires Allowed(m, Begin(job)) && BeginsWell(show, m, job)
    ensures MailOk(show, before, Take(m, Begin(job)))
  {
    hide Inv, Visible, ValueAfter, ReadCursor, JobOk, Now;
    NowShows(before, m.fs);
    JobsSnoc(show, m.jobs, job);
  }

  lemma RenameMailOk(show: Reader, before: map<string, Bytes>, m: Machine, pid: nat)
    requires WellFormed(m.fs) && PairOk(m) && MailOk(show, before, m) && Enabled(m.fs, Rename(pid))
    ensures MailOk(show, before, Take(m, Do(Rename(pid))))
  {
    hide JobsOk, StartsOk, SavedCursor, CommitsOk, SnapshotDone, Now;
    var w, run := m.fs.writers[pid], if m.jobs == [] then 0 else |m.jobs| - 1;
    assert PairWriterOk(m, pid, w);
    StartsSnoc(before, m.fs.commits, m.owner, m.jobs, Commit(w.file, w.value), run);
  }

  lemma PowerLossMailOk(show: Reader, before: map<string, Bytes>, m: Machine, survives: nat, junk: map<nat, Bytes>)
    requires Inv(before, m.fs) && WellFormed(m.fs) && PairOk(m) && MailOk(show, before, m) && survives < |m.fs.dirs|
    ensures MailOk(show, before, Take(m, Do(PowerLoss(survives, junk))))
  {
    hide Inv, Survivors, JobsOk, StartsOk, SavedCursor, PairOk;
    MarkFits(before, m.fs, survives);
    CommitsLength(m);
    StartsPrefix(before, m.fs.commits, m.owner, m.jobs, m.fs.marks[survives]);
  }

  lemma QuietTurnMailOk(show: Reader, before: map<string, Bytes>, m: Machine, a: Action)
    requires WellFormed(m.fs) && MailOk(show, before, m)
    requires Enabled(m.fs, a) && Allowed(m, Do(a)) && !a.Rename? && !a.PowerLoss?
    ensures MailOk(show, before, Take(m, Do(a)))
  {
    hide JobsOk, StartsOk, SavedCursor, Now;
    var m' := Take(m, Do(a));
    assert m'.fs.commits == m.fs.commits && m'.owner == m.owner;
  }

  lemma TurnMailOk(show: Reader, before: map<string, Bytes>, m: Machine, t: Turn)
    requires Inv(before, m.fs) && WellFormed(m.fs) && PairOk(m) && MailOk(show, before, m)
    requires t.Begin? ==> BeginsWell(show, m, t.job)
    ensures MailOk(show, before, Take(m, t))
  {
    hide Inv, Perform, PairOk, MailOk, Allowed, Enabled, BeginsWell;
    if Allowed(m, t) {
      match t {
        case Begin(job) => BeginMailOk(show, before, m, job);
        case Do(a) =>
          if Enabled(m.fs, a) {
            match a {
              case Rename(pid) => RenameMailOk(show, before, m, pid);
              case PowerLoss(survives, junk) =>
                LossInRange(m.fs, survives, junk);
                PowerLossMailOk(show, before, m, survives, junk);
              case _ => QuietTurnMailOk(show, before, m, a);
            }
          }
      }
    }
  }

  lemma {:induction false} TurnsMailOk(show: Reader, before: map<string, Bytes>, m: Machine, turns: seq<Turn>)
    requires Inv(before, m.fs) && WellFormed(m.fs) && PairOk(m) && MailOk(show, before, m) && Follows(show, m, turns)
    ensures MailOk(show, before, Turns(m, turns))
  {
    hide Inv, PairOk, MailOk, Take, BeginsWell;
    if turns != [] {
      var earlier, t := turns[..|turns| - 1], turns[|turns| - 1];
      FollowsPrefix(show, m, turns);
      TurnsMailOk(show, before, m, earlier);
      TurnsPairOk(before, m, earlier);
      TurnMailOk(show, before, Turns(m, earlier), t);
    }
  }

  lemma FollowsPrefix(show: Reader, m: Machine, turns: seq<Turn>)
    requires WellFormed(m.fs) && turns != [] && Follows(show, m, turns)
    ensures Follows(show, m, turns[..|turns| - 1])
    ensures turns[|turns| - 1].Begin? ==>
              BeginsWell(show, Turns(m, turns[..|turns| - 1]), turns[|turns| - 1].job)
  {
    hide BeginsWell, Turns;
    var earlier := turns[..|turns| - 1];
    forall i | 0 <= i < |earlier| && earlier[i].Begin?
      ensures BeginsWell(show, Turns(m, earlier[..i]), earlier[i].job)
    {
      assert earlier[..i] == turns[..i];
    }
  }

  // ---- what the reader finds ----

  /** Between the last snapshot and the end no cursor was committed, or only that of the same run. */
  lemma CursorSinceSnapshot(before: map<string, Bytes>, m: Machine)
    requires PairOk(m) && StartsOk(before, m.fs.commits, m.owner, m.jobs) && RunOf(m, SNAPSHOT) >= 0
    ensures var s := RunOf(m, SNAPSHOT);
      && s < |m.jobs|
      && (RunOf(m, CURSOR) != s ==> SavedCursor(before, m.fs.commits) == m.jobs[s].start)
  {
    hide ReadCursor, HasSnapshot;
    var commits := m.fs.commits;
    var p, q := LastOn(commits, SNAPSHOT), LastOn(commits, CURSOR);
    if q < p {
      LastBefore(commits, CURSOR, p);
      LastIsVisible(before, commits, CURSOR);
      LastIsVisible(before, commits[..p], CURSOR);
    } else {
      SnapshotNotBehind(commits, m.owner, m.jobs);
      assert IsPairFile(commits[p].file) && IsPairFile(commits[q].file) && p != q;
    }
  }

  lemma {:induction false} LastBefore(commits: seq<Commit>, file: string, n: nat)
    requires LastOn(commits, file) < n <= |commits|
    ensures LastOn(commits[..n], file) == LastOn(commits, file)
    decreases |commits|
  {
    if n == |commits| {
      assert commits[..n] == commits;
    } else {
      LastBefore(commits[..|commits| - 1], file, n);
      assert commits[..|commits| - 1][..n] == commits[..n];
    }
  }

  ghost predicate Distinct(ids: seq<string>) {
    forall i, j :: 0 <= i < j < |ids| ==> ids[i] != ids[j]
  }

  /** All of the first `n` messages are in `shown`. */
  ghost predicate ShowsFirst(shown: seq<string>, ids: seq<string>, n: nat)
    requires n <= |ids|
  {
    forall i :: 0 <= i < n ==> ids[i] in shown
  }

  lemma WindowShows(ids: seq<string>, start: nat, n: nat)
    requires Distinct(ids) && start <= |ids| && (n == |ids| || n == start)
    ensures ShowsFirst(Store.From(ids, start), ids, n) <==> start == 0
  {
    if start > 0 {
      forall x | x in Store.From(ids, start)
        ensures x != ids[0]
      {
        var i :| 0 <= i < |Store.From(ids, start)| && Store.From(ids, start)[i] == x;
        assert ids[start + i] == x;
      }
      assert 0 < n && ids[0] !in Store.From(ids, start);
    } else {
      assert forall i :: 0 <= i < n ==> ids[i] in Store.From(ids, 0);
    }
  }

  /** What snapshot and cursor say after any runs, each cut short anywhere, while mail only arrives. Let `s`
      be the run whose snapshot can be read. It shows the mail from where that run started. The cursor
      is past all of it if that run finished, and still where it started if it did not. So of the mail
      before the cursor the snapshot lacks what came before that run, which is everything if it was cut
      short; and the snapshot shows all mail before the cursor if and only if the run started at zero. */
  lemma SnapshotIsWindow(show: Reader, before: map<string, Bytes>, m: Machine, turns: seq<Turn>)
    requires Started(before, m) && WellFormed(m.fs) && Follows(show, m, turns)
    requires RunOf(Turns(m, turns), SNAPSHOT) >= 0
    ensures var e := Turns(m, turns);
      var s := RunOf(e, SNAPSHOT);
      && s < |e.jobs| && Visible(e.fs, Now(e.fs), SNAPSHOT).Some?
      && var job, finished := e.jobs[s], RunOf(e, CURSOR) == s;
         var shown := show(Visible(e.fs, Now(e.fs), SNAPSHOT).value);
         var cursor := ReadCursor(Visible(e.fs, Now(e.fs), CURSOR));
         && shown == Store.From(job.pending, job.start)
         && cursor == (if finished then |job.pending| else job.start)
         && job.start <= cursor <= |job.pending|
         && job.pending[..cursor] == job.pending[..job.start] + (if finished then shown else [])
         && (Distinct(job.pending) ==> (ShowsFirst(shown, job.pending, cursor) <==> job.start == 0))
  {
    hide Inv, Visible, Now, ValueAfter, PairOk, MailOk, Follows, Distinct, ShowsFirst, ReadCursor, CursorBytes, JobOk,
      Started, Turns, RunOf, Store.From;
    CursorNeverAhead(before, m, turns);
    Reached(show, before, m, turns);
    var e := Turns(m, turns);
    var s := RunOf(e, SNAPSHOT);
    WindowFacts(show, e.jobs[s], RunOf(e, CURSOR) == s);
  }

  lemma Reached(show: Reader, before: map<string, Bytes>, m: Machine, turns: seq<Turn>)
    requires Started(before, m) && WellFormed(m.fs) && Follows(show, m, turns)
    requires RunOf(Turns(m, turns), SNAPSHOT) >= 0
    ensures var e := Turns(m, turns);
      var s := RunOf(e, SNAPSHOT);
      && s < |e.jobs| && JobOk(show, e.jobs[s])
      && (RunOf(e, CURSOR) != s ==> ReadCursor(Visible(e.fs, Now(e.fs), CURSOR)) == e.jobs[s].start)
  {
    hide Inv, Visible, Now, ValueAfter, PairOk, StartsOk, Follows, ReadCursor, JobOk, Turns, RunOf;
    QuietDiskOk(before, m.fs);
    QuietPairOk(before, m);
    QuietMailOk(show, before, m);
    TurnsPairOk(before, m, turns);
    TurnsMailOk(show, before, m, turns);
    NowShows(before, Turns(m, turns).fs);
    CursorSinceSnapshot(before, Turns(m, turns));
  }

  lemma WindowFacts(show: Reader, job: Job, finished: bool)
    requires JobOk(show, job)
    ensures var shown, cursor := show(job.snapshot), if finished then ReadCursor(Some(job.cursor)) else job.start;
      && shown == Store.From(job.pending, job.start)
      && cursor == (if finished then |job.pending| else job.start)
      && job.start <= cursor <= |job.pending|
      && job.pending[..cursor] == job.pending[..job.start] + (if finished then shown else [])
      && (Distinct(job.pending) ==> (ShowsFirst(shown, job.pending, cursor) <==> job.start == 0))
  {
    hide ReadCursor, CursorBytes, Distinct, ShowsFirst;
    CursorRoundTrip(|job.pending|);
    var n := if finished then |job.pending| else job.start;
    assert job.pending[..|job.pending|] == job.pending[..job.start] + job.pending[job.start..];
    if Distinct(job.pending) {
      WindowShows(job.pending, job.start, n);
    }
  }

  lemma QuietMailOk(show: Reader, before: map<string, Bytes>, m: Machine)
    requires Started(before, m)
    ensures MailOk(show, before, m)
  {
  }

  /** The smallest case, without any crash: a run drains all mail, and the next finds nothing new. Then no
      message can be read any more, although the cursor is past all of them. */
  method SecondRunHidesMail(d: Disk, show: Reader, first: Job, second: Job)
    requires Inv(d.before, d.fs) && first.pid !in d.fs.writers && second.pid !in d.fs.writers
    requires JobOk(show, first) && first.start == 0
    requires JobOk(show, second) && second.pending == first.pending && second.start == |first.pending|
    modifies d
    ensures Inv(d.before, d.fs) && WellFormed(d.fs)
    ensures ReadCursor(Visible(d.fs, Now(d.fs), CURSOR)) == |first.pending|
    ensures Visible(d.fs, Now(d.fs), SNAPSHOT).Some? && show(Visible(d.fs, Now(d.fs), SNAPSHOT).value) == []
  {
    hide Inv, Visible, Now, ReadCursor, CursorBytes;
    var ok := SavePair(d, first, NoFault, NoFault);
    ok := SavePair(d, second, NoFault, NoFault);
    CursorRoundTrip(|first.pending|);
  }
}
