/** The store file and the store together: a mailbox that dies while it saves itself. */
module Restarting {
  import opened Encoding
  import opened Lanes
  import opened Store
  import opened StoreFiles
  import opened Reloading
  import opened Persistence
  import opened Mailbox
  import opened Service
  import opened Serving

  /** What the store file loads as. */
  ghost function FileAs(s: Fs, file: string): Option<Image>
    requires WellFormed(s)
  {
    match Visible(s, Now(s), file)
    case None => None
    case Some(bytes) => FromBytes(bytes)
  }

  /** The store file safely holds `previous`, and a process is cut short anywhere while replacing it by `updated`,
      by any number of stops and power losses. Loading the file then gives a store that answers every
      later sequence of operations as `previous` or as `updated` would, if none delivers again a message that
      was acknowledged by then. */
  lemma CrashWhileSaving(k: Rules, before: map<string, Bytes>, fs: Fs, actions: seq<Action>,
                         file: string, previous: State, updated: State, saved: Bytes, ops: seq<Op>)
    requires StateOk(k, previous) && StateOk(k, updated)
    requires Inv(before, fs) && WellFormed(fs) && fs.marks[0] == |fs.commits|
    requires FileAs(fs, file) == Some(ImageOf(previous)) && FromBytes(saved) == Some(ImageOf(updated))
    requires OnlyWrites(fs, |fs.commits|, file, {saved}) && Asked(actions, file) <= {saved} && Renames(actions) <= 1
    ensures exists s :: (s == previous || s == updated) && LoadsAs(k, FileAs(History(fs, actions), file), s, ops)
  {
    hide StateOk, ImageOf, FromBytes, Inv, Reload, Visible, History, OnlyWrites, Asked, NoneRedelivers, LoadsAs;
    var e := History(fs, actions);
    LastOrCurrent(before, fs, actions, file);
    HistoryWritesOnly(fs, actions, |fs.commits|, file, {saved});
    MoreWrites(e, |fs.commits|, file, {saved} + Asked(actions, file), {saved});
    if Visible(e, Now(e), file) == Visible(fs, Now(fs), file) {
      LoadsAsSaved(k, previous, ops);
      assert LoadsAs(k, FileAs(e, file), previous, ops);
    } else {
      CommittedIsNew(e, |fs.commits|, file, saved);
      LoadsAsSaved(k, updated, ops);
      assert LoadsAs(k, FileAs(e, file), updated, ops);
    }
  }

  ghost predicate LoadsAs(k: Rules, image: Option<Image>, s: State, ops: seq<Op>) {
    && image.Some? && ImageOk(k, image.value)
    && (Replies(k, s, ops) == Replies(k, Reload(image.value), ops) <==> NoneRedelivers(k, Lost(k, s), ops))
  }

  lemma LoadsAsSaved(k: Rules, s: State, ops: seq<Op>)
    requires StateOk(k, s)
    ensures LoadsAs(k, Some(ImageOf(s)), s, ops)
  {
    hide StateOk, ImageOk, ImageOf, Reload, Lost, NoneRedelivers, Replies;
    SavedImageOk(k, s);
    ReloadFaithful(k, s, ops);
  }

  lemma CommittedIsNew(e: Fs, n: nat, file: string, v: Bytes)
    requires OnlyWrites(e, n, file, {v}) && n < |e.commits| && e.commits[n].file == file
    ensures e.commits[n].value == v
  {
  }

  // ---- the serve loop on a real disk ----

  /** Did this step of the file system report success to `atomic_write`'s caller? */
  predicate Succeeds(fault: Fault) {
    fault.NoFault? || fault.FailDirSync?
  }

  /** A server that saves through `atomic_write` is the one of `Serving`: what it takes for its disk is, after
      every batch, what the store file reads as, and a write succeeds exactly if `atomic_write` does. */
  method ServeOnDisk(server: MailboxServer, d: Disk, file: string, pid: nat, messages: seq<AppMessage>,
                     fault: Fault, overflowChecks: bool) returns (sent: seq<Sent>)
    requires server.Valid() && server.running && server.hasPath
    requires SizedImage(ImageOf(Handled(server.Conf(), server.svc.store.model, messages).store))
    requires Inv(d.before, d.fs) && WellFormed(d.fs) && pid !in d.fs.writers
    requires server.disk == FileAs(d.fs, file)
    modifies server, server.svc.store, d
    ensures server.Valid() && Inv(d.before, d.fs) && WellFormed(d.fs)
    ensures server.Now() == ServeOne(server.Conf(), old(server.Now()), Batch(messages, Succeeds(fault), false))
    ensures server.disk == FileAs(d.fs, file)
    ensures sent == Handled(server.Conf(), old(server.svc.store.model), messages).sent
  {
    hide Handled, ImageOf, SizedImage, FromBytes, Inv, Visible, Persistence.Now, MailboxStore.Valid;
    var dirty: bool;
    sent, dirty := server.HandleBatch(messages, overflowChecks);
    if server.running && dirty {
      var image := server.svc.store.Snapshot();
      var bytes := ToBytes(image);
      ghost var unused := SomeUnused(d.fs.inodes.Keys);
      assert unused !in d.fs.inodes.Keys;
      var inode :| inode >= 0 && inode !in d.fs.inodes;
      var ok := d.AtomicWrite(pid, file, bytes, inode, fault);
      InvWellFormed(d.before, d.fs);
      if ok {
        server.disk := Some(image);
      }
    }
  }

  /** Batch `j` of the run reached its write. */
  ghost predicate Tries(c: Config, start: Server, batches: seq<Batch>, j: nat) {
    && j < |batches|
    && var v := Serve(c, start, batches[..j]);
    && v.running && Handled(c, v.store, batches[j].messages).dirty
    && !Handled(c, v.store, batches[j].messages).panicked && !batches[j].stops
  }

  /** `v` is a form of what the server saves after batch `j`. */
  ghost predicate IsSaveOf(c: Config, start: Server, batches: seq<Batch>, j: nat, v: Bytes) {
    Tries(c, start, batches, j) && FromBytes(v) == Some(ImageOf(Serve(c, start, batches[..j + 1]).store))
  }

  ghost predicate LoadsAsAfter(c: Config, start: Server, batches: seq<Batch>, j: nat, image: Option<Image>,
                               ops: seq<Op>)
  {
    Tries(c, start, batches, j) && LoadsAs(c.rules, image, Serve(c, start, batches[..j + 1]).store, ops)
  }

  /** Everything together. A server saves through `atomic_write` after any batches, other processes write
      other files, and it is all cut short anywhere, by any stops and power losses: the store file is then
      as it was at first, or it loads as the store after one of the batches that were saved. */
  lemma CutShortAnywhere(c: Config, before: map<string, Bytes>, fs: Fs, file: string,
                         start: Server, batches: seq<Batch>, actions: seq<Action>, ops: seq<Op>)
    requires StateOk(c.rules, start.store) && Quiet(before, fs)
    requires forall v :: v in Asked(actions, file) ==> exists j: nat :: IsSaveOf(c, start, batches, j, v)
    ensures WellFormed(fs) && WellFormed(History(fs, actions))
    ensures var image := FileAs(History(fs, actions), file);
      image == FileAs(fs, file) || exists j: nat :: LoadsAsAfter(c, start, batches, j, image, ops)
  {
    hide StateOk, ImageOf, FromBytes, Inv, Quiet, Visible, Persistence.Now, History, Asked, Handled, LoadsAs, Tries,
      ServeOne;
    OnlyAskedFor(before, fs, actions, file);
    var e := History(fs, actions);
    var read := Visible(e, Persistence.Now(e), file);
    if read != Visible(fs, Persistence.Now(fs), file) {
      var j: nat :| IsSaveOf(c, start, batches, j, read.value);
      TriesInRange(c, start, batches, j);
      ServeOk(c, start, batches[..j + 1]);
      LoadsAsSaved(c.rules, Serve(c, start, batches[..j + 1]).store, ops);
      assert LoadsAsAfter(c, start, batches, j, FileAs(e, file), ops);
    }
  }

  lemma TriesInRange(c: Config, start: Server, batches: seq<Batch>, j: nat)
    requires Tries(c, start, batches, j)
    ensures j < |batches|
  {
  }
}
