# A verified model of ce-mail

ce-mail is an end-to-end encrypted mail system: clients seal bodies and attachments into content-addressed blobs, sign
envelopes, and leave them with a mailbox node that stores them for a recipient who granted it the right to. This project
models that system in Dafny and proves what its parts promise: that the mailbox loses and repeats nothing it does not
say it may, that what is sent is what is opened, that threading does not depend on the order of the input, and what
survives a restart, a crash or a race.

`dafny verify dfyconfig.toml` checks everything.

## How it is laid out

| file | what it models |
|---|---|
| `Encoding.dfy`, `Unicode.dfy` | UTF-8, the fixed-width bincode layout, white space and ASCII case |
| `Envelope.dfy`, `Receipt.dfy`, `Content.dfy` | signed envelopes and receipts, node ids, sealed bodies and attachments |
| `Limits.dfy` | size limits and the page clamp |
| `Lanes.dfy`, `Store.dfy`, `Mailbox.dfy` | one recipient's queue as an append-only log, the store as a state machine, and the class `MailboxStore` proved against it |
| `Runs.dfy` | properties of all runs of the store: log refinement, de-duplication, drain and acknowledge, paging |
| `StoreFile.dfy` | the bytes of a saved store, written and read back |
| `Reload.dfy` | a saved and reloaded store against the one that was never restarted |
| `Service.dfy`, `ServiceRuns.dfy` | the class `MailService`, its gate, and properties of all runs behind the gate |
| `Requests.dfy` | what every single request is answered and does, said of the queues alone |
| `Serving.dfy` | the serve loop: batches, the dirty flag, what is on disk |
| `Shared.dfy` | threads interleaving on one store, with the mutex that guards it and without |
| `Persist.dfy`, `Restart.dfy`, `Saving.dfy` | `atomic_write` on a file system that can stop or lose power at every step, the mailbox server on it, and the order of its saves |
| `Inbox.dfy`, `InboxMail.dfy` | the inbox command's snapshot and cursor on that file system, and the mail that they show |
| `Threads.dfy`, `Ordering.dfy`, `Grouping.dfy` | reply chains, the sort orders, conversations |
| `Subject.dfy`, `SubjectForms.dfy` | subject normalization, and what it does to the characters of a subject |
| `Client.dfy` | the mail client, from `send` to opened messages |

The store's specification is `State`: for each recipient a `Lane` with the log of everything ever stored, what was
acknowledged, and how much was evicted. The pending queue is what is left of the log. `MailboxStore` holds what the
program holds (queues and de-dup indexes) and ties it to a `State` by `Valid()`; every method's contract gives the new
`State` by `Next` and the answer by `Answer`, and everything in `Runs`, `Reload`, `ServiceRuns`, `Serving` and `Shared`
is proved about those two functions. `Requests` says the same once more without them: for each kind of request, who is
answered what and what every queue is afterwards. `Rules` says what the store asks of an envelope (does it verify, what is its id);
`MailRules` fills it in with the definitions of ce-mail, and theorems stated for any `Rules` hold for those.

Cryptography is a parameter (`Primitives`, `Sealing`, `Identity`): theorems hold for every choice of hash, signature
check and capability check, and the few that need an ideal one (an injective hash, sealing that the recipient can
open, content ids without collisions) say so in a `requires`. Rust's `String` is its sequence of Unicode scalar values,
`usize` is a 64-bit unsigned integer, a `Vec` or `HashMap` that a method updates is a field of type `seq` or `map`, and
a loop over a hash map takes its entries in arbitrary order. `sort_by` is insertion by key.

## Where the code differs from what is said about it

- `handle` is documented never to panic (src/service.rs:47-49). It panics in exactly two cases: `ServiceRuns.PanicsExactly`.
  With a page ceiling of at least one and room for one page above the capacity it does not: `ServiceRuns.NeverPanics`, and
  `ServiceRuns.DefaultsNeverPanic` for the default limits.
- The `seen` index is said to be bounded by the capacity (src/mailbox.rs:140-141). It holds one id per pending and per
  acknowledged message, so it is as long as those together fit the capacity, and not otherwise: `Runs.IndexSize`, with
  an input in `Runs.IndexOutgrows`. The bound does hold for receipts: `Mailbox.IndexSizes`.
- Cursors are called replay-safe until `ack` (src/mailbox.rs:158-161). They are positions in a queue that loses its head by
  acknowledgement and by eviction. `Runs.SavedCursorReads` says exactly what a kept cursor misses; `Runs.EvictionHidesMail`
  and `Runs.SavedCursorSkips` are inputs, the first without any acknowledgement.
- `inbox --ack` acknowledges up to the length of the queue, not what it printed, so a second one deletes mail that was never
  shown: `Runs.AckRemovesUnseen` says exactly how much, `Runs.SecondAckDeletesUnseen` is the input.
- The cursor is said never to point past mail that `read` can no longer see (src/main.rs:197-198). Every run replaces the
  snapshot by what it drained, so without any crash a second run hides the mail of the first: `InboxMail.SecondRunHidesMail`.
  `InboxMail.SnapshotIsWindow` says what can be read after any runs cut short anywhere, and when it is all of it.
  What the order of the two writes does give is `InboxCommand.CursorNeverAhead`.
- After a restart a message acknowledged before the save can be stored again: `Reloading.ReloadFaithful` says exactly when
  a restart can be noticed.
- A reply does not mean that the mail is on disk: `Serving.AnsweredIsDurableIffWritten` says when it is, and
  `Serving.AnsweredThenLost` and `Serving.FirstMailLost` how it is lost: the write of its batch fails, or the process is
  stopped between the reply and the write.
- A reply and its parent get one root except on a reply cycle: `Threads.ReplySharesRoot`.
- A mailbox files mail under the spelling of the recipient in the envelope, and `parse_node_id` accepts several:
  `ServiceRuns.DeliveredWhereOwnerLooks`.
- 0xC5 is called an unlikely first byte of text (src/client.rs:81-84). It begins ordinary letters, but text without NUL
  characters is not misread: `Contents.TextIsNeverMisread`. Other raw bodies can be: `Client.RawContentIsMisread`.

## Model

| member | source | states |
|---|---|---|
| Encoding.CharRoundTrip | src/client.rs:102-104 | every scalar value decodes back from its one to four UTF-8 bytes, whatever follows |
| Encoding.StringRoundTrip | src/client.rs:99-115 | a length-prefixed string can be read off the front of any bytes, leaving the rest |
| Encoding.StringsRoundTrip | src/envelope.rs:55-68 | so can a counted list of strings |
| Encoding.U64Digits | src/envelope.rs:55-68 | numbers are eight bytes, the least significant first |
| Envelopes.NodeIdRoundTrip | src/envelope.rs:154-160 | the hex form of every node id parses to that id |
| Envelopes.HexDigits | src/envelope.rs:154-160 | which is two digits for each byte, the high half first |
| Envelopes.SpellingsOfNode | src/envelope.rs:154-160 | a string names a node if and only if, trimmed and in lower case, it is the hex form of that node |
| Envelopes.UpperCaseNames | src/envelope.rs:154-160 | every hex digit may also be written in upper case |
| Envelopes.ParsedHasNoColon | src/envelope.rs:154-160 | nothing that parses as a node id holds a colon, even in the white space that is trimmed |
| Envelopes.BodyCancels | src/envelope.rs:30-52 | body encodings are prefix-free: two of them with anything behind agree only if all eight fields and the rest agree |
| Envelopes.SigningBytesInjective | src/envelope.rs:55-68 | equal signing bytes if and only if all eight fields are equal, the list of attachment ids included |
| Envelopes.DomainText | src/envelope.rs:55-68 | the domain prefix is the UTF-8 of its text |
| Envelopes.FieldOrder | src/envelope.rs:55-68 | a reader finds the eight fields in declaration order |
| Envelopes.EncodedLength | src/limits.rs:98-105 | the measured length counts every field in full and eight bytes for each length, count and time |
| Envelopes.MessageIdIdentifies | src/envelope.rs:71-75 | under an injective hash, equal message ids if and only if equal bodies |
| Receipts.DomainsSeparate | src/receipt.rs:54-57 | no envelope and no receipt ever have the same signing bytes |
| Receipts.ReceiptSigningBytesInjective | src/receipt.rs:54-57 | equal receipt signing bytes if and only if equal receipt bodies |
| Receipts.ReceiptFieldOrder | src/receipt.rs:54-57 | a reader finds the domain text, message id, signer, one byte for the kind (1 delivered, 2 read) and the time, and nothing more |
| Receipts.DedupKeyExact | src/receipt.rs:103-105 | receipts whose signer parses share a key if and only if message, kind and signer agree |
| Receipts.DedupKeyAmbiguousUnchecked | src/receipt.rs:95-105 | for any message id and signer text there are two different receipts with one key; the signer of one holds a colon, so it never verifies, which is what keeps the key exact |
| Limiting.FirstOversized | src/limits.rs:90-97 | the loop over CIDs reports the first one that is too long, and nothing only if none is |
| Limiting.CheckEnvelope | src/limits.rs:57-107 | an envelope passes if and only if every field, every CID and the encoded total are within their limits |
| Limiting.ReportedLimit | src/limits.rs:57-107 | for every envelope: which limit is reported, in order and in bytes, and that nothing is reported exactly if all seven are kept |
| Limiting.ClampPage | src/limits.rs:111-113 | the result lies between one and the ceiling, leaves requests in range alone, and is the ceiling for those beyond it; it panics if and only if the ceiling is zero |
| Lanes.AppendQueue | src/mailbox.rs:134-149 | storing puts the entry last, evicts at most the oldest, and keeps the ids of queued and acknowledged entries pairwise distinct |
| Lanes.AcknowledgeOk | src/mailbox.rs:247-256 | acknowledging moves exactly the first entries from the queue to the acknowledged ones |
| Lanes.Conservation | src/mailbox.rs:121-151 | logged entries are pending, acknowledged or evicted, one for one |
| Mailbox.Forget | src/mailbox.rs:142-148 | the eviction loop removes from the index exactly the ids of the evicted entries |
| Mailbox.PushBounded | src/mailbox.rs:134-149 | push and bounded eviction turn a queue and index that show one lane into ones that show the lane with the entry appended |
| Mailbox.RebuildIndex | src/mailbox.rs:311-324 | the rebuilt index holds for each key exactly the ids in its queue, whatever order the hash map is visited in |
| Mailbox.IndexSizes | src/mailbox.rs:129-149 | in every sound store the index of a recipient is exactly the ids pending and acknowledged, one for each; the receipt index is as large as the receipts, within capacity |
| Mailbox.FieldsArePending | src/mailbox.rs:43-66 | in every sound store, what the specification calls pending is what the two maps hold |
| Mailbox.MailboxStore.constructor | src/mailbox.rs:70-79 | a new store is empty and has room for at least one entry |
| Mailbox.MailboxStore.Accept | src/mailbox.rs:121-151 | looking only at the index, new state and answer are those of the log specification: refused, duplicate if the id is pending or was acknowledged, or appended |
| Mailbox.MailboxStore.PutReceipt | src/mailbox.rs:204-230 | the same for receipts under their de-dup key |
| Mailbox.MailboxStore.Ack | src/mailbox.rs:247-256 | drops a prefix of one queue, clamped, keeps the index, and answers how many |
| Mailbox.MailboxStore.CollectReceipts | src/mailbox.rs:239-242 | hands out and forgets all receipts of one sender, index included |
| Mailbox.MailboxStore.PendingCount | src/mailbox.rs:154-156 | the length of the pending queue |
| Mailbox.MailboxStore.ReadFrom | src/mailbox.rs:164-174 | the pending entries from the cursor on, and the queue's length as the new cursor, also for a cursor past the end |
| Mailbox.MailboxStore.ReadPage | src/mailbox.rs:181-198 | with or without overflow checks the answer is the specified page, or a panic exactly where the sum exceeds the largest `usize`; a page from a cursor within the queue is the part between that cursor and the next, at most as long as asked for, and exactly so long if more follows |
| Mailbox.MailboxStore.Snapshot | src/mailbox.rs:269-276 | what is saved is the id, the capacity and the queues of the state, nothing else |
| Mailbox.MailboxStore.TryToBytes | src/mailbox.rs:269-278 | the bytes read back as exactly that, in whatever order the tables are written |
| Mailbox.MailboxStore.Load | src/mailbox.rs:282-302 | bytes that read as an image, in the current format or else in the older one without receipts, load as its state, and the others are refused |
| Mailbox.MailboxStore.Rebuild | src/mailbox.rs:305-333 | any image loads with the saved queues, both indexes rebuilt from them and no memory of acknowledgements; the store is sound if and only if the image could have been saved by this code |
| Store.StepOk | src/mailbox.rs:121-256 | every operation keeps every lane's invariant: distinct ids, queue within capacity |
| Store.SavedImageOk | src/mailbox.rs:269-278 | every image saved from a sound state could have been saved by this code, so it loads soundly |
| StoreFiles.FileRoundTrip | src/mailbox.rs:269-302 | the file of a store, byte for byte, reads back as what was saved, whatever order its tables were written in |
| StoreFiles.EmptyFile | src/mailbox.rs:269-278 | the file of an empty store, byte for byte |
| StoreFiles.StoredFieldOrder | src/mailbox.rs:34-38 | a reader of a saved envelope finds its body, its signature and the time it was stored at |
| StoreFiles.StoredReceiptFieldOrder | src/mailbox.rs:269-278 | a reader of a saved receipt finds message id, signer, kind (0 delivered, 1 read), time and signature |
| StoreFiles.LegacyRoundTrip | src/mailbox.rs:280-302 | a file in the older format reads back as what was saved, with no receipts, unless its node id begins with the magic number of the current one |
| Runs.LanesIndependent | src/mailbox.rs:121-256 | recipients do not interfere: any run acts on a lane as if the others were not there |
| Runs.LogIsReplies | src/mailbox.rs:121-151 | after any run the log grew by exactly the envelopes answered `Stored`, the acknowledged by exactly the answered counts |
| Runs.QueueIsSuffixOfStored | src/mailbox.rs:121-256 | log refinement, from a new or a loaded store: the queue is a suffix of what was pending at the start and then stored, what is missing was acknowledged or evicted one for one, ids are distinct, length is within capacity |
| Runs.StoredIsLast | src/mailbox.rs:134-150 | the envelope just stored is last, and at most the first one is gone |
| Runs.AcceptExactly | src/mailbox.rs:121-151 | every delivery, said of pending and acknowledged messages: refused for its signature, then for an empty recipient, a duplicate if its id is among them, or appended to its own queue only |
| Runs.PutReceiptExactly | src/mailbox.rs:204-230 | the same for receipts: refused, duplicate if one with its key is pending, or appended |
| Runs.DuplicateOverRuns | src/mailbox.rs:129-133 | after any run from a new or a loaded store, `Duplicate` is answered if and only if the envelope verifies, names a recipient, and its id is pending or an acknowledgement of the run removed it |
| Runs.IndexSize | src/mailbox.rs:137-149 | after any run from a new or a loaded store the index of a recipient has one id per message pending or acknowledged in the run, so it is within capacity if and only if those are |
| Runs.IndexOutgrows | src/mailbox.rs:137-149 | a run of three operations after which the index exceeds the capacity |
| Runs.AckedNeverReturns | src/mailbox.rs:129-149 | an acknowledged message is refused as duplicate, and is never queued, in every later state |
| Runs.NewestStays | src/mailbox.rs:137-149 | mail nobody acknowledges is evicted exactly when a full capacity of later mail has been stored |
| Runs.DrainThenAck | src/client.rs:315-330 | between a drain and its acknowledgement anything but another acknowledgement may happen: the acknowledgement then removes exactly as many undrained entries as were evicted meanwhile, at most as many as were drained |
| Runs.AckExactIffNoEviction | src/mailbox.rs:247-256 | it removes exactly the drained entries and keeps the later ones in order if and only if nothing was evicted meanwhile |
| Runs.SavedCursorReads | src/mailbox.rs:158-174 | whatever happens after a client has read up to a cursor, reading on from it skips as many unseen messages as the queue lost at its head, up to the cursor; it misses nothing if and only if none was lost, the cursor is zero or nothing is new |
| Runs.EvictionHidesMail | src/mailbox.rs:137-149 | with a full queue read and nothing acknowledged, no message stored afterwards is ever read from that cursor, while the queue holds the newest ones |
| Runs.SavedCursorSkips | src/main.rs:186-205 | a cursor kept across the acknowledgement of everything drained makes the next drain skip that many later messages; it misses nothing if and only if the cursor was zero or nothing is pending |
| Runs.AckRemovesUnseen | src/main.rs:186-205 | every `inbox --ack`, whatever happened since the cursor was saved and happens meanwhile: nothing is removed if nothing is pending past the cursor; otherwise as much as was pending at the drain, of which exactly so many messages were never shown, none if and only if the queue lost nothing meanwhile and nothing since, or the cursor is zero |
| Runs.SecondAckDeletesUnseen | src/main.rs:186-205 | the smallest such case: with more new messages than the saved cursor, the second `inbox --ack` deletes them all and shows only those past the cursor |
| Runs.PagesCover | src/mailbox.rs:181-198 | paging while mail keeps arriving returns exactly the queue from the start to the cursor, and all of it when `more` is false |
| Runs.PageUntilDone | src/mailbox.rs:181-198 | paging a queue that no longer grows ends, and returns the rest of it |
| Runs.PageWithinLimit | src/mailbox.rs:181-198 | a page from a cursor within the queue is what lies between that cursor and the next one, at most as much as asked for and exactly that much unless it ends the queue |
| Runs.PageRefused | src/mailbox.rs:181-198 | a page panics if and only if its end is not a `usize`; past the end of the queue it is empty |
| Runs.ReceiptLog | src/mailbox.rs:204-242 | from a new or a loaded store, pending receipts are the newest of those there at the start and stored since the last collection, in order, up to the capacity |
| Runs.CollectReturnsNewest | src/mailbox.rs:239-242 | which is what a collection returns and then forgets |
| Runs.PendingFits | src/mailbox.rs:137-149 | no queue ever exceeds the capacity |
| Reloading.SimStep | src/mailbox.rs:305-333 | an operation that redelivers nothing acknowledged before the save gets the same answer from both stores and keeps them alike |
| Reloading.SaveLoadSave | src/mailbox.rs:269-333 | a loaded store saves the image it was loaded from |
| Reloading.RedeliveryTells | src/mailbox.rs:311-317 | an operation that does redeliver such a message is answered as a duplicate by the original and as new by the reloaded store |
| Reloading.ReloadFaithful | src/mailbox.rs:269-333 | a reloaded store answers every later sequence of operations as the original would, and holds the same queues and receipts after it, if and only if the sequence redelivers no message acknowledged before the save |
| Service.MailService.Handle | src/service.rs:50-166 | every request passes the gate (recipient, limits, capability) before anything is stored, read or removed, and is answered as the specification says |
| Requests.DeliverExactly | src/service.rs:58-84 | every delivery: refused for the name, the limits, the missing grant or the signature, in this order; a duplicate exactly if a message with its id is pending or was acknowledged; else appended to the queue it names |
| Requests.DrainExactly | src/service.rs:85-103 | every drain: the recipient and whoever it authorized get the envelopes from the cursor on, in order, and the length of the queue; others are refused |
| Requests.AckExactly | src/service.rs:104-116 | every acknowledgement: the same nodes remove a prefix, clamped, and are told its length |
| Requests.PageExactly | src/service.rs:117-133 | every page: the same nodes get as many envelopes as asked for, within one and the ceiling, the next cursor and whether more follows |
| Requests.DepositExactly | src/service.rs:134-151 | every deposit of a receipt, like a delivery |
| Requests.TakeExactly | src/service.rs:152-163 | every collection: the sender and whoever it authorized get all its receipts and leave none; others are refused |
| Requests.OthersUntouched | src/service.rs:50-166 | no request changes a queue it does not name |
| Requests.MailNeedsConsent | src/service.rs:58-133 | whatever is asked, mail is handed out or removed only for the node it belongs to or one that node authorized then, and enters only with its grant to the mailbox |
| Requests.ReceiptsNeedConsent | src/service.rs:134-163 | the same for receipts: handed out and forgotten only for their sender or one it authorized, stored only with its grant |
| Requests.OwnersAreNotRefused | src/service.rs:85-163 | a node is never refused its own mail or receipts, nor is one it authorized |
| Requests.DefaultBounds | src/limits.rs:39-52 | what the default limits mean in figures for accepted mail and for pages |
| ServiceRuns.ServiceRunIsRun | src/service.rs:50-166 | a run of the service is a run of the store over the requests that pass a gate which depends on nothing stored |
| ServiceRuns.EntryAndExit | src/service.rs:58-116 | a request changes a queue only by an authorized, verified, limit-respecting delivery to that very name, or by an acknowledgement from the recipient or one it authorized |
| ServiceRuns.Provenance | src/service.rs:58-84 | over any life of a mailbox, restarts included, every queued envelope was brought by an earlier request with a grant valid at the recorded time |
| ServiceRuns.OnlyEntitledSeeMail | src/service.rs:85-133 | over any such life, mail is shown only to the node it is addressed to or one that node authorized at that time, and only mail that verifies and was within limits |
| ServiceRuns.MemoryBounded | src/limits.rs:98-106 | whatever is sent and however often the mailbox restarts, a queue holds at most capacity times the envelope limit in bytes |
| ServiceRuns.PanicsExactly | src/service.rs:117-133 | the handler panics if and only if an authorized page request meets a zero ceiling or an overflowing end |
| ServiceRuns.NeverPanics | src/service.rs:117-133 | with a ceiling of at least one and capacity plus ceiling within `usize`, no request of any run panics |
| ServiceRuns.DefaultsNeverPanic | src/limits.rs:39-52 | so none does under the default limits |
| ServiceRuns.DeliveredWhereOwnerLooks | src/service.rs:58-84 | newly delivered mail is in the queue the owner's client drains if and only if the envelope spells the recipient as that client does |
| ServiceRuns.AnotherSpelling | src/envelope.rs:154-160 | every node has a second spelling that parses |
| ServiceRuns.ErrorsAndReadsChangeNothing | src/main.rs:353-358 | a request classed as non-mutating, or answered with an error, leaves the store as it was |
| Serving.MailboxServer.Start | src/main.rs:282-289 | starts from the image on disk, whoever wrote it, if there is a path and one is there, and empty otherwise |
| Serving.MailboxServer.HandleBatch | src/main.rs:332-362 | handles one batch in order up to a panic, sends one reply per request, and raises the dirty flag |
| Serving.MailboxServer.ServeBatch | src/main.rs:332-376 | the same, and then, unless it is stopped first, writes the store at most once, only if dirty |
| Serving.BatchIsServiceRun | src/main.rs:333-362 | a batch is a run of the service over its well-formed requests, one reply each to the right token, cut short exactly by a panic, and dirty exactly if a mutating request was not refused |
| Serving.EachRequestAnswered | src/main.rs:333-362 | message by message of a batch without a panic: on the mail topic, with a token, a readable sender and request, it is answered to that token with what the service says in its turn; otherwise it is passed over |
| Serving.ReadsLeaveDisk | src/main.rs:382-391 | a batch of drains and pages alone is not written and changes nothing |
| Serving.NothingAfterTheEnd | src/main.rs:332-376 | a server that stopped or panicked neither answers nor writes any more |
| Serving.CleanChangedNothing | src/main.rs:355-358 | the dirty flag never misses a change |
| Serving.DiskAgrees | src/main.rs:364-376 | if every write succeeds, disk and memory agree after every batch, or nothing was written and nothing changed |
| Serving.DiskIsLastWritten | src/main.rs:364-376 | for every pattern of failing writes, stops and panics, the disk holds the store as of the last written batch, and later batches changed the store only if their write failed or the server ended in them |
| Serving.FailedWriteIsNotRetried | src/main.rs:364-376 | batches that change nothing never make up for an earlier failed write |
| Serving.RestartResumes | src/main.rs:282-289 | restarting after any run gives a store that answers as after the last written batch, if and only if nothing acknowledged by then is redelivered |
| Serving.OnDiskAfter | src/main.rs:364-376 | for every server and batch, a message is on disk afterwards if and only if the batch was written and it is still pending, or it was not written and the message was there before |
| Serving.AnsweredIsDurableIffWritten | src/main.rs:354-376 | so for every delivery that any batch reported: no panic or stop, a working write and still pending, or there before |
| Serving.AnsweredStaysInBatch | src/main.rs:354-376 | it is still pending if nobody entitled to acknowledges it in the rest of the batch and less than a full queue follows it |
| Serving.AnsweredThenLost | src/main.rs:354-376 | whatever any batch reported delivered and was not on disk before is not there after a restart if the write fails or the process is stopped before it |
| Serving.FirstMailLost | src/main.rs:354-376 | the smallest case: a server with nothing on disk reports its first message delivered and has it pending, the write fails, and the restarted server has no mail for its recipient |
| Serving.NoBatchPanics | src/main.rs:282-289 | the loop runs under the default limits, where no message of any batch panics |
| Serving.PanicDropsAnswered | src/service.rs:26-31 | for a service with other limits: a later message of the batch that panics takes the write with it |
| SharedStore.StepKeeps | src/mailbox.rs:360-366 | every step of every thread (call, acquire, read, write back, release) keeps mutual exclusion, so that nobody writes between a read and its write, and with it the sequential history and each program order |
| SharedStore.Linearizable | src/mailbox.rs:346-397 | for every schedule the results are those of a sequential execution in which each call takes effect between its call and its return |
| SharedStore.ResultsAreReplies | src/mailbox.rs:346-397 | without poisoning, each result is the reply of the store when the operations of the history are run one by one |
| SharedStore.RealTimeOrder | src/mailbox.rs:346-397 | calls that do not overlap take effect in real-time order |
| SharedStore.AllOperationsOnce | src/mailbox.rs:857-914 | when all threads are done, no operation was lost, repeated or reordered within its thread |
| SharedStore.EveryCallAnswered | src/mailbox.rs:857-914 | when all threads are done each was answered once for every operation of its program, in order |
| SharedStore.SomeoneCanMove | src/mailbox.rs:360-366 | no deadlock: in every reachable state where a thread is not done, some thread can take a step |
| SharedStore.AlwaysCanFinish | src/mailbox.rs:360-366 | however the threads were scheduled so far, all can be brought to their end, in exactly as many steps as are left |
| SharedStore.StepWorks | src/mailbox.rs:360-366 | a step that does anything brings the end nearer by one, so every schedule runs out of them |
| SharedStore.SharedConservation | src/mailbox.rs:857-914 | for every schedule on a new or a loaded store, what was pending at the start and stored since is pending plus acknowledged plus evicted, for every recipient |
| SharedStore.PoisonLasts | src/mailbox.rs:360-366 | after a poisoning panic, under every further schedule, the store stays as it is and every operation is refused |
| SharedStore.PoisonedOnlyByPage | src/mailbox.rs:379-386 | the lock is poisoned by an overflowing page read and nothing else |
| SharedStore.UnlockedLosesUpdate | src/mailbox.rs:339-345 | without the lock, two threads side by side end with the second write undoing the first, whatever the operations |
| SharedStore.UnlockedLosesMail | src/mailbox.rs:857-914 | in particular two deliveries both answered `Stored`, one of which is nowhere |
| Persistence.ActionKeeps | src/persist.rs:17-46 | every write, sync, rename, stop, write-back and power loss keeps each possible directory state showing whole, synced values only |
| Persistence.OnlyWholeWrites | src/persist.rs:17-46 | after any history a file reads as its last committed value or its original one, never as part of one |
| Persistence.StepKeepsSynced | src/persist.rs:36-44 | only a power loss takes committed writes back, and never one made before the last directory sync |
| Persistence.SyncedNeverLost | src/persist.rs:36-44 | the same over whole histories; at most one write per rename is gained |
| Persistence.LastOrCurrent | src/persist.rs:17-46 | after earlier directory syncs succeeded, a write cut short anywhere by any stops and power losses leaves the last value or the current one |
| Persistence.UnsyncedMayBeAnything | src/persist.rs:31-34 | why the file is synced: a power loss may leave any bytes in its place |
| Persistence.UnsyncedRenameMayBeUndone | src/persist.rs:38-44 | why the directory is synced: between a rename and the sync a power loss may undo it, and every file reads as before |
| Persistence.WriteBackIsEnough | src/persist.rs:38-44 | a background write-back of the directory makes every rename so far as safe as a directory sync does |
| Persistence.HistoryWritesOnly | src/persist.rs:17-46 | every value committed to a file is one that some call was asked to write to it |
| Persistence.OnlyAskedFor | src/persist.rs:17-46 | after any calls with any values, cut short anywhere, a file reads as it did at first or as one complete value that some call was asked to write |
| Persistence.Disk.WriteTemp | src/persist.rs:26-34 | creating, writing and syncing the temporary file commits nothing |
| Persistence.Disk.Publish | src/persist.rs:36-45 | the rename commits exactly the written value; a failed directory sync is not an error |
| Persistence.Disk.AtomicWrite | src/persist.rs:17-46 | on success the file reads as the new value, on error at any step every file reads as before; success is durable unless the directory could not be synced |
| InboxCommand.TurnPairOk | src/main.rs:197-200 | every step of a run, of other processes and of the file system keeps this: a cursor is committed only after the snapshot of its own run, and runs, which do not overlap, commit in order |
| InboxCommand.CursorNeverAhead | src/main.rs:197-200 | whatever runs there are, one after the other, and however each is cut short, by stops, failing steps and power losses, the cursor that can be read is from no later run than the snapshot that can be read; each reads as its run wrote it |
| InboxCommand.RunCanComplete | src/main.rs:186-205 | whatever happened before, a run that nothing cuts short commits both files as its own |
| InboxCommand.SavePair | src/main.rs:197-200 | one run: only success moves the cursor, and never without the snapshot |
| InboxMail.CursorRoundTrip | src/main.rs:476-483 | the written cursor parses back to the number, which is what lets the next run start there |
| InboxMail.FirstRunShowsAll | src/main.rs:186-205 | a run that finds no cursor begins at the front of the queue and shows all of it |
| InboxMail.CursorMeans | src/main.rs:476-478 | a cursor other than zero was read from a file that holds just this number in digits; everything else counts as zero |
| InboxMail.SnapshotIsWindow | src/main.rs:186-205 | after any runs cut short anywhere, the snapshot shows the mail from where its run started, the cursor is past it if that run finished and at its start otherwise, and all mail before the cursor can be read if and only if that run started at zero |
| InboxMail.SecondRunHidesMail | src/main.rs:186-205 | two runs without any failure, the second with nothing new: the cursor is past all mail and the snapshot shows none |
| Restarting.CrashWhileSaving | src/main.rs:364-376 | a crash anywhere while the store file is replaced leaves a file that loads as the previous or the updated store, as faithfully as any reload |
| Restarting.ServeOnDisk | src/main.rs:332-376 | a server that saves through `atomic_write` is the one with an atomic disk: after every batch, whatever fails, the file reads as what that disk holds |
| Restarting.CutShortAnywhere | src/main.rs:268-376 | even with saves from several processes in no order: cut short anywhere by stops and power losses, the store file is as it was at first or loads as the store after one of the batches that were saved |
| Saving.TurnKeeps | src/main.rs:332-376 | every batch, save, step of the file system and power loss keeps this: each commit of the store file is a form of the store after its own batch, and saves are committed in the order of the batches |
| Saving.BatchCanBegin | src/main.rs:332-376 | a polling server takes its next batch, and saves next exactly if that batch calls for it |
| Saving.SaveCanComplete | src/main.rs:364-376 | a save that nothing cuts short makes the store file that of the batch just handled, on disk, and the server goes on |
| Saving.FileIsSavedBatch | src/main.rs:332-376 | for one server, at any point: the store file is as it was at first or is the store after exactly the batch it was last saved for |
| Saving.NeverOlderThanSynced | src/main.rs:364-376 | for one server, batch after batch: from any point at which all is on disk, whatever batches, failures, stops and power losses follow, the store file never goes back behind the batch saved there, and loads as the store after a batch no earlier |
| Saving.SyncReachesDisk | src/persist.rs:36-44 | a directory sync that succeeds puts on disk everything committed, and changes no saved batch |
| Threads.ResolveRoot | src/thread.rs:92-114 | the loop ends on every parent map, and returns the last of the distinct ancestors reachable from the target |
| Threads.MaximalUnique | src/thread.rs:92-114 | there is only one maximal chain of ancestors from a message |
| Threads.RootEndsOrCycles | src/thread.rs:92-114 | the root is the first ancestor without a recorded parent, or lies on a cycle |
| Threads.ReplySharesRoot | src/thread.rs:88-91 | a reply and its parent, present or not, have one root if and only if the reply is not on a cycle of two or more |
| Threads.CycleSplits | src/thread.rs:99-101 | two messages replying to each other get different roots |
| Ordering.NameLessIsByteOrder | src/thread.rs:181-189 | comparing names by their characters is comparing their UTF-8 bytes |
| Ordering.SortAscending | src/thread.rs:177-190 | sorting entries with distinct keys gives them in strictly ascending order |
| Ordering.AscendingUnique | src/thread.rs:177-190 | a strictly ascending sequence is determined by its set of entries |
| Grouping.Dedup | src/thread.rs:160-167 | the first envelope of every id of the input, once, and nothing else |
| Grouping.ParentMap | src/thread.rs:77-85 | maps exactly the ids with a non-empty reply pointer to that pointer |
| Grouping.FileByRoot | src/thread.rs:169-173 | files each envelope under the root of its id, once, and makes no empty file |
| Grouping.GroupThreads | src/thread.rs:158-192 | the result groups the input: non-empty conversations of exactly the messages of one root, distinct roots, both orders strict |
| Grouping.EachMessageOnce | src/thread.rs:155-192 | an id is in the input if and only if it is in the result, there in exactly one place, as the first envelope that came with it |
| Grouping.FirstComeFirstKept | src/thread.rs:160-167 | what is kept of several envelopes with one id is the one that came first |
| Grouping.RepliesTogether | src/thread.rs:169-173 | a message and one it answers are in one conversation if and only if the answer is not on a cycle of two or more |
| Grouping.SiblingsTogether | src/thread.rs:88-91 | two answers to one message, off cycles, are in one conversation, even when that message is absent |
| Grouping.HashOrderIrrelevant | src/thread.rs:158-192 | two results for one input are equal, whatever order the hash map was visited in |
| Grouping.NewestFirst | src/thread.rs:186-190 | in every result, conversations descend by the time of their last message, and where two agree in that, ascend by the bytes of their roots |
| Grouping.OldestFirst | src/thread.rs:177-182 | in every result, messages of a conversation ascend by time, and where two agree in that, by the bytes of their ids |
| Grouping.OrderIrrelevant | src/thread.rs:158-192 | permuted or repeated input gives the same conversations with the same bodies in the same order |
| Grouping.LastActivityIsLast | src/thread.rs:143-145 | a conversation's activity is the time of its last message |
| Grouping.MessageIdsIdentify | src/thread.rs:160-167 | under an injective hash the ids used for grouping identify bodies |
| Subjects.PrefixOrderIrrelevant | src/thread.rs:41-47 | at most one listed prefix can match, so the order of the list is irrelevant |
| Subjects.NormalizeSubject | src/thread.rs:36-54 | the stripping loop ends, because each strip shortens the string, and computes the specified normal form |
| Subjects.NormalizeIsNormal | src/thread.rs:36-54 | the result is in lower case, single-spaced, trimmed, and begins with no reply prefix |
| Subjects.FixedIffNormal | src/thread.rs:36-54 | the subjects left alone are exactly those |
| Subjects.NormalizeIdempotent | tests/properties.rs:117-138 | normalizing twice is normalizing once |
| Subjects.MarkAbsorbed | src/thread.rs:56-74 | a listed prefix in any letter case, with or without a count, a colon and any white space in front of any subject change nothing |
| Subjects.MarksAbsorbed | src/thread.rs:25-35 | nor does any pile of them |
| Unicode.WhitespaceListed | src/thread.rs:36-54 | white space is the 25 characters with the Unicode White_Space property |
| SubjectForms.CaseIrrelevant | src/thread.rs:36-54 | two subjects that differ at most in the case of ASCII letters have one normal form |
| SubjectForms.NoCapitals | src/thread.rs:53-54 | which has no capital letter |
| SubjectForms.ReplyMarkIsAbsorbed | src/thread.rs:56-74 | re, fwd, fw, aw, sv or vs in any letter case, with or without a count, a colon and any white space in front of any subject change nothing |
| SubjectForms.SpacingIrrelevant | src/thread.rs:52-54 | nor does the kind or amount of white space between any two parts |
| SubjectForms.SurroundingsIrrelevant | src/thread.rs:36-38 | nor white space around a subject |
| SubjectForms.StaysAsItIs | src/thread.rs:36-54 | a subject stays as it is if and only if it has no capitals, is spaced by single blanks, and begins with none of these marks |
| Contents.ContentRoundTrip | src/client.rs:97-116 | structured bodies decode to what was encoded |
| Contents.ContentFieldOrder | src/client.rs:97-116 | a reader of a structured body finds the magic byte, the subject and the body, and nothing more |
| Contents.AttachmentRoundTrip | src/attachment.rs:60-68 | attachments decode to what was encoded |
| Contents.AttachmentFieldOrder | src/attachment.rs:60-68 | a reader of an attachment finds its name, its type and its bytes, and nothing more |
| Contents.NinthByteTells | src/client.rs:110-115 | a raw body of realistic size is taken for a structured one only if its ninth byte is zero |
| Contents.TextIsNeverMisread | src/client.rs:81-84 | text without NUL characters is never taken for a structured body, even if it begins with the magic byte |
| Client.MailClient.CheckOptions | src/client.rs:234-260 | options pass if and only if the recipient parses and everything is within limits; which error is reported otherwise, and the first oversized attachment |
| Client.MailClient.SealBody | src/client.rs:264-273 | the subject is sealed with the body behind a placeholder, or sent in clear; an empty raw body stores nothing; it fails only if sealing fails or a blob is refused |
| Client.MailClient.SealAttachments | src/client.rs:276-283 | one sealed blob per attachment, in order, unless sealing fails or a blob is refused |
| Client.MailClient.Compose | src/client.rs:233-296 | a signed envelope for what the options say with every blob stored; options beyond the limits store nothing and get the error that names the limit; other options fail only if sealing fails or a blob is refused |
| Client.MailClient.Send | src/client.rs:233-310 | if nothing is lost the mailbox handles the composed envelope, and the result is its id exactly if the answer is `Delivered`, and the mailbox's reason exactly if it is an error; lost requests and replies are reported as such, and a lost reply leaves the message with the mailbox |
| Client.MailClient.ComposeMessages | src/client.rs:402-412 | exactly the envelopes that verify, in order, each with its opened content or an empty body |
| Client.MailClient.OpenAttachments | src/client.rs:513-519 | all attachments in order, if and only if each one opens |
| Client.MailClient.DrainInbox | src/client.rs:315-330 | unless the request or its reply is lost it succeeds, with the messages pending for this client from the cursor on and the new cursor; the mailbox is unchanged |
| Client.AttachmentsRoundTrip | src/client.rs:496-519 | attachments sent are attachments opened, complete and in order, however the blob store grew |
| Client.ContentComesBack | src/client.rs:417-428 | body and subject come back if and only if the subject was sealed or the raw body does not read as a structured one; a sealed send shows only the placeholder |
| Client.TextComesBack | src/client.rs:81-84 | a text body without NUL characters always comes back |
| Client.RawContentIsMisread | src/client.rs:424-427 | the encoding of any structured body, sent raw, is opened as something else |
| Client.MessageOf | src/client.rs:402-412 | an envelope shows up among the messages if and only if it was drained and verifies |
| Client.MessagesConcat | src/client.rs:402-412 | what is made of a drained inbox is made of its envelopes one by one, in order |
| Client.MessageOfOne | src/client.rs:402-428 | one envelope: no message if it does not verify, else one, with the opened body and subject, or with an empty body if there is none or it cannot be opened |
| Client.HonestMailIsDelivered | src/client.rs:285-310 | a correctly signed message is accepted if and only if it is within the mailbox's limits and the recipient's grant to the mailbox holds |
| Client.MailArrives | src/client.rs:233-330 | end to end: mail reported delivered under the recipient's own spelling is in its drain after any traffic without acknowledgement and with less than a full queue of later mail, and opens to what was sent |

## Left out

- Mailbox.MailboxStore.TryToBytes: its promise is for lengths that `String` and `Vec` can have; serialization does not fail on those, and a failing one is a failing write in `Serving`.
- Mailbox.MailboxStore.Rebuild: says nothing more about stores loaded from images with over-long queues or repeated ids, which this code never writes.
- Mailbox.MailboxStore.ReadPage: the queue has fewer than 2^64 entries, as every `Vec` has.
- Grouping.OrderIrrelevant: compares bodies, not signatures; of two envelopes with one body and different signatures the first in the input is kept, so which signature survives does depend on the order of the input.
- Envelopes.MessageIdIdentifies: an injective hash is an idealization of SHA-256.
- Persistence.Disk.AtomicWrite: creating the parent directory is a step that may fail and changes no file; that it would itself have to be synced is not modelled, nor are two threads of one process writing the same file at once, which would share a temporary name.
- InboxCommand.CursorNeverAhead: assumes that directory changes reach the disk in order, also after a failed directory sync, which POSIX does not promise.
- InboxMail.SnapshotIsWindow: is about runs that start at the saved cursor (no `--since`) while mail only arrives; what acknowledgement and eviction do to cursors is in `Runs.SavedCursorReads` and `Runs.AckRemovesUnseen`. The JSON of the snapshot is a parameter.
- Saving.NeverOlderThanSynced: one server process writes the file; directory changes reach the disk in order.
- Client.MailClient.Send: requests and replies reach the other side undamaged or not at all; their wire encoding is not modelled.
- Client.MailArrives: assumes that blobs once stored stay retrievable and that content ids do not collide.
- Text of error messages: errors are modelled by kind, not by wording.
- Ed25519, X25519, ChaCha20-Poly1305, SHA-256 and the capability check `ce_iam_core::authorize`: external, taken as parameters.
- Networking, polling, backoff, timeouts and the revocation refresher: only the sequence of polled messages, each with the clock and the revocation set it meets, is kept.
- Fairness of the mutex: nothing is said about when a waiting thread gets its turn.
- Screening, receipts issued by the client, MIME guessing, `Conversation::subject`, the command line: each is a short decision on one value, with no state and no effect on the parts above.
- The SMTP gateway, which has no code.
