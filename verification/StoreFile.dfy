/** The store file: the bytes bincode writes for a saved mailbox, and reading them back. A hash map is written
    in whatever order it hands out its entries. */
module StoreFiles {
  import opened Encoding
  import opened Envelopes
  import opened Receipts
  import opened Store

  /** "CEM2" */
  const STORE_MAGIC: nat := 0x4345_4d32

  // ---- fixed-width values ----

  function EncodeU32(n: nat): (bs: Bytes)
    ensures |bs| == 4
  {
    LittleEndian(n, 4)
  }

  function DecodeU32(bs: Bytes): Parsed<nat> {
    if |bs| < 4 then Malformed else Parsed(FromLittleEndian(bs[..4]), bs[4..])
  }

  lemma U32RoundTrip(n: nat, tail: Bytes)
    requires n < 0x1_0000_0000
    ensures DecodeU32(EncodeU32(n) + tail) == Parsed(n, tail)
  {
    assert Pow256(4) == 0x1_0000_0000;
    LittleEndianRoundTrip(n, 4);
    assert (EncodeU32(n) + tail)[..4] == EncodeU32(n);
  }

  function DecodeNodeId(bs: Bytes): Parsed<NodeId> {
    if |bs| < 32 then Malformed else Parsed(bs[..32], bs[32..])
  }

  /** A signature is a byte string that must be 64 long. */
  function DecodeSig(bs: Bytes): Parsed<Bytes> {
    match DecodeBytes(bs)
    case Malformed => Malformed
    case Parsed(sig, rest) => if |sig| == 64 then Parsed(sig, rest) else Malformed
  }

  // ---- sequences ----

  /** `enc(x, tail)` writes `x` in front of `tail`. */
  function EncodeAll<T>(xs: seq<T>, enc: (T, Bytes) -> Bytes, tail: Bytes): Bytes {
    if xs == [] then tail else enc(xs[0], EncodeAll(xs[1..], enc, tail))
  }

  function EncodeSeq<T>(xs: seq<T>, enc: (T, Bytes) -> Bytes, tail: Bytes): Bytes {
    EncodeU64(|xs|) + EncodeAll(xs, enc, tail)
  }

  function DecodeAll<T>(bs: Bytes, count: nat, dec: Bytes -> Parsed<T>): Parsed<seq<T>>
    decreases count
  {
    if count == 0 then Parsed([], bs) else
    match dec(bs)
    case Malformed => Malformed
    case Parsed(x, rest) =>
      match DecodeAll(rest, count - 1, dec)
      case Malformed => Malformed
      case Parsed(xs, rest') => Parsed([x] + xs, rest')
  }

  function DecodeSeq<T>(bs: Bytes, dec: Bytes -> Parsed<T>): Parsed<seq<T>> {
    match DecodeU64(bs)
    case Malformed => Malformed
    case Parsed(n, rest) => DecodeAll(rest, n, dec)
  }

  /** `dec` reads `x` back from what `enc` wrote, whatever follows. */
  ghost predicate ReadsBack<T>(x: T, enc: (T, Bytes) -> Bytes, dec: Bytes -> Parsed<T>) {
    forall tail :: dec(enc(x, tail)) == Parsed(x, tail)
  }

  lemma {:induction false} AllRoundTrip<T>(xs: seq<T>, enc: (T, Bytes) -> Bytes, dec: Bytes -> Parsed<T>, tail: Bytes)
    requires forall x :: x in xs ==> ReadsBack(x, enc, dec)
    ensures DecodeAll(EncodeAll(xs, enc, tail), |xs|, dec) == Parsed(xs, tail)
  {
    if xs != [] {
      assert ReadsBack(xs[0], enc, dec);
      AllRoundTrip(xs[1..], enc, dec, tail);
      assert [xs[0]] + xs[1..] == xs;
    }
  }

  lemma SeqRoundTrip<T>(xs: seq<T>, enc: (T, Bytes) -> Bytes, dec: Bytes -> Parsed<T>, tail: Bytes)
    requires |xs| < U64_LIMIT && forall x :: x in xs ==> ReadsBack(x, enc, dec)
    ensures DecodeSeq(EncodeSeq(xs, enc, tail), dec) == Parsed(xs, tail)
  {
    U64RoundTrip(|xs|, EncodeAll(xs, enc, tail));
    AllRoundTrip(xs, enc, dec, tail);
  }

  // ---- envelopes and receipts ----

  datatype Head = Head(from: string, to: string, subject: string, bodyCid: string)

  function DecodeHead(bs: Bytes): Parsed<Head> {
    match DecodeString(bs)
    case Malformed => Malformed
    case Parsed(from, r1) =>
      match DecodeString(r1)
      case Malformed => Malformed
      case Parsed(to, r2) =>
        match DecodeString(r2)
        case Malformed => Malformed
        case Parsed(subject, r3) =>
          match DecodeString(r3)
          case Malformed => Malformed
          case Parsed(bodyCid, r4) => Parsed(Head(from, to, subject, bodyCid), r4)
  }

  function DecodeBody(bs: Bytes): Parsed<EnvelopeBody> {
    match DecodeHead(bs)
    case Malformed => Malformed
    case Parsed(h, r0) =>
      match DecodeStrings(r0)
      case Malformed => Malformed
      case Parsed(cids, r1) =>
        match DecodeString(r1)
        case Malformed => Malformed
        case Parsed(inReplyTo, r2) =>
          match DecodeU64(r2)
          case Malformed => Malformed
          case Parsed(sentAt, r3) =>
            match DecodeString(r3)
            case Malformed => Malformed
            case Parsed(postage, r4) =>
              if sentAt >= U64_LIMIT then Malformed else
                Parsed(EnvelopeBody(h.from, h.to, h.subject, h.bodyCid, cids, inReplyTo, sentAt, postage), r4)
  }

  lemma HeadRoundTrip(e: EnvelopeBody, tail: Bytes)
    requires Sized(e)
    ensures DecodeHead(EncodeString(e.from) + (EncodeString(e.to)
                       + (EncodeString(e.subject) + (EncodeString(e.bodyCid) + tail))))
         == Parsed(Head(e.from, e.to, e.subject, e.bodyCid), tail)
  {
    hide EncodeString, DecodeString, FitsPrefix;
    var t3 := EncodeString(e.bodyCid) + tail;
    var t2 := EncodeString(e.subject) + t3;
    StringRoundTrip(e.from, EncodeString(e.to) + t2);
    StringRoundTrip(e.to, t2);
    StringRoundTrip(e.subject, t3);
    StringRoundTrip(e.bodyCid, tail);
  }

  lemma BodyRoundTrip(e: EnvelopeBody, tail: Bytes)
    requires Sized(e)
    ensures DecodeBody(EncodeBodyOnto(e, tail)) == Parsed(e, tail)
  {
    hide EncodeString, DecodeString, EncodeStrings, DecodeStrings, EncodeU64, DecodeU64, FitsPrefix, DecodeHead;
    var t3 := EncodeString(e.postageReceipt) + tail;
    var t2 := EncodeU64(e.sentAt) + t3;
    var t1 := EncodeString(e.inReplyTo) + t2;
    var t0 := EncodeStrings(e.attachmentCids) + t1;
    HeadRoundTrip(e, t0);
    StringsRoundTrip(e.attachmentCids, t1);
    StringRoundTrip(e.inReplyTo, t2);
    U64RoundTrip(e.sentAt, t3);
    StringRoundTrip(e.postageReceipt, tail);
  }

  function EncodeStored(x: StoredEnvelope, tail: Bytes): Bytes {
    EncodeBodyOnto(x.envelope.body, EncodeBytes(x.envelope.sig) + (EncodeU64(x.storedAt) + tail))
  }

  function DecodeStored(bs: Bytes): Parsed<StoredEnvelope> {
    match DecodeBody(bs)
    case Malformed => Malformed
    case Parsed(body, r0) =>
      match DecodeSig(r0)
      case Malformed => Malformed
      case Parsed(sig, r1) =>
        match DecodeU64(r1)
        case Malformed => Malformed
        case Parsed(storedAt, r2) =>
          if storedAt >= U64_LIMIT then Malformed else Parsed(StoredEnvelope(Envelope(body, sig), storedAt), r2)
  }

  /** What the types of the source guarantee about lengths. */
  ghost predicate SizedStored(x: StoredEnvelope) {
    Sized(x.envelope.body) && |x.envelope.sig| == 64
  }

  lemma StoredReadsBack(x: StoredEnvelope)
    requires SizedStored(x)
    ensures ReadsBack(x, EncodeStored, DecodeStored)
  {
    hide EncodeBodyOnto, DecodeBody, EncodeBytes, DecodeBytes, EncodeU64, DecodeU64, Sized;
    forall tail
      ensures DecodeStored(EncodeStored(x, tail)) == Parsed(x, tail)
    {
      BodyRoundTrip(x.envelope.body, EncodeBytes(x.envelope.sig) + (EncodeU64(x.storedAt) + tail));
      BytesRoundTrip(x.envelope.sig, EncodeU64(x.storedAt) + tail);
      U64RoundTrip(x.storedAt, tail);
    }
  }

  /** An enum is written as the number of its variant, in four bytes. */
  function EncodeReceipt(r: Receipt, tail: Bytes): Bytes {
    EncodeString(r.body.messageId) + (EncodeString(r.body.signer)
    + (EncodeU32(if r.body.kind.Delivered? then 0 else 1) + (EncodeU64(r.body.at) + (EncodeBytes(r.sig) + tail))))
  }

  function DecodeReceipt(bs: Bytes): Parsed<Receipt> {
    match DecodeString(bs)
    case Malformed => Malformed
    case Parsed(messageId, r0) =>
      match DecodeString(r0)
      case Malformed => Malformed
      case Parsed(signer, r1) =>
        match DecodeU32(r1)
        case Malformed => Malformed
        case Parsed(variant, r2) =>
          match DecodeU64(r2)
          case Malformed => Malformed
          case Parsed(at, r3) =>
            match DecodeSig(r3)
            case Malformed => Malformed
            case Parsed(sig, r4) =>
              if variant > 1 || at >= U64_LIMIT then Malformed else
                Parsed(Receipt(ReceiptBody(messageId, signer, if variant == 0 then Delivered else Read, at), sig), r4)
  }

  ghost predicate SizedReceipt(r: Receipt) {
    FitsPrefix(r.body.messageId) && FitsPrefix(r.body.signer) && |r.sig| == 64
  }

  lemma ReceiptReadsBack(r: Receipt)
    requires SizedReceipt(r)
    ensures ReadsBack(r, EncodeReceipt, DecodeReceipt)
  {
    hide EncodeString, DecodeString, EncodeBytes, DecodeBytes, EncodeU64, DecodeU64, EncodeU32, DecodeU32, FitsPrefix;
    var variant := if r.body.kind.Delivered? then 0 else 1;
    forall tail
      ensures DecodeReceipt(EncodeReceipt(r, tail)) == Parsed(r, tail)
    {
      var t3 := EncodeBytes(r.sig) + tail;
      var t2 := EncodeU64(r.body.at) + t3;
      var t1 := EncodeU32(variant) + t2;
      StringRoundTrip(r.body.messageId, EncodeString(r.body.signer) + t1);
      StringRoundTrip(r.body.signer, t1);
      U32RoundTrip(variant, t2);
      U64RoundTrip(r.body.at, t3);
      BytesRoundTrip(r.sig, tail);
    }
  }

  /** A reader finds an envelope's body, then its signature and the time it was stored at. */
  lemma StoredFieldOrder(x: StoredEnvelope, tail: Bytes) returns (r1: Bytes, r2: Bytes)
    requires SizedStored(x)
    ensures EncodeStored(x, tail) == EncodeBodyOnto(x.envelope.body, r1)
    ensures DecodeBytes(r1) == Parsed(x.envelope.sig, r2) && DecodeU64(r2) == Parsed(x.storedAt as nat, tail)
  {
    hide EncodeBodyOnto, EncodeBytes, DecodeBytes, EncodeU64, DecodeU64;
    r2 := EncodeU64(x.storedAt) + tail;
    r1 := EncodeBytes(x.envelope.sig) + r2;
    BytesRoundTrip(x.envelope.sig, r2);
    U64RoundTrip(x.storedAt, tail);
  }

  /** And of a receipt the message id, the signer, the kind (0 delivered, 1 read), the time and the signature. */
  lemma StoredReceiptFieldOrder(x: Receipt, tail: Bytes) returns (r1: Bytes, r2: Bytes, r3: Bytes, r4: Bytes)
    requires SizedReceipt(x)
    ensures DecodeString(EncodeReceipt(x, tail)) == Parsed(x.body.messageId, r1)
    ensures DecodeString(r1) == Parsed(x.body.signer, r2)
    ensures DecodeU32(r2) == Parsed(if x.body.kind == Delivered then 0 else 1, r3)
    ensures DecodeU64(r3) == Parsed(x.body.at as nat, r4) && DecodeBytes(r4) == Parsed(x.sig, tail)
  {
    hide EncodeString, DecodeString, EncodeBytes, DecodeBytes, EncodeU64, DecodeU64, EncodeU32, DecodeU32, FitsPrefix;
    var variant := if x.body.kind.Delivered? then 0 else 1;
    r4 := EncodeBytes(x.sig) + tail;
    r3 := EncodeU64(x.body.at) + r4;
    r2 := EncodeU32(variant) + r3;
    r1 := EncodeString(x.body.signer) + r2;
    StringRoundTrip(x.body.messageId, r1);
    StringRoundTrip(x.body.signer, r2);
    U32RoundTrip(variant, r3);
    U64RoundTrip(x.body.at, r4);
    BytesRoundTrip(x.sig, tail);
  }

  // ---- tables ----

  datatype Row<T> = Row(key: string, queue: seq<T>)

  function EncodeRow<T>(enc: (T, Bytes) -> Bytes): (Row<T>, Bytes) -> Bytes {
    (row: Row<T>, tail: Bytes) => EncodeString(row.key) + EncodeSeq(row.queue, enc, tail)
  }

  function DecodeRow<T>(dec: Bytes -> Parsed<T>): Bytes -> Parsed<Row<T>> {
    (bs: Bytes) =>
      match DecodeString(bs)
      case Malformed => Malformed
      case Parsed(key, rest) =>
        match DecodeSeq(rest, dec)
        case Malformed => Malformed
        case Parsed(queue, rest') => Parsed(Row(key, queue), rest')
  }

  /** Reading a table inserts its rows one by one. */
  function Table<T>(rows: seq<Row<T>>): map<string, seq<T>> {
    if rows == [] then map[] else Table(rows[..|rows| - 1])[rows[|rows| - 1].key := rows[|rows| - 1].queue]
  }

  /** The rows of `m`, each key at least once, in some order. */
  ghost predicate RowsOf<T>(rows: seq<Row<T>>, m: map<string, seq<T>>) {
    && (forall row :: row in rows ==> row.key in m && m[row.key] == row.queue)
    && (forall r :: r in m ==> Row(r, m[r]) in rows)
  }

  lemma {:induction false} TableHas<T>(rows: seq<Row<T>>, m: map<string, seq<T>>)
    requires forall row :: row in rows ==> row.key in m && m[row.key] == row.queue
    ensures forall r :: r in Table(rows) ==> r in m && Table(rows)[r] == m[r]
    ensures forall row :: row in rows ==> row.key in Table(rows)
  {
    if rows != [] {
      TableHas(rows[..|rows| - 1], m);
      assert rows == rows[..|rows| - 1] + [rows[|rows| - 1]];
    }
  }

  lemma TableOfRows<T>(rows: seq<Row<T>>, m: map<string, seq<T>>)
    requires RowsOf(rows, m)
    ensures Table(rows) == m
  {
    TableHas(rows, m);
    forall r | r in m
      ensures r in Table(rows)
    {
      assert Row(r, m[r]) in rows;
    }
  }

  lemma RowReadsBack<T>(row: Row<T>, enc: (T, Bytes) -> Bytes, dec: Bytes -> Parsed<T>)
    requires FitsPrefix(row.key) && |row.queue| < U64_LIMIT && forall x :: x in row.queue ==> ReadsBack(x, enc, dec)
    ensures ReadsBack(row, EncodeRow(enc), DecodeRow(dec))
  {
    hide EncodeString, DecodeString, EncodeSeq, DecodeSeq, FitsPrefix, ReadsBack;
    forall tail
      ensures DecodeRow(dec)(EncodeRow(enc)(row, tail)) == Parsed(row, tail)
    {
      StringRoundTrip(row.key, EncodeSeq(row.queue, enc, tail));
      SeqRoundTrip(row.queue, enc, dec, tail);
    }
    IsReadBack(row, EncodeRow(enc), DecodeRow(dec));
  }

  lemma IsReadBack<T>(x: T, enc: (T, Bytes) -> Bytes, dec: Bytes -> Parsed<T>)
    requires forall tail :: dec(enc(x, tail)) == Parsed(x, tail)
    ensures ReadsBack(x, enc, dec)
  {
  }

  // ---- the file ----

  function FileBytes(selfId: NodeId, queues: seq<Row<StoredEnvelope>>, capacity: u64,
                     receipts: seq<Row<Receipt>>): Bytes
  {
    EncodeU32(STORE_MAGIC)
    + (selfId + EncodeSeq(queues, EncodeRow(EncodeStored),
                          EncodeU64(capacity) + EncodeSeq(receipts, EncodeRow(EncodeReceipt), [])))
  }

  /** The file of an empty store: the magic number in front of the id, then no queues, the capacity, no receipts. */
  lemma EmptyFile(selfId: NodeId, capacity: u64)
    ensures FileBytes(selfId, [], capacity, []) ==
            [0x32, 0x4d, 0x45, 0x43] + selfId + [0, 0, 0, 0, 0, 0, 0, 0] + EncodeU64(capacity)
            + [0, 0, 0, 0, 0, 0, 0, 0]
  {
    Magic();
    Zero();
    var none: Bytes := [];
    assert EncodeU64(0) + none == EncodeU64(0);
  }

  lemma Magic()
    ensures EncodeU32(STORE_MAGIC) == [0x32, 0x4d, 0x45, 0x43]
  {
    assert LittleEndian(0x43, 1) == [0x43];
    assert LittleEndian(0x4345, 2) == [0x45, 0x43];
    assert LittleEndian(0x43_454d, 3) == [0x4d, 0x45, 0x43];
  }

  lemma Zero()
    ensures EncodeU64(0) == [0, 0, 0, 0, 0, 0, 0, 0]
  {
    assert LittleEndian(0, 2) == [0, 0];
    assert LittleEndian(0, 4) == [0, 0, 0, 0];
    assert LittleEndian(0, 6) == [0, 0, 0, 0, 0, 0];
  }

  /** The format before there were receipts. */
  function LegacyBytes(selfId: NodeId, queues: seq<Row<StoredEnvelope>>, capacity: u64): Bytes {
    selfId + EncodeSeq(queues, EncodeRow(EncodeStored), EncodeU64(capacity))
  }

  function ReadCurrent(bs: Bytes): Option<Image> {
    match DecodeU32(bs)
    case Malformed => None
    case Parsed(magic, r0) =>
      match DecodeNodeId(r0)
      case Malformed => None
      case Parsed(selfId, r1) =>
        match DecodeSeq(r1, DecodeRow(DecodeStored))
        case Malformed => None
        case Parsed(queues, r2) =>
          match DecodeU64(r2)
          case Malformed => None
          case Parsed(capacity, r3) =>
            match DecodeSeq(r3, DecodeRow(DecodeReceipt))
            case Malformed => None
            case Parsed(receipts, _) =>
              if magic != STORE_MAGIC || capacity >= U64_LIMIT then None
              else Some(Image(selfId, Table(queues), capacity, Table(receipts)))
  }

  function ReadLegacy(bs: Bytes): Option<Image> {
    match DecodeNodeId(bs)
    case Malformed => None
    case Parsed(selfId, r1) =>
      match DecodeSeq(r1, DecodeRow(DecodeStored))
      case Malformed => None
      case Parsed(queues, r2) =>
        match DecodeU64(r2)
        case Malformed => None
        case Parsed(capacity, _) =>
          if capacity >= U64_LIMIT then None else Some(Image(selfId, Table(queues), capacity, Table([])))
  }

  /** The current format first, and the older one if that fails. */
  function FromBytes(bs: Bytes): Option<Image> {
    var current := ReadCurrent(bs);
    if current.Some? then current else ReadLegacy(bs)
  }

  ghost predicate SizedImage(i: Image) {
    && |i.queues| < U64_LIMIT && |i.receipts| < U64_LIMIT
    && (forall r :: r in i.queues ==> FitsPrefix(r) && |i.queues[r]| < U64_LIMIT)
    && (forall r, x :: r in i.queues && x in i.queues[r] ==> SizedStored(x))
    && (forall r :: r in i.receipts ==> FitsPrefix(r) && |i.receipts[r]| < U64_LIMIT)
    && (forall r, x :: r in i.receipts && x in i.receipts[r] ==> SizedReceipt(x))
  }

  lemma QueueRowsReadBack(i: Image, rows: seq<Row<StoredEnvelope>>)
    requires SizedImage(i) && RowsOf(rows, i.queues)
    ensures forall row :: row in rows ==> ReadsBack(row, EncodeRow(EncodeStored), DecodeRow(DecodeStored))
  {
    hide ReadsBack, SizedStored, FitsPrefix, EncodeRow, DecodeRow;
    forall row | row in rows
      ensures ReadsBack(row, EncodeRow(EncodeStored), DecodeRow(DecodeStored))
    {
      forall x | x in row.queue
        ensures ReadsBack(x, EncodeStored, DecodeStored)
      {
        StoredReadsBack(x);
      }
      RowReadsBack(row, EncodeStored, DecodeStored);
    }
  }

  lemma ReceiptRowsReadBack(i: Image, rows: seq<Row<Receipt>>)
    requires SizedImage(i) && RowsOf(rows, i.receipts)
    ensures forall row :: row in rows ==> ReadsBack(row, EncodeRow(EncodeReceipt), DecodeRow(DecodeReceipt))
  {
    hide ReadsBack, SizedReceipt, FitsPrefix, EncodeRow, DecodeRow;
    forall row | row in rows
      ensures ReadsBack(row, EncodeRow(EncodeReceipt), DecodeRow(DecodeReceipt))
    {
      forall x | x in row.queue
        ensures ReadsBack(x, EncodeReceipt, DecodeReceipt)
      {
        ReceiptReadsBack(x);
      }
      RowReadsBack(row, EncodeReceipt, DecodeReceipt);
    }
  }

  /** A saved store reads back as what was saved, whatever order its tables were written in. */
  lemma FileRoundTrip(i: Image, queues: seq<Row<StoredEnvelope>>, receipts: seq<Row<Receipt>>)
    requires SizedImage(i) && RowsOf(queues, i.queues) && RowsOf(receipts, i.receipts)
    requires |queues| < U64_LIMIT && |receipts| < U64_LIMIT
    ensures FromBytes(FileBytes(i.selfId, queues, i.capacity, receipts)) == Some(i)
  {
    hide SizedImage, RowsOf, ReadsBack, EncodeRow, DecodeRow, EncodeSeq, DecodeSeq, EncodeU32, DecodeU32, EncodeU64,
      DecodeU64,
      Table;
    var t1 := EncodeSeq(receipts, EncodeRow(EncodeReceipt), []);
    var t0 := EncodeSeq(queues, EncodeRow(EncodeStored), EncodeU64(i.capacity) + t1);
    U32RoundTrip(STORE_MAGIC, i.selfId + t0);
    assert (i.selfId + t0)[..32] == i.selfId && (i.selfId + t0)[32..] == t0;
    QueueRowsReadBack(i, queues);
    SeqRoundTrip(queues, EncodeRow(EncodeStored), DecodeRow(DecodeStored), EncodeU64(i.capacity) + t1);
    U64RoundTrip(i.capacity, t1);
    ReceiptRowsReadBack(i, receipts);
    SeqRoundTrip(receipts, EncodeRow(EncodeReceipt), DecodeRow(DecodeReceipt), []);
    TableOfRows(queues, i.queues);
    TableOfRows(receipts, i.receipts);
  }

  /** A file in the older format reads back as what was saved, with no receipts, unless the node id happens to
      begin with the magic number. */
  lemma LegacyRoundTrip(i: Image, queues: seq<Row<StoredEnvelope>>)
    requires SizedImage(i) && RowsOf(queues, i.queues) && |queues| < U64_LIMIT
    requires i.selfId[..4] != EncodeU32(STORE_MAGIC)
    ensures FromBytes(LegacyBytes(i.selfId, queues, i.capacity)) == Some(i.(receipts := Table([])))
  {
    hide SizedImage, RowsOf, ReadsBack, EncodeRow, DecodeRow, EncodeSeq, DecodeSeq, EncodeU32, DecodeU32, EncodeU64,
      DecodeU64, Table, ReadCurrent;
    var t0 := EncodeSeq(queues, EncodeRow(EncodeStored), EncodeU64(i.capacity));
    var bs := i.selfId + t0;
    assert bs[..32] == i.selfId && bs[32..] == t0;
    NotCurrent(bs, i.selfId);
    QueueRowsReadBack(i, queues);
    SeqRoundTrip(queues, EncodeRow(EncodeStored), DecodeRow(DecodeStored), EncodeU64(i.capacity));
    assert EncodeU64(i.capacity) + [] == EncodeU64(i.capacity);
    U64RoundTrip(i.capacity, []);
    TableOfRows(queues, i.queues);
  }

  lemma NotCurrent(bs: Bytes, selfId: NodeId)
    requires 32 <= |bs| && bs[..32] == selfId && selfId[..4] != EncodeU32(STORE_MAGIC)
    ensures ReadCurrent(bs).None?
  {
    hide DecodeNodeId, DecodeSeq, DecodeU64, DecodeRow, Table;
    assert bs[..4] == selfId[..4];
    if FromLittleEndian(bs[..4]) == STORE_MAGIC {
      LittleEndianOf(bs[..4]);
      assert false;
    }
  }

  /** The rows of a hash map, in the order it hands them out. */
  method Rows<T>(m: map<string, seq<T>>) returns (rows: seq<Row<T>>)
    ensures RowsOf(rows, m) && |rows| == |m|
  {
    rows := [];
    var todo := m.Keys;
    while todo != {}
      invariant todo <= m.Keys && |rows| + |todo| == |m.Keys|
      invariant forall row :: row in rows ==> row.key in m && m[row.key] == row.queue
      invariant forall r :: r in m && r !in todo ==> Row(r, m[r]) in rows
      decreases todo
    {
      var r :| r in todo;
      rows := rows + [Row(r, m[r])];
      todo := todo - {r};
    }
  }

  /** `try_to_bytes` of a saved value. */
  method ToBytes(i: Image) returns (bytes: Bytes)
    ensures SizedImage(i) ==> FromBytes(bytes) == Some(i)
  {
    hide SizedImage, RowsOf, FromBytes, FileBytes;
    var queues := Rows(i.queues);
    var receipts := Rows(i.receipts);
    bytes := FileBytes(i.selfId, queues, i.capacity, receipts);
    if SizedImage(i) {
      SizedTables(i);
      FileRoundTrip(i, queues, receipts);
    }
  }

  lemma SizedTables(i: Image)
    requires SizedImage(i)
    ensures |i.queues| < U64_LIMIT && |i.receipts| < U64_LIMIT
  {
  }
}
