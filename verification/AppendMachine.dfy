/** The database as a state machine over appends, commits, forks and archives: what each
    request is answered with and what it leaves behind. */
module AppendMachine {
  import opened Base
  import opened LittleEndian
  import opened Format
  import opened SegmentFile
  import opened Streams
  import opened Branches
  import BranchCatalogs

  const MAX_EVENTS := 4096
  const RUST_BINCODE_V1: u32 := 0x8000_0001
  // ── requests ───────────────────────────────────────────────────────────

  datatype NewEvent = NewEvent(eventId: Option<Id>, eventType: EventType, schemaVersion: u32, metadata: Metadata, body: Bytes)

  datatype Expected = AnyRevision | NoStream | Exact(revision: nat)

  datatype Request = Request(
    branch: Id,
    stream: StreamName,
    expected: Expected,
    key: Option<Bytes>,
    events: seq<NewEvent>,
    durability: Durability)

  /** What the surroundings contribute: generated IDs, the derived stream ID, the request
      fingerprint, the clock and whether the commit policy is due. */
  datatype Ambient = Ambient(
    databaseId: Id,
    streamId: Id,
    batchId: Id,
    eventIds: seq<Id>,
    digest: u32,
    timestamp: i64,
    due: bool)

  // ── state ──────────────────────────────────────────────────────────────

  type Batches = seq<seq<Record>>

  datatype Db = Db(batches: Batches, catalog: Streams.Catalog, branches: BranchCatalogs.Catalog, durable: nat)

  function Flat(batches: Batches): seq<Record>
    decreases |batches|
  {
    if batches == [] then [] else Flat(batches[..|batches| - 1]) + batches[|batches| - 1]
  }

  function Start(batches: Batches, k: nat): nat
    requires k <= |batches|
  {
    |Flat(batches[..k])|
  }

  function Head(db: Db): nat {
    |Flat(db.batches)|
  }

  function FreshDb(): Db {
    Db([], EMPTY, BranchCatalogs.DefaultCatalog(), 0)
  }

  // ── what an append writes ──────────────────────────────────────────────

  lemma ReservedKeyNames()
    ensures Utf8(STREAM_NAME_KEY) && Utf8(IDEMPOTENCY_KEY) && Utf8(REQUEST_DIGEST_KEY)
    ensures STREAM_NAME_KEY != IDEMPOTENCY_KEY && STREAM_NAME_KEY != REQUEST_DIGEST_KEY && IDEMPOTENCY_KEY != REQUEST_DIGEST_KEY
    ensures RESERVED_METADATA_PREFIX <= STREAM_NAME_KEY && RESERVED_METADATA_PREFIX <= IDEMPOTENCY_KEY && RESERVED_METADATA_PREFIX <= REQUEST_DIGEST_KEY
  {
    hide Utf8, Ascii;
    AsciiIsUtf8("salamander.stream_name");
    AsciiIsUtf8("salamander.idempotency_key");
    AsciiIsUtf8("salamander.request_digest");
    AsciiPrefix("salamander.", "stream_name");
    AsciiPrefix("salamander.", "idempotency_key");
    AsciiPrefix("salamander.", "request_digest");
    assert "salamander." + "stream_name" == "salamander.stream_name";
    assert "salamander." + "idempotency_key" == "salamander.idempotency_key";
    assert "salamander." + "request_digest" == "salamander.request_digest";
  }

  lemma AsciiPrefix(a: string, b: string)
    ensures Ascii(a) <= Ascii(a + b)
  {
  }

  function Stamped(m: Metadata, stream: StreamName, request: Option<(Bytes, u32)>): Metadata {
    ReservedKeyNames();
    hide Ascii, Utf8, Upserted, ToBytes;
    var named := Upsert(m, Entry(STREAM_NAME_KEY, stream));
    match request
    case None => named
    case Some((key, digest)) =>
      Upsert(Upsert(named, Entry(IDEMPOTENCY_KEY, key)), Entry(REQUEST_DIGEST_KEY, ToBytes(digest, 4)))
  }

  lemma StampedEntries(m: Metadata, stream: StreamName, request: Option<(Bytes, u32)>)
    ensures var s := Stamped(m, stream, request);
      && Lookup(s, STREAM_NAME_KEY) == Some(stream)
      && RequestOf(s) == (if request.Some? then request else RequestOf(m))
      && OwnMetadata(s) == OwnMetadata(m)
  {
    ReservedKeyNames();
    hide Ascii, Utf8, Upserted, Lookup, ToBytes, FromBytes, OwnMetadata;
    var named := Upsert(m, Entry(STREAM_NAME_KEY, stream));
    LookupUpserted(m, Entry(STREAM_NAME_KEY, stream), STREAM_NAME_KEY);
    LookupUpserted(m, Entry(STREAM_NAME_KEY, stream), IDEMPOTENCY_KEY);
    LookupUpserted(m, Entry(STREAM_NAME_KEY, stream), REQUEST_DIGEST_KEY);
    ReservedKeysAreNotOwn(m, Entry(STREAM_NAME_KEY, stream));
    if request.Some? {
      var keyed := Upsert(named, Entry(IDEMPOTENCY_KEY, request.value.0));
      var last := Entry(REQUEST_DIGEST_KEY, ToBytes(request.value.1, 4));
      LookupUpserted(named, Entry(IDEMPOTENCY_KEY, request.value.0), STREAM_NAME_KEY);
      LookupUpserted(named, Entry(IDEMPOTENCY_KEY, request.value.0), IDEMPOTENCY_KEY);
      LookupUpserted(keyed, last, STREAM_NAME_KEY);
      LookupUpserted(keyed, last, IDEMPOTENCY_KEY);
      LookupUpserted(keyed, last, REQUEST_DIGEST_KEY);
      ReservedKeysAreNotOwn(named, Entry(IDEMPOTENCY_KEY, request.value.0));
      ReservedKeysAreNotOwn(keyed, last);
      PowersOf256();
      FromToBytes(request.value.1, 4);
    }
  }

  function PreviousRevision(c: Streams.Catalog, branch: Id, stream: Bytes): Option<nat> {
    if (branch, stream) in c.streams then Some(c.streams[(branch, stream)].lastRevision) else None
  }

  function NextRevision(c: Streams.Catalog, branch: Id, stream: Bytes): nat {
    match PreviousRevision(c, branch, stream)
    case None => 0
    case Some(revision) => revision + 1
  }

  function StreamIdFor(c: Streams.Catalog, req: Request, amb: Ambient): Id {
    if (req.branch, req.stream) in c.streams then c.streams[(req.branch, req.stream)].id else amb.streamId
  }

  function RequestStamp(req: Request, amb: Ambient): Option<(Bytes, u32)> {
    if req.key.Some? then Some((req.key.value, amb.digest)) else None
  }

  /** Generated IDs come one per event; positions and revisions stay 64-bit. */
  predicate Fits(c: Streams.Catalog, head: nat, req: Request, amb: Ambient) {
    && |amb.eventIds| == |req.events|
    && head + |req.events| < POSITIONS
    && NextRevision(c, req.branch, req.stream) + |req.events| < POSITIONS
  }

  function BatchIdFor(supplied: Option<Id>, amb: Ambient): Id {
    if supplied.Some? then supplied.value else amb.batchId
  }

  function DraftAt(c: Streams.Catalog, head: nat, req: Request, supplied: Option<Id>, amb: Ambient, i: nat): (d: Draft)
    requires Fits(c, head, req, amb) && i < |req.events| <= MAX_EVENTS
  {
    var e := req.events[i];
    Draft(Envelope(if e.eventId.Some? then e.eventId.value else amb.eventIds[i],
                   amb.databaseId, req.branch, StreamIdFor(c, req, amb), NextRevision(c, req.branch, req.stream) + i,
                   amb.timestamp, e.eventType, e.schemaVersion, RUST_BINCODE_V1, BatchIdFor(supplied, amb), i,
                   Stamped(e.metadata, req.stream, RequestStamp(req, amb))),
          e.body)
  }

  function Drafts(c: Streams.Catalog, head: nat, req: Request, supplied: Option<Id>, amb: Ambient): (ds: seq<Draft>)
    requires Fits(c, head, req, amb) && |req.events| <= MAX_EVENTS
    ensures |ds| == |req.events|
    ensures forall i :: 0 <= i < |ds| ==> ds[i] == DraftAt(c, head, req, supplied, amb, i)
  {
    seq(|req.events|, i requires 0 <= i < |req.events| => DraftAt(c, head, req, supplied, amb, i))
  }

  /** The records the log holds once it has accepted the drafts. */
  function RecordsOf(drafts: seq<Draft>, first: nat): (rs: seq<Record>)
    requires first + |drafts| < POSITIONS
    ensures |rs| == |drafts|
    ensures forall i :: 0 <= i < |rs| ==> rs[i] == Record(Event, 0, first + i, drafts[i].envelope, drafts[i].payload)
  {
    seq(|drafts|, i requires 0 <= i < |drafts| => Record(Event, 0, first + i, drafts[i].envelope, drafts[i].payload))
  }

  function NewBatch(c: Streams.Catalog, head: nat, req: Request, supplied: Option<Id>, amb: Ambient): (rs: seq<Record>)
    requires Fits(c, head, req, amb) && |req.events| <= MAX_EVENTS
    ensures |rs| == |req.events|
  {
    RecordsOf(Drafts(c, head, req, supplied, amb), head)
  }

  // ── how a request is answered ──────────────────────────────────────────

  predicate Expectation(expected: Expected, actual: Option<nat>) {
    match expected
    case AnyRevision => true
    case NoStream => actual.None?
    case Exact(revision) => actual == Some(revision)
  }

  /** Some event repeats a known event ID, or one of its own batch, with other content. */
  predicate Conflicting(c: Streams.Catalog, batch: seq<Record>) {
    exists i :: 0 <= i < |batch| && ConflictsAt(c, batch, i)
  }

  predicate ConflictsAt(c: Streams.Catalog, batch: seq<Record>, i: nat)
    requires i < |batch|
  {
    || (batch[i].envelope.eventId in c.eventIds && c.eventIds[batch[i].envelope.eventId].0 != EventFingerprint(batch[i]))
    || exists j :: 0 <= j < i && batch[j].envelope.eventId == batch[i].envelope.eventId
                   && EventFingerprint(batch[j]) != EventFingerprint(batch[i])
  }

  /** The event was stored before, and its batch's receipt is known. */
  predicate Seen(c: Streams.Catalog, event: NewEvent) {
    event.eventId.Some? && event.eventId.value in c.eventIds && c.eventIds[event.eventId.value].1 in c.receipts
  }

  predicate AnySeen(c: Streams.Catalog, events: seq<NewEvent>) {
    exists i :: 0 <= i < |events| && Seen(c, events[i])
  }

  /** All events were stored before, by one batch. */
  predicate AllOfOneBatch(c: Streams.Catalog, events: seq<NewEvent>) {
    && (forall i :: 0 <= i < |events| ==> Seen(c, events[i]))
    && (forall i :: 0 <= i < |events| ==> c.eventIds[events[i].eventId.value].1 == c.eventIds[events[0].eventId.value].1)
  }

  datatype Verdict = Refuse(error: Error) | Replay(receipt: Receipt) | Write

  /** A request with known events repeats one whole batch, or is refused. */
  function KnownVerdict(c: Streams.Catalog, events: seq<NewEvent>, supplied: Option<Id>): (v: Verdict)
    requires events != []
    ensures !v.Write?
  {
    if !AllOfOneBatch(c, events) then Refuse(EventIdConflict)
    else
      var original := c.receipts[c.eventIds[events[0].eventId.value].1];
      if supplied.Some? && supplied.value != original.batchId then Refuse(BatchIdConflict) else Replay(original)
  }

  function Judge(db: Db, req: Request, supplied: Option<Id>, amb: Ambient): Verdict
    requires Fits(db.catalog, Head(db), req, amb)
  {
    if req.events == [] then Refuse(InvalidArgument)
    else if |req.events| > MAX_EVENTS then Refuse(ResourceLimit)
    else if req.branch !in db.branches.byId then Refuse(BranchNotFound)
    else if db.branches.byId[req.branch].status == Archived then Refuse(BranchArchived)
    else if req.key.Some? && (req.branch, req.key.value) in db.catalog.idempotency then
      var entry := db.catalog.idempotency[(req.branch, req.key.value)];
      if entry.digest != amb.digest then Refuse(IdempotencyConflict) else Replay(entry.receipt)
    else if !Expectation(req.expected, PreviousRevision(db.catalog, req.branch, req.stream)) then Refuse(RevisionConflict)
    else if Conflicting(db.catalog, NewBatch(db.catalog, Head(db), req, supplied, amb)) then Refuse(EventIdConflict)
    else if AnySeen(db.catalog, req.events) then KnownVerdict(db.catalog, req.events, supplied)
    else if BatchIdFor(supplied, amb) in db.catalog.receipts then Refuse(BatchIdConflict)
    else Write
  }

  function AchievedDurability(requested: Durability, synced: bool): Durability {
    if synced then Synced else if requested == Flushed then Flushed else Buffered
  }

  function ReceiptAt(c: Streams.Catalog, positions: (nat, nat), req: Request, supplied: Option<Id>, amb: Ambient): Receipt
    requires req.events != []
  {
    Receipt(BatchIdFor(supplied, amb), positions.0, positions.1, StreamIdFor(c, req, amb),
            PreviousRevision(c, req.branch, req.stream), NextRevision(c, req.branch, req.stream) + |req.events| - 1,
            AchievedDurability(req.durability, req.durability == Synced || amb.due))
  }

  function NewReceipt(db: Db, req: Request, supplied: Option<Id>, amb: Ambient): Receipt
    requires req.events != []
  {
    ReceiptAt(db.catalog, (Head(db), Head(db) + |req.events| - 1), req, supplied, amb)
  }

  /** A retry gets the original receipt, synced first if it asks for that now. */
  function Answered(db: Db, receipt: Receipt, durability: Durability): (Result<Receipt>, Db) {
    if durability == Synced && receipt.durability != Synced
    then (Ok(receipt.(durability := Synced)), db.(durable := Head(db)))
    else (Ok(receipt), db)
  }

  /** The answer to an append and the state after it; `refused` is the log's own error. */
  function AfterAppend(db: Db, req: Request, supplied: Option<Id>, amb: Ambient, refused: Option<Error>): (Result<Receipt>, Db)
    requires Fits(db.catalog, Head(db), req, amb)
  {
    match Judge(db, req, supplied, amb)
    case Refuse(error) => (Err(error), db)
    case Replay(receipt) => Answered(db, receipt, req.durability)
    case Write =>
      if refused.Some? then (Err(refused.value), db)
      else
        var receipt := NewReceipt(db, req, supplied, amb);
        var batch := NewBatch(db.catalog, Head(db), req, supplied, amb);
        (Ok(receipt),
         Db(db.batches + [batch],
            Recorded(db.catalog, req.branch, req.stream, receipt.streamId, DigestsOf(batch), RequestStamp(req, amb), receipt),
            db.branches,
            if req.durability == Synced || amb.due then Head(db) + |batch| else db.durable))
  }

  // ── branches ───────────────────────────────────────────────────────────

  /** What the two records around a position say about it. */
  predicate BoundaryAccepted(rs: seq<Record>, at: nat)
    requires at <= |rs|
  {
    at == 0 || at == |rs| || rs[at - 1].envelope.batchId != rs[at].envelope.batchId
  }

  datatype ForkRequest = ForkRequest(parent: Id, at: nat, id: Id, name: Bytes, createdAt: i64, metadata: Metadata)

  function ForkInfo(f: ForkRequest): BranchInfo {
    BranchInfo(f.id, f.name, Some(f.parent), Some(f.at), f.createdAt, f.metadata, Active)
  }

  function AfterFork(db: Db, f: ForkRequest, refused: Option<Error>): (Result<BranchInfo>, Db) {
    if f.parent !in db.branches.byId then (Err(BranchNotFound), db)
    else if f.at > Head(db) then (Err(OffsetBeyondHead(f.at)), db)
    else if !BoundaryAccepted(Flat(db.batches), f.at) then (Err(NotBatchBoundary(f.at)), db)
    else match BranchCatalogs.WithBranch(db.branches, ForkInfo(f))
      case Err(error) => (Err(error), db)
      case Ok(branches) =>
        if refused.Some? then (Err(refused.value), db)
        else (Ok(ForkInfo(f)), db.(branches := branches, durable := Head(db)))
  }

  function AfterArchive(db: Db, id: Id, refused: Option<Error>): (Result<BranchInfo>, Db) {
    if id !in db.branches.byId then (Err(BranchNotFound), db)
    else if id == ZERO_ID then (Err(InvalidArgument), db)
    else if db.branches.byId[id].status == Archived then (Ok(db.branches.byId[id]), db)
    else
      var info := db.branches.byId[id].(status := Archived);
      match BranchCatalogs.WithArchived(db.branches, info)
      case Err(error) => (Err(error), db)
      case Ok(branches) =>
        if refused.Some? then (Err(refused.value), db)
        else (Ok(info), db.(branches := branches, durable := Head(db)))
  }

  // ── runs ───────────────────────────────────────────────────────────────

  datatype Op =
    | Append(req: Request, supplied: Option<Id>, amb: Ambient, refused: Option<Error>)
    | Commit
    | Fork(f: ForkRequest, refused: Option<Error>)
    | Archive(id: Id, refused: Option<Error>)

  /** Generated event IDs are new, to the log and to the request. */
  ghost predicate GeneratedAreFresh(c: Streams.Catalog, req: Request, amb: Ambient)
    requires |amb.eventIds| == |req.events|
  {
    && (forall i :: 0 <= i < |req.events| ==> amb.eventIds[i] !in c.eventIds)
    && (forall i, j :: 0 <= i < j < |req.events| ==> amb.eventIds[i] != amb.eventIds[j])
    && (forall i, j :: 0 <= i < |req.events| && 0 <= j < |req.events| ==> req.events[j].eventId != Some(amb.eventIds[i]))
  }

  ghost predicate Enabled(db: Db, op: Op) {
    op.Append? ==> Fits(db.catalog, Head(db), op.req, op.amb) && GeneratedAreFresh(db.catalog, op.req, op.amb)
  }

  ghost function Apply(db: Db, op: Op): Db
    requires Enabled(db, op)
  {
    match op
    case Append(req, supplied, amb, refused) => AfterAppend(db, req, supplied, amb, refused).1
    case Commit => db.(durable := Head(db))
    case Fork(f, refused) => AfterFork(db, f, refused).1
    case Archive(id, refused) => AfterArchive(db, id, refused).1
  }

  ghost predicate RunFrom(db: Db, ops: seq<Op>)
    decreases |ops|
  {
    ops == [] || (Enabled(db, ops[0]) && RunFrom(Apply(db, ops[0]), ops[1..]))
  }

  ghost function After(db: Db, ops: seq<Op>): Db
    requires RunFrom(db, ops)
    decreases |ops|
  {
    if ops == [] then db else After(Apply(db, ops[0]), ops[1..])
  }

  ghost predicate Reachable(db: Db) {
    exists ops :: RunFrom(FreshDb(), ops) && After(FreshDb(), ops) == db
  }
}
