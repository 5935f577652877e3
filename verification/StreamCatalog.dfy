/** The stream catalog: per-stream revisions, event identities, idempotency keys and
    receipts, kept up to date batch by batch and rebuilt record by record on open. */
module Streams {
  import opened Base
  import opened LittleEndian
  import opened Format
  import opened SegmentFile
  import Crc
  import Lexicographic

  /** Nonempty UTF-8 without NUL, at most 1024 bytes. */
  type StreamName = s: Bytes | 1 <= |s| <= 1024 && 0 !in s && Utf8(s) witness [0x61]

  const STREAM_NAME_KEY: Bytes := Ascii("salamander.stream_name")
  const IDEMPOTENCY_KEY: Bytes := Ascii("salamander.idempotency_key")
  const REQUEST_DIGEST_KEY: Bytes := Ascii("salamander.request_digest")

  datatype Durability = Buffered | Flushed | Synced

  datatype Receipt = Receipt(
    batchId: Id,
    first: nat,
    last: nat,
    streamId: Id,
    previous: Option<nat>,
    current: nat,
    durability: Durability)

  datatype StreamEntry = StreamEntry(id: Id, lastRevision: nat)
  datatype KeyEntry = KeyEntry(digest: u32, receipt: Receipt)

  datatype Catalog = Catalog(
    streams: map<(Id, Bytes), StreamEntry>,
    eventIds: map<Id, (u32, Id)>,
    idempotency: map<(Id, Bytes), KeyEntry>,
    receipts: map<Id, Receipt>)

  const EMPTY := Catalog(map[], map[], map[], map[])

  // ── what a record says about itself ────────────────────────────────────

  function Lookup(m: seq<Entry>, key: Bytes): Option<Bytes> {
    if m == [] then None
    else if m[0].key == key then Some(m[0].value)
    else Lookup(m[1..], key)
  }

  lemma {:induction false} LookupUpserted(m: seq<Entry>, e: Entry, key: Bytes)
    ensures Lookup(Upserted(m, e), key) == if key == e.key then Some(e.value) else Lookup(m, key)
  {
    if m != [] {
      LookupUpserted(m[1..], e, key);
    }
  }

  function StreamNameOf(r: Record): Result<Bytes> {
    match Lookup(r.envelope.metadata, STREAM_NAME_KEY)
    case None => Err(Corrupt(r.position))
    case Some(name) => if Utf8(name) then Ok(name) else Err(Corrupt(r.position))
  }

  /** The idempotency key and request digest a record carries, when both are there. */
  function RequestOf(m: seq<Entry>): Option<(Bytes, u32)> {
    match (Lookup(m, IDEMPOTENCY_KEY), Lookup(m, REQUEST_DIGEST_KEY))
    case (Some(key), Some(digest)) =>
      if |digest| == 4 then (PowersOf256(); Some((key, FromBytes(digest)))) else None
    case _ => None
  }

  /** The application's own metadata: entries outside the reserved prefix. */
  function OwnMetadata(m: seq<Entry>): Bytes {
    if m == [] then []
    else OwnEntry(m[0]) + OwnMetadata(m[1..])
  }

  function OwnEntry(e: Entry): Bytes {
    if RESERVED_METADATA_PREFIX <= e.key then [] else e.key + e.value
  }

  function EventFingerprint(r: Record): u32 {
    Crc.Crc32c(r.envelope.eventType + ToBytes(r.envelope.schemaVersion, 4) + OwnMetadata(r.envelope.metadata) + r.payload)
  }

  lemma {:induction false} ReservedKeysAreNotOwn(m: seq<Entry>, e: Entry)
    requires RESERVED_METADATA_PREFIX <= e.key
    ensures OwnMetadata(Upserted(m, e)) == OwnMetadata(m)
  {
    hide Lexicographic.Less, Ascii;
    assert OwnEntry(e) == [];
    if m == [] {
      assert [e][1..] == [];
    } else if m[0].key == e.key {
      assert OwnEntry(m[0]) == [] && ([e] + m[1..])[1..] == m[1..];
    } else if Lexicographic.Less(e.key, m[0].key) {
      assert ([e] + m)[1..] == m;
    } else {
      ReservedKeysAreNotOwn(m[1..], e);
      assert ([m[0]] + Upserted(m[1..], e))[1..] == Upserted(m[1..], e);
    }
  }

  // ── rebuilding, record by record ───────────────────────────────────────

  function StreamEntered(streams: map<(Id, Bytes), StreamEntry>, e: Envelope, name: Bytes, position: nat): Result<map<(Id, Bytes), StreamEntry>> {
    var key := (e.branchId, name);
    var entry := if key in streams then streams[key] else StreamEntry(e.streamId, e.revision);
    if entry.id != e.streamId then Err(Corrupt(position))
    else Ok(streams[key := entry.(lastRevision := Max(entry.lastRevision, e.revision))])
  }

  function NoteStream(c: Catalog, r: Record, name: Bytes): Result<Catalog> {
    var streams :- StreamEntered(c.streams, r.envelope, name, r.position);
    Ok(c.(streams := streams))
  }

  function NoteEvent(c: Catalog, r: Record): Result<Catalog> {
    var id, digest := r.envelope.eventId, EventFingerprint(r);
    if id in c.eventIds && c.eventIds[id].0 != digest then Err(EventIdConflict)
    else Ok(c.(eventIds := c.eventIds[id := (digest, r.envelope.batchId)]))
  }

  /** The first record of a batch opens its receipt, every record moves its end. */
  function ReceiptExtended(receipts: map<Id, Receipt>, e: Envelope, position: nat): Receipt {
    var receipt := if e.batchId in receipts then receipts[e.batchId] else
                     Receipt(e.batchId, position, position, e.streamId,
                             if e.revision == 0 then None else Some(e.revision - 1), e.revision, Buffered);
    receipt.(last := position, current := e.revision)
  }

  function NoteReceipt(c: Catalog, r: Record): Catalog {
    c.(receipts := c.receipts[r.envelope.batchId := ReceiptExtended(c.receipts, r.envelope, r.position)])
  }

  function NoteRequest(c: Catalog, r: Record): Catalog
    requires r.envelope.batchId in c.receipts
  {
    match RequestOf(r.envelope.metadata)
    case None => c
    case Some((key, digest)) =>
      c.(idempotency := c.idempotency[(r.envelope.branchId, key) := KeyEntry(digest, c.receipts[r.envelope.batchId])])
  }

  function Noted(c: Catalog, r: Record): Result<Catalog> {
    var name :- StreamNameOf(r);
    var streams :- NoteStream(c, r, name);
    var events :- NoteEvent(streams, r);
    Ok(NoteRequest(NoteReceipt(events, r), r))
  }

  function RebuiltFrom(c: Catalog, rs: seq<Record>): Result<Catalog>
    decreases |rs|
  {
    if rs == [] then Ok(c)
    else
      var before :- RebuiltFrom(c, rs[..|rs| - 1]);
      Noted(before, rs[|rs| - 1])
  }

  function Rebuilt(rs: seq<Record>): Result<Catalog> {
    RebuiltFrom(EMPTY, rs)
  }

  lemma NothingRebuilt()
    ensures forall rs: seq<Record> :: rs == [] ==> Rebuilt(rs) == Ok(EMPTY)
  {
  }

  /** One record of a replay: it goes on from there, or its error is the answer. */
  lemma RebuiltStep(rs: seq<Record>, i: nat)
    requires i < |rs| && Rebuilt(rs[..i]).Ok?
    ensures match Noted(Rebuilt(rs[..i]).value, rs[i])
      case Ok(next) => Rebuilt(rs[..i + 1]) == Ok(next)
      case Err(error) => Rebuilt(rs) == Err(error)
  {
    hide Noted;
    assert rs[..i + 1][..i] == rs[..i];
    assert rs[..i] + rs[i..] == rs;
    RebuiltConcat(EMPTY, rs[..i], rs[i..]);
    FirstOfRebuild(Rebuilt(rs[..i]).value, rs[i..]);
  }

  lemma {:induction false} RebuiltConcat(c: Catalog, a: seq<Record>, b: seq<Record>)
    ensures RebuiltFrom(c, a + b) == match RebuiltFrom(c, a)
                                     case Ok(middle) => RebuiltFrom(middle, b)
                                     case Err(error) => Err(error)
    decreases |b|
  {
    hide Noted;
    if b == [] {
      assert a + b == a;
    } else {
      assert (a + b)[..|a + b| - 1] == a + b[..|b| - 1];
      RebuiltConcat(c, a, b[..|b| - 1]);
    }
  }

  // ── one whole batch ────────────────────────────────────────────────────

  /** The receipt a rebuild arrives at after the given part of a batch. */
  function ReceiptOver(batch: seq<Record>): Receipt
    requires batch != []
  {
    var first, last := batch[0], batch[|batch| - 1];
    Receipt(first.envelope.batchId, first.position, last.position, first.envelope.streamId,
            if first.envelope.revision == 0 then None else Some(first.envelope.revision - 1),
            last.envelope.revision, Buffered)
  }

  /** One stream, one batch ID, positions, revisions and indexes counting up. */
  ghost predicate Uniform(batch: seq<Record>, name: Bytes) {
    && batch != []
    && forall i :: 0 <= i < |batch| ==>
         && batch[i].kind == Event
         && batch[i].position == batch[0].position + i
         && batch[i].envelope.revision == batch[0].envelope.revision + i
         && batch[i].envelope.batchIndex == i
         && batch[i].envelope.batchId == batch[0].envelope.batchId
         && batch[i].envelope.branchId == batch[0].envelope.branchId
         && batch[i].envelope.streamId == batch[0].envelope.streamId
         && StreamNameOf(batch[i]) == Ok(name)
  }

  /** The batch continues its stream, is new, and repeats no event with other content. */
  ghost predicate Continues(c: Catalog, batch: seq<Record>, name: Bytes) {
    && Uniform(batch, name)
    && batch[0].envelope.batchId !in c.receipts
    && StreamContinues(c, batch[0], name)
    && (forall i :: 0 <= i < |batch| && batch[i].envelope.eventId in c.eventIds ==>
          c.eventIds[batch[i].envelope.eventId].0 == EventFingerprint(batch[i]))
    && (forall i, j :: 0 <= i < j < |batch| && batch[i].envelope.eventId == batch[j].envelope.eventId ==>
          EventFingerprint(batch[i]) == EventFingerprint(batch[j]))
  }

  predicate StreamContinues(c: Catalog, r: Record, name: Bytes) {
    var key := (r.envelope.branchId, name);
    if key in c.streams then
      r.envelope.streamId == c.streams[key].id && r.envelope.revision == c.streams[key].lastRevision + 1
    else r.envelope.revision == 0
  }

  function WithEvents(m: map<Id, (u32, Id)>, batch: seq<Record>): map<Id, (u32, Id)> {
    if batch == [] then m
    else
      var r := batch[|batch| - 1];
      WithEvents(m, batch[..|batch| - 1])[r.envelope.eventId := (EventFingerprint(r), r.envelope.batchId)]
  }

  function WithRequests(m: map<(Id, Bytes), KeyEntry>, batch: seq<Record>): map<(Id, Bytes), KeyEntry> {
    if batch == [] then m
    else
      var r, before := batch[|batch| - 1], WithRequests(m, batch[..|batch| - 1]);
      match RequestOf(r.envelope.metadata)
      case None => before
      case Some((key, digest)) => before[(r.envelope.branchId, key) := KeyEntry(digest, ReceiptOver(batch))]
  }

  function WithBatch(c: Catalog, batch: seq<Record>, name: Bytes): Catalog {
    if batch == [] then c
    else
      var last := batch[|batch| - 1];
      Catalog(c.streams[(last.envelope.branchId, name) := StreamEntry(last.envelope.streamId, last.envelope.revision)],
              WithEvents(c.eventIds, batch),
              WithRequests(c.idempotency, batch),
              c.receipts[last.envelope.batchId := ReceiptOver(batch)])
  }

  predicate Mentions(batch: seq<Record>, id: Id) {
    exists i :: 0 <= i < |batch| && batch[i].envelope.eventId == id
  }

  ghost predicate EntryFrom(batch: seq<Record>, id: Id, entry: (u32, Id)) {
    exists i :: 0 <= i < |batch| && batch[i].envelope.eventId == id && entry == (EventFingerprint(batch[i]), batch[i].envelope.batchId)
  }

  lemma {:induction false} EventOfBatch(m: map<Id, (u32, Id)>, batch: seq<Record>, id: Id)
    ensures id in WithEvents(m, batch) <==> id in m || Mentions(batch, id)
    ensures Mentions(batch, id) ==> EntryFrom(batch, id, WithEvents(m, batch)[id])
    ensures id in m && !Mentions(batch, id) ==> WithEvents(m, batch)[id] == m[id]
    decreases |batch|
  {
    hide EventFingerprint;
    if batch != [] {
      var shorter, last := batch[..|batch| - 1], |batch| - 1;
      EventOfBatch(m, shorter, id);
      if Mentions(shorter, id) {
        var i :| 0 <= i < |shorter| && shorter[i].envelope.eventId == id
                 && WithEvents(m, shorter)[id] == (EventFingerprint(shorter[i]), shorter[i].envelope.batchId);
        assert batch[i] == shorter[i];
      }
      assert forall i :: 0 <= i < |batch| && i != last ==> batch[i] == shorter[i];
      assert batch[last].envelope.eventId == id ==> EntryFrom(batch, id, WithEvents(m, batch)[id]);
    }
  }

  lemma WithNoBatch(c: Catalog, name: Bytes)
    ensures WithBatch(c, [], name) == c
  {
  }

  lemma MemberName(batch: seq<Record>, name: Bytes, i: nat)
    requires Uniform(batch, name) && i < |batch|
    ensures StreamNameOf(batch[i]) == Ok(name)
  {
  }

  /** REBUILD == RECORD: replaying a fitting batch record by record never fails, and
      arrives at the catalog that one update per batch arrives at. */
  lemma {:induction false} RebuildOfBatch(c: Catalog, batch: seq<Record>, name: Bytes, n: nat)
    requires Continues(c, batch, name) && n <= |batch|
    ensures RebuiltFrom(c, batch[..n]) == Ok(WithBatch(c, batch[..n], name))
    decreases n
  {
    hide Continues, WithBatch, Noted;
    if n == 0 {
      assert batch[..0] == [];
      WithNoBatch(c, name);
    } else {
      RebuildOfBatch(c, batch, name, n - 1);
      assert batch[..n][..n - 1] == batch[..n - 1];
      NextIsNoted(c, batch, name, n);
    }
  }

  lemma NextStream(c: Catalog, batch: seq<Record>, name: Bytes, n: nat)
    requires Continues(c, batch, name) && 0 < n <= |batch|
    ensures var d, r := WithBatch(c, batch[..n - 1], name), batch[n - 1];
      NoteStream(d, r, name) == Ok(d.(streams := WithBatch(c, batch[..n], name).streams))
  {
    hide EventFingerprint, StreamNameOf, WithEvents, WithRequests, ReceiptOver;
    var d, r := WithBatch(c, batch[..n - 1], name), batch[n - 1];
    assert batch[..n][n - 1] == r;
    var key := (r.envelope.branchId, name);
    var next := WithBatch(c, batch[..n], name).streams;
    assert next == c.streams[key := StreamEntry(r.envelope.streamId, r.envelope.revision)];
    if n == 1 {
      assert batch[..0] == [] && d == c;
    } else {
      var before := batch[n - 2].envelope;
      assert batch[..n - 1][n - 2].envelope == before;
      assert d.streams == c.streams[key := StreamEntry(before.streamId, before.revision)];
      assert next == d.streams[key := StreamEntry(r.envelope.streamId, r.envelope.revision)];
    }
  }

  lemma NextEvent(c: Catalog, batch: seq<Record>, name: Bytes, n: nat)
    requires Continues(c, batch, name) && 0 < n <= |batch|
    ensures var m, id := WithEvents(c.eventIds, batch[..n - 1]), batch[n - 1].envelope.eventId;
      id in m ==> m[id].0 == EventFingerprint(batch[n - 1])
  {
    hide EventFingerprint, StreamNameOf, WithEvents;
    EventOfBatch(c.eventIds, batch[..n - 1], batch[n - 1].envelope.eventId);
  }

  lemma NextReceipt(c: Catalog, batch: seq<Record>, name: Bytes, n: nat)
    requires Continues(c, batch, name) && 0 < n <= |batch|
    ensures NoteReceipt(WithBatch(c, batch[..n - 1], name), batch[n - 1]).receipts == WithBatch(c, batch[..n], name).receipts
  {
    hide EventFingerprint, StreamNameOf, WithEvents, WithRequests;
  }

  lemma NextIsNoted(c: Catalog, batch: seq<Record>, name: Bytes, n: nat)
    requires Continues(c, batch, name) && 0 < n <= |batch|
    ensures Noted(WithBatch(c, batch[..n - 1], name), batch[n - 1]) == Ok(WithBatch(c, batch[..n], name))
  {
    hide EventFingerprint, StreamNameOf, Uniform, RequestOf, ReceiptOver, NoteStream;
    NextStream(c, batch, name, n);
    NextEvent(c, batch, name, n);
    NextReceipt(c, batch, name, n);
    MemberName(batch, name, n - 1);
    var d, r := WithBatch(c, batch[..n - 1], name), batch[n - 1];
    assert batch[..n][..n - 1] == batch[..n - 1] && batch[..n][n - 1] == r;
    NextRequest(c, batch, name, n);
  }

  lemma NextRequest(c: Catalog, batch: seq<Record>, name: Bytes, n: nat)
    requires Uniform(batch, name) && 0 < n <= |batch|
    requires NoteReceipt(WithBatch(c, batch[..n - 1], name), batch[n - 1]).receipts == WithBatch(c, batch[..n], name).receipts
    ensures var d := WithBatch(c, batch[..n - 1], name);
      NoteRequest(NoteReceipt(d, batch[n - 1]), batch[n - 1]).idempotency == WithBatch(c, batch[..n], name).idempotency
    ensures WithEvents(c.eventIds, batch[..n]) == WithEvents(c.eventIds, batch[..n - 1])[batch[n - 1].envelope.eventId := (EventFingerprint(batch[n - 1]), batch[n - 1].envelope.batchId)]
  {
    hide EventFingerprint, StreamNameOf, RequestOf, ReceiptOver, ReceiptExtended;
    assert batch[..n][..n - 1] == batch[..n - 1] && batch[..n][n - 1] == batch[n - 1];
    assert batch[..0] == [];
    assert WithRequests(c.idempotency, []) == c.idempotency && WithEvents(c.eventIds, []) == c.eventIds;
    var d := WithBatch(c, batch[..n - 1], name);
    assert d.idempotency == WithRequests(c.idempotency, batch[..n - 1]);
    var noted := NoteReceipt(d, batch[n - 1]);
    assert noted.idempotency == d.idempotency;
    assert noted.receipts[batch[n - 1].envelope.batchId] == ReceiptOver(batch[..n]);
  }

  lemma {:induction false} RequestsOfBatch(m: map<(Id, Bytes), KeyEntry>, batch: seq<Record>, request: Option<(Bytes, u32)>)
    requires batch != [] && forall i :: 0 <= i < |batch| ==>
               RequestOf(batch[i].envelope.metadata) == request && batch[i].envelope.branchId == batch[0].envelope.branchId
    ensures WithRequests(m, batch) == match request
                                      case None => m
                                      case Some((key, digest)) => m[(batch[0].envelope.branchId, key) := KeyEntry(digest, ReceiptOver(batch))]
    decreases |batch|
  {
    hide RequestOf, ReceiptOver;
    if |batch| > 1 {
      RequestsOfBatch(m, batch[..|batch| - 1], request);
    } else {
      assert WithRequests(m, batch[..0]) == m;
    }
  }

  // ── the incremental update ─────────────────────────────────────────────

  function WithDigests(m: map<Id, (u32, Id)>, digests: seq<(Id, u32)>, batchId: Id): map<Id, (u32, Id)> {
    if digests == [] then m
    else
      var last := digests[|digests| - 1];
      WithDigests(m, digests[..|digests| - 1], batchId)[last.0 := (last.1, batchId)]
  }

  function Recorded(c: Catalog, branch: Id, name: Bytes, streamId: Id, digests: seq<(Id, u32)>,
                    request: Option<(Bytes, u32)>, receipt: Receipt): Catalog {
    Catalog(c.streams[(branch, name) := StreamEntry(streamId, receipt.current)],
            WithDigests(c.eventIds, digests, receipt.batchId),
            if request.Some? then c.idempotency[(branch, request.value.0) := KeyEntry(request.value.1, receipt)] else c.idempotency,
            c.receipts[receipt.batchId := receipt])
  }

  function DigestsOf(batch: seq<Record>): (ds: seq<(Id, u32)>)
    ensures |ds| == |batch|
    ensures forall i :: 0 <= i < |batch| ==> ds[i] == (batch[i].envelope.eventId, EventFingerprint(batch[i]))
  {
    seq(|batch|, i requires 0 <= i < |batch| => (batch[i].envelope.eventId, EventFingerprint(batch[i])))
  }

  lemma {:induction false} DigestsAreEvents(m: map<Id, (u32, Id)>, batch: seq<Record>, batchId: Id)
    requires forall i :: 0 <= i < |batch| ==> batch[i].envelope.batchId == batchId
    ensures WithDigests(m, DigestsOf(batch), batchId) == WithEvents(m, batch)
    decreases |batch|
  {
    hide EventFingerprint;
    if batch != [] {
      var shorter := batch[..|batch| - 1];
      DigestsAreEvents(m, shorter, batchId);
      assert DigestsOf(batch)[..|batch| - 1] == DigestsOf(shorter);
    }
  }

  // ── agreement ──────────────────────────────────────────────────────────

  predicate SameReceipt(a: Receipt, b: Receipt) {
    a.(durability := b.durability) == b
  }

  /** Equal in everything but the durability a receipt reports. */
  ghost predicate Agree(a: Catalog, b: Catalog) {
    && a.streams == b.streams
    && a.eventIds == b.eventIds
    && a.receipts.Keys == b.receipts.Keys
    && (forall id :: id in a.receipts ==> SameReceipt(a.receipts[id], b.receipts[id]))
    && AgreeOnKeys(a.idempotency, b.idempotency)
  }

  ghost predicate AgreeOnKeys(a: map<(Id, Bytes), KeyEntry>, b: map<(Id, Bytes), KeyEntry>) {
    && a.Keys == b.Keys
    && forall k :: k in a ==> a[k].digest == b[k].digest && SameReceipt(a[k].receipt, b[k].receipt)
  }

  /** Every idempotency entry names a recorded batch. */
  ghost predicate KeysAreRecorded(c: Catalog) {
    forall k :: k in c.idempotency ==> c.idempotency[k].receipt.batchId in c.receipts
  }

  lemma {:induction false} LastForeignKey(m: map<(Id, Bytes), KeyEntry>, batch: seq<Record>, k: (Id, Bytes))
    ensures k in WithRequests(m, batch) ==>
      || (k in m && WithRequests(m, batch)[k] == m[k] && forall i :: 0 <= i < |batch| ==> !CarriesKey(batch[i], k))
      || (batch != [] && WithRequests(m, batch)[k].receipt.batchId == batch[0].envelope.batchId)
    ensures k !in WithRequests(m, batch) ==> forall i :: 0 <= i < |batch| ==> !CarriesKey(batch[i], k)
    decreases |batch|
  {
    hide RequestOf;
    if batch != [] {
      var shorter := batch[..|batch| - 1];
      LastForeignKey(m, shorter, k);
      forall i | 0 <= i < |batch| - 1 ensures CarriesKey(batch[i], k) == CarriesKey(shorter[i], k) {
      }
    }
  }

  predicate CarriesKey(r: Record, k: (Id, Bytes)) {
    r.envelope.branchId == k.0 && RequestOf(r.envelope.metadata).Some? && RequestOf(r.envelope.metadata).value.0 == k.1
  }

  /** Streams, events and receipts move alike whatever keys the batch carries. */
  lemma MapsAgree(live: Catalog, rebuilt: Catalog, batch: seq<Record>, name: Bytes, request: Option<(Bytes, u32)>, receipt: Receipt)
    requires Agree(live, rebuilt) && Continues(rebuilt, batch, name) && SameReceipt(receipt, ReceiptOver(batch))
    ensures batch != []
    ensures var a := Recorded(live, batch[0].envelope.branchId, name, batch[0].envelope.streamId, DigestsOf(batch), request, receipt);
      Agree(a, WithBatch(rebuilt, batch, name)) <==> AgreeOnKeys(a.idempotency, WithBatch(rebuilt, batch, name).idempotency)
  {
    hide EventFingerprint, WithEvents, WithDigests, WithRequests, AgreeOnKeys, StreamContinues, Uniform, DigestsOf;
    var batchId := LastIsFirst(batch, name);
    DigestsAreEvents(live.eventIds, batch, batchId);
  }

  /** What the last record of a batch shares with the first. */
  lemma LastIsFirst(batch: seq<Record>, name: Bytes) returns (batchId: Id)
    requires Uniform(batch, name)
    ensures batch != [] && batchId == batch[0].envelope.batchId == ReceiptOver(batch).batchId
    ensures batch[|batch| - 1].envelope.batchId == batchId && forall i :: 0 <= i < |batch| ==> batch[i].envelope.batchId == batchId
    ensures batch[|batch| - 1].envelope.branchId == batch[0].envelope.branchId
    ensures batch[|batch| - 1].envelope.streamId == batch[0].envelope.streamId
    ensures batch[|batch| - 1].envelope.revision == ReceiptOver(batch).current
  {
    hide StreamNameOf;
    batchId := batch[0].envelope.batchId;
  }

  /** CATALOG AGREEMENT, one append: when the catalogs agree before a batch that carries
      no idempotency key of its own, they agree after it exactly if no event of the batch
      has both reserved request entries in its metadata. */
  lemma KeylessAppendAgrees(live: Catalog, rebuilt: Catalog, batch: seq<Record>, name: Bytes, receipt: Receipt)
    requires Agree(live, rebuilt) && KeysAreRecorded(live) && Continues(rebuilt, batch, name)
    requires SameReceipt(receipt, ReceiptOver(batch))
    ensures Agree(Recorded(live, batch[0].envelope.branchId, name, batch[0].envelope.streamId, DigestsOf(batch), None, receipt),
                  WithBatch(rebuilt, batch, name))
       <==> forall i :: 0 <= i < |batch| ==> RequestOf(batch[i].envelope.metadata).None?
  {
    hide EventFingerprint, RequestOf, StreamNameOf, WithEvents, WithDigests, WithRequests, AgreeOnKeys, StreamContinues, SameReceipt, ReceiptOver, DigestsOf;
    MapsAgree(live, rebuilt, batch, name, None, receipt);
    if forall i :: 0 <= i < |batch| ==> RequestOf(batch[i].envelope.metadata).None? {
      RequestsOfBatch(rebuilt.idempotency, batch, None);
    } else {
      KeysAreOlder(live, rebuilt, batch, name);
      ForeignKeyShows(live.idempotency, rebuilt.idempotency, batch);
    }
  }

  lemma KeysAreOlder(live: Catalog, rebuilt: Catalog, batch: seq<Record>, name: Bytes)
    requires Agree(live, rebuilt) && KeysAreRecorded(live) && Continues(rebuilt, batch, name)
    ensures batch != [] && forall k :: k in live.idempotency ==> live.idempotency[k].receipt.batchId != batch[0].envelope.batchId
  {
    hide EventFingerprint, StreamNameOf, AgreeOnKeys, StreamContinues, SameReceipt;
    assert batch[0].envelope.batchId !in live.receipts.Keys;
  }

  lemma ForeignKeyShows(live: map<(Id, Bytes), KeyEntry>, rebuilt: map<(Id, Bytes), KeyEntry>, batch: seq<Record>)
    requires exists i :: 0 <= i < |batch| && RequestOf(batch[i].envelope.metadata).Some?
    requires forall k :: k in live ==> live[k].receipt.batchId != batch[0].envelope.batchId
    ensures !AgreeOnKeys(live, WithRequests(rebuilt, batch))
  {
    hide RequestOf, WithRequests;
    var i :| 0 <= i < |batch| && RequestOf(batch[i].envelope.metadata).Some?;
    var k := (batch[i].envelope.branchId, RequestOf(batch[i].envelope.metadata).value.0);
    assert CarriesKey(batch[i], k);
    LastForeignKey(rebuilt, batch, k);
  }

  /** A batch stamped with its request's key and digest always keeps the agreement. */
  lemma KeyedAppendAgrees(live: Catalog, rebuilt: Catalog, batch: seq<Record>, name: Bytes, request: (Bytes, u32), receipt: Receipt)
    requires Agree(live, rebuilt) && Continues(rebuilt, batch, name) && SameReceipt(receipt, ReceiptOver(batch))
    requires forall i :: 0 <= i < |batch| ==> RequestOf(batch[i].envelope.metadata) == Some(request)
    ensures Agree(Recorded(live, batch[0].envelope.branchId, name, batch[0].envelope.streamId, DigestsOf(batch), Some(request), receipt),
                  WithBatch(rebuilt, batch, name))
  {
    hide EventFingerprint, RequestOf, StreamNameOf, WithEvents, WithDigests, WithRequests, StreamContinues, DigestsOf, ReceiptOver;
    MapsAgree(live, rebuilt, batch, name, Some(request), receipt);
    RequestsOfBatch(rebuilt.idempotency, batch, Some(request));
  }

  // ── the object ─────────────────────────────────────────────────────────

  class StreamCatalog {
    var streams: map<(Id, Bytes), StreamEntry>
    var eventIds: map<Id, (u32, Id)>
    var idempotency: map<(Id, Bytes), KeyEntry>
    var receipts: map<Id, Receipt>

    function View(): Catalog
      reads this
    {
      Catalog(streams, eventIds, idempotency, receipts)
    }

    constructor ()
      ensures View() == EMPTY
    {
      streams, eventIds, idempotency, receipts := map[], map[], map[], map[];
    }

    constructor From(c: Catalog)
      ensures View() == c
    {
      streams, eventIds, idempotency, receipts := c.streams, c.eventIds, c.idempotency, c.receipts;
    }

    /** Replay the whole log, one record at a time. */
    static method Rebuild(records: seq<Record>) returns (r: Result<StreamCatalog>)
      ensures r.Ok? ==> fresh(r.value) && Rebuilt(records) == Ok(r.value.View())
      ensures r.Err? ==> Rebuilt(records) == Err(r.error)
    {
      hide Rebuilt, Noted;
      var catalog := new StreamCatalog();
      var index := 0;
      NothingRebuilt();
      while index < |records|
        invariant 0 <= index <= |records|
        invariant Rebuilt(records[..index]) == Ok(catalog.View())
      {
        RebuiltStep(records, index);
        var _ :- catalog.Note(records[index]);
        index := index + 1;
      }
      assert records[..index] == records;
      return Ok(catalog);
    }

    method Note(r: Record) returns (result: Result<()>)
      modifies this
      ensures match Noted(old(View()), r)
        case Ok(next) => result == Ok(()) && View() == next
        case Err(error) => result == Err(error)
    {
      hide EventFingerprint, RequestOf, StreamNameOf;
      var name :- StreamNameOf(r);
      var _ :- EnterStream(r.envelope, name, r.position);
      var _ :- EnterEvent(r.envelope.eventId, EventFingerprint(r), r.envelope.batchId);
      var receipt := ExtendReceipt(r.envelope, r.position);
      var request := RequestOf(r.envelope.metadata);
      if request.Some? {
        idempotency := idempotency[(r.envelope.branchId, request.value.0) := KeyEntry(request.value.1, receipt)];
      }
      return Ok(());
    }

    method EnterStream(e: Envelope, name: Bytes, position: nat) returns (result: Result<()>)
      modifies this`streams
      ensures match StreamEntered(old(streams), e, name, position)
        case Ok(next) => result == Ok(()) && streams == next
        case Err(error) => result == Err(error)
    {
      var key := (e.branchId, name);
      if key !in streams {
        streams := streams[key := StreamEntry(e.streamId, e.revision)];
      }
      var entry := streams[key];
      if entry.id != e.streamId {
        return Err(Corrupt(position));
      }
      if e.revision > entry.lastRevision {
        streams := streams[key := entry.(lastRevision := e.revision)];
      }
      assert streams == StreamEntered(old(streams), e, name, position).value;
      return Ok(());
    }

    method EnterEvent(id: Id, digest: u32, batchId: Id) returns (result: Result<()>)
      modifies this`eventIds
      ensures eventIds == old(eventIds)[id := (digest, batchId)]
      ensures result == if id in old(eventIds) && old(eventIds)[id].0 != digest then Err(EventIdConflict) else Ok(())
    {
      var previous := if id in eventIds then Some(eventIds[id].0) else None;
      eventIds := eventIds[id := (digest, batchId)];
      if previous.Some? && previous.value != digest {
        return Err(EventIdConflict);
      }
      return Ok(());
    }

    method ExtendReceipt(e: Envelope, position: nat) returns (receipt: Receipt)
      modifies this`receipts
      ensures receipt == ReceiptExtended(old(receipts), e, position) && receipts == old(receipts)[e.batchId := receipt]
    {
      if e.batchId !in receipts {
        receipts := receipts[e.batchId := Receipt(e.batchId, position, position, e.streamId,
                                                  if e.revision == 0 then None else Some(e.revision - 1), e.revision, Buffered)];
      }
      receipt := receipts[e.batchId].(last := position, current := e.revision);
      receipts := receipts[e.batchId := receipt];
    }

    method RecordBatch(branch: Id, name: StreamName, streamId: Id, digests: seq<(Id, u32)>,
                       request: Option<(Bytes, u32)>, receipt: Receipt)
      modifies this
      ensures View() == Recorded(old(View()), branch, name, streamId, digests, request, receipt)
    {
      streams := streams[(branch, name) := StreamEntry(streamId, receipt.current)];
      var index := 0;
      while index < |digests|
        invariant 0 <= index <= |digests|
        invariant eventIds == WithDigests(old(eventIds), digests[..index], receipt.batchId)
        invariant streams == old(streams)[(branch, name) := StreamEntry(streamId, receipt.current)]
        invariant idempotency == old(idempotency) && receipts == old(receipts)
      {
        assert digests[..index + 1][..index] == digests[..index];
        eventIds := eventIds[digests[index].0 := (digests[index].1, receipt.batchId)];
        index := index + 1;
      }
      assert digests[..index] == digests;
      receipts := receipts[receipt.batchId := receipt];
      if request.Some? {
        idempotency := idempotency[(branch, request.value.0) := KeyEntry(request.value.1, receipt)];
      }
    }
  }

  lemma FirstOfRebuild(c: Catalog, rs: seq<Record>)
    requires rs != []
    ensures Noted(c, rs[0]).Err? ==> RebuiltFrom(c, rs) == Err(Noted(c, rs[0]).error)
  {
    hide Noted;
    RebuiltConcat(c, [rs[0]], rs[1..]);
    assert [rs[0]] + rs[1..] == rs && [rs[0]][..0] == [];
    assert RebuiltFrom(c, []) == Ok(c);
    assert RebuiltFrom(c, [rs[0]]) == Noted(c, rs[0]);
  }
}
