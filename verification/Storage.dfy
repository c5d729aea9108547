/**
 The transactions of `IndexedDbGraphRepository` as functions on the value of
 one graph's stores.  Each function is one IndexedDB transaction: it either
 returns an error and the stores are untouched, or it returns the stores the
 transaction commits.  The class in `Repository` performs the same transactions
 record by record and is proved to compute these functions.
 */
module Storage {
  import opened Records

  datatype Store = Store(
    metadata: Option<Metadata>,
    updates: map<nat, UpdateRecord>,
    checkpoints: map<nat, CheckpointRecord>,
    outbox: map<Digest, OutboxRecord>,
    quarantine: map<Handle, QuarantineRecord>,
    serverBase: bool)

  datatype StorageError =
    | GraphNotOpen
    | CheckpointOutsideFrontier
    | OutboxUpdateMissing
    | OutboxChecksumMismatch

  const EMPTY := Store(None, map[], map[], map[], map[], false)

  function UpdatePayloads(updates: map<nat, UpdateRecord>): map<nat, Payload> {
    map q | q in updates :: updates[q].payload
  }

  function CheckpointPayloads(checkpoints: map<nat, CheckpointRecord>): map<nat, Payload> {
    map q | q in checkpoints :: checkpoints[q].payload
  }

  /** The unique `by_checksum` index. */
  ghost predicate ChecksumsUnique(updates: map<nat, UpdateRecord>) {
    forall q, r :: q in updates && r in updates && updates[q].checksum == updates[r].checksum ==> q == r
  }

  ghost function FindByChecksum(updates: map<nat, UpdateRecord>, digest: Digest): (found: Option<nat>)
    ensures found.Some? ==> found.value in updates && updates[found.value].checksum == digest
    ensures found.None? ==> forall q :: q in updates ==> updates[q].checksum != digest
  {
    if exists q :: q in updates && updates[q].checksum == digest then
      var q :| q in updates && updates[q].checksum == digest;
      Some(q)
    else
      None
  }

  // ---------------------------------------------------------------- openGraph

  function InitialMetadata(epoch: nat, schema: nat, checkpointBytes: nat): Metadata {
    Metadata(epoch, schema, 1, 0, checkpointBytes, 0, 0)
  }

  function OpenGraph(s: Store, schema: nat): Store {
    if s.metadata.Some? then s else s.(metadata := Some(InitialMetadata(0, schema, 0)))
  }

  // ------------------------------------------------------------- appendUpdate

  datatype Appended = Appended(store: Store, sequence: nat)

  /** `queue` carries the base version vector of a synced graph's outbox entry. */
  ghost function AppendUpdate(s: Store, p: Payload, queue: Option<nat>, now: nat): Result<Appended, StorageError> {
    var digest := Checksum(p);
    var existing := FindByChecksum(s.updates, digest);
    if existing.Some? then
      Ok(Appended(Enqueue(s, digest, existing.value, queue, now), existing.value))
    else if s.metadata.None? then
      Err(GraphNotOpen)
    else
      var next := s.metadata.value.nextSequence;
      Ok(Appended(Enqueue(PutUpdate(s, p), digest, next, queue, now), next))
  }

  /** A new update record under the next sequence. */
  function PutUpdate(s: Store, p: Payload): Store
    requires s.metadata.Some?
  {
    var m := s.metadata.value;
    s.(updates := s.updates[m.nextSequence := UpdateRecord(Checksum(p), p)],
       metadata := Some(m.(
         nextSequence := m.nextSequence + 1,
         tailBytes := m.tailBytes + |p.bytes|,
         tailCount := m.tailCount + 1)))
  }

  function Enqueue(s: Store, digest: Digest, sequence: nat, queue: Option<nat>, now: nat): Store {
    if queue.None? then s else
      s.(outbox := s.outbox[digest := OutboxRecord(sequence, queue.value, None, now)])
  }

  // -------------------------------------------------------------- acknowledge

  /** The oldest sequence any retained generation still needs updates above. */
  function AcknowledgeThrough(s: Store): nat {
    Least(if s.metadata.Some? then s.metadata.value.compactedThrough else 0, s.checkpoints.Keys)
  }

  function Clamped(a: nat, b: nat): nat {
    if a < b then 0 else a - b
  }

  function AcknowledgeOne(s: Store, through: nat, id: Digest): Store {
    if id !in s.outbox then s else
      var entry := s.outbox[id];
      var freed := s.(outbox := s.outbox - {id});
      if s.metadata.None? || entry.sequence == 0 || entry.sequence > through || entry.sequence !in s.updates then
        freed
      else
        var m := s.metadata.value;
        freed.(
          updates := s.updates - {entry.sequence},
          metadata := Some(m.(
            tailBytes := Clamped(m.tailBytes, |s.updates[entry.sequence].payload.bytes|),
            tailCount := Clamped(m.tailCount, 1))))
  }

  function AcknowledgeEach(s: Store, through: nat, ids: seq<Digest>): Store {
    if ids == [] then s else
      AcknowledgeOne(AcknowledgeEach(s, through, ids[..|ids| - 1]), through, ids[|ids| - 1])
  }

  function Acknowledge(s: Store, ids: seq<Digest>): Store {
    AcknowledgeEach(s, AcknowledgeThrough(s), ids)
  }

  // -------------------------------------------------------- installCheckpoint

  function Restrict(checkpoints: map<nat, CheckpointRecord>, kept: set<nat>): map<nat, CheckpointRecord> {
    map c | c in checkpoints && c in kept :: checkpoints[c]
  }

  /** The two newest generations survive a rotation. */
  function Newest(keys: set<nat>): (kept: set<nat>)
    ensures kept <= keys
    ensures |keys| <= 2 ==> kept == keys
    ensures |keys| > 2 ==> |kept| == 2
    ensures forall k, dropped :: k in kept && dropped in keys && dropped !in kept ==> dropped < k
  {
    var order := Descending(keys);
    if |order| <= 2 then keys else
      FirstTwo(keys, order);
      {order[0], order[1]}
  }

  lemma FirstTwo(keys: set<nat>, order: seq<nat>)
    requires |order| > 2 && forall x :: x in order <==> x in keys
    requires forall i, j :: 0 <= i < j < |order| ==> order[i] > order[j]
    ensures var kept := {order[0], order[1]};
      && kept <= keys && |kept| == 2
      && forall k, dropped :: k in kept && dropped in keys && dropped !in kept ==> dropped < k
  {
    assert order[0] in order && order[1] in order;
    forall x | x in keys && x != order[0] && x != order[1] ensures x < order[1] < order[0] {
      var i :| 0 <= i < |order| && order[i] == x;
    }
  }

  function Pinned(outbox: map<Digest, OutboxRecord>): set<nat> {
    set id | id in outbox && outbox[id].sequence > 0 :: outbox[id].sequence
  }

  ghost function InstallCheckpoint(s: Store, p: Payload, sequence: nat, schema: nat): Result<Store, StorageError> {
    if s.metadata.None? then Err(GraphNotOpen) else
      var m := s.metadata.value;
      if sequence < m.compactedThrough || sequence >= m.nextSequence then Err(CheckpointOutsideFrontier) else
        var put := s.checkpoints[sequence := CheckpointRecord(schema, Checksum(p), p)];
        var kept := Newest(put.Keys);
        var through := Least(sequence, kept);
        Ok(Recounted(
             s,
             m.(schema := schema,
                compactedThrough := if m.compactedThrough < sequence then sequence else m.compactedThrough),
             Restrict(put, kept),
             RetainUpdates(s.updates, through, Pinned(s.outbox))))
  }

  /** The stores after a rewrite of both generations and tail, with their sizes measured again. */
  ghost function Recounted(
    s: Store, m: Metadata, checkpoints: map<nat, CheckpointRecord>, updates: map<nat, UpdateRecord>): Store
  {
    s.(checkpoints := checkpoints,
       updates := updates,
       metadata := Some(m.(
         checkpointBytes := TotalBytes(CheckpointPayloads(checkpoints)),
         tailBytes := TotalBytes(UpdatePayloads(updates)),
         tailCount := |updates|)))
  }

  function RetainUpdates(updates: map<nat, UpdateRecord>, through: nat, pinned: set<nat>): map<nat, UpdateRecord> {
    map q | q in updates && (q > through || q in pinned) :: updates[q]
  }

  // -------------------------------------------------------- repairCorruptTail

  /** The outbox store is not part of this transaction. */
  ghost function RepairCorruptTail(
    s: Store, p: Payload, validThrough: nat, schema: nat, records: map<nat, QuarantineRecord>)
    : Result<Store, StorageError>
  {
    if s.metadata.None? then Err(GraphNotOpen) else
      var m := s.metadata.value;
      var put := s.checkpoints[validThrough := CheckpointRecord(schema, Checksum(p), p)];
      Ok(Recounted(
           s.(quarantine := s.quarantine + Quarantined(records)),
           m.(schema := schema, compactedThrough := validThrough),
           Restrict(put, Newest(put.Keys)),
           UpdatesThrough(s.updates, validThrough)))
  }

  function Quarantined(records: map<nat, QuarantineRecord>): map<Handle, QuarantineRecord> {
    map q | q in records :: UpdateHandle(q) := records[q]
  }

  function UpdatesThrough(updates: map<nat, UpdateRecord>, through: nat): map<nat, UpdateRecord> {
    map q | q in updates && q <= through :: updates[q]
  }

  // ----------------------------------------------------------- replaceHistory

  function ReplaceHistory(s: Store, p: Payload, epoch: nat, base: nat, tail: Payload, schema: nat, now: nat)
    : Result<Appended, StorageError>
    requires s.metadata.Some? ==> s.metadata.value.nextSequence > 0
  {
    if s.metadata.None? then Err(GraphNotOpen) else
      var m := s.metadata.value;
      var through := m.nextSequence - 1;
      var rebased := |tail.bytes| > 0;
      Ok(Appended(
        s.(checkpoints := map[through := CheckpointRecord(schema, Checksum(p), p)],
           updates := if rebased then map[m.nextSequence := UpdateRecord(Checksum(tail), tail)] else map[],
           outbox := if rebased then map[Checksum(tail) := OutboxRecord(m.nextSequence, base, None, now)] else map[],
           serverBase := true,
           metadata := Some(Metadata(
             epoch, schema,
             if rebased then m.nextSequence + 1 else m.nextSequence,
             through,
             |p.bytes|,
             |tail.bytes|,
             if rebased then 1 else 0))),
        through))
  }

  // -------------------------------------------------------- reading the stores

  /** `updatesAfter`: the stored sequences above `through`, in order. */
  function UpdatesAfter(s: Store, through: nat): (r: seq<nat>)
    ensures forall q :: q in r <==> q in s.updates && q > through
    ensures forall i, j :: 0 <= i < j < |r| ==> r[i] < r[j]
  {
    Ascending(set q | q in s.updates && q > through)
  }

  // ------------------------------------------------------------ storage facts

  /** What `metadata` counts is what the stores hold. */
  ghost predicate Accounted(s: Store) {
    s.metadata.Some? ==>
      var m := s.metadata.value;
      && m.tailBytes == TotalBytes(UpdatePayloads(s.updates))
      && m.tailCount == |s.updates|
      && m.checkpointBytes == TotalBytes(CheckpointPayloads(s.checkpoints))
  }

  /** Every entry references a stored update whose checksum is the entry's key. */
  ghost predicate References(s: Store) {
    forall id :: id in s.outbox ==> Resolves(s, id)
  }

  ghost predicate Resolves(s: Store, id: Digest)
    requires id in s.outbox
  {
    var entry := s.outbox[id];
    entry.payload.None? && entry.sequence > 0 && entry.sequence in s.updates && s.updates[entry.sequence].checksum == id
  }

  lemma CountOneMore(updates: map<nat, UpdateRecord>, q: nat, record: UpdateRecord)
    requires q !in updates
    ensures TotalBytes(UpdatePayloads(updates[q := record])) == TotalBytes(UpdatePayloads(updates)) + |record.payload.bytes|
    ensures |updates[q := record]| == |updates| + 1
  {
    hide TotalBytes;
    TotalBytesPut(UpdatePayloads(updates), q, record.payload);
    PayloadsPut(updates, q, record);
    assert updates[q := record].Keys == updates.Keys + {q};
  }

  lemma PayloadsPut(updates: map<nat, UpdateRecord>, q: nat, record: UpdateRecord)
    ensures UpdatePayloads(updates[q := record]) == UpdatePayloads(updates)[q := record.payload]
  {
  }
}
