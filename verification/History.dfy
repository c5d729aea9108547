/**
 What the stores mean.  A history is the base document of the current epoch and
 the operations of every append that committed since, by sequence.  `Faithful`
 relates stored records to that history, and each transaction is shown to keep
 it.
 */
module History {
  import opened Records
  import opened Storage

  datatype Log = Log(base: set<Op>, entries: map<nat, set<Op>>)

  /** Every operation whose append committed in this epoch, through a sequence. */
  function Through(log: Log, sequence: nat): (ops: set<Op>)
    ensures forall op :: op in ops <==> op in log.base || exists q :: q in log.entries && q <= sequence && op in log.entries[q]
  {
    log.base + set q, op | q in log.entries && q <= sequence && op in log.entries[q] :: op
  }

  function Committed(log: Log): (ops: set<Op>)
    ensures forall op :: op in ops <==> op in log.base || exists q :: q in log.entries && op in log.entries[q]
  {
    log.base + set q, op | q in log.entries && op in log.entries[q] :: op
  }

  /** The operations of the stored updates above a sequence. */
  function StoredAbove(s: Store, sequence: nat): (ops: set<Op>)
    ensures forall op :: op in ops <==> exists q :: q in s.updates && q > sequence && op in s.updates[q].payload.ops
  {
    set q, op | q in s.updates && q > sequence && op in s.updates[q].payload.ops :: op
  }

  /** What recovery rebuilds from one generation: its document plus the tail above it. */
  function RecoveredFrom(s: Store, c: nat): set<Op>
    requires c in s.checkpoints
  {
    s.checkpoints[c].payload.ops + StoredAbove(s, c)
  }

  // ----------------------------------------------------------------- invariant

  ghost predicate Bounded(s: Store, log: Log) {
    && s.metadata.Some?
    && var m := s.metadata.value;
    && m.compactedThrough < m.nextSequence
    && (forall q :: q in log.entries ==> 0 < q < m.nextSequence)
    && (forall c :: c in s.checkpoints ==> c <= m.compactedThrough)
    && |s.checkpoints| <= 2
    && (if s.checkpoints.Keys == {} then m.compactedThrough == 0 && log.entries.Keys == {}
        else m.compactedThrough in s.checkpoints)
  }

  ghost predicate UpdatesFaithful(s: Store, log: Log) {
    forall q :: q in s.updates ==>
      && s.updates[q].checksum == Checksum(s.updates[q].payload)
      && q in log.entries
      && s.updates[q].payload.ops == log.entries[q]
  }

  ghost predicate CheckpointsFaithful(s: Store, log: Log) {
    forall c :: c in s.checkpoints ==>
      && s.checkpoints[c].checksum == Checksum(s.checkpoints[c].payload)
      && s.checkpoints[c].payload.ops == Through(log, c)
  }

  /** Stored updates are exactly those above the older generation and those a message references. */
  ghost predicate ExactlyRetained(s: Store, log: Log) {
    forall q :: q in s.updates <==> q in log.entries && (q > AcknowledgeThrough(s) || q in Pinned(s.outbox))
  }

  ghost predicate Faithful(s: Store, log: Log) {
    && Bounded(s, log)
    && UpdatesFaithful(s, log)
    && CheckpointsFaithful(s, log)
    && ExactlyRetained(s, log)
    && References(s)
    && ChecksumsUnique(s.updates)
    && Accounted(s)
  }

  /** Either generation rebuilds exactly the committed operations. */
  lemma EveryGenerationRecovers(s: Store, log: Log, c: nat)
    requires Faithful(s, log) && c in s.checkpoints
    ensures RecoveredFrom(s, c) == Committed(log)
  {
    forall op | op in Committed(log) ensures op in RecoveredFrom(s, c) {
      if op !in log.base {
        var q :| q in log.entries && op in log.entries[q];
        if q > c {
          assert q in s.updates;
        } else {
          assert op in Through(log, c);
        }
      }
    }
    forall op | op in RecoveredFrom(s, c) ensures op in Committed(log) {
      if op in StoredAbove(s, c) {
        var q :| q in s.updates && q > c && op in s.updates[q].payload.ops;
        assert op in log.entries[q];
      }
    }
  }

  // -------------------------------------------------------------- appendUpdate

  /** A commit under a new sequence extends the history; a duplicate leaves it alone. */
  ghost function LogAppend(s: Store, log: Log, p: Payload): Log
    requires s.metadata.Some?
  {
    if FindByChecksum(s.updates, Checksum(p)).Some? then log else LogPut(s, log, p)
  }

  function LogPut(s: Store, log: Log, p: Payload): Log
    requires s.metadata.Some?
  {
    log.(entries := log.entries[s.metadata.value.nextSequence := p.ops])
  }

  lemma PinnedAfterEnqueue(s: Store, digest: Digest, sequence: nat, queue: Option<nat>, now: nat)
    requires queue.Some? && digest in s.outbox ==> s.outbox[digest].sequence == sequence
    requires sequence > 0
    ensures Pinned(Enqueue(s, digest, sequence, queue, now).outbox)
         == if queue.Some? then Pinned(s.outbox) + {sequence} else Pinned(s.outbox)
  {
    var after := Enqueue(s, digest, sequence, queue, now);
    if queue.Some? {
      assert digest in after.outbox && after.outbox[digest].sequence == sequence;
      forall q | q in Pinned(s.outbox) ensures q in Pinned(after.outbox) {
        var id :| id in s.outbox && s.outbox[id].sequence > 0 && s.outbox[id].sequence == q;
        assert id in after.outbox && after.outbox[id].sequence == q;
      }
    }
  }

  lemma ThroughIgnoresLater(log: Log, sequence: nat, next: nat, ops: set<Op>)
    requires sequence < next && next !in log.entries
    ensures Through(log.(entries := log.entries[next := ops]), sequence) == Through(log, sequence)
  {
    var extended := log.(entries := log.entries[next := ops]);
    forall op | op in Through(log, sequence) ensures op in Through(extended, sequence) {
      if op !in log.base {
        var q :| q in log.entries && q <= sequence && op in log.entries[q];
        assert q in extended.entries && op in extended.entries[q];
      }
    }
    forall op | op in Through(extended, sequence) ensures op in Through(log, sequence) {
      if op !in log.base {
        var q :| q in extended.entries && q <= sequence && op in extended.entries[q];
        assert q in log.entries && op in log.entries[q];
      }
    }
  }

  lemma PutKeepsCheckpoints(s: Store, log: Log, p: Payload)
    requires Bounded(s, log) && CheckpointsFaithful(s, log)
    ensures CheckpointsFaithful(PutUpdate(s, p), LogPut(s, log, p))
  {
    forall c | c in s.checkpoints ensures Through(LogPut(s, log, p), c) == Through(log, c) {
      ThroughIgnoresLater(log, c, s.metadata.value.nextSequence, p.ops);
    }
  }

  lemma PutKeepsRetention(s: Store, log: Log, p: Payload)
    requires Bounded(s, log) && ExactlyRetained(s, log)
    ensures ExactlyRetained(PutUpdate(s, p), LogPut(s, log, p))
  {
    assert AcknowledgeThrough(PutUpdate(s, p)) == AcknowledgeThrough(s);
  }

  lemma PutKeepsReferences(s: Store, log: Log, p: Payload)
    requires Bounded(s, log) && ExactlyRetained(s, log) && References(s)
    ensures References(PutUpdate(s, p))
  {
    forall id | id in s.outbox ensures Resolves(PutUpdate(s, p), id) {
      assert Resolves(s, id);
    }
  }

  lemma PutKeepsBounds(s: Store, log: Log, p: Payload)
    requires Bounded(s, log) && s.checkpoints.Keys != {}
    ensures Bounded(PutUpdate(s, p), LogPut(s, log, p))
  {
  }

  lemma PutKeepsUpdates(s: Store, log: Log, p: Payload)
    requires Bounded(s, log) && UpdatesFaithful(s, log)
    ensures UpdatesFaithful(PutUpdate(s, p), LogPut(s, log, p))
  {
  }

  lemma PutKeepsUnique(s: Store, p: Payload)
    requires s.metadata.Some? && ChecksumsUnique(s.updates) && FindByChecksum(s.updates, Checksum(p)).None?
    ensures ChecksumsUnique(PutUpdate(s, p).updates)
  {
  }

  lemma PutKeepsFaithful(s: Store, log: Log, p: Payload)
    requires Faithful(s, log) && s.checkpoints.Keys != {} && FindByChecksum(s.updates, Checksum(p)).None?
    ensures Faithful(PutUpdate(s, p), LogPut(s, log, p))
  {
    hide UpdatesFaithful, CheckpointsFaithful, ExactlyRetained, References, ChecksumsUnique, Accounted, PutUpdate, LogPut, FindByChecksum;
    PutKeepsBounds(s, log, p);
    PutKeepsUpdates(s, log, p);
    PutKeepsUnique(s, p);
    PutKeepsCheckpoints(s, log, p);
    PutKeepsRetention(s, log, p);
    PutKeepsReferences(s, log, p);
    PutIsAccounted(s, log, p);
  }

  lemma PutIsAccounted(s: Store, log: Log, p: Payload)
    requires Bounded(s, log) && UpdatesFaithful(s, log) && Accounted(s)
    ensures Accounted(PutUpdate(s, p))
  {
    hide TotalBytes, UpdatePayloads, CheckpointPayloads;
    assert s.metadata.value.nextSequence !in s.updates;
    CountOneMore(s.updates, s.metadata.value.nextSequence, UpdateRecord(Checksum(p), p));
  }

  /** Referencing a stored update from the outbox. */
  lemma EnqueueKeepsFaithful(s: Store, log: Log, p: Payload, sequence: nat, queue: Option<nat>, now: nat)
    requires Faithful(s, log) && sequence in s.updates && s.updates[sequence].payload == p
    ensures Faithful(Enqueue(s, Checksum(p), sequence, queue, now), log)
  {
    hide ExactlyRetained, References, ChecksumsUnique, Accounted, Through, Bounded, UpdatesFaithful;
    var after := Enqueue(s, Checksum(p), sequence, queue, now);
    StoredIsLogged(s, log, sequence);
    EnqueueKeepsReferences(s, p, sequence, queue, now);
    EnqueueRetains(s, log, Checksum(p), sequence, queue, now);
    SameAccounts(s, after);
    SameBounds(s, after, log);
    SameUpdates(s, after, log);
  }

  lemma StoredIsLogged(s: Store, log: Log, q: nat)
    requires Bounded(s, log) && UpdatesFaithful(s, log) && q in s.updates
    ensures q > 0 && s.updates[q].checksum == Checksum(s.updates[q].payload)
  {
  }

  lemma SameUpdates(s: Store, after: Store, log: Log)
    requires UpdatesFaithful(s, log) && after.updates == s.updates
    ensures UpdatesFaithful(after, log)
  {
  }

  lemma SameBounds(s: Store, after: Store, log: Log)
    requires Bounded(s, log) && after.checkpoints == s.checkpoints && after.metadata == s.metadata
    ensures Bounded(after, log)
  {
  }

  lemma EnqueueRetains(s: Store, log: Log, digest: Digest, sequence: nat, queue: Option<nat>, now: nat)
    requires ExactlyRetained(s, log) && sequence in s.updates && sequence > 0
    requires digest in s.outbox ==> s.outbox[digest].sequence == sequence
    ensures ExactlyRetained(Enqueue(s, digest, sequence, queue, now), log)
  {
    hide Pinned;
    PinnedAfterEnqueue(s, digest, sequence, queue, now);
  }

  lemma EnqueueKeepsReferences(s: Store, p: Payload, sequence: nat, queue: Option<nat>, now: nat)
    requires References(s) && sequence > 0 && sequence in s.updates && ChecksumsUnique(s.updates)
    requires s.updates[sequence].checksum == Checksum(p)
    ensures References(Enqueue(s, Checksum(p), sequence, queue, now))
    ensures Checksum(p) in s.outbox ==> s.outbox[Checksum(p)].sequence == sequence
  {
    var after := Enqueue(s, Checksum(p), sequence, queue, now);
    assert Checksum(p) in s.outbox ==> Resolves(s, Checksum(p));
    forall id | id in after.outbox ensures Resolves(after, id) {
      assert id in s.outbox ==> Resolves(s, id);
    }
  }

  /** The receipt names a record that holds the appended operations. */
  lemma ReceiptIsLogged(s: Store, log: Log, p: Payload, queue: Option<nat>, now: nat)
    requires s.metadata.Some? && UpdatesFaithful(s, log)
    ensures var r := AppendUpdate(s, p, queue, now);
            && r.Ok?
            && r.value.sequence in LogAppend(s, log, p).entries
            && LogAppend(s, log, p).entries[r.value.sequence] == p.ops
            && r.value.store.checkpoints == s.checkpoints
  {
    var existing := FindByChecksum(s.updates, Checksum(p));
    if existing.Some? {
      assert s.updates[existing.value].payload == p;
    }
  }

  lemma AppendKeepsFaithful(s: Store, log: Log, p: Payload, queue: Option<nat>, now: nat)
    requires Faithful(s, log) && s.checkpoints.Keys != {}
    ensures var r := AppendUpdate(s, p, queue, now);
            r.Ok? && Faithful(r.value.store, LogAppend(s, log, p))
  {
    var existing := FindByChecksum(s.updates, Checksum(p));
    if existing.None? {
      PutKeepsFaithful(s, log, p);
      EnqueueKeepsFaithful(PutUpdate(s, p), LogPut(s, log, p), p, s.metadata.value.nextSequence, queue, now);
    } else {
      EnqueueKeepsFaithful(s, log, p, existing.value, queue, now);
    }
  }

  // --------------------------------------------------------------- acknowledge

  /** Distinct messages reference distinct updates, so one Ack unpins one update. */
  lemma PinnedAfterRemoval(s: Store, id: Digest)
    requires References(s) && id in s.outbox
    ensures Pinned(s.outbox - {id}) == Pinned(s.outbox) - {s.outbox[id].sequence}
  {
    var after := s.outbox - {id};
    assert Resolves(s, id);
    forall q | q in Pinned(s.outbox) && q != s.outbox[id].sequence ensures q in Pinned(after) {
      var other :| other in s.outbox && s.outbox[other].sequence > 0 && s.outbox[other].sequence == q;
      assert other in after && after[other].sequence == q;
    }
    forall q | q in Pinned(after) ensures q in Pinned(s.outbox) && q != s.outbox[id].sequence {
      var other :| other in after && after[other].sequence > 0 && after[other].sequence == q;
      assert Resolves(s, other);
    }
  }

  lemma CountOneLess(s: Store, q: nat)
    requires s.metadata.Some? && Accounted(s) && q in s.updates
    ensures var m := s.metadata.value;
            && m.tailBytes >= |s.updates[q].payload.bytes| && m.tailCount >= 1
            && TotalBytes(UpdatePayloads(s.updates - {q})) == m.tailBytes - |s.updates[q].payload.bytes|
            && |s.updates - {q}| == m.tailCount - 1
  {
    CountOneMore(s.updates - {q}, q, s.updates[q]);
    assert (s.updates - {q})[q := s.updates[q]] == s.updates;
  }

  /** What a step that only removes updates and messages has to show. */
  lemma ShrinkKeepsFaithful(s: Store, after: Store, log: Log)
    requires Faithful(s, log) && after.metadata.Some?
    requires after.metadata.value.nextSequence == s.metadata.value.nextSequence
    requires after.metadata.value.compactedThrough == s.metadata.value.compactedThrough
    requires after.checkpoints == s.checkpoints
    requires forall q :: q in after.updates ==> q in s.updates && after.updates[q] == s.updates[q]
    requires ExactlyRetained(after, log) && References(after) && Accounted(after)
    ensures Faithful(after, log)
  {
  }

  /** An acknowledged update above the older generation stays for recovery. */
  lemma UnpinKeepsFaithful(s: Store, after: Store, log: Log, id: Digest)
    requires Faithful(s, log) && id in s.outbox && s.outbox[id].sequence > AcknowledgeThrough(s)
    requires after == s.(outbox := s.outbox - {id})
    ensures Faithful(after, log)
  {
    hide UpdatesFaithful, CheckpointsFaithful, ExactlyRetained, References, ChecksumsUnique, Accounted;
    UnpinReferences(s, after, id);
    UnpinRetains(s, after, log, id, s.updates);
    SameAccounts(s, after);
    ShrinkKeepsFaithful(s, after, log);
  }

  lemma UnpinReferences(s: Store, after: Store, id: Digest)
    requires References(s) && after == s.(outbox := s.outbox - {id})
    ensures References(after)
  {
    forall other | other in after.outbox ensures Resolves(after, other) {
      assert Resolves(s, other);
    }
  }

  lemma SameAccounts(s: Store, after: Store)
    requires Accounted(s) && after.updates == s.updates && after.checkpoints == s.checkpoints && after.metadata == s.metadata
    ensures Accounted(after)
  {
  }

  /** Without one message, exactly its update is no longer pinned. */
  lemma UnpinRetains(s: Store, after: Store, log: Log, id: Digest, updates: map<nat, UpdateRecord>)
    requires ExactlyRetained(s, log) && References(s) && id in s.outbox
    requires after.outbox == s.outbox - {id} && after.updates == updates && AcknowledgeThrough(after) == AcknowledgeThrough(s)
    requires updates == if s.outbox[id].sequence > AcknowledgeThrough(s) then s.updates else s.updates - {s.outbox[id].sequence}
    ensures ExactlyRetained(after, log)
  {
    hide Pinned, AcknowledgeThrough, References;
    PinnedAfterRemoval(s, id);
  }

  lemma DroppedReferences(s: Store, after: Store, id: Digest)
    requires References(s) && id in s.outbox
    requires after.outbox == s.outbox - {id} && after.updates == s.updates - {s.outbox[id].sequence}
    ensures References(after)
  {
    assert Resolves(s, id);
    forall other | other in after.outbox ensures Resolves(after, other) {
      assert Resolves(s, other);
    }
  }

  /** One at or below it was kept only for the message and goes with it. */
  lemma DropKeepsFaithful(s: Store, after: Store, log: Log, id: Digest)
    requires Faithful(s, log) && id in s.outbox && s.outbox[id].sequence <= AcknowledgeThrough(s)
    requires after.outbox == s.outbox - {id} && after.updates == s.updates - {s.outbox[id].sequence}
    requires after.checkpoints == s.checkpoints && after.metadata.Some?
    requires after.metadata.value.nextSequence == s.metadata.value.nextSequence
    requires after.metadata.value.compactedThrough == s.metadata.value.compactedThrough
    requires Accounted(after)
    ensures Faithful(after, log)
  {
    hide UpdatesFaithful, CheckpointsFaithful, ExactlyRetained, References, ChecksumsUnique, Accounted;
    DroppedReferences(s, after, id);
    UnpinRetains(s, after, log, id, after.updates);
    ShrinkKeepsFaithful(s, after, log);
  }

  lemma AcknowledgeOneKeepsFaithful(s: Store, log: Log, id: Digest)
    requires Faithful(s, log)
    ensures var after := AcknowledgeOne(s, AcknowledgeThrough(s), id);
            Faithful(after, log) && AcknowledgeThrough(after) == AcknowledgeThrough(s)
  {
    if id in s.outbox {
      hide Faithful;
      var after := AcknowledgeOne(s, AcknowledgeThrough(s), id);
      if s.outbox[id].sequence <= AcknowledgeThrough(s) {
        FaithfulParts(s, log);
        DropIsCounted(s, id);
        DropKeepsFaithful(s, after, log, id);
      } else {
        UnpinKeepsFaithful(s, after, log, id);
      }
    }
  }

  lemma FaithfulParts(s: Store, log: Log)
    requires Faithful(s, log)
    ensures s.metadata.Some? && Accounted(s) && References(s)
  {
  }

  lemma DropIsCounted(s: Store, id: Digest)
    requires s.metadata.Some? && Accounted(s) && References(s)
    requires id in s.outbox && s.outbox[id].sequence <= AcknowledgeThrough(s)
    ensures var after := AcknowledgeOne(s, AcknowledgeThrough(s), id);
            && after.metadata.Some? && Accounted(after)
            && after.outbox == s.outbox - {id} && after.updates == s.updates - {s.outbox[id].sequence}
            && after.checkpoints == s.checkpoints
            && after.metadata.value.nextSequence == s.metadata.value.nextSequence
            && after.metadata.value.compactedThrough == s.metadata.value.compactedThrough
  {
    hide TotalBytes, UpdatePayloads, CheckpointPayloads;
    assert Resolves(s, id);
    CountOneLess(s, s.outbox[id].sequence);
  }

  lemma {:induction false} AcknowledgeKeepsFaithful(s: Store, log: Log, ids: seq<Digest>)
    requires Faithful(s, log)
    ensures var after := Acknowledge(s, ids);
            Faithful(after, log) && AcknowledgeThrough(after) == AcknowledgeThrough(s)
    decreases |ids|
  {
    if ids != [] {
      AcknowledgeKeepsFaithful(s, log, ids[..|ids| - 1]);
      AcknowledgeOneKeepsFaithful(Acknowledge(s, ids[..|ids| - 1]), log, ids[|ids| - 1]);
    }
  }

  // --------------------------------------------------------- installCheckpoint

  lemma RotationBounds(keys: set<nat>, sequence: nat)
    requires forall c :: c in keys ==> c <= sequence
    ensures var kept := Newest(keys + {sequence});
            && sequence in kept && |kept| <= 2
            && (forall c :: c in kept ==> c in keys || c == sequence)
            && Least(sequence, keys) <= Least(sequence, kept)
  {
    hide Newest;
    var kept := Newest(keys + {sequence});
    assert sequence in keys + {sequence};
  }

  lemma SweepRetains(s: Store, after: Store, log: Log, through: nat)
    requires ExactlyRetained(s, log) && References(s) && AcknowledgeThrough(s) <= through
    requires after.outbox == s.outbox && after.updates == RetainUpdates(s.updates, through, Pinned(s.outbox))
    requires AcknowledgeThrough(after) == through
    ensures ExactlyRetained(after, log) && References(after)
  {
    forall id | id in after.outbox ensures Resolves(after, id) {
      assert Resolves(s, id);
      assert s.outbox[id].sequence in Pinned(s.outbox);
    }
  }

  /** The stores after a checkpoint at `sequence` was rotated in. */
  ghost predicate Rotated(s: Store, after: Store, p: Payload, sequence: nat, schema: nat) {
    && s.metadata.Some? && after.metadata.Some?
    && s.metadata.value.compactedThrough <= sequence < s.metadata.value.nextSequence
    && after.metadata.value.nextSequence == s.metadata.value.nextSequence
    && after.metadata.value.compactedThrough == sequence
    && after.checkpoints.Keys == Newest(s.checkpoints.Keys + {sequence})
    && forall c :: c in after.checkpoints ==>
        after.checkpoints[c] == if c == sequence then CheckpointRecord(schema, Checksum(p), p)
                                else if c in s.checkpoints then s.checkpoints[c] else after.checkpoints[c]
  }

  lemma RotationKeepsBounds(s: Store, after: Store, log: Log, p: Payload, sequence: nat, schema: nat)
    requires Bounded(s, log) && Rotated(s, after, p, sequence, schema)
    ensures Bounded(after, log)
    ensures AcknowledgeThrough(s) <= AcknowledgeThrough(after)
  {
    hide Newest;
    RotationBounds(s.checkpoints.Keys, sequence);
  }

  lemma RotationKeepsCheckpoints(s: Store, after: Store, log: Log, p: Payload, sequence: nat, schema: nat)
    requires CheckpointsFaithful(s, log) && Rotated(s, after, p, sequence, schema) && p.ops == Through(log, sequence)
    ensures CheckpointsFaithful(after, log)
  {
    hide Newest, Through;
    forall c | c in after.checkpoints ensures c == sequence || c in s.checkpoints {
      assert c in s.checkpoints.Keys + {sequence};
    }
  }

  lemma InstallRotates(s: Store, p: Payload, sequence: nat, schema: nat)
    requires InstallCheckpoint(s, p, sequence, schema).Ok?
    ensures var after := InstallCheckpoint(s, p, sequence, schema).value;
            && Rotated(s, after, p, sequence, schema)
            && after.outbox == s.outbox
            && after.updates == RetainUpdates(s.updates, AcknowledgeThrough(after), Pinned(s.outbox))
  {
    hide Newest, TotalBytes, Restrict, RetainUpdates, Pinned, UpdatePayloads, CheckpointPayloads, Least;
    RestrictPut(s.checkpoints, sequence, CheckpointRecord(schema, Checksum(p), p));
  }

  lemma RestrictPut(checkpoints: map<nat, CheckpointRecord>, sequence: nat, record: CheckpointRecord)
    ensures var put := checkpoints[sequence := record];
            var kept := Restrict(put, Newest(put.Keys));
            && put.Keys == checkpoints.Keys + {sequence}
            && kept.Keys == Newest(checkpoints.Keys + {sequence})
            && forall c :: c in kept ==> kept[c] == if c == sequence then record
                                                    else if c in checkpoints then checkpoints[c] else kept[c]
  {
    hide Newest;
    var put := checkpoints[sequence := record];
    assert put.Keys == checkpoints.Keys + {sequence};
    RestrictKeys(put, Newest(put.Keys));
  }

  lemma RestrictKeys(checkpoints: map<nat, CheckpointRecord>, kept: set<nat>)
    requires kept <= checkpoints.Keys
    ensures Restrict(checkpoints, kept).Keys == kept
    ensures forall c :: c in kept ==> Restrict(checkpoints, kept)[c] == checkpoints[c]
  {
  }

  lemma SubsetKeepsUpdates(s: Store, after: Store, log: Log)
    requires UpdatesFaithful(s, log) && ChecksumsUnique(s.updates)
    requires forall q :: q in after.updates ==> q in s.updates && after.updates[q] == s.updates[q]
    ensures UpdatesFaithful(after, log) && ChecksumsUnique(after.updates)
  {
  }

  lemma InstallSweeps(s: Store, log: Log, p: Payload, sequence: nat, schema: nat)
    requires Faithful(s, log) && InstallCheckpoint(s, p, sequence, schema).Ok?
    ensures var after := InstallCheckpoint(s, p, sequence, schema).value;
            ExactlyRetained(after, log) && References(after)
  {
    var after := InstallCheckpoint(s, p, sequence, schema).value;
    InstallRotates(s, p, sequence, schema);
    RotationKeepsBounds(s, after, log, p, sequence, schema);
    SweepRetains(s, after, log, AcknowledgeThrough(after));
  }

  /** A checkpoint of exactly the log through its sequence may come from any tab. */
  lemma InstallKeepsFaithful(s: Store, log: Log, p: Payload, sequence: nat, schema: nat)
    requires Faithful(s, log) && p.ops == Through(log, sequence)
    ensures InstallCheckpoint(s, p, sequence, schema).Ok? ==>
              Faithful(InstallCheckpoint(s, p, sequence, schema).value, log)
  {
    if InstallCheckpoint(s, p, sequence, schema).Ok? {
      var after := InstallCheckpoint(s, p, sequence, schema).value;
      InstallRotates(s, p, sequence, schema);
      RotationKeepsBounds(s, after, log, p, sequence, schema);
      RotationKeepsCheckpoints(s, after, log, p, sequence, schema);
      InstallSweeps(s, log, p, sequence, schema);
      SubsetKeepsUpdates(s, after, log);
    }
  }

  // ------------------------------------------------------------ replaceHistory

  function LogReplace(s: Store, p: Payload, tail: Payload): Log
    requires s.metadata.Some?
  {
    Log(p.ops, if |tail.bytes| > 0 then map[s.metadata.value.nextSequence := tail.ops] else map[])
  }

  lemma OneUpdate(q: nat, record: UpdateRecord)
    ensures TotalBytes(UpdatePayloads(map[q := record])) == |record.payload.bytes|
  {
    TotalBytesPut(map[], q, record.payload);
    assert UpdatePayloads(map[q := record]) == map[][q := record.payload];
  }

  lemma OneCheckpoint(q: nat, record: CheckpointRecord)
    ensures TotalBytes(CheckpointPayloads(map[q := record])) == |record.payload.bytes|
  {
    TotalBytesPut(map[], q, record.payload);
    assert CheckpointPayloads(map[q := record]) == map[][q := record.payload];
  }

  lemma ReplaceAccounts(s: Store, p: Payload, epoch: nat, base: nat, tail: Payload, schema: nat, now: nat)
    requires s.metadata.Some? && s.metadata.value.nextSequence > 0
    ensures Accounted(ReplaceHistory(s, p, epoch, base, tail, schema, now).value.store)
  {
    var next := s.metadata.value.nextSequence;
    OneCheckpoint(next - 1, CheckpointRecord(schema, Checksum(p), p));
    OneUpdate(next, UpdateRecord(Checksum(tail), tail));
  }

  lemma ReplaceReferences(s: Store, p: Payload, epoch: nat, base: nat, tail: Payload, schema: nat, now: nat)
    requires s.metadata.Some? && s.metadata.value.nextSequence > 0
    ensures var after := ReplaceHistory(s, p, epoch, base, tail, schema, now).value.store;
            && References(after) && ChecksumsUnique(after.updates)
            && ExactlyRetained(after, LogReplace(s, p, tail))
  {
    var after := ReplaceHistory(s, p, epoch, base, tail, schema, now).value.store;
    forall id | id in after.outbox ensures Resolves(after, id) {
    }
    assert AcknowledgeThrough(after) == s.metadata.value.nextSequence - 1;
  }

  lemma ReplaceContents(s: Store, p: Payload, epoch: nat, base: nat, tail: Payload, schema: nat, now: nat)
    requires s.metadata.Some? && s.metadata.value.nextSequence > 0
    ensures var after := ReplaceHistory(s, p, epoch, base, tail, schema, now).value.store;
            var log := LogReplace(s, p, tail);
            Bounded(after, log) && UpdatesFaithful(after, log) && CheckpointsFaithful(after, log)
  {
    var after := ReplaceHistory(s, p, epoch, base, tail, schema, now).value.store;
    var through := s.metadata.value.nextSequence - 1;
    assert after.checkpoints.Keys == {through};
    assert Through(LogReplace(s, p, tail), through) == p.ops;
  }

  lemma ReplaceStartsFaithful(s: Store, log: Log, p: Payload, epoch: nat, base: nat, tail: Payload, schema: nat, now: nat)
    requires Bounded(s, log)
    ensures var r := ReplaceHistory(s, p, epoch, base, tail, schema, now);
            r.Ok? && Faithful(r.value.store, LogReplace(s, p, tail))
  {
    ReplaceAccounts(s, p, epoch, base, tail, schema, now);
    ReplaceReferences(s, p, epoch, base, tail, schema, now);
    ReplaceContents(s, p, epoch, base, tail, schema, now);
  }
}
