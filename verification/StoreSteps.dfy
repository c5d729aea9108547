/**
 What single transactions and a worker's maintenance leave in the stores, field by field.
 */
module StoreSteps {
  import opened Records
  import opened Storage
  import opened History
  import opened DurableLog
  import Worker

  // -------------------------------------------------------------------- transactions

  /** Opening creates the metadata of an empty graph once. */
  lemma OpenCreatesOnce(s: Store, schema: nat)
    ensures OpenGraph(s, schema).metadata.Some?
    ensures s.metadata.None? ==>
      var m := OpenGraph(s, schema).metadata.value;
      && m.schema == schema && m.nextSequence == 1 && m.compactedThrough == 0 && m.epoch == 0
      && m.checkpointBytes == m.tailBytes == m.tailCount == 0
    ensures s.metadata.Some? ==> OpenGraph(s, schema).metadata == s.metadata
    ensures OpenGraph(s, schema).(metadata := s.metadata) == s
  {
  }

  /** A checkpoint is accepted exactly inside the durable frontier, and then is the newest
      generation as it was handed in; messages, quarantine and sequences are untouched. */
  lemma InstallPublishes(s: Store, log: Log, p: Payload, sequence: nat, schema: nat)
    requires s.metadata.Some? ==> Bounded(s, log)
    ensures var r := InstallCheckpoint(s, p, sequence, schema);
      && (r.Ok? <==> s.metadata.Some? && s.metadata.value.compactedThrough <= sequence < s.metadata.value.nextSequence)
      && (r == Err(GraphNotOpen) <==> s.metadata.None?)
      && (r.Ok? ==>
            && sequence in r.value.checkpoints
            && r.value.checkpoints[sequence] == CheckpointRecord(schema, Checksum(p), p)
            && (forall c :: c in r.value.checkpoints && c != sequence ==>
                  c < sequence && c in s.checkpoints && r.value.checkpoints[c] == s.checkpoints[c])
            && r.value.metadata.Some? && r.value.metadata.value.schema == schema
            && r.value.metadata.value.compactedThrough == sequence
            && r.value.metadata.value.nextSequence == s.metadata.value.nextSequence
            && r.value.metadata.value.epoch == s.metadata.value.epoch
            && r.value.outbox == s.outbox && r.value.quarantine == s.quarantine && r.value.serverBase == s.serverBase)
  {
    hide Newest, Recounted;
    InstallRecords(s, p, sequence, schema);
    if s.metadata.Some? && s.metadata.value.compactedThrough <= sequence {
      RotatedGenerations(s.checkpoints, sequence, CheckpointRecord(schema, Checksum(p), p));
    }
  }

  lemma RotatedGenerations(checkpoints: map<nat, CheckpointRecord>, sequence: nat, record: CheckpointRecord)
    requires forall c :: c in checkpoints ==> c <= sequence
    ensures var put := checkpoints[sequence := record];
            var kept := Restrict(put, Newest(put.Keys));
            && sequence in kept && kept[sequence] == record
            && forall c :: c in kept && c != sequence ==> c < sequence && c in checkpoints && kept[c] == checkpoints[c]
  {
    hide Newest;
    var put := checkpoints[sequence := record];
    assert put.Keys == checkpoints.Keys + {sequence};
    RotationBounds(checkpoints.Keys, sequence);
  }

  lemma InstallRecords(s: Store, p: Payload, sequence: nat, schema: nat)
    ensures var r := InstallCheckpoint(s, p, sequence, schema);
      && (r.Ok? <==> s.metadata.Some? && s.metadata.value.compactedThrough <= sequence < s.metadata.value.nextSequence)
      && (r == Err(GraphNotOpen) <==> s.metadata.None?)
      && (r.Ok? ==>
            var put := s.checkpoints[sequence := CheckpointRecord(schema, Checksum(p), p)];
            && r.value.checkpoints == Restrict(put, Newest(put.Keys))
            && r.value.metadata.Some? && r.value.metadata.value.schema == schema
            && r.value.metadata.value.compactedThrough == sequence
            && r.value.metadata.value.nextSequence == s.metadata.value.nextSequence
            && r.value.metadata.value.epoch == s.metadata.value.epoch
            && r.value.outbox == s.outbox && r.value.quarantine == s.quarantine && r.value.serverBase == s.serverBase)
  {
    hide Newest, TotalBytes, UpdatePayloads, CheckpointPayloads, RetainUpdates, Least, Pinned, Restrict;
  }

  /** A replacement publishes the server's checkpoint as the only generation, with its epoch
      and schema, and leaves what it rebased, if anything, as the only update and message. */
  lemma ReplaceAdoptsServer(s: Store, p: Payload, epoch: nat, base: nat, tail: Payload, schema: nat, now: nat)
    requires s.metadata.Some? && s.metadata.value.nextSequence > 0
    ensures var r := ReplaceHistory(s, p, epoch, base, tail, schema, now);
      && r.Ok? && r.value.sequence == s.metadata.value.nextSequence - 1
      && var t, next := r.value.store, s.metadata.value.nextSequence;
      && t.serverBase && t.metadata.Some? && t.metadata.value.epoch == epoch && t.metadata.value.schema == schema
      && t.metadata.value.compactedThrough == next - 1 && t.quarantine == s.quarantine
      && t.checkpoints.Keys == {next - 1} && t.checkpoints[next - 1] == CheckpointRecord(schema, Checksum(p), p)
      && (tail.bytes == [] ==> t.updates == map[] && t.outbox == map[] && t.metadata.value.nextSequence == next)
      && (tail.bytes != [] ==>
            && t.updates.Keys == {next} && t.updates[next] == UpdateRecord(Checksum(tail), tail)
            && t.outbox.Keys == {Checksum(tail)} && t.outbox[Checksum(tail)] == OutboxRecord(next, base, None, now)
            && t.metadata.value.nextSequence == next + 1)
  {
  }

  // --------------------------------------------------------------------- maintenance

  /** The updates above the published frontier. */
  function Tail(s: Store): (tail: map<nat, Payload>)
    requires s.metadata.Some?
  {
    map q | q in s.updates && q > s.metadata.value.compactedThrough :: s.updates[q].payload
  }

  function Part(s: Store, keys: seq<nat>): map<nat, Payload>
    requires forall i :: 0 <= i < |keys| ==> keys[i] in s.updates
  {
    map q | q in keys && q in s.updates :: s.updates[q].payload
  }

  lemma {:induction false} SumIsTotal(s: Store, keys: seq<nat>)
    requires forall i :: 0 <= i < |keys| ==> keys[i] in s.updates
    requires forall i, j :: 0 <= i < j < |keys| ==> keys[i] < keys[j]
    ensures Worker.SumOf(s, keys) == TotalBytes(Part(s, keys)) && |keys| == |Part(s, keys)|
  {
    hide TotalBytes, Part;
    if keys == [] {
      NoPart(s);
      TotalOfNothing();
    } else {
      var front, last := keys[..|keys| - 1], keys[|keys| - 1];
      SumIsTotal(s, front);
      PartOneMore(s, keys);
      TotalBytesPut(Part(s, front), last, s.updates[last].payload);
    }
  }

  lemma NoPart(s: Store)
    ensures Part(s, []) == map[]
  {
  }

  lemma PartOneMore(s: Store, keys: seq<nat>)
    requires keys != [] && forall i :: 0 <= i < |keys| ==> keys[i] in s.updates
    requires forall i, j :: 0 <= i < j < |keys| ==> keys[i] < keys[j]
    ensures var front, last := Part(s, keys[..|keys| - 1]), keys[|keys| - 1];
            && last !in front && Part(s, keys) == front[last := s.updates[last].payload]
            && |Part(s, keys)| == |front| + 1
  {
    var front, last := keys[..|keys| - 1], keys[|keys| - 1];
    LastOf(keys);
    assert Part(s, keys) == Part(s, front)[last := s.updates[last].payload];
    MapGrows(Part(s, front), last, s.updates[last].payload);
  }

  lemma LastOf(keys: seq<nat>)
    requires keys != [] && forall i, j :: 0 <= i < j < |keys| ==> keys[i] < keys[j]
    ensures var front, last := keys[..|keys| - 1], keys[|keys| - 1];
            last !in front && forall q :: q in keys <==> q in front || q == last
  {
  }

  lemma MapGrows(m: map<nat, Payload>, k: nat, p: Payload)
    requires k !in m
    ensures |m[k := p]| == |m| + 1
  {
    assert m[k := p].Keys == m.Keys + {k};
  }

  lemma TotalOfNothing()
    ensures TotalBytes(map[]) == 0
  {
  }

  lemma TailIsMeasured(s: Store)
    requires s.metadata.Some?
    ensures |Worker.Uncompacted(s)| == |Tail(s)| && Worker.SumOf(s, Worker.Uncompacted(s)) == TotalBytes(Tail(s))
  {
    hide TotalBytes, Ascending, Worker.SumOf;
    var keys := Worker.Uncompacted(s);
    SumIsTotal(s, keys);
    assert Part(s, keys) == Tail(s);
  }

  /** After maintenance of a clean tab of the current history that has applied every stored
      update, fewer than 128 updates and 512 KiB lie above the published frontier; when it
      was forced, none do. */
  lemma MaintenanceBoundsTheTail(sys: System, t: nat, force: bool, encode: set<Op> -> seq<Byte>, schema: nat)
    requires Inv(sys) && t in sys.tabs && sys.tabs[t].generation == sys.generation && sys.tabs[t].pending.None?
    requires forall q :: q in sys.store.updates ==> q <= sys.tabs[t].appliedThrough
    ensures var after := Worker.Maintained(sys, t, force, encode, schema).store;
      && after.metadata.Some?
      && |Tail(after)| < 128 && TotalBytes(Tail(after)) < 512 * 1024
      && (force ==> Tail(after) == map[])
  {
    hide TotalBytes, InstallCheckpoint, Apply, Tail, Worker.Uncompacted, Worker.SumOf, Bounded, HolderInv;
    hide UpdatesFaithful, CheckpointsFaithful, ExactlyRetained, References, ChecksumsUnique, Accounted;
    TailIsMeasured(sys.store);
    TotalOfNothing();
    assert TabInv(sys, sys.tabs[t]);
    if Worker.Compacts(sys.store, sys.tabs[t], force) {
      MaintainedStore(sys, t, force, encode, schema);
      CompactedTail(sys.store, sys.log, Payload(sys.tabs[t].core, encode(sys.tabs[t].core)), sys.tabs[t].appliedThrough, schema);
    } else if sys.tabs[t].appliedThrough <= sys.store.metadata.value.compactedThrough {
      NothingAbove(sys.store, sys.tabs[t].appliedThrough);
    }
  }

  lemma NothingAbove(s: Store, through: nat)
    requires s.metadata.Some? && through <= s.metadata.value.compactedThrough
    requires forall q :: q in s.updates ==> q <= through
    ensures Tail(s) == map[]
  {
  }

  lemma CompactedTail(s: Store, log: Log, p: Payload, through: nat, schema: nat)
    requires Bounded(s, log) && s.metadata.value.compactedThrough < through < s.metadata.value.nextSequence
    requires forall q :: q in s.updates ==> q <= through
    ensures var r := InstallCheckpoint(s, p, through, schema);
            r.Ok? && r.value.metadata.Some? && Tail(r.value) == map[]
  {
    hide InstallCheckpoint;
    InstallPublishes(s, log, p, through, schema);
    InstallDropsOnly(s, p, through, schema);
    NothingAbove(InstallCheckpoint(s, p, through, schema).value, through);
  }

  lemma MaintainedStore(sys: System, t: nat, force: bool, encode: set<Op> -> seq<Byte>, schema: nat)
    requires t in sys.tabs && Worker.Compacts(sys.store, sys.tabs[t], force)
    ensures var r := InstallCheckpoint(sys.store, Payload(sys.tabs[t].core, encode(sys.tabs[t].core)), sys.tabs[t].appliedThrough, schema);
            r.Ok? ==> Worker.Maintained(sys, t, force, encode, schema).store == r.value
  {
    hide InstallCheckpoint, Worker.Compacts;
  }

  lemma InstallDropsOnly(s: Store, p: Payload, sequence: nat, schema: nat)
    ensures var r := InstallCheckpoint(s, p, sequence, schema);
            r.Ok? ==> forall q :: q in r.value.updates ==> q in s.updates && r.value.updates[q] == s.updates[q]
  {
  }

  /** Below both thresholds, or behind the frontier, maintenance that is not forced does nothing. */
  lemma MaintenanceWaits(sys: System, t: nat, encode: set<Op> -> seq<Byte>, schema: nat)
    requires sys.store.metadata.Some? && t in sys.tabs
    requires || sys.tabs[t].pending.Some?
             || (|Tail(sys.store)| < 128 && TotalBytes(Tail(sys.store)) < 512 * 1024)
             || sys.tabs[t].appliedThrough <= sys.store.metadata.value.compactedThrough
    ensures Worker.Maintained(sys, t, false, encode, schema) == sys
  {
    hide TotalBytes, Tail, Worker.SumOf, Worker.Uncompacted;
    TailIsMeasured(sys.store);
  }
}
