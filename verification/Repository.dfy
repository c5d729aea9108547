/**
 `IndexedDbGraphRepository`: the stores of one graph, changed in place.  Every
 method is one transaction, written with the loops of the original, and its
 postcondition says it commits exactly the function of the same name in
 `Storage`.
 */
module Repository {
  import opened Records
  import opened Storage
  import N = Normalization

  /** Sums the sizes of the records a query returned. */
  method Measure(m: map<nat, Payload>) returns (bytes: nat)
    ensures bytes == TotalBytes(m)
  {
    var rest := m;
    bytes := 0;
    while rest.Keys != {}
      invariant rest.Keys <= m.Keys
      invariant bytes + TotalBytes(rest) == TotalBytes(m)
      decreases rest.Keys
    {
      var k := Greatest(rest.Keys);
      TotalBytesWithout(rest, k);
      bytes := bytes + |rest[k].bytes|;
      rest := rest - {k};
    }
  }

  /** Deletes records one key at a time. */
  method DeleteAll<R>(records: map<nat, R>, drop: set<nat>) returns (kept: map<nat, R>)
    ensures kept == records - drop
  {
    var todo := drop;
    kept := records;
    while todo != {}
      invariant todo <= drop
      invariant kept == records - (drop - todo)
      decreases todo
    {
      var q := Greatest(todo);
      kept := kept - {q};
      assert drop - (todo - {q}) == (drop - todo) + {q};
      todo := todo - {q};
    }
    assert drop - todo == drop;
  }

  /** Rotates the generations, deletes the updates in `drop`, and measures what is left. */
  method Recount(s: Store, m: Metadata, put: map<nat, CheckpointRecord>, drop: set<nat>) returns (after: Store)
    ensures after == Recounted(s, m, Restrict(put, Newest(put.Keys)), s.updates - drop)
  {
    hide Newest, TotalBytes;
    var kept := DeleteAll(put, put.Keys - Newest(put.Keys));
    assert kept == Restrict(put, Newest(put.Keys));
    var checkpointBytes := Measure(CheckpointPayloads(kept));
    var updates := DeleteAll(s.updates, drop);
    var tailBytes := Measure(UpdatePayloads(updates));
    after := s.(
      checkpoints := kept,
      updates := updates,
      metadata := Some(m.(checkpointBytes := checkpointBytes, tailBytes := tailBytes, tailCount := |updates|)));
  }

  /** The updates every retained generation covers and no message needs. */
  function Covered(updates: map<nat, UpdateRecord>, through: nat, pinned: set<nat>): (drop: set<nat>)
    ensures updates - drop == RetainUpdates(updates, through, pinned)
  {
    set q | q in updates && q <= through && q !in pinned
  }

  function Suffix(updates: map<nat, UpdateRecord>, through: nat): (drop: set<nat>)
    ensures updates - drop == UpdatesThrough(updates, through)
  {
    set q | q in updates && q > through
  }

  method PutQuarantine(quarantine: map<Handle, QuarantineRecord>, records: map<nat, QuarantineRecord>)
    returns (after: map<Handle, QuarantineRecord>)
    ensures after == quarantine + Quarantined(records)
  {
    after := quarantine;
    var todo := records.Keys;
    while todo != {}
      invariant todo <= records.Keys
      invariant after == quarantine + Quarantined(records - todo)
      decreases todo
    {
      var q := Greatest(todo);
      after := after[UpdateHandle(q) := records[q]];
      assert records - (todo - {q}) == (records - todo)[q := records[q]];
      todo := todo - {q};
    }
    assert records - todo == records;
  }

  predicate IsFirst(outbox: map<Digest, OutboxRecord>, rest: set<Digest>, k: Digest)
    requires rest <= outbox.Keys
  {
    k in rest && forall j :: j in rest ==> outbox[k].sequence <= outbox[j].sequence
  }

  lemma {:induction false} FirstEntry(outbox: map<Digest, OutboxRecord>, rest: set<Digest>)
    requires rest != {} && rest <= outbox.Keys
    ensures exists k :: IsFirst(outbox, rest, k)
    decreases rest
  {
    var a :| a in rest;
    if rest == {a} {
      assert IsFirst(outbox, rest, a);
    } else {
      assert rest - {a} != {};
      FirstEntry(outbox, rest - {a});
      var b :| IsFirst(outbox, rest - {a}, b);
      var first := if outbox[a].sequence <= outbox[b].sequence then a else b;
      forall j | j in rest ensures outbox[first].sequence <= outbox[j].sequence {
        assert j == a || j in rest - {a};
      }
      assert IsFirst(outbox, rest, first);
    }
  }

  ghost predicate Splits(outbox: map<Digest, OutboxRecord>, order: seq<Digest>, rest: set<Digest>) {
    rest <= outbox.Keys && forall k :: k in order <==> k in outbox && k !in rest
  }

  lemma NoneInOrder(outbox: map<Digest, OutboxRecord>)
    ensures Splits(outbox, [], outbox.Keys) && InOrder(outbox, [], outbox.Keys)
  {
  }

  lemma NextInOrder(outbox: map<Digest, OutboxRecord>, order: seq<Digest>, rest: set<Digest>, k: Digest)
    requires Splits(outbox, order, rest) && InOrder(outbox, order, rest) && IsFirst(outbox, rest, k)
    ensures k in rest && |rest - {k}| == |rest| - 1
    ensures Splits(outbox, order + [k], rest - {k}) && InOrder(outbox, order + [k], rest - {k})
  {
    assert forall x :: x in order + [k] <==> x in order || x == k;
    forall i | 0 <= i < |order| ensures order[i] != k && outbox[order[i]].sequence <= outbox[k].sequence {
      assert order[i] in order;
    }
  }

  lemma OrderIsOldest(outbox: map<Digest, OutboxRecord>, limit: Option<nat>, order: seq<Digest>, rest: set<Digest>)
    requires Splits(outbox, order, rest) && InOrder(outbox, order, rest) && |order| + |rest| == |outbox|
    requires rest == {} || (limit.Some? && limit.value > 0 && |order| == limit.value)
    requires limit.Some? && limit.value > 0 ==> |order| <= limit.value
    ensures Oldest(outbox, limit, order)
  {
    assert outbox.Keys - (set k | k in order) == rest;
    if rest != {} {
      assert |rest| > 0;
    }
  }

  /** The entries read so far ascend, and none that is left comes before them. */
  ghost predicate InOrder(outbox: map<Digest, OutboxRecord>, order: seq<Digest>, rest: set<Digest>)
    requires rest <= outbox.Keys && forall k :: k in order ==> k in outbox
  {
    && (forall i, j :: 0 <= i < j < |order| ==> order[i] != order[j] && outbox[order[i]].sequence <= outbox[order[j]].sequence)
    && (forall i, k :: 0 <= i < |order| && k in rest ==> outbox[order[i]].sequence <= outbox[k].sequence)
  }

  /** The oldest entries, in local order, as many as the limit allows. */
  ghost predicate Oldest(outbox: map<Digest, OutboxRecord>, limit: Option<nat>, order: seq<Digest>) {
    && (forall k :: k in order ==> k in outbox)
    && InOrder(outbox, order, outbox.Keys - (set k | k in order))
    && |order| == if limit.Some? && 0 < limit.value < |outbox| then limit.value else |outbox|
  }

  function Taken(outbox: map<Digest, OutboxRecord>, order: seq<Digest>): map<Digest, OutboxRecord> {
    map k | k in order && k in outbox :: outbox[k]
  }

  lemma InspectedAll(outbox: N.Rows, updates: N.Updates, order: seq<Digest>, list: seq<N.Inspected>)
    requires |list| == |order| && forall k :: k in order ==> k in outbox
    requires forall j :: 0 <= j < |order| ==>
      N.Resolved(updates, outbox[order[j]]).Some? && list[j] == N.InspectRow(updates, order[j], outbox[order[j]])
    requires forall j :: 0 <= j < |list| ==> !N.ChecksumFails(updates, list[j].record)
    ensures N.InspectionOf(Taken(outbox, order), updates, list)
  {
    var rows := Taken(outbox, order);
    forall k | k in rows ensures N.Readable(updates, rows[k]) && N.InspectRow(updates, k, rows[k]) in list {
      var j :| 0 <= j < |order| && order[j] == k;
      assert list[j] in list;
    }
    forall c | c in list ensures c.key in rows && N.Resolved(updates, c.record) == Some(c.payload) && rows[c.key] == c.record {
      var j :| 0 <= j < |list| && list[j] == c;
      assert order[j] in order;
    }
  }

  class GraphRepository {
    var metadata: Option<Metadata>
    var updates: map<nat, UpdateRecord>
    var checkpoints: map<nat, CheckpointRecord>
    var outbox: map<Digest, OutboxRecord>
    var quarantine: map<Handle, QuarantineRecord>
    var serverBase: bool

    constructor ()
      ensures View() == EMPTY && Valid()
    {
      metadata := None;
      updates, checkpoints, outbox, quarantine := map[], map[], map[], map[];
      serverBase := false;
    }

    function View(): Store
      reads this
    {
      Store(metadata, updates, checkpoints, outbox, quarantine, serverBase)
    }

    /** What the stores' key paths and unique indexes enforce. */
    ghost predicate Valid()
      reads this
    {
      ChecksumsUnique(updates) && (metadata.Some? ==> metadata.value.nextSequence > 0)
    }

    method OpenGraph(schema: nat)
      requires Valid()
      modifies this
      ensures Valid() && View() == Storage.OpenGraph(old(View()), schema)
    {
      if metadata.None? {
        metadata := Some(InitialMetadata(0, schema, 0));
      }
    }

    /** The `by_checksum` index. */
    method ByChecksum(digest: Digest) returns (found: Option<nat>)
      requires Valid()
      ensures found == FindByChecksum(updates, digest)
    {
      hide Ascending;
      var keys := Ascending(updates.Keys);
      for i := 0 to |keys|
        invariant forall j :: 0 <= j < i ==> updates[keys[j]].checksum != digest
      {
        if updates[keys[i]].checksum == digest {
          return Some(keys[i]);
        }
      }
      return None;
    }

    method AppendUpdate(p: Payload, queue: Option<nat>, now: nat) returns (r: Result<nat, StorageError>)
      requires Valid()
      modifies this
      ensures Valid()
      ensures match Storage.AppendUpdate(old(View()), p, queue, now)
              case Ok(appended) => r == Ok(appended.sequence) && View() == appended.store
              case Err(e) => r == Err(e) && View() == old(View())
    {
      var digest := Checksum(p);
      var existing := ByChecksum(digest);
      if existing.Some? {
        if queue.Some? {
          outbox := outbox[digest := OutboxRecord(existing.value, queue.value, None, now)];
        }
        return Ok(existing.value);
      }
      if metadata.None? {
        return Err(GraphNotOpen);
      }
      var m := metadata.value;
      var sequence := m.nextSequence;
      updates := updates[sequence := UpdateRecord(digest, p)];
      if queue.Some? {
        outbox := outbox[digest := OutboxRecord(sequence, queue.value, None, now)];
      }
      metadata := Some(m.(
        nextSequence := sequence + 1,
        tailBytes := m.tailBytes + |p.bytes|,
        tailCount := m.tailCount + 1));
      return Ok(sequence);
    }

    method Acknowledge(ids: seq<Digest>)
      requires Valid()
      modifies this
      ensures Valid() && View() == Storage.Acknowledge(old(View()), ids)
    {
      var through := Least(if metadata.Some? then metadata.value.compactedThrough else 0, checkpoints.Keys);
      for i := 0 to |ids|
        invariant Valid()
        invariant View() == AcknowledgeEach(old(View()), through, ids[..i])
      {
        assert ids[..i + 1][..i] == ids[..i];
        var id := ids[i];
        if id in outbox {
          var entry := outbox[id];
          outbox := outbox - {id};
          if metadata.Some? && entry.sequence > 0 && entry.sequence <= through && entry.sequence in updates {
            var freed := |updates[entry.sequence].payload.bytes|;
            updates := updates - {entry.sequence};
            metadata := Some(metadata.value.(
              tailBytes := Clamped(metadata.value.tailBytes, freed),
              tailCount := Clamped(metadata.value.tailCount, 1)));
          }
        }
      }
      assert ids[..|ids|] == ids;
    }

    /** Writes the records a maintenance transaction changed. */
    method Rewrite(committed: Store)
      requires Valid() && committed.metadata.Some? && metadata.Some?
      requires committed.metadata.value.nextSequence == metadata.value.nextSequence
      requires committed.outbox == outbox && committed.serverBase == serverBase
      requires forall q :: q in committed.updates ==> q in updates && committed.updates[q] == updates[q]
      modifies this
      ensures Valid() && View() == committed
    {
      metadata, updates, checkpoints := committed.metadata, committed.updates, committed.checkpoints;
      quarantine := committed.quarantine;
    }

    method InstallCheckpoint(p: Payload, sequence: nat, schema: nat) returns (r: Result<Digest, StorageError>)
      requires Valid()
      modifies this
      ensures Valid()
      ensures match Storage.InstallCheckpoint(old(View()), p, sequence, schema)
              case Ok(committed) => r == Ok(Checksum(p)) && View() == committed
              case Err(e) => r == Err(e) && View() == old(View())
    {
      hide Newest, TotalBytes;
      if metadata.None? {
        return Err(GraphNotOpen);
      }
      var m := metadata.value;
      if sequence < m.compactedThrough || sequence >= m.nextSequence {
        return Err(CheckpointOutsideFrontier);
      }
      var put := checkpoints[sequence := CheckpointRecord(schema, Checksum(p), p)];
      var through := Least(sequence, Newest(put.Keys));
      var pinned := Pinned(outbox);
      var drop := Covered(updates, through, pinned);
      var counted := m.(
        schema := schema,
        compactedThrough := if m.compactedThrough < sequence then sequence else m.compactedThrough);
      var committed := Recount(View(), counted, put, drop);
      Rewrite(committed);
      return Ok(Checksum(p));
    }

    method RepairCorruptTail(p: Payload, validThrough: nat, schema: nat, records: map<nat, QuarantineRecord>)
      returns (r: Result<Digest, StorageError>)
      requires Valid()
      modifies this
      ensures Valid()
      ensures match Storage.RepairCorruptTail(old(View()), p, validThrough, schema, records)
              case Ok(committed) => r == Ok(Checksum(p)) && View() == committed
              case Err(e) => r == Err(e) && View() == old(View())
    {
      if metadata.None? {
        return Err(GraphNotOpen);
      }
      var m := metadata.value;
      var quarantined := PutQuarantine(quarantine, records);
      var put := checkpoints[validThrough := CheckpointRecord(schema, Checksum(p), p)];
      var drop := Suffix(updates, validThrough);
      var counted := m.(schema := schema, compactedThrough := validThrough);
      var committed := Recount(View().(quarantine := quarantined), counted, put, drop);
      Rewrite(committed);
      return Ok(Checksum(p));
    }

    method ReplaceHistory(p: Payload, epoch: nat, base: nat, tail: Payload, schema: nat, now: nat)
      returns (r: Result<nat, StorageError>)
      requires Valid()
      modifies this
      ensures Valid()
      ensures match Storage.ReplaceHistory(old(View()), p, epoch, base, tail, schema, now)
              case Ok(replaced) => r == Ok(replaced.sequence) && View() == replaced.store
              case Err(e) => r == Err(e) && View() == old(View())
    {
      if metadata.None? {
        return Err(GraphNotOpen);
      }
      var m := metadata.value;
      var through := m.nextSequence - 1;
      checkpoints, updates, outbox := map[], map[], map[];
      checkpoints := checkpoints[through := CheckpointRecord(schema, Checksum(p), p)];
      var next := m.nextSequence;
      if |tail.bytes| > 0 {
        updates := updates[next := UpdateRecord(Checksum(tail), tail)];
        outbox := outbox[Checksum(tail) := OutboxRecord(next, base, None, now)];
        next := next + 1;
      }
      metadata := Some(Metadata(epoch, schema, next, through, |p.bytes|, |tail.bytes|, if |tail.bytes| > 0 then 1 else 0));
      serverBase := true;
      return Ok(through);
    }

    /** The index read: entries by local sequence, at most `limit` of them; zero is no limit. */
    method OldestEntries(limit: Option<nat>) returns (order: seq<Digest>)
      ensures Oldest(outbox, limit, order)
    {
      hide InOrder, IsFirst, Oldest;
      order := [];
      var rest := outbox.Keys;
      NoneInOrder(outbox);
      while rest != {} && !(limit.Some? && limit.value > 0 && |order| == limit.value)
        invariant |order| + |rest| == |outbox|
        invariant limit.Some? && limit.value > 0 ==> |order| <= limit.value
        invariant Splits(outbox, order, rest)
        invariant InOrder(outbox, order, rest)
        decreases rest
      {
        FirstEntry(outbox, rest);
        var k :| IsFirst(outbox, rest, k);
        NextInOrder(outbox, order, rest, k);
        rest := rest - {k};
        order := order + [k];
      }
      OrderIsOldest(outbox, limit, order, rest);
    }

    /** `inspectOutbox`: every entry it reads, with the payload it stands for, or an error when
        one of them cannot be read. */
    method InspectOutbox(limit: Option<nat>) returns (r: Result<seq<N.Inspected>, StorageError>, ghost order: seq<Digest>)
      ensures Oldest(outbox, limit, order)
      ensures r.Ok? ==> N.InspectionOf(Taken(outbox, order), updates, r.value)
      ensures r.Ok? ==> |r.value| == |order| && forall i :: 0 <= i < |order| ==> r.value[i].key == order[i]
      ensures r.Err? ==> exists k :: k in order && !N.Readable(updates, outbox[k])
      ensures r == Err(OutboxUpdateMissing) <==> exists k :: k in order && N.Resolved(updates, outbox[k]).None?
    {
      var keys := OldestEntries(limit);
      order := keys;
      var list: seq<N.Inspected> := [];
      for i := 0 to |keys|
        invariant |list| == i
        invariant forall j :: 0 <= j < i ==>
          N.Resolved(updates, outbox[keys[j]]).Some? && list[j] == N.InspectRow(updates, keys[j], outbox[keys[j]])
      {
        assert keys[i] in keys;
        if N.Resolved(updates, outbox[keys[i]]).None? {
          return Err(OutboxUpdateMissing), order;
        }
        list := list + [N.InspectRow(updates, keys[i], outbox[keys[i]])];
      }
      for i := 0 to |list|
        invariant forall j :: 0 <= j < i ==> !N.ChecksumFails(updates, list[j].record)
      {
        if N.ChecksumFails(updates, list[i].record) {
          assert keys[i] in keys;
          return Err(OutboxChecksumMismatch), order;
        }
      }
      InspectedAll(outbox, updates, keys, list);
      return Ok(list), order;
    }

    /** The write transaction of `normalizeOutbox`, on whatever the stores hold by then. */
    method RewriteOutbox(inspected: seq<N.Inspected>)
      modifies this`outbox
      ensures outbox == N.Rewritten(old(outbox), updates, inspected)
    {
      hide N.Stays;
      var live: seq<N.Inspected> := [];
      for i := 0 to |inspected|
        invariant live == N.LiveOf(outbox, updates, inspected[..i])
        invariant outbox == old(outbox)
      {
        assert inspected[..i + 1][..i] == inspected[..i];
        if N.Stays(outbox, updates, inspected[i]) {
          live := live + [inspected[i]];
        }
      }
      assert inspected[..|inspected|] == inspected;
      for i := 0 to |live|
        invariant outbox == N.Deleted(old(outbox), live[..i])
      {
        assert live[..i + 1][..i] == live[..i];
        if live[i].key != N.ContentId(live[i]) {
          outbox := outbox - {live[i].key};
        }
      }
      assert live[..|live|] == live;
      ghost var left := outbox;
      for i := 0 to |live|
        invariant outbox == N.Puts(left, live[..i])
      {
        assert live[..i + 1][..i] == live[..i];
        if N.ContentId(live[i]) !in outbox {
          outbox := outbox[N.ContentId(live[i]) := live[i].record];
        }
      }
    }
  }
}
