/**
 A repair against the history.  The stores were faithful to a log before some records
 were damaged; a recovery then publishes the kept prefix.  When can the protocol go on
 from what it leaves, with the log cut at the new frontier?
 */
module RepairHistory {
  import opened Records
  import opened Storage
  import opened History
  import opened Recovery
  import opened RecoveryPaths

  /** `s` is `was` with some records altered so that their checksums no longer match. */
  ghost predicate Damaged(was: Store, s: Store) {
    && s.metadata == was.metadata && s.outbox == was.outbox
    && s.updates.Keys == was.updates.Keys && s.checkpoints.Keys == was.checkpoints.Keys
    && (forall q :: q in s.updates && s.updates[q] != was.updates[q] ==> !Sound(s.updates[q]))
    && (forall c :: c in s.checkpoints && s.checkpoints[c] != was.checkpoints[c] ==>
          s.checkpoints[c].checksum != Checksum(s.checkpoints[c].payload))
  }

  function Cut(log: Log, through: nat): Log {
    log.(entries := map q | q in log.entries && q <= through :: log.entries[q])
  }

  lemma CutThrough(log: Log, through: nat, c: nat)
    requires c <= through
    ensures Through(Cut(log, through), c) == Through(log, c)
    ensures Committed(Cut(log, through)) == Through(log, through)
  {
    var cut := Cut(log, through);
    forall op ensures op in Through(cut, c) <==> op in Through(log, c) {
      if q :| q in log.entries && q <= c && op in log.entries[q] {
        assert q in cut.entries && op in cut.entries[q];
      }
    }
    forall op ensures op in Committed(cut) <==> op in Through(log, through) {
      if q :| q in log.entries && q <= through && op in log.entries[q] {
        assert q in cut.entries && op in cut.entries[q];
      }
    }
  }

  // ------------------------------------------------------------- the kept document

  /** Replaying undamaged records on the log through the base gives the log through each of them. */
  lemma {:induction false} ReplayFollowsLog(log: Log, c: nat, tail: seq<Stored>, n: nat, stored: set<nat>)
    requires n <= |tail|
    requires forall i, j :: 0 <= i < j < |tail| ==> tail[i].sequence < tail[j].sequence
    requires forall i :: 0 <= i < |tail| ==> tail[i].sequence in stored && c < tail[i].sequence
    requires forall i :: 0 <= i < n ==> tail[i].sequence in log.entries && tail[i].record.payload.ops == log.entries[tail[i].sequence]
    requires forall q :: q in stored && q > c ==> exists i :: 0 <= i < |tail| && tail[i].sequence == q
    requires forall q :: q in log.entries && q > c ==> q in stored
    ensures After(Through(log, c), tail, n) == Through(log, FrontierOf(c, tail, n))
  {
    hide Through;
    if n > 0 {
      ReplayFollowsLog(log, c, tail, n - 1, stored);
      var before, now := FrontierOf(c, tail, n - 1), tail[n - 1].sequence;
      forall q | q in log.entries && before < q <= now ensures q == now {
        NothingBetween(c, tail, n, stored, q);
      }
      OneMoreEntry(log, before, now);
    }
  }

  lemma NothingBetween(c: nat, tail: seq<Stored>, n: nat, stored: set<nat>, q: nat)
    requires 0 < n <= |tail| && q in stored && FrontierOf(c, tail, n - 1) < q <= tail[n - 1].sequence && c < q
    requires forall i, j :: 0 <= i < j < |tail| ==> tail[i].sequence < tail[j].sequence
    requires forall q :: q in stored && q > c ==> exists i :: 0 <= i < |tail| && tail[i].sequence == q
    ensures q == tail[n - 1].sequence
  {
    var i :| 0 <= i < |tail| && tail[i].sequence == q;
    assert i == n - 1;
  }

  lemma OneMoreEntry(log: Log, before: nat, now: nat)
    requires before < now && now in log.entries && forall q :: q in log.entries && before < q <= now ==> q == now
    ensures Through(log, before) + log.entries[now] == Through(log, now)
  {
  }

  lemma LeastOfCheckpoints(s: Store, c: nat)
    requires c in s.checkpoints
    ensures AcknowledgeThrough(s) <= c
  {
  }

  /** What a recovery keeps of damaged stores is the log through its frontier. */
  lemma KeptIsTheLog(rules: Rules, was: Store, s: Store, log: Log, schema: nat, r: Recovered)
    requires Faithful(was, log) && Damaged(was, s) && RecordByRecord(rules, s, schema, r)
    ensures r.doc == Through(log, r.frontier) && r.frontier < s.metadata.value.nextSequence
  {
    hide Through, After, TailOf, References, Accounted, ChecksumsUnique, Repaired, Imports, AcknowledgeThrough;
    var tail := TailOf(s, r.base);
    assert s.checkpoints[r.base] == was.checkpoints[r.base];
    LeastOfCheckpoints(was, r.base);
    forall i | 0 <= i < r.kept
      ensures tail[i].sequence in log.entries && tail[i].record.payload.ops == log.entries[tail[i].sequence]
    {
      assert Good(rules, s.checkpoints[r.base].payload.ops, tail, i);
      assert tail[i].sequence in was.updates;
    }
    ReplayFollowsLog(log, r.base, tail, r.kept, s.updates.Keys);
  }

  // --------------------------------------------------------- going on from a repair

  /** Every generation that is kept lies below the frontier and is undamaged, so is every
      update below the base, no message references an update above the frontier, and the
      rotation has not moved past an update that only the dropped generation needed. */
  ghost predicate CleanBelow(was: Store, s: Store, base: nat, v: nat)
    requires Damaged(was, s)
  {
    var kept := Newest(s.checkpoints.Keys + {v});
    && (forall c :: c in kept && c != v ==> c < v && s.checkpoints[c] == was.checkpoints[c])
    && (forall q :: q in s.updates && q <= base ==> s.updates[q] == was.updates[q])
    && (forall id :: id in s.outbox ==> s.outbox[id].sequence <= v)
    && (forall q :: q in s.updates && q <= Least(v, kept) ==> q in Pinned(s.outbox))
  }

  /** Which generations a repair leaves and what it says of them. */
  lemma RepairRotates(rules: Rules, s: Store, schema: nat, r: Recovered)
    requires s.metadata.Some? && RecordByRecord(rules, s, schema, r) && r.kept < |TailOf(s, r.base)|
    ensures r.store.metadata.Some? && r.store.metadata.value.compactedThrough == r.frontier
    ensures r.store.checkpoints.Keys == Newest(s.checkpoints.Keys + {r.frontier})
    ensures AcknowledgeThrough(r.store) == Least(r.frontier, Newest(s.checkpoints.Keys + {r.frontier}))
    ensures |r.store.checkpoints| <= 2 && Accounted(r.store)
  {
    hide LongestGoodPrefix, Rejected, RecordsOf, CorruptSuffix, TailOf, After, Storage.RepairCorruptTail, Usable, Above, Newest;
    var tail := TailOf(s, r.base);
    var base := s.checkpoints[r.base].payload.ops;
    var aside := s.(quarantine := s.quarantine + Rejected(rules, s.checkpoints, Above(s.checkpoints.Keys, r.base)));
    var records := RecordsOf(CorruptSuffix(rules, base, tail, r.kept));
    RepairIsAccounted(aside, Export(rules, r.doc), r.frontier, schema, records);
    RotatesTo(aside, Export(rules, r.doc), r.frontier, schema, records);
  }

  lemma RotatesTo(s: Store, p: Payload, v: nat, schema: nat, records: map<nat, QuarantineRecord>)
    requires s.metadata.Some?
    ensures var repair := RepairCorruptTail(s, p, v, schema, records);
      && repair.Ok? && repair.value.metadata.Some? && repair.value.metadata.value.compactedThrough == v
      && repair.value.checkpoints.Keys == Newest(s.checkpoints.Keys + {v})
      && |repair.value.checkpoints| <= 2
  {
    hide Newest, TotalBytes, Quarantined, UpdatePayloads, CheckpointPayloads, UpdatesThrough;
    var put := s.checkpoints[v := CheckpointRecord(schema, Checksum(p), p)];
    assert put.Keys == s.checkpoints.Keys + {v};
    assert Restrict(put, Newest(put.Keys)).Keys == Newest(put.Keys);
  }

  /** The stores after a repair, as far as the history is concerned. */
  ghost predicate RepairedAt(s: Store, v: nat, p: Payload, schema: nat, t: Store) {
    && Published(s, v, p, schema, t)
    && t.metadata.value.compactedThrough == v
    && t.checkpoints.Keys == Newest(s.checkpoints.Keys + {v})
    && AcknowledgeThrough(t) == Least(v, Newest(s.checkpoints.Keys + {v}))
    && |t.checkpoints| <= 2 && Accounted(t)
  }

  /** The tail a repair keeps is undamaged. */
  lemma KeptIsUndamaged(rules: Rules, was: Store, s: Store, schema: nat, r: Recovered, q: nat)
    requires Damaged(was, s) && RecordByRecord(rules, s, schema, r) && q in s.updates && r.base < q <= r.frontier
    ensures s.updates[q] == was.updates[q]
  {
    hide After, TailOf, Repaired, Imports, Usable;
    var tail := TailOf(s, r.base);
    var i :| 0 <= i < |tail| && tail[i].sequence == q;
    assert i < r.kept;
    assert Good(rules, s.checkpoints[r.base].payload.ops, tail, i);
  }

  lemma FaithfulIsClean(was: Store, s: Store, base: nat, v: nat, p: Payload, schema: nat, t: Store, log: Log)
    requires Damaged(was, s) && RepairedAt(s, v, p, schema, t) && base <= v && Faithful(t, Cut(log, v))
    ensures CleanBelow(was, s, base, v)
  {
    hide Through, Newest, Accounted, ChecksumsUnique, AcknowledgeThrough, Least, Cut, Pinned, References, ExactlyRetained, Damaged;
    hide Published, Bounded, UpdatesFaithful, CheckpointsFaithful;
    FaithfulIsSound(was, s, base, v, p, schema, t, log);
    FaithfulIsPinned(s, v, p, schema, t, log);
  }

  lemma FaithfulIsSound(was: Store, s: Store, base: nat, v: nat, p: Payload, schema: nat, t: Store, log: Log)
    requires Damaged(was, s) && RepairedAt(s, v, p, schema, t) && base <= v
    requires Bounded(t, Cut(log, v)) && UpdatesFaithful(t, Cut(log, v)) && CheckpointsFaithful(t, Cut(log, v))
    ensures forall c :: c in t.checkpoints && c != v ==> c < v && c in s.checkpoints && s.checkpoints[c] == was.checkpoints[c]
    ensures forall q :: q in s.updates && q <= base ==> s.updates[q] == was.updates[q]
  {
    hide Through, Newest, Accounted, AcknowledgeThrough, Least, Cut;
    forall c | c in t.checkpoints && c != v ensures c < v && c in s.checkpoints && s.checkpoints[c] == was.checkpoints[c] {
      assert c <= t.metadata.value.compactedThrough;
    }
    forall q | q in s.updates && q <= base ensures s.updates[q] == was.updates[q] {
      assert q in t.updates;
    }
  }

  lemma FaithfulIsPinned(s: Store, v: nat, p: Payload, schema: nat, t: Store, log: Log)
    requires ExactlyRetained(t, Cut(log, v)) && References(t) && RepairedAt(s, v, p, schema, t)
    ensures forall id :: id in s.outbox ==> s.outbox[id].sequence <= v
    ensures forall q :: q in s.updates && q <= AcknowledgeThrough(t) ==> q in Pinned(s.outbox)
  {
    hide AcknowledgeThrough, Cut, Pinned, Newest, Accounted, Least;
    forall id | id in s.outbox ensures s.outbox[id].sequence <= v {
      assert Resolves(t, id);
    }
    forall q | q in s.updates && q <= AcknowledgeThrough(t) ensures q in Pinned(s.outbox) {
      assert q in t.updates;
    }
  }

  lemma CleanIsRetained(was: Store, s: Store, base: nat, v: nat, p: Payload, schema: nat, t: Store, log: Log)
    requires Faithful(was, log) && Damaged(was, s) && RepairedAt(s, v, p, schema, t) && base in s.checkpoints && base <= v
    requires CleanBelow(was, s, base, v)
    ensures ExactlyRetained(t, Cut(log, v))
  {
    hide Newest, Accounted, ChecksumsUnique, Through, CheckpointsFaithful, UpdatesFaithful, References, ExactlyRetained, Pinned, Cut;
    hide AcknowledgeThrough, Least;
    LeastOfCheckpoints(was, base);
    LeastIsLater(was, v, t);
    RetainedByBoth(was, v, t, log);
  }

  lemma LeastIsLater(was: Store, v: nat, t: Store)
    requires AcknowledgeThrough(was) <= v && t.metadata.Some? && t.metadata.value.compactedThrough == v
    requires forall c :: c in t.checkpoints && c != v ==> c in was.checkpoints
    ensures AcknowledgeThrough(was) <= AcknowledgeThrough(t)
  {
  }

  lemma RetainedByBoth(was: Store, v: nat, t: Store, log: Log)
    requires ExactlyRetained(was, log) && t.outbox == was.outbox && AcknowledgeThrough(was) <= AcknowledgeThrough(t)
    requires forall q :: q in t.updates <==> q in was.updates && q <= v
    requires forall q :: q in was.updates && q <= AcknowledgeThrough(t) ==> q in Pinned(was.outbox)
    requires forall id :: id in was.outbox ==> was.outbox[id].sequence <= v
    ensures ExactlyRetained(t, Cut(log, v))
  {
    hide AcknowledgeThrough, Pinned;
  }

  lemma CleanUpdates(was: Store, t: Store, log: Log, v: nat)
    requires UpdatesFaithful(was, log) && ChecksumsUnique(was.updates)
    requires forall q :: q in t.updates ==> q in was.updates && q <= v && t.updates[q] == was.updates[q]
    ensures UpdatesFaithful(t, Cut(log, v)) && ChecksumsUnique(t.updates)
  {
  }

  lemma CleanReferences(was: Store, t: Store, v: nat)
    requires References(was) && t.outbox == was.outbox
    requires forall q :: q in t.updates <==> q in was.updates && q <= v
    requires forall q :: q in t.updates ==> t.updates[q] == was.updates[q]
    requires forall id :: id in was.outbox ==> was.outbox[id].sequence <= v
    ensures References(t)
  {
    forall id | id in t.outbox ensures Resolves(t, id) {
      assert Resolves(was, id);
    }
  }

  lemma CleanGenerations(was: Store, log: Log, v: nat, t: Store)
    requires CheckpointsFaithful(was, log) && v in t.checkpoints
    requires t.checkpoints[v].payload.ops == Through(log, v) && t.checkpoints[v].checksum == Checksum(t.checkpoints[v].payload)
    requires forall c :: c in t.checkpoints && c != v ==> c < v && c in was.checkpoints && t.checkpoints[c] == was.checkpoints[c]
    ensures CheckpointsFaithful(t, Cut(log, v))
  {
    hide Through, Cut;
    forall c | c in t.checkpoints ensures Through(Cut(log, v), c) == Through(log, c) {
      CutThrough(log, v, c);
    }
  }

  lemma CleanBounds(was: Store, log: Log, v: nat, t: Store)
    requires Bounded(was, log) && t.metadata.Some? && v in t.checkpoints && |t.checkpoints| <= 2
    requires t.metadata.value.compactedThrough == v < t.metadata.value.nextSequence == was.metadata.value.nextSequence
    requires forall c :: c in t.checkpoints ==> c <= v
    ensures Bounded(t, Cut(log, v))
  {
  }

  /** The kept document is always the log through the frontier.  The protocol can go on from
      the repaired stores, with the log cut there, exactly when `CleanBelow` holds. */
  lemma RepairIsFaithfulIff(rules: Rules, was: Store, s: Store, log: Log, schema: nat, r: Recovered)
    requires Faithful(was, log) && Damaged(was, s)
    requires RecordByRecord(rules, s, schema, r) && r.kept < |TailOf(s, r.base)|
    ensures r.doc == Committed(Cut(log, r.frontier))
    ensures Faithful(r.store, Cut(log, r.frontier)) <==> CleanBelow(was, s, r.base, r.frontier)
  {
    hide Faithful, RecordByRecord, CleanBelow, Published, Through, Committed, Accounted, Cut;
    var v, p := r.frontier, Export(rules, r.doc);
    KeptIsTheLog(rules, was, s, log, schema, r);
    CutThrough(log, v, v);
    RepairReaches(rules, was, s, log, schema, r);
    if Faithful(r.store, Cut(log, v)) {
      FaithfulIsClean(was, s, r.base, v, p, schema, r.store, log);
    }
    if CleanBelow(was, s, r.base, v) {
      CleanIsFaithful(rules, was, s, log, schema, r);
    }
  }

  lemma RepairReaches(rules: Rules, was: Store, s: Store, log: Log, schema: nat, r: Recovered)
    requires Faithful(was, log) && Damaged(was, s)
    requires RecordByRecord(rules, s, schema, r) && r.kept < |TailOf(s, r.base)|
    ensures RepairedAt(s, r.frontier, Export(rules, r.doc), schema, r.store) && r.base in s.checkpoints && r.base <= r.frontier
  {
    hide Repaired, Newest, Accounted, Least, Through, References, ChecksumsUnique, ExactlyRetained, AcknowledgeThrough, UpdatesFaithful;
    RepairPublishesTheFrontier(rules, s, schema, r);
    RepairRotates(rules, s, schema, r);
    FrontierIsAboveBase(s, r.base, r.kept);
  }

  lemma CleanIsFaithful(rules: Rules, was: Store, s: Store, log: Log, schema: nat, r: Recovered)
    requires Faithful(was, log) && Damaged(was, s)
    requires RecordByRecord(rules, s, schema, r) && r.kept < |TailOf(s, r.base)|
    requires CleanBelow(was, s, r.base, r.frontier)
    ensures Faithful(r.store, Cut(log, r.frontier))
  {
    hide RecordByRecord, Through, Accounted, Cut, CheckpointsFaithful, Bounded, References, ChecksumsUnique, ExactlyRetained, UpdatesFaithful;
    hide AcknowledgeThrough, Newest, Least;
    var v, p := r.frontier, Export(rules, r.doc);
    KeptIsTheLog(rules, was, s, log, schema, r);
    RepairReaches(rules, was, s, log, schema, r);
    forall q | q in r.store.updates ensures r.store.updates[q] == was.updates[q] {
      if q > r.base {
        KeptIsUndamaged(rules, was, s, schema, r, q);
      }
    }
    CleanIsRetained(was, s, r.base, v, p, schema, r.store, log);
    CleanUpdates(was, r.store, log, v);
    CleanReferences(was, r.store, v);
    CleanGenerations(was, log, v, r.store);
    CleanBounds(was, log, v, r.store);
  }
}
