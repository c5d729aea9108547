/**
 What a recovery sets aside and what it keeps, said of the stores before and after it.
 */
module QuarantineFacts {
  import opened Records
  import opened Storage
  import opened Recovery
  import opened RecoveryPaths

  /** `q` is the first stored update above the frontier. */
  ghost predicate FirstAbove(s: Store, frontier: nat, q: nat) {
    && q in s.updates && q > frontier
    && forall p :: p in s.updates && p > frontier ==> q <= p
  }

  /** Every update the recovery took away is in quarantine with its checksum and its bytes.
      The first of them stands under its own reason, the others as its followers. */
  ghost predicate UpdatesSetAside(s: Store, frontier: nat, t: Store) {
    forall q :: q in s.updates && q !in t.updates ==>
      && UpdateHandle(q) in t.quarantine
      && var record, update := t.quarantine[UpdateHandle(q)], s.updates[q];
      && record.checksum == update.checksum && record.payload == update.payload
      && (record.reason == ChecksumMismatch <==> FirstAbove(s, frontier, q) && update.checksum != Checksum(update.payload))
      && (record.reason == InvalidRecord <==> FirstAbove(s, frontier, q) && update.checksum == Checksum(update.payload))
      && (record.reason == AfterCorruptTail <==> !FirstAbove(s, frontier, q))
  }

  /** So is every generation newer than the base, with the first check it failed. */
  ghost predicate GenerationsSetAside(rules: Rules, s: Store, base: int, t: Store) {
    forall d :: d in s.checkpoints && d > base ==>
      && CheckpointHandle(d) in t.quarantine
      && var record, c := t.quarantine[CheckpointHandle(d)], s.checkpoints[d];
      && record.checksum == c.checksum && record.payload == c.payload
      && (record.reason == UnsupportedSchema <==> !rules.supports(c.schema))
      && (record.reason == ChecksumMismatch <==> rules.supports(c.schema) && c.checksum != Checksum(c.payload))
      && (record.reason == InvalidRecord <==> rules.supports(c.schema) && c.checksum == Checksum(c.payload))
  }

  /** Nothing else is put into quarantine, and nothing leaves it. */
  ghost predicate NothingElseSetAside(s: Store, base: int, t: Store) {
    forall h: Handle ::
      || (h.UpdateHandle? && h.sequence in s.updates && h.sequence !in t.updates)
      || (h.CheckpointHandle? && h.sequence in s.checkpoints && h.sequence > base)
      || ((h in t.quarantine <==> h in s.quarantine) && (h in s.quarantine ==> t.quarantine[h] == s.quarantine[h]))
  }

  // ----------------------------------------------------------------- the replayed tail

  lemma {:induction false} RecordsAre(corrupt: seq<(nat, QuarantineRecord)>, j: nat)
    requires j < |corrupt| && forall a, b :: 0 <= a < b < |corrupt| ==> corrupt[a].0 < corrupt[b].0
    ensures corrupt[j].0 in RecordsOf(corrupt) && RecordsOf(corrupt)[corrupt[j].0] == corrupt[j].1
    decreases |corrupt|
  {
    if j < |corrupt| - 1 {
      RecordsAre(corrupt[..|corrupt| - 1], j);
    }
  }

  /** The suffix under its sequences, each record with what it was and why it went. */
  lemma SuffixRecord(rules: Rules, base: set<Op>, tail: seq<Stored>, kept: nat, i: nat)
    requires kept <= i < |tail| && forall a, b :: 0 <= a < b < |tail| ==> tail[a].sequence < tail[b].sequence
    ensures var records := RecordsOf(CorruptSuffix(rules, base, tail, kept)); var u := tail[i].record;
      && tail[i].sequence in records
      && records[tail[i].sequence].checksum == u.checksum && records[tail[i].sequence].payload == u.payload
      && records[tail[i].sequence].reason ==
           if i > kept then AfterCorruptTail else if u.checksum != Checksum(u.payload) then ChecksumMismatch else InvalidRecord
  {
    hide RecordsOf;
    RecordsAre(CorruptSuffix(rules, base, tail, kept), i - kept);
  }

  lemma FirstIsKept(s: Store, c: nat, kept: nat, i: nat)
    requires kept <= i < |TailOf(s, c)|
    ensures FirstAbove(s, FrontierOf(c, TailOf(s, c), kept), TailOf(s, c)[i].sequence) <==> i == kept
  {
    hide TailOf;
    var tail := TailOf(s, c);
    var frontier := FrontierOf(c, tail, kept);
    assert frontier < tail[kept].sequence;
    if i == kept {
      forall p | p in s.updates && p > frontier ensures tail[i].sequence <= p {
        var j :| 0 <= j < |tail| && tail[j].sequence == p;
        assert j >= kept;
      }
    }
  }

  /** What the repair transaction puts where. */
  lemma RepairPutsAside(s: Store, p: Payload, v: nat, schema: nat, records: map<nat, QuarantineRecord>)
    requires s.metadata.Some?
    ensures var r := RepairCorruptTail(s, p, v, schema, records);
      && r.Ok? && r.value.quarantine == s.quarantine + Quarantined(records)
      && (forall q :: q in r.value.updates <==> q in s.updates && q <= v)
  {
    hide Newest, TotalBytes, UpdatePayloads, CheckpointPayloads, Restrict, Quarantined;
  }

  lemma QuarantinedAt(records: map<nat, QuarantineRecord>, h: Handle)
    ensures h in Quarantined(records) <==> h.UpdateHandle? && h.sequence in records
    ensures h in Quarantined(records) ==> Quarantined(records)[h] == records[h.sequence]
  {
  }

  lemma RejectedAt(rules: Rules, s: Store, base: nat, h: Handle)
    ensures var rejected := Rejected(rules, s.checkpoints, Above(s.checkpoints.Keys, base));
      && (h in rejected <==> h.CheckpointHandle? && h.sequence in s.checkpoints && h.sequence > base)
      && (h in rejected ==>
            var c := s.checkpoints[h.sequence];
            rejected[h] == QuarantineRecord(
              c.checksum, c.payload,
              if !rules.supports(c.schema) then UnsupportedSchema
              else if c.checksum != Checksum(c.payload) then ChecksumMismatch else InvalidRecord))
  {
  }

  lemma RepairedQuarantine(rules: Rules, s: Store, c: nat, kept: nat, schema: nat, h: Handle)
    requires s.metadata.Some? && c in s.checkpoints && kept <= |TailOf(s, c)|
    ensures var t := Repaired(rules, s, c, kept, schema);
            var records := RecordsOf(CorruptSuffix(rules, s.checkpoints[c].payload.ops, TailOf(s, c), kept));
            var rejected := Rejected(rules, s.checkpoints, Above(s.checkpoints.Keys, c));
      && (h in t.quarantine <==> h in s.quarantine || h in rejected || (h.UpdateHandle? && h.sequence in records))
      && (h.UpdateHandle? && h.sequence in records ==> t.quarantine[h] == records[h.sequence])
      && (!(h.UpdateHandle? && h.sequence in records) && h in rejected ==> t.quarantine[h] == rejected[h])
      && (!(h.UpdateHandle? && h.sequence in records) && h !in rejected && h in s.quarantine ==> t.quarantine[h] == s.quarantine[h])
  {
    hide Rejected, RecordsOf, CorruptSuffix, TailOf, After, Storage.RepairCorruptTail, Above, Quarantined;
    var tail := TailOf(s, c);
    var base := s.checkpoints[c].payload.ops;
    var rejected := Rejected(rules, s.checkpoints, Above(s.checkpoints.Keys, c));
    var records := RecordsOf(CorruptSuffix(rules, base, tail, kept));
    var aside := s.(quarantine := s.quarantine + rejected);
    RepairPutsAside(aside, Export(rules, After(base, tail, kept)), FrontierOf(c, tail, kept), schema, records);
    QuarantinedAt(records, h);
    if kept == |tail| {
      NoRecords(rules, base, tail);
    }
  }

  lemma NoRecords(rules: Rules, base: set<Op>, tail: seq<Stored>)
    ensures RecordsOf(CorruptSuffix(rules, base, tail, |tail|)) == map[]
  {
  }

  lemma RepairedUpdates(rules: Rules, s: Store, c: nat, kept: nat, schema: nat, q: nat)
    requires s.metadata.Some? && c in s.checkpoints && kept <= |TailOf(s, c)|
    ensures q in Repaired(rules, s, c, kept, schema).updates <==>
            q in s.updates && (kept == |TailOf(s, c)| || q <= FrontierOf(c, TailOf(s, c), kept))
  {
    hide Rejected, RecordsOf, CorruptSuffix, TailOf, After, Storage.RepairCorruptTail, Above, Quarantined;
    var tail := TailOf(s, c);
    var base := s.checkpoints[c].payload.ops;
    var aside := s.(quarantine := s.quarantine + Rejected(rules, s.checkpoints, Above(s.checkpoints.Keys, c)));
    RepairPutsAside(aside, Export(rules, After(base, tail, kept)), FrontierOf(c, tail, kept), schema,
                    RecordsOf(CorruptSuffix(rules, base, tail, kept)));
  }

  /** A stored update above the frontier, with its place in the replayed tail. */
  lemma PlaceInTail(s: Store, c: nat, kept: nat, q: nat) returns (i: nat)
    requires q in s.updates && kept <= |TailOf(s, c)| && q > FrontierOf(c, TailOf(s, c), kept)
    ensures kept <= i < |TailOf(s, c)| && TailOf(s, c)[i].sequence == q && TailOf(s, c)[i].record == s.updates[q]
  {
    hide TailOf;
    var tail := TailOf(s, c);
    assert q > c;
    i :| 0 <= i < |tail| && tail[i].sequence == q;
  }

  /** The record of a stored update above the frontier says what it was and why it went. */
  lemma SuffixSaysWhy(rules: Rules, base: set<Op>, s: Store, c: nat, kept: nat, q: nat)
    requires q in s.updates && kept <= |TailOf(s, c)| && q > FrontierOf(c, TailOf(s, c), kept)
    ensures var tail := TailOf(s, c);
            var records := RecordsOf(CorruptSuffix(rules, base, tail, kept));
      && q in records && records[q].checksum == s.updates[q].checksum && records[q].payload == s.updates[q].payload
      && records[q].reason ==
           if !FirstAbove(s, FrontierOf(c, tail, kept), q) then AfterCorruptTail
           else if s.updates[q].checksum != Checksum(s.updates[q].payload) then ChecksumMismatch else InvalidRecord
  {
    hide RecordsOf, CorruptSuffix, TailOf, FrontierOf, FirstAbove;
    var i := PlaceInTail(s, c, kept, q);
    SuffixRecord(rules, base, TailOf(s, c), kept, i);
    FirstIsKept(s, c, kept, i);
  }

  lemma SuffixIsAbove(rules: Rules, base: set<Op>, s: Store, c: nat, kept: nat, q: nat)
    requires kept <= |TailOf(s, c)| && q in RecordsOf(CorruptSuffix(rules, base, TailOf(s, c), kept))
    ensures q in s.updates && q > FrontierOf(c, TailOf(s, c), kept) && kept < |TailOf(s, c)|
  {
    hide TailOf, RecordsOf, CorruptSuffix;
    SuffixKeys(rules, base, TailOf(s, c), kept, q);
  }

  lemma RepairSetsAside(rules: Rules, s: Store, c: nat, kept: nat, schema: nat)
    requires s.metadata.Some? && c in s.checkpoints && kept <= |TailOf(s, c)|
    ensures var t := Repaired(rules, s, c, kept, schema);
      && UpdatesSetAside(s, FrontierOf(c, TailOf(s, c), kept), t)
      && GenerationsSetAside(rules, s, c, t)
      && NothingElseSetAside(s, c, t)
  {
    hide Repaired, Rejected, RecordsOf, CorruptSuffix, TailOf, FrontierOf, FirstAbove, Above;
    var t := Repaired(rules, s, c, kept, schema);
    var base := s.checkpoints[c].payload.ops;
    forall q | q in s.updates && q !in t.updates
      ensures q > FrontierOf(c, TailOf(s, c), kept)
    {
      RepairedUpdates(rules, s, c, kept, schema, q);
    }
    forall q | q in s.updates && q !in t.updates
      ensures UpdateHandle(q) in t.quarantine
      ensures q in RecordsOf(CorruptSuffix(rules, base, TailOf(s, c), kept))
      ensures t.quarantine[UpdateHandle(q)] == RecordsOf(CorruptSuffix(rules, base, TailOf(s, c), kept))[q]
    {
      SuffixSaysWhy(rules, base, s, c, kept, q);
      RepairedQuarantine(rules, s, c, kept, schema, UpdateHandle(q));
    }
    assert UpdatesSetAside(s, FrontierOf(c, TailOf(s, c), kept), t) by {
      forall q | q in s.updates && q !in t.updates {
        SuffixSaysWhy(rules, base, s, c, kept, q);
      }
    }
    GenerationsGoAside(rules, s, c, kept, schema);
    NothingElseGoesAside(rules, s, c, kept, schema);
  }

  lemma GenerationsGoAside(rules: Rules, s: Store, c: nat, kept: nat, schema: nat)
    requires s.metadata.Some? && c in s.checkpoints && kept <= |TailOf(s, c)|
    ensures GenerationsSetAside(rules, s, c, Repaired(rules, s, c, kept, schema))
  {
    hide Repaired, Rejected, RecordsOf, CorruptSuffix, TailOf, FrontierOf, Above;
    var t := Repaired(rules, s, c, kept, schema);
    forall d | d in s.checkpoints && d > c
      ensures CheckpointHandle(d) in t.quarantine
      ensures t.quarantine[CheckpointHandle(d)] == QuarantineRecord(
        s.checkpoints[d].checksum, s.checkpoints[d].payload,
        if !rules.supports(s.checkpoints[d].schema) then UnsupportedSchema
        else if s.checkpoints[d].checksum != Checksum(s.checkpoints[d].payload) then ChecksumMismatch else InvalidRecord)
    {
      RejectedAt(rules, s, c, CheckpointHandle(d));
      RepairedQuarantine(rules, s, c, kept, schema, CheckpointHandle(d));
    }
  }

  lemma NothingElseGoesAside(rules: Rules, s: Store, c: nat, kept: nat, schema: nat)
    requires s.metadata.Some? && c in s.checkpoints && kept <= |TailOf(s, c)|
    ensures NothingElseSetAside(s, c, Repaired(rules, s, c, kept, schema))
  {
    hide Repaired, Rejected, RecordsOf, CorruptSuffix, TailOf, FrontierOf, Above;
    var t := Repaired(rules, s, c, kept, schema);
    var records := RecordsOf(CorruptSuffix(rules, s.checkpoints[c].payload.ops, TailOf(s, c), kept));
    forall h: Handle
      ensures || (h.UpdateHandle? && h.sequence in s.updates && h.sequence !in t.updates)
              || (h.CheckpointHandle? && h.sequence in s.checkpoints && h.sequence > c)
              || ((h in t.quarantine <==> h in s.quarantine) && (h in s.quarantine ==> t.quarantine[h] == s.quarantine[h]))
    {
      RejectedAt(rules, s, c, h);
      RepairedQuarantine(rules, s, c, kept, schema, h);
      if h.UpdateHandle? && h.sequence in records {
        SuffixIsAbove(rules, s.checkpoints[c].payload.ops, s, c, kept, h.sequence);
        RepairedUpdates(rules, s, c, kept, schema, h.sequence);
      }
    }
  }

  // --------------------------------------------------------------------- both recoveries

  /** Record-by-record recovery from a checkpoint loses no bytes: whatever it takes away or
      passes over is in quarantine, as it was and with the reason it went. */
  lemma RecoverySetsAsideWhatItDrops(rules: Rules, s: Store, schema: nat, r: Recovered)
    requires s.metadata.Some? && RecordByRecord(rules, s, schema, r)
    ensures UpdatesSetAside(s, r.frontier, r.store)
    ensures GenerationsSetAside(rules, s, r.base, r.store)
    ensures NothingElseSetAside(s, r.base, r.store)
  {
    hide Repaired, Good, After, FrontierOf, UpdatesSetAside, GenerationsSetAside, NothingElseSetAside;
    RepairSetsAside(rules, s, r.base, r.kept, schema);
  }

  /** And so does the worker's recovery, on whichever path. */
  lemma WorkerSetsAsideWhatItDrops(rules: Rules, s: Store, schema: nat, r: Recovered)
    requires s.metadata.Some? && s.checkpoints.Keys != {} && WorkerRecovery(rules, s, schema, r)
    ensures UpdatesSetAside(s, r.frontier, r.store)
    ensures GenerationsSetAside(rules, s, r.base, r.store)
    ensures NothingElseSetAside(s, r.base, r.store)
  {
    hide Repaired, Good, After, FrontierOf, Staged;
    if !Intact(rules, s) {
      RepairSetsAside(rules, s, r.base, r.kept, schema);
    }
  }

  lemma FirstQuarantine(rules: Rules, s: Store, blank: set<Op>, schema: nat, r: Recovered, h: Handle)
    requires s.metadata.Some? && FromNothing(rules, s, blank, schema, r)
    ensures var records := RecordsOf(CorruptSuffix(rules, blank, TailOf(s, 0), r.kept));
      && (h in r.store.quarantine <==> h in s.quarantine || (h.UpdateHandle? && h.sequence in records))
      && (h in r.store.quarantine ==>
            r.store.quarantine[h] == if h.UpdateHandle? && h.sequence in records then records[h.sequence] else s.quarantine[h])
  {
    hide Good, After, FrontierOf, TailOf, RecordsOf, CorruptSuffix, Quarantined, Storage.RepairCorruptTail;
    var records := RecordsOf(CorruptSuffix(rules, blank, TailOf(s, 0), r.kept));
    RepairPutsAside(s, Export(rules, r.doc), r.frontier, schema, records);
    QuarantinedAt(records, h);
    if r.kept == |TailOf(s, 0)| {
      NoRecords(rules, blank, TailOf(s, 0));
    }
  }

  lemma FirstUpdates(rules: Rules, s: Store, blank: set<Op>, schema: nat, r: Recovered, q: nat)
    requires s.metadata.Some? && FromNothing(rules, s, blank, schema, r)
    ensures r.kept <= |TailOf(s, 0)| && r.frontier == FrontierOf(0, TailOf(s, 0), r.kept)
    ensures q in r.store.updates <==> q in s.updates && (r.kept == |TailOf(s, 0)| || q <= r.frontier)
  {
    hide Good, After, FrontierOf, TailOf, RecordsOf, CorruptSuffix, Quarantined, Storage.RepairCorruptTail;
    RepairPutsAside(s, Export(rules, r.doc), r.frontier, schema, RecordsOf(CorruptSuffix(rules, blank, TailOf(s, 0), r.kept)));
  }

  /** And recovery of a graph that never had a checkpoint. */
  lemma FirstRecoverySetsAsideWhatItDrops(rules: Rules, s: Store, blank: set<Op>, schema: nat, r: Recovered)
    requires s.metadata.Some? && FromNothing(rules, s, blank, schema, r)
    ensures UpdatesSetAside(s, r.frontier, r.store)
    ensures NothingElseSetAside(s, 0, r.store)
  {
    hide FromNothing, FrontierOf, TailOf, RecordsOf, CorruptSuffix, FirstAbove;
    FirstUpdates(rules, s, blank, schema, r, 0);
    var records := RecordsOf(CorruptSuffix(rules, blank, TailOf(s, 0), r.kept));
    forall q | q in s.updates && q !in r.store.updates
      ensures q in records && UpdateHandle(q) in r.store.quarantine && r.store.quarantine[UpdateHandle(q)] == records[q]
      ensures r.kept <= |TailOf(s, 0)| && q > FrontierOf(0, TailOf(s, 0), r.kept) == r.frontier
    {
      FirstUpdates(rules, s, blank, schema, r, q);
      SuffixSaysWhy(rules, blank, s, 0, r.kept, q);
      FirstQuarantine(rules, s, blank, schema, r, UpdateHandle(q));
    }
    assert UpdatesSetAside(s, r.frontier, r.store) by {
      forall q | q in s.updates && q !in r.store.updates {
        SuffixSaysWhy(rules, blank, s, 0, r.kept, q);
      }
    }
    FirstSetsNothingElseAside(rules, s, blank, schema, r);
  }

  lemma FirstSetsNothingElseAside(rules: Rules, s: Store, blank: set<Op>, schema: nat, r: Recovered)
    requires s.metadata.Some? && FromNothing(rules, s, blank, schema, r)
    ensures NothingElseSetAside(s, 0, r.store)
  {
    hide FromNothing, FrontierOf, TailOf, RecordsOf, CorruptSuffix;
    FirstUpdates(rules, s, blank, schema, r, 0);
    var records := RecordsOf(CorruptSuffix(rules, blank, TailOf(s, 0), r.kept));
    forall h: Handle
      ensures || (h.UpdateHandle? && h.sequence in s.updates && h.sequence !in r.store.updates)
              || ((h in r.store.quarantine <==> h in s.quarantine) && (h in s.quarantine ==> r.store.quarantine[h] == s.quarantine[h]))
    {
      FirstQuarantine(rules, s, blank, schema, r, h);
      if h.UpdateHandle? && h.sequence in records {
        FirstUpdates(rules, s, blank, schema, r, h.sequence);
        SuffixIsAbove(rules, blank, s, 0, r.kept, h.sequence);
      }
    }
  }

  /** When no generation is usable every one of them is set aside, and no update is touched. */
  lemma FailureSetsAsideEveryGeneration(rules: Rules, s: Store)
    ensures GenerationsSetAside(rules, s, -1, AllRejected(rules, s))
    ensures AllRejected(rules, s).updates == s.updates && AllRejected(rules, s).checkpoints == s.checkpoints
    ensures NothingElseSetAside(s, -1, AllRejected(rules, s))
  {
  }

  // --------------------------------------------------------------------------- what is kept

  /** The operations of the stored updates above `c` and up to `v`. */
  function Between(s: Store, c: nat, v: nat): (ops: set<Op>)
    ensures forall op :: op in ops <==> exists q :: q in s.updates && c < q <= v && op in s.updates[q].payload.ops
  {
    set q, op | q in s.updates && c < q <= v && op in s.updates[q].payload.ops :: op
  }

  lemma {:induction false} AfterIsBetween(s: Store, c: nat, base: set<Op>, n: nat)
    requires n <= |TailOf(s, c)|
    ensures After(base, TailOf(s, c), n) == base + Between(s, c, FrontierOf(c, TailOf(s, c), n))
  {
    hide TailOf, Between, After;
    var tail := TailOf(s, c);
    if n == 0 {
      AfterNone(base, tail);
      NothingBetween(s, c);
    } else {
      AfterOneMore(base, tail, n - 1);
      AfterIsBetween(s, c, base, n - 1);
      var before, now := FrontierOf(c, tail, n - 1), tail[n - 1].sequence;
      forall q | q in s.updates && before < q <= now ensures q == now {
        NextInTail(s, c, n, q);
      }
      BetweenGrows(s, c, before, now);
    }
  }

  lemma NothingBetween(s: Store, c: nat)
    ensures Between(s, c, c) == {}
  {
  }

  lemma NextInTail(s: Store, c: nat, n: nat, q: nat)
    requires 0 < n <= |TailOf(s, c)| && q in s.updates && FrontierOf(c, TailOf(s, c), n - 1) < q <= TailOf(s, c)[n - 1].sequence
    ensures q == TailOf(s, c)[n - 1].sequence
  {
    hide TailOf, FrontierOf;
    var i := PlaceInTail(s, c, n - 1, q);
  }

  lemma BetweenGrows(s: Store, c: nat, before: nat, now: nat)
    requires c <= before < now && now in s.updates && forall q :: q in s.updates && before < q <= now ==> q == now
    ensures Between(s, c, now) == Between(s, c, before) + s.updates[now].payload.ops
  {
  }

  /** A stored update can follow the document: its checksum is right, it decodes, what it
      depends on is there, and the document with it is valid. */
  ghost predicate Follows(rules: Rules, doc: set<Op>, u: UpdateRecord) {
    && u.checksum == Checksum(u.payload) && rules.decodes(u.payload)
    && rules.needs(u.payload) <= doc && rules.valid(doc + u.payload.ops)
  }

  /** Replay returns the base with exactly the updates up to its frontier, each of which
      could follow those before it, and stops only where the next one could not. */
  lemma ReplayStopsAtTheFirstBadRecord(rules: Rules, s: Store, schema: nat, r: Recovered)
    requires RecordByRecord(rules, s, schema, r)
    ensures r.doc == s.checkpoints[r.base].payload.ops + Between(s, r.base, r.frontier) && rules.valid(r.doc)
    ensures forall q :: q in s.updates && r.base < q <= r.frontier ==>
              Follows(rules, s.checkpoints[r.base].payload.ops + Between(s, r.base, q - 1), s.updates[q])
    ensures forall q :: q in s.updates && FirstAbove(s, r.frontier, q) ==> !Follows(rules, r.doc, s.updates[q])
  {
    hide RecordByRecord, Between, FirstAbove, Follows;
    BaseIsStored(rules, s, schema, r);
    ReplayedDocument(rules, s, schema, r);
    forall q | q in s.updates && r.base < q <= r.frontier
      ensures Follows(rules, s.checkpoints[r.base].payload.ops + Between(s, r.base, q - 1), s.updates[q])
    {
      ReplayedFollows(rules, s, schema, r, q);
    }
    forall q | q in s.updates && FirstAbove(s, r.frontier, q) ensures !Follows(rules, r.doc, s.updates[q]) {
      ReplayStopped(rules, s, schema, r, q);
    }
  }

  lemma BaseIsStored(rules: Rules, s: Store, schema: nat, r: Recovered)
    requires RecordByRecord(rules, s, schema, r)
    ensures r.base in s.checkpoints
  {
  }

  lemma ReplayedDocument(rules: Rules, s: Store, schema: nat, r: Recovered)
    requires RecordByRecord(rules, s, schema, r)
    ensures r.doc == s.checkpoints[r.base].payload.ops + Between(s, r.base, r.frontier) && rules.valid(r.doc)
  {
    hide Repaired, Between, After, FrontierOf, Good, Usable, TailOf;
    AfterIsBetween(s, r.base, s.checkpoints[r.base].payload.ops, r.kept);
    KeptDocumentIsValid(rules, s, schema, r);
  }

  lemma ReplayedFollows(rules: Rules, s: Store, schema: nat, r: Recovered, q: nat)
    requires RecordByRecord(rules, s, schema, r) && q in s.updates && r.base < q <= r.frontier
    ensures Follows(rules, s.checkpoints[r.base].payload.ops + Between(s, r.base, q - 1), s.updates[q])
  {
    hide Repaired, Between, Follows, After, FrontierOf, Good, Usable, TailOf;
    KeptFollows(rules, s, r.base, r.kept, q);
  }

  lemma ReplayStopped(rules: Rules, s: Store, schema: nat, r: Recovered, q: nat)
    requires RecordByRecord(rules, s, schema, r) && q in s.updates && FirstAbove(s, r.frontier, q)
    ensures !Follows(rules, r.doc, s.updates[q])
  {
    hide Repaired, FirstAbove, Follows, After, FrontierOf, Good, Usable, TailOf;
    NextDoesNotFollow(rules, s, r.base, r.kept, q);
  }

  lemma KeptFollows(rules: Rules, s: Store, c: nat, kept: nat, q: nat)
    requires c in s.checkpoints && GoodPrefix(rules, s.checkpoints[c].payload.ops, TailOf(s, c), kept)
    requires q in s.updates && c < q <= FrontierOf(c, TailOf(s, c), kept)
    ensures Follows(rules, s.checkpoints[c].payload.ops + Between(s, c, q - 1), s.updates[q])
  {
    hide TailOf, Between, After;
    var base, tail := s.checkpoints[c].payload.ops, TailOf(s, c);
    var i :| 0 <= i < |tail| && tail[i].sequence == q;
    assert i < kept;
    assert Good(rules, base, tail, i);
    AfterIsBetween(s, c, base, i);
    AfterOneMore(base, tail, i);
    BetweenSkips(s, c, i, q);
  }

  lemma AfterOneMore(base: set<Op>, tail: seq<Stored>, i: nat)
    requires i < |tail|
    ensures After(base, tail, i + 1) == After(base, tail, i) + tail[i].record.payload.ops
  {
  }

  lemma BetweenSkips(s: Store, c: nat, i: nat, q: nat)
    requires i < |TailOf(s, c)| && TailOf(s, c)[i].sequence == q
    ensures Between(s, c, FrontierOf(c, TailOf(s, c), i)) == Between(s, c, q - 1)
  {
    hide TailOf;
    assert FrontierOf(c, TailOf(s, c), i) < q;
    forall p | p in s.updates && FrontierOf(c, TailOf(s, c), i) < p <= q - 1 ensures false {
      NextInTail(s, c, i + 1, p);
    }
  }

  lemma NextDoesNotFollow(rules: Rules, s: Store, c: nat, kept: nat, q: nat)
    requires c in s.checkpoints && LongestGoodPrefix(rules, s.checkpoints[c].payload.ops, TailOf(s, c), kept)
    requires q in s.updates && FirstAbove(s, FrontierOf(c, TailOf(s, c), kept), q)
    ensures !Follows(rules, After(s.checkpoints[c].payload.ops, TailOf(s, c), kept), s.updates[q])
  {
    hide TailOf, After, FirstAbove;
    var base, tail := s.checkpoints[c].payload.ops, TailOf(s, c);
    var i := NextPlace(s, c, kept, q);
    AfterOneMore(base, tail, kept);
    LongestStops(rules, base, tail, kept);
  }

  lemma LongestStops(rules: Rules, base: set<Op>, tail: seq<Stored>, kept: nat)
    requires LongestGoodPrefix(rules, base, tail, kept) && kept < |tail|
    ensures !Good(rules, base, tail, kept)
  {
    hide Good;
    var longer := kept + 1;
    assert GoodPrefix(rules, base, tail, longer) <==> Good(rules, base, tail, kept);
  }

  lemma NextPlace(s: Store, c: nat, kept: nat, q: nat) returns (i: nat)
    requires kept <= |TailOf(s, c)| && FirstAbove(s, FrontierOf(c, TailOf(s, c), kept), q)
    ensures i == kept < |TailOf(s, c)| && TailOf(s, c)[i].sequence == q && TailOf(s, c)[i].record == s.updates[q]
  {
    hide TailOf, FirstAbove, FrontierOf;
    assert q in s.updates && q > FrontierOf(c, TailOf(s, c), kept) by { FirstIsStored(s, FrontierOf(c, TailOf(s, c), kept), q); }
    i := PlaceInTail(s, c, kept, q);
    FirstIsKept(s, c, kept, i);
  }

  lemma FirstIsStored(s: Store, frontier: nat, q: nat)
    requires FirstAbove(s, frontier, q)
    ensures q in s.updates && q > frontier
  {
  }

  /** A generation recovery can stand on by itself. */
  ghost predicate StandsAlone(rules: Rules, c: CheckpointRecord) {
    rules.supports(c.schema) && c.checksum == Checksum(c.payload) && rules.decodes(c.payload) && rules.valid(c.payload.ops)
  }

  /** Record-by-record recovery stands on the newest good generation. */
  lemma BaseIsTheNewestGood(rules: Rules, s: Store, schema: nat, r: Recovered)
    requires RecordByRecord(rules, s, schema, r)
    ensures r.base in s.checkpoints && StandsAlone(rules, s.checkpoints[r.base])
    ensures forall d :: d in s.checkpoints && d > r.base ==> !StandsAlone(rules, s.checkpoints[d])
  {
    hide LongestGoodPrefix, Repaired;
  }

  /** So does the worker's, or on the newest one of all where that has the right schema and
      checksum, decodes, and leads with its whole tail to a valid document. */
  lemma WorkerBaseIsSound(rules: Rules, s: Store, schema: nat, r: Recovered)
    requires s.checkpoints.Keys != {} && WorkerRecovery(rules, s, schema, r)
    ensures r.base in s.checkpoints
    ensures var c := s.checkpoints[r.base];
      && rules.supports(c.schema) && c.checksum == Checksum(c.payload) && rules.decodes(c.payload)
      && (|| (forall d :: d in s.checkpoints ==> d <= r.base)
          || (StandsAlone(rules, c) && forall d :: d in s.checkpoints && d > r.base ==> !StandsAlone(rules, s.checkpoints[d])))
  {
    hide LongestGoodPrefix, Repaired, Staged;
  }

  /** Every document the worker recovers passed validation as a whole. */
  lemma WorkerRecoversAValidDocument(rules: Rules, s: Store, schema: nat, r: Recovered)
    requires s.checkpoints.Keys != {} && WorkerRecovery(rules, s, schema, r)
    ensures rules.valid(r.doc)
    ensures r.doc == s.checkpoints[r.base].payload.ops + Between(s, r.base, r.frontier)
  {
    hide Repaired, TailOf, Between, After;
    AfterIsBetween(s, r.base, s.checkpoints[r.base].payload.ops, r.kept);
    var base, tail := s.checkpoints[r.base].payload.ops, TailOf(s, r.base);
    if !Staged(rules, base, tail) {
      if r.kept == 0 {
        AfterNone(base, tail);
      } else {
        assert Good(rules, base, tail, r.kept - 1);
      }
    }
  }

  lemma AfterNone(base: set<Op>, tail: seq<Stored>)
    ensures After(base, tail, 0) == base
  {
  }
}
