/**
 The worker's `recover`: two fast paths that validate only the final document in
 front of the record-by-record replay, and what recovery as a whole guarantees.
 */
module RecoveryPaths {
  import opened Records
  import opened Storage
  import opened Repository
  import opened Recovery

  // --------------------------------------------------------------- the fast paths

  /** Every update imports in order and the document they end in is valid. */
  ghost predicate Staged(rules: Rules, base: set<Op>, tail: seq<Stored>) {
    && (forall i :: 0 <= i < |tail| ==> Sound(tail[i].record))
    && (forall i :: 0 <= i < |tail| ==> Imports(rules, After(base, tail, i), tail[i].record.payload))
    && rules.valid(After(base, tail, |tail|))
  }

  method AllSound(tail: seq<Stored>) returns (sound: bool)
    ensures sound <==> forall i :: 0 <= i < |tail| ==> Sound(tail[i].record)
  {
    for i := 0 to |tail|
      invariant forall j :: 0 <= j < i ==> Sound(tail[j].record)
    {
      if !Sound(tail[i].record) {
        return false;
      }
    }
    return true;
  }

  method ImportAll(rules: Rules, base: set<Op>, tail: seq<Stored>) returns (doc: Option<set<Op>>)
    ensures doc.Some? <==> forall i :: 0 <= i < |tail| ==> Imports(rules, After(base, tail, i), tail[i].record.payload)
    ensures doc.Some? ==> doc.value == After(base, tail, |tail|)
  {
    hide Imports;
    var now := base;
    for i := 0 to |tail|
      invariant now == After(base, tail, i)
      invariant forall j :: 0 <= j < i ==> Imports(rules, After(base, tail, j), tail[j].record.payload)
    {
      if !Imports(rules, now, tail[i].record.payload) {
        return None;
      }
      now := now + tail[i].record.payload.ops;
    }
    return Some(now);
  }

  method StageTail(rules: Rules, base: set<Op>, tail: seq<Stored>) returns (staged: bool)
    ensures staged <==> Staged(rules, base, tail)
  {
    hide Imports, After;
    var sound := AllSound(tail);
    if !sound {
      return false;
    }
    var doc := ImportAll(rules, base, tail);
    return doc.Some? && rules.valid(doc.value);
  }

  /** The newest generation decodes and its whole tail is intact. */
  ghost predicate Intact(rules: Rules, s: Store) {
    && s.checkpoints.Keys != {}
    && var c := Greatest(s.checkpoints.Keys);
    && rules.supports(s.checkpoints[c].schema)
    && s.checkpoints[c].checksum == Checksum(s.checkpoints[c].payload)
    && rules.decodes(s.checkpoints[c].payload)
    && Staged(rules, s.checkpoints[c].payload.ops, TailOf(s, c))
  }

  ghost function Complete(s: Store, c: nat): Recovered
    requires c in s.checkpoints
  {
    var tail := TailOf(s, c);
    Recovered(After(s.checkpoints[c].payload.ops, tail, |tail|), FrontierOf(c, tail, |tail|), c, |tail|, s)
  }

  /** What `recover` returns and leaves in the stores. */
  ghost predicate WorkerRecovery(rules: Rules, s: Store, schema: nat, r: Recovered) {
    if Intact(rules, s) then
      r == Complete(s, Greatest(s.checkpoints.Keys))
    else
      && Selects(rules, s, r.base)
      && var tail := TailOf(s, r.base);
      && var base := s.checkpoints[r.base].payload.ops;
      && (if Staged(rules, base, tail) then r.kept == |tail| else LongestGoodPrefix(rules, base, tail, r.kept))
      && r.doc == After(base, tail, r.kept)
      && r.frontier == FrontierOf(r.base, tail, r.kept)
      && r.store == Repaired(rules, s, r.base, r.kept, schema)
  }

  method RecoverIntact(rules: Rules, s: Store) returns (r: Option<Recovered>)
    ensures r.Some? <==> Intact(rules, s)
    ensures r.Some? ==> r.value == Complete(s, Greatest(s.checkpoints.Keys))
  {
    if s.checkpoints.Keys == {} {
      return None;
    }
    var c := Greatest(s.checkpoints.Keys);
    var record := s.checkpoints[c];
    if !rules.supports(record.schema) || record.checksum != Checksum(record.payload) || !rules.decodes(record.payload) {
      return None;
    }
    var tail := TailOf(s, c);
    var staged := StageTail(rules, record.payload.ops, tail);
    if !staged {
      return None;
    }
    return Some(Recovered(After(record.payload.ops, tail, |tail|), FrontierOf(c, tail, |tail|), c, |tail|, s));
  }

  /** A graph without a checkpoint starts from a new document at sequence zero. */
  ghost function Based(s: Store, blank: Payload, schema: nat): Store {
    if s.checkpoints.Keys != {} then s else
      match InstallCheckpoint(s, blank, 0, schema)
      case Ok(installed) => installed
      case Err(_) => s
  }

  method Recover(rules: Rules, repository: GraphRepository, blank: Payload, schema: nat)
    returns (r: Result<Recovered, RecoveryError>)
    requires repository.Valid() && repository.metadata.Some?
    modifies repository
    ensures repository.Valid()
    ensures var s := Based(old(repository.View()), blank, schema);
            r.Ok? ==> WorkerRecovery(rules, s, schema, r.value) && repository.View() == r.value.store
    ensures var s := Based(old(repository.View()), blank, schema);
            r.Err? ==> !Intact(rules, s) && forall d :: d in s.checkpoints ==> !Usable(rules, s.checkpoints[d])
    ensures var s := Based(old(repository.View()), blank, schema);
            r.Err? ==> r.error == NoValidCheckpoint && repository.View() == AllRejected(rules, s)
  {
    hide LongestGoodPrefix, Staged, Intact, Usable, After, Rejected, TailOf, CorruptSuffix, RecordsOf, Above;
    hide Storage.RepairCorruptTail, Storage.InstallCheckpoint, ChecksumsUnique, Greatest;
    if repository.checkpoints.Keys == {} {
      var _ := repository.InstallCheckpoint(blank, 0, schema);
    }
    var s := repository.View();
    assert s == Based(old(repository.View()), blank, schema);
    var intact := RecoverIntact(rules, s);
    if intact.Some? {
      return Ok(intact.value);
    }
    var selected, rejected := SelectBase(rules, s);
    repository.quarantine := repository.quarantine + rejected;
    if selected.None? {
      return Err(NoValidCheckpoint);
    }
    var c := selected.value;
    var tail := TailOf(s, c);
    var base := s.checkpoints[c].payload.ops;
    var staged := StageTail(rules, base, tail);
    if staged {
      r := Ok(Recovered(After(base, tail, |tail|), FrontierOf(c, tail, |tail|), c, |tail|, repository.View()));
    } else {
      var doc, kept, corrupt := ReplayTail(rules, base, tail);
      if corrupt != [] {
        var _ := repository.RepairCorruptTail(Export(rules, doc), FrontierOf(c, tail, kept), schema, RecordsOf(corrupt));
      }
      r := Ok(Recovered(doc, FrontierOf(c, tail, kept), c, kept, repository.View()));
    }
  }

  // ------------------------------------------------- fast paths against the replay

  lemma AboveNewest(s: Store)
    requires s.checkpoints.Keys != {}
    ensures Above(s.checkpoints.Keys, Greatest(s.checkpoints.Keys)) == {}
  {
  }

  /** The document a base and its whole tail lead to is checked alone; replay checks
      every document on the way, and a base before it starts from it. */
  ghost predicate NothingSkipped(rules: Rules, s: Store, selected: nat)
    requires s.checkpoints.Keys != {} && selected in s.checkpoints
  {
    && (Intact(rules, s) ==> rules.valid(s.checkpoints[Greatest(s.checkpoints.Keys)].payload.ops))
    && var base, tail := s.checkpoints[selected].payload.ops, TailOf(s, selected);
    (Staged(rules, base, tail) ==> EveryPrefixValid(rules, base, tail))
  }

  /** The fast paths return the document, frontier and stores of record-by-record recovery
      if and only if the newest generation, where its tail is intact, is valid by itself
      and, where the whole tail of the selected one stages, so is every prefix of it. */
  lemma FastPathsAgreeIff(rules: Rules, s: Store, schema: nat, fast: Recovered, slow: Recovered)
    requires s.checkpoints.Keys != {}
    requires WorkerRecovery(rules, s, schema, fast) && RecordByRecord(rules, s, schema, slow)
    ensures fast == slow <==> NothingSkipped(rules, s, slow.base)
  {
    hide Rejected, After, Storage.RepairCorruptTail, TailOf, Good, Staged, RecordsOf, CorruptSuffix, Above, LongestGoodPrefix;
    hide EveryPrefixValid, Repaired;
    var newest := Greatest(s.checkpoints.Keys);
    var base, tail := s.checkpoints[slow.base].payload.ops, TailOf(s, slow.base);
    if Staged(rules, base, tail) {
      KeepsAllIff(rules, base, tail, slow.kept);
    }
    if Intact(rules, s) {
      if rules.valid(s.checkpoints[newest].payload.ops) {
        NewestIsUsable(rules, s);
        OneSelection(rules, s, slow.base, newest);
        NothingRepaired(rules, s, schema);
      }
    } else {
      OneSelection(rules, s, fast.base, slow.base);
      if !Staged(rules, base, tail) {
        OneLongest(rules, base, tail, fast.kept, slow.kept);
      }
    }
  }

  lemma NothingRepaired(rules: Rules, s: Store, schema: nat)
    requires s.checkpoints.Keys != {}
    ensures var c := Greatest(s.checkpoints.Keys); Repaired(rules, s, c, |TailOf(s, c)|, schema) == s
  {
    hide Rejected, TailOf, Above;
    AboveNewest(s);
    RejectNone(rules, s.checkpoints);
    assert s.quarantine + map[] == s.quarantine;
  }

  lemma OneLongest(rules: Rules, base: set<Op>, tail: seq<Stored>, m: nat, n: nat)
    requires LongestGoodPrefix(rules, base, tail, m) && LongestGoodPrefix(rules, base, tail, n)
    ensures m == n
  {
    hide Good;
  }

  /** Replay keeps all of a staged tail if and only if every prefix of it is valid. */
  lemma KeepsAllIff(rules: Rules, base: set<Op>, tail: seq<Stored>, kept: nat)
    requires Staged(rules, base, tail) && LongestGoodPrefix(rules, base, tail, kept)
    ensures kept == |tail| <==> EveryPrefixValid(rules, base, tail)
  {
    hide After;
    if EveryPrefixValid(rules, base, tail) {
      assert GoodPrefix(rules, base, tail, |tail|) by {
        forall i: nat | i < |tail| ensures Good(rules, base, tail, i) {
          assert rules.valid(After(base, tail, i + 1));
        }
      }
      assert |tail| <= kept;
    }
    if kept == |tail| {
      forall n: nat | 1 <= n <= |tail| ensures rules.valid(After(base, tail, n)) {
        assert Good(rules, base, tail, n - 1);
      }
    }
  }

  /** Where they disagree it shows: replay stops at an earlier frontier, or has set aside
      the generation the fast path stands on. */
  lemma DisagreementShows(rules: Rules, s: Store, schema: nat, fast: Recovered, slow: Recovered)
    requires s.checkpoints.Keys != {} && s.metadata.Some?
    requires WorkerRecovery(rules, s, schema, fast) && RecordByRecord(rules, s, schema, slow) && fast != slow
    ensures slow.frontier < fast.frontier || CheckpointHandle(fast.base) in slow.store.quarantine
  {
    hide Rejected, After, Storage.RepairCorruptTail, TailOf, Staged, RecordsOf, CorruptSuffix, Above, Good, Repaired;
    if fast.base == slow.base {
      SameBaseShows(rules, s, schema, fast, slow);
    } else {
      DifferentBase(rules, s, schema, fast, slow);
      RejectedIsQuarantined(rules, s, slow.base, slow.kept, schema, fast.base);
    }
  }

  lemma SameBaseShows(rules: Rules, s: Store, schema: nat, fast: Recovered, slow: Recovered)
    requires s.checkpoints.Keys != {} && fast.base == slow.base
    requires WorkerRecovery(rules, s, schema, fast) && RecordByRecord(rules, s, schema, slow) && fast != slow
    ensures slow.frontier < fast.frontier
  {
    hide Rejected, After, Storage.RepairCorruptTail, TailOf, RecordsOf, CorruptSuffix, Above, Good, Repaired;
    FastPathsAgreeIff(rules, s, schema, fast, slow);
    var tail := TailOf(s, slow.base);
    if Intact(rules, s) {
      NothingRepaired(rules, s, schema);
    }
    assert slow.kept < |tail| == fast.kept;
  }

  lemma DifferentBase(rules: Rules, s: Store, schema: nat, fast: Recovered, slow: Recovered)
    requires s.checkpoints.Keys != {} && fast.base != slow.base
    requires WorkerRecovery(rules, s, schema, fast) && RecordByRecord(rules, s, schema, slow)
    ensures fast.base in s.checkpoints && slow.base < fast.base
  {
    hide Staged, LongestGoodPrefix, Repaired, After, FrontierOf;
    if !Intact(rules, s) {
      OneSelection(rules, s, fast.base, slow.base);
    }
  }

  lemma RejectedIsQuarantined(rules: Rules, s: Store, c: nat, kept: nat, schema: nat, d: nat)
    requires s.metadata.Some? && c in s.checkpoints && kept <= |TailOf(s, c)| && d in s.checkpoints && c < d
    ensures CheckpointHandle(d) in Repaired(rules, s, c, kept, schema).quarantine
  {
    hide TailOf, Newest, TotalBytes, UpdatePayloads, CheckpointPayloads, Restrict, UpdatesThrough, RecordsOf, CorruptSuffix;
    assert CheckpointHandle(d) in Rejected(rules, s.checkpoints, Above(s.checkpoints.Keys, c));
  }

  lemma NewestIsUsable(rules: Rules, s: Store)
    requires Intact(rules, s) && rules.valid(s.checkpoints[Greatest(s.checkpoints.Keys)].payload.ops)
    ensures Selects(rules, s, Greatest(s.checkpoints.Keys))
  {
  }

  lemma OneSelection(rules: Rules, s: Store, c: nat, d: nat)
    requires Selects(rules, s, c) && Selects(rules, s, d)
    ensures c == d
  {
  }

  /** From the same base a staged tail ends at the frontier replay reaches if and only if
      every prefix is valid. */
  lemma StagedAgreesIff(rules: Rules, base: set<Op>, tail: seq<Stored>, kept: nat, c: nat)
    requires Staged(rules, base, tail) && LongestGoodPrefix(rules, base, tail, kept)
    requires forall i, j :: 0 <= i < j < |tail| ==> tail[i].sequence < tail[j].sequence
    requires forall i :: 0 <= i < |tail| ==> c < tail[i].sequence
    ensures FrontierOf(c, tail, kept) == FrontierOf(c, tail, |tail|) <==> EveryPrefixValid(rules, base, tail)
  {
    hide After, Good, Staged, EveryPrefixValid;
    KeepsAllIff(rules, base, tail, kept);
    if kept < |tail| {
      assert FrontierOf(c, tail, kept) < tail[|tail| - 1].sequence;
    }
  }

  ghost predicate EveryPrefixValid(rules: Rules, base: set<Op>, tail: seq<Stored>) {
    forall n: nat :: 1 <= n <= |tail| ==> rules.valid(After(base, tail, n))
  }

  /** A document rule under which a mark must come with its target. */
  const TARGET := Op(1, 0)
  const MARK := Op(1, 1)
  const PAIRED := Rules(_ => true, _ => true, _ => {}, doc => MARK in doc ==> TARGET in doc, _ => [])

  /** The converse fails: the final document is valid, yet the first update alone is not. */
  lemma FastPathKeepsMoreThanReplay()
    ensures var first := UpdateRecord(Checksum(Payload({MARK}, [1])), Payload({MARK}, [1]));
            var second := UpdateRecord(Checksum(Payload({TARGET}, [2])), Payload({TARGET}, [2]));
            var tail := [Stored(1, first), Stored(2, second)];
            Staged(PAIRED, {}, tail) && LongestGoodPrefix(PAIRED, {}, tail, 0)
  {
    var first := UpdateRecord(Checksum(Payload({MARK}, [1])), Payload({MARK}, [1]));
    var second := UpdateRecord(Checksum(Payload({TARGET}, [2])), Payload({TARGET}, [2]));
    var tail := [Stored(1, first), Stored(2, second)];
    assert After({}, tail, 0) == {};
    assert After({}, tail, 1) == {MARK};
    assert After({}, tail, 2) == {MARK, TARGET};
    assert !Good(PAIRED, {}, tail, 0);
  }

  // ------------------------------------------------------- what recovery guarantees

  /** The records a repair moves are exactly the stored updates above the frontier. */
  lemma QuarantineIsExactlyTheSuffix(rules: Rules, s: Store, c: nat, kept: nat, q: nat)
    requires c in s.checkpoints && kept <= |TailOf(s, c)|
    ensures var tail := TailOf(s, c);
            q in RecordsOf(CorruptSuffix(rules, s.checkpoints[c].payload.ops, tail, kept)) <==>
            q in s.updates && q > FrontierOf(c, tail, kept)
  {
    hide TailOf, RecordsOf, CorruptSuffix;
    var tail := TailOf(s, c);
    SuffixKeys(rules, s.checkpoints[c].payload.ops, tail, kept, q);
    if q in s.updates && q > FrontierOf(c, tail, kept) {
      var i :| 0 <= i < |tail| && tail[i].sequence == q;
      assert i >= kept;
    }
  }

  lemma SuffixKeys(rules: Rules, base: set<Op>, tail: seq<Stored>, kept: nat, q: nat)
    requires kept <= |tail|
    ensures q in RecordsOf(CorruptSuffix(rules, base, tail, kept)) <==>
            exists i :: kept <= i < |tail| && tail[i].sequence == q
  {
    hide RecordsOf, FailureOf;
    var corrupt := CorruptSuffix(rules, base, tail, kept);
    if q in RecordsOf(corrupt) {
      var j :| 0 <= j < |corrupt| && corrupt[j].0 == q;
      assert tail[kept + j].sequence == q;
    }
    if i :| kept <= i < |tail| && tail[i].sequence == q {
      assert corrupt[i - kept].0 == q;
    }
  }

  lemma FrontierIsAboveBase(s: Store, c: nat, kept: nat)
    requires kept <= |TailOf(s, c)|
    ensures c <= FrontierOf(c, TailOf(s, c), kept)
  {
  }

  /** With two generations retained, the published one is never rotated out. */
  lemma PublishedSurvivesRotation(keys: set<nat>, c: nat, v: nat)
    requires |keys| <= 2 && c in keys && c <= v
    ensures v in Newest(keys + {v})
  {
    hide Newest;
    var put := keys + {v};
    if v !in keys {
      assert |put| == |keys| + 1;
      if |put| > 2 && v !in Newest(put) {
        var kept := Newest(put);
        assert c !in kept;
        assert kept <= put - {c, v};
        assert put - {c, v} == keys - {c};
        CardinalityOfSubset(kept, keys - {c});
      }
    }
  }

  lemma {:induction false} CardinalityOfSubset(small: set<nat>, big: set<nat>)
    requires small <= big
    ensures |small| <= |big|
  {
    assert big == small + (big - small);
  }

  /** The stores after a repair: the frontier is a retained generation holding the
      kept document, nothing above it is stored, and no sequence is given out twice. */
  ghost predicate Published(s: Store, v: nat, p: Payload, schema: nat, t: Store) {
    && v in t.checkpoints && t.checkpoints[v] == CheckpointRecord(schema, Checksum(p), p)
    && (forall c :: c in t.checkpoints && c != v ==> c in s.checkpoints && t.checkpoints[c] == s.checkpoints[c])
    && (forall q :: q in t.updates <==> q in s.updates && q <= v)
    && (forall q :: q in t.updates ==> t.updates[q] == s.updates[q])
    && s.metadata.Some? && t.metadata.Some? && t.metadata.value.nextSequence == s.metadata.value.nextSequence
    && t.outbox == s.outbox
  }

  lemma RepairPublishesTheFrontier(rules: Rules, s: Store, schema: nat, r: Recovered)
    requires s.metadata.Some? && |s.checkpoints| <= 2
    requires RecordByRecord(rules, s, schema, r) && r.kept < |TailOf(s, r.base)|
    ensures Published(s, r.frontier, Export(rules, r.doc), schema, r.store)
  {
    hide LongestGoodPrefix, Rejected, RecordsOf, CorruptSuffix, TailOf, After, Storage.RepairCorruptTail, Usable, Above, Newest;
    FrontierIsAboveBase(s, r.base, r.kept);
    PublishedSurvivesRotation(s.checkpoints.Keys, r.base, r.frontier);
    var tail := TailOf(s, r.base);
    var base := s.checkpoints[r.base].payload.ops;
    var aside := s.(quarantine := s.quarantine + Rejected(rules, s.checkpoints, Above(s.checkpoints.Keys, r.base)));
    RepairStores(aside, Export(rules, r.doc), r.frontier, schema, RecordsOf(CorruptSuffix(rules, base, tail, r.kept)));
  }

  /** What one repair transaction leaves when the generation it publishes survives. */
  lemma RepairStores(s: Store, p: Payload, v: nat, schema: nat, records: map<nat, QuarantineRecord>)
    requires s.metadata.Some? && v in Newest(s.checkpoints.Keys + {v})
    ensures var repair := RepairCorruptTail(s, p, v, schema, records);
            repair.Ok? && Published(s, v, p, schema, repair.value)
  {
    hide Newest, TotalBytes, Quarantined, UpdatePayloads, CheckpointPayloads, Restrict, UpdatesThrough;
    RestrictPublished(s.checkpoints, v, CheckpointRecord(schema, Checksum(p), p));
    KeptThrough(s.updates, v);
  }

  lemma KeptThrough(updates: map<nat, UpdateRecord>, v: nat)
    ensures var kept := UpdatesThrough(updates, v);
            && (forall q :: q in kept <==> q in updates && q <= v)
            && (forall q :: q in kept ==> kept[q] == updates[q])
  {
  }

  lemma RestrictPublished(checkpoints: map<nat, CheckpointRecord>, v: nat, record: CheckpointRecord)
    requires v in Newest(checkpoints.Keys + {v})
    ensures var put := checkpoints[v := record];
            var kept := Restrict(put, Newest(put.Keys));
            && v in kept && kept[v] == record
            && forall c :: c in kept && c != v ==> c in checkpoints && kept[c] == checkpoints[c]
  {
    hide Newest;
    assert checkpoints[v := record].Keys == checkpoints.Keys + {v};
  }

  /** A second recovery reaches the same document and quarantines no further update. */
  lemma RecoveryIsIdempotent(rules: Rules, s: Store, schema: nat, r: Recovered, again: Recovered)
    requires s.metadata.Some? && |s.checkpoints| <= 2 && rules.supports(schema)
    requires rules.decodes(Export(rules, r.doc))
    requires RecordByRecord(rules, s, schema, r) && RecordByRecord(rules, r.store, schema, again)
    ensures again.doc == r.doc && again.frontier == r.frontier
    ensures again.kept == |TailOf(r.store, again.base)|
    ensures again.store.updates == r.store.updates
  {
    hide After, Rejected, RecordsOf, CorruptSuffix, Storage.RepairCorruptTail, Usable, Above, TailOf, Good;
    if r.kept == |TailOf(s, r.base)| {
      SameTail(s, r.store, r.base);
      OneSelection(rules, s, r.base, again.base);
    } else {
      RepairedSelectsFrontier(rules, s, schema, r, again);
      RepairPublishesTheFrontier(rules, s, schema, r);
      NothingAboveFrontier(r.store, r.frontier);
      AfterNothing(r.doc);
    }
  }

  lemma AfterNothing(doc: set<Op>)
    ensures After(doc, [], 0) == doc
  {
  }

  lemma SameTail(s: Store, t: Store, c: nat)
    requires s.updates == t.updates
    ensures TailOf(s, c) == TailOf(t, c)
  {
    hide Ascending;
    assert UpdatesAfter(s, c) == UpdatesAfter(t, c);
  }

  lemma NothingAboveFrontier(s: Store, frontier: nat)
    requires forall q :: q in s.updates ==> q <= frontier
    ensures TailOf(s, frontier) == []
  {
    assert UpdatesAfter(s, frontier) == [] by {
      assert forall q :: q !in UpdatesAfter(s, frontier);
    }
  }

  lemma KeptDocumentIsValid(rules: Rules, s: Store, schema: nat, r: Recovered)
    requires RecordByRecord(rules, s, schema, r)
    ensures rules.valid(r.doc)
  {
    var tail := TailOf(s, r.base);
    var base := s.checkpoints[r.base].payload.ops;
    if r.kept == 0 {
      assert After(base, tail, 0) == base;
    } else {
      assert Good(rules, base, tail, r.kept - 1);
    }
  }

  lemma RepairedSelectsFrontier(rules: Rules, s: Store, schema: nat, r: Recovered, again: Recovered)
    requires s.metadata.Some? && |s.checkpoints| <= 2 && rules.supports(schema)
    requires rules.decodes(Export(rules, r.doc))
    requires RecordByRecord(rules, s, schema, r) && r.kept < |TailOf(s, r.base)|
    requires RecordByRecord(rules, r.store, schema, again)
    ensures again.base == r.frontier
  {
    RepairPublishesTheFrontier(rules, s, schema, r);
    KeptDocumentIsValid(rules, s, schema, r);
    FrontierIsAboveBase(s, r.base, r.kept);
    hide RecordByRecord, Repaired;
    assert Usable(rules, r.store.checkpoints[r.frontier]);
    SelectionIsFrontier(rules, s, r, again.base, schema, again);
  }

  lemma SelectionIsFrontier(rules: Rules, s: Store, r: Recovered, selected: nat, schema: nat, again: Recovered)
    requires RecordByRecord(rules, s, schema, r) && RecordByRecord(rules, r.store, schema, again) && selected == again.base
    requires r.base <= r.frontier && r.frontier in r.store.checkpoints && Usable(rules, r.store.checkpoints[r.frontier])
    requires forall c :: c in r.store.checkpoints && c != r.frontier ==> c in s.checkpoints && r.store.checkpoints[c] == s.checkpoints[c]
    ensures selected == r.frontier
  {
    hide LongestGoodPrefix, Repaired, Usable;
    assert Selects(rules, s, r.base) && Selects(rules, r.store, selected);
  }

  // ----------------------------------------------- what the repair transaction omits

  /** `inspectOutbox` finds every referenced update. */
  ghost predicate OutboxReadable(s: Store) {
    forall id :: id in s.outbox && s.outbox[id].payload.None? ==> s.outbox[id].sequence in s.updates
  }

  /** Repair does not open the outbox: the outbox stays readable exactly when no
      pending entry references an update above the frontier. */
  lemma RepairKeepsOutboxReadableIff(rules: Rules, s: Store, schema: nat, r: Recovered)
    requires s.metadata.Some? && |s.checkpoints| <= 2 && OutboxReadable(s)
    requires RecordByRecord(rules, s, schema, r) && r.kept < |TailOf(s, r.base)|
    ensures OutboxReadable(r.store) <==>
            forall id :: id in s.outbox && s.outbox[id].payload.None? ==> s.outbox[id].sequence <= r.frontier
  {
    RepairPublishesTheFrontier(rules, s, schema, r);
    hide RecordByRecord;
    if OutboxReadable(r.store) {
      forall id | id in s.outbox && s.outbox[id].payload.None? ensures s.outbox[id].sequence <= r.frontier {
        assert id in r.store.outbox;
      }
    }
  }

  /** A repair measures what it leaves: its counters are those of the repaired stores. */
  lemma RepairIsAccounted(s: Store, p: Payload, v: nat, schema: nat, records: map<nat, QuarantineRecord>)
    requires s.metadata.Some?
    ensures RepairCorruptTail(s, p, v, schema, records).Ok?
    ensures Accounted(RepairCorruptTail(s, p, v, schema, records).value)
  {
    hide Newest, TotalBytes, Restrict, UpdatesThrough;
  }

  /** Repair deletes every update above the frontier but quarantines only the records
      it was handed, so an update appended after recovery read the log is dropped
      unless it is among them. */
  lemma RepairQuarantinesWhatItDeletesIff(s: Store, p: Payload, v: nat, schema: nat, records: map<nat, QuarantineRecord>)
    requires s.metadata.Some? && forall q :: q in s.updates ==> UpdateHandle(q) !in s.quarantine
    ensures var after := RepairCorruptTail(s, p, v, schema, records).value;
            (forall q :: q in s.updates && q !in after.updates ==> UpdateHandle(q) in after.quarantine) <==>
            (forall q :: q in s.updates && q > v ==> q in records)
  {
    hide Quarantined, UpdatesThrough, TotalBytes, Newest, UpdatePayloads, CheckpointPayloads, Restrict;
    KeptThrough(s.updates, v);
    forall q ensures UpdateHandle(q) in s.quarantine + Quarantined(records) <==> UpdateHandle(q) in s.quarantine || q in records {
      QuarantinedKeys(records, q);
    }
  }

  lemma QuarantinedKeys(records: map<nat, QuarantineRecord>, q: nat)
    ensures UpdateHandle(q) in Quarantined(records) <==> q in records
  {
  }
}
