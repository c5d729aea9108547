/**
 Opening a graph reads the checkpoints in one transaction and the updates above the
 chosen one in another, so other tabs may save, compact and acknowledge in between.
 */
module SplitReads {
  import opened Records
  import opened Storage
  import opened History
  import opened DurableLog
  import opened DurableRuns

  /** A generation read from one state of the stores, with the tail read from a later one. */
  function SplitRead(first: Store, second: Store, c: nat): set<Op>
    requires c in first.checkpoints
  {
    first.checkpoints[c].payload.ops + StoredAbove(second, c)
  }

  // ------------------------------------------------------- the log is append-only

  function NextSequence(s: Store): nat {
    if s.metadata.Some? then s.metadata.value.nextSequence else 0
  }

  /** Below the sequences already given out the log stays as it is. */
  ghost predicate Extends(a: System, b: System) {
    && a.log.base == b.log.base && NextSequence(a.store) <= NextSequence(b.store)
    && forall q :: 0 <= q < NextSequence(a.store) ==>
        && (q in a.log.entries <==> q in b.log.entries)
        && (q in a.log.entries ==> a.log.entries[q] == b.log.entries[q])
  }

  lemma SameLogExtends(a: System, b: System)
    requires a.log == b.log && NextSequence(a.store) <= NextSequence(b.store)
    ensures Extends(a, b)
  {
  }

  lemma AppendExtendsLog(sys: System, p: Payload, queue: Option<nat>, now: nat, after: System)
    requires Bounded(sys.store, sys.log) && UpdatesFaithful(sys.store, sys.log) && AppendUpdate(sys.store, p, queue, now).Ok?
    requires after.store == AppendUpdate(sys.store, p, queue, now).value.store && after.log == LogAppended(sys, p)
    ensures Extends(sys, after)
  {
    hide AppendUpdate;
    AppendMoves(sys.store, sys.log, p, queue, now);
  }

  lemma AppendStepExtends(sys: System, a: Action)
    requires Inv(sys) && Enabled(sys, a) && (a.Persist? || a.Import?)
    ensures Extends(sys, Apply(sys, a))
  {
    hide AppendUpdate, LogAppend, Extends, ExactlyRetained, References, Accounted, ChecksumsUnique, CheckpointsFaithful;
    hide Bounded, UpdatesFaithful, HolderInv, TabInv;
    var p := if a.Persist? then sys.tabs[a.tab].pending.value else a.update;
    var queue: Option<nat> := if a.Persist? && sys.tabs[a.tab].remote then Some(0) else None;
    AppendIsOk(sys, p, queue, a.now);
    AppendExtendsLog(sys, p, queue, a.now, Apply(sys, a));
  }

  lemma StepExtends(sys: System, a: Action)
    requires Inv(sys) && Enabled(sys, a) && CurrentCheckpoint(sys, a) && Apply(sys, a).generation == sys.generation
    ensures Extends(sys, Apply(sys, a))
  {
    hide Inv, InstallCheckpoint, AcknowledgeEach, WithBase, Recovered, Extends, AppendUpdate, LogAppend;
    if a.Persist? || a.Import? {
      AppendStepExtends(sys, a);
    } else {
      if a.Open? || a.TakeLease? {
        BaseMoves(sys, a.snapshot, a.schema);
      } else if a.Compact? {
        var through := sys.tabs[a.tab].appliedThrough;
        if InstallCheckpoint(sys.store, a.snapshot, through, a.schema).Ok? {
          InstallMoves(sys.store, a.snapshot, through, a.schema);
        }
      } else if a.Ack? {
        AcknowledgeMoves(sys.store, Retired(sys.tabs[a.tab], a.messageId));
      }
      SameLogExtends(sys, Apply(sys, a));
    }
  }

  lemma BaseMoves(sys: System, snapshot: Payload, schema: nat)
    requires Inv(sys) && sys.store.metadata.Some? && (sys.store.checkpoints.Keys == {} ==> snapshot.ops == sys.log.base)
    ensures var after := WithBase(sys.store, snapshot, schema);
            NextSequence(after) == NextSequence(sys.store)
  {
    hide UpdatesFaithful, CheckpointsFaithful, ExactlyRetained, References, ChecksumsUnique, Accounted, WithBase;
    BaseKeepsFaithful(sys.store, sys.log, snapshot, schema);
  }

  lemma {:induction false} RunExtends(base: set<Op>, states: seq<System>, actions: seq<Action>, i: nat, j: nat)
    requires Run(base, states, actions) && i <= j < |states| && states[i].generation == states[j].generation
    ensures Extends(states[i], states[j])
    decreases j
  {
    hide Inv, Apply, Enabled, CurrentCheckpoint;
    if i < j {
      RunKeepsCommitted(base, states, actions, i, j - 1);
      RunKeepsCommitted(base, states, actions, j - 1, j);
      RunExtends(base, states, actions, i, j - 1);
      RunKeepsInv(base, states, actions, j - 1);
      StepExtends(states[j - 1], actions[j - 1]);
    }
  }

  lemma ExtendedThrough(a: System, b: System, c: nat)
    requires Extends(a, b) && c < NextSequence(a.store)
    ensures Through(a.log, c) == Through(b.log, c)
  {
    forall op ensures op in Through(a.log, c) <==> op in Through(b.log, c) {
      if q :| q in a.log.entries && q <= c && op in a.log.entries[q] {
        assert q in b.log.entries && op in b.log.entries[q];
      }
      if q :| q in b.log.entries && q <= c && op in b.log.entries[q] {
        assert q in a.log.entries && op in a.log.entries[q];
      }
    }
  }

  // ------------------------------------------------------- what the two reads give

  /** The entries above the generation read that were pruned before the tail was. */
  ghost predicate Dropped(sys: System, c: nat, q: nat) {
    q in sys.log.entries && c < q <= AcknowledgeThrough(sys.store) && q !in Pinned(sys.store.outbox)
  }

  lemma ReadOfLog(s: Store, log: Log, c: nat, read: set<Op>)
    requires UpdatesFaithful(s, log) && ExactlyRetained(s, log) && read == Through(log, c) + StoredAbove(s, c)
    ensures read <= Committed(log)
    ensures read == Committed(log) <==>
            forall q :: q in log.entries && c < q <= AcknowledgeThrough(s) && q !in Pinned(s.outbox) ==> log.entries[q] <= read
  {
    hide AcknowledgeThrough, Pinned;
    forall op | op in read ensures op in Committed(log) {
      if q :| q in s.updates && q > c && op in s.updates[q].payload.ops {
        assert op in log.entries[q];
      }
    }
    if forall q :: q in log.entries && c < q <= AcknowledgeThrough(s) && q !in Pinned(s.outbox) ==> log.entries[q] <= read {
      forall op | op in Committed(log) ensures op in read {
        if op !in log.base {
          var q :| q in log.entries && op in log.entries[q];
          if q > c && q in s.updates {
            assert op in s.updates[q].payload.ops;
          }
        }
      }
    }
  }

  /** Within one history the two reads never give an operation that was not committed, and
      they give all of them if and only if whatever was pruned in between is also carried
      by what was read.  Nothing can be missing while the second state still needs
      updates from the generation read on. */
  lemma SplitReadIsCurrentIff(base: set<Op>, states: seq<System>, actions: seq<Action>, i: nat, j: nat, c: nat)
    requires Run(base, states, actions) && i <= j < |states| && states[i].generation == states[j].generation
    requires c in states[i].store.checkpoints
    ensures var read, now := SplitRead(states[i].store, states[j].store, c), states[j];
      && read <= Committed(now.log)
      && (read == Committed(now.log) <==> forall q :: Dropped(now, c, q) ==> now.log.entries[q] <= read)
      && (AcknowledgeThrough(now.store) <= c ==> read == Committed(now.log))
  {
    hide AcknowledgeThrough, Pinned, Through, Committed, StoredAbove, References, Accounted, ChecksumsUnique, Apply, Enabled, Run;
    RunKeepsInv(base, states, actions, i);
    RunKeepsInv(base, states, actions, j);
    RunExtends(base, states, actions, i, j);
    ReadGeneration(states[i], states[j], c);
    ReadOfLog(states[j].store, states[j].log, c, SplitRead(states[i].store, states[j].store, c));
  }

  lemma ReadGeneration(a: System, b: System, c: nat)
    requires Inv(a) && Inv(b) && Extends(a, b) && c in a.store.checkpoints
    ensures b.store.metadata.Some? && a.store.checkpoints[c].payload.ops == Through(b.log, c)
  {
    hide Through, References, Accounted, ChecksumsUnique, UpdatesFaithful, ExactlyRetained, HolderInv;
    assert c < NextSequence(a.store);
    ExtendedThrough(a, b, c);
  }

  // --------------------------------------------------- how much may come in between

  /** A rotation keeps the generation that was the newest. */
  lemma NewestStays(keys: set<nat>, sequence: nat)
    requires keys != {}
    ensures Greatest(keys) in Newest(keys + {sequence})
  {
    hide Newest, Greatest;
    var put, c := keys + {sequence}, Greatest(keys);
    if c !in Newest(put) {
      var kept := Newest(put);
      assert kept <= {sequence};
      assert |put| > 2;
      FewerThanTwo(kept, sequence);
    }
  }

  lemma FewerThanTwo(kept: set<nat>, x: nat)
    requires kept <= {x}
    ensures |kept| <= 1
  {
    if kept != {} {
      assert kept == {x};
    }
  }

  /** One step rotates out at most one generation, never the newest. */
  lemma StepKeepsNewest(sys: System, a: Action)
    requires Enabled(sys, a) && sys.store.checkpoints.Keys != {} && Apply(sys, a).generation == sys.generation
    ensures Greatest(sys.store.checkpoints.Keys) in Apply(sys, a).store.checkpoints
  {
    hide Greatest, AppendUpdate, LogAppend, Recovered, Acknowledge, InstallCheckpoint, OpenGraph;
    match a
    case CreateGraph(schema) => OpenKeepsGenerations(sys.store, schema);
    case Persist(t, now, _) =>
      AppendKeepsGenerations(sys.store, sys.tabs[t].pending.value, if sys.tabs[t].remote then Some(0) else None, now);
    case Import(t, update, now) => AppendKeepsGenerations(sys.store, update, None, now);
    case Compact(t, snapshot, schema) => InstallKeepsNewest(sys.store, snapshot, sys.tabs[t].appliedThrough, schema);
    case Ack(t, messageId) => AcknowledgeMoves(sys.store, Retired(sys.tabs[t], messageId));
    case _ =>
  }

  lemma OpenKeepsGenerations(s: Store, schema: nat)
    ensures OpenGraph(s, schema).checkpoints == s.checkpoints
  {
  }

  lemma AppendKeepsGenerations(s: Store, p: Payload, queue: Option<nat>, now: nat)
    ensures AppendUpdate(s, p, queue, now).Ok? ==> AppendUpdate(s, p, queue, now).value.store.checkpoints == s.checkpoints
  {
  }

  lemma InstallKeepsNewest(s: Store, p: Payload, sequence: nat, schema: nat)
    requires s.checkpoints.Keys != {}
    ensures var r := InstallCheckpoint(s, p, sequence, schema);
            r.Ok? ==> Greatest(s.checkpoints.Keys) in r.value.checkpoints
  {
    hide Newest, Greatest, Recounted;
    NewestStays(s.checkpoints.Keys, sequence);
    var put := s.checkpoints[sequence := CheckpointRecord(schema, Checksum(p), p)];
    assert put.Keys == s.checkpoints.Keys + {sequence};
    RecountedCheckpoints(s, p, sequence, schema);
  }

  lemma RecountedCheckpoints(s: Store, p: Payload, sequence: nat, schema: nat)
    ensures var r := InstallCheckpoint(s, p, sequence, schema);
            r.Ok? ==>
              var put := s.checkpoints[sequence := CheckpointRecord(schema, Checksum(p), p)];
              r.value.checkpoints == Restrict(put, Newest(put.Keys))
  {
    hide Newest, Restrict, RetainUpdates;
  }

  lemma {:induction false} GenerationsUnchanged(states: seq<System>, i: nat, j: nat)
    requires i <= j < |states|
    requires forall m :: i <= m < j ==> states[m + 1].store.checkpoints == states[m].store.checkpoints
    ensures states[j].store.checkpoints == states[i].store.checkpoints
    decreases j
  {
    if i < j {
      GenerationsUnchanged(states, i, j - 1);
    }
  }

  /** With at most one rotation in between, whatever else happens, an open that started
      from the newest generation reads exactly the committed document. */
  lemma OneRotationBetweenIsSafe(base: set<Op>, states: seq<System>, actions: seq<Action>, i: nat, k: nat, j: nat)
    requires Run(base, states, actions) && i <= k < j < |states| && states[i].generation == states[j].generation
    requires states[i].store.checkpoints.Keys != {}
    requires forall m :: i <= m < j && m != k ==> states[m + 1].store.checkpoints == states[m].store.checkpoints
    ensures var c := Greatest(states[i].store.checkpoints.Keys);
            SplitRead(states[i].store, states[j].store, c) == Committed(states[j].log)
  {
    hide Inv, Apply, Enabled, CurrentCheckpoint, Greatest, Committed, SplitRead, AcknowledgeThrough;
    var c := Greatest(states[i].store.checkpoints.Keys);
    GenerationsUnchanged(states, i, k);
    GenerationsUnchanged(states, k + 1, j);
    RunKeepsCommitted(base, states, actions, i, k);
    RunKeepsCommitted(base, states, actions, k, k + 1);
    RunKeepsCommitted(base, states, actions, k + 1, j);
    StepKeepsNewest(states[k], actions[k]);
    LeastNeeded(states[j].store, c);
    SplitReadIsCurrentIff(base, states, actions, i, j, c);
  }

  lemma LeastNeeded(s: Store, c: nat)
    requires c in s.checkpoints
    ensures AcknowledgeThrough(s) <= c
  {
  }
}
