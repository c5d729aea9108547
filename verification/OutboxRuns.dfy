/**
 What a synced tab's saved edit leaves in the outbox, in which order entries are framed,
 and which of them an Ack retires, said of the stores alone.
 */
module OutboxRuns {
  import opened Records
  import opened Storage
  import opened History
  import opened DurableLog
  import opened DurableRuns
  import Outbox

  /** The entry under `p`'s digest references a stored update that holds `p`. */
  ghost predicate Waits(s: Store, p: Payload) {
    && Checksum(p) in s.outbox
    && s.outbox[Checksum(p)].payload.None?
    && s.outbox[Checksum(p)].sequence in s.updates
    && s.updates[s.outbox[Checksum(p)].sequence].payload == p
  }

  // ------------------------------------------------------------------ saved and queued

  /** In a synced graph the transaction that saves an update also queues it, beside what
      was queued before; otherwise it leaves the outbox alone. */
  lemma SavedEditIsQueued(sys: System, t: nat, now: nat, replyLost: bool)
    requires Inv(sys) && Enabled(sys, Persist(t, now, replyLost))
    ensures var before, after := sys.store.outbox, Apply(sys, Persist(t, now, replyLost)).store;
            var p := sys.tabs[t].pending.value;
      if sys.tabs[t].remote then
        && Waits(after, p) && after.outbox[Checksum(p)].createdAt == now
        && after.outbox.Keys == before.Keys + {Checksum(p)}
        && forall id :: id in before && id != Checksum(p) ==> after.outbox[id] == before[id]
      else
        after.outbox == before
  {
    hide Faithful;
    var p := sys.tabs[t].pending.value;
    var queue: Option<nat> := if sys.tabs[t].remote then Some(0) else None;
    AppendIsOk(sys, p, queue, now);
    AppendQueues(sys.store, sys.log, p, queue, now);
  }

  /** What the server sent is never sent back. */
  lemma ImportedIsNotQueued(sys: System, t: nat, update: Payload, now: nat)
    requires Inv(sys) && Enabled(sys, Import(t, update, now))
    ensures Apply(sys, Import(t, update, now)).store.outbox == sys.store.outbox
  {
    hide Faithful;
    AppendIsOk(sys, update, None, now);
    AppendQueues(sys.store, sys.log, update, None, now);
  }

  lemma AppendQueues(s: Store, log: Log, p: Payload, queue: Option<nat>, now: nat)
    requires Faithful(s, log)
    ensures var r := AppendUpdate(s, p, queue, now);
      r.Ok? ==>
        if queue.None? then r.value.store.outbox == s.outbox
        else Waits(r.value.store, p) && r.value.store.outbox == s.outbox[Checksum(p) := OutboxRecord(r.value.sequence, queue.value, None, now)]
  {
    hide CheckpointsFaithful, ExactlyRetained, References, ChecksumsUnique, Accounted;
  }

  lemma WaitingResolves(s: Store, log: Log, p: Payload)
    requires References(s) && UpdatesFaithful(s, log) && Checksum(p) in s.outbox
    ensures Waits(s, p)
  {
    assert Resolves(s, Checksum(p));
  }

  /** Over every run: an edit a synced tab saved is in the outbox, with its bytes, in every
      later state until an Ack of bytes that hold all its operations. */
  lemma {:induction false} SavedEditWaitsForItsAck(
    base: set<Op>, states: seq<System>, actions: seq<Action>, i: nat, j: nat)
    requires Run(base, states, actions) && i < j < |states|
    requires actions[i].Persist? && states[i].tabs[actions[i].tab].remote
    ensures var p := states[i].tabs[actions[i].tab].pending.value;
      || Waits(states[j].store, p)
      || exists k :: i < k < j && actions[k].Ack? && p.ops <= actions[k].messageId.payload.ops
    decreases j
  {
    hide Inv, Apply, Waits;
    var p := states[i].tabs[actions[i].tab].pending.value;
    if j == i + 1 {
      RunKeepsInv(base, states, actions, i);
      SavedEditIsQueued(states[i], actions[i].tab, actions[i].now, actions[i].replyLost);
      assert actions[i] == Persist(actions[i].tab, actions[i].now, actions[i].replyLost);
    } else {
      SavedEditWaitsForItsAck(base, states, actions, i, j - 1);
      if Waits(states[j - 1].store, p) {
        StepKeepsWaiting(base, states, actions, j - 1, p);
      }
    }
  }

  lemma StepKeepsWaiting(base: set<Op>, states: seq<System>, actions: seq<Action>, k: nat, p: Payload)
    requires Run(base, states, actions) && k < |actions| && Waits(states[k].store, p)
    ensures Waits(states[k + 1].store, p) || (actions[k].Ack? && p.ops <= actions[k].messageId.payload.ops)
  {
    hide Apply, Enabled, CurrentCheckpoint, Faithful;
    if Checksum(p) in states[k + 1].store.outbox {
      RunKeepsInv(base, states, actions, k + 1);
      InvResolves(states[k + 1], p);
    } else {
      EntryLeavesOnlyWhenDelivered(base, states, actions, k, Checksum(p));
    }
  }

  lemma InvResolves(sys: System, p: Payload)
    requires Inv(sys) && Checksum(p) in sys.store.outbox
    ensures Waits(sys.store, p)
  {
    hide Bounded, CheckpointsFaithful, ExactlyRetained, ChecksumsUnique, Accounted, TabInv, HolderInv, References, UpdatesFaithful;
    WaitingResolves(sys.store, sys.log, p);
  }

  /** `p` is in the log's stores with its bytes. */
  ghost predicate Holds(s: Store, p: Payload) {
    exists q :: q in s.updates && s.updates[q].payload == p
  }

  /** A command leaves exactly its update pending, and touches no store. */
  lemma CommandLeavesItPending(sys: System, t: nat, update: Payload)
    requires Enabled(sys, Execute(t, update))
    ensures var made := Apply(sys, Execute(t, update));
      && made.tabs == sys.tabs[t := sys.tabs[t].(core := sys.tabs[t].core + update.ops, pending := Some(update))]
      && made.store == sys.store && made.holder == sys.holder
  {
  }

  /** Saving makes the log's stores hold what was pending, byte for byte; the tab lets go of
      it then, unless the reply of the transaction was lost. */
  lemma SavedEditIsStored(sys: System, t: nat, now: nat, replyLost: bool)
    requires Inv(sys) && Enabled(sys, Persist(t, now, replyLost))
    ensures var after := Apply(sys, Persist(t, now, replyLost));
      && Holds(after.store, sys.tabs[t].pending.value)
      && t in after.tabs && after.tabs[t].pending == if replyLost then sys.tabs[t].pending else None
  {
    hide Faithful;
    var p := sys.tabs[t].pending.value;
    var queue: Option<nat> := if sys.tabs[t].remote then Some(0) else None;
    AppendIsOk(sys, p, queue, now);
    AppendStores(sys.store, sys.log, p, queue, now);
  }

  lemma AppendStores(s: Store, log: Log, p: Payload, queue: Option<nat>, now: nat)
    requires Faithful(s, log)
    ensures AppendUpdate(s, p, queue, now).Ok? ==> Holds(AppendUpdate(s, p, queue, now).value.store, p)
  {
    hide CheckpointsFaithful, ExactlyRetained, References, ChecksumsUnique, Accounted;
    var r := AppendUpdate(s, p, queue, now);
    if r.Ok? {
      assert r.value.sequence in r.value.store.updates && r.value.store.updates[r.value.sequence].payload == p;
    }
  }

  /** A tab that configured sync queues what it saves for as long as it stays open. */
  lemma SyncedTabStaysSynced(sys: System, a: Action, t: nat)
    requires Inv(sys) && Enabled(sys, a) && t in sys.tabs && t in Apply(sys, a).tabs
    requires !(a.TakeLease? && a.tab == t)
    ensures Apply(sys, a).tabs[t].remote <==> sys.tabs[t].remote || a == ConfigureSync(t)
  {
    hide Faithful, AppendUpdate, LogAppend, InstallCheckpoint, AcknowledgeEach, WithBase, Recovered, TabInv, HolderInv;
  }

  // -------------------------------------------------------------------- in local order

  /** `p` is queued under sequence `q`. */
  ghost predicate QueuedAt(s: Store, q: nat, p: Payload) {
    && q in s.updates && s.updates[q].payload == p
    && exists id :: id in s.outbox && s.outbox[id].sequence == q && q > 0
  }

  /** The pending payloads are those of the referenced sequences, each once, oldest first. */
  lemma PendingIsInLocalOrder(s: Store) returns (order: seq<nat>)
    requires Pinned(s.outbox) <= s.updates.Keys
    ensures |order| == |PendingPayloads(s)|
    ensures forall i, j :: 0 <= i < j < |order| ==> order[i] < order[j]
    ensures forall i :: 0 <= i < |order| ==> QueuedAt(s, order[i], PendingPayloads(s)[i])
    ensures forall id :: id in s.outbox && s.outbox[id].sequence > 0 ==> s.outbox[id].sequence in order
  {
    order := Ascending(Pinned(s.outbox));
    forall i | 0 <= i < |order| ensures QueuedAt(s, order[i], PendingPayloads(s)[i]) {
      assert order[i] in order;
    }
  }

  /** The entries the tab's frame in flight covers after the step that makes it. */
  ghost function CoveredBy(sys: System, t: nat, records: nat, merged: Option<Payload>): seq<Digest>
    requires Enabled(sys, NextFrame(t, records, merged))
  {
    var frame := Apply(sys, NextFrame(t, records, merged)).tabs[t].frame;
    if frame.Some? then frame.value.covers else []
  }

  lemma CoveredByFrame(sys: System, t: nat, records: nat, merged: Option<Payload>)
    requires Enabled(sys, NextFrame(t, records, merged))
    ensures CoveredBy(sys, t, records, merged) == Outbox.FrameOf(PendingPayloads(sys.store), records, merged).covers
  {
    hide Outbox.FrameOf, PendingPayloads;
  }

  /** In a reachable state, the entries a frame covers are the oldest: every entry it leaves
      out references a later update than each entry it covers. */
  lemma FrameCoversTheOldest(sys: System, t: nat, records: nat, merged: Option<Payload>, covered: Digest, left: Digest)
    requires Inv(sys) && Enabled(sys, NextFrame(t, records, merged))
    requires covered in CoveredBy(sys, t, records, merged) && left in sys.store.outbox && left !in CoveredBy(sys, t, records, merged)
    ensures covered in sys.store.outbox && sys.store.outbox[covered].sequence < sys.store.outbox[left].sequence
  {
    hide Inv, Apply, CoveredBy, Outbox.FrameOf, PendingPayloads;
    CoveredByFrame(sys, t, records, merged);
    var s, pending := sys.store, PendingPayloads(sys.store);
    var order := PendingIsInLocalOrder(s);
    var covers := Outbox.FrameOf(pending, records, merged).covers;
    CoversPrefix(pending, records, merged);
    var i :| 0 <= i < |covers| && covers[i] == covered;
    EntryAt(sys, order, left);
    var j :| 0 <= j < |order| && order[j] == s.outbox[left].sequence;
    PayloadIsKey(sys, left, order[j], pending[j]);
    assert |covers| <= j;
    EntryOf(sys, order[i], pending[i]);
  }

  lemma CoversPrefix(pending: seq<Payload>, records: nat, merged: Option<Payload>)
    requires 1 <= records <= |pending|
    ensures var covers := Outbox.FrameOf(pending, records, merged).covers;
            1 <= |covers| <= |pending| && forall i :: 0 <= i < |covers| ==> covers[i] == Checksum(pending[i])
  {
  }

  lemma EntryAt(sys: System, order: seq<nat>, id: Digest)
    requires Inv(sys) && id in sys.store.outbox
    requires forall id :: id in sys.store.outbox && sys.store.outbox[id].sequence > 0 ==> sys.store.outbox[id].sequence in order
    ensures sys.store.outbox[id].sequence in order
  {
    assert Resolves(sys.store, id);
  }

  lemma PayloadIsKey(sys: System, id: Digest, q: nat, p: Payload)
    requires Inv(sys) && id in sys.store.outbox && sys.store.outbox[id].sequence == q && QueuedAt(sys.store, q, p)
    ensures id == Checksum(p)
  {
    assert Resolves(sys.store, id);
  }

  lemma EntryOf(sys: System, q: nat, p: Payload)
    requires Inv(sys) && QueuedAt(sys.store, q, p)
    ensures Checksum(p) in sys.store.outbox && sys.store.outbox[Checksum(p)].sequence == q
  {
    var id :| id in sys.store.outbox && sys.store.outbox[id].sequence == q && q > 0;
    PayloadIsKey(sys, id, q, p);
  }

  // ----------------------------------------------------------------- what an Ack retires

  /** The Ack names the frame in flight. */
  predicate Answers(tab: Tab, messageId: Digest) {
    tab.frame.Some? && tab.frame.value.messageId == messageId
  }

  /** An Ack of the frame in flight retires what that frame covers, any other Ack the entry
      it names.  Nothing else leaves, what stays is as it was, and only the frame that was
      acknowledged is forgotten. */
  lemma AckRetiresExactly(sys: System, t: nat, messageId: Digest, id: Digest)
    requires t in sys.tabs && id in sys.store.outbox
    ensures Enabled(sys, Ack(t, messageId))
    ensures var tab, after := sys.tabs[t], Apply(sys, Ack(t, messageId));
      && (id !in after.store.outbox <==>
            if Answers(tab, messageId) then id in tab.frame.value.covers else id == messageId)
      && (id in after.store.outbox ==> after.store.outbox[id] == sys.store.outbox[id])
      && after.tabs == sys.tabs[t := if Answers(tab, messageId) then tab.(frame := None) else tab]
  {
    hide Acknowledge, Apply;
    var retired := Retired(sys.tabs[t], messageId);
    AckApplied(sys, t, messageId);
    RetiresOnly(sys.store, retired, id);
  }

  lemma AckApplied(sys: System, t: nat, messageId: Digest)
    requires t in sys.tabs
    ensures Apply(sys, Ack(t, messageId)) == Acknowledged(sys, t, messageId)
  {
  }

  lemma RetiresOnly(s: Store, retired: seq<Digest>, id: Digest)
    requires id in s.outbox
    ensures id !in Acknowledge(s, retired).outbox <==> id in retired
    ensures id in Acknowledge(s, retired).outbox ==> Acknowledge(s, retired).outbox[id] == s.outbox[id]
  {
    hide AcknowledgeEach;
    AcknowledgeRemovesOnly(s, AcknowledgeThrough(s), retired);
  }

  // ------------------------------------------------------------------ opening and leaving

  /** A tab that opens shows the whole committed document, has nothing pending and no frame in
      flight; one that takes the lease holds it from then on. */
  lemma OpenedTabIsCurrent(sys: System, a: Action)
    requires Inv(sys) && Enabled(sys, a) && (a.Open? || a.TakeLease?)
    ensures var after := Apply(sys, a);
      && a.tab in after.tabs && after.log == sys.log && after.generation == sys.generation
      && var tab := after.tabs[a.tab];
      && tab.core == Committed(sys.log) && tab.pending.None? && tab.frame.None? && !tab.remote
      && tab.generation == sys.generation
      && (forall u :: u in sys.tabs && u != a.tab ==> u in after.tabs && after.tabs[u] == sys.tabs[u])
      && after.holder == if a.TakeLease? then Some(a.tab) else sys.holder
  {
    hide Faithful, WithBase, Recovered, Committed;
    var store := WithBase(sys.store, a.snapshot, a.schema);
    BaseKeepsFaithful(sys.store, sys.log, a.snapshot, a.schema);
    RecoveredIsCurrent(store, sys.log, sys.generation);
    RecoveredFresh(store, sys.generation);
  }

  lemma RecoveredFresh(s: Store, generation: nat)
    requires s.checkpoints.Keys != {}
    ensures var tab := Recovered(s, generation);
            tab.generation == generation && tab.pending.None? && tab.frame.None? && !tab.remote
  {
  }

  /** A tab that leaves, or stops answering for its lease, frees it and touches no store. */
  lemma LeavingFreesTheLease(sys: System, a: Action)
    requires Enabled(sys, a) && (a.Leave? || a.LoseLease?)
    ensures var after := Apply(sys, a);
      && after.store == sys.store && after.log == sys.log && after.holder != Some(a.tab)
      && (sys.holder != Some(a.tab) ==> after.holder == sys.holder)
      && after.tabs == if a.Leave? then sys.tabs - {a.tab} else sys.tabs
  {
  }

  // ------------------------------------------------------------- adopting server history

  lemma BaseKept(s: Store, snapshot: Payload, schema: nat)
    ensures WithBase(s, snapshot, schema).serverBase == s.serverBase
  {
  }

  lemma AppendKeepsBase(s: Store, p: Payload, queue: Option<nat>, now: nat)
    ensures AppendUpdate(s, p, queue, now).Ok? ==> AppendUpdate(s, p, queue, now).value.store.serverBase == s.serverBase
  {
  }

  lemma {:induction false} AcknowledgeKeepsBase(s: Store, through: nat, ids: seq<Digest>)
    ensures AcknowledgeEach(s, through, ids).serverBase == s.serverBase
    decreases |ids|
  {
    if ids != [] {
      AcknowledgeKeepsBase(s, through, ids[..|ids| - 1]);
    }
  }

  lemma InstallKeepsBase(s: Store, p: Payload, sequence: nat, schema: nat)
    ensures InstallCheckpoint(s, p, sequence, schema).Ok? ==> InstallCheckpoint(s, p, sequence, schema).value.serverBase == s.serverBase
  {
  }

  /** A graph is based on a server from its first replacement on. */
  lemma StepKeepsServerBase(sys: System, a: Action)
    requires Inv(sys) && Enabled(sys, a)
    ensures sys.store.serverBase ==> Apply(sys, a).store.serverBase
    ensures a.Replace? ==> Apply(sys, a).store.serverBase && Apply(sys, a).generation == sys.generation + 1
  {
    hide InstallCheckpoint, AcknowledgeEach, AppendUpdate, LogAppend, WithBase, Recovered, Faithful, TabInv, HolderInv;
    if a.Open? || a.TakeLease? {
      BaseKept(sys.store, a.snapshot, a.schema);
    } else if a.Persist? {
      AppendKeepsBase(sys.store, sys.tabs[a.tab].pending.value, if sys.tabs[a.tab].remote then Some(0) else None, a.now);
    } else if a.Import? {
      AppendKeepsBase(sys.store, a.update, None, a.now);
    } else if a.Compact? {
      InstallKeepsBase(sys.store, a.snapshot, sys.tabs[a.tab].appliedThrough, a.schema);
    } else if a.Ack? {
      AcknowledgeKeepsBase(sys.store, AcknowledgeThrough(sys.store), Retired(sys.tabs[a.tab], a.messageId));
    } else if a.Replace? {
      ReplaceAdopts(sys);
    }
  }

  lemma ReplaceAdopts(sys: System)
    requires Inv(sys) && sys.tabs.Keys != {}
    ensures sys.store.metadata.Some? && sys.store.metadata.value.nextSequence > 0
  {
  }

  /** Local history is given up for a server's at most once in a graph's life. */
  lemma {:induction false} ServerHistoryIsAdoptedOnce(
    base: set<Op>, states: seq<System>, actions: seq<Action>, i: nat, j: nat)
    requires Run(base, states, actions) && i < j < |states| && actions[i].Replace?
    ensures states[j].store.serverBase
    ensures j < |actions| ==> !actions[j].Replace?
    decreases j
  {
    hide Inv, Apply, CurrentCheckpoint;
    RunKeepsInv(base, states, actions, j - 1);
    StepKeepsServerBase(states[j - 1], actions[j - 1]);
    if i < j - 1 {
      ServerHistoryIsAdoptedOnce(base, states, actions, i, j - 1);
    }
  }
}
