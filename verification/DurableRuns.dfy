/**
 What holds in every state of every run of the durable log.
 */
module DurableRuns {
  import opened Records
  import opened Storage
  import opened History
  import opened DurableLog
  import Outbox

  /** Any interleaving of steps from an empty database, with every checkpoint from
      a tab of the current history or below the published frontier. */
  ghost predicate Run(base: set<Op>, states: seq<System>, actions: seq<Action>) {
    && |states| == |actions| + 1
    && states[0] == Start(base)
    && forall i :: 0 <= i < |actions| ==>
        && Enabled(states[i], actions[i])
        && CurrentCheckpoint(states[i], actions[i])
        && states[i + 1] == Apply(states[i], actions[i])
  }

  lemma {:induction false} RunKeepsInv(base: set<Op>, states: seq<System>, actions: seq<Action>, i: nat)
    requires Run(base, states, actions) && i < |states|
    ensures Inv(states[i])
  {
    if i > 0 {
      RunKeepsInv(base, states, actions, i - 1);
      StepKeepsInv(states[i - 1], actions[i - 1]);
    }
  }

  /** No durable edit is lost: each retained generation with the tail above it is
      exactly the committed operations, so both rebuild the same document. */
  lemma NoDurableEditLost(base: set<Op>, states: seq<System>, actions: seq<Action>, i: nat, c: nat)
    requires Run(base, states, actions) && i < |states| && c in states[i].store.checkpoints
    ensures RecoveredFrom(states[i].store, c) == Committed(states[i].log)
    ensures forall d :: d in states[i].store.checkpoints ==> RecoveredFrom(states[i].store, c) == RecoveredFrom(states[i].store, d)
  {
    RunKeepsInv(base, states, actions, i);
    var s := states[i];
    forall d | d in s.store.checkpoints ensures RecoveredFrom(s.store, d) == Committed(s.log) {
      EveryGenerationRecovers(s.store, s.log, d);
    }
  }

  // ------------------------------------------------------- saved edits are kept

  /** Within one history the committed operations only grow. */
  lemma StepKeepsCommitted(sys: System, a: Action)
    requires Inv(sys) && Enabled(sys, a) && CurrentCheckpoint(sys, a)
    ensures Apply(sys, a).generation == sys.generation ==> Committed(sys.log) <= Committed(Apply(sys, a).log)
    ensures Apply(sys, a).generation >= sys.generation
  {
    hide Faithful;
    var p := if a.Persist? then sys.tabs[a.tab].pending.value else if a.Import? then a.update else NO_TAIL;
    if (a.Persist? || a.Import?) && sys.store.metadata.Some? {
      LogAppendGrows(sys.store, sys.log, p);
    }
  }

  lemma LogAppendGrows(s: Store, log: Log, p: Payload)
    requires s.metadata.Some? && Faithful(s, log)
    ensures Committed(log) <= Committed(LogAppend(s, log, p))
    ensures p.ops <= Committed(LogAppend(s, log, p))
  {
    var next := s.metadata.value.nextSequence;
    var existing := FindByChecksum(s.updates, Checksum(p));
    if existing.None? {
      CommittedExtends(log, next, p.ops);
    } else {
      assert s.updates[existing.value].payload == p;
    }
  }

  lemma {:induction false} RunKeepsCommitted(base: set<Op>, states: seq<System>, actions: seq<Action>, i: nat, j: nat)
    requires Run(base, states, actions) && i <= j < |states|
    ensures states[i].generation <= states[j].generation
    ensures states[i].generation == states[j].generation ==> Committed(states[i].log) <= Committed(states[j].log)
    decreases j
  {
    hide Inv, Apply, Enabled;
    if i < j {
      RunKeepsCommitted(base, states, actions, i, j - 1);
      RunKeepsInv(base, states, actions, j - 1);
      StepKeepsCommitted(states[j - 1], actions[j - 1]);
    }
  }

  /** The update a step makes durable, if any. */
  function Saved(sys: System, a: Action): set<Op> {
    match a
    case Persist(t, _, _) => if t in sys.tabs && sys.tabs[t].pending.Some? then sys.tabs[t].pending.value.ops else {}
    case Import(_, update, _) => update.ops
    case _ => {}
  }

  /** An edit once saved is in what either generation rebuilds, in every later state
      of the same history, whatever tabs crashed, compacted or acknowledged since. */
  lemma SavedEditIsRecoverable(base: set<Op>, states: seq<System>, actions: seq<Action>, i: nat, j: nat, c: nat)
    requires Run(base, states, actions) && i < |actions| && i < j < |states|
    requires states[j].generation == states[i + 1].generation && c in states[j].store.checkpoints
    ensures Saved(states[i], actions[i]) <= RecoveredFrom(states[j].store, c)
  {
    RunKeepsInv(base, states, actions, i);
    RunKeepsCommitted(base, states, actions, i + 1, j);
    NoDurableEditLost(base, states, actions, j, c);
    SavedIsCommitted(states[i], actions[i]);
  }

  lemma SavedIsCommitted(sys: System, a: Action)
    requires Inv(sys) && Enabled(sys, a)
    ensures Saved(sys, a) <= Committed(Apply(sys, a).log)
  {
    hide Faithful;
    if a.Persist? || a.Import? {
      var p := if a.Persist? then sys.tabs[a.tab].pending.value else a.update;
      var queue: Option<nat> := if a.Persist? && sys.tabs[a.tab].remote then Some(0) else None;
      assert sys.store.metadata.Some? && sys.store.checkpoints.Keys != {};
      assert AppendUpdate(sys.store, p, queue, a.now).Ok?;
      LogAppendGrows(sys.store, sys.log, p);
    }
  }

  // ------------------------------------------------ retention, accounting, outbox

  /** Stored updates are exactly those above the older generation plus those a
      message references, every message resolves, and every counter is exact. */
  lemma StorageIsExact(base: set<Op>, states: seq<System>, actions: seq<Action>, i: nat)
    requires Run(base, states, actions) && i < |states| && states[i].store.metadata.Some?
    ensures ExactlyRetained(states[i].store, states[i].log)
    ensures References(states[i].store)
    ensures Accounted(states[i].store)
  {
    RunKeepsInv(base, states, actions, i);
  }

  lemma {:induction false} AcknowledgedPrefixIsFaithful(s: Store, log: Log, ids: seq<Digest>, n: nat)
    requires Faithful(s, log) && n <= |ids|
    ensures Faithful(AcknowledgeEach(s, AcknowledgeThrough(s), ids[..n]), log)
    ensures AcknowledgeThrough(AcknowledgeEach(s, AcknowledgeThrough(s), ids[..n])) == AcknowledgeThrough(s)
  {
    AcknowledgeKeepsFaithful(s, log, ids[..n]);
  }

  /** The clamps at zero in `acknowledge` never fire: each removed record was counted. */
  lemma ClampsNeverFire(s: Store, log: Log, ids: seq<Digest>, n: nat)
    requires Faithful(s, log) && n < |ids|
    ensures var before := AcknowledgeEach(s, AcknowledgeThrough(s), ids[..n]);
            var after := AcknowledgeEach(s, AcknowledgeThrough(s), ids[..n + 1]);
            && before.metadata.Some? && after.metadata.Some?
            && after.metadata.value.tailCount == before.metadata.value.tailCount - (|before.updates| - |after.updates|)
            && after.metadata.value.tailBytes
               == before.metadata.value.tailBytes
                  - (TotalBytes(UpdatePayloads(before.updates)) - TotalBytes(UpdatePayloads(after.updates)))
  {
    AcknowledgedPrefixIsFaithful(s, log, ids, n);
    AcknowledgedPrefixIsFaithful(s, log, ids, n + 1);
  }

  lemma {:induction false} AcknowledgeRemovesOnly(s: Store, through: nat, ids: seq<Digest>)
    ensures AcknowledgeEach(s, through, ids).outbox.Keys == s.outbox.Keys - (set i | 0 <= i < |ids| :: ids[i])
    ensures forall id :: id in AcknowledgeEach(s, through, ids).outbox ==>
                           AcknowledgeEach(s, through, ids).outbox[id] == s.outbox[id]
    decreases |ids|
  {
    if ids != [] {
      var front := ids[..|ids| - 1];
      AcknowledgeRemovesOnly(s, through, front);
      assert (set i | 0 <= i < |ids| :: ids[i]) == (set i | 0 <= i < |front| :: front[i]) + {ids[|ids| - 1]};
    }
  }

  /** An Ack removes nothing but what the frame covered or the entry it names. */
  lemma AckRemovesWhatItContains(sys: System, t: nat, messageId: Digest, id: Digest)
    requires Inv(sys) && t in sys.tabs && id in sys.store.outbox
    requires id !in Acknowledged(sys, t, messageId).store.outbox
    ensures id in Retired(sys.tabs[t], messageId)
    ensures id.payload.ops <= messageId.payload.ops
  {
    hide Faithful;
    var retired := Retired(sys.tabs[t], messageId);
    AcknowledgeRemovesOnly(sys.store, AcknowledgeThrough(sys.store), retired);
    assert TabInv(sys, sys.tabs[t]);
    var i :| 0 <= i < |retired| && retired[i] == id;
  }

  lemma OtherStepsKeepTheOutbox(sys: System, a: Action, id: Digest)
    requires Inv(sys) && Enabled(sys, a) && !a.Ack? && id in sys.store.outbox
    ensures id in Apply(sys, a).store.outbox
  {
    hide Faithful, Recounted;
    if a.Compact? {
      InstallKeepsOutbox(sys.store, a.snapshot, sys.tabs[a.tab].appliedThrough, a.schema);
    } else if a.Open? || a.TakeLease? {
      InstallKeepsOutbox(sys.store, a.snapshot, 0, a.schema);
    }
  }

  lemma InstallKeepsOutbox(s: Store, p: Payload, sequence: nat, schema: nat)
    ensures InstallCheckpoint(s, p, sequence, schema).Ok? ==> InstallCheckpoint(s, p, sequence, schema).value.outbox == s.outbox
  {
  }

  /** Over every run an entry leaves the outbox only on an Ack of bytes that hold
      all of its operations. */
  lemma EntryLeavesOnlyWhenDelivered(base: set<Op>, states: seq<System>, actions: seq<Action>, i: nat, id: Digest)
    requires Run(base, states, actions) && i < |actions|
    requires id in states[i].store.outbox && id !in states[i + 1].store.outbox
    ensures actions[i].Ack? && id.payload.ops <= actions[i].messageId.payload.ops
  {
    RunKeepsInv(base, states, actions, i);
    if actions[i].Ack? {
      AckRemovesWhatItContains(states[i], actions[i].tab, actions[i].messageId, id);
    } else {
      OtherStepsKeepTheOutbox(states[i], actions[i], id);
    }
  }

  // --------------------------------------------------------------------- drain

  lemma PendingIsStored(s: Store, log: Log)
    requires References(s) && UpdatesFaithful(s, log)
    ensures Pinned(s.outbox) <= s.updates.Keys
    ensures forall q :: q in Pinned(s.outbox) ==> Checksum(s.updates[q].payload) in s.outbox
    ensures s.outbox.Keys != {} ==> PendingPayloads(s) != []
  {
    forall q | q in Pinned(s.outbox) ensures q in s.updates && Checksum(s.updates[q].payload) in s.outbox {
      var id :| id in s.outbox && s.outbox[id].sequence > 0 && s.outbox[id].sequence == q;
      assert Resolves(s, id);
    }
    if s.outbox.Keys != {} {
      var id :| id in s.outbox;
      assert Resolves(s, id);
      assert s.outbox[id].sequence in Pinned(s.outbox);
      assert |Ascending(Pinned(s.outbox))| > 0;
    }
  }

  lemma FirstCoveredIsPending(s: Store, log: Log, records: nat, merged: Option<Payload>)
    requires Faithful(s, log) && Pinned(s.outbox) <= s.updates.Keys
    requires 1 <= records <= |PendingPayloads(s)|
    ensures var frame := Outbox.FrameOf(PendingPayloads(s), records, merged);
            frame.covers != [] && frame.covers[0] in s.outbox
  {
    PendingIsStored(s, log);
    var order := Ascending(Pinned(s.outbox));
    assert order[0] in order;
    assert PendingPayloads(s)[0] == s.updates[order[0]].payload;
  }

  /** What a frame covers is pending, so its Ack shortens the outbox. */
  lemma RoundShrinksOutbox(s: Store, after: Store, log: Log)
    requires Faithful(s, log) && FrameRound(s, after)
    ensures Faithful(after, log) && |after.outbox| < |s.outbox|
  {
    hide Faithful;
    var records, merged :|
      && 1 <= records <= |PendingPayloads(s)|
      && after == Acknowledge(s, Outbox.FrameOf(PendingPayloads(s), records, merged).covers);
    var covers := Outbox.FrameOf(PendingPayloads(s), records, merged).covers;
    AcknowledgeKeepsFaithful(s, log, covers);
    AcknowledgeRemovesOnly(s, AcknowledgeThrough(s), covers);
    FirstCoveredIsPending(s, log, records, merged);
    assert covers[0] !in after.outbox;
    Shrunk(after.outbox.Keys, s.outbox.Keys);
  }

  lemma {:induction false} Shrunk(small: set<Digest>, big: set<Digest>)
    requires small < big
    ensures |small| < |big|
  {
    assert big == small + (big - small);
    assert big - small != {};
  }

  /** One round of frame and Ack. */
  ghost predicate FrameRound(s: Store, after: Store) {
    && Pinned(s.outbox) <= s.updates.Keys
    && exists records, merged ::
        && 1 <= records <= |PendingPayloads(s)|
        && after == Acknowledge(s, Outbox.FrameOf(PendingPayloads(s), records, merged).covers)
  }

  ghost predicate Rounds(log: Log, stores: seq<Store>) {
    && stores != []
    && Faithful(stores[0], log)
    && forall k :: 0 <= k < |stores| - 1 ==> FrameRound(stores[k], stores[k + 1])
  }

  /** The outbox drains: without new edits there are at most as many rounds as
      pending entries, and as long as an entry is pending there is a frame to send. */
  lemma {:induction false} RoundsDrain(log: Log, stores: seq<Store>)
    requires Rounds(log, stores)
    ensures |stores[|stores| - 1].outbox| + |stores| - 1 <= |stores[0].outbox|
    ensures Faithful(stores[|stores| - 1], log)
    ensures var last := stores[|stores| - 1];
            last.outbox.Keys != {} ==> Pinned(last.outbox) <= last.updates.Keys && PendingPayloads(last) != []
    decreases |stores|
  {
    hide Faithful, FrameRound, PendingPayloads, Pinned;
    var n := |stores| - 1;
    if n > 0 {
      assert Rounds(log, stores[..n]);
      RoundsDrain(log, stores[..n]);
      assert stores[..n][n - 1] == stores[n - 1];
      RoundShrinksOutbox(stores[n - 1], stores[n], log);
    }
    SomethingToSend(stores[n], log);
  }

  lemma SomethingToSend(s: Store, log: Log)
    requires Faithful(s, log)
    ensures s.outbox.Keys != {} ==> Pinned(s.outbox) <= s.updates.Keys && PendingPayloads(s) != []
  {
    PendingIsStored(s, log);
  }

  /** A frame, then the Ack of that frame's message, is one round on the stores. */
  lemma FrameThenAck(sys: System, frame: Action, messageId: Digest)
    requires frame.NextFrame? && Enabled(sys, frame)
    requires var sent := Apply(sys, frame).tabs[frame.tab].frame; sent.Some? && sent.value.messageId == messageId
    ensures var after := Apply(sys, frame); Enabled(after, Ack(frame.tab, messageId))
    ensures FrameRound(sys.store, Apply(Apply(sys, frame), Ack(frame.tab, messageId)).store)
    ensures Apply(Apply(sys, frame), Ack(frame.tab, messageId)).tabs.Keys == sys.tabs.Keys
  {
    hide Outbox.FrameOf, PendingPayloads, Acknowledge, Pinned;
    assert Retired(Apply(sys, frame).tabs[frame.tab], messageId)
        == Outbox.FrameOf(PendingPayloads(sys.store), frame.records, frame.merged).covers;
  }

  /** From state `i` on, a tab alternates frames with their Acks for `rounds` rounds. */
  ghost predicate Sends(states: seq<System>, actions: seq<Action>, i: nat, rounds: nat) {
    && |states| == |actions| + 1 && i + 2 * rounds <= |actions|
    && forall k :: 0 <= k < rounds ==> SendsAt(states, actions, i + 2 * k)
  }

  ghost predicate SendsAt(states: seq<System>, actions: seq<Action>, m: nat)
    requires m + 1 < |actions| < |states|
  {
    && actions[m].NextFrame? && actions[m + 1].Ack? && actions[m + 1].tab == actions[m].tab
    && actions[m].tab in states[m + 1].tabs
    && var sent := states[m + 1].tabs[actions[m].tab].frame;
    sent.Some? && sent.value.messageId == actions[m + 1].messageId
  }

  /** Each round of a run shortens the outbox, so a tab that alternates frames with their
      Acks has emptied it after at most as many rounds as there were entries. */
  lemma {:induction false} RunDrains(base: set<Op>, states: seq<System>, actions: seq<Action>, i: nat, rounds: nat)
    requires Run(base, states, actions) && Sends(states, actions, i, rounds)
    ensures |states[i + 2 * rounds].store.outbox| + rounds <= |states[i].store.outbox|
    decreases rounds
  {
    hide Inv, Apply, Enabled, CurrentCheckpoint, FrameRound;
    if rounds > 0 {
      var m := i + 2 * (rounds - 1);
      RunDrains(base, states, actions, i, rounds - 1);
      RunKeepsInv(base, states, actions, m);
      assert SendsAt(states, actions, m);
      RoundShrinks(states[m], states[m + 1], states[m + 2], actions[m], actions[m + 1]);
    }
  }

  lemma RoundShrinks(sys: System, sent: System, after: System, frame: Action, ack: Action)
    requires Inv(sys) && frame.NextFrame? && Enabled(sys, frame) && sent == Apply(sys, frame)
    requires ack.Ack? && ack.tab == frame.tab && Enabled(sent, ack) && after == Apply(sent, ack)
    requires frame.tab in sent.tabs && sent.tabs[frame.tab].frame.Some?
    requires sent.tabs[frame.tab].frame.value.messageId == ack.messageId
    ensures |after.store.outbox| + 1 <= |sys.store.outbox|
  {
    hide Faithful, FrameRound, Apply;
    FrameThenAck(sys, frame, ack.messageId);
    assert ack == Ack(frame.tab, ack.messageId);
    RoundShrinksOutbox(sys.store, after.store, sys.log);
  }

  /** While an entry waits, any open tab can make the next frame. */
  lemma FrameIsEnabled(sys: System, t: nat)
    requires Inv(sys) && t in sys.tabs && sys.store.outbox.Keys != {}
    ensures Enabled(sys, NextFrame(t, 1, None))
  {
    hide Faithful, PendingPayloads, Pinned;
    SomethingToSend(sys.store, sys.log);
  }

  // -------------------------------------------- a checkpoint of another history

  /** `installCheckpoint` has no history check.  For a tab left over from before a
      replacement the step is safe exactly when its frontier is below the
      published one (and the transaction refuses it) or its document happens to be
      the one it would overwrite. */
  lemma StaleCheckpointIsSafeIff(sys: System, t: nat, snapshot: Payload, schema: nat)
    requires sys.store.metadata.Some?
    requires Inv(sys) && Enabled(sys, Compact(t, snapshot, schema)) && sys.tabs[t].generation < sys.generation
    ensures Inv(Apply(sys, Compact(t, snapshot, schema))) <==>
              || sys.tabs[t].appliedThrough < sys.store.metadata.value.compactedThrough
              || sys.tabs[t].core == Through(sys.log, sys.tabs[t].appliedThrough)
  {
    var a := Compact(t, snapshot, schema);
    var tab := sys.tabs[t];
    assert TabInv(sys, tab);
    if tab.appliedThrough < sys.store.metadata.value.compactedThrough {
      StepKeepsInv(sys, a);
    } else {
      StaleCheckpointLands(sys, t, snapshot, schema);
    }
  }

  lemma StaleCheckpointLands(sys: System, t: nat, snapshot: Payload, schema: nat)
    requires Inv(sys) && Enabled(sys, Compact(t, snapshot, schema)) && sys.tabs[t].generation < sys.generation
    requires sys.tabs[t].appliedThrough == sys.store.metadata.value.compactedThrough
    ensures Inv(Apply(sys, Compact(t, snapshot, schema))) <==> sys.tabs[t].core == Through(sys.log, sys.tabs[t].appliedThrough)
  {
    hide InstallCheckpoint, Through, UpdatesFaithful, ExactlyRetained, References, ChecksumsUnique, Accounted;
    var c := sys.tabs[t].appliedThrough;
    CheckpointLands(sys.store, snapshot, c, schema);
    var after := InstallCheckpoint(sys.store, snapshot, c, schema).value;
    if sys.tabs[t].core == Through(sys.log, c) {
      InstallKeepsFaithful(sys.store, sys.log, snapshot, c, schema);
      StoreStepKeepsTabs(sys, after);
    } else {
      assert after.checkpoints[c].payload.ops != Through(sys.log, c);
    }
  }

  /** A checkpoint at the published frontier is accepted and becomes the newest generation. */
  lemma CheckpointLands(s: Store, p: Payload, c: nat, schema: nat)
    requires s.metadata.Some? && c == s.metadata.value.compactedThrough && c < s.metadata.value.nextSequence
    requires forall d :: d in s.checkpoints ==> d <= c
    ensures var r := InstallCheckpoint(s, p, c, schema);
            && r.Ok? && r.value.metadata.Some?
            && r.value.metadata.value.nextSequence == s.metadata.value.nextSequence
            && r.value.metadata.value.compactedThrough == c
            && c in r.value.checkpoints && r.value.checkpoints[c].payload == p
  {
    hide Newest, Recounted;
    InstallRotates(s, p, c, schema);
    RotationBounds(s.checkpoints.Keys, c);
  }

  /** `maybeCompact` compares its frontier with the metadata before it exports, in a
      transaction of its own.  Were the comparison still true when the checkpoint is
      installed, the step would be safe for any tab. */
  lemma CheckpointAboveFrontierIsSafe(sys: System, t: nat, snapshot: Payload, schema: nat)
    requires Inv(sys) && Enabled(sys, Compact(t, snapshot, schema)) && sys.store.metadata.Some?
    requires sys.tabs[t].appliedThrough > sys.store.metadata.value.compactedThrough
    ensures Inv(Apply(sys, Compact(t, snapshot, schema)))
  {
    hide Faithful;
    assert TabInv(sys, sys.tabs[t]);
    StepKeepsInv(sys, Compact(t, snapshot, schema));
  }

  /** It need not be: a tab that was caught up and had passed that comparison, then lost its
      lease to a holder that adopted a server history, replaces the server's base by its
      old document. */
  lemma CaughtUpReaderOverwritesReplacedBase(
    sys: System, holder: nat, reader: nat, server: Payload, mine: Payload, epoch: nat, base: nat, schema: nat, now: nat)
    requires Inv(sys) && Enabled(sys, Replace(holder, server, epoch, base, schema, now)) && reader != holder
    requires Enabled(sys, Compact(reader, mine, schema)) && sys.tabs[reader].generation == sys.generation
    requires sys.tabs[reader].appliedThrough == sys.store.metadata.value.nextSequence - 1
    requires sys.tabs[reader].appliedThrough > sys.store.metadata.value.compactedThrough
    ensures var replaced := Apply(sys, Replace(holder, server, epoch, base, schema, now));
            && Inv(replaced)
            && Enabled(replaced, Compact(reader, mine, schema))
            && (Inv(Apply(replaced, Compact(reader, mine, schema))) <==> mine.ops == server.ops)
  {
    hide Faithful, ReplaceHistory, Apply, Through;
    StepKeepsInv(sys, Replace(holder, server, epoch, base, schema, now));
    var replaced := Apply(sys, Replace(holder, server, epoch, base, schema, now));
    ReplacedReader(sys, holder, reader, server, epoch, base, schema, now);
    ApplyReplace(sys, holder, server, epoch, base, schema, now);
    StaleCheckpointIsSafeIff(replaced, reader, mine, schema);
  }

  lemma ApplyReplace(sys: System, holder: nat, server: Payload, epoch: nat, base: nat, schema: nat, now: nat)
    requires Enabled(sys, Replace(holder, server, epoch, base, schema, now))
    ensures Apply(sys, Replace(holder, server, epoch, base, schema, now))
         == Replaced(sys, holder, server, epoch, base, schema, now)
  {
  }

  lemma ReplacedReader(
    sys: System, holder: nat, reader: nat, server: Payload, epoch: nat, base: nat, schema: nat, now: nat)
    requires sys.store.metadata.Some? && sys.store.metadata.value.nextSequence > 0
    requires holder in sys.tabs && reader in sys.tabs && reader != holder
    requires sys.tabs[reader].appliedThrough == sys.store.metadata.value.nextSequence - 1
    ensures var replaced := Replaced(sys, holder, server, epoch, base, schema, now);
            && replaced.tabs[reader] == sys.tabs[reader]
            && replaced.generation == sys.generation + 1
            && replaced.store.metadata.value.compactedThrough == sys.tabs[reader].appliedThrough
            && Through(replaced.log, sys.tabs[reader].appliedThrough) == server.ops
  {
  }
}
