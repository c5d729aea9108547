/**
 Two runs of the protocol at which it falls short.

 In the first a checkpoint loses a server history: the holder saves an edit, passes the
 comparison `maybeCompact` makes before it exports, and goes quiet; a second tab takes the
 lease and adopts the server's document; then the first tab's checkpoint arrives.

 In the second a reader opens: it reads the checkpoints, the holder saves and compacts
 twice, and only then the reader reads the updates.
 */
module DurableWitnesses {
  import opened Records
  import opened Storage
  import opened History
  import opened DurableLog
  import opened DurableRuns
  import opened SplitReads

  const BLANK := Payload({}, [0])
  const EDIT := Payload({Op(1, 0)}, [1])
  const SERVER := Payload({Op(2, 0)}, [2])

  const TAKEOVER: seq<Action> :=
    [CreateGraph(1), TakeLease(1, BLANK, 1), Execute(1, EDIT), Persist(1, 0, false), LoseLease(1),
     TakeLease(2, BLANK, 1), Replace(2, SERVER, 1, 0, 1, 0)]

  /** The stores before the replacement: no message waits and no server history was adopted. */
  ghost predicate Plain(s: Store, next: nat) {
    && s.metadata.Some? && s.metadata.value.nextSequence == next && s.metadata.value.compactedThrough == 0
    && s.outbox == map[] && !s.serverBase && 0 in s.checkpoints
  }

  ghost predicate Created(sys: System) {
    Plain(sys.store, 1) && sys.store.updates == map[] && sys.store.checkpoints.Keys == {0}
    && sys.store.checkpoints[0].payload == BLANK && sys.tabs == map[1 := Tab(0, {}, 0, None, false, None)]
    && sys.holder == Some(1) && sys.generation == 0 && sys.log == Log({}, map[])
  }

  ghost predicate Edited(sys: System, holder: Option<nat>) {
    Plain(sys.store, 2) && sys.tabs == map[1 := Tab(0, EDIT.ops, 1, None, false, None)]
    && sys.holder == holder && sys.generation == 0
  }

  ghost predicate TakenOver(sys: System) {
    Plain(sys.store, 2) && sys.tabs.Keys == {1, 2} && sys.tabs[1] == Tab(0, EDIT.ops, 1, None, false, None)
    && sys.tabs[2].pending.None? && sys.holder == Some(2) && sys.generation == 0
  }

  lemma FirstBase(s: Store)
    requires s == OpenGraph(EMPTY, 1)
    ensures var after := WithBase(s, BLANK, 1);
      && Plain(after, 1) && after.updates == map[]
      && after.checkpoints == map[0 := CheckpointRecord(1, Checksum(BLANK), BLANK)]
  {
    hide Newest, Least, TotalBytes, UpdatePayloads, CheckpointPayloads, Pinned;
    var record := CheckpointRecord(1, Checksum(BLANK), BLANK);
    var put: map<nat, CheckpointRecord> := map[0 := record];
    assert s.checkpoints[0 := record] == put;
    assert Restrict(put, {0}) == put;
    assert RetainUpdates(map[], Least(0, {0}), Pinned(s.outbox)) == map[];
  }

  lemma FirstRecovery(s: Store)
    requires Faithful(s, Log({}, map[])) && Plain(s, 1) && s.updates == map[] && s.checkpoints.Keys == {0}
    ensures Recovered(s, 0) == Tab(0, {}, 0, None, false, None)
  {
    hide Faithful;
    RecoveredIsCurrent(s, Log({}, map[]), 0);
    RecoveredIsClean(s, 0);
    assert Committed(Log({}, map[])) == {};
  }

  /** The graph is created and the first tab holds the lease. */
  lemma Creates() returns (s1: System, s2: System)
    ensures Enabled(Start({}), TAKEOVER[0]) && s1 == Apply(Start({}), TAKEOVER[0])
    ensures Enabled(s1, TAKEOVER[1]) && s2 == Apply(s1, TAKEOVER[1]) && Created(s2)
  {
    hide Faithful, WithBase, Recovered;
    s1 := Apply(Start({}), TAKEOVER[0]);
    FirstBase(s1.store);
    StepKeepsInv(Start({}), TAKEOVER[0]);
    s2 := Apply(s1, TAKEOVER[1]);
    StepKeepsInv(s1, TAKEOVER[1]);
    FirstRecovery(s2.store);
  }

  /** It saves an edit and loses the lease. */
  lemma Edits(s2: System) returns (s3: System, s4: System, s5: System)
    requires Created(s2)
    ensures Enabled(s2, TAKEOVER[2]) && s3 == Apply(s2, TAKEOVER[2])
    ensures Enabled(s3, TAKEOVER[3]) && s4 == Apply(s3, TAKEOVER[3])
    ensures Enabled(s4, TAKEOVER[4]) && s5 == Apply(s4, TAKEOVER[4]) && Edited(s5, None)
  {
    s3 := Apply(s2, TAKEOVER[2]);
    assert s3.tabs[1].core == EDIT.ops;
    s4 := Apply(s3, TAKEOVER[3]);
    assert s4.tabs[1] == Tab(0, EDIT.ops, 1, None, false, None);
    assert s4.tabs == map[1 := s4.tabs[1]];
    s5 := Apply(s4, TAKEOVER[4]);
  }

  /** A second tab takes the lease. */
  lemma TakesOver(s5: System) returns (s6: System)
    requires Edited(s5, None)
    ensures Enabled(s5, TAKEOVER[5]) && s6 == Apply(s5, TAKEOVER[5]) && TakenOver(s6)
  {
    hide Recovered;
    s6 := Apply(s5, TAKEOVER[5]);
    assert s5.store.checkpoints.Keys != {};
    RecoveredIsClean(s5.store, 0);
  }

  /** Every action of `TAKEOVER` is one the code allows, the run is as safe as any other,
      and one more checkpoint, exported before the takeover, makes a later open rebuild the
      old document in place of the committed one. */
  lemma LateCheckpointLosesServerHistory() returns (states: seq<System>)
    ensures Run({}, states, TAKEOVER)
    ensures var passed, last := states[5], states[7];
      && passed.store.metadata.Some? && 1 in passed.tabs
      && passed.tabs[1].appliedThrough > passed.store.metadata.value.compactedThrough
      && Inv(last) && Enabled(last, Compact(1, EDIT, 1)) && last.tabs[1] == passed.tabs[1]
      && var broken := Apply(last, Compact(1, EDIT, 1));
      && !Inv(broken) && 1 in broken.store.checkpoints
      && Committed(broken.log) == SERVER.ops && RecoveredFrom(broken.store, 1) == EDIT.ops
  {
    hide Apply, Inv, Enabled;
    var s1, s2 := Creates();
    var s3, s4, s5 := Edits(s2);
    var s6 := TakesOver(s5);
    var s7 := Replaces(s6);
    states := [Start({}), s1, s2, s3, s4, s5, s6, s7];
    assert Run({}, states, TAKEOVER);
    RunKeepsInv({}, states, TAKEOVER, 6);
    RunKeepsInv({}, states, TAKEOVER, 7);
    CheckpointArrives(s6, s7);
  }

  lemma Replaces(s6: System) returns (s7: System)
    requires TakenOver(s6)
    ensures Enabled(s6, TAKEOVER[6]) && s7 == Apply(s6, TAKEOVER[6])
    ensures s7.tabs.Keys == {1, 2} && s7.tabs[1] == s6.tabs[1] && s7.generation == 1
    ensures s7.store.metadata.Some? && s7.store.metadata.value.nextSequence == 2 && s7.store.metadata.value.compactedThrough == 1
    ensures s7.store.updates == map[] && s7.store.checkpoints.Keys == {1} && s7.log == Log(SERVER.ops, map[])
  {
    s7 := Apply(s6, TAKEOVER[6]);
  }

  lemma CheckpointArrives(s6: System, s7: System)
    requires TakenOver(s6) && Inv(s6) && Inv(s7) && Enabled(s6, TAKEOVER[6]) && s7 == Apply(s6, TAKEOVER[6])
    ensures Enabled(s7, Compact(1, EDIT, 1))
    ensures var broken := Apply(s7, Compact(1, EDIT, 1));
      && !Inv(broken) && 1 in broken.store.checkpoints
      && Committed(broken.log) == SERVER.ops && RecoveredFrom(broken.store, 1) == EDIT.ops
  {
    hide Inv, InstallCheckpoint;
    var _ := Replaces(s6);
    StaleCheckpointIsSafeIff(s7, 1, EDIT, 1);
    CheckpointLands(s7.store, EDIT, 1, 1);
    InstallKeepsNoUpdate(s7.store, EDIT, 1, 1);
    assert Op(1, 0) in EDIT.ops && Op(1, 0) !in Through(s7.log, 1);
  }

  lemma InstallKeepsNoUpdate(s: Store, p: Payload, sequence: nat, schema: nat)
    requires s.updates == map[] && InstallCheckpoint(s, p, sequence, schema).Ok?
    ensures InstallCheckpoint(s, p, sequence, schema).value.updates == map[]
  {
  }

  // --------------------------------------------------- two checkpoints between two reads

  const MORE := Payload({Op(1, 1)}, [3])

  const ROTATIONS: seq<Action> :=
    [CreateGraph(1), TakeLease(1, BLANK, 1), Execute(1, EDIT), Persist(1, 0, false), Compact(1, Payload(EDIT.ops, [4]), 1),
     Execute(1, MORE), Persist(1, 0, false), Compact(1, Payload(EDIT.ops + MORE.ops, [5]), 1)]

  /** The first tab alone is open, holds the lease and has saved everything. */
  ghost predicate Settled(sys: System, next: nat, core: set<Op>, updates: map<nat, UpdateRecord>, generations: set<nat>) {
    && next > 0 && sys.store.metadata.Some?
    && sys.store.metadata.value.nextSequence == next && sys.store.metadata.value.compactedThrough < next
    && sys.store.updates == updates && sys.store.checkpoints.Keys == generations && sys.store.outbox == map[]
    && sys.tabs == map[1 := Tab(0, core, next - 1, None, false, None)]
    && sys.holder == Some(1) && sys.generation == 0
  }

  lemma Saves(sys: System, p: Payload, next: nat, core: set<Op>, updates: map<nat, UpdateRecord>, generations: set<nat>)
    returns (pending: System, saved: System)
    requires Settled(sys, next, core, updates, generations) && p.bytes != []
    requires forall q :: q in updates ==> updates[q].checksum != Checksum(p)
    ensures Enabled(sys, Execute(1, p)) && pending == Apply(sys, Execute(1, p)) && pending.generation == 0
    ensures 1 in pending.tabs && pending.tabs[1].pending == Some(p)
    ensures Enabled(pending, Persist(1, 0, false)) && saved == Apply(pending, Persist(1, 0, false)) && saved.generation == 0
    ensures Settled(saved, next + 1, core + p.ops, updates[next := UpdateRecord(Checksum(p), p)], generations)
  {
    pending := Apply(sys, Execute(1, p));
    assert pending.tabs == map[1 := Tab(0, core + p.ops, next - 1, Some(p), false, None)];
    saved := Apply(pending, Persist(1, 0, false));
    assert saved.tabs[1] == Tab(0, core + p.ops, next, None, false, None);
    assert saved.tabs == map[1 := saved.tabs[1]];
  }

  lemma InstallSettles(s: Store, p: Payload, sequence: nat)
    requires s.metadata.Some? && s.outbox == map[]
    requires s.metadata.value.compactedThrough <= sequence < s.metadata.value.nextSequence
    ensures var r, kept := InstallCheckpoint(s, p, sequence, 1), Newest(s.checkpoints.Keys + {sequence});
      && r.Ok? && r.value.metadata.Some?
      && r.value.metadata.value.nextSequence == s.metadata.value.nextSequence
      && r.value.metadata.value.compactedThrough == sequence
      && r.value.updates == RetainUpdates(s.updates, Least(sequence, kept), {})
      && r.value.checkpoints.Keys == kept && r.value.outbox == map[]
  {
    hide Newest, Least, TotalBytes, RetainUpdates, UpdatePayloads, CheckpointPayloads;
    var put := s.checkpoints[sequence := CheckpointRecord(1, Checksum(p), p)];
    assert put.Keys == s.checkpoints.Keys + {sequence};
    assert Restrict(put, Newest(put.Keys)).Keys == Newest(put.Keys);
    assert Pinned(s.outbox) == {};
  }

  lemma Compacts(sys: System, p: Payload, next: nat, updates: map<nat, UpdateRecord>, generations: set<nat>)
    returns (after: System)
    requires Settled(sys, next, p.ops, updates, generations)
    ensures Enabled(sys, Compact(1, p, 1)) && CurrentCheckpoint(sys, Compact(1, p, 1)) && after == Apply(sys, Compact(1, p, 1))
    ensures var kept := Newest(generations + {next - 1});
            Settled(after, next, p.ops, RetainUpdates(updates, Least(next - 1, kept), {}), kept)
  {
    hide Newest, Least, InstallCheckpoint, RetainUpdates, Apply;
    InstallSettles(sys.store, p, next - 1);
    after := Apply(sys, Compact(1, p, 1));
    ApplyCompact(sys, 1, p);
  }

  lemma ApplyCompact(sys: System, t: nat, p: Payload)
    requires Enabled(sys, Compact(t, p, 1)) && InstallCheckpoint(sys.store, p, sys.tabs[t].appliedThrough, 1).Ok?
    ensures Apply(sys, Compact(t, p, 1)) == sys.(store := InstallCheckpoint(sys.store, p, sys.tabs[t].appliedThrough, 1).value)
  {
    hide InstallCheckpoint;
  }

  /** Of three generations the two newest stay. */
  lemma TopTwo(kept: set<nat>)
    requires kept <= {0, 1, 2} && |kept| == 2
    requires forall k, dropped :: k in kept && dropped in {0, 1, 2} && dropped !in kept ==> dropped < k
    ensures kept == {1, 2}
  {
    var keys: set<nat> := {0, 1, 2};
    assert |keys - kept| == 1;
    var dropped :| dropped in keys - kept;
    if dropped != 0 {
      FewerThanTwo(kept, 2);
    }
    var newer: set<nat> := {1, 2};
    assert kept + (newer - kept) == newer;
  }

  lemma Rotates()
    ensures Newest({0} + {1}) == {0, 1} && Least(1, {0, 1}) == 0
    ensures Newest({0, 1} + {2}) == {1, 2} && Least(2, {1, 2}) == 1
  {
    hide Newest, Least;
    var two: set<nat> := {0, 1};
    var three: set<nat> := {0, 1, 2};
    assert {0} + {1} == two && two + {2} == three;
    assert |two| == 2 && |three| == 3;
    TopTwo(Newest(three));
  }

  const FIRST := UpdateRecord(Checksum(EDIT), EDIT)
  const SECOND := UpdateRecord(Checksum(MORE), MORE)

  lemma CreatedIsSettled(s2: System)
    requires Created(s2)
    ensures Settled(s2, 1, {}, map[], {0})
  {
  }

  lemma RotatesOnce(s2: System) returns (s3: System, s4: System, s5: System)
    requires Created(s2)
    ensures Enabled(s2, ROTATIONS[2]) && s3 == Apply(s2, ROTATIONS[2])
    ensures 1 in s3.tabs && s3.tabs[1].pending == Some(EDIT)
    ensures Enabled(s3, ROTATIONS[3]) && s4 == Apply(s3, ROTATIONS[3]) && s4.generation == 0
    ensures Enabled(s4, ROTATIONS[4]) && CurrentCheckpoint(s4, ROTATIONS[4]) && s5 == Apply(s4, ROTATIONS[4])
    ensures Settled(s5, 2, EDIT.ops, map[1 := FIRST], {0, 1})
  {
    hide Apply, Enabled, CurrentCheckpoint, Newest, Least, Settled, Created;
    CreatedIsSettled(s2);
    s3, s4 := Saves(s2, EDIT, 1, {}, map[], {0});
    assert {} + EDIT.ops == EDIT.ops;
    Rotates();
    assert RetainUpdates(map[1 := FIRST], 0, {}) == map[1 := FIRST];
    s5 := Compacts(s4, Payload(EDIT.ops, [4]), 2, map[1 := FIRST], {0});
  }

  lemma RotatesTwice(s5: System) returns (s6: System, s7: System, s8: System)
    requires Settled(s5, 2, EDIT.ops, map[1 := FIRST], {0, 1})
    ensures Enabled(s5, ROTATIONS[5]) && s6 == Apply(s5, ROTATIONS[5])
    ensures Enabled(s6, ROTATIONS[6]) && s7 == Apply(s6, ROTATIONS[6])
    ensures Enabled(s7, ROTATIONS[7]) && CurrentCheckpoint(s7, ROTATIONS[7]) && s8 == Apply(s7, ROTATIONS[7])
    ensures Settled(s8, 3, EDIT.ops + MORE.ops, map[2 := SECOND], {1, 2})
  {
    hide Apply, Enabled, CurrentCheckpoint, Newest, Least, Settled;
    s6, s7 := Saves(s5, MORE, 2, EDIT.ops, map[1 := FIRST], {0, 1});
    Rotates();
    assert RetainUpdates(map[1 := FIRST][2 := SECOND], 1, {}) == map[2 := SECOND];
    s8 := Compacts(s7, Payload(EDIT.ops + MORE.ops, [5]), 3, map[1 := FIRST][2 := SECOND], {0, 1});
  }

  lemma GapIsRead(first: Store, second: Store)
    requires 0 in first.checkpoints && first.checkpoints[0].payload == BLANK && second.updates == map[2 := SECOND]
    ensures EDIT.ops !! SplitRead(first, second, 0)
  {
  }

  /** The first edit is committed, and both generations of the last state hold it; but the
      generation read at state 2 with the tail read at state 8 does not. */
  lemma SecondRotationLeavesGap() returns (states: seq<System>)
    ensures Run({}, states, ROTATIONS) && states[2].generation == states[8].generation
    ensures states[2].store.checkpoints.Keys == {0}
    ensures EDIT.ops <= Committed(states[8].log) && EDIT.ops !! SplitRead(states[2].store, states[8].store, 0)
  {
    hide Apply, Enabled, Inv, Committed, SplitRead;
    var s1, s2 := Creates();
    var s3, s4, s5 := RotatesOnce(s2);
    var s6, s7, s8 := RotatesTwice(s5);
    states := [Start({}), s1, s2, s3, s4, s5, s6, s7, s8];
    assert Run({}, states, ROTATIONS);
    SavedEditIsRecoverable({}, states, ROTATIONS, 3, 8, 2);
    NoDurableEditLost({}, states, ROTATIONS, 8, 2);
    GapIsRead(s2.store, s8.store);
  }
}
