/**
 The browser's durable log as a protocol.  Several tabs share one graph's
 stores; one of them may hold the writable lease.  Every action below is one
 atomic step, so a crash can fall between any two of them.  `generation` counts
 history replacements and, with `log`, is a history variable: it is read by no
 action's effect on the stores.

 `LoseLease` is a holder that stays open but stops being the holder: where tabs
 elect one over a channel, a holder too busy to answer within the claim window is
 taken for gone.
 */
module DurableLog {
  import opened Records
  import opened Storage
  import opened History
  import Outbox

  /** `OpenState` of one tab's worker. */
  datatype Tab = Tab(
    generation: nat,
    core: set<Op>,
    appliedThrough: nat,
    pending: Option<Payload>,
    remote: bool,
    frame: Option<Outbox.Frame>)

  datatype System = System(store: Store, tabs: map<nat, Tab>, holder: Option<nat>, generation: nat, log: Log)

  datatype Action =
    | CreateGraph(schema: nat)
    | Open(tab: nat, snapshot: Payload, schema: nat)
    | TakeLease(tab: nat, snapshot: Payload, schema: nat)
    | Leave(tab: nat)
    | LoseLease(tab: nat)
    | ConfigureSync(tab: nat)
    | Execute(tab: nat, update: Payload)
    | Persist(tab: nat, now: nat, replyLost: bool)
    | Import(tab: nat, update: Payload, now: nat)
    | Compact(tab: nat, snapshot: Payload, schema: nat)
    | NextFrame(tab: nat, records: nat, merged: Option<Payload>)
    | Ack(tab: nat, messageId: Digest)
    | Replace(tab: nat, snapshot: Payload, epoch: nat, base: nat, schema: nat, now: nat)

  const NO_TAIL := Payload({}, [])

  // ------------------------------------------------------ one tab's operations

  /** The document and frontier recovery reaches from the newest generation. */
  function Recovered(s: Store, generation: nat): Tab
    requires s.checkpoints.Keys != {}
  {
    var c := Greatest(s.checkpoints.Keys);
    var tail := UpdatesAfter(s, c);
    Tab(generation, RecoveredFrom(s, c), if tail == [] then c else tail[|tail| - 1], None, false, None)
  }

  /** A graph without any checkpoint first installs its new document at sequence zero. */
  ghost function WithBase(s: Store, snapshot: Payload, schema: nat): Store {
    if s.checkpoints.Keys != {} then s else
      match InstallCheckpoint(s, snapshot, 0, schema)
      case Ok(installed) => installed
      case Err(_) => s
  }

  function Later(a: nat, b: nat): nat {
    if a < b then b else a
  }

  /** The outbox in local order: the sequences that messages reference. */
  function PendingPayloads(s: Store): (pending: seq<Payload>)
    requires Pinned(s.outbox) <= s.updates.Keys
  {
    var order := Ascending(Pinned(s.outbox));
    seq(|order|, i requires 0 <= i < |order| => assert order[i] in order; s.updates[order[i]].payload)
  }

  /** `syncAck` retires what the frame in flight covers, or just the named entry. */
  function Retired(tab: Tab, messageId: Digest): seq<Digest> {
    if tab.frame.Some? && tab.frame.value.messageId == messageId then tab.frame.value.covers else [messageId]
  }

  // -------------------------------------------------------------------- steps

  ghost predicate Writer(sys: System, tab: nat) {
    sys.holder == Some(tab) && tab in sys.tabs && sys.tabs[tab].pending.None?
  }

  ghost predicate Enabled(sys: System, a: Action) {
    match a
    case CreateGraph(_) => sys.store.metadata.None?
    case Open(t, snapshot, _) =>
      sys.store.metadata.Some? && t !in sys.tabs && (sys.store.checkpoints.Keys == {} ==> snapshot.ops == sys.log.base)
    case TakeLease(t, snapshot, _) =>
      sys.store.metadata.Some? && sys.holder.None? && (sys.store.checkpoints.Keys == {} ==> snapshot.ops == sys.log.base)
    case Leave(t) => t in sys.tabs
    case LoseLease(t) => sys.holder == Some(t)
    case ConfigureSync(t) => t in sys.tabs
    case Execute(t, update) => Writer(sys, t) && update.bytes != []
    case Persist(t, _, _) => sys.holder == Some(t) && t in sys.tabs && sys.tabs[t].pending.Some?
    case Import(t, _, _) => Writer(sys, t)
    case Compact(t, snapshot, _) => t in sys.tabs && sys.tabs[t].pending.None? && snapshot.ops == sys.tabs[t].core
    case NextFrame(t, records, merged) =>
      && t in sys.tabs
      && Pinned(sys.store.outbox) <= sys.store.updates.Keys
      && 1 <= records <= |PendingPayloads(sys.store)| && records <= Outbox.FRAME_UPDATES
      && (merged.Some? ==> merged.value.ops == Outbox.UnionOps(PendingPayloads(sys.store)[..records]))
    case Ack(t, _) => t in sys.tabs
    case Replace(t, _, _, _, _, _) => Writer(sys, t) && !sys.store.serverBase && sys.store.outbox.Keys == {}
  }

  ghost function Apply(sys: System, a: Action): System
    requires Enabled(sys, a)
  {
    match a
    case CreateGraph(schema) => sys.(store := OpenGraph(sys.store, schema))
    case Open(t, snapshot, schema) => Opened(sys, t, WithBase(sys.store, snapshot, schema), sys.holder)
    case TakeLease(t, snapshot, schema) => Opened(sys, t, WithBase(sys.store, snapshot, schema), Some(t))
    case Leave(t) => sys.(tabs := sys.tabs - {t}, holder := if sys.holder == Some(t) then None else sys.holder)
    case LoseLease(t) => sys.(holder := None)
    case ConfigureSync(t) => SetTab(sys, t, sys.tabs[t].(remote := true))
    case Execute(t, update) =>
      SetTab(sys, t, sys.tabs[t].(core := sys.tabs[t].core + update.ops, pending := Some(update)))
    case Persist(t, now, replyLost) => Persisted(sys, t, now, replyLost)
    case Import(t, update, now) => Imported(sys, t, update, now)
    case Compact(t, snapshot, schema) =>
      (match InstallCheckpoint(sys.store, snapshot, sys.tabs[t].appliedThrough, schema)
       case Ok(installed) => sys.(store := installed)
       case Err(_) => sys)
    case NextFrame(t, records, merged) =>
      SetTab(sys, t, sys.tabs[t].(frame := Some(Outbox.FrameOf(PendingPayloads(sys.store), records, merged))))
    case Ack(t, messageId) => Acknowledged(sys, t, messageId)
    case Replace(t, snapshot, epoch, base, schema, now) => Replaced(sys, t, snapshot, epoch, base, schema, now)
  }

  function Acknowledged(sys: System, t: nat, messageId: Digest): System
    requires t in sys.tabs
  {
    var retired := Retired(sys.tabs[t], messageId);
    SetTab(sys.(store := Acknowledge(sys.store, retired)), t,
           if sys.tabs[t].frame.Some? && sys.tabs[t].frame.value.messageId == messageId
           then sys.tabs[t].(frame := None) else sys.tabs[t])
  }

  function SetTab(sys: System, t: nat, tab: Tab): System {
    sys.(tabs := sys.tabs[t := tab])
  }

  function Opened(sys: System, t: nat, store: Store, holder: Option<nat>): System {
    if store.checkpoints.Keys == {} then sys else
      sys.(store := store, tabs := sys.tabs[t := Recovered(store, sys.generation)], holder := holder)
  }

  /** The append transaction, and the worker's bookkeeping unless its reply was lost. */
  ghost function Persisted(sys: System, t: nat, now: nat, replyLost: bool): System
    requires t in sys.tabs && sys.tabs[t].pending.Some?
  {
    var tab := sys.tabs[t];
    match AppendUpdate(sys.store, tab.pending.value, if tab.remote then Some(0) else None, now)
    case Err(_) => sys
    case Ok(appended) =>
      var committed := sys.(store := appended.store, log := LogAppended(sys, tab.pending.value));
      if replyLost then committed else
        SetTab(committed, t, tab.(pending := None, appliedThrough := Later(tab.appliedThrough, appended.sequence)))
  }

  ghost function Imported(sys: System, t: nat, update: Payload, now: nat): System
    requires t in sys.tabs
  {
    var tab := sys.tabs[t];
    match AppendUpdate(sys.store, update, None, now)
    case Err(_) => sys
    case Ok(appended) =>
      SetTab(sys.(store := appended.store, log := LogAppended(sys, update)), t,
             tab.(core := tab.core + update.ops, appliedThrough := Later(tab.appliedThrough, appended.sequence)))
  }

  ghost function LogAppended(sys: System, p: Payload): Log {
    if sys.store.metadata.Some? then LogAppend(sys.store, sys.log, p) else sys.log
  }

  function Replaced(sys: System, t: nat, snapshot: Payload, epoch: nat, base: nat, schema: nat, now: nat): System
    requires t in sys.tabs
  {
    if sys.store.metadata.None? || sys.store.metadata.value.nextSequence == 0 then sys else
      match ReplaceHistory(sys.store, snapshot, epoch, base, NO_TAIL, schema, now)
      case Err(_) => sys
      case Ok(replaced) =>
        System(
          replaced.store,
          sys.tabs[t := sys.tabs[t].(generation := sys.generation + 1, core := snapshot.ops, appliedThrough := replaced.sequence)],
          sys.holder,
          sys.generation + 1,
          LogReplace(sys.store, snapshot, NO_TAIL))
  }

  // ---------------------------------------------------------------- invariant

  function PendingOps(tab: Tab): set<Op> {
    if tab.pending.Some? then tab.pending.value.ops else {}
  }

  /** A tab of this history holds exactly the log through `appliedThrough`, plus what it has not saved. */
  ghost predicate TabInv(sys: System, tab: Tab)
    requires sys.store.metadata.Some?
  {
    && tab.generation <= sys.generation
    && (tab.frame.Some? ==> Outbox.Honest(tab.frame.value))
    && var m := sys.store.metadata.value;
    if tab.generation == sys.generation then
      tab.appliedThrough < m.nextSequence && tab.core == Through(sys.log, tab.appliedThrough) + PendingOps(tab)
    else
      tab.appliedThrough <= m.compactedThrough
  }

  /** The lease holder is never behind the log. */
  ghost predicate HolderInv(sys: System) {
    sys.holder.Some? ==>
      && sys.holder.value in sys.tabs
      && var tab := sys.tabs[sys.holder.value];
      && tab.generation == sys.generation
      && Committed(sys.log) <= Through(sys.log, tab.appliedThrough) + PendingOps(tab)
  }

  ghost predicate Inv(sys: System) {
    if sys.store.metadata.None? then
      sys.store == EMPTY && sys.tabs.Keys == {} && sys.holder.None? && sys.log.entries.Keys == {}
    else
      && Faithful(sys.store, sys.log)
      && (sys.tabs.Keys != {} ==> sys.store.checkpoints.Keys != {})
      && (forall t :: t in sys.tabs ==> TabInv(sys, sys.tabs[t]))
      && HolderInv(sys)
  }

  function Start(base: set<Op>): System {
    System(EMPTY, map[], None, 0, Log(base, map[]))
  }

  /** `installCheckpoint` checks sequences but not which history a tab belongs to. */
  ghost predicate CurrentCheckpoint(sys: System, a: Action)
    requires Enabled(sys, a)
  {
    a.Compact? ==>
      || sys.tabs[a.tab].generation == sys.generation
      || sys.store.metadata.None?
      || sys.tabs[a.tab].appliedThrough < sys.store.metadata.value.compactedThrough
  }

  // -------------------------------------------------------- every step keeps it

  lemma ThroughIsMonotone(log: Log, i: nat, j: nat)
    requires i <= j
    ensures Through(log, i) <= Through(log, j) <= Committed(log)
  {
  }

  /** Recovery's frontier is the last committed sequence, or a checkpoint past it. */
  lemma FrontierReachesTheEnd(s: Store, log: Log, q: nat)
    requires Bounded(s, log) && ExactlyRetained(s, log) && s.checkpoints.Keys != {} && q in log.entries
    ensures q <= Recovered(s, 0).appliedThrough
  {
    var c := Greatest(s.checkpoints.Keys);
    var tail := UpdatesAfter(s, c);
    if q > c {
      assert q in s.updates;
      assert q in tail;
    }
  }

  lemma FrontierIsBounded(s: Store, log: Log)
    requires Bounded(s, log) && UpdatesFaithful(s, log) && s.checkpoints.Keys != {}
    ensures Recovered(s, 0).appliedThrough < s.metadata.value.nextSequence
  {
    var tail := UpdatesAfter(s, Greatest(s.checkpoints.Keys));
    if tail != [] {
      assert tail[|tail| - 1] in tail;
    }
  }

  lemma RecoveredIsCurrent(s: Store, log: Log, generation: nat)
    requires Faithful(s, log) && s.checkpoints.Keys != {}
    ensures var tab := Recovered(s, generation);
            && tab.core == Committed(log)
            && tab.core == Through(log, tab.appliedThrough)
            && tab.appliedThrough < s.metadata.value.nextSequence
  {
    EveryGenerationRecovers(s, log, Greatest(s.checkpoints.Keys));
    FrontierIsBounded(s, log);
    var through := Recovered(s, generation).appliedThrough;
    forall q | q in log.entries ensures q <= through {
      FrontierReachesTheEnd(s, log, q);
    }
    CompleteThrough(log, through);
  }

  lemma CompleteThrough(log: Log, through: nat)
    requires forall q :: q in log.entries ==> q <= through
    ensures Through(log, through) == Committed(log)
  {
  }

  lemma CreateKeepsInv(sys: System, schema: nat)
    requires Inv(sys) && sys.store.metadata.None?
    ensures Inv(sys.(store := OpenGraph(sys.store, schema)))
  {
    var after := OpenGraph(sys.store, schema);
    assert UpdatePayloads(after.updates) == map[] && CheckpointPayloads(after.checkpoints) == map[];
    assert Faithful(after, sys.log);
  }

  lemma BaseKeepsFaithful(s: Store, log: Log, snapshot: Payload, schema: nat)
    requires Faithful(s, log) && (s.checkpoints.Keys == {} ==> snapshot.ops == log.base)
    ensures var after := WithBase(s, snapshot, schema);
            && Faithful(after, log) && after.checkpoints.Keys != {}
            && after.metadata.value.nextSequence == s.metadata.value.nextSequence
            && after.metadata.value.compactedThrough == s.metadata.value.compactedThrough
  {
    if s.checkpoints.Keys == {} {
      assert Through(log, 0) == log.base;
      InstallKeepsFaithful(s, log, snapshot, 0, schema);
    }
  }

  /** Moving the stores forward under an unchanged log leaves every tab as it was. */
  lemma StoreStepKeepsTabs(sys: System, store: Store)
    requires Inv(sys) && sys.store.metadata.Some? && Faithful(store, sys.log)
    requires store.checkpoints.Keys != {}
    requires store.metadata.value.nextSequence == sys.store.metadata.value.nextSequence
    requires store.metadata.value.compactedThrough >= sys.store.metadata.value.compactedThrough
    ensures Inv(sys.(store := store))
  {
    var after := sys.(store := store);
    forall t | t in after.tabs ensures TabInv(after, after.tabs[t]) {
      assert TabInv(sys, sys.tabs[t]);
    }
  }

  lemma OpenKeepsInv(sys: System, t: nat, snapshot: Payload, schema: nat, holder: Option<nat>)
    requires Inv(sys) && sys.store.metadata.Some? && (sys.store.checkpoints.Keys == {} ==> snapshot.ops == sys.log.base)
    requires (holder == sys.holder && t !in sys.tabs) || (holder == Some(t) && sys.holder.None?)
    ensures Inv(Opened(sys, t, WithBase(sys.store, snapshot, schema), holder))
  {
    hide Faithful, WithBase, Through, Committed, Recovered;
    var store := WithBase(sys.store, snapshot, schema);
    BaseKeepsFaithful(sys.store, sys.log, snapshot, schema);
    StoreStepKeepsTabs(sys, store);
    RecoveredIsCurrent(store, sys.log, sys.generation);
    RecoveredIsClean(store, sys.generation);
    NewTabKeepsInv(sys.(store := store), t, Recovered(store, sys.generation), holder);
  }

  lemma RecoveredIsClean(s: Store, generation: nat)
    requires s.checkpoints.Keys != {}
    ensures var tab := Recovered(s, generation); tab.generation == generation && tab.pending.None? && tab.frame.None?
  {
  }

  /** A tab that has just recovered joins, possibly as the new holder. */
  lemma NewTabKeepsInv(sys: System, t: nat, tab: Tab, holder: Option<nat>)
    requires Inv(sys) && sys.store.metadata.Some? && sys.store.checkpoints.Keys != {}
    requires tab.generation == sys.generation && tab.pending.None? && tab.frame.None?
    requires tab.appliedThrough < sys.store.metadata.value.nextSequence
    requires tab.core == Committed(sys.log) == Through(sys.log, tab.appliedThrough)
    requires (holder == sys.holder && t !in sys.tabs) || (holder == Some(t) && sys.holder.None?)
    ensures Inv(sys.(tabs := sys.tabs[t := tab], holder := holder))
  {
    hide Faithful, Through, Committed;
    var after := sys.(tabs := sys.tabs[t := tab], holder := holder);
    forall u | u in after.tabs ensures TabInv(after, after.tabs[u]) {
      if u != t {
        assert TabInv(sys, sys.tabs[u]);
      }
    }
  }

  lemma TabStepKeepsInv(sys: System, t: nat, tab: Tab)
    requires Inv(sys) && sys.store.metadata.Some? && t in sys.tabs && TabInv(sys, tab)
    requires sys.holder == Some(t) ==> HolderInv(SetTab(sys, t, tab))
    ensures Inv(SetTab(sys, t, tab))
  {
    var after := SetTab(sys, t, tab);
    forall u | u in after.tabs ensures TabInv(after, after.tabs[u]) {
      if u != t {
        assert TabInv(sys, sys.tabs[u]);
      }
    }
  }

  lemma ExecuteKeepsInv(sys: System, t: nat, update: Payload)
    requires Inv(sys) && sys.store.metadata.Some? && Writer(sys, t)
    ensures Inv(SetTab(sys, t, sys.tabs[t].(core := sys.tabs[t].core + update.ops, pending := Some(update))))
  {
    assert TabInv(sys, sys.tabs[t]);
    var tab := sys.tabs[t].(core := sys.tabs[t].core + update.ops, pending := Some(update));
    TabStepKeepsInv(sys, t, tab);
  }

  /** How far an append moves the log, whether it was new or a duplicate. */
  lemma AppendExtends(s: Store, log: Log, p: Payload, queue: Option<nat>, now: nat, through: nat)
    requires Faithful(s, log) && s.checkpoints.Keys != {} && through < s.metadata.value.nextSequence
    ensures var r := AppendUpdate(s, p, queue, now);
            var extended := LogAppend(s, log, p);
            && r.Ok? && Faithful(r.value.store, extended)
            && Through(extended, through) == Through(log, through)
            && Committed(extended) == Committed(log) + p.ops
            && r.value.sequence < r.value.store.metadata.value.nextSequence
            && r.value.store.metadata.value.nextSequence >= s.metadata.value.nextSequence
            && r.value.store.metadata.value.compactedThrough == s.metadata.value.compactedThrough
            && r.value.store.checkpoints == s.checkpoints
            && r.value.sequence in extended.entries && extended.entries[r.value.sequence] == p.ops
  {
    hide Through, Committed, CheckpointsFaithful, ExactlyRetained, References, ChecksumsUnique, Accounted, AppendUpdate, LogAppend;
    AppendKeepsFaithful(s, log, p, queue, now);
    ReceiptIsLogged(s, log, p, queue, now);
    LogExtends(s, log, p, through);
    AppendMoves(s, log, p, queue, now);
  }

  lemma LogExtends(s: Store, log: Log, p: Payload, through: nat)
    requires Bounded(s, log) && UpdatesFaithful(s, log) && through < s.metadata.value.nextSequence
    ensures Through(LogAppend(s, log, p), through) == Through(log, through)
    ensures Committed(LogAppend(s, log, p)) == Committed(log) + p.ops
  {
    var next := s.metadata.value.nextSequence;
    var existing := FindByChecksum(s.updates, Checksum(p));
    if existing.None? {
      ThroughIgnoresLater(log, through, next, p.ops);
      CommittedExtends(log, next, p.ops);
    } else {
      assert s.updates[existing.value].payload == p;
      assert Committed(log) + p.ops == Committed(log);
    }
  }

  lemma AppendMoves(s: Store, log: Log, p: Payload, queue: Option<nat>, now: nat)
    requires Bounded(s, log) && UpdatesFaithful(s, log)
    ensures var r := AppendUpdate(s, p, queue, now);
            && r.Ok? && r.value.store.metadata.Some?
            && r.value.sequence < r.value.store.metadata.value.nextSequence
            && r.value.store.metadata.value.nextSequence >= s.metadata.value.nextSequence
            && r.value.store.metadata.value.compactedThrough == s.metadata.value.compactedThrough
            && r.value.store.checkpoints == s.checkpoints
  {
  }

  lemma CommittedExtends(log: Log, next: nat, ops: set<Op>)
    requires next !in log.entries
    ensures Committed(log.(entries := log.entries[next := ops])) == Committed(log) + ops
  {
    var extended := log.(entries := log.entries[next := ops]);
    forall op | op in Committed(log) + ops ensures op in Committed(extended) {
      if op in ops {
        assert next in extended.entries && op in extended.entries[next];
      } else if op !in log.base {
        var q :| q in log.entries && op in log.entries[q];
        assert q in extended.entries && op in extended.entries[q];
      }
    }
  }

  /** After an append every other tab still holds exactly the log it claims. */
  lemma AppendKeepsOthers(sys: System, p: Payload, queue: Option<nat>, now: nat, u: nat)
    requires Inv(sys) && sys.store.metadata.Some? && u in sys.tabs
    ensures var r := AppendUpdate(sys.store, p, queue, now);
            r.Ok? && Faithful(r.value.store, LogAppended(sys, p)) &&
            TabInv(sys.(store := r.value.store, log := LogAppended(sys, p)), sys.tabs[u])
  {
    assert TabInv(sys, sys.tabs[u]);
    if sys.tabs[u].generation == sys.generation {
      AppendExtends(sys.store, sys.log, p, queue, now, sys.tabs[u].appliedThrough);
    } else {
      AppendExtends(sys.store, sys.log, p, queue, now, 0);
    }
  }

  /** The holder catches up to its own append: the new frontier covers the whole log again. */
  lemma CaughtUp(log: Log, through: nat, ops: set<Op>, q: nat)
    requires q in log.entries && log.entries[q] == ops
    requires Committed(log) <= Through(log, through) + ops
    ensures Through(log, Later(through, q)) == Committed(log)
    ensures Through(log, through) + ops == Committed(log)
  {
    ThroughIsMonotone(log, through, Later(through, q));
  }

  lemma AppendIsOk(sys: System, p: Payload, queue: Option<nat>, now: nat)
    requires Inv(sys) && sys.store.metadata.Some? && sys.tabs.Keys != {}
    ensures var r := AppendUpdate(sys.store, p, queue, now);
            && r.Ok? && Faithful(r.value.store, LogAppended(sys, p))
            && r.value.store.metadata.Some? && r.value.store.checkpoints == sys.store.checkpoints
  {
    hide Through, Committed, AppendUpdate, LogAppend, UpdatesFaithful, CheckpointsFaithful, ExactlyRetained, References, ChecksumsUnique, Accounted;
    AppendExtends(sys.store, sys.log, p, queue, now, 0);
  }

  lemma AppendStepKeepsInv(sys: System, t: nat, p: Payload, queue: Option<nat>, now: nat, tab: Tab)
    requires Inv(sys) && sys.store.metadata.Some? && sys.holder == Some(t) && t in sys.tabs
    requires tab.generation == sys.generation && tab.frame == sys.tabs[t].frame
    requires var r := AppendUpdate(sys.store, p, queue, now);
             r.Ok? ==>
               var after := sys.(store := r.value.store, log := LogAppended(sys, p));
               r.value.store.metadata.Some? ==>
                 && tab.appliedThrough < r.value.store.metadata.value.nextSequence
                 && tab.core == Through(after.log, tab.appliedThrough) + PendingOps(tab)
                 && Committed(after.log) <= tab.core
    ensures var r := AppendUpdate(sys.store, p, queue, now);
            r.Ok? && Inv(SetTab(sys.(store := r.value.store, log := LogAppended(sys, p)), t, tab))
  {
    hide Faithful, Through, Committed, AppendUpdate, LogAppend;
    var r := AppendUpdate(sys.store, p, queue, now);
    AppendIsOk(sys, p, queue, now);
    var after := sys.(store := r.value.store, log := LogAppended(sys, p));
    assert TabInv(sys, sys.tabs[t]);
    forall u | u in after.tabs && u != t ensures TabInv(after, after.tabs[u]) {
      AppendKeepsOthers(sys, p, queue, now, u);
    }
  }

  lemma PersistKeepsInv(sys: System, t: nat, now: nat, replyLost: bool)
    requires Inv(sys) && sys.store.metadata.Some? && sys.holder == Some(t) && t in sys.tabs && sys.tabs[t].pending.Some?
    ensures Inv(Persisted(sys, t, now, replyLost))
  {
    hide Faithful, AppendUpdate, LogAppend;
    var tab := sys.tabs[t];
    var p := tab.pending.value;
    var queue: Option<nat> := if tab.remote then Some(0) else None;
    assert TabInv(sys, tab);
    AppendExtends(sys.store, sys.log, p, queue, now, tab.appliedThrough);
    var appended := AppendUpdate(sys.store, p, queue, now).value;
    var log := LogAppended(sys, p);
    CaughtUp(log, tab.appliedThrough, p.ops, appended.sequence);
    if replyLost {
      AppendStepKeepsInv(sys, t, p, queue, now, tab);
      assert SetTab(sys.(store := appended.store, log := log), t, tab).tabs == sys.tabs;
    } else {
      var saved := tab.(pending := None, appliedThrough := Later(tab.appliedThrough, appended.sequence));
      AppendStepKeepsInv(sys, t, p, queue, now, saved);
    }
  }

  lemma ImportKeepsInv(sys: System, t: nat, update: Payload, now: nat)
    requires Inv(sys) && sys.store.metadata.Some? && Writer(sys, t)
    ensures Inv(Imported(sys, t, update, now))
  {
    hide Faithful, AppendUpdate, LogAppend;
    var tab := sys.tabs[t];
    assert TabInv(sys, tab);
    AppendExtends(sys.store, sys.log, update, None, now, tab.appliedThrough);
    var appended := AppendUpdate(sys.store, update, None, now).value;
    CaughtUp(LogAppended(sys, update), tab.appliedThrough, update.ops, appended.sequence);
    var imported := tab.(core := tab.core + update.ops, appliedThrough := Later(tab.appliedThrough, appended.sequence));
    AppendStepKeepsInv(sys, t, update, None, now, imported);
  }

  lemma CompactKeepsInv(sys: System, t: nat, snapshot: Payload, schema: nat)
    requires Inv(sys) && sys.store.metadata.Some?
    requires Enabled(sys, Compact(t, snapshot, schema)) && CurrentCheckpoint(sys, Compact(t, snapshot, schema))
    ensures Inv(Apply(sys, Compact(t, snapshot, schema)))
  {
    hide Faithful, InstallCheckpoint, Through;
    var tab := sys.tabs[t];
    assert TabInv(sys, tab);
    if InstallCheckpoint(sys.store, snapshot, tab.appliedThrough, schema).Ok? {
      InstallMoves(sys.store, snapshot, tab.appliedThrough, schema);
      CheckpointIsLog(sys, t, snapshot);
      InstallKeepsFaithful(sys.store, sys.log, snapshot, tab.appliedThrough, schema);
      StoreStepKeepsTabs(sys, InstallCheckpoint(sys.store, snapshot, tab.appliedThrough, schema).value);
    }
  }

  lemma CheckpointIsLog(sys: System, t: nat, snapshot: Payload)
    requires sys.store.metadata.Some? && t in sys.tabs && TabInv(sys, sys.tabs[t])
    requires sys.tabs[t].pending.None? && snapshot.ops == sys.tabs[t].core && sys.tabs[t].generation == sys.generation
    ensures snapshot.ops == Through(sys.log, sys.tabs[t].appliedThrough)
  {
    hide Through;
  }

  lemma InstallMoves(s: Store, p: Payload, sequence: nat, schema: nat)
    requires InstallCheckpoint(s, p, sequence, schema).Ok?
    ensures var after := InstallCheckpoint(s, p, sequence, schema).value;
            && s.metadata.Some? && after.metadata.Some?
            && after.metadata.value.nextSequence == s.metadata.value.nextSequence
            && after.metadata.value.compactedThrough >= s.metadata.value.compactedThrough
            && s.metadata.value.compactedThrough <= sequence < s.metadata.value.nextSequence
            && after.checkpoints.Keys != {}
  {
    hide Newest, TotalBytes, RetainUpdates, Pinned, UpdatePayloads, CheckpointPayloads, Least, Restrict;
    RestrictPut(s.checkpoints, sequence, CheckpointRecord(schema, Checksum(p), p));
    NewestIsNonEmpty(s.checkpoints.Keys + {sequence}, sequence);
  }

  lemma NewestIsNonEmpty(keys: set<nat>, k: nat)
    requires k in keys
    ensures Newest(keys) != {}
  {
    hide Newest;
    if |keys| > 2 {
      assert |Newest(keys)| == 2;
    } else {
      assert k in Newest(keys);
    }
  }

  lemma FrameKeepsInv(sys: System, t: nat, records: nat, merged: Option<Payload>)
    requires Inv(sys) && sys.store.metadata.Some? && Enabled(sys, NextFrame(t, records, merged))
    ensures Inv(Apply(sys, NextFrame(t, records, merged)))
  {
    hide Faithful, Outbox.FrameOf, Outbox.UnionOps;
    var pending := PendingPayloads(sys.store);
    var frame := Outbox.FrameOf(pending, records, merged);
    FrameIsHonest(pending, records, merged);
    assert TabInv(sys, sys.tabs[t]);
    TabStepKeepsInv(sys, t, sys.tabs[t].(frame := Some(frame)));
  }

  lemma FrameIsHonest(pending: seq<Payload>, records: nat, merged: Option<Payload>)
    requires 1 <= records <= |pending|
    requires merged.Some? ==> merged.value.ops == Outbox.UnionOps(pending[..records])
    ensures Outbox.Honest(Outbox.FrameOf(pending, records, merged))
  {
    var frame := Outbox.FrameOf(pending, records, merged);
    if merged.Some? {
      Outbox.CoveredIsHonest(pending, frame, merged.value);
    }
  }

  lemma AcknowledgeMoves(s: Store, ids: seq<Digest>)
    ensures var after := Acknowledge(s, ids);
            && after.checkpoints == s.checkpoints
            && (s.metadata.Some? ==>
                  && after.metadata.Some?
                  && after.metadata.value.nextSequence == s.metadata.value.nextSequence
                  && after.metadata.value.compactedThrough == s.metadata.value.compactedThrough)
  {
    AcknowledgeEachMoves(s, AcknowledgeThrough(s), ids);
  }

  lemma {:induction false} AcknowledgeEachMoves(s: Store, through: nat, ids: seq<Digest>)
    ensures var after := AcknowledgeEach(s, through, ids);
            && after.checkpoints == s.checkpoints
            && (s.metadata.Some? ==>
                  && after.metadata.Some?
                  && after.metadata.value.nextSequence == s.metadata.value.nextSequence
                  && after.metadata.value.compactedThrough == s.metadata.value.compactedThrough)
    decreases |ids|
  {
    if ids != [] {
      AcknowledgeEachMoves(s, through, ids[..|ids| - 1]);
    }
  }

  lemma AckKeepsInv(sys: System, t: nat, messageId: Digest)
    requires Inv(sys) && sys.store.metadata.Some? && t in sys.tabs
    ensures Inv(Acknowledged(sys, t, messageId))
  {
    hide Faithful;
    var retired := Retired(sys.tabs[t], messageId);
    AcknowledgeKeepsFaithful(sys.store, sys.log, retired);
    AcknowledgeMoves(sys.store, retired);
    var mid := sys.(store := Acknowledge(sys.store, retired));
    StoreStepKeepsTabs(sys, mid.store);
    assert TabInv(mid, mid.tabs[t]);
    TabStepKeepsInv(mid, t, mid.tabs[t].(frame := None));
    TabStepKeepsInv(mid, t, mid.tabs[t]);
  }

  lemma ReplaceKeepsInv(sys: System, t: nat, snapshot: Payload, epoch: nat, base: nat, schema: nat, now: nat)
    requires Inv(sys) && sys.store.metadata.Some? && Writer(sys, t)
    ensures Inv(Replaced(sys, t, snapshot, epoch, base, schema, now))
  {
    hide UpdatesFaithful, CheckpointsFaithful, ExactlyRetained, References, ChecksumsUnique, Accounted;
    ReplaceStartsFaithful(sys.store, sys.log, snapshot, epoch, base, NO_TAIL, schema, now);
    var after := Replaced(sys, t, snapshot, epoch, base, schema, now);
    forall u | u in after.tabs ensures TabInv(after, after.tabs[u]) {
      assert TabInv(sys, sys.tabs[u]);
    }
  }

  lemma StepKeepsInv(sys: System, a: Action)
    requires Inv(sys) && Enabled(sys, a) && CurrentCheckpoint(sys, a)
    ensures Inv(Apply(sys, a))
  {
    hide Faithful;
    match a
    case CreateGraph(schema) => CreateKeepsInv(sys, schema);
    case Open(t, snapshot, schema) => OpenKeepsInv(sys, t, snapshot, schema, sys.holder);
    case TakeLease(t, snapshot, schema) => OpenKeepsInv(sys, t, snapshot, schema, Some(t));
    case Leave(t) =>
      var after := Apply(sys, a);
      forall u | u in after.tabs ensures TabInv(after, after.tabs[u]) {
        assert TabInv(sys, sys.tabs[u]);
      }
    case LoseLease(t) =>
      var after := Apply(sys, a);
      forall u | u in after.tabs ensures TabInv(after, after.tabs[u]) {
        assert TabInv(sys, sys.tabs[u]);
      }
    case ConfigureSync(t) =>
      assert TabInv(sys, sys.tabs[t]);
      TabStepKeepsInv(sys, t, sys.tabs[t].(remote := true));
    case Execute(t, update) => ExecuteKeepsInv(sys, t, update);
    case Persist(t, now, replyLost) => PersistKeepsInv(sys, t, now, replyLost);
    case Import(t, update, now) => ImportKeepsInv(sys, t, update, now);
    case Compact(t, snapshot, schema) => CompactKeepsInv(sys, t, snapshot, schema);
    case NextFrame(t, records, merged) => FrameKeepsInv(sys, t, records, merged);
    case Ack(t, messageId) => AckKeepsInv(sys, t, messageId);
    case Replace(t, snapshot, epoch, base, schema, now) => ReplaceKeepsInv(sys, t, snapshot, epoch, base, schema, now);
  }
}
