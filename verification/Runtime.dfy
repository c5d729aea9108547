/**
 The single-owner runtime of one graph: an authoritative core, a disposable query
 index, at most one update that is not yet in the repository's log, and the event
 ring.  What the core, the projection and the repository answer is an input of
 each operation; failures may come at any of them.
 */
module Runtime {
  import opened Records
  import EventRing
  import I = IndexDelta

  /** How operations read as a graph, and the containers its homes are. */
  datatype World = World(graph: set<Op> -> I.Graph, roots: set<nat>)

  /** The query index a rebuild makes from the core. */
  function Units(world: World, core: set<Op>): I.Index {
    I.IndexUnits(world.graph(core))
  }

  datatype IndexFault = NoFault | DeltaRejected | ProjectionFails

  datatype Source = Local(command: nat) | Remote

  datatype Kind = Semantic(command: nat) | RemoteImported | SavedLocally(sequence: nat, checksum: Digest)

  type Published = EventRing.Sourced<Kind>

  datatype PendingWrite = PendingWrite(update: Payload, source: Source)

  /** What the core did: the update it exported and the diffs its tracker captured. */
  datatype Execution = Refused | Applied(update: Payload, captured: seq<I.Change>)

  datatype Outcome =
    | Appended(sequence: nat)
    | Unsaved
    | Unchanged
    | Rejected
    | DirtyUnsaved
    | Answered
    | Failed

  // ------------------------------------------------------------ the repository log

  /** `append_update`: a payload already stored keeps its first sequence. */
  function Put(log: seq<Payload>, p: Payload): (r: seq<Payload>)
    ensures log <= r && p in r
  {
    if p in log then log else log + [p]
  }

  function SequenceOf(log: seq<Payload>, p: Payload): (n: nat)
    requires p in log
    ensures 1 <= n <= |log| && log[n - 1] == p && p !in log[..n - 1]
  {
    if log[|log| - 1] == p && p !in log[..|log| - 1] then |log| else
      assert p in log[..|log| - 1] by {
        var i :| 0 <= i < |log| && log[i] == p;
        assert i < |log| - 1 ==> log[..|log| - 1][i] == p;
      }
      var n := SequenceOf(log[..|log| - 1], p);
      assert log[..|log| - 1][..n - 1] == log[..n - 1];
      n
  }

  function OpsOf(log: seq<Payload>): set<Op> {
    if log == [] then {} else OpsOf(log[..|log| - 1]) + log[|log| - 1].ops
  }

  // --------------------------------------------------------------- one operation

  datatype State = State(
    core: set<Op>,
    index: Option<I.Index>,
    log: seq<Payload>,
    pending: Option<PendingWrite>,
    ring: EventRing.Ring<Published>)

  ghost function Advance(world: World, core: set<Op>, index: Option<I.Index>, captured: seq<I.Change>, fault: IndexFault)
    : Option<I.Index>
  {
    if index.None? || fault.ProjectionFails? then None
    else if fault.DeltaRejected? then Some(Units(world, core))
    else
      var g := world.graph(core);
      Some(I.Advanced(index.value, g, I.ChangesOf(g, world.roots, captured)))
  }

  function Announced(write: PendingWrite, sequence: nat): (kinds: seq<Published>)
    ensures |kinds| == 2
  {
    var saved := SavedLocally(sequence, Checksum(write.update));
    match write.source
    case Local(command) => [EventRing.Local(Semantic(command)), EventRing.Local(saved)]
    case Remote => [EventRing.Remote(RemoteImported), EventRing.Remote(saved)]
  }

  function Persisted(s: State, appends: bool): State
    requires s.pending.Some?
  {
    if !appends then s else
      var write := s.pending.value;
      var log := Put(s.log, write.update);
      var kinds := Announced(write, SequenceOf(log, write.update));
      s.(log := log, pending := None, ring := EventRing.Push(EventRing.Push(s.ring, kinds[0]), kinds[1]))
  }

  ghost function Staged(world: World, s: State, write: PendingWrite, captured: seq<I.Change>, fault: IndexFault): State {
    var core := s.core + write.update.ops;
    s.(core := core, pending := Some(write), index := Advance(world, core, s.index, captured, fault))
  }

  ghost function Executed(
    world: World, s: State, execution: Execution, command: nat, fault: IndexFault, appends: bool): State
  {
    if s.pending.Some? || execution.Refused? then s
    else if execution.update.bytes == [] then
      s.(core := s.core + execution.update.ops,
         index := Advance(world, s.core + execution.update.ops, s.index, execution.captured, fault))
    else
      Persisted(Staged(world, s, PendingWrite(execution.update, Local(command)), execution.captured, fault), appends)
  }

  ghost function Imported(world: World, s: State, execution: Execution, fault: IndexFault, appends: bool): State {
    if s.pending.Some? || execution.Refused? then s
    else Persisted(Staged(world, s, PendingWrite(execution.update, Remote), execution.captured, fault), appends)
  }

  function Retried(s: State, appends: bool): State {
    if s.pending.None? then s else Persisted(s, appends)
  }

  function Queried(world: World, s: State, fails: bool): State {
    if s.pending.Some? || s.index.Some? || fails then s else s.(index := Some(Units(world, s.core)))
  }

  class GraphRuntime {
    const world: World
    const capacity: nat
    var core: set<Op>
    var index: Option<I.Index>
    var log: seq<Payload>
    var events: seq<EventRing.Event<Published>>
    var nextCursor: nat
    var pending: Option<PendingWrite>

    constructor FromCore(world: World, core: set<Op>, capacity: nat)
      requires capacity > 0
      ensures this.world == world && this.capacity == capacity
      ensures View() == State(core, Some(Units(world, core)), [], None, EventRing.Start(capacity))
    {
      this.world, this.capacity, this.core := world, capacity, core;
      index, log, events, nextCursor, pending := Some(Units(world, core)), [], [], 1, None;
    }

    function View(): State
      reads this
    {
      State(core, index, log, pending, EventRing.Ring(events, capacity, nextCursor))
    }

    method Execute(execution: Execution, command: nat, fault: IndexFault, appends: bool) returns (outcome: Outcome)
      modifies this
      ensures View() == Executed(world, old(View()), execution, command, fault, appends)
      ensures outcome.DirtyUnsaved? <==> old(pending).Some?
      ensures outcome.Rejected? <==> old(pending).None? && execution.Refused?
      ensures outcome.Unchanged? <==> old(pending).None? && execution.Applied? && execution.update.bytes == []
      ensures outcome.Unsaved? ==> pending == Some(PendingWrite(execution.update, Local(command))) && log == old(log)
      ensures outcome.Appended? ==> pending.None? && 1 <= outcome.sequence <= |log| && log[outcome.sequence - 1] == execution.update
    {
      hide EventRing.Push, Put, SequenceOf, Announced, Advance;
      if pending.Some? {
        return DirtyUnsaved;
      }
      if execution.Refused? {
        return Rejected;
      }
      core := core + execution.update.ops;
      if execution.update.bytes == [] {
        AdvanceIndex(execution.captured, fault);
        return Unchanged;
      }
      pending := Some(PendingWrite(execution.update, Local(command)));
      AdvanceIndex(execution.captured, fault);
      var receipt := PersistPending(appends);
      return if receipt.Some? then Appended(receipt.value) else Unsaved;
    }

    method ImportRemote(execution: Execution, fault: IndexFault, appends: bool) returns (outcome: Outcome)
      modifies this
      ensures View() == Imported(world, old(View()), execution, fault, appends)
      ensures outcome.Rejected? <==> old(pending).None? && execution.Refused?
      ensures outcome.DirtyUnsaved? <==> pending.Some?
      ensures outcome.Appended? ==> 1 <= outcome.sequence <= |log| && log[outcome.sequence - 1] == execution.update
    {
      hide EventRing.Push, Put, SequenceOf, Announced, Advance;
      if pending.Some? {
        return DirtyUnsaved;
      }
      if execution.Refused? {
        return Rejected;
      }
      core := core + execution.update.ops;
      pending := Some(PendingWrite(execution.update, Remote));
      AdvanceIndex(execution.captured, fault);
      var receipt := PersistPending(appends);
      return if receipt.Some? then Appended(receipt.value) else DirtyUnsaved;
    }

    method RetryPending(appends: bool) returns (outcome: Outcome)
      modifies this
      ensures View() == Retried(old(View()), appends)
      ensures outcome.DirtyUnsaved? <==> pending.Some?
    {
      hide EventRing.Push, Put, SequenceOf, Announced;
      if pending.None? {
        return Unchanged;
      }
      var receipt := PersistPending(appends);
      return if receipt.Some? then Appended(receipt.value) else DirtyUnsaved;
    }

    method Query(fails: bool) returns (outcome: Outcome)
      modifies this`index
      ensures View() == Queried(world, old(View()), fails)
      ensures outcome.DirtyUnsaved? <==> old(pending).Some?
      ensures outcome.Answered? ==> index.Some?
    {
      if pending.Some? {
        return DirtyUnsaved;
      }
      if index.None? {
        if fails {
          return Failed;
        }
        index := Some(Units(world, core));
      }
      return Answered;
    }

    method Close() returns (closed: bool)
      ensures closed <==> pending.None?
    {
      return pending.None?;
    }

    /** Taking the index first leaves nothing half advanced behind a failure. */
    method AdvanceIndex(captured: seq<I.Change>, fault: IndexFault)
      modifies this`index
      ensures index == Advance(world, core, old(index), captured, fault)
    {
      hide I.AnyForces, I.AllTouched, I.OfOwners, I.IndexUnits, I.ApplyDelta, I.DeltaFor, I.Named;
      var taken := index;
      index := None;
      if taken.None? || fault.ProjectionFails? {
        return;
      }
      var g := world.graph(core);
      var changes := I.Finish(g, world.roots, captured);
      var delta := I.BuildDelta(g, changes);
      if delta.None? || fault.DeltaRejected? {
        index := Some(I.IndexUnits(g));
      } else {
        index := Some(I.ApplyDelta(taken.value, delta.value));
      }
    }

    method PersistPending(appends: bool) returns (receipt: Option<nat>)
      requires pending.Some?
      modifies this`log, this`pending, this`events, this`nextCursor
      ensures View() == Persisted(old(View()), appends)
      ensures receipt.Some? <==> appends
      ensures receipt.Some? ==> 1 <= receipt.value <= |log| && log[receipt.value - 1] == old(pending).value.update
      ensures !appends ==> log == old(log) && pending == old(pending)
    {
      hide EventRing.Push, Put, SequenceOf;
      if !appends {
        return None;
      }
      log := Put(log, pending.value.update);
      var sequence := SequenceOf(log, pending.value.update);
      var write := pending.value;
      pending := None;
      match write.source {
        case Local(command) =>
          Push(EventRing.Local(Semantic(command)));
          Push(EventRing.Local(SavedLocally(sequence, Checksum(write.update))));
        case Remote =>
          Push(EventRing.Remote(RemoteImported));
          Push(EventRing.Remote(SavedLocally(sequence, Checksum(write.update))));
      }
      return Some(sequence);
    }

    method Push(kind: Published)
      modifies this`events, this`nextCursor
      ensures View().ring == EventRing.Push(old(View()).ring, kind)
    {
      events := events + [EventRing.Event(nextCursor, kind)];
      nextCursor := nextCursor + 1;
      events := EventRing.Trim(events, capacity);
    }

    method Subscribe(cursor: nat) returns (batch: EventRing.Batch<Published>)
      requires nextCursor > 0
      ensures batch == EventRing.Subscribe(View().ring, cursor)
    {
      var latest := nextCursor - 1;
      var oldest := if events == [] then nextCursor else events[0].cursor;
      if cursor + 1 < oldest {
        return EventRing.ResyncRequired(oldest, latest);
      }
      var unseen: seq<EventRing.Event<Published>> := [];
      for i := 0 to |events|
        invariant unseen == EventRing.After(events[..i], cursor)
      {
        assert events[..i + 1][..i] == events[..i];
        if events[i].cursor > cursor {
          unseen := unseen + [events[i]];
        }
      }
      assert events[..|events|] == events;
      return EventRing.Events(unseen, latest);
    }
  }
}
