/**
 What the runtime guarantees over whole runs: nothing it accepted is ever lost or
 reordered, a present index is the projection of the core, and the published events
 are exactly the saves.
 */
module RuntimeRuns {
  import opened Records
  import opened Runtime
  import EventRing
  import I = IndexDelta
  import R = IndexRefinement

  datatype Action =
    | Execute(execution: Execution, command: nat, fault: IndexFault, appends: bool)
    | ImportRemote(execution: Execution, fault: IndexFault, appends: bool)
    | Retry(appends: bool)
    | Query(fails: bool)

  ghost function Apply(world: World, s: State, a: Action): State {
    match a
    case Execute(execution, command, fault, appends) => Executed(world, s, execution, command, fault, appends)
    case ImportRemote(execution, fault, appends) => Imported(world, s, execution, fault, appends)
    case Retry(appends) => Retried(s, appends)
    case Query(fails) => Queried(world, s, fails)
  }

  /** The core's contract: an execution without bytes made no operation, and the tracker
      captured every difference between the graphs before and after. */
  ghost predicate Sound(world: World, core: set<Op>, execution: Execution) {
    execution.Applied? ==>
      && (execution.update.bytes == [] ==> execution.update.ops <= core)
      && R.Reported(world.graph(core), world.graph(core + execution.update.ops), world.roots, execution.captured)
      && R.WellPlaced(world.graph(core + execution.update.ops), world.roots)
  }

  ghost predicate Enabled(world: World, s: State, a: Action) {
    (a.Execute? || a.ImportRemote?) ==> Sound(world, s.core, a.execution)
  }

  /** The write an operation takes on: the one the core has applied and must not lose. */
  function Accepts(s: State, a: Action): Option<PendingWrite> {
    if s.pending.Some? || (!a.Execute? && !a.ImportRemote?) || a.execution.Refused? then None
    else if a.Execute? then
      if a.execution.update.bytes == [] then None else Some(PendingWrite(a.execution.update, Local(a.command)))
    else Some(PendingWrite(a.execution.update, Remote))
  }

  function Appends(a: Action): bool {
    match a
    case Execute(_, _, _, appends) => appends
    case ImportRemote(_, _, appends) => appends
    case Retry(appends) => appends
    case Query(_) => false
  }

  /** The write that reaches the log in this step. */
  function Saves(s: State, a: Action): Option<PendingWrite> {
    if !Appends(a) then None
    else if Accepts(s, a).Some? then Accepts(s, a)
    else if a.Retry? then s.pending
    else None
  }

  // ------------------------------------------------------------------------- runs

  datatype Run = Run(states: seq<State>, actions: seq<Action>)

  ghost predicate IsRun(world: World, run: Run) {
    && |run.states| == |run.actions| + 1
    && forall i :: 0 <= i < |run.actions| ==>
         Enabled(world, run.states[i], run.actions[i]) &&
         run.states[i + 1] == Apply(world, run.states[i], run.actions[i])
  }

  ghost predicate Starts(world: World, s: State) {
    && s.log == [] && s.pending.None? && s.index == Some(Units(world, s.core))
    && s.ring.capacity > 0 && s.ring == EventRing.Start(s.ring.capacity)
  }

  function Maybe<T>(option: Option<T>): seq<T> {
    if option.Some? then [option.value] else []
  }

  function AcceptedWrites(run: Run, n: nat): seq<PendingWrite>
    requires n <= |run.actions| && |run.states| == |run.actions| + 1
  {
    if n == 0 then [] else AcceptedWrites(run, n - 1) + Maybe(Accepts(run.states[n - 1], run.actions[n - 1]))
  }

  function SavedWrites(run: Run, n: nat): seq<PendingWrite>
    requires n <= |run.actions| && |run.states| == |run.actions| + 1
  {
    if n == 0 then [] else SavedWrites(run, n - 1) + Maybe(Saves(run.states[n - 1], run.actions[n - 1]))
  }

  /** The log a sequence of saves builds. */
  function LogOf(writes: seq<PendingWrite>): seq<Payload> {
    if writes == [] then [] else Put(LogOf(writes[..|writes| - 1]), writes[|writes| - 1].update)
  }

  /** The events a sequence of saves publishes. */
  function EventsOf(writes: seq<PendingWrite>): seq<Published> {
    if writes == [] then [] else
      var last := writes[|writes| - 1];
      EventsOf(writes[..|writes| - 1]) + Announced(last, SequenceOf(LogOf(writes), last.update))
  }

  // -------------------------------------------------------------------- invariants

  function PendingOps(s: State): set<Op> {
    if s.pending.Some? then s.pending.value.update.ops else {}
  }

  /** The core is its start, the log, and at most one update that is not saved yet. */
  ghost predicate CoreIsCovered(start: set<Op>, s: State) {
    s.core == start + OpsOf(s.log) + PendingOps(s)
  }

  ghost predicate IndexIsFresh(world: World, s: State) {
    s.index.Some? ==> s.index.value == Units(world, s.core)
  }

  lemma PutCovers(log: seq<Payload>, p: Payload)
    ensures OpsOf(Put(log, p)) == OpsOf(log) + p.ops
  {
    if p in log {
      OpsOfMember(log, p);
    } else {
      assert (log + [p])[..|log|] == log;
    }
  }

  lemma {:induction false} OpsOfMember(log: seq<Payload>, p: Payload)
    requires p in log
    ensures p.ops <= OpsOf(log)
  {
    var front, last := log[..|log| - 1], log[|log| - 1];
    if p != last {
      var i :| 0 <= i < |log| && log[i] == p;
      assert front[i] == p;
      OpsOfMember(front, p);
    }
  }

  lemma PersistCovers(start: set<Op>, s: State, appends: bool)
    requires s.pending.Some? && CoreIsCovered(start, s)
    ensures CoreIsCovered(start, Persisted(s, appends))
  {
    PutCovers(s.log, s.pending.value.update);
  }

  lemma StepCovers(world: World, start: set<Op>, s: State, a: Action)
    requires CoreIsCovered(start, s) && Enabled(world, s, a)
    ensures CoreIsCovered(start, Apply(world, s, a))
  {
    hide OpsOf, Advance, Persisted;
    if Accepts(s, a).Some? {
      var staged := Staged(world, s, Accepts(s, a).value, a.execution.captured, a.fault);
      assert CoreIsCovered(start, staged);
      PersistCovers(start, staged, a.appends);
    } else if a.Retry? && s.pending.Some? {
      PersistCovers(start, s, a.appends);
    }
  }

  /** Durability: at every point of every run the core is the start plus the log plus
      at most one pending update. */
  lemma {:induction false} CoreIsStartPlusLogPlusPending(world: World, run: Run, n: nat)
    requires IsRun(world, run) && Starts(world, run.states[0]) && n <= |run.actions|
    ensures CoreIsCovered(run.states[0].core, run.states[n])
  {
    hide OpsOf, Apply, Enabled;
    if n == 0 {
      StartsCovered(run.states[0]);
    } else {
      CoreIsStartPlusLogPlusPending(world, run, n - 1);
      StepCovers(world, run.states[0].core, run.states[n - 1], run.actions[n - 1]);
    }
  }

  lemma StartsCovered(s: State)
    requires s.log == [] && s.pending.None?
    ensures CoreIsCovered(s.core, s)
  {
  }

  // ----------------------------------------------------------------- the index's truth

  /** The operation that takes the core from one graph to another, if the step has one. */
  ghost predicate Commits(s: State, a: Action) {
    s.pending.None? && (a.Execute? || a.ImportRemote?) && a.execution.Applied?
  }

  function GraphAfter(world: World, s: State, a: Action): I.Graph
    requires a.Execute? || a.ImportRemote?
    requires a.execution.Applied?
  {
    world.graph(s.core + a.execution.update.ops)
  }

  /** The step advances a present index by its delta. */
  ghost predicate AppliesDelta(world: World, s: State, a: Action) {
    && Commits(s, a) && s.index.Some? && a.fault.NoFault?
    && I.ChangesOf(GraphAfter(world, s, a), world.roots, a.execution.captured).Incremental?
  }

  /** The delta leaves out a unit that shows a change. */
  ghost predicate Misses(world: World, s: State, a: Action) {
    && AppliesDelta(world, s, a)
    && !R.StaysExact(world.graph(s.core), GraphAfter(world, s, a), world.roots, a.execution.captured)
  }

  /** The step makes the index anew, or drops it. */
  ghost predicate Renews(world: World, s: State, a: Action) {
    || (Commits(s, a) && !AppliesDelta(world, s, a))
    || (a.Query? && s.pending.None? && s.index.None?)
  }

  lemma IndexAfter(world: World, s: State, a: Action)
    requires Commits(s, a)
    ensures var after := Apply(world, s, a);
      && after.core == s.core + a.execution.update.ops
      && after.index == Advance(world, after.core, s.index, a.execution.captured, a.fault)
  {
    hide Advance, Put, SequenceOf, EventRing.Push, Announced;
  }

  /** Whatever the index was, a rebuilt or dropped one is true of the core. */
  lemma RenewedIsFresh(world: World, s: State, a: Action)
    requires Renews(world, s, a)
    ensures IndexIsFresh(world, Apply(world, s, a))
  {
    hide Put, SequenceOf, EventRing.Push, Announced, I.IndexUnits, I.AnyForces, I.OfOwners, I.AllTouched, I.DeltaFor;
    if Commits(s, a) {
      IndexAfter(world, s, a);
    }
  }

  /** One step from a true index: it stays true if and only if no delta misses a unit. */
  lemma StepIsFreshIff(world: World, s: State, a: Action)
    requires IndexIsFresh(world, s) && Enabled(world, s, a)
    ensures IndexIsFresh(world, Apply(world, s, a)) <==> !Misses(world, s, a)
  {
    hide I.IndexUnits, I.AnyForces, I.OfOwners, I.AllTouched, I.DeltaFor, I.ApplyDelta, R.StaysExact, R.Reported, R.WellPlaced;
    hide Put, SequenceOf, EventRing.Push, Announced;
    if AppliesDelta(world, s, a) {
      IndexAfter(world, s, a);
      R.AdvanceEqualsRebuildIff(world.graph(s.core), GraphAfter(world, s, a), world.roots, a.execution.captured);
    } else if Renews(world, s, a) {
      RenewedIsFresh(world, s, a);
    } else {
      OtherStepsKeepIndex(world, s, a);
    }
  }

  lemma OtherStepsKeepIndex(world: World, s: State, a: Action)
    requires !Commits(s, a) && !Renews(world, s, a)
    ensures Apply(world, s, a).index == s.index && Apply(world, s, a).core == s.core
  {
    hide Put, SequenceOf, EventRing.Push, Announced, Advance, AppliesDelta;
  }

  /** Over every run, a present index is the projection of the core as long as no delta
      since it was last made anew missed a unit, and at the first delta that does it is not. */
  lemma {:induction false} PresentIndexIsTrueUntilAMiss(world: World, run: Run, made: nat, n: nat)
    requires IsRun(world, run) && Starts(world, run.states[0]) && made <= n <= |run.actions|
    requires made == 0 || Renews(world, run.states[made - 1], run.actions[made - 1])
    requires forall i :: made <= i < n ==> !Misses(world, run.states[i], run.actions[i])
    ensures IndexIsFresh(world, run.states[n])
    ensures n < |run.actions| ==>
              (IndexIsFresh(world, run.states[n + 1]) <==> !Misses(world, run.states[n], run.actions[n]))
    decreases n
  {
    hide Apply, Enabled, Misses, Renews, Units;
    if n > made {
      PresentIndexIsTrueUntilAMiss(world, run, made, n - 1);
    } else if made > 0 {
      RenewedIsFresh(world, run.states[made - 1], run.actions[made - 1]);
    }
    if n < |run.actions| {
      StepIsFreshIff(world, run.states[n], run.actions[n]);
    }
  }

  // -------------------------------------------------- every accepted write, in order

  /** One step: what was pending or is accepted now is what is saved now or stays pending. */
  ghost predicate Moves(s: State, after: State, accepts: Option<PendingWrite>, saves: Option<PendingWrite>) {
    && Maybe(s.pending) + Maybe(accepts) == Maybe(saves) + Maybe(after.pending)
    && match saves
       case None => after.log == s.log && after.ring == s.ring
       case Some(write) =>
         var kinds := Announced(write, SequenceOf(Put(s.log, write.update), write.update));
         && after.log == Put(s.log, write.update)
         && after.ring == EventRing.Push(EventRing.Push(s.ring, kinds[0]), kinds[1])
  }

  lemma StepMovesOneWrite(world: World, s: State, a: Action)
    ensures Moves(s, Apply(world, s, a), Accepts(s, a), Saves(s, a))
  {
    hide Put, SequenceOf, EventRing.Push, Announced, Advance;
  }

  ghost predicate Delivered(run: Run, n: nat)
    requires n <= |run.actions| && |run.states| == |run.actions| + 1
  {
    var s := run.states[n];
    && AcceptedWrites(run, n) == SavedWrites(run, n) + Maybe(s.pending)
    && s.log == LogOf(SavedWrites(run, n))
    && EventRing.Holds(s.ring, EventsOf(SavedWrites(run, n)))
  }

  /** Every accepted update reaches the log in the order it was accepted and with its
      exact bytes; only the last one may still be pending.  The ring holds the end of
      the events those saves published, two for each. */
  lemma {:induction false} AcceptedReachTheLogInOrder(world: World, run: Run, n: nat)
    requires IsRun(world, run) && Starts(world, run.states[0]) && n <= |run.actions|
    ensures Delivered(run, n)
  {
    hide Apply, Enabled, Accepts, Saves, Put, EventRing.Holds, Announced, SequenceOf, EventRing.Push;
    if n == 0 {
      EmptyRing(run.states[0].ring);
    } else {
      AcceptedReachTheLogInOrder(world, run, n - 1);
      var s, a := run.states[n - 1], run.actions[n - 1];
      StepMovesOneWrite(world, s, a);
      DeliveredStep(run, n);
    }
  }

  lemma EmptyRing(ring: EventRing.Ring<Published>)
    requires ring.capacity > 0 && ring == EventRing.Start(ring.capacity)
    ensures EventRing.Holds(ring, [])
  {
  }

  lemma DeliveredStep(run: Run, n: nat)
    requires 0 < n <= |run.actions| && |run.states| == |run.actions| + 1
    requires Delivered(run, n - 1)
    requires Moves(run.states[n - 1], run.states[n], Accepts(run.states[n - 1], run.actions[n - 1]), Saves(run.states[n - 1], run.actions[n - 1]))
    ensures Delivered(run, n)
  {
    hide Accepts, Saves, Put, EventRing.Holds, SequenceOf, EventRing.Push, LogOf, EventsOf, Announced, Maybe;
    var s, a, after := run.states[n - 1], run.actions[n - 1], run.states[n];
    var accepted, saved := AcceptedWrites(run, n - 1), SavedWrites(run, n - 1);
    calc {
      accepted + Maybe(Accepts(s, a));
      saved + Maybe(s.pending) + Maybe(Accepts(s, a));
      saved + (Maybe(s.pending) + Maybe(Accepts(s, a)));
      saved + (Maybe(Saves(s, a)) + Maybe(after.pending));
      saved + Maybe(Saves(s, a)) + Maybe(after.pending);
    }
    SaveExtends(saved, s, after, Saves(s, a));
  }

  lemma SaveExtends(saved: seq<PendingWrite>, s: State, after: State, saves: Option<PendingWrite>)
    requires s.log == LogOf(saved) && EventRing.Holds(s.ring, EventsOf(saved))
    requires exists accepts :: Moves(s, after, accepts, saves)
    ensures after.log == LogOf(saved + Maybe(saves)) && EventRing.Holds(after.ring, EventsOf(saved + Maybe(saves)))
  {
    hide Put, EventRing.Holds, SequenceOf, EventRing.Push;
    match saves {
      case None =>
        assert saved + Maybe(saves) == saved;
      case Some(write) =>
        assert (saved + [write])[..|saved|] == saved;
        var kinds := Announced(write, SequenceOf(Put(s.log, write.update), write.update));
        EventRing.PushHolds(s.ring, EventsOf(saved), kinds[0]);
        EventRing.PushHolds(EventRing.Push(s.ring, kinds[0]), EventsOf(saved) + [kinds[0]], kinds[1]);
        assert EventsOf(saved) + kinds == EventsOf(saved) + [kinds[0]] + [kinds[1]];
    }
  }

  /** Closing is refused exactly while an accepted write is not in the log.  After a close
      the log holds, in order, every write that was accepted, and with the start everything
      the core holds. */
  lemma CloseLosesNothing(world: World, run: Run, n: nat)
    requires IsRun(world, run) && Starts(world, run.states[0]) && n <= |run.actions|
    ensures run.states[n].pending.None? <==> AcceptedWrites(run, n) == SavedWrites(run, n)
    ensures run.states[n].pending.None? ==>
              && run.states[n].log == LogOf(AcceptedWrites(run, n))
              && run.states[n].core == run.states[0].core + OpsOf(run.states[n].log)
  {
    hide Apply, Enabled, EventRing.Holds, LogOf, OpsOf, EventsOf;
    AcceptedReachTheLogInOrder(world, run, n);
    CoreIsStartPlusLogPlusPending(world, run, n);
    var s := run.states[n];
    if s.pending.None? {
      assert SavedWrites(run, n) + Maybe(s.pending) == SavedWrites(run, n);
    } else {
      assert |AcceptedWrites(run, n)| == |SavedWrites(run, n)| + 1;
    }
  }

  /** While an update is pending nothing else moves: the only step that changes
      anything is the retry that saves it. */
  lemma NothingMovesWhilePending(world: World, s: State, a: Action)
    requires s.pending.Some?
    ensures Apply(world, s, a) == if a == Retry(true) then Persisted(s, true) else s
    ensures Apply(world, s, a).core == s.core
  {
  }

  // -------------------------------------------------------------- a run's subscriber

  /** The polls a subscriber makes at points of one run. */
  function PollsOf(run: Run, at: seq<nat>): (polls: seq<EventRing.Poll<Published>>)
    requires |run.states| == |run.actions| + 1 && forall i :: 0 <= i < |at| ==> at[i] <= |run.actions|
    ensures |polls| == |at|
    ensures forall i :: 0 <= i < |at| ==>
              polls[i] == EventRing.Poll(run.states[at[i]].ring, EventsOf(SavedWrites(run, at[i])))
  {
    seq(|at|, i requires 0 <= i < |at| => EventRing.Poll(run.states[at[i]].ring, EventsOf(SavedWrites(run, at[i]))))
  }

  lemma {:induction false} SavesGrow(run: Run, m: nat, n: nat)
    requires m <= n <= |run.actions| && |run.states| == |run.actions| + 1
    ensures EventsOf(SavedWrites(run, m)) <= EventsOf(SavedWrites(run, n))
  {
    hide Saves, Maybe, EventsOf;
    if m < n {
      SavesGrow(run, m, n - 1);
      EventsGrow(SavedWrites(run, n - 1), Saves(run.states[n - 1], run.actions[n - 1]));
    }
  }

  lemma {:induction false} EventsGrow(saved: seq<PendingWrite>, more: Option<PendingWrite>)
    ensures EventsOf(saved) <= EventsOf(saved + Maybe(more))
  {
    hide Announced, SequenceOf, LogOf;
    if more.None? {
      assert saved + Maybe(more) == saved;
    } else {
      assert (saved + [more.value])[..|saved|] == saved;
    }
  }

  /** Over any run and any points it polls at, a subscriber that follows `next_cursor`
      receives every published event exactly once and in order, or is told to resync at
      the first poll where an event it had not seen was evicted. */
  lemma SubscriberSeesEverySaveOnce(world: World, run: Run, at: seq<nat>)
    requires IsRun(world, run) && Starts(world, run.states[0])
    requires forall i :: 0 <= i < |at| ==> at[i] <= |run.actions|
    requires forall i, j :: 0 <= i <= j < |at| ==> at[i] <= at[j]
    ensures var polls := PollsOf(run, at);
      && EventRing.OneRun(polls)
      && EventRing.Received(polls, |at|, EventRing.Follow(polls, |at|))
  {
    hide Starts, Apply, Enabled, EventRing.Follow, EventRing.UnseenEvicted, EventRing.Holds, EventsOf;
    var polls := PollsOf(run, at);
    forall i | 0 <= i < |at| ensures EventRing.Holds(polls[i].ring, polls[i].all) {
      AcceptedReachTheLogInOrder(world, run, at[i]);
    }
    forall i, j | 0 <= i <= j < |at| ensures polls[i].all <= polls[j].all {
      SavesGrow(run, at[i], at[j]);
    }
    PollsHaveCursors(polls);
    EventRing.ExactlyOnce(polls, |at|);
  }

  lemma PollsHaveCursors(polls: seq<EventRing.Poll<Published>>)
    requires forall i :: 0 <= i < |polls| ==> EventRing.Holds(polls[i].ring, polls[i].all)
    ensures forall i :: 0 <= i < |polls| ==> polls[i].ring.nextCursor > 0
  {
  }
}
