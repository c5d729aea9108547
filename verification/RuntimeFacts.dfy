/**
 What one runtime operation does to the log, the pending write, the index and the
 published events, said of their contents alone.
 */
module RuntimeFacts {
  import opened Records
  import opened Runtime
  import opened RuntimeRuns
  import EventRing

  // ---------------------------------------------------------------------- one save

  /** A save of `write`: its bytes are in the log, at the place they already had or at the
      end, nothing is pending, and its own event and then its sequence and checksum are
      published, both with its source. */
  ghost predicate SavedAs(before: State, write: PendingWrite, after: State) {
    && after.pending.None?
    && after.log == (if write.update in before.log then before.log else before.log + [write.update])
    && exists n :: 1 <= n <= |after.log| && after.log[n - 1] == write.update && write.update !in after.log[..n - 1]
         && after.ring ==
              if write.source.Local? then
                EventRing.Push(EventRing.Push(before.ring, EventRing.Local(Semantic(write.source.command))),
                               EventRing.Local(SavedLocally(n, Checksum(write.update))))
              else
                EventRing.Push(EventRing.Push(before.ring, EventRing.Remote(RemoteImported)),
                               EventRing.Remote(SavedLocally(n, Checksum(write.update))))
  }

  /** Not saved: it waits, and nothing is written or published. */
  ghost predicate KeptPending(before: State, write: PendingWrite, after: State) {
    after.pending == Some(write) && after.log == before.log && after.ring == before.ring
  }

  lemma PersistSaves(s: State, appends: bool)
    requires s.pending.Some?
    ensures var after := Persisted(s, appends);
      && after.core == s.core && after.index == s.index
      && if appends then SavedAs(s, s.pending.value, after) else KeptPending(s, s.pending.value, after)
  {
    hide EventRing.Push;
    var write := s.pending.value;
    var n := SequenceOf(Put(s.log, write.update), write.update);
    assert 1 <= n <= |Put(s.log, write.update)|;
  }

  /** A command that made an update is applied to the core and saved, with its command id as
      the source, or left pending.  One that made none publishes nothing.  A refused one, or
      any while a write is pending, changes nothing at all. */
  lemma CommandIsSavedOrPending(world: World, s: State, execution: Execution, command: nat, fault: IndexFault, appends: bool)
    ensures var after := Executed(world, s, execution, command, fault, appends);
      if s.pending.Some? || execution.Refused? then after == s
      else
        && after.core == s.core + execution.update.ops
        && if execution.update.bytes == [] then
             after.log == s.log && after.ring == s.ring && after.pending.None?
           else
             var write := PendingWrite(execution.update, Local(command));
             if appends then SavedAs(s, write, after) else KeptPending(s, write, after)
  {
    hide Advance, Persisted, EventRing.Push;
    if s.pending.None? && execution.Applied? && execution.update.bytes != [] {
      PersistSaves(Staged(world, s, PendingWrite(execution.update, Local(command)), execution.captured, fault), appends);
    }
  }

  /** So is an update from another replica, with the remote source. */
  lemma ImportIsSavedOrPending(world: World, s: State, execution: Execution, fault: IndexFault, appends: bool)
    ensures var after := Imported(world, s, execution, fault, appends);
      if s.pending.Some? || execution.Refused? then after == s
      else
        var write := PendingWrite(execution.update, Remote);
        && after.core == s.core + execution.update.ops
        && if appends then SavedAs(s, write, after) else KeptPending(s, write, after)
  {
    hide Advance, Persisted, EventRing.Push;
    if s.pending.None? && execution.Applied? {
      PersistSaves(Staged(world, s, PendingWrite(execution.update, Remote), execution.captured, fault), appends);
    }
  }

  /** A retry saves what is pending, or leaves everything as it was. */
  lemma RetrySavesWhatIsPending(s: State, appends: bool)
    ensures var after := Retried(s, appends);
      && after.core == s.core && after.index == s.index
      && if s.pending.Some? && appends then SavedAs(s, s.pending.value, after) else after == s
  {
    hide Persisted, EventRing.Push;
    if s.pending.Some? {
      PersistSaves(s, appends);
      KeptIsUnchanged(s);
    }
  }

  lemma KeptIsUnchanged(s: State)
    requires s.pending.Some?
    ensures Persisted(s, false) == s
  {
  }

  // -------------------------------------------------------------------- the whole run

  /** Over every run each save published exactly two events, in order: its own, and its place
      in the log with its checksum. */
  lemma {:induction false} EventsAreTheSaves(writes: seq<PendingWrite>, k: nat)
    requires k < |writes|
    ensures |EventsOf(writes)| == 2 * |writes|
    ensures var log, write := LogOf(writes[..k + 1]), writes[k];
      && write.update in log
      && EventsOf(writes)[2 * k] ==
           (if write.source.Local? then EventRing.Local(Semantic(write.source.command)) else EventRing.Remote(RemoteImported))
      && exists n :: 1 <= n <= |log| && log[n - 1] == write.update && write.update !in log[..n - 1]
           && EventsOf(writes)[2 * k + 1] ==
                (if write.source.Local? then EventRing.Local(SavedLocally(n, Checksum(write.update)))
                 else EventRing.Remote(SavedLocally(n, Checksum(write.update))))
  {
    hide LogOf, SequenceOf;
    var front, last := writes[..|writes| - 1], writes[|writes| - 1];
    LastIsLogged(writes);
    if k < |front| {
      EventsAreTheSaves(front, k);
      assert writes[..k + 1] == front[..k + 1];
    } else {
      CountEvents(front);
      assert writes[..k + 1] == writes;
      var n := SequenceOf(LogOf(writes), last.update);
      assert 1 <= n <= |LogOf(writes)|;
    }
  }

  lemma {:induction false} CountEvents(writes: seq<PendingWrite>)
    ensures |EventsOf(writes)| == 2 * |writes|
  {
    hide LogOf, SequenceOf, Announced;
    if writes != [] {
      CountEvents(writes[..|writes| - 1]);
    }
  }

  lemma LastIsLogged(writes: seq<PendingWrite>)
    requires writes != []
    ensures writes[|writes| - 1].update in LogOf(writes)
  {
  }

  // --------------------------------------------------------------------- the index

  /** A commit keeps an index unless the projection itself fails, and none is made by one. */
  lemma CommitKeepsTheIndex(world: World, s: State, a: Action)
    requires Commits(s, a)
    ensures Apply(world, s, a).index.Some? <==> s.index.Some? && !a.fault.ProjectionFails?
  {
    hide EventRing.Push, Put, SequenceOf, Announced, Units;
  }

  /** A query is answered from an index of the core, made on the spot if there was none. */
  lemma QueryLeavesAnIndex(world: World, s: State, fails: bool)
    ensures var after := Queried(world, s, fails);
      && after.(index := s.index) == s
      && (s.pending.None? && !fails ==> after.index.Some?)
      && (s.index.Some? || s.pending.Some? ==> after.index == s.index)
      && (s.index.None? && after.index.Some? ==> IndexIsFresh(world, after))
  {
  }
}
