/**
 Which writes a replica has seen, and that this alone decides what it shows: replicas
 that have seen the same writes are equal, however the writes reached them.
 */
module PropertyConvergence {
  import opened Records
  import opened PropertyFields
  import opened PropertyReplicas

  type Seen = seq<set<Stamp>>

  /** The registers hold exactly the latest of the writes in `seen`. */
  ghost predicate Knows(r: Replica, history: History, seen: set<Stamp>) {
    && (forall s :: s in seen ==> s in history && s.lamport <= r.clock)
    && (forall s :: s in seen ==> history[s].0 in r.cells && !Before(r.cells[history[s].0].stamp, s))
    && (forall c :: c in r.cells ==>
          r.cells[c].stamp in seen && history[r.cells[c].stamp] == (c, r.cells[c].content))
  }

  ghost predicate AllKnow(sys: System, seen: Seen) {
    |seen| == |sys.replicas| && forall i :: 0 <= i < |seen| ==> Knows(sys.replicas[i], sys.history, seen[i])
  }

  /** Equal sets of seen writes give equal registers. */
  lemma SameSeenSameCells(a: Replica, b: Replica, history: History, seen: set<Stamp>)
    requires Knows(a, history, seen) && Knows(b, history, seen)
    ensures a.cells == b.cells
  {
    forall c | c in a.cells ensures c in b.cells && b.cells[c] == a.cells[c] {
      assert history[a.cells[c].stamp].0 == c;
      assert history[b.cells[c].stamp].0 == c;
    }
    forall c | c in b.cells ensures c in a.cells {
      assert history[b.cells[c].stamp].0 == c;
    }
  }

  // ---------------------------------------------------------------- writing and merging

  /** The next write of a replica is not in the history yet. */
  ghost predicate Fresh(sys: System, i: nat) {
    && i < |sys.replicas| && sys.replicas[i].peer == i
    && forall s :: s in sys.history && s.peer == i ==> s.lamport <= sys.replicas[i].clock
  }

  /** A command makes its replica see what it wrote. */
  function Learned(sys: System, after: System, i: nat, seen: Seen): Seen
    requires i < |seen|
  {
    seen[i := seen[i] + (after.history.Keys - sys.history.Keys)]
  }

  ghost predicate Grew(sys: System, after: System, i: nat, seen: Seen) {
    && i < |seen| && Fresh(after, i) && sys.history.Keys <= after.history.Keys
    && AllKnow(after, Learned(sys, after, i, seen))
  }

  lemma WroteGrew(sys: System, i: nat, c: Cell, content: Content, seen: Seen)
    requires AllKnow(sys, seen) && Fresh(sys, i)
    ensures Grew(sys, Wrote(sys, i, c, content), i, seen)
  {
    var after, s := Wrote(sys, i, c, content), Now(sys.replicas[i]);
    var learned := Learned(sys, after, i, seen);
    assert s !in sys.history;
    assert after.history.Keys - sys.history.Keys == {s};
    forall j | 0 <= j < |learned| ensures Knows(after.replicas[j], after.history, learned[j]) {
      assert Knows(sys.replicas[j], sys.history, seen[j]);
    }
  }

  lemma GrewJoins(sys: System, mid: System, after: System, i: nat, seen: Seen)
    requires Grew(sys, mid, i, seen) && Grew(mid, after, i, Learned(sys, mid, i, seen))
    ensures Grew(sys, after, i, seen)
  {
    hide AllKnow, Fresh;
    assert Learned(mid, after, i, Learned(sys, mid, i, seen)) == Learned(sys, after, i, seen) by {
      assert seen[i] + (mid.history.Keys - sys.history.Keys) + (after.history.Keys - mid.history.Keys)
          == seen[i] + (after.history.Keys - sys.history.Keys);
    }
  }

  lemma NothingWritten(sys: System, i: nat, seen: Seen)
    requires AllKnow(sys, seen) && Fresh(sys, i)
    ensures Grew(sys, sys, i, seen)
  {
    assert seen[i] + (sys.history.Keys - sys.history.Keys) == seen[i];
    assert Learned(sys, sys, i, seen) == seen;
  }

  /** One more write after those of `mid`. */
  lemma WroteAgain(sys: System, mid: System, i: nat, c: Cell, content: Content, seen: Seen)
    requires Grew(sys, mid, i, seen)
    ensures Grew(sys, Wrote(mid, i, c, content), i, seen)
  {
    hide AllKnow, Wrote;
    WroteGrew(mid, i, c, content, Learned(sys, mid, i, seen));
    GrewJoins(sys, mid, Wrote(mid, i, c, content), i, seen);
  }

  lemma {:induction false} DeletedEachGrew(sys: System, i: nat, cells: seq<Cell>, seen: Seen)
    requires i < |sys.replicas| && AllKnow(sys, seen) && Fresh(sys, i)
    ensures Grew(sys, DeletedEach(sys, i, cells), i, seen)
  {
    hide AllKnow, Fresh, Wrote;
    if cells == [] {
      NothingWritten(sys, i, seen);
    } else {
      DeletedEachGrew(sys, i, cells[..|cells| - 1], seen);
      WroteAgain(sys, DeletedEach(sys, i, cells[..|cells| - 1]), i, cells[|cells| - 1], Deleted, seen);
    }
  }

  lemma CommandGrew(allows: Registry, sys: System, a: Action, seen: Seen)
    requires a.at < |sys.replicas| && AllKnow(sys, seen) && Fresh(sys, a.at) && !a.Sync? && WellShaped(sys.replicas[a.at].cells)
    ensures Grew(sys, Apply(allows, sys, a), a.at, seen)
  {
    hide AllKnow, Fresh, Wrote, Grew, WellShaped;
    var r := sys.replicas[a.at];
    NothingWritten(sys, a.at, seen);
    match a {
      case Set(i, key, value, cardinality) =>
        var field := EnsureField(allows, r, key, Shape(value.valueType, cardinality));
        if field.Ok? {
          if FieldOf(r.cells, key).None? {
            var first := Wrote(sys, i, FieldCell(key), Selected(Now(r)));
            WroteAgain(sys, sys, i, FieldCell(key), Selected(Now(r)), seen);
            WroteAgain(sys, first, i, ShapeCell(Now(r)), ShapeIs(Shape(value.valueType, cardinality)), seen);
            WroteAgain(sys, Created(sys, i, key, Shape(value.valueType, cardinality)), i,
                       PayloadCell(Now(r), value, cardinality), Holds(value), seen);
          } else {
            WroteAgain(sys, sys, i, PayloadCell(field.value.generation, value, cardinality), Holds(value), seen);
          }
        }
      case Remove(i, key) => WroteAgain(sys, sys, i, FieldCell(key), Deleted, seen);
      case RemoveValue(i, key, value) =>
        if FieldOf(r.cells, key).Some? {
          WroteAgain(sys, sys, i, MemberCell(FieldOf(r.cells, key).value, value), Deleted, seen);
        }
      case Clear(i, _, order) => DeletedEachGrew(sys, i, order, seen);
    }
  }

  lemma MergeKnows(a: Replica, b: Replica, history: History, mine: set<Stamp>, theirs: set<Stamp>)
    requires Knows(a, history, mine) && Knows(b, history, theirs)
    ensures Knows(Replica(Merge(a.cells, b.cells), if a.clock < b.clock then b.clock else a.clock, a.peer), history, mine + theirs)
  {
    var merged := Merge(a.cells, b.cells);
    forall s | s in mine + theirs ensures history[s].0 in merged && !Before(merged[history[s].0].stamp, s) {
    }
  }

  // ------------------------------------------------------------------------- over a run

  /** A command adds its own writes to what its replica has seen, an import adds what the
      other replica had seen. */
  function Learn(sys: System, a: Action, after: System, seen: Seen): Seen
    requires a.at < |seen| && (a.Sync? ==> a.source < |seen|)
  {
    if a.Sync? then seen[a.at := seen[a.at] + seen[a.source]] else Learned(sys, after, a.at, seen)
  }

  /** Both belong to one run: step by step, from replicas that have seen nothing. */
  ghost predicate SeenIn(states: seq<System>, actions: seq<Action>, seen: seq<Seen>) {
    && |states| == |seen| == |actions| + 1
    && seen[0] == seq(|states[0].replicas|, _ => {})
    && forall n :: 0 <= n < |actions| ==>
         && actions[n].at < |seen[n]| && (actions[n].Sync? ==> actions[n].source < |seen[n]|)
         && seen[n + 1] == Learn(states[n], actions[n], states[n + 1], seen[n])
  }

  lemma StepKeepsKnowledge(allows: Registry, sys: System, a: Action, seen: Seen)
    requires Inv(sys) && Enabled(sys, a) && WellShaped(sys.replicas[a.at].cells) && AllKnow(sys, seen)
    ensures AllKnow(Apply(allows, sys, a), Learn(sys, a, Apply(allows, sys, a), seen))
  {
    hide WellShaped, Knows, Within, Bounded;
    assert ReplicaInv(sys, a.at);
    if a.Sync? {
      MergeKnows(sys.replicas[a.at], sys.replicas[a.source], sys.history, seen[a.at], seen[a.source]);
    } else {
      hide Apply;
      CommandGrew(allows, sys, a, seen);
    }
  }

  /** In every reachable state a replica shows the latest of the writes it has seen. */
  lemma {:induction false} RunKeepsKnowledge(
    allows: Registry, states: seq<System>, actions: seq<Action>, seen: seq<Seen>, n: nat)
    requires IsRun(allows, states, actions) && SeenIn(states, actions, seen) && n <= |actions|
    ensures AllKnow(states[n], seen[n])
  {
    hide Apply, Enabled, WellShaped, Inv, Knows, Learn;
    if n == 0 {
      NothingSeen(states[0], seen[0]);
    } else {
      RunKeepsInv(allows, states, actions, n - 1);
      RunKeepsKnowledge(allows, states, actions, seen, n - 1);
      StepKeepsKnowledge(allows, states[n - 1], actions[n - 1], seen[n - 1]);
    }
  }

  lemma NothingSeen(sys: System, seen: Seen)
    requires Starts(sys) && seen == seq(|sys.replicas|, _ => {})
    ensures AllKnow(sys, seen)
  {
  }

  /** Strong convergence: in every reachable state two replicas that have seen the same
      writes are equal, and show the same field under every key. */
  lemma SameWritesSameReplica(
    allows: Registry, states: seq<System>, actions: seq<Action>, seen: seq<Seen>, n: nat, i: nat, j: nat, key: string)
    requires IsRun(allows, states, actions) && SeenIn(states, actions, seen) && n <= |actions|
    requires i < |states[n].replicas| == |seen[n]| && j < |seen[n]| && seen[n][i] == seen[n][j]
    ensures states[n].replicas[i].cells == states[n].replicas[j].cells
    ensures View(states[n].replicas[i].cells, key) == View(states[n].replicas[j].cells, key)
  {
    hide Apply, Enabled, WellShaped, Knows, Learn;
    RunKeepsKnowledge(allows, states, actions, seen, n);
    SameSeenSameCells(states[n].replicas[i], states[n].replicas[j], states[n].history, seen[n][i]);
  }
}
