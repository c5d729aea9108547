/**
 What a reader sees after each property command, said of the visible fields alone: the
 field the command names, and every other field.
 */
module PropertyViews {
  import opened Records
  import opened PropertyFields
  import opened PropertyReplicas

  // ------------------------------------------------------------ generations have one key

  /** No two keys select the same generation. */
  ghost predicate Apart(cells: Cells) {
    forall k, l :: FieldOf(cells, k).Some? && FieldOf(cells, k) == FieldOf(cells, l) ==> k == l
  }

  /** A generation is named by the write that selected it. */
  ghost predicate NamesItself(history: History) {
    forall s :: s in history && history[s].1.Selected? ==> history[s].1.generation == s
  }

  lemma NamedAreApart(cells: Cells, history: History)
    requires Within(cells, history) && NamesItself(history)
    ensures Apart(cells)
  {
    forall k, l | FieldOf(cells, k).Some? && FieldOf(cells, k) == FieldOf(cells, l) ensures k == l {
      assert history[cells[FieldCell(k)].stamp].0 == FieldCell(k);
      assert history[cells[FieldCell(l)].stamp].0 == FieldCell(l);
    }
  }

  lemma WroteKeepsNames(sys: System, i: nat, c: Cell, content: Content)
    requires NamesItself(sys.history) && i < |sys.replicas| && (content.Selected? ==> content.generation == Now(sys.replicas[i]))
    ensures NamesItself(Wrote(sys, i, c, content).history)
  {
  }

  lemma {:induction false} DeletedEachKeepsNames(sys: System, i: nat, cells: seq<Cell>)
    requires NamesItself(sys.history) && i < |sys.replicas|
    ensures NamesItself(DeletedEach(sys, i, cells).history)
  {
    if cells != [] {
      DeletedEachKeepsNames(sys, i, cells[..|cells| - 1]);
    }
  }

  lemma StepKeepsNames(allows: Registry, sys: System, a: Action)
    requires NamesItself(sys.history) && Enabled(sys, a) && WellShaped(sys.replicas[a.at].cells)
    ensures NamesItself(Apply(allows, sys, a).history)
  {
    hide WellShaped;
    if a.Clear? {
      DeletedEachKeepsNames(sys, a.at, a.order);
    }
  }

  lemma {:induction false} RunKeepsNames(allows: Registry, states: seq<System>, actions: seq<Action>, n: nat)
    requires IsRun(allows, states, actions) && n <= |actions|
    ensures NamesItself(states[n].history)
  {
    hide Apply, Enabled, WellShaped, NamesItself;
    if n == 0 {
      NothingNamed();
    } else {
      RunKeepsNames(allows, states, actions, n - 1);
      StepKeepsNames(allows, states[n - 1], actions[n - 1]);
    }
  }

  lemma NothingNamed()
    ensures NamesItself(map[])
  {
  }

  /** What every replica of a reachable state is like, as far as its own commands need it. */
  ghost predicate Ready(r: Replica) {
    WellShaped(r.cells) && Apart(r.cells) && Unknown(r.cells, Now(r))
  }

  lemma ReachableIsReady(allows: Registry, states: seq<System>, actions: seq<Action>, n: nat, i: nat)
    requires IsRun(allows, states, actions) && n <= |actions| && i < |states[n].replicas|
    ensures Ready(states[n].replicas[i])
  {
    hide Apply, Enabled, WellShaped, NamesItself, Apart, Unknown, Within, Bounded;
    RunKeepsInv(allows, states, actions, n);
    RunKeepsNames(allows, states, actions, n);
    assert ReplicaInv(states[n], i);
    NewGenerationIsUnknown(states[n], i, i);
    NamedAreApart(states[n].replicas[i].cells, states[n].history);
  }

  /** Merging keeps, of two writes to one register, the one of the later Lamport time and, at
      one time, of the greater peer; a register only one side knows is kept as it is. */
  lemma MergeTakesTheLater(a: Cells, b: Cells, c: Cell)
    ensures c in Merge(a, b) <==> c in a || c in b
    ensures c in a && c !in b ==> Merge(a, b)[c] == a[c]
    ensures c in b && c !in a ==> Merge(a, b)[c] == b[c]
    ensures c in a && c in b ==>
      var s, t := a[c].stamp, b[c].stamp;
      && (s.lamport > t.lamport || (s.lamport == t.lamport && s.peer > t.peer) ==> Merge(a, b)[c] == a[c])
      && (t.lamport > s.lamport || (t.lamport == s.lamport && t.peer > s.peer) ==> Merge(a, b)[c] == b[c])
  {
  }

  // ------------------------------------------------------------------- writing elsewhere

  lemma WriteElsewhere(cells: Cells, c: Cell, w: Write, g: Stamp)
    requires !c.FieldCell? && c.generation != g
    ensures FieldIn(cells[c := w], g) == FieldIn(cells, g)
  {
    var after := cells[c := w];
    assert forall d: Cell :: !d.FieldCell? && d.generation == g ==> (d in after <==> d in cells) && (d in cells ==> after[d] == cells[d]);
    assert Members(after, g) == Members(cells, g);
  }

  lemma SelectElsewhere(cells: Cells, key: string, w: Write, g: Stamp)
    ensures FieldIn(cells[FieldCell(key) := w], g) == FieldIn(cells, g)
  {
    var after := cells[FieldCell(key) := w];
    assert forall d: Cell :: !d.FieldCell? ==> (d in after <==> d in cells) && (d in cells ==> after[d] == cells[d]);
    assert Members(after, g) == Members(cells, g);
  }

  lemma OthersSelect(cells: Cells, c: Cell, w: Write, other: string)
    requires c != FieldCell(other)
    ensures FieldOf(cells[c := w], other) == FieldOf(cells, other)
  {
  }

  /** A write into the generation one key selects shows under no other key. */
  lemma PayloadIsPrivate(r: Replica, key: string, other: string, c: Cell, content: Content)
    requires Apart(r.cells) && FieldOf(r.cells, key).Some? && !c.FieldCell? && c.generation == FieldOf(r.cells, key).value
    requires other != key
    ensures View(Put(r, c, content).cells, other) == View(r.cells, other)
  {
    hide FieldIn;
    OthersSelect(r.cells, c, Write(Now(r), content), other);
    if FieldOf(r.cells, other).Some? {
      WriteElsewhere(r.cells, c, Write(Now(r), content), FieldOf(r.cells, other).value);
    }
  }

  lemma SelectionIsPrivate(r: Replica, key: string, other: string, content: Content)
    requires other != key
    ensures View(Put(r, FieldCell(key), content).cells, other) == View(r.cells, other)
  {
    hide FieldIn;
    if FieldOf(r.cells, other).Some? {
      SelectElsewhere(r.cells, key, Write(Now(r), content), FieldOf(r.cells, other).value);
    }
  }

  // ------------------------------------------------------------------------- setting

  /** The command a reader's edit runs. */
  function SetValue(allows: Registry, r: Replica, key: string, value: Value, cardinality: Cardinality): Result<Replica, PropertyError>
    requires WellShaped(r.cells)
  {
    if cardinality.Single? then SetSingle(allows, r, key, value) else SetRepeated(allows, r, key, value)
  }

  /** A set is accepted exactly where the registry allows the shape and what is visible, if
      anything, has it. */
  lemma SetIsAcceptedIff(allows: Registry, r: Replica, key: string, value: Value, cardinality: Cardinality)
    requires WellShaped(r.cells)
    ensures var shape, visible := Shape(value.valueType, cardinality), View(r.cells, key);
      && (visible.Some? ==> visible.value.shape.Some?)
      && var answer, old_ := SetValue(allows, r, key, value, cardinality), if visible.Some? then visible.value.shape.value else shape;
      && (answer.Ok? <==> allows(key, shape) && old_ == shape)
      && (answer == Err(ShapeNotAllowed) <==> !allows(key, shape) || !allows(key, old_))
      && (answer == Err(WrongType) <==> allows(key, shape) && allows(key, old_) && old_.valueType != shape.valueType)
      && (answer == Err(WrongCardinality) <==>
            allows(key, shape) && allows(key, old_) && old_.valueType == shape.valueType && old_.cardinality != shape.cardinality)
  {
    if FieldOf(r.cells, key).Some? {
      FitsOne(r.cells, FieldCell(key));
    }
  }

  lemma ExistingShows(r: Replica, key: string, value: Value, cardinality: Cardinality)
    requires Ready(r) && View(r.cells, key).Some? && View(r.cells, key).value.shape == Some(Shape(value.valueType, cardinality))
    ensures var before := View(r.cells, key).value;
            var after := View(Put(r, PayloadCell(FieldOf(r.cells, key).value, value, cardinality), Holds(value)).cells, key);
      after == Some(before.(single := if cardinality.Single? then Some(value) else before.single,
                            members := if cardinality.Single? then before.members else before.members + {value}))
  {
    var g := FieldOf(r.cells, key).value;
    var c := PayloadCell(g, value, cardinality);
    var after := Put(r, c, Holds(value)).cells;
    assert forall d :: d != c ==> (d in after <==> d in r.cells) && (d in r.cells ==> after[d] == r.cells[d]);
    if cardinality.Single? {
      assert Members(after, g) == Members(r.cells, g);
    } else {
      MembersPut(r.cells, g, value, Write(Now(r), Holds(value)));
    }
  }

  lemma MembersPut(cells: Cells, g: Stamp, value: Value, w: Write)
    ensures Members(cells[MemberCell(g, value) := w], g)
         == if w.content.Holds? then Members(cells, g) + {value} else Members(cells, g) - {value}
  {
    var c := MemberCell(g, value);
    var after := cells[c := w];
    forall v ensures v in Members(after, g) <==> if v == value then w.content.Holds? else v in Members(cells, g) {
      if v in Members(cells, g) {
        var d :| d in cells && d.MemberCell? && d.generation == g && cells[d].content.Holds? && d.member == v;
        assert d == MemberCell(g, v);
      }
      if v in Members(after, g) {
        var d :| d in after && d.MemberCell? && d.generation == g && after[d].content.Holds? && d.member == v;
        assert d == MemberCell(g, v);
      }
      assert MemberCell(g, v) in after && after[MemberCell(g, v)].content.Holds? ==> v in Members(after, g) by {
        MemberIs(after, g, v);
      }
      MemberIs(cells, g, v);
    }
  }

  lemma MemberIs(cells: Cells, g: Stamp, v: Value)
    ensures MemberCell(g, v) in cells && cells[MemberCell(g, v)].content.Holds? ==> v in Members(cells, g)
  {
  }

  /** After a set that was accepted the field has the value's shape and shows the value: a
      single one alone, or one more member of a set.  No other field shows a change. */
  lemma SetShows(allows: Registry, r: Replica, key: string, value: Value, cardinality: Cardinality, other: string)
    requires Ready(r) && SetValue(allows, r, key, value, cardinality).Ok?
    ensures var before, after := View(r.cells, key), View(SetValue(allows, r, key, value, cardinality).value.cells, key);
      && after.Some? && after.value.shape == Some(Shape(value.valueType, cardinality))
      && (cardinality.Single? ==> after.value.single == Some(value) && after.value.members == {})
      && (cardinality.Many? ==>
            after.value.single == None && after.value.members == (if before.Some? then before.value.members else {}) + {value})
    ensures other != key ==> View(SetValue(allows, r, key, value, cardinality).value.cells, other) == View(r.cells, other)
  {
    hide WellShaped, Apart, Unknown, FieldIn;
    SetIsAcceptedIff(allows, r, key, value, cardinality);
    if View(r.cells, key).Some? {
      FitsOne(r.cells, FieldCell(key));
      ExistingShows(r, key, value, cardinality);
      WellShapedIsUnmixed(r.cells, key);
      if other != key {
        PayloadIsPrivate(r, key, other, PayloadCell(FieldOf(r.cells, key).value, value, cardinality), Holds(value));
      }
    } else {
      NewFieldShows(r, key, value, cardinality);
      if other != key {
        CreationIsPrivate(r, key, other, value, cardinality);
      }
    }
  }

  lemma CreationIsPrivate(r: Replica, key: string, other: string, value: Value, cardinality: Cardinality)
    requires WellShaped(r.cells) && Unknown(r.cells, Now(r)) && other != key
    ensures var created := Create(r, key, Shape(value.valueType, cardinality));
            View(Put(created, PayloadCell(Now(r), value, cardinality), Holds(value)).cells, other) == View(r.cells, other)
  {
    hide FieldIn;
    var g := Now(r);
    var selected := Put(r, FieldCell(key), Selected(g));
    var created := Create(r, key, Shape(value.valueType, cardinality));
    SelectionIsPrivate(r, key, other, Selected(g));
    if FieldOf(r.cells, other).Some? {
      var h := FieldOf(r.cells, other).value;
      FitsOne(r.cells, FieldCell(other));
      assert ShapeCell(h) in r.cells && h != g;
      WriteElsewhere(selected.cells, ShapeCell(g), Write(Now(selected), ShapeIs(Shape(value.valueType, cardinality))), h);
      WriteElsewhere(created.cells, PayloadCell(g, value, cardinality), Write(Now(created), Holds(value)), h);
    }
  }

  // ------------------------------------------------------------------------- removing

  /** Removing a member of a set of its type takes exactly that value away; on any other
      field the command does nothing. */
  lemma RemoveRepeatedShows(r: Replica, key: string, value: Value, other: string)
    requires Ready(r)
    ensures var before, after := View(r.cells, key), View(RemoveRepeated(r, key, value).cells, key);
      if before.Some? && before.value.shape == Some(Shape(value.valueType, Many))
      then after == Some(before.value.(members := before.value.members - {value}))
      else RemoveRepeated(r, key, value) == r
    ensures other != key ==> View(RemoveRepeated(r, key, value).cells, other) == View(r.cells, other)
  {
    hide WellShaped, Unknown;
    var before := View(r.cells, key);
    if before.Some? && before.value.shape == Some(Shape(value.valueType, Many)) {
      var g := FieldOf(r.cells, key).value;
      MembersPut(r.cells, g, value, Write(Now(r), Deleted));
      if other != key {
        hide Apart;
        PayloadIsPrivate(r, key, other, MemberCell(g, value), Deleted);
      }
    }
  }

  /** A removed field is not shown, and no other field shows a change. */
  lemma RemoveFieldShows(r: Replica, key: string, other: string)
    ensures View(RemoveField(r, key).cells, key).None?
    ensures other != key ==> View(RemoveField(r, key).cells, other) == View(r.cells, other)
  {
    hide FieldIn;
    if other != key {
      SelectionIsPrivate(r, key, other, Deleted);
    }
  }

  /** Deleting registers changes nothing but those registers. */
  lemma {:induction false} DeleteEachLeaves(r: Replica, order: seq<Cell>, c: Cell)
    ensures c !in order ==>
      (c in DeleteEach(r, order).cells <==> c in r.cells)
      && (c in r.cells ==> DeleteEach(r, order).cells[c] == r.cells[c])
    ensures c in order ==> c in DeleteEach(r, order).cells && DeleteEach(r, order).cells[c].content == Deleted
  {
    if order != [] {
      DeleteEachLeaves(r, order[..|order| - 1], c);
    }
  }

  /** Clearing a field leaves it there, with its shape and without any value; no other field
      shows a change. */
  lemma ClearShows(r: Replica, key: string, order: seq<Cell>, other: string)
    requires Ready(r) && FieldOf(r.cells, key).Some?
    requires forall c :: c in order <==> c in HeldBy(r.cells, FieldOf(r.cells, key).value)
    ensures View(DeleteEach(r, order).cells, key) == Some(View(r.cells, key).value.(single := None, members := {}))
    ensures other != key ==> View(DeleteEach(r, order).cells, other) == View(r.cells, other)
  {
    hide WellShaped, Unknown, Apart, DeleteEach, FieldIn;
    var g := FieldOf(r.cells, key).value;
    var after := DeleteEach(r, order).cells;
    forall c
      ensures c !in order ==> (c in after <==> c in r.cells) && (c in r.cells ==> after[c] == r.cells[c])
      ensures c in order ==> c in after && after[c].content == Deleted
    {
      DeleteEachLeaves(r, order, c);
    }
    ClearedField(r.cells, after, order, g);
    if other != key && FieldOf(r.cells, other).Some? {
      var h := FieldOf(r.cells, other).value;
      ApartAt(r.cells, key, other);
      UntouchedField(r.cells, after, order, h);
    }
  }

  lemma ApartAt(cells: Cells, k: string, l: string)
    requires Apart(cells) && FieldOf(cells, k).Some? && k != l
    ensures FieldOf(cells, k) != FieldOf(cells, l)
  {
  }

  ghost predicate Cleared(before: Cells, after: Cells, order: seq<Cell>) {
    forall c ::
      && (c !in order ==> (c in after <==> c in before) && (c in before ==> after[c] == before[c]))
      && (c in order ==> c in after && after[c].content == Deleted)
  }

  lemma ClearedField(before: Cells, after: Cells, order: seq<Cell>, g: Stamp)
    requires Cleared(before, after, order) && forall c :: c in order <==> c in HeldBy(before, g)
    ensures FieldIn(after, g) == FieldIn(before, g).(single := None, members := {})
  {
    assert ShapeCell(g) !in order;
    assert Members(after, g) == {} by {
      forall c | c in after && c.MemberCell? && c.generation == g ensures !after[c].content.Holds? {
        assert c !in order ==> c in before;
      }
    }
    assert SingleCell(g) in after && SingleCell(g) !in order ==> SingleCell(g) in before;
  }

  lemma UntouchedField(before: Cells, after: Cells, order: seq<Cell>, h: Stamp)
    requires Cleared(before, after, order) && forall c :: c in order ==> !c.FieldCell? && c.generation != h
    ensures FieldIn(after, h) == FieldIn(before, h)
  {
    assert forall c: Cell :: !c.FieldCell? && c.generation == h ==> c !in order;
    assert Members(after, h) == Members(before, h);
  }

  // ------------------------------------------------------------- the same in every run

  lemma {:induction false} DeletedEachIsTheCommand(sys: System, i: nat, order: seq<Cell>)
    requires i < |sys.replicas|
    ensures DeletedEach(sys, i, order).replicas[i] == DeleteEach(sys.replicas[i], order)
  {
    if order != [] {
      DeletedEachIsTheCommand(sys, i, order[..|order| - 1]);
    }
  }

  /** Each step of a run is the replica's own command, so what is shown above holds after
      every step of every run. */
  lemma StepIsTheCommand(allows: Registry, sys: System, a: Action)
    requires a.at < |sys.replicas| && !a.Sync? && WellShaped(sys.replicas[a.at].cells)
    ensures var r, after := sys.replicas[a.at], Apply(allows, sys, a).replicas[a.at];
      && (a.Set? ==>
            var set_ := SetValue(allows, r, a.key, a.value, a.cardinality);
            after == if set_.Ok? then set_.value else r)
      && (a.Remove? ==> after == RemoveField(r, a.key))
      && (a.RemoveValue? ==> after == RemoveRepeated(r, a.key, a.value))
      && (a.Clear? ==> after == DeleteEach(r, a.order))
  {
    if a.Set? {
      SetIsTheCommand(allows, sys, a);
    } else if a.Clear? {
      DeletedEachIsTheCommand(sys, a.at, a.order);
    }
  }
}
