/**
 The commands that write property fields, the replicas that run them, and what holds
 in every state any interleaving of commands and merges reaches.
 */
module PropertyReplicas {
  import opened Records
  import opened PropertyFields

  datatype Replica = Replica(cells: Cells, clock: nat, peer: nat)

  datatype PropertyError = ShapeNotAllowed | WrongType | WrongCardinality

  /** Which shapes the registry allows a key to have. */
  type Registry = (string, Shape) -> bool

  function Now(r: Replica): Stamp {
    Stamp(r.clock + 1, r.peer)
  }

  /** One register write at the next Lamport time. */
  function Put(r: Replica, c: Cell, content: Content): Replica {
    Replica(r.cells[c := Write(Now(r), content)], r.clock + 1, r.peer)
  }

  /** A new generation, selected by the key and given its shape. */
  function Create(r: Replica, key: string, shape: Shape): Replica {
    Put(Put(r, FieldCell(key), Selected(Now(r))), ShapeCell(Now(r)), ShapeIs(shape))
  }

  datatype Ensured = Ensured(replica: Replica, generation: Stamp)

  function EnsureField(allows: Registry, r: Replica, key: string, shape: Shape): Result<Ensured, PropertyError>
    requires WellShaped(r.cells)
  {
    if !allows(key, shape) then Err(ShapeNotAllowed) else
      match FieldOf(r.cells, key)
      case None => Ok(Ensured(Create(r, key, shape), Now(r)))
      case Some(g) =>
        assert FitsCell(r.cells, FieldCell(key));
        var existing := ShapeOf(r.cells, g).value;
        if !allows(key, existing) then Err(ShapeNotAllowed)
        else if existing.valueType != shape.valueType then Err(WrongType)
        else if existing.cardinality != shape.cardinality then Err(WrongCardinality)
        else Ok(Ensured(r, g))
  }

  function SetSingle(allows: Registry, r: Replica, key: string, value: Value): Result<Replica, PropertyError>
    requires WellShaped(r.cells)
  {
    match EnsureField(allows, r, key, Shape(value.valueType, Single))
    case Err(e) => Err(e)
    case Ok(field) => Ok(Put(field.replica, SingleCell(field.generation), Holds(value)))
  }

  function SetRepeated(allows: Registry, r: Replica, key: string, value: Value): Result<Replica, PropertyError>
    requires WellShaped(r.cells)
  {
    match EnsureField(allows, r, key, Shape(value.valueType, Many))
    case Err(e) => Err(e)
    case Ok(field) => Ok(Put(field.replica, MemberCell(field.generation, value), Holds(value)))
  }

  function RemoveField(r: Replica, key: string): Replica {
    Put(r, FieldCell(key), Deleted)
  }

  function DeleteEach(r: Replica, cells: seq<Cell>): Replica {
    if cells == [] then r else Put(DeleteEach(r, cells[..|cells| - 1]), cells[|cells| - 1], Deleted)
  }

  function RemoveRepeated(r: Replica, key: string, value: Value): Replica {
    match FieldOf(r.cells, key)
    case None => r
    case Some(g) =>
      if ShapeOf(r.cells, g) == Some(Shape(value.valueType, Many)) then Put(r, MemberCell(g, value), Deleted) else r
  }

  /** The payload registers of a generation that hold a value. */
  function HeldBy(cells: Cells, g: Stamp): set<Cell> {
    set c | c in cells && (c.SingleCell? || c.MemberCell?) && c.generation == g && cells[c].content.Holds?
  }

  class PropertyBag {
    const peer: nat
    var cells: Cells
    var clock: nat

    constructor (peer: nat)
      ensures View() == Replica(map[], 0, peer)
    {
      this.peer, cells, clock := peer, map[], 0;
    }

    function View(): Replica
      reads this
    {
      Replica(cells, clock, peer)
    }

    method Insert(c: Cell, content: Content)
      modifies this
      ensures View() == Put(old(View()), c, content)
    {
      cells := cells[c := Write(Stamp(clock + 1, peer), content)];
      clock := clock + 1;
    }

    method EnsurePropertyField(allows: Registry, key: string, shape: Shape) returns (r: Result<Stamp, PropertyError>)
      requires WellShaped(cells)
      modifies this
      ensures match EnsureField(allows, old(View()), key, shape)
              case Err(e) => r == Err(e) && View() == old(View())
              case Ok(field) => r == Ok(field.generation) && View() == field.replica
    {
      if !allows(key, shape) {
        return Err(ShapeNotAllowed);
      }
      var selected := FieldOf(cells, key);
      if selected.Some? {
        FitsOne(cells, FieldCell(key));
        var existing := ShapeOf(cells, selected.value).value;
        if !allows(key, existing) {
          return Err(ShapeNotAllowed);
        }
        if existing.valueType != shape.valueType {
          return Err(WrongType);
        }
        if existing.cardinality != shape.cardinality {
          return Err(WrongCardinality);
        }
        return Ok(selected.value);
      }
      var generation := Stamp(clock + 1, peer);
      Insert(FieldCell(key), Selected(generation));
      Insert(ShapeCell(generation), ShapeIs(shape));
      return Ok(generation);
    }

    method Set(allows: Registry, key: string, value: Value, cardinality: Cardinality) returns (error: Option<PropertyError>)
      requires WellShaped(cells)
      modifies this
      ensures var after := if cardinality.Single? then SetSingle(allows, old(View()), key, value)
                           else SetRepeated(allows, old(View()), key, value);
              match after
              case Err(e) => error == Some(e) && View() == old(View())
              case Ok(r) => error == None && View() == r
    {
      var field := EnsurePropertyField(allows, key, Shape(value.valueType, cardinality));
      if field.Err? {
        return Some(field.error);
      }
      Insert(if cardinality.Single? then SingleCell(field.value) else MemberCell(field.value, value), Holds(value));
      return None;
    }

    method RemovePropertyField(key: string)
      modifies this
      ensures View() == RemoveField(old(View()), key)
    {
      Insert(FieldCell(key), Deleted);
    }

    method RemoveRepeatedValue(key: string, value: Value)
      modifies this
      ensures View() == RemoveRepeated(old(View()), key, value)
    {
      var selected := FieldOf(cells, key);
      if selected.Some? && ShapeOf(cells, selected.value) == Some(Shape(value.valueType, Many)) {
        Insert(MemberCell(selected.value, value), Deleted);
      }
    }

    /** Every register that holds a value of the field is deleted, in some order. */
    method ClearPropertyValues(key: string) returns (ghost order: seq<Cell>)
      modifies this
      ensures View() == DeleteEach(old(View()), order)
      ensures FieldOf(old(cells), key).None? ==> order == []
      ensures FieldOf(old(cells), key).Some? ==> forall c :: c in order <==> c in HeldBy(old(cells), FieldOf(old(cells), key).value)
    {
      order := [];
      var selected := FieldOf(cells, key);
      if selected.None? {
        return;
      }
      var all := HeldBy(cells, selected.value);
      var rest := all;
      while rest != {}
        invariant rest <= all
        invariant View() == DeleteEach(old(View()), order)
        invariant forall c :: c in order <==> c in all - rest
        decreases rest
      {
        var c :| c in rest;
        rest := rest - {c};
        Insert(c, Deleted);
        assert (order + [c])[..|order|] == order;
        order := order + [c];
      }
    }

    method Import(other: PropertyBag)
      modifies this
      ensures cells == Merge(old(cells), old(other.cells))
      ensures clock == if old(clock) < old(other.clock) then old(other.clock) else old(clock)
    {
      var theirs := other.clock;
      cells := Merge(cells, other.cells);
      clock := if clock < theirs then theirs else clock;
    }
  }

  // ---------------------------------------------------------------------- the system

  datatype System = System(replicas: seq<Replica>, history: History)

  /** Everything a replica knows was written at or before its clock. */
  ghost predicate Bounded(r: Replica) {
    forall c :: c in r.cells ==> r.cells[c].stamp.lamport <= r.clock
  }

  ghost predicate ReplicaInv(sys: System, i: nat)
    requires i < |sys.replicas|
  {
    var r := sys.replicas[i];
    && r.peer == i && Within(r.cells, sys.history) && WellShaped(r.cells) && Bounded(r)
    && forall s :: s in sys.history && s.peer == i ==> s.lamport <= r.clock
  }

  ghost predicate Inv(sys: System) {
    && (forall i :: 0 <= i < |sys.replicas| ==> ReplicaInv(sys, i))
    && (forall s :: s in sys.history ==> s.peer < |sys.replicas|)
  }

  function Wrote(sys: System, i: nat, c: Cell, content: Content): System
    requires i < |sys.replicas|
  {
    System(sys.replicas[i := Put(sys.replicas[i], c, content)],
           sys.history[Now(sys.replicas[i]) := (c, content)])
  }

  /** One write that keeps its own replica well shaped keeps the whole system. */
  lemma WroteKeepsInv(sys: System, i: nat, c: Cell, content: Content)
    requires Inv(sys) && i < |sys.replicas|
    requires WellShaped(Put(sys.replicas[i], c, content).cells)
    ensures Inv(Wrote(sys, i, c, content))
  {
    hide WellShaped;
    var after := Wrote(sys, i, c, content);
    var s := Now(sys.replicas[i]);
    assert ReplicaInv(sys, i);
    assert s !in sys.history;
    forall j | 0 <= j < |after.replicas| ensures ReplicaInv(after, j) {
      assert ReplicaInv(sys, j);
    }
  }

  /** A new generation is one no replica has heard of. */
  lemma NewGenerationIsUnknown(sys: System, i: nat, j: nat)
    requires Inv(sys) && i < |sys.replicas| && j < |sys.replicas|
    ensures Unknown(sys.replicas[j].cells, Now(sys.replicas[i]))
  {
    var g := Now(sys.replicas[i]);
    var cells := sys.replicas[j].cells;
    assert ReplicaInv(sys, i) && ReplicaInv(sys, j);
    if ShapeCell(g) in cells {
      FitsOne(cells, ShapeCell(g));
      assert false;
    }
    forall c | c in cells && !c.FieldCell? ensures c.generation != g {
      FitsOne(cells, c);
    }
  }

  lemma CreateIsWellShaped(r: Replica, key: string, shape: Shape)
    requires WellShaped(r.cells) && Unknown(r.cells, Now(r))
    ensures WellShaped(Create(r, key, shape).cells)
  {
    var after := Create(r, key, shape).cells;
    forall c | c in after ensures FitsCell(after, c) {
      if c != FieldCell(key) && c != ShapeCell(Now(r)) {
        FitsOne(r.cells, c);
      }
    }
  }

  function Created(sys: System, i: nat, key: string, shape: Shape): System
    requires i < |sys.replicas|
  {
    var g := Now(sys.replicas[i]);
    Wrote(Wrote(sys, i, FieldCell(key), Selected(g)), i, ShapeCell(g), ShapeIs(shape))
  }

  /** Both writes of a creation reach the history together. */
  lemma CreatedKeepsInv(sys: System, i: nat, key: string, shape: Shape)
    requires Inv(sys) && i < |sys.replicas|
    ensures Inv(Created(sys, i, key, shape))
  {
    hide WellShaped, Within, Unknown;
    var after := Created(sys, i, key, shape);
    assert ReplicaInv(sys, i);
    assert Now(sys.replicas[i]) !in sys.history && Next(Now(sys.replicas[i])) !in sys.history;
    forall j | 0 <= j < |after.replicas| ensures ReplicaInv(after, j) {
      if j == i {
        CreatorKeepsInv(sys, i, key, shape);
      } else {
        assert ReplicaInv(sys, j);
        HistoryGrows(sys, after, j);
      }
    }
  }

  lemma CreatorKeepsInv(sys: System, i: nat, key: string, shape: Shape)
    requires Inv(sys) && i < |sys.replicas|
    ensures ReplicaInv(Created(sys, i, key, shape), i)
  {
    hide WellShaped;
    NewGenerationIsUnknown(sys, i, i);
    assert ReplicaInv(sys, i);
    CreateIsWellShaped(sys.replicas[i], key, shape);
  }

  lemma HistoryGrows(sys: System, after: System, j: nat)
    requires j < |sys.replicas| == |after.replicas| && sys.replicas[j] == after.replicas[j] && ReplicaInv(sys, j)
    requires forall s :: s in sys.history ==> s in after.history && after.history[s] == sys.history[s]
    requires forall s :: s in after.history && s !in sys.history ==> s.peer != j
    ensures ReplicaInv(after, j)
  {
    hide WellShaped;
  }

  lemma PayloadIsWellShaped(r: Replica, c: Cell, content: Content)
    requires WellShaped(r.cells) && (c.SingleCell? || c.MemberCell?)
    requires ShapeOf(r.cells, c.generation).Some?
    requires var shape := ShapeOf(r.cells, c.generation).value;
      match c
      case SingleCell(_) => shape.cardinality.Single? && (content.Deleted? || (content.Holds? && content.value.valueType == shape.valueType))
      case MemberCell(_, member) => shape == Shape(member.valueType, Many) && (content.Deleted? || content == Holds(member))
      case _ => true
    ensures WellShaped(Put(r, c, content).cells)
  {
    var after := Put(r, c, content).cells;
    forall d | d in after ensures FitsCell(after, d) {
      if d != c {
        FitsOne(r.cells, d);
      }
    }
  }

  lemma RemovalIsWellShaped(r: Replica, key: string)
    requires WellShaped(r.cells)
    ensures WellShaped(RemoveField(r, key).cells)
  {
    var after := RemoveField(r, key).cells;
    forall d | d in after ensures FitsCell(after, d) {
      if d != FieldCell(key) {
        FitsOne(r.cells, d);
      }
    }
  }

  datatype Action =
    | Set(at: nat, key: string, value: Value, cardinality: Cardinality)
    | Remove(at: nat, key: string)
    | RemoveValue(at: nat, key: string, value: Value)
    | Clear(at: nat, key: string, order: seq<Cell>)
    | Sync(at: nat, source: nat)

  function PayloadCell(g: Stamp, value: Value, cardinality: Cardinality): Cell {
    if cardinality.Single? then SingleCell(g) else MemberCell(g, value)
  }

  function DeletedEach(sys: System, i: nat, cells: seq<Cell>): (after: System)
    requires i < |sys.replicas|
    ensures |after.replicas| == |sys.replicas|
  {
    if cells == [] then sys else
      Wrote(DeletedEach(sys, i, cells[..|cells| - 1]), i, cells[|cells| - 1], Deleted)
  }

  function Apply(allows: Registry, sys: System, a: Action): System
    requires a.at < |sys.replicas| && (a.Sync? ==> a.source < |sys.replicas|)
    requires WellShaped(sys.replicas[a.at].cells)
  {
    var r := sys.replicas[a.at];
    match a
    case Set(i, key, value, cardinality) =>
      var shape := Shape(value.valueType, cardinality);
      var field := EnsureField(allows, r, key, shape);
      if field.Err? then sys
      else if FieldOf(r.cells, key).None? then
        Wrote(Created(sys, i, key, shape), i, PayloadCell(Now(r), value, cardinality), Holds(value))
      else
        Wrote(sys, i, PayloadCell(field.value.generation, value, cardinality), Holds(value))
    case Remove(i, key) => Wrote(sys, i, FieldCell(key), Deleted)
    case RemoveValue(i, key, value) =>
      if FieldOf(r.cells, key).Some? && ShapeOf(r.cells, FieldOf(r.cells, key).value) == Some(Shape(value.valueType, Many))
      then Wrote(sys, i, MemberCell(FieldOf(r.cells, key).value, value), Deleted)
      else sys
    case Clear(i, key, order) => DeletedEach(sys, i, order)
    case Sync(i, source) =>
      var other := sys.replicas[source];
      sys.(replicas := sys.replicas[i := Replica(
        Merge(r.cells, other.cells), if r.clock < other.clock then other.clock else r.clock, r.peer)])
  }

  ghost predicate Enabled(sys: System, a: Action) {
    && a.at < |sys.replicas| && (a.Sync? ==> a.source < |sys.replicas|)
    && (a.Clear? ==>
          FieldOf(sys.replicas[a.at].cells, a.key).Some? &&
          forall c :: c in a.order <==> c in HeldBy(sys.replicas[a.at].cells, FieldOf(sys.replicas[a.at].cells, a.key).value))
  }

  /** The system step runs the replica's own command. */
  lemma SetIsTheCommand(allows: Registry, sys: System, a: Action)
    requires a.Set? && a.at < |sys.replicas| && WellShaped(sys.replicas[a.at].cells)
    ensures var r := sys.replicas[a.at];
            var after := if a.cardinality.Single? then SetSingle(allows, r, a.key, a.value) else SetRepeated(allows, r, a.key, a.value);
            Apply(allows, sys, a).replicas[a.at] == if after.Ok? then after.value else r
  {
  }

  lemma SetKeepsInv(allows: Registry, sys: System, a: Action)
    requires Inv(sys) && a.Set? && Enabled(sys, a)
    ensures WellShaped(sys.replicas[a.at].cells) && Inv(Apply(allows, sys, a))
  {
    hide WellShaped;
    assert ReplicaInv(sys, a.at);
    var r := sys.replicas[a.at];
    var shape := Shape(a.value.valueType, a.cardinality);
    if EnsureField(allows, r, a.key, shape).Ok? {
      if FieldOf(r.cells, a.key).None? {
        var mid := Created(sys, a.at, a.key, shape);
        CreatedKeepsInv(sys, a.at, a.key, shape);
        assert ReplicaInv(mid, a.at);
        PayloadIsWellShaped(mid.replicas[a.at], PayloadCell(Now(r), a.value, a.cardinality), Holds(a.value));
        WroteKeepsInv(mid, a.at, PayloadCell(Now(r), a.value, a.cardinality), Holds(a.value));
      } else {
        var g := FieldOf(r.cells, a.key).value;
        FitsOne(r.cells, FieldCell(a.key));
        PayloadIsWellShaped(r, PayloadCell(g, a.value, a.cardinality), Holds(a.value));
        WroteKeepsInv(sys, a.at, PayloadCell(g, a.value, a.cardinality), Holds(a.value));
      }
    }
  }

  /** Deleting payload registers leaves every shape as it was. */
  lemma {:induction false} DeletedEachKeepsInv(sys: System, i: nat, cells: seq<Cell>)
    requires Inv(sys) && i < |sys.replicas|
    requires forall c :: c in cells ==> c in sys.replicas[i].cells && (c.SingleCell? || c.MemberCell?)
    ensures Inv(DeletedEach(sys, i, cells))
    ensures forall c :: c in sys.replicas[i].cells ==> c in DeletedEach(sys, i, cells).replicas[i].cells
    ensures forall g :: ShapeOf(DeletedEach(sys, i, cells).replicas[i].cells, g) == ShapeOf(sys.replicas[i].cells, g)
  {
    hide Inv, Wrote, ShapeOf;
    if cells != [] {
      var front, last := cells[..|cells| - 1], cells[|cells| - 1];
      assert forall c :: c in front ==> c in cells;
      DeletedEachKeepsInv(sys, i, front);
      assert last in cells;
      DeletedOneKeepsInv(DeletedEach(sys, i, front), i, last);
    }
  }

  lemma DeletedOneKeepsInv(sys: System, i: nat, c: Cell)
    requires Inv(sys) && i < |sys.replicas| && c in sys.replicas[i].cells && (c.SingleCell? || c.MemberCell?)
    ensures Inv(Wrote(sys, i, c, Deleted))
    ensures forall d :: d in sys.replicas[i].cells ==> d in Wrote(sys, i, c, Deleted).replicas[i].cells
    ensures forall g :: ShapeOf(Wrote(sys, i, c, Deleted).replicas[i].cells, g) == ShapeOf(sys.replicas[i].cells, g)
  {
    hide WellShaped;
    assert ReplicaInv(sys, i);
    FitsOne(sys.replicas[i].cells, c);
    PayloadIsWellShaped(sys.replicas[i], c, Deleted);
    WroteKeepsInv(sys, i, c, Deleted);
  }

  lemma SyncKeepsInv(allows: Registry, sys: System, a: Action)
    requires Inv(sys) && a.Sync? && Enabled(sys, a)
    ensures WellShaped(sys.replicas[a.at].cells) && Inv(Apply(allows, sys, a))
  {
    hide WellShaped;
    assert ReplicaInv(sys, a.at) && ReplicaInv(sys, a.source);
    var mine, theirs := sys.replicas[a.at].cells, sys.replicas[a.source].cells;
    MergeStaysWithin(mine, theirs, sys.history);
    MergeStaysWellShaped(mine, theirs, sys.history);
    var after := Apply(allows, sys, a);
    forall j | 0 <= j < |after.replicas| ensures ReplicaInv(after, j) {
      assert ReplicaInv(sys, j);
    }
  }

  lemma StepKeepsInv(allows: Registry, sys: System, a: Action)
    requires Inv(sys) && Enabled(sys, a)
    ensures WellShaped(sys.replicas[a.at].cells) && Inv(Apply(allows, sys, a))
  {
    hide WellShaped;
    assert ReplicaInv(sys, a.at);
    var r := sys.replicas[a.at];
    match a {
      case Set(_, _, _, _) => SetKeepsInv(allows, sys, a);
      case Remove(i, key) =>
        RemovalIsWellShaped(r, key);
        WroteKeepsInv(sys, i, FieldCell(key), Deleted);
      case RemoveValue(i, key, value) =>
        if FieldOf(r.cells, key).Some? && ShapeOf(r.cells, FieldOf(r.cells, key).value) == Some(Shape(value.valueType, Many)) {
          PayloadIsWellShaped(r, MemberCell(FieldOf(r.cells, key).value, value), Deleted);
          WroteKeepsInv(sys, i, MemberCell(FieldOf(r.cells, key).value, value), Deleted);
        }
      case Clear(i, _, order) => DeletedEachKeepsInv(sys, i, order);
      case Sync(_, _) => SyncKeepsInv(allows, sys, a);
    }
  }

  // ------------------------------------------------------------------------ all runs

  ghost predicate Starts(sys: System) {
    sys.history == map[] && forall i :: 0 <= i < |sys.replicas| ==> sys.replicas[i] == Replica(map[], 0, i)
  }

  ghost predicate IsRun(allows: Registry, states: seq<System>, actions: seq<Action>) {
    && |states| == |actions| + 1 && Starts(states[0])
    && forall n :: 0 <= n < |actions| ==>
         && Enabled(states[n], actions[n])
         && WellShaped(states[n].replicas[actions[n].at].cells)
         && states[n + 1] == Apply(allows, states[n], actions[n])
  }

  lemma {:induction false} RunKeepsInv(allows: Registry, states: seq<System>, actions: seq<Action>, n: nat)
    requires IsRun(allows, states, actions) && n <= |actions|
    ensures Inv(states[n])
  {
    hide Apply, Enabled, WellShaped;
    if n == 0 {
      StartsInv(states[0]);
    } else {
      RunKeepsInv(allows, states, actions, n - 1);
      StepKeepsInv(allows, states[n - 1], actions[n - 1]);
    }
  }

  lemma StartsInv(sys: System)
    requires Starts(sys)
    ensures Inv(sys)
  {
  }

  /** In every reachable state no replica shows a field of mixed shape. */
  lemma NoMixedShapeEver(allows: Registry, states: seq<System>, actions: seq<Action>, n: nat, i: nat, key: string)
    requires IsRun(allows, states, actions) && n <= |actions| && i < |states[n].replicas|
    ensures var view := View(states[n].replicas[i].cells, key); view.Some? ==> Unmixed(view.value)
  {
    hide Apply, Enabled, WellShaped, Unmixed;
    RunKeepsInv(allows, states, actions, n);
    assert ReplicaInv(states[n], i);
    if View(states[n].replicas[i].cells, key).Some? {
      WellShapedIsUnmixed(states[n].replicas[i].cells, key);
    }
  }

  /** In every reachable state merging is a join: order, grouping and repetition of
      deliveries do not matter, so replicas that exchanged everything are equal. */
  lemma ReplicasConverge(allows: Registry, states: seq<System>, actions: seq<Action>, n: nat, i: nat, j: nat, k: nat)
    requires IsRun(allows, states, actions) && n <= |actions|
    requires i < |states[n].replicas| && j < |states[n].replicas| && k < |states[n].replicas|
    ensures var a, b, c := states[n].replicas[i].cells, states[n].replicas[j].cells, states[n].replicas[k].cells;
            && Merge(a, b) == Merge(b, a)
            && Merge(Merge(a, b), c) == Merge(a, Merge(b, c))
            && Merge(Merge(a, b), b) == Merge(a, b)
  {
    hide Apply, Enabled, WellShaped, Merge;
    RunKeepsInv(allows, states, actions, n);
    var sys := states[n];
    assert ReplicaInv(sys, i) && ReplicaInv(sys, j) && ReplicaInv(sys, k);
    var a, b, c := sys.replicas[i].cells, sys.replicas[j].cells, sys.replicas[k].cells;
    MergeIsCommutative(a, b, sys.history);
    MergeIsAssociative(a, b, c, sys.history);
    MergeIsAssociative(a, b, b, sys.history);
    MergeIsIdempotent(b);
  }

  // -------------------------------------------------------------- removal and creation

  /** Removing a field beats every concurrent edit inside it: a replica that still
      selects the same generation, whatever it wrote there, loses the field. */
  lemma RemovalBeatsConcurrentEdits(r: Replica, other: Cells, key: string)
    requires Bounded(r) && FieldCell(key) in r.cells && FieldCell(key) in other
    requires other[FieldCell(key)] == r.cells[FieldCell(key)]
    ensures View(Merge(RemoveField(r, key).cells, other), key).None?
    ensures View(Merge(other, RemoveField(r, key).cells), key).None?
  {
    hide FieldIn;
  }

  /** A field set where none is visible - removed here, or by another replica whose removal
      won the merge - shows the new value and nothing an older generation held. */
  lemma RecreatedFieldIsNew(allows: Registry, sys: System, i: nat, key: string, value: Value, cardinality: Cardinality)
    requires Inv(sys) && i < |sys.replicas| && WellShaped(sys.replicas[i].cells)
    requires FieldOf(sys.replicas[i].cells, key).None? && allows(key, Shape(value.valueType, cardinality))
    ensures var after := Apply(allows, sys, Set(i, key, value, cardinality));
            View(after.replicas[i].cells, key) == Some(Only(value, cardinality))
  {
    hide WellShaped;
    NewGenerationIsUnknown(sys, i, i);
    NewFieldShows(sys.replicas[i], key, value, cardinality);
  }

  /** A removal leaves no field, whatever was there. */
  lemma RemovedFieldIsGone(allows: Registry, sys: System, i: nat, key: string)
    requires i < |sys.replicas| && WellShaped(sys.replicas[i].cells)
    ensures FieldOf(Apply(allows, sys, Remove(i, key)).replicas[i].cells, key).None?
  {
  }

  function Only(value: Value, cardinality: Cardinality): Field {
    var shape := Shape(value.valueType, cardinality);
    if cardinality.Single? then Field(Some(shape), Some(value), {}) else Field(Some(shape), None, {value})
  }

  lemma NewFieldShows(r: Replica, key: string, value: Value, cardinality: Cardinality)
    requires Unknown(r.cells, Now(r))
    ensures var created := Create(r, key, Shape(value.valueType, cardinality));
            View(Put(created, PayloadCell(Now(r), value, cardinality), Holds(value)).cells, key) == Some(Only(value, cardinality))
  {
    var g := Now(r);
    var after := Put(Create(r, key, Shape(value.valueType, cardinality)), PayloadCell(g, value, cardinality), Holds(value)).cells;
    if cardinality.Single? {
      assert forall c :: c in after && c.MemberCell? ==> c in r.cells;
      assert Members(after, g) == {};
    } else {
      assert forall c :: c in after && c.MemberCell? && c.generation == g ==> c == MemberCell(g, value);
      assert MemberCell(g, value) in after;
      assert Members(after, g) == {value};
      assert SingleCell(g) !in after;
    }
  }
}
