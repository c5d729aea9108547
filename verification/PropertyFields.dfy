/**
 Property fields under merge.  The containing bag keeps one last-writer register per
 key, which selects a whole child generation; a generation is named by the operation
 that created it and holds a shape and a payload in registers of its own.  A replica
 is the latest write it knows for each register, and merging takes the later write of
 every register.
 */
module PropertyFields {
  import opened Records

  /** Lamport time with the peer as tie break. */
  datatype Stamp = Stamp(lamport: nat, peer: nat)

  predicate Before(a: Stamp, b: Stamp) {
    a.lamport < b.lamport || (a.lamport == b.lamport && a.peer < b.peer)
  }

  datatype Cardinality = Single | Many

  datatype Shape = Shape(valueType: nat, cardinality: Cardinality)

  datatype Value = Value(valueType: nat, encoded: string)

  datatype Cell =
    | FieldCell(key: string)
    | ShapeCell(generation: Stamp)
    | SingleCell(generation: Stamp)
    | MemberCell(generation: Stamp, member: Value)

  datatype Content =
    | Selected(generation: Stamp)
    | ShapeIs(shape: Shape)
    | Holds(value: Value)
    | Deleted

  datatype Write = Write(stamp: Stamp, content: Content)

  type Cells = map<Cell, Write>

  // ------------------------------------------------------------------------ merging

  function Later(a: Write, b: Write): Write {
    if Before(a.stamp, b.stamp) then b else a
  }

  function Merge(a: Cells, b: Cells): Cells {
    map c | c in a.Keys + b.Keys ::
      if c !in a then b[c] else if c !in b then a[c] else Later(a[c], b[c])
  }

  /** What every stamp wrote: no stamp is used twice. */
  type History = map<Stamp, (Cell, Content)>

  ghost predicate Within(cells: Cells, history: History) {
    forall c :: c in cells ==> cells[c].stamp in history && history[cells[c].stamp] == (c, cells[c].content)
  }

  lemma MergeIsCommutative(a: Cells, b: Cells, history: History)
    requires Within(a, history) && Within(b, history)
    ensures Merge(a, b) == Merge(b, a)
  {
    forall c | c in a && c in b ensures Later(a[c], b[c]) == Later(b[c], a[c]) {
      if a[c].stamp == b[c].stamp {
        assert a[c] == b[c];
      }
    }
  }

  lemma MergeIsAssociative(a: Cells, b: Cells, c: Cells, history: History)
    requires Within(a, history) && Within(b, history) && Within(c, history)
    ensures Merge(Merge(a, b), c) == Merge(a, Merge(b, c))
  {
    forall k | k in a && k in b && k in c ensures Later(Later(a[k], b[k]), c[k]) == Later(a[k], Later(b[k], c[k])) {
    }
  }

  lemma MergeIsIdempotent(a: Cells)
    ensures Merge(a, a) == a
  {
  }

  lemma MergeStaysWithin(a: Cells, b: Cells, history: History)
    requires Within(a, history) && Within(b, history)
    ensures Within(Merge(a, b), history)
  {
  }

  // ----------------------------------------------------------------------- the view

  function FieldOf(cells: Cells, key: string): Option<Stamp> {
    if FieldCell(key) in cells && cells[FieldCell(key)].content.Selected?
    then Some(cells[FieldCell(key)].content.generation) else None
  }

  function ShapeOf(cells: Cells, g: Stamp): Option<Shape> {
    if ShapeCell(g) in cells && cells[ShapeCell(g)].content.ShapeIs?
    then Some(cells[ShapeCell(g)].content.shape) else None
  }

  function Live(cells: Cells, c: Cell): Option<Value> {
    if c in cells && cells[c].content.Holds? then Some(cells[c].content.value) else None
  }

  function Members(cells: Cells, g: Stamp): set<Value> {
    set c | c in cells && c.MemberCell? && c.generation == g && cells[c].content.Holds? :: c.member
  }

  datatype Field = Field(shape: Option<Shape>, single: Option<Value>, members: set<Value>)

  function FieldIn(cells: Cells, g: Stamp): Field {
    Field(ShapeOf(cells, g), Live(cells, SingleCell(g)), Members(cells, g))
  }

  /** What a reader sees under `key`. */
  function View(cells: Cells, key: string): Option<Field> {
    match FieldOf(cells, key)
    case None => None
    case Some(g) => Some(FieldIn(cells, g))
  }

  // ------------------------------------------------------------------ well-shapedness

  function Next(s: Stamp): Stamp {
    Stamp(s.lamport + 1, s.peer)
  }

  /** A register holds what its kind may hold, and a payload fits the shape of its generation. */
  ghost predicate FitsCell(cells: Cells, c: Cell) 
    requires c in cells
  {
    var content := cells[c].content;
    match c
    case FieldCell(_) => content.Deleted? || (content.Selected? && ShapeOf(cells, content.generation).Some?)
    case ShapeCell(g) => content.ShapeIs? && cells[c].stamp == Next(g)
    case SingleCell(g) =>
      && ShapeOf(cells, g).Some? && ShapeOf(cells, g).value.cardinality.Single?
      && (content.Deleted? || (content.Holds? && content.value.valueType == ShapeOf(cells, g).value.valueType))
    case MemberCell(g, member) =>
      && ShapeOf(cells, g).Some? && ShapeOf(cells, g).value == Shape(member.valueType, Many)
      && (content.Deleted? || content == Holds(member))
  }

  ghost predicate WellShaped(cells: Cells) {
    forall c :: c in cells ==> FitsCell(cells, c)
  }

  /** Replicas agree on the shape of every generation both know. */
  lemma SameShape(a: Cells, b: Cells, g: Stamp, history: History)
    requires Within(a, history) && Within(b, history) && WellShaped(a) && WellShaped(b)
    requires ShapeCell(g) in a && ShapeCell(g) in b
    ensures a[ShapeCell(g)] == b[ShapeCell(g)]
  {
    assert FitsCell(a, ShapeCell(g)) && FitsCell(b, ShapeCell(g));
  }

  lemma MergeKeepsShape(a: Cells, b: Cells, g: Stamp, history: History)
    requires Within(a, history) && Within(b, history) && WellShaped(a) && WellShaped(b)
    ensures ShapeOf(a, g).Some? ==> ShapeOf(Merge(a, b), g) == ShapeOf(a, g)
    ensures ShapeOf(b, g).Some? ==> ShapeOf(Merge(a, b), g) == ShapeOf(b, g)
  {
    if ShapeCell(g) in a && ShapeCell(g) in b {
      SameShape(a, b, g, history);
    }
  }

  lemma MergeStaysWellShaped(a: Cells, b: Cells, history: History)
    requires Within(a, history) && Within(b, history) && WellShaped(a) && WellShaped(b)
    ensures WellShaped(Merge(a, b))
  {
    var merged := Merge(a, b);
    forall c | c in merged ensures FitsCell(merged, c) {
      if c in a && merged[c] == a[c] {
        FitsAfterMerge(a, merged, c, a, b, history);
      } else {
        FitsAfterMerge(b, merged, c, a, b, history);
      }
    }
  }

  lemma FitsAfterMerge(from: Cells, merged: Cells, c: Cell, a: Cells, b: Cells, history: History)
    requires Within(a, history) && Within(b, history) && WellShaped(a) && WellShaped(b)
    requires merged == Merge(a, b) && (from == a || from == b) && c in from && c in merged && merged[c] == from[c]
    ensures FitsCell(merged, c)
  {
    hide Merge, WellShaped, Within;
    assert FitsCell(from, c) by { FitsOne(from, c); }
    match c
    case FieldCell(_) =>
      if from[c].content.Selected? {
        MergeKeepsShape(a, b, from[c].content.generation, history);
      }
    case ShapeCell(_) =>
    case SingleCell(g) => MergeKeepsShape(a, b, g, history);
    case MemberCell(g, _) => MergeKeepsShape(a, b, g, history);
  }

  lemma FitsOne(cells: Cells, c: Cell)
    requires WellShaped(cells) && c in cells
    ensures FitsCell(cells, c)
  {
  }

  /** No field ever mixes shapes: its payload is of one cardinality and one type. */
  ghost predicate Unmixed(field: Field) {
    && field.shape.Some?
    && (field.shape.value.cardinality.Single? ==> field.members == {})
    && (field.shape.value.cardinality.Many? ==> field.single.None?)
    && (field.single.Some? ==> field.single.value.valueType == field.shape.value.valueType)
    && (forall v :: v in field.members ==> v.valueType == field.shape.value.valueType)
  }

  lemma WellShapedIsUnmixed(cells: Cells, key: string)
    requires WellShaped(cells) && View(cells, key).Some?
    ensures Unmixed(View(cells, key).value)
  {
    assert FitsCell(cells, FieldCell(key));
    var g := FieldOf(cells, key).value;
    if SingleCell(g) in cells {
      assert FitsCell(cells, SingleCell(g));
    }
    forall v | v in Members(cells, g) ensures ShapeOf(cells, g).value == Shape(v.valueType, Many) {
      var c :| c in cells && c.MemberCell? && c.generation == g && c.member == v;
      assert FitsCell(cells, c);
    }
  }

  // -------------------------------------------------------- what merging does to a field

  /** A replica that knows nothing of a generation adds nothing to it. */
  ghost predicate Unknown(cells: Cells, g: Stamp) {
    forall c :: c in cells && !c.FieldCell? ==> c.generation != g
  }

  lemma UnknownAddsNothing(a: Cells, b: Cells, g: Stamp)
    requires Unknown(b, g)
    ensures FieldIn(Merge(a, b), g) == FieldIn(a, g)
  {
    var merged := Merge(a, b);
    assert forall c :: c in merged && !c.FieldCell? && c.generation == g ==> c in a && merged[c] == a[c];
    assert forall c :: c in a && !c.FieldCell? && c.generation == g ==> c in merged && merged[c] == a[c];
    assert Members(merged, g) == Members(a, g);
  }

  /** Concurrent first creations: the winner's whole generation, nothing of the other. */
  lemma ConcurrentCreationsPickOne(a: Cells, b: Cells, key: string, history: History)
    requires Within(a, history) && Within(b, history)
    requires FieldOf(a, key).Some? && FieldOf(b, key).Some?
    requires Unknown(b, FieldOf(a, key).value) && Unknown(a, FieldOf(b, key).value)
    ensures View(Merge(a, b), key) ==
            if Before(a[FieldCell(key)].stamp, b[FieldCell(key)].stamp) then View(b, key) else View(a, key)
  {
    hide FieldIn, Unknown;
    UnknownAddsNothing(a, b, FieldOf(a, key).value);
    UnknownAddsNothing(b, a, FieldOf(b, key).value);
    MergeIsCommutative(a, b, history);
  }

  /** A removal stands against everything but a later selection of the same key: edits
      inside the removed generation are writes to other registers and cannot undo it. */
  lemma RemovalWinsIff(removed: Cells, other: Cells, key: string, history: History)
    requires Within(removed, history) && Within(other, history) && WellShaped(other)
    requires FieldCell(key) in removed && removed[FieldCell(key)].content.Deleted?
    ensures View(Merge(removed, other), key).None? <==>
            FieldOf(other, key).None? || !Before(removed[FieldCell(key)].stamp, other[FieldCell(key)].stamp)
  {
    hide FieldIn;
    if FieldCell(key) in other {
      FitsOne(other, FieldCell(key));
    }
  }

  /** A recreated field shows exactly what was written into its own generation, whatever
      an older replica still holds of the removed one. */
  lemma RecreationNeverResurfaces(recreated: Cells, other: Cells, key: string)
    requires FieldOf(recreated, key).Some? && Unknown(other, FieldOf(recreated, key).value)
    requires FieldCell(key) in other ==> Before(other[FieldCell(key)].stamp, recreated[FieldCell(key)].stamp)
    ensures View(Merge(recreated, other), key) == View(recreated, key)
    ensures View(Merge(other, recreated), key) == View(recreated, key)
  {
    hide FieldIn, Unknown;
    var g := FieldOf(recreated, key).value;
    UnknownAddsNothing(recreated, other, g);
    UnknownAddsNothingLeft(other, recreated, g);
  }

  lemma UnknownAddsNothingLeft(b: Cells, a: Cells, g: Stamp)
    requires Unknown(b, g)
    ensures FieldIn(Merge(b, a), g) == FieldIn(a, g)
  {
    var merged := Merge(b, a);
    assert forall c :: c in merged && !c.FieldCell? && c.generation == g ==> c in a && merged[c] == a[c];
    assert forall c :: c in a && !c.FieldCell? && c.generation == g ==> c in merged && merged[c] == a[c];
    assert Members(merged, g) == Members(a, g);
  }
}
