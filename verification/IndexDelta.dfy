/**
 The projection units of the query index, the tracker that turns one commit's
 diffs into a change set, and the delta an index is advanced by.

 A unit shows its own record, the titles of the pages its blocks reference, and
 which of its tag references name a live entity.  The materialised text and spans
 of a block determine each title they show, so a unit is modelled as the injective
 tuple of what it reads.
 */
module IndexDelta {
  import opened Records

  datatype Kind = PageKind | TagKind

  datatype Text = Text(container: nat, value: string)

  /** A record under its entity ID, whichever home stores it. */
  datatype Entity = Entity(
    container: nat,
    kindRegister: Option<Kind>,
    hasRoot: bool,
    nameRegister: Option<string>,
    text: Option<Text>,
    journalDate: Option<string>,
    deleted: bool,
    body: nat,
    pageRefs: set<string>,
    tagRefs: set<string>)

  type Graph = map<string, Entity>

  datatype Owner = Page(id: string) | Tag(id: string)

  datatype Unit = Unit(name: string, journalDate: Option<string>, body: nat, titles: map<string, string>, tags: set<string>)

  type Index = map<Owner, Unit>

  // ------------------------------------------------------------------- projection

  function KindOf(e: Entity): Kind {
    if e.kindRegister.Some? then e.kindRegister.value else if e.hasRoot then PageKind else TagKind
  }

  function NameOf(e: Entity): Option<string> {
    if e.nameRegister.Some? then e.nameRegister
    else if e.text.Some? then Some(e.text.value.value)
    else None
  }

  function OwnerOf(id: string, e: Entity): Owner {
    if KindOf(e).PageKind? then Page(id) else Tag(id)
  }

  function OrEmpty(name: Option<string>): string {
    if name.Some? then name.value else ""
  }

  /** The title a reference to `id` shows: the identity itself while nothing is stored under it. */
  function Title(g: Graph, id: string): string {
    if id !in g then id
    else if KindOf(g[id]).PageKind? && g[id].journalDate.Some? then g[id].journalDate.value
    else OrEmpty(NameOf(g[id]))
  }

  predicate TagIsLive(g: Graph, id: string) {
    id in g && !g[id].deleted
  }

  function Titles(g: Graph, ids: set<string>): map<string, string> {
    map id | id in ids :: Title(g, id)
  }

  function LiveTags(g: Graph, ids: set<string>): set<string> {
    set id | id in ids && TagIsLive(g, id)
  }

  function Shown(g: Graph, e: Entity): Unit {
    Unit(OrEmpty(NameOf(e)), e.journalDate, e.body, Titles(g, e.pageRefs), LiveTags(g, e.tagRefs))
  }

  /** A record's own unit, if it projects to one. */
  predicate Projects(e: Entity) {
    !e.deleted && (KindOf(e).TagKind? ==> NameOf(e).Some?)
  }

  function UnitAt(g: Graph, owner: Owner): Option<Unit> {
    if owner.id in g && OwnerOf(owner.id, g[owner.id]) == owner && Projects(g[owner.id])
    then Some(Shown(g, g[owner.id]))
    else None
  }

  /** `index_units`: the whole projection. */
  function IndexUnits(g: Graph): Index {
    map id | id in g && Projects(g[id]) :: OwnerOf(id, g[id]) := Shown(g, g[id])
  }

  lemma IndexUnitsAt(g: Graph, owner: Owner)
    ensures owner in IndexUnits(g) <==> UnitAt(g, owner).Some?
    ensures owner in IndexUnits(g) ==> IndexUnits(g)[owner] == UnitAt(g, owner).value
  {
  }

  // ------------------------------------------------------------ the change tracker

  datatype Step = Key(name: string) | Node(id: nat)

  /** One captured diff; each path step carries the container it leads to. */
  datatype Change = Change(unknown: bool, target: nat, path: seq<(nat, Step)>, mapKeys: set<string>)

  datatype ChangeSet = Incremental(pages: set<string>, tags: set<string>) | Rebuild

  function RequireRebuild(s: ChangeSet): ChangeSet {
    Rebuild
  }

  function Include(s: ChangeSet, owner: Owner): ChangeSet {
    match s
    case Rebuild => Rebuild
    case Incremental(pages, tags) =>
      match owner
      case Page(id) => Incremental(pages + {id}, tags)
      case Tag(id) => Incremental(pages, tags + {id})
  }

  /** The first step of the path that is a stored record. */
  function Located(g: Graph, path: seq<(nat, Step)>): (found: Option<string>)
    ensures found.Some? ==> found.value in g
  {
    if path == [] then None
    else if path[0].1.Key? && path[0].1.name in g && g[path[0].1.name].container == path[0].0 then Some(path[0].1.name)
    else Located(g, path[1..])
  }

  predicate RenamesOrConverts(e: Entity, change: Change) {
    || (change.target == e.container && ("name" in change.mapKeys || "kind" in change.mapKeys))
    || (e.text.Some? && e.text.value.container == change.target)
  }

  /** A change that no list of units covers. */
  predicate ForcesRebuild(g: Graph, roots: set<nat>, created: set<string>, change: Change) {
    || change.unknown
    || (change.target in roots && exists id :: id in change.mapKeys && id !in g)
    || (var at := Located(g, change.path);
        at.Some? && at.value !in created && RenamesOrConverts(g[at.value], change))
  }

  function Touched(g: Graph, roots: set<nat>, change: Change): set<Owner> {
    var here := if change.target in roots then set id | id in change.mapKeys && id in g :: OwnerOf(id, g[id]) else {};
    match Located(g, change.path)
    case Some(id) => here + {OwnerOf(id, g[id])}
    case None => here
  }

  function CreatedBy(roots: set<nat>, captured: seq<Change>): set<string> {
    if captured == [] then {} else
      CreatedBy(roots, captured[..|captured| - 1]) +
      if captured[|captured| - 1].target in roots then captured[|captured| - 1].mapKeys else {}
  }

  ghost predicate AnyForces(g: Graph, roots: set<nat>, created: set<string>, captured: seq<Change>) {
    exists i :: 0 <= i < |captured| && ForcesRebuild(g, roots, created, captured[i])
  }

  function AllTouched(g: Graph, roots: set<nat>, captured: seq<Change>): set<Owner> {
    if captured == [] then {} else
      AllTouched(g, roots, captured[..|captured| - 1]) + Touched(g, roots, captured[|captured| - 1])
  }

  /** The owners a change set names. */
  function Named(s: ChangeSet): set<Owner>
    requires s.Incremental?
  {
    (set id | id in s.pages :: Page(id)) + (set id | id in s.tags :: Tag(id))
  }

  /** The change set of one commit's diffs: a rebuild if any of them forces one, and
      otherwise the owners they touch. */
  ghost function ChangesOf(g: Graph, roots: set<nat>, captured: seq<Change>): ChangeSet {
    if AnyForces(g, roots, CreatedBy(roots, captured), captured) then Rebuild
    else OfOwners(AllTouched(g, roots, captured))
  }

  function OfOwners(owners: set<Owner>): (s: ChangeSet)
    ensures s.Incremental? && Named(s) == owners
  {
    var s := Incremental(set o | o in owners && o.Page? :: o.id, set o | o in owners && o.Tag? :: o.id);
    assert forall o :: o in owners <==> o in Named(s) by {
      forall o ensures o in owners <==> o in Named(s) {
        assert o == if o.Page? then Page(o.id) else Tag(o.id);
      }
    }
    s
  }

  lemma NamedDetermines(s: ChangeSet, owners: set<Owner>)
    requires s.Incremental? && Named(s) == owners
    ensures s == OfOwners(owners)
  {
    assert forall id :: id in s.pages <==> Page(id) in Named(s);
    assert forall id :: id in s.tags <==> Tag(id) in Named(s);
    assert forall id :: id in OfOwners(owners).pages <==> Page(id) in owners;
    assert forall id :: id in OfOwners(owners).tags <==> Tag(id) in owners;
  }

  lemma IncludeNames(s: ChangeSet, owner: Owner)
    requires s.Incremental?
    ensures Include(s, owner).Incremental? && Named(Include(s, owner)) == Named(s) + {owner}
  {
  }

  method Created(roots: set<nat>, captured: seq<Change>) returns (created: set<string>)
    ensures created == CreatedBy(roots, captured)
  {
    created := {};
    for i := 0 to |captured|
      invariant created == CreatedBy(roots, captured[..i])
    {
      assert captured[..i + 1][..i] == captured[..i];
      if captured[i].target in roots {
        created := created + captured[i].mapKeys;
      }
    }
    assert captured[..|captured|] == captured;
  }

  method IncludeRecords(g: Graph, start: ChangeSet, keys: set<string>) returns (result: ChangeSet)
    ensures result.Rebuild? <==> start.Rebuild? || exists id :: id in keys && id !in g
    ensures result.Incremental? ==> Named(result) == Named(start) + set id | id in keys && id in g :: OwnerOf(id, g[id])
  {
    result := start;
    var rest := keys;
    ghost var owners: set<Owner> := {};
    while rest != {}
      invariant rest <= keys
      invariant result.Rebuild? <==> start.Rebuild? || exists id :: id in keys - rest && id !in g
      invariant owners == set id | id in keys - rest && id in g :: OwnerOf(id, g[id])
      invariant result.Incremental? ==> Named(result) == Named(start) + owners
      decreases rest
    {
      var id :| id in rest;
      rest := rest - {id};
      if id in g {
        if result.Incremental? {
          IncludeNames(result, OwnerOf(id, g[id]));
        }
        result := Include(result, OwnerOf(id, g[id]));
        owners := owners + {OwnerOf(id, g[id])};
      } else {
        result := RequireRebuild(result);
      }
    }
    assert keys - rest == keys;
  }

  method Finish(g: Graph, roots: set<nat>, captured: seq<Change>) returns (result: ChangeSet)
    ensures result == ChangesOf(g, roots, captured)
  {
    result := Incremental({}, {});
    var created := Created(roots, captured);
    for i := 0 to |captured|
      invariant result.Rebuild? <==> AnyForces(g, roots, created, captured[..i])
      invariant result.Incremental? ==> Named(result) == AllTouched(g, roots, captured[..i])
    {
      var change := captured[i];
      assert captured[..i + 1][..i] == captured[..i];
      ForcesOneMore(g, roots, created, captured, i);
      if change.unknown {
        result := RequireRebuild(result);
        continue;
      }
      result := FinishOne(g, roots, created, result, change);
    }
    assert captured[..|captured|] == captured;
    if result.Incremental? {
      NamedDetermines(result, AllTouched(g, roots, captured));
    }
  }

  method FinishOne(g: Graph, roots: set<nat>, created: set<string>, start: ChangeSet, change: Change) returns (result: ChangeSet)
    requires !change.unknown
    ensures result.Rebuild? <==> start.Rebuild? || ForcesRebuild(g, roots, created, change)
    ensures result.Incremental? ==> Named(result) == Named(start) + Touched(g, roots, change)
  {
    hide Named;
    result := start;
    if change.target in roots {
      result := IncludeRecords(g, result, change.mapKeys);
    }
    var at := Located(g, change.path);
    if at.Some? {
      if at.value !in created && RenamesOrConverts(g[at.value], change) {
        result := RequireRebuild(result);
      }
      if result.Incremental? {
        IncludeNames(result, OwnerOf(at.value, g[at.value]));
      }
      result := Include(result, OwnerOf(at.value, g[at.value]));
    }
  }

  lemma ForcesOneMore(g: Graph, roots: set<nat>, created: set<string>, captured: seq<Change>, i: nat)
    requires i < |captured|
    ensures AnyForces(g, roots, created, captured[..i + 1]) <==>
            AnyForces(g, roots, created, captured[..i]) || ForcesRebuild(g, roots, created, captured[i])
  {
    hide ForcesRebuild;
    var before, after := captured[..i], captured[..i + 1];
    if j :| 0 <= j < |after| && ForcesRebuild(g, roots, created, after[j]) {
      assert j < i ==> before[j] == after[j];
    }
    if j :| 0 <= j < |before| && ForcesRebuild(g, roots, created, before[j]) {
      assert after[j] == before[j];
    }
    assert after[i] == captured[i];
  }

  // ------------------------------------------------------------------- the delta

  datatype IndexChange = Upsert(unit: Unit) | Remove

  function DeltaFor(g: Graph, owners: set<Owner>): map<Owner, IndexChange> {
    map owner | owner in owners :: if UnitAt(g, owner).Some? then Upsert(UnitAt(g, owner).value) else Remove
  }

  method BuildDelta(g: Graph, changes: ChangeSet) returns (delta: Option<map<Owner, IndexChange>>)
    ensures delta.None? <==> changes.Rebuild?
    ensures delta.Some? ==> delta.value == DeltaFor(g, Named(changes))
  {
    if changes.Rebuild? {
      return None;
    }
    var built: map<Owner, IndexChange> := map[];
    var owners := Named(changes);
    var rest := owners;
    while rest != {}
      invariant rest <= owners
      invariant built == DeltaFor(g, owners - rest)
      decreases rest
    {
      hide UnitAt;
      var owner :| owner in rest;
      var unit := UnitAt(g, owner);
      built := built[owner := if unit.Some? then Upsert(unit.value) else Remove];
      assert owners - (rest - {owner}) == (owners - rest) + {owner};
      rest := rest - {owner};
    }
    assert owners - rest == owners;
    return Some(built);
  }

  function ApplyDelta(index: Index, delta: map<Owner, IndexChange>): Index {
    map owner | owner in index.Keys + delta.Keys && (owner in delta ==> delta[owner].Upsert?) ::
      if owner in delta then delta[owner].unit else index[owner]
  }

  /** `apply_index_changes`: advance by the delta, or rebuild. */
  function Advanced(index: Index, g: Graph, changes: ChangeSet): Index {
    match changes
    case Rebuild => IndexUnits(g)
    case Incremental(_, _) => ApplyDelta(index, DeltaFor(g, Named(changes)))
  }
}
