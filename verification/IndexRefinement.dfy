/**
 Advancing the index by one commit's delta gives the index a rebuild would, exactly
 when no unit outside the change set shows something that changed.
 */
module IndexRefinement {
  import opened Records
  import opened IndexDelta

  // ------------------------------------------------------------- what Loro reports

  /** Home maps are not records. */
  predicate WellPlaced(g: Graph, roots: set<nat>) {
    forall id :: id in g ==> g[id].container !in roots
  }

  /** The record under `id` is the container it was. */
  predicate Kept(before: Graph, after: Graph, id: string) {
    id in before && id in after && before[id].container == after[id].container
  }

  predicate InRecord(change: Change, roots: set<nat>, id: string, container: nat) {
    2 <= |change.path| && change.path[0].0 in roots && change.path[1] == (container, Key(id))
  }

  predicate ListsKey(change: Change, roots: set<nat>, id: string) {
    change.target in roots && id in change.mapKeys
  }

  predicate WritesField(change: Change, roots: set<nat>, id: string, container: nat, field: string) {
    InRecord(change, roots, id, container) && change.target == container && field in change.mapKeys
  }

  /** A record keeps the root and the root text it was created with. */
  predicate SameRoot(a: Entity, b: Entity) {
    && a.hasRoot == b.hasRoot && a.text.Some? == b.text.Some?
    && (a.text.Some? ==> a.text.value.container == b.text.value.container)
  }

  /** The root text is the same container with other characters. */
  predicate TextEdited(a: Entity, b: Entity) {
    && a.text != b.text && a.text.Some? && b.text.Some?
    && a.text.value.container == b.text.value.container
  }

  ghost predicate FieldsReported(a: Entity, b: Entity, id: string, roots: set<nat>, captured: seq<Change>) {
    && (a != b ==> exists c :: c in captured && InRecord(c, roots, id, b.container))
    && (a.nameRegister != b.nameRegister ==> exists c :: c in captured && WritesField(c, roots, id, b.container, "name"))
    && (a.kindRegister != b.kindRegister ==> exists c :: c in captured && WritesField(c, roots, id, b.container, "kind"))
    && (TextEdited(a, b) ==>
          exists c :: c in captured && InRecord(c, roots, id, b.container) && c.target == b.text.value.container)
  }

  ghost predicate Listed(roots: set<nat>, captured: seq<Change>, id: string) {
    exists c :: c in captured && ListsKey(c, roots, id)
  }

  /** Every difference between the graphs was captured: in the record, or by its home
      listing the key.  A home may also list the key of a record that stayed, as when two
      replicas created it independently. */
  ghost predicate Reported(before: Graph, after: Graph, roots: set<nat>, captured: seq<Change>) {
    && (forall id :: id in before.Keys + after.Keys && !Kept(before, after, id) ==> Listed(roots, captured, id))
    && (forall id :: Kept(before, after, id) ==>
          Listed(roots, captured, id) || FieldsReported(before[id], after[id], id, roots, captured))
  }

  // --------------------------------------------------- what the change set then says

  lemma {:induction false} CreatedOnlyListed(roots: set<nat>, captured: seq<Change>, id: string)
    ensures id in CreatedBy(roots, captured) <==> Listed(roots, captured, id)
  {
    if captured != [] {
      var front, last := captured[..|captured| - 1], captured[|captured| - 1];
      CreatedOnlyListed(roots, front, id);
      assert forall c :: c in captured <==> c in front || c == last;
      assert ListsKey(last, roots, id) <==> last.target in roots && id in last.mapKeys;
      assert last in captured;
    }
  }

  lemma {:induction false} TouchedBy(g: Graph, roots: set<nat>, captured: seq<Change>, owner: Owner)
    ensures owner in AllTouched(g, roots, captured) <==> exists c :: c in captured && owner in Touched(g, roots, c)
  {
    hide Touched;
    if captured != [] {
      var front, last := captured[..|captured| - 1], captured[|captured| - 1];
      TouchedBy(g, roots, front, owner);
      assert forall c :: c in captured <==> c in front || c == last;
    }
  }

  lemma InRecordIsLocated(g: Graph, roots: set<nat>, change: Change, id: string)
    requires WellPlaced(g, roots) && id in g && InRecord(change, roots, id, g[id].container)
    ensures Located(g, change.path) == Some(id)
  {
    assert change.path[1..][0] == change.path[1];
  }

  lemma Forces(g: Graph, roots: set<nat>, created: set<string>, captured: seq<Change>, c: Change)
    requires c in captured && ForcesRebuild(g, roots, created, c)
    ensures AnyForces(g, roots, created, captured)
  {
    var i :| 0 <= i < |captured| && captured[i] == c;
  }

  /** An incremental change set: nothing was removed, and no record was renamed or
      converted that its home did not list again and that kept its root and root text. */
  lemma IncrementalKeepsNames(before: Graph, after: Graph, roots: set<nat>, captured: seq<Change>, id: string)
    requires Reported(before, after, roots, captured) && WellPlaced(after, roots)
    requires !AnyForces(after, roots, CreatedBy(roots, captured), captured)
    ensures id in before ==> id in after
    ensures Kept(before, after, id) && !Listed(roots, captured, id) && SameRoot(before[id], after[id]) ==>
              KindOf(before[id]) == KindOf(after[id]) && NameOf(before[id]) == NameOf(after[id])
  {
    hide AnyForces, CreatedBy;
    var created := CreatedBy(roots, captured);
    if id in before && id !in after {
      assert Listed(roots, captured, id);
      var c :| c in captured && ListsKey(c, roots, id);
      assert ForcesRebuild(after, roots, created, c);
      Forces(after, roots, created, captured, c);
      assert false;
    }
    if Kept(before, after, id) && !Listed(roots, captured, id) && SameRoot(before[id], after[id]) {
      CreatedOnlyListed(roots, captured, id);
      KeptFields(before, after, roots, captured, id);
    }
  }

  lemma KeptFields(before: Graph, after: Graph, roots: set<nat>, captured: seq<Change>, id: string)
    requires Kept(before, after, id) && FieldsReported(before[id], after[id], id, roots, captured) && WellPlaced(after, roots)
    requires id !in CreatedBy(roots, captured) && SameRoot(before[id], after[id])
    requires !AnyForces(after, roots, CreatedBy(roots, captured), captured)
    ensures before[id].nameRegister == after[id].nameRegister
    ensures before[id].kindRegister == after[id].kindRegister
    ensures before[id].text == after[id].text
  {
    hide AnyForces, CreatedBy, Located;
    var a, b, created := before[id], after[id], CreatedBy(roots, captured);
    if a.nameRegister != b.nameRegister {
      var c :| c in captured && WritesField(c, roots, id, b.container, "name");
      InRecordIsLocated(after, roots, c, id);
      Forces(after, roots, created, captured, c);
      assert false;
    }
    if a.kindRegister != b.kindRegister {
      var c :| c in captured && WritesField(c, roots, id, b.container, "kind");
      InRecordIsLocated(after, roots, c, id);
      Forces(after, roots, created, captured, c);
      assert false;
    }
    if TextEdited(a, b) {
      var c :| c in captured && InRecord(c, roots, id, b.container) && c.target == b.text.value.container;
      InRecordIsLocated(after, roots, c, id);
      Forces(after, roots, created, captured, c);
      assert false;
    }
  }

  /** A record that is new, replaced or changed is named by the change set. */
  lemma ChangedIsTouched(before: Graph, after: Graph, roots: set<nat>, captured: seq<Change>, id: string)
    requires Reported(before, after, roots, captured) && WellPlaced(after, roots)
    requires id in after && !(id in before && before[id] == after[id])
    ensures OwnerOf(id, after[id]) in AllTouched(after, roots, captured)
  {
    hide Located, OwnerOf;
    if !Listed(roots, captured, id) {
      assert Kept(before, after, id);
      var c :| c in captured && InRecord(c, roots, id, after[id].container);
      InRecordIsLocated(after, roots, c, id);
      TouchedBy(after, roots, captured, OwnerOf(id, after[id]));
    } else {
      var c :| c in captured && ListsKey(c, roots, id);
      assert OwnerOf(id, after[id]) in Touched(after, roots, c);
      TouchedBy(after, roots, captured, OwnerOf(id, after[id]));
    }
  }

  /** Only current owners are named. */
  lemma TouchedAreCurrent(g: Graph, roots: set<nat>, captured: seq<Change>, owner: Owner)
    requires owner in AllTouched(g, roots, captured)
    ensures owner.id in g && OwnerOf(owner.id, g[owner.id]) == owner
  {
    hide Located;
    TouchedBy(g, roots, captured, owner);
    var c :| c in captured && owner in Touched(g, roots, c);
  }

  // --------------------------------------------------------------- the refinement

  /** An unchanged record still shows what it showed. */
  ghost predicate ShowsTheSame(before: Graph, after: Graph, e: Entity) {
    && (forall r :: r in e.pageRefs ==> Title(before, r) == Title(after, r))
    && (forall t :: t in e.tagRefs ==> TagIsLive(before, t) == TagIsLive(after, t))
  }

  /** No unit outside the change set references a page whose title changed or a tag
      that was deleted, restored or first stored. */
  ghost predicate UntouchedShowTheSame(before: Graph, after: Graph, touched: set<Owner>) {
    forall id :: id in after && Projects(after[id]) && OwnerOf(id, after[id]) !in touched ==>
      ShowsTheSame(before, after, after[id])
  }

  /** No record that had a unit comes back as the other kind. */
  ghost predicate NoneConverted(before: Graph, after: Graph) {
    forall id :: id in before && id in after && Projects(before[id]) ==> KindOf(before[id]) == KindOf(after[id])
  }

  /** What a commit's delta needs: the change set covers every unit that shows a change. */
  ghost predicate StaysExact(before: Graph, after: Graph, roots: set<nat>, captured: seq<Change>) {
    UntouchedShowTheSame(before, after, AllTouched(after, roots, captured)) && NoneConverted(before, after)
  }

  lemma ShownIffSame(before: Graph, after: Graph, e: Entity)
    ensures Shown(before, e) == Shown(after, e) <==> ShowsTheSame(before, after, e)
  {
    hide Title, TagIsLive;
    if Shown(before, e) == Shown(after, e) {
      forall r | r in e.pageRefs ensures Title(before, r) == Title(after, r) {
        assert Titles(before, e.pageRefs)[r] == Titles(after, e.pageRefs)[r];
      }
      forall t | t in e.tagRefs ensures TagIsLive(before, t) == TagIsLive(after, t) {
        assert t in LiveTags(before, e.tagRefs) <==> t in LiveTags(after, e.tagRefs);
      }
    }
    if ShowsTheSame(before, after, e) {
      assert Titles(before, e.pageRefs) == Titles(after, e.pageRefs);
      assert LiveTags(before, e.tagRefs) == LiveTags(after, e.tagRefs);
    }
  }

  lemma AdvancedAt(before: Graph, after: Graph, touched: set<Owner>, owner: Owner)
    ensures var index := ApplyDelta(IndexUnits(before), DeltaFor(after, touched));
            var unit := UnitAt(if owner in touched then after else before, owner);
            && (owner in index <==> unit.Some?)
            && (owner in index ==> index[owner] == unit.value)
  {
    hide UnitAt, IndexUnits;
    IndexUnitsAt(before, owner);
    var delta := DeltaFor(after, touched);
    assert owner in delta <==> owner in touched;
  }

  /** Outside the change set the old unit is the new one, under the condition. */
  lemma UntouchedUnit(before: Graph, after: Graph, roots: set<nat>, captured: seq<Change>, owner: Owner)
    requires Reported(before, after, roots, captured) && WellPlaced(after, roots)
    requires !AnyForces(after, roots, CreatedBy(roots, captured), captured)
    requires owner !in AllTouched(after, roots, captured)
    requires UntouchedShowTheSame(before, after, AllTouched(after, roots, captured)) && NoneConverted(before, after)
    ensures UnitAt(before, owner) == UnitAt(after, owner)
  {
    hide AnyForces, CreatedBy, AllTouched, Reported, Shown, NameOf, KindOf;
    var id := owner.id;
    IncrementalKeepsNames(before, after, roots, captured, id);
    if id in after {
      if id in before && before[id] == after[id] {
        if Projects(after[id]) && OwnerOf(id, after[id]) == owner {
          assert ShowsTheSame(before, after, after[id]);
          ShownIffSame(before, after, after[id]);
        }
      } else {
        ChangedIsTouched(before, after, roots, captured, id);
      }
    }
  }

  /** The condition is also necessary. */
  lemma DeltaNeedsTheCondition(before: Graph, after: Graph, roots: set<nat>, captured: seq<Change>)
    requires Reported(before, after, roots, captured) && WellPlaced(after, roots)
    requires ApplyDelta(IndexUnits(before), DeltaFor(after, AllTouched(after, roots, captured))) == IndexUnits(after)
    ensures UntouchedShowTheSame(before, after, AllTouched(after, roots, captured)) && NoneConverted(before, after)
  {
    hide AllTouched, Reported, Shown, NameOf, KindOf, IndexUnits, ApplyDelta, DeltaFor;
    var touched := AllTouched(after, roots, captured);
    forall id | id in after && Projects(after[id]) && OwnerOf(id, after[id]) !in touched
      ensures ShowsTheSame(before, after, after[id])
    {
      var owner := OwnerOf(id, after[id]);
      if !(id in before && before[id] == after[id]) {
        ChangedIsTouched(before, after, roots, captured, id);
      }
      AdvancedAt(before, after, touched, owner);
      IndexUnitsAt(after, owner);
      ShownIffSame(before, after, after[id]);
    }
    forall id | id in before && id in after && Projects(before[id]) ensures KindOf(before[id]) == KindOf(after[id]) {
      var owner := OwnerOf(id, before[id]);
      if owner in touched {
        TouchedAreCurrent(after, roots, captured, owner);
      }
      AdvancedAt(before, after, touched, owner);
      IndexUnitsAt(after, owner);
    }
  }

  /** Advancing equals rebuilding if and only if no untouched unit shows something
      that changed and no replaced record changed kind. */
  lemma AdvanceEqualsRebuildIff(before: Graph, after: Graph, roots: set<nat>, captured: seq<Change>)
    requires Reported(before, after, roots, captured) && WellPlaced(after, roots)
    ensures var changes := ChangesOf(after, roots, captured);
            Advanced(IndexUnits(before), after, changes) == IndexUnits(after) <==>
            changes.Rebuild? || StaysExact(before, after, roots, captured)
  {
    hide AnyForces, CreatedBy, AllTouched, Reported, UntouchedShowTheSame, NoneConverted, IndexUnits, ApplyDelta, DeltaFor, UnitAt, OfOwners;
    var changes := ChangesOf(after, roots, captured);
    if changes.Incremental? {
      var touched := AllTouched(after, roots, captured);
      var advanced := ApplyDelta(IndexUnits(before), DeltaFor(after, touched));
      if UntouchedShowTheSame(before, after, touched) && NoneConverted(before, after) {
        forall owner ensures (owner in advanced <==> owner in IndexUnits(after)) &&
                             (owner in advanced ==> advanced[owner] == IndexUnits(after)[owner])
        {
          AdvancedAt(before, after, touched, owner);
          IndexUnitsAt(after, owner);
          if owner !in touched {
            UntouchedUnit(before, after, roots, captured, owner);
          }
        }
        assert advanced == IndexUnits(after);
      }
      if advanced == IndexUnits(after) {
        DeltaNeedsTheCondition(before, after, roots, captured);
      }
    }
  }

  // --------------------------------------------- when the condition is guaranteed

  /** Every page reference of a unit names a stored record: what causal validation checks. */
  ghost predicate NoDanglingPages(g: Graph) {
    forall id, r :: id in g && r in g[id].pageRefs ==> r in g
  }

  /** Stored records are never replaced or listed again, keep their root and root text,
      and a journal page keeps its date. */
  ghost predicate RecordsStay(before: Graph, after: Graph, roots: set<nat>, captured: seq<Change>) {
    forall id :: id in before && id in after ==>
      && Kept(before, after, id) && !Listed(roots, captured, id)
      && SameRoot(before[id], after[id]) && before[id].journalDate == after[id].journalDate
  }

  /** Every unit that references a tag whose liveness flipped is in the change set. */
  ghost predicate FlippedTagsTouched(before: Graph, after: Graph, touched: set<Owner>) {
    forall id, t :: id in after && t in after[id].tagRefs && TagIsLive(before, t) != TagIsLive(after, t) ==>
      OwnerOf(id, after[id]) in touched
  }

  /** The title of a stored page that stays cannot change without a rebuild, so only
      tag liveness needs to be watched. */
  lemma AdvanceEqualsRebuild(before: Graph, after: Graph, roots: set<nat>, captured: seq<Change>)
    requires Reported(before, after, roots, captured) && WellPlaced(after, roots)
    requires NoDanglingPages(before) && RecordsStay(before, after, roots, captured)
    requires FlippedTagsTouched(before, after, AllTouched(after, roots, captured))
    ensures Advanced(IndexUnits(before), after, ChangesOf(after, roots, captured)) == IndexUnits(after)
  {
    hide AnyForces, CreatedBy, AllTouched, Reported, IndexUnits, Advanced, NameOf, KindOf, Named, OfOwners;
    var changes := ChangesOf(after, roots, captured);
    var touched := AllTouched(after, roots, captured);
    if changes.Incremental? {
      forall id | id in before && id in after ensures KindOf(before[id]) == KindOf(after[id]) {
        IncrementalKeepsNames(before, after, roots, captured, id);
      }
      forall id | id in after && Projects(after[id]) && OwnerOf(id, after[id]) !in touched
        ensures ShowsTheSame(before, after, after[id])
      {
        if !(id in before && before[id] == after[id]) {
          ChangedIsTouched(before, after, roots, captured, id);
        }
        forall r | r in after[id].pageRefs ensures Title(before, r) == Title(after, r) {
          IncrementalKeepsNames(before, after, roots, captured, r);
        }
      }
    }
    AdvanceEqualsRebuildIff(before, after, roots, captured);
  }
}
