/**
 What the query index answers from, said of the records' own registers: which records
 have a unit, what a unit shows, what a commit's delta does to it, and when a commit
 cannot be expressed as a delta.
 */
module IndexFacts {
  import opened Records
  import opened IndexDelta

  // ------------------------------------------------------------------------- the units

  /** The kind register decides, and without one whether the record has a root. */
  predicate IsPage(e: Entity) {
    e.kindRegister == Some(PageKind) || (e.kindRegister.None? && e.hasRoot)
  }

  /** Exactly the records that are not deleted have a unit: a page under its page identity,
      a tag that has a name under its tag identity. */
  lemma UnitsAreLiveRecords(g: Graph, owner: Owner)
    ensures owner in IndexUnits(g) <==>
      && owner.id in g && !g[owner.id].deleted
      && (owner.Page? <==> IsPage(g[owner.id]))
      && (owner.Tag? ==> g[owner.id].nameRegister.Some? || g[owner.id].text.Some?)
  {
  }

  /** The name a record goes by: its register, else its root's text. */
  ghost predicate GoesBy(e: Entity, name: string) {
    && (e.nameRegister.Some? ==> name == e.nameRegister.value)
    && (e.nameRegister.None? && e.text.Some? ==> name == e.text.value.value)
    && (e.nameRegister.None? && e.text.None? ==> name == "")
  }

  /** What a reference shows: a journal page's date, any other record's name, and the bare
      identity where nothing is stored. */
  ghost predicate ReferenceShows(g: Graph, id: string, title: string) {
    && (id !in g ==> title == id)
    && (id in g ==>
          var e := g[id];
          if e.journalDate.Some? && IsPage(e)
          then title == e.journalDate.value else GoesBy(e, title))
  }

  /** A unit shows its record's name, date and body, a title for each page its blocks
      reference, and those of its tags that are stored and not deleted. */
  lemma UnitShowsItsRecord(g: Graph, owner: Owner)
    requires owner in IndexUnits(g)
    ensures owner.id in g
    ensures var e, unit := g[owner.id], IndexUnits(g)[owner];
      && GoesBy(e, unit.name) && unit.journalDate == e.journalDate && unit.body == e.body
      && unit.titles.Keys == e.pageRefs
      && (forall id :: id in e.pageRefs ==> ReferenceShows(g, id, unit.titles[id]))
      && (forall id :: id in unit.tags <==> id in e.tagRefs && id in g && !g[id].deleted)
  {
  }

  // ------------------------------------------------------------------------- the delta

  /** After a delta for some owners, those have a unit exactly when a rebuild would give
      them one, with what a rebuild would show; every other unit is as it was. */
  lemma DeltaIsExact(index: Index, g: Graph, owners: set<Owner>, owner: Owner)
    ensures var after := ApplyDelta(index, DeltaFor(g, owners));
      if owner in owners then
        && (owner in after <==> owner in IndexUnits(g))
        && (owner in after ==> after[owner] == IndexUnits(g)[owner])
      else
        && (owner in after <==> owner in index)
        && (owner in after ==> after[owner] == index[owner])
  {
    IndexUnitsAt(g, owner);
  }

  /** A record its commit deleted is removed, under either identity. */
  lemma DeletedRecordIsRemoved(index: Index, g: Graph, owners: set<Owner>, owner: Owner)
    requires owner in owners && (owner.id in g ==> g[owner.id].deleted)
    ensures DeltaFor(g, owners)[owner] == Remove && owner !in ApplyDelta(index, DeltaFor(g, owners))
  {
  }

  // -------------------------------------------------------------------- the change set

  /** The record `id` is the first one the path goes through, at its step `i`. */
  ghost predicate FirstRecordOn(g: Graph, path: seq<(nat, Step)>, i: nat, id: string) {
    && i < |path| && IsRecordAt(g, path[i], id)
    && forall j, other :: 0 <= j < i ==> !IsRecordAt(g, path[j], other)
  }

  predicate IsRecordAt(g: Graph, step: (nat, Step), id: string) {
    step.1 == Key(id) && id in g && g[id].container == step.0
  }

  lemma {:induction false} LocatedIsFirst(g: Graph, path: seq<(nat, Step)>, id: string)
    ensures Located(g, path) == Some(id) <==> exists i: nat :: FirstRecordOn(g, path, i, id)
    decreases |path|
  {
    if path != [] {
      if path[0].1.Key? && IsRecordAt(g, path[0], path[0].1.name) {
        assert FirstRecordOn(g, path, 0, path[0].1.name);
      } else {
        LocatedIsFirst(g, path[1..], id);
        if Located(g, path) == Some(id) {
          var i: nat :| FirstRecordOn(g, path[1..], i, id);
          forall j, other | 0 <= j < i + 1 ensures !IsRecordAt(g, path[j], other) {
            assert j > 0 ==> path[j] == path[1..][j - 1];
          }
          assert FirstRecordOn(g, path, i + 1, id);
        }
        if i: nat :| FirstRecordOn(g, path, i, id) {
          assert i > 0;
          forall j, other | 0 <= j < i - 1 ensures !IsRecordAt(g, path[1..][j], other) {
            assert path[1..][j] == path[j + 1];
          }
          assert FirstRecordOn(g, path[1..], i - 1, id);
        }
      }
    }
  }

  /** The commit lists this key in one of the record homes. */
  ghost predicate ListedIn(roots: set<nat>, captured: seq<Change>, id: string) {
    exists i :: 0 <= i < |captured| && captured[i].target in roots && id in captured[i].mapKeys
  }

  lemma {:induction false} CreatedIsListed(roots: set<nat>, captured: seq<Change>, id: string)
    ensures id in CreatedBy(roots, captured) <==> ListedIn(roots, captured, id)
  {
    if captured != [] {
      var front, n := captured[..|captured| - 1], |captured| - 1;
      CreatedIsListed(roots, front, id);
      if ListedIn(roots, front, id) {
        var i :| 0 <= i < n && front[i].target in roots && id in front[i].mapKeys;
        assert captured[i] == front[i];
      }
      if ListedIn(roots, captured, id) {
        var i :| 0 <= i < |captured| && captured[i].target in roots && id in captured[i].mapKeys;
        if i < n {
          assert front[i] == captured[i];
        }
      }
    }
  }

  /** A change that other units may show: an event of unknown content, a record that left,
      or, for a record the commit does not list, a write to its name or kind register or
      to the text its name stands in. */
  ghost predicate ReachesOthers(g: Graph, roots: set<nat>, captured: seq<Change>, c: Change) {
    || c.unknown
    || (c.target in roots && exists id :: id in c.mapKeys && id !in g)
    || (exists i: nat, id ::
          && FirstRecordOn(g, c.path, i, id) && !ListedIn(roots, captured, id)
          && (|| (c.target == g[id].container && ("name" in c.mapKeys || "kind" in c.mapKeys))
              || (g[id].text.Some? && g[id].text.value.container == c.target)))
  }

  lemma ForcesIff(g: Graph, roots: set<nat>, captured: seq<Change>, c: Change)
    ensures ForcesRebuild(g, roots, CreatedBy(roots, captured), c) <==> ReachesOthers(g, roots, captured, c)
  {
    hide FirstRecordOn, ListedIn, CreatedBy, Located;
    if Located(g, c.path).Some? {
      var id := Located(g, c.path).value;
      LocatedIsFirst(g, c.path, id);
      CreatedIsListed(roots, captured, id);
    }
    forall i: nat, id | FirstRecordOn(g, c.path, i, id) ensures Located(g, c.path) == Some(id) {
      LocatedIsFirst(g, c.path, id);
    }
  }

  /** The change set is a rebuild exactly when some captured change reaches other units. */
  lemma RebuildIff(g: Graph, roots: set<nat>, captured: seq<Change>)
    ensures ChangesOf(g, roots, captured).Rebuild? <==>
            exists i :: 0 <= i < |captured| && ReachesOthers(g, roots, captured, captured[i])
  {
    hide ForcesRebuild, ReachesOthers, CreatedBy;
    forall i | 0 <= i < |captured| ensures
      ForcesRebuild(g, roots, CreatedBy(roots, captured), captured[i]) <==> ReachesOthers(g, roots, captured, captured[i])
    {
      ForcesIff(g, roots, captured, captured[i]);
    }
  }

  /** A change of this record: its home lists it, or it happens inside it. */
  ghost predicate Concerns(g: Graph, roots: set<nat>, c: Change, id: string) {
    (c.target in roots && id in c.mapKeys) || exists i: nat :: FirstRecordOn(g, c.path, i, id)
  }

  lemma {:induction false} TouchedAre(g: Graph, roots: set<nat>, captured: seq<Change>, owner: Owner)
    ensures owner in AllTouched(g, roots, captured) <==>
      && owner.id in g && OwnerOf(owner.id, g[owner.id]) == owner
      && exists i :: 0 <= i < |captured| && Concerns(g, roots, captured[i], owner.id)
  {
    hide Concerns, Touched, OwnerOf;
    if captured != [] {
      var front, n := captured[..|captured| - 1], |captured| - 1;
      TouchedAre(g, roots, front, owner);
      TouchedOne(g, roots, captured[n], owner);
      if i :| 0 <= i < |front| && Concerns(g, roots, front[i], owner.id) {
        assert captured[i] == front[i];
      }
      if i :| 0 <= i < |captured| && Concerns(g, roots, captured[i], owner.id) {
        assert i < n ==> front[i] == captured[i];
      }
    }
  }

  lemma TouchedOne(g: Graph, roots: set<nat>, c: Change, owner: Owner)
    ensures owner in Touched(g, roots, c) <==>
      owner.id in g && OwnerOf(owner.id, g[owner.id]) == owner && Concerns(g, roots, c, owner.id)
  {
    hide FirstRecordOn, Located;
    LocatedIsFirst(g, c.path, owner.id);
    if Located(g, c.path).Some? {
      LocatedIsFirst(g, c.path, Located(g, c.path).value);
    }
  }

  /** An incremental change set names a stored record, under the identity of its kind,
      exactly when some captured change concerns it. */
  lemma NamedIff(g: Graph, roots: set<nat>, captured: seq<Change>, owner: Owner)
    requires ChangesOf(g, roots, captured).Incremental?
    ensures owner in Named(ChangesOf(g, roots, captured)) <==>
      && owner.id in g
      && (owner.Page? <==> IsPage(g[owner.id]))
      && exists i :: 0 <= i < |captured| && Concerns(g, roots, captured[i], owner.id)
  {
    hide Concerns, AnyForces, Named, CreatedBy, AllTouched;
    TouchedAre(g, roots, captured, owner);
  }
}
