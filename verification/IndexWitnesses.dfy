/**
 Commits after which the advanced index is not the one a rebuild would give.  In each a
 page changes in a way its own unit shows, while another page that references it, or a
 page that references a tag, is not in the change set.
 */
module IndexWitnesses {
  import opened Records
  import opened IndexDelta
  import opened IndexRefinement

  /** A captured commit that forces no rebuild and leaves the advanced index wrong. */
  ghost predicate FallsShort(before: Graph, after: Graph, captured: seq<Change>) {
    && Reported(before, after, {0}, captured) && WellPlaced(after, {0})
    && !AnyForces(after, {0}, CreatedBy({0}, captured), captured)
    && ApplyDelta(IndexUnits(before), DeltaFor(after, AllTouched(after, {0}, captured))) != IndexUnits(after)
  }

  lemma StaleUnitFallsShort(before: Graph, after: Graph, captured: seq<Change>, owner: Owner)
    requires Reported(before, after, {0}, captured) && WellPlaced(after, {0})
    requires !AnyForces(after, {0}, CreatedBy({0}, captured), captured)
    requires owner !in AllTouched(after, {0}, captured) && UnitAt(before, owner) != UnitAt(after, owner)
    ensures FallsShort(before, after, captured)
  {
    hide UnitAt, IndexUnits, ApplyDelta, DeltaFor, AllTouched, AnyForces, Reported;
    AdvancedAt(before, after, AllTouched(after, {0}, captured), owner);
    IndexUnitsAt(after, owner);
  }

  function Plain(container: nat, name: string, pageRefs: set<string>, tagRefs: set<string>): Entity {
    Entity(container, None, true, Some(name), None, None, false, 0, pageRefs, tagRefs)
  }

  const REFERRER := Plain(2, "Q", {"p"}, {})

  /** A page `p` with a page `q` that references it. */
  function Pair(p: Entity): Graph {
    map["p" := p, "q" := REFERRER]
  }

  // ------------------------------------------------------------- one page, one referrer

  /** `p` gets another title, and the commit names `p` alone. */
  lemma OtherTitleFallsShort(old_: Entity, new_: Entity, captured: seq<Change>)
    requires old_.container != 0 && new_.container != 0
    requires Title(Pair(old_), "p") != Title(Pair(new_), "p")
    requires Reported(Pair(old_), Pair(new_), {0}, captured)
    requires !AnyForces(Pair(new_), {0}, CreatedBy({0}, captured), captured)
    requires Page("q") !in AllTouched(Pair(new_), {0}, captured)
    ensures FallsShort(Pair(old_), Pair(new_), captured)
  {
    hide Reported, AnyForces, AllTouched, CreatedBy, Title, Shown;
    ReferrerShows(old_);
    ReferrerShows(new_);
    StaleUnitFallsShort(Pair(old_), Pair(new_), captured, Page("q"));
  }

  lemma ReferrerShows(p: Entity)
    ensures UnitAt(Pair(p), Page("q")) == Some(Shown(Pair(p), REFERRER))
    ensures Shown(Pair(p), REFERRER).titles["p"] == Title(Pair(p), "p")
  {
    hide Title;
  }

  /** Only `p` may differ, and its difference is listed or reported. */
  lemma PairReported(old_: Entity, new_: Entity, captured: seq<Change>)
    requires Listed({0}, captured, "p") ||
             (old_.container == new_.container && FieldsReported(old_, new_, "p", {0}, captured))
    ensures Reported(Pair(old_), Pair(new_), {0}, captured)
  {
    assert Kept(Pair(old_), Pair(new_), "q") && FieldsReported(REFERRER, REFERRER, "q", {0}, captured);
    assert forall id :: id in Pair(old_).Keys + Pair(new_).Keys ==> id == "p" || id == "q";
  }

  /** A commit whose diffs are all the home listing `p` or changes inside `p`. */
  ghost predicate OnlyP(new_: Entity, captured: seq<Change>) {
    forall c :: c in captured ==> IsAboutP(new_, c)
  }

  predicate IsAboutP(new_: Entity, c: Change) {
    && !c.unknown
    && if c.target == 0 then c.mapKeys == {"p"} && Located(Pair(new_), c.path) == None
       else Located(Pair(new_), c.path) == Some("p")
  }

  lemma OnlyPIsTouched(new_: Entity, captured: seq<Change>)
    requires OnlyP(new_, captured)
    ensures Page("q") !in AllTouched(Pair(new_), {0}, captured)
  {
    hide Located;
    TouchedBy(Pair(new_), {0}, captured, Page("q"));
  }

  /** Once the home lists `p`, nothing inside it forces a rebuild. */
  lemma ListedForcesNothing(new_: Entity, captured: seq<Change>)
    requires OnlyP(new_, captured)
    requires Listed({0}, captured, "p") || forall c :: c in captured ==> !RenamesOrConverts(new_, c)
    ensures !AnyForces(Pair(new_), {0}, CreatedBy({0}, captured), captured)
  {
    hide Located, CreatedBy;
    CreatedOnlyListed({0}, captured, "p");
    forall i | 0 <= i < |captured| ensures !ForcesRebuild(Pair(new_), {0}, CreatedBy({0}, captured), captured[i]) {
      assert captured[i] in captured;
    }
  }

  lemma FallsShortOn(old_: Entity, new_: Entity, captured: seq<Change>)
    requires old_.container != 0 && new_.container != 0 && OnlyP(new_, captured)
    requires Title(Pair(old_), "p") != Title(Pair(new_), "p")
    requires
      || Listed({0}, captured, "p")
      || (&& old_.container == new_.container && FieldsReported(old_, new_, "p", {0}, captured)
          && forall c :: c in captured ==> !RenamesOrConverts(new_, c))
    ensures FallsShort(Pair(old_), Pair(new_), captured)
  {
    hide Reported, AnyForces, AllTouched, CreatedBy, Title, Located, OnlyP, FieldsReported, RenamesOrConverts;
    PairReported(old_, new_, captured);
    OnlyPIsTouched(new_, captured);
    ListedForcesNothing(new_, captured);
    OtherTitleFallsShort(old_, new_, captured);
  }

  const OLD_PAGE := Plain(1, "Old", {}, {})

  const RELISTED := Change(false, 0, [(0, Key("entities"))], {"p"})

  lemma RelistedNamesP(new_: Entity)
    requires new_.container != 0
    ensures Located(Pair(new_), RELISTED.path) == None
  {
  }

  /** A stored page replaced under its own ID counts as created, so its new name forces
      no rebuild and a page that references it keeps showing the old one. */
  lemma ReplacedPageLeavesStaleTitle()
    ensures FallsShort(Pair(OLD_PAGE), Pair(Plain(3, "New", {}, {})), [RELISTED])
  {
    hide FallsShort;
    var new_ := Plain(3, "New", {}, {});
    RelistedNamesP(new_);
    assert RELISTED in [RELISTED] && ListsKey(RELISTED, {0}, "p");
    assert Title(Pair(OLD_PAGE), "p")[0] != Title(Pair(new_), "p")[0];
    FallsShortOn(OLD_PAGE, new_, [RELISTED]);
  }

  const RENAMED := Change(false, 1, [(0, Key("entities")), (1, Key("p"))], {"name"})

  /** Two replicas created the same page offline: the record stays one container, but the
      import lists its key again, and its rename then forces no rebuild either. */
  lemma RelistedPageLeavesStaleTitle()
    ensures FallsShort(Pair(OLD_PAGE), Pair(OLD_PAGE.(nameRegister := Some("New"))), [RELISTED, RENAMED])
  {
    hide FallsShort;
    var new_ := OLD_PAGE.(nameRegister := Some("New"));
    RelistedNamesP(new_);
    assert InRecord(RENAMED, {0}, "p", 1);
    InRecordIsLocated(Pair(new_), {0}, RENAMED, "p");
    assert RELISTED in [RELISTED, RENAMED] && ListsKey(RELISTED, {0}, "p");
    assert Title(Pair(OLD_PAGE), "p")[0] != Title(Pair(new_), "p")[0];
    FallsShortOn(OLD_PAGE, new_, [RELISTED, RENAMED]);
  }

  function InRoot(name: Option<Text>): Entity {
    Entity(1, None, true, None, name, None, false, 0, {}, {})
  }

  const REROOTED := Change(false, 9, [(0, Key("entities")), (1, Key("p")), (9, Key("root"))], {"content"})

  /** A replaced root text is not the text the rename check looks for. */
  lemma ReplacedTextLeavesStaleTitle()
    ensures FallsShort(Pair(InRoot(Some(Text(5, "Old")))), Pair(InRoot(Some(Text(6, "New")))), [REROOTED])
  {
    hide FallsShort;
    var old_, new_ := InRoot(Some(Text(5, "Old"))), InRoot(Some(Text(6, "New")));
    assert InRecord(REROOTED, {0}, "p", 1);
    InRecordIsLocated(Pair(new_), {0}, REROOTED, "p");
    assert REROOTED in [REROOTED];
    assert Title(Pair(old_), "p")[0] != Title(Pair(new_), "p")[0];
    FallsShortOn(old_, new_, [REROOTED]);
  }

  const REDATED := Change(false, 9, [(0, Key("entities")), (1, Key("p")), (9, Key("properties"))], {"builtin.journal-date"})

  /** A journal page's title is its date, and changing that property forces no rebuild. */
  lemma JournalDateLeavesStaleTitle()
    ensures FallsShort(Pair(OLD_PAGE.(journalDate := Some("1"))), Pair(OLD_PAGE.(journalDate := Some("2"))), [REDATED])
  {
    hide FallsShort;
    var old_, new_ := OLD_PAGE.(journalDate := Some("1")), OLD_PAGE.(journalDate := Some("2"));
    assert InRecord(REDATED, {0}, "p", 1);
    InRecordIsLocated(Pair(new_), {0}, REDATED, "p");
    assert REDATED in [REDATED];
    assert Title(Pair(old_), "p")[0] != Title(Pair(new_), "p")[0];
    FallsShortOn(old_, new_, [REDATED]);
  }

  // --------------------------------------------------------------------- a restored tag

  const TAGGED := Plain(2, "Q", {}, {"t"})

  function Tagging(deleted: bool): Graph {
    map["t" := Plain(1, "T", {}, {}).(deleted := deleted), "q" := TAGGED]
  }

  const RESTORED := Change(false, 9, [(0, Key("entities")), (1, Key("t")), (9, Key("properties"))], {"builtin.deleted-at"})

  /** Restoring a deleted tag names only the tag, so a page that references it still
      shows no tag. */
  lemma RestoredTagLeavesStaleUnit()
    ensures FallsShort(Tagging(true), Tagging(false), [RESTORED])
  {
    hide Shown, UnitAt, Located, Touched, ForcesRebuild, FallsShort, Reported, AllTouched, AnyForces;
    assert InRecord(RESTORED, {0}, "t", 1);
    InRecordIsLocated(Tagging(false), {0}, RESTORED, "t");
    RestoredIsReported();
    TaggedShows(true);
    TaggedShows(false);
    RestoredTouchesOnlyTheTag();
    StaleUnitFallsShort(Tagging(true), Tagging(false), [RESTORED], Page("q"));
  }

  lemma RestoredIsReported()
    ensures Reported(Tagging(true), Tagging(false), {0}, [RESTORED])
  {
    assert RESTORED in [RESTORED] && InRecord(RESTORED, {0}, "t", 1);
    assert FieldsReported(TAGGED, TAGGED, "q", {0}, [RESTORED]);
    assert FieldsReported(Tagging(true)["t"], Tagging(false)["t"], "t", {0}, [RESTORED]);
    assert forall id :: id in Tagging(true).Keys + Tagging(false).Keys ==> id == "t" || id == "q";
  }

  lemma RestoredTouchesOnlyTheTag()
    requires Located(Tagging(false), RESTORED.path) == Some("t")
    ensures Page("q") !in AllTouched(Tagging(false), {0}, [RESTORED])
    ensures !AnyForces(Tagging(false), {0}, CreatedBy({0}, [RESTORED]), [RESTORED])
  {
    hide Located, CreatedBy;
    TouchedBy(Tagging(false), {0}, [RESTORED], Page("q"));
    assert [RESTORED][0] == RESTORED;
  }

  lemma TaggedShows(deleted: bool)
    ensures UnitAt(Tagging(deleted), Page("q")).Some?
    ensures UnitAt(Tagging(deleted), Page("q")).value.tags == if deleted then {} else {"t"}
  {
  }
}
