/**
 Incremental validation refines full validation: for a document that was valid
 and an update whose differences are reported, checking the recorded units gives
 the verdict of checking everything.
 */
module CausalRefinement {
  import opened Records
  import opened CausalValidation

  // ------------------------------------------------- what the recorder accumulates

  function Join(a: Scope, b: Scope): Scope {
    Scope(a.full || b.full, a.metadata || b.metadata, a.settings || b.settings,
          a.headers + b.headers, a.documents + b.documents, a.blocks + b.blocks)
  }

  ghost predicate Included(a: Scope, b: Scope) {
    && (a.metadata ==> b.metadata) && (a.settings ==> b.settings)
    && a.headers <= b.headers && a.documents <= b.documents && a.blocks <= b.blocks
  }

  /** The units of one diff do not depend on what was recorded before it. */
  lemma ClassifiedJoins(scope: Scope, e: ContainerDiff)
    ensures match Classified(NOTHING, e)
            case None => Classified(scope, e).None?
            case Some(units) => !units.full && Classified(scope, e) == Some(Join(scope, units))
  {
    hide Keyed, Created;
    assert forall s: set<(Home, string)> :: {} + s == s && s + {} == s;
    assert forall s: set<(Home, string, nat)> :: {} + s == s && s + {} == s;
  }

  /** Unless the whole document is asked for, every event left its units in the scope. */
  lemma {:induction false} RecordedCovers(events: seq<ContainerDiff>, e: ContainerDiff)
    requires e in events && !Recorded(events).full
    ensures Classified(NOTHING, e).Some? && Included(Classified(NOTHING, e).value, Recorded(events))
  {
    hide Classified;
    var front, last := events[..|events| - 1], events[|events| - 1];
    ClassifiedJoins(Recorded(front), last);
    if e != last {
      var i :| 0 <= i < |events| && events[i] == e;
      assert front[i] == e;
      RecordedCovers(front, e);
    }
  }

  lemma RootIsRecorded(e: ContainerDiff, root: string)
    requires ReportsRoot(e, root) && Classified(NOTHING, e).Some?
    ensures root == "meta" ==> Classified(NOTHING, e).value.metadata
    ensures root == "graph_settings" ==> Classified(NOTHING, e).value.settings
  {
  }

  lemma HomeIsClassified(e: ContainerDiff, home: Home)
    requires At(e, home, []) && !e.unknown
    ensures Classified(NOTHING, e) == InHome(NOTHING, home, e)
  {
    assert e.path[0].name != "meta" && e.path[0].name != "graph_settings";
  }

  lemma RemovalForcesFull(e: ContainerDiff, home: Home, id: string)
    requires ReportsHome(e, home, id, false)
    ensures Classified(NOTHING, e).None?
  {
    if !e.unknown {
      HomeIsClassified(e, home);
    }
  }

  /** A reported removal always falls back to the whole-document check: it is the one
      change that can break a reference or a lookup in a unit no event names. */
  lemma RemovalChecksWholeDocument(events: seq<ContainerDiff>, e: ContainerDiff, home: Home, id: string)
    requires e in events && ReportsHome(e, home, id, false)
    ensures Recorded(events).full
  {
    RemovalForcesFull(e, home, id);
    if !Recorded(events).full {
      RecordedCovers(events, e);
      assert false;
    }
  }

  lemma AdditionIsRecorded(e: ContainerDiff, home: Home, id: string)
    requires ReportsHome(e, home, id, true) && Classified(NOTHING, e).Some?
    ensures (home, id) in Classified(NOTHING, e).value.documents
  {
    HomeIsClassified(e, home);
  }

  lemma StepsAt(e: ContainerDiff, home: Home, steps: seq<Step>)
    requires At(e, home, steps)
    ensures |e.path| > |steps| && forall i :: 0 <= i < |steps| ==> e.path[i + 1] == steps[i]
  {
    forall i | 0 <= i < |steps| ensures e.path[i + 1] == steps[i] {
      assert e.path[1..][i] == steps[i];
    }
  }

  lemma FieldIsRecorded(e: ContainerDiff, home: Home, id: string)
    requires At(e, home, [Key(id)]) && |e.path| == 2 && Classified(NOTHING, e).Some?
    ensures (home, id) in Classified(NOTHING, e).value.documents
  {
    StepsAt(e, home, [Key(id)]);
    HomeIsClassified(e, home);
    assert e.path[1] == Key(id);
  }

  lemma ChildIsRecorded(e: ContainerDiff, home: Home, id: string, k: string)
    requires At(e, home, [Key(id), Key(k)]) && k != "outline" && Classified(NOTHING, e).Some?
    ensures (home, id) in Classified(NOTHING, e).value.headers
  {
    StepsAt(e, home, [Key(id), Key(k)]);
    HomeIsClassified(e, home);
    assert e.path[1] == Key(id) && e.path[2] == Key(k);
  }

  lemma NodeIsRecorded(e: ContainerDiff, home: Home, id: string, n: nat)
    requires ReportsNode(e, home, id, n) && Classified(NOTHING, e).Some?
    ensures (home, id, n) in Classified(NOTHING, e).value.blocks
  {
    HomeIsClassified(e, home);
    if At(e, home, [Key(id), Key("outline"), Node(n)]) {
      StepsAt(e, home, [Key(id), Key("outline"), Node(n)]);
      assert e.path[1] == Key(id) && e.path[2] == Key("outline") && e.path[3] == Node(n);
    } else {
      StepsAt(e, home, [Key(id), Key("outline")]);
      assert e.path[1] == Key(id) && e.path[2] == Key("outline");
      var i :| 0 <= i < |e.diff.items| && e.diff.items[i] == TreeItem(n, Create);
      assert e.diff.items[i].action.Create?;
    }
  }

  // ------------------------------------------- every recorded unit is in the document

  ghost predicate ScopeLocated(doc: Doc, scope: Scope) {
    && (forall unit :: unit in scope.documents ==> unit.1 in In(doc, unit.0))
    && (forall unit :: unit in scope.headers ==> unit.1 in In(doc, unit.0))
    && (forall unit :: unit in scope.blocks ==> HasNode(doc, unit.0, unit.1, unit.2))
  }

  lemma UnitsLocated(doc: Doc, e: ContainerDiff)
    requires Located(doc, e) && Classified(NOTHING, e).Some?
    ensures ScopeLocated(doc, Classified(NOTHING, e).value)
  {
    var root := e.path[0].name;
    if root != "meta" && root != "graph_settings" {
      var home := HomeNamed(root).value;
      assert At(e, home, []);
      if KeyAt(e.path, 1).None? {
        assert forall id :: id in e.diff.updated ==> ReportsHome(e, home, id, true);
      } else {
        RecordUnitsLocated(doc, e, home, e.path[1].name);
      }
    }
  }

  lemma RecordUnitsLocated(doc: Doc, e: ContainerDiff, home: Home, id: string)
    requires Located(doc, e) && Classified(NOTHING, e).Some?
    requires At(e, home, []) && 2 <= |e.path| && e.path[1] == Key(id)
    ensures ScopeLocated(doc, Classified(NOTHING, e).value)
  {
    HomeIsClassified(e, home);
    assert [Key(id)] <= e.path[1..];
    assert At(e, home, [Key(id)]);
    if KeyAt(e.path, 2) == Some("outline") {
      if |e.path| <= 3 {
        assert At(e, home, [Key(id), Key("outline")]);
        forall unit | unit in Created(home, id, e.diff.items) ensures ReportsNode(e, home, id, unit.2) {
          var i :| 0 <= i < |e.diff.items| && e.diff.items[i].action.Create? && unit == (home, id, e.diff.items[i].target);
          assert e.diff.items[i] == TreeItem(unit.2, Create);
        }
      } else {
        assert At(e, home, [Key(id), Key("outline"), Node(e.path[3].id)]);
        assert ReportsNode(e, home, id, e.path[3].id);
      }
    }
  }

  lemma {:induction false} RecordedLocated(doc: Doc, events: seq<ContainerDiff>)
    requires (forall e :: e in events ==> Located(doc, e)) && !Recorded(events).full
    ensures ScopeLocated(doc, Recorded(events))
  {
    hide Classified, Located, HasNode;
    if events != [] {
      var front, last := events[..|events| - 1], events[|events| - 1];
      ClassifiedJoins(Recorded(front), last);
      RecordedLocated(doc, front);
      UnitsLocated(doc, last);
    }
  }

  // --------------------------------------------------------------- the refinement

  lemma HomesValid(rules: Rules, doc: Doc, home: Home, id: string)
    requires CausalDocumentValid(rules, doc) && id in In(doc, home)
    ensures Single(doc, id) && DocumentValid(rules, doc, home, id)
  {
    assert HomeValid(rules, doc, home);
  }

  /** What the whole-document check accepts, the check of its units accepts. */
  lemma FullImpliesUnits(rules: Rules, doc: Doc, scope: Scope)
    requires CausalDocumentValid(rules, doc) && ScopeLocated(doc, scope)
    ensures UnitsValid(rules, doc, scope)
  {
    hide Single, HeaderValid, BlockValid;
    forall unit | unit in scope.documents ensures DocumentUnitValid(rules, doc, unit) {
      HomesValid(rules, doc, unit.0, unit.1);
    }
    forall unit | unit in scope.headers ensures HeaderUnitValid(rules, doc, unit) {
      HomesValid(rules, doc, unit.0, unit.1);
    }
    forall unit | unit in scope.blocks ensures BlockUnitValid(rules, doc, unit) {
      assert HasNode(doc, unit.0, unit.1, unit.2);
      HomesValid(rules, doc, unit.0, unit.1);
    }
  }

  /** No removal was reported, so every document is still there. */
  lemma DocumentsRemain(before: Doc, after: Doc, events: seq<ContainerDiff>, home: Home, id: string)
    requires Reported(before, after, events) && !Recorded(events).full && id in In(before, home)
    ensures id in In(after, home)
  {
    assert DocumentReported(before, after, events, home, id);
    if id !in In(after, home) {
      var e :| e in events && ReportsHome(e, home, id, false);
      RecordedCovers(events, e);
      RemovalForcesFull(e, home, id);
      assert false;
    }
  }

  /** References survive: only homes grow. */
  lemma ReferencesRemain(rules: Rules, before: Doc, after: Doc, block: Block)
    requires BlockValid(rules, before, block)
    requires forall home, id :: id in In(before, home) ==> id in In(after, home)
    ensures BlockValid(rules, after, block)
  {
    if block.meta.Some? {
      forall segment | segment in block.meta.value.content.value ensures SegmentValid(rules, after, segment) {
        assert SegmentValid(rules, before, segment);
        if segment.Marked? {
          var id := segment.reference;
          assert id in In(before, Entities) || id in In(before, Pages) || id in In(before, Tags);
          assert id in In(after, Entities) || id in In(after, Pages) || id in In(after, Tags);
        }
      }
    }
  }

  /** A document outside the scope's whole documents is the old container. */
  lemma KeptContainer(before: Doc, after: Doc, events: seq<ContainerDiff>, home: Home, id: string)
    requires Reported(before, after, events) && !Recorded(events).full
    requires id in In(after, home) && (home, id) !in Recorded(events).documents
    ensures id in In(before, home)
    ensures In(before, home)[id] == In(after, home)[id] || SameContainer(In(before, home)[id], In(after, home)[id])
  {
    assert DocumentReported(before, after, events, home, id);
    var old_, new_ := In(before, home), In(after, home);
    if id !in old_ || (old_[id] != new_[id] && !SameContainer(old_[id], new_[id])) {
      var e :| e in events && ReportsHome(e, home, id, true);
      RecordedCovers(events, e);
      AdditionIsRecorded(e, home, id);
      assert false;
    }
  }

  lemma KeptSingle(rules: Rules, before: Doc, after: Doc, events: seq<ContainerDiff>, home: Home, id: string)
    requires CausalDocumentValid(rules, before) && Reported(before, after, events) && !Recorded(events).full
    requires UnitsValid(rules, after, Recorded(events)) && id in In(after, home)
    ensures Single(after, id)
  {
    hide DocumentValid, Reported, CausalDocumentValid;
    var scope := Recorded(events);
    if h :| (h, id) in scope.documents {
      assert DocumentUnitValid(rules, after, (h, id));
    } else {
      forall h, k | id in In(after, h) && id in In(after, k) ensures h == k {
        KeptContainer(before, after, events, h, id);
        KeptContainer(before, after, events, k, id);
        HomesValid(rules, before, h, id);
      }
    }
  }

  /** A header no event touched is the header that was valid before. */
  lemma KeptHeader(rules: Rules, before: Doc, after: Doc, events: seq<ContainerDiff>, home: Home, id: string)
    requires CausalDocumentValid(rules, before) && Reported(before, after, events) && !Recorded(events).full
    requires UnitsValid(rules, after, Recorded(events))
    requires id in In(after, home) && (home, id) !in Recorded(events).documents
    ensures HeaderValid(rules, home, id, In(after, home)[id])
  {
    hide Recorded, CausalDocumentValid, BlockValid, Classified, BlocksValid;
    var scope := Recorded(events);
    if (home, id) in scope.headers {
      assert HeaderUnitValid(rules, after, (home, id));
    } else {
      KeptContainer(before, after, events, home, id);
      HomesValid(rules, before, home, id);
      var old_, new_ := In(before, home)[id], In(after, home)[id];
      if old_ != new_ {
        assert DocumentReported(before, after, events, home, id);
        UntouchedHeader(old_, new_, events, home, id);
      }
    }
  }

  lemma KeptFields(before: Entry, after: Entry, events: seq<ContainerDiff>, home: Home, id: string)
    requires SameContainer(before, after) && EntryReported(before, after, events, home, id) && !Recorded(events).full
    requires (home, id) !in Recorded(events).documents
    ensures before.fields == after.fields && SameOutline(before, after)
  {
    hide Recorded, Classified;
    if before.fields != after.fields || !SameOutline(before, after) {
      var e :| e in events && At(e, home, [Key(id)]) && |e.path| == 2;
      RecordedCovers(events, e);
      FieldIsRecorded(e, home, id);
      assert false;
    }
  }

  lemma UntouchedHeader(before: Entry, after: Entry, events: seq<ContainerDiff>, home: Home, id: string)
    requires SameContainer(before, after) && EntryReported(before, after, events, home, id) && !Recorded(events).full
    requires (home, id) !in Recorded(events).documents && (home, id) !in Recorded(events).headers
    ensures before.fields == after.fields && SameOutline(before, after)
    ensures before.children - {"outline"} == after.children - {"outline"}
  {
    hide Recorded, Classified;
    KeptFields(before, after, events, home, id);
    forall k: string | k != "outline" ensures Child(before, k) == Child(after, k) {
      if Child(before, k) != Child(after, k) {
        var e :| e in events && ReportsChild(e, home, id, k);
        RecordedCovers(events, e);
        if At(e, home, [Key(id), Key(k)]) {
          ChildIsRecorded(e, home, id, k);
        } else {
          FieldIsRecorded(e, home, id);
        }
        assert false;
      }
    }
    SameChildren(before, after);
  }

  lemma SameChildren(before: Entry, after: Entry)
    requires before.Record? && after.Record?
    requires forall k: string :: k != "outline" ==> Child(before, k) == Child(after, k)
    ensures before.children - {"outline"} == after.children - {"outline"}
  {
    var a, b := before.children - {"outline"}, after.children - {"outline"};
    forall k: string ensures (k in a <==> k in b) && (k in a ==> a[k] == b[k]) {
      if k != "outline" {
        assert Child(before, k) == Child(after, k);
      }
    }
  }

  /** A block no event named is valid as it was, in the grown document. */
  lemma KeptBlock(rules: Rules, before: Doc, after: Doc, events: seq<ContainerDiff>, home: Home, id: string, n: nat)
    requires CausalDocumentValid(rules, before) && Reported(before, after, events) && !Recorded(events).full
    requires forall h, k :: k in In(before, h) ==> k in In(after, h)
    requires UnitsValid(rules, after, Recorded(events))
    requires HasNode(after, home, id, n) && (home, id) !in Recorded(events).documents
    ensures BlockValid(rules, after, In(after, home)[id].outline.value.blocks[n])
  {
    hide Recorded, CausalDocumentValid, BlockValid, Classified, Quiet;
    KeptContainer(before, after, events, home, id);
    HomesValid(rules, before, home, id);
    var old_, new_ := In(before, home)[id], In(after, home)[id];
    if e :| e in events && ReportsNode(e, home, id, n) {
      RecordedCovers(events, e);
      NodeIsRecorded(e, home, id, n);
      assert BlockUnitValid(rules, after, (home, id, n));
    } else if old_ == new_ {
      ReferencesRemain(rules, before, after, new_.outline.value.blocks[n]);
    } else {
      assert DocumentReported(before, after, events, home, id);
      KeptFields(old_, new_, events, home, id);
      QuietIsValid(rules, before, after, old_.outline.value.blocks, n, new_.outline.value.blocks[n]);
    }
  }

  lemma QuietIsValid(rules: Rules, before: Doc, after: Doc, blocks: map<nat, Block>, n: nat, block: Block)
    requires Quiet(blocks, n, block) && forall m :: m in blocks ==> BlockValid(rules, before, blocks[m])
    requires forall h, k :: k in In(before, h) ==> k in In(after, h)
    ensures BlockValid(rules, after, block)
  {
    if block.meta.Some? || !block.deleted {
      assert BlockValid(rules, before, block);
      ReferencesRemain(rules, before, after, block);
    }
  }

  lemma UnitsImplyFull(rules: Rules, before: Doc, after: Doc, events: seq<ContainerDiff>)
    requires CausalDocumentValid(rules, before) && Reported(before, after, events) && !Recorded(events).full
    requires UnitsValid(rules, after, Recorded(events))
    ensures CausalDocumentValid(rules, after)
  {
    hide Recorded, HeaderValid, BlockValid, Single, DocumentReported;
    forall h, k | k in In(before, h) ensures k in In(after, h) {
      DocumentsRemain(before, after, events, h, k);
    }
    forall home, id | id in In(after, home) ensures Single(after, id) && DocumentValid(rules, after, home, id) {
      KeptSingle(rules, before, after, events, home, id);
      if (home, id) in Recorded(events).documents {
        assert DocumentUnitValid(rules, after, (home, id));
      } else {
        KeptHeader(rules, before, after, events, home, id);
        KeptDocument(rules, before, after, events, home, id);
      }
    }
    assert HomeValid(rules, after, Entities) && HomeValid(rules, after, Pages) && HomeValid(rules, after, Tags);
    RootsValid(rules, before, after, events);
  }

  lemma KeptDocument(rules: Rules, before: Doc, after: Doc, events: seq<ContainerDiff>, home: Home, id: string)
    requires CausalDocumentValid(rules, before) && Reported(before, after, events) && !Recorded(events).full
    requires forall h, k :: k in In(before, h) ==> k in In(after, h)
    requires UnitsValid(rules, after, Recorded(events))
    requires id in In(after, home) && (home, id) !in Recorded(events).documents
    requires HeaderValid(rules, home, id, In(after, home)[id])
    ensures DocumentValid(rules, after, home, id)
  {
    hide Recorded, Reported, UnitsValid, CausalDocumentValid, BlockValid;
    var blocks := In(after, home)[id].outline.value.blocks;
    forall n | n in blocks ensures BlockValid(rules, after, blocks[n]) {
      KeptBlock(rules, before, after, events, home, id, n);
    }
  }

  lemma RootsValid(rules: Rules, before: Doc, after: Doc, events: seq<ContainerDiff>)
    requires CausalDocumentValid(rules, before) && Reported(before, after, events) && !Recorded(events).full
    requires UnitsValid(rules, after, Recorded(events))
    ensures rules.metadata(after.meta) && rules.settings(after.settings)
  {
    hide Recorded, Classified, HomeValid, DocumentReported;
    if before.meta != after.meta {
      var e :| e in events && ReportsRoot(e, "meta");
      RecordedCovers(events, e);
      RootIsRecorded(e, "meta");
    }
    if before.settings != after.settings {
      var e :| e in events && ReportsRoot(e, "graph_settings");
      RecordedCovers(events, e);
      RootIsRecorded(e, "graph_settings");
    }
  }

  /** Incremental validation is full validation, for every reported update of a
      valid document. */
  lemma IncrementalRefinesFull(rules: Rules, before: Doc, after: Doc, events: seq<ContainerDiff>)
    requires CausalDocumentValid(rules, before) && Reported(before, after, events)
    requires forall e :: e in events ==> Located(after, e)
    ensures CausalChangesValid(rules, after, Recorded(events)) <==> CausalDocumentValid(rules, after)
  {
    hide Recorded, Reported, Located, CausalDocumentValid, UnitsValid;
    if !Recorded(events).full {
      RecordedLocated(after, events);
      if CausalDocumentValid(rules, after) {
        FullImpliesUnits(rules, after, Recorded(events));
      }
      if UnitsValid(rules, after, Recorded(events)) {
        UnitsImplyFull(rules, before, after, events);
      }
    }
  }

  // ------------------------------------------------------------------ whole rooms

  datatype Update = Update(result: Doc, events: seq<ContainerDiff>)

  function StateOf(start: Doc, updates: seq<Update>, n: nat): Doc
    requires n <= |updates|
  {
    if n == 0 then start else updates[n - 1].result
  }

  ghost predicate Delivered(start: Doc, updates: seq<Update>, i: nat)
    requires i < |updates|
  {
    && Reported(StateOf(start, updates, i), updates[i].result, updates[i].events)
    && forall e :: e in updates[i].events ==> Located(updates[i].result, e)
  }

  predicate Admitted(rules: Rules, updates: seq<Update>, i: nat)
    requires i < |updates|
  {
    CausalChangesValid(rules, updates[i].result, Recorded(updates[i].events))
  }

  ghost predicate AllAdmitted(rules: Rules, updates: seq<Update>, n: nat) {
    n <= |updates| && forall i :: 0 <= i < n ==> Admitted(rules, updates, i)
  }

  ghost predicate AllValid(rules: Rules, updates: seq<Update>, n: nat) {
    n <= |updates| && forall i :: 0 <= i < n ==> CausalDocumentValid(rules, updates[i].result)
  }

  /** A room that opened on a valid checkpoint admits exactly the updates whole-document
      validation would: every update so far was admitted if and only if every state is valid. */
  lemma {:induction false} AdmissionIsFullValidation(rules: Rules, start: Doc, updates: seq<Update>, n: nat)
    requires CausalDocumentValid(rules, start) && n <= |updates|
    requires forall i :: 0 <= i < |updates| ==> Delivered(start, updates, i)
    ensures AllAdmitted(rules, updates, n) <==> AllValid(rules, updates, n)
  {
    hide Recorded, CausalDocumentValid, CausalChangesValid, Reported, Located;
    if n > 0 {
      AdmissionIsFullValidation(rules, start, updates, n - 1);
      if AllValid(rules, updates, n - 1) {
        assert CausalDocumentValid(rules, StateOf(start, updates, n - 1));
        assert Delivered(start, updates, n - 1);
        IncrementalRefinesFull(rules, StateOf(start, updates, n - 1), updates[n - 1].result, updates[n - 1].events);
        assert Admitted(rules, updates, n - 1) <==> CausalDocumentValid(rules, updates[n - 1].result);
      }
      assert AllAdmitted(rules, updates, n) ==> AllAdmitted(rules, updates, n - 1);
      assert AllValid(rules, updates, n) ==> AllValid(rules, updates, n - 1);
    }
  }
}
