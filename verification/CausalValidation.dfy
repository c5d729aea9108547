/**
 Validation of the canonical causal document: the whole-document check, the
 recorder that turns the diffs of one imported update into validation units,
 and the check of those units alone.

 Loro containers appear as values.  What one field may hold (names, property
 bags, lifecycles, settings) is a parameter, since it reads nothing outside its
 own unit; everything that crosses units is written out.
 */
module CausalValidation {
  import opened Records

  datatype Home = Entities | Pages | Tags

  const PAGE_REFERENCE_CHAR := '\U{fffc}'

  datatype Segment =
    | Plain(text: seq<char>)
    | Marked(reference: string, text: seq<char>)
    | MarkedOtherwise(text: seq<char>)
    | NotInsert

  datatype Meta = Meta(fields: nat, content: Option<seq<Segment>>)

  /** A tree node; a shallow snapshot may have collected a deleted node's metadata. */
  datatype Block = Block(deleted: bool, meta: Option<Meta>)

  datatype Outline = Outline(container: nat, blocks: map<nat, Block>)

  /** The value a home keeps under one document ID; `children` are its nested
      containers by key, digested, beside the outline. */
  datatype Entry =
    | Value(raw: nat)
    | Record(container: nat, fields: nat, children: map<string, nat>, outline: Option<Outline>)

  datatype Doc = Doc(
    meta: nat, settings: nat,
    entities: map<string, Entry>, pages: map<string, Entry>, tags: map<string, Entry>)

  datatype Rules = Rules(
    metadata: nat -> bool,
    settings: nat -> bool,
    documentId: (Home, string) -> bool,
    pageId: string -> bool,
    header: (Home, string, nat, map<string, nat>) -> bool,
    block: nat -> bool)

  function In(doc: Doc, home: Home): map<string, Entry> {
    match home
    case Entities => doc.entities
    case Pages => doc.pages
    case Tags => doc.tags
  }

  // --------------------------------------------------------- whole-document check

  predicate Contains(doc: Doc, id: string) {
    id in doc.entities || id in doc.pages || id in doc.tags
  }

  predicate SegmentValid(rules: Rules, doc: Doc, segment: Segment) {
    match segment
    case NotInsert => false
    case MarkedOtherwise(_) => false
    case Marked(id, text) => rules.pageId(id) && Contains(doc, id) && forall c :: c in text ==> c == PAGE_REFERENCE_CHAR
    case Plain(text) => PAGE_REFERENCE_CHAR !in text
  }

  predicate BlockValid(rules: Rules, doc: Doc, block: Block) {
    if block.meta.None? then
      block.deleted
    else
      && rules.block(block.meta.value.fields)
      && block.meta.value.content.Some?
      && forall segment :: segment in block.meta.value.content.value ==> SegmentValid(rules, doc, segment)
  }

  predicate HeaderValid(rules: Rules, home: Home, id: string, entry: Entry) {
    && rules.documentId(home, id)
    && entry.Record?
    && rules.header(home, id, entry.fields, entry.children - {"outline"})
    && entry.outline.Some?
  }

  predicate BlocksValid(rules: Rules, doc: Doc, entry: Entry)
    requires entry.Record? && entry.outline.Some?
  {
    forall n :: n in entry.outline.value.blocks ==> BlockValid(rules, doc, entry.outline.value.blocks[n])
  }

  predicate DocumentValid(rules: Rules, doc: Doc, home: Home, id: string) {
    && id in In(doc, home)
    && HeaderValid(rules, home, id, In(doc, home)[id])
    && BlocksValid(rules, doc, In(doc, home)[id])
  }

  /** A document ID lives in exactly one storage home. */
  predicate Single(doc: Doc, id: string) {
    forall h, k :: id in In(doc, h) && id in In(doc, k) ==> h == k
  }

  predicate HomeValid(rules: Rules, doc: Doc, home: Home) {
    forall id :: id in In(doc, home) ==> Single(doc, id) && DocumentValid(rules, doc, home, id)
  }

  predicate CausalDocumentValid(rules: Rules, doc: Doc) {
    && rules.metadata(doc.meta)
    && HomeValid(rules, doc, Entities) && HomeValid(rules, doc, Pages) && HomeValid(rules, doc, Tags)
    && rules.settings(doc.settings)
  }

  // ----------------------------------------------------------------- the recorder

  datatype Step = Key(name: string) | Node(id: nat) | Position(index: nat)

  datatype Action = Create | Move | Delete

  datatype TreeItem = TreeItem(target: nat, action: Action)

  /** A map diff says for each key whether it has a value afterwards. */
  datatype Diff =
    | MapDiff(updated: map<string, bool>)
    | TreeDiff(items: seq<TreeItem>)
    | OtherDiff

  datatype ContainerDiff = ContainerDiff(unknown: bool, path: seq<Step>, diff: Diff)

  datatype Scope = Scope(
    full: bool,
    metadata: bool,
    settings: bool,
    headers: set<(Home, string)>,
    documents: set<(Home, string)>,
    blocks: set<(Home, string, nat)>)

  const NOTHING := Scope(false, false, false, {}, {}, {})

  function HomeNamed(name: string): Option<Home> {
    if name == "entities" then Some(Entities)
    else if name == "pages" then Some(Pages)
    else if name == "tags" then Some(Tags)
    else None
  }

  function KeyAt(path: seq<Step>, i: nat): Option<string> {
    if i < |path| && path[i].Key? then Some(path[i].name) else None
  }

  function Keyed(home: Home, ids: set<string>): set<(Home, string)> {
    set id | id in ids :: (home, id)
  }

  function Created(home: Home, id: string, items: seq<TreeItem>): set<(Home, string, nat)> {
    set i | 0 <= i < |items| && items[i].action.Create? :: (home, id, items[i].target)
  }

  /** The units one diff touches, or nothing where no unit covers it. */
  function Classified(scope: Scope, change: ContainerDiff): Option<Scope> {
    if change.unknown || KeyAt(change.path, 0).None? then None else
      var root := KeyAt(change.path, 0).value;
      if root == "meta" then Some(scope.(metadata := true))
      else if root == "graph_settings" then Some(scope.(settings := true))
      else if HomeNamed(root).None? then None
      else InHome(scope, HomeNamed(root).value, change)
  }

  function InHome(scope: Scope, home: Home, change: ContainerDiff): Option<Scope> {
    var id := KeyAt(change.path, 1);
    if id.None? then
      if change.diff.MapDiff? && forall k :: k in change.diff.updated ==> change.diff.updated[k] then
        Some(scope.(documents := scope.documents + Keyed(home, change.diff.updated.Keys)))
      else None
    else
      var field := KeyAt(change.path, 2);
      if field.None? then Some(scope.(documents := scope.documents + {(home, id.value)}))
      else if field.value != "outline" then Some(scope.(headers := scope.headers + {(home, id.value)}))
      else if |change.path| <= 3 then
        if change.diff.TreeDiff? then Some(scope.(blocks := scope.blocks + Created(home, id.value, change.diff.items))) else None
      else if change.path[3].Node? then Some(scope.(blocks := scope.blocks + {(home, id.value, change.path[3].id)}))
      else None
  }

  function RecordedOne(scope: Scope, change: ContainerDiff): Scope {
    if scope.full then scope else
      match Classified(scope, change)
      case Some(grown) => grown
      case None => scope.(full := true)
  }

  function Recorded(events: seq<ContainerDiff>): Scope {
    if events == [] then NOTHING else RecordedOne(Recorded(events[..|events| - 1]), events[|events| - 1])
  }

  /** Equal scopes; once the whole document is asked for, the units no longer matter. */
  ghost predicate SameScope(a: Scope, b: Scope) {
    a.full == b.full && (!a.full ==> a == b)
  }

  class CausalChanges {
    var full: bool
    var metadata: bool
    var settings: bool
    var headers: set<(Home, string)>
    var documents: set<(Home, string)>
    var blocks: set<(Home, string, nat)>

    constructor ()
      ensures View() == NOTHING
    {
      full, metadata, settings, headers, documents, blocks := false, false, false, {}, {}, {};
    }

    function View(): Scope
      reads this
    {
      Scope(full, metadata, settings, headers, documents, blocks)
    }

    method Record(events: seq<ContainerDiff>)
      requires View() == NOTHING
      modifies this
      ensures SameScope(View(), Recorded(events))
    {
      hide Classified;
      for n := 0 to |events|
        invariant SameScope(View(), Recorded(events[..n]))
      {
        assert events[..n + 1][..n] == events[..n] && events[..n + 1][n] == events[n];
        if !full {
          var covered := Classify(events[n]);
          if !covered {
            full := true;
          }
        }
      }
      assert events[..|events|] == events;
    }

    method Classify(change: ContainerDiff) returns (covered: bool)
      modifies this
      ensures covered <==> Classified(old(View()), change).Some?
      ensures covered ==> View() == Classified(old(View()), change).value
      ensures full == old(full)
    {
      var root := KeyAt(change.path, 0);
      if change.unknown || root.None? {
        return false;
      }
      if root.value == "meta" {
        metadata := true;
        return true;
      }
      if root.value == "graph_settings" {
        settings := true;
        return true;
      }
      var home := HomeNamed(root.value);
      if home.None? {
        return false;
      }
      covered := ClassifyInHome(home.value, change);
    }

    method ClassifyInHome(home: Home, change: ContainerDiff) returns (covered: bool)
      modifies this
      ensures covered <==> InHome(old(View()), home, change).Some?
      ensures covered ==> View() == InHome(old(View()), home, change).value
      ensures full == old(full)
    {
      hide Keyed, Created;
      var id := KeyAt(change.path, 1);
      var field := KeyAt(change.path, 2);
      if id.None? {
        if !change.diff.MapDiff? {
          return false;
        }
        covered := AddDocuments(home, change.diff.updated);
        return;
      }
      if field.None? {
        documents := documents + {(home, id.value)};
      } else if field.value != "outline" {
        headers := headers + {(home, id.value)};
      } else if |change.path| <= 3 {
        if !change.diff.TreeDiff? {
          return false;
        }
        AddCreated(home, id.value, change.diff.items);
      } else if change.path[3].Node? {
        blocks := blocks + {(home, id.value, change.path[3].id)};
      } else {
        return false;
      }
      return true;
    }

    /** The home map itself: a removed document fits no unit. */
    method AddDocuments(home: Home, updated: map<string, bool>) returns (covered: bool)
      modifies this`documents
      ensures covered <==> forall id :: id in updated ==> updated[id]
      ensures covered ==> documents == old(documents) + Keyed(home, updated.Keys)
    {
      var rest := updated.Keys;
      while rest != {}
        invariant rest <= updated.Keys
        invariant forall id :: id in updated.Keys - rest ==> updated[id]
        invariant documents == old(documents) + Keyed(home, updated.Keys - rest)
        decreases rest
      {
        var id :| id in rest;
        if !updated[id] {
          return false;
        }
        assert updated.Keys - (rest - {id}) == (updated.Keys - rest) + {id};
        rest, documents := rest - {id}, documents + {(home, id)};
      }
      assert updated.Keys - {} == updated.Keys;
      return true;
    }

    method AddCreated(home: Home, id: string, items: seq<TreeItem>)
      modifies this`blocks
      ensures blocks == old(blocks) + Created(home, id, items)
    {
      for i := 0 to |items|
        invariant blocks == old(blocks) + Created(home, id, items[..i])
      {
        CreatedOneMore(home, id, items, i);
        if items[i].action.Create? {
          blocks := blocks + {(home, id, items[i].target)};
        }
      }
      assert items[..|items|] == items;
    }
  }

  lemma CreatedOneMore(home: Home, id: string, items: seq<TreeItem>, i: nat)
    requires i < |items|
    ensures Created(home, id, items[..i + 1])
         == Created(home, id, items[..i]) + if items[i].action.Create? then {(home, id, items[i].target)} else {}
  {
    var before, after := items[..i], items[..i + 1];
    forall unit | unit in Created(home, id, before) ensures unit in Created(home, id, after) {
      var j :| 0 <= j < |before| && before[j].action.Create? && unit == (home, id, before[j].target);
      assert after[j] == before[j];
    }
    forall unit | unit in Created(home, id, after)
      ensures unit in Created(home, id, before) || (items[i].action.Create? && unit == (home, id, items[i].target))
    {
      var j :| 0 <= j < |after| && after[j].action.Create? && unit == (home, id, after[j].target);
      if j < i {
        assert before[j] == after[j];
      }
    }
    if items[i].action.Create? {
      assert after[i] == items[i];
    }
  }

  // ----------------------------------------------------- the check of changed units

  predicate DocumentUnitValid(rules: Rules, doc: Doc, unit: (Home, string)) {
    Single(doc, unit.1) && DocumentValid(rules, doc, unit.0, unit.1)
  }

  predicate HeaderUnitValid(rules: Rules, doc: Doc, unit: (Home, string)) {
    unit.1 in In(doc, unit.0) && HeaderValid(rules, unit.0, unit.1, In(doc, unit.0)[unit.1])
  }

  predicate BlockUnitValid(rules: Rules, doc: Doc, unit: (Home, string, nat)) {
    && unit.1 in In(doc, unit.0)
    && var entry := In(doc, unit.0)[unit.1];
    && entry.Record? && entry.outline.Some?
    && unit.2 in entry.outline.value.blocks
    && BlockValid(rules, doc, entry.outline.value.blocks[unit.2])
  }

  predicate UnitsValid(rules: Rules, doc: Doc, scope: Scope) {
    && (scope.metadata ==> rules.metadata(doc.meta))
    && (scope.settings ==> rules.settings(doc.settings))
    && (forall unit :: unit in scope.documents ==> DocumentUnitValid(rules, doc, unit))
    && (forall unit :: unit in scope.headers && unit !in scope.documents ==> HeaderUnitValid(rules, doc, unit))
    && (forall unit :: unit in scope.blocks && (unit.0, unit.1) !in scope.documents ==> BlockUnitValid(rules, doc, unit))
  }

  predicate CausalChangesValid(rules: Rules, doc: Doc, scope: Scope) {
    if scope.full then CausalDocumentValid(rules, doc) else UnitsValid(rules, doc, scope)
  }

  // ------------------------------------------------------------ what Loro reports

  /** The container was not replaced, so a change inside it is reported inside it. */
  predicate SameContainer(a: Entry, b: Entry) {
    a.Record? && b.Record? && a.container == b.container
  }

  predicate SameOutline(a: Entry, b: Entry)
    requires a.Record? && b.Record?
  {
    || a.outline == b.outline
    || (a.outline.Some? && b.outline.Some? && a.outline.value.container == b.outline.value.container)
  }

  /** A node no event needs to name: unchanged, deleted as it was, or collected. */
  predicate Quiet(before: map<nat, Block>, n: nat, block: Block) {
    || (n in before && before[n].meta == block.meta && (before[n].deleted ==> block.deleted))
    || (block.deleted && block.meta.None?)
  }

  predicate At(change: ContainerDiff, home: Home, steps: seq<Step>) {
    && 1 <= |change.path| && change.path[0].Key? && HomeNamed(change.path[0].name) == Some(home)
    && steps <= change.path[1..]
  }

  predicate ReportsHome(change: ContainerDiff, home: Home, id: string, present: bool) {
    && At(change, home, []) && KeyAt(change.path, 1).None?
    && change.diff.MapDiff? && id in change.diff.updated && change.diff.updated[id] == present
  }

  predicate ReportsNode(change: ContainerDiff, home: Home, id: string, n: nat) {
    || At(change, home, [Key(id), Key("outline"), Node(n)])
    || (&& At(change, home, [Key(id), Key("outline")]) && |change.path| == 3
        && change.diff.TreeDiff? && TreeItem(n, Create) in change.diff.items)
  }

  predicate ReportsRoot(change: ContainerDiff, root: string) {
    1 <= |change.path| && change.path[0] == Key(root)
  }

  /** A change inside a child is reported under it; a child created, deleted or replaced,
      by a container or a plain value, on the record. */
  predicate ReportsChild(change: ContainerDiff, home: Home, id: string, k: string) {
    || At(change, home, [Key(id), Key(k)])
    || (At(change, home, [Key(id)]) && |change.path| == 2)
  }

  ghost predicate EntryReported(before: Entry, after: Entry, events: seq<ContainerDiff>, home: Home, id: string)
    requires SameContainer(before, after)
  {
    && (before.fields != after.fields || !SameOutline(before, after) ==>
          exists e :: e in events && At(e, home, [Key(id)]) && |e.path| == 2)
    && (forall k: string :: k != "outline" && Child(before, k) != Child(after, k) ==>
          exists e :: e in events && ReportsChild(e, home, id, k))
    && (before.outline.Some? && after.outline.Some? && SameOutline(before, after) ==>
          forall n :: n in after.outline.value.blocks ==>
            || Quiet(before.outline.value.blocks, n, after.outline.value.blocks[n])
            || exists e :: e in events && ReportsNode(e, home, id, n))
  }

  function Child(entry: Entry, k: string): Option<nat>
    requires entry.Record?
  {
    if k in entry.children then Some(entry.children[k]) else None
  }

  ghost predicate DocumentReported(before: Doc, after: Doc, events: seq<ContainerDiff>, home: Home, id: string) {
    var old_, new_ := In(before, home), In(after, home);
    && (id in old_ && id !in new_ ==> exists e :: e in events && ReportsHome(e, home, id, false))
    && (id in new_ && (id !in old_ || (old_[id] != new_[id] && !SameContainer(old_[id], new_[id]))) ==>
          exists e :: e in events && ReportsHome(e, home, id, true))
    && (id in old_ && id in new_ && SameContainer(old_[id], new_[id]) ==>
          EntryReported(old_[id], new_[id], events, home, id))
  }

  /** Every unit in which the documents differ carries an event. */
  ghost predicate Reported(before: Doc, after: Doc, events: seq<ContainerDiff>) {
    && (before.meta != after.meta ==> exists e :: e in events && ReportsRoot(e, "meta"))
    && (before.settings != after.settings ==> exists e :: e in events && ReportsRoot(e, "graph_settings"))
    && forall home, id :: DocumentReported(before, after, events, home, id)
  }

  /** Events name containers of the imported document. */
  ghost predicate Located(doc: Doc, e: ContainerDiff) {
    forall home ::
      && (forall id :: ReportsHome(e, home, id, true) ==> id in In(doc, home))
      && (forall id :: At(e, home, [Key(id)]) ==> id in In(doc, home))
      && (forall id, n :: ReportsNode(e, home, id, n) ==> HasNode(doc, home, id, n))
  }

  predicate HasNode(doc: Doc, home: Home, id: string, n: nat) {
    && id in In(doc, home)
    && var entry := In(doc, home)[id];
    && entry.Record? && entry.outline.Some? && n in entry.outline.value.blocks
  }
}
