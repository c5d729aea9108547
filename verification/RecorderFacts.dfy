/**
 Which units the recorder asks to be checked, said of the paths and diffs of the events.
 */
module RecorderFacts {
  import opened Records
  import opened CausalValidation

  function NameOfHome(home: Home): string {
    match home
    case Entities => "entities"
    case Pages => "pages"
    case Tags => "tags"
  }

  /** The event is in this home, in the record `id` or, without one, in the home itself. */
  predicate InRecord(e: ContainerDiff, home: Home, id: Option<string>) {
    && |e.path| > 0 && e.path[0] == Key(NameOfHome(home))
    && match id
       case Some(name) => |e.path| > 1 && e.path[1] == Key(name)
       case None => |e.path| == 1 || !e.path[1].Key?
  }

  /** An event no list of units covers: unknown content, a root that is neither the metadata,
      the settings nor a home, anything but additions to a home, and anything inside an
      outline that is neither a tree event nor below one of its nodes. */
  ghost predicate Uncovered(e: ContainerDiff) {
    || e.unknown || e.path == [] || !e.path[0].Key?
    || e.path[0].name !in ["meta", "graph_settings", "entities", "pages", "tags"]
    || (exists home :: InRecord(e, home, None) && !(e.diff.MapDiff? && forall k :: k in e.diff.updated ==> e.diff.updated[k]))
    || (exists home, id ::
          InRecord(e, home, Some(id)) && |e.path| > 2 && e.path[2] == Key("outline")
          && if |e.path| == 3 then !e.diff.TreeDiff? else !e.path[3].Node?)
  }

  lemma HomeIsNamed(e: ContainerDiff, home: Home)
    requires |e.path| > 0
    ensures e.path[0] == Key(NameOfHome(home)) <==> e.path[0].Key? && HomeNamed(e.path[0].name) == Some(home)
  {
  }

  lemma ClassifiedIff(scope: Scope, e: ContainerDiff)
    ensures Classified(scope, e).None? <==> Uncovered(e)
  {
    hide Keyed, Created;
    if e.path != [] && e.path[0].Key? {
      HomeIsNamed(e, Entities);
      HomeIsNamed(e, Pages);
      HomeIsNamed(e, Tags);
      if HomeNamed(e.path[0].name).Some? {
        var home := HomeNamed(e.path[0].name).value;
        InHomeIff(scope, home, e);
      }
    }
  }

  lemma InHomeIff(scope: Scope, home: Home, e: ContainerDiff)
    requires |e.path| > 0 && e.path[0] == Key(NameOfHome(home))
    ensures InHome(scope, home, e).None? <==>
      || (InRecord(e, home, None) && !(e.diff.MapDiff? && forall k :: k in e.diff.updated ==> e.diff.updated[k]))
      || (exists id ::
            InRecord(e, home, Some(id)) && |e.path| > 2 && e.path[2] == Key("outline")
            && if |e.path| == 3 then !e.diff.TreeDiff? else !e.path[3].Node?)
  {
    hide Keyed, Created;
    if |e.path| > 1 && e.path[1].Key? {
      assert InRecord(e, home, Some(e.path[1].name));
    }
  }

  /** The whole document is asked for exactly when some event is not covered. */
  lemma {:induction false} FullIff(events: seq<ContainerDiff>)
    ensures Recorded(events).full <==> exists e :: e in events && Uncovered(e)
  {
    hide Classified, Uncovered;
    if events != [] {
      var front, last := events[..|events| - 1], events[|events| - 1];
      FullIff(front);
      ClassifiedIff(Recorded(front), last);
      NotFullByUnits(Recorded(front), last);
      assert forall e :: e in events <==> e in front || e == last;
    }
  }

  lemma NotFullByUnits(scope: Scope, e: ContainerDiff)
    ensures Classified(scope, e).Some? ==> Classified(scope, e).value.full == scope.full
  {
    hide Keyed, Created;
  }

  // ------------------------------------------------------------------ the units of one event

  /** A record that was added, or whose own fields changed. */
  ghost predicate NamesDocument(e: ContainerDiff, home: Home, id: string) {
    || (InRecord(e, home, None) && e.diff.MapDiff? && id in e.diff.updated)
    || (InRecord(e, home, Some(id)) && (|e.path| == 2 || !e.path[2].Key?))
  }

  /** A record with a change inside one of its containers other than the outline. */
  ghost predicate NamesHeader(e: ContainerDiff, home: Home, id: string) {
    InRecord(e, home, Some(id)) && |e.path| > 2 && e.path[2].Key? && e.path[2].name != "outline"
  }

  /** A node that was created, or inside which something changed. */
  ghost predicate NamesBlock(e: ContainerDiff, home: Home, id: string, n: nat) {
    && InRecord(e, home, Some(id)) && |e.path| > 2 && e.path[2] == Key("outline")
    && if |e.path| == 3
       then e.diff.TreeDiff? && exists i :: 0 <= i < |e.diff.items| && e.diff.items[i] == TreeItem(n, Create)
       else e.path[3] == Node(n)
  }

  /** What one covered event adds to a scope. */
  ghost predicate Adds(before: Scope, e: ContainerDiff, after: Scope) {
    && (after.metadata <==> before.metadata || (|e.path| > 0 && e.path[0] == Key("meta")))
    && (after.settings <==> before.settings || (|e.path| > 0 && e.path[0] == Key("graph_settings")))
    && (forall home, id :: (home, id) in after.documents <==> (home, id) in before.documents || NamesDocument(e, home, id))
    && (forall home, id :: (home, id) in after.headers <==> (home, id) in before.headers || NamesHeader(e, home, id))
    && (forall home, id, n: nat :: (home, id, n) in after.blocks <==> (home, id, n) in before.blocks || NamesBlock(e, home, id, n))
  }

  lemma ClassifiedAdds(scope: Scope, e: ContainerDiff)
    requires Classified(scope, e).Some?
    ensures Adds(scope, e, Classified(scope, e).value)
  {
    hide InHome;
    HomeIsNamed(e, Entities);
    HomeIsNamed(e, Pages);
    HomeIsNamed(e, Tags);
    if HomeNamed(e.path[0].name).Some? {
      InHomeAdds(scope, HomeNamed(e.path[0].name).value, e);
    }
  }

  lemma InHomeAdds(scope: Scope, home: Home, e: ContainerDiff)
    requires |e.path| > 0 && e.path[0] == Key(NameOfHome(home)) && InHome(scope, home, e).Some?
    ensures Adds(scope, e, InHome(scope, home, e).value)
  {
    hide InHome, NamesDocument, NamesHeader, NamesBlock;
    var after := InHome(scope, home, e).value;
    OnlyUnits(scope, home, e);
    forall h, id
      ensures (h, id) in after.documents <==> (h, id) in scope.documents || NamesDocument(e, h, id)
      ensures (h, id) in after.headers <==> (h, id) in scope.headers || NamesHeader(e, h, id)
    {
      AddsDocument(scope, home, e, h, id);
      AddsHeader(scope, home, e, h, id);
    }
    forall h, id, n: nat ensures (h, id, n) in after.blocks <==> (h, id, n) in scope.blocks || NamesBlock(e, h, id, n) {
      AddsBlock(scope, home, e, h, id, n);
    }
  }

  lemma OnlyUnits(scope: Scope, home: Home, e: ContainerDiff)
    requires |e.path| > 0 && e.path[0] == Key(NameOfHome(home)) && InHome(scope, home, e).Some?
    ensures InHome(scope, home, e).value.metadata == scope.metadata && InHome(scope, home, e).value.settings == scope.settings
    ensures e.path[0] != Key("meta") && e.path[0] != Key("graph_settings")
  {
    hide Keyed, Created;
  }

  lemma AddsDocument(scope: Scope, home: Home, e: ContainerDiff, h: Home, id: string)
    requires |e.path| > 0 && e.path[0] == Key(NameOfHome(home)) && InHome(scope, home, e).Some?
    ensures (h, id) in InHome(scope, home, e).value.documents <==> (h, id) in scope.documents || NamesDocument(e, h, id)
  {
    hide Created;
    SameName(e, home, h);
  }

  lemma AddsHeader(scope: Scope, home: Home, e: ContainerDiff, h: Home, id: string)
    requires |e.path| > 0 && e.path[0] == Key(NameOfHome(home)) && InHome(scope, home, e).Some?
    ensures (h, id) in InHome(scope, home, e).value.headers <==> (h, id) in scope.headers || NamesHeader(e, h, id)
  {
    hide Keyed, Created;
    SameName(e, home, h);
  }

  lemma AddsBlock(scope: Scope, home: Home, e: ContainerDiff, h: Home, id: string, n: nat)
    requires |e.path| > 0 && e.path[0] == Key(NameOfHome(home)) && InHome(scope, home, e).Some?
    ensures (h, id, n) in InHome(scope, home, e).value.blocks <==> (h, id, n) in scope.blocks || NamesBlock(e, h, id, n)
  {
    hide Keyed;
    SameName(e, home, h);
  }

  lemma SameName(e: ContainerDiff, home: Home, other: Home)
    requires |e.path| > 0 && e.path[0] == Key(NameOfHome(home))
    ensures e.path[0] == Key(NameOfHome(other)) <==> other == home
  {
    HomeIsNamed(e, home);
    HomeIsNamed(e, other);
  }

  /** Where the whole document is not asked for, the units asked for are exactly those the
      events name. */
  lemma {:induction false} UnitsIff(events: seq<ContainerDiff>)
    requires !Recorded(events).full
    ensures Recorded(events).metadata <==> exists e :: e in events && |e.path| > 0 && e.path[0] == Key("meta")
    ensures Recorded(events).settings <==> exists e :: e in events && |e.path| > 0 && e.path[0] == Key("graph_settings")
    ensures forall home, id :: (home, id) in Recorded(events).documents <==> exists e :: e in events && NamesDocument(e, home, id)
    ensures forall home, id :: (home, id) in Recorded(events).headers <==> exists e :: e in events && NamesHeader(e, home, id)
    ensures forall home, id, n: nat :: (home, id, n) in Recorded(events).blocks <==> exists e :: e in events && NamesBlock(e, home, id, n)
  {
    hide Classified, NamesDocument, NamesHeader, NamesBlock;
    if events != [] {
      var front, last := events[..|events| - 1], events[|events| - 1];
      UnitsIff(front);
      ClassifiedAdds(Recorded(front), last);
      assert forall e :: e in events <==> e in front || e == last;
    }
  }
}
