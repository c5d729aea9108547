/**
 The outline tree and the insertion that runs over it, item by item.
 */
module OutlineTree {
  import opened Records
  import opened OutlineInsertion

  function InsertAt(list: seq<nat>, at: nat, node: nat): seq<nat>
    requires at <= |list|
  {
    list[..at] + [node] + list[at..]
  }

  function PositionOf(list: seq<nat>, node: nat): (k: nat)
    requires node in list
    ensures k < |list| && list[k] == node && node !in list[..k]
  {
    if list[0] == node then 0 else
      var k := PositionOf(list[1..], node) + 1;
      assert list[..k] == [list[0]] + list[1..][..k - 1];
      k
  }

  /** The replaced block is in the tree. */
  predicate Present(children: map<Parent, seq<nat>>, parents: map<nat, Parent>, node: nat) {
    node in parents && node in ListOf(children, parents[node])
  }

  /** New roots go to the clamped index, or right after the replaced block. */
  function PlaceFor(
    children: map<Parent, seq<nat>>, parents: map<nat, Parent>, parent: Parent, index: nat, replace: Option<nat>): Place
    requires replace.Some? ==> Present(children, parents, replace.value)
  {
    match replace
    case None =>
      var length := |ListOf(children, parent)|;
      Place(parent, if index < length then index else length, 0)
    case Some(target) =>
      Place(parents[target], PositionOf(ListOf(children, parents[target]), target) + 1, 1)
  }

  /** The nodes items are put on are new to the outline, except a replaced block. */
  ghost predicate Usable(children: map<Parent, seq<nat>>, nodes: seq<nat>, place: Place) {
    && Distinct(nodes)
    && (forall i :: 0 <= i < |nodes| ==> place.parent != Of(nodes[i]))
    && (forall i :: place.skip <= i < |nodes| ==> ListOf(children, Of(nodes[i])) == [])
  }

  lemma UsableAreDistinct(children: map<Parent, seq<nat>>, nodes: seq<nat>, place: Place)
    requires Usable(children, nodes, place)
    ensures Distinct(nodes)
  {
  }

  // -------------------------------------------------------------- one item at a time

  lemma NoKidYet(items: seq<Item>, i: nat, n: nat)
    requires i < n < |items| && !IsKid(items, i, n)
    ensures Kids(items, i, n + 1) == Kids(items, i, n)
  {
  }

  lemma NotAmongEarlier(nodes: seq<nat>, n: nat, p: Parent)
    requires n < |nodes| && (p.Of? ==> p.node !in nodes[..n + 1])
    ensures p.Of? ==> p.node !in nodes[..n]
    ensures p != Of(nodes[n])
  {
    assert nodes[..n + 1] == nodes[..n] + [nodes[n]];
  }

  lemma NotEarlier(nodes: seq<nat>, n: nat)
    requires Distinct(nodes) && n < |nodes|
    ensures nodes[n] !in nodes[..n]
  {
  }

  /** The replaced block stands for the first item and keeps its children. */
  lemma ReplaceStep(items: seq<Item>, nodes: seq<nat>, place: Place, before: map<Parent, seq<nat>>)
    requires 0 < |items| == |nodes| && place.skip == 1 && place.at <= |ListOf(before, place.parent)|
    ensures Inserted(items, nodes, place, before, before, 1)
  {
    NoKidsBefore(items, 0, 1);
    assert AtDepth(items, 0, 1, 1) == [];
  }

  lemma NothingInserted(items: seq<Item>, nodes: seq<nat>, place: Place, before: map<Parent, seq<nat>>)
    requires |items| == |nodes| && place.at <= |ListOf(before, place.parent)|
    ensures Inserted(items, nodes, place, before, before, 0)
  {
    assert AtDepth(items, 0, place.skip, 0) == [];
  }

  /** A new root lands right after the roots before it. */
  lemma RootStep(items: seq<Item>, nodes: seq<nat>, place: Place, before: map<Parent, seq<nat>>, now: map<Parent, seq<nat>>, n: nat)
    requires Inserted(items, nodes, place, before, now, n) && Usable(before, nodes, place)
    requires place.skip <= n < |items| && items[n].depth == 0
    ensures var list := ListOf(now, place.parent);
            var at := place.at + |AtDepth(items, 0, place.skip, n)|;
            && at <= |list|
            && Inserted(items, nodes, place, before, now[place.parent := InsertAt(list, at, nodes[n])], n + 1)
  {
    hide Kids, AtDepth, NodesAt, Siblings, InsertAt, IsKid, OthersKept;
    var list := ListOf(now, place.parent);
    var at := place.at + |AtDepth(items, 0, place.skip, n)|;
    RootJoinsSiblings(items, nodes, place, ListOf(before, place.parent), n);
    var after := now[place.parent := InsertAt(list, at, nodes[n])];
    assert KidsPlaced(items, nodes, before, after, n + 1) by {
      forall i | 0 <= i < n + 1
        ensures ListOf(after, Of(nodes[i])) == NodesAt(nodes, Kids(items, i, n + 1)) + ListOf(before, Of(nodes[i]))
      {
        RootLists(items, nodes, place, before, now, n, i);
      }
    }
    OthersStayBeside(nodes, place.parent, before, now, n, after[place.parent]);
  }

  /** A new root gives no earlier item a child. */
  lemma RootLists(
    items: seq<Item>, nodes: seq<nat>, place: Place, before: map<Parent, seq<nat>>, now: map<Parent, seq<nat>>, n: nat, i: nat)
    requires Inserted(items, nodes, place, before, now, n) && Usable(before, nodes, place)
    requires place.skip <= n < |items| == |nodes| && items[n].depth == 0 && i <= n
    ensures ListOf(now, Of(nodes[i])) == NodesAt(nodes, Kids(items, i, n + 1)) + ListOf(before, Of(nodes[i]))
  {
    hide Kids, AtDepth, NodesAt, Siblings, IsKid, Inserted, Usable;
    if i < n {
      RootIsNoKid(items, i, n);
      NoKidYet(items, i, n);
      InsertedKids(items, nodes, place, before, now, n, i);
    } else {
      FreshNode(items, nodes, place, before, now, n);
    }
  }

  lemma OthersStayBeside(
    nodes: seq<nat>, parent: Parent, before: map<Parent, seq<nat>>, now: map<Parent, seq<nat>>, n: nat, list: seq<nat>)
    requires n < |nodes| && OthersKept(nodes, parent, before, now, n)
    ensures OthersKept(nodes, parent, before, now[parent := list], n + 1)
  {
    var after := now[parent := list];
    forall p | p != parent && (p.Of? ==> p.node !in nodes[..n + 1]) ensures ListOf(after, p) == ListOf(before, p) {
      NotAmongEarlier(nodes, n, p);
    }
  }

  lemma RootIsNoKid(items: seq<Item>, i: nat, n: nat)
    requires i < n < |items| && items[n].depth == 0
    ensures !IsKid(items, i, n)
  {
  }

  lemma RootJoinsSiblings(items: seq<Item>, nodes: seq<nat>, place: Place, list: seq<nat>, n: nat)
    requires |items| == |nodes| && place.skip <= n < |items| && items[n].depth == 0 && place.at <= |list|
    ensures var now := Siblings(items, nodes, place, list, n);
            var at := place.at + |AtDepth(items, 0, place.skip, n)|;
            at <= |now| && InsertAt(now, at, nodes[n]) == Siblings(items, nodes, place, list, n + 1)
  {
    hide AtDepth, NodesAt;
    RootsOneMore(items, nodes, place.skip, n);
  }

  lemma RootsOneMore(items: seq<Item>, nodes: seq<nat>, skip: nat, n: nat)
    requires |items| == |nodes| && skip <= n < |items| && items[n].depth == 0
    ensures NodesAt(nodes, AtDepth(items, 0, skip, n + 1)) == NodesAt(nodes, AtDepth(items, 0, skip, n)) + [nodes[n]]
  {
    NodesAtOneMore(nodes, AtDepth(items, 0, skip, n), n);
  }

  /** A node that was just created has no children yet. */
  lemma FreshNode(items: seq<Item>, nodes: seq<nat>, place: Place, before: map<Parent, seq<nat>>, now: map<Parent, seq<nat>>, n: nat)
    requires Inserted(items, nodes, place, before, now, n) && Usable(before, nodes, place) && place.skip <= n < |items|
    ensures ListOf(now, Of(nodes[n])) == ListOf(before, Of(nodes[n])) == []
    ensures NodesAt(nodes, Kids(items, n, n + 1)) == []
  {
    hide AtDepth, Siblings, Kids, NodesAt;
    NotEarlier(nodes, n);
    NoKidsBefore(items, n, n + 1);
    NoNodes(nodes);
  }

  lemma NoNodes(nodes: seq<nat>)
    ensures NodesAt(nodes, []) == []
  {
  }

  /** A nested item becomes the next child of the item it is below, before any child
      the replaced block already had. */
  lemma KidStep(
    items: seq<Item>, nodes: seq<nat>, place: Place, before: map<Parent, seq<nat>>, now: map<Parent, seq<nat>>, n: nat, q: nat)
    requires Inserted(items, nodes, place, before, now, n) && Usable(before, nodes, place)
    requires place.skip <= n < |items| && q < n && IsKid(items, q, n)
    ensures var list := ListOf(now, Of(nodes[q]));
            && |Kids(items, q, n)| <= |list|
            && Inserted(items, nodes, place, before, now[Of(nodes[q]) := InsertAt(list, |Kids(items, q, n)|, nodes[n])], n + 1)
  {
    hide Kids, AtDepth, NodesAt, Siblings, InsertAt, IsKid, OthersKept;
    var list := ListOf(now, Of(nodes[q]));
    var kids := Kids(items, q, n);
    KidJoins(NodesAt(nodes, kids), ListOf(before, Of(nodes[q])), nodes[n]);
    var after := now[Of(nodes[q]) := InsertAt(list, |kids|, nodes[n])];
    KidIsNested(items, q, n);
    RootsStay(items, nodes, place, ListOf(before, place.parent), n);
    assert KidsPlaced(items, nodes, before, after, n + 1) by {
      forall i | 0 <= i < n + 1
        ensures ListOf(after, Of(nodes[i])) == NodesAt(nodes, Kids(items, i, n + 1)) + ListOf(before, Of(nodes[i]))
      {
        KidLists(items, nodes, place, before, now, n, q, i);
      }
    }
    OthersStayKept(nodes, place.parent, before, now, n, q, after[Of(nodes[q])]);
  }

  lemma OthersStayKept(
    nodes: seq<nat>, parent: Parent, before: map<Parent, seq<nat>>, now: map<Parent, seq<nat>>, n: nat, q: nat, list: seq<nat>)
    requires q < n < |nodes| && OthersKept(nodes, parent, before, now, n)
    ensures OthersKept(nodes, parent, before, now[Of(nodes[q]) := list], n + 1)
  {
    var after := now[Of(nodes[q]) := list];
    forall p | p != parent && (p.Of? ==> p.node !in nodes[..n + 1]) ensures ListOf(after, p) == ListOf(before, p) {
      NotAmongEarlier(nodes, n, p);
      assert nodes[q] == nodes[..n + 1][q];
    }
  }

  lemma KidLists(
    items: seq<Item>, nodes: seq<nat>, place: Place, before: map<Parent, seq<nat>>, now: map<Parent, seq<nat>>, n: nat, q: nat, i: nat)
    requires Inserted(items, nodes, place, before, now, n) && Usable(before, nodes, place)
    requires place.skip <= n < |items| == |nodes| && q < n && IsKid(items, q, n) && i <= n
    requires |Kids(items, q, n)| <= |ListOf(now, Of(nodes[q]))|
    ensures var after := now[Of(nodes[q]) := InsertAt(ListOf(now, Of(nodes[q])), |Kids(items, q, n)|, nodes[n])];
            ListOf(after, Of(nodes[i])) == NodesAt(nodes, Kids(items, i, n + 1)) + ListOf(before, Of(nodes[i]))
  {
    hide Kids, AtDepth, NodesAt, Siblings, InsertAt, IsKid, Inserted, Usable;
    UsableAreDistinct(before, nodes, place);
    InsertedKids(items, nodes, place, before, now, n, q);
    if i == q {
      KidJoins(NodesAt(nodes, Kids(items, q, n)), ListOf(before, Of(nodes[q])), nodes[n]);
      KidsOneMore(items, nodes, q, n);
    } else if i < n {
      OneParent(items, q, i, n);
      NoKidYet(items, i, n);
      InsertedKids(items, nodes, place, before, now, n, i);
    } else {
      FreshNode(items, nodes, place, before, now, n);
    }
  }

  lemma InsertedKids(
    items: seq<Item>, nodes: seq<nat>, place: Place, before: map<Parent, seq<nat>>, now: map<Parent, seq<nat>>, n: nat, i: nat)
    requires Inserted(items, nodes, place, before, now, n) && i < n
    ensures n <= |items| == |nodes|
    ensures ListOf(now, Of(nodes[i])) == NodesAt(nodes, Kids(items, i, n)) + ListOf(before, Of(nodes[i]))
  {
  }

  lemma KidJoins(kids: seq<nat>, rest: seq<nat>, node: nat)
    ensures InsertAt(kids + rest, |kids|, node) == kids + [node] + rest
  {
  }

  lemma KidIsNested(items: seq<Item>, q: nat, n: nat)
    requires IsKid(items, q, n)
    ensures items[n].depth > 0
  {
  }

  lemma KidsOneMore(items: seq<Item>, nodes: seq<nat>, q: nat, n: nat)
    requires |items| == |nodes| && q < n < |items| && IsKid(items, q, n)
    ensures NodesAt(nodes, Kids(items, q, n + 1)) == NodesAt(nodes, Kids(items, q, n)) + [nodes[n]]
  {
    NodesAtOneMore(nodes, Kids(items, q, n), n);
  }

  lemma RootsStay(items: seq<Item>, nodes: seq<nat>, place: Place, list: seq<nat>, n: nat)
    requires |items| == |nodes| && n < |items| && items[n].depth > 0 && place.at <= |list|
    ensures Siblings(items, nodes, place, list, n + 1) == Siblings(items, nodes, place, list, n)
  {
    hide NodesAt;
    assert AtDepth(items, 0, place.skip, n + 1) == AtDepth(items, 0, place.skip, n);
  }

  lemma OneParent(items: seq<Item>, q: nat, i: nat, n: nat)
    requires q < n < |items| && i < n && i != q && IsKid(items, q, n)
    ensures !IsKid(items, i, n)
  {
  }

  // --------------------------------------------------------------- remembered levels

  function Opened(opens: seq<nat>, depth: nat, item: nat): seq<nat>
    requires depth <= |opens|
  {
    opens[..depth] + [item]
  }

  lemma LevelsStep(items: seq<Item>, nodes: seq<nat>, levels: seq<nat>, opens: seq<nat>, n: nat)
    requires n < |items| == |nodes| && (n > 0 ==> LevelsAt(items, nodes, levels, opens, n))
    requires n == 0 ==> levels == opens == [] && items[0].depth == 0
    requires items[n].depth <= |levels|
    ensures LevelsAt(items, nodes, Opened(levels, items[n].depth, nodes[n]), Opened(opens, items[n].depth, n), n + 1)
  {
  }

  /** No depth is ever skipped: the level above a nested item is open. */
  lemma LevelIsOpen(items: seq<Item>, nodes: seq<nat>, levels: seq<nat>, opens: seq<nat>, n: nat)
    requires NoSkips(items) && n < |items| && items[n].depth > 0
    requires n > 0 ==> LevelsAt(items, nodes, levels, opens, n)
    ensures n > 0 && items[n].depth <= |levels| == |opens| && opens[items[n].depth - 1] < n <= |nodes|
    ensures IsKid(items, opens[items[n].depth - 1], n)
    ensures levels[items[n].depth - 1] == nodes[opens[items[n].depth - 1]]
  {
  }

  // ------------------------------------------------------------------ the operation

  function CountOf(counts: map<nat, nat>, node: nat): nat {
    if node in counts then counts[node] else 0
  }

  class Outline {
    var children: map<Parent, seq<nat>>
    var parents: map<nat, Parent>
    var texts: map<nat, seq<Byte>>

    constructor ()
      ensures children == map[] && parents == map[] && texts == map[]
    {
      children, parents, texts := map[], map[], map[];
    }

    method CreateAt(parent: Parent, at: nat, node: nat, text: seq<Byte>)
      requires at <= |ListOf(children, parent)|
      modifies this
      ensures children == old(children)[parent := InsertAt(ListOf(old(children), parent), at, node)]
      ensures parents == old(parents)[node := parent] && texts == old(texts)[node := text]
    {
      children := children[parent := InsertAt(ListOf(children, parent), at, node)];
      parents := parents[node := parent];
      texts := texts[node := text];
    }

    /** `nodes[i]` is the block item `i` ends up on: a new one, or the replaced block. */
    method InsertOutlineItems(parent: Parent, index: nat, replace: Option<nat>, items: seq<Item>, nodes: seq<nat>)
      returns (r: Result<nat, InsertError>)
      requires Accepted(items) && |nodes| == |items|
      requires replace.Some? ==> nodes[0] == replace.value
      requires (replace.Some? ==> Present(children, parents, replace.value)) ==>
                 Usable(children, nodes, PlaceFor(children, parents, parent, index, replace))
      modifies this
      ensures r.Ok? <==> (replace.Some? ==> Present(old(children), old(parents), replace.value))
      ensures r.Err? ==> r.error == BlockNotFound && children == old(children) && texts == old(texts) && parents == old(parents)
      ensures r.Ok? ==>
                && r.value == nodes[|nodes| - 1]
                && Inserted(items, nodes, PlaceFor(old(children), old(parents), parent, index, replace),
                            old(children), children, |items|)
                && Written(old(texts), texts, items, nodes, |items|)
                && Parented(items, nodes, PlaceFor(old(children), old(parents), parent, index, replace), old(parents), parents, |items|)
    {
      hide Parented, StandsUnder;
      hide Progress, Written, PositionOf, TotalText, InsertAt, NoSkips, Inserted, Usable, Opened, Aims, PlaceFor;
      var base, baseIndex, rootOffset := parent, index, 0;
      if replace.Some? {
        if !Present(children, parents, replace.value) {
          return Err(BlockNotFound);
        }
        base := parents[replace.value];
        baseIndex := PositionOf(ListOf(children, base), replace.value);
        rootOffset := 1;
      }
      ghost var place := PlaceFor(children, parents, parent, index, replace);
      PlaceAims(children, parents, parent, index, replace, base, baseIndex);
      ghost var opens: seq<nat> := [];
      var levels: seq<nat>, counts: map<nat, nat>, last := [], map[], nodes[0];
      ProgressStarts(items, nodes, place, children);
      NothingWritten(items, nodes, texts);
      NothingParented(items, nodes, place, parents, 0);
      for n := 0 to |items|
        invariant Progress(items, nodes, place, old(children), children, levels, opens, counts, rootOffset, n)
        invariant n == 0 ==> children == old(children) && rootOffset == place.skip && levels == opens == []
        invariant Written(old(texts), texts, items, nodes, n)
        invariant n > 0 ==> last == nodes[n - 1]
        invariant Parented(items, nodes, place, old(parents), parents, n)
      {
        var item, node := items[n], nodes[n];
        UsableAreDistinct(old(children), nodes, place);
        WrittenStep(old(texts), texts, items, nodes, n);
        ParentedStep(items, nodes, place, old(parents), parents, n);
        ghost var wereLevels := levels;
        LevelsFit(items, nodes, place, old(children), children, levels, opens, counts, rootOffset, n);
        if n == 0 && replace.Some? {
          texts := texts[node := item.text];
          ProgressReplaces(items, nodes, place, old(children), counts);
        } else if item.depth == 0 {
          var available := |ListOf(children, base)|;
          var at := if baseIndex + rootOffset < available then baseIndex + rootOffset else available;
          ProgressRoot(items, nodes, place, old(children), children, levels, opens, counts, rootOffset, n);
          RootAt(place, old(children), base, baseIndex, rootOffset, available);
          CreateAt(base, at, node, item.text);
          rootOffset := rootOffset + 1;
        } else {
          ProgressKid(items, nodes, place, old(children), children, levels, opens, counts, rootOffset, n);
          var parentNode := levels[item.depth - 1];
          var childIndex := CountOf(counts, parentNode);
          CreateAt(Of(parentNode), childIndex, node, item.text);
          counts := counts[parentNode := childIndex + 1];
        }
        levels := if |levels| <= item.depth then levels + [node] else levels[..item.depth] + [node];
        opens := Opened(opens, item.depth, n);
        OpenedIs(wereLevels, item.depth, node, levels);
        last := node;
      }
      ProgressIsInserted(items, nodes, place, old(children), children, levels, opens, counts, rootOffset);
      return Ok(last);
    }
  }

  // -------------------------------------------------------------------- the parents

  /** `p` is where item `i` belongs: the insertion's parent for a root, and otherwise the
      node of the item it is a child of. */
  ghost predicate StandsUnder(items: seq<Item>, nodes: seq<nat>, place: Place, i: nat, p: Parent)
    requires i < |items| == |nodes|
  {
    if items[i].depth == 0 then p == place.parent
    else exists q :: 0 <= q < i && IsKid(items, q, i) && p == Of(nodes[q])
  }

  /** The first `n` items are under their parents, and every other node where it was. */
  ghost predicate Parented(
    items: seq<Item>, nodes: seq<nat>, place: Place, before: map<nat, Parent>, now: map<nat, Parent>, n: nat)
    requires n <= |items| == |nodes|
  {
    && (forall i :: place.skip <= i < n ==> nodes[i] in now && StandsUnder(items, nodes, place, i, now[nodes[i]]))
    && (forall p :: (forall i :: place.skip <= i < n ==> nodes[i] != p) ==>
          (p in now <==> p in before) && (p in before ==> now[p] == before[p]))
  }

  lemma NothingParented(items: seq<Item>, nodes: seq<nat>, place: Place, before: map<nat, Parent>, n: nat)
    requires n <= |items| == |nodes| && n <= place.skip
    ensures Parented(items, nodes, place, before, before, n)
  {
  }

  /** The next item: the replaced block stays where it is, a new one goes where it belongs. */
  lemma ParentedStep(items: seq<Item>, nodes: seq<nat>, place: Place, before: map<nat, Parent>, now: map<nat, Parent>, n: nat)
    requires n < |items| == |nodes| && Distinct(nodes) && Parented(items, nodes, place, before, now, n)
    ensures n < place.skip ==> Parented(items, nodes, place, before, now, n + 1)
    ensures place.skip <= n ==> forall p :: StandsUnder(items, nodes, place, n, p) ==>
              Parented(items, nodes, place, before, now[nodes[n] := p], n + 1)
  {
    hide StandsUnder;
    if place.skip <= n {
      forall p | StandsUnder(items, nodes, place, n, p) ensures Parented(items, nodes, place, before, now[nodes[n] := p], n + 1) {
        ParentedNext(items, nodes, place, before, now, n, p);
      }
    }
  }

  lemma ParentedNext(
    items: seq<Item>, nodes: seq<nat>, place: Place, before: map<nat, Parent>, now: map<nat, Parent>, n: nat, p: Parent)
    requires place.skip <= n < |items| == |nodes| && Distinct(nodes) && Parented(items, nodes, place, before, now, n)
    requires StandsUnder(items, nodes, place, n, p)
    ensures Parented(items, nodes, place, before, now[nodes[n] := p], n + 1)
  {
    hide StandsUnder;
    var after := now[nodes[n] := p];
    forall q | forall i :: place.skip <= i < n + 1 ==> nodes[i] != q
      ensures (q in after <==> q in before) && (q in before ==> after[q] == before[q])
    {
      assert nodes[n] != q;
    }
  }

  // ------------------------------------------------------------- the loop's progress

  /** What holds after `n` items: the outline so far, the open level at each depth, the
      children each node was given, and how many roots were placed. */
  ghost predicate Progress(
    items: seq<Item>, nodes: seq<nat>, place: Place, before: map<Parent, seq<nat>>, now: map<Parent, seq<nat>>,
    levels: seq<nat>, opens: seq<nat>, counts: map<nat, nat>, rootOffset: nat, n: nat)
  {
    && NoSkips(items) && Usable(before, nodes, place)
    && Inserted(items, nodes, place, before, now, n)
    && (n > 0 ==> LevelsAt(items, nodes, levels, opens, n))
    && Counts(items, nodes, counts, n)
    && rootOffset == place.skip + |AtDepth(items, 0, place.skip, n)|
  }

  /** Where the next root goes when none has been placed: the clamped index, or after the replaced block. */
  ghost predicate Aims(place: Place, before: map<Parent, seq<nat>>, base: Parent, baseIndex: nat) {
    var length := |ListOf(before, base)|;
    base == place.parent && place.at == if baseIndex + place.skip < length then baseIndex + place.skip else length
  }

  lemma PlaceAims(
    children: map<Parent, seq<nat>>, parents: map<nat, Parent>, parent: Parent, index: nat, replace: Option<nat>,
    base: Parent, baseIndex: nat)
    requires replace.Some? ==> Present(children, parents, replace.value)
    requires if replace.None? then base == parent && baseIndex == index
             else base == parents[replace.value] && baseIndex == PositionOf(ListOf(children, base), replace.value)
    ensures var place := PlaceFor(children, parents, parent, index, replace);
      && Aims(place, children, base, baseIndex) && base == place.parent && place.at <= |ListOf(children, base)|
      && place.skip == if replace.Some? then 1 else 0
  {
  }

  /** The clamped index of a further root is right after the roots placed so far. */
  lemma RootAt(place: Place, before: map<Parent, seq<nat>>, base: Parent, baseIndex: nat, rootOffset: nat, available: nat)
    requires Aims(place, before, base, baseIndex) && rootOffset >= place.skip
    ensures available == |ListOf(before, base)| + rootOffset - place.skip ==>
      place.at + rootOffset - place.skip
      == if baseIndex + rootOffset < available then baseIndex + rootOffset else available
  {
  }

  lemma ProgressStarts(items: seq<Item>, nodes: seq<nat>, place: Place, before: map<Parent, seq<nat>>)
    requires NoSkips(items) && |items| == |nodes| && Usable(before, nodes, place) && place.at <= |ListOf(before, place.parent)|
    ensures Progress(items, nodes, place, before, before, [], [], map[], place.skip, 0)
  {
    NothingInserted(items, nodes, place, before);
    NothingAtDepth(items, place.skip, 0);
  }

  lemma ProgressIsInserted(
    items: seq<Item>, nodes: seq<nat>, place: Place, before: map<Parent, seq<nat>>, now: map<Parent, seq<nat>>,
    levels: seq<nat>, opens: seq<nat>, counts: map<nat, nat>, rootOffset: nat)
    requires Progress(items, nodes, place, before, now, levels, opens, counts, rootOffset, |items|)
    ensures Inserted(items, nodes, place, before, now, |items|)
  {
  }

  lemma LevelsFit(
    items: seq<Item>, nodes: seq<nat>, place: Place, before: map<Parent, seq<nat>>, now: map<Parent, seq<nat>>,
    levels: seq<nat>, opens: seq<nat>, counts: map<nat, nat>, rootOffset: nat, n: nat)
    requires n < |items| && Progress(items, nodes, place, before, now, levels, opens, counts, rootOffset, n)
    requires n == 0 ==> levels == opens == []
    ensures items[n].depth <= |levels| == |opens|
  {
    hide Inserted, Usable, Counts, AtDepth;
  }

  lemma OpenedIs(levels: seq<nat>, depth: nat, node: nat, after: seq<nat>)
    requires depth <= |levels| && after == if |levels| <= depth then levels + [node] else levels[..depth] + [node]
    ensures after == Opened(levels, depth, node)
  {
  }

  lemma ProgressReplaces(items: seq<Item>, nodes: seq<nat>, place: Place, before: map<Parent, seq<nat>>, counts: map<nat, nat>)
    requires 0 < |items| && place.skip == 1 && Progress(items, nodes, place, before, before, [], [], counts, 1, 0)
    ensures Progress(items, nodes, place, before, before, Opened([], 0, nodes[0]), Opened([], 0, 0), counts, 1, 1)
  {
    hide Usable, Kids, AtDepth, IsKid, Inserted, Counts, LevelsAt;
    ReplaceFits(items, nodes, place, before);
    ReplaceStep(items, nodes, place, before);
    CountsAtRoot(items, nodes, counts, 0);
    LevelsStep(items, nodes, [], [], 0);
    NothingAtDepth(items, 1, 1);
  }

  lemma ReplaceFits(items: seq<Item>, nodes: seq<nat>, place: Place, before: map<Parent, seq<nat>>)
    requires Inserted(items, nodes, place, before, before, 0)
    ensures |items| == |nodes| && place.at <= |ListOf(before, place.parent)|
  {
  }

  lemma ProgressRoot(
    items: seq<Item>, nodes: seq<nat>, place: Place, before: map<Parent, seq<nat>>, now: map<Parent, seq<nat>>,
    levels: seq<nat>, opens: seq<nat>, counts: map<nat, nat>, rootOffset: nat, n: nat)
    requires Progress(items, nodes, place, before, now, levels, opens, counts, rootOffset, n)
    requires place.skip <= n < |items| == |nodes| && items[n].depth == 0 && (n == 0 ==> levels == opens == [])
    ensures var list := ListOf(now, place.parent);
            var at := place.at + rootOffset - place.skip;
            && place.skip <= rootOffset
            && 0 <= at <= |list| == |ListOf(before, place.parent)| + rootOffset - place.skip
            && place.at <= |ListOf(before, place.parent)|
            && StandsUnder(items, nodes, place, n, place.parent)
            && Progress(items, nodes, place, before, now[place.parent := InsertAt(list, at, nodes[n])],
                        Opened(levels, 0, nodes[n]), Opened(opens, 0, n), counts, rootOffset + 1, n + 1)
  {
    hide Usable, Kids, AtDepth, IsKid, Inserted, Counts, LevelsAt, InsertAt;
    SiblingCount(items, nodes, place, before, now, n);
    RootsCount(items, place.skip, n);
    CountsAtRoot(items, nodes, counts, n);
    RootStep(items, nodes, place, before, now, n);
    LevelsStep(items, nodes, levels, opens, n);
  }

  lemma ProgressKid(
    items: seq<Item>, nodes: seq<nat>, place: Place, before: map<Parent, seq<nat>>, now: map<Parent, seq<nat>>,
    levels: seq<nat>, opens: seq<nat>, counts: map<nat, nat>, rootOffset: nat, n: nat)
    requires Progress(items, nodes, place, before, now, levels, opens, counts, rootOffset, n)
    requires place.skip <= n < |items| == |nodes| && 0 < items[n].depth <= |levels| == |opens|
    ensures var parent := levels[items[n].depth - 1];
            var list := ListOf(now, Of(parent));
            var at := CountOf(counts, parent);
            && at <= |list| && StandsUnder(items, nodes, place, n, Of(parent))
            && Progress(items, nodes, place, before, now[Of(parent) := InsertAt(list, at, nodes[n])],
                        Opened(levels, items[n].depth, nodes[n]), Opened(opens, items[n].depth, n),
                        counts[parent := at + 1], rootOffset, n + 1)
  {
    hide Usable, Kids, AtDepth, IsKid, Inserted, Counts, LevelsAt, InsertAt;
    LevelIsOpen(items, nodes, levels, opens, n);
    var q := opens[items[n].depth - 1];
    UsableAreDistinct(before, nodes, place);
    CountsAtKid(items, nodes, counts, n, q);
    KidStep(items, nodes, place, before, now, n, q);
    RootsCount(items, place.skip, n);
    LevelsStep(items, nodes, levels, opens, n);
  }

  lemma SiblingCount(items: seq<Item>, nodes: seq<nat>, place: Place, before: map<Parent, seq<nat>>, now: map<Parent, seq<nat>>, n: nat)
    requires Inserted(items, nodes, place, before, now, n)
    ensures |ListOf(now, place.parent)| == |ListOf(before, place.parent)| + |AtDepth(items, 0, place.skip, n)|
    ensures place.at <= |ListOf(before, place.parent)|
  {
    hide AtDepth, Kids;
  }

  lemma RootsCount(items: seq<Item>, skip: nat, n: nat)
    requires skip <= n < |items|
    ensures |AtDepth(items, 0, skip, n + 1)| == |AtDepth(items, 0, skip, n)| + if items[n].depth == 0 then 1 else 0
  {
  }

  /** How many children each node was given so far. */
  ghost predicate Counts(items: seq<Item>, nodes: seq<nat>, counts: map<nat, nat>, n: nat)
    requires n <= |items| == |nodes|
  {
    && (forall i :: 0 <= i < n ==> CountOf(counts, nodes[i]) == |Kids(items, i, n)|)
    && (forall i :: n <= i < |items| ==> nodes[i] !in counts)
  }

  lemma CountsAtRoot(items: seq<Item>, nodes: seq<nat>, counts: map<nat, nat>, n: nat)
    requires n < |items| == |nodes| && items[n].depth == 0 && Counts(items, nodes, counts, n)
    ensures Counts(items, nodes, counts, n + 1)
  {
    hide Kids;
    forall i | 0 <= i < n + 1 ensures CountOf(counts, nodes[i]) == |Kids(items, i, n + 1)| {
      if i < n {
        NoKidYet(items, i, n);
      } else {
        NoKidsBefore(items, n, n + 1);
      }
    }
  }

  lemma CountsAtKid(items: seq<Item>, nodes: seq<nat>, counts: map<nat, nat>, n: nat, q: nat)
    requires n < |items| == |nodes| && q < n && IsKid(items, q, n) && Distinct(nodes) && Counts(items, nodes, counts, n)
    ensures CountOf(counts, nodes[q]) == |Kids(items, q, n)|
    ensures Counts(items, nodes, counts[nodes[q] := CountOf(counts, nodes[q]) + 1], n + 1)
  {
    hide Kids;
    var after := counts[nodes[q] := CountOf(counts, nodes[q]) + 1];
    forall i | 0 <= i < n + 1 ensures CountOf(after, nodes[i]) == |Kids(items, i, n + 1)| {
      if i == q {
        OneMoreKid(items, q, n);
      } else if i < n {
        OneParent(items, q, i, n);
        NoKidYet(items, i, n);
      } else {
        NoKidsBefore(items, n, n + 1);
      }
    }
  }

  lemma OneMoreKid(items: seq<Item>, q: nat, n: nat)
    requires n < |items| && IsKid(items, q, n)
    ensures |Kids(items, q, n + 1)| == |Kids(items, q, n)| + 1
  {
  }

  lemma NothingAtDepth(items: seq<Item>, lo: nat, hi: nat)
    requires hi <= lo && hi <= |items|
    ensures AtDepth(items, 0, lo, hi) == []
  {
  }

  lemma NothingWritten(items: seq<Item>, nodes: seq<nat>, texts: map<nat, seq<Byte>>)
    requires |items| == |nodes|
    ensures Written(texts, texts, items, nodes, 0) && Counts(items, nodes, map[], 0)
  {
  }

  lemma WrittenStep(before: map<nat, seq<Byte>>, now: map<nat, seq<Byte>>, items: seq<Item>, nodes: seq<nat>, n: nat)
    requires n < |items| == |nodes| && Distinct(nodes) && Written(before, now, items, nodes, n)
    ensures Written(before, now[nodes[n] := items[n].text], items, nodes, n + 1)
  {
    assert nodes[..n + 1] == nodes[..n] + [nodes[n]];
  }

  /** Each item's text is on its node, and no other text changed. */
  ghost predicate Written(before: map<nat, seq<Byte>>, after: map<nat, seq<Byte>>, items: seq<Item>, nodes: seq<nat>, n: nat)
    requires n <= |items| == |nodes|
  {
    && (forall i :: 0 <= i < n ==> nodes[i] in after && after[nodes[i]] == items[i].text)
    && (forall m :: m !in nodes[..n] ==> (m in after <==> m in before) && (m in after ==> after[m] == before[m]))
  }

  // ------------------------------------------------------- the inserted tree, walked

  datatype Row = Row(node: nat, depth: nat)

  /** The preorder walk of the tree below `list`, as deep as `fuel` levels. */
  function TreeWalk(children: map<Parent, seq<nat>>, list: seq<nat>, depth: nat, fuel: nat): seq<Row>
    decreases fuel, |list|
  {
    if list == [] || fuel == 0 then [] else
      var last := list[|list| - 1];
      TreeWalk(children, list[..|list| - 1], depth, fuel)
      + [Row(last, depth)] + TreeWalk(children, ListOf(children, Of(last)), depth + 1, fuel - 1)
  }

  function Rows(nodes: seq<nat>, visits: seq<Visit>): (rows: seq<Row>)
    requires forall k :: 0 <= k < |visits| ==> visits[k].item < |nodes|
    ensures |rows| == |visits| && forall k :: 0 <= k < |rows| ==> rows[k] == Row(nodes[visits[k].item], visits[k].depth)
  {
    seq(|visits|, k requires 0 <= k < |visits| => Row(nodes[visits[k].item], visits[k].depth))
  }

  lemma {:induction false} WalkInRange(items: seq<Item>, list: seq<nat>, depth: nat, bound: int)
    requires forall k :: 0 <= k < |list| ==> bound < list[k] < |items|
    ensures forall k :: 0 <= k < |Walk(items, list, depth, bound)| ==> Walk(items, list, depth, bound)[k].item < |items|
    decreases |items| - bound, |list|
  {
    hide Kids;
    if list != [] {
      var last := list[|list| - 1];
      WalkInRange(items, list[..|list| - 1], depth, bound);
      WalkInRange(items, Kids(items, last, |items|), depth + 1, last);
    }
  }

  /** From item `from` on, every node's children are what the depth list says. */
  ghost predicate Mirrors(items: seq<Item>, nodes: seq<nat>, children: map<Parent, seq<nat>>, from: int)
    requires |items| == |nodes|
  {
    forall i :: from <= i < |items| && 0 <= i ==> ListOf(children, Of(nodes[i])) == NodesAt(nodes, Kids(items, i, |items|))
  }

  lemma {:induction false} TreeWalkIsWalk(
    items: seq<Item>, nodes: seq<nat>, children: map<Parent, seq<nat>>, list: seq<nat>, depth: nat, bound: int, fuel: nat)
    requires |items| == |nodes| && Mirrors(items, nodes, children, bound + 1)
    requires (forall k :: 0 <= k < |list| ==> bound < list[k] < |items|) && -1 <= bound && fuel >= |items| - bound - 1
    requires forall k :: 0 <= k < |Walk(items, list, depth, bound)| ==> Walk(items, list, depth, bound)[k].item < |items|
    ensures TreeWalk(children, NodesAt(nodes, list), depth, fuel) == Rows(nodes, Walk(items, list, depth, bound))
    decreases |items| - bound, |list|
  {
    hide Kids, Rows, Walk, TreeWalk, NodesAt;
    if list == [] {
      NothingToWalk(items, nodes, children, depth, bound, fuel);
    } else {
      var front, last := list[..|list| - 1], list[|list| - 1];
      assert list == front + [last];
      WalkAppend(items, front, last, depth, bound);
      NodesAtOneMore(nodes, front, last);
      var kids := Kids(items, last, |items|);
      WalkInRange(items, front, depth, bound);
      WalkInRange(items, kids, depth + 1, last);
      TreeWalkIsWalk(items, nodes, children, front, depth, bound, fuel);
      TreeWalkIsWalk(items, nodes, children, kids, depth + 1, last, fuel - 1);
      RowsJoin(nodes, Walk(items, front, depth, bound), Visit(last, depth), Walk(items, kids, depth + 1, last));
      TreeWalkOneMore(children, NodesAt(nodes, front), nodes[last], depth, fuel);
    }
  }

  lemma NothingToWalk(items: seq<Item>, nodes: seq<nat>, children: map<Parent, seq<nat>>, depth: nat, bound: int, fuel: nat)
    ensures TreeWalk(children, NodesAt(nodes, []), depth, fuel) == [] && Walk(items, [], depth, bound) == []
    ensures Rows(nodes, []) == []
  {
  }

  lemma RowsJoin(nodes: seq<nat>, a: seq<Visit>, v: Visit, b: seq<Visit>)
    requires forall k :: 0 <= k < |a| ==> a[k].item < |nodes|
    requires v.item < |nodes| && forall k :: 0 <= k < |b| ==> b[k].item < |nodes|
    ensures Rows(nodes, a + [v] + b) == Rows(nodes, a) + [Row(nodes[v.item], v.depth)] + Rows(nodes, b)
  {
  }

  lemma TreeWalkOneMore(children: map<Parent, seq<nat>>, front: seq<nat>, last: nat, depth: nat, fuel: nat)
    requires fuel > 0
    ensures TreeWalk(children, front + [last], depth, fuel)
         == TreeWalk(children, front, depth, fuel) + [Row(last, depth)]
            + TreeWalk(children, ListOf(children, Of(last)), depth + 1, fuel - 1)
  {
    assert (front + [last])[..|front|] == front;
  }

  lemma {:induction false} TreeWalkJoins(children: map<Parent, seq<nat>>, a: seq<nat>, b: seq<nat>, depth: nat, fuel: nat)
    ensures TreeWalk(children, a + b, depth, fuel) == TreeWalk(children, a, depth, fuel) + TreeWalk(children, b, depth, fuel)
    decreases |b|
  {
    hide TreeWalk;
    TreeWalkEnds(children, b, depth, fuel);
    TreeWalkEnds(children, a, depth, fuel);
    TreeWalkEnds(children, a + b, depth, fuel);
    if b == [] {
      assert a + b == a;
    } else if fuel > 0 {
      var front, last := b[..|b| - 1], b[|b| - 1];
      TreeWalkJoins(children, a, front, depth, fuel);
      assert a + b == a + front + [last] && b == front + [last];
      TreeWalkOneMore(children, a + front, last, depth, fuel);
      TreeWalkOneMore(children, front, last, depth, fuel);
    }
  }

  lemma TreeWalkEnds(children: map<Parent, seq<nat>>, list: seq<nat>, depth: nat, fuel: nat)
    ensures list == [] || fuel == 0 ==> TreeWalk(children, list, depth, fuel) == []
  {
  }

  // -------------------------------------------------- the subtree a replaced block keeps

  /** `below` holds everything under `list`. */
  ghost predicate Beneath(children: map<Parent, seq<nat>>, list: seq<nat>, below: set<nat>) {
    && (forall x :: x in list ==> x in below)
    && (forall x, y :: x in below && y in ListOf(children, Of(x)) ==> y in below)
  }

  /** Where the lists agree on a subtree, so do its walks. */
  lemma {:induction false} SameSubtree(
    before: map<Parent, seq<nat>>, after: map<Parent, seq<nat>>, list: seq<nat>, below: set<nat>, depth: nat, fuel: nat)
    requires Beneath(before, list, below)
    requires forall x :: x in below ==> ListOf(after, Of(x)) == ListOf(before, Of(x))
    ensures TreeWalk(after, list, depth, fuel) == TreeWalk(before, list, depth, fuel)
    decreases fuel, |list|
  {
    hide TreeWalk;
    TreeWalkEnds(before, list, depth, fuel);
    TreeWalkEnds(after, list, depth, fuel);
    if list != [] && fuel > 0 {
      var front, last := list[..|list| - 1], list[|list| - 1];
      assert last in list && list == front + [last];
      SameSubtree(before, after, front, below, depth, fuel);
      SameSubtree(before, after, ListOf(before, Of(last)), below, depth + 1, fuel - 1);
      TreeWalkOneMore(before, front, last, depth, fuel);
      TreeWalkOneMore(after, front, last, depth, fuel);
    }
  }

  // -------------------------------------------------------------------- the round trip

  function RowsOf(items: seq<Item>, nodes: seq<nat>, lo: nat, hi: nat): seq<Row>
    requires lo <= hi <= |items| == |nodes|
  {
    seq(hi - lo, k requires 0 <= k < hi - lo => Row(nodes[lo + k], items[lo + k].depth))
  }

  /** Where the first item's descendants end. */
  ghost predicate EndsAt(items: seq<Item>, end: nat) {
    && 1 <= end <= |items|
    && (forall m :: 1 <= m < end ==> items[m].depth > 0)
    && (end < |items| ==> items[end].depth == 0)
  }

  lemma {:induction false} EndExists(items: seq<Item>, from: nat) returns (end: nat)
    requires 1 <= from <= |items| && forall m :: 1 <= m < from ==> items[m].depth > 0
    ensures EndsAt(items, end)
    decreases |items| - from
  {
    if from < |items| && items[from].depth > 0 {
      end := EndExists(items, from + 1);
    } else {
      end := from;
    }
  }

  lemma RowsOfListed(items: seq<Item>, nodes: seq<nat>, lo: nat, hi: nat)
    requires lo <= hi <= |items| == |nodes|
    ensures Rows(nodes, Listed(items, lo, hi)) == RowsOf(items, nodes, lo, hi)
  {
  }

  lemma {:induction false} RootsAfterEnd(items: seq<Item>, end: nat, n: nat)
    requires 1 <= end <= n <= |items| && items[0].depth == 0 && forall m :: 1 <= m < end ==> items[m].depth > 0
    ensures AtDepth(items, 0, 0, n) == [0] + AtDepth(items, 0, end, n)
    decreases n
  {
    if n > end {
      RootsAfterEnd(items, end, n - 1);
    } else {
      FirstIsOnlyRoot(items, n);
    }
  }

  lemma {:induction false} FirstIsOnlyRoot(items: seq<Item>, n: nat)
    requires 1 <= n <= |items| && items[0].depth == 0 && forall m :: 1 <= m < n ==> items[m].depth > 0
    ensures AtDepth(items, 0, 0, n) == [0]
    decreases n
  {
    if n > 1 {
      FirstIsOnlyRoot(items, n - 1);
    } else {
      assert AtDepth(items, 0, 0, 0) == [];
    }
  }

  /** A stretch of items beyond the first, walked in the tree, is its rows. */
  lemma StretchRows(
    items: seq<Item>, nodes: seq<nat>, children: map<Parent, seq<nat>>, depth: nat, lo: nat, hi: nat, fuel: nat)
    requires |items| == |nodes| && Mirrors(items, nodes, children, 1) && NoSkips(items)
    requires Stretch(items, depth, lo, hi) && 1 <= lo && fuel >= |items| - 1
    ensures TreeWalk(children, NodesAt(nodes, AtDepth(items, depth, lo, hi)), depth, fuel) == RowsOf(items, nodes, lo, hi)
  {
    hide Walk, TreeWalk, NodesAt, AtDepth, Kids, Mirrors, Rows, Listed, RowsOf, NoSkips;
    var list := AtDepth(items, depth, lo, hi);
    WalkInRange(items, list, depth, 0);
    TreeWalkIsWalk(items, nodes, children, list, depth, 0, fuel);
    WalkStretch(items, depth, lo, hi, 0);
    RowsOfListed(items, nodes, lo, hi);
  }

  /** The round trip.  The new roots, with the replaced block in front if there is one,
      walked in preorder to any depth that reaches them all, list the inserted items with
      their depths; what the first item's block had below it before stands in one piece
      after its new descendants. */
  lemma InsertedTreeIsTheList(
    items: seq<Item>, nodes: seq<nat>, place: Place, before: map<Parent, seq<nat>>, after: map<Parent, seq<nat>>,
    below: set<nat>, end: nat, fuel: nat)
    requires NoSkips(items) && Inserted(items, nodes, place, before, after, |items|) && fuel >= |items|
    requires EndsAt(items, end) && Distinct(nodes)
    requires forall i :: 1 <= i < |nodes| ==> ListOf(before, Of(nodes[i])) == []
    requires Beneath(before, ListOf(before, Of(nodes[0])), below)
    requires forall x :: x in below ==> x !in nodes && place.parent != Of(x)
    ensures TreeWalk(after, NodesAt(nodes, AtDepth(items, 0, 0, |items|)), 0, fuel)
         == RowsOf(items, nodes, 0, end)
            + TreeWalk(before, ListOf(before, Of(nodes[0])), 1, fuel - 1)
            + RowsOf(items, nodes, end, |items|)
  {
    hide Kids, AtDepth, Walk, TreeWalk, NodesAt, Siblings, Rows, RowsOf, Beneath;
    InsertedMirrors(items, nodes, place, before, after);
    var kids := Kids(items, 0, |items|);
    var old_ := ListOf(before, Of(nodes[0]));
    var n := |items|;
    FirstHas(items, nodes, place, before, after);
    OldSubtreeStays(items, nodes, place, before, after, below, fuel - 1);
    FirstBlock(items, nodes, after, kids, old_, end, fuel);
    RootsAfterEnd(items, end, n);
    var rest := AtDepth(items, 0, end, n);
    assert Stretch(items, 0, end, n);
    StretchRows(items, nodes, after, 0, end, n, fuel);
    NodesAtJoin(nodes, [0], rest);
    OneNode(nodes, 0);
    TreeWalkJoins(after, [nodes[0]], NodesAt(nodes, rest), 0, fuel);
  }

  lemma OneNode(nodes: seq<nat>, i: nat)
    requires i < |nodes|
    ensures NodesAt(nodes, [i]) == [nodes[i]]
  {
    assert [i] == [] + [i];
    NodesAtOneMore(nodes, [], i);
    assert NodesAt(nodes, []) == [];
  }

  lemma {:induction false} NodesAtJoin(nodes: seq<nat>, a: seq<nat>, b: seq<nat>)
    requires (forall k :: 0 <= k < |a| ==> a[k] < |nodes|) && (forall k :: 0 <= k < |b| ==> b[k] < |nodes|)
    ensures NodesAt(nodes, a + b) == NodesAt(nodes, a) + NodesAt(nodes, b)
    decreases |b|
  {
    hide NodesAt;
    if b == [] {
      NoNodes(nodes);
      assert a + b == a;
    } else {
      var front, last := b[..|b| - 1], b[|b| - 1];
      NodesAtJoin(nodes, a, front);
      assert a + b == a + front + [last] && b == front + [last];
      NodesAtOneMore(nodes, a + front, last);
      NodesAtOneMore(nodes, front, last);
    }
  }

  lemma InsertedMirrors(items: seq<Item>, nodes: seq<nat>, place: Place, before: map<Parent, seq<nat>>, after: map<Parent, seq<nat>>)
    requires Inserted(items, nodes, place, before, after, |items|)
    requires forall i :: 1 <= i < |nodes| ==> ListOf(before, Of(nodes[i])) == []
    ensures Mirrors(items, nodes, after, 1)
  {
    hide Kids, NodesAt, Siblings, OthersKept, AtDepth;
    forall i | 1 <= i < |items| ensures ListOf(after, Of(nodes[i])) == NodesAt(nodes, Kids(items, i, |items|)) {
      assert ListOf(before, Of(nodes[i])) == [];
    }
  }

  lemma FirstHas(items: seq<Item>, nodes: seq<nat>, place: Place, before: map<Parent, seq<nat>>, after: map<Parent, seq<nat>>)
    requires Inserted(items, nodes, place, before, after, |items|) && |items| > 0
    ensures ListOf(after, Of(nodes[0])) == NodesAt(nodes, Kids(items, 0, |items|)) + ListOf(before, Of(nodes[0]))
  {
    hide Kids, NodesAt, Siblings, OthersKept, AtDepth;
  }

  /** What was below the replaced block is still there, as it was. */
  lemma OldSubtreeStays(
    items: seq<Item>, nodes: seq<nat>, place: Place, before: map<Parent, seq<nat>>, after: map<Parent, seq<nat>>, below: set<nat>, fuel: nat)
    requires Inserted(items, nodes, place, before, after, |items|) && |items| > 0
    requires Beneath(before, ListOf(before, Of(nodes[0])), below)
    requires forall x :: x in below ==> x !in nodes && place.parent != Of(x)
    ensures TreeWalk(after, ListOf(before, Of(nodes[0])), 1, fuel) == TreeWalk(before, ListOf(before, Of(nodes[0])), 1, fuel)
  {
    hide Kids, NodesAt, Siblings, AtDepth, KidsPlaced, TreeWalk;
    assert nodes[..|items|] == nodes;
    SameSubtree(before, after, ListOf(before, Of(nodes[0])), below, 1, fuel);
  }

  lemma WalkOne(children: map<Parent, seq<nat>>, node: nat, depth: nat, fuel: nat)
    requires fuel > 0
    ensures TreeWalk(children, [node], depth, fuel)
         == [Row(node, depth)] + TreeWalk(children, ListOf(children, Of(node)), depth + 1, fuel - 1)
  {
    hide ListOf;
    TreeWalkOneMore(children, [], node, depth, fuel);
    assert TreeWalk(children, [], depth, fuel) == [];
    assert [] + [node] == [node];
  }

  /** The first item's children and everything new below them. */
  lemma FirstDescendants(
    items: seq<Item>, nodes: seq<nat>, after: map<Parent, seq<nat>>, end: nat, fuel: nat)
    requires NoSkips(items) && |items| == |nodes| && EndsAt(items, end) && fuel >= |items| - 1
    requires Mirrors(items, nodes, after, 1)
    ensures TreeWalk(after, NodesAt(nodes, Kids(items, 0, |items|)), 1, fuel) == RowsOf(items, nodes, 1, end)
  {
    hide Kids, AtDepth, TreeWalk, NodesAt, Mirrors, RowsOf;
    KidsAreNextLevel(items, 0, end, |items|);
    assert Stretch(items, 1, 1, end);
    StretchRows(items, nodes, after, 1, 1, end, fuel);
  }

  /** The first item's block: itself, its new descendants, and what it had before. */
  lemma FirstBlock(
    items: seq<Item>, nodes: seq<nat>, after: map<Parent, seq<nat>>, kids: seq<nat>, old_: seq<nat>, end: nat, fuel: nat)
    requires NoSkips(items) && |items| == |nodes| && EndsAt(items, end) && fuel >= |items|
    requires Mirrors(items, nodes, after, 1) && kids == Kids(items, 0, |items|)
    requires ListOf(after, Of(nodes[0])) == NodesAt(nodes, kids) + old_
    ensures TreeWalk(after, [nodes[0]], 0, fuel) == RowsOf(items, nodes, 0, end) + TreeWalk(after, old_, 1, fuel - 1)
  {
    hide Kids, TreeWalk, NodesAt, Mirrors, RowsOf, ListOf;
    WalkOne(after, nodes[0], 0, fuel);
    FirstDescendants(items, nodes, after, end, fuel - 1);
    TreeWalkJoins(after, NodesAt(nodes, kids), old_, 1, fuel - 1);
    FirstRow(items, nodes, end);
  }

  lemma FirstRow(items: seq<Item>, nodes: seq<nat>, end: nat)
    requires 1 <= end <= |items| == |nodes|
    ensures RowsOf(items, nodes, 0, end) == [Row(nodes[0], items[0].depth)] + RowsOf(items, nodes, 1, end)
  {
  }
}
