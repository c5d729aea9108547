/**
 Where an insertion puts things, said of the lists, parents and texts of the outline
 alone, and which depth lists describe a forest at all.
 */
module OutlineFacts {
  import opened Records
  import opened OutlineInsertion
  import opened OutlineTree

  // ---------------------------------------------------------------------- placement

  /** `roots` are the items at depth zero from `from` on, in order. */
  ghost predicate RootsFrom(items: seq<Item>, from: nat, roots: seq<nat>) {
    && (forall k :: 0 <= k < |roots| ==> from <= roots[k] < |items| && items[roots[k]].depth == 0)
    && (forall j, k :: 0 <= j < k < |roots| ==> roots[j] < roots[k])
    && (forall i :: from <= i < |items| && items[i].depth == 0 ==> i in roots)
  }

  lemma {:induction false} AtDepthIsRoots(items: seq<Item>, from: nat, n: nat)
    requires n <= |items|
    ensures var roots := AtDepth(items, 0, from, n);
      && (forall j, k :: 0 <= j < k < |roots| ==> roots[j] < roots[k])
      && (forall i :: from <= i < n && items[i].depth == 0 ==> i in roots)
  {
    if from < n {
      AtDepthIsRoots(items, from, n - 1);
    }
  }

  lemma {:induction false} NodesAtIs(nodes: seq<nat>, positions: seq<nat>)
    requires forall k :: 0 <= k < |positions| ==> positions[k] < |nodes|
    ensures forall k :: 0 <= k < |positions| ==> NodesAt(nodes, positions)[k] == nodes[positions[k]]
  {
    if positions != [] {
      NodesAtIs(nodes, positions[..|positions| - 1]);
    }
  }

  /** `now` is `list` with the nodes of these roots in one piece from position `at` on. */
  ghost predicate StandTogether(nodes: seq<nat>, roots: seq<nat>, list: seq<nat>, at: nat, now: seq<nat>) {
    && at <= |list| && |now| == |list| + |roots|
    && (forall k :: 0 <= k < at ==> now[k] == list[k])
    && (forall k :: 0 <= k < |roots| ==> roots[k] < |nodes| && now[at + k] == nodes[roots[k]])
    && (forall k :: at <= k < |list| ==> now[|roots| + k] == list[k])
  }

  lemma SiblingsStandTogether(items: seq<Item>, nodes: seq<nat>, place: Place, list: seq<nat>)
    requires |items| == |nodes| && place.at <= |list|
    ensures var roots := AtDepth(items, 0, place.skip, |items|);
      RootsFrom(items, place.skip, roots) && StandTogether(nodes, roots, list, place.at, Siblings(items, nodes, place, list, |items|))
  {
    hide AtDepth, NodesAt, StandTogether;
    var roots := AtDepth(items, 0, place.skip, |items|);
    AtDepthIsRoots(items, place.skip, |items|);
    NodesAtIs(nodes, roots);
    InOnePiece(nodes, roots, list, place.at, NodesAt(nodes, roots));
  }

  lemma InOnePiece(nodes: seq<nat>, roots: seq<nat>, list: seq<nat>, at: nat, piece: seq<nat>)
    requires at <= |list| && |piece| == |roots|
    requires forall k :: 0 <= k < |roots| ==> roots[k] < |nodes| && piece[k] == nodes[roots[k]]
    ensures StandTogether(nodes, roots, list, at, list[..at] + piece + list[at..])
  {
  }

  /** Without a block to replace, the list under `parent` is what it was with the new roots in
      one piece, in order, at `index` or at its end. */
  lemma RootsGoWhereAsked(
    items: seq<Item>, nodes: seq<nat>, children: map<Parent, seq<nat>>, parents: map<nat, Parent>, parent: Parent, index: nat,
    after: map<Parent, seq<nat>>) returns (roots: seq<nat>)
    requires Inserted(items, nodes, PlaceFor(children, parents, parent, index, None), children, after, |items|)
    ensures RootsFrom(items, 0, roots)
    ensures var list := ListOf(children, parent);
            StandTogether(nodes, roots, list, if index <= |list| then index else |list|, ListOf(after, parent))
  {
    hide KidsPlaced, OthersKept, AtDepth, ListOf, StandTogether, RootsFrom, Siblings;
    var place := PlaceFor(children, parents, parent, index, None);
    roots := AtDepth(items, 0, 0, |items|);
    SiblingsStandTogether(items, nodes, place, ListOf(children, parent));
  }

  /** Replacing a block, it stays where it is with its siblings, and the further roots follow
      it at once, in order. */
  lemma RootsFollowTheReplaced(
    items: seq<Item>, nodes: seq<nat>, children: map<Parent, seq<nat>>, parents: map<nat, Parent>, parent: Parent, index: nat,
    target: nat, after: map<Parent, seq<nat>>) returns (at: nat, roots: seq<nat>)
    requires Present(children, parents, target)
    requires Inserted(items, nodes, PlaceFor(children, parents, parent, index, Some(target)), children, after, |items|)
    ensures RootsFrom(items, 1, roots)
    ensures var list := ListOf(children, parents[target]);
      && at < |list| && list[at] == target && target !in list[..at]
      && StandTogether(nodes, roots, list, at + 1, ListOf(after, parents[target]))
  {
    hide KidsPlaced, OthersKept, AtDepth, ListOf, PositionOf, StandTogether, RootsFrom, Siblings;
    var place := PlaceFor(children, parents, parent, index, Some(target));
    roots := AtDepth(items, 0, 1, |items|);
    at := PositionOf(ListOf(children, parents[target]), target);
    SiblingsStandTogether(items, nodes, place, ListOf(children, parents[target]));
  }

  // ------------------------------------------------------------- parents and their lists

  lemma {:induction false} AllKids(items: seq<Item>, q: nat, i: nat, n: nat)
    requires i < n <= |items| && IsKid(items, q, i)
    ensures i in Kids(items, q, n)
  {
    if i < n - 1 {
      AllKids(items, q, i, n - 1);
    }
  }

  lemma NodesAtHas(nodes: seq<nat>, positions: seq<nat>, i: nat)
    requires (forall k :: 0 <= k < |positions| ==> positions[k] < |nodes|) && i in positions
    ensures nodes[i] in NodesAt(nodes, positions)
  {
    NodesAtIs(nodes, positions);
    var k :| 0 <= k < |positions| && positions[k] == i;
    assert NodesAt(nodes, positions)[k] == nodes[i];
  }

  /** Every new block is among the children of the parent it names. */
  lemma ParentsAndListsAgree(
    items: seq<Item>, nodes: seq<nat>, place: Place, before: map<Parent, seq<nat>>, after: map<Parent, seq<nat>>,
    was: map<nat, Parent>, now: map<nat, Parent>, i: nat)
    requires Inserted(items, nodes, place, before, after, |items|) && Parented(items, nodes, place, was, now, |items|)
    requires place.skip <= i < |items|
    ensures Present(after, now, nodes[i])
  {
    hide Kids, AtDepth, NodesAt, OthersKept, IsKid;
    if items[i].depth == 0 {
      AtDepthIsRoots(items, place.skip, |items|);
      NodesAtHas(nodes, AtDepth(items, 0, place.skip, |items|), i);
    } else {
      var q :| 0 <= q < i && IsKid(items, q, i) && now[nodes[i]] == Of(nodes[q]);
      AllKids(items, q, i, |items|);
      NodesAtHas(nodes, Kids(items, q, |items|), i);
    }
  }

  // --------------------------------------------------------------- lists that are forests

  /** A walk starts at its own depth, stays at or below it, and goes one deeper at a time. */
  ghost predicate StepsDown(walk: seq<Visit>, depth: nat) {
    && (walk != [] ==> walk[0].depth == depth)
    && (forall k :: 0 <= k < |walk| ==> walk[k].depth >= depth)
    && (forall k :: 0 < k < |walk| ==> walk[k].depth <= walk[k - 1].depth + 1)
  }

  lemma {:induction false} WalkStepsDown(items: seq<Item>, list: seq<nat>, depth: nat, bound: int)
    requires forall k :: 0 <= k < |list| ==> bound < list[k] < |items|
    ensures StepsDown(Walk(items, list, depth, bound), depth)
    decreases |items| - bound, |list|
  {
    hide Kids, StepsDown;
    if list == [] {
      NoSteps(depth);
    } else {
      var front, last := list[..|list| - 1], list[|list| - 1];
      WalkStepsDown(items, front, depth, bound);
      WalkStepsDown(items, Kids(items, last, |items|), depth + 1, last);
      StepsJoin(Walk(items, front, depth, bound), Visit(last, depth), Walk(items, Kids(items, last, |items|), depth + 1, last), depth);
    }
  }

  lemma NoSteps(depth: nat)
    ensures StepsDown([], depth)
  {
  }

  lemma StepsJoin(a: seq<Visit>, v: Visit, b: seq<Visit>, depth: nat)
    requires StepsDown(a, depth) && v.depth == depth && StepsDown(b, depth + 1)
    ensures StepsDown(a + [v] + b, depth)
  {
  }

  /** A list is the preorder walk of the forest it describes if and only if it starts at
      depth zero and never skips a depth. */
  lemma PreorderIff(items: seq<Item>)
    ensures NoSkips(items) <==> Walk(items, AtDepth(items, 0, 0, |items|), 0, -1) == Listed(items, 0, |items|)
  {
    hide Walk, AtDepth;
    if NoSkips(items) {
      PreorderIsTheList(items);
    }
    if Walk(items, AtDepth(items, 0, 0, |items|), 0, -1) == Listed(items, 0, |items|) {
      WalkStepsDown(items, AtDepth(items, 0, 0, |items|), 0, -1);
      var listed := Listed(items, 0, |items|);
      forall i | 0 <= i < |items| ensures listed[i].depth == items[i].depth {
      }
    }
  }
}
