/**
 Inserting a depth list into an outline: the list describes a forest in preorder,
 and insertion builds exactly that forest under the requested parent or around the
 replaced block.
 */
module OutlineInsertion {
  import opened Records

  const MAX_STRUCTURAL_TARGETS := 10_000
  const MAX_BLOCK_TEXT_BYTES := 1_048_576

  /** `text` is the markdown's UTF-8 bytes; `atom` says whether it holds the reserved character. */
  datatype Item = Item(depth: nat, text: seq<Byte>, atom: bool)

  // ------------------------------------------------------------ accepted depth lists

  function TotalText(items: seq<Item>): nat {
    if items == [] then 0 else TotalText(items[..|items| - 1]) + |items[|items| - 1].text|
  }

  /** Every item is at most one deeper than the one before it. */
  predicate NoSkips(items: seq<Item>) {
    && (items != [] ==> items[0].depth == 0)
    && forall i :: 0 < i < |items| ==> items[i].depth <= items[i - 1].depth + 1
  }

  predicate Accepted(items: seq<Item>) {
    && 0 < |items| <= MAX_STRUCTURAL_TARGETS
    && NoSkips(items)
    && (forall i :: 0 <= i < |items| ==> !items[i].atom)
    && TotalText(items) <= MAX_BLOCK_TEXT_BYTES
  }

  /** The bytes of a list are those of its items. */
  lemma {:induction false} TotalTextAdds(a: seq<Item>, b: seq<Item>, item: Item)
    ensures TotalText(a + b) == TotalText(a) + TotalText(b)
    ensures TotalText([item]) == |item.text|
    decreases |b|
  {
    assert TotalText([item][..0]) == 0;
    if b == [] {
      assert a + b == a;
    } else {
      TotalTextAdds(a, b[..|b| - 1], item);
      assert (a + b)[..|a + b| - 1] == a + b[..|b| - 1];
    }
  }

  lemma {:induction false} TotalTextGrows(items: seq<Item>, n: nat)
    requires n <= |items|
    ensures TotalText(items[..n]) <= TotalText(items)
  {
    if n < |items| {
      TotalTextGrows(items[..|items| - 1], n);
      assert items[..|items| - 1][..n] == items[..n];
    } else {
      assert items[..n] == items;
    }
  }

  method ValidateOutlineItems(items: seq<Item>) returns (accepted: bool)
    ensures accepted <==> Accepted(items)
    ensures accepted <==>
      && 1 <= |items| <= 10_000 && items[0].depth == 0
      && (forall i :: 0 < i < |items| ==> items[i].depth <= items[i - 1].depth + 1)
      && (forall i :: 0 <= i < |items| ==> !items[i].atom)
      && TotalText(items) <= 1_048_576
  {
    if items == [] || |items| > MAX_STRUCTURAL_TARGETS || items[0].depth != 0 {
      return false;
    }
    var previous, total := 0, 0;
    for i := 0 to |items|
      invariant i > 0 ==> previous == items[i - 1].depth
      invariant i == 0 ==> previous == 0
      invariant forall j :: 0 < j < i ==> items[j].depth <= items[j - 1].depth + 1
      invariant forall j :: 0 <= j < i ==> !items[j].atom
      invariant total == TotalText(items[..i]) <= MAX_BLOCK_TEXT_BYTES
    {
      var item := items[i];
      assert items[..i + 1][..i] == items[..i];
      TotalTextGrows(items, i + 1);
      if item.depth > previous + 1 {
        return false;
      }
      if |item.text| > MAX_BLOCK_TEXT_BYTES || item.atom {
        return false;
      }
      total := total + |item.text|;
      if total > MAX_BLOCK_TEXT_BYTES {
        return false;
      }
      previous := item.depth;
    }
    assert items[..|items|] == items;
    return true;
  }

  // ------------------------------------------------------- the forest of a depth list

  /** `j` is a child of `i`: one deeper, with nothing as shallow as `i` in between. */
  predicate IsKid(items: seq<Item>, i: nat, j: nat) {
    && i < j < |items| && items[j].depth == items[i].depth + 1
    && forall m :: i < m < j ==> items[m].depth > items[i].depth
  }

  /** The children of `i` among the first `n` items, in order. */
  function Kids(items: seq<Item>, i: nat, n: nat): (kids: seq<nat>)
    requires n <= |items|
    ensures forall k :: 0 <= k < |kids| ==> i < kids[k] < n && IsKid(items, i, kids[k])
  {
    if n == 0 then [] else Kids(items, i, n - 1) + if IsKid(items, i, n - 1) then [n - 1] else []
  }

  /** The items at `depth` from `lo` to `hi`, in order. */
  function AtDepth(items: seq<Item>, depth: nat, lo: nat, hi: nat): (found: seq<nat>)
    requires hi <= |items|
    ensures forall k :: 0 <= k < |found| ==> lo <= found[k] < hi && items[found[k]].depth == depth
  {
    if hi <= lo then [] else
      AtDepth(items, depth, lo, hi - 1) + if items[hi - 1].depth == depth then [hi - 1] else []
  }

  datatype Visit = Visit(item: nat, depth: nat)

  /** The preorder walk of the forest below `list`, with depths. */
  function Walk(items: seq<Item>, list: seq<nat>, depth: nat, bound: int): seq<Visit>
    requires forall k :: 0 <= k < |list| ==> bound < list[k] < |items|
    decreases |items| - bound, |list|
  {
    if list == [] then [] else
      var last := list[|list| - 1];
      Walk(items, list[..|list| - 1], depth, bound)
      + [Visit(last, depth)] + Walk(items, Kids(items, last, |items|), depth + 1, last)
  }

  function Listed(items: seq<Item>, lo: nat, hi: nat): seq<Visit>
    requires lo <= hi <= |items|
  {
    seq(hi - lo, k requires 0 <= k < hi - lo => Visit(lo + k, items[lo + k].depth))
  }

  /** A stretch of the list that is a forest of its own at `depth`. */
  ghost predicate Stretch(items: seq<Item>, depth: nat, lo: nat, hi: nat) {
    && lo <= hi <= |items|
    && (lo < hi ==> items[lo].depth == depth)
    && (forall m :: lo <= m < hi ==> items[m].depth >= depth)
    && (hi == |items| || items[hi].depth <= depth)
  }

  /** The last item of a stretch at its own depth. */
  lemma {:induction false} LastRoot(items: seq<Item>, depth: nat, lo: nat, hi: nat) returns (last: nat)
    requires lo < hi <= |items| && items[lo].depth == depth
    requires forall m :: lo <= m < hi ==> items[m].depth >= depth
    ensures lo <= last < hi && items[last].depth == depth
    ensures forall m :: last < m < hi ==> items[m].depth > depth
    ensures AtDepth(items, depth, lo, hi) == AtDepth(items, depth, lo, last) + [last]
  {
    if items[hi - 1].depth == depth {
      last := hi - 1;
    } else {
      last := LastRoot(items, depth, lo, hi - 1);
    }
  }

  /** Below its last root a stretch holds exactly that root's children. */
  lemma {:induction false} KidsAreNextLevel(items: seq<Item>, r: nat, hi: nat, n: nat)
    requires r < hi <= |items| && r < n <= |items|
    requires forall m :: r < m < hi ==> items[m].depth > items[r].depth
    requires hi == |items| || items[hi].depth <= items[r].depth
    ensures Kids(items, r, n) == AtDepth(items, items[r].depth + 1, r + 1, if n < hi then n else hi)
  {
    if n > r + 1 {
      KidsAreNextLevel(items, r, hi, n - 1);
      if n - 1 >= hi {
        assert items[hi].depth <= items[r].depth;
        assert !IsKid(items, r, n - 1);
      }
    } else {
      NoKidsBefore(items, r, n);
    }
  }

  lemma {:induction false} NoKidsBefore(items: seq<Item>, r: nat, n: nat)
    requires n <= |items| && n <= r + 1
    ensures Kids(items, r, n) == []
  {
    if n > 0 {
      NoKidsBefore(items, r, n - 1);
    }
  }

  lemma {:induction false} WalkStretch(items: seq<Item>, depth: nat, lo: nat, hi: nat, bound: int)
    requires NoSkips(items) && Stretch(items, depth, lo, hi) && bound < lo
    ensures Walk(items, AtDepth(items, depth, lo, hi), depth, bound) == Listed(items, lo, hi)
    decreases hi - lo
  {
    hide Kids, Walk, AtDepth, Listed;
    if lo < hi {
      var last := LastRoot(items, depth, lo, hi);
      WalkStretch(items, depth, lo, last, bound);
      KidsAreNextLevel(items, last, hi, |items|);
      assert Stretch(items, depth + 1, last + 1, hi);
      WalkStretch(items, depth + 1, last + 1, hi, last);
      ListedSplits(items, lo, last, hi);
      WalkAppend(items, AtDepth(items, depth, lo, last), last, depth, bound);
    } else {
      WalkNothing(items, depth, lo, hi, bound);
    }
  }

  lemma {:induction false} WalkAppend(items: seq<Item>, front: seq<nat>, last: nat, depth: nat, bound: int)
    requires (forall k :: 0 <= k < |front| ==> bound < front[k] < |items|) && bound < last < |items|
    ensures Walk(items, front + [last], depth, bound)
         == Walk(items, front, depth, bound) + [Visit(last, depth)] + Walk(items, Kids(items, last, |items|), depth + 1, last)
  {
    hide Kids, IsKid;
    assert (front + [last])[..|front|] == front;
  }

  lemma WalkNothing(items: seq<Item>, depth: nat, lo: nat, hi: nat, bound: int)
    requires lo == hi <= |items|
    ensures Walk(items, AtDepth(items, depth, lo, hi), depth, bound) == Listed(items, lo, hi) == []
  {
  }

  lemma ListedSplits(items: seq<Item>, lo: nat, mid: nat, hi: nat)
    requires lo <= mid < hi <= |items|
    ensures Listed(items, lo, hi) == Listed(items, lo, mid) + [Visit(mid, items[mid].depth)] + Listed(items, mid + 1, hi)
  {
  }

  /** The forest of an accepted list, walked in preorder with depths, is the list. */
  lemma PreorderIsTheList(items: seq<Item>)
    requires NoSkips(items)
    ensures Walk(items, AtDepth(items, 0, 0, |items|), 0, -1) == Listed(items, 0, |items|)
  {
    WalkStretch(items, 0, 0, |items|, -1);
  }

  // ------------------------------------------------------------------- the outline

  datatype Parent = Root | Of(node: nat)

  /** The other error of the original, a skipped depth, cannot arise: see `LevelIsOpen`. */
  datatype InsertError = BlockNotFound

  function NodesAt(nodes: seq<nat>, positions: seq<nat>): (r: seq<nat>)
    requires forall k :: 0 <= k < |positions| ==> positions[k] < |nodes|
    ensures |r| == |positions|
  {
    if positions == [] then [] else
      NodesAt(nodes, positions[..|positions| - 1]) + [nodes[positions[|positions| - 1]]]
  }

  lemma NodesAtOneMore(nodes: seq<nat>, positions: seq<nat>, i: nat)
    requires (forall k :: 0 <= k < |positions| ==> positions[k] < |nodes|) && i < |nodes|
    ensures NodesAt(nodes, positions + [i]) == NodesAt(nodes, positions) + [nodes[i]]
  {
    assert (positions + [i])[..|positions|] == positions;
  }

  function ListOf(children: map<Parent, seq<nat>>, p: Parent): seq<nat> {
    if p in children then children[p] else []
  }

  predicate Distinct(nodes: seq<nat>) {
    forall i, j :: 0 <= i < j < |nodes| ==> nodes[i] != nodes[j]
  }

  /** Where an insertion goes: under `parent` from position `at`, leaving out the
      first `skip` items because the replaced block stands for them. */
  datatype Place = Place(parent: Parent, at: nat, skip: nat)

  /** The siblings with the new roots in one piece. */
  function Siblings(items: seq<Item>, nodes: seq<nat>, place: Place, before: seq<nat>, n: nat): seq<nat>
    requires place.at <= |before| && n <= |items| == |nodes|
  {
    before[..place.at] + NodesAt(nodes, AtDepth(items, 0, place.skip, n)) + before[place.at..]
  }

  /** Every item's node starts with the children the list gives it. */
  ghost predicate KidsPlaced(items: seq<Item>, nodes: seq<nat>, before: map<Parent, seq<nat>>, after: map<Parent, seq<nat>>, n: nat)
    requires n <= |items| == |nodes|
  {
    forall i :: 0 <= i < n ==>
      ListOf(after, Of(nodes[i])) == NodesAt(nodes, Kids(items, i, n)) + ListOf(before, Of(nodes[i]))
  }

  ghost predicate OthersKept(nodes: seq<nat>, parent: Parent, before: map<Parent, seq<nat>>, after: map<Parent, seq<nat>>, n: nat)
    requires n <= |nodes|
  {
    forall p :: p != parent && (p.Of? ==> p.node !in nodes[..n]) ==> ListOf(after, p) == ListOf(before, p)
  }

  /** The outline after the first `n` items. */
  ghost predicate Inserted(
    items: seq<Item>, nodes: seq<nat>, place: Place,
    before: map<Parent, seq<nat>>, after: map<Parent, seq<nat>>, n: nat)
  {
    && n <= |items| == |nodes| && place.at <= |ListOf(before, place.parent)|
    && ListOf(after, place.parent) == Siblings(items, nodes, place, ListOf(before, place.parent), n)
    && KidsPlaced(items, nodes, before, after, n)
    && OthersKept(nodes, place.parent, before, after, n)
  }

  /** The item at each remembered depth that the next item may be put below. */
  ghost predicate LevelsAt(items: seq<Item>, nodes: seq<nat>, levels: seq<nat>, opens: seq<nat>, n: nat) {
    && 0 < n <= |items| == |nodes| && |levels| == |opens| == items[n - 1].depth + 1
    && forall k :: 0 <= k < |opens| ==>
         && opens[k] < n && items[opens[k]].depth == k && levels[k] == nodes[opens[k]]
         && forall m :: opens[k] < m < n ==> items[m].depth > k
  }
}
