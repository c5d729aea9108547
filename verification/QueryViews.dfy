/**
 The bounded projection of a query document's views.  The stored map may hold any
 number of views after a merge; the projection sorts the live ones, publishes a bounded
 number, names the rest as overflow, and stays total when every view is deleted.
 */
module QueryViews {
  import opened Records

  const MAX_QUERY_VIEWS := 32
  const MAX_QUERY_SOURCE_BYTES := 65536
  const MAX_DEFAULT_QUERIES := 8
  const QUERY_DOCUMENT_SCHEMA := "neoseq.query"
  const QUERY_DOCUMENT_VERSION := 2

  /** `source` is the length of the view's query text in bytes, `body` everything else. */
  datatype QueryView = QueryView(id: string, position: nat, source: nat, body: nat)

  /** One stored entry: not a map, deleted, incomplete, or a view. */
  datatype Stored = NotMap | Tombstone | Incomplete | Live(position: nat, source: nat, body: nat)

  datatype QueryDocument = QueryDocument(schema: string, version: nat, views: seq<QueryView>, defaultView: string)

  datatype Projected = Projected(
    document: QueryDocument,
    overflow: seq<string>,
    unavailable: Option<(string, string)>,
    tooLong: seq<(string, nat)>)

  datatype ProjectionError = InvalidDefault | InvalidEntry | InvalidView | InvalidDocument

  /** The view a document without live views is read as. */
  const ALL := QueryView("all", 0, 0, 0)

  // -------------------------------------------------------------------------- ordering

  predicate LexLess(a: string, b: string) {
    if b == "" then false
    else if a == "" then true
    else a[0] < b[0] || (a[0] == b[0] && LexLess(a[1..], b[1..]))
  }

  lemma LexIsTotal(a: string, b: string)
    ensures a == b || LexLess(a, b) || LexLess(b, a)
    ensures !(LexLess(a, b) && LexLess(b, a)) && !LexLess(a, a)
  {
    if a != "" && b != "" && a[0] == b[0] {
      LexIsTotal(a[1..], b[1..]);
      assert a == [a[0]] + a[1..] && b == [b[0]] + b[1..];
    }
  }

  lemma {:induction false} LexIsTransitive(a: string, b: string, c: string)
    requires LexLess(a, b) && LexLess(b, c)
    ensures LexLess(a, c)
    decreases |a|
  {
    if a != "" && a[0] == b[0] == c[0] {
      LexIsTransitive(a[1..], b[1..], c[1..]);
    }
  }

  /** By position, then by identity. */
  predicate Precedes(a: QueryView, b: QueryView) {
    a.position < b.position || (a.position == b.position && LexLess(a.id, b.id))
  }

  lemma PrecedesIsOrder(a: QueryView, b: QueryView, c: QueryView)
    ensures a.id != b.id ==> Precedes(a, b) || Precedes(b, a)
    ensures !(Precedes(a, b) && Precedes(b, a)) && !Precedes(a, a)
    ensures Precedes(a, b) && Precedes(b, c) ==> Precedes(a, c)
  {
    LexIsTotal(a.id, b.id);
    if Precedes(a, b) && Precedes(b, c) && a.position == b.position == c.position {
      LexIsTransitive(a.id, b.id, c.id);
    }
  }

  ghost predicate Sorted(views: seq<QueryView>) {
    forall i, j :: 0 <= i < j < |views| ==> Precedes(views[i], views[j])
  }

  /** A sorted list is determined by its members. */
  lemma {:induction false} SortedIsUnique(a: seq<QueryView>, b: seq<QueryView>)
    requires Sorted(a) && Sorted(b) && forall v :: v in a <==> v in b
    ensures a == b
    decreases |a|
  {
    if |b| > 0 {
      assert b[0] in a;
    }
    if a != [] {
      assert a[0] in b;
      FirstIsSame(a, b);
      forall v ensures v in a[1..] <==> v in b[1..] {
        TailMember(a, v);
        TailMember(b, v);
      }
      SortedIsUnique(a[1..], b[1..]);
    }
  }

  lemma FirstIsSame(a: seq<QueryView>, b: seq<QueryView>)
    requires Sorted(a) && Sorted(b) && a != [] && b != [] && a[0] in b && b[0] in a
    ensures a[0] == b[0]
  {
    var i :| 0 <= i < |b| && b[i] == a[0];
    var j :| 0 <= j < |a| && a[j] == b[0];
    PrecedesIsOrder(a[0], b[0], a[0]);
  }

  lemma TailMember(a: seq<QueryView>, v: QueryView)
    requires Sorted(a) && a != []
    ensures v in a[1..] <==> v in a && v != a[0]
  {
    PrecedesIsOrder(a[0], a[0], a[0]);
    if v in a && v != a[0] {
      var i :| 0 <= i < |a| && a[i] == v;
      assert a[1..][i - 1] == v;
    }
    if v in a[1..] {
      var i :| 0 <= i < |a| - 1 && a[1..][i] == v;
      assert a[i + 1] == v;
    }
  }

  // ------------------------------------------------------------------------ the live views

  ghost predicate IsLive(stored: map<string, Stored>, v: QueryView) {
    v.id in stored && stored[v.id] == Live(v.position, v.source, v.body)
  }

  /** All live views in order. */
  ghost predicate LiveViews(stored: map<string, Stored>, views: seq<QueryView>) {
    Sorted(views) && forall v :: v in views <==> IsLive(stored, v)
  }

  lemma LiveViewsAreUnique(stored: map<string, Stored>, a: seq<QueryView>, b: seq<QueryView>)
    requires LiveViews(stored, a) && LiveViews(stored, b)
    ensures a == b
  {
    SortedIsUnique(a, b);
  }

  /** An iteration order of the stored map. */
  ghost predicate Enumerates(order: seq<string>, stored: map<string, Stored>) {
    && (forall id :: id in order <==> id in stored)
    && forall i, j :: 0 <= i < j < |order| ==> order[i] != order[j]
  }

  predicate Decodes(entry: Stored) {
    entry.Tombstone? || entry.Live?
  }

  // ------------------------------------------------------------------------------ sorting

  ghost predicate DistinctIds(views: seq<QueryView>) {
    forall i, j :: 0 <= i < j < |views| ==> views[i].id != views[j].id
  }

  method InsertSorted(sorted: seq<QueryView>, v: QueryView) returns (r: seq<QueryView>)
    requires Sorted(sorted) && forall w :: w in sorted ==> w.id != v.id
    ensures Sorted(r) && forall w :: w in r <==> w in sorted || w == v
  {
    var k := 0;
    while k < |sorted| && Precedes(sorted[k], v)
      invariant 0 <= k <= |sorted|
      invariant forall i :: 0 <= i < k ==> Precedes(sorted[i], v)
    {
      k := k + 1;
    }
    r := sorted[..k] + [v] + sorted[k..];
    InsertKeepsSorted(sorted, v, k);
  }

  lemma InsertKeepsSorted(sorted: seq<QueryView>, v: QueryView, k: nat)
    requires Sorted(sorted) && k <= |sorted| && forall w :: w in sorted ==> w.id != v.id
    requires forall i :: 0 <= i < k ==> Precedes(sorted[i], v)
    requires k < |sorted| ==> !Precedes(sorted[k], v)
    ensures var r := sorted[..k] + [v] + sorted[k..]; Sorted(r) && forall w :: w in r <==> w in sorted || w == v
  {
    var r := sorted[..k] + [v] + sorted[k..];
    forall i | k <= i < |sorted| ensures Precedes(v, sorted[i]) {
      assert sorted[k] in sorted;
      PrecedesIsOrder(v, sorted[k], sorted[i]);
    }
    SplicedIsSorted(sorted, v, k);
    assert sorted == sorted[..k] + sorted[k..];
  }

  lemma SplicedIsSorted(sorted: seq<QueryView>, v: QueryView, k: nat)
    requires Sorted(sorted) && k <= |sorted|
    requires forall i :: 0 <= i < k ==> Precedes(sorted[i], v)
    requires forall i :: k <= i < |sorted| ==> Precedes(v, sorted[i])
    ensures Sorted(sorted[..k] + [v] + sorted[k..])
  {
    hide Precedes;
    var r := sorted[..k] + [v] + sorted[k..];
    forall i, j | 0 <= i < j < |r| ensures Precedes(r[i], r[j]) {
      assert i < k ==> r[i] == sorted[i];
      assert i > k ==> r[i] == sorted[i - 1];
      assert j < k ==> r[j] == sorted[j];
      assert j > k ==> r[j] == sorted[j - 1];
    }
  }

  method SortViews(views: seq<QueryView>) returns (sorted: seq<QueryView>)
    requires DistinctIds(views)
    ensures Sorted(sorted) && forall v :: v in sorted <==> v in views
  {
    sorted := [];
    for i := 0 to |views|
      invariant Sorted(sorted) && forall v :: v in sorted <==> v in views[..i]
    {
      assert views[..i + 1] == views[..i] + [views[i]];
      sorted := InsertSorted(sorted, views[i]);
    }
    assert views[..|views|] == views;
  }

  // ------------------------------------------------------------------------ the projection

  function Shown(decoded: seq<QueryView>): seq<QueryView> {
    if decoded == [] then [ALL] else decoded
  }

  function Visible<T>(all: seq<T>, limit: nat): seq<T> {
    if |all| > limit then all[..limit] else all
  }

  function Overflow<T>(all: seq<T>, limit: nat): seq<T> {
    if |all| > limit then all[limit..] else []
  }

  function Ids(views: seq<QueryView>): (ids: seq<string>)
    ensures |ids| == |views| && forall i :: 0 <= i < |views| ==> ids[i] == views[i].id
  {
    seq(|views|, i requires 0 <= i < |views| => views[i].id)
  }

  predicate Offers(views: seq<QueryView>, id: string) {
    exists i :: 0 <= i < |views| && views[i].id == id
  }

  /** What the sorted live views are published as. */
  function ProjectionOf(decoded: seq<QueryView>, schema: string, version: nat, requested: string): Projected {
    var all := Shown(decoded);
    var views := Visible(all, MAX_QUERY_VIEWS);
    var chosen := if Offers(views, requested) then requested else views[0].id;
    Projected(QueryDocument(schema, version, views, chosen), Ids(Overflow(all, MAX_QUERY_VIEWS)),
              if chosen != requested then Some((requested, chosen)) else None, TooLong(all))
  }

  /** The views, visible or not, whose merged text is over the limit, with its length. */
  function TooLong(views: seq<QueryView>): seq<(string, nat)> {
    if views == [] then [] else
      var v := views[|views| - 1];
      TooLong(views[..|views| - 1]) + if v.source > MAX_QUERY_SOURCE_BYTES then [(v.id, v.source)] else []
  }

  method SourceOverflows(views: seq<QueryView>) returns (long: seq<(string, nat)>)
    ensures long == TooLong(views)
  {
    long := [];
    for i := 0 to |views|
      invariant long == TooLong(views[..i])
    {
      assert views[..i + 1][..i] == views[..i];
      if views[i].source > MAX_QUERY_SOURCE_BYTES {
        long := long + [(views[i].id, views[i].source)];
      }
    }
    assert views[..|views|] == views;
  }

  /** Every view over the limit is named, and no other. */
  lemma {:induction false} TooLongIsExact(views: seq<QueryView>, id: string, length: nat)
    ensures (id, length) in TooLong(views) <==>
            exists v :: v in views && v.id == id && v.source == length && length > MAX_QUERY_SOURCE_BYTES
  {
    if views != [] {
      var front, last := views[..|views| - 1], views[|views| - 1];
      assert forall v :: v in views <==> v in front || v == last;
      TooLongIsExact(front, id, length);
    }
  }

  predicate StructureValid(valid: QueryView -> bool, document: QueryDocument) {
    && document.schema == QUERY_DOCUMENT_SCHEMA && document.version == QUERY_DOCUMENT_VERSION
    && 1 <= |document.views| <= MAX_QUERY_VIEWS
    && (forall i :: 0 <= i < |document.views| ==> valid(document.views[i]))
    && (forall i, j :: 0 <= i < j < |document.views| ==> document.views[i].id != document.views[j].id)
    && Offers(document.views, document.defaultView)
  }

  method ValidateStructure(valid: QueryView -> bool, document: QueryDocument) returns (ok: bool)
    ensures ok <==> StructureValid(valid, document)
    ensures ok <==>
      && document.schema == "neoseq.query" && document.version == 2
      && 1 <= |document.views| <= 32
      && (forall i :: 0 <= i < |document.views| ==> valid(document.views[i]))
      && (forall i, j :: 0 <= i < j < |document.views| ==> document.views[i].id != document.views[j].id)
      && (exists i :: 0 <= i < |document.views| && document.views[i].id == document.defaultView)
  {
    if document.schema != QUERY_DOCUMENT_SCHEMA || document.version != QUERY_DOCUMENT_VERSION {
      return false;
    }
    if document.views == [] || |document.views| > MAX_QUERY_VIEWS {
      return false;
    }
    var ids: set<string> := {};
    for i := 0 to |document.views|
      invariant forall j :: 0 <= j < i ==> valid(document.views[j])
      invariant forall j, k :: 0 <= j < k < i ==> document.views[j].id != document.views[k].id
      invariant forall id :: id in ids <==> exists j :: 0 <= j < i && document.views[j].id == id
    {
      var view := document.views[i];
      if !valid(view) || view.id in ids {
        return false;
      }
      ids := ids + {view.id};
    }
    return document.defaultView in ids;
  }

  method DecodeViews(stored: map<string, Stored>, order: seq<string>) returns (decoded: seq<QueryView>, issue: bool)
    requires Enumerates(order, stored)
    ensures issue <==> exists id :: id in stored && !Decodes(stored[id])
    ensures DistinctIds(decoded) && forall v :: v in decoded <==> IsLive(stored, v)
  {
    decoded, issue := [], false;
    for i := 0 to |order|
      invariant issue <==> exists j :: 0 <= j < i && !Decodes(stored[order[j]])
      invariant DistinctIds(decoded)
      invariant forall v :: v in decoded <==> IsLive(stored, v) && v.id in order[..i]
    {
      hide Enumerates;
      var id := order[i];
      assert order[..i + 1] == order[..i] + [id];
      assert id !in order[..i];
      match stored[id]
      case NotMap => issue := true;
      case Incomplete => issue := true;
      case Tombstone =>
      case Live(position, source, body) =>
        assert forall j :: 0 <= j < |decoded| ==> decoded[j] in decoded;
        decoded := decoded + [QueryView(id, position, source, body)];
    }
    assert order[..|order|] == order;
  }

  /** What projecting the sorted live views must answer. */
  ghost predicate Projects(
    valid: QueryView -> bool, stored: map<string, Stored>, live: seq<QueryView>, schema: string, version: nat,
    requested: Option<string>, r: Result<Projected, ProjectionError>)
  {
    && (r.Ok? <==>
          && requested.Some?
          && (forall id :: id in stored ==> stored[id] == Tombstone || stored[id].Live?)
          && (forall v :: v in live ==> valid(v))
          && schema == QUERY_DOCUMENT_SCHEMA && version == QUERY_DOCUMENT_VERSION)
    && (r == Err(InvalidDefault) <==> requested.None?)
    && (r.Ok? ==>
          r.value == ProjectionOf(live, schema, version, requested.value) && StructureValid(valid, r.value.document))
  }

  /** `order` is whatever order the stored map is iterated in; `requested` is the stored
      default view where it is present and a view id. */
  method ProjectQueryDocument(
    valid: QueryView -> bool, stored: map<string, Stored>, order: seq<string>, schema: string, version: nat, requested: Option<string>)
    returns (r: Result<Projected, ProjectionError>)
    requires Enumerates(order, stored) && valid(ALL)
    ensures exists live :: LiveViews(stored, live) && Projects(valid, stored, live, schema, version, requested, r)
  {
    var unsorted, issue := DecodeViews(stored, order);
    var decoded := SortViews(unsorted);
    ghost var live := decoded;
    assert LiveViews(stored, live);
    if requested.None? {
      r := Err(InvalidDefault);
    } else {
      r := ProjectSorted(valid, stored, decoded, issue, schema, version, requested.value);
    }
    assert Projects(valid, stored, live, schema, version, requested, r);
  }

  method ProjectSorted(
    valid: QueryView -> bool, ghost stored: map<string, Stored>, live: seq<QueryView>, issue: bool, schema: string, version: nat, requested: string)
    returns (r: Result<Projected, ProjectionError>)
    requires LiveViews(stored, live) && valid(ALL)
    requires issue <==> exists id :: id in stored && !Decodes(stored[id])
    ensures Projects(valid, stored, live, schema, version, Some(requested), r)
  {
    var decoded := live;
    if issue {
      return Err(InvalidEntry);
    }
    if decoded == [] {
      decoded := [ALL];
    }
    for i := 0 to |decoded|
      invariant forall j :: 0 <= j < i ==> valid(decoded[j])
    {
      if !valid(decoded[i]) {
        assert decoded[i] in live;
        return Err(InvalidView);
      }
    }
    var tooLong := SourceOverflows(decoded);
    var overflow: seq<QueryView> := [];
    if |decoded| > MAX_QUERY_VIEWS {
      decoded, overflow := decoded[..MAX_QUERY_VIEWS], decoded[MAX_QUERY_VIEWS..];
    }
    var chosen := if Offers(decoded, requested) then requested else decoded[0].id;
    var document := QueryDocument(schema, version, decoded, chosen);
    LiveHaveDistinctIds(stored, live);
    VisibleIsStructured(valid, live, schema, version, requested);
    var ok := ValidateStructure(valid, document);
    if !ok {
      return Err(InvalidDocument);
    }
    return Ok(Projected(document, Ids(overflow), if chosen != requested then Some((requested, chosen)) else None, tooLong));
  }

  /** With a supported header and valid live views the projection always passes, also
      when every view was deleted. */
  lemma VisibleIsStructured(valid: QueryView -> bool, live: seq<QueryView>, schema: string, version: nat, requested: string)
    requires Sorted(live) && valid(ALL) && (forall i :: 0 <= i < |live| ==> valid(live[i])) && DistinctIds(live)
    ensures StructureValid(valid, ProjectionOf(live, schema, version, requested).document) <==>
            schema == QUERY_DOCUMENT_SCHEMA && version == QUERY_DOCUMENT_VERSION
  {
  }

  lemma LiveHaveDistinctIds(stored: map<string, Stored>, live: seq<QueryView>)
    requires LiveViews(stored, live)
    ensures DistinctIds(live)
  {
    forall i, j | 0 <= i < j < |live| ensures live[i].id != live[j].id {
      assert live[i] in live && live[j] in live;
      PrecedesIsOrder(live[i], live[j], live[i]);
    }
  }

  /** The projection does not depend on the order the stored map was iterated in. */
  lemma ProjectionIgnoresOrder(stored: map<string, Stored>, a: seq<QueryView>, b: seq<QueryView>, schema: string, version: nat, requested: string)
    requires LiveViews(stored, a) && LiveViews(stored, b)
    ensures ProjectionOf(a, schema, version, requested) == ProjectionOf(b, schema, version, requested)
  {
    LiveViewsAreUnique(stored, a, b);
  }

  /** Visible and overflow together are all live views in order. */
  lemma NothingIsDropped(live: seq<QueryView>, schema: string, version: nat, requested: string)
    requires live != []
    ensures var p := ProjectionOf(live, schema, version, requested);
            Ids(p.document.views) + p.overflow == Ids(live) && p.document.views <= live
  {
  }

  /** The first 32 live views are published and the rest named; the fallback stands alone
      when none is live. */
  lemma PublishedAreTheFirst(live: seq<QueryView>, schema: string, version: nat, requested: string)
    ensures var p := ProjectionOf(live, schema, version, requested); var views := p.document.views;
      && (live == [] ==> views == [ALL] && p.overflow == [])
      && (live != [] ==>
            && |views| == (if |live| < 32 then |live| else 32) && |views| + |p.overflow| == |live|
            && (forall i :: 0 <= i < |views| ==> views[i] == live[i])
            && (forall k :: 0 <= k < |p.overflow| ==> p.overflow[k] == live[|views| + k].id))
  {
    hide TooLong;
  }

  /** What is published is what is stored, and every stored live view is published or named. */
  lemma PublishedAreStored(stored: map<string, Stored>, live: seq<QueryView>, schema: string, version: nat, requested: string, id: string)
    requires LiveViews(stored, live) && live != []
    ensures var p := ProjectionOf(live, schema, version, requested);
      && (id in stored && stored[id].Live? <==> Offers(p.document.views, id) || id in p.overflow)
      && (forall v :: v in p.document.views && v.id == id ==>
            id in stored && stored[id] == Live(v.position, v.source, v.body))
  {
    hide Sorted, ProjectionOf;
    var p := ProjectionOf(live, schema, version, requested);
    var views := p.document.views;
    PublishedAreTheFirst(live, schema, version, requested);
    if id in stored && stored[id].Live? {
      assert views <= live;
      FoundAmong(stored, live, id, views, p.overflow);
    }
    forall i | 0 <= i < |live| ensures live[i].id in stored && stored[live[i].id] == Live(live[i].position, live[i].source, live[i].body) {
      assert live[i] in live;
    }
  }

  /** By position, and at one position by identity. */
  lemma PublishedInOrder(stored: map<string, Stored>, live: seq<QueryView>, i: nat, j: nat)
    requires LiveViews(stored, live) && i < j < |live|
    ensures || live[i].position < live[j].position
            || (live[i].position == live[j].position && LexLess(live[i].id, live[j].id))
  {
  }

  lemma FoundAmong(stored: map<string, Stored>, live: seq<QueryView>, id: string, views: seq<QueryView>, overflow: seq<string>)
    requires LiveViews(stored, live) && id in stored && stored[id].Live?
    requires views <= live && overflow == Ids(live[|views|..])
    ensures Offers(views, id) || id in overflow
  {
    hide Sorted;
    var v := QueryView(id, stored[id].position, stored[id].source, stored[id].body);
    assert IsLive(stored, v);
    var i :| 0 <= i < |live| && live[i] == v;
    if i < |views| {
      assert views[i].id == id;
    } else {
      assert overflow[i - |views|] == id;
    }
  }

  /** A stored default that is published is the default and nothing is reported; any other
      is reported, with the first published view standing in for it. */
  lemma DefaultIsKeptWherePublished(live: seq<QueryView>, schema: string, version: nat, requested: string)
    ensures var p := ProjectionOf(live, schema, version, requested); var views := p.document.views;
      && p.document.schema == schema && p.document.version == version && views != []
      && ((exists i :: 0 <= i < |views| && views[i].id == requested) ==>
            p.document.defaultView == requested && p.unavailable == None)
      && (!(exists i :: 0 <= i < |views| && views[i].id == requested) ==>
            p.document.defaultView == views[0].id && p.unavailable == Some((requested, views[0].id)))
  {
  }

  // ------------------------------------------------------------------------- removing a view

  function Without<T>(s: seq<T>, k: nat): seq<T>
    requires k < |s|
  {
    s[..k] + s[k + 1..]
  }

  lemma WithoutAt<T>(s: seq<T>, k: nat)
    requires k < |s|
    ensures |Without(s, k)| == |s| - 1
    ensures forall i :: 0 <= i < k ==> Without(s, k)[i] == s[i]
    ensures forall i :: k <= i < |s| - 1 ==> Without(s, k)[i] == s[i + 1]
  {
  }

  lemma WithoutIsSorted(live: seq<QueryView>, k: nat)
    requires Sorted(live) && k < |live|
    ensures Sorted(Without(live, k))
  {
    hide Precedes;
    WithoutAt(live, k);
  }

  lemma WithoutMember(live: seq<QueryView>, k: nat, v: QueryView)
    requires DistinctIds(live) && k < |live|
    ensures v in Without(live, k) <==> v in live && v.id != live[k].id
  {
    var rest := Without(live, k);
    WithoutAt(live, k);
    if v in rest {
      var i :| 0 <= i < |rest| && rest[i] == v;
      assert v == live[if i < k then i else i + 1];
    }
    if v in live && v.id != live[k].id {
      var i :| 0 <= i < |live| && live[i] == v;
      assert rest[if i < k then i else i - 1] == v;
    }
  }

  lemma RemovalLeavesTheRest(stored: map<string, Stored>, live: seq<QueryView>, k: nat)
    requires LiveViews(stored, live) && k < |live|
    ensures LiveViews(stored[live[k].id := Tombstone], Without(live, k))
  {
    hide Sorted, Without, DistinctIds;
    LiveHaveDistinctIds(stored, live);
    WithoutIsSorted(live, k);
    forall v ensures v in Without(live, k) <==> IsLive(stored[live[k].id := Tombstone], v) {
      WithoutMember(live, k, v);
    }
  }

  /** Removing a visible entry promotes exactly the first overflow entry; removing an
      overflow entry leaves what is visible alone. */
  lemma RemovalPromotes<T>(all: seq<T>, limit: nat, k: nat)
    requires k < |all|
    ensures var rest := Without(all, k);
      if k >= limit then
        Visible(rest, limit) == Visible(all, limit) && Overflow(rest, limit) == Without(Overflow(all, limit), k - limit)
      else if Overflow(all, limit) == [] then
        Visible(rest, limit) == Without(all, k) && Overflow(rest, limit) == []
      else
        && Visible(rest, limit) == Without(Visible(all, limit), k) + [Overflow(all, limit)[0]]
        && Overflow(rest, limit) == Overflow(all, limit)[1..]
  {
    var rest := Without(all, k);
    WithoutAt(all, k);
    if k >= limit {
      assert rest[..limit] == all[..limit];
      WithoutAt(all[limit..], k - limit);
      assert rest[limit..] == Without(all[limit..], k - limit);
    } else if |all| > limit {
      WithoutAt(all[..limit], k);
      assert rest[..limit] == Without(all[..limit], k) + [all[limit]];
      assert rest[limit..] == all[limit..][1..];
    }
  }

  /** Deleting one of the stored views: the projection of what remains, with the first
      overflow view promoted, or the fallback when nothing remains. */
  lemma RemovingAVisibleView(
    stored: map<string, Stored>, live: seq<QueryView>, k: nat, after: seq<QueryView>, schema: string, version: nat, requested: string)
    requires LiveViews(stored, live) && k < |live| && k < MAX_QUERY_VIEWS
    requires LiveViews(stored[live[k].id := Tombstone], after)
    ensures var views := ProjectionOf(after, schema, version, requested).document.views;
      if |live| == 1 then views == [ALL]
      else if |live| <= MAX_QUERY_VIEWS then views == Without(live, k)
      else views == Without(live[..MAX_QUERY_VIEWS], k) + [live[MAX_QUERY_VIEWS]]
  {
    RemovalLeavesTheRest(stored, live, k);
    LiveViewsAreUnique(stored[live[k].id := Tombstone], after, Without(live, k));
    RemovalPromotes(live, MAX_QUERY_VIEWS, k);
  }

  // ------------------------------------------------------------------------- graph settings

  /** The projection of each default query, all of which must succeed. */
  function AllProjected<T, P, E>(queries: seq<T>, project: T -> Result<P, E>): (r: seq<P>)
    requires forall i :: 0 <= i < |queries| ==> project(queries[i]).Ok?
    ensures |r| == |queries| && forall i :: 0 <= i < |queries| ==> Ok(r[i]) == project(queries[i])
  {
    seq(|queries|, i requires 0 <= i < |queries| => project(queries[i]).value)
  }

  ghost predicate FailsFirst<T, P, E>(queries: seq<T>, project: T -> Result<P, E>, k: nat) {
    && k < |queries| && project(queries[k]).Err?
    && forall i :: 0 <= i < k ==> project(queries[i]).Ok?
  }

  /** Default queries, in stored order, are bounded the same way.  Those past the limit are
      projected too, so one that cannot be read fails the settings wherever it stands. */
  method ProjectGraphSettings<T, P, E>(queries: seq<T>, project: T -> Result<P, E>) returns (r: Result<(seq<P>, seq<T>), E>)
    ensures r.Ok? <==> forall i :: 0 <= i < |queries| ==> project(queries[i]).Ok?
    ensures r.Ok? ==>
              && r.value.0 == AllProjected(Visible(queries, MAX_DEFAULT_QUERIES), project)
              && r.value.1 == Overflow(queries, MAX_DEFAULT_QUERIES)
    ensures r.Err? ==> exists k: nat :: FailsFirst(queries, project, k) && project(queries[k]) == Err(r.error)
  {
    var visible: seq<P>, overflow: seq<T> := [], [];
    for i := 0 to |queries|
      invariant forall j :: 0 <= j < i ==> project(queries[j]).Ok?
      invariant |visible| == if i < MAX_DEFAULT_QUERIES then i else MAX_DEFAULT_QUERIES
      invariant forall j :: 0 <= j < |visible| ==> Ok(visible[j]) == project(queries[j])
      invariant overflow == Overflow(queries[..i], MAX_DEFAULT_QUERIES)
    {
      var projected := project(queries[i]);
      if projected.Err? {
        assert FailsFirst(queries, project, i);
        return Err(projected.error);
      }
      if i < MAX_DEFAULT_QUERIES {
        visible := visible + [projected.value];
      } else {
        overflow := overflow + [queries[i]];
      }
    }
    assert queries[..|queries|] == queries;
    return Ok((visible, overflow));
  }
}
