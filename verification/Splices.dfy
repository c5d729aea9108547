/**
 From text deltas to splices: a delta describes the new text against the old one from
 left to right, while the emitted range changes are applied one after another, each to
 the text the previous one left.
 */
module Splices {
  import opened Records

  datatype Part = Retain(count: nat) | Insert(text: string) | Delete(count: nat)

  /** What a reader is told: positions and lengths in Unicode scalars. */
  datatype ContentRangeChange = ContentRangeChange(index: nat, delete: nat, insert: nat)

  /** A range change together with the characters it brings. */
  datatype Splice = Splice(index: nat, delete: nat, text: string)

  function Told(s: Splice): ContentRangeChange {
    ContentRangeChange(s.index, s.delete, |s.text|)
  }

  // -------------------------------------------------------------- what a delta means

  predicate Fits(rest: string, delta: seq<Part>) {
    delta == [] ||
      match delta[0]
      case Retain(n) => n <= |rest| && Fits(rest[n..], delta[1..])
      case Insert(_) => Fits(rest, delta[1..])
      case Delete(n) => n <= |rest| && Fits(rest[n..], delta[1..])
  }

  /** The new text: retained and inserted pieces, and what the delta does not reach. */
  function Result(rest: string, delta: seq<Part>): string
    requires Fits(rest, delta)
  {
    if delta == [] then rest else
      match delta[0]
      case Retain(n) => rest[..n] + Result(rest[n..], delta[1..])
      case Insert(text) => text + Result(rest, delta[1..])
      case Delete(n) => Result(rest[n..], delta[1..])
  }

  // ------------------------------------------------------------- the emitted changes

  function SplicesFrom(delta: seq<Part>, index: nat): seq<Splice> {
    if delta == [] then [] else
      match delta[0]
      case Retain(n) => SplicesFrom(delta[1..], index + n)
      case Insert(text) => [Splice(index, 0, text)] + SplicesFrom(delta[1..], index + |text|)
      case Delete(n) => [Splice(index, n, "")] + SplicesFrom(delta[1..], index)
  }

  function ToldAll(splices: seq<Splice>): (changes: seq<ContentRangeChange>)
    ensures |changes| == |splices| && forall i :: 0 <= i < |splices| ==> changes[i] == Told(splices[i])
  {
    seq(|splices|, i requires 0 <= i < |splices| => Told(splices[i]))
  }

  method ContentMapping(delta: seq<Part>, mapping: seq<ContentRangeChange>) returns (extended: seq<ContentRangeChange>)
    ensures extended == mapping + ToldAll(SplicesFrom(delta, 0))
  {
    extended := mapping;
    var index: nat := 0;
    ghost var told: seq<Splice> := [];
    for i := 0 to |delta|
      invariant extended == mapping + ToldAll(told)
      invariant told + SplicesFrom(delta[i..], index) == SplicesFrom(delta, 0)
    {
      assert delta[i..][1..] == delta[i + 1..];
      match delta[i]
      case Retain(count) =>
        index := index + count;
      case Insert(text) =>
        var length := |text|;
        extended := extended + [ContentRangeChange(index, 0, length)];
        told := told + [Splice(index, 0, text)];
        index := index + length;
      case Delete(count) =>
        extended := extended + [ContentRangeChange(index, count, 0)];
        told := told + [Splice(index, count, "")];
    }
  }

  // -------------------------------------------------------------- applying them in order

  predicate Applies(text: string, splices: seq<Splice>)
    decreases |splices|
  {
    splices == [] ||
      (splices[0].index + splices[0].delete <= |text| && Applies(ApplyOne(text, splices[0]), splices[1..]))
  }

  function ApplyOne(text: string, s: Splice): string
    requires s.index + s.delete <= |text|
  {
    text[..s.index] + s.text + text[s.index + s.delete..]
  }

  function ApplyAll(text: string, splices: seq<Splice>): string
    requires Applies(text, splices)
    decreases |splices|
  {
    if splices == [] then text else ApplyAll(ApplyOne(text, splices[0]), splices[1..])
  }

  /** With `done` already in place, the remaining splices turn the rest into its result. */
  lemma {:induction false} SplicesContinue(done: string, rest: string, delta: seq<Part>)
    requires Fits(rest, delta)
    ensures Applies(done + rest, SplicesFrom(delta, |done|))
    ensures ApplyAll(done + rest, SplicesFrom(delta, |done|)) == done + Result(rest, delta)
    decreases |delta|
  {
    if delta == [] {
      assert SplicesFrom(delta, |done|) == [];
    } else {
      match delta[0] {
        case Retain(n) => RetainContinues(done, rest, delta, n);
        case Insert(text) => InsertContinues(done, rest, delta, text);
        case Delete(n) => DeleteContinues(done, rest, delta, n);
      }
    }
  }

  lemma {:induction false} RetainContinues(done: string, rest: string, delta: seq<Part>, n: nat)
    requires delta != [] && delta[0] == Retain(n) && Fits(rest, delta)
    ensures Applies(done + rest, SplicesFrom(delta, |done|))
    ensures ApplyAll(done + rest, SplicesFrom(delta, |done|)) == done + Result(rest, delta)
    decreases |delta|, 0
  {
    hide ApplyOne, Applies, ApplyAll;
    assert done + rest == done + rest[..n] + rest[n..];
    SplicesContinue(done + rest[..n], rest[n..], delta[1..]);
    assert SplicesFrom(delta, |done|) == SplicesFrom(delta[1..], |done + rest[..n]|);
    assert done + rest[..n] + Result(rest[n..], delta[1..]) == done + (rest[..n] + Result(rest[n..], delta[1..]));
  }

  lemma {:induction false} InsertContinues(done: string, rest: string, delta: seq<Part>, text: string)
    requires delta != [] && delta[0] == Insert(text) && Fits(rest, delta)
    ensures Applies(done + rest, SplicesFrom(delta, |done|))
    ensures ApplyAll(done + rest, SplicesFrom(delta, |done|)) == done + Result(rest, delta)
    decreases |delta|, 0
  {
    hide ApplyOne, Applies, ApplyAll;
    SplicesContinue(done + text, rest, delta[1..]);
    ApplyFirst(done, rest, 0, text, SplicesFrom(delta[1..], |done + text|));
    assert done + text + Result(rest, delta[1..]) == done + (text + Result(rest, delta[1..]));
  }

  lemma {:induction false} DeleteContinues(done: string, rest: string, delta: seq<Part>, n: nat)
    requires delta != [] && delta[0] == Delete(n) && Fits(rest, delta)
    ensures Applies(done + rest, SplicesFrom(delta, |done|))
    ensures ApplyAll(done + rest, SplicesFrom(delta, |done|)) == done + Result(rest, delta)
    decreases |delta|, 0
  {
    hide ApplyOne, Applies, ApplyAll;
    SplicesContinue(done, rest[n..], delta[1..]);
    ApplyFirst(done, rest, n, "", SplicesFrom(delta[1..], |done|));
  }

  lemma ApplyFirst(done: string, rest: string, n: nat, text: string, more: seq<Splice>)
    requires n <= |rest| && (Applies(done + text + rest[n..], more) || (text == "" && Applies(done + rest[n..], more)))
    ensures Applies(done + text + rest[n..], more)
    ensures Applies(done + rest, [Splice(|done|, n, text)] + more)
    ensures ApplyAll(done + rest, [Splice(|done|, n, text)] + more) == ApplyAll(done + text + rest[n..], more)
    ensures text == "" ==> done + text + rest[n..] == done + rest[n..]
    ensures n == 0 ==> rest[n..] == rest
  {
    var first := Splice(|done|, n, text);
    assert text == "" ==> done + text + rest[n..] == done + rest[n..];
    assert ApplyOne(done + rest, first) == done + text + rest[n..];
    assert ([first] + more)[1..] == more;
  }

  /** Applied in order to the old text, one delta's splices give exactly its new text. */
  lemma SplicesAreTheDelta(text: string, delta: seq<Part>)
    requires Fits(text, delta)
    ensures Applies(text, SplicesFrom(delta, 0)) && ApplyAll(text, SplicesFrom(delta, 0)) == Result(text, delta)
  {
    SplicesContinue("", text, delta);
    assert "" + text == text && "" + Result(text, delta) == Result(text, delta);
  }

  // ------------------------------------------------------------ several events, one block

  predicate AllFit(text: string, events: seq<seq<Part>>)
    decreases |events|
  {
    events == [] || (Fits(text, events[0]) && AllFit(Result(text, events[0]), events[1..]))
  }

  function ResultOfAll(text: string, events: seq<seq<Part>>): string
    requires AllFit(text, events)
    decreases |events|
  {
    if events == [] then text else ResultOfAll(Result(text, events[0]), events[1..])
  }

  function SplicesOfAll(events: seq<seq<Part>>): seq<Splice> {
    if events == [] then [] else SplicesFrom(events[0], 0) + SplicesOfAll(events[1..])
  }

  lemma {:induction false} ApplyJoins(text: string, a: seq<Splice>, b: seq<Splice>)
    requires Applies(text, a) && Applies(ApplyAll(text, a), b)
    ensures Applies(text, a + b) && ApplyAll(text, a + b) == ApplyAll(ApplyAll(text, a), b)
    decreases |a|
  {
    if a == [] {
      assert a + b == b;
    } else {
      ApplyJoins(ApplyOne(text, a[0]), a[1..], b);
      assert (a + b)[1..] == a[1..] + b;
    }
  }

  /** The mapping accumulated over several events on one block takes the first text to the last. */
  lemma {:induction false} EventsCompose(text: string, events: seq<seq<Part>>)
    requires AllFit(text, events)
    ensures Applies(text, SplicesOfAll(events)) && ApplyAll(text, SplicesOfAll(events)) == ResultOfAll(text, events)
    decreases |events|
  {
    if events != [] {
      SplicesAreTheDelta(text, events[0]);
      EventsCompose(Result(text, events[0]), events[1..]);
      ApplyJoins(text, SplicesFrom(events[0], 0), SplicesOfAll(events[1..]));
    }
  }

  lemma {:induction false} ToldJoins(a: seq<Splice>, b: seq<Splice>)
    ensures ToldAll(a + b) == ToldAll(a) + ToldAll(b)
  {
  }

  lemma {:induction false} OneMoreEvent(events: seq<seq<Part>>)
    requires events != []
    ensures SplicesOfAll(events) == SplicesOfAll(events[..|events| - 1]) + SplicesFrom(events[|events| - 1], 0)
  {
    if |events| > 1 {
      OneMoreEvent(events[1..]);
      assert events[1..][..|events| - 2] == events[..|events| - 1][1..];
    }
  }

  // ---------------------------------------------------------------- all blocks of a change

  datatype Index = Key(key: string) | Node(id: nat) | Position(at: nat)

  /** A captured event: the container, its path with the container each step is in, and the
      delta if it is a text event. */
  datatype Change = Change(target: nat, path: seq<(nat, Index)>, text: Option<seq<Part>>, unknown: bool)

  /** A page or tag record by its key, and a block in its outline. */
  type Place = (string, nat)

  function BlockOn(path: seq<(nat, Index)>): Option<nat> {
    if path == [] then None
    else if path[0].1.Node? then Some(path[0].1.id) else BlockOn(path[1..])
  }

  /** The first step that is a record's key in that record's own container. */
  function OwnerOn(path: seq<(nat, Index)>, records: map<string, nat>): Option<string> {
    if path == [] then None
    else if path[0].1.Key? && path[0].1.key in records && records[path[0].1.key] == path[0].0 then Some(path[0].1.key)
    else OwnerOn(path[1..], records)
  }

  /** The block whose content a change edits, where it is one to map. */
  function PlaceOf(change: Change, records: map<string, nat>, written: Option<set<nat>>): (place: Option<Place>)
    ensures place.Some? ==> change.text.Some?
  {
    if change.text.None? || change.unknown || change.path == [] || change.path[|change.path| - 1].1 != Key("content")
       || (written.Some? && change.target !in written.value) then None
    else
      match (OwnerOn(change.path, records), BlockOn(change.path))
      case (Some(owner), Some(block)) => Some((owner, block))
      case _ => None
  }

  /** The deltas of one block, in the order they were captured. */
  function EventsAt(changes: seq<Change>, records: map<string, nat>, written: Option<set<nat>>, place: Place): seq<seq<Part>> {
    if changes == [] then [] else
      var last := changes[|changes| - 1];
      EventsAt(changes[..|changes| - 1], records, written, place)
      + if PlaceOf(last, records, written) == Some(place) then [last.text.value] else []
  }

  lemma OneMoreChange(changes: seq<Change>, n: nat, records: map<string, nat>, written: Option<set<nat>>, place: Place)
    requires n < |changes|
    ensures EventsAt(changes[..n + 1], records, written, place)
         == EventsAt(changes[..n], records, written, place)
            + if PlaceOf(changes[n], records, written) == Some(place) then [changes[n].text.value] else []
  {
    assert changes[..n + 1][..n] == changes[..n];
  }

  /** Each edited block is told the changes of all its events, and no other block is told any. */
  ghost predicate Maps(
    changes: seq<Change>, records: map<string, nat>, written: Option<set<nat>>, mappings: map<Place, seq<ContentRangeChange>>)
  {
    && (forall place :: place in mappings <==> EventsAt(changes, records, written, place) != [])
    && (forall place :: place in mappings ==>
          mappings[place] == ToldAll(SplicesOfAll(EventsAt(changes, records, written, place))))
  }

  lemma MapsOneMore(
    changes: seq<Change>, n: nat, records: map<string, nat>, written: Option<set<nat>>,
    mappings: map<Place, seq<ContentRangeChange>>, after: map<Place, seq<ContentRangeChange>>)
    requires n < |changes| && Maps(changes[..n], records, written, mappings)
    requires var place := PlaceOf(changes[n], records, written);
      if place.None? then after == mappings
      else after == mappings[place.value :=
             (if place.value in mappings then mappings[place.value] else []) + ToldAll(SplicesFrom(changes[n].text.value, 0))]
    ensures Maps(changes[..n + 1], records, written, after)
  {
    hide EventsAt, PlaceOf, SplicesOfAll, SplicesFrom, ToldAll;
    forall place
      ensures place in after <==> EventsAt(changes[..n + 1], records, written, place) != []
      ensures place in after ==> after[place] == ToldAll(SplicesOfAll(EventsAt(changes[..n + 1], records, written, place)))
    {
      OneMoreChange(changes, n, records, written, place);
      var earlier := EventsAt(changes[..n], records, written, place);
      if PlaceOf(changes[n], records, written) == Some(place) {
        ToldOneMore(earlier, changes[n].text.value);
      } else {
        assert earlier + [] == earlier;
      }
    }
  }

  lemma ToldOneMore(earlier: seq<seq<Part>>, delta: seq<Part>)
    ensures ToldAll(SplicesOfAll(earlier + [delta])) == ToldAll(SplicesOfAll(earlier)) + ToldAll(SplicesFrom(delta, 0))
    ensures earlier == [] ==> ToldAll(SplicesOfAll(earlier)) == []
  {
    OneMoreEvent(earlier + [delta]);
    assert (earlier + [delta])[..|earlier|] == earlier;
    ToldJoins(SplicesOfAll(earlier), SplicesFrom(delta, 0));
  }

  /** `written` limits the mappings to the texts an operation wrote. */
  method ContentMappings(changes: seq<Change>, records: map<string, nat>, written: Option<set<nat>>)
    returns (mappings: map<Place, seq<ContentRangeChange>>)
    ensures Maps(changes, records, written, mappings)
  {
    hide Maps;
    mappings := map[];
    NothingMapped(records, written);
    for n := 0 to |changes|
      invariant Maps(changes[..n], records, written, mappings)
    {
      ghost var before := mappings;
      var place := PlaceOf(changes[n], records, written);
      if place.Some? {
        var told := if place.value in mappings then mappings[place.value] else [];
        told := ContentMapping(changes[n].text.value, told);
        mappings := mappings[place.value := told];
      }
      MapsOneMore(changes, n, records, written, before, mappings);
    }
    assert changes[..|changes|] == changes;
  }

  lemma NothingMapped(records: map<string, nat>, written: Option<set<nat>>)
    ensures Maps([], records, written, map[])
  {
  }

  // ---------------------------------------------------------- what a reader does with them

  /** Each change can be made where it says, with a text of the length it says. */
  predicate Replays(text: string, changes: seq<ContentRangeChange>, inserts: seq<string>)
    decreases |changes|
  {
    |changes| == |inserts| &&
    (changes == [] ||
       (&& changes[0].index + changes[0].delete <= |text| && |inserts[0]| == changes[0].insert
        && Replays(Replayed(text, changes[0], inserts[0]), changes[1..], inserts[1..])))
  }

  /** A change takes out `delete` characters at `index` and puts the inserted ones there. */
  function Replayed(text: string, change: ContentRangeChange, insert: string): (after: string)
    requires change.index + change.delete <= |text| && |insert| == change.insert
    ensures |after| == |text| - change.delete + change.insert
  {
    text[..change.index] + insert + text[change.index + change.delete..]
  }

  function ReplayAll(text: string, changes: seq<ContentRangeChange>, inserts: seq<string>): string
    requires Replays(text, changes, inserts)
    decreases |changes|
  {
    if changes == [] then text else ReplayAll(Replayed(text, changes[0], inserts[0]), changes[1..], inserts[1..])
  }

  function Texts(splices: seq<Splice>): (texts: seq<string>)
    ensures |texts| == |splices| && forall i :: 0 <= i < |splices| ==> texts[i] == splices[i].text
  {
    seq(|splices|, i requires 0 <= i < |splices| => splices[i].text)
  }

  lemma {:induction false} ToldReplays(text: string, splices: seq<Splice>)
    requires Applies(text, splices)
    ensures Replays(text, ToldAll(splices), Texts(splices))
    ensures ReplayAll(text, ToldAll(splices), Texts(splices)) == ApplyAll(text, splices)
    decreases |splices|
  {
    if splices != [] {
      ToldReplays(ApplyOne(text, splices[0]), splices[1..]);
      assert ToldAll(splices)[1..] == ToldAll(splices[1..]);
      assert Texts(splices)[1..] == Texts(splices[1..]);
    }
  }

  /** The changes a block is told, made one after another with the inserted characters at the
      positions and lengths they say, take its text from before the first of its events to
      after the last. */
  lemma MappingTakesTextThrough(
    changes: seq<Change>, records: map<string, nat>, written: Option<set<nat>>, mappings: map<Place, seq<ContentRangeChange>>,
    place: Place, text: string) returns (inserts: seq<string>)
    requires Maps(changes, records, written, mappings) && place in mappings
    requires AllFit(text, EventsAt(changes, records, written, place))
    ensures Replays(text, mappings[place], inserts)
    ensures ReplayAll(text, mappings[place], inserts) == ResultOfAll(text, EventsAt(changes, records, written, place))
  {
    hide EventsAt, SplicesOfAll, ToldAll, Applies, ApplyAll;
    var splices := SplicesOfAll(EventsAt(changes, records, written, place));
    EventsCompose(text, EventsAt(changes, records, written, place));
    ToldReplays(text, splices);
    inserts := Texts(splices);
  }

  // ------------------------------------------------------------------ which blocks are told

  /** The step at `i` is the first on the path to name a record in that record's container. */
  ghost predicate OwnerAt(path: seq<(nat, Index)>, records: map<string, nat>, i: nat, owner: string) {
    && i < |path| && path[i].1 == Key(owner) && owner in records && records[owner] == path[i].0
    && forall j, other :: 0 <= j < i && path[j].1 == Key(other) && other in records ==> records[other] != path[j].0
  }

  /** The step at `i` is the first node of an outline on the path. */
  ghost predicate BlockAt(path: seq<(nat, Index)>, i: nat, block: nat) {
    i < |path| && path[i].1 == Node(block) && forall j :: 0 <= j < i ==> !path[j].1.Node?
  }

  lemma {:induction false} OwnerIsFirst(path: seq<(nat, Index)>, records: map<string, nat>, owner: string)
    ensures OwnerOn(path, records) == Some(owner) <==> exists i: nat :: OwnerAt(path, records, i, owner)
    decreases |path|
  {
    if path != [] {
      OwnerIsFirst(path[1..], records, owner);
      if IsOwner(path[0], records) {
        assert OwnerAt(path, records, 0, path[0].1.key);
      } else {
        if i: nat :| OwnerAt(path[1..], records, i, owner) {
          forall j, other | 0 <= j < i + 1 && path[j].1 == Key(other) && other in records ensures records[other] != path[j].0 {
            if j > 0 {
              assert path[j] == path[1..][j - 1];
            }
          }
          assert OwnerAt(path, records, i + 1, owner);
        }
        if i: nat :| OwnerAt(path, records, i, owner) {
          forall j, other | 0 <= j < i - 1 && path[1..][j].1 == Key(other) && other in records
            ensures records[other] != path[1..][j].0
          {
            assert path[1..][j] == path[j + 1];
          }
          assert OwnerAt(path[1..], records, i - 1, owner);
        }
      }
    }
  }

  predicate IsOwner(step: (nat, Index), records: map<string, nat>) {
    step.1.Key? && step.1.key in records && records[step.1.key] == step.0
  }

  lemma {:induction false} BlockIsFirst(path: seq<(nat, Index)>, block: nat)
    ensures BlockOn(path) == Some(block) <==> exists i: nat :: BlockAt(path, i, block)
    decreases |path|
  {
    if path != [] {
      BlockIsFirst(path[1..], block);
      if path[0].1.Node? {
        assert BlockAt(path, 0, path[0].1.id);
      } else {
        if i: nat :| BlockAt(path[1..], i, block) {
          forall j | 0 <= j < i + 1 ensures !path[j].1.Node? {
            if j > 0 {
              assert path[j] == path[1..][j - 1];
            }
          }
          assert BlockAt(path, i + 1, block);
        }
        if i: nat :| BlockAt(path, i, block) {
          forall j | 0 <= j < i - 1 ensures !path[1..][j].1.Node? {
            assert path[1..][j] == path[j + 1];
          }
          assert BlockAt(path[1..], i - 1, block);
        }
      }
    }
  }

  /** A change edits a block's content exactly when it is a known text event on a container
      under `content`, written by the operation where that is asked for, on a path through a
      record and an outline node: the first of each say which block. */
  lemma PlaceIff(change: Change, records: map<string, nat>, written: Option<set<nat>>, owner: string, block: nat)
    ensures PlaceOf(change, records, written) == Some((owner, block)) <==>
      && change.text.Some? && !change.unknown
      && change.path != [] && change.path[|change.path| - 1].1 == Key("content")
      && (written.Some? ==> change.target in written.value)
      && (exists i: nat :: OwnerAt(change.path, records, i, owner))
      && (exists i: nat :: BlockAt(change.path, i, block))
  {
    hide OwnerOn, BlockOn, OwnerAt, BlockAt;
    OwnerIsFirst(change.path, records, owner);
    BlockIsFirst(change.path, block);
  }

  /** A block is told something exactly when some captured change edits it. */
  lemma {:induction false} ToldIff(changes: seq<Change>, records: map<string, nat>, written: Option<set<nat>>, place: Place)
    ensures EventsAt(changes, records, written, place) != [] <==>
            exists i :: 0 <= i < |changes| && PlaceOf(changes[i], records, written) == Some(place)
  {
    hide PlaceOf;
    if changes != [] {
      var front, n := changes[..|changes| - 1], |changes| - 1;
      ToldIff(front, records, written, place);
      if i :| 0 <= i < |front| && PlaceOf(front[i], records, written) == Some(place) {
        assert changes[i] == front[i];
      }
      if i :| 0 <= i < |changes| && PlaceOf(changes[i], records, written) == Some(place) {
        if i < n {
          assert front[i] == changes[i];
        }
      }
    }
  }
}
