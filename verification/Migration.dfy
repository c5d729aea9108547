/**
 The schema-6 property bag migration.  Schema 6 spread one field over flat slots of the
 bag (`f:` markers, `s:` values, `r:` set members, `d:` documents); the current schema
 keeps one child per key.  Migration reads every old slot, builds the children in the
 same map, and deletes the old slots.
 */
module Migration {
  import opened Records

  // ----------------------------------------------------------------- splitting strings

  /** Everything before and after the first `c`. */
  function SplitOnce(s: string, c: char): (r: Option<(string, string)>)
    ensures r.None? <==> c !in s
    ensures r.Some? ==> c !in r.value.0 && s == r.value.0 + [c] + r.value.1
  {
    if s == "" then None
    else if s[0] == c then Some(("", s[1..]))
    else
      match SplitOnce(s[1..], c)
      case None => None
      case Some((before, after)) => Some(([s[0]] + before, after))
  }

  /** Everything before and after the last `c`. */
  function RSplitOnce(s: string, c: char): (r: Option<(string, string)>)
    ensures r.None? <==> c !in s
    ensures r.Some? ==> c !in r.value.1 && s == r.value.0 + [c] + r.value.1
  {
    if s == "" then None
    else if s[|s| - 1] == c then Some((s[..|s| - 1], ""))
    else
      match RSplitOnce(s[..|s| - 1], c)
      case None => None
      case Some((before, after)) => Some((before, after + [s[|s| - 1]]))
  }

  function Segments(s: string, c: char): seq<string>
    decreases |s|
  {
    match SplitOnce(s, c)
    case None => [s]
    case Some((before, after)) => [before] + Segments(after, c)
  }

  // --------------------------------------------------------------------- property keys

  predicate Lower(c: char) {
    'a' <= c <= 'z'
  }

  predicate LowerOrDigit(c: char) {
    Lower(c) || '0' <= c <= '9'
  }

  predicate ValidSegment(s: string) {
    s != "" && forall i :: 0 <= i < |s| ==> LowerOrDigit(s[i])
  }

  predicate ValidPropertyName(name: string) {
    var segments := Segments(name, '-');
    && segments != [] && segments[0] != "" && Lower(segments[0][0])
    && forall i :: 0 <= i < |segments| ==> ValidSegment(segments[i])
  }

  predicate ValidPropertyKey(key: string) {
    match SplitOnce(key, '.')
    case None => false
    case Some((namespace, name)) => (namespace == "builtin" || namespace == "user") && ValidPropertyName(name)
  }

  lemma {:induction false} SegmentsCover(s: string, c: char, x: char)
    requires x in s && x != c
    ensures exists i :: 0 <= i < |Segments(s, c)| && x in Segments(s, c)[i]
    decreases |s|
  {
    match SplitOnce(s, c) {
      case None =>
        assert x in Segments(s, c)[0];
      case Some((before, after)) =>
        if x in before {
          assert x in Segments(s, c)[0];
        } else {
          SegmentsCover(after, c, x);
          var i :| 0 <= i < |Segments(after, c)| && x in Segments(after, c)[i];
          assert Segments(s, c)[i + 1] == Segments(after, c)[i];
        }
    }
  }

  /** A property key never holds a colon, so no new field can be mistaken for an old slot. */
  lemma KeysHaveNoColon(key: string)
    requires ValidPropertyKey(key)
    ensures ':' !in key
  {
    var name := SplitOnce(key, '.').value.1;
    if ':' in name {
      SegmentsCover(name, '-', ':');
      assert false;
    }
  }

  // --------------------------------------------------------------------------- slots

  datatype ValueType = Document | Scalar(code: nat)

  datatype Cardinality = Single | Many

  /** A node of a query document. */
  datatype Node = Leaf(raw: string) | Branch(children: map<string, Node>) | Text(delta: string) | Unsupported

  datatype OldValue = Atomic(raw: string, isString: bool) | MapContainer(children: map<string, Node>) | OtherContainer

  /** What a marker's JSON says. */
  datatype Marker = Marker(key: string, valueType: ValueType, cardinality: Cardinality, empty: bool)

  datatype Field = Field(
    valueType: ValueType,
    cardinality: Cardinality,
    single: Option<OldValue>,
    members: map<string, OldValue>,
    document: Option<map<string, Node>>)

  datatype Rules = Rules(parse: string -> Option<Marker>, valid: Marker -> bool)

  datatype Part =
    | MarkerOf(key: string)
    | SingleOf(key: string)
    | MemberOf(key: string, member: string)
    | DocumentOf(key: string)
    | Malformed

  function Decode(slot: string): Part {
    match SplitOnce(slot, ':')
    case None => Malformed
    case Some((kind, rest)) =>
      if kind == "f" then MarkerOf(rest)
      else if kind == "s" then SingleOf(rest)
      else if kind == "d" then DocumentOf(rest)
      else if kind == "r" then
        match RSplitOnce(rest, ':')
        case None => Malformed
        case Some((key, member)) => MemberOf(key, member)
      else Malformed
  }

  function SlotOf(part: Part): string
    requires !part.Malformed?
  {
    match part
    case MarkerOf(key) => "f:" + key
    case SingleOf(key) => "s:" + key
    case DocumentOf(key) => "d:" + key
    case MemberOf(key, member) => "r:" + key + ":" + member
  }

  /** No two slots decode to the same part. */
  lemma DecodeInverts(slot: string)
    requires !Decode(slot).Malformed?
    ensures SlotOf(Decode(slot)) == slot && ':' in slot
  {
    var (kind, rest) := SplitOnce(slot, ':').value;
    assert kind + ":" == kind + [':'];
    if kind == "r" {
      var (key, member) := RSplitOnce(rest, ':').value;
      assert "r:" + key + ":" + member == "r" + [':'] + (key + [':'] + member);
    }
  }

  // -------------------------------------------------------------------- query documents

  /** Documents nested no deeper than the archive allows, of the containers it knows. */
  predicate Copyable(document: map<string, Node>, depth: nat)
    decreases 33 - depth
  {
    depth <= 32 && forall k :: k in document ==>
      match document[k]
      case Leaf(_) => true
      case Text(_) => true
      case Branch(children) => Copyable(children, depth + 1)
      case Unsupported => false
  }

  /** The copy is the original, or the document is refused. */
  method CopyDocument(source: map<string, Node>, depth: nat) returns (target: Option<map<string, Node>>)
    ensures target.Some? <==> Copyable(source, depth)
    ensures target.Some? ==> target.value == source
    decreases 33 - depth
  {
    if depth > 32 {
      return None;
    }
    var copied: map<string, Node> := map[];
    var rest := source.Keys;
    while rest != {}
      invariant rest <= source.Keys
      invariant copied == map k | k in source && k !in rest :: source[k]
      invariant forall k :: k in source && k !in rest ==>
        match source[k]
        case Leaf(_) => true
        case Text(_) => true
        case Branch(children) => Copyable(children, depth + 1)
        case Unsupported => false
      decreases rest
    {
      var k :| k in rest;
      match source[k] {
        case Leaf(raw) => copied := copied[k := Leaf(raw)];
        case Text(delta) => copied := copied[k := Text(delta)];
        case Branch(children) =>
          var child := CopyDocument(children, depth + 1);
          if child.None? {
            return None;
          }
          copied := copied[k := Branch(child.value)];
        case Unsupported => return None;
      }
      rest := rest - {k};
    }
    return Some(copied);
  }

  // ---------------------------------------------------------------------- one bag

  type Slots = map<string, OldValue>

  /** The parser only yields markers with a real property key. */
  ghost predicate Sound(rules: Rules) {
    forall text :: rules.parse(text).Some? ==> ValidPropertyKey(rules.parse(text).value.key)
  }

  predicate MarkerFits(rules: Rules, key: string, value: OldValue) {
    && value.Atomic? && value.isString && rules.parse(value.raw).Some?
    && var marker := rules.parse(value.raw).value;
    marker.key == key && marker.empty && rules.valid(marker)
  }

  function MarkerFor(rules: Rules, slots: Slots, key: string): Option<Marker> {
    var slot := SlotOf(MarkerOf(key));
    if slot in slots && MarkerFits(rules, key, slots[slot]) then rules.parse(slots[slot].raw) else None
  }

  /** A slot the migration can carry over. */
  predicate SlotFits(rules: Rules, slots: Slots, slot: string)
    requires slot in slots
  {
    var value := slots[slot];
    match Decode(slot)
    case Malformed => false
    case MarkerOf(key) => MarkerFits(rules, key, value)
    case SingleOf(key) =>
      var marker := MarkerFor(rules, slots, key);
      marker.Some? && marker.value.cardinality.Single? && marker.value.valueType.Scalar? && value.Atomic?
    case MemberOf(key, _) =>
      var marker := MarkerFor(rules, slots, key);
      marker.Some? && marker.value.cardinality.Many? && marker.value.valueType.Scalar? && value.Atomic?
    case DocumentOf(key) =>
      var marker := MarkerFor(rules, slots, key);
      && marker.Some? && marker.value.cardinality.Single? && marker.value.valueType.Document?
      && value.MapContainer? && Copyable(value.children, 0)
  }

  // ------------------------------------------------------------------- what it becomes

  function ValueIn(payload: Slots, part: Part): Option<OldValue>
    requires !part.Malformed?
  {
    if SlotOf(part) in payload then Some(payload[SlotOf(part)]) else None
  }

  function MemberNames(payload: Slots, key: string): set<string> {
    set slot | slot in payload && Decode(slot).MemberOf? && Decode(slot).key == key :: Decode(slot).member
  }

  function MembersIn(payload: Slots, key: string): map<string, OldValue> {
    map member | member in MemberNames(payload, key) && SlotOf(MemberOf(key, member)) in payload ::
      payload[SlotOf(MemberOf(key, member))]
  }

  function DocumentIn(payload: Slots, key: string): Option<map<string, Node>> {
    match ValueIn(payload, DocumentOf(key))
    case Some(MapContainer(children)) => Some(children)
    case _ => None
  }

  /** The field a marker and the payload slots of its key make. */
  function FieldFrom(marker: Marker, payload: Slots, key: string): Field {
    Field(marker.valueType, marker.cardinality, ValueIn(payload, SingleOf(key)), MembersIn(payload, key), DocumentIn(payload, key))
  }

  /** The field with one more slot in it. */
  function With(field: Field, part: Part, value: OldValue, key: string): Field {
    match part
    case SingleOf(k) => if k == key then field.(single := Some(value)) else field
    case MemberOf(k, member) => if k == key then field.(members := field.members[member := value]) else field
    case DocumentOf(k) => if k == key && value.MapContainer? then field.(document := Some(value.children)) else field
    case _ => field
  }

  /** A slot adds to the field it names and to no other. */
  lemma AddSlot(marker: Marker, payload: Slots, slot: string, value: OldValue, key: string)
    requires slot !in payload && !Decode(slot).Malformed? && (Decode(slot).DocumentOf? ==> value.MapContainer?)
    ensures FieldFrom(marker, payload[slot := value], key) == With(FieldFrom(marker, payload, key), Decode(slot), value, key)
  {
    hide MembersIn, Decode, SlotOf, ValueIn;
    MembersAdd(payload, slot, value, key);
    ValueAdds(payload, slot, value, SingleOf(key));
    ValueAdds(payload, slot, value, DocumentOf(key));
  }

  lemma ValueAdds(payload: Slots, slot: string, value: OldValue, part: Part)
    requires slot !in payload && !Decode(slot).Malformed? && (part.SingleOf? || part.DocumentOf?)
    ensures ValueIn(payload[slot := value], part) == if Decode(slot) == part then Some(value) else ValueIn(payload, part)
  {
    hide Decode, SlotOf;
    DecodeInverts(slot);
    DecodeOf(part);
  }

  lemma DecodeOf(part: Part)
    requires part.SingleOf? || part.DocumentOf? || part.MarkerOf?
    ensures Decode(SlotOf(part)) == part
  {
    var slot := SlotOf(part);
    assert slot[0] != ':' && slot[1] == ':';
    assert slot[1..][1..] == part.key;
    assert SplitOnce(slot[1..], ':') == Some(("", part.key));
  }

  lemma MembersAdd(payload: Slots, slot: string, value: OldValue, key: string)
    requires slot !in payload && !Decode(slot).Malformed?
    ensures MembersIn(payload[slot := value], key) ==
            match Decode(slot)
            case MemberOf(k, member) => if k == key then MembersIn(payload, key)[member := value] else MembersIn(payload, key)
            case _ => MembersIn(payload, key)
  {
    hide Decode, SlotOf;
    var after := payload[slot := value];
    DecodeInverts(slot);
    forall s | s in payload && Decode(s).MemberOf? ensures SlotOf(Decode(s)) == s {
      DecodeInverts(s);
    }
    if Decode(slot).MemberOf? && Decode(slot).key == key {
      assert MemberNames(after, key) == MemberNames(payload, key) + {Decode(slot).member};
    } else {
      assert MemberNames(after, key) == MemberNames(payload, key);
    }
    assert forall member :: member in MemberNames(payload, key) ==> SlotOf(MemberOf(key, member)) in payload;
  }

  // -------------------------------------------------------------------- the operation

  datatype Entry = Old(value: OldValue) | New(field: Field)

  predicate AllFit(rules: Rules, slots: Slots) {
    forall slot :: slot in slots ==> SlotFits(rules, slots, slot)
  }

  /** The bag after migration: one field for every marker, holding exactly the payload
      slots of its key. */
  ghost predicate Migrated(rules: Rules, slots: Slots, entries: map<string, Entry>) {
    && (forall key :: key in entries <==> MarkerFor(rules, slots, key).Some?)
    && (forall key :: key in entries ==>
          entries[key] == New(FieldFrom(MarkerFor(rules, slots, key).value, slots, key)))
  }

  function OldSlots(entries: map<string, Entry>): Slots {
    map slot | slot in entries && entries[slot].Old? :: entries[slot].value
  }

  ghost predicate IsSchema6(entries: map<string, Entry>) {
    forall slot :: slot in entries ==> entries[slot].Old?
  }

  /** Loop one: the markers seen so far have a new, empty field. */
  ghost predicate Marked(rules: Rules, slots: Slots, seen: set<string>, markers: map<string, Marker>) {
    && (forall key :: key in markers <==> SlotOf(MarkerOf(key)) in seen)
    && (forall key :: key in markers ==> MarkerFor(rules, slots, key) == Some(markers[key]))
  }

  /** Old slots, with the fields built so far on top. */
  ghost predicate Overlay(slots: Slots, markers: map<string, Marker>, payload: Slots, entries: map<string, Entry>) {
    && (forall key :: key in markers ==> key in entries && entries[key] == New(FieldFrom(markers[key], payload, key)))
    && (forall slot :: slot in slots && slot !in markers ==> slot in entries && entries[slot] == Old(slots[slot]))
    && (forall k :: k in entries ==> k in markers || k in slots)
  }

  class Bag {
    var entries: map<string, Entry>

    constructor (slots: Slots)
      ensures entries == map slot | slot in slots :: Old(slots[slot])
    {
      entries := map slot | slot in slots :: Old(slots[slot]);
    }

    /** Either some slot cannot be carried over and the migration fails, or every old slot
        is gone and the fields hold exactly what the slots held. */
    method MigrateBag(rules: Rules) returns (ok: bool)
      requires Sound(rules) && IsSchema6(entries)
      modifies this
      ensures ok <==> AllFit(rules, OldSlots(old(entries)))
      ensures ok ==> Migrated(rules, OldSlots(old(entries)), entries)
    {
      var slots := OldSlots(entries);
      var markers, marked := CreateFields(rules, slots);
      if !marked {
        return false;
      }
      var filled := FillFields(rules, slots, markers);
      if !filled {
        return false;
      }
      DeleteSlots(rules, slots, markers);
      return true;
    }

    method CreateFields(rules: Rules, slots: Slots) returns (markers: map<string, Marker>, ok: bool)
      requires IsSchema6(entries) && slots == OldSlots(entries)
      modifies this
      ensures ok <==> forall slot :: slot in slots && Decode(slot).MarkerOf? ==> SlotFits(rules, slots, slot)
      ensures ok ==> Marked(rules, slots, slots.Keys, markers) && Overlay(slots, markers, map[], entries)
    {
      hide Decode, SlotOf, FieldFrom, Marked, Overlay, SlotFits, IsSchema6, OldSlots;
      markers := map[];
      var rest := slots.Keys;
      NothingMarked(rules, slots, entries);
      assert slots.Keys - rest == {};
      while rest != {}
        invariant rest <= slots.Keys
        invariant forall slot :: slot in slots.Keys - rest && Decode(slot).MarkerOf? ==> SlotFits(rules, slots, slot)
        invariant Marked(rules, slots, slots.Keys - rest, markers)
        invariant Overlay(slots, markers, map[], entries)
        decreases rest
      {
        var slot :| slot in rest;
        var seen := slots.Keys - rest;
        assert slots.Keys - (rest - {slot}) == seen + {slot};
        rest := rest - {slot};
        if Decode(slot).MarkerOf? {
          var key := Decode(slot).key;
          MarkerSlotFits(rules, slots, slot);
          if !MarkerFits(rules, key, slots[slot]) {
            return markers, false;
          }
          var marker := rules.parse(slots[slot].raw).value;
          MarkOne(rules, slots, seen, markers, slot, entries);
          markers := markers[key := marker];
          entries := entries[key := New(Field(marker.valueType, marker.cardinality, None, map[], None))];
        } else {
          MarkOther(rules, slots, seen, markers, slot);
        }
      }
      assert slots.Keys - rest == slots.Keys;
      return markers, true;
    }

    method FillFields(rules: Rules, slots: Slots, markers: map<string, Marker>) returns (ok: bool)
      requires Sound(rules) && Marked(rules, slots, slots.Keys, markers) && Overlay(slots, markers, map[], entries)
      requires forall slot :: slot in slots && Decode(slot).MarkerOf? ==> SlotFits(rules, slots, slot)
      modifies this
      ensures ok <==> AllFit(rules, slots)
      ensures ok ==> Overlay(slots, markers, slots, entries)
    {
      hide Decode, SlotOf, MarkerFits, FieldFrom, Marked, Overlay, SlotFits;
      var rest := slots.Keys;
      ghost var payload: Slots := map[];
      while rest != {}
        invariant rest <= slots.Keys
        invariant forall slot :: slot in slots && slot !in rest ==> SlotFits(rules, slots, slot)
        invariant payload == map slot | slot in slots && slot !in rest :: slots[slot]
        invariant Overlay(slots, markers, payload, entries)
        decreases rest
      {
        var slot :| slot in rest;
        rest := rest - {slot};
        var fits := FillOne(rules, slots, markers, slot, payload);
        if !fits {
          return false;
        }
        payload := payload[slot := slots[slot]];
      }
      assert payload == slots;
      return true;
    }

    method FillOne(rules: Rules, slots: Slots, markers: map<string, Marker>, slot: string, ghost payload: Slots) returns (fits: bool)
      requires Marked(rules, slots, slots.Keys, markers) && Overlay(slots, markers, payload, entries)
      requires slot in slots && slot !in payload && (Decode(slot).MarkerOf? ==> SlotFits(rules, slots, slot))
      modifies this
      ensures fits <==> SlotFits(rules, slots, slot)
      ensures fits ==> Overlay(slots, markers, payload[slot := slots[slot]], entries)
    {
      hide Decode, SlotOf, MarkerFits, FieldFrom, Overlay;
      var part, value := Decode(slot), slots[slot];
      var stored := value;
      if part.Malformed? {
        return false;
      }
      if part.MarkerOf? {
        OverlayKept(slots, markers, payload, slot, entries);
        return true;
      }
      MarkedIs(rules, slots, markers, part.key);
      if part.key !in markers {
        return false;
      }
      var marker := markers[part.key];
      match part {
        case SingleOf(key) =>
          if marker.valueType.Document? || marker.cardinality.Many? || !value.Atomic? {
            return false;
          }
        case MemberOf(key, member) =>
          if marker.valueType.Document? || marker.cardinality.Single? || !value.Atomic? {
            return false;
          }
        case DocumentOf(key) =>
          if !marker.valueType.Document? || marker.cardinality.Many? || !value.MapContainer? {
            return false;
          }
          var copied := CopyDocument(value.children, 0);
          if copied.None? {
            return false;
          }
          stored := MapContainer(copied.value);
      }
      OverlayAdds(slots, markers, payload, slot, entries);
      entries := entries[part.key := New(With(entries[part.key].field, part, stored, part.key))];
      return true;
    }

    method DeleteSlots(rules: Rules, slots: Slots, markers: map<string, Marker>)
      requires Sound(rules) && Marked(rules, slots, slots.Keys, markers) && AllFit(rules, slots)
      requires Overlay(slots, markers, slots, entries)
      modifies this
      ensures Migrated(rules, slots, entries)
    {
      hide Decode, SlotOf, MarkerFits, FieldFrom, Marked, Overlay, AllFit;
      var rest := slots.Keys;
      while rest != {}
        invariant rest <= slots.Keys
        invariant entries == old(entries) - (slots.Keys - rest)
        decreases rest
      {
        var slot :| slot in rest;
        rest := rest - {slot};
        entries := entries - {slot};
      }
      assert slots.Keys - rest == slots.Keys;
      FieldsAreLeft(rules, slots, markers, old(entries));
    }
  }

  // ------------------------------------------------------------- steps of the three loops

  lemma MarkerSlot(slot: string, key: string)
    requires !Decode(slot).Malformed?
    ensures SlotOf(MarkerOf(key)) == slot <==> Decode(slot) == MarkerOf(key)
  {
    DecodeInverts(slot);
    DecodeOf(MarkerOf(key));
  }

  lemma NotMarkerSlot(slot: string, key: string)
    requires !Decode(slot).MarkerOf?
    ensures SlotOf(MarkerOf(key)) != slot
  {
    DecodeOf(MarkerOf(key));
  }

  lemma EmptyField(marker: Marker, key: string)
    ensures FieldFrom(marker, map[], key) == Field(marker.valueType, marker.cardinality, None, map[], None)
  {
  }

  lemma MarkerSlotFits(rules: Rules, slots: Slots, slot: string)
    requires slot in slots && Decode(slot).MarkerOf?
    ensures SlotFits(rules, slots, slot) <==> MarkerFits(rules, Decode(slot).key, slots[slot])
  {
  }

  lemma NothingMarked(rules: Rules, slots: Slots, entries: map<string, Entry>)
    requires IsSchema6(entries) && slots == OldSlots(entries)
    ensures Marked(rules, slots, {}, map[]) && Overlay(slots, map[], map[], entries)
  {
    hide SlotOf;
  }

  lemma MarkOne(rules: Rules, slots: Slots, seen: set<string>, markers: map<string, Marker>, slot: string, entries: map<string, Entry>)
    requires Marked(rules, slots, seen, markers) && Overlay(slots, markers, map[], entries)
    requires slot in slots && Decode(slot).MarkerOf? && MarkerFits(rules, Decode(slot).key, slots[slot])
    ensures var key, marker := Decode(slot).key, rules.parse(slots[slot].raw).value;
      && Marked(rules, slots, seen + {slot}, markers[key := marker])
      && Overlay(slots, markers[key := marker], map[],
                 entries[key := New(Field(marker.valueType, marker.cardinality, None, map[], None))])
  {
    hide Decode, SlotOf, FieldFrom, Marked, Overlay;
    var key, marker := Decode(slot).key, rules.parse(slots[slot].raw).value;
    MarkedGrows(rules, slots, seen, markers, slot, key, marker);
    OverlayGrows(slots, markers, entries, key, marker);
  }

  lemma MarkedGrows(rules: Rules, slots: Slots, seen: set<string>, markers: map<string, Marker>, slot: string, key: string, marker: Marker)
    requires Marked(rules, slots, seen, markers) && slot in slots && Decode(slot) == MarkerOf(key)
    requires MarkerFits(rules, key, slots[slot]) && marker == rules.parse(slots[slot].raw).value
    ensures Marked(rules, slots, seen + {slot}, markers[key := marker])
  {
    hide Decode, SlotOf;
    forall k ensures SlotOf(MarkerOf(k)) == slot <==> k == key {
      MarkerSlot(slot, k);
    }
  }

  lemma OverlayGrows(slots: Slots, markers: map<string, Marker>, entries: map<string, Entry>, key: string, marker: Marker)
    requires Overlay(slots, markers, map[], entries)
    ensures Overlay(slots, markers[key := marker], map[],
                    entries[key := New(Field(marker.valueType, marker.cardinality, None, map[], None))])
  {
    hide FieldFrom;
    EmptyField(marker, key);
  }

  lemma MarkOther(rules: Rules, slots: Slots, seen: set<string>, markers: map<string, Marker>, slot: string)
    requires Marked(rules, slots, seen, markers) && !Decode(slot).MarkerOf?
    ensures Marked(rules, slots, seen + {slot}, markers)
  {
    hide Decode, SlotOf;
    forall k ensures SlotOf(MarkerOf(k)) != slot {
      NotMarkerSlot(slot, k);
    }
  }

  lemma MarkedIs(rules: Rules, slots: Slots, markers: map<string, Marker>, key: string)
    requires Marked(rules, slots, slots.Keys, markers)
    ensures MarkerFor(rules, slots, key) == if key in markers then Some(markers[key]) else None
  {
    hide SlotOf, MarkerFits;
  }

  /** A marker slot adds nothing to any payload. */
  lemma OverlayKept(slots: Slots, markers: map<string, Marker>, payload: Slots, slot: string, entries: map<string, Entry>)
    requires Overlay(slots, markers, payload, entries) && slot in slots && slot !in payload && Decode(slot).MarkerOf?
    ensures Overlay(slots, markers, payload[slot := slots[slot]], entries)
  {
    hide Decode, SlotOf, FieldFrom;
    forall key | key in markers
      ensures FieldFrom(markers[key], payload[slot := slots[slot]], key) == FieldFrom(markers[key], payload, key)
    {
      AddSlot(markers[key], payload, slot, slots[slot], key);
    }
  }

  lemma OverlayAdds(slots: Slots, markers: map<string, Marker>, payload: Slots, slot: string, entries: map<string, Entry>)
    requires Overlay(slots, markers, payload, entries) && slot in slots && slot !in payload
    requires !Decode(slot).Malformed? && Decode(slot).key in markers && (Decode(slot).DocumentOf? ==> slots[slot].MapContainer?)
    ensures var part := Decode(slot);
      && part.key in entries && entries[part.key].New?
      && Overlay(slots, markers, payload[slot := slots[slot]],
                 entries[part.key := New(With(entries[part.key].field, part, slots[slot], part.key))])
  {
    hide Decode, SlotOf, FieldFrom;
    forall key | key in markers
      ensures FieldFrom(markers[key], payload[slot := slots[slot]], key)
           == With(FieldFrom(markers[key], payload, key), Decode(slot), slots[slot], key)
    {
      AddSlot(markers[key], payload, slot, slots[slot], key);
    }
  }

  /** Deleting the old slots deletes no field, since keys hold no colon and slots do. */
  lemma FieldsAreLeft(rules: Rules, slots: Slots, markers: map<string, Marker>, before: map<string, Entry>)
    requires Sound(rules) && Marked(rules, slots, slots.Keys, markers) && AllFit(rules, slots)
    requires Overlay(slots, markers, slots, before)
    ensures Migrated(rules, slots, before - slots.Keys)
  {
    hide SlotOf, FieldFrom, MarkerFor, Marked, AllFit, Sound;
    forall key ensures MarkerFor(rules, slots, key) == if key in markers then Some(markers[key]) else None {
      MarkedIs(rules, slots, markers, key);
    }
    forall key | key in markers ensures key !in slots {
      MarkerIsNoSlot(rules, slots, key);
    }
  }

  lemma MarkerIsNoSlot(rules: Rules, slots: Slots, key: string)
    requires Sound(rules) && AllFit(rules, slots) && MarkerFor(rules, slots, key).Some?
    ensures key !in slots
  {
    hide Decode, SlotOf, ValidPropertyKey;
    KeysHaveNoColon(key);
    if key in slots {
      assert SlotFits(rules, slots, key);
      DecodeInverts(key);
      assert false;
    }
  }

  // ------------------------------------------------------------------------ losslessness

  /** What a field map says about one old slot. */
  function Recalled(entries: map<string, Entry>, part: Part): Option<OldValue>
    requires !part.Malformed? && !part.MarkerOf?
  {
    if part.key !in entries || !entries[part.key].New? then None else
      var field := entries[part.key].field;
      match part
      case SingleOf(_) => field.single
      case MemberOf(_, member) => if member in field.members then Some(field.members[member]) else None
      case DocumentOf(_) => if field.document.Some? then Some(MapContainer(field.document.value)) else None
  }

  /** Nothing is lost: every payload slot of a migrated bag can be read back from its
      field, and nothing else can. */
  lemma EverySlotIsRecalled(rules: Rules, slots: Slots, entries: map<string, Entry>, part: Part)
    requires AllFit(rules, slots) && Migrated(rules, slots, entries) && !part.Malformed? && !part.MarkerOf?
    requires Decode(SlotOf(part)) == part
    ensures Recalled(entries, part) == ValueIn(slots, part)
  {
    hide Decode, SlotOf, MarkerFits, Copyable;
    var slot := SlotOf(part);
    if slot in slots {
      assert SlotFits(rules, slots, slot);
    }
    if part.MemberOf? {
      RecallMember(slots, part.key, part.member);
    }
  }

  lemma RecallMember(slots: Slots, key: string, member: string)
    requires Decode(SlotOf(MemberOf(key, member))) == MemberOf(key, member)
    ensures member in MembersIn(slots, key) <==> SlotOf(MemberOf(key, member)) in slots
    ensures member in MembersIn(slots, key) ==> MembersIn(slots, key)[member] == slots[SlotOf(MemberOf(key, member))]
  {
    hide SlotOf, Decode;
  }

  // ------------------------------------------------------------- what may be carried over

  /** A slot's name says what it is: `f:key`, `s:key`, `d:key`, or `r:key:member` with the
      last colon before the member. */
  lemma SlotNames(slot: string, key: string, member: string)
    ensures Decode(slot) == MarkerOf(key) <==> slot == "f:" + key
    ensures Decode(slot) == SingleOf(key) <==> slot == "s:" + key
    ensures Decode(slot) == DocumentOf(key) <==> slot == "d:" + key
    ensures Decode(slot) == MemberOf(key, member) <==> slot == "r:" + key + ":" + member && ':' !in member
  {
    hide Decode, SlotOf;
    DecodeOf(MarkerOf(key));
    DecodeOf(SingleOf(key));
    DecodeOf(DocumentOf(key));
    SlotTexts(key, member);
    if !Decode(slot).Malformed? {
      DecodeInverts(slot);
    }
    MemberSlot(slot, key, member);
  }

  lemma SlotTexts(key: string, member: string)
    ensures SlotOf(MarkerOf(key)) == "f:" + key && SlotOf(SingleOf(key)) == "s:" + key && SlotOf(DocumentOf(key)) == "d:" + key
    ensures SlotOf(MemberOf(key, member)) == "r:" + key + ":" + member
  {
  }

  lemma MemberSlot(slot: string, key: string, member: string)
    ensures Decode(slot) == MemberOf(key, member) <==> slot == "r:" + key + ":" + member && ':' !in member
  {
    hide Decode, SlotOf;
    SlotTexts(key, member);
    if Decode(slot) == MemberOf(key, member) {
      DecodeInverts(slot);
      MembersHaveNoColon(slot);
    }
    if ':' !in member {
      MemberIsRead(key, member);
    }
  }

  lemma MembersHaveNoColon(slot: string)
    requires Decode(slot).MemberOf?
    ensures ':' !in Decode(slot).member
  {
  }

  lemma MemberIsRead(key: string, member: string)
    requires ':' !in member
    ensures Decode("r:" + key + ":" + member) == MemberOf(key, member)
  {
    hide RSplitOnce, SplitOnce;
    var slot, rest := "r:" + key + ":" + member, key + ":" + member;
    KindIsRead("r", rest);
    assert "r" + ":" == "r:";
    assert slot == "r" + ":" + rest;
    LastColon(key, member);
  }

  lemma KindIsRead(kind: string, rest: string)
    requires |kind| == 1 && kind[0] != ':'
    ensures SplitOnce(kind + ":" + rest, ':') == Some((kind, rest))
  {
    var slot := kind + ":" + rest;
    assert slot[1..][1..] == rest && slot[0] == kind[0];
    assert SplitOnce(slot[1..], ':') == Some(("", rest));
    assert [kind[0]] + "" == kind;
  }

  lemma {:induction false} LastColon(key: string, member: string)
    requires ':' !in member
    ensures RSplitOnce(key + ":" + member, ':') == Some((key, member))
    decreases |member|
  {
    var s := key + ":" + member;
    if member == "" {
      assert s[..|s| - 1] == key;
    } else {
      var front, last := member[..|member| - 1], member[|member| - 1];
      assert s[..|s| - 1] == key + ":" + front && s[|s| - 1] == last && last in member;
      LastColon(key, front);
      assert front + [last] == member;
    }
  }

  /** A marker slot holds a string that parses to a valid marker of its own key. */
  predicate IsMarker(rules: Rules, slots: Slots, key: string) {
    && "f:" + key in slots && slots["f:" + key].Atomic? && slots["f:" + key].isString
    && rules.parse(slots["f:" + key].raw).Some?
    && rules.parse(slots["f:" + key].raw).value.key == key
    && rules.parse(slots["f:" + key].raw).value.empty && rules.valid(rules.parse(slots["f:" + key].raw).value)
  }

  lemma MarkerForIff(rules: Rules, slots: Slots, key: string)
    ensures MarkerFor(rules, slots, key).Some? <==> IsMarker(rules, slots, key)
    ensures IsMarker(rules, slots, key) ==> MarkerFor(rules, slots, key) == rules.parse(slots["f:" + key].raw)
  {
    SlotTexts(key, "");
  }

  /** Exactly these slots are carried over: a marker; and, beside the marker of its key, a
      plain value for a single scalar, a plain member for a set of scalars, or a document
      map that can be copied for a single document. */
  lemma CarriedOverIff(rules: Rules, slots: Slots, slot: string)
    requires slot in slots
    ensures SlotFits(rules, slots, slot) <==>
      !Decode(slot).Malformed? && IsMarker(rules, slots, Decode(slot).key) &&
      var marker, value := rules.parse(slots["f:" + Decode(slot).key].raw).value, slots[slot];
      && (Decode(slot).SingleOf? ==> marker.cardinality == Single && marker.valueType != Document && value.Atomic?)
      && (Decode(slot).MemberOf? ==> marker.cardinality == Many && marker.valueType != Document && value.Atomic?)
      && (Decode(slot).DocumentOf? ==>
            marker.cardinality == Single && marker.valueType == Document && value.MapContainer? && Copyable(value.children, 0))
  {
    hide Decode, SlotOf, Copyable;
    if !Decode(slot).Malformed? {
      var key := Decode(slot).key;
      MarkerForIff(rules, slots, key);
      SlotTexts(key, "");
      DecodeInverts(slot);
    }
  }

  /** Every migrated field has the type and cardinality its marker named, and holds only what
      these allow: one plain value, plain members, or one document. */
  lemma MigratedFieldsAreTyped(rules: Rules, slots: Slots, entries: map<string, Entry>, key: string)
    requires AllFit(rules, slots) && Migrated(rules, slots, entries) && key in entries
    ensures entries[key].New? && "f:" + key in slots && slots["f:" + key].Atomic?
    ensures var field, marker := entries[key].field, rules.parse(slots["f:" + key].raw);
      && marker.Some? && marker.value.key == key
      && field.valueType == marker.value.valueType && field.cardinality == marker.value.cardinality
      && (field.single.Some? ==> field.cardinality == Single && field.valueType != Document && field.single.value.Atomic?)
      && (forall m :: m in field.members ==>
            field.cardinality == Many && field.valueType != Document && field.members[m].Atomic?)
      && (field.document.Some? ==>
            field.cardinality == Single && field.valueType == Document && Copyable(field.document.value, 0))
  {
    hide Decode, SlotOf, Copyable, MarkerFor, SlotFits, ValueIn, MembersIn, DocumentIn;
    MarkerForIff(rules, slots, key);
    if ValueIn(slots, SingleOf(key)).Some? {
      TypedSingle(rules, slots, key);
    }
    if DocumentIn(slots, key).Some? {
      TypedDocument(rules, slots, key);
    }
    forall m | m in MembersIn(slots, key)
      ensures var marker := rules.parse(slots["f:" + key].raw).value;
              marker.cardinality == Many && marker.valueType != Document && MembersIn(slots, key)[m].Atomic?
    {
      TypedMember(rules, slots, key, m);
    }
  }

  lemma TypedSingle(rules: Rules, slots: Slots, key: string)
    requires AllFit(rules, slots) && IsMarker(rules, slots, key) && ValueIn(slots, SingleOf(key)).Some?
    ensures var marker := rules.parse(slots["f:" + key].raw).value;
            marker.cardinality == Single && marker.valueType != Document && ValueIn(slots, SingleOf(key)).value.Atomic?
  {
    hide Decode, SlotOf, SlotFits;
    DecodeOf(SingleOf(key));
    CarriedOverIff(rules, slots, SlotOf(SingleOf(key)));
  }

  lemma TypedDocument(rules: Rules, slots: Slots, key: string)
    requires AllFit(rules, slots) && IsMarker(rules, slots, key) && DocumentIn(slots, key).Some?
    ensures var marker := rules.parse(slots["f:" + key].raw).value;
            marker.cardinality == Single && marker.valueType == Document && Copyable(DocumentIn(slots, key).value, 0)
  {
    hide Decode, SlotOf, SlotFits, Copyable;
    DecodeOf(DocumentOf(key));
    CarriedOverIff(rules, slots, SlotOf(DocumentOf(key)));
  }

  lemma TypedMember(rules: Rules, slots: Slots, key: string, m: string)
    requires AllFit(rules, slots) && IsMarker(rules, slots, key) && m in MembersIn(slots, key)
    ensures var marker := rules.parse(slots["f:" + key].raw).value;
            marker.cardinality == Many && marker.valueType != Document && MembersIn(slots, key)[m].Atomic?
  {
    hide Decode, SlotOf, SlotFits, Copyable;
    var slot :| slot in slots && Decode(slot).MemberOf? && Decode(slot).key == key && Decode(slot).member == m;
    DecodeInverts(slot);
    assert Decode(slot) == MemberOf(key, m);
    CarriedOverIff(rules, slots, slot);
  }
}
