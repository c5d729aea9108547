/**
 Recovery of one graph from its stores: selecting a base among the retained
 generations, replaying the tail, and moving a corrupt suffix to quarantine.

 What Loro and the schema checks decide is a parameter: which payloads decode,
 which operations an update depends on, and which documents are valid.
 */
module Recovery {
  import opened Records
  import opened Storage
  import opened Repository

  datatype Rules = Rules(
    supports: nat -> bool,
    decodes: Payload -> bool,
    needs: Payload -> set<Op>,
    valid: set<Op> -> bool,
    encode: set<Op> -> seq<Byte>)

  datatype Stored = Stored(sequence: nat, record: UpdateRecord)

  datatype RecoveryError = NotOpen | UnsupportedDocumentSchema | NoValidCheckpoint

  // ------------------------------------------------------------ what replay means

  /** The document after the first `n` updates: import is union. */
  function After(base: set<Op>, tail: seq<Stored>, n: nat): (doc: set<Op>)
    requires n <= |tail|
    ensures base <= doc
  {
    if n == 0 then base else After(base, tail, n - 1) + tail[n - 1].record.payload.ops
  }

  predicate Sound(u: UpdateRecord) {
    u.checksum == Checksum(u.payload)
  }

  /** Loro imports an update whose dependencies the document already has. */
  predicate Imports(rules: Rules, doc: set<Op>, p: Payload) {
    rules.decodes(p) && rules.needs(p) <= doc
  }

  /** One record passes: its checksum, its dependencies, and the document it leads to. */
  predicate Good(rules: Rules, base: set<Op>, tail: seq<Stored>, i: nat)
    requires i < |tail|
  {
    && Sound(tail[i].record)
    && Imports(rules, After(base, tail, i), tail[i].record.payload)
    && rules.valid(After(base, tail, i + 1))
  }

  ghost predicate GoodPrefix(rules: Rules, base: set<Op>, tail: seq<Stored>, n: nat) {
    n <= |tail| && forall i :: 0 <= i < n ==> Good(rules, base, tail, i)
  }

  /** Replay keeps the longest good prefix. */
  ghost predicate LongestGoodPrefix(rules: Rules, base: set<Op>, tail: seq<Stored>, n: nat) {
    GoodPrefix(rules, base, tail, n) && forall m: nat :: GoodPrefix(rules, base, tail, m) ==> m <= n
  }

  function FailureOf(rules: Rules, base: set<Op>, tail: seq<Stored>, i: nat): Reason
    requires i < |tail|
  {
    if !Sound(tail[i].record) then ChecksumMismatch else InvalidRecord
  }

  /** The first failing record goes to quarantine under its own reason, the rest as its followers. */
  function SetAside(rules: Rules, base: set<Op>, tail: seq<Stored>, n: nat, i: nat): (nat, QuarantineRecord)
    requires n <= i < |tail|
  {
    var u := tail[i];
    (u.sequence,
     QuarantineRecord(u.record.checksum, u.record.payload, if i == n then FailureOf(rules, base, tail, n) else AfterCorruptTail))
  }

  function CorruptSuffix(rules: Rules, base: set<Op>, tail: seq<Stored>, n: nat): (records: seq<(nat, QuarantineRecord)>)
    requires n <= |tail|
    ensures |records| == |tail| - n
    ensures forall j :: 0 <= j < |records| ==> records[j] == SetAside(rules, base, tail, n, n + j)
  {
    seq(|tail| - n, j requires 0 <= j < |tail| - n => SetAside(rules, base, tail, n, n + j))
  }

  method ReplayTail(rules: Rules, base: set<Op>, tail: seq<Stored>)
    returns (doc: set<Op>, kept: nat, corrupt: seq<(nat, QuarantineRecord)>)
    ensures LongestGoodPrefix(rules, base, tail, kept)
    ensures doc == After(base, tail, kept)
    ensures corrupt == CorruptSuffix(rules, base, tail, kept)
  {
    doc, kept, corrupt := base, 0, [];
    var tailCorrupt := false;
    for i := 0 to |tail|
      invariant kept <= i && (!tailCorrupt ==> kept == i)
      invariant tailCorrupt ==> kept < i && !Good(rules, base, tail, kept)
      invariant GoodPrefix(rules, base, tail, kept)
      invariant doc == After(base, tail, kept)
      invariant |corrupt| == i - kept
      invariant forall j :: 0 <= j < |corrupt| ==> corrupt[j] == CorruptSuffix(rules, base, tail, kept)[j]
    {
      var u := tail[i];
      var reason: Option<Reason> := None;
      if tailCorrupt {
        reason := Some(AfterCorruptTail);
      } else if !Sound(u.record) {
        reason := Some(ChecksumMismatch);
        tailCorrupt := true;
      } else if Imports(rules, doc, u.record.payload) && rules.valid(doc + u.record.payload.ops) {
        doc, kept := doc + u.record.payload.ops, i + 1;
      } else {
        reason := Some(InvalidRecord);
        tailCorrupt := true;
      }
      if reason.Some? {
        assert CorruptSuffix(rules, base, tail, kept)[i - kept] == SetAside(rules, base, tail, kept, i);
        corrupt := corrupt + [(u.sequence, QuarantineRecord(u.record.checksum, u.record.payload, reason.value))];
      }
    }
    assert forall m: nat :: GoodPrefix(rules, base, tail, m) ==> m <= kept;
  }

  // ------------------------------------------------------------ selecting a base

  /** A generation recovery can start from on its own. */
  predicate Usable(rules: Rules, c: CheckpointRecord) {
    rules.supports(c.schema) && c.checksum == Checksum(c.payload) && rules.decodes(c.payload) && rules.valid(c.payload.ops)
  }

  function RejectionOf(rules: Rules, c: CheckpointRecord): Reason {
    if !rules.supports(c.schema) then UnsupportedSchema
    else if c.checksum != Checksum(c.payload) then ChecksumMismatch
    else InvalidRecord
  }

  /** The newest usable generation. */
  ghost predicate Selects(rules: Rules, s: Store, c: nat) {
    && c in s.checkpoints && Usable(rules, s.checkpoints[c])
    && forall d :: d in s.checkpoints && d > c ==> !Usable(rules, s.checkpoints[d])
  }

  /** Every newer generation is set aside, in place of none. */
  function Rejected(rules: Rules, checkpoints: map<nat, CheckpointRecord>, dropped: set<nat>): map<Handle, QuarantineRecord> {
    map d | d in dropped && d in checkpoints ::
      CheckpointHandle(d) :=
        QuarantineRecord(checkpoints[d].checksum, checkpoints[d].payload, RejectionOf(rules, checkpoints[d]))
  }

  /** When no generation is usable each is copied to quarantine and nothing else changes. */
  function AllRejected(rules: Rules, s: Store): Store {
    s.(quarantine := s.quarantine + Rejected(rules, s.checkpoints, s.checkpoints.Keys))
  }

  function Above(keys: set<nat>, c: nat): set<nat> {
    set d | d in keys && d > c
  }

  method SelectBase(rules: Rules, s: Store)
    returns (selected: Option<nat>, quarantine: map<Handle, QuarantineRecord>)
    ensures selected.Some? ==> Selects(rules, s, selected.value)
    ensures selected.None? ==> forall d :: d in s.checkpoints ==> !Usable(rules, s.checkpoints[d])
    ensures quarantine == Rejected(rules, s.checkpoints,
                                   if selected.Some? then Above(s.checkpoints.Keys, selected.value) else s.checkpoints.Keys)
  {
    hide Rejected, Descending, Usable;
    var order := Descending(s.checkpoints.Keys);
    quarantine := map[];
    ghost var seen: set<nat> := {};
    RejectNone(rules, s.checkpoints);
    for i := 0 to |order|
      invariant forall j :: 0 <= j < i ==> !Usable(rules, s.checkpoints[order[j]])
      invariant forall d :: d in seen <==> d in order[..i]
      invariant quarantine == Rejected(rules, s.checkpoints, seen)
    {
      var c := order[i];
      var record := s.checkpoints[c];
      if Usable(rules, record) {
        SeenIsAbove(s.checkpoints.Keys, order, i, seen);
        return Some(c), quarantine;
      }
      assert order[..i + 1] == order[..i] + [c];
      RejectOneMore(rules, s.checkpoints, seen, c);
      quarantine := quarantine[CheckpointHandle(c) :=
        QuarantineRecord(record.checksum, record.payload, RejectionOf(rules, record))];
      seen := seen + {c};
    }
    assert order[..|order|] == order;
    assert seen == s.checkpoints.Keys;
    return None, quarantine;
  }

  lemma RejectNone(rules: Rules, checkpoints: map<nat, CheckpointRecord>)
    ensures Rejected(rules, checkpoints, {}) == map[]
  {
  }

  lemma RejectOneMore(rules: Rules, checkpoints: map<nat, CheckpointRecord>, seen: set<nat>, c: nat)
    requires c in checkpoints
    ensures Rejected(rules, checkpoints, seen + {c})
         == Rejected(rules, checkpoints, seen)[CheckpointHandle(c) :=
              QuarantineRecord(checkpoints[c].checksum, checkpoints[c].payload, RejectionOf(rules, checkpoints[c]))]
  {
  }

  lemma SeenIsAbove(keys: set<nat>, order: seq<nat>, i: nat, seen: set<nat>)
    requires i < |order| && forall x :: x in order <==> x in keys
    requires forall a, b :: 0 <= a < b < |order| ==> order[a] > order[b]
    requires forall d :: d in seen <==> d in order[..i]
    ensures seen == Above(keys, order[i])
    ensures forall d :: d in keys && d > order[i] ==> exists j :: 0 <= j < i && order[j] == d
  {
    forall d | d in keys && d > order[i] ensures exists j :: 0 <= j < i && order[j] == d {
      var j :| 0 <= j < |order| && order[j] == d;
      assert j < i;
    }
    forall d ensures d in seen <==> d in Above(keys, order[i]) {
      if d in seen {
        var j :| 0 <= j < i && order[..i][j] == d;
        assert order[j] in order;
      }
      if d in Above(keys, order[i]) {
        var j :| 0 <= j < i && order[j] == d;
        assert order[..i][j] == d;
      }
    }
  }

  function TailOf(s: Store, c: nat): (tail: seq<Stored>)
    ensures forall i :: 0 <= i < |tail| ==> tail[i].sequence in s.updates && tail[i].sequence > c
    ensures forall i :: 0 <= i < |tail| ==> tail[i].record == s.updates[tail[i].sequence]
    ensures forall q :: q in s.updates && q > c ==> exists i :: 0 <= i < |tail| && tail[i].sequence == q
    ensures forall i, j :: 0 <= i < j < |tail| ==> tail[i].sequence < tail[j].sequence
  {
    var order := UpdatesAfter(s, c);
    assert forall i :: 0 <= i < |order| ==> order[i] in order;
    var tail := RecordsAt(s.updates, order);
    TailMembers(order, tail);
    tail
  }

  function RecordsAt(updates: map<nat, UpdateRecord>, order: seq<nat>): (tail: seq<Stored>)
    requires forall i :: 0 <= i < |order| ==> order[i] in updates
    ensures |tail| == |order| && forall i :: 0 <= i < |order| ==> tail[i] == Stored(order[i], updates[order[i]])
  {
    seq(|order|, i requires 0 <= i < |order| => Stored(order[i], updates[order[i]]))
  }

  lemma TailMembers(order: seq<nat>, tail: seq<Stored>)
    requires |order| == |tail| && forall i :: 0 <= i < |order| ==> tail[i].sequence == order[i]
    ensures forall q :: q in order ==> exists i :: 0 <= i < |tail| && tail[i].sequence == q
  {
    forall q | q in order ensures exists i :: 0 <= i < |tail| && tail[i].sequence == q {
      var i :| 0 <= i < |order| && order[i] == q;
      assert tail[i].sequence == q;
    }
  }

  function FrontierOf(c: nat, tail: seq<Stored>, kept: nat): nat
    requires kept <= |tail|
  {
    if kept == 0 then c else tail[kept - 1].sequence
  }

  // --------------------------------------------------- recovery as a transaction

  datatype Recovered = Recovered(doc: set<Op>, frontier: nat, base: nat, kept: nat, store: Store)

  function Export(rules: Rules, doc: set<Op>): Payload {
    Payload(doc, rules.encode(doc))
  }

  function RecordsOf(corrupt: seq<(nat, QuarantineRecord)>): (records: map<nat, QuarantineRecord>)
    ensures forall j :: 0 <= j < |corrupt| ==> corrupt[j].0 in records
    ensures forall q :: q in records ==> exists j :: 0 <= j < |corrupt| && corrupt[j].0 == q
  {
    if corrupt == [] then map[] else
      var front := RecordsOf(corrupt[..|corrupt| - 1]);
      var last := corrupt[|corrupt| - 1];
      var records := front[last.0 := last.1];
      assert forall j :: 0 <= j < |corrupt| - 1 ==> corrupt[j] == corrupt[..|corrupt| - 1][j];
      records
  }

  /** The stores recovery leaves behind: newer unusable generations set aside, and a
      corrupt suffix replaced by a checkpoint of what was kept. */
  ghost function Repaired(rules: Rules, s: Store, c: nat, kept: nat, schema: nat): Store
    requires c in s.checkpoints && kept <= |TailOf(s, c)|
  {
    var tail := TailOf(s, c);
    var base := s.checkpoints[c].payload.ops;
    var aside := s.(quarantine := s.quarantine + Rejected(rules, s.checkpoints, Above(s.checkpoints.Keys, c)));
    if kept == |tail| then aside else
      match RepairCorruptTail(aside, Export(rules, After(base, tail, kept)), FrontierOf(c, tail, kept), schema,
                              RecordsOf(CorruptSuffix(rules, base, tail, kept)))
      case Ok(repaired) => repaired
      case Err(_) => aside
  }

  /** Record-by-record recovery, the definition both fast paths are measured against. */
  ghost predicate RecordByRecord(rules: Rules, s: Store, schema: nat, r: Recovered) {
    && Selects(rules, s, r.base)
    && var tail := TailOf(s, r.base);
    && var base := s.checkpoints[r.base].payload.ops;
    && LongestGoodPrefix(rules, base, tail, r.kept)
    && r.doc == After(base, tail, r.kept)
    && r.frontier == FrontierOf(r.base, tail, r.kept)
    && r.store == Repaired(rules, s, r.base, r.kept, schema)
  }

  /** A graph without any checkpoint replays its whole log onto a new document. */
  ghost predicate FromNothing(rules: Rules, s: Store, blank: set<Op>, schema: nat, r: Recovered) {
    && r.base == 0
    && var tail := TailOf(s, 0);
    && LongestGoodPrefix(rules, blank, tail, r.kept)
    && r.doc == After(blank, tail, r.kept)
    && r.frontier == FrontierOf(0, tail, r.kept)
    && r.store == if r.kept == |tail| then s else
         match RepairCorruptTail(s, Export(rules, r.doc), r.frontier, schema, RecordsOf(CorruptSuffix(rules, blank, tail, r.kept)))
         case Ok(repaired) => repaired
         case Err(_) => s
  }

  /** `recover_graph`. */
  method RecoverGraph(rules: Rules, repository: GraphRepository, blank: set<Op>, schema: nat)
    returns (r: Result<Recovered, RecoveryError>)
    requires repository.Valid()
    modifies repository
    ensures repository.Valid()
    ensures r == Err(NotOpen) <==> old(repository.metadata).None?
    ensures r == Err(UnsupportedDocumentSchema) <==>
            old(repository.metadata).Some? && !rules.supports(old(repository.metadata).value.schema)
    ensures r == Err(NoValidCheckpoint) ==>
            forall d :: d in old(repository.checkpoints) ==> !Usable(rules, old(repository.checkpoints)[d])
    ensures r == Err(NoValidCheckpoint) ==> old(repository.checkpoints).Keys != {}
    ensures r == Err(NoValidCheckpoint) ==> repository.View() == AllRejected(rules, old(repository.View()))
    ensures r == Err(NotOpen) || r == Err(UnsupportedDocumentSchema) ==> repository.View() == old(repository.View())
    ensures r.Ok? ==> repository.View() == r.value.store
    ensures r.Ok? && old(repository.checkpoints).Keys == {} ==> FromNothing(rules, old(repository.View()), blank, schema, r.value)
    ensures r.Ok? && old(repository.checkpoints).Keys != {} ==> RecordByRecord(rules, old(repository.View()), schema, r.value)
  {
    hide LongestGoodPrefix, Usable, After, Rejected, TailOf, CorruptSuffix, RecordsOf, Above, Storage.RepairCorruptTail, ChecksumsUnique;
    if repository.metadata.None? {
      return Err(NotOpen);
    }
    if !rules.supports(repository.metadata.value.schema) {
      return Err(UnsupportedDocumentSchema);
    }
    var s := repository.View();
    var selected, rejected := SelectBase(rules, s);
    if selected.None? && s.checkpoints.Keys != {} {
      repository.quarantine := repository.quarantine + rejected;
      return Err(NoValidCheckpoint);
    }
    if selected.Some? {
      repository.quarantine := repository.quarantine + rejected;
    }
    var c := if selected.Some? then selected.value else 0;
    var base := if selected.Some? then s.checkpoints[c].payload.ops else blank;
    var tail := TailOf(s, c);
    var doc, kept, corrupt := ReplayTail(rules, base, tail);
    var frontier := FrontierOf(c, tail, kept);
    if corrupt != [] {
      var _ := repository.RepairCorruptTail(Export(rules, doc), frontier, schema, RecordsOf(corrupt));
    }
    r := Ok(Recovered(doc, frontier, c, kept, repository.View()));
  }
}
