/**
 Rewriting outbox keys to content identities.  Entries written by old versions may sit
 under any key, even swapped with one another.  A normalising open first inspects the
 outbox in one transaction and then rewrites it in another, so appends, acks and other
 opens may come in between.
 */
module Normalization {
  import opened Records
  import opened Storage

  type Rows = map<Digest, OutboxRecord>
  type Updates = map<nat, UpdateRecord>

  /** An entry as inspected, with the payload it stands for. */
  datatype Inspected = Inspected(key: Digest, record: OutboxRecord, payload: Payload)

  function ContentId(c: Inspected): Digest {
    Checksum(c.payload)
  }

  /** The payload of an entry: its own, or that of the update it references. */
  function Resolved(updates: Updates, record: OutboxRecord): Option<Payload> {
    if record.payload.Some? then record.payload
    else if record.sequence in updates then Some(updates[record.sequence].payload)
    else None
  }

  predicate ChecksumFails(updates: Updates, record: OutboxRecord) {
    && record.payload.None? && record.sequence in updates
    && updates[record.sequence].checksum != Checksum(updates[record.sequence].payload)
  }

  predicate Readable(updates: Updates, record: OutboxRecord) {
    Resolved(updates, record).Some? && !ChecksumFails(updates, record)
  }

  /** The entry sits under the digest of its payload. */
  predicate WellKeyedRow(updates: Updates, key: Digest, record: OutboxRecord) {
    Resolved(updates, record) == Some(key.payload)
  }

  ghost predicate WellKeyed(rows: Rows, updates: Updates) {
    forall k :: k in rows ==> WellKeyedRow(updates, k, rows[k])
  }

  /** `p` is waiting to be sent. */
  ghost predicate Pends(rows: Rows, updates: Updates, p: Payload) {
    exists k :: k in rows && Resolved(updates, rows[k]) == Some(p)
  }

  /** What is pending is what an entry carries itself or the stored update it references holds. */
  lemma PendsIff(rows: Rows, updates: Updates, p: Payload)
    ensures Pends(rows, updates, p) <==>
            exists k :: k in rows &&
              if rows[k].payload.Some? then rows[k].payload.value == p
              else rows[k].sequence in updates && updates[rows[k].sequence].payload == p
  {
  }

  // ---------------------------------------------------------------------- inspection

  function InspectRow(updates: Updates, key: Digest, record: OutboxRecord): Inspected
    requires Resolved(updates, record).Some?
  {
    Inspected(key, record, Resolved(updates, record).value)
  }

  ghost predicate InspectionOf(rows: Rows, updates: Updates, list: seq<Inspected>) {
    && (forall k :: k in rows ==> Readable(updates, rows[k]) && InspectRow(updates, k, rows[k]) in list)
    && (forall c :: c in list ==> c.key in rows && Resolved(updates, c.record) == Some(c.payload) && rows[c.key] == c.record)
  }

  // ------------------------------------------------------------------------- rewrite

  /** The entry is still what was inspected. */
  predicate Stays(rows: Rows, updates: Updates, c: Inspected) {
    && c.key in rows && rows[c.key] == c.record
    && if c.record.payload.Some? then c.record.payload == Some(c.payload)
       else c.record.sequence in updates && updates[c.record.sequence] == UpdateRecord(ContentId(c), c.payload)
  }

  function LiveOf(rows: Rows, updates: Updates, inspected: seq<Inspected>): (live: seq<Inspected>)
    ensures forall c :: c in live <==> c in inspected && Stays(rows, updates, c)
  {
    if inspected == [] then [] else
      var c := inspected[|inspected| - 1];
      LiveOf(rows, updates, inspected[..|inspected| - 1]) + if Stays(rows, updates, c) then [c] else []
  }

  function Deleted(rows: Rows, live: seq<Inspected>): Rows {
    if live == [] then rows else
      var c := live[|live| - 1];
      var front := Deleted(rows, live[..|live| - 1]);
      if c.key != ContentId(c) then front - {c.key} else front
  }

  function Puts(rows: Rows, live: seq<Inspected>): Rows {
    if live == [] then rows else
      var c := live[|live| - 1];
      var front := Puts(rows, live[..|live| - 1]);
      if ContentId(c) in front then front else front[ContentId(c) := c.record]
  }

  /** Both phases of the rewrite: every stale key goes before any content key is put. */
  function Rewritten(rows: Rows, updates: Updates, inspected: seq<Inspected>): Rows {
    var live := LiveOf(rows, updates, inspected);
    Puts(Deleted(rows, live), live)
  }

  lemma {:induction false} DeletedRows(rows: Rows, live: seq<Inspected>)
    ensures forall k :: k in Deleted(rows, live) <==> k in rows && !exists c :: c in live && c.key == k && k != ContentId(c)
    ensures forall k :: k in Deleted(rows, live) ==> Deleted(rows, live)[k] == rows[k]
  {
    if live != [] {
      var front, last := live[..|live| - 1], live[|live| - 1];
      DeletedRows(rows, front);
      assert forall c :: c in live <==> c in front || c == last;
    }
  }

  lemma {:induction false} PutsRows(rows: Rows, updates: Updates, live: seq<Inspected>)
    requires WellKeyed(rows, updates) && forall c :: c in live ==> Resolved(updates, c.record) == Some(c.payload)
    ensures WellKeyed(Puts(rows, live), updates)
    ensures forall k :: k in Puts(rows, live) <==> k in rows || exists c :: c in live && ContentId(c) == k
    ensures forall k :: k in rows ==> Puts(rows, live)[k] == rows[k]
  {
    if live != [] {
      var front, last := live[..|live| - 1], live[|live| - 1];
      assert forall c :: c in live <==> c in front || c == last;
      PutsRows(rows, updates, front);
    }
  }

  /** Every entry that is not content-addressed was inspected and has not changed since. */
  ghost predicate MisKeyedInspected(rows: Rows, updates: Updates, inspected: seq<Inspected>) {
    forall k :: k in rows && !WellKeyedRow(updates, k, rows[k]) ==>
      exists c :: c in inspected && c.key == k && Stays(rows, updates, c)
  }

  lemma StaysResolves(rows: Rows, updates: Updates, c: Inspected)
    requires Stays(rows, updates, c)
    ensures Resolved(updates, c.record) == Some(c.payload)
    ensures WellKeyedRow(updates, c.key, rows[c.key]) <==> c.key == ContentId(c)
  {
  }

  /** In a content-addressed outbox the keys are the pending payloads. */
  lemma KeysArePayloads(rows: Rows, updates: Updates, p: Payload)
    requires WellKeyed(rows, updates)
    ensures Pends(rows, updates, p) <==> Checksum(p) in rows
  {
    if Pends(rows, updates, p) {
      var k :| k in rows && Resolved(updates, rows[k]) == Some(p);
      assert WellKeyedRow(updates, k, rows[k]);
    }
    if Checksum(p) in rows {
      assert WellKeyedRow(updates, Checksum(p), rows[Checksum(p)]);
    }
  }

  /** What is left after the first phase is content-addressed. */
  lemma DeletedIsWellKeyed(rows: Rows, updates: Updates, inspected: seq<Inspected>)
    requires MisKeyedInspected(rows, updates, inspected)
    ensures WellKeyed(Deleted(rows, LiveOf(rows, updates, inspected)), updates)
  {
    hide LiveOf, Stays, WellKeyedRow;
    var live := LiveOf(rows, updates, inspected);
    DeletedRows(rows, live);
    var left := Deleted(rows, live);
    forall k | k in left ensures WellKeyedRow(updates, k, left[k]) {
      if !WellKeyedRow(updates, k, rows[k]) {
        var c :| c in inspected && c.key == k && Stays(rows, updates, c);
        StaysResolves(rows, updates, c);
        assert false;
      }
    }
  }

  /** The rewrite leaves every entry under its content id, whatever was permuted, and
      neither loses nor invents a pending payload. */
  lemma RewriteNormalizes(rows: Rows, updates: Updates, inspected: seq<Inspected>, p: Payload)
    requires MisKeyedInspected(rows, updates, inspected)
    ensures WellKeyed(Rewritten(rows, updates, inspected), updates)
    ensures Pends(Rewritten(rows, updates, inspected), updates, p) <==> Pends(rows, updates, p)
  {
    hide LiveOf, Deleted, Puts, MisKeyedInspected;
    var live := LiveOf(rows, updates, inspected);
    var left := Deleted(rows, live);
    var after := Puts(left, live);
    forall c | c in live ensures Resolved(updates, c.record) == Some(c.payload) {
      StaysResolves(rows, updates, c);
    }
    DeletedIsWellKeyed(rows, updates, inspected);
    PutsRows(left, updates, live);
    KeysArePayloads(after, updates, p);
    DeletedRows(rows, live);
    RewriteKeepsPayload(rows, updates, live, p);
  }

  lemma RewriteKeepsPayload(rows: Rows, updates: Updates, live: seq<Inspected>, p: Payload)
    requires forall c :: c in live ==> Stays(rows, updates, c)
    requires WellKeyed(Deleted(rows, live), updates)
    ensures Pends(rows, updates, p) <==> Checksum(p) in Deleted(rows, live) || exists c :: c in live && ContentId(c) == Checksum(p)
  {
    hide Deleted, Stays;
    var left := Deleted(rows, live);
    DeletedRows(rows, live);
    if Pends(rows, updates, p) {
      var k :| k in rows && Resolved(updates, rows[k]) == Some(p);
      if k in left {
        assert WellKeyedRow(updates, k, left[k]);
      } else {
        var c :| c in live && c.key == k && k != ContentId(c);
        StaysIs(rows, updates, c);
      }
    }
    if Checksum(p) in left {
      assert WellKeyedRow(updates, Checksum(p), left[Checksum(p)]);
    }
    if c :| c in live && ContentId(c) == Checksum(p) {
      StaysIs(rows, updates, c);
    }
  }

  lemma StaysIs(rows: Rows, updates: Updates, c: Inspected)
    requires Stays(rows, updates, c)
    ensures c.key in rows && Resolved(updates, rows[c.key]) == Some(c.payload)
  {
  }

  lemma {:induction false} PutsRecord(rows: Rows, live: seq<Inspected>, k: Digest)
    requires k in Puts(rows, live) && k !in rows
    ensures exists c :: c in live && ContentId(c) == k && Puts(rows, live)[k] == c.record
  {
    if live != [] {
      var front, last := live[..|live| - 1], live[|live| - 1];
      if k in Puts(rows, front) {
        PutsRecord(rows, front, k);
        var c :| c in front && ContentId(c) == k && Puts(rows, front)[k] == c.record;
        assert c in live;
      } else {
        assert last in live;
      }
    }
  }

  lemma {:induction false} PutsKeepRows(rows: Rows, live: seq<Inspected>, k: Digest)
    requires k in rows
    ensures k in Puts(rows, live) && Puts(rows, live)[k] == rows[k]
  {
    if live != [] {
      PutsKeepRows(rows, live[..|live| - 1], k);
    }
  }

  /** The rewrite only moves entries: each one after it is an entry from before, base version,
      sequence and time included, and one that was content-addressed is not touched. */
  lemma RewriteOnlyMoves(rows: Rows, updates: Updates, inspected: seq<Inspected>, k: Digest)
    ensures k in Rewritten(rows, updates, inspected) ==>
              exists j :: j in rows && rows[j] == Rewritten(rows, updates, inspected)[k]
    ensures k in rows && WellKeyedRow(updates, k, rows[k]) ==>
              k in Rewritten(rows, updates, inspected) && Rewritten(rows, updates, inspected)[k] == rows[k]
  {
    hide LiveOf, Deleted, Puts, Stays, WellKeyedRow;
    var live := LiveOf(rows, updates, inspected);
    var left := Deleted(rows, live);
    DeletedRows(rows, live);
    if k in left {
      PutsKeepRows(left, live, k);
    } else if k in Puts(left, live) {
      PutsRecord(left, live, k);
      var c :| c in live && ContentId(c) == k && Puts(left, live)[k] == c.record;
      StaysAsInspected(rows, updates, c);
    }
    if k in rows && k !in left {
      var c :| c in live && c.key == k && k != ContentId(c);
      StaysResolves(rows, updates, c);
    }
  }

  lemma StaysAsInspected(rows: Rows, updates: Updates, c: Inspected)
    requires Stays(rows, updates, c)
    ensures c.key in rows && rows[c.key] == c.record
  {
  }

  /** Normalising a content-addressed outbox changes nothing. */
  lemma {:induction false} RewriteIsIdempotent(rows: Rows, updates: Updates, inspected: seq<Inspected>)
    requires WellKeyed(rows, updates)
    ensures Rewritten(rows, updates, inspected) == rows
  {
    hide LiveOf, Stays, WellKeyedRow;
    var live := LiveOf(rows, updates, inspected);
    forall c | c in live ensures c.key == ContentId(c) && c.key in rows {
      StaysResolves(rows, updates, c);
      StaysIs(rows, updates, c);
    }
    NothingToDo(rows, live);
  }

  lemma {:induction false} NothingToDo(rows: Rows, live: seq<Inspected>)
    requires forall c :: c in live ==> c.key == ContentId(c) && c.key in rows
    ensures Deleted(rows, live) == rows && Puts(rows, live) == rows
  {
    if live != [] {
      assert live[|live| - 1] in live;
      NothingToDo(rows, live[..|live| - 1]);
    }
  }

  /** With nothing in between, the inspection covers every entry. */
  lemma InspectionCovers(rows: Rows, updates: Updates, list: seq<Inspected>)
    requires InspectionOf(rows, updates, list)
    ensures MisKeyedInspected(rows, updates, list)
  {
    forall k | k in rows && !WellKeyedRow(updates, k, rows[k])
      ensures exists c :: c in list && c.key == k && Stays(rows, updates, c)
    {
      var c := InspectRow(updates, k, rows[k]);
      assert c in list && Stays(rows, updates, c);
    }
  }

  // ------------------------------------------------------------------ interleaved opens

  datatype Step =
    | Inspect(opener: nat, list: seq<Inspected>)
    | Rewrite(opener: nat)
    | Append(p: Payload, sequence: nat, record: OutboxRecord)
    | Acknowledged(ids: set<Digest>, updates: Updates)

  datatype State = State(rows: Rows, updates: Updates, lists: map<nat, seq<Inspected>>)

  /** Appends are content-addressed and take a sequence of their own or reuse the stored
      update; acks drop only updates no remaining entry references. */
  ghost predicate Enabled(s: State, step: Step) {
    match step
    case Inspect(_, list) => InspectionOf(s.rows, s.updates, list)
    case Rewrite(opener) => opener in s.lists
    case Append(p, sequence, record) =>
      && record.payload.None? && record.sequence == sequence
      && (sequence in s.updates ==> s.updates[sequence] == UpdateRecord(Checksum(p), p))
      && (forall k :: k in s.rows && s.rows[k].payload.None? && s.rows[k].sequence == sequence ==> sequence in s.updates)
    case Acknowledged(ids, updates) =>
      && (forall q :: q in updates ==> q in s.updates && updates[q] == s.updates[q])
      && (forall k :: k in s.rows && k !in ids && s.rows[k].payload.None? && s.rows[k].sequence in s.updates ==>
            s.rows[k].sequence in updates)
  }

  function Next(s: State, step: Step): State
    requires step.Rewrite? ==> step.opener in s.lists
  {
    match step
    case Inspect(opener, list) => s.(lists := s.lists[opener := list])
    case Rewrite(opener) => s.(rows := Rewritten(s.rows, s.updates, s.lists[opener]))
    case Append(p, sequence, record) =>
      s.(rows := s.rows[Checksum(p) := record], updates := s.updates[sequence := UpdateRecord(Checksum(p), p)])
    case Acknowledged(ids, updates) => s.(rows := s.rows - ids, updates := updates)
  }

  /** Every open that has inspected still knows every entry that needs rewriting. */
  ghost predicate Inv(s: State) {
    forall opener :: opener in s.lists ==> MisKeyedInspected(s.rows, s.updates, s.lists[opener])
  }

  /** A step that only drops entries or adds content-addressed ones. */
  ghost predicate Shrinks(s: State, t: State) {
    forall k :: k in t.rows && !WellKeyedRow(t.updates, k, t.rows[k]) ==>
      && k in s.rows && t.rows[k] == s.rows[k]
      && !WellKeyedRow(s.updates, k, s.rows[k])
      && (s.rows[k].payload.None? && s.rows[k].sequence in s.updates ==>
            s.rows[k].sequence in t.updates && t.updates[s.rows[k].sequence] == s.updates[s.rows[k].sequence])
  }

  lemma ShrinkKeepsInspected(s: State, t: State, list: seq<Inspected>)
    requires Shrinks(s, t) && MisKeyedInspected(s.rows, s.updates, list)
    ensures MisKeyedInspected(t.rows, t.updates, list)
  {
    forall k | k in t.rows && !WellKeyedRow(t.updates, k, t.rows[k])
      ensures exists c :: c in list && c.key == k && Stays(t.rows, t.updates, c)
    {
      var c :| c in list && c.key == k && Stays(s.rows, s.updates, c);
      assert Stays(t.rows, t.updates, c);
    }
  }

  lemma AppendShrinks(s: State, step: Step)
    requires step.Append? && Enabled(s, step)
    ensures Shrinks(s, Next(s, step))
    ensures WellKeyed(s.rows, s.updates) ==> WellKeyed(Next(s, step).rows, Next(s, step).updates)
  {
    var t := Next(s, step);
    assert WellKeyedRow(t.updates, Checksum(step.p), step.record);
    forall k | k in s.rows && k != Checksum(step.p) ensures Resolved(t.updates, s.rows[k]) == Resolved(s.updates, s.rows[k]) {
    }
  }

  lemma AckShrinks(s: State, step: Step)
    requires step.Acknowledged? && Enabled(s, step)
    ensures Shrinks(s, Next(s, step))
    ensures WellKeyed(s.rows, s.updates) ==> WellKeyed(Next(s, step).rows, Next(s, step).updates)
  {
    var t := Next(s, step);
    forall k | k in t.rows ensures Resolved(t.updates, s.rows[k]) == Resolved(s.updates, s.rows[k]) {
    }
  }

  lemma StepKeepsInv(s: State, step: Step)
    requires Inv(s) && Enabled(s, step)
    ensures Inv(Next(s, step))
    ensures step.Rewrite? || WellKeyed(s.rows, s.updates) ==> WellKeyed(Next(s, step).rows, Next(s, step).updates)
  {
    hide MisKeyedInspected, WellKeyed, Rewritten, Shrinks, InspectionOf;
    var t := Next(s, step);
    match step {
      case Inspect(_, list) => InspectionCovers(s.rows, s.updates, list);
      case Rewrite(opener) =>
        RewriteNormalizes(s.rows, s.updates, s.lists[opener], NOTHING);
        forall o | o in t.lists {
          NothingMisKeyed(t.rows, t.updates, t.lists[o]);
        }
      case Append(_, _, _) =>
        AppendShrinks(s, step);
        forall o | o in t.lists {
          ShrinkKeepsInspected(s, t, s.lists[o]);
        }
      case Acknowledged(_, _) =>
        AckShrinks(s, step);
        forall o | o in t.lists {
          ShrinkKeepsInspected(s, t, s.lists[o]);
        }
    }
  }

  const NOTHING := Payload({}, [])

  lemma NothingMisKeyed(rows: Rows, updates: Updates, list: seq<Inspected>)
    requires WellKeyed(rows, updates)
    ensures MisKeyedInspected(rows, updates, list)
  {
  }

  ghost predicate IsRun(states: seq<State>, steps: seq<Step>) {
    && |states| == |steps| + 1 && states[0].lists == map[]
    && forall i :: 0 <= i < |steps| ==> Enabled(states[i], steps[i]) && states[i + 1] == Next(states[i], steps[i])
  }

  lemma {:induction false} RunKeepsInv(states: seq<State>, steps: seq<Step>, n: nat)
    requires IsRun(states, steps) && n <= |steps|
    ensures Inv(states[n])
  {
    hide Enabled, Next;
    if n > 0 {
      RunKeepsInv(states, steps, n - 1);
      StepKeepsInv(states[n - 1], steps[n - 1]);
    }
  }

  /** Interleaved opens converge: after any one of them has rewritten, every entry is
      content-addressed, in that state and in every later one. */
  lemma {:induction false} InterleavedOpensConverge(states: seq<State>, steps: seq<Step>, rewrite: nat, n: nat)
    requires IsRun(states, steps) && rewrite < n <= |steps| && steps[rewrite].Rewrite?
    ensures WellKeyed(states[n].rows, states[n].updates)
  {
    hide Enabled, Next, Inv, WellKeyed;
    RunKeepsInv(states, steps, n - 1);
    if rewrite < n - 1 {
      InterleavedOpensConverge(states, steps, rewrite, n - 1);
    }
    StepKeepsInv(states[n - 1], steps[n - 1]);
  }

  // -------------------------------------------------- appends beside old entries

  /** An append puts its entry under its digest without looking at what is there.  It
      keeps every payload that was pending exactly when that key is free, already holds
      the same payload, or holds one that is pending under another key too. */
  lemma AppendKeepsPendingIff(s: State, step: Step)
    requires step.Append? && Enabled(s, step)
    ensures var t, d := Next(s, step), Checksum(step.p);
      (forall q :: Pends(s.rows, s.updates, q) ==> Pends(t.rows, t.updates, q)) <==>
      || d !in s.rows
      || Resolved(s.updates, s.rows[d]).None?
      || Resolved(s.updates, s.rows[d]) == Some(step.p)
      || exists k :: k in s.rows && k != d && Resolved(s.updates, s.rows[k]) == Resolved(s.updates, s.rows[d])
  {
    var t, d := Next(s, step), Checksum(step.p);
    forall k | k in s.rows && k != d ensures k in t.rows && Resolved(t.updates, t.rows[k]) == Resolved(s.updates, s.rows[k]) {
    }
    assert Resolved(t.updates, t.rows[d]) == Some(step.p);
    if d in s.rows && Resolved(s.updates, s.rows[d]).Some? {
      var lost := Resolved(s.updates, s.rows[d]).value;
      assert Pends(s.rows, s.updates, lost);
      if Pends(t.rows, t.updates, lost) && lost != step.p {
        var k :| k in t.rows && Resolved(t.updates, t.rows[k]) == Some(lost);
        assert k != d;
      }
    }
  }

  const OLD := Payload({Op(1, 0)}, [1])
  const EDIT := Payload({Op(1, 1)}, [2])

  /** An old entry for one edit sits under the digest of another; appending that other
      edit overwrites it, and the old edit is no longer pending. */
  lemma AppendDropsOldEntry()
    ensures var s := State(map[Checksum(EDIT) := OutboxRecord(0, 0, Some(OLD), 0)], map[], map[]);
            var step := Append(EDIT, 1, OutboxRecord(1, 0, None, 1));
            && Enabled(s, step) && Pends(s.rows, s.updates, OLD)
            && !Pends(Next(s, step).rows, Next(s, step).updates, OLD)
  {
    var s := State(map[Checksum(EDIT) := OutboxRecord(0, 0, Some(OLD), 0)], map[], map[]);
    assert Checksum(EDIT) in s.rows;
  }
}
