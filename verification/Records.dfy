/**
 The records of one graph's partition in the browser database, and the small
 vocabulary every other module shares.

 A payload is the bytes of a Loro update or snapshot together with the
 operations those bytes decode to.  SHA-256 is taken to be injective, so a
 digest is simply a constructor around the payload it was computed from.
 */
module Records {

  datatype Option<+T> = None | Some(value: T)

  datatype Result<+T, +E> = Ok(value: T) | Err(error: E)

  /** One CRDT operation: the replica that made it and that replica's counter. */
  datatype Op = Op(peer: nat, counter: nat)

  type Byte = b: int | 0 <= b < 256

  datatype Payload = Payload(ops: set<Op>, bytes: seq<Byte>)

  datatype Digest = Sha256(payload: Payload)

  function Checksum(p: Payload): Digest {
    Sha256(p)
  }

  datatype UpdateRecord = UpdateRecord(checksum: Digest, payload: Payload)

  datatype CheckpointRecord = CheckpointRecord(schema: nat, checksum: Digest, payload: Payload)

  /** A pending message.  Current entries reference a stored update by sequence;
      only entries written before that scheme carry their own payload. */
  datatype OutboxRecord = OutboxRecord(sequence: nat, base: nat, payload: Option<Payload>, createdAt: nat)

  datatype Handle = UpdateHandle(sequence: nat) | CheckpointHandle(sequence: nat)

  datatype Reason =
    | UnsupportedSchema
    | ChecksumMismatch
    | InvalidRecord
    | AfterCorruptTail

  datatype QuarantineRecord = QuarantineRecord(checksum: Digest, payload: Payload, reason: Reason)

  datatype Metadata = Metadata(
    epoch: nat,
    schema: nat,
    nextSequence: nat,
    compactedThrough: nat,
    checkpointBytes: nat,
    tailBytes: nat,
    tailCount: nat)

  predicate IsGreatest(s: set<nat>, m: nat) {
    m in s && forall x :: x in s ==> x <= m
  }

  /** The greatest element of a non-empty set. */
  function Greatest(s: set<nat>): (m: nat)
    requires s != {}
    ensures IsGreatest(s, m)
  {
    GreatestExists(s);
    var m :| IsGreatest(s, m);
    m
  }

  lemma {:induction false} GreatestExists(s: set<nat>)
    requires s != {}
    ensures exists m :: IsGreatest(s, m)
  {
    var a :| a in s;
    var rest := s - {a};
    if rest == {} {
      assert s == {a};
      assert IsGreatest(s, a);
    } else {
      GreatestExists(rest);
      var b :| IsGreatest(rest, b);
      ExtendGreatest(s, a, b);
    }
  }

  lemma ExtendGreatest(s: set<nat>, a: nat, b: nat)
    requires a in s && IsGreatest(s - {a}, b)
    ensures IsGreatest(s, if a <= b then b else a)
  {
    forall x | x in s ensures x <= if a <= b then b else a {
      if x != a {
        assert x in s - {a};
      }
    }
  }

  /** The keys of a store in order: the order an IndexedDB key range is read in. */
  function Ascending(s: set<nat>): (r: seq<nat>)
    ensures |r| == |s|
    ensures forall x :: x in r <==> x in s
    ensures forall i, j :: 0 <= i < j < |r| ==> r[i] < r[j]
  {
    if s == {} then [] else
      var m := Greatest(s);
      var rest := Ascending(s - {m});
      AppendGreatest(s, m, rest);
      rest + [m]
  }

  lemma AppendGreatest(s: set<nat>, m: nat, rest: seq<nat>)
    requires IsGreatest(s, m)
    requires |rest| == |s - {m}| && forall x :: x in rest <==> x in s - {m}
    requires forall i, j :: 0 <= i < j < |rest| ==> rest[i] < rest[j]
    ensures |rest + [m]| == |s| && forall x :: x in rest + [m] <==> x in s
    ensures forall i, j :: 0 <= i < j < |rest + [m]| ==> (rest + [m])[i] < (rest + [m])[j]
  {
    assert s == (s - {m}) + {m};
    forall i | 0 <= i < |rest| ensures rest[i] < m {
      assert rest[i] in rest;
    }
    forall x ensures x in rest + [m] <==> x in s {
      assert x in rest + [m] <==> x in rest || x == m;
    }
  }

  /** The keys of a store, newest first: the order `checkpointsDescending` sorts into. */
  function Descending(s: set<nat>): (r: seq<nat>)
    ensures |r| == |s|
    ensures forall x :: x in r <==> x in s
    ensures forall i, j :: 0 <= i < j < |r| ==> r[i] > r[j]
  {
    var up := Ascending(s);
    var down := Reversed(up);
    ReversedMembers(up, down);
    down
  }

  function Reversed(up: seq<nat>): (down: seq<nat>)
    ensures |down| == |up| && forall i :: 0 <= i < |up| ==> down[i] == up[|up| - 1 - i]
  {
    seq(|up|, i requires 0 <= i < |up| => up[|up| - 1 - i])
  }

  lemma ReversedMembers(up: seq<nat>, down: seq<nat>)
    requires |up| == |down| && forall i :: 0 <= i < |up| ==> down[i] == up[|up| - 1 - i]
    ensures forall x :: x in up <==> x in down
  {
    forall x | x in up ensures x in down {
      var i :| 0 <= i < |up| && up[i] == x;
      assert down[|up| - 1 - i] == x;
    }
  }

  /** The least of `start` and every element of `s`. */
  function Least(start: nat, s: set<nat>): (m: nat)
    ensures m <= start && (m == start || m in s)
    ensures forall x :: x in s ==> m <= x
  {
    if s == {} then start else
      var g := Greatest(s);
      var m := Least(start, s - {g});
      assert forall x :: x in s ==> x == g || x in s - {g};
      if g < m then g else m
  }

  ghost function PickKey(s: set<nat>): (k: nat)
    requires s != {}
    ensures k in s
  {
    var k :| k in s; k
  }

  /** The bytes held by a store of payloads. */
  ghost function TotalBytes(m: map<nat, Payload>): nat
    decreases m.Keys
  {
    if m.Keys == {} then 0 else
      var k := PickKey(m.Keys);
      |m[k].bytes| + TotalBytes(m - {k})
  }

  /** Any key may be taken out first. */
  lemma {:induction false} TotalBytesWithout(m: map<nat, Payload>, k: nat)
    requires k in m
    ensures TotalBytes(m) == |m[k].bytes| + TotalBytes(m - {k})
    decreases m.Keys
  {
    var j := PickKey(m.Keys);
    if j != k {
      TotalBytesWithout(m - {j}, k);
      TotalBytesWithout(m - {k}, j);
      assert m - {j} - {k} == m - {k} - {j};
    }
  }

  lemma TotalBytesPut(m: map<nat, Payload>, k: nat, p: Payload)
    requires k !in m
    ensures TotalBytes(m[k := p]) == TotalBytes(m) + |p.bytes|
  {
    TotalBytesWithout(m[k := p], k);
    assert m[k := p] - {k} == m;
  }
}
