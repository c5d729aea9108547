/**
 The outgoing side of sync: which pending updates a frame carries, how they are
 re-exported as one update, and what an acknowledgement may remove.
 */
module Outbox {
  import opened Records

  const FRAME_UPDATE_BYTES: nat := 256 * 1024
  const FRAME_UPDATES: nat := 256

  function SumBytes(pending: seq<Payload>): nat {
    if pending == [] then 0 else SumBytes(pending[..|pending| - 1]) + |pending[|pending| - 1].bytes|
  }

  function UnionOps(pending: seq<Payload>): (ops: set<Op>)
    ensures forall op :: op in ops <==> exists i :: 0 <= i < |pending| && op in pending[i].ops
  {
    set i, op | 0 <= i < |pending| && op in pending[i].ops :: op
  }

  /** The bytes of a list of payloads are those of its parts. */
  lemma {:induction false} SumBytesAdds(a: seq<Payload>, b: seq<Payload>, p: Payload)
    ensures SumBytes(a + b) == SumBytes(a) + SumBytes(b)
    ensures SumBytes([p]) == |p.bytes|
    decreases |b|
  {
    assert SumBytes([p][..0]) == 0;
    if b == [] {
      assert a + b == a;
    } else {
      SumBytesAdds(a, b[..|b| - 1], p);
      assert (a + b)[..|a + b| - 1] == a + b[..|b| - 1];
    }
  }

  lemma {:induction false} SumBytesMonotone(pending: seq<Payload>, i: nat, j: nat)
    requires i <= j <= |pending|
    ensures SumBytes(pending[..i]) <= SumBytes(pending[..j])
    decreases j
  {
    if i < j {
      assert pending[..j][..j - 1] == pending[..j - 1];
      SumBytesMonotone(pending, i, j - 1);
    }
  }

  /** `n` records are the longest prefix within the limit, or the first alone. */
  ghost predicate LongestWithin(pending: seq<Payload>, n: nat) {
    && 1 <= n <= |pending|
    && (n > 1 ==> SumBytes(pending[..n]) <= FRAME_UPDATE_BYTES)
    && forall m :: n < m <= |pending| ==> SumBytes(pending[..m]) > FRAME_UPDATE_BYTES
  }

  lemma LongestIsUnique(pending: seq<Payload>, m: nat, n: nat)
    requires LongestWithin(pending, m) && LongestWithin(pending, n)
    ensures m == n
  {
  }

  /** The greedy prefix a frame carries: always at least the first record, and
      otherwise the longest prefix within the byte limit. */
  method SelectRecords(pending: seq<Payload>) returns (records: nat)
    requires pending != []
    ensures 1 <= records <= |pending|
    ensures records > 1 ==> SumBytes(pending[..records]) <= FRAME_UPDATE_BYTES
    ensures forall n :: records < n <= |pending| ==> SumBytes(pending[..n]) > FRAME_UPDATE_BYTES
  {
    var bytes := |pending[0].bytes|;
    records := 1;
    assert pending[..1][..0] == [];
    while records < |pending|
      invariant 1 <= records <= |pending|
      invariant bytes == SumBytes(pending[..records])
      invariant records > 1 ==> bytes <= FRAME_UPDATE_BYTES
    {
      assert pending[..records + 1][..records] == pending[..records];
      bytes := bytes + |pending[records].bytes|;
      if bytes > FRAME_UPDATE_BYTES {
        break;
      }
      records := records + 1;
    }
    forall n | records < n <= |pending| ensures SumBytes(pending[..n]) > FRAME_UPDATE_BYTES {
      SumBytesMonotone(pending, records + 1, n);
    }
  }

  // ------------------------------------------------------------ merge_updates

  type VersionVector = map<nat, nat>

  function Seen(vv: VersionVector, peer: nat): nat {
    if peer in vv then vv[peer] else 0
  }

  /** The version range an encoded update declares. */
  datatype UpdateMeta = UpdateMeta(start: VersionVector, end: VersionVector)

  datatype Span = Span(peer: nat, start: nat, end: nat)

  function SpanOps(span: Span): (ops: set<Op>)
    ensures forall op :: op in ops <==> op.peer == span.peer && span.start <= op.counter < span.end
  {
    set c | span.start <= c < span.end :: Op(span.peer, c)
  }

  predicate InMeta(meta: UpdateMeta, op: Op) {
    op.peer in meta.end && Seen(meta.start, op.peer) <= op.counter < meta.end[op.peer]
  }

  /** What this replica can still export: held, and not trimmed by a shallow snapshot. */
  predicate Exportable(held: VersionVector, trimmed: VersionVector, op: Op) {
    Seen(trimmed, op.peer) <= op.counter < Seen(held, op.peer)
  }

  ghost predicate Spanned(spans: seq<Span>, op: Op) {
    exists i :: 0 <= i < |spans| && op in SpanOps(spans[i])
  }

  lemma SpannedAppend(spans: seq<Span>, more: seq<Span>, op: Op)
    ensures Spanned(spans + more, op) <==> Spanned(spans, op) || Spanned(more, op)
  {
    var all := spans + more;
    if Spanned(spans, op) {
      var i :| 0 <= i < |spans| && op in SpanOps(spans[i]);
      assert op in SpanOps(all[i]);
    }
    if Spanned(more, op) {
      var i :| 0 <= i < |more| && op in SpanOps(more[i]);
      assert op in SpanOps(all[|spans| + i]);
    }
  }

  /** `ExportMode::updates_in_range` silently leaves out what the oplog lacks. */
  ghost predicate Exported(held: VersionVector, trimmed: VersionVector, spans: seq<Span>, op: Op) {
    Exportable(held, trimmed, op) && Spanned(spans, op)
  }

  /** The spans of one update, or None if part of one is no longer held. */
  method CollectSpans(held: VersionVector, trimmed: VersionVector, meta: UpdateMeta)
    returns (r: Option<seq<Span>>)
    ensures r.Some? ==> forall op :: InMeta(meta, op) ==> Exportable(held, trimmed, op)
    ensures r.Some? ==> forall op :: InMeta(meta, op) <==> Spanned(r.value, op)
    ensures r.None? ==> exists op :: InMeta(meta, op) && !Exportable(held, trimmed, op)
  {
    var todo := meta.end.Keys;
    var spans: seq<Span> := [];
    while todo != {}
      invariant todo <= meta.end.Keys
      invariant forall op :: InMeta(meta, op) && op.peer !in todo ==> Exportable(held, trimmed, op)
      invariant forall op :: Spanned(spans, op) <==> InMeta(meta, op) && op.peer !in todo
      decreases todo
    {
      var peer := Greatest(todo);
      var start, end := Seen(meta.start, peer), meta.end[peer];
      todo := todo - {peer};
      if start < end {
        if Seen(held, peer) < end || Seen(trimmed, peer) > start {
          ghost var missing := if Seen(held, peer) < end then Op(peer, end - 1) else Op(peer, start);
          assert InMeta(meta, missing) && !Exportable(held, trimmed, missing);
          return None;
        }
        forall op
          ensures Spanned(spans + [Span(peer, start, end)], op) <==> Spanned(spans, op) || op in SpanOps(Span(peer, start, end))
        {
          SpannedAppend(spans, [Span(peer, start, end)], op);
          OneSpan(Span(peer, start, end), op);
        }
        spans := spans + [Span(peer, start, end)];
      }
    }
    return Some(spans);
  }

  lemma OneSpan(span: Span, op: Op)
    ensures Spanned([span], op) <==> op in SpanOps(span)
  {
    assert op in SpanOps(span) ==> op in SpanOps([span][0]);
  }

  /** Re-exports several updates as one.  It succeeds exactly when every operation
      of every update is still exportable, and then exports exactly those. */
  method MergeUpdates(held: VersionVector, trimmed: VersionVector, updates: seq<UpdateMeta>)
    returns (r: Option<seq<Span>>)
    ensures r.Some? <==> forall i, op :: 0 <= i < |updates| && InMeta(updates[i], op) ==> Exportable(held, trimmed, op)
    ensures r.Some? ==>
              forall op :: Exported(held, trimmed, r.value, op) <==> exists i :: 0 <= i < |updates| && InMeta(updates[i], op)
  {
    var spans: seq<Span> := [];
    for n := 0 to |updates|
      invariant forall i, op :: 0 <= i < n && InMeta(updates[i], op) ==> Exportable(held, trimmed, op)
      invariant forall op :: Spanned(spans, op) <==> exists i :: 0 <= i < n && InMeta(updates[i], op)
    {
      var collected := CollectSpans(held, trimmed, updates[n]);
      if collected.None? {
        return None;
      }
      forall op {
        SpannedAppend(spans, collected.value, op);
      }
      spans := spans + collected.value;
    }
    return Some(spans);
  }

  // -------------------------------------------------------------------- frames

  /** The frame in flight: the digest of the bytes sent and the entries its Ack retires. */
  datatype Frame = Frame(messageId: Digest, covers: seq<Digest>)

  /** Whoever acknowledges these bytes has every operation of every covered entry. */
  ghost predicate Honest(f: Frame) {
    forall i :: 0 <= i < |f.covers| ==> f.covers[i].payload.ops <= f.messageId.payload.ops
  }

  function Digests(pending: seq<Payload>): (ids: seq<Digest>)
    ensures |ids| == |pending|
    ensures forall i :: 0 <= i < |ids| ==> ids[i] == Checksum(pending[i])
  {
    seq(|pending|, i requires 0 <= i < |pending| => Checksum(pending[i]))
  }

  /** What `syncNextFrame` sends: the merged prefix when it could be re-exported, and
      otherwise the first record alone. */
  function FrameOf(pending: seq<Payload>, records: nat, merged: Option<Payload>): Frame
    requires 1 <= records <= |pending|
  {
    if merged.Some? then Frame(Checksum(merged.value), Digests(pending[..records]))
    else Frame(Checksum(pending[0]), [Checksum(pending[0])])
  }

  /** `decode_import_blob_meta` describes exactly the operations in the bytes. */
  ghost predicate Describes(meta: UpdateMeta, p: Payload) {
    forall op :: op in p.ops <==> InMeta(meta, op)
  }

  function ExportedOps(held: VersionVector, trimmed: VersionVector, spans: seq<Span>): (ops: set<Op>)
    ensures forall op :: op in ops <==> Exported(held, trimmed, spans, op)
  {
    set i, op | 0 <= i < |spans| && op in SpanOps(spans[i]) && Exportable(held, trimmed, op) :: op
  }

  /** Every operation of these updates can still be exported. */
  ghost predicate AllExportable(held: VersionVector, trimmed: VersionVector, metas: seq<UpdateMeta>) {
    forall i, op :: 0 <= i < |metas| && InMeta(metas[i], op) ==> Exportable(held, trimmed, op)
  }

  /** A frame carries a non-empty prefix of the outbox, within the byte limit unless
      it is one record, and its bytes hold exactly the operations it covers. */
  method NextFrame(
    pending: seq<Payload>, metas: seq<UpdateMeta>, held: VersionVector, trimmed: VersionVector, encoding: seq<Byte>)
    returns (frame: Frame, update: Payload)
    requires pending != [] && |metas| == |pending|
    requires forall i :: 0 <= i < |pending| ==> Describes(metas[i], pending[i])
    ensures frame.messageId == Checksum(update)
    ensures 1 <= |frame.covers| <= |pending| && frame.covers == Digests(pending[..|frame.covers|])
    ensures |frame.covers| > 1 ==> SumBytes(pending[..|frame.covers|]) <= FRAME_UPDATE_BYTES
    ensures update.ops == UnionOps(pending[..|frame.covers|])
    ensures forall n: nat :: LongestWithin(pending, n) ==>
              |frame.covers| == if AllExportable(held, trimmed, metas[..n]) then n else 1
    ensures |frame.covers| == 1 ==> update == pending[0]
    ensures Honest(frame)
  {
    var records := SelectRecords(pending);
    assert LongestWithin(pending, records);
    forall n: nat | LongestWithin(pending, n) ensures n == records {
      LongestIsUnique(pending, n, records);
    }
    var carried := pending[..records];
    var merged: Option<Payload> := None;
    if records > 1 {
      var spans := MergeUpdates(held, trimmed, metas[..records]);
      if spans.Some? {
        merged := Some(Payload(ExportedOps(held, trimmed, spans.value), encoding));
        MergedIsUnion(carried, metas[..records], merged.value.ops);
      }
    }
    frame := FrameOf(pending, records, merged);
    update := if merged.Some? then merged.value else pending[0];
    assert pending[..1] == [pending[0]];
    CoveredIsHonest(pending, frame, update);
  }

  lemma MergedIsUnion(carried: seq<Payload>, metas: seq<UpdateMeta>, ops: set<Op>)
    requires |metas| == |carried|
    requires forall i :: 0 <= i < |carried| ==> Describes(metas[i], carried[i])
    requires forall op :: op in ops <==> exists i :: 0 <= i < |metas| && InMeta(metas[i], op)
    ensures ops == UnionOps(carried)
  {
    forall op ensures op in ops <==> op in UnionOps(carried) {
      if op in ops {
        var i :| 0 <= i < |metas| && InMeta(metas[i], op);
        assert op in carried[i].ops;
      }
      if op in UnionOps(carried) {
        var i :| 0 <= i < |carried| && op in carried[i].ops;
        assert InMeta(metas[i], op);
      }
    }
  }

  lemma CoveredIsHonest(pending: seq<Payload>, frame: Frame, update: Payload)
    requires |frame.covers| <= |pending| && frame.covers == Digests(pending[..|frame.covers|])
    requires frame.messageId == Checksum(update) && update.ops == UnionOps(pending[..|frame.covers|])
    ensures Honest(frame)
  {
    var carried := pending[..|frame.covers|];
    forall i | 0 <= i < |frame.covers| ensures frame.covers[i].payload.ops <= frame.messageId.payload.ops {
      assert frame.covers[i] == Checksum(carried[i]);
    }
  }
}
