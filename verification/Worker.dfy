/**
 The worker's open state: one tab's core, the update it has not saved, its frame in
 flight and its event ring, over the repository it shares with other tabs.  Every method
 is proved to take the steps of `DurableLog` and no others.
 */
module Worker {
  import opened Records
  import opened Storage
  import opened Repository
  import D = DurableLog
  import EventRing
  import Outbox

  const COMPACT_TAIL_UPDATES := 128
  const COMPACT_TAIL_BYTES := 512 * 1024
  const EVENT_CAPACITY := 64

  datatype Kind = Semantic | RemoteImported | SavedLocally(sequence: nat)

  type Published = EventRing.Sourced<Kind>

  datatype Refusal = DirtyUnsaved | ResyncRequired | Failed(error: StorageError)

  /** The bytes of the updates above the published frontier. */
  function SumOf(s: Store, keys: seq<nat>): nat
    requires forall i :: 0 <= i < |keys| ==> keys[i] in s.updates
  {
    if keys == [] then 0 else SumOf(s, keys[..|keys| - 1]) + |s.updates[keys[|keys| - 1]].payload.bytes|
  }

  method UncompactedBytes(s: Store, keys: seq<nat>) returns (total: nat)
    requires forall i :: 0 <= i < |keys| ==> keys[i] in s.updates
    ensures total == SumOf(s, keys)
  {
    total := 0;
    for i := 0 to |keys|
      invariant total == SumOf(s, keys[..i])
    {
      assert keys[..i + 1][..i] == keys[..i];
      total := total + |s.updates[keys[i]].payload.bytes|;
    }
    assert keys[..|keys|] == keys;
  }

  function Uncompacted(s: Store): (keys: seq<nat>)
    requires s.metadata.Some?
    ensures forall i :: 0 <= i < |keys| ==> keys[i] in s.updates
  {
    var keys := UpdatesAfter(s, s.metadata.value.compactedThrough);
    assert forall i :: 0 <= i < |keys| ==> keys[i] in keys;
    keys
  }

  /** When maintenance installs a checkpoint. */
  predicate Compacts(s: Store, tab: D.Tab, force: bool) {
    && tab.pending.None? && s.metadata.Some?
    && (force || |Uncompacted(s)| >= COMPACT_TAIL_UPDATES || SumOf(s, Uncompacted(s)) >= COMPACT_TAIL_BYTES)
    && tab.appliedThrough > s.metadata.value.compactedThrough
  }

  /** The protocol after maintenance. */
  ghost function Maintained(sys: D.System, t: nat, force: bool, encode: set<Op> -> seq<Byte>, schema: nat): D.System
    requires t in sys.tabs
  {
    var core := sys.tabs[t].core;
    if Compacts(sys.store, sys.tabs[t], force) then D.Apply(sys, D.Compact(t, Payload(core, encode(core)), schema)) else sys
  }

  /** The sequence the append transaction answers. */
  ghost predicate Receipt(s: Store, p: Payload, queue: Option<nat>, now: nat, sequence: nat) {
    var r := Storage.AppendUpdate(s, p, queue, now);
    r.Ok? && r.value.sequence == sequence
  }

  class OpenState {
    const repository: GraphRepository
    const encode: set<Op> -> seq<Byte>
    var core: set<Op>
    var appliedThrough: nat
    var pending: Option<Payload>
    var remote: bool
    var frame: Option<Outbox.Frame>
    var events: seq<EventRing.Event<Published>>
    var nextCursor: nat

    constructor (repository: GraphRepository, encode: set<Op> -> seq<Byte>, core: set<Op>, appliedThrough: nat)
      ensures this.repository == repository && this.encode == encode
      ensures forall generation :: View(generation) == D.Tab(generation, core, appliedThrough, None, false, None)
      ensures Ring() == EventRing.Start(EVENT_CAPACITY)
    {
      this.repository, this.encode, this.core, this.appliedThrough := repository, encode, core, appliedThrough;
      pending, remote, frame, events, nextCursor := None, false, None, [], 1;
    }

    ghost function View(generation: nat): D.Tab
      reads this
    {
      D.Tab(generation, core, appliedThrough, pending, remote, frame)
    }

    function Ring(): EventRing.Ring<Published>
      reads this
    {
      EventRing.Ring(events, EVENT_CAPACITY, nextCursor)
    }

    /** This worker and its repository are tab `t` and the stores of `sys`. */
    ghost predicate Shows(sys: D.System, t: nat)
      reads this, repository
    {
      sys.store == repository.View() && t in sys.tabs && sys.tabs[t] == View(sys.tabs[t].generation)
    }

    method Push(kind: Published)
      modifies this`events, this`nextCursor
      ensures Ring() == EventRing.Push(old(Ring()), kind)
    {
      events := events + [EventRing.Event(nextCursor, kind)];
      nextCursor := nextCursor + 1;
      events := EventRing.Trim(events, EVENT_CAPACITY);
    }

    /** Maintenance with the metadata read just before: the checkpoint is the whole core. */
    method MaybeCompact(force: bool, schema: nat, ghost sys: D.System, ghost t: nat) returns (ghost after: D.System)
      requires repository.Valid() && Shows(sys, t)
      modifies repository
      ensures repository.Valid() && after == Maintained(sys, t, force, encode, schema) && Shows(after, t)
    {
      hide Storage.InstallCheckpoint, ChecksumsUnique, UpdatesAfter;
      after := sys;
      var s := repository.View();
      if pending.Some? || s.metadata.None? {
        return;
      }
      var keys := Uncompacted(s);
      var bytes := UncompactedBytes(s, keys);
      if !force && |keys| < COMPACT_TAIL_UPDATES && bytes < COMPACT_TAIL_BYTES {
        return;
      }
      if appliedThrough <= s.metadata.value.compactedThrough {
        return;
      }
      var checkpoint := Payload(core, encode(core));
      var _ := repository.InstallCheckpoint(checkpoint, appliedThrough, schema);
      after := D.Apply(sys, D.Compact(t, checkpoint, schema));
    }

    /** Saving the pending update: the append commits, or nothing changes and it stays pending. */
    method PersistPending(now: nat, schema: nat, ghost sys: D.System, ghost t: nat)
      returns (r: Result<nat, Refusal>, ghost after: D.System)
      requires repository.Valid() && Shows(sys, t) && pending.Some? && sys.holder == Some(t)
      modifies this, repository
      ensures repository.Valid() && Shows(after, t)
      ensures r.Ok? ==> pending.None? && appliedThrough >= r.value && core == old(core)
      ensures r.Ok? ==>
        after == Maintained(D.Apply(sys, D.Persist(t, now, false)), t, false, encode, schema)
      ensures r.Ok? ==> Ring() == EventRing.Push(EventRing.Push(old(Ring()), EventRing.Local(Semantic)), EventRing.Local(SavedLocally(r.value)))
      ensures r.Ok? ==> Receipt(sys.store, old(pending).value, if remote then Some(0) else None, now, r.value)
      ensures r.Err? ==> after == sys && pending == old(pending) && core == old(core) && Ring() == old(Ring())
      ensures remote == old(remote)
    {
      hide Storage.AppendUpdate, ChecksumsUnique, EventRing.Push, Compacts, Storage.InstallCheckpoint;
      var appended := repository.AppendUpdate(pending.value, if remote then Some(0) else None, now);
      if appended.Err? {
        return Err(Failed(appended.error)), sys;
      }
      Push(EventRing.Local(Semantic));
      Push(EventRing.Local(SavedLocally(appended.value)));
      pending := None;
      appliedThrough := if appliedThrough < appended.value then appended.value else appliedThrough;
      after := D.Apply(sys, D.Persist(t, now, false));
      assert Shows(after, t);
      after := MaybeCompact(false, schema, after, t);
      return Ok(appended.value), after;
    }

    /** From here on saved edits are queued for the server. */
    method ConfigureSync(ghost sys: D.System, ghost t: nat) returns (ghost after: D.System)
      requires Shows(sys, t)
      modifies this`remote
      ensures remote && after == D.Apply(sys, D.ConfigureSync(t)) && Shows(after, t)
    {
      remote := true;
      after := D.Apply(sys, D.ConfigureSync(t));
    }

    /** One command: refused while an update is pending, and otherwise the core's update
        is pending before it is saved. */
    method Execute(update: Payload, now: nat, schema: nat, ghost sys: D.System, ghost t: nat)
      returns (r: Result<Option<nat>, Refusal>, ghost after: D.System)
      requires repository.Valid() && Shows(sys, t) && sys.holder == Some(t)
      requires update.bytes == [] ==> update.ops <= core
      modifies this, repository
      ensures repository.Valid() && Shows(after, t)
      ensures old(pending).Some? ==> r == Err(DirtyUnsaved) && after == sys && Ring() == old(Ring())
      ensures old(pending).None? && update.bytes == [] ==> r == Ok(None) && after == sys && Ring() == old(Ring())
      ensures old(pending).None? && update.bytes != [] ==>
        var staged := D.Apply(sys, D.Execute(t, update));
        && core == old(core) + update.ops
        && (r.Err? ==> after == staged && pending == Some(update))
        && (r.Ok? ==> pending.None? && r.value.Some?)
        && (r.Ok? ==> Receipt(sys.store, update, if remote then Some(0) else None, now, r.value.value))
        && (r.Ok? ==>
              Ring() == EventRing.Push(EventRing.Push(old(Ring()), EventRing.Local(Semantic)), EventRing.Local(SavedLocally(r.value.value))))
        && (r.Err? ==> Ring() == old(Ring()))
        && (r.Ok? ==> after == Maintained(D.Apply(staged, D.Persist(t, now, false)), t, false, encode, schema))
    {
      hide Storage.AppendUpdate, ChecksumsUnique, EventRing.Push, Compacts, Maintained;
      if pending.Some? {
        return Err(DirtyUnsaved), sys;
      }
      if update.bytes == [] {
        return Ok(None), sys;
      }
      core := core + update.ops;
      pending := Some(update);
      after := D.Apply(sys, D.Execute(t, update));
      assert Shows(after, t);
      var saved;
      saved, after := PersistPending(now, schema, after, t);
      return if saved.Ok? then Ok(Some(saved.value)) else Err(saved.error), after;
    }

    method SyncImport(update: Payload, now: nat, schema: nat, ghost sys: D.System, ghost t: nat)
      returns (r: Result<nat, Refusal>, ghost after: D.System)
      requires repository.Valid() && Shows(sys, t) && sys.holder == Some(t)
      modifies this, repository
      ensures repository.Valid() && Shows(after, t)
      ensures old(pending).Some? ==> r == Err(DirtyUnsaved)
      ensures r.Err? ==> after == sys && core == old(core) && Ring() == old(Ring())
      ensures r.Ok? ==> Receipt(sys.store, update, None, now, r.value)
      ensures r.Ok? ==>
        Ring() == EventRing.Push(EventRing.Push(old(Ring()), EventRing.Remote(RemoteImported)), EventRing.Remote(SavedLocally(r.value)))
      ensures r.Ok? ==>
        && old(pending).None? && core == old(core) + update.ops
        && after == Maintained(D.Apply(sys, D.Import(t, update, now)), t, false, encode, schema)
    {
      hide Storage.AppendUpdate, ChecksumsUnique, EventRing.Push, Compacts, Storage.InstallCheckpoint;
      if pending.Some? {
        return Err(DirtyUnsaved), sys;
      }
      var appended := repository.AppendUpdate(update, None, now);
      if appended.Err? {
        return Err(Failed(appended.error)), sys;
      }
      core := core + update.ops;
      appliedThrough := if appliedThrough < appended.value then appended.value else appliedThrough;
      after := D.Apply(sys, D.Import(t, update, now));
      assert Shows(after, t);
      Push(EventRing.Remote(RemoteImported));
      Push(EventRing.Remote(SavedLocally(appended.value)));
      after := MaybeCompact(false, schema, after, t);
      return Ok(appended.value), after;
    }

    /** The next frame: the oldest pending updates, merged when they can be re-exported.
        An entry whose update is gone makes the outbox unreadable. */
    method SyncNextFrame(
      describe: Payload -> Outbox.UpdateMeta, held: Outbox.VersionVector, trimmed: Outbox.VersionVector, encoding: seq<Byte>,
      ghost sys: D.System, ghost t: nat)
      returns (r: Result<Option<Payload>, Refusal>, ghost after: D.System)
      requires repository.Valid() && Shows(sys, t)
      requires forall q :: q in repository.updates ==>
        Outbox.Describes(describe(repository.updates[q].payload), repository.updates[q].payload)
      modifies this`frame
      ensures Shows(after, t)
      ensures r.Err? <==> !(Pinned(repository.outbox) <= repository.updates.Keys)
      ensures r.Ok? ==> (r.value.None? <==> D.PendingPayloads(repository.View()) == [])
      ensures r.Err? || r.value.None? ==> after == sys
      ensures r.Ok? && r.value.Some? ==>
        && frame.Some? && frame.value.messageId == Checksum(r.value.value) && Outbox.Honest(frame.value)
        && D.Enabled(sys, D.NextFrame(t, |frame.value.covers|, r.value))
        && after == D.Apply(sys, D.NextFrame(t, |frame.value.covers|, r.value))
      ensures r.Ok? && r.value.Some? ==>
        var read := FirstRead(D.PendingPayloads(repository.View()));
        forall n: nat :: Outbox.LongestWithin(read, n) ==>
          |frame.value.covers| == if Outbox.AllExportable(held, trimmed, Described(describe, read[..n])) then n else 1
    {
      hide Outbox.AllExportable;
      hide Outbox.Describes, Outbox.Honest, Pinned, D.PendingPayloads, D.Apply, D.Enabled, Outbox.Digests, Outbox.UnionOps, Outbox.SumBytes;
      if !(Pinned(repository.outbox) <= repository.updates.Keys) {
        return Err(Failed(OutboxUpdateMissing)), sys;
      }
      var all := D.PendingPayloads(repository.View());
      var pendingNow := FirstRead(all);
      if pendingNow == [] {
        return Ok(None), sys;
      }
      PendingAreStored(repository.View());
      var metas := Described(describe, pendingNow);
      DescribedPrefix(describe, pendingNow);
      var next, update := Outbox.NextFrame(pendingNow, metas, held, trimmed, encoding);
      frame := Some(next);
      assert pendingNow[..|next.covers|] == all[..|next.covers|];
      FrameIsTheStep(sys, t, |next.covers|, update, next);
      after := D.Apply(sys, D.NextFrame(t, |next.covers|, Some(update)));
      return Ok(Some(update)), after;
    }

    /** An Ack retires what the frame in flight covers; any other Ack names one entry. */
    method SyncAck(messageId: Digest, ghost sys: D.System, ghost t: nat) returns (ghost after: D.System)
      requires repository.Valid() && Shows(sys, t)
      modifies this`frame, repository
      ensures repository.Valid() && after == D.Apply(sys, D.Ack(t, messageId)) && Shows(after, t)
    {
      hide Storage.Acknowledge, ChecksumsUnique;
      var matches := frame.Some? && frame.value.messageId == messageId;
      repository.Acknowledge(if matches then frame.value.covers else [messageId]);
      if matches {
        frame := None;
      }
      after := D.Apply(sys, D.Ack(t, messageId));
    }

    /** Only a replica that was never based on a server and has nothing to send adopts its history. */
    method SyncReplace(checkpoint: Payload, epoch: nat, base: nat, schema: nat, now: nat, ghost sys: D.System, ghost t: nat)
      returns (refused: Option<Refusal>, ghost after: D.System)
      requires repository.Valid() && Shows(sys, t) && sys.holder == Some(t) && sys.tabs[t].generation == sys.generation
      modifies this, repository
      ensures repository.Valid() && Shows(after, t)
      ensures refused.Some? ==> after == sys && core == old(core) && Ring() == old(Ring())
      ensures refused.None? ==> Ring() == EventRing.Push(old(Ring()), EventRing.Remote(RemoteImported))
      ensures refused.None? <==>
        old(pending).None? && !sys.store.serverBase && sys.store.outbox.Keys == {} && sys.store.metadata.Some?
      ensures refused.None? ==> core == checkpoint.ops && after == D.Apply(sys, D.Replace(t, checkpoint, epoch, base, schema, now))
    {
      hide Storage.ReplaceHistory, ChecksumsUnique, EventRing.Push;
      if pending.Some? {
        return Some(DirtyUnsaved), sys;
      }
      if repository.serverBase || repository.outbox.Keys != {} {
        return Some(ResyncRequired), sys;
      }
      var replaced := repository.ReplaceHistory(checkpoint, epoch, base, D.NO_TAIL, schema, now);
      if replaced.Err? {
        ReplaceFailsOnlyUnopened(sys.store, checkpoint, epoch, base, schema, now);
        return Some(Failed(replaced.error)), sys;
      }
      ReplaceFailsOnlyUnopened(sys.store, checkpoint, epoch, base, schema, now);
      appliedThrough := replaced.value;
      core := checkpoint.ops;
      Push(EventRing.Remote(RemoteImported));
      after := D.Apply(sys, D.Replace(t, checkpoint, epoch, base, schema, now));
      return None, after;
    }
  }

  /** The limited read of the outbox. */
  function FirstRead(all: seq<Payload>): (read: seq<Payload>)
    ensures |read| <= Outbox.FRAME_UPDATES && read <= all
    ensures |all| <= Outbox.FRAME_UPDATES || |read| == Outbox.FRAME_UPDATES
    ensures |all| <= Outbox.FRAME_UPDATES ==> read == all
  {
    if |all| > Outbox.FRAME_UPDATES then all[..Outbox.FRAME_UPDATES] else all
  }

  function Described(describe: Payload -> Outbox.UpdateMeta, pending: seq<Payload>): (metas: seq<Outbox.UpdateMeta>)
    ensures |metas| == |pending| && forall i :: 0 <= i < |pending| ==> metas[i] == describe(pending[i])
  {
    seq(|pending|, i requires 0 <= i < |pending| => describe(pending[i]))
  }

  lemma DescribedPrefix(describe: Payload -> Outbox.UpdateMeta, pending: seq<Payload>)
    ensures forall n :: 0 <= n <= |pending| ==> Described(describe, pending)[..n] == Described(describe, pending[..n])
  {
  }

  /** Each pending payload is that of a stored update. */
  ghost predicate IsStored(s: Store, p: Payload) {
    exists q :: q in s.updates && s.updates[q].payload == p
  }

  lemma PendingAreStored(s: Store)
    requires Pinned(s.outbox) <= s.updates.Keys
    ensures forall i :: 0 <= i < |D.PendingPayloads(s)| ==> IsStored(s, D.PendingPayloads(s)[i])
  {
    hide Pinned, Ascending;
    var order := Ascending(Pinned(s.outbox));
    forall i | 0 <= i < |D.PendingPayloads(s)| ensures IsStored(s, D.PendingPayloads(s)[i]) {
      assert order[i] in order;
      assert order[i] in s.updates && s.updates[order[i]].payload == D.PendingPayloads(s)[i];
    }
  }

  lemma FrameIsTheStep(sys: D.System, t: nat, k: nat, update: Payload, frame: Outbox.Frame)
    requires t in sys.tabs && Pinned(sys.store.outbox) <= sys.store.updates.Keys
    requires 1 <= k <= |D.PendingPayloads(sys.store)| && k <= Outbox.FRAME_UPDATES
    requires frame == Outbox.Frame(Checksum(update), Outbox.Digests(D.PendingPayloads(sys.store)[..k]))
    requires update.ops == Outbox.UnionOps(D.PendingPayloads(sys.store)[..k])
    ensures D.Enabled(sys, D.NextFrame(t, k, Some(update)))
    ensures D.Apply(sys, D.NextFrame(t, k, Some(update))) == D.SetTab(sys, t, sys.tabs[t].(frame := Some(frame)))
  {
    hide Pinned, D.PendingPayloads, Outbox.Digests, Outbox.UnionOps;
  }

  lemma ReplaceFailsOnlyUnopened(s: Store, p: Payload, epoch: nat, base: nat, schema: nat, now: nat)
    requires s.metadata.Some? ==> s.metadata.value.nextSequence > 0
    ensures ReplaceHistory(s, p, epoch, base, D.NO_TAIL, schema, now).Ok? <==> s.metadata.Some?
  {
  }
}
