/**
 Inputs at which a repair loses track of a pending message or of an update.
 */
module RecoveryWitnesses {
  import opened Records
  import opened Storage
  import opened Recovery
  import opened RecoveryPaths
  import History

  const ANYTHING := Rules(_ => true, _ => true, _ => {}, _ => true, _ => [])
  const BLANK := Payload({}, [0])
  const DAMAGED := Payload({}, [1])
  const EDIT := Payload({Op(1, 0)}, [2])

  /** One generation, a damaged record, and behind it an undamaged edit that waits in the outbox. */
  const DAMAGED_LOG := Store(
    Some(Metadata(0, 1, 3, 0, 1, 2, 2)),
    map[1 := UpdateRecord(Checksum(BLANK), DAMAGED), 2 := UpdateRecord(Checksum(EDIT), EDIT)],
    map[0 := CheckpointRecord(1, Checksum(BLANK), BLANK)],
    map[Checksum(EDIT) := OutboxRecord(2, 0, None, 0)],
    map[],
    false)

  lemma DamagedRecordEndsReplay()
    ensures LongestGoodPrefix(ANYTHING, {}, TailOf(DAMAGED_LOG, 0), 0) && TailOf(DAMAGED_LOG, 0) != []
  {
    hide TailOf;
    var tail := TailOf(DAMAGED_LOG, 0);
    assert 1 in DAMAGED_LOG.updates && 1 > 0;
    var i :| 0 <= i < |tail| && tail[i].sequence == 1;
    assert tail[0].sequence == 1;
    assert !Good(ANYTHING, {}, tail, 0);
  }

  /** Every entry of the outbox could be read; after recovery the edit's entry references
      an update that is gone, so the stores are faithful to no history. */
  lemma RepairStrandsPendingEdit()
    ensures var r := Recovered({}, 0, 0, 0, Repaired(ANYTHING, DAMAGED_LOG, 0, 0, 1));
      && RecordByRecord(ANYTHING, DAMAGED_LOG, 1, r)
      && OutboxReadable(DAMAGED_LOG) && !OutboxReadable(r.store)
      && forall log :: !History.Faithful(r.store, log)
  {
    hide TailOf, LongestGoodPrefix, Repaired;
    var r := Recovered({}, 0, 0, 0, Repaired(ANYTHING, DAMAGED_LOG, 0, 0, 1));
    DamagedRecordEndsReplay();
    assert After({}, TailOf(DAMAGED_LOG, 0), 0) == {};
    assert RecordByRecord(ANYTHING, DAMAGED_LOG, 1, r);
    assert DAMAGED_LOG.checkpoints.Keys == {0};
    RepairKeepsOutboxReadableIff(ANYTHING, DAMAGED_LOG, 1, r);
    assert Checksum(EDIT) in DAMAGED_LOG.outbox;
  }

  /** Recovery read the damaged record alone, and the edit was appended before the repair:
      it ends up neither in the log nor in quarantine. */
  lemma RepairDropsLaterAppend()
    ensures var records := map[1 := QuarantineRecord(Checksum(BLANK), DAMAGED, ChecksumMismatch)];
            var repair := RepairCorruptTail(DAMAGED_LOG, BLANK, 0, 1, records);
            repair.Ok? && 2 !in repair.value.updates && UpdateHandle(2) !in repair.value.quarantine
  {
    hide Newest, TotalBytes, UpdatePayloads, CheckpointPayloads, Restrict;
  }
}
