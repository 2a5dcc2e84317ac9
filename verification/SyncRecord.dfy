/**
 The volume sync record (`replica_sync.rs`), as far as epochs reach into it.

 The record is stored whole as one PV annotation and every change is a
 read-modify-write of the whole value, so it is a value here too. An epoch name
 is kept as `epoch_seq` reads it: either an epoch of this volume, by its
 sequence number, or anything else. `EpochNames` proves that the strings and
 this reading agree.
 */
module SyncRecord {
  import opened Outcomes

  datatype EpochName = Epoch(number: nat) | Other(text: string)

  datatype SyncState = InSync | Stale | Standby

  /** One replica. `activeUuid` overrides the identity once a revert gave the head a new uuid. */
  datatype Replica = Replica(uuid: string, state: SyncState, lastEpoch: Option<EpochName>, activeUuid: Option<string>)
  {
    function LiveUuid(): string {
      if activeUuid.Some? then activeUuid.value else uuid
    }
  }

  /** A replica as the volume attributes address it (`minimal_models.rs`). */
  datatype ReplicaInfo = ReplicaInfo(node: string, uuid: string, lvs: string)

  /** `recordedAt` is None when the stored timestamp does not parse. */
  datatype EpochEntry = EpochEntry(name: EpochName, recordedAt: Option<int>)

  datatype Record = Record(
    currentEpoch: Option<EpochName>,
    epochs: seq<EpochEntry>,
    pin: Option<EpochName>,
    replicas: seq<Replica>)

  predicate Listed(epochs: seq<EpochEntry>, name: EpochName) {
    exists i :: 0 <= i < |epochs| && epochs[i].name == name
  }

  predicate InSyncIn(record: Record, uuid: string) {
    exists i :: 0 <= i < |record.replicas| && record.replicas[i].uuid == uuid && record.replicas[i].state == InSync
  }

  /** The highest epoch number recorded, 0 if none. */
  function LatestSeq(epochs: seq<EpochEntry>): (latest: nat)
    ensures forall i :: 0 <= i < |epochs| && epochs[i].name.Epoch? ==> epochs[i].name.number <= latest
    ensures latest == 0 || Listed(epochs, Epoch(latest))
  {
    if epochs == [] then 0
    else
      var rest := LatestSeq(epochs[..|epochs| - 1]);
      var last := epochs[|epochs| - 1].name;
      assert rest == 0 || Listed(epochs, Epoch(rest)) by {
        if rest != 0 {
          var i :| 0 <= i < |epochs| - 1 && epochs[..|epochs| - 1][i].name == Epoch(rest);
          assert epochs[i].name == Epoch(rest);
        }
      }
      if last.Epoch? && last.number > rest then last.number else rest
  }

  /** Append the epoch unless it is already there, make it current, and stamp the cut replicas still in sync. */
  function ApplyEpochCut(record: Record, epoch: EpochName, cut: seq<string>, now: Option<int>): Record {
    record.(
      epochs := if Listed(record.epochs, epoch) then record.epochs else record.epochs + [EpochEntry(epoch, now)],
      currentEpoch := Some(epoch),
      replicas := seq(|record.replicas|, i requires 0 <= i < |record.replicas| =>
        var r := record.replicas[i];
        if r.state == InSync && r.uuid in cut then r.(lastEpoch := Some(epoch)) else r))
  }

  function Without(epochs: seq<EpochEntry>, name: EpochName): (rest: seq<EpochEntry>)
    ensures forall e {:trigger e in rest} :: e in rest ==> e in epochs && e.name != name
    ensures forall e {:trigger e in epochs} :: e in epochs && e.name != name ==> e in rest
  {
    if epochs == [] then []
    else
      var last := |epochs| - 1;
      assert epochs == epochs[..last] + [epochs[last]];
      Without(epochs[..last], name) + if epochs[last].name == name then [] else [epochs[last]]
  }

  /** Retirement stops at the current epoch, at the pin or anything newer, and at a name that is not an epoch. */
  predicate StopsRetirement(record: Record, name: EpochName) {
    || record.currentEpoch == Some(name)
    || !name.Epoch?
    || (record.pin.Some? && record.pin.value.Epoch? && name.number >= record.pin.value.number)
  }

  function RetireFrom(record: Record, names: seq<EpochName>): (after: Record)
    decreases |names|
  {
    if names == [] || StopsRetirement(record, names[0]) then record
    else RetireFrom(record.(epochs := Without(record.epochs, names[0])), names[1..])
  }

  /** Drop the proposed epochs oldest first; an unreadable pin pins everything. */
  function RetireEpochs(record: Record, names: seq<EpochName>): (after: Record) {
    if record.pin.Some? && record.pin.value.Other? then record else RetireFrom(record, names)
  }

  /** An in-sync replica stays out of sync once marked; the retained epochs do not move. */
  function SetState(record: Record, uuid: string, state: SyncState, mark: Option<EpochName>): Record {
    record.(replicas := seq(|record.replicas|, i requires 0 <= i < |record.replicas| =>
        var r := record.replicas[i];
        if r.uuid != uuid then r
        else r.(state := state, lastEpoch := if mark.Some? then mark else r.lastEpoch)))
  }

  // ---- what retirement keeps ------------------------------------------------

  /** Epoch numbers strictly ascend along the list. */
  predicate Ascending(epochs: seq<EpochEntry>) {
    && (forall i :: 0 <= i < |epochs| ==> epochs[i].name.Epoch?)
    && (forall i, j :: 0 <= i < j < |epochs| ==> epochs[i].name.number < epochs[j].name.number)
  }

  lemma {:induction false} WithoutAscending(epochs: seq<EpochEntry>, name: EpochName)
    requires Ascending(epochs)
    ensures Ascending(Without(epochs, name))
  {
    if epochs != [] {
      var last := |epochs| - 1;
      var init := epochs[..last];
      WithoutAscending(init, name);
      var rest := Without(init, name);
      forall i | 0 <= i < |rest| ensures rest[i].name.number < epochs[last].name.number {
        assert rest[i] in rest;
        var k :| 0 <= k < |init| && init[k] == rest[i];
        assert epochs[k] == rest[i];
      }
    }
  }

  /** The pin covers this epoch: it is the pinned one or newer, or the pin cannot be read. */
  predicate PinHolds(record: Record, name: EpochName) {
    && record.pin.Some?
    && (record.pin.value.Epoch? ==> name.Epoch? && name.number >= record.pin.value.number)
  }

  /** The newest epoch is the current one. */
  predicate CurrentIsNewest(record: Record) {
    record.currentEpoch == if record.epochs == [] then None else Some(record.epochs[|record.epochs| - 1].name)
  }

  /** `after` is `record` with some epochs gone, none of them current or held by the pin. */
  predicate Trimmed(record: Record, after: Record) {
    && after == record.(epochs := after.epochs)
    && (forall e {:trigger e in after.epochs} :: e in after.epochs ==> e in record.epochs)
    && (forall e {:trigger e in record.epochs} :: e in record.epochs && (record.currentEpoch == Some(e.name) || PinHolds(record, e.name)) ==>
          e in after.epochs)
  }

  lemma {:induction false} WithoutKeepsCurrent(record: Record, name: EpochName)
    requires Ascending(record.epochs) && CurrentIsNewest(record) && !StopsRetirement(record, name)
    requires !(record.pin.Some? && record.pin.value.Other?)
    ensures var after := record.(epochs := Without(record.epochs, name));
            Trimmed(record, after) && Ascending(after.epochs) && CurrentIsNewest(after)
  {
    WithoutAscending(record.epochs, name);
  }

  /**
   Retirement keeps the current epoch, the pinned epoch and everything newer, adds nothing, and leaves the list
   ascending with the current epoch as its newest.
   */
  lemma {:induction false} RetireKeeps(record: Record, names: seq<EpochName>)
    requires Ascending(record.epochs) && CurrentIsNewest(record)
    ensures var after := RetireEpochs(record, names);
            Trimmed(record, after) && Ascending(after.epochs) && CurrentIsNewest(after)
  {
    if !(record.pin.Some? && record.pin.value.Other?) {
      RetireFromKeeps(record, names);
    }
  }

  lemma {:induction false} RetireFromKeeps(record: Record, names: seq<EpochName>)
    requires Ascending(record.epochs) && CurrentIsNewest(record)
    requires !(record.pin.Some? && record.pin.value.Other?)
    ensures var after := RetireFrom(record, names);
            Trimmed(record, after) && Ascending(after.epochs) && CurrentIsNewest(after)
    decreases |names|
  {
    if names != [] && !StopsRetirement(record, names[0]) {
      var next := record.(epochs := Without(record.epochs, names[0]));
      WithoutKeepsCurrent(record, names[0]);
      RetireFromKeeps(next, names[1..]);
      TrimmedTransitive(record, next, RetireFrom(next, names[1..]));
    }
  }

  lemma TrimmedTransitive(a: Record, b: Record, c: Record)
    requires Trimmed(a, b) && Trimmed(b, c)
    ensures Trimmed(a, c)
  {
    forall e | e in a.epochs && (a.currentEpoch == Some(e.name) || PinHolds(a, e.name)) ensures e in c.epochs {
      assert e in b.epochs && (PinHolds(a, e.name) ==> PinHolds(b, e.name));
    }
  }
}
