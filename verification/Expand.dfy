/**
 Replicated volume expansion (`expand.rs`): shrink guard, sync belt, and a fan-out that resizes every leg and may stop
 half way. Resizing a leg rounds up to whole MiB and then to the leg's lvstore clusters (`minimal_disk_service.rs`), and
 each grow that lands is merged into the applied-size annotation (`main.rs`).
 */
module Expand {
  import opened Outcomes
  import opened SyncRecord
  import opened LegSizeGuard

  // ---- rounding ---------------------------------------------------------------------------

  const MIB: nat := 1048576

  function CeilTo(bytes: nat, unit: nat): nat
    requires unit > 0
  {
    (bytes + unit - 1) / unit * unit
  }

  /** The size an lvol of an lvstore with this cluster size lands on. */
  function LvolSize(bytes: nat, cluster: nat): nat
    requires cluster > 0
  {
    CeilTo(CeilTo(bytes, MIB), cluster)
  }

  /** The size each leg lands on when asked for some bytes. */
  type Rounding = (string, nat) -> nat

  /** What became of one resize: done and annotated, done without the annotation, done with the reply lost, or not done. */
  datatype Fate = Landed | StampLost | ReplyLost | Refused

  /** The lvols by live uuid, and the grows merged into the applied-size annotation (`LegSizeGuard.Applied`), oldest first. */
  datatype Lvols = Lvols(sizes: map<string, nat>, grows: seq<Grow>)

  predicate TakesEffect(lvols: Lvols, uuid: string, fate: Fate) {
    uuid in lvols.sizes && !fate.Refused?
  }

  predicate Succeeds(lvols: Lvols, uuid: string, fate: Fate) {
    uuid in lvols.sizes && (fate.Landed? || fate.StampLost?)
  }

  function ResizeOne(lvols: Lvols, uuid: string, bytes: nat, round: Rounding, fate: Fate): Lvols
  {
    if !TakesEffect(lvols, uuid, fate) then lvols
    else Lvols(lvols.sizes[uuid := round(uuid, bytes)],
               if fate.Landed? then lvols.grows + [Grow(bytes, uuid)] else lvols.grows)
  }

  function FateAt(fates: seq<Fate>, i: nat): Fate {
    if i < |fates| then fates[i] else Landed
  }

  function Later(fates: seq<Fate>, n: nat): seq<Fate> {
    if n <= |fates| then fates[n..] else []
  }

  /** The fan-out over the first n targets. */
  function FanOut(lvols: Lvols, targets: seq<string>, n: nat, bytes: nat, round: Rounding, fates: seq<Fate>): Lvols
    requires n <= |targets|
  {
    if n == 0 then lvols
    else
      ResizeOne(FanOut(lvols, targets, n - 1, bytes, round, fates),
                targets[n - 1], bytes, round, FateAt(fates, n - 1))
  }

  /** Resize n - 1 of the targets took effect on u. */
  predicate Reached(sizes: map<string, nat>, targets: seq<string>, n: nat, fates: seq<Fate>, u: string) {
    exists i :: 0 <= i < n && i < |targets| && targets[i] == u && u in sizes && !FateAt(fates, i).Refused?
  }

  /**
   What a fan-out does to each lvol, whatever its pattern of failures: one that a resize reached ends at the requested
   size, every other keeps its own.
   */
  lemma {:induction false} FanOutResizes(lvols: Lvols, targets: seq<string>, n: nat, bytes: nat, round: Rounding, fates: seq<Fate>, u: string)
    requires n <= |targets| && u in lvols.sizes
    ensures var after := FanOut(lvols, targets, n, bytes, round, fates);
            && after.sizes.Keys == lvols.sizes.Keys
            && after.sizes[u] == if Reached(lvols.sizes, targets, n, fates, u) then round(u, bytes) else lvols.sizes[u]
  {
    if n > 0 {
      FanOutResizes(lvols, targets, n - 1, bytes, round, fates, u);
      if Reached(lvols.sizes, targets, n - 1, fates, u) {
        var i :| 0 <= i < n - 1 && i < |targets| && targets[i] == u && !FateAt(fates, i).Refused?;
        assert Reached(lvols.sizes, targets, n, fates, u);
      } else if Reached(lvols.sizes, targets, n, fates, u) {
        var i :| 0 <= i < n && i < |targets| && targets[i] == u && !FateAt(fates, i).Refused?;
        assert i == n - 1;
      } else {
        assert targets[n - 1] == u ==> FateAt(fates, n - 1).Refused?;
      }
    }
  }

  /** No lvol shrinks in a fan-out if and only if none that it reaches is larger than the requested size. */
  lemma FanOutShrinksExactly(lvols: Lvols, targets: seq<string>, bytes: nat, round: Rounding, fates: seq<Fate>)
    ensures var after := FanOut(lvols, targets, |targets|, bytes, round, fates);
            (forall u :: u in lvols.sizes ==> u in after.sizes && after.sizes[u] >= lvols.sizes[u]) <==>
            (forall u :: u in lvols.sizes && Reached(lvols.sizes, targets, |targets|, fates, u) ==>
               lvols.sizes[u] <= round(u, bytes))
  {
    var after := FanOut(lvols, targets, |targets|, bytes, round, fates);
    forall u | u in lvols.sizes
      ensures u in after.sizes
      ensures after.sizes[u] == if Reached(lvols.sizes, targets, |targets|, fates, u) then round(u, bytes) else lvols.sizes[u]
    {
      FanOutResizes(lvols, targets, |targets|, bytes, round, fates, u);
    }
  }

  lemma AllSucceeded(lvols: Lvols, targets: seq<string>, bytes: nat, round: Rounding, fates: seq<Fate>)
    requires forall i :: 0 <= i < |targets| ==> Succeeds(lvols, targets[i], FateAt(fates, i))
    ensures var after := FanOut(lvols, targets, |targets|, bytes, round, fates);
            forall i :: 0 <= i < |targets| ==> targets[i] in after.sizes && after.sizes[targets[i]] == round(targets[i], bytes)
  {
    var after := FanOut(lvols, targets, |targets|, bytes, round, fates);
    forall i | 0 <= i < |targets| ensures targets[i] in after.sizes && after.sizes[targets[i]] == round(targets[i], bytes) {
      FanOutResizes(lvols, targets, |targets|, bytes, round, fates, targets[i]);
      assert Reached(lvols.sizes, targets, |targets|, fates, targets[i]);
    }
  }

  /** One call's fan-out: the legs it addressed, the size it asked for, and what became of each resize. */
  datatype Attempt = Attempt(targets: seq<string>, bytes: nat, fates: seq<Fate>)

  function Attempts(lvols: Lvols, attempts: seq<Attempt>, round: Rounding): Lvols {
    if attempts == [] then lvols
    else
      var last := attempts[|attempts| - 1];
      FanOut(Attempts(lvols, attempts[..|attempts| - 1], round), last.targets, |last.targets|, last.bytes, round, last.fates)
  }

  /** The largest request so far, when requests never decrease. */
  function Asked(capacity: nat, attempts: seq<Attempt>): nat {
    if attempts == [] then capacity else attempts[|attempts| - 1].bytes
  }

  predicate NeverDecrease(capacity: nat, attempts: seq<Attempt>) {
    attempts == [] ||
    (NeverDecrease(capacity, attempts[..|attempts| - 1]) &&
     Asked(capacity, attempts[..|attempts| - 1]) <= attempts[|attempts| - 1].bytes)
  }

  /** For requests that never decrease no leg ever shrinks, whatever part of each fan-out takes effect. */
  lemma {:induction false} NeverShrinks(lvols: Lvols, attempts: seq<Attempt>, k: nat, round: Rounding, capacity: nat, u: string)
    requires k <= |attempts| && NeverDecrease(capacity, attempts)
    requires u in lvols.sizes && lvols.sizes[u] <= round(u, capacity)
    requires forall x: nat, y: nat :: x <= y ==> round(u, x) <= round(u, y)
    ensures var before, after := Attempts(lvols, attempts[..k], round), Attempts(lvols, attempts, round);
            && u in before.sizes && u in after.sizes
            && before.sizes[u] <= after.sizes[u] <= round(u, Asked(capacity, attempts))
    decreases |attempts|
  {
    if attempts != [] {
      var init, last := attempts[..|attempts| - 1], attempts[|attempts| - 1];
      var mid := Attempts(lvols, init, round);
      NeverShrinks(lvols, init, if k == |attempts| then k - 1 else k, round, capacity, u);
      FanOutResizes(mid, last.targets, |last.targets|, last.bytes, round, last.fates, u);
      assert round(u, Asked(capacity, init)) <= round(u, last.bytes);
    }
    if k < |attempts| {
      assert attempts[..|attempts| - 1][..k] == attempts[..k];
    } else {
      assert attempts[..k] == attempts;
    }
  }

  // ---- addressing and the belt ---------------------------------------------------------

  function FindReplica(replicas: seq<Replica>, uuid: string): (found: Option<Replica>)
    ensures found.Some? ==> found.value in replicas && found.value.uuid == uuid
  {
    if replicas == [] then None
    else if replicas[0].uuid == uuid then Some(replicas[0])
    else FindReplica(replicas[1..], uuid)
  }

  /** The uuid that addresses a leg's head: the record's live uuid, else the identity. */
  function LiveUuid(record: Option<Record>, uuid: string): string {
    var found := if record.Some? then FindReplica(record.value.replicas, uuid) else None;
    if found.Some? then found.value.LiveUuid() else uuid
  }

  function LiveUuids(record: Option<Record>, infos: seq<ReplicaInfo>): seq<string> {
    seq(|infos|, i requires 0 <= i < |infos| => LiveUuid(record, infos[i].uuid))
  }

  predicate InSyncLeg(record: Record, uuid: string) {
    var found := FindReplica(record.replicas, uuid);
    found.Some? && found.value.state == InSync
  }

  /** Every leg is recorded in sync; a lone leg needs no record. */
  predicate BeltHolds(record: Option<Record>, infos: seq<ReplicaInfo>) {
    |infos| > 1 ==> record.Some? && forall i :: 0 <= i < |infos| ==> InSyncLeg(record.value, infos[i].uuid)
  }

  datatype Done = Done(capacityBytes: nat, nodeExpansionRequired: bool)

  datatype Refusal =
    | FailedPrecondition                      // the shrink guard cannot run
    | Unreadable                              // the PV could not be read
    | NoRecord
    | Lagging(uuids: seq<string>)
    | Incomplete(failures: seq<string>)

  /** The guards passed and the legs were resized, completely or not. */
  predicate FannedOut(result: Result<Done, Refusal>) {
    if result.Ok? then result.value.nodeExpansionRequired else result.error.Incomplete?
  }

  class Volume {
    var lvols: Lvols
    var readable: bool
    var capacity: Option<nat>
    var record: Option<Record>
    var fates: seq<Fate>
    const round: Rounding

    constructor (lvols: Lvols, readable: bool, capacity: Option<nat>, record: Option<Record>, fates: seq<Fate>, round: Rounding)
      ensures this.lvols == lvols && this.readable == readable && this.capacity == capacity
      ensures this.record == record && this.fates == fates && this.round == round
    {
      this.lvols, this.readable, this.capacity := lvols, readable, capacity;
      this.record, this.fates, this.round := record, fates, round;
    }

    /** Resize one leg and stamp the grow. */
    method ResizeLeg(uuid: string, bytes: nat) returns (ok: bool)
      modifies this`lvols, this`fates
      // told it worked, the leg is at the rounded request; told it did not, it is there or where it was
      ensures ok ==> uuid in lvols.sizes && lvols.sizes[uuid] == round(uuid, bytes)
      ensures lvols.sizes.Keys == old(lvols).sizes.Keys
      ensures !ok && uuid in lvols.sizes ==> lvols.sizes[uuid] == round(uuid, bytes) || lvols.sizes[uuid] == old(lvols).sizes[uuid]
      // no other leg moves, and the annotation gains this grow only with the resize
      ensures forall u :: u in lvols.sizes && u != uuid ==> lvols.sizes[u] == old(lvols).sizes[u]
      ensures lvols.grows != old(lvols).grows ==> lvols.grows == old(lvols).grows + [Grow(bytes, uuid)] && ok
      ensures lvols == ResizeOne(old(lvols), uuid, bytes, round, FateAt(old(fates), 0))
      ensures ok <==> Succeeds(old(lvols), uuid, FateAt(old(fates), 0))
      ensures fates == if old(fates) == [] then [] else old(fates)[1..]
    {
      var fate := if fates == [] then Landed else fates[0];
      fates := if fates == [] then [] else fates[1..];
      ok := Succeeds(lvols, uuid, fate);
      lvols := ResizeOne(lvols, uuid, bytes, round, fate);
    }

    method ExpandReplicated(infos: seq<ReplicaInfo>, bytes: nat) returns (result: Result<Done, Refusal>)
      modifies this`lvols, this`fates
      // refused or nothing to do: no leg is touched
      ensures result.Err? && !result.error.Incomplete? ==> lvols == old(lvols)
      ensures result.Ok? && !result.value.nodeExpansionRequired ==>
                lvols == old(lvols) && capacity == Some(result.value.capacityBytes) && bytes <= result.value.capacityBytes
      // the fan-out runs exactly when the guards pass, on every leg by its live uuid
      ensures FannedOut(result) <==>
              readable && capacity.Some? && capacity.value < bytes && BeltHolds(record, infos)
      ensures FannedOut(result) ==>
                && lvols == FanOut(old(lvols), LiveUuids(record, infos), |infos|, bytes, round, old(fates))
                && fates == Later(old(fates), |infos|)
      // success: every leg is at the requested size
      ensures result.Ok? && result.value.nodeExpansionRequired ==>
                && result.value.capacityBytes == bytes
                && forall i :: 0 <= i < |infos| ==>
                     var u := LiveUuid(record, infos[i].uuid); u in lvols.sizes && lvols.sizes[u] == round(u, bytes)
      // one attempt where every node answers ends with success, whatever earlier attempts left behind
      ensures readable && capacity.Some? && capacity.value < bytes && BeltHolds(record, infos)
              && (forall i :: 0 <= i < |infos| ==> LiveUuid(record, infos[i].uuid) in old(lvols).sizes && FateAt(old(fates), i).Landed?) ==>
                result.Ok?
    {
      if !readable {
        return Err(Unreadable);
      }
      if capacity.None? {
        return Err(FailedPrecondition);
      }
      if bytes <= capacity.value {
        return Ok(Done(capacity.value, false));
      }
      if |infos| > 1 {
        if record.None? {
          return Err(NoRecord);
        }
        var lagging := LaggingLegs(record.value, infos);
        if lagging != [] {
          return Err(Lagging(lagging));
        }
      }
      var targets := LiveUuids(record, infos);
      var failures := ResizeAll(targets, bytes);
      assert forall i :: 0 <= i < |infos| ==> targets[i] == LiveUuid(record, infos[i].uuid);
      if failures != [] {
        return Err(Incomplete(failures));
      }
      return Ok(Done(bytes, true));
    }

    method ResizeAll(targets: seq<string>, bytes: nat) returns (failures: seq<string>)
      modifies this`lvols, this`fates
      ensures lvols == FanOut(old(lvols), targets, |targets|, bytes, round, old(fates)) && fates == Later(old(fates), |targets|)
      ensures failures == [] <==> forall i :: 0 <= i < |targets| ==> Succeeds(old(lvols), targets[i], FateAt(old(fates), i))
      ensures forall u :: u in failures <==>
                exists i :: 0 <= i < |targets| && targets[i] == u && !Succeeds(old(lvols), targets[i], FateAt(old(fates), i))
      ensures failures == [] ==> forall i :: 0 <= i < |targets| ==>
                targets[i] in lvols.sizes && lvols.sizes[targets[i]] == round(targets[i], bytes)
    {
      failures := [];
      for i := 0 to |targets|
        invariant lvols == FanOut(old(lvols), targets, i, bytes, round, old(fates))
        invariant lvols.sizes.Keys == old(lvols).sizes.Keys
        invariant fates == Later(old(fates), i)
        invariant failures == [] <==> forall j :: 0 <= j < i ==> Succeeds(old(lvols), targets[j], FateAt(old(fates), j))
        invariant forall u :: u in failures <==>
                    exists j :: 0 <= j < i && targets[j] == u && !Succeeds(old(lvols), targets[j], FateAt(old(fates), j))
      {
        var ok := ResizeLeg(targets[i], bytes);
        if !ok {
          failures := failures + [targets[i]];
        }
      }
      if failures == [] {
        AllSucceeded(old(lvols), targets, bytes, round, old(fates));
      }
    }

    method LaggingLegs(record: Record, infos: seq<ReplicaInfo>) returns (lagging: seq<string>)
      ensures forall u :: u in lagging <==> !InSyncLeg(record, u) && exists i :: 0 <= i < |infos| && infos[i].uuid == u
      ensures lagging == [] <==> forall i :: 0 <= i < |infos| ==> InSyncLeg(record, infos[i].uuid)
    {
      lagging := [];
      for i := 0 to |infos|
        invariant lagging == [] <==> forall j :: 0 <= j < i ==> InSyncLeg(record, infos[j].uuid)
        invariant forall u :: u in lagging <==> !InSyncLeg(record, u) && exists j :: 0 <= j < i && infos[j].uuid == u
      {
        if !InSyncLeg(record, infos[i].uuid) {
          lagging := lagging + [infos[i].uuid];
        }
      }
    }
  }

  /** Two replicas recorded in sync, each addressed by its own uuid. */
  lemma TwoInSync(a: string, b: string, replicas: seq<Replica>, infos: seq<ReplicaInfo>)
    requires a != b && |infos| == 2 && infos[0].uuid == a && infos[1].uuid == b
    requires replicas == [Replica(a, InSync, None, None), Replica(b, InSync, None, None)]
    ensures var record := Some(Record(None, [], None, replicas));
            BeltHolds(record, infos) && LiveUuids(record, infos) == [a, b]
  {
    assert replicas[1..] == [Replica(b, InSync, None, None)];
    assert FindReplica(replicas, a) == Some(replicas[0]);
    assert FindReplica(replicas[1..], b) == Some(replicas[1]);
    assert FindReplica(replicas, b) == Some(replicas[1]);
  }

  /**
   The shrink guard compares with the recorded capacity, which a partial fan-out does not raise. So a smaller retry
   passes it and shrinks the leg that had grown.
   */
  method SmallerRetryShrinks(a: string, b: string, capacity: nat, first: nat, second: nat)
    returns (result: Result<Done, Refusal>, grown: nat, retry: Result<Done, Refusal>, left: nat)
    requires a != b && capacity < second < first
    ensures result.Err? && result.error.Incomplete? && grown == first
    ensures retry == Ok(Done(second, true)) && left == second
  {
    var replicas := [Replica(a, InSync, None, None), Replica(b, InSync, None, None)];
    var record := Some(Record(None, [], None, replicas));
    var infos := [ReplicaInfo("n", a, "s"), ReplicaInfo("m", b, "s")];
    var v := new Volume(Lvols(map[a := capacity, b := capacity], []), true, Some(capacity), record, [Landed, Refused],
                        (u: string, x: nat) => x);
    TwoInSync(a, b, replicas, infos);
    ghost var lvols, fates := v.lvols, v.fates;
    result := v.ExpandReplicated(infos, first);
    FanOutResizes(lvols, [a, b], 2, first, v.round, fates, a);
    FanOutResizes(lvols, [a, b], 2, first, v.round, fates, b);
    assert Reached(lvols.sizes, [a, b], 2, fates, a) by { assert [a, b][0] == a && FateAt(fates, 0) == Landed; }
    assert !Reached(lvols.sizes, [a, b], 2, fates, b);
    assert LiveUuid(record, infos[0].uuid) == [a, b][0] && LiveUuid(record, infos[1].uuid) == [a, b][1];
    grown := v.lvols.sizes[a];
    retry := v.ExpandReplicated(infos, second);
    left := v.lvols.sizes[a];
  }
}
