/**
 The epoch snapshot scheduler (`epoch_scheduler.rs`): planning a cut, cutting on every in-sync leg all-or-abort,
 rolling an abort back, retiring old epochs record-first and reaping their snapshots.

 A `Cluster` is the world the scheduler talks to. Each RPC first lets the rest of the system act (writes, legs failing,
 marks, pins, user snapshots) and then meets its fate: answered, unreachable, carried out with the reply lost, or cut
 short by a controller crash, after which nothing the scheduler does reaches the world until it restarts. The script of
 turns is arbitrary, so every contract below holds for every interleaving and every pattern of failures.
 */
module EpochScheduler {
  import opened Outcomes
  import opened SyncRecord
  import opened EpochMachine

  /** One replica to snapshot: `uuid` keys the record, `source` is the live head that is snapshotted. */
  datatype Target = Target(node: string, uuid: string, source: string, lvs: string)

  datatype CutPlan = CutPlan(number: nat, targets: seq<Target>)

  datatype Config = Config(interval: nat, retain: nat)

  datatype CutOutcome =
    | Recorded(cut: seq<string>)
    | Aborted(failures: seq<(string, Reply)>)

  datatype Reply = Done | Exists | Missing | Failed

  // ---- planning ------------------------------------------------------------------

  function FindInfo(infos: seq<ReplicaInfo>, uuid: string): (found: Option<ReplicaInfo>)
    ensures found.Some? ==> found.value in infos && found.value.uuid == uuid
    ensures found.None? <==> forall i :: 0 <= i < |infos| ==> infos[i].uuid != uuid
  {
    if infos == [] then None
    else if infos[0].uuid == uuid then Some(infos[0])
    else FindInfo(infos[1..], uuid)
  }

  /** The in-sync replicas that the volume attributes address, in record order, each by its live head. */
  function CutTargets(replicas: seq<Replica>, infos: seq<ReplicaInfo>): (targets: seq<Target>) {
    if replicas == [] then []
    else
      var last := replicas[|replicas| - 1];
      var info := FindInfo(infos, last.uuid);
      CutTargets(replicas[..|replicas| - 1], infos) +
      if last.state == InSync && info.Some? then [Target(info.value.node, last.uuid, last.LiveUuid(), info.value.lvs)] else []
  }

  /** The target is this replica, in sync, by its live head. */
  predicate TargetOf(t: Target, r: Replica) {
    t.uuid == r.uuid && t.source == r.LiveUuid() && r.state == InSync
  }

  lemma {:induction false} TargetIsInSync(replicas: seq<Replica>, infos: seq<ReplicaInfo>, t: Target)
    requires t in CutTargets(replicas, infos)
    ensures exists r :: r in replicas && TargetOf(t, r) && FindInfo(infos, r.uuid).Some?
    decreases |replicas|
  {
    var last := replicas[|replicas| - 1];
    assert last in replicas;
    if t in CutTargets(replicas[..|replicas| - 1], infos) {
      TargetIsInSync(replicas[..|replicas| - 1], infos, t);
      var r :| r in replicas[..|replicas| - 1] && TargetOf(t, r) && FindInfo(infos, r.uuid).Some?;
      assert r in replicas;
    } else {
      assert TargetOf(t, last);
    }
  }

  lemma {:induction false} InSyncIsTargeted(replicas: seq<Replica>, infos: seq<ReplicaInfo>, r: Replica)
    requires r in replicas && r.state == InSync && FindInfo(infos, r.uuid).Some?
    ensures exists t :: t in CutTargets(replicas, infos) && TargetOf(t, r)
    decreases |replicas|
  {
    var last := replicas[|replicas| - 1];
    var rest := CutTargets(replicas[..|replicas| - 1], infos);
    var all := CutTargets(replicas, infos);
    if r == last {
      var t := all[|all| - 1];
      assert t in all && TargetOf(t, r);
    } else {
      assert r in replicas[..|replicas| - 1];
      InSyncIsTargeted(replicas[..|replicas| - 1], infos, r);
      var t :| t in rest && TargetOf(t, r);
      assert t in all;
    }
  }

  /** A plan exists exactly when the volume is attached, some in-sync replica can be addressed and the cadence is due. */
  lemma PlanExactlyWhenDue(record: Record, infos: seq<ReplicaInfo>, attached: bool, now: int, cfg: Config)
    ensures PlanCut(record, infos, attached, now, cfg).Some? <==>
            attached && CutDue(record, now, cfg) && SomeInSync(record.replicas, infos)
  {
    SomeTarget(record.replicas, infos);
  }

  /** A plan names a new epoch and targets exactly the in-sync replicas it can address, each by its live head. */
  lemma PlanCutIsExact(record: Record, infos: seq<ReplicaInfo>, attached: bool, now: int, cfg: Config)
    requires PlanCut(record, infos, attached, now, cfg).Some?
    ensures var plan := PlanCut(record, infos, attached, now, cfg).value;
            !Listed(record.epochs, Epoch(plan.number)) && Exact(plan.targets, record.replicas, infos)
  {
    TargetsAreExact(record.replicas, infos);
    NextIsUnlisted(record.epochs);
  }

  /** Some in-sync replica can be addressed. */
  ghost predicate SomeInSync(replicas: seq<Replica>, infos: seq<ReplicaInfo>) {
    exists r :: r in replicas && r.state == InSync && FindInfo(infos, r.uuid).Some?
  }

  lemma SomeTarget(replicas: seq<Replica>, infos: seq<ReplicaInfo>)
    ensures CutTargets(replicas, infos) != [] <==> SomeInSync(replicas, infos)
  {
    var targets := CutTargets(replicas, infos);
    if targets != [] {
      TargetIsInSync(replicas, infos, targets[0]);
    }
    if SomeInSync(replicas, infos) {
      var r :| r in replicas && r.state == InSync && FindInfo(infos, r.uuid).Some?;
      InSyncIsTargeted(replicas, infos, r);
    }
  }

  lemma NextIsUnlisted(epochs: seq<EpochEntry>)
    ensures !Listed(epochs, Epoch(LatestSeq(epochs) + 1))
  {
  }

  /** Every target is an in-sync replica by its live head, and every in-sync replica that can be addressed is a target. */
  ghost predicate Exact(targets: seq<Target>, replicas: seq<Replica>, infos: seq<ReplicaInfo>) {
    && (forall t :: t in targets ==> exists r :: r in replicas && TargetOf(t, r))
    && (forall r {:trigger FindInfo(infos, r.uuid)} :: r in replicas && r.state == InSync && FindInfo(infos, r.uuid).Some? ==>
          exists t :: t in targets && TargetOf(t, r))
  }

  lemma TargetsAreExact(replicas: seq<Replica>, infos: seq<ReplicaInfo>)
    ensures Exact(CutTargets(replicas, infos), replicas, infos)
  {
    var targets := CutTargets(replicas, infos);
    forall t | t in targets ensures exists r :: r in replicas && TargetOf(t, r) {
      TargetIsInSync(replicas, infos, t);
    }
    forall r | r in replicas && r.state == InSync && FindInfo(infos, r.uuid).Some?
      ensures exists t :: t in targets && TargetOf(t, r)
    {
      InSyncIsTargeted(replicas, infos, r);
    }
  }

  /** A cut is due when no epoch stands, when the newest is old enough, and when its timestamp cannot be read. */
  predicate CutDue(record: Record, now: int, cfg: Config) {
    || record.epochs == []
    || record.epochs[|record.epochs| - 1].recordedAt.None?
    || now - record.epochs[|record.epochs| - 1].recordedAt.value >= cfg.interval
  }

  function PlanCut(record: Record, infos: seq<ReplicaInfo>, attached: bool, now: int, cfg: Config): (plan: Option<CutPlan>) {
    if !attached then None
    else
      var targets := CutTargets(record.replicas, infos);
      if targets == [] || !CutDue(record, now, cfg) then None
      else Some(CutPlan(LatestSeq(record.epochs) + 1, targets))
  }

  /** Epochs beyond the retention window, oldest first. */
  function PlanRetention(record: Record, cfg: Config): (names: seq<EpochName>) {
    if |record.epochs| <= cfg.retain then []
    else seq(|record.epochs| - cfg.retain, i requires 0 <= i < |record.epochs| - cfg.retain => record.epochs[i].name)
  }

  /** Snapshots safe to reap: this volume's epochs strictly older than the oldest retained one. */
  function GcCandidates(record: Record, found: seq<EpochName>): (reap: seq<EpochName>)
    ensures forall n :: n in reap <==>
              && n in found && n.Epoch?
              && record.epochs != [] && record.epochs[0].name.Epoch? && n.number < record.epochs[0].name.number
  {
    if found == [] || record.epochs == [] || !record.epochs[0].name.Epoch? then []
    else
      var last := found[|found| - 1];
      var rest := GcCandidates(record, found[..|found| - 1]);
      assert found == found[..|found| - 1] + [last];
      if last.Epoch? && last.number < record.epochs[0].name.number then rest + [last] else rest
  }

  /**
   One retention pass leaves a tail of the list: the newest `retain` epochs, and before them whatever the pin still
   holds. Nothing is skipped over.
   */
  lemma RetentionLeavesATail(record: Record, cfg: Config)
    requires Ascending(record.epochs) && CurrentIsNewest(record) && cfg.retain >= 1
    ensures exists k ::
              && 0 <= k <= |record.epochs|
              && RetireEpochs(record, PlanRetention(record, cfg)).epochs == record.epochs[k..]
              && (forall i :: 0 <= i < k ==> i < |record.epochs| - cfg.retain && !PinHolds(record, record.epochs[i].name))
              && (k < |record.epochs| - cfg.retain ==> PinHolds(record, record.epochs[k].name))
  {
    var excess := if |record.epochs| <= cfg.retain then 0 else |record.epochs| - cfg.retain;
    var names := PlanRetention(record, cfg);
    var _ := RetireTail(record, record, 0, excess, names);
  }

  lemma {:induction false} RetireTail(whole: Record, record: Record, done: nat, excess: nat, names: seq<EpochName>) returns (k: nat)
    requires Ascending(whole.epochs) && CurrentIsNewest(whole) && (excess == 0 || excess < |whole.epochs|)
    requires done <= excess && record == whole.(epochs := whole.epochs[done..])
    requires |names| == excess - done && forall i :: 0 <= i < |names| ==> names[i] == whole.epochs[done + i].name
    ensures done <= k <= excess <= |whole.epochs|
    ensures RetireFrom(record, names).epochs == whole.epochs[k..]
    ensures forall i :: done <= i < k ==> !PinNumber(whole, whole.epochs[i].name)
    ensures k < excess ==> PinNumber(whole, whole.epochs[k].name)
    decreases |names|
  {
    k := done;
    if names != [] {
      var name := names[0];
      assert name == whole.epochs[done].name;
      assert whole.epochs[|whole.epochs| - 1].name.number > name.number;
      if !StopsRetirement(record, name) {
        TailWithoutFirst(whole.epochs, done);
        k := RetireTail(whole, whole.(epochs := whole.epochs[done + 1..]), done + 1, excess, names[1..]);
      }
    }
  }

  predicate PinNumber(record: Record, name: EpochName) {
    record.pin.Some? && record.pin.value.Epoch? && name.Epoch? && name.number >= record.pin.value.number
  }

  lemma TailWithoutFirst(epochs: seq<EpochEntry>, done: nat)
    requires Ascending(epochs) && done < |epochs|
    ensures Without(epochs[done..], epochs[done].name) == epochs[done + 1..]
  {
    WithoutFirst(epochs[done..]);
    assert epochs[done..][1..] == epochs[done + 1..];
  }

  lemma WithoutFirst(epochs: seq<EpochEntry>)
    requires Ascending(epochs) && epochs != []
    ensures Without(epochs, epochs[0].name) == epochs[1..]
  {
    if |epochs| > 1 {
      WithoutFirst(epochs[..|epochs| - 1]);
      assert epochs[1..] == epochs[..|epochs| - 1][1..] + [epochs[|epochs| - 1]];
    } else {
      assert epochs[..0] == [];
    }
  }

  // ---- the world behind the RPCs -------------------------------------------------

  datatype Fate = Answered | Unreachable | ReplyLost | Crashed

  /** What the rest of the system does before an RPC is served, and what becomes of that RPC. */
  datatype Turn = Turn(others: seq<Action>, fate: Fate)

  /** Steps the scheduler does not take itself. */
  predicate IsEnvironment(a: Action) {
    a.Write? || a.LegFails? || a.MarkStale? || a.MarkStandby? || a.SetPin? || a.UserSnapshot?
  }

  function Members(record: Record): seq<string> {
    seq(|record.replicas|, i requires 0 <= i < |record.replicas| => record.replicas[i].uuid)
  }

  ghost predicate SameEpochs(w: World, v: World) {
    && v.record.epochs == w.record.epochs && v.record.currentEpoch == w.record.currentEpoch
    && v.recAt == w.recAt && v.cutLegs == w.cutLegs && v.live == w.live
    && v.heads.Keys == w.heads.Keys && Members(v.record) == Members(w.record)
  }

  /** What a pass may touch: the epoch snapshots numbered lo up to, not including, hi, on the given legs. */
  datatype Scope = Scope(legs: set<Leg>, lo: nat, hi: nat) {
    predicate Covers(leg: Leg, name: EpochName) {
      leg in legs && name.Epoch? && lo <= name.number < hi
    }
  }

  const NOTHING := Scope({}, 0, 0)

  /**
   Between `w` and `v` no epoch was recorded or retired, outside the scope no snapshot was lost or altered and no epoch
   snapshot appeared, no replica came into sync, and heads moved only if something was written.
   */
  ghost predicate Only(w: World, v: World, scope: Scope) {
    && SameEpochs(w, v)
    && (forall l, n {:trigger Holds(w, l, n)} :: Holds(w, l, n) && !scope.Covers(l, n) ==> Holds(v, l, n) && v.snaps[(l, n)] == w.snaps[(l, n)])
    && (forall l, n {:trigger Holds(v, l, n)} :: Holds(v, l, n) && n.Epoch? && !scope.Covers(l, n) ==> Holds(w, l, n))
    && (forall u {:trigger InSyncIn(v.record, u)} :: InSyncIn(v.record, u) ==> InSyncIn(w.record, u))
    && w.written <= v.written
    && (v.written == w.written ==> v.heads == w.heads)
  }

  /** One more change that stays within the scope. */
  lemma OnlyExtends(a: World, b: World, c: World, part: Scope, scope: Scope)
    requires Only(a, b, scope) && Only(b, c, part)
    requires part.legs <= scope.legs && (part.lo < part.hi ==> scope.lo <= part.lo && part.hi <= scope.hi)
    ensures Only(a, c, scope)
  {
    assert forall l, n :: part.Covers(l, n) ==> scope.Covers(l, n);
  }

  function Legs(targets: seq<Target>): set<Leg> {
    set t | t in targets :: t.uuid
  }

  lemma LegsSnoc(targets: seq<Target>, t: Target)
    ensures Legs(targets + [t]) == Legs(targets) + {t.uuid}
  {
  }

  lemma LegsMember(targets: seq<Target>, i: nat)
    requires i < |targets|
    ensures targets[i].uuid in Legs(targets)
  {
  }

  ghost predicate AllHold(w: World, targets: seq<Target>, number: nat) {
    forall i :: 0 <= i < |targets| ==> Holds(w, targets[i].uuid, Epoch(number))
  }

  lemma PrefixSnoc(targets: seq<Target>, i: nat)
    requires i < |targets|
    ensures targets[..i + 1] == targets[..i] + [targets[i]]
  {
  }

  lemma AllHoldExtends(w: World, v: World, targets: seq<Target>, t: Target, number: nat)
    requires AllHold(w, targets, number) && Kept(w, v)
    ensures AllHold(v, targets, number)
    ensures Holds(v, t.uuid, Epoch(number)) ==> AllHold(v, targets + [t], number)
  {
    forall i | 0 <= i < |targets| ensures Holds(v, targets[i].uuid, Epoch(number)) {
      assert Holds(w, targets[i].uuid, Epoch(number));
    }
  }

  ghost predicate NoneHold(w: World, targets: seq<Target>, number: nat) {
    forall i :: 0 <= i < |targets| ==> !Holds(w, targets[i].uuid, Epoch(number))
  }

  /** No leg is targeted twice. */
  predicate Apart(targets: seq<Target>) {
    forall i, j :: 0 <= i < j < |targets| ==> targets[i].uuid != targets[j].uuid
  }

  /** A snapshot on one target puts none on the targets after it; and none stood on it if none stood on any. */
  lemma OthersStayClear(w: World, v: World, targets: seq<Target>, i: nat, number: nat)
    requires i < |targets| && Only(w, v, Scope({targets[i].uuid}, number, number + 1))
    ensures NoneHold(w, targets[i..], number) ==> !Holds(w, targets[i].uuid, Epoch(number))
    ensures Apart(targets) && NoneHold(w, targets[i..], number) ==> NoneHold(v, targets[i + 1..], number)
  {
    var later := targets[i + 1..];
    if NoneHold(w, targets[i..], number) {
      assert targets[i..][0] == targets[i];
      forall j | 0 <= j < |later| && Apart(targets) ensures !Holds(v, later[j].uuid, Epoch(number)) {
        assert later[j] == targets[i..][j + 1] == targets[i + 1 + j];
      }
    }
  }

  lemma NoneHoldNext(w: World, v: World, targets: seq<Target>, i: nat, number: nat)
    requires i < |targets| && Only(w, v, Scope({targets[i].uuid}, number, number + 1))
    ensures NoneHold(w, targets[..i], number) && !Holds(v, targets[i].uuid, Epoch(number)) ==> NoneHold(v, targets[..i + 1], number)
  {
    if NoneHold(w, targets[..i], number) && !Holds(v, targets[i].uuid, Epoch(number)) {
      var more := targets[..i + 1];
      forall j | 0 <= j < |more| ensures !Holds(v, more[j].uuid, Epoch(number)) {
        if j < i {
          assert targets[..i][j] == targets[j];
        }
      }
    }
  }

  function CutScope(plan: CutPlan): Scope {
    Scope(Legs(plan.targets), plan.number, plan.number + 1)
  }

  /** The oldest retained epoch's number; 0, below which nothing lies, when there is none to compare with. */
  function Oldest(record: Record): nat {
    if record.epochs != [] && record.epochs[0].name.Epoch? then record.epochs[0].name.number else 0
  }

  function Uuids(targets: seq<Target>): seq<string> {
    seq(|targets|, i requires 0 <= i < |targets| => targets[i].uuid)
  }

  /** The next n RPCs are all answered (an exhausted script answers). */
  ghost predicate Answering(turns: seq<Turn>, n: nat) {
    forall i :: 0 <= i < n && i < |turns| ==> turns[i].fate == Answered
  }

  function Rest(turns: seq<Turn>, n: nat): seq<Turn> {
    if n <= |turns| then turns[n..] else []
  }

  lemma AnsweringNext(turns: seq<Turn>, n: nat, i: nat)
    requires i < n
    ensures Answering(turns, n) ==> Answering(Rest(turns, i), 1)
    ensures Rest(Rest(turns, i), 1) == Rest(turns, i + 1)
  {
  }

  ghost predicate AllAnswered(turns: seq<Turn>) {
    forall i :: 0 <= i < |turns| ==> turns[i].fate == Answered
  }

  lemma AnsweredRest(turns: seq<Turn>, n: nat)
    ensures AllAnswered(turns) ==> Answering(turns, n) && AllAnswered(Rest(turns, n))
  {
  }

  function GcScope(record: Record, infos: seq<ReplicaInfo>): Scope {
    Scope(set info | info in infos :: info.uuid, 0, Oldest(record))
  }

  /** The target's head exists and is addressed by its live uuid. */
  predicate Reachable(w: World, t: Target) {
    t.uuid in w.live && w.live[t.uuid] == t.source && t.uuid in w.heads
  }

  /** Every replica of the record can be addressed: what reconciling the membership at load establishes. */
  ghost predicate Addressed(record: Record, infos: seq<ReplicaInfo>) {
    forall r :: r in record.replicas ==> FindInfo(infos, r.uuid).Some?
  }

  ghost predicate AllReachable(w: World, targets: seq<Target>) {
    forall i :: 0 <= i < |targets| ==> Reachable(w, targets[i])
  }

  /** Every snapshot that stood before still stands, untouched. */
  ghost predicate Kept(w: World, v: World) {
    forall l, n :: Holds(w, l, n) ==> Holds(v, l, n) && v.snaps[(l, n)] == w.snaps[(l, n)]
  }

  ghost predicate CreatedSince(w: World, v: World, t: Target, number: nat) {
    && !Holds(w, t.uuid, Epoch(number))
    && Holds(v, t.uuid, Epoch(number)) && t.uuid in v.heads
    && (v.written == w.written ==> v.snaps[(t.uuid, Epoch(number))].content == v.heads[t.uuid])
  }

  ghost predicate AllCreated(w: World, v: World, targets: seq<Target>, number: nat) {
    forall i :: 0 <= i < |targets| ==> CreatedSince(w, v, targets[i], number)
  }

  lemma AllCreatedExtends(w: World, b: World, v: World, targets: seq<Target>, t: Target, number: nat)
    requires AllCreated(w, b, targets, number) && CreatedSince(b, v, t, number)
    requires Kept(w, b) && Kept(b, v) && w.written <= b.written <= v.written && (v.written == b.written ==> v.heads == b.heads)
    requires b.heads.Keys == v.heads.Keys
    ensures AllCreated(w, v, targets + [t], number)
  {
    forall i | 0 <= i < |targets| + 1 ensures CreatedSince(w, v, (targets + [t])[i], number) {
      if i < |targets| {
        assert CreatedSince(w, b, targets[i], number);
      }
    }
  }

  /** The first i targets of a strict cut were created by it, and nothing that stood is gone. */
  ghost predicate StrictSoFar(start: World, w: World, plan: CutPlan, i: nat) {
    && i <= |plan.targets| && Only(start, w, CutScope(plan)) && Kept(start, w)
    && AllCreated(start, w, plan.targets[..i], plan.number)
  }

  /** Every target is there, no leg is targeted twice, and the name stands on none. */
  ghost predicate Uncut(w: World, plan: CutPlan) {
    AllReachable(w, plan.targets) && Apart(plan.targets) && NoneHold(w, plan.targets, plan.number)
  }

  lemma StrictNext(start: World, b: World, v: World, plan: CutPlan, i: nat)
    requires i < |plan.targets| && StrictSoFar(start, b, plan, i) && Kept(b, v) && Only(start, v, CutScope(plan))
    requires Only(b, v, Scope({plan.targets[i].uuid}, plan.number, plan.number + 1))
    ensures StrictSoFar(start, v, plan, i)
    ensures CreatedSince(b, v, plan.targets[i], plan.number) ==> StrictSoFar(start, v, plan, i + 1)
  {
    var created, target := plan.targets[..i], plan.targets[i];
    forall j | 0 <= j < |created| ensures CreatedSince(start, v, created[j], plan.number) {
      assert CreatedSince(start, b, created[j], plan.number);
    }
    if CreatedSince(b, v, target, plan.number) {
      AllCreatedExtends(start, b, v, created, target, plan.number);
      PrefixSnoc(plan.targets, i);
    }
  }

  /** Rolling back what a call created leaves everything that stood before it. */
  lemma KeptThroughRollback(w: World, f: World, v: World, created: seq<Target>, number: nat)
    requires Kept(w, f) && Only(f, v, Scope(Legs(created), number, number + 1))
    requires forall i :: 0 <= i < |created| ==> !Holds(w, created[i].uuid, Epoch(number))
    ensures Kept(w, v)
  {
    var scope := Scope(Legs(created), number, number + 1);
    forall l, n | Holds(w, l, n) ensures Holds(v, l, n) && v.snaps[(l, n)] == w.snaps[(l, n)] {
      assert !scope.Covers(l, n);
    }
  }

  lemma EnvironmentOnly(w: World, a: Action)
    requires Inv(w) && IsEnvironment(a)
    ensures Only(w, Step(w, a), NOTHING)
  {
    if Enabled(w, a) {
      match a {
        case Write => WriteOnly(w);
        case LegFails(_) =>
        case MarkStale(leg) => MarkOnly(w, leg, Stale, None);
        case MarkStandby(leg, mark) => MarkOnly(w, leg, Standby, Some(mark));
        case SetPin(_) =>
        case UserSnapshot(_, _) =>
      }
    }
  }

  lemma WriteOnly(w: World)
    requires Inv(w) && Enabled(w, Write)
    ensures Only(w, Perform(w, Write), NOTHING)
  {
    assert w.clock !in w.written;
  }

  lemma MarkOnly(w: World, leg: Leg, state: SyncState, mark: Option<EpochName>)
    requires state != InSync
    ensures Only(w, w.(clock := w.clock + 1, record := SetState(w.record, leg, state, mark)), NOTHING)
  {
    var after := SetState(w.record, leg, state, mark);
    assert Members(after) == Members(w.record);
    forall u | InSyncIn(after, u) ensures InSyncIn(w.record, u) {
      var i :| 0 <= i < |after.replicas| && after.replicas[i].uuid == u && after.replicas[i].state == InSync;
      assert w.record.replicas[i].uuid == u && w.record.replicas[i].state == InSync;
    }
  }

  ghost predicate StepsTo(w: World, v: World) {
    exists a :: v == Step(w, a)
  }

  ghost predicate IsTrail(trail: seq<World>, w: World) {
    && trail != [] && Initial(trail[0]) && trail[|trail| - 1] == w
    && forall i :: 0 <= i < |trail| - 1 ==> StepsTo(trail[i], trail[i + 1])
  }

  lemma TrailStep(trail: seq<World>, w: World, a: Action)
    requires IsTrail(trail, w)
    ensures IsTrail(trail + [Step(w, a)], Step(w, a))
  {
    var longer := trail + [Step(w, a)];
    forall i | 0 <= i < |longer| - 1 ensures StepsTo(longer[i], longer[i + 1]) {
      if i < |trail| - 1 {
        assert StepsTo(trail[i], trail[i + 1]);
      }
    }
  }

  /** A trail is a run of the machine, so everything proved of runs holds of the cluster's world. */
  lemma {:induction false} TrailIsARun(trail: seq<World>, w: World) returns (actions: seq<Action>)
    requires IsTrail(trail, w)
    ensures w == Run(trail[0], actions)
  {
    if |trail| == 1 {
      actions := [];
    } else {
      var init := trail[..|trail| - 1];
      assert StepsTo(trail[|trail| - 2], trail[|trail| - 1]);
      var a :| w == Step(trail[|trail| - 2], a);
      forall i | 0 <= i < |init| - 1 ensures StepsTo(init[i], init[i + 1]) {
        assert StepsTo(trail[i], trail[i + 1]);
      }
      var before := TrailIsARun(init, init[|init| - 1]);
      actions := before + [a];
      assert actions[..|actions| - 1] == before;
    }
  }

  lemma TrailInv(trail: seq<World>, w: World)
    requires IsTrail(trail, w)
    ensures Inv(w)
  {
    var actions := TrailIsARun(trail, w);
    RunInv(trail[0], actions);
  }

  class Cluster {
    var world: World
    var turns: seq<Turn>
    var alive: bool
    ghost var trail: seq<World>

    /** The world is where a run of the step machine from a fresh volume has led. */
    ghost predicate Valid()
      reads this
    {
      IsTrail(trail, world)
    }

    constructor (w: World, script: seq<Turn>)
      requires Initial(w)
      ensures Valid() && world == w && turns == script && alive
    {
      world, turns, alive := w, script, true;
      trail := [w];
    }

    /** A new controller process. */
    method Restart()
      modifies this`alive
      ensures alive
    {
      alive := true;
    }

    method Act(a: Action)
      requires Valid()
      modifies this`world, this`trail
      ensures Valid() && Inv(old(world)) && world == Step(old(world), a)
    {
      TrailInv(trail, world);
      TrailStep(trail, world, a);
      world := Step(world, a);
      trail := trail + [world];
    }

    method Take(leg: Leg, number: nat)
      requires Valid() && number == Next(world) && leg in world.heads && !Holds(world, leg, Epoch(number))
      modifies this`world, this`trail
      ensures Valid() && Only(old(world), world, Scope({leg}, number, number + 1))
      ensures Holds(world, leg, Epoch(number)) && leg in world.heads
      ensures world.snaps[(leg, Epoch(number))].content == world.heads[leg] && world.written == old(world).written
    {
      Act(TakeSnapshot(leg, number));
    }

    method Drop(leg: Leg, number: nat)
      requires Valid() && Reapable(world, Epoch(number)) && Holds(world, leg, Epoch(number))
      modifies this`world, this`trail
      ensures Valid() && Only(old(world), world, Scope({leg}, number, number + 1))
      ensures !Holds(world, leg, Epoch(number))
    {
      Act(DeleteSnapshot(leg, Epoch(number)));
    }

    method Interfere(others: seq<Action>)
      requires Valid()
      modifies this`world, this`trail
      ensures Valid() && Only(old(world), world, NOTHING)
    {
      for i := 0 to |others|
        invariant Valid() && Only(old(world), world, NOTHING)
      {
        if IsEnvironment(others[i]) {
          ghost var before := world;
          Act(others[i]);
          EnvironmentOnly(before, others[i]);
          OnlyExtends(old(world), before, world, NOTHING, NOTHING);
        }
      }
    }

    /** The next turn: the others act, then the pending RPC learns its fate. */
    method NextTurn() returns (fate: Fate)
      requires Valid()
      modifies this
      ensures Valid() && Only(old(world), world, NOTHING)
      ensures turns == Rest(old(turns), 1)
      ensures old(alive) && Answering(old(turns), 1) ==> fate == Answered && alive
      ensures old(turns) == [] ==> world == old(world)
      ensures alive ==> old(alive)
    {
      fate := Answered;
      if turns != [] {
        fate := turns[0].fate;
        Interfere(turns[0].others);
        turns := turns[1..];
      }
      if fate == Crashed {
        alive := false;
      }
      if !alive {
        fate := Unreachable;
      }
    }

    /** `bdev_lvol_snapshot`: snapshot the head addressed by `source` under the epoch's name. */
    method SnapshotRpc(t: Target, number: nat) returns (reply: Reply)
      requires Valid() && number == Next(world)
      modifies this
      ensures Valid() && Only(old(world), world, Scope({t.uuid}, number, number + 1)) && Kept(old(world), world)
      ensures turns == Rest(old(turns), 1)
      ensures alive ==> old(alive)
      ensures reply == Done || reply == Exists || reply == Failed
      ensures reply == Done ==> CreatedSince(old(world), world, t, number)
      ensures reply == Exists ==> Holds(old(world), t.uuid, Epoch(number))
      ensures old(alive) && Answering(old(turns), 1) ==> alive && (Reachable(old(world), t) ==> reply != Failed)
    {
      var fate := NextTurn();
      reply := Failed;
      if fate != Unreachable && Reachable(world, t) {
        if Holds(world, t.uuid, Epoch(number)) {
          reply := Exists;
        } else {
          Take(t.uuid, number);
          reply := Done;
        }
        if fate == ReplyLost {
          reply := Failed;
        }
      }
    }

    /** `bdev_lvol_delete` of an epoch snapshot. */
    method DeleteRpc(leg: Leg, number: nat) returns (reply: Reply)
      requires Valid() && Reapable(world, Epoch(number))
      modifies this
      ensures Valid() && Only(old(world), world, Scope({leg}, number, number + 1))
      ensures turns == Rest(old(turns), 1)
      ensures alive ==> old(alive)
      ensures Holds(world, leg, Epoch(number)) ==> Holds(old(world), leg, Epoch(number)) && reply == Failed
      ensures old(alive) && Answering(old(turns), 1) ==> reply != Failed && alive
    {
      var fate := NextTurn();
      reply := Failed;
      if fate != Unreachable {
        reply := Missing;
        if Holds(world, leg, Epoch(number)) {
          Drop(leg, number);
          reply := Done;
        }
        if fate == ReplyLost {
          reply := Failed;
        }
      }
    }

    /** Cut the planned epoch on every target, all or abort; a name already standing counts as cut. */
    method ExecuteCut(plan: CutPlan) returns (outcome: CutOutcome)
      requires Valid() && plan.number == Next(world)
      modifies this
      ensures Valid() && Only(old(world), world, CutScope(plan))
      ensures alive ==> old(alive)
      ensures outcome.Recorded? ==> outcome.cut == Uuids(plan.targets) && AllHold(world, plan.targets, plan.number)
      ensures outcome.Aborted? ==> outcome.failures != []
      ensures old(alive) && Answering(old(turns), |plan.targets|) && AllReachable(old(world), plan.targets) ==>
                outcome.Recorded? && alive && turns == Rest(old(turns), |plan.targets|)
      ensures old(alive) && AllAnswered(old(turns)) ==> alive && AllAnswered(turns)
    {
      AnsweredRest(turns, |plan.targets|);
      var succeeded, failures := CutEach(plan);
      if failures == [] {
        return Recorded(Uuids(succeeded));
      }
      ghost var before := world;
      AnsweredRest(turns, |succeeded|);
      RollbackCut(succeeded, plan.number);
      OnlyExtends(old(world), before, world, Scope(Legs(succeeded), plan.number, plan.number + 1), CutScope(plan));
      return Aborted(failures);
    }

    /** Try every target, whatever the earlier ones answered. */
    method CutEach(plan: CutPlan) returns (succeeded: seq<Target>, failures: seq<(string, Reply)>)
      requires Valid() && plan.number == Next(world)
      modifies this
      ensures Valid() && Only(old(world), world, CutScope(plan))
      ensures alive ==> old(alive)
      ensures turns == Rest(old(turns), |plan.targets|)
      ensures failures == [] ==> succeeded == plan.targets
      ensures AllHold(world, succeeded, plan.number) && Legs(succeeded) <= Legs(plan.targets)
      ensures old(alive) && Answering(old(turns), |plan.targets|) ==>
                alive && (AllReachable(old(world), plan.targets) ==> failures == [])
    {
      succeeded, failures := [], [];
      ghost var fine := old(alive) && Answering(old(turns), |plan.targets|);
      for i := 0 to |plan.targets|
        invariant Valid() && Only(old(world), world, CutScope(plan))
        invariant alive ==> old(alive)
        invariant turns == Rest(old(turns), i)
        invariant failures == [] ==> succeeded == plan.targets[..i]
        invariant AllHold(world, succeeded, plan.number) && Legs(succeeded) <= Legs(plan.targets)
        invariant fine ==> alive && (AllReachable(old(world), plan.targets) ==> failures == [])
      {
        AnsweringNext(old(turns), |plan.targets|, i);
        assert AllReachable(old(world), plan.targets) ==> Reachable(world, plan.targets[i]);
        var reply := CutOne(plan, i, old(world), succeeded);
        PrefixSnoc(plan.targets, i);
        LegsMember(plan.targets, i);
        LegsSnoc(succeeded, plan.targets[i]);
        if reply == Done || reply == Exists {
          succeeded := succeeded + [plan.targets[i]];
        } else {
          failures := failures + [(plan.targets[i].node, reply)];
        }
      }
    }

    /** One target's cut; what was cut before it stays. */
    method CutOne(plan: CutPlan, i: nat, ghost start: World, ghost succeeded: seq<Target>) returns (reply: Reply)
      requires Valid() && plan.number == Next(world) && i < |plan.targets|
      requires Only(start, world, CutScope(plan)) && AllHold(world, succeeded, plan.number)
      modifies this
      ensures Valid() && Only(start, world, CutScope(plan)) && AllHold(world, succeeded, plan.number)
      ensures turns == Rest(old(turns), 1)
      ensures alive ==> old(alive)
      ensures reply == Done || reply == Exists ==> AllHold(world, succeeded + [plan.targets[i]], plan.number)
      ensures old(alive) && Answering(old(turns), 1) ==>
                alive && (Reachable(old(world), plan.targets[i]) ==> reply == Done || reply == Exists)
    {
      var target := plan.targets[i];
      reply := SnapshotRpc(target, plan.number);
      LegsMember(plan.targets, i);
      OnlyExtends(start, old(world), world, Scope({target.uuid}, plan.number, plan.number + 1), CutScope(plan));
      AllHoldExtends(old(world), world, succeeded, target, plan.number);
    }

    /** Best-effort delete of a partial cut: whatever answers is gone, whatever does not is a leftover. */
    method RollbackCut(targets: seq<Target>, number: nat)
      requires Valid() && number == Next(world)
      modifies this
      ensures Valid() && Only(old(world), world, Scope(Legs(targets), number, number + 1))
      ensures alive ==> old(alive)
      ensures turns == Rest(old(turns), |targets|)
      ensures old(alive) && Answering(old(turns), |targets|) ==>
                alive && NoneHold(world, targets, number)
    {
      ghost var scope := Scope(Legs(targets), number, number + 1);
      for i := 0 to |targets|
        invariant Valid() && Only(old(world), world, scope)
        invariant alive ==> old(alive)
        invariant turns == Rest(old(turns), i)
        invariant old(alive) && Answering(old(turns), |targets|) ==>
                    alive && NoneHold(world, targets[..i], number)
      {
        ghost var before := world;
        AnsweringNext(old(turns), |targets|, i);
        var _ := DeleteRpc(targets[i].uuid, number);
        OnlyExtends(old(world), before, world, Scope({targets[i].uuid}, number, number + 1), scope);
        NoneHoldNext(before, world, targets, i, number);
      }
    }

    /**
     The cut whose name must denote this instant on every target: a standing name is refused, and only snapshots this
     call made are rolled back.
     */
    method ExecuteCutStrict(plan: CutPlan) returns (outcome: CutOutcome)
      requires Valid() && plan.number == Next(world)
      modifies this
      ensures Valid() && Only(old(world), world, CutScope(plan)) && Kept(old(world), world)
      ensures alive ==> old(alive)
      ensures outcome.Recorded? ==>
                && outcome.cut == Uuids(plan.targets)
                && AllCreated(old(world), world, plan.targets, plan.number)
      ensures outcome.Aborted? ==> |outcome.failures| == 1
      ensures old(alive) && Answering(old(turns), |plan.targets|) && Uncut(old(world), plan) ==> outcome.Recorded? && alive
    {
      ghost var start := world;
      ghost var fine := old(alive) && Answering(old(turns), |plan.targets|) && Uncut(old(world), plan);
      for i := 0 to |plan.targets|
        invariant Valid() && StrictSoFar(start, world, plan, i)
        invariant alive ==> old(alive)
        invariant turns == Rest(old(turns), i)
        invariant fine ==> alive && NoneHold(world, plan.targets[i..], plan.number)
      {
        AnsweringNext(old(turns), |plan.targets|, i);
        var reply := CutOneStrict(plan, i, start);
        if reply != Done {
          RollbackStrict(plan, i, start);
          return Aborted([(plan.targets[i].node, reply)]);
        }
      }
      assert plan.targets[..|plan.targets|] == plan.targets;
      return Recorded(Uuids(plan.targets));
    }

    /** One target's strict cut. */
    method CutOneStrict(plan: CutPlan, i: nat, ghost start: World) returns (reply: Reply)
      requires Valid() && plan.number == Next(world) && i < |plan.targets| && StrictSoFar(start, world, plan, i)
      modifies this
      ensures Valid() && turns == Rest(old(turns), 1)
      ensures alive ==> old(alive)
      ensures StrictSoFar(start, world, plan, if reply == Done then i + 1 else i)
      ensures old(alive) && Answering(old(turns), 1) && Uncut(start, plan) && NoneHold(old(world), plan.targets[i..], plan.number) ==>
                alive && reply == Done && NoneHold(world, plan.targets[i + 1..], plan.number)
    {
      var target := plan.targets[i];
      reply := SnapshotRpc(target, plan.number);
      LegsMember(plan.targets, i);
      OnlyExtends(start, old(world), world, Scope({target.uuid}, plan.number, plan.number + 1), CutScope(plan));
      OthersStayClear(old(world), world, plan.targets, i, plan.number);
      StrictNext(start, old(world), world, plan, i);
    }

    /** Undo what this call created; whatever stood before it stays. */
    method RollbackStrict(plan: CutPlan, i: nat, ghost start: World)
      requires Valid() && plan.number == Next(world) && i <= |plan.targets| && StrictSoFar(start, world, plan, i)
      modifies this
      ensures Valid() && Only(start, world, CutScope(plan)) && Kept(start, world)
      ensures alive ==> old(alive)
    {
      RollbackCut(plan.targets[..i], plan.number);
      OnlyExtends(start, old(world), world, Scope(Legs(plan.targets[..i]), plan.number, plan.number + 1), CutScope(plan));
      KeptThroughRollback(start, old(world), world, plan.targets[..i], plan.number);
    }

    /** `bdev_lvol_get_lvols`: the snapshot names standing on a leg, or nothing when the node does not answer. */
    method ListRpc(leg: Leg) returns (found: Option<seq<EpochName>>)
      requires Valid()
      modifies this
      ensures Valid() && Only(old(world), world, NOTHING)
      ensures turns == Rest(old(turns), 1)
      ensures alive ==> old(alive)
      ensures found.Some? ==> forall n :: n in found.value <==> Holds(world, leg, n)
      ensures old(alive) && Answering(old(turns), 1) ==> found.Some? && alive
    {
      var fate := NextTurn();
      if fate != Answered {
        return None;
      }
      var left := set p | p in world.snaps.Keys && p.0 == leg :: p.1;
      var names: seq<EpochName> := [];
      while left != {}
        invariant forall n :: Holds(world, leg, n) <==> n in left || n in names
        decreases left
      {
        var n :| n in left;
        names := names + [n];
        left := left - {n};
      }
      return Some(names);
    }

    /** Reap rolled-out epoch snapshots on every replica, whatever its sync state. */
    method ExecuteGc(record: Record, infos: seq<ReplicaInfo>)
      requires Valid() && record.epochs == world.record.epochs
      modifies this
      ensures Valid() && Only(old(world), world, GcScope(record, infos))
      ensures alive ==> old(alive)
      ensures old(alive) && AllAnswered(old(turns)) ==> forall info, k: nat :: info in infos && k < Oldest(record) ==> !Holds(world, info.uuid, Epoch(k))
    {
      if record.epochs == [] {
        return;
      }
      ghost var fine := old(alive) && AllAnswered(old(turns));
      for i := 0 to |infos|
        invariant Valid() && Only(old(world), world, GcScope(record, infos))
        invariant alive ==> old(alive)
        invariant fine ==> alive && AllAnswered(turns)
        invariant fine ==> forall info, k: nat :: info in infos[..i] && k < Oldest(record) ==> !Holds(world, info.uuid, Epoch(k))
      {
        GcOn(infos[i].uuid, record, old(world), GcScope(record, infos));
      }
    }

    /** List one replica and reap what has rolled out. */
    method GcOn(leg: Leg, record: Record, ghost start: World, ghost scope: Scope)
      requires Valid() && record.epochs == world.record.epochs && record.epochs != []
      requires Only(start, world, scope) && leg in scope.legs && scope.lo == 0 && scope.hi == Oldest(record)
      modifies this
      ensures Valid() && Only(start, world, scope) && record.epochs == world.record.epochs
      ensures forall l, k: nat :: Holds(world, l, Epoch(k)) && k < Oldest(record) ==> Holds(old(world), l, Epoch(k))
      ensures alive ==> old(alive)
      ensures old(alive) && AllAnswered(old(turns)) ==>
                alive && AllAnswered(turns) && forall k: nat :: k < Oldest(record) ==> !Holds(world, leg, Epoch(k))
    {
      var found := ListRpc(leg);
      OnlyExtends(start, old(world), world, NOTHING, scope);
      if found.Some? {
        ghost var listed := world;
        ReapOn(leg, record, GcCandidates(record, found.value));
        OnlyExtends(start, listed, world, Scope({leg}, 0, Oldest(record)), scope);
      }
    }

    /** Delete the candidates one by one; a delete that fails is left for the next pass. */
    method ReapOn(leg: Leg, record: Record, candidates: seq<EpochName>)
      requires Valid() && record.epochs == world.record.epochs
      requires forall n :: n in candidates ==> n.Epoch? && n.number < Oldest(record)
      modifies this
      ensures Valid() && Only(old(world), world, Scope({leg}, 0, Oldest(record)))
      ensures forall l, k :: Holds(world, l, Epoch(k)) ==> Holds(old(world), l, Epoch(k))
      ensures alive ==> old(alive)
      ensures old(alive) && AllAnswered(old(turns)) ==>
                alive && AllAnswered(turns) && forall n :: n in candidates ==> !Holds(world, leg, n)
    {
      ghost var scope := Scope({leg}, 0, Oldest(record));
      for i := 0 to |candidates|
        invariant Valid() && Only(old(world), world, scope)
        invariant forall l, k :: Holds(world, l, Epoch(k)) ==> Holds(old(world), l, Epoch(k))
        invariant alive ==> old(alive)
        invariant old(alive) && AllAnswered(old(turns)) ==>
                    alive && AllAnswered(turns) && forall n :: n in candidates[..i] ==> !Holds(world, leg, n)
      {
        ghost var before := world;
        var number := candidates[i].number;
        var _ := DeleteRpc(leg, number);
        OnlyExtends(old(world), before, world, Scope({leg}, number, number + 1), scope);
      }
    }

    /** The record write of a common epoch. */
    method RecordEpoch(plan: CutPlan, now: int)
      requires Valid() && plan.number == Next(world) && AllHold(world, plan.targets, plan.number)
      requires forall u :: InSyncIn(world.record, u) ==> u in Uuids(plan.targets)
      modifies this`world, this`trail
      ensures Valid() && world.snaps == old(world).snaps && |world.recAt| == |old(world).recAt| + 1
      ensures world.record == ApplyEpochCut(old(world).record, Epoch(plan.number), Uuids(plan.targets), Some(now))
    {
      forall r | r in world.record.replicas && r.state == InSync ensures r.uuid in Uuids(plan.targets) {
        assert InSyncIn(world.record, r.uuid);
      }
      Act(RecordCut(plan.number, Uuids(plan.targets), Some(now)));
    }

    /** The record write of a retention pass. */
    method RetireFromRecord(names: seq<EpochName>)
      requires Valid()
      modifies this`world, this`trail
      ensures Valid() && world.snaps == old(world).snaps && world.recAt == old(world).recAt
      ensures world.record == RetireEpochs(old(world).record, names) && Trimmed(old(world).record, world.record)
    {
      TrailInv(trail, world);
      RetireKeeps(world.record, names);
      Act(Retire(names));
    }

    /**
     One pass over a volume: load the record, cut if due and record the epoch as common, roll retention, reap. A pass
     that aborts or dies anywhere records nothing it did not hold on every in-sync leg. `loaded` is the record the pass
     read: with every RPC answered it gets through, whatever others do meanwhile, and records what it planned from it.
     */
    method RunEpochCycle(infos: seq<ReplicaInfo>, attached: bool, now: int, cfg: Config)
      returns (result: Result<(), ()>, ghost loaded: Record)
      requires Valid() && Addressed(world.record, infos)
      modifies this
      ensures Valid()
      ensures |old(world).recAt| <= |world.recAt| <= |old(world).recAt| + 1
      ensures |world.recAt| == |old(world).recAt| ==> forall e :: e in world.record.epochs ==> e in old(world).record.epochs
      ensures loaded.epochs == old(world).record.epochs && Members(loaded) == Members(old(world).record)
      ensures forall u :: InSyncIn(loaded, u) ==> InSyncIn(old(world).record, u)
      ensures old(turns) == [] ==> loaded == old(world).record
      ensures old(alive) && AllAnswered(old(turns)) ==>
                && result.Ok?
                && (var plan := PlanCut(loaded, infos, attached, now, cfg);
                    plan.Some? && AllReachable(old(world), plan.value.targets) ==> |world.recAt| == |old(world).recAt| + 1)
    {
      AnsweredRest(turns, 1);
      var fate := NextTurn();
      loaded := world.record;
      if fate != Answered {
        return Err(()), loaded;
      }
      AddressedStays(old(world), world, infos);
      var plan := PlanCut(world.record, infos, attached, now, cfg);
      if plan.Some? {
        var recorded := CutAndRecord(plan.value, infos, attached, now, cfg);
        if !recorded {
          return Err(()), loaded;
        }
      }
      result := RetireAndReap(infos, cfg);
    }

    /** Roll retention record-first, then reap what left the record. */
    method RetireAndReap(infos: seq<ReplicaInfo>, cfg: Config) returns (result: Result<(), ()>)
      requires Valid()
      modifies this
      ensures Valid() && world.recAt == old(world).recAt
      ensures forall e :: e in world.record.epochs ==> e in old(world).record.epochs
      ensures old(alive) && AllAnswered(old(turns)) ==> result.Ok?
    {
      AnsweredRest(turns, 1);
      var retire := PlanRetention(world.record, cfg);
      if retire != [] {
        var fate := NextTurn();
        if fate == Unreachable {
          return Err(());
        }
        RetireFromRecord(retire);
        if fate != Answered {
          return Err(());
        }
      }
      ExecuteGc(world.record, infos);
      return Ok(());
    }

    /** Execute a plan and, if it stands on every target, record it; false when the record write was not confirmed. */
    method CutAndRecord(plan: CutPlan, infos: seq<ReplicaInfo>, attached: bool, now: int, cfg: Config) returns (confirmed: bool)
      requires Valid() && Addressed(world.record, infos)
      requires PlanCut(world.record, infos, attached, now, cfg) == Some(plan)
      modifies this
      ensures Valid()
      ensures |old(world).recAt| <= |world.recAt| <= |old(world).recAt| + 1
      ensures |world.recAt| == |old(world).recAt| ==> world.record.epochs == old(world).record.epochs
      ensures old(alive) && AllAnswered(old(turns)) ==>
                && alive && AllAnswered(turns) && confirmed
                && (AllReachable(old(world), plan.targets) ==> |world.recAt| == |old(world).recAt| + 1)
    {
      AnsweredRest(turns, |plan.targets|);
      PlanNamesNext(world, trail, infos, attached, now, cfg);
      ghost var planned := world.record;
      var outcome := ExecuteCut(plan);
      if outcome.Aborted? {
        return true;
      }
      AnsweredRest(turns, 1);
      var fate := NextTurn();
      if fate == Unreachable {
        return false;
      }
      RecordEpoch(plan, now);
      return fate == Answered;
    }
  }

  lemma AddressedStays(w: World, v: World, infos: seq<ReplicaInfo>)
    requires Addressed(w.record, infos) && Members(v.record) == Members(w.record)
    ensures Addressed(v.record, infos)
  {
    forall r | r in v.record.replicas ensures FindInfo(infos, r.uuid).Some? {
      var i :| 0 <= i < |v.record.replicas| && v.record.replicas[i] == r;
      assert Members(v.record)[i] == Members(w.record)[i];
      assert w.record.replicas[i] in w.record.replicas;
    }
  }

  /** In a reachable world the planned epoch is the next one, and the plan covers every in-sync replica. */
  lemma PlanNamesNext(w: World, trail: seq<World>, infos: seq<ReplicaInfo>, attached: bool, now: int, cfg: Config)
    requires IsTrail(trail, w) && Addressed(w.record, infos) && PlanCut(w.record, infos, attached, now, cfg).Some?
    ensures var plan := PlanCut(w.record, infos, attached, now, cfg).value;
            && plan.number == Next(w)
            && forall u :: InSyncIn(w.record, u) ==> u in Uuids(plan.targets)
  {
    TrailInv(trail, w);
    NextIsLatest(w);
    forall u | InSyncIn(w.record, u) ensures u in Uuids(CutTargets(w.record.replicas, infos)) {
      TargetsCover(w.record, infos, u);
    }
  }

  lemma TargetsCover(record: Record, infos: seq<ReplicaInfo>, u: string)
    requires Addressed(record, infos) && InSyncIn(record, u)
    ensures u in Uuids(CutTargets(record.replicas, infos))
  {
    var targets := CutTargets(record.replicas, infos);
    var i :| 0 <= i < |record.replicas| && record.replicas[i].uuid == u && record.replicas[i].state == InSync;
    var r := record.replicas[i];
    assert r in record.replicas;
    InSyncIsTargeted(record.replicas, infos, r);
    var t :| t in targets && TargetOf(t, r);
    var k :| 0 <= k < |targets| && targets[k] == t;
    assert Uuids(targets)[k] == u;
  }
}
