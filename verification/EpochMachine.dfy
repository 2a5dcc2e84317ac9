/**
 The durable state the epoch scheduler works on, as a step machine.

 One clock orders everything that happens to a volume. A write lands on the head of every leg the raid still holds; a
 snapshot copies a head. The scheduler's memory is not part of the state, so a controller crash between two RPCs is
 simply a run that goes on without it, and what holds of every run here holds across crashes, aborted cuts and failed
 rollbacks. `EpochScheduler` shows that the scheduler's own methods only ever take these steps.
 */
module EpochMachine {
  import opened Outcomes
  import opened SyncRecord

  type Leg = string

  /** A snapshot: when it was cut and the writes (by their time) it holds. */
  datatype Snap = Snap(cutAt: nat, content: set<nat>)

  datatype World = World(
    clock: nat,
    written: set<nat>,                           // acknowledged writes
    raid: set<Leg>,                              // legs that still receive writes
    lostAt: map<Leg, nat>,                       // when a leg dropped out of the raid
    heads: map<Leg, set<nat>>,
    live: map<Leg, string>,                      // the uuid that addresses each leg's head
    snaps: map<(Leg, EpochName), Snap>,
    record: Record,
    recAt: seq<nat>,                             // recAt[k - 1]: when epoch k was recorded
    cutLegs: map<nat, set<Leg>>)                 // the legs each epoch was recorded for

  datatype Action =
    | Write
    | LegFails(leg: Leg)
    | MarkStale(leg: Leg)
    | MarkStandby(leg: Leg, mark: EpochName)
    | SetPin(pin: Option<EpochName>)
    | UserSnapshot(leg: Leg, tag: string)
    | TakeSnapshot(leg: Leg, number: nat)
    | DeleteSnapshot(leg: Leg, name: EpochName)
    | RecordCut(number: nat, cut: seq<Leg>, now: Option<int>)
    | Retire(names: seq<EpochName>)

  predicate Holds(w: World, leg: Leg, name: EpochName) {
    (leg, name) in w.snaps
  }

  /** The number of the epoch being cut: one past the newest recorded. */
  function Next(w: World): nat {
    |w.recAt| + 1
  }

  /** Names that may be deleted: a cut not yet recorded, or an epoch older than every retained one. */
  predicate Reapable(w: World, name: EpochName) {
    && name.Epoch?
    && (|| name.number == Next(w)
        || (w.record.epochs != [] && w.record.epochs[0].name.Epoch? && name.number < w.record.epochs[0].name.number))
  }

  predicate Enabled(w: World, a: Action) {
    match a
    case Write => w.raid != {}
    case LegFails(leg) => leg in w.raid
    case MarkStale(_) => true
    case MarkStandby(_, _) => true
    case SetPin(_) => true
    case UserSnapshot(leg, tag) => leg in w.heads && !Holds(w, leg, Other(tag))
    case TakeSnapshot(leg, number) =>
      leg in w.heads && number == Next(w) && !Holds(w, leg, Epoch(number))
    case DeleteSnapshot(leg, name) => Holds(w, leg, name) && Reapable(w, name)
    case RecordCut(number, cut, _) =>
      && number == Next(w)
      && (forall u :: u in cut ==> Holds(w, u, Epoch(number)))
      && (forall r :: r in w.record.replicas && r.state == InSync ==> r.uuid in cut)
    case Retire(_) => true
  }

  function Perform(w: World, a: Action): World
    requires Enabled(w, a)
  {
    var t := w.(clock := w.clock + 1);
    match a
    case Write =>
      t.(written := w.written + {w.clock},
         heads := map leg | leg in w.heads :: if leg in w.raid then w.heads[leg] + {w.clock} else w.heads[leg])
    case LegFails(leg) => t.(raid := w.raid - {leg}, lostAt := w.lostAt[leg := w.clock])
    case MarkStale(leg) => t.(record := SetState(w.record, leg, Stale, None))
    case MarkStandby(leg, mark) => t.(record := SetState(w.record, leg, Standby, Some(mark)))
    case SetPin(pin) => t.(record := w.record.(pin := pin))
    case UserSnapshot(leg, tag) =>
      t.(snaps := w.snaps[(leg, Other(tag)) := Snap(w.clock, w.heads[leg])])
    case TakeSnapshot(leg, number) =>
      t.(snaps := w.snaps[(leg, Epoch(number)) := Snap(w.clock, w.heads[leg])])
    case DeleteSnapshot(leg, name) => t.(snaps := w.snaps - {(leg, name)})
    case RecordCut(number, cut, now) =>
      t.(record := ApplyEpochCut(w.record, Epoch(number), cut, now),
         recAt := w.recAt + [w.clock],
         cutLegs := w.cutLegs[number := set u | u in cut && InSyncIn(w.record, u)])
    case Retire(names) => t.(record := RetireEpochs(w.record, names))
  }

  /** A step that cannot be taken changes nothing, so every list of actions is a run. */
  function Step(w: World, a: Action): World {
    if Enabled(w, a) then Perform(w, a) else w
  }

  function Run(w: World, actions: seq<Action>): World {
    if actions == [] then w else Step(Run(w, actions[..|actions| - 1]), actions[|actions| - 1])
  }

  /** A fresh volume: no epochs anywhere, every leg empty and in the raid. */
  ghost predicate Initial(w: World) {
    && w.clock == 0 && w.written == {} && w.lostAt == map[] && w.recAt == [] && w.cutLegs == map[]
    && w.record.epochs == [] && w.record.currentEpoch == None
    && w.raid == w.heads.Keys
    && (forall leg :: leg in w.heads ==> w.heads[leg] == {})
    && (forall leg, name :: Holds(w, leg, name) ==> name.Other?)
  }

  // ---- the invariant ----------------------------------------------------------

  /** Writes up to time t that a leg received while the raid held it. */
  function Received(w: World, leg: Leg, t: nat): set<nat> {
    set x | x in w.written && x < t && (leg in w.lostAt ==> x < w.lostAt[leg])
  }

  ghost predicate HeadsSound(w: World) {
    && (forall x :: x in w.written ==> x < w.clock)
    && w.raid <= w.heads.Keys
    && (forall leg :: leg in w.heads ==> w.heads[leg] == Received(w, leg, w.clock))
    && (forall leg :: leg in w.heads && leg !in w.raid ==> leg in w.lostAt)
    && (forall leg :: leg in w.lostAt ==> leg !in w.raid && w.lostAt[leg] < w.clock)
  }

  /**
   Cut times and record times interleave: a snapshot of epoch k was cut at or after every older epoch was recorded, and
   before k itself was. It holds exactly the writes its leg had received by then.
   */
  ghost predicate SnapSound(w: World, leg: Leg, k: nat)
    requires Holds(w, leg, Epoch(k))
  {
    var s := w.snaps[(leg, Epoch(k))];
    && 1 <= k <= Next(w)
    && s.cutAt < w.clock
    && s.content == Received(w, leg, s.cutAt)
    && (leg in w.lostAt ==> w.lostAt[leg] != s.cutAt)
    && (k >= 2 ==> w.recAt[k - 2] < s.cutAt)
    && (k < Next(w) ==> s.cutAt < w.recAt[k - 1])
  }

  ghost predicate SnapsSound(w: World) {
    forall leg, k :: Holds(w, leg, Epoch(k)) ==> SnapSound(w, leg, k)
  }

  ghost predicate TimesAscend(w: World) {
    && (forall i :: 0 <= i < |w.recAt| ==> w.recAt[i] < w.clock)
    && (forall i, j :: 0 <= i < j < |w.recAt| ==> w.recAt[i] < w.recAt[j])
  }

  /** The newest recorded epoch is retained, so the next number is one past it. */
  ghost predicate RecordSound(w: World) {
    && Ascending(w.record.epochs)
    && CurrentIsNewest(w.record)
    && (w.recAt == [] <==> w.record.epochs == [])
    && (w.recAt != [] ==> w.record.currentEpoch == Some(Epoch(|w.recAt|)))
    && (forall e :: e in w.record.epochs ==> 1 <= e.name.number <= |w.recAt|)
    && (forall k :: k in w.cutLegs ==> 1 <= k <= |w.recAt|)
  }

  /** Every retained epoch is still on every leg it was recorded for. */
  ghost predicate RetainedPresent(w: World) {
    forall e :: e in w.record.epochs ==>
      && e.name.Epoch?
      && e.name.number in w.cutLegs
      && forall leg :: leg in w.cutLegs[e.name.number] ==> Holds(w, leg, e.name)
  }

  /** Every replica the record still calls in sync was cut for every retained epoch. */
  ghost predicate Common(w: World) {
    forall e, r :: e in w.record.epochs && r in w.record.replicas && r.state == InSync ==>
      e.name.Epoch? && e.name.number in w.cutLegs && r.uuid in w.cutLegs[e.name.number]
  }

  ghost predicate Inv(w: World) {
    HeadsSound(w) && SnapsSound(w) && TimesAscend(w) && RecordSound(w) && RetainedPresent(w) && Common(w)
  }

  lemma InitialInv(w: World)
    requires Initial(w)
    ensures Inv(w)
  {
    forall leg | leg in w.heads ensures w.heads[leg] == Received(w, leg, w.clock) {
    }
  }

  lemma StepInv(w: World, a: Action)
    requires Inv(w)
    ensures Inv(Step(w, a))
  {
    if Enabled(w, a) {
      match a
      case TakeSnapshot(leg, number) => TakeSnapshotInv(w, leg, number);
      case DeleteSnapshot(leg, name) => DeleteSnapshotInv(w, leg, name);
      case RecordCut(number, cut, now) => RecordCutInv(w, number, cut, now);
      case Retire(names) => RetireInv(w, names);
      case _ => OutsideInv(w, a);
    }
  }

  /** What happens beside the scheduler. */
  lemma OutsideInv(w: World, a: Action)
    requires Inv(w) && Enabled(w, a)
    requires !a.TakeSnapshot? && !a.DeleteSnapshot? && !a.RecordCut? && !a.Retire?
    ensures Inv(Perform(w, a))
  {
    match a
    case Write => WriteInv(w);
    case LegFails(leg) => LegFailsInv(w, leg);
    case MarkStale(leg) => MarkInv(w, leg, Stale, None);
    case MarkStandby(leg, mark) => MarkInv(w, leg, Standby, Some(mark));
    case SetPin(pin) => QuietInv(w, Perform(w, a));
    case UserSnapshot(leg, tag) => UserSnapshotInv(w, leg, tag);
  }

  lemma {:induction false} RunInv(w: World, actions: seq<Action>)
    requires Initial(w)
    ensures Inv(Run(w, actions))
  {
    if actions == [] {
      InitialInv(w);
    } else {
      RunInv(w, actions[..|actions| - 1]);
      StepInv(Run(w, actions[..|actions| - 1]), actions[|actions| - 1]);
    }
  }

  /** A snapshot keeps its soundness while time passes, writes land and legs drop out. */
  lemma SnapStaysSound(w: World, v: World, leg: Leg, k: nat)
    requires Holds(w, leg, Epoch(k)) && SnapSound(w, leg, k)
    requires Holds(v, leg, Epoch(k)) && v.snaps[(leg, Epoch(k))] == w.snaps[(leg, Epoch(k))]
    requires w.clock < v.clock && v.recAt == w.recAt
    requires forall x :: x in v.written && x < w.clock ==> x in w.written
    requires w.written <= v.written
    requires forall l :: l in w.lostAt ==> l in v.lostAt && v.lostAt[l] == w.lostAt[l]
    requires forall l :: l in v.lostAt && l !in w.lostAt ==> w.clock <= v.lostAt[l]
    ensures SnapSound(v, leg, k)
  {
    var s := w.snaps[(leg, Epoch(k))];
    assert Received(v, leg, s.cutAt) == Received(w, leg, s.cutAt);
  }

  lemma WriteInv(w: World)
    requires Inv(w) && Enabled(w, Write)
    ensures Inv(Perform(w, Write))
  {
    var v := Perform(w, Write);
    forall leg | leg in v.heads ensures v.heads[leg] == Received(v, leg, v.clock) {
      assert leg in w.raid ==> leg !in w.lostAt;
    }
    forall leg, k | Holds(v, leg, Epoch(k)) ensures SnapSound(v, leg, k) {
      assert Holds(w, leg, Epoch(k));
      SnapStaysSound(w, v, leg, k);
    }
  }

  lemma LegFailsInv(w: World, leg: Leg)
    requires Inv(w) && Enabled(w, LegFails(leg))
    ensures Inv(Perform(w, LegFails(leg)))
  {
    var v := Perform(w, LegFails(leg));
    forall l | l in v.heads ensures v.heads[l] == Received(v, l, v.clock) {
      assert v.heads[l] == w.heads[l] == Received(w, l, w.clock);
    }
    forall l, k | Holds(v, l, Epoch(k)) ensures SnapSound(v, l, k) {
      assert Holds(w, l, Epoch(k));
      SnapStaysSound(w, v, l, k);
    }
  }

  /** Steps that touch neither heads nor snapshots nor the recorded epochs. */
  lemma QuietInv(w: World, v: World)
    requires Inv(w)
    requires v == w.(clock := w.clock + 1, record := v.record)
    requires v.record.epochs == w.record.epochs && v.record.currentEpoch == w.record.currentEpoch
    ensures HeadsSound(v) && SnapsSound(v) && TimesAscend(v) && RecordSound(v) && RetainedPresent(v)
  {
    forall leg | leg in v.heads ensures v.heads[leg] == Received(v, leg, v.clock) {
      assert Received(v, leg, v.clock) == Received(w, leg, w.clock);
    }
    forall l, k | Holds(v, l, Epoch(k)) ensures SnapSound(v, l, k) {
      assert Holds(w, l, Epoch(k));
      SnapStaysSound(w, v, l, k);
    }
    forall e | e in v.record.epochs
      ensures e.name.Epoch? && e.name.number in v.cutLegs
              && forall leg :: leg in v.cutLegs[e.name.number] ==> Holds(v, leg, e.name)
    {
      forall leg | leg in v.cutLegs[e.name.number] ensures Holds(v, leg, e.name) {
        assert Holds(w, leg, e.name);
      }
    }
  }

  lemma MarkInv(w: World, leg: Leg, state: SyncState, mark: Option<EpochName>)
    requires Inv(w) && state != InSync
    ensures Inv(w.(clock := w.clock + 1, record := SetState(w.record, leg, state, mark)))
  {
    var v := w.(clock := w.clock + 1, record := SetState(w.record, leg, state, mark));
    QuietInv(w, v);
    forall e, r | e in v.record.epochs && r in v.record.replicas && r.state == InSync
      ensures e.name.Epoch? && e.name.number in v.cutLegs && r.uuid in v.cutLegs[e.name.number]
    {
      assert r in w.record.replicas;
    }
  }

  /** Adding or removing one snapshot name leaves heads, record and the other names as they were. */
  lemma SnapsChangeInv(w: World, v: World, leg: Leg, name: EpochName)
    requires Inv(w)
    requires v == w.(clock := w.clock + 1, snaps := v.snaps)
    requires forall l, n :: (l, n) != (leg, name) && Holds(v, l, n) ==> Holds(w, l, n) && v.snaps[(l, n)] == w.snaps[(l, n)]
    requires forall l, n :: (l, n) != (leg, name) && Holds(w, l, n) ==> Holds(v, l, n)
    requires Holds(v, leg, name) && name.Epoch? ==> SnapSound(v, leg, name.number)
    requires !Holds(v, leg, name) && Holds(w, leg, name) ==> Reapable(w, name)
    ensures Inv(v)
  {
    forall l | l in v.heads ensures v.heads[l] == Received(v, l, v.clock) {
      assert Received(v, l, v.clock) == Received(w, l, w.clock);
    }
    forall l, k | Holds(v, l, Epoch(k)) ensures SnapSound(v, l, k) {
      if (l, Epoch(k)) != (leg, name) {
        SnapStaysSound(w, v, l, k);
      }
    }
    forall e, l | e in v.record.epochs && l in v.cutLegs[e.name.number] ensures Holds(v, l, e.name) {
      assert Holds(w, l, e.name);
      if (l, e.name) == (leg, name) {
        OldestIsFirst(w, e);
      }
    }
  }

  lemma OldestIsFirst(w: World, e: EpochEntry)
    requires RecordSound(w) && e in w.record.epochs
    ensures !Reapable(w, e.name)
  {
    var i :| 0 <= i < |w.record.epochs| && w.record.epochs[i] == e;
    assert i > 0 ==> w.record.epochs[0].name.number < w.record.epochs[i].name.number;
  }

  lemma UserSnapshotInv(w: World, leg: Leg, tag: string)
    requires Inv(w) && Enabled(w, UserSnapshot(leg, tag))
    ensures Inv(Perform(w, UserSnapshot(leg, tag)))
  {
    SnapsChangeInv(w, Perform(w, UserSnapshot(leg, tag)), leg, Other(tag));
  }

  lemma TakeSnapshotInv(w: World, leg: Leg, number: nat)
    requires Inv(w) && Enabled(w, TakeSnapshot(leg, number))
    ensures Inv(Perform(w, TakeSnapshot(leg, number)))
  {
    var v := Perform(w, TakeSnapshot(leg, number));
    assert SnapSound(v, leg, number) by {
      assert Received(v, leg, w.clock) == Received(w, leg, w.clock);
    }
    SnapsChangeInv(w, v, leg, Epoch(number));
  }

  lemma DeleteSnapshotInv(w: World, leg: Leg, name: EpochName)
    requires Inv(w) && Enabled(w, DeleteSnapshot(leg, name))
    ensures Inv(Perform(w, DeleteSnapshot(leg, name)))
  {
    SnapsChangeInv(w, Perform(w, DeleteSnapshot(leg, name)), leg, name);
  }

  lemma RecordCutInv(w: World, number: nat, cut: seq<Leg>, now: Option<int>)
    requires Inv(w) && Enabled(w, RecordCut(number, cut, now))
    ensures Inv(Perform(w, RecordCut(number, cut, now)))
  {
    var v := Perform(w, RecordCut(number, cut, now));
    forall l | l in v.heads ensures v.heads[l] == Received(v, l, v.clock) {
      assert Received(v, l, v.clock) == Received(w, l, w.clock);
    }
    forall l, k | Holds(v, l, Epoch(k)) ensures SnapSound(v, l, k) {
      assert SnapSound(w, l, k);
      assert Received(v, l, w.snaps[(l, Epoch(k))].cutAt) == Received(w, l, w.snaps[(l, Epoch(k))].cutAt);
    }
    assert !Listed(w.record.epochs, Epoch(number));
    assert v.record.epochs == w.record.epochs + [EpochEntry(Epoch(number), now)];
    RecordCutRecord(w, number, cut, now);
  }

  lemma RecordCutRecord(w: World, number: nat, cut: seq<Leg>, now: Option<int>)
    requires Inv(w) && Enabled(w, RecordCut(number, cut, now))
    requires var v := Perform(w, RecordCut(number, cut, now));
             v.record.epochs == w.record.epochs + [EpochEntry(Epoch(number), now)]
    ensures var v := Perform(w, RecordCut(number, cut, now));
            RecordSound(v) && RetainedPresent(v) && Common(v)
  {
    RecordCutCommon(w, number, cut, now);
    var v := Perform(w, RecordCut(number, cut, now));
    forall i | 0 <= i < |w.record.epochs| ensures w.record.epochs[i].name.Epoch? && w.record.epochs[i].name.number < number {
      assert w.record.epochs[i] in w.record.epochs;
    }
    forall e | e in v.record.epochs
      ensures e.name.Epoch? && e.name.number in v.cutLegs
              && forall leg :: leg in v.cutLegs[e.name.number] ==> Holds(v, leg, e.name)
    {
      assert e in w.record.epochs || e == EpochEntry(Epoch(number), now);
      forall leg | leg in v.cutLegs[e.name.number] ensures Holds(v, leg, e.name) {
        assert Holds(w, leg, e.name);
      }
    }
  }

  lemma RecordCutCommon(w: World, number: nat, cut: seq<Leg>, now: Option<int>)
    requires Inv(w) && Enabled(w, RecordCut(number, cut, now))
    requires var v := Perform(w, RecordCut(number, cut, now));
             v.record.epochs == w.record.epochs + [EpochEntry(Epoch(number), now)]
    ensures Common(Perform(w, RecordCut(number, cut, now)))
  {
    var v := Perform(w, RecordCut(number, cut, now));
    forall e, r | e in v.record.epochs && r in v.record.replicas && r.state == InSync
      ensures e.name.Epoch? && e.name.number in v.cutLegs && r.uuid in v.cutLegs[e.name.number]
    {
      var i :| 0 <= i < |v.record.replicas| && v.record.replicas[i] == r;
      var before := w.record.replicas[i];
      assert before in w.record.replicas && before.uuid == r.uuid && before.state == InSync;
      assert InSyncIn(w.record, r.uuid);
      assert e in w.record.epochs || e == EpochEntry(Epoch(number), now);
    }
  }

  lemma RetireInv(w: World, names: seq<EpochName>)
    requires Inv(w)
    ensures Inv(Perform(w, Retire(names)))
  {
    var v := Perform(w, Retire(names));
    RetireKeeps(w.record, names);
    var mid := v.(record := w.record);
    QuietInv(w, mid);
    forall l, k | Holds(v, l, Epoch(k)) ensures SnapSound(v, l, k) {
      assert Holds(mid, l, Epoch(k)) && SnapSound(mid, l, k);
      assert Received(v, l, v.snaps[(l, Epoch(k))].cutAt) == Received(mid, l, v.snaps[(l, Epoch(k))].cutAt);
    }
    forall l | l in v.heads ensures v.heads[l] == Received(v, l, v.clock) {
      assert Received(v, l, v.clock) == Received(mid, l, mid.clock);
    }
    if w.record.epochs != [] {
      var newest := w.record.epochs[|w.record.epochs| - 1];
      assert newest in w.record.epochs && w.record.currentEpoch == Some(newest.name);
      assert newest in v.record.epochs;
    }
    forall e, l | e in v.record.epochs && l in v.cutLegs[e.name.number] ensures Holds(v, l, e.name) {
      assert Holds(w, l, e.name);
    }
  }

  // ---- what every run guarantees -----------------------------------------------

  /**
   Whatever was aborted, left over, adopted or lost in a crash: every leg's cut of a newer epoch is later than every
   leg's cut of an older one.
   */
  lemma EpochsAreOrdered(start: World, actions: seq<Action>, a: Leg, j: nat, b: Leg, k: nat)
    requires Initial(start) && j < k
    requires var w := Run(start, actions); Holds(w, a, Epoch(j)) && Holds(w, b, Epoch(k))
    ensures var w := Run(start, actions);
            && w.snaps[(a, Epoch(j))].cutAt < w.snaps[(b, Epoch(k))].cutAt
            && (b !in w.lostAt && a !in w.lostAt ==> w.snaps[(a, Epoch(j))].content <= w.snaps[(b, Epoch(k))].content)
  {
    RunInv(start, actions);
    var w := Run(start, actions);
    assert SnapSound(w, a, j) && SnapSound(w, b, k);
    assert w.recAt[j - 1] <= w.recAt[k - 2];
  }

  /** A leg's layers from epoch k on: what its head holds beyond every older epoch snapshot. */
  ghost function LayersFrom(w: World, leg: Leg, k: nat): set<nat>
    requires leg in w.heads
  {
    set x | x in w.heads[leg] && forall j :: 0 <= j < k && Holds(w, leg, Epoch(j)) ==> x !in w.snaps[(leg, Epoch(j))].content
  }

  /** Reverting `dst` to epoch k and copying `src`'s layers from k on rebuilds every acknowledged write. */
  ghost predicate Rebuilds(w: World, dst: Leg, src: Leg, k: nat)
    requires Holds(w, dst, Epoch(k)) && src in w.heads
  {
    w.written == w.snaps[(dst, Epoch(k))].content + LayersFrom(w, src, k)
  }

  /**
   The skew argument, exactly: cuts need not be simultaneous. A base epoch rebuilds everything from a surviving leg if
   and only if no write landed after the leg had dropped out and before an older epoch was cut on the survivor.
   */
  lemma RebuildsExactly(start: World, actions: seq<Action>, dst: Leg, src: Leg, k: nat)
    requires Initial(start)
    requires var w := Run(start, actions); Holds(w, dst, Epoch(k)) && src in w.raid && src in w.heads
    ensures var w := Run(start, actions);
            Rebuilds(w, dst, src, k) <==>
            forall x, j :: x in w.written && dst in w.lostAt && w.lostAt[dst] <= x && 0 <= j < k && Holds(w, src, Epoch(j)) ==>
              w.snaps[(src, Epoch(j))].cutAt <= x
  {
    RunInv(start, actions);
    var w := Run(start, actions);
    var base := w.snaps[(dst, Epoch(k))];
    assert SnapSound(w, dst, k);
    assert w.heads[src] == w.written;
    forall j | 0 <= j < k && Holds(w, src, Epoch(j))
      ensures w.snaps[(src, Epoch(j))].cutAt < base.cutAt
      ensures forall x :: x in w.written ==> (x in w.snaps[(src, Epoch(j))].content <==> x < w.snaps[(src, Epoch(j))].cutAt)
    {
      EpochsAreOrdered(start, actions, src, j, dst, k);
      assert SnapSound(w, src, j);
    }
    forall x | x in w.written
      ensures x in base.content + LayersFrom(w, src, k) <==>
              (dst in w.lostAt && w.lostAt[dst] <= x ==>
                forall j :: 0 <= j < k && Holds(w, src, Epoch(j)) ==> w.snaps[(src, Epoch(j))].cutAt <= x)
    {
    }
  }

  /** So a base epoch recorded before its leg dropped out always works: the back-off rule of the catch-up. */
  lemma BackedOffBaseRebuilds(start: World, actions: seq<Action>, dst: Leg, src: Leg, k: nat)
    requires Initial(start) && 1 <= k
    requires var w := Run(start, actions);
             && Holds(w, dst, Epoch(k)) && src in w.raid && src in w.heads
             && (dst in w.lostAt ==> k <= |w.recAt| && w.recAt[k - 1] <= w.lostAt[dst])
    ensures Rebuilds(Run(start, actions), dst, src, k)
  {
    RunInv(start, actions);
    var w := Run(start, actions);
    forall x, j | x in w.written && dst in w.lostAt && w.lostAt[dst] <= x && 0 <= j < k && Holds(w, src, Epoch(j))
      ensures w.snaps[(src, Epoch(j))].cutAt <= x
    {
      EpochsAreOrdered(start, actions, src, j, dst, k);
      assert SnapSound(w, dst, k);
    }
    RebuildsExactly(start, actions, dst, src, k);
  }

  /**
   Each epoch in the record is on every leg it was recorded for, and every replica still in sync is among them; the
   next cut's number was never recorded.
   */
  lemma RetainedEpochsArePresent(start: World, actions: seq<Action>)
    requires Initial(start)
    ensures var w := Run(start, actions);
            && RetainedPresent(w)
            && (forall e, r :: e in w.record.epochs && r in w.record.replicas && r.state == InSync ==> Holds(w, r.uuid, e.name))
            && Next(w) == LatestSeq(w.record.epochs) + 1
            && (forall k :: k in w.cutLegs ==> k < Next(w))
  {
    RunInv(start, actions);
    NextIsLatest(Run(start, actions));
  }

  lemma NextIsLatest(w: World)
    requires RecordSound(w)
    ensures Next(w) == LatestSeq(w.record.epochs) + 1
  {
    if w.record.epochs != [] {
      var last := |w.record.epochs| - 1;
      assert w.record.epochs[last].name == Epoch(|w.recAt|);
      var n := LatestSeq(w.record.epochs);
      var i :| n == 0 || (0 <= i <= last && w.record.epochs[i].name == Epoch(n));
      assert n != 0 ==> w.record.epochs[i] in w.record.epochs;
    }
  }

  /** While the pin stays put, a pinned epoch stays in the record and on the legs it was recorded for. */
  lemma {:induction false} PinnedEpochStays(start: World, before: seq<Action>, after: seq<Action>, e: EpochEntry)
    requires Initial(start)
    requires var w := Run(start, before); e in w.record.epochs && PinHolds(w.record, e.name)
    requires forall a :: a in after ==> !a.SetPin?
    ensures var w := Run(Run(start, before), after);
            && e in w.record.epochs && PinHolds(w.record, e.name)
            && e.name.Epoch? && e.name.number in w.cutLegs
            && forall leg :: leg in w.cutLegs[e.name.number] ==> Holds(w, leg, e.name)
  {
    var w := Run(start, before);
    RunConcat(start, before, after);
    RunInv(start, before + after);
    if after != [] {
      var init := after[..|after| - 1];
      PinnedEpochStays(start, before, init, e);
      RunConcat(start, before, init);
      RunInv(start, before + init);
      var last := after[|after| - 1];
      assert last in after;
      RetireKeepsPinned(Run(w, init), last, e);
    }
  }

  lemma RetireKeepsPinned(w: World, a: Action, e: EpochEntry)
    requires Inv(w) && e in w.record.epochs && PinHolds(w.record, e.name) && !a.SetPin?
    ensures e in Step(w, a).record.epochs && PinHolds(Step(w, a).record, e.name)
  {
    if a.Retire? {
      RetireKeeps(w.record, a.names);
    }
  }

  lemma {:induction false} RunConcat(w: World, first: seq<Action>, second: seq<Action>)
    ensures Run(w, first + second) == Run(Run(w, first), second)
  {
    if second == [] {
      assert first + second == first;
    } else {
      var init := second[..|second| - 1];
      assert (first + second)[..|first + second| - 1] == first + init;
      RunConcat(w, first, init);
    }
  }

  ghost predicate Reaches(w: World, v: World) {
    exists actions :: v == Run(w, actions)
  }

  lemma ReachesStep(w: World, v: World, a: Action)
    requires Reaches(w, v)
    ensures Reaches(w, Step(v, a))
  {
    var actions :| v == Run(w, actions);
    assert (actions + [a])[..|actions|] == actions;
    assert Step(v, a) == Run(w, actions + [a]);
  }

  lemma TakeStep(start: World, w: World, leg: Leg) returns (v: World)
    requires Reaches(start, w) && Enabled(w, TakeSnapshot(leg, Next(w)))
    ensures Reaches(start, v)
    ensures v == w.(clock := w.clock + 1,
                    snaps := w.snaps[(leg, Epoch(Next(w))) := Snap(w.clock, w.heads[leg])])
  {
    ReachesStep(start, w, TakeSnapshot(leg, Next(w)));
    v := Step(w, TakeSnapshot(leg, Next(w)));
  }

  lemma RecordStep(start: World, w: World, cut: seq<Leg>) returns (v: World)
    requires Reaches(start, w) && Enabled(w, RecordCut(Next(w), cut, None))
    requires forall r :: r in w.record.replicas ==> r.uuid in cut
    ensures Reaches(start, v) && Next(v) == Next(w) + 1
    ensures v == w.(clock := w.clock + 1, record := v.record, recAt := v.recAt, cutLegs := v.cutLegs)
    ensures forall r :: r in v.record.replicas ==> r.uuid in cut
  {
    ReachesStep(start, w, RecordCut(Next(w), cut, None));
    v := Step(w, RecordCut(Next(w), cut, None));
    forall r | r in v.record.replicas ensures r.uuid in cut {
      var i :| 0 <= i < |v.record.replicas| && v.record.replicas[i] == r;
      assert w.record.replicas[i] in w.record.replicas;
    }
  }

  /** Both legs answer: the cut stands on each, taken from its head, and nothing else moved. */
  lemma CutBoth(start: World, w: World, a: Leg, b: Leg) returns (v: World)
    requires Reaches(start, w)
    requires w.heads.Keys == {a, b} && a != b
    requires !Holds(w, a, Epoch(Next(w))) && !Holds(w, b, Epoch(Next(w)))
    requires forall r :: r in w.record.replicas ==> r.uuid in [a, b]
    ensures Reaches(start, v)
    ensures v == w.(clock := w.clock + 3, snaps := v.snaps, record := v.record, recAt := v.recAt, cutLegs := v.cutLegs)
    ensures Next(v) == Next(w) + 1
    ensures v.snaps == w.snaps[(a, Epoch(Next(w))) := Snap(w.clock, w.heads[a])][(b, Epoch(Next(w))) := Snap(w.clock + 1, w.heads[b])]
    ensures forall r :: r in v.record.replicas ==> r.uuid in [a, b]
  {
    v := TakeStep(start, w, a);
    v := TakeStep(start, v, b);
    v := RecordStep(start, v, [a, b]);
  }

  /**
   Without the back-off the rebuild loses a write: leg b drops out unnoticed, a write lands on a, two more epochs are
   cut on both, and the newest of them is no base for b.
   */
  lemma LateBaseLosesAWrite() returns (start: World, w: World)
    ensures Initial(start) && Reaches(start, w)
    ensures Holds(w, "b", Epoch(3)) && "a" in w.raid && "a" in w.heads && !Rebuilds(w, "b", "a", 3)
  {
    var a, b := "a", "b";
    start, w := OneEpoch(a, b);
    w := LoseAWrite(start, w, a, b);
    w := CutBoth(start, w, a, b);
    assert Holds(w, a, Epoch(2)) && 4 in w.snaps[(a, Epoch(2))].content && 4 in w.written;
    w := CutBoth(start, w, a, b);
    NotInLaterLayers(w, a, b);
  }

  /** Two empty legs in sync, and one epoch cut on both. */
  lemma OneEpoch(a: Leg, b: Leg) returns (start: World, w: World)
    requires a != b
    ensures Initial(start) && Reaches(start, w)
    ensures w.heads == map[a := {}, b := {}] && w.raid == {a, b} && w.clock == 3 && w.written == {} && Next(w) == 2
    ensures w.snaps.Keys == {(a, Epoch(1)), (b, Epoch(1))}
    ensures forall r :: r in w.record.replicas ==> r.uuid in [a, b]
  {
    var replicas := [Replica(a, InSync, None, None), Replica(b, InSync, None, None)];
    start := World(0, {}, {a, b}, map[], map[a := {}, b := {}], map[a := a, b := b],
                   map[], Record(None, [], None, replicas), [], map[]);
    assert start == Run(start, []);
    w := CutBoth(start, start, a, b);
  }

  /** A write the donor's epoch 2 already holds is in no layer from epoch 3 on, so a leg without it stays without. */
  lemma NotInLaterLayers(w: World, a: Leg, b: Leg)
    requires a in w.heads && 4 in w.written && Holds(w, a, Epoch(2)) && 4 in w.snaps[(a, Epoch(2))].content
    requires Holds(w, b, Epoch(3)) && 4 !in w.snaps[(b, Epoch(3))].content
    ensures !Rebuilds(w, b, a, 3)
  {
    assert 4 !in LayersFrom(w, a, 3);
  }

  lemma LoseAWrite(start: World, w: World, a: Leg, b: Leg) returns (v: World)
    requires Reaches(start, w) && a != b && w.raid == w.heads.Keys == {a, b}
    ensures Reaches(start, v)
    ensures v == w.(clock := w.clock + 2, written := w.written + {w.clock + 1}, raid := {a}, lostAt := w.lostAt[b := w.clock],
                    heads := w.heads[a := w.heads[a] + {w.clock + 1}])
  {
    ReachesStep(start, w, LegFails(b));
    v := Step(w, LegFails(b));
    assert v.raid == {a};
    ReachesStep(start, v, Write);
    v := Step(v, Write);
    assert v.heads == w.heads[a := w.heads[a] + {w.clock + 1}];
  }
}
