/**
 What the freshness gate is for: over whole runs of writes, failing legs, record marks, crashes and assemblies, is every
 acknowledged write still on a leg that serves?

 A write is acknowledged once every leg of the raid holds it. A leg may drop out long before the record hears of it, so
 a leg the record calls in sync can trail. An assembly (`create_raid_from_replicas` in `driver.rs`) attaches the legs
 recorded in sync, admits standbys it could bring up to date, drops legs that are too short, and asks the gate about the
 writers it misses; below two bases it may then force stale legs in.
 */
module ServingLegs {
  import opened Outcomes
  import opened FreshnessGate

  type Leg = string

  datatype World = World(
    replicas: set<Leg>,               // the volume's membership
    acked: set<nat>,
    next: nat,                        // the next write's identity
    heads: map<Leg, set<nat>>,        // what each leg holds
    last: set<Leg>,                   // the legs of the last serving set that are still in it
    up: bool,                         // the raid takes writes
    stale: set<Leg>,                  // recorded stale
    standby: set<Leg>,                // recorded standby
    writers: Option<set<Leg>>)        // the recorded writer set; None until an assembly stamps it

  /** One assembly attempt: what it found, and whether its record write landed. */
  datatype Assembly = Assembly(
    attached: set<Leg>,               // recorded in sync, attached and large enough
    admitted: set<Leg>,               // standbys given the final delta, and large enough
    source: Leg,                      // the attached leg the final delta was taken from
    sizeExcluded: set<Leg>,           // attached, but dropped by the leg-size belt
    claimBlocked: set<Leg>,           // failed to attach the way a claimed leg does
    rescuable: set<Leg>,              // stale legs the fallback may admit
    forcedStale: set<Leg>,            // stale legs it does admit
    missing: map<Leg, Availability>,  // the writers that did not attach, with their nodes' state
    deadlinePassed: bool,
    stamped: bool)
  {
    function Bases(): set<Leg> {
      attached + admitted
    }

    function Members(): set<Leg> {
      attached + admitted + forcedStale
    }

    /** Standbys given the final delta, the ones found too short after it included. */
    function CaughtUp(w: World): set<Leg> {
      admitted + sizeExcluded * w.standby
    }

    /** Below two bases even with every stale leg that could be admitted. */
    predicate HeadedForDirectServe(w: World) {
      |w.replicas| > 1 && |Bases()| + |rescuable| < 2
    }

    /** The recorded writers, and the unavailable legs counted as writers whatever the record says. */
    function Writers(w: World): set<Leg> {
      Recorded(w) + claimBlocked + if HeadedForDirectServe(w) then Unavailable(w) else {}
    }

    function Unavailable(w: World): set<Leg> {
      InSync(w) - attached + sizeExcluded
    }

    /** Some member is of the serving set, and some is neither of it nor caught up from it. */
    predicate Rejoins(last: set<Leg>) {
      !(Members() !! last) && !(attached + forcedStale <= last && (admitted != {} ==> source in last))
    }

    /** Size-excluded legs count as present: their lineage attached. */
    function MissingWriters(w: World): set<Leg> {
      Writers(w) - (attached + admitted + sizeExcluded)
    }
  }

  datatype Action =
    | Write
    | LegFails(leg: Leg)
    | MarkStale(leg: Leg)
    | MarkStandby(leg: Leg)
    | Admit(leg: Leg, source: Leg)    // the final delta from a serving leg, and into the raid
    | Crash
    | Assemble(assembly: Assembly)

  function Head(w: World, leg: Leg): set<nat> {
    if leg in w.heads then w.heads[leg] else {}
  }

  function Recorded(w: World): set<Leg> {
    if w.writers.Some? then w.writers.value else {}
  }

  function InSync(w: World): set<Leg> {
    w.replicas - w.stale - w.standby
  }

  /** Some acknowledged write is on no serving leg. */
  predicate Lost(w: World) {
    exists x :: x in w.acked && forall l :: l in w.last ==> x !in Head(w, l)
  }

  /** What an assembly can find in a volume. */
  predicate Possible(w: World, a: Assembly) {
    && a.attached <= InSync(w) && a.admitted <= w.standby && a.sizeExcluded <= InSync(w) + w.standby - a.Bases()
    && (a.CaughtUp(w) != {} ==> a.source in a.attached + a.sizeExcluded - w.standby)
    && a.claimBlocked <= a.Unavailable(w) - a.sizeExcluded
    && a.rescuable <= w.stale && a.forcedStale <= a.rescuable && a.sizeExcluded !! a.Members()
    && (a.forcedStale != {} ==> |a.Members()| <= 2)
    && a.missing.Keys == a.MissingWriters(w)
  }

  predicate Enabled(w: World, a: Action) {
    match a
    case Write => w.up
    case LegFails(leg) => w.up && leg in w.last && w.last != {leg}
    case MarkStale(leg) => leg in w.replicas - w.last
    case MarkStandby(leg) => leg in w.stale - w.last
    case Admit(leg, source) => w.up && leg in w.standby - w.last && source in w.last
    case Crash => true
    case Assemble(a) => !w.up && a.Members() != {} && Possible(w, a)
  }

  /** The record marks legs in sync: they leave the other states and join the writer set, if there is one. */
  function Readmitted(w: World, legs: set<Leg>, source: Leg): World {
    w.(heads := map l | l in w.heads.Keys + legs :: if l in legs then Head(w, source) else Head(w, l),
       stale := w.stale - legs, standby := w.standby - legs,
       writers := if w.writers.Some? then Some(w.writers.value + legs) else None)
  }

  /** The record after an assembly: whoever did not attach is stale, the members are the writer set. */
  function Stamped(w: World, a: Assembly, unavailable: set<Leg>): World {
    w.(stale := w.stale + unavailable, writers := Some(a.Members()))
  }

  /** The world an assembly that serves leaves. */
  function Served(v: World, s: Assembly, unavailable: set<Leg>): World {
    var served := v.(up := true, last := s.Members());
    if s.stamped then Stamped(served, s, unavailable) else served
  }

  function Perform(w: World, a: Action, cfg: Config): World {
    match a
    case Write =>
      w.(acked := w.acked + {w.next}, next := w.next + 1,
         heads := map l | l in w.heads.Keys + w.last :: if l in w.last then Head(w, l) + {w.next} else Head(w, l))
    case LegFails(leg) => w.(last := w.last - {leg})
    case MarkStale(leg) =>
      w.(stale := w.stale + {leg}, standby := w.standby - {leg},
         writers := if w.writers.Some? then Some(w.writers.value - {leg}) else None)
    case MarkStandby(leg) => w.(stale := w.stale - {leg}, standby := w.standby + {leg})
    case Admit(leg, source) => var v := Readmitted(w, {leg}, source); v.(last := v.last + {leg})
    case Crash => w.(up := false)
    case Assemble(a) =>
      var v := Readmitted(w, a.CaughtUp(w), a.source);
      if Evaluate(a.missing, a.deadlinePassed, cfg) == Defer then v else Served(v, a, a.Unavailable(w))
  }

  function Step(w: World, a: Action, cfg: Config): World {
    if Enabled(w, a) then Perform(w, a, cfg) else w
  }

  function Run(w: World, actions: seq<Action>, cfg: Config): World {
    if actions == [] then w else Step(Run(w, actions[..|actions| - 1], cfg), actions[|actions| - 1], cfg)
  }

  /** A volume that was never assembled; a restore may have seeded legs stale. */
  predicate Initial(w: World) {
    w.acked == {} && w.last == {} && !w.up && w.heads == map[] && w.writers == None && w.stale <= w.replicas && w.standby == {}
  }

  // ---- the hazards --------------------------------------------------------------------

  predicate Serves(w: World, a: Action, cfg: Config) {
    a.Assemble? && Enabled(w, a) && Evaluate(a.assembly.missing, a.assembly.deadlinePassed, cfg) != Defer
  }

  /** The gate let the assembly through only by surfacing the risk. */
  predicate AtRisk(w: World, a: Action, cfg: Config) {
    Serves(w, a, cfg) && Evaluate(a.assembly.missing, a.assembly.deadlinePassed, cfg) == ServeWithRisk
  }

  /** What can go wrong with an assembly that serves. Each can be told from the record, the raid and what attached. */
  datatype Kind =
    | SurfacedRisk    // the gate served without a writer and said so
    | SizeExclusion   // the leg-size belt dropped a recorded writer
    | LostStamp       // a member the record does not name as a writer, and the record write did not land
    | Rejoin          // beside a leg of the last serving set, one neither of it nor caught up from it

  predicate Occurs(k: Kind, w: World, a: Action, cfg: Config) {
    && Serves(w, a, cfg)
    && var s := a.assembly;
       match k
       case SurfacedRisk => AtRisk(w, a, cfg)
       case SizeExclusion => !(Recorded(w) !! s.sizeExcluded)
       case LostStamp => !s.stamped && !(w.writers.Some? && s.Members() <= Recorded(w) + s.admitted)
       case Rejoin => s.Rejoins(w.last)
  }

  predicate Hazard(w: World, a: Action, cfg: Config) {
    exists k :: Occurs(k, w, a, cfg)
  }

  // ---- safety over runs -----------------------------------------------------------------

  /** Every leg of the serving set holds every acknowledged write and is a recorded writer. */
  predicate Safe(w: World) {
    && (forall x :: x in w.acked ==> x < w.next)
    && (forall l :: l in w.last ==> w.acked <= Head(w, l))
    && w.last <= Recorded(w) && w.last !! w.standby && w.stale !! w.standby
    && (w.acked != {} || w.up ==> w.last != {} && w.writers.Some?)
  }

  lemma SafeIsNotLost(w: World)
    requires Safe(w)
    ensures !Lost(w)
  {
    if w.acked != {} {
      var l :| l in w.last;
    }
  }

  /** What `Proceed` guarantees: of a last serving set on record it leaves out exactly the size-excluded legs. */
  lemma ProceedKeepsTheWriters(w: World, a: Action, cfg: Config)
    requires w.last <= Recorded(w) && cfg.enabled && Serves(w, a, cfg) && !AtRisk(w, a, cfg)
    ensures w.last - a.assembly.sizeExcluded <= a.assembly.Bases()
    ensures w.last <= a.assembly.Members() <==> w.last !! a.assembly.sizeExcluded
  {
    NothingMissing(w, a, cfg);
  }

  lemma NothingMissing(w: World, a: Action, cfg: Config)
    requires cfg.enabled && Serves(w, a, cfg) && !AtRisk(w, a, cfg)
    ensures Recorded(w) - a.assembly.sizeExcluded <= a.assembly.Bases() && a.assembly.sizeExcluded !! a.assembly.Members()
  {
    var s := a.assembly;
    assert s.missing.Keys == {};
    forall l | l in Recorded(w) - s.sizeExcluded ensures l in s.Bases() {
      assert l in s.Writers(w) && l !in s.MissingWriters(w);
    }
  }

  /** A leg brought up to date from a complete one is complete; nobody else's head moves. */
  lemma ReadmittedHeads(w: World, legs: set<Leg>, source: Leg, l: Leg)
    ensures Head(Readmitted(w, legs, source), l) == if l in legs then Head(w, source) else Head(w, l)
  {
  }

  lemma StepSafe(w: World, a: Action, cfg: Config)
    requires Safe(w) && cfg.enabled && !Hazard(w, a, cfg)
    ensures Safe(Step(w, a, cfg))
  {
    var v := Step(w, a, cfg);
    if Enabled(w, a) {
      match a
      case Write =>
        assert w.next !in w.acked;
        forall l | l in v.last ensures v.acked <= Head(v, l) {
          assert Head(v, l) == Head(w, l) + {w.next};
        }
      case Admit(leg, source) =>
        forall l | l in v.last ensures v.acked <= Head(v, l) {
          ReadmittedHeads(w, {leg}, source, l);
        }
      case Assemble(_) => AssembleSafe(w, a, cfg);
      case _ =>
    }
  }

  lemma AssembleSafe(w: World, a: Action, cfg: Config)
    requires Safe(w) && cfg.enabled && a.Assemble? && Enabled(w, a) && !Hazard(w, a, cfg)
    ensures Safe(Step(w, a, cfg))
  {
    if Serves(w, a, cfg) {
      ServeSafe(w, a, cfg);
    } else {
      DeferSafe(w, a, cfg);
    }
  }

  /** A deferred assembly may have caught standbys up; the serving set is as it was. */
  lemma DeferSafe(w: World, a: Action, cfg: Config)
    requires Safe(w) && a.Assemble? && Enabled(w, a) && !Serves(w, a, cfg)
    ensures Safe(Step(w, a, cfg))
  {
    ReadmittedSafe(w, a.assembly.CaughtUp(w), a.assembly.source);
  }

  lemma ReadmittedSafe(w: World, legs: set<Leg>, source: Leg)
    requires Safe(w) && legs <= w.standby
    ensures Safe(Readmitted(w, legs, source))
  {
    var v := Readmitted(w, legs, source);
    forall l | l in v.last ensures v.acked <= Head(v, l) {
      assert l !in legs;
      ReadmittedHeads(w, legs, source, l);
    }
  }

  /** Complete members that are on record, or put there now, are a safe serving set. */
  lemma TakesOver(v: World, s: Assembly, unavailable: set<Leg>)
    requires (forall x :: x in v.acked ==> x < v.next) && v.stale !! v.standby && unavailable !! v.standby
    requires s.Members() != {} && s.Members() !! v.standby
    requires forall l :: l in s.Members() ==> v.acked <= Head(v, l)
    requires s.stamped || (v.writers.Some? && s.Members() <= Recorded(v))
    ensures Safe(Served(v, s, unavailable))
  {
    forall l ensures Head(Served(v, s, unavailable), l) == Head(v, l) {
    }
  }

  /** No member and no leg marked unavailable is a standby once the admitted are readmitted. */
  lemma NoStandbyLeft(w: World, s: Assembly)
    requires Possible(w, s) && w.stale !! w.standby
    ensures var v := Readmitted(w, s.CaughtUp(w), s.source);
            s.Members() !! v.standby && s.Unavailable(w) !! v.standby && v.stale !! v.standby
  {
  }

  lemma MemberHead(w: World, s: Assembly, l: Leg)
    requires Possible(w, s) && w.stale !! w.standby && l in s.Members()
    ensures Head(Readmitted(w, s.CaughtUp(w), s.source), l) == Head(w, if l in s.admitted then s.source else l)
  {
    assert l in s.CaughtUp(w) <==> l in s.admitted;
    ReadmittedHeads(w, s.CaughtUp(w), s.source, l);
  }

  lemma ServesTo(w: World, a: Action, cfg: Config)
    requires Serves(w, a, cfg)
    ensures Possible(w, a.assembly) && a.assembly.Members() != {}
    ensures Step(w, a, cfg) == Served(Readmitted(w, a.assembly.CaughtUp(w), a.assembly.source), a.assembly, a.assembly.Unavailable(w))
  {
  }

  lemma RecordedOrStamped(w: World, a: Action, cfg: Config)
    requires Serves(w, a, cfg) && !Occurs(LostStamp, w, a, cfg)
    ensures var s := a.assembly;
            var v := Readmitted(w, s.CaughtUp(w), s.source);
            s.stamped || (v.writers.Some? && s.Members() <= Recorded(v))
  {
  }

  lemma ServeSafe(w: World, a: Action, cfg: Config)
    requires Safe(w) && cfg.enabled && Serves(w, a, cfg) && !Hazard(w, a, cfg)
    ensures Safe(Step(w, a, cfg))
  {
    var s := a.assembly;
    var v := Readmitted(w, s.CaughtUp(w), s.source);
    ServesTo(w, a, cfg);
    NoStandbyLeft(w, s);
    assert !Occurs(LostStamp, w, a, cfg);
    RecordedOrStamped(w, a, cfg);
    forall l | l in s.Members() ensures v.acked <= Head(v, l) {
      MembersAreComplete(w, a, cfg);
      MemberHead(w, s, l);
    }
    TakesOver(v, s, s.Unavailable(w));
  }

  /** Without a hazard an assembly keeps the whole last serving set, and takes no other leg that was not caught up from it. */
  lemma KeepsTheServingSet(w: World, a: Action, cfg: Config)
    requires Safe(w) && cfg.enabled && Serves(w, a, cfg) && !Hazard(w, a, cfg) && w.last != {}
    ensures w.last <= a.assembly.Bases() && a.assembly.attached + a.assembly.forcedStale <= w.last
    ensures a.assembly.admitted != {} ==> a.assembly.source in w.last
  {
    assert !Occurs(SurfacedRisk, w, a, cfg) && !Occurs(SizeExclusion, w, a, cfg) && !Occurs(Rejoin, w, a, cfg);
    LeavesNoneOut(w, a, cfg);
    TakesNoOther(a.assembly, w.last);
  }

  lemma LeavesNoneOut(w: World, a: Action, cfg: Config)
    requires Serves(w, a, cfg) && cfg.enabled && w.last <= Recorded(w)
    requires !Occurs(SurfacedRisk, w, a, cfg) && !Occurs(SizeExclusion, w, a, cfg)
    ensures w.last <= a.assembly.Bases()
  {
    NothingMissing(w, a, cfg);
  }

  lemma TakesNoOther(s: Assembly, last: set<Leg>)
    requires !s.Rejoins(last) && last != {} && last <= s.Bases()
    ensures s.attached + s.forcedStale <= last
    ensures s.admitted != {} ==> s.source in last
  {
    var l :| l in last;
    assert l in s.Members();
  }

  lemma MembersAreComplete(w: World, a: Action, cfg: Config)
    requires Safe(w) && cfg.enabled && Serves(w, a, cfg) && !Hazard(w, a, cfg)
    ensures forall l :: l in a.assembly.Members() ==>
              w.acked <= Head(w, if l in a.assembly.admitted then a.assembly.source else l)
  {
    if w.last != {} {
      KeepsTheServingSet(w, a, cfg);
    }
  }

  // ---- what is permitted -----------------------------------------------------------------

  /** The world the i-th action finds. */
  function Before(start: World, actions: seq<Action>, i: nat, cfg: Config): World
    requires i <= |actions|
  {
    Run(start, actions[..i], cfg)
  }

  /** The run's hazards are all of these kinds. */
  predicate Within(start: World, actions: seq<Action>, permitted: set<Kind>, cfg: Config) {
    forall i: nat, k :: i < |actions| && HazardAt(k, start, actions, i, cfg) ==> k in permitted
  }

  predicate HazardAt(k: Kind, start: World, actions: seq<Action>, i: nat, cfg: Config)
    requires i < |actions|
  {
    Occurs(k, Before(start, actions, i, cfg), actions[i], cfg)
  }

  lemma WithinParts(start: World, actions: seq<Action>, cfg: Config)
    requires actions != [] && Within(start, actions, {}, cfg)
    ensures Within(start, actions[..|actions| - 1], {}, cfg)
    ensures !Hazard(Run(start, actions[..|actions| - 1], cfg), actions[|actions| - 1], cfg)
  {
    var n := |actions| - 1;
    var init := actions[..n];
    forall i: nat, k | i < n ensures !HazardAt(k, start, init, i, cfg) {
      assert init[..i] == actions[..i];
      assert !HazardAt(k, start, actions, i, cfg);
    }
    forall k ensures !Occurs(k, Run(start, init, cfg), actions[n], cfg) {
      assert !HazardAt(k, start, actions, n, cfg);
    }
  }

  /** With the gate enabled and no hazard, every acknowledged write stays on every serving leg. */
  lemma {:induction false} NoSilentLoss(start: World, actions: seq<Action>, cfg: Config)
    requires Initial(start) && cfg.enabled && Within(start, actions, {}, cfg)
    ensures Safe(Run(start, actions, cfg)) && !Lost(Run(start, actions, cfg))
  {
    if actions != [] {
      var init, last := actions[..|actions| - 1], actions[|actions| - 1];
      WithinParts(start, actions, cfg);
      NoSilentLoss(start, init, cfg);
      StepSafe(Run(start, init, cfg), last, cfg);
    }
    SafeIsNotLost(Run(start, actions, cfg));
  }

  /**
   The exact condition: runs that permit some kinds of hazard never leave an acknowledged write on no serving leg if and
   only if they permit none.
   */
  lemma LossFreeIffNothingPermitted(permitted: set<Kind>, cfg: Config)
    requires cfg.enabled
    ensures (forall start, actions :: Initial(start) && Within(start, actions, permitted, cfg) ==> !Lost(Run(start, actions, cfg))) <==>
            permitted == {}
  {
    if permitted == {} {
      forall start, actions | Initial(start) && Within(start, actions, permitted, cfg) ensures !Lost(Run(start, actions, cfg)) {
        NoSilentLoss(start, actions, cfg);
      }
    } else {
      var k :| k in permitted;
      var worlds, actions := Witness(k, cfg);
      LosingRun(worlds, actions, k, permitted, cfg);
    }
  }

  lemma Witness(k: Kind, cfg: Config) returns (worlds: seq<World>, actions: seq<Action>)
    requires cfg.enabled
    ensures LosesBy(worlds, actions, k, cfg)
  {
    match k
    case SurfacedRisk => worlds, actions := RiskedTailIsLost(cfg);
    case SizeExclusion => worlds, actions := SizeExclusionLosesSilently(cfg);
    case LostStamp => worlds, actions := LostStampLosesSilently(cfg);
    case Rejoin => worlds, actions := TrailingLegLosesSilently(cfg);
  }

  lemma LosingRun(worlds: seq<World>, actions: seq<Action>, kind: Kind, permitted: set<Kind>, cfg: Config)
    requires LosesBy(worlds, actions, kind, cfg) && kind in permitted
    ensures Initial(worlds[0]) && Within(worlds[0], actions, permitted, cfg) && Lost(Run(worlds[0], actions, cfg))
  {
    forall i: nat, k | i < |actions| && HazardAt(k, worlds[0], actions, i, cfg) ensures k in permitted {
      TraceIsRun(worlds, actions, cfg, i);
    }
    TraceIsRun(worlds, actions, cfg, |actions|);
    assert actions[..|actions|] == actions;
  }

  // ---- each hazard is real ----------------------------------------------------------------

  /** The worlds a run passes through. */
  ghost predicate Trace(worlds: seq<World>, actions: seq<Action>, cfg: Config) {
    && |worlds| == |actions| + 1
    && Initial(worlds[0])
    && forall i :: 0 <= i < |actions| ==> worlds[i + 1] == Step(worlds[i], actions[i], cfg)
  }

  lemma {:induction false} TraceIsRun(worlds: seq<World>, actions: seq<Action>, cfg: Config, n: nat)
    requires Trace(worlds, actions, cfg) && n <= |actions|
    ensures Before(worlds[0], actions, n, cfg) == worlds[n]
  {
    if n > 0 {
      TraceIsRun(worlds, actions, cfg, n - 1);
      assert actions[..n][..n - 1] == actions[..n - 1];
    } else {
      assert actions[..0] == [];
    }
  }

  /** Whatever hazard a step is, it is of this kind. */
  predicate Only(kind: Kind, w: World, a: Action, cfg: Config) {
    forall k :: Occurs(k, w, a, cfg) ==> k == kind
  }

  /** A run whose only hazards are of this kind. */
  ghost predicate Story(worlds: seq<World>, actions: seq<Action>, kind: Kind, cfg: Config) {
    Trace(worlds, actions, cfg) && forall i :: 0 <= i < |actions| ==> Only(kind, worlds[i], actions[i], cfg)
  }

  /** It loses a write. */
  ghost predicate LosesBy(worlds: seq<World>, actions: seq<Action>, kind: Kind, cfg: Config) {
    Story(worlds, actions, kind, cfg) && Lost(worlds[|actions|])
  }

  /** One more step of a story. */
  lemma More(worlds: seq<World>, actions: seq<Action>, a: Action, kind: Kind, cfg: Config) returns (ws: seq<World>, acts: seq<Action>)
    requires Story(worlds, actions, kind, cfg) && Only(kind, worlds[|actions|], a, cfg)
    ensures Story(ws, acts, kind, cfg) && ws[|acts|] == Step(worlds[|actions|], a, cfg)
  {
    ws, acts := worlds + [Step(worlds[|actions|], a, cfg)], actions + [a];
    forall i | 0 <= i < |acts| ensures ws[i + 1] == Step(ws[i], acts[i], cfg) && Only(kind, ws[i], acts[i], cfg) {
      if i < |actions| {
        assert ws[i] == worlds[i] && ws[i + 1] == worlds[i + 1] && acts[i] == actions[i];
      }
    }
  }

  /** Only an assembly is a hazard, so any other step is of any kind. */
  lemma Quietly(worlds: seq<World>, actions: seq<Action>, a: Action, kind: Kind, cfg: Config) returns (ws: seq<World>, acts: seq<Action>)
    requires Story(worlds, actions, kind, cfg) && !a.Assemble?
    ensures Story(ws, acts, kind, cfg) && ws[|acts|] == Step(worlds[|actions|], a, cfg)
  {
    ws, acts := More(worlds, actions, a, kind, cfg);
  }

  /** A volume of these legs, all in sync on record. */
  function Created(legs: set<Leg>): World {
    World(legs, {}, 0, map[], {}, false, {}, {}, None)
  }

  /** An assembly of these legs, with no standby and no stale leg about. */
  function Attach(legs: set<Leg>, excluded: set<Leg>, missing: map<Leg, Availability>, stamped: bool): Action {
    Assemble(Assembly(legs, {}, "", excluded, {}, {}, {}, missing, true, stamped))
  }

  /** The first assembly takes every leg; the only hazard is that its record write may be lost. */
  lemma FirstAssembly(legs: set<Leg>, stamped: bool, kind: Kind, cfg: Config) returns (worlds: seq<World>, actions: seq<Action>)
    requires legs != {} && (!stamped ==> kind == LostStamp)
    ensures Story(worlds, actions, kind, cfg)
    ensures worlds[|actions|] == Created(legs).(up := true, last := legs, writers := if stamped then Some(legs) else None)
  {
    var w, a := Created(legs), Attach(legs, {}, map[], stamped);
    var s := a.assembly;
    assert s.Members() == s.Bases() == legs && InSync(w) == legs && s.Unavailable(w) == {} && s.MissingWriters(w) == {};
    assert Readmitted(w, {}, "").heads == map[];
    worlds, actions := More([w], [], a, kind, cfg);
  }

  lemma FailStep(w: World, leg: Leg, rest: set<Leg>, cfg: Config)
    requires w.up && w.last == rest + {leg} && leg !in rest && rest != {}
    ensures Step(w, LegFails(leg), cfg) == w.(last := rest)
  {
    assert w.last - {leg} == rest;
  }

  /** The one leg left takes a write. */
  lemma LoneWrite(w: World, leg: Leg, cfg: Config)
    requires w.up && w.last == {leg} && w.heads == map[] && w.acked == {}
    ensures Step(w, Write, cfg) == w.(acked := {w.next}, next := w.next + 1, heads := map[leg := {w.next}])
  {
    var v := Step(w, Write, cfg);
    assert v.heads.Keys == {leg};
    assert v.heads[leg] == {w.next};
  }

  /** An assembly that serves without standbys and forced legs: its members serve, and nobody's head moves. */
  lemma ServeStep(w: World, a: Action, cfg: Config)
    requires Serves(w, a, cfg) && a.assembly.CaughtUp(w) == {} && a.assembly.forcedStale == {}
    ensures var v := Step(w, a, cfg);
            v.up && v.last == a.assembly.attached && v.acked == w.acked && v.heads == w.heads
  {
    assert a.assembly.Members() == a.assembly.attached;
    assert Readmitted(w, {}, a.assembly.source).heads == w.heads;
  }

  /** All hazards but one ruled out, each by its own field. */
  lemma OnlyBy(kind: Kind, w: World, a: Action, cfg: Config)
    requires a.Assemble? && cfg.enabled
    requires kind != SurfacedRisk ==> a.assembly.missing == map[]
    requires kind != SizeExclusion ==> a.assembly.sizeExcluded == {}
    requires kind != LostStamp ==> a.assembly.stamped
    requires kind != Rejoin ==> a.assembly.Members() !! w.last
    ensures Only(kind, w, a, cfg)
  {
  }

  /** A write that is on no head but those of legs that do not serve. */
  lemma LostWith(w: World, x: nat)
    requires x in w.acked && forall l :: l in w.last ==> l !in w.heads
    ensures Lost(w)
  {
  }

  /** Two legs assembled and on record; b has dropped out unnoticed, a alone took a write, and the raid is down. */
  function Tail(a: Leg, b: Leg): World {
    World({a, b}, {0}, 1, map[a := {0}], {a}, false, {}, {}, Some({a, b}))
  }

  lemma TailOnOneLeg(a: Leg, b: Leg, kind: Kind, cfg: Config) returns (worlds: seq<World>, actions: seq<Action>)
    requires a != b
    ensures Story(worlds, actions, kind, cfg) && worlds[|actions|] == Tail(a, b)
  {
    worlds, actions := FirstAssembly({a, b}, true, kind, cfg);
    FailStep(worlds[|actions|], b, {a}, cfg);
    worlds, actions := Quietly(worlds, actions, LegFails(b), kind, cfg);
    LoneWrite(worlds[|actions|], a, cfg);
    worlds, actions := Quietly(worlds, actions, Write, kind, cfg);
    worlds, actions := Quietly(worlds, actions, Crash, kind, cfg);
  }

  /** b alone attaches: what the assembly computes. */
  lemma LoneHeir(w: World, s: Assembly, a: Leg, b: Leg)
    requires w == Tail(a, b) && a != b && s.attached == {b} && s.admitted == s.claimBlocked == s.rescuable == s.forcedStale == {}
    requires s.sizeExcluded <= {a}
    ensures s.Members() == s.Bases() == {b} && InSync(w) == {a, b} && s.Unavailable(w) == {a} && s.CaughtUp(w) == {}
    ensures s.Writers(w) == {a, b}
  {
  }

  lemma HeirIsPossible(w: World, s: Assembly, a: Leg, b: Leg)
    requires w == Tail(a, b) && a != b && s.attached == {b} && s.admitted == s.claimBlocked == s.rescuable == s.forcedStale == {}
    requires s.sizeExcluded <= {a} && s.missing.Keys == {a} - s.sizeExcluded
    ensures Possible(w, s)
  {
    LoneHeir(w, s, a, b);
    assert s.MissingWriters(w) == {a} - s.sizeExcluded;
  }

  /** The deadline has passed, so b is served without a: the surfaced risk comes true. */
  lemma RiskedTailIsLost(cfg: Config) returns (worlds: seq<World>, actions: seq<Action>)
    requires cfg.enabled
    ensures LosesBy(worlds, actions, SurfacedRisk, cfg)
  {
    worlds, actions := TailOnOneLeg("a", "b", SurfacedRisk, cfg);
    ServedWithout("a", "b", cfg);
    worlds, actions := More(worlds, actions, Attach({"b"}, {}, map["a" := NodeGone], true), SurfacedRisk, cfg);
  }

  lemma ServedWithout(a: Leg, b: Leg, cfg: Config)
    requires a != b && cfg.enabled
    ensures var act := Attach({b}, {}, map[a := NodeGone], true);
            Only(SurfacedRisk, Tail(a, b), act, cfg) && Lost(Step(Tail(a, b), act, cfg))
  {
    var w, act := Tail(a, b), Attach({b}, {}, map[a := NodeGone], true);
    LoneHeir(w, act.assembly, a, b);
    HeirIsPossible(w, act.assembly, a, b);
    OnlyBy(SurfacedRisk, w, act, cfg);
    HeirLoses(w, act, a, b, cfg);
  }

  /** The next assembly finds a too short: it counts as present, so the gate proceeds, and b serves without the write. */
  lemma SizeExclusionLosesSilently(cfg: Config) returns (worlds: seq<World>, actions: seq<Action>)
    requires cfg.enabled
    ensures LosesBy(worlds, actions, SizeExclusion, cfg)
  {
    worlds, actions := TailOnOneLeg("a", "b", SizeExclusion, cfg);
    ServedInstead("a", "b", cfg);
    worlds, actions := More(worlds, actions, Attach({"b"}, {"a"}, map[], true), SizeExclusion, cfg);
  }

  lemma ServedInstead(a: Leg, b: Leg, cfg: Config)
    requires a != b && cfg.enabled
    ensures var act := Attach({b}, {a}, map[], true);
            Only(SizeExclusion, Tail(a, b), act, cfg) && Lost(Step(Tail(a, b), act, cfg))
  {
    var w, act := Tail(a, b), Attach({b}, {a}, map[], true);
    LoneHeir(w, act.assembly, a, b);
    HeirIsPossible(w, act.assembly, a, b);
    OnlyBy(SizeExclusion, w, act, cfg);
    HeirLoses(w, act, a, b, cfg);
  }

  /** Whatever let b be served alone, it serves without the write. */
  lemma HeirLoses(w: World, act: Action, a: Leg, b: Leg, cfg: Config)
    requires w == Tail(a, b) && a != b && Serves(w, act, cfg) && act.assembly.attached == {b}
    requires act.assembly.CaughtUp(w) == {} && act.assembly.forcedStale == {}
    ensures Lost(Step(w, act, cfg))
  {
    ServeStep(w, act, cfg);
    LostWith(Step(w, act, cfg), 0);
  }

  /** The next assembly takes both legs, and when a fails the raid goes on with b, which trails. */
  lemma TrailingLegLosesSilently(cfg: Config) returns (worlds: seq<World>, actions: seq<Action>)
    requires cfg.enabled
    ensures LosesBy(worlds, actions, Rejoin, cfg)
  {
    worlds, actions := TailOnOneLeg("a", "b", Rejoin, cfg);
    ServedTogether("a", "b", cfg);
    worlds, actions := More(worlds, actions, Attach({"a", "b"}, {}, map[], true), Rejoin, cfg);
    worlds, actions := Quietly(worlds, actions, LegFails("a"), Rejoin, cfg);
  }

  lemma ServedTogether(a: Leg, b: Leg, cfg: Config)
    requires a != b && cfg.enabled
    ensures var act := Attach({a, b}, {}, map[], true);
            Only(Rejoin, Tail(a, b), act, cfg) && Lost(Step(Step(Tail(a, b), act, cfg), LegFails(a), cfg))
  {
    var w, act := Tail(a, b), Attach({a, b}, {}, map[], true);
    var s := act.assembly;
    assert s.Members() == s.Bases() == {a, b} == InSync(w) && s.Unavailable(w) == {} && s.MissingWriters(w) == {};
    ServeStep(w, act, cfg);
    OnlyBy(Rejoin, w, act, cfg);
    var v := Step(w, act, cfg);
    FailStep(v, a, {b}, cfg);
    LostWith(Step(v, LegFails(a), cfg), 0);
  }

  /** Three legs assembled with the record write lost; only b still served when it took a write, and the raid is down. */
  function Unrecorded(a: Leg, b: Leg, c: Leg): World {
    World({a, b, c}, {0}, 1, map[b := {0}], {b}, false, {}, {}, None)
  }

  /** The next assembly attaches the other two legs, misses no writer on record, has its two bases, and proceeds without b. */
  lemma LostStampLosesSilently(cfg: Config) returns (worlds: seq<World>, actions: seq<Action>)
    requires cfg.enabled
    ensures LosesBy(worlds, actions, LostStamp, cfg)
  {
    worlds, actions := UnrecordedTail("a", "b", "c", cfg);
    ServedByTheOthers("a", "b", "c", cfg);
    worlds, actions := More(worlds, actions, Attach({"a", "c"}, {}, map[], true), LostStamp, cfg);
  }

  lemma UnrecordedTail(a: Leg, b: Leg, c: Leg, cfg: Config) returns (worlds: seq<World>, actions: seq<Action>)
    requires a != b && b != c && a != c
    ensures Story(worlds, actions, LostStamp, cfg) && worlds[|actions|] == Unrecorded(a, b, c)
  {
    worlds, actions := FirstAssembly({a, b, c}, false, LostStamp, cfg);
    FailStep(worlds[|actions|], a, {b, c}, cfg);
    worlds, actions := Quietly(worlds, actions, LegFails(a), LostStamp, cfg);
    FailStep(worlds[|actions|], c, {b}, cfg);
    worlds, actions := Quietly(worlds, actions, LegFails(c), LostStamp, cfg);
    LoneWrite(worlds[|actions|], b, cfg);
    worlds, actions := Quietly(worlds, actions, Write, LostStamp, cfg);
    worlds, actions := Quietly(worlds, actions, Crash, LostStamp, cfg);
  }

  /** a and c attach, b does not: what the assembly computes. */
  lemma TwoHeirs(w: World, s: Assembly, a: Leg, b: Leg, c: Leg)
    requires w == Unrecorded(a, b, c) && a != b && b != c && a != c && s.attached == {a, c}
    requires s.admitted == s.sizeExcluded == s.claimBlocked == s.rescuable == s.forcedStale == {}
    ensures s.Members() == s.Bases() == {a, c} && InSync(w) == {a, b, c} && s.CaughtUp(w) == {}
    ensures s.Writers(w) == {} && s.MissingWriters(w) == {}
  {
    assert |s.Bases()| == 2;
  }

  lemma ServedByTheOthers(a: Leg, b: Leg, c: Leg, cfg: Config)
    requires a != b && b != c && a != c && cfg.enabled
    ensures var act := Attach({a, c}, {}, map[], true);
            Only(LostStamp, Unrecorded(a, b, c), act, cfg) && Lost(Step(Unrecorded(a, b, c), act, cfg))
  {
    var w, act := Unrecorded(a, b, c), Attach({a, c}, {}, map[], true);
    TwoHeirs(w, act.assembly, a, b, c);
    ServeStep(w, act, cfg);
    OnlyBy(LostStamp, w, act, cfg);
    LostWith(Step(w, act, cfg), 0);
  }
}
