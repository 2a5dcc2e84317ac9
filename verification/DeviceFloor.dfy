/**
 Expansion, the applied-size annotation and the leg-size guard together: is the device a consumer has seen ever served
 smaller?

 Expansion attempts resize legs one by one and may stop anywhere; the raid is as large as its smallest base, so the
 device grows once every serving leg has. An assembly may find any of the legs; the guard measures them against the
 floor and keeps the largest cohort (`LegSizeGuard.PartitionLegs`).
 */
module DeviceFloor {
  import opened Outcomes
  import opened Text
  import opened Arithmetic
  import opened FreshnessGate
  import opened LegSizeGuard
  import Expand

  type Leg = string

  datatype Config = Config(legs: set<Leg>, round: Expand.Rounding, capacity: nat)

  datatype World = World(
    lvols: Expand.Lvols,
    capacity: nat,                    // the PV's recorded capacity
    requested: nat,                   // the largest size asked for so far
    serving: set<Leg>,
    device: nat,                      // the raid's size while it serves
    seen: nat,                        // the largest size a consumer has seen
    shrunk: bool)                     // a device was served smaller than one already seen

  datatype Action =
    | Resize(leg: Leg, bytes: nat, fate: Expand.Fate)
    | PatchCapacity(bytes: nat)
    | Stop
    | Assemble(attached: seq<Leg>)

  function Probe(w: World, attached: seq<Leg>): seq<Sized>
    requires forall l :: l in attached ==> l in w.lvols.sizes
  {
    seq(|attached|, i requires 0 <= i < |attached| => Sized(attached[i], Some(w.lvols.sizes[attached[i]])))
  }

  function Floor(w: World): Option<nat> {
    MergeFloor(Some(w.capacity), Applied(w.lvols.grows))
  }

  predicate Enabled(w: World, a: Action) {
    match a
    case Resize(leg, bytes, fate) => leg in w.lvols.sizes && w.capacity < bytes <= U64_MAX && w.requested <= bytes
    case PatchCapacity(bytes) =>
      w.capacity <= bytes <= w.requested && forall l :: l in w.lvols.sizes ==> bytes <= w.lvols.sizes[l]
    case Stop => true
    case Assemble(attached) => w.serving == {} && attached != [] && forall l :: l in attached ==> l in w.lvols.sizes
  }

  /** The size of a raid over these legs: that of its smallest. */
  ghost function Smallest(sizes: map<Leg, nat>, legs: set<Leg>): (size: nat)
    requires legs != {} && legs <= sizes.Keys
    ensures (exists l :: l in legs && sizes[l] == size) && forall l :: l in legs ==> size <= sizes[l]
  {
    SmallestExists(sizes, legs);
    var size :| IsSmallest(sizes, legs, size);
    size
  }

  ghost predicate IsSmallest(sizes: map<Leg, nat>, legs: set<Leg>, size: nat)
    requires legs <= sizes.Keys
  {
    (exists l :: l in legs && sizes[l] == size) && forall l :: l in legs ==> size <= sizes[l]
  }

  lemma {:induction false} SmallestExists(sizes: map<Leg, nat>, legs: set<Leg>)
    requires legs != {} && legs <= sizes.Keys
    ensures exists size :: IsSmallest(sizes, legs, size)
    decreases |legs|
  {
    var l :| l in legs;
    var rest := legs - {l};
    if rest == {} {
      assert legs == {l};
      assert IsSmallest(sizes, legs, sizes[l]);
    } else {
      SmallestExists(sizes, rest);
      var least :| IsSmallest(sizes, rest, least);
      assert IsSmallest(sizes, legs, if sizes[l] < least then sizes[l] else least);
    }
  }

  ghost function Perform(cfg: Config, w: World, a: Action): World
    requires Enabled(w, a)
  {
    match a
    case Resize(leg, bytes, fate) =>
      var lvols := Expand.ResizeOne(w.lvols, leg, bytes, cfg.round, fate);
      var grown := w.(lvols := lvols, requested := bytes);
      if w.serving == {} || !(w.serving <= lvols.sizes.Keys) then grown
      else
        var device := Smallest(lvols.sizes, w.serving);
        grown.(device := device, seen := Max(w.seen, device), shrunk := w.shrunk || device < w.seen)
    case PatchCapacity(bytes) => w.(capacity := bytes)
    case Stop => w.(serving := {})
    case Assemble(attached) =>
      var largest := Largest(Probe(w, attached)).value;
      if Floor(w).Some? && largest < Floor(w).value then w
      else w.(serving := (set l | l in attached && w.lvols.sizes[l] == largest),
              device := largest, seen := Max(w.seen, largest), shrunk := w.shrunk || largest < w.seen)
  }

  ghost function Step(cfg: Config, w: World, a: Action): World {
    if Enabled(w, a) then Perform(cfg, w, a) else w
  }

  ghost function Run(cfg: Config, actions: seq<Action>): World {
    if actions == [] then Created(cfg)
    else Step(cfg, Run(cfg, actions[..|actions| - 1]), actions[|actions| - 1])
  }

  /** Legs are created for the volume's capacity, and nothing serves yet. */
  function Created(cfg: Config): World {
    World(Expand.Lvols(map l | l in cfg.legs :: cfg.round(l, cfg.capacity), []), cfg.capacity, cfg.capacity, {}, 0, 0, false)
  }

  /** Rounding never goes down, keeps order and is stable; leg names can be listed in an annotation. */
  ghost predicate WellFormed(cfg: Config) {
    && cfg.legs != {} && cfg.capacity <= U64_MAX
    && (forall l :: l in cfg.legs ==> l != "" && ',' !in l)
    && (forall l, x: nat :: l in cfg.legs ==> x <= cfg.round(l, x))
    && (forall l, x: nat :: l in cfg.legs ==> cfg.round(l, cfg.round(l, x)) == cfg.round(l, x))
    && (forall l, x: nat, y: nat :: l in cfg.legs && x <= y ==> cfg.round(l, x) <= cfg.round(l, y))
  }

  /** Every leg rounds every size alike. */
  ghost predicate Uniform(cfg: Config) {
    forall a, b, x :: a in cfg.legs && b in cfg.legs && cfg.capacity <= x <= U64_MAX ==> cfg.round(a, x) == cfg.round(b, x)
  }

  predicate Stamped(actions: seq<Action>) {
    forall i :: 0 <= i < |actions| && actions[i].Resize? ==> actions[i].fate.Landed? || actions[i].fate.Refused?
  }

  // ---- with uniform rounding nothing is ever served smaller -----------------------------------

  /** What the annotation has recorded, or the size the legs were created for. */
  function HighMark(cfg: Config, w: World): nat {
    Max(cfg.capacity, HighWater(w.lvols.grows))
  }

  /** Every leg lies between the size it was created at and the rounded high mark, and so does what was seen. */
  ghost predicate SizesSound(cfg: Config, h: Leg, w: World) {
    && w.lvols.sizes.Keys == cfg.legs && h in cfg.legs
    && (forall l :: l in w.lvols.sizes ==> cfg.round(l, w.lvols.sizes[l]) == w.lvols.sizes[l])
    && (forall l :: l in w.lvols.sizes ==> cfg.round(h, cfg.capacity) <= w.lvols.sizes[l] <= cfg.round(h, HighMark(cfg, w)))
    && w.seen <= cfg.round(h, HighMark(cfg, w))
  }

  ghost predicate MarksSound(cfg: Config, w: World) {
    && Recordable(w.lvols.grows)
    && cfg.capacity <= w.capacity && cfg.capacity <= w.requested && HighWater(w.lvols.grows) <= w.requested
    && HighMark(cfg, w) <= U64_MAX
  }

  ghost predicate DeviceSound(w: World) {
    && !w.shrunk && w.device <= w.seen
    && (forall l :: l in w.serving ==> l in w.lvols.sizes && w.seen <= w.lvols.sizes[l])
  }

  ghost predicate Safe(cfg: Config, h: Leg, w: World) {
    SizesSound(cfg, h, w) && MarksSound(cfg, w) && DeviceSound(w)
  }

  lemma FloorIsTheMark(cfg: Config, w: World)
    requires MarksSound(cfg, w)
    ensures Floor(w).Some? && HighWater(w.lvols.grows) <= Floor(w).value && w.capacity <= Floor(w).value
  {
    FloorOf(w.capacity, w.lvols.grows);
  }

  /** A leg at or above the floor is at least as large as anything seen. */
  lemma AboveFloorCoversSeen(cfg: Config, h: Leg, w: World, leg: Leg)
    requires WellFormed(cfg) && Uniform(cfg) && SizesSound(cfg, h, w) && MarksSound(cfg, w) && leg in w.lvols.sizes
    requires Floor(w).Some? && Floor(w).value <= w.lvols.sizes[leg]
    ensures w.seen <= w.lvols.sizes[leg]
  {
    FloorIsTheMark(cfg, w);
    var size, mark := w.lvols.sizes[leg], HighMark(cfg, w);
    assert mark <= size;
    assert cfg.round(leg, mark) <= cfg.round(leg, size) == size;
    assert cfg.round(h, mark) == cfg.round(leg, mark);
  }

  /** Serving legs as large as anything seen keeps everything. */
  lemma ServeKeeps(cfg: Config, h: Leg, w: World, serving: set<Leg>, leg: Leg)
    requires Safe(cfg, h, w) && leg in w.lvols.sizes && w.seen <= w.lvols.sizes[leg]
    requires forall l :: l in serving ==> l in w.lvols.sizes && w.lvols.sizes[l] == w.lvols.sizes[leg]
    ensures var size := w.lvols.sizes[leg];
            Safe(cfg, h, w.(serving := serving, device := size, seen := Max(w.seen, size), shrunk := w.shrunk || size < w.seen))
  {
  }

  lemma AssembleSafe(cfg: Config, h: Leg, w: World, attached: seq<Leg>)
    requires WellFormed(cfg) && Uniform(cfg) && Safe(cfg, h, w) && Enabled(w, Assemble(attached))
    ensures Safe(cfg, h, Step(cfg, w, Assemble(attached)))
  {
    var probe := Probe(w, attached);
    assert probe[0].bytes.Some?;
    var i :| 0 <= i < |probe| && probe[i].bytes == Largest(probe);
    var leg := attached[i];
    assert leg in attached && w.lvols.sizes[leg] == Largest(probe).value;
    FloorIsTheMark(cfg, w);
    if Floor(w).value <= w.lvols.sizes[leg] {
      AboveFloorCoversSeen(cfg, h, w, leg);
      ServeKeeps(cfg, h, w, (set l | l in attached && w.lvols.sizes[l] == w.lvols.sizes[leg]), leg);
    }
  }

  lemma ResizeSafe(cfg: Config, h: Leg, w: World, leg: Leg, bytes: nat)
    requires WellFormed(cfg) && Uniform(cfg) && Safe(cfg, h, w) && Enabled(w, Resize(leg, bytes, Expand.Landed))
    ensures Safe(cfg, h, Step(cfg, w, Resize(leg, bytes, Expand.Landed)))
  {
    ResizeMarks(cfg, h, w, leg, bytes);
    ResizeSizes(cfg, h, w, leg, bytes);
    ResizeDevice(cfg, h, w, leg, bytes);
  }

  /** A serving leg that grows does not shrink the device: it was no larger than the request's rounding. */
  lemma ResizeDevice(cfg: Config, h: Leg, w: World, leg: Leg, bytes: nat)
    requires WellFormed(cfg) && Uniform(cfg) && Safe(cfg, h, w) && Enabled(w, Resize(leg, bytes, Expand.Landed))
    ensures DeviceSound(Step(cfg, w, Resize(leg, bytes, Expand.Landed)))
  {
    RoundedAlike(cfg, h, leg, HighMark(cfg, w), bytes);
  }

  lemma ResizeMarks(cfg: Config, h: Leg, w: World, leg: Leg, bytes: nat)
    requires WellFormed(cfg) && Safe(cfg, h, w) && Enabled(w, Resize(leg, bytes, Expand.Landed))
    ensures var v := Step(cfg, w, Resize(leg, bytes, Expand.Landed));
            MarksSound(cfg, v) && HighMark(cfg, v) == bytes && HighMark(cfg, w) <= bytes
  {
    var v := Step(cfg, w, Resize(leg, bytes, Expand.Landed));
    HighWaterSnoc(w.lvols.grows, Grow(bytes, leg));
    assert v.lvols.grows == w.lvols.grows + [Grow(bytes, leg)];
  }

  lemma ResizeSizes(cfg: Config, h: Leg, w: World, leg: Leg, bytes: nat)
    requires WellFormed(cfg) && Uniform(cfg) && Safe(cfg, h, w) && Enabled(w, Resize(leg, bytes, Expand.Landed))
    requires var v := Step(cfg, w, Resize(leg, bytes, Expand.Landed));
             HighMark(cfg, v) == bytes && HighMark(cfg, w) <= bytes
    ensures SizesSound(cfg, h, Step(cfg, w, Resize(leg, bytes, Expand.Landed)))
  {
    var v := Step(cfg, w, Resize(leg, bytes, Expand.Landed));
    assert v.lvols.sizes == w.lvols.sizes[leg := cfg.round(leg, bytes)];
    GrownSizes(cfg, h, w, leg, bytes);
    SeenWithin(cfg, h, w, v, bytes);
  }

  /** Every size stays between the one created and the rounded request. */
  lemma GrownSizes(cfg: Config, h: Leg, w: World, leg: Leg, bytes: nat)
    requires WellFormed(cfg) && Uniform(cfg) && SizesSound(cfg, h, w) && leg in cfg.legs
    requires cfg.capacity <= HighMark(cfg, w) <= bytes <= U64_MAX
    ensures var sizes := w.lvols.sizes[leg := cfg.round(leg, bytes)];
            && sizes.Keys == cfg.legs
            && (forall l :: l in sizes ==> cfg.round(l, sizes[l]) == sizes[l])
            && (forall l :: l in sizes ==> cfg.round(h, cfg.capacity) <= sizes[l] <= cfg.round(h, bytes))
    ensures w.seen <= cfg.round(h, bytes)
  {
    RoundedAlike(cfg, h, leg, HighMark(cfg, w), bytes);
  }

  /** What is seen is what was seen or the size of a serving leg. */
  lemma SeenWithin(cfg: Config, h: Leg, w: World, v: World, bytes: nat)
    requires w.seen <= cfg.round(h, bytes) && forall l :: l in v.lvols.sizes ==> v.lvols.sizes[l] <= cfg.round(h, bytes)
    requires v.seen == w.seen || (w.serving != {} && w.serving <= v.lvols.sizes.Keys && v.seen == Max(w.seen, Smallest(v.lvols.sizes, w.serving)))
    ensures v.seen <= cfg.round(h, bytes)
  {
  }

  lemma RoundedAlike(cfg: Config, h: Leg, leg: Leg, mark: nat, bytes: nat)
    requires WellFormed(cfg) && Uniform(cfg) && h in cfg.legs && leg in cfg.legs
    requires cfg.capacity <= mark <= bytes <= U64_MAX
    ensures cfg.round(h, bytes) == cfg.round(leg, bytes) && cfg.round(leg, cfg.round(leg, bytes)) == cfg.round(leg, bytes)
    ensures cfg.round(h, cfg.capacity) <= cfg.round(h, mark) <= cfg.round(h, bytes)
  {
  }

  lemma HighWaterSnoc(grows: seq<Grow>, g: Grow)
    ensures HighWater(grows + [g]) == Max(HighWater(grows), g.bytes)
  {
    assert (grows + [g])[..|grows|] == grows;
  }

  lemma {:induction false} UniformNeverShrinks(cfg: Config, h: Leg, actions: seq<Action>)
    requires WellFormed(cfg) && Uniform(cfg) && Stamped(actions) && h in cfg.legs
    ensures Safe(cfg, h, Run(cfg, actions))
  {
    if actions == [] {
      assert HighMark(cfg, Created(cfg)) == cfg.capacity;
    } else {
      var init := actions[..|actions| - 1];
      var last := actions[|actions| - 1];
      assert Stamped(init);
      UniformNeverShrinks(cfg, h, init);
      var w := Run(cfg, init);
      if Enabled(w, last) {
        match last {
          case Resize(leg, bytes, fate) =>
            if fate.Landed? {
              ResizeSafe(cfg, h, w, leg, bytes);
            } else {
              RefusedSafe(cfg, h, w, leg, bytes);
            }
          case Assemble(attached) => AssembleSafe(cfg, h, w, attached);
          case _ =>
        }
      }
    }
  }

  lemma RefusedSafe(cfg: Config, h: Leg, w: World, leg: Leg, bytes: nat)
    requires Safe(cfg, h, w) && Enabled(w, Resize(leg, bytes, Expand.Refused))
    ensures Safe(cfg, h, Step(cfg, w, Resize(leg, bytes, Expand.Refused)))
  {
  }

  // ---- and only then ----------------------------------------------------------------------------------

  lemma {:induction false} RunSnoc(cfg: Config, actions: seq<Action>, a: Action)
    ensures Run(cfg, actions + [a]) == Step(cfg, Run(cfg, actions), a)
  {
    assert (actions + [a])[..|actions|] == actions;
  }

  /** A lone leg at or above the floor is served at its own size. */
  lemma AssembleOne(cfg: Config, w: World, leg: Leg)
    requires w.serving == {} && leg in w.lvols.sizes && Floor(w).Some? && Floor(w).value <= w.lvols.sizes[leg]
    ensures var v := Step(cfg, w, Assemble([leg]));
            v == w.(serving := v.serving, device := w.lvols.sizes[leg], seen := Max(w.seen, w.lvols.sizes[leg]),
                    shrunk := w.shrunk || w.lvols.sizes[leg] < w.seen)
  {
    var probe := Probe(w, [leg]);
    assert probe == [Sized(leg, Some(w.lvols.sizes[leg]))];
    assert probe[0].bytes == Some(w.lvols.sizes[leg]);
    assert Enabled(w, Assemble([leg]));
  }

  /** Two legs that round some request differently: serve the larger alone, then the smaller alone. */
  lemma UnevenRoundingShrinks(cfg: Config, a: Leg, b: Leg, bytes: nat) returns (actions: seq<Action>)
    requires WellFormed(cfg) && a in cfg.legs && b in cfg.legs && cfg.capacity <= bytes <= U64_MAX
    requires cfg.round(b, bytes) < cfg.round(a, bytes)
    ensures Stamped(actions) && Run(cfg, actions).shrunk
  {
    if cfg.capacity < bytes {
      var w, before := GrowBoth(cfg, a, b, bytes);
      actions := LargeThenSmall(cfg, w, before, a, b, bytes);
    } else {
      assert Floor(Created(cfg)) == Some(cfg.capacity);
      actions := LargeThenSmall(cfg, Created(cfg), [], a, b, bytes);
    }
  }

  /** Serve the larger of two legs alone, stop, then the smaller: both are at or above the floor. */
  lemma LargeThenSmall(cfg: Config, w: World, before: seq<Action>, a: Leg, b: Leg, bytes: nat) returns (actions: seq<Action>)
    requires w == Run(cfg, before) && Stamped(before) && w.serving == {} && Floor(w) == Some(bytes)
    requires a in w.lvols.sizes && b in w.lvols.sizes && bytes <= w.lvols.sizes[b] < w.lvols.sizes[a]
    ensures Stamped(actions) && Run(cfg, actions).shrunk
  {
    AssembleOne(cfg, w, a);
    RunSnoc(cfg, before, Assemble([a]));
    var v := Step(cfg, w, Assemble([a]));
    actions := before + [Assemble([a])];
    assert v.lvols == w.lvols && v.capacity == w.capacity && v.seen >= w.lvols.sizes[a];
    RunSnoc(cfg, actions, Stop);
    actions := actions + [Stop];
    AssembleOne(cfg, v.(serving := {}), b);
    RunSnoc(cfg, actions, Assemble([b]));
    actions := actions + [Assemble([b])];
  }

  lemma GrowIdle(cfg: Config, w: World, leg: Leg, bytes: nat)
    requires Enabled(w, Resize(leg, bytes, Expand.Landed)) && w.serving == {} && w.device <= w.seen
    ensures Step(cfg, w, Resize(leg, bytes, Expand.Landed)) ==
            w.(lvols := Expand.Lvols(w.lvols.sizes[leg := cfg.round(leg, bytes)], w.lvols.grows + [Grow(bytes, leg)]), requested := bytes)
  {
  }

  lemma GrowBoth(cfg: Config, a: Leg, b: Leg, bytes: nat) returns (w: World, actions: seq<Action>)
    requires WellFormed(cfg) && a in cfg.legs && b in cfg.legs && a != b && cfg.capacity < bytes <= U64_MAX
    ensures w == Run(cfg, actions) && Stamped(actions)
    ensures w == Created(cfg).(lvols := w.lvols, requested := bytes)
    ensures w.lvols.sizes == Created(cfg).lvols.sizes[a := cfg.round(a, bytes)][b := cfg.round(b, bytes)]
    ensures Floor(w) == Some(bytes)
  {
    var first, second := Resize(a, bytes, Expand.Landed), Resize(b, bytes, Expand.Landed);
    var c := Created(cfg);
    GrowIdle(cfg, c, a, bytes);
    RunSnoc(cfg, [], first);
    w := Step(cfg, c, first);
    assert [] + [first] == [first];
    GrowIdle(cfg, w, b, bytes);
    RunSnoc(cfg, [first], second);
    w := Step(cfg, w, second);
    actions := [first] + [second];
    BothRecorded(bytes, a, b);
    assert w.lvols.grows == [] + [Grow(bytes, a)] + [Grow(bytes, b)];
  }

  lemma BothRecorded(bytes: nat, a: Leg, b: Leg)
    requires bytes <= U64_MAX && a != "" && b != "" && ',' !in a && ',' !in b
    ensures forall capacity: nat :: capacity <= bytes ==>
              MergeFloor(Some(capacity), Applied([] + [Grow(bytes, a)] + [Grow(bytes, b)])) == Some(bytes)
  {
    var one := [] + [Grow(bytes, a)];
    var both := one + [Grow(bytes, b)];
    HighWaterSnoc([], Grow(bytes, a));
    HighWaterSnoc(one, Grow(bytes, b));
    forall capacity: nat | capacity <= bytes ensures MergeFloor(Some(capacity), Applied(both)) == Some(bytes) {
      FloorOf(capacity, both);
    }
  }

  /**
   The exact condition: with every grow recorded and requests that never decrease, no run of partial expands, retries
   and reassemblies over any subset of the legs serves a device smaller than one already seen, if and only if every leg
   rounds every size alike.
   */
  lemma NeverShrinksIffUniform(cfg: Config)
    requires WellFormed(cfg)
    ensures (forall actions :: Stamped(actions) ==> !Run(cfg, actions).shrunk) <==> Uniform(cfg)
  {
    if Uniform(cfg) {
      forall actions | Stamped(actions) ensures !Run(cfg, actions).shrunk {
        var h :| h in cfg.legs;
        UniformNeverShrinks(cfg, h, actions);
      }
    } else {
      var a, b, x :| a in cfg.legs && b in cfg.legs && cfg.capacity <= x <= U64_MAX && cfg.round(a, x) != cfg.round(b, x);
      var actions;
      if cfg.round(b, x) < cfg.round(a, x) {
        actions := UnevenRoundingShrinks(cfg, a, b, x);
      } else {
        actions := UnevenRoundingShrinks(cfg, b, a, x);
      }
    }
  }

  /** A grow that misses the annotation breaks it even with uniform rounding: the floor does not know of it. */
  lemma LostStampShrinks(cfg: Config, a: Leg, b: Leg, bytes: nat, fate: Expand.Fate) returns (actions: seq<Action>)
    requires WellFormed(cfg) && a in cfg.legs && b in cfg.legs && a != b && cfg.capacity < bytes <= U64_MAX
    requires cfg.round(b, cfg.capacity) < cfg.round(a, bytes) && (fate.StampLost? || fate.ReplyLost?)
    ensures Run(cfg, actions).shrunk
    ensures actions == [Resize(a, bytes, fate), Assemble([a]), Stop, Assemble([b])]
  {
    var grow := Resize(a, bytes, fate);
    var w := Created(cfg);
    RunSnoc(cfg, [], grow);
    assert [] + [grow] == [grow];
    w := Step(cfg, w, grow);
    assert w == Created(cfg).(lvols := Expand.Lvols(Created(cfg).lvols.sizes[a := cfg.round(a, bytes)], []), requested := bytes);
    assert Floor(w) == Some(cfg.capacity);
    AssembleOne(cfg, w, a);
    RunSnoc(cfg, [grow], Assemble([a]));
    w := Step(cfg, w, Assemble([a]));
    RunSnoc(cfg, [grow] + [Assemble([a])], Stop);
    w := Step(cfg, w, Stop);
    AssembleOne(cfg, w, b);
    RunSnoc(cfg, [grow] + [Assemble([a])] + [Stop], Assemble([b]));
    actions := [grow] + [Assemble([a])] + [Stop] + [Assemble([b])];
  }

  // ---- the rounding the node agent does ------------------------------------------------------------

  lemma CeilToBounds(x: nat, unit: nat)
    requires unit > 0
    ensures x <= Expand.CeilTo(x, unit) < x + unit
  {
    var q := (x + unit - 1) / unit;
    assert x + unit - 1 == q * unit + (x + unit - 1) % unit;
  }

  lemma CeilToMonotone(x: nat, y: nat, unit: nat)
    requires unit > 0 && x <= y
    ensures Expand.CeilTo(x, unit) <= Expand.CeilTo(y, unit)
  {
    var p, q := (x + unit - 1) / unit, (y + unit - 1) / unit;
    assert p <= q by {
      if q < p {
        Scale(q + 1, p, unit);
        Distribute(q, unit);
        assert false;
      }
    }
    Scale(p, q, unit);
  }

  /** A multiple is its own ceiling. */
  lemma CeilToFixed(k: nat, unit: nat)
    requires unit > 0
    ensures Expand.CeilTo(k * unit, unit) == k * unit
  {
    CeilToBounds(k * unit, unit);
    var q := (k * unit + unit - 1) / unit;
    assert q == k by {
      if q < k {
        Scale(q, k - 1, unit);
        Distribute(k - 1, unit);
        assert false;
      } else if q > k {
        Scale(k + 1, q, unit);
        Distribute(k, unit);
        assert false;
      }
    }
  }

  /** Rounding to MiB and then to clusters of whole MiB goes up, keeps order and is stable. */
  lemma LvolSizeRounds(k: nat, x: nat, y: nat)
    requires k > 0 && x <= y
    ensures var cluster := k * Expand.MIB;
            && cluster > 0
            && x <= Expand.LvolSize(x, cluster) <= Expand.LvolSize(y, cluster)
            && Expand.LvolSize(Expand.LvolSize(x, cluster), cluster) == Expand.LvolSize(x, cluster)
  {
    var cluster := k * Expand.MIB;
    var inner := Expand.CeilTo(x, Expand.MIB);
    CeilToBounds(x, Expand.MIB);
    CeilToBounds(inner, cluster);
    CeilToMonotone(x, y, Expand.MIB);
    CeilToMonotone(inner, Expand.CeilTo(y, Expand.MIB), cluster);
    var q := (inner + cluster - 1) / cluster;
    var size := Expand.LvolSize(x, cluster);
    assert size == q * cluster == (q * k) * Expand.MIB;
    CeilToFixed(q * k, Expand.MIB);
    CeilToFixed(q, cluster);
  }

  /** So legs whose lvstores share one cluster size, a multiple of 1 MiB, never serve a smaller device. */
  lemma EqualClustersNeverShrink(cfg: Config, k: nat, actions: seq<Action>)
    requires k > 0 && cfg.legs != {} && cfg.capacity <= U64_MAX && forall l :: l in cfg.legs ==> l != "" && ',' !in l
    requires forall l, x: nat :: l in cfg.legs ==> cfg.round(l, x) == Expand.LvolSize(x, k * Expand.MIB)
    requires Stamped(actions)
    ensures !Run(cfg, actions).shrunk
  {
    forall l, x: nat | l in cfg.legs
      ensures x <= cfg.round(l, x) && cfg.round(l, cfg.round(l, x)) == cfg.round(l, x)
    {
      LvolSizeRounds(k, x, x);
    }
    forall l, x: nat, y: nat | l in cfg.legs && x <= y ensures cfg.round(l, x) <= cfg.round(l, y) {
      LvolSizeRounds(k, x, y);
    }
    NeverShrinksIffUniform(cfg);
  }
}
