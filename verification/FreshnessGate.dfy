/**
 The degraded-assembly freshness gate (`freshness_gate.rs`): may a volume be assembled while a leg of its last serving
 set is missing? Decision, bounds and marker codecs; the assembly loop around them is in `DeferLoop` and `ServingLegs`.

 A timestamp is None when it does not parse as RFC 3339, else its seconds.
 */
module FreshnessGate {
  import opened Outcomes
  import opened Text

  datatype Availability = ClaimBlocked | NodeReady | NodeNotReady(notReadySecs: nat) | NodeGone

  datatype Decision = Proceed | Defer | ServeWithRisk

  datatype Config = Config(enabled: bool, deferSecs: nat, nodeGoneSecs: nat)

  /** The fresher data is plausibly coming back. */
  predicate IsTransient(a: Availability, cfg: Config) {
    match a
    case ClaimBlocked => true
    case NodeReady => true
    case NodeNotReady(secs) => secs < cfg.nodeGoneSecs
    case NodeGone => false
  }

  /** `missing`: the writer legs that did not attach this tick, by uuid. */
  function Evaluate(missing: map<string, Availability>, deadlinePassed: bool, cfg: Config): Decision {
    if !cfg.enabled || missing == map[] then Proceed
    else if (exists u :: u in missing && IsTransient(missing[u], cfg)) && !deadlinePassed then Defer
    else ServeWithRisk
  }

  type Time = Option<int>

  function DeadlineFrom(now: Time, deferSecs: nat): Time {
    if now.Some? then Some(now.value + deferSecs) else now
  }

  /** A deadline that cannot be compared reads as passed. */
  predicate DeadlinePassed(deadline: Time, now: Time) {
    deadline.Some? && now.Some? ==> now.value >= deadline.value
  }

  // ---- progress -----------------------------------------------------------------

  predicate ChangeIsProgress(prev: seq<string>, now: seq<string>) {
    |now| < |prev| && forall u :: u in now ==> u in prev
  }

  function Elements(s: seq<string>): set<string> {
    set u | u in s
  }

  lemma {:induction false} DistinctCount(s: seq<string>)
    requires Distinct(s)
    ensures |Elements(s)| == |s|
  {
    if s != [] {
      var last := s[|s| - 1];
      var init := s[..|s| - 1];
      DistinctCount(init);
      assert Elements(s) == Elements(init) + {last};
      assert last !in init;
    }
  }

  lemma {:induction false} SubsetCount(a: set<string>, b: set<string>)
    requires a <= b
    ensures |a| <= |b| && (|a| == |b| ==> a == b)
  {
    if a != {} {
      var x :| x in a;
      SubsetCount(a - {x}, b - {x});
      assert a == a - {x} + {x} && b == b - {x} + {x};
    } else {
      assert |b| == 0 ==> b == {};
    }
  }

  /** On duplicate-free lists a change is progress exactly when the missing set strictly shrinks. */
  lemma ProgressIsStrictShrink(prev: seq<string>, now: seq<string>)
    requires Distinct(prev) && Distinct(now)
    ensures ChangeIsProgress(prev, now) <==> Elements(now) < Elements(prev)
  {
    DistinctCount(prev);
    DistinctCount(now);
    if Elements(now) <= Elements(prev) {
      SubsetCount(Elements(now), Elements(prev));
      forall u | u in now ensures u in prev {
        assert u in Elements(now);
      }
      assert |now| < |prev| <==> Elements(now) != Elements(prev);
    } else {
      var u :| u in Elements(now) && u !in Elements(prev);
      assert u in now && u !in prev;
    }
  }

  // ---- marker codecs ---------------------------------------------------------------

  function EncodeMarker(stamp: string, uuids: seq<string>): string {
    stamp + "|" + Join(Sort(uuids), ',')
  }

  function ParseDeferMarker(marker: string): Option<(string, seq<string>)> {
    var cut := SplitOnce(marker, '|');
    if cut.None? || cut.value.0 == "" then None
    else Some((cut.value.0, NonEmpty(Split(cut.value.1, ','))))
  }

  /** As for the defer marker, but a marker that flags nobody is no marker. */
  function ParseRiskMarker(marker: string): Option<(string, seq<string>)> {
    var cut := SplitOnce(marker, '|');
    if cut.None? then None
    else
      var flagged := NonEmpty(Split(cut.value.1, ','));
      if flagged == [] then None else Some((cut.value.0, flagged))
  }

  /** No uuid is empty or contains the list separator. */
  predicate Separable(uuids: seq<string>) {
    forall u :: u in uuids ==> u != "" && ',' !in u
  }

  lemma ListRoundTrips(uuids: seq<string>)
    ensures NonEmpty(Split(Join(Sort(uuids), ','), ',')) == Sort(uuids) <==> Separable(uuids)
  {
    var sorted := Sort(uuids);
    var pieces := Split(Join(sorted, ','), ',');
    SortSorts(uuids);
    if Separable(uuids) {
      if sorted != [] {
        SplitJoin(sorted, ',');
        NonEmptyKeeps(sorted);
      }
    } else if NonEmpty(pieces) == sorted {
      var u :| u in uuids && (u == "" || ',' in u);
      JoinSplit(Join(sorted, ','), ',');
      assert false;
    }
  }

  /** The defer marker round-trips, up to sorting, for exactly the fields its separators leave alone. */
  lemma DeferMarkerRoundTrips(deadline: string, uuids: seq<string>)
    ensures ParseDeferMarker(EncodeMarker(deadline, uuids)) == Some((deadline, Sort(uuids))) <==>
            deadline != "" && '|' !in deadline && Separable(uuids)
  {
    var list := Join(Sort(uuids), ',');
    ListRoundTrips(uuids);
    assert EncodeMarker(deadline, uuids) == deadline + ['|'] + list;
    if '|' !in deadline {
      SplitOnceFinds(deadline, '|', list);
    } else {
      SplitOnceSplits(EncodeMarker(deadline, uuids), '|');
    }
  }

  /** Every flagged leg is back in the writer set or gone from the membership; garbage is clearable. */
  predicate RiskMarkerResolved(marker: string, writers: seq<string>, members: seq<string>) {
    var parsed := ParseRiskMarker(marker);
    parsed.None? || forall u :: u in parsed.value.1 ==> u in writers || u !in members
  }

  /**
   A raised risk marker clears exactly when no flagged leg is a member outside the writer set: the assembly that raised
   it, with the survivor as sole writer, does not clear it.
   */
  lemma RiskMarkerOutlivesTheLoss(since: string, flagged: seq<string>, writers: seq<string>, members: seq<string>)
    requires '|' !in since && Separable(flagged) && flagged != []
    ensures RiskMarkerResolved(EncodeMarker(since, flagged), writers, members) <==>
            forall u :: u in flagged ==> u in writers || u !in members
  {
    var list := Join(Sort(flagged), ',');
    ListRoundTrips(flagged);
    SortSorts(flagged);
    assert EncodeMarker(since, flagged) == since + ['|'] + list;
    SplitOnceFinds(since, '|', list);
    assert flagged[0] in Sort(flagged);
  }
}

/**
 The assembly loop's defer bound (`driver.rs`): the deadline and the missing set are kept in one marker. A missing set
 that strictly shrinks re-arms the deadline; any other change carries it on. The driver then stores the new set all the
 same, so a later shrink is measured against that. `follow` says whether a carried deadline rewrites the stored set;
 the driver's loop is the one that follows.
 */
module DeferLoop {
  import opened Outcomes
  import opened Arithmetic
  import opened FreshnessGate

  datatype Marker = NoMarker | Marker(deadline: Time, uuids: set<string>)

  function Tick(marker: Marker, now: Time, missing: map<string, Availability>, cfg: Config, follow: bool): (Marker, Decision) {
    if !cfg.enabled then (marker, Proceed)
    else if missing == map[] then (NoMarker, Proceed)
    else
      var uuids := missing.Keys;
      var (next, passed) :=
        if marker.Marker? && marker.uuids == uuids then
          (marker, DeadlinePassed(marker.deadline, now))
        else if marker.Marker? && !(uuids < marker.uuids) then
          (if follow then Marker(marker.deadline, uuids) else marker, DeadlinePassed(marker.deadline, now))
        else
          (Marker(DeadlineFrom(now, cfg.deferSecs), uuids), false);
      var decision := Evaluate(missing, passed, cfg);
      (if decision == ServeWithRisk then NoMarker else next, decision)
  }

  /** One retry of the assembly: when, and which writers were missing. */
  datatype Retry = Retry(at: int, missing: map<string, Availability>)

  function After(retries: seq<Retry>, cfg: Config, follow: bool): Marker {
    if retries == [] then NoMarker
    else
      var last := retries[|retries| - 1];
      Tick(After(retries[..|retries| - 1], cfg, follow), Some(last.at), last.missing, cfg, follow).0
  }

  /** Every retry was deferred. */
  predicate AllDeferred(retries: seq<Retry>, cfg: Config, follow: bool) {
    retries == [] ||
    (var last := retries[|retries| - 1];
     && AllDeferred(retries[..|retries| - 1], cfg, follow)
     && Tick(After(retries[..|retries| - 1], cfg, follow), Some(last.at), last.missing, cfg, follow).1 == Defer)
  }

  /** Retries come in order, at most `gap` apart. */
  predicate Paced(retries: seq<Retry>, gap: nat) {
    forall i :: 0 <= i < |retries| - 1 ==> retries[i].at <= retries[i + 1].at <= retries[i].at + gap
  }

  function Span(retries: seq<Retry>): int {
    if retries == [] then 0 else retries[|retries| - 1].at - retries[0].at
  }

  /** How often the deadline was re-armed after it was first set. */
  function Rearms(retries: seq<Retry>, cfg: Config, follow: bool): nat {
    if |retries| <= 1 then 0
    else
      var init := retries[..|retries| - 1];
      var m := After(init, cfg, follow);
      Rearms(init, cfg, follow) +
      if m.Marker? && retries[|retries| - 1].missing.Keys < m.uuids then 1 else 0
  }

  /** One bound, plus one bound and one retry gap for each re-arming. */
  function Allowance(rearms: nat, cfg: Config, gap: nat): nat {
    if rearms == 0 then cfg.deferSecs else Allowance(rearms - 1, cfg, gap) + cfg.deferSecs + gap
  }

  lemma {:induction false} AllowanceIsLinear(rearms: nat, cfg: Config, gap: nat)
    ensures Allowance(rearms, cfg, gap) == cfg.deferSecs + rearms * (cfg.deferSecs + gap)
  {
    if rearms > 0 {
      AllowanceIsLinear(rearms - 1, cfg, gap);
    }
  }

  lemma TickDeferred(m: Marker, at: int, missing: map<string, Availability>, cfg: Config, follow: bool)
    requires Tick(m, Some(at), missing, cfg, follow).1 == Defer
    ensures var next := Tick(m, Some(at), missing, cfg, follow).0;
            && cfg.enabled && missing != map[] && next.Marker?
            && (if m.NoMarker? || missing.Keys < m.uuids then next == Marker(Some(at + cfg.deferSecs), missing.Keys)
                else next.deadline == m.deadline && !DeadlinePassed(m.deadline, Some(at)) &&
                     next.uuids == if follow then missing.Keys else m.uuids)
  {
  }

  /** An outage of deferrals lasts at most its allowance, whatever the missing set does meanwhile. */
  lemma {:induction false} DeferralIsBounded(retries: seq<Retry>, cfg: Config, follow: bool, gap: nat)
    requires retries != [] && AllDeferred(retries, cfg, follow) && Paced(retries, gap)
    ensures var m := After(retries, cfg, follow);
            && m.Marker? && m.deadline.Some?
            && retries[|retries| - 1].at <= m.deadline.value
            && m.deadline.value <= retries[0].at + Allowance(Rearms(retries, cfg, follow), cfg, gap)
    ensures Span(retries) <= Allowance(Rearms(retries, cfg, follow), cfg, gap)
  {
    var init := retries[..|retries| - 1];
    var last := retries[|retries| - 1];
    TickDeferred(After(init, cfg, follow), last.at, last.missing, cfg, follow);
    if |retries| > 1 {
      PacedPrefix(retries, gap);
      DeferralIsBounded(init, cfg, follow, gap);
    }
  }

  lemma PacedPrefix(retries: seq<Retry>, gap: nat)
    requires |retries| > 1 && Paced(retries, gap)
    ensures var init := retries[..|retries| - 1];
            && Paced(init, gap) && init[0] == retries[0]
            && init[|init| - 1].at <= retries[|retries| - 1].at <= init[|init| - 1].at + gap
  {
  }

  // ---- if the stored set moved only with the deadline ----------------------------------

  /** The stored set's size is a measure: re-arming shrinks it and nothing grows it. */
  lemma {:induction false} KeptSetOnlyShrinks(retries: seq<Retry>, cfg: Config)
    requires retries != [] && AllDeferred(retries, cfg, false)
    ensures After(retries, cfg, false).Marker?
    ensures 1 <= |After(retries, cfg, false).uuids| <= |retries[0].missing.Keys| - Rearms(retries, cfg, false)
  {
    if |retries| > 1 {
      var init := retries[..|retries| - 1];
      KeptSetOnlyShrinks(init, cfg);
      var m := After(init, cfg, false);
      var uuids := retries[|retries| - 1].missing.Keys;
      TickDeferred(m, retries[|retries| - 1].at, retries[|retries| - 1].missing, cfg, false);
      NonEmptyKeys(retries[|retries| - 1].missing);
      if uuids < m.uuids {
        SubsetCount(uuids, m.uuids);
      }
    } else {
      assert retries[..0] == [];
      NonEmptyKeys(retries[0].missing);
    }
  }

  lemma NonEmptyKeys(m: map<string, Availability>)
    ensures m != map[] ==> |m.Keys| >= 1
  {
    if m != map[] {
      assert m.Keys != {};
    }
  }

  lemma AllowanceFits(rearms: nat, n: nat, cfg: Config, gap: nat)
    requires rearms + 1 <= n
    ensures Allowance(rearms, cfg, gap) <= n * (cfg.deferSecs + gap)
  {
    AllowanceIsLinear(rearms, cfg, gap);
    Distribute(rearms, cfg.deferSecs + gap);
    Scale(rearms + 1, n, cfg.deferSecs + gap);
  }

  /** Then however the missing set grows, shrinks or oscillates, the outage is bounded by the first missing set's size. */
  lemma KeptSetBoundsDeferral(retries: seq<Retry>, cfg: Config, gap: nat)
    requires retries != [] && AllDeferred(retries, cfg, false) && Paced(retries, gap)
    ensures Span(retries) <= |retries[0].missing.Keys| * (cfg.deferSecs + gap)
  {
    DeferralIsBounded(retries, cfg, false, gap);
    KeptSetOnlyShrinks(retries, cfg);
    AllowanceFits(Rearms(retries, cfg, false), |retries[0].missing.Keys|, cfg, gap);
  }

  // ---- the loop as the driver runs it --------------------------------------------------------

  /** Every missing set seen is one of the family's. */
  predicate Drawn(retries: seq<Retry>, family: set<set<string>>) {
    forall i :: 0 <= i < |retries| ==> retries[i].missing.Keys in family
  }

  /** No missing set is a strict part of another; nothing missing is no missing set. */
  predicate Antichain(family: set<set<string>>) {
    forall a, b :: a in family && b in family && a != {} ==> !(a < b)
  }

  /** The bound covers every run of deferrals that draws its missing sets from the family. */
  ghost predicate BoundedBy(family: set<set<string>>, cfg: Config, gap: nat, bound: int) {
    forall retries :: AllDeferred(retries, cfg, true) && Paced(retries, gap) && Drawn(retries, family) ==> Span(retries) <= bound
  }

  ghost predicate Bounded(family: set<set<string>>, cfg: Config, gap: nat) {
    exists bound :: BoundedBy(family, cfg, gap, bound)
  }

  lemma {:induction false} StoredSetIsTheLast(retries: seq<Retry>, cfg: Config)
    requires retries != [] && AllDeferred(retries, cfg, true)
    ensures After(retries, cfg, true).Marker? && After(retries, cfg, true).uuids == retries[|retries| - 1].missing.Keys
  {
  }

  lemma {:induction false} AntichainNeverRearms(retries: seq<Retry>, cfg: Config, family: set<set<string>>)
    requires AllDeferred(retries, cfg, true) && Drawn(retries, family) && Antichain(family)
    ensures Rearms(retries, cfg, true) == 0
  {
    if |retries| > 1 {
      var init := retries[..|retries| - 1];
      assert Drawn(init, family);
      AntichainNeverRearms(init, cfg, family);
      StoredSetIsTheLast(init, cfg);
      NonEmptyKeys(retries[|retries| - 1].missing);
      assert init[|init| - 1].missing.Keys in family && retries[|retries| - 1].missing.Keys in family;
    }
  }

  function Blocked(uuids: set<string>): map<string, Availability> {
    map u | u in uuids :: ClaimBlocked
  }

  /** The missing set flips between a set and a strict part of it: the part, then the whole, every second. */
  function Treadmill(small: set<string>, large: set<string>, n: nat): (retries: seq<Retry>)
    ensures |retries| == n
    ensures forall i :: 0 <= i < n ==> retries[i] == Retry((i + 1) / 2, Blocked(if i % 2 == 0 then large else small))
  {
    if n == 0 then []
    else Treadmill(small, large, n - 1) + [Retry(n / 2, Blocked(if (n - 1) % 2 == 0 then large else small))]
  }

  /** The treadmill's marker after n retries: the deadline was armed this second, by the part. */
  function TreadmillMarker(small: set<string>, large: set<string>, n: nat, cfg: Config): Marker {
    if n == 0 then NoMarker else Marker(Some(n / 2 + cfg.deferSecs), if n % 2 == 0 then small else large)
  }

  lemma TreadmillTick(small: set<string>, large: set<string>, n: nat, cfg: Config)
    requires small != {} && small < large && cfg.enabled && cfg.deferSecs >= 1
    ensures Tick(TreadmillMarker(small, large, n, cfg), Some((n + 1) / 2), Blocked(if n % 2 == 0 then large else small), cfg, true) ==
            (TreadmillMarker(small, large, n + 1, cfg), Defer)
  {
    var uuids := if n % 2 == 0 then large else small;
    var missing := Blocked(uuids);
    assert missing.Keys == uuids;
    var u :| u in uuids;
    assert u in missing && IsTransient(missing[u], cfg);
  }

  lemma {:induction false} TreadmillNeverEnds(small: set<string>, large: set<string>, n: nat, cfg: Config)
    requires small != {} && small < large && cfg.enabled && cfg.deferSecs >= 1
    ensures AllDeferred(Treadmill(small, large, n), cfg, true)
    ensures After(Treadmill(small, large, n), cfg, true) == TreadmillMarker(small, large, n, cfg)
  {
    if n > 0 {
      var retries := Treadmill(small, large, n);
      assert retries[..n - 1] == Treadmill(small, large, n - 1);
      TreadmillNeverEnds(small, large, n - 1, cfg);
      TreadmillTick(small, large, n - 1, cfg);
    }
  }

  lemma TreadmillOutlasts(family: set<set<string>>, small: set<string>, large: set<string>, cfg: Config, gap: nat, bound: nat)
    requires cfg.enabled && cfg.deferSecs >= 1 && gap >= 1
    requires small in family && large in family && small != {} && small < large
    ensures !BoundedBy(family, cfg, gap, bound)
  {
    var retries := Treadmill(small, large, 2 * bound + 2);
    TreadmillNeverEnds(small, large, 2 * bound + 2, cfg);
    forall i | 0 <= i < |retries| ensures retries[i].missing.Keys in family {
      assert Blocked(large).Keys == large && Blocked(small).Keys == small;
    }
    assert Drawn(retries, family) && Paced(retries, gap) && Span(retries) == bound + 1;
  }

  // ---- without a wait only strict shrinks defer -----------------------------------------

  lemma {:induction false} SpanIsPaced(retries: seq<Retry>, gap: nat)
    requires retries != [] && Paced(retries, gap)
    ensures 0 <= Span(retries) <= (|retries| - 1) * gap
  {
    if |retries| > 1 {
      PacedPrefix(retries, gap);
      SpanIsPaced(retries[..|retries| - 1], gap);
      Distribute(|retries| - 2, gap);
    }
  }

  /** With no wait a deadline has passed by the next retry, so each deferral needs a strictly smaller set. */
  lemma {:induction false} NoWaitShrinks(retries: seq<Retry>, cfg: Config, gap: nat)
    requires retries != [] && AllDeferred(retries, cfg, true) && Paced(retries, gap) && cfg.deferSecs == 0
    ensures After(retries, cfg, true) == Marker(Some(retries[|retries| - 1].at), retries[|retries| - 1].missing.Keys)
    ensures |retries| <= |retries[0].missing.Keys|
    ensures 1 <= |retries[|retries| - 1].missing.Keys| <= |retries[0].missing.Keys| - (|retries| - 1)
  {
    var init, last := retries[..|retries| - 1], retries[|retries| - 1];
    TickDeferred(After(init, cfg, true), last.at, last.missing, cfg, true);
    NonEmptyKeys(last.missing);
    if |retries| > 1 {
      PacedPrefix(retries, gap);
      NoWaitShrinks(init, cfg, gap);
      SubsetCount(last.missing.Keys, init[|init| - 1].missing.Keys);
    }
  }

  lemma {:induction false} LargestMember(family: set<set<string>>) returns (size: nat)
    ensures forall s :: s in family ==> |s| <= size
    decreases |family|
  {
    size := 0;
    if family != {} {
      var s :| s in family;
      size := LargestMember(family - {s});
      size := if size < |s| then |s| else size;
      assert family == family - {s} + {s};
    }
  }

  lemma NoWaitIsBounded(family: set<set<string>>, cfg: Config, gap: nat)
    requires cfg.deferSecs == 0 || gap == 0
    ensures Bounded(family, cfg, gap)
  {
    var size := LargestMember(family);
    forall retries: seq<Retry> | AllDeferred(retries, cfg, true) && Paced(retries, gap) && Drawn(retries, family)
      ensures Span(retries) <= size * gap
    {
      if retries != [] {
        SpanIsPaced(retries, gap);
        if gap > 0 {
          NoWaitShrinks(retries, cfg, gap);
          assert |retries[0].missing.Keys| <= size;
          Scale(|retries| - 1, size, gap);
        }
      }
    }
    assert BoundedBy(family, cfg, gap, size * gap);
  }

  lemma AntichainIsBounded(family: set<set<string>>, cfg: Config, gap: nat)
    requires Antichain(family)
    ensures Bounded(family, cfg, gap)
  {
    forall retries | AllDeferred(retries, cfg, true) && Paced(retries, gap) && Drawn(retries, family)
      ensures Span(retries) <= cfg.deferSecs
    {
      if retries != [] {
        AntichainNeverRearms(retries, cfg, family);
        DeferralIsBounded(retries, cfg, true, gap);
      }
    }
    assert BoundedBy(family, cfg, gap, cfg.deferSecs);
  }

  /**
   The exact condition: the driver's defer loop stays a bound if and only if it does not wait at all, retries never move
   on, or no missing set the run can show is a strict part of another. Two writers that trade places are bounded; two
   writers of which one comes and goes are not.
   */
  lemma DeferBoundedIffAntichain(family: set<set<string>>, cfg: Config, gap: nat)
    requires cfg.enabled
    ensures Bounded(family, cfg, gap) <==> cfg.deferSecs == 0 || gap == 0 || Antichain(family)
  {
    if cfg.deferSecs == 0 || gap == 0 {
      NoWaitIsBounded(family, cfg, gap);
    } else if Antichain(family) {
      AntichainIsBounded(family, cfg, gap);
    } else {
      var small, large :| small in family && large in family && small != {} && small < large;
      forall bound | BoundedBy(family, cfg, gap, bound) ensures false {
        TreadmillOutlasts(family, small, large, cfg, gap, if bound < 0 then 0 else bound);
      }
    }
  }
}
