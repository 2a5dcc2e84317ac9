/**
 The leg-size guard (`leg_size_guard.rs`): which legs may join an assembly without silently shrinking the device, and
 the annotation that remembers how far legs have grown.
 */
module LegSizeGuard {
  import opened Outcomes
  import opened Text
  import opened FreshnessGate

  // ---- the applied high-water annotation ---------------------------------------------

  function DecodeApplied(v: string): Option<(nat, seq<string>)> {
    var cut := SplitOnce(v, '|');
    if cut.None? then None
    else
      var bytes := ParseU64(cut.value.0);
      if bytes.None? then None else Some((bytes.value, NonEmpty(Split(cut.value.1, ','))))
  }

  /** Merge one grow into the annotation: the larger size, the union of the uuids, sorted. */
  function EncodeApplied(prev: Option<string>, bytes: nat, uuid: string): string {
    var decoded := if prev.Some? then DecodeApplied(prev.value) else None;
    var (high, uuids) := if decoded.Some? then decoded.value else (0, []);
    Decimal(Max(high, bytes)) + "|" + Join(Sort(if uuid in uuids then uuids else uuids + [uuid]), ',')
  }

  function Max(a: nat, b: nat): nat {
    if a < b then b else a
  }

  function MergeFloor(capacity: Option<nat>, applied: Option<string>): Option<nat> {
    var decoded := if applied.Some? then DecodeApplied(applied.value) else None;
    match (capacity, decoded)
    case (Some(p), Some(a)) => Some(Max(p, a.0))
    case (Some(p), None) => Some(p)
    case (None, Some(a)) => Some(a.0)
    case (None, None) => None
  }

  datatype Grow = Grow(bytes: nat, uuid: string)

  /** The annotation after a sequence of leg grows. */
  function Applied(grows: seq<Grow>): Option<string> {
    if grows == [] then None
    else
      var last := grows[|grows| - 1];
      Some(EncodeApplied(Applied(grows[..|grows| - 1]), last.bytes, last.uuid))
  }

  function HighWater(grows: seq<Grow>): nat {
    if grows == [] then 0 else Max(HighWater(grows[..|grows| - 1]), grows[|grows| - 1].bytes)
  }

  function Grown(grows: seq<Grow>): set<string> {
    set g | g in grows :: g.uuid
  }

  /** Sizes fit 64 bits and no uuid is empty or contains the list separator. */
  predicate Recordable(grows: seq<Grow>) {
    forall g :: g in grows ==> g.bytes <= U64_MAX && g.uuid != "" && ',' !in g.uuid
  }

  predicate SortedSet(uuids: seq<string>, s: set<string>) {
    Sorted(uuids) && Distinct(uuids) && Elements(uuids) == s
  }

  lemma HighWaterBounds(grows: seq<Grow>)
    requires Recordable(grows)
    ensures HighWater(grows) <= U64_MAX
  {
    if grows != [] {
      assert grows[|grows| - 1] in grows;
      HighWaterBounds(grows[..|grows| - 1]);
    }
  }

  lemma SortAddSet(uuids: seq<string>, s: set<string>, uuid: string)
    requires SortedSet(uuids, s)
    ensures SortedSet(Sort(if uuid in uuids then uuids else uuids + [uuid]), s + {uuid})
  {
    var more := if uuid in uuids then uuids else uuids + [uuid];
    SortSorts(more);
    AddedOnce(uuids, s, uuid);
    SameElements(more, Sort(more));
    DistinctPermutes(more, Sort(more));
  }

  lemma AddedOnce(uuids: seq<string>, s: set<string>, uuid: string)
    requires Distinct(uuids) && Elements(uuids) == s
    ensures var more := if uuid in uuids then uuids else uuids + [uuid];
            Distinct(more) && Elements(more) == s + {uuid}
  {
    assert uuid in uuids <==> uuid in Elements(uuids);
  }

  lemma SameElements(a: seq<string>, b: seq<string>)
    requires multiset(a) == multiset(b)
    ensures Elements(a) == Elements(b)
  {
    forall x ensures x in Elements(a) <==> x in Elements(b) {
      assert x in a <==> x in multiset(a);
      assert x in b <==> x in multiset(b);
    }
  }

  lemma {:induction false} DistinctPermutes(a: seq<string>, b: seq<string>)
    requires Distinct(a) && multiset(a) == multiset(b)
    ensures Distinct(b)
  {
    forall i, j | 0 <= i < j < |b| ensures b[i] != b[j] {
      if b[i] == b[j] {
        assert b == b[..j] + [b[j]] + b[j + 1..];
        assert b[i] in b[..j];
        assert multiset(b)[b[j]] >= 2;
        AtMostOnce(a, b[j]);
      }
    }
  }

  lemma {:induction false} AtMostOnce(a: seq<string>, x: string)
    requires Distinct(a)
    ensures multiset(a)[x] <= 1
  {
    if a != [] {
      var init := a[..|a| - 1];
      AtMostOnce(init, x);
      assert a == init + [a[|a| - 1]];
      assert a[|a| - 1] !in init;
    }
  }

  /**
   Whatever grows are folded in, in whatever order and however often repeated, the annotation decodes to the largest
   size and the sorted set of the legs that grew.
   */
  lemma {:induction false} AppliedDecodes(grows: seq<Grow>) returns (uuids: seq<string>)
    requires grows != [] && Recordable(grows)
    ensures DecodeApplied(Applied(grows).value) == Some((HighWater(grows), uuids))
    ensures SortedSet(uuids, Grown(grows))
    ensures Applied(grows).value == Decimal(HighWater(grows)) + "|" + Join(uuids, ',')
  {
    var init := grows[..|grows| - 1];
    var last := grows[|grows| - 1];
    var before: seq<string> := [];
    if init != [] {
      before := AppliedDecodes(init);
    } else {
      assert Grown(init) == {};
    }
    var more := if last.uuid in before then before else before + [last.uuid];
    uuids := Sort(more);
    GrownSnoc(grows);
    SortAddSet(before, Grown(init), last.uuid);
    HighWaterBounds(grows);
    SortSorts(more);
    forall u | u in more ensures u in Grown(grows) {
      assert u in uuids && u in Elements(uuids);
    }
    AnnotationDecodes(HighWater(grows), more, grows);
  }

  lemma MergeDecoded(capacity: nat, v: string, high: nat, uuids: seq<string>)
    requires DecodeApplied(v) == Some((high, uuids))
    ensures MergeFloor(Some(capacity), Some(v)) == Some(Max(capacity, high))
  {
  }

  /** The floor of a volume with a capacity is the larger of it and the largest grow recorded. */
  lemma FloorOf(capacity: nat, grows: seq<Grow>)
    requires Recordable(grows)
    ensures MergeFloor(Some(capacity), Applied(grows)) == Some(Max(capacity, HighWater(grows)))
  {
    if grows != [] {
      var uuids := AppliedDecodes(grows);
      MergeDecoded(capacity, Applied(grows).value, HighWater(grows), uuids);
    }
  }

  lemma GrownSnoc(grows: seq<Grow>)
    requires grows != []
    ensures Grown(grows) == Grown(grows[..|grows| - 1]) + {grows[|grows| - 1].uuid}
  {
    assert grows == grows[..|grows| - 1] + [grows[|grows| - 1]];
  }

  lemma AnnotationDecodes(high: nat, uuids: seq<string>, grows: seq<Grow>)
    requires high <= U64_MAX && Recordable(grows)
    requires forall u :: u in uuids ==> u in Grown(grows)
    ensures DecodeApplied(Decimal(high) + "|" + Join(Sort(uuids), ',')) == Some((high, Sort(uuids)))
  {
    var list := Join(Sort(uuids), ',');
    assert Separable(uuids) by {
      forall u | u in uuids ensures u != "" && ',' !in u {
        var g :| g in grows && g.uuid == u;
      }
    }
    ListRoundTrips(uuids);
    ParseDecimal(high);
    assert '|' !in Decimal(high);
    assert Decimal(high) + "|" + list == Decimal(high) + ['|'] + list;
    SplitOnceFinds(Decimal(high), '|', list);
  }

  /** So the annotation depends only on which grows happened, and the floor never lies below any of them. */
  lemma AppliedIsOrderFree(a: seq<Grow>, b: seq<Grow>)
    requires Recordable(a) && Recordable(b) && forall g :: g in a <==> g in b
    ensures Applied(a) == Applied(b)
  {
    NoneIsNone(a, b);
    NoneIsNone(b, a);
    if a == [] {
      return;
    }
    SameHighWater(a, b);
    SameHighWater(b, a);
    assert Grown(a) == Grown(b);
    SameAnnotation(a, b);
  }

  lemma NoneIsNone(a: seq<Grow>, b: seq<Grow>)
    requires forall g :: g in a ==> g in b
    ensures b == [] ==> a == []
  {
    if a != [] {
      assert a[0] in a;
    }
  }

  lemma SameAnnotation(a: seq<Grow>, b: seq<Grow>)
    requires Recordable(a) && Recordable(b) && a != [] && b != []
    requires HighWater(a) == HighWater(b) && Grown(a) == Grown(b)
    ensures Applied(a) == Applied(b)
  {
    var us := AppliedDecodes(a);
    var vs := AppliedDecodes(b);
    SortedSetUnique(us, vs);
  }

  lemma {:induction false} SameHighWater(a: seq<Grow>, b: seq<Grow>)
    requires forall g :: g in a ==> g in b
    ensures HighWater(a) <= HighWater(b)
  {
    if a != [] {
      var init, last := a[..|a| - 1], a[|a| - 1];
      assert last in a && forall g :: g in init ==> g in a;
      SameHighWater(init, b);
      HighWaterCovers(b, last);
    }
  }

  lemma SortedSetUnique(a: seq<string>, b: seq<string>)
    requires Sorted(a) && Sorted(b) && Distinct(a) && Distinct(b) && Elements(a) == Elements(b)
    ensures a == b
  {
    forall x ensures multiset(a)[x] == multiset(b)[x] {
      AtMostOnce(a, x);
      AtMostOnce(b, x);
      assert x in a <==> x in Elements(a);
      assert x in b <==> x in Elements(b);
      assert x in multiset(a) <==> x in a;
      assert x in multiset(b) <==> x in b;
    }
    assert multiset(a) == multiset(b);
    SortedUnique(a, b);
  }

  lemma {:induction false} FloorCoversEveryGrow(capacity: Option<nat>, grows: seq<Grow>, g: Grow)
    requires Recordable(grows) && g in grows
    ensures var floor := MergeFloor(capacity, Applied(grows));
            floor.Some? && g.bytes <= floor.value && (capacity.Some? ==> capacity.value <= floor.value)
  {
    var _ := AppliedDecodes(grows);
    HighWaterCovers(grows, g);
  }

  lemma {:induction false} HighWaterCovers(grows: seq<Grow>, g: Grow)
    requires g in grows
    ensures g.bytes <= HighWater(grows)
  {
    if g != grows[|grows| - 1] {
      assert g in grows[..|grows| - 1];
      HighWaterCovers(grows[..|grows| - 1], g);
    }
  }

  // ---- partitioning the legs ------------------------------------------------------------

  /** A leg about to join: its label and measured size, None when the probe gave none. */
  datatype Sized = Sized(tag: string, bytes: Option<nat>)

  datatype Partition = Partition(keep: seq<nat>, exclude: seq<(nat, nat)>, failStage: bool, servingBytes: Option<nat>)

  /** The largest measured size. */
  function Largest(legs: seq<Sized>): (largest: Option<nat>)
    ensures largest.None? <==> forall i :: 0 <= i < |legs| ==> legs[i].bytes.None?
    ensures largest.Some? ==> exists i :: 0 <= i < |legs| && legs[i].bytes == largest
    ensures largest.Some? ==> forall i :: 0 <= i < |legs| && legs[i].bytes.Some? ==> legs[i].bytes.value <= largest.value
  {
    if legs == [] then None
    else
      var init := legs[..|legs| - 1];
      var rest := Largest(init);
      var last := legs[|legs| - 1].bytes;
      assert forall i :: 0 <= i < |init| ==> legs[i] == init[i];
      if last.None? || (rest.Some? && rest.value >= last.value) then rest else last
  }

  predicate Short(leg: Sized, largest: Option<nat>) {
    leg.bytes.Some? && largest.Some? && leg.bytes.value < largest.value
  }

  /** Keep exactly the largest cohort and the unmeasured legs; if even the largest is below the floor, serve nothing. */
  method PartitionLegs(legs: seq<Sized>, floor: Option<nat>) returns (p: Partition)
    ensures p.servingBytes == Largest(legs)
    ensures p.failStage <==> p.servingBytes.Some? && floor.Some? && p.servingBytes.value < floor.value
    ensures p.failStage ==> p.keep == [] && p.exclude == []
    ensures !p.failStage ==> Splits(p, legs, |legs|)
  {
    var largest := None;
    for i := 0 to |legs|
      invariant largest == Largest(legs[..i])
    {
      if legs[i].bytes.Some? && (largest.None? || largest.value < legs[i].bytes.value) {
        largest := legs[i].bytes;
      }
      assert legs[..i + 1][..i] == legs[..i];
    }
    assert legs[..|legs|] == legs;
    if largest.Some? && floor.Some? && largest.value < floor.value {
      return Partition([], [], true, largest);
    }
    p := Partition([], [], false, largest);
    for i := 0 to |legs|
      invariant !p.failStage && p.servingBytes == largest && Splits(p, legs, i)
    {
      if Short(legs[i], largest) {
        SplitsExclude(p, legs, i);
        p := p.(exclude := p.exclude + [(i, legs[i].bytes.value)]);
      } else {
        SplitsKeep(p, legs, i);
        p := p.(keep := p.keep + [i]);
      }
    }
  }

  /** The first n legs are split, in order, into those to keep and those too short. */
  ghost predicate Splits(p: Partition, legs: seq<Sized>, n: nat)
    requires n <= |legs|
  {
    && (forall i :: i in p.keep <==> 0 <= i < n && !Short(legs[i], p.servingBytes))
    && (forall i, b :: (i, b) in p.exclude <==> 0 <= i < n && Short(legs[i], p.servingBytes) && legs[i].bytes == Some(b))
    && (forall i, j :: 0 <= i < j < |p.keep| ==> p.keep[i] < p.keep[j])
    && (forall i, j :: 0 <= i < j < |p.exclude| ==> p.exclude[i].0 < p.exclude[j].0)
  }

  lemma SplitsKeep(p: Partition, legs: seq<Sized>, n: nat)
    requires n < |legs| && Splits(p, legs, n) && !Short(legs[n], p.servingBytes)
    ensures Splits(p.(keep := p.keep + [n]), legs, n + 1)
  {
    forall i | 0 <= i < |p.keep| ensures p.keep[i] < n {
      assert p.keep[i] in p.keep;
    }
  }

  lemma SplitsExclude(p: Partition, legs: seq<Sized>, n: nat)
    requires n < |legs| && Splits(p, legs, n) && Short(legs[n], p.servingBytes)
    ensures Splits(p.(exclude := p.exclude + [(n, legs[n].bytes.value)]), legs, n + 1)
  {
    forall i | 0 <= i < |p.exclude| ensures p.exclude[i].0 < n {
      assert (p.exclude[i].0, p.exclude[i].1) in p.exclude;
    }
  }
}
