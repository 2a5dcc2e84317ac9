/**
 Reaping dead controllers (`spdk-csi-driver/src/controller_reap.rs`): a controller is detached after enough cycles in a
 row in which it is condemned.
 */
module Reap {
  import opened Text

  datatype PathState = Enabled | Deleting | Other

  datatype Controller = Controller(name: string, states: seq<PathState>)

  datatype Cycle = Cycle(controllers: seq<Controller>, raidBases: set<string>)

  /** "nvme_" and the volume name prefix with ':' and '.' mangled. */
  const PREFIX: string := "nvme_nqn_2024-11_com_flint_volume_"

  /** The bdev is the controller's name, an 'n' and a namespace number. */
  predicate IsNamespaceOf(bdev: string, name: string) {
    && name <= bdev && |bdev| > |name| + 1 && bdev[|name|] == 'n'
    && AllDigits(bdev[|name| + 1..])
  }

  predicate OwnsBase(c: Controller, bases: set<string>) {
    exists b :: b in bases && IsNamespaceOf(b, c.name)
  }

  /** Ours, dead on every path, and under no raid. */
  predicate Condemned(cycle: Cycle, c: Controller) {
    && PREFIX <= c.name
    && c.states != [] && Enabled !in c.states && Deleting !in c.states
    && !OwnsBase(c, cycle.raidBases)
  }

  lemma DigitsAfter(bdev: string, name: string, k: nat)
    requires IsNamespaceOf(bdev, name) && |name| < k < |bdev|
    ensures bdev[k] != 'n'
  {
    assert bdev[k] == bdev[|name| + 1..][k - |name| - 1];
  }

  /** A namespace bdev has at most one owner: the split is at its last 'n'. */
  lemma OneOwner(bdev: string, a: string, b: string)
    requires IsNamespaceOf(bdev, a) && IsNamespaceOf(bdev, b)
    ensures a == b
  {
    if |a| < |b| {
      DigitsAfter(bdev, a, |b|);
    } else if |b| < |a| {
      DigitsAfter(bdev, b, |a|);
    }
  }

  // ---- what the history says ---------------------------------------------------------------------

  predicate CondemnedName(cycle: Cycle, name: string) {
    exists i :: 0 <= i < |cycle.controllers| && cycle.controllers[i].name == name && Condemned(cycle, cycle.controllers[i])
  }

  predicate DistinctNames(cycle: Cycle) {
    forall i, j :: 0 <= i < j < |cycle.controllers| ==> cycle.controllers[i].name != cycle.controllers[j].name
  }

  /** How many cycles in a row, up to the last, the name has been condemned. */
  function Streak(history: seq<Cycle>, name: string): nat {
    if history == [] || !CondemnedName(history[|history| - 1], name) then 0
    else 1 + Streak(history[..|history| - 1], name)
  }

  ghost predicate CountsStreaks(strikes: map<string, nat>, history: seq<Cycle>) {
    forall name :: (name in strikes <==> Streak(history, name) > 0)
                && (name in strikes ==> strikes[name] == Streak(history, name))
  }

  /** The candidates of a cycle, in order. */
  function Candidates(cycle: Cycle, n: nat): (names: seq<string>)
    requires n <= |cycle.controllers|
    ensures forall name :: name in names <==>
              exists i :: 0 <= i < n && cycle.controllers[i].name == name && Condemned(cycle, cycle.controllers[i])
  {
    if n == 0 then []
    else
      var names, c := Candidates(cycle, n - 1), cycle.controllers[n - 1];
      if Condemned(cycle, c) then names + [c.name] else names
  }

  lemma {:induction false} CandidatesAreDistinct(cycle: Cycle, n: nat)
    requires n <= |cycle.controllers| && DistinctNames(cycle)
    ensures Distinct(Candidates(cycle, n))
  {
    if n > 0 {
      CandidatesAreDistinct(cycle, n - 1);
      assert cycle.controllers[n - 1].name !in Candidates(cycle, n - 1);
    }
  }

  function CountIn(strikes: map<string, nat>, name: string): nat {
    if name in strikes then strikes[name] else 0
  }

  /** The counts after a cycle: one more for each candidate, nothing for anyone else. */
  ghost predicate Struck(before: map<string, nat>, names: seq<string>, after: map<string, nat>) {
    forall name :: (name in after <==> name in names) && (name in after ==> after[name] == CountIn(before, name) + 1)
  }

  lemma StreaksAdvance(before: map<string, nat>, after: map<string, nat>, history: seq<Cycle>, cycle: Cycle)
    requires CountsStreaks(before, history) && Struck(before, Candidates(cycle, |cycle.controllers|), after)
    ensures CountsStreaks(after, history + [cycle])
  {
    var next, names := history + [cycle], Candidates(cycle, |cycle.controllers|);
    assert next[..|history|] == history;
    forall name
      ensures (name in after <==> Streak(next, name) > 0) && (name in after ==> after[name] == Streak(next, name))
    {
      assert name in names <==> CondemnedName(cycle, name);
      assert CountIn(before, name) == Streak(history, name);
    }
  }

  class Reaper {
    var strikes: map<string, nat>
    ghost var history: seq<Cycle>

    ghost predicate Valid()
      reads this
    {
      CountsStreaks(strikes, history)
    }

    constructor ()
      ensures Valid() && history == []
    {
      strikes, history := map[], [];
    }

    /** Keep the counts of current candidates only. */
    method Retain(current: seq<string>)
      modifies this`strikes
      ensures strikes == map name | name in old(strikes) && name in current :: old(strikes)[name]
    {
      strikes := map name | name in strikes && name in current :: strikes[name];
    }

    /** Count one more for each candidate and collect those at the threshold. */
    method Strike(names: seq<string>, threshold: nat) returns (reap: seq<string>)
      requires Distinct(names) && forall name :: name in strikes ==> name in names
      modifies this`strikes
      ensures Struck(old(strikes), names, strikes)
      ensures forall name :: name in reap <==> name in names && CountIn(strikes, name) >= threshold
    {
      reap := [];
      for i := 0 to |names|
        invariant forall name :: name in strikes <==> name in old(strikes) || name in names[..i]
        invariant forall name :: name in strikes ==>
                    strikes[name] == CountIn(old(strikes), name) + if name in names[..i] then 1 else 0
        invariant forall name :: name in reap <==> name in names[..i] && CountIn(strikes, name) >= threshold
      {
        var name := names[i];
        assert name !in names[..i];
        assert names[..i + 1] == names[..i] + [name];
        strikes := strikes[name := CountIn(strikes, name) + 1];
        if strikes[name] >= threshold {
          reap := reap + [name];
        }
      }
      assert names[..|names|] == names;
    }

    /** One cycle: what is returned has been condemned in at least `threshold` cycles in a row, this one included. */
    method PlanReap(cycle: Cycle, threshold: nat) returns (reap: seq<string>)
      requires Valid() && DistinctNames(cycle)
      modifies this
      ensures Valid() && history == old(history) + [cycle]
      ensures forall name :: name in reap <==> CondemnedName(cycle, name) && Streak(history, name) >= threshold
      ensures forall b, name :: b in cycle.raidBases && name in reap ==> !IsNamespaceOf(b, name)
    {
      var candidates := Candidates(cycle, |cycle.controllers|);
      CandidatesAreDistinct(cycle, |cycle.controllers|);
      Retain(candidates);
      reap := Strike(candidates, threshold);
      StreaksAdvance(old(strikes), strikes, history, cycle);
      history := history + [cycle];
    }
  }
}
