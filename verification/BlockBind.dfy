/**
 Binding a raw block device onto a file (`spdk-csi-driver/src/block_bind.rs`): a bounded loop that looks at the target
 and takes one step. Binds on a file stack, the newest on top; `fails` holds the turns whose system call fails.
 */
module BlockBind {

  type Device = nat

  datatype Target = Missing | Directory | File(binds: seq<Device>)

  datatype Held = NoFile | IsDirectory | Unbound | Holds(device: Device)

  datatype Step = Done | Unbind | RemoveDir | CreateFile | Bind

  /** What stat shows of the target. */
  function HeldBy(t: Target): Held {
    match t
    case Missing => NoFile
    case Directory => IsDirectory
    case File(binds) => if binds == [] then Unbound else Holds(binds[|binds| - 1])
  }

  function NextStep(held: Held, want: Device): Step {
    match held
    case Holds(device) => if device == want then Done else Unbind
    case IsDirectory => RemoveDir
    case NoFile => CreateFile
    case Unbound => Bind
  }

  function Pop(t: Target): Target {
    if t.File? && t.binds != [] then File(t.binds[..|t.binds| - 1]) else t
  }

  /** The target after a step that succeeds. */
  function After(t: Target, step: Step, want: Device): Target {
    match step
    case Done => t
    case Unbind => Pop(t)
    case RemoveDir => Missing
    case CreateFile => File([])
    case Bind => if t.File? then File(t.binds + [want]) else t
  }

  /** Binds above the newest bind of the wanted device, or all of them. */
  function Stale(binds: seq<Device>, want: Device): nat {
    if binds == [] || binds[|binds| - 1] == want then 0 else 1 + Stale(binds[..|binds| - 1], want)
  }

  /** Looks at the target until it is seen to hold the device. */
  function TurnsNeeded(t: Target, want: Device): (n: nat)
    ensures n >= 1
  {
    match t
    case Missing => 3
    case Directory => 4
    case File(binds) => Stale(binds, want) + if want in binds then 1 else 2
  }

  lemma {:induction false} TurnTakesOne(t: Target, want: Device)
    ensures var step := NextStep(HeldBy(t), want);
            && (step == Done <==> TurnsNeeded(t, want) == 1)
            && (step != Done ==> TurnsNeeded(After(t, step, want), want) == TurnsNeeded(t, want) - 1)
  {
    if t.File? && t.binds != [] {
      var top, below := t.binds[|t.binds| - 1], t.binds[..|t.binds| - 1];
      assert t.binds == below + [top];
    }
  }

  const TURNS: nat := 6

  class Mount {
    var target: Target

    constructor (target: Target)
      ensures this.target == target
    {
      this.target := target;
    }

    /** Idempotent bind: at most six turns. */
    method BindDevice(want: Device, fails: set<nat>) returns (ok: bool)
      modifies this
      ensures ok ==> HeldBy(target) == Holds(want)
      ensures fails == {} ==> (ok <==> TurnsNeeded(old(target), want) <= TURNS)
      ensures fails == {} && !ok ==> TurnsNeeded(target, want) == TurnsNeeded(old(target), want) - TURNS
      ensures HeldBy(old(target)) == Holds(want) ==> ok && target == old(target)
    {
      for i := 0 to TURNS
        invariant fails == {} ==> TurnsNeeded(target, want) == TurnsNeeded(old(target), want) - i
        invariant i > 0 ==> HeldBy(old(target)) != Holds(want)
        invariant i == 0 ==> target == old(target)
      {
        TurnTakesOne(target, want);
        var step := NextStep(HeldBy(target), want);
        if step == Done {
          return true;
        }
        if i in fails {
          return false;
        }
        target := After(target, step, want);
      }
      return false;
    }

    /** Unbind everything and remove the target: at most six turns. */
    method UnbindDevice(fails: set<nat>) returns (ok: bool)
      modifies this
      ensures ok ==> target == Missing
      ensures fails == {} ==> (ok <==> !(old(target).File? && |old(target).binds| >= TURNS))
      ensures fails == {} && !ok ==> target.File? && target.binds == old(target).binds[..|old(target).binds| - TURNS]
    {
      for i := 0 to TURNS
        invariant i > 0 && fails == {} ==>
            old(target).File? && i <= |old(target).binds| && target == File(old(target).binds[..|old(target).binds| - i])
        invariant i == 0 ==> target == old(target)
      {
        var held := HeldBy(target);
        if held == NoFile {
          return true;
        }
        if i in fails {
          return false;
        }
        if !held.Holds? {
          target := Missing;
          return true;
        }
        target := Pop(target);
      }
      return false;
    }

    /** Retrying the bind until it succeeds ends, one call for every six turns. */
    method BindUntilDone(want: Device) returns (calls: nat)
      modifies this
      ensures HeldBy(target) == Holds(want)
      ensures calls * TURNS >= TurnsNeeded(old(target), want) > (calls - 1) * TURNS
    {
      calls := 0;
      var ok := false;
      while !ok
        invariant !ok ==> TurnsNeeded(target, want) == TurnsNeeded(old(target), want) - calls * TURNS
        invariant ok ==> HeldBy(target) == Holds(want)
        invariant ok ==> calls * TURNS >= TurnsNeeded(old(target), want) > (calls - 1) * TURNS
        decreases !ok, TurnsNeeded(target, want)
      {
        ok := BindDevice(want, {});
        calls := calls + 1;
      }
    }
  }

  /** One call is enough for up to four stale binds over a plain file, and up to five over the wanted device. */
  lemma OneCallDepth(binds: seq<Device>, want: Device)
    ensures TurnsNeeded(File(binds), want) <= TURNS <==> Stale(binds, want) <= if want in binds then 5 else 4
    ensures want !in binds ==> Stale(binds, want) == |binds|
  {
    if want !in binds {
      AllStale(binds, want);
    }
  }

  lemma {:induction false} AllStale(binds: seq<Device>, want: Device)
    requires want !in binds
    ensures Stale(binds, want) == |binds|
  {
    if binds != [] {
      AllStale(binds[..|binds| - 1], want);
    }
  }
}
