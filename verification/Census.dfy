/**
 The view census (`lean/formal/view-census.py`): a syntactic rule that is meant to make merging states by their view
 sound. A module is its actions and invariants as expressions over the fields of `gh`, the fields of each `sc[i]`, and
 the other variables; the view drops some fields.
 */
module Census {
  import opened Outcomes

  datatype Op = Plus | Minus | Less | Both

  datatype Expr =
    | Lit(value: int)
    | Param                                     // the action's parameter
    | At                                        // the old value of the field being assigned
    | Name(name: string)                        // another variable
    | GhField(field: string)                    // gh.field
    | ScField(index: Expr, field: string)       // sc[index].field
    | Constant(table: map<int, int>, arg: Expr) // a constant function, as in Writers[j]
    | Bin(op: Op, left: Expr, right: Expr)

  /** One `!.f = rhs` of a `[gh EXCEPT ...]`, or one `![index].f = rhs` of a `[sc EXCEPT ...]`. */
  datatype Assign =
    | GhSet(field: string, rhs: Expr)
    | ScSet(index: Expr, field: string, rhs: Expr)

  /** `after` is evaluated in the successor: it is what the action says about primed variables. */
  datatype Action = Action(guard: Expr, gh: seq<Assign>, sc: seq<Assign>, plain: seq<(string, Expr)>, after: Expr)

  datatype Module = Module(actions: seq<Action>, invariants: seq<Expr>)

  /** The fields the view leaves out. */
  datatype Dropped = Dropped(gh: set<string>, sc: set<string>)

  // ---- meaning ---------------------------------------------------------------------------------

  datatype Loc = Var(name: string) | Gh(field: string) | Sc(index: int, field: string)

  type State = Loc -> int

  function Apply(op: Op, x: int, y: int): int {
    match op
    case Plus => x + y
    case Minus => x - y
    case Less => if x < y then 1 else 0
    case Both => if x != 0 && y != 0 then 1 else 0
  }

  function Eval(e: Expr, s: State, p: int, at: int): int {
    match e
    case Lit(v) => v
    case Param => p
    case At => at
    case Name(n) => s(Var(n))
    case GhField(f) => s(Gh(f))
    case ScField(i, f) => s(Sc(Eval(i, s, p, at), f))
    case Constant(table, a) => var v := Eval(a, s, p, at); if v in table then table[v] else 0
    case Bin(op, l, r) => Apply(op, Eval(l, s, p, at), Eval(r, s, p, at))
  }

  function Put(s: State, loc: Loc, v: int): State {
    (l: Loc) => if l == loc then v else s(l)
  }

  function Target(a: Assign, s: State, p: int): Loc {
    match a
    case GhSet(f, _) => Gh(f)
    case ScSet(i, f, _) => Sc(Eval(i, s, p, 0), f)
  }

  /** Assignments in order, each right-hand side read in the old state. */
  function Assigned(assigns: seq<Assign>, pre: State, p: int, cur: State): State {
    if assigns == [] then cur
    else
      var loc := Target(assigns[0], pre, p);
      Assigned(assigns[1..], pre, p, Put(cur, loc, Eval(assigns[0].rhs, pre, p, cur(loc))))
  }

  function PlainAssigned(assigns: seq<(string, Expr)>, pre: State, p: int, cur: State): State {
    if assigns == [] then cur
    else PlainAssigned(assigns[1..], pre, p, Put(cur, Var(assigns[0].0), Eval(assigns[0].1, pre, p, 0)))
  }

  function Next(a: Action, p: int, s: State): State {
    PlainAssigned(a.plain, s, p, Assigned(a.sc, s, p, Assigned(a.gh, s, p, s)))
  }

  predicate Enabled(a: Action, p: int, s: State) {
    Eval(a.guard, s, p, 0) != 0 && Eval(a.after, Next(a, p, s), p, 0) != 0
  }

  predicate Holds(inv: Expr, s: State) {
    Eval(inv, s, 0, 0) != 0
  }

  predicate Kept(d: Dropped, loc: Loc) {
    match loc
    case Var(_) => true
    case Gh(f) => f !in d.gh
    case Sc(_, f) => f !in d.sc
  }

  /** The two states have the same view. */
  ghost predicate SameView(d: Dropped, s: State, t: State) {
    forall loc :: Kept(d, loc) ==> s(loc) == t(loc)
  }

  // ---- the rules -------------------------------------------------------------------------------

  /** The expression reads a dropped field. */
  predicate Dirty(d: Dropped, e: Expr) {
    match e
    case Lit(_) => false
    case Param => false
    case At => false
    case Name(_) => false
    case GhField(f) => f in d.gh
    case ScField(i, f) => f in d.sc || Dirty(d, i)
    case Constant(_, a) => Dirty(d, a)
    case Bin(_, l, r) => Dirty(d, l) || Dirty(d, r)
  }

  predicate HasBracket(e: Expr) {
    match e
    case ScField(_, _) => true
    case Constant(_, _) => true
    case Bin(_, l, r) => HasBracket(l) || HasBracket(r)
    case _ => false
  }

  /** The pattern for an assignment stops at the first closing bracket, so it misses one whose index has a bracket. */
  predicate Recognised(a: Assign) {
    a.GhSet? || !HasBracket(a.index)
  }

  /** The target found for a position before assignment `k`'s own: the last one recognised. */
  function Before(assigns: seq<Assign>, k: nat): Option<string>
    requires k <= |assigns|
  {
    if k == 0 then None
    else if Recognised(assigns[k - 1]) then Some(assigns[k - 1].field)
    else Before(assigns, k - 1)
  }

  /** The target found for a position in assignment `k`'s right-hand side. */
  function Attributed(assigns: seq<Assign>, k: nat): Option<string>
    requires k < |assigns|
  {
    Before(assigns, k + 1)
  }

  predicate In(target: Option<string>, fields: set<string>) {
    target.Some? && target.value in fields
  }

  predicate DirtyIndex(d: Dropped, a: Assign) {
    a.ScSet? && Dirty(d, a.index)
  }

  /** The census on one EXCEPT: every read of a dropped field is attributed to a dropped target. */
  predicate AcceptsUpdate(d: Dropped, fields: set<string>, assigns: seq<Assign>) {
    forall k :: 0 <= k < |assigns| ==>
      && (DirtyIndex(d, assigns[k]) ==> In(Before(assigns, k), fields))
      && (Dirty(d, assigns[k].rhs) ==> In(Attributed(assigns, k), fields))
  }

  predicate CleanPlain(d: Dropped, plain: seq<(string, Expr)>) {
    forall k :: 0 <= k < |plain| ==> !Dirty(d, plain[k].1)
  }

  /** What the script accepts of an action. Primed reads are not looked at. */
  predicate AcceptsAction(d: Dropped, a: Action) {
    && !Dirty(d, a.guard) && CleanPlain(d, a.plain)
    && AcceptsUpdate(d, d.gh, a.gh) && AcceptsUpdate(d, d.sc, a.sc)
  }

  predicate WellKinded(a: Action) {
    (forall k :: 0 <= k < |a.gh| ==> a.gh[k].GhSet?) && (forall k :: 0 <= k < |a.sc| ==> a.sc[k].ScSet?)
  }

  predicate Accepts(d: Dropped, m: Module) {
    && (forall k :: 0 <= k < |m.actions| ==> WellKinded(m.actions[k]) && AcceptsAction(d, m.actions[k]))
    && (forall k :: 0 <= k < |m.invariants| ==> !Dirty(d, m.invariants[k]))
  }

  /** The rule as meant: an assignment that reads a dropped field, in its index or its right-hand side, assigns one. */
  predicate SoundUpdate(d: Dropped, fields: set<string>, assigns: seq<Assign>) {
    forall k :: 0 <= k < |assigns| ==>
      (DirtyIndex(d, assigns[k]) || Dirty(d, assigns[k].rhs) ==> assigns[k].field in fields)
  }

  predicate SoundAction(d: Dropped, a: Action) {
    && !Dirty(d, a.guard) && CleanPlain(d, a.plain) && !Dirty(d, a.after)
    && SoundUpdate(d, d.gh, a.gh) && SoundUpdate(d, d.sc, a.sc)
  }

  predicate Sound(d: Dropped, m: Module) {
    && (forall k :: 0 <= k < |m.actions| ==> WellKinded(m.actions[k]) && SoundAction(d, m.actions[k]))
    && (forall k :: 0 <= k < |m.invariants| ==> !Dirty(d, m.invariants[k]))
  }

  /**
   Where the script looks away: a kept field assigned at an index that reads a dropped one, or assigned from one at an
   index that has a bracket of its own, or a dropped field read primed.
   */
  predicate BlindUpdate(d: Dropped, fields: set<string>, assigns: seq<Assign>) {
    exists k :: 0 <= k < |assigns| && assigns[k].ScSet? && assigns[k].field !in fields
      && (Dirty(d, assigns[k].index) || (HasBracket(assigns[k].index) && Dirty(d, assigns[k].rhs)))
  }

  predicate BlindAction(d: Dropped, a: Action) {
    BlindUpdate(d, d.sc, a.sc) || Dirty(d, a.after)
  }

  predicate Blind(d: Dropped, m: Module) {
    exists k :: 0 <= k < |m.actions| && BlindAction(d, m.actions[k])
  }

  lemma BlindUpdateExactly(d: Dropped, fields: set<string>, assigns: seq<Assign>)
    requires AcceptsUpdate(d, fields, assigns)
    ensures SoundUpdate(d, fields, assigns) <==> !BlindUpdate(d, fields, assigns)
  {
    if !BlindUpdate(d, fields, assigns) {
      forall k | 0 <= k < |assigns| && (DirtyIndex(d, assigns[k]) || Dirty(d, assigns[k].rhs))
        ensures assigns[k].field in fields
      {
        if Recognised(assigns[k]) && Dirty(d, assigns[k].rhs) {
          assert Attributed(assigns, k) == Some(assigns[k].field);
        }
      }
    }
  }

  /** An accepted module meets the rule as meant exactly when it has none of the blind spots. */
  lemma SoundIffNotBlind(d: Dropped, m: Module)
    requires Accepts(d, m)
    ensures Sound(d, m) <==> !Blind(d, m)
  {
    forall k | 0 <= k < |m.actions| ensures SoundAction(d, m.actions[k]) <==> !BlindAction(d, m.actions[k]) {
      BlindUpdateExactly(d, d.gh, m.actions[k].gh);
      BlindUpdateExactly(d, d.sc, m.actions[k].sc);
      assert WellKinded(m.actions[k]);
      assert !BlindUpdate(d, d.gh, m.actions[k].gh);
    }
  }

  // ---- the rule as meant makes the view a bisimulation ----------------------------------------

  lemma {:induction false} EvalAgrees(d: Dropped, e: Expr, s: State, t: State, p: int, at: int)
    requires SameView(d, s, t) && !Dirty(d, e)
    ensures Eval(e, s, p, at) == Eval(e, t, p, at)
  {
    match e
    case ScField(i, f) =>
      EvalAgrees(d, i, s, t, p, at);
      assert Kept(d, Sc(Eval(i, s, p, at), f));
    case Constant(_, a) => EvalAgrees(d, a, s, t, p, at);
    case Bin(_, l, r) =>
      EvalAgrees(d, l, s, t, p, at);
      EvalAgrees(d, r, s, t, p, at);
    case GhField(f) => assert Kept(d, Gh(f));
    case Name(n) => assert Kept(d, Var(n));
    case _ =>
  }

  lemma PutAgrees(d: Dropped, s: State, t: State, loc: Loc, other: Loc, v: int, w: int)
    requires SameView(d, s, t)
    requires (loc == other && v == w) || (!Kept(d, loc) && !Kept(d, other))
    ensures SameView(d, Put(s, loc, v), Put(t, other, w))
  {
  }

  /** One assignment keeps views equal. */
  lemma AssignAgrees(d: Dropped, fields: set<string>, a: Assign, s: State, t: State, p: int, cur: State, other: State)
    requires SameView(d, s, t) && SameView(d, cur, other)
    requires fields == if a.GhSet? then d.gh else d.sc
    requires DirtyIndex(d, a) || Dirty(d, a.rhs) ==> a.field in fields
    ensures var l, r := Target(a, s, p), Target(a, t, p);
            SameView(d, Put(cur, l, Eval(a.rhs, s, p, cur(l))), Put(other, r, Eval(a.rhs, t, p, other(r))))
  {
    var l, r := Target(a, s, p), Target(a, t, p);
    if a.field in fields {
      assert !Kept(d, l) && !Kept(d, r);
    } else {
      if a.ScSet? {
        EvalAgrees(d, a.index, s, t, p, 0);
      }
      assert l == r && Kept(d, l);
      EvalAgrees(d, a.rhs, s, t, p, cur(l));
    }
    PutAgrees(d, cur, other, l, r, Eval(a.rhs, s, p, cur(l)), Eval(a.rhs, t, p, other(r)));
  }

  lemma {:induction false} UpdateAgrees(d: Dropped, fields: set<string>, assigns: seq<Assign>, s: State, t: State, p: int,
                                        cur: State, other: State)
    requires SameView(d, s, t) && SameView(d, cur, other) && SoundUpdate(d, fields, assigns)
    requires forall k :: 0 <= k < |assigns| ==> fields == if assigns[k].GhSet? then d.gh else d.sc
    ensures SameView(d, Assigned(assigns, s, p, cur), Assigned(assigns, t, p, other))
    decreases |assigns|
  {
    if assigns != [] {
      var a := assigns[0];
      AssignAgrees(d, fields, a, s, t, p, cur, other);
      var l, r := Target(a, s, p), Target(a, t, p);
      UpdateAgrees(d, fields, assigns[1..], s, t, p,
                   Put(cur, l, Eval(a.rhs, s, p, cur(l))), Put(other, r, Eval(a.rhs, t, p, other(r))));
    }
  }

  lemma {:induction false} PlainAgrees(d: Dropped, plain: seq<(string, Expr)>, s: State, t: State, p: int, cur: State, other: State)
    requires SameView(d, s, t) && SameView(d, cur, other) && CleanPlain(d, plain)
    ensures SameView(d, PlainAssigned(plain, s, p, cur), PlainAssigned(plain, t, p, other))
    decreases |plain|
  {
    if plain != [] {
      var (n, e) := plain[0];
      EvalAgrees(d, e, s, t, p, 0);
      PlainAgrees(d, plain[1..], s, t, p, Put(cur, Var(n), Eval(e, s, p, 0)), Put(other, Var(n), Eval(e, t, p, 0)));
    }
  }

  /** View-equal states enable the same actions, and their successors are view-equal. */
  lemma Bisimulation(d: Dropped, a: Action, p: int, s: State, t: State)
    requires SoundAction(d, a) && WellKinded(a) && SameView(d, s, t)
    ensures SameView(d, Next(a, p, s), Next(a, p, t))
    ensures Enabled(a, p, s) <==> Enabled(a, p, t)
  {
    UpdateAgrees(d, d.gh, a.gh, s, t, p, s, t);
    var gs, gt := Assigned(a.gh, s, p, s), Assigned(a.gh, t, p, t);
    UpdateAgrees(d, d.sc, a.sc, s, t, p, gs, gt);
    PlainAgrees(d, a.plain, s, t, p, Assigned(a.sc, s, p, gs), Assigned(a.sc, t, p, gt));
    EvalAgrees(d, a.guard, s, t, p, 0);
    EvalAgrees(d, a.after, Next(a, p, s), Next(a, p, t), p, 0);
  }

  // ---- so a search by view is a search ----------------------------------------------------------

  /** A run: the action taken at each step and its parameter. */
  type Trail = seq<(nat, int)>

  function End(m: Module, init: State, run: Trail): State
    requires forall i :: 0 <= i < |run| ==> run[i].0 < |m.actions|
  {
    if run == [] then init
    else Next(m.actions[run[|run| - 1].0], run[|run| - 1].1, End(m, init, run[..|run| - 1]))
  }

  predicate Legal(m: Module, init: State, run: Trail) {
    && (forall i :: 0 <= i < |run| ==> run[i].0 < |m.actions|)
    && (run == [] ||
        (var before, last := run[..|run| - 1], run[|run| - 1];
         Legal(m, init, before) && Enabled(m.actions[last.0], last.1, End(m, init, before))))
  }

  ghost predicate Reached(m: Module, init: State, s: State) {
    exists run :: Legal(m, init, run) && End(m, init, run) == s
  }

  /** Some kept state looks like this one. */
  ghost predicate Represented(d: Dropped, kept: State -> bool, s: State) {
    exists k: State :: kept(k) && SameView(d, k, s)
  }

  /**
   A finished search that keeps one state per view: it starts at the initial state, keeps only states it reaches, and
   every successor of a kept state looks like some kept state, whichever was met first.
   */
  ghost predicate IsViewSearch(m: Module, d: Dropped, init: State, kept: State -> bool) {
    && kept(init)
    && (forall s: State :: kept(s) ==> Reached(m, init, s))
    && (forall s: State, i: nat, p: int :: kept(s) && i < |m.actions| && Enabled(m.actions[i], p, s) ==>
          Represented(d, kept, Next(m.actions[i], p, s)))
  }

  /** Every reachable state looks like one the search kept. */
  lemma {:induction false} SearchIsComplete(m: Module, d: Dropped, init: State, kept: State -> bool, run: Trail)
    requires Sound(d, m) && IsViewSearch(m, d, init, kept) && Legal(m, init, run)
    ensures Represented(d, kept, End(m, init, run))
  {
    if run != [] {
      var before, i, p := run[..|run| - 1], run[|run| - 1].0, run[|run| - 1].1;
      SearchIsComplete(m, d, init, kept, before);
      var s := End(m, init, before);
      var k: State :| kept(k) && SameView(d, k, s);
      Bisimulation(d, m.actions[i], p, k, s);
      var t: State :| kept(t) && SameView(d, t, Next(m.actions[i], p, k));
      assert SameView(d, t, Next(m.actions[i], p, s));
    }
  }

  /** The search sees exactly the views of the reachable states, and decides every checked invariant. */
  lemma ViewSearchDecides(m: Module, d: Dropped, init: State, kept: State -> bool, inv: Expr)
    requires Sound(d, m) && IsViewSearch(m, d, init, kept) && inv in m.invariants
    ensures forall s: State :: Reached(m, init, s) ==> Represented(d, kept, s)
    ensures (forall s: State :: kept(s) ==> Holds(inv, s)) <==> (forall s: State :: Reached(m, init, s) ==> Holds(inv, s))
  {
    forall s: State | Reached(m, init, s) ensures Represented(d, kept, s) {
      var run :| Legal(m, init, run) && End(m, init, run) == s;
      SearchIsComplete(m, d, init, kept, run);
    }
    if forall s: State :: kept(s) ==> Holds(inv, s) {
      forall s: State | Reached(m, init, s) ensures Holds(inv, s) {
        var k: State :| kept(k) && SameView(d, k, s);
        EvalAgrees(d, inv, k, s, 0, 0);
      }
    }
  }

  // ---- and each blind spot breaks it ------------------------------------------------------------

  const YES := Lit(1)

  function Blank(): State {
    (l: Loc) => 0
  }

  lemma Parts(loc: Loc, v: int, d: Dropped)
    requires !Kept(d, loc)
    ensures SameView(d, Blank(), Put(Blank(), loc, v))
  {
  }

  lemma TwoAssigns(a: Assign, b: Assign, s: State, p: int)
    ensures var mid := Put(s, Target(a, s, p), Eval(a.rhs, s, p, s(Target(a, s, p))));
            Assigned([a, b], s, p, s) == Put(mid, Target(b, s, p), Eval(b.rhs, s, p, mid(Target(b, s, p))))
  {
    var mid := Put(s, Target(a, s, p), Eval(a.rhs, s, p, s(Target(a, s, p))));
    var end := Put(mid, Target(b, s, p), Eval(b.rhs, s, p, mid(Target(b, s, p))));
    assert [a, b][1..] == [b];
    assert Assigned([a, b], s, p, s) == Assigned([b], s, p, mid);
    assert [b][1..] == [];
    assert Assigned([b], s, p, mid) == Assigned([], s, p, end);
  }

  /** `![0].drop = 1, ![gh.drop].keep = 7`: the index is attributed to the first target. */
  lemma DirtyIndexIsAccepted() returns (d: Dropped, a: Action, s: State, t: State)
    ensures AcceptsAction(d, a) && WellKinded(a) && SameView(d, s, t) && Enabled(a, 0, s) && Enabled(a, 0, t)
    ensures !SameView(d, Next(a, 0, s), Next(a, 0, t))
  {
    d := Dropped({"drop"}, {"drop"});
    var first, second := ScSet(Lit(0), "drop", Lit(1)), ScSet(GhField("drop"), "keep", Lit(7));
    a := Action(YES, [], [first, second], [], YES);
    assert Before(a.sc, 1) == Some("drop");
    s, t := Blank(), Put(Blank(), Gh("drop"), 1);
    Parts(Gh("drop"), 1, d);
    TwoAssigns(first, second, s, 0);
    TwoAssigns(first, second, t, 0);
    assert Next(a, 0, s)(Sc(0, "keep")) == 7 && Next(a, 0, t)(Sc(0, "keep")) == 0;
    assert Kept(d, Sc(0, "keep"));
  }

  /** `![0].drop = 1, ![w[0]].keep = gh.drop`: the second target is not recognised, so its reads go to the first. */
  lemma NestedIndexIsAccepted() returns (d: Dropped, a: Action, s: State, t: State)
    ensures AcceptsAction(d, a) && WellKinded(a) && SameView(d, s, t) && Enabled(a, 0, s) && Enabled(a, 0, t)
    ensures !SameView(d, Next(a, 0, s), Next(a, 0, t))
  {
    d := Dropped({"drop"}, {"drop"});
    var first := ScSet(Lit(0), "drop", Lit(1));
    var second := ScSet(Constant(map[], Lit(0)), "keep", GhField("drop"));
    a := Action(YES, [], [first, second], [], YES);
    assert Before(a.sc, 1) == Some("drop") && Before(a.sc, 2) == Some("drop");
    s, t := Blank(), Put(Blank(), Gh("drop"), 1);
    Parts(Gh("drop"), 1, d);
    TwoAssigns(first, second, s, 0);
    TwoAssigns(first, second, t, 0);
    assert Next(a, 0, s)(Sc(0, "keep")) == 0 && Next(a, 0, t)(Sc(0, "keep")) == 1;
    assert Kept(d, Sc(0, "keep"));
  }

  /** A dropped field read primed decides whether the action is enabled. */
  lemma PrimedReadIsAccepted() returns (d: Dropped, a: Action, s: State, t: State)
    ensures AcceptsAction(d, a) && WellKinded(a) && SameView(d, s, t)
    ensures !Enabled(a, 0, s) && Enabled(a, 0, t)
  {
    d := Dropped({"drop"}, {});
    a := Action(YES, [], [], [], GhField("drop"));
    s, t := Blank(), Put(Blank(), Gh("drop"), 1);
    Parts(Gh("drop"), 1, d);
  }
}
