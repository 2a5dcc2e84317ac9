/**
 How the census finds the field a position assigns (`update_target` in `view-census.py`): it scans the text of the
 enclosing `[record EXCEPT ...` up to the position, counting brackets, and takes the last assignment its pattern
 recognises. Text is tokens here; the scan is proved to find what `Census.Before` and `Census.Attributed` say.
 */
module CensusScan {
  import opened Outcomes
  import opened Census

  datatype Bracket = Square | Round

  datatype Token = Open(b: Bracket) | Close(b: Bracket) | Bang | Dot(field: string) | Equals | Word

  type Text = seq<Token>

  // ---- text of a module ------------------------------------------------------------------------

  function Render(e: Expr): Text {
    match e
    case ScField(i, f) => [Word, Open(Square)] + Render(i) + [Close(Square), Dot(f)]
    case Constant(_, a) => [Word, Open(Square)] + Render(a) + [Close(Square)]
    case Bin(_, l, r) => [Open(Round)] + Render(l) + [Word] + Render(r) + [Close(Round)]
    case GhField(f) => [Word, Dot(f)]
    case _ => [Word]
  }

  /** An assignment up to its right-hand side: `!.f =` or `![index].f =`. */
  function Head(a: Assign): Text {
    match a
    case GhSet(f, _) => [Bang, Dot(f), Equals]
    case ScSet(i, f, _) => [Bang, Open(Square)] + Render(i) + [Close(Square), Dot(f), Equals]
  }

  /** The first `k` assignments, each followed by a comma. */
  function Assignments(assigns: seq<Assign>, k: nat): Text
    requires k <= |assigns|
  {
    if k == 0 then [] else Assignments(assigns, k - 1) + (Head(assigns[k - 1]) + Render(assigns[k - 1].rhs) + [Word])
  }

  /** The opening bracket, the record's name and EXCEPT, then the first `k` assignments. */
  function Opening(assigns: seq<Assign>, k: nat): Text
    requires k <= |assigns|
  {
    [Open(Square), Word, Word] + Assignments(assigns, k)
  }

  // ---- the pattern -----------------------------------------------------------------------------

  /** The text after the first closing square bracket. */
  function PastClose(t: Text): Option<Text> {
    if t == [] then None
    else if t[0] == Close(Square) then Some(t[1..])
    else PastClose(t[1..])
  }

  /** An optional bracketed index, which ends at the first closing bracket. */
  function PastIndex(t: Text): Option<Text> {
    if t != [] && t[0] == Open(Square) then PastClose(t[1..]) else Some(t)
  }

  /** The field, if what follows a `!` reads as an assignment. */
  function Match(t: Text): Option<string> {
    var r := PastIndex(t);
    if r.None? || r.value == [] || !r.value[0].Dot? then None
    else
      var rest := PastIndex(r.value[1..]);
      if rest.Some? && rest.value != [] && rest.value[0] == Equals then Some(r.value[0].field) else None
  }

  /** The scan from a given depth, with the target found so far. */
  function Scan(t: Text, depth: int, found: Option<string>): Option<string> {
    if t == [] then found
    else
      match t[0]
      case Open(_) => Scan(t[1..], depth + 1, found)
      case Close(_) => Scan(t[1..], depth - 1, found)
      case Bang =>
        var m := if depth == 0 then Match(t[1..]) else None;
        Scan(t[1..], depth, if m.Some? then m else found)
      case _ => Scan(t[1..], depth, found)
  }

  /** The loop, over the text from the bracket to the position. */
  method UpdateTarget(body: Text) returns (target: Option<string>)
    requires body != [] && body[0] == Open(Square)
    ensures target == Scan(body[1..], 0, None)
  {
    target := None;
    var depth, k := 0, 0;
    while k < |body|
      invariant 0 <= k <= |body|
      invariant k == 0 ==> depth == 0 && target == None
      invariant k > 0 ==> Scan(body[k..], depth, target) == Scan(body[1..], 0, None)
    {
      assert body[k..][1..] == body[k + 1..];
      if body[k].Open? && k > 0 {
        depth := depth + 1;
      } else if body[k].Close? {
        depth := depth - 1;
      }
      if depth == 0 && body[k] == Bang {
        var m := Match(body[k + 1..]);
        if m.Some? {
          target := m;
        }
      }
      k := k + 1;
    }
  }

  // ---- scanning rendered text --------------------------------------------------------------------

  predicate Quiet(t: Text) {
    Bang !in t
  }

  lemma {:induction false} ExprIsQuiet(e: Expr)
    ensures Quiet(Render(e)) && Render(e) != []
  {
    match e
    case ScField(i, _) => ExprIsQuiet(i);
    case Constant(_, a) => ExprIsQuiet(a);
    case Bin(_, l, r) => ExprIsQuiet(l); ExprIsQuiet(r);
    case _ =>
  }

  function Weight(token: Token): int {
    if token.Open? then 1 else if token.Close? then -1 else 0
  }

  function Net(t: Text): int {
    if t == [] then 0 else Weight(t[0]) + Net(t[1..])
  }

  lemma {:induction false} NetConcat(a: Text, b: Text)
    ensures Net(a + b) == Net(a) + Net(b)
  {
    if a == [] {
      assert a + b == b;
    } else {
      NetConcat(a[1..], b);
      assert (a + b)[1..] == a[1..] + b;
    }
  }

  /** Text without a `!` only moves the depth. */
  lemma {:induction false} QuietScan(t: Text, rest: Text, depth: int, found: Option<string>)
    requires Quiet(t)
    ensures Scan(t + rest, depth, found) == Scan(rest, depth + Net(t), found)
  {
    if t == [] {
      assert t + rest == rest;
    } else {
      QuietScan(t[1..], rest, depth + Weight(t[0]), found);
      assert (t + rest)[1..] == t[1..] + rest;
    }
  }

  lemma NetOne(token: Token)
    ensures Net([token]) == Weight(token)
  {
    assert [token][1..] == [];
  }

  lemma Bracketed(b: Bracket, t: Text)
    ensures Net([Open(b)] + t + [Close(b)]) == Net(t)
  {
    NetConcat([Open(b)] + t, [Close(b)]);
    NetConcat([Open(b)], t);
    NetOne(Open(b));
    NetOne(Close(b));
  }

  /** A word before and a field after bracketed text weigh nothing. */
  lemma Indexed(t: Text, f: string)
    ensures Net([Word, Open(Square)] + t + [Close(Square)]) == Net(t)
    ensures Net([Word, Open(Square)] + t + [Close(Square), Dot(f)]) == Net(t)
  {
    var inner := [Open(Square)] + t + [Close(Square)];
    Bracketed(Square, t);
    NetOne(Word);
    NetOne(Dot(f));
    NetConcat([Word], inner);
    NetConcat([Word] + inner, [Dot(f)]);
    assert [Word, Open(Square)] + t + [Close(Square)] == [Word] + inner;
    assert [Word, Open(Square)] + t + [Close(Square), Dot(f)] == [Word] + inner + [Dot(f)];
  }

  lemma Paired(l: Text, r: Text)
    ensures Net([Open(Round)] + l + [Word] + r + [Close(Round)]) == Net(l) + Net(r)
  {
    NetOne(Word);
    NetConcat(l + [Word], r);
    NetConcat(l, [Word]);
    Bracketed(Round, l + [Word] + r);
    assert [Open(Round)] + l + [Word] + r + [Close(Round)] == [Open(Round)] + (l + [Word] + r) + [Close(Round)];
  }

  lemma {:induction false} ExprBalances(e: Expr)
    ensures Net(Render(e)) == 0
  {
    match e
    case ScField(i, f) => ExprBalances(i); Indexed(Render(i), f);
    case Constant(_, a) => ExprBalances(a); Indexed(Render(a), "");
    case Bin(_, l, r) => ExprBalances(l); ExprBalances(r); Paired(Render(l), Render(r));
    case GhField(f) =>
      NetOne(Dot(f));
      assert [Word, Dot(f)][1..] == [Dot(f)];
    case _ => NetOne(Word);
  }

  /** An expression leaves depth and target as they were. */
  lemma ScanExpr(e: Expr, rest: Text, depth: int, found: Option<string>)
    ensures Scan(Render(e) + rest, depth, found) == Scan(rest, depth, found)
  {
    ExprIsQuiet(e);
    ExprBalances(e);
    QuietScan(Render(e), rest, depth, found);
  }

  // ---- what the pattern recognises -------------------------------------------------------------

  lemma {:induction false} NoClose(t: Text, rest: Text)
    requires Close(Square) !in t
    ensures PastClose(t + rest) == PastClose(rest)
  {
    if t == [] {
      assert t + rest == rest;
    } else {
      NoClose(t[1..], rest);
      assert (t + rest)[1..] == t[1..] + rest;
    }
  }

  lemma {:induction false} FlatHasNoClose(e: Expr)
    requires !HasBracket(e)
    ensures Close(Square) !in Render(e)
  {
    match e
    case Bin(_, l, r) => FlatHasNoClose(l); FlatHasNoClose(r);
    case _ =>
  }

  /** What may follow an expression inside an index. */
  predicate Follows(t: Text) {
    t != [] && (t[0] == Word || t[0].Close?)
  }

  /** After the first closing bracket comes nothing the pattern can use. */
  predicate Stuck(t: Text) {
    var r := PastClose(t);
    r.None? || r.value == [] || !r.value[0].Dot? ||
    (|r.value| > 1 && r.value[1] != Equals && r.value[1] != Open(Square))
  }

  /** Text before any closing bracket does not matter. */
  lemma StuckAfter(t: Text, rest: Text)
    requires Close(Square) !in t && Stuck(rest) && PastClose(rest).Some?
    ensures Stuck(t + rest) && PastClose(t + rest).Some?
  {
    NoClose(t, rest);
  }

  /** A bracket with flat text inside, and what may follow an expression after it, or a field first. */
  lemma FlatIsStuck(inside: Text, f: string, rest: Text)
    requires Close(Square) !in inside && Follows(rest)
    ensures Stuck(inside + ([Close(Square)] + rest)) && PastClose(inside + ([Close(Square)] + rest)).Some?
    ensures Stuck(inside + ([Close(Square)] + ([Dot(f)] + rest))) && PastClose(inside + ([Close(Square)] + ([Dot(f)] + rest))).Some?
  {
    NoClose(inside, [Close(Square)] + rest);
    NoClose(inside, [Close(Square)] + ([Dot(f)] + rest));
    assert ([Close(Square)] + rest)[1..] == rest;
    assert ([Close(Square)] + ([Dot(f)] + rest))[1..] == [Dot(f)] + rest;
  }

  lemma RegroupField(t: Text, f: string, rest: Text)
    ensures [Word, Open(Square)] + t + [Close(Square), Dot(f)] + rest ==
            [Word, Open(Square)] + (t + ([Close(Square)] + ([Dot(f)] + rest)))
  {
  }

  lemma RegroupIndex(t: Text, rest: Text)
    ensures [Word, Open(Square)] + t + [Close(Square)] + rest == [Word, Open(Square)] + (t + ([Close(Square)] + rest))
  {
  }

  lemma RegroupPair(l: Text, r: Text, rest: Text)
    ensures [Open(Round)] + l + [Word] + r + [Close(Round)] + rest ==
            [Open(Round)] + (l + ([Word] + (r + ([Close(Round)] + rest))))
  {
  }

  /** In an index with a bracket of its own the first closing bracket is an inner one. */
  lemma {:induction false} NestedIsStuck(e: Expr, rest: Text)
    requires HasBracket(e) && Follows(rest)
    ensures Stuck(Render(e) + rest) && PastClose(Render(e) + rest).Some?
    decreases e, 1
  {
    match e
    case ScField(i, f) =>
      var tail := [Close(Square)] + ([Dot(f)] + rest);
      RegroupField(Render(i), f, rest);
      BracketIsStuck(i, f, rest);
      StuckAfter([Word, Open(Square)], Render(i) + tail);
    case Constant(_, a) =>
      var tail := [Close(Square)] + rest;
      RegroupIndex(Render(a), rest);
      BracketIsStuck(a, "", rest);
      StuckAfter([Word, Open(Square)], Render(a) + tail);
    case Bin(_, l, r) =>
      PairIsStuck(e, rest);
      var last := [Close(Round)] + rest;
      RegroupPair(Render(l), Render(r), rest);
      StuckAfter([Open(Round)], Render(l) + ([Word] + (Render(r) + last)));
  }

  lemma {:induction false} BracketIsStuck(e: Expr, f: string, rest: Text)
    requires Follows(rest)
    ensures Stuck(Render(e) + ([Close(Square)] + rest)) && PastClose(Render(e) + ([Close(Square)] + rest)).Some?
    ensures Stuck(Render(e) + ([Close(Square)] + ([Dot(f)] + rest)))
    ensures PastClose(Render(e) + ([Close(Square)] + ([Dot(f)] + rest))).Some?
    decreases e, 2
  {
    if HasBracket(e) {
      NestedIsStuck(e, [Close(Square)] + rest);
      NestedIsStuck(e, [Close(Square)] + ([Dot(f)] + rest));
    } else {
      FlatHasNoClose(e);
      FlatIsStuck(Render(e), f, rest);
    }
  }

  lemma {:induction false} PairIsStuck(e: Expr, rest: Text)
    requires e.Bin? && HasBracket(e) && Follows(rest)
    ensures var t := Render(e.left) + ([Word] + (Render(e.right) + ([Close(Round)] + rest)));
            Stuck(t) && PastClose(t).Some?
    decreases e, 0
  {
    var l, r := e.left, e.right;
    var last := [Close(Round)] + rest;
    var tail := [Word] + (Render(r) + last);
    if HasBracket(l) {
      NestedIsStuck(l, tail);
    } else {
      FlatHasNoClose(l);
      NestedIsStuck(r, last);
      StuckAfter([Word], Render(r) + last);
      StuckAfter(Render(l), tail);
    }
  }

  /** A text cut short is no less stuck. */
  lemma {:induction false} CutIsStuck(t: Text, rest: Text)
    requires Stuck(t + rest)
    ensures PastClose(t).None? || Match([Open(Square)] + t).None?
  {
    if Close(Square) in t {
      PastCloseCut(t, rest);
    } else {
      NoClose(t, []);
      assert t + [] == t;
    }
    assert ([Open(Square)] + t)[1..] == t;
  }

  lemma {:induction false} PastCloseCut(t: Text, rest: Text)
    requires Close(Square) in t
    ensures PastClose(t).Some? && PastClose(t + rest) == Some(PastClose(t).value + rest)
  {
    if t[0] == Close(Square) {
      assert (t + rest)[1..] == t[1..] + rest;
    } else {
      PastCloseCut(t[1..], rest);
      assert (t + rest)[1..] == t[1..] + rest;
    }
  }

  lemma FieldMatches(f: string, rest: Text)
    ensures Match([Dot(f), Equals] + rest) == Some(f)
  {
    assert ([Dot(f), Equals] + rest)[1..] == [Equals] + rest;
  }

  /** The pattern finds the field of `![i].f =` exactly when the index has no bracket of its own. */
  lemma IndexedMatches(i: Expr, f: string, rest: Text)
    ensures Match([Open(Square)] + (Render(i) + ([Close(Square), Dot(f), Equals] + rest))) ==
            if HasBracket(i) then None else Some(f)
  {
    var tail := [Close(Square), Dot(f), Equals] + rest;
    var t := [Open(Square)] + (Render(i) + tail);
    assert t[1..] == Render(i) + tail;
    if HasBracket(i) {
      NestedIsStuck(i, tail);
    } else {
      FlatHasNoClose(i);
      NoClose(Render(i), tail);
      assert tail[1..] == [Dot(f), Equals] + rest;
      FieldMatches(f, rest);
    }
  }

  /** Before an assignment's own text, the pattern finds its field exactly when it is recognised. */
  lemma HeadMatches(a: Assign, rest: Text)
    ensures Match(Head(a)[1..] + rest) == if Recognised(a) then Some(a.field) else None
  {
    match a
    case GhSet(f, _) =>
      assert Head(a)[1..] + rest == [Dot(f), Equals] + rest;
      FieldMatches(f, rest);
    case ScSet(i, f, _) =>
      assert Head(a)[1..] + rest == [Open(Square)] + (Render(i) + ([Close(Square), Dot(f), Equals] + rest));
      IndexedMatches(i, f, rest);
  }

  lemma HeadTailQuiet(a: Assign)
    ensures Head(a)[0] == Bang && Quiet(Head(a)[1..]) && Net(Head(a)[1..]) == 0
  {
    NetOne(Dot(a.field));
    NetOne(Equals);
    NetConcat([Dot(a.field)], [Equals]);
    var field := [Dot(a.field)] + [Equals];
    match a
    case GhSet(f, _) => assert Head(a)[1..] == field;
    case ScSet(i, f, _) =>
      ExprIsQuiet(i);
      ExprBalances(i);
      Bracketed(Square, Render(i));
      var inner := [Open(Square)] + Render(i) + [Close(Square)];
      assert Head(a)[1..] == inner + field;
      NetConcat(inner, field);
  }

  lemma ScanBang(t: Text, found: Option<string>)
    ensures Scan([Bang] + t, 0, found) == Scan(t, 0, if Match(t).Some? then Match(t) else found)
  {
    assert ([Bang] + t)[1..] == t;
  }

  /** Scanning an assignment's head sets the target if it is recognised. */
  lemma ScanHead(a: Assign, rest: Text, found: Option<string>)
    ensures Scan(Head(a) + rest, 0, found) == Scan(rest, 0, if Recognised(a) then Some(a.field) else found)
  {
    HeadTailQuiet(a);
    HeadMatches(a, rest);
    assert Head(a) + rest == [Bang] + (Head(a)[1..] + rest);
    ScanBang(Head(a)[1..] + rest, found);
    QuietScan(Head(a)[1..], rest, 0, if Recognised(a) then Some(a.field) else found);
  }

  /** After the first `k` assignments the target is the last one recognised. */
  lemma {:induction false} ScanAssignments(assigns: seq<Assign>, k: nat, rest: Text)
    requires k <= |assigns|
    ensures Scan(Assignments(assigns, k) + rest, 0, None) == Scan(rest, 0, Before(assigns, k))
  {
    if k == 0 {
      assert Assignments(assigns, k) + rest == rest;
    } else {
      var a, before := assigns[k - 1], Assignments(assigns, k - 1);
      Regroup(before, Head(a), Render(a.rhs), [Word], rest);
      ScanAssignments(assigns, k - 1, Head(a) + (Render(a.rhs) + ([Word] + rest)));
      ScanAssignment(a, rest, Before(assigns, k - 1));
    }
  }

  lemma Regroup(a: Text, b: Text, c: Text, d: Text, rest: Text)
    ensures (a + (b + c + d)) + rest == a + (b + (c + (d + rest)))
  {
  }

  lemma ScanAssignment(a: Assign, rest: Text, found: Option<string>)
    ensures Scan(Head(a) + (Render(a.rhs) + ([Word] + rest)), 0, found) ==
            Scan(rest, 0, if Recognised(a) then Some(a.field) else found)
  {
    var last, now := [Word] + rest, if Recognised(a) then Some(a.field) else found;
    ScanHead(a, Render(a.rhs) + last, found);
    ScanExpr(a.rhs, last, 0, now);
    NetOne(Word);
    QuietScan([Word], rest, 0, now);
  }

  lemma ScanOpening(assigns: seq<Assign>, k: nat, rest: Text)
    requires k <= |assigns|
    ensures Scan((Opening(assigns, k) + rest)[1..], 0, None) == Scan(rest, 0, Before(assigns, k))
  {
    var t := Assignments(assigns, k) + rest;
    DropBracket(Assignments(assigns, k), rest);
    ScanWord([Word] + t);
    ScanWord(t);
    ScanAssignments(assigns, k, rest);
  }

  lemma DropBracket(t: Text, rest: Text)
    ensures ([Open(Square), Word, Word] + t + rest)[1..] == [Word] + ([Word] + (t + rest))
  {
  }

  lemma ScanWord(t: Text)
    ensures Scan([Word] + t, 0, None) == Scan(t, 0, None)
  {
    assert ([Word] + t)[1..] == t;
  }

  /** A position in the right-hand side of assignment `k`, after any part of it, is attributed as `Attributed` says. */
  lemma RhsIsAttributed(assigns: seq<Assign>, k: nat, part: Text)
    requires k < |assigns| && part <= Render(assigns[k].rhs)
    ensures Scan((Opening(assigns, k) + (Head(assigns[k]) + part))[1..], 0, None) == Attributed(assigns, k)
  {
    ScanOpening(assigns, k, Head(assigns[k]) + part);
    ScanHead(assigns[k], part, Before(assigns, k));
    PartIsQuiet(assigns[k].rhs, part, Attributed(assigns, k));
  }

  /** A position in the index of assignment `k` is attributed to what was recognised before it. */
  lemma IndexIsAttributed(assigns: seq<Assign>, k: nat, part: Text)
    requires k < |assigns| && assigns[k].ScSet? && part <= Render(assigns[k].index)
    ensures Scan((Opening(assigns, k) + ([Bang] + ([Open(Square)] + part)))[1..], 0, None) == Before(assigns, k)
  {
    ScanOpening(assigns, k, [Bang] + ([Open(Square)] + part));
    ScanCutIndex(assigns[k].index, part, Before(assigns, k));
  }

  lemma ScanCutIndex(e: Expr, part: Text, found: Option<string>)
    requires part <= Render(e)
    ensures Scan([Bang] + ([Open(Square)] + part), 0, found) == found
  {
    ScanBang([Open(Square)] + part, found);
    IndexNeverMatches(e, part);
    PartIsQuiet(e, part, found);
  }

  lemma PartIsQuiet(e: Expr, part: Text, found: Option<string>)
    requires part <= Render(e)
    ensures Scan([Open(Square)] + part, 0, found) == found && Scan(part, 0, found) == found
  {
    ExprIsQuiet(e);
    var t := [Open(Square)] + part;
    QuietScan(t, [], 0, found);
    QuietScan(part, [], 0, found);
    assert t + [] == t && part + [] == part;
  }

  lemma IndexNeverMatches(e: Expr, part: Text)
    requires part <= Render(e)
    ensures Match([Open(Square)] + part).None?
  {
    assert ([Open(Square)] + part)[1..] == part;
    if HasBracket(e) {
      NestedIsStuck(e, [Word]);
      var rest := Render(e)[|part|..] + [Word];
      assert part + rest == Render(e) + [Word];
      CutIsStuck(part, rest);
    } else {
      FlatHasNoClose(e);
      NoClose(part, []);
      assert part + [] == part;
    }
  }
}
