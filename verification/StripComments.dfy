/**
 Blanking comments in place (`strip_comments` in `lean/formal/view-census.py`): nested block comments and line comments
 become spaces, offsets and newlines stay.
 */
module StripComments {
  import opened Sequences

  predicate Starts(s: string, a: char, b: char) {
    |s| >= 2 && s[0] == a && s[1] == b
  }

  predicate BlockOpens(s: string) {
    Starts(s, '(', '*')
  }

  predicate BlockCloses(s: string) {
    Starts(s, '*', ')')
  }

  predicate LineOpens(s: string) {
    Starts(s, '\\', '*')
  }

  function BlankChar(c: char): char {
    if c == '\n' then c else ' '
  }

  function Blank(s: string): (t: string)
    ensures |t| == |s| && forall i :: 0 <= i < |s| ==> t[i] == BlankChar(s[i])
  {
    seq(|s|, i requires 0 <= i < |s| => BlankChar(s[i]))
  }

  /** The offset of the first newline, or the length. */
  function LineEnd(s: string): (j: nat)
    ensures j <= |s| && (j < |s| ==> s[j] == '\n') && forall i :: 0 <= i < j ==> s[i] != '\n'
  {
    if s == [] || s[0] == '\n' then 0
    else
      var j := LineEnd(s[1..]);
      assert forall i :: 1 <= i < j + 1 ==> s[i] == s[1..][i - 1];
      j + 1
  }

  /** One lexical step: how many characters, the depth after them, and whether they belong to a comment. */
  datatype Step = Step(size: nat, depth: nat, comment: bool)

  function StepAt(s: string, depth: nat): (step: Step)
    requires s != []
    ensures 0 < step.size <= |s|
  {
    if BlockOpens(s) then Step(2, depth + 1, true)
    else if depth > 0 && BlockCloses(s) then Step(2, depth - 1, true)
    else if depth > 0 then Step(1, depth, true)
    else if LineOpens(s) then Step(LineEnd(s), 0, true)
    else Step(1, 0, false)
  }

  function Shown(s: string, comment: bool): string {
    if comment then Blank(s) else s
  }

  /** What the rest of a text becomes, inside `depth` block comments. */
  function Strip(s: string, depth: nat): string
    decreases |s|
  {
    if s == [] then []
    else
      var step := StepAt(s, depth);
      Shown(s[..step.size], step.comment) + Strip(s[step.size..], step.depth)
  }

  function BlankRange(t: string, i: nat, j: nat): (u: string)
    requires i <= j <= |t|
    ensures |u| == |t|
  {
    t[..i] + Blank(t[i..j]) + t[j..]
  }

  /** Overwrite the characters from `i` to `j`, newlines excepted, with spaces. */
  method BlankOut(out: array<char>, i: nat, j: nat)
    requires i <= j <= out.Length
    modifies out
    ensures out[..] == BlankRange(old(out[..]), i, j)
  {
    for k := i to j
      invariant forall m :: 0 <= m < out.Length ==> out[m] == if i <= m < k then BlankChar(old(out[m])) else old(out[m])
    {
      if out[k] != '\n' {
        out[k] := ' ';
      }
    }
  }

  lemma Splice(done: string, rest: string, size: nat)
    requires size <= |rest|
    ensures BlankRange(done + rest, |done|, |done| + size) == done + Blank(rest[..size]) + rest[size..]
  {
    var t, j := done + rest, |done| + size;
    assert t[..|done|] == done && t[|done|..j] == rest[..size] && t[j..] == rest[size..];
  }

  lemma Uncut(done: string, rest: string, size: nat)
    requires size <= |rest|
    ensures done + rest == done + rest[..size] + rest[size..]
  {
  }

  /** One step: what is done grows, and done with the rest stripped is still the whole. */
  lemma Advance(done: string, rest: string, depth: nat, step: Step, whole: string)
    requires rest != [] && step == StepAt(rest, depth) && done + Strip(rest, depth) == whole
    ensures done + Shown(rest[..step.size], step.comment) + Strip(rest[step.size..], step.depth) == whole
  {
    Assoc(done, Shown(rest[..step.size], step.comment), Strip(rest[step.size..], step.depth));
  }

  lemma DropMore(src: string, i: nat, size: nat)
    requires i + size <= |src|
    ensures src[i..][size..] == src[i + size..]
  {
  }

  /** One turn of the loop, on the array. */
  method Turn(out: array<char>, i: nat, step: Step, ghost done: string, ghost rest: string)
    requires |done| == i && step.size <= |rest| && out[..] == done + rest
    modifies out
    ensures out[..] == done + Shown(rest[..step.size], step.comment) + rest[step.size..]
  {
    assert |out[..]| == out.Length;
    if step.comment {
      Splice(done, rest, step.size);
      BlankOut(out, i, i + step.size);
    } else {
      Uncut(done, rest, step.size);
    }
  }

  /** The source's loop: blank a copy of the text in place. */
  method StripText(src: string) returns (text: string)
    ensures text == Strip(src, 0)
  {
    var out := new char[|src|](i requires 0 <= i < |src| => src[i]);
    var i, depth: nat := 0, 0;
    ghost var done, rest, whole := "", src, Strip(src, 0);
    assert done + whole == whole;
    while i < |src|
      invariant 0 <= i <= |src| && rest == src[i..] && |done| == i
      invariant out[..] == done + rest
      invariant done + Strip(rest, depth) == whole
      decreases |src| - i
    {
      var step := StepAt(src[i..], depth);
      Advance(done, rest, depth, step, whole);
      Turn(out, i, step, done, rest);
      DropMore(src, i, step.size);
      done, rest := done + Shown(rest[..step.size], step.comment), rest[step.size..];
      i, depth := i + step.size, step.depth;
    }
    assert rest == [] && done + rest == done && done + [] == done;
    text := out[..];
  }

  // ---- what it promises --------------------------------------------------------------------------

  /** Same length, and every character is itself or a space; newlines stay. */
  predicate SameShape(t: string, s: string) {
    |t| == |s| && forall i :: 0 <= i < |s| ==> t[i] == s[i] || (t[i] == ' ' && s[i] != '\n')
  }

  lemma ShapesJoin(t: string, s: string, u: string, v: string)
    requires SameShape(t, s) && SameShape(u, v)
    ensures SameShape(t + u, s + v)
  {
  }

  lemma {:induction false} StripKeepsShape(s: string, depth: nat)
    ensures SameShape(Strip(s, depth), s)
    decreases |s|
  {
    if s != [] {
      var step := StepAt(s, depth);
      var first, rest := s[..step.size], s[step.size..];
      StripKeepsShape(rest, step.depth);
      ShapesJoin(Shown(first, step.comment), first, Strip(rest, step.depth), rest);
      assert s == first + rest;
    }
  }

  /** No position starts a comment. */
  predicate NoOpener(s: string) {
    forall i :: 0 <= i < |s| ==> !BlockOpens(s[i..]) && !LineOpens(s[i..])
  }

  lemma TailHasNoOpener(s: string, n: nat)
    requires NoOpener(s) && n <= |s|
    ensures NoOpener(s[n..])
  {
    forall i | 0 <= i < |s[n..]| ensures !BlockOpens(s[n..][i..]) && !LineOpens(s[n..][i..]) {
      assert s[n..][i..] == s[n + i..];
    }
  }

  /** Spaces and newlines start nothing, whatever follows. */
  lemma {:induction false} BlankHasNoOpener(s: string, rest: string)
    requires NoOpener(rest)
    ensures NoOpener(Blank(s) + rest)
  {
    var t := Blank(s) + rest;
    forall i | 0 <= i < |t| ensures !BlockOpens(t[i..]) && !LineOpens(t[i..]) {
      if i >= |s| {
        assert t[i..] == rest[i - |s|..];
      }
    }
  }

  /** Nothing that starts a comment is left. */
  lemma {:induction false} NoOpenerLeft(s: string, depth: nat)
    ensures NoOpener(Strip(s, depth))
    decreases |s|
  {
    if s != [] {
      var step := StepAt(s, depth);
      var rest := Strip(s[step.size..], step.depth);
      NoOpenerLeft(s[step.size..], step.depth);
      if step.comment {
        BlankHasNoOpener(s[..step.size], rest);
      } else {
        StripKeepsShape(s[1..], 0);
        CodeCharStartsNothing(s, rest);
      }
    }
  }

  lemma CodeCharStartsNothing(s: string, rest: string)
    requires s != [] && !BlockOpens(s) && !LineOpens(s) && NoOpener(rest) && |rest| == |s| - 1
    requires rest != [] ==> rest[0] == s[1] || rest[0] == ' '
    ensures NoOpener(s[..1] + rest)
  {
    var t := s[..1] + rest;
    forall i | 0 <= i < |t| ensures !BlockOpens(t[i..]) && !LineOpens(t[i..]) {
      if i > 0 {
        assert t[i..] == rest[i - 1..];
      }
    }
  }

  /** Text without openers is left alone. */
  lemma {:induction false} CodeIsKept(s: string)
    requires NoOpener(s)
    ensures Strip(s, 0) == s
  {
    if s != [] {
      assert s[0..] == s;
      TailHasNoOpener(s, 1);
      CodeIsKept(s[1..]);
      assert s == s[..1] + s[1..];
    }
  }

  lemma StripIsIdempotent(s: string)
    ensures Strip(Strip(s, 0), 0) == Strip(s, 0)
  {
    NoOpenerLeft(s, 0);
    CodeIsKept(Strip(s, 0));
  }

  // ---- comments by their grammar -------------------------------------------------------------------

  /** What follows `(*`: characters and nested comments up to the closing `*)`. */
  datatype Body = End | Char(c: char, rest: Body) | Nest(inner: Body, rest: Body)

  function Render(b: Body): (text: string)
    ensures |text| >= 2
  {
    match b
    case End => "*)"
    case Char(c, rest) => [c] + Render(rest)
    case Nest(inner, rest) => "(*" + (Render(inner) + Render(rest))
  }

  /** No character pairs up with what follows it into an opener or a closer of its own. */
  predicate Lexes(b: Body) {
    match b
    case End => true
    case Char(c, rest) =>
      Lexes(rest) && !(c == '(' && Render(rest)[0] == '*') && !(c == '*' && Render(rest)[0] == ')')
    case Nest(inner, rest) => Lexes(inner) && Lexes(rest)
  }

  lemma OpenStep(t: string, depth: nat)
    ensures Strip("(*" + t, depth) == Blank("(*") + Strip(t, depth + 1)
  {
    var s := "(*" + t;
    assert s[..2] == "(*" && s[2..] == t;
  }

  lemma CloseStep(t: string, depth: nat)
    ensures Strip("*)" + t, depth + 1) == Blank("*)") + Strip(t, depth)
  {
    var s := "*)" + t;
    assert s[..2] == "*)" && s[2..] == t;
  }

  lemma CharStep(c: char, t: string, depth: nat)
    requires t != [] && !(c == '(' && t[0] == '*') && !(c == '*' && t[0] == ')')
    ensures Strip([c] + t, depth + 1) == Blank([c]) + Strip(t, depth + 1)
  {
    var s := [c] + t;
    assert s[..1] == [c] && s[1..] == t;
  }

  lemma CodeStep(c: char, t: string)
    requires t != [] ==> !(c == '(' && t[0] == '*') && !(c == '\\' && t[0] == '*')
    ensures Strip([c] + t, 0) == [c] + Strip(t, 0)
  {
    var s := [c] + t;
    assert s[..1] == [c] && s[1..] == t;
  }

  lemma BlankJoin(a: string, b: string, rest: string)
    ensures Blank(a) + (Blank(b) + rest) == Blank(a + b) + rest
  {
  }

  /** A comment body is blanked up to its own closer, however deep it stands and however deep it nests. */
  lemma {:induction false} BodyIsBlanked(b: Body, rest: string, depth: nat)
    requires Lexes(b)
    ensures Strip(Render(b) + rest, depth + 1) == Blank(Render(b)) + Strip(rest, depth)
  {
    match b
    case End => CloseStep(rest, depth);
    case Char(c, more) =>
      Assoc([c], Render(more), rest);
      CharStep(c, Render(more) + rest, depth);
      BodyIsBlanked(more, rest, depth);
      BlankJoin([c], Render(more), Strip(rest, depth));
    case Nest(inner, more) =>
      var t := Render(more) + rest;
      Assoc("(*", Render(inner) + Render(more), rest);
      Assoc(Render(inner), Render(more), rest);
      OpenStep(Render(inner) + t, depth + 1);
      BodyIsBlanked(inner, t, depth + 1);
      BodyIsBlanked(more, rest, depth);
      BlankJoin(Render(inner), Render(more), Strip(rest, depth));
      BlankJoin("(*", Render(inner) + Render(more), Strip(rest, depth));
  }

  /** Code is kept up to whatever follows it, unless the two join into an opener. */
  lemma {:induction false} CodeThen(code: string, rest: string)
    requires NoOpener(code) && (rest == [] || rest[0] != '*')
    ensures Strip(code + rest, 0) == code + Strip(rest, 0)
  {
    if code == [] {
      assert code + rest == rest;
    } else {
      var c, more := code[0], code[1..];
      assert code == [c] + more && code[0..] == code;
      TailHasNoOpener(code, 1);
      CodeThen(more, rest);
      Assoc([c], more, rest);
      CodeStep(c, more + rest);
      Assoc([c], more, Strip(rest, 0));
    }
  }

  lemma CommentIsBlanked(b: Body, rest: string)
    requires Lexes(b)
    ensures Strip("(*" + (Render(b) + rest), 0) == Blank("(*" + Render(b)) + Strip(rest, 0)
  {
    OpenStep(Render(b) + rest, 0);
    BodyIsBlanked(b, rest, 0);
    BlankJoin("(*", Render(b), Strip(rest, 0));
  }

  /** A block comment, nested to any depth, becomes spaces; the code before it stays. */
  lemma BlockIsBlanked(code: string, b: Body, rest: string)
    requires NoOpener(code) && Lexes(b)
    ensures Strip(code + ("(*" + (Render(b) + rest)), 0) == code + (Blank("(*" + Render(b)) + Strip(rest, 0))
  {
    CommentIsBlanked(b, rest);
    CodeThen(code, "(*" + (Render(b) + rest));
  }

  lemma {:induction false} LineEndOf(line: string, rest: string)
    requires '\n' !in line && (rest == [] || rest[0] == '\n')
    ensures LineEnd(line + rest) == |line|
  {
    var s := line + rest;
    assert forall i :: 0 <= i < |line| ==> s[i] == line[i];
    assert rest != [] ==> s[|line|] == '\n';
  }

  lemma LineStep(line: string, rest: string)
    requires LineOpens(line) && LineEnd(line + rest) == |line|
    ensures Strip(line + rest, 0) == Blank(line) + Strip(rest, 0)
  {
    var s := line + rest;
    assert s[..|line|] == line && s[|line|..] == rest;
  }

  /** A line comment becomes spaces up to its newline; the code before it and the newline stay. */
  lemma LineIsBlanked(code: string, comment: string, rest: string)
    requires NoOpener(code) && '\n' !in comment && (rest == [] || rest[0] == '\n')
    ensures Strip(code + ("\\*" + comment + rest), 0) == code + (Blank("\\*" + comment) + Strip(rest, 0))
  {
    var line := "\\*" + comment;
    CodeThen(code, line + rest);
    LineEndOf(line, rest);
    LineStep(line, rest);
  }
}
