/** Text wrapping and segment clipping (`wrap` and `_seg_hits_rect` in `docs/architecture/vsdxkit.py`). */
module Layout {
  import opened Outcomes
  import opened Text

  // ---- wrapping ----------------------------------------------------------------------------------

  /** Lines that start with `line` and take the words in order, a new line wherever `breaks` says so. */
  function Lay(line: string, words: seq<string>, breaks: seq<bool>): (lines: seq<string>)
    requires |breaks| == |words|
    ensures lines != [] && line <= lines[0]
    decreases |words|
  {
    if words == [] then [line]
    else if breaks[0] then [line] + Lay(words[0], words[1..], breaks[1..])
    else Lay(line + " " + words[0], words[1..], breaks[1..])
  }

  /** Where the source breaks: before a word that would run over the budget. */
  function Greedy(line: string, words: seq<string>, budget: nat): (breaks: seq<bool>)
    ensures |breaks| == |words|
    decreases |words|
  {
    if words == [] then []
    else
      var over := |line + " " + words[0]| > budget;
      [over] + Greedy(if over then words[0] else line + " " + words[0], words[1..], budget)
  }

  function Wrapped(line: string, words: seq<string>, budget: nat): seq<string> {
    Lay(line, words, Greedy(line, words, budget))
  }

  /** The lines for one hard line. */
  function WrapHard(hard: string, budget: nat): seq<string> {
    var words := Split(hard, ' ');
    Wrapped(words[0], words[1..], budget)
  }

  /** A line is within the budget, or a single word. */
  predicate Fits(line: string, budget: nat) {
    |line| <= budget || ' ' !in line
  }

  predicate AllFit(lines: seq<string>, budget: nat) {
    forall i :: 0 <= i < |lines| ==> Fits(lines[i], budget)
  }

  predicate NoSpaces(words: seq<string>) {
    forall i :: 0 <= i < |words| ==> ' ' !in words[i]
  }

  lemma Unfold(line: string, words: seq<string>, budget: nat)
    requires words != []
    ensures var over := |line + " " + words[0]| > budget;
            Wrapped(line, words, budget) ==
            if over then [line] + Wrapped(words[0], words[1..], budget) else Wrapped(line + " " + words[0], words[1..], budget)
  {
    var breaks := Greedy(line, words, budget);
    var over := |line + " " + words[0]| > budget;
    assert breaks[0] == over && breaks[1..] == Greedy(if over then words[0] else line + " " + words[0], words[1..], budget);
  }

  /** Every way of breaking at spaces keeps every character. */
  lemma {:induction false} LayIsLossless(line: string, words: seq<string>, breaks: seq<bool>)
    requires |breaks| == |words|
    ensures Join(Lay(line, words, breaks), ' ') == Join([line] + words, ' ')
    decreases |words|
  {
    if words != [] {
      var w, rest := words[0], words[1..];
      assert ([line] + words)[1..] == [w] + rest;
      if breaks[0] {
        var more := Lay(w, rest, breaks[1..]);
        LayIsLossless(w, rest, breaks[1..]);
        assert ([line] + more)[1..] == more;
      } else {
        LayIsLossless(line + " " + w, rest, breaks[1..]);
        JoinMerge(line, w, rest);
      }
    }
  }

  lemma JoinMerge(line: string, w: string, rest: seq<string>)
    ensures Join([line + " " + w] + rest, ' ') == line + " " + Join([w] + rest, ' ')
  {
    assert ([line + " " + w] + rest)[1..] == rest && ([w] + rest)[1..] == rest;
    if rest != [] {
      assert (line + " " + w) + " " + Join(rest, ' ') == line + " " + (w + " " + Join(rest, ' '));
    }
  }

  /** Every line the source makes fits the budget or is one word. */
  lemma {:induction false} WrappedFits(line: string, words: seq<string>, budget: nat)
    requires NoSpaces(words) && Fits(line, budget)
    ensures AllFit(Wrapped(line, words, budget), budget)
    decreases |words|
  {
    if words != [] {
      Unfold(line, words, budget);
      var over := |line + " " + words[0]| > budget;
      WrappedFits(if over then words[0] else line + " " + words[0], words[1..], budget);
    }
  }

  /** A shorter first line never costs a line. */
  lemma {:induction false} ShorterIsNoWorse(line: string, other: string, words: seq<string>, budget: nat)
    requires |line| <= |other|
    ensures |Wrapped(line, words, budget)| <= |Wrapped(other, words, budget)|
    decreases |words|
  {
    if words != [] {
      Unfold(line, words, budget);
      Unfold(other, words, budget);
      var w, rest := words[0], words[1..];
      if |line + " " + w| > budget {
      } else if |other + " " + w| > budget {
        OneLineApart(line + " " + w, w, rest, budget);
      } else {
        ShorterIsNoWorse(line + " " + w, other + " " + w, rest, budget);
      }
    }
  }

  /** Whatever stands on the first line costs at most one line. */
  lemma {:induction false} OneLineApart(line: string, other: string, words: seq<string>, budget: nat)
    ensures |Wrapped(line, words, budget)| <= 1 + |Wrapped(other, words, budget)|
    decreases |words|
  {
    if words != [] {
      Unfold(line, words, budget);
      Unfold(other, words, budget);
      var w, rest := words[0], words[1..];
      if |line + " " + w| <= budget {
        OneLineApart(line + " " + w, if |other + " " + w| > budget then w else other + " " + w, rest, budget);
      } else if |other + " " + w| <= budget {
        ShorterIsNoWorse(w, other + " " + w, rest, budget);
      }
    }
  }

  lemma TailFits(line: string, more: seq<string>, budget: nat)
    requires AllFit([line] + more, budget)
    ensures AllFit(more, budget)
  {
    forall i | 0 <= i < |more| ensures Fits(more[i], budget) {
      assert more[i] == ([line] + more)[i + 1];
    }
  }

  /** A line with a space in it fits, and so does every part of it. */
  lemma JoinedFits(line: string, word: string, lines: seq<string>, budget: nat)
    requires lines != [] && line + " " + word <= lines[0] && AllFit(lines, budget)
    ensures |line| + 1 + |word| <= budget
  {
    assert lines[0][|line|] == ' ';
  }

  /** No way of breaking at spaces whose lines fit, or are one word, uses fewer lines. */
  lemma {:induction false} FewestLines(line: string, other: string, words: seq<string>, breaks: seq<bool>, budget: nat)
    requires |breaks| == |words| && |line| <= |other| && AllFit(Lay(other, words, breaks), budget)
    ensures |Wrapped(line, words, budget)| <= |Lay(other, words, breaks)|
    decreases |words|
  {
    if words != [] {
      Unfold(line, words, budget);
      var w, rest := words[0], words[1..];
      if breaks[0] {
        var more := Lay(w, rest, breaks[1..]);
        TailFits(other, more, budget);
        FewestLines(w, w, rest, breaks[1..], budget);
        if |line + " " + w| <= budget {
          OneLineApart(line + " " + w, w, rest, budget);
        }
      } else {
        JoinedFits(other, w, Lay(other + " " + w, rest, breaks[1..]), budget);
        FewestLines(line + " " + w, other + " " + w, rest, breaks[1..], budget);
      }
    }
  }

  function Flatten(groups: seq<seq<string>>): seq<string> {
    if groups == [] then [] else Flatten(groups[..|groups| - 1]) + groups[|groups| - 1]
  }

  /** What wrapping promises of one hard line. */
  ghost predicate WellWrapped(hard: string, lines: seq<string>, budget: nat) {
    && Join(lines, ' ') == hard
    && AllFit(lines, budget)
    && forall breaks: seq<bool> :: |breaks| == |Split(hard, ' ')| - 1 ==>
         var laid := Lay(Split(hard, ' ')[0], Split(hard, ' ')[1..], breaks);
         AllFit(laid, budget) ==> |lines| <= |laid|
  }

  lemma HardIsWellWrapped(hard: string, budget: nat)
    ensures WellWrapped(hard, WrapHard(hard, budget), budget)
  {
    var words := Split(hard, ' ');
    JoinSplit(hard, ' ');
    assert words == [words[0]] + words[1..];
    forall i | 0 <= i < |words| ensures ' ' !in words[i] {
      assert words[i] in words;
    }
    LayIsLossless(words[0], words[1..], Greedy(words[0], words[1..], budget));
    WrappedFits(words[0], words[1..], budget);
    forall breaks: seq<bool> | |breaks| == |words| - 1 && AllFit(Lay(words[0], words[1..], breaks), budget)
      ensures |WrapHard(hard, budget)| <= |Lay(words[0], words[1..], breaks)|
    {
      FewestLines(words[0], words[0], words[1..], breaks, budget);
    }
  }

  lemma Regroup(out: seq<string>, line: string, more: seq<string>)
    ensures out + ([line] + more) == (out + [line]) + more
  {
  }

  /** The inner loop, over the words of a hard line. */
  method WrapWords(hard: string, budget: nat) returns (out: seq<string>)
    ensures out == WrapHard(hard, budget)
  {
    out := [];
    var words := Split(hard, ' ');
    var line: Option<string>, i := None, 0;
    while i < |words|
      invariant 0 <= i <= |words| && (line == None <==> i == 0) && (i == 0 ==> out == [])
      invariant i > 0 ==> out + Wrapped(line.value, words[i..], budget) == WrapHard(hard, budget)
    {
      var word := words[i];
      var probe := if line.None? then word else line.value + " " + word;
      if i > 0 {
        Unfold(line.value, words[i..], budget);
        assert words[i..][1..] == words[i + 1..];
      }
      if |probe| <= budget || line.None? {
        line := Some(probe);
      } else {
        Regroup(out, line.value, Wrapped(word, words[i + 1..], budget));
        out := out + [line.value];
        line := Some(word);
      }
      i := i + 1;
    }
    out := out + [if line.None? then "" else line.value];
  }

  /** The lines of each hard line of a text. */
  function WrapGroups(text: string, budget: nat): (groups: seq<seq<string>>)
    ensures |groups| == |Split(text, '\n')|
  {
    var hards := Split(text, '\n');
    seq(|hards|, i requires 0 <= i < |hards| => WrapHard(hards[i], budget))
  }

  /** Every hard line is well wrapped, and the hard lines joined by newlines are the text. */
  lemma TextIsWellWrapped(text: string, budget: nat)
    ensures Join(Split(text, '\n'), '\n') == text
    ensures forall i :: 0 <= i < |WrapGroups(text, budget)| ==>
              WellWrapped(Split(text, '\n')[i], WrapGroups(text, budget)[i], budget)
  {
    JoinSplit(text, '\n');
    forall i | 0 <= i < |WrapGroups(text, budget)|
      ensures WellWrapped(Split(text, '\n')[i], WrapGroups(text, budget)[i], budget)
    {
      HardIsWellWrapped(Split(text, '\n')[i], budget);
    }
  }

  /** The outer loop, over the hard lines. */
  method Wrap(text: string, budget: nat) returns (out: seq<string>)
    ensures out == Flatten(WrapGroups(text, budget))
  {
    out := [];
    var hards := Split(text, '\n');
    ghost var groups := WrapGroups(text, budget);
    for i := 0 to |hards|
      invariant out == Flatten(groups[..i])
    {
      var lines := WrapWords(hards[i], budget);
      assert groups[..i + 1][..i] == groups[..i];
      out := out + lines;
    }
    assert groups[..|hards|] == groups;
  }

  // ---- clipping ------------------------------------------------------------------------------------

  /** The point at `t` is on the inner side of an edge. */
  predicate Inside(t: real, num: real, den: real) {
    num <= t * den
  }

  lemma Divide(t: real, num: real, den: real)
    requires den != 0.0
    ensures den > 0.0 ==> (Inside(t, num, den) <==> num / den <= t)
    ensures den < 0.0 ==> (Inside(t, num, den) <==> t <= num / den)
  {
    var q := num / den;
    assert num == q * den;
    assert t * den - q * den == (t - q) * den;
    if den > 0.0 {
      assert t >= q ==> (t - q) * den >= 0.0;
      assert t < q ==> (q - t) * den > 0.0;
    } else {
      assert t <= q ==> (q - t) * -den >= 0.0;
      assert t > q ==> (t - q) * -den > 0.0;
    }
  }

  datatype Point = Point(x: real, y: real)

  datatype Rect = Rect(x0: real, y0: real, x1: real, y1: real)

  predicate InRect(p: Point, r: Rect) {
    r.x0 <= p.x <= r.x1 && r.y0 <= p.y <= r.y1
  }

  /** The point a share `t` of the way from `a` to `b`. */
  function Along(a: Point, b: Point, t: real): Point {
    Point(a.x + t * (b.x - a.x), a.y + t * (b.y - a.y))
  }

  /** The segment meets the rectangle: some point of it lies in it. */
  ghost predicate Touches(a: Point, b: Point, r: Rect) {
    exists t: real :: Between(t, 0.0, 1.0) && InRect(Along(a, b, t), r)
  }

  predicate InsideAll(t: real, edges: seq<(real, real)>) {
    forall i :: 0 <= i < |edges| ==> Inside(t, edges[i].0, edges[i].1)
  }

  /** For each edge: how far it lies from `a`, and the segment's extent towards it. */
  function Edges(a: Point, b: Point, r: Rect): seq<(real, real)> {
    var dx, dy := b.x - a.x, b.y - a.y;
    [(r.x0 - a.x, dx), (a.x - r.x1, -dx), (r.y0 - a.y, dy), (a.y - r.y1, -dy)]
  }

  /** Being inside all four edges is being in the rectangle. */
  lemma EdgesAreTheRect(a: Point, b: Point, r: Rect, t: real)
    ensures InsideAll(t, Edges(a, b, r)) <==> InRect(Along(a, b, t), r)
  {
    var dx, dy, edges := b.x - a.x, b.y - a.y, Edges(a, b, r);
    assert t * -dx == -(t * dx) && t * -dy == -(t * dy);
    assert InsideAll(t, edges) <==>
      Inside(t, edges[0].0, edges[0].1) && Inside(t, edges[1].0, edges[1].1) &&
      Inside(t, edges[2].0, edges[2].1) && Inside(t, edges[3].0, edges[3].1);
  }

  predicate Between(t: real, t0: real, t1: real) {
    t0 <= t <= t1
  }

  /** Where to narrow the interval for one edge, or nothing if it empties. */
  method Narrow(t0: real, t1: real, num: real, den: real) returns (left: bool, u0: real, u1: real)
    requires t0 <= t1
    ensures left ==> u0 <= u1 && forall t :: Between(t, u0, u1) <==> Between(t, t0, t1) && Inside(t, num, den)
    ensures !left ==> forall t :: Between(t, t0, t1) ==> !Inside(t, num, den)
  {
    left, u0, u1 := true, t0, t1;
    if den == 0.0 {
      left := num <= 0.0;
      return;
    }
    var q := num / den;
    forall t: real ensures if den > 0.0 then Inside(t, num, den) <==> q <= t else Inside(t, num, den) <==> t <= q {
      Divide(t, num, den);
    }
    if den > 0.0 {
      left, u0 := q <= t1, if q > t0 then q else t0;
    } else {
      left, u1 := q >= t0, if q < t1 then q else t1;
    }
  }

  /** The parameters from 0 to 1 on the inner side of every edge: an interval, or none. */
  method Clip(edges: seq<(real, real)>) returns (hit: bool, ghost at: real)
    ensures hit ==> Between(at, 0.0, 1.0) && InsideAll(at, edges)
    ensures !hit ==> forall t: real :: Between(t, 0.0, 1.0) ==> !InsideAll(t, edges)
  {
    var t0, t1 := 0.0, 1.0;
    for i := 0 to |edges|
      invariant t0 <= t1
      invariant forall t: real :: Between(t, t0, t1) <==> Between(t, 0.0, 1.0) && InsideAll(t, edges[..i])
    {
      InsideMore(edges, i);
      var left, u0, u1 := Narrow(t0, t1, edges[i].0, edges[i].1);
      if !left {
        return false, 0.0;
      }
      t0, t1 := u0, u1;
    }
    assert edges[..|edges|] == edges;
    assert Between(t0, t0, t1);
    return t0 <= t1, t0;
  }

  lemma InsideMore(edges: seq<(real, real)>, i: nat)
    requires i < |edges|
    ensures forall t: real :: InsideAll(t, edges[..i + 1]) <==> InsideAll(t, edges[..i]) && Inside(t, edges[i].0, edges[i].1)
    ensures forall t: real :: InsideAll(t, edges) ==> InsideAll(t, edges[..i + 1])
  {
    assert edges[..i + 1] == edges[..i] + [edges[i]];
  }

  method SegHitsRect(a: Point, b: Point, r: Rect) returns (hit: bool)
    ensures hit <==> Touches(a, b, r)
  {
    ghost var at: real;
    hit, at := Clip(Edges(a, b, r));
    forall t: real ensures InsideAll(t, Edges(a, b, r)) <==> InRect(Along(a, b, t), r) {
      EdgesAreTheRect(a, b, r, t);
    }
  }
}
