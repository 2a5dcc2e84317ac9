/**
 Drawing a page (`page_emf` in `vsdxemf.py`): for every shape list, the bytes are accepted by the validator and replay to
 the page, each call under the pen, brush, font, colour and alignment its shape asks for.
 */
module EmfPage {
  import opened Outcomes
  import opened Sequences
  import opened EmfBytes
  import opened EmfValidator
  import opened EmfReplay
  import opened EmfFile
  import opened EmfWriter

  datatype Anchor = Start | Middle | End

  const TA_BASELINE: Word := 24
  const TA_CENTER: Word := 6
  const TA_RIGHT: Word := 2

  /** Bitwise or of disjoint or overlapping flags, worked out: 24 | 6 is 30 and 24 | 2 is 26. */
  function AlignOf(anchor: Anchor): Word {
    match anchor
    case Start => TA_BASELINE
    case Middle => TA_BASELINE + TA_CENTER
    case End => TA_BASELINE + TA_RIGHT
  }

  datatype Run = Run(x: Long, y: Long, text: seq<CodePoint>, font: Key, height: Long, color: Color, anchor: Anchor)

  datatype Path = Path(geometry: Figure, line: bool, fill: bool)

  datatype Item =
    | Arrow(points: Figure, color: Color, width: Word, dashed: bool, heads: seq<Figure>)
    | Box(pen: Option<Key>, brush: Option<Key>, outline: Figure, paths: Option<seq<Path>>, runs: seq<Run>)

  predicate GoodRun(run: Run) {
    run.font.FontKey? && |run.text| < 0x100_0000
  }

  /** Keys of the right sort, and every list short enough to be packed. */
  predicate Good(item: Item) {
    item.Box? ==>
      && (item.pen.Some? ==> item.pen.value.PenKey?) && (item.brush.Some? ==> item.brush.value.BrushKey?)
      && forall i :: 0 <= i < |item.runs| ==> GoodRun(item.runs[i])
  }

  // ---- what a page asks for ------------------------------------------------------------------

  function PenTool(pen: Option<Key>): Tool {
    if pen.Some? then Made(ObjectOf(pen.value, 0)) else Stock(STOCK_NULL_PEN)
  }

  function BrushTool(brush: Option<Key>): Tool {
    if brush.Some? then Made(ObjectOf(brush.value, 0)) else Stock(STOCK_NULL_BRUSH)
  }

  function Drawn(g: Figure, pen: Tool, brush: Tool): Event
  {
    Shape(GeometryKind(g), GeometryWords(g), Some(pen), Some(brush))
  }

  function HeadEvents(heads: seq<Figure>, pen: Tool, brush: Tool): seq<Event>
  {
    if heads == [] then [] else HeadEvents(heads[..|heads| - 1], pen, brush) + [Drawn(heads[|heads| - 1], pen, brush)]
  }

  function PathEvent(path: Path, pen: Tool, brush: Tool): Event
  {
    Drawn(path.geometry, if path.line then pen else Stock(STOCK_NULL_PEN), if path.fill then brush else Stock(STOCK_NULL_BRUSH))
  }

  function PathEvents(paths: seq<Path>, pen: Tool, brush: Tool): seq<Event>
  {
    if paths == [] then [] else PathEvents(paths[..|paths| - 1], pen, brush) + [PathEvent(paths[|paths| - 1], pen, brush)]
  }

  /** A run in a font of the given height. */
  function RunEvent(run: Run, height: Long): Event {
    Text([Signed(run.x), Signed(run.y)], Shown(run.text), Some(Made(ObjectOf(run.font, height))),
         Some(Colorref(run.color)), Some(AlignOf(run.anchor)))
  }

  /** The heights fonts have after these runs: the first asked for under each key. */
  function HeightsAfter(runs: seq<Run>, heights: map<Key, Long>): map<Key, Long> {
    if runs == [] then heights
    else
      var last := runs[|runs| - 1];
      FirstHeight(HeightsAfter(runs[..|runs| - 1], heights), last.font, last.height)
  }

  function RunEvents(runs: seq<Run>, heights: map<Key, Long>): seq<Event> {
    if runs == [] then []
    else
      RunEvents(runs[..|runs| - 1], heights) +
      [RunEvent(runs[|runs| - 1], HeightOf(HeightsAfter(runs, heights), runs[|runs| - 1].font))]
  }

  function BodyEvents(item: Item): seq<Event>
    requires Good(item)
  {
    match item
    case Arrow(points, color, width, dashed, heads) =>
      var pen := PenTool(Some(PenKey(color, width, dashed)));
      [Drawn(points, pen, BrushTool(None))] + HeadEvents(heads, pen, BrushTool(Some(BrushKey(color))))
    case Box(pen, brush, outline, paths, _) =>
      if paths.Some? then PathEvents(paths.value, PenTool(pen), BrushTool(brush))
      else if pen.None? && brush.None? then []
      else [Drawn(outline, PenTool(pen), BrushTool(brush))]
  }

  function RunsOf(item: Item): seq<Run> {
    if item.Box? then item.runs else []
  }

  predicate AllGood(items: seq<Item>) {
    forall i :: 0 <= i < |items| ==> Good(items[i])
  }

  function PageHeights(items: seq<Item>): map<Key, Long> {
    if items == [] then map[] else HeightsAfter(RunsOf(items[|items| - 1]), PageHeights(items[..|items| - 1]))
  }

  /** The page: its shapes in order, each drawn, then its text. */
  function PageEvents(items: seq<Item>): seq<Event>
    requires AllGood(items)
  {
    if items == [] then []
    else
      var init, last := items[..|items| - 1], items[|items| - 1];
      PageEvents(init) + BodyEvents(last) + RunEvents(RunsOf(last), PageHeights(init))
  }

  /** Objects the page may need. */
  function Demand(items: seq<Item>): nat {
    if items == [] then 0 else Demand(items[..|items| - 1]) + 2 + |RunsOf(items[|items| - 1])|
  }

  /** At most this many bytes for a shape: its record, two selects, and an object it may create. */
  function DrawBytes(g: Figure): nat
  {
    OBJECT_BYTES + 24 + RecordBytes(GeometryWords(g))
  }

  function HeadsBytes(heads: seq<Figure>): nat
  {
    if heads == [] then 0 else HeadsBytes(heads[..|heads| - 1]) + DrawBytes(heads[|heads| - 1])
  }

  function PathsBytes(paths: seq<Path>): nat
  {
    if paths == [] then 0 else PathsBytes(paths[..|paths| - 1]) + DrawBytes(paths[|paths| - 1].geometry)
  }

  function RunBytes(run: Run): nat
    requires GoodRun(run)
  {
    OBJECT_BYTES + 36 + RecordBytes(TextWords(run.x, run.y, run.text))
  }

  function RunsBytes(runs: seq<Run>): nat
    requires forall i :: 0 <= i < |runs| ==> GoodRun(runs[i])
  {
    if runs == [] then 0 else RunsBytes(runs[..|runs| - 1]) + RunBytes(runs[|runs| - 1])
  }

  function ShapesBytes(item: Item): nat
    requires Good(item)
  {
    match item
    case Arrow(points, _, _, _, heads) => DrawBytes(points) + HeadsBytes(heads)
    case Box(_, _, outline, paths, _) =>
      2 * OBJECT_BYTES + if paths.Some? then PathsBytes(paths.value) else DrawBytes(outline)
  }

  function ItemsBytes(items: seq<Item>): nat
    requires AllGood(items)
  {
    if items == [] then 0
    else
      var last := items[|items| - 1];
      ItemsBytes(items[..|items| - 1]) + ShapesBytes(last) + RunsBytes(RunsOf(last))
  }

  /** Records that set up the page. */
  const SETUP_BYTES: nat := 100

  /** At most this many bytes for the page. */
  function PageBytes(items: seq<Item>): nat
    requires AllGood(items)
  {
    HEADER_BYTES + SETUP_BYTES + ItemsBytes(items) + 20
  }

  // ---- drawing ----------------------------------------------------------------------------------

  lemma GrowthKeeps(s: State, t: State, slot: Slot, handle: Word, tool: Tool)
    requires StandsFor(s, slot, handle, tool)
    requires forall o :: o in s.objects ==> o in t.objects && t.objects[o] == s.objects[o]
    ensures StandsFor(t, slot, handle, tool)
  {
  }

  /** Select both tools and draw. */
  method DrawWith(e: Emf, g: Figure, pen: Word, brush: Word, ghost penTool: Tool, ghost brushTool: Tool)
    requires e.Valid()
    requires StandsFor(e.played, PenSlot, pen, penTool) && StandsFor(e.played, BrushSlot, brush, brushTool)
    modifies e`recs, e`size, e`words, e`nextHandle, e`played, e`asked, e`selected
    ensures e.Valid() && e.nextHandle == old(e.nextHandle) && e.played.objects == old(e.played).objects
    ensures ToolIn(e.played, PenSlot) == Some(penTool) && e.size + OBJECT_BYTES <= old(e.size) + DrawBytes(g)
    ensures e.asked == old(e.asked) + [Drawn(g, penTool, brushTool)]
  {
    e.SelectTool(PenSlot, pen, penTool);
    GrowthKeeps(old(e.played), e.played, BrushSlot, brush, brushTool);
    e.SelectTool(BrushSlot, brush, brushTool);
    e.DrawShape(g);
  }

  /** The handle of a pen or brush, or the stock object that stands for none. */
  method PenOrNone(e: Emf, pen: Option<Key>) returns (handle: Word)
    requires e.Valid() && e.nextHandle < STOCK && (pen.Some? ==> pen.value.PenKey?)
    modifies e`recs, e`size, e`words, e`nextHandle, e`played, e`asked, e`objects, e`heights
    ensures e.Valid() && e.nextHandle <= old(e.nextHandle) + 1 && e.asked == old(e.asked)
    ensures Grows(old(e.played), e.played) && e.heights == old(e.heights) && e.size <= old(e.size) + OBJECT_BYTES
    ensures StandsFor(e.played, PenSlot, handle, PenTool(pen))
  {
    if pen.None? {
      return STOCK_NULL_PEN;
    }
    handle := e.Handle(pen.value, 0);
  }

  method BrushOrNone(e: Emf, brush: Option<Key>) returns (handle: Word)
    requires e.Valid() && e.nextHandle < STOCK && (brush.Some? ==> brush.value.BrushKey?)
    modifies e`recs, e`size, e`words, e`nextHandle, e`played, e`asked, e`objects, e`heights
    ensures e.Valid() && e.nextHandle <= old(e.nextHandle) + 1 && e.asked == old(e.asked)
    ensures Grows(old(e.played), e.played) && e.heights == old(e.heights) && e.size <= old(e.size) + OBJECT_BYTES
    ensures StandsFor(e.played, BrushSlot, handle, BrushTool(brush))
  {
    if brush.None? {
      return STOCK_NULL_BRUSH;
    }
    handle := e.Handle(brush.value, 0);
  }

  lemma PathsSnoc(paths: seq<Path>, i: nat, pen: Tool, brush: Tool)
    requires i < |paths|
    ensures PathEvents(paths[..i + 1], pen, brush) == PathEvents(paths[..i], pen, brush) + [PathEvent(paths[i], pen, brush)]
    ensures PathsBytes(paths[..i + 1]) == PathsBytes(paths[..i]) + DrawBytes(paths[i].geometry)
  {
    assert paths[..i + 1][..i] == paths[..i];
  }

  lemma HeadsSnoc(heads: seq<Figure>, i: nat, pen: Tool, brush: Tool)
    requires i < |heads|
    ensures HeadEvents(heads[..i + 1], pen, brush) == HeadEvents(heads[..i], pen, brush) + [Drawn(heads[i], pen, brush)]
    ensures HeadsBytes(heads[..i + 1]) == HeadsBytes(heads[..i]) + DrawBytes(heads[i])
  {
    assert heads[..i + 1][..i] == heads[..i];
  }

  /** One path, with the shape's pen and brush or none. */
  method DrawPath(e: Emf, path: Path, pen: Word, brush: Word, ghost penTool: Tool, ghost brushTool: Tool)
    requires e.Valid()
    requires StandsFor(e.played, PenSlot, pen, penTool) && StandsFor(e.played, BrushSlot, brush, brushTool)
    modifies e`recs, e`size, e`words, e`nextHandle, e`played, e`asked, e`selected
    ensures e.Valid() && e.nextHandle == old(e.nextHandle)
    ensures StandsFor(e.played, PenSlot, pen, penTool) && StandsFor(e.played, BrushSlot, brush, brushTool)
    ensures e.asked == old(e.asked) + [PathEvent(path, penTool, brushTool)] && e.size <= old(e.size) + DrawBytes(path.geometry)
  {
    var p, b := if path.line then pen else STOCK_NULL_PEN, if path.fill then brush else STOCK_NULL_BRUSH;
    DrawWith(e, path.geometry, p, b,
             if path.line then penTool else Stock(STOCK_NULL_PEN), if path.fill then brushTool else Stock(STOCK_NULL_BRUSH));
    GrowthKeeps(old(e.played), e.played, PenSlot, pen, penTool);
    GrowthKeeps(old(e.played), e.played, BrushSlot, brush, brushTool);
  }

  /** One turn of the loop over the paths. */
  method DrawNextPath(e: Emf, paths: seq<Path>, i: nat, pen: Word, brush: Word, ghost penTool: Tool, ghost brushTool: Tool,
                      ghost asked: seq<Event>, ghost size: nat)
    requires e.Valid() && i < |paths|
    requires StandsFor(e.played, PenSlot, pen, penTool) && StandsFor(e.played, BrushSlot, brush, brushTool)
    requires e.asked == asked + PathEvents(paths[..i], penTool, brushTool) && e.size <= size + PathsBytes(paths[..i])
    modifies e`recs, e`size, e`words, e`nextHandle, e`played, e`asked, e`selected
    ensures e.Valid() && e.nextHandle == old(e.nextHandle)
    ensures StandsFor(e.played, PenSlot, pen, penTool) && StandsFor(e.played, BrushSlot, brush, brushTool)
    ensures e.asked == asked + PathEvents(paths[..i + 1], penTool, brushTool) && e.size <= size + PathsBytes(paths[..i + 1])
  {
    PathsSnoc(paths, i, penTool, brushTool);
    DrawPath(e, paths[i], pen, brush, penTool, brushTool);
    Assoc(asked, PathEvents(paths[..i], penTool, brushTool), [PathEvent(paths[i], penTool, brushTool)]);
  }

  method DrawPaths(e: Emf, paths: seq<Path>, pen: Word, brush: Word, ghost penTool: Tool, ghost brushTool: Tool)
    requires e.Valid()
    requires StandsFor(e.played, PenSlot, pen, penTool) && StandsFor(e.played, BrushSlot, brush, brushTool)
    modifies e`recs, e`size, e`words, e`nextHandle, e`played, e`asked, e`selected
    ensures e.Valid() && e.nextHandle == old(e.nextHandle)
    ensures e.asked == old(e.asked) + PathEvents(paths, penTool, brushTool) && e.size <= old(e.size) + PathsBytes(paths)
  {
    var i := 0;
    ghost var asked, next, size := e.asked, e.nextHandle, e.size;
    while i < |paths|
      invariant 0 <= i <= |paths| && e.Valid() && e.nextHandle == next
      invariant StandsFor(e.played, PenSlot, pen, penTool) && StandsFor(e.played, BrushSlot, brush, brushTool)
      invariant e.asked == asked + PathEvents(paths[..i], penTool, brushTool)
      invariant e.size <= size + PathsBytes(paths[..i])
    {
      DrawNextPath(e, paths, i, pen, brush, penTool, brushTool, asked, size);
      i := i + 1;
    }
    assert paths[..i] == paths;
  }

  /** One arrow head, filled with the line's colour under the line's pen. */
  method DrawHead(e: Emf, head: Figure, fill: Key, ghost penTool: Tool)
    requires e.Valid() && fill.BrushKey? && e.nextHandle < STOCK
    requires ToolIn(e.played, PenSlot) == Some(penTool)
    modifies e`recs, e`size, e`words, e`nextHandle, e`played, e`asked, e`objects, e`heights, e`selected
    ensures e.Valid() && e.heights == old(e.heights) && ToolIn(e.played, PenSlot) == Some(penTool)
    ensures e.nextHandle == (if fill in old(e.objects) then old(e.nextHandle) else old(e.nextHandle) + 1) && fill in e.objects
    ensures e.asked == old(e.asked) + [Drawn(head, penTool, BrushTool(Some(fill)))] && e.size <= old(e.size) + DrawBytes(head)
  {
    SelectFill(e, fill);
    e.DrawShape(head);
  }

  /** The fill's brush, made if it is new, and selected. */
  method SelectFill(e: Emf, fill: Key)
    requires e.Valid() && fill.BrushKey? && e.nextHandle < STOCK
    modifies e`recs, e`size, e`words, e`nextHandle, e`played, e`asked, e`objects, e`heights, e`selected
    ensures e.Valid() && e.heights == old(e.heights) && e.asked == old(e.asked)
    ensures ToolIn(e.played, PenSlot) == ToolIn(old(e.played), PenSlot) && ToolIn(e.played, BrushSlot) == Some(BrushTool(Some(fill)))
    ensures e.nextHandle == (if fill in old(e.objects) then old(e.nextHandle) else old(e.nextHandle) + 1) && fill in e.objects
    ensures e.size <= old(e.size) + OBJECT_BYTES + 12
  {
    var handle := e.Handle(fill, 0);
    e.SelectTool(BrushSlot, handle, BrushTool(Some(fill)));
  }

  /** Arrow heads: the fill is created at the first one and reused. */
  method DrawHeads(e: Emf, heads: seq<Figure>, fill: Key, ghost penTool: Tool)
    requires e.Valid() && fill.BrushKey? && e.nextHandle + 1 < STOCK
    requires ToolIn(e.played, PenSlot) == Some(penTool)
    modifies e`recs, e`size, e`words, e`nextHandle, e`played, e`asked, e`objects, e`heights, e`selected
    ensures e.Valid() && e.nextHandle <= old(e.nextHandle) + 1 && e.heights == old(e.heights)
    ensures e.asked == old(e.asked) + HeadEvents(heads, penTool, BrushTool(Some(fill))) && e.size <= old(e.size) + HeadsBytes(heads)
  {
    var i := 0;
    ghost var brush := BrushTool(Some(fill));
    ghost var asked, next, size := e.asked, e.nextHandle, e.size;
    while i < |heads|
      invariant 0 <= i <= |heads| && e.Valid() && e.heights == old(e.heights)
      invariant e.nextHandle <= next + if fill in e.objects then 1 else 0
      invariant ToolIn(e.played, PenSlot) == Some(penTool)
      invariant e.asked == asked + HeadEvents(heads[..i], penTool, brush)
      invariant e.size <= size + HeadsBytes(heads[..i])
    {
      HeadsSnoc(heads, i, penTool, brush);
      DrawHead(e, heads[i], fill, penTool);
      Assoc(asked, HeadEvents(heads[..i], penTool, brush), [Drawn(heads[i], penTool, brush)]);
      i := i + 1;
    }
    assert heads[..i] == heads;
  }

  method DrawRun(e: Emf, run: Run)
    requires e.Valid() && e.nextHandle < STOCK && GoodRun(run)
    modifies e
    ensures e.Valid() && e.nextHandle <= old(e.nextHandle) + 1
    ensures e.heights == FirstHeight(old(e.heights), run.font, run.height)
    ensures e.asked == old(e.asked) + [RunEvent(run, HeightOf(e.heights, run.font))] && e.size <= old(e.size) + RunBytes(run)
  {
    var handle := e.Handle(run.font, run.height);
    e.SelectTool(FontSlot, handle, Made(ObjectOf(run.font, HeightOf(e.heights, run.font))));
    e.SetText(run.color, AlignOf(run.anchor));
    e.DrawText(run.x, run.y, run.text);
  }

  lemma RunsSnoc(runs: seq<Run>, i: nat, heights: map<Key, Long>)
    requires i < |runs| && forall j :: 0 <= j < |runs| ==> GoodRun(runs[j])
    ensures RunsBytes(runs[..i + 1]) == RunsBytes(runs[..i]) + RunBytes(runs[i])
    ensures HeightsAfter(runs[..i + 1], heights) == FirstHeight(HeightsAfter(runs[..i], heights), runs[i].font, runs[i].height)
    ensures RunEvents(runs[..i + 1], heights) ==
            RunEvents(runs[..i], heights) + [RunEvent(runs[i], HeightOf(HeightsAfter(runs[..i + 1], heights), runs[i].font))]
  {
    assert runs[..i + 1][..i] == runs[..i];
  }

  method DrawRuns(e: Emf, runs: seq<Run>)
    requires e.Valid() && e.nextHandle + |runs| < STOCK && forall i :: 0 <= i < |runs| ==> GoodRun(runs[i])
    modifies e
    ensures e.Valid() && e.nextHandle <= old(e.nextHandle) + |runs|
    ensures e.heights == HeightsAfter(runs, old(e.heights)) && e.size <= old(e.size) + RunsBytes(runs)
    ensures e.asked == old(e.asked) + RunEvents(runs, old(e.heights))
  {
    var i := 0;
    ghost var asked, heights, next, size := e.asked, e.heights, e.nextHandle, e.size;
    while i < |runs|
      invariant 0 <= i <= |runs| && e.Valid() && e.nextHandle <= next + i
      invariant e.heights == HeightsAfter(runs[..i], heights) && e.size <= size + RunsBytes(runs[..i])
      invariant e.asked == asked + RunEvents(runs[..i], heights)
    {
      RunsSnoc(runs, i, heights);
      DrawRun(e, runs[i]);
      Assoc(asked, RunEvents(runs[..i], heights), [RunEvent(runs[i], HeightOf(e.heights, runs[i].font))]);
      i := i + 1;
    }
    assert runs[..i] == runs;
  }

  method DrawArrow(e: Emf, item: Item)
    requires e.Valid() && e.nextHandle + 2 < STOCK && item.Arrow? && Good(item)
    modifies e
    ensures e.Valid() && e.nextHandle <= old(e.nextHandle) + 2 && e.heights == old(e.heights)
    ensures e.asked == old(e.asked) + BodyEvents(item) && e.size <= old(e.size) + ShapesBytes(item)
  {
    var pen := PenKey(item.color, item.width, item.dashed);
    ghost var penTool, fill := PenTool(Some(pen)), BrushTool(Some(BrushKey(item.color)));
    DrawLine(e, item.points, pen);
    DrawHeads(e, item.heads, BrushKey(item.color), penTool);
    Assoc(old(e.asked), [Drawn(item.points, penTool, BrushTool(None))], HeadEvents(item.heads, penTool, fill));
  }

  method DrawLine(e: Emf, points: Figure, pen: Key)
    requires e.Valid() && e.nextHandle < STOCK && pen.PenKey?
    modifies e`recs, e`size, e`words, e`nextHandle, e`played, e`asked, e`objects, e`heights, e`selected
    ensures e.Valid() && e.nextHandle <= old(e.nextHandle) + 1 && e.heights == old(e.heights)
    ensures ToolIn(e.played, PenSlot) == Some(PenTool(Some(pen)))
    ensures e.asked == old(e.asked) + [Drawn(points, PenTool(Some(pen)), BrushTool(None))] && e.size <= old(e.size) + DrawBytes(points)
  {
    var handle := e.Handle(pen, 0);
    DrawWith(e, points, handle, STOCK_NULL_BRUSH, PenTool(Some(pen)), BrushTool(None));
  }

  method DrawBox(e: Emf, item: Item)
    requires e.Valid() && e.nextHandle + 2 < STOCK && item.Box? && Good(item)
    modifies e
    ensures e.Valid() && e.nextHandle <= old(e.nextHandle) + 2 && e.heights == old(e.heights)
    ensures e.asked == old(e.asked) + BodyEvents(item) && e.size <= old(e.size) + ShapesBytes(item)
  {
    ghost var penTool, brushTool := PenTool(item.pen), BrushTool(item.brush);
    var pen := PenOrNone(e, item.pen);
    ghost var before := e.played;
    var brush := BrushOrNone(e, item.brush);
    GrowthKeeps(before, e.played, PenSlot, pen, penTool);
    DrawBody(e, item, pen, brush);
  }

  /** The paths, or the outline unless there is nothing to draw it with. */
  method DrawBody(e: Emf, item: Item, pen: Word, brush: Word)
    requires e.Valid() && item.Box? && Good(item)
    requires StandsFor(e.played, PenSlot, pen, PenTool(item.pen)) && StandsFor(e.played, BrushSlot, brush, BrushTool(item.brush))
    modifies e`recs, e`size, e`words, e`nextHandle, e`played, e`asked, e`selected
    ensures e.Valid() && e.nextHandle == old(e.nextHandle)
    ensures e.asked == old(e.asked) + BodyEvents(item) && e.size + 2 * OBJECT_BYTES <= old(e.size) + ShapesBytes(item)
  {
    if item.paths.Some? {
      DrawPaths(e, item.paths.value, pen, brush, PenTool(item.pen), BrushTool(item.brush));
    } else if item.pen.Some? || item.brush.Some? {
      DrawWith(e, item.outline, pen, brush, PenTool(item.pen), BrushTool(item.brush));
    }
  }

  method DrawItem(e: Emf, item: Item)
    requires e.Valid() && e.nextHandle + 2 + |RunsOf(item)| < STOCK && Good(item)
    modifies e
    ensures e.Valid() && e.nextHandle <= old(e.nextHandle) + 2 + |RunsOf(item)|
    ensures e.heights == HeightsAfter(RunsOf(item), old(e.heights))
    ensures e.size <= old(e.size) + ShapesBytes(item) + RunsBytes(RunsOf(item))
    ensures e.asked == old(e.asked) + BodyEvents(item) + RunEvents(RunsOf(item), old(e.heights))
  {
    if item.Arrow? {
      DrawArrow(e, item);
    } else {
      DrawBox(e, item);
      DrawRuns(e, item.runs);
    }
  }

  lemma PageSnoc(items: seq<Item>, i: nat)
    requires i < |items| && AllGood(items)
    ensures PageHeights(items[..i + 1]) == HeightsAfter(RunsOf(items[i]), PageHeights(items[..i]))
    ensures PageEvents(items[..i + 1]) ==
            PageEvents(items[..i]) + BodyEvents(items[i]) + RunEvents(RunsOf(items[i]), PageHeights(items[..i]))
    ensures ItemsBytes(items[..i + 1]) == ItemsBytes(items[..i]) + ShapesBytes(items[i]) + RunsBytes(RunsOf(items[i]))
    ensures Demand(items[..i + 1]) == Demand(items[..i]) + 2 + |RunsOf(items[i])|
  {
    assert items[..i + 1][..i] == items[..i];
  }

  lemma {:induction false} DemandGrows(items: seq<Item>, i: nat)
    requires i <= |items|
    ensures Demand(items[..i]) <= Demand(items)
  {
    if i < |items| {
      DemandGrows(items[..|items| - 1], i);
      assert items[..|items| - 1][..i] == items[..i];
    } else {
      assert items[..i] == items;
    }
  }

  method DrawItems(e: Emf, items: seq<Item>)
    requires e.Valid() && AllGood(items) && 1 + Demand(items) < STOCK
    requires e.nextHandle == 1 && e.heights == map[] && e.asked == [] && e.size == SETUP_BYTES
    modifies e
    ensures e.Valid() && e.asked == PageEvents(items) && e.nextHandle <= 1 + Demand(items)
    ensures HEADER_BYTES + e.size + 20 <= PageBytes(items)
  {
    var i := 0;
    while i < |items|
      invariant 0 <= i <= |items| && e.Valid() && e.nextHandle <= 1 + Demand(items[..i])
      invariant e.heights == PageHeights(items[..i]) && e.asked == PageEvents(items[..i])
      invariant e.size <= SETUP_BYTES + ItemsBytes(items[..i])
    {
      PageSnoc(items, i);
      DemandGrows(items, i + 1);
      DrawItem(e, items[i]);
      i := i + 1;
    }
    assert items[..i] == items;
  }

  method SetUp(e: Emf)
    requires e.Valid() && e.nextHandle == 1 && e.heights == map[] && e.asked == [] && e.size == 0
    modifies e`recs, e`size, e`words, e`nextHandle, e`played, e`asked
    ensures e.Valid() && e.nextHandle == 1 && e.asked == [] && e.size == SETUP_BYTES
  {
    e.Setup(EMR_SETMAPMODE, [8]);
    e.Setup(EMR_SETWINDOWORGEX, [0, 0]);
    e.Setup(EMR_SETWINDOWEXTEX, [e.w, e.h]);
    e.Setup(EMR_SETVIEWPORTORGEX, [0, 0]);
    e.Setup(EMR_SETVIEWPORTEXTEX, [e.w, e.h]);
    e.Setup(EMR_SETBKMODE, [1]);
    e.Setup(EMR_SETPOLYFILLMODE, [2]);
  }

  /** One page as a metafile. What comes out is accepted and depicts the page. */
  method PageEmf(w: Extent, h: Extent, items: seq<Item>) returns (data: Result<seq<Byte>, Overflow>)
    requires AllGood(items) && 1 + Demand(items) < STOCK
    ensures data.Ok? ==> Renders(data.value, PageEvents(items), w, h)
    ensures data == Err(TooLong) ==> PageBytes(items) >= WORD
    ensures data == Err(TooManyObjects) ==> Demand(items) >= 65535
    ensures PageBytes(items) < WORD && Demand(items) < 65535 ==> data.Ok?
  {
    var e := new Emf(w, h);
    SetUp(e);
    DrawItems(e, items);
    data := e.Bytes();
    if data.Err? {
      match data.error
      case TooLong => assert data == Err(TooLong);
      case TooManyObjects => assert data == Err(TooManyObjects);
    }
  }
}
