/**
 The metafile writer (`_Emf` and `page_emf` in `vsdxemf.py`): it creates each pen, brush and font once, skips selects and
 text settings that are already in force, and serialises header, records and end record.

 Coordinates and sizes arrive in logical units, already rounded; a colour is its three channels. A font is asked for by
 its size in hundredths of a point (the de-duplication key) and its height in units (what is written).
 */
module EmfWriter {
  import opened Outcomes
  import opened Sequences
  import opened EmfBytes
  import opened EmfValidator
  import opened EmfReplay
  import opened EmfFile

  const EMR_SETWINDOWEXTEX: Word := 9
  const EMR_SETWINDOWORGEX: Word := 10
  const EMR_SETVIEWPORTEXTEX: Word := 11
  const EMR_SETVIEWPORTORGEX: Word := 12
  const EMR_SETMAPMODE: Word := 17
  const EMR_SETBKMODE: Word := 18
  const EMR_SETPOLYFILLMODE: Word := 19

  const PS_GEOMETRIC: Word := 0x00010000
  const PS_USERSTYLE: Word := 7
  const ONE: Word := 0x3F800000        // 1.0 as a 32-bit float
  const OFF_STRING: Word := 76

  type Long = x: int | -0x8000_0000 <= x < 0x8000_0000

  datatype Color = Color(r: Byte, g: Byte, b: Byte)

  /** 0x00BBGGRR */
  function Colorref(c: Color): Word {
    c.r as int + 256 * c.g as int + 65536 * c.b as int
  }

  datatype Key =
    | PenKey(color: Color, width: Word, dashed: bool)
    | BrushKey(color: Color)
    | FontKey(hundredths: int, bold: bool, mono: bool)

  function KindOf(key: Key): (kind: Word)
    ensures Creates(kind)
  {
    match key
    case PenKey(_, _, _) => EMR_EXTCREATEPEN
    case BrushKey(_) => EMR_CREATEBRUSHINDIRECT
    case FontKey(_, _, _) => EMR_EXTCREATEFONTINDIRECTW
  }

  /** "Consolas" or "Segoe UI" in UTF-16, padded to 64 bytes. */
  function Face(mono: bool): (words: seq<Word>)
    ensures |words| == 16
  {
    (if mono then [0x6F0043, 0x73006E, 0x6C006F, 0x730061] else [0x650053, 0x6F0067, 0x200065, 0x490055]) + seq(12, _ => 0)
  }

  /** What follows the handle in the creation record. */
  function Attributes(key: Key, height: Long): (words: seq<Word>)
    ensures |words| <= 23
  {
    match key
    case PenKey(color, width, dashed) =>
      [0, 0, 0, 0, if dashed then PS_GEOMETRIC + PS_USERSTYLE else PS_GEOMETRIC, width, 0, Colorref(color), 0] +
      if dashed then [2, 159, 106] else [0]
    case BrushKey(color) => [0, Colorref(color), 0]
    case FontKey(_, bold, mono) => [Signed(height), 0, 0, 0, if bold then 700 else 400, 0x01000000, 0] + Face(mono)
  }

  function ObjectOf(key: Key, height: Long): Object {
    Object(KindOf(key), Attributes(key, height))
  }

  // ---- text ---------------------------------------------------------------------------

  /** A code point that can be encoded. */
  type CodePoint = c: int | 0 <= c < 0x11_0000 && !(0xD800 <= c < 0xE000)

  predicate Basic(s: seq<CodePoint>) {
    forall i :: 0 <= i < |s| ==> s[i] < 0x1_0000
  }

  type Unit = u: int | 0 <= u < 65536

  function Encode(c: CodePoint): seq<Unit> {
    if c < 0x1_0000 then [c] else [0xD800 + (c - 0x1_0000) / 0x400, 0xDC00 + (c - 0x1_0000) % 0x400]
  }

  function Utf16(s: seq<CodePoint>): (units: seq<Unit>)
    ensures |s| <= |units| <= 2 * |s|
  {
    if s == [] then [] else Encode(s[0]) + Utf16(s[1..])
  }

  function UnitBytes(units: seq<Unit>): (bytes: seq<Byte>)
    ensures |bytes| == 2 * |units|
  {
    if units == [] then [] else [units[0] % 256, units[0] / 256] + UnitBytes(units[1..])
  }

  /** Two units to a word, the last one padded. */
  function UnitWords(units: seq<Unit>): (words: seq<Word>)
    ensures |words| <= |units|
    ensures 2 * |words| >= |units|
  {
    if units == [] then []
    else if |units| == 1 then [units[0] as int]
    else [units[0] as int + 65536 * units[1] as int] + UnitWords(units[2..])
  }

  /** The string a reader of nChars = len(s) units gets back. */
  function Shown(s: seq<CodePoint>): seq<Unit> {
    Utf16(s)[..|s|]
  }

  lemma {:induction false} UnitsComeBack(units: seq<Unit>)
    ensures |units| <= |Units(UnitWords(units))| && Units(UnitWords(units))[..|units|] == units
  {
    if |units| > 1 {
      UnitsComeBack(units[2..]);
      assert units == [units[0], units[1]] + units[2..];
    }
  }

  /** The text record counts code points, the string holds UTF-16 units: it is shown whole exactly when the two agree. */
  lemma {:induction false} ShownWholeIffBasic(s: seq<CodePoint>)
    ensures Shown(s) == Utf16(s) <==> Basic(s)
  {
    UnitsExceed(s);
  }

  lemma {:induction false} UnitsExceed(s: seq<CodePoint>)
    ensures |Utf16(s)| == |s| <==> Basic(s)
  {
    if s != [] {
      UnitsExceed(s[1..]);
      if Basic(s[1..]) && s[0] < 0x1_0000 {
        assert forall i :: 0 <= i < |s| ==> s[i] == if i == 0 then s[0] else s[1..][i - 1];
      }
      if Basic(s) {
        assert forall i :: 0 <= i < |s[1..]| ==> s[1..][i] == s[i + 1];
      }
    }
  }

  lemma UnitsPad(units: seq<Unit>)
    ensures UnitBytes(units) + Padding(2 * |units|) == PackWords(UnitWords(units))
  {
    PadOfUnits(|units|);
    UnitsPadTo(units, Padding(2 * |units|));
  }

  lemma PadOfUnits(n: nat)
    ensures Padding(2 * n) == if n % 2 == 0 then [] else [0, 0]
  {
    assert n == 2 * (n / 2) + n % 2;
    assert 2 * n == 4 * (n / 2) + 2 * (n % 2);
  }

  lemma {:induction false} UnitsPadTo(units: seq<Unit>, pad: seq<Byte>)
    requires pad == if |units| % 2 == 0 then [] else [0, 0]
    ensures UnitBytes(units) + pad == PackWords(UnitWords(units))
  {
    if units == [] {
      assert [] + pad == [];
    } else if |units| == 1 {
      assert units == [units[0]];
      PadLast(units[0]);
    } else {
      var a, b, rest := units[0], units[1], units[2..];
      assert units == [a, b] + rest;
      UnitsPadTo(rest, pad);
      PadPair(a, b, rest, pad);
    }
  }

  lemma PadPair(a: Unit, b: Unit, rest: seq<Unit>, pad: seq<Byte>)
    requires UnitBytes(rest) + pad == PackWords(UnitWords(rest))
    ensures UnitBytes([a, b] + rest) + pad == PackWords(UnitWords([a, b] + rest))
  {
    var w: Word := a as int + 65536 * b as int;
    PackPair(a, b, rest, w);
    Assoc(PackWord(w), UnitBytes(rest), pad);
  }

  lemma PadLast(u: Unit)
    ensures UnitBytes([u]) + [0, 0] == PackWords(UnitWords([u]))
  {
    var w: Word := u as int;
    assert PackWord(w) == [u % 256, u / 256, 0, 0];
    assert [w][1..] == [] && [u][1..] == [];
  }

  lemma PairBytes(a: Unit, b: Unit, w: Word)
    requires w == a as int + 65536 * b as int
    ensures PackWord(w) == [a % 256, a / 256, b % 256, b / 256]
  {
    LowHalf(a, b, w);
    HighHalf(a, b, w);
  }

  lemma LowHalf(a: Unit, b: Unit, w: Word)
    requires w == a as int + 65536 * b as int
    ensures w % 256 == a % 256 && w / 256 % 256 == a / 256
  {
    var q, r: int := a / 256, a % 256;
    assert w == 256 * (q + 256 * b) + r;
    assert w / 256 == q + 256 * b;
  }

  lemma HighHalf(a: Unit, b: Unit, w: Word)
    requires w == a as int + 65536 * b as int
    ensures w / 65536 % 256 == b % 256 && w / 16777216 == b / 256
  {
    var q, r: int := b / 256, b % 256;
    assert w / 65536 == b;
    assert w == 16777216 * q + (65536 * r + a);
  }

  lemma PackPair(a: Unit, b: Unit, rest: seq<Unit>, w: Word)
    requires w == a as int + 65536 * b as int
    ensures UnitBytes([a, b] + rest) == PackWord(w) + UnitBytes(rest)
    ensures UnitWords([a, b] + rest) == [w] + UnitWords(rest)
    ensures PackWords([w] + UnitWords(rest)) == PackWord(w) + PackWords(UnitWords(rest))
  {
    var units := [a, b] + rest;
    PairBytes(a, b, w);
    assert units[1..][1..] == rest && units[2..] == rest;
    assert ([w] + UnitWords(rest))[1..] == UnitWords(rest);
  }

  /** The words of a text record after its type and size. */
  function TextWords(x: Long, y: Long, s: seq<CodePoint>): (words: seq<Word>)
    requires |s| < 0x100_0000
  {
    TextFrame(x, y, |s|) + UnitWords(Utf16(s))
  }

  function TextFrame(x: Long, y: Long, count: nat): (words: seq<Word>)
    requires count < 0x100_0000
    ensures |words| == 17
    ensures words[7] == Signed(x) && words[8] == Signed(y) && words[9] == count && words[10] == OFF_STRING
  {
    [0, 0, Signed(-1), Signed(-1), 1, ONE, ONE, Signed(x), Signed(y), count, OFF_STRING, 0, 0, 0, 0, 0, 0]
  }

  /** The bytes the source builds, padded, are those words. */
  lemma TextRecordIsWords(x: Long, y: Long, s: seq<CodePoint>)
    requires |s| < 0x100_0000
    ensures Record(EMR_EXTTEXTOUTW, PackWords(TextFrame(x, y, |s|)) + UnitBytes(Utf16(s))) ==
            PackWords(RecordWords(EMR_EXTTEXTOUTW, TextWords(x, y, s)))
  {
    StringRecordIsWords(EMR_EXTTEXTOUTW, TextFrame(x, y, |s|), Utf16(s));
  }

  lemma StringRecordIsWords(kind: Word, frame: seq<Word>, units: seq<Unit>)
    requires |frame| == 17 && |units| < 0x400_0000
    ensures Record(kind, PackWords(frame) + UnitBytes(units)) == PackWords(RecordWords(kind, frame + UnitWords(units)))
  {
    var payload := PackWords(frame) + UnitBytes(units);
    PaddedString(frame, units);
    PaddedRecord(kind, payload, frame + UnitWords(units));
  }

  lemma PaddedString(frame: seq<Word>, units: seq<Unit>)
    requires |frame| == 17
    ensures var payload := PackWords(frame) + UnitBytes(units);
            payload + Padding(|payload|) == PackWords(frame + UnitWords(units))
  {
    UnitsPad(units);
    PackConcat(frame, UnitWords(units));
    PadOffset(2 * |units|);
    var head, bytes, pad := PackWords(frame), UnitBytes(units), Padding(2 * |units|);
    assert (head + bytes) + pad == head + (bytes + pad);
  }

  lemma PaddedRecord(kind: Word, payload: seq<Byte>, words: seq<Word>)
    requires |payload| < 0x4000_0000 && |words| < 0x1000_0000
    requires payload + Padding(|payload|) == PackWords(words)
    ensures Record(kind, payload) == PackWords(RecordWords(kind, words))
  {
    var padded, size: Word := PackWords(words), 8 + 4 * |words|;
    RecordHolds(kind, payload, padded, size);
    FrameHolds(kind, size, padded, words);
  }

  lemma RecordHolds(kind: Word, payload: seq<Byte>, padded: seq<Byte>, size: Word)
    requires |padded| < 0x8000_0000 && padded == payload + Padding(|payload|) && size == 8 + |padded|
    ensures |payload| < 0x8000_0000 && Record(kind, payload) == PackWords([kind, size]) + padded
  {
  }

  lemma FrameHolds(kind: Word, size: Word, padded: seq<Byte>, words: seq<Word>)
    requires |words| < 0x1000_0000 && padded == PackWords(words) && size == 8 + 4 * |words|
    ensures PackWords([kind, size]) + padded == PackWords(RecordWords(kind, words))
  {
    FramePacks(kind, size, padded, words);
  }

  lemma PadOffset(n: nat)
    ensures Padding(68 + n) == Padding(n)
  {
  }

  // ---- geometry ---------------------------------------------------------------------------

  datatype Geometry =
    | Rect(x0: Long, y0: Long, x1: Long, y1: Long)
    | RoundRect(x0: Long, y0: Long, x1: Long, y1: Long, rx: Long, ry: Long)
    | Ellipse(x0: Long, y0: Long, x1: Long, y1: Long)
    | Poly(points: seq<(Long, Long)>, closed: bool)

  predicate Drawable(g: Geometry) {
    g.Poly? ==> 0 < |g.points| < 0x100_0000
  }

  type Figure = g: Geometry | Drawable(g) witness Rect(0, 0, 0, 0)

  function GeometryKind(g: Geometry): Word {
    match g
    case Rect(_, _, _, _) => EMR_RECTANGLE
    case RoundRect(_, _, _, _, _, _) => EMR_ROUNDRECT
    case Ellipse(_, _, _, _) => EMR_ELLIPSE
    case Poly(_, closed) => if closed then EMR_POLYGON else EMR_POLYLINE
  }

  function Least(xs: seq<Long>): (m: Long)
    requires xs != []
    ensures m in xs && forall x :: x in xs ==> m <= x
  {
    if |xs| == 1 then xs[0]
    else
      assert xs == [xs[0]] + xs[1..];
      var rest := Least(xs[1..]);
      if xs[0] <= rest then xs[0] else rest
  }

  function Greatest(xs: seq<Long>): (m: Long)
    requires xs != []
    ensures m in xs && forall x :: x in xs ==> x <= m
  {
    if |xs| == 1 then xs[0]
    else
      assert xs == [xs[0]] + xs[1..];
      var rest := Greatest(xs[1..]);
      if xs[0] >= rest then xs[0] else rest
  }

  function PointWords(points: seq<(Long, Long)>): (words: seq<Word>)
    ensures |words| == 2 * |points|
  {
    if points == [] then [] else [Signed(points[0].0), Signed(points[0].1)] + PointWords(points[1..])
  }

  function Xs(points: seq<(Long, Long)>): (xs: seq<Long>)
    ensures |xs| == |points|
  {
    seq(|points|, i requires 0 <= i < |points| => points[i].0)
  }

  function Ys(points: seq<(Long, Long)>): (ys: seq<Long>)
    ensures |ys| == |points|
  {
    seq(|points|, i requires 0 <= i < |points| => points[i].1)
  }

  /** The smallest rectangle over the points. */
  function Bounds(xs: seq<Long>, ys: seq<Long>): (words: seq<Word>)
    requires xs != [] && ys != []
    ensures |words| == 4
  {
    [Signed(Least(xs)), Signed(Least(ys)), Signed(Greatest(xs)), Signed(Greatest(ys))]
  }

  function GeometryWords(g: Geometry): (words: seq<Word>)
    requires Drawable(g)
    ensures 0 < |words| < 0x200_0010
  {
    match g
    case Rect(x0, y0, x1, y1) => [Signed(x0), Signed(y0), Signed(x1), Signed(y1)]
    case RoundRect(x0, y0, x1, y1, rx, ry) => [Signed(x0), Signed(y0), Signed(x1), Signed(y1), Signed(rx), Signed(ry)]
    case Ellipse(x0, y0, x1, y1) => [Signed(x0), Signed(y0), Signed(x1), Signed(y1)]
    case Poly(points, _) =>
      Bounds(Xs(points), Ys(points)) + [|points|] + PointWords(points)
  }

  // ---- what a reader gets back ----------------------------------------------------------------

  function Unsigned(w: Word): Long {
    if w >= 0x8000_0000 then w - WORD else w
  }

  lemma SignedRoundTrips(x: Long)
    ensures Unsigned(Signed(x)) == x
  {
  }

  function ReadPoints(words: seq<Word>): seq<(Long, Long)> {
    if |words| < 2 then [] else [(Unsigned(words[0]), Unsigned(words[1]))] + ReadPoints(words[2..])
  }

  /** A drawing record's payload, read at the offsets MS-EMF gives (section 2.3.5). */
  function ReadGeometry(kind: Word, words: seq<Word>): Option<Geometry> {
    if kind == EMR_RECTANGLE && |words| == 4 then
      Some(Rect(Unsigned(words[0]), Unsigned(words[1]), Unsigned(words[2]), Unsigned(words[3])))
    else if kind == EMR_ROUNDRECT && |words| == 6 then
      Some(RoundRect(Unsigned(words[0]), Unsigned(words[1]), Unsigned(words[2]), Unsigned(words[3]),
                     Unsigned(words[4]), Unsigned(words[5])))
    else if kind == EMR_ELLIPSE && |words| == 4 then
      Some(Ellipse(Unsigned(words[0]), Unsigned(words[1]), Unsigned(words[2]), Unsigned(words[3])))
    else if (kind == EMR_POLYGON || kind == EMR_POLYLINE) && |words| >= 5 && |words| == 5 + 2 * (words[4] as int) then
      Some(Poly(ReadPoints(words[5..]), kind == EMR_POLYGON))
    else None
  }

  lemma {:induction false} PointsRoundTrip(points: seq<(Long, Long)>)
    ensures ReadPoints(PointWords(points)) == points
  {
    if points != [] {
      PointsRoundTrip(points[1..]);
      assert PointWords(points)[2..] == PointWords(points[1..]);
      assert points == [points[0]] + points[1..];
    }
  }

  /** Every shape is read back as it was drawn. */
  lemma GeometryRoundTrips(g: Geometry)
    requires Drawable(g)
    ensures ReadGeometry(GeometryKind(g), GeometryWords(g)) == Some(g)
  {
    if g.Poly? {
      assert GeometryWords(g)[5..] == PointWords(g.points);
      PointsRoundTrip(g.points);
    }
  }

  function ReadColor(w: Word): Color {
    Color(w % 256, w / 256 % 256, w / 65536 % 256)
  }

  lemma ColorRoundTrips(c: Color)
    ensures ReadColor(Colorref(c)) == c
  {
    var w, rest: int := Colorref(c), c.g + 256 * c.b as int;
    assert w == 256 * rest + c.r;
    assert w / 256 == rest && rest / 256 == c.b;
    assert w / 65536 == w / 256 / 256;
  }

  /** An object's attributes, read at the offsets MS-EMF gives (section 2.3.7): its key and height. */
  function ReadObject(o: Object): Option<(Key, Long)> {
    if o.kind == EMR_EXTCREATEPEN && |o.attributes| >= 10 then
      Some((PenKey(ReadColor(o.attributes[7]), o.attributes[5], o.attributes[4] % 16 == PS_USERSTYLE), 0))
    else if o.kind == EMR_CREATEBRUSHINDIRECT && |o.attributes| == 3 then
      Some((BrushKey(ReadColor(o.attributes[1])), 0))
    else if o.kind == EMR_EXTCREATEFONTINDIRECTW && |o.attributes| == 23 then
      Some((FontKey(0, o.attributes[4] == 700, o.attributes[7] == 0x6F0043), Unsigned(o.attributes[0])))
    else None
  }

  /** Every pen and brush is read back as its key, every font as its height, weight and face. */
  lemma ObjectRoundTrips(key: Key, height: Long)
    ensures ReadObject(ObjectOf(key, height)) ==
            Some(if key.FontKey? then (FontKey(0, key.bold, key.mono), height) else (key, 0))
  {
    if key.PenKey? || key.BrushKey? {
      ColorRoundTrips(key.color);
    } else {
      SignedRoundTrips(height);
    }
  }

  // ---- what the writer keeps -------------------------------------------------------------

  /** What a handle stands for in a consumer's table. */
  ghost predicate StandsFor(s: State, slot: Slot, handle: Word, tool: Tool) {
    if handle < STOCK then handle in s.objects && tool == Made(s.objects[handle]) && slot == SlotOf(s.objects[handle].kind)
    else tool == Stock(handle) && ((slot == PenSlot && handle == STOCK_NULL_PEN) || (slot == BrushSlot && handle == STOCK_NULL_BRUSH))
  }

  /** The height a font key was first asked for with; other keys have none. */
  function HeightOf(heights: map<Key, Long>, key: Key): Long {
    if key in heights then heights[key] else 0
  }

  function FirstHeight(heights: map<Key, Long>, key: Key, height: Long): map<Key, Long> {
    if key.FontKey? && key !in heights then heights[key := height] else heights
  }

  /** Every known key has its handle, and the consumer's table holds that object under it. */
  ghost predicate ObjectsSound(objects: map<Key, Word>, heights: map<Key, Long>, next: nat, s: State) {
    && (forall key :: key in heights <==> key in objects && key.FontKey?)
    && (forall key :: key in objects ==>
          objects[key] < next && objects[key] in s.objects && s.objects[objects[key]] == ObjectOf(key, HeightOf(heights, key)))
    && (forall handle :: handle in s.objects ==> handle < next)
  }

  /** New objects, and nothing else: every handle stands for what it did. */
  ghost predicate Grows(s: State, t: State) {
    && t.tools == s.tools && t.textColor == s.textColor && t.textAlign == s.textAlign
    && forall handle :: handle in s.objects ==> handle in t.objects && t.objects[handle] == s.objects[handle]
  }

  /** What the caches say is in force is in force. */
  ghost predicate CachesSound(selected: map<Slot, Word>, color: Option<Color>, align: Option<Word>, s: State) {
    && (forall slot :: slot in selected ==> slot in s.tools && StandsFor(s, slot, selected[slot], s.tools[slot]))
    && (color.Some? ==> s.textColor == Some(Colorref(color.value)))
    && (align.Some? ==> s.textAlign == align)
  }

  /** A new object under a fresh handle disturbs nothing. */
  lemma NewObjectKeeps(objects: map<Key, Word>, heights: map<Key, Long>, next: Word, s: State, key: Key, height: Long)
    requires ObjectsSound(objects, heights, next, s) && key !in objects
    ensures var t := WithObject(s, next, key, height);
            && ObjectsSound(objects[key := next], FirstHeight(heights, key, height), next + 1, t)
            && Grows(s, t)
  {
    assert next !in s.objects;
    ObjectsKeep(objects, heights, next, s, key, height);
  }

  lemma ObjectsKeep(objects: map<Key, Word>, heights: map<Key, Long>, next: Word, s: State, key: Key, height: Long)
    requires ObjectsSound(objects, heights, next, s) && key !in objects
    ensures ObjectsSound(objects[key := next], FirstHeight(heights, key, height), next + 1, WithObject(s, next, key, height))
  {
    forall k | k in objects {
      HandlesKeep(objects, heights, next, s, key, height, k);
    }
    assert key !in heights;
  }

  /** Handles already given keep their objects, and the new one has its own. */
  lemma HandlesKeep(objects: map<Key, Word>, heights: map<Key, Long>, next: Word, s: State, key: Key, height: Long, k: Key)
    requires ObjectsSound(objects, heights, next, s) && key !in objects && k in objects
    ensures var t := WithObject(s, next, key, height);
            objects[k] in t.objects && t.objects[objects[k]] == ObjectOf(k, HeightOf(FirstHeight(heights, key, height), k))
  {
    assert objects[k] != next && k != key;
  }

  lemma GrowthKeepsCaches(selected: map<Slot, Word>, color: Option<Color>, align: Option<Word>, s: State, t: State)
    requires CachesSound(selected, color, align, s) && Grows(s, t)
    ensures CachesSound(selected, color, align, t)
  {
    forall slot | slot in selected ensures StandsFor(t, slot, selected[slot], t.tools[slot]) {
      assert StandsFor(s, slot, selected[slot], s.tools[slot]);
    }
  }

  lemma SelectEffect(s: State, slot: Slot, handle: Word, tool: Tool)
    requires StandsFor(s, slot, handle, tool)
    ensures Does(s, EMR_SELECTOBJECT, [handle], s.(tools := s.tools[slot := tool]), [])
  {
  }

  lemma AlreadySelected(selected: map<Slot, Word>, color: Option<Color>, align: Option<Word>, s: State, slot: Slot, handle: Word, tool: Tool)
    requires CachesSound(selected, color, align, s) && StandsFor(s, slot, handle, tool)
    requires slot in selected && selected[slot] == handle
    ensures s == s.(tools := s.tools[slot := tool])
  {
    assert s.tools[slot] == tool;
  }

  lemma SelectKeeps(selected: map<Slot, Word>, color: Option<Color>, align: Option<Word>, s: State, slot: Slot, handle: Word, tool: Tool)
    requires CachesSound(selected, color, align, s) && StandsFor(s, slot, handle, tool)
    ensures CachesSound(selected[slot := handle], color, align, s.(tools := s.tools[slot := tool]))
  {
  }

  /** What `struct.pack` refuses in the header. */
  datatype Overflow = TooLong | TooManyObjects

  /** The bytes of a record with this payload. */
  function RecordBytes(payload: seq<Word>): nat {
    8 + 4 * |payload|
  }

  /** No creation record is longer. */
  const OBJECT_BYTES: nat := 104

  function WithObject(s: State, handle: Word, key: Key, height: Long): State {
    s.(objects := s.objects[handle := ObjectOf(key, height)])
  }

  lemma OneMore(recs: seq<seq<Byte>>, record: seq<Byte>, kind: Word, payload: seq<Word>)
    requires |payload| < 0x1000_0000 && record == PackWords(RecordWords(kind, payload))
    ensures |Concat(recs + [record])| == |Concat(recs)| + RecordBytes(payload)
  {
    Snoc(recs, record);
  }

  class Emf {
    const w: Extent
    const h: Extent
    var recs: seq<seq<Byte>>
    var objects: map<Key, Word>
    var nextHandle: nat
    var selected: map<Slot, Word>
    var textAlign: Option<Word>
    var textColor: Option<Color>
    ghost var size: nat
    ghost var words: seq<Framed>
    ghost var played: State
    ghost var asked: seq<Event>
    ghost var heights: map<Key, Long>

    /** The records so far are packed words in order, and a consumer reading them has drawn `asked`. */
    ghost predicate Written()
      reads this`recs, this`size, this`words, this`nextHandle, this`played, this`asked
    {
      && Packed(recs, words) && BodyOk(words) && Plays(words, played, asked)
      && 1 <= nextHandle && TopWords(words) == nextHandle - 1 && size == |Concat(recs)|
    }

    ghost predicate Valid()
      reads this
    {
      && Written()
      && ObjectsSound(objects, heights, nextHandle, played)
      && CachesSound(selected, textColor, textAlign, played)
    }

    constructor (w: Extent, h: Extent)
      ensures Valid() && this.w == w && this.h == h && asked == [] && nextHandle == 1 && size == 0 && heights == map[]
    {
      this.w, this.h := w, h;
      recs, objects, nextHandle, selected, textAlign, textColor := [], map[], 1, map[], None, None;
      size, words, played, asked, heights := 0, [], EMPTY, [], map[];
    }

    /** Append one record; `payload` is what its bytes are as words. */
    method Append(kind: Word, bytes: seq<Byte>, ghost payload: seq<Word>, ghost after: State, ghost events: seq<Event>)
      requires Written() && MayFollow(kind, payload, nextHandle - 1) && Does(played, kind, payload, after, events)
      requires |bytes| < 0x8000_0000 && Record(kind, bytes) == PackWords(RecordWords(kind, payload))
      modifies this`recs, this`size, this`words, this`nextHandle, this`played, this`asked
      ensures Written()
      ensures nextHandle == if Creates(kind) then old(nextHandle) + 1 else old(nextHandle)
      ensures played == after && asked == old(asked) + events && size == old(size) + RecordBytes(payload)
    {
      Extend(words, kind, payload, played, asked, after, events);
      OneMore(recs, Record(kind, bytes), kind, payload);
      size := size + RecordBytes(payload);
      recs, words := recs + [Record(kind, bytes)], words + [FrameOf(kind, payload)];
      played, asked := after, asked + events;
      if Creates(kind) {
        nextHandle := nextHandle + 1;
      }
    }

    /** Append a record whose payload is whole words. */
    method Put(kind: Word, payload: seq<Word>, ghost after: State, ghost events: seq<Event>)
      requires Written() && MayFollow(kind, payload, nextHandle - 1) && Does(played, kind, payload, after, events)
      modifies this`recs, this`size, this`words, this`nextHandle, this`played, this`asked
      ensures Written()
      ensures nextHandle == if Creates(kind) then old(nextHandle) + 1 else old(nextHandle)
      ensures played == after && asked == old(asked) + events && size == old(size) + RecordBytes(payload)
    {
      RecordIsWords(kind, payload);
      Append(kind, PackWords(payload), payload, after, events);
    }

    /** A record that sets up the page: no handles, no state the caches track, no drawing. */
    method Setup(kind: Word, payload: seq<Word>)
      requires Valid() && 0 < |payload| < 100
      requires EMR_SETWINDOWEXTEX <= kind <= EMR_SETVIEWPORTORGEX || EMR_SETMAPMODE <= kind <= EMR_SETPOLYFILLMODE
      modifies this`recs, this`size, this`words, this`nextHandle, this`played, this`asked
      ensures Valid() && played == old(played) && asked == old(asked) && nextHandle == old(nextHandle)
      ensures size == old(size) + RecordBytes(payload)
    {
      Put(kind, payload, played, []);
    }

    /** The handle for a key: made once, then reused. */
    method Handle(key: Key, height: Long) returns (handle: Word)
      requires Valid() && nextHandle < STOCK
      modifies this`recs, this`size, this`words, this`nextHandle, this`played, this`asked, this`objects, this`heights
      ensures Valid() && asked == old(asked) && Grows(old(played), played) && size <= old(size) + OBJECT_BYTES
      ensures nextHandle == (if key in old(objects) then old(nextHandle) else old(nextHandle) + 1) && key in objects
      ensures heights == FirstHeight(old(heights), key, height)
      ensures StandsFor(played, SlotOf(KindOf(key)), handle, Made(ObjectOf(key, HeightOf(heights, key))))
    {
      if key in objects {
        handle := objects[key];
      } else {
        NewObjectKeeps(objects, heights, nextHandle, played, key, height);
        handle := Make(key, height);
      }
    }

    method Make(key: Key, height: Long) returns (handle: Word)
      requires Valid() && nextHandle < STOCK && key !in objects
      modifies this`recs, this`size, this`words, this`nextHandle, this`played, this`asked, this`objects, this`heights
      ensures Valid() && nextHandle == old(nextHandle) + 1 && asked == old(asked) && handle == old(nextHandle)
      ensures heights == FirstHeight(old(heights), key, height) && key in objects && objects[key] == handle
      ensures played == WithObject(old(played), handle, key, height) && size <= old(size) + OBJECT_BYTES
    {
      handle := nextHandle;
      NewObjectKeeps(objects, heights, handle, played, key, height);
      GrowthKeepsCaches(selected, textColor, textAlign, played, WithObject(played, handle, key, height));
      objects := objects[key := handle];
      heights := FirstHeight(heights, key, height);
      Create(key, height);
    }

    /** The creation record under the next handle. */
    method Create(key: Key, height: Long)
      requires Written() && nextHandle < STOCK
      modifies this`recs, this`size, this`words, this`nextHandle, this`played, this`asked
      ensures Written() && nextHandle == old(nextHandle) + 1 && asked == old(asked) && size <= old(size) + OBJECT_BYTES
      ensures played == WithObject(old(played), old(nextHandle), key, height)
    {
      CreateEffect(played, key, height, nextHandle);
      Put(KindOf(key), [nextHandle] + Attributes(key, height), WithObject(played, nextHandle, key, height), []);
    }

    /** Select a tool, unless the cache says it is already selected. */
    method SelectTool(slot: Slot, handle: Word, ghost tool: Tool)
      requires Valid() && StandsFor(played, slot, handle, tool)
      modifies this`recs, this`size, this`words, this`nextHandle, this`played, this`asked, this`selected
      ensures Valid() && nextHandle == old(nextHandle) && asked == old(asked) && size <= old(size) + 12
      ensures played == old(played).(tools := old(played).tools[slot := tool])
    {
      if slot in selected && selected[slot] == handle {
        AlreadySelected(selected, textColor, textAlign, played, slot, handle, tool);
      } else {
        WriteSelect(slot, handle, tool);
      }
    }

    method WriteSelect(slot: Slot, handle: Word, ghost tool: Tool)
      requires Valid() && StandsFor(played, slot, handle, tool)
      modifies this`recs, this`size, this`words, this`nextHandle, this`played, this`asked, this`selected
      ensures Valid() && nextHandle == old(nextHandle) && asked == old(asked) && size <= old(size) + 12
      ensures played == old(played).(tools := old(played).tools[slot := tool])
    {
      SelectEffect(played, slot, handle, tool);
      SelectKeeps(selected, textColor, textAlign, played, slot, handle, tool);
      selected := selected[slot := handle];
      Put(EMR_SELECTOBJECT, [handle], played.(tools := played.tools[slot := tool]), []);
    }

    /** Set text colour and alignment, skipping what is in force. */
    method SetText(color: Color, align: Word)
      requires Valid()
      modifies this`recs, this`size, this`words, this`nextHandle, this`played, this`asked, this`textColor, this`textAlign
      ensures Valid() && nextHandle == old(nextHandle) && asked == old(asked) && size <= old(size) + 24
      ensures played == old(played).(textColor := Some(Colorref(color)), textAlign := Some(align))
    {
      SetColor(color);
      if textAlign != Some(align) {
        textAlign := Some(align);
        Put(EMR_SETTEXTALIGN, [align], played.(textAlign := Some(align)), []);
      }
    }

    method SetColor(color: Color)
      requires Valid()
      modifies this`recs, this`size, this`words, this`nextHandle, this`played, this`asked, this`textColor
      ensures Valid() && nextHandle == old(nextHandle) && asked == old(asked) && size <= old(size) + 12
      ensures played == old(played).(textColor := Some(Colorref(color)))
    {
      if textColor != Some(color) {
        textColor := Some(color);
        Put(EMR_SETTEXTCOLOR, [Colorref(color)], played.(textColor := Some(Colorref(color))), []);
      }
    }

    method DrawShape(g: Geometry)
      requires Valid() && Drawable(g)
      modifies this`recs, this`size, this`words, this`nextHandle, this`played, this`asked
      ensures Valid() && nextHandle == old(nextHandle) && played == old(played)
      ensures asked == old(asked) + [ShapeIn(played, g)] && size == old(size) + RecordBytes(GeometryWords(g))
    {
      ShapeEffect(played, g);
      Put(GeometryKind(g), GeometryWords(g), played, [ShapeIn(played, g)]);
    }

    method DrawText(x: Long, y: Long, s: seq<CodePoint>)
      requires Valid() && |s| < 0x100_0000
      modifies this`recs, this`size, this`words, this`nextHandle, this`played, this`asked
      ensures Valid() && nextHandle == old(nextHandle) && played == old(played)
      ensures asked == old(asked) + [TextIn(played, x, y, s)] && size == old(size) + RecordBytes(TextWords(x, y, s))
    {
      TextRecordIsWords(x, y, s);
      TextEffect(played, x, y, s);
      Append(EMR_EXTTEXTOUTW, PackWords(TextFrame(x, y, |s|)) + UnitBytes(Utf16(s)), TextWords(x, y, s),
             played, [TextIn(played, x, y, s)]);
    }

    /** Serialise: header, body, end record; an error where packing a header field would raise. */
    method Bytes() returns (data: Result<seq<Byte>, Overflow>)
      requires Valid()
      ensures data == Err(TooLong) <==> HEADER_BYTES + size + 20 >= WORD
      ensures data == Err(TooManyObjects) <==> HEADER_BYTES + size + 20 < WORD && nextHandle >= 65536
      ensures data.Ok? ==> Renders(data.value, asked, w, h)
    {
      if HEADER_BYTES + |Concat(recs)| + 20 >= WORD {
        return Err(TooLong);
      }
      if nextHandle >= 65536 {
        return Err(TooManyObjects);
      }
      EnoughBytes(recs, words);
      Serialises(recs, words, w, h, nextHandle);
      return Ok(FileBytes(recs, w, h, nextHandle));
    }
  }

  lemma CreateEffect(s: State, key: Key, height: Long, handle: Word)
    ensures Does(s, KindOf(key), [handle] + Attributes(key, height), WithObject(s, handle, key, height), [])
  {
    assert FrameOf(KindOf(key), [handle] + Attributes(key, height))[3..] == Attributes(key, height);
  }

  /** The drawing call a consumer makes in state `s`. */
  function ShapeIn(s: State, g: Geometry): Event
    requires Drawable(g)
  {
    Shape(GeometryKind(g), GeometryWords(g), ToolIn(s, PenSlot), ToolIn(s, BrushSlot))
  }

  function TextIn(s: State, x: Long, y: Long, text: seq<CodePoint>): Event {
    Text([Signed(x), Signed(y)], Shown(text), ToolIn(s, FontSlot), s.textColor, s.textAlign)
  }

  lemma ShapeEffect(s: State, g: Geometry)
    requires Drawable(g)
    ensures Does(s, GeometryKind(g), GeometryWords(g), s, [ShapeIn(s, g)])
  {
    assert FrameOf(GeometryKind(g), GeometryWords(g))[2..] == GeometryWords(g);
  }

  /** A text record's string starts at its offset and its first nChars units are read back. */
  lemma StringReads(frame: seq<Word>, units: seq<Unit>, count: nat)
    requires |frame| == 17 && frame[10] == OFF_STRING && frame[9] == count <= |units| < 0x400_0000
    ensures var record := FrameOf(EMR_EXTTEXTOUTW, frame + UnitWords(units));
            |record| >= 19 && record[9..11] == [frame[7], frame[8]] && TextUnits(record) == units[..count]
  {
    var record := FrameOf(EMR_EXTTEXTOUTW, frame + UnitWords(units));
    StringAt(frame, UnitWords(units));
    UnitsComeBack(units);
    assert Units(UnitWords(units))[..count] == units[..count];
  }

  lemma StringAt(frame: seq<Word>, text: seq<Word>)
    requires |frame| == 17 && |text| < 0x400_0000
    ensures var record := FrameOf(EMR_EXTTEXTOUTW, frame + text);
            && |record| == 19 + |text| && record[9..11] == [frame[7], frame[8]]
            && record[11] == frame[9] && record[12] == frame[10] && record[19..] == text
  {
    var payload := frame + text;
    assert FrameOf(EMR_EXTTEXTOUTW, payload)[2..] == payload;
  }

  lemma TextEffect(s: State, x: Long, y: Long, text: seq<CodePoint>)
    requires |text| < 0x100_0000
    ensures 0 < |TextWords(x, y, text)| < 0x800_0000
    ensures Does(s, EMR_EXTTEXTOUTW, TextWords(x, y, text), s, [TextIn(s, x, y, text)])
  {
    StringReads(TextFrame(x, y, |text|), Utf16(text), |text|);
  }

  /** The end record as it is built. */
  function EofRecord(): (record: seq<Byte>)
    ensures record == PackWords(EOF_WORDS) && |record| == 20
  {
    var payload: seq<Word> := [0, 16, 20];
    RecordIsWords(EMR_EOF, payload);
    Record(EMR_EOF, PackWords(payload))
  }

  lemma PackedWhole(recs: seq<seq<Byte>>, words: seq<Framed>, header: Framed, last: Framed)
    requires Packed(recs, words)
    ensures Packed([PackWords(header)] + recs + [PackWords(last)], [header] + words + [last])
  {
  }

  /** Header, body and end record. */
  function FileBytes(recs: seq<seq<Byte>>, w: Extent, h: Extent, handles: Word): seq<Byte>
    requires HEADER_BYTES + |Concat(recs)| + 20 < WORD && |recs| + 2 < WORD
  {
    PackWords(HeaderWords(w, h, HEADER_BYTES + |Concat(recs)| + 20, |recs| + 2, handles)) + Concat(recs) + EofRecord()
  }

  lemma Serialises(recs: seq<seq<Byte>>, words: seq<Framed>, w: Extent, h: Extent, handles: Word)
    requires Packed(recs, words) && BodyOk(words) && TopWords(words) < handles < 65536
    requires HEADER_BYTES + |Concat(recs)| + 20 < WORD && |recs| + 2 < WORD
    ensures Renders(FileBytes(recs, w, h, handles), PlayAll(words).1, w, h)
  {
    var total: Word := HEADER_BYTES + |Concat(recs)| + 20;
    SerialisesWith(recs, words, w, h, total, handles, HeaderWords(w, h, total, |recs| + 2, handles));
  }

  lemma SerialisesWith(recs: seq<seq<Byte>>, words: seq<Framed>, w: Extent, h: Extent, total: Word, handles: Word, header: Framed)
    requires Packed(recs, words) && BodyOk(words) && TopWords(words) < handles < 65536
    requires total == HEADER_BYTES + |Concat(recs)| + 20 && |recs| + 2 < WORD
    requires header == HeaderWords(w, h, total, |recs| + 2, handles)
    ensures Renders(PackWords(header) + Concat(recs) + EofRecord(), PlayAll(words).1, w, h)
  {
    PackedWhole(recs, words, header, EOF_WORDS);
    FramePage(recs, PackWords(header), EofRecord());
    WholeIsFile([PackWords(header)] + recs + [EofRecord()], w, h, total, handles, words);
  }

  lemma FramePage(recs: seq<seq<Byte>>, header: seq<Byte>, eof: seq<Byte>)
    ensures Concat([header] + recs + [eof]) == header + Concat(recs) + eof
  {
    Snoc([header] + recs, eof);
    ConcatAppend([header], recs);
    Snoc([], header);
    assert [] + [header] == [header];
  }

  lemma {:induction false} EnoughBytes(recs: seq<seq<Byte>>, words: seq<Framed>)
    requires Packed(recs, words)
    ensures |recs| <= |Concat(recs)|
  {
    if recs != [] {
      EnoughBytes(recs[..|recs| - 1], words[..|words| - 1]);
    }
  }
}
