/**
 What the records of a metafile mean to a consumer (MS-EMF sections 2.3.5, 2.3.7, 2.3.8 and 2.3.11): an object table,
 the selected pen, brush and font, the text colour and alignment, and the drawing calls made under them.
 */
module EmfReplay {
  import opened EmfBytes
  import opened EmfValidator
  import opened Outcomes

  const EMR_POLYGON: Word := 3
  const EMR_POLYLINE: Word := 4
  const EMR_SETTEXTALIGN: Word := 22
  const EMR_SETTEXTCOLOR: Word := 24
  const EMR_ELLIPSE: Word := 42
  const EMR_RECTANGLE: Word := 43
  const EMR_ROUNDRECT: Word := 44
  const EMR_EXTTEXTOUTW: Word := 84

  const STOCK_NULL_BRUSH: Word := 0x80000005
  const STOCK_NULL_PEN: Word := 0x80000008

  /** An object as its creation record describes it. */
  datatype Object = Object(kind: Word, attributes: seq<Word>)

  datatype Tool = Stock(handle: Word) | Made(object: Object)

  datatype Slot = PenSlot | BrushSlot | FontSlot

  datatype State = State(
    objects: map<Word, Object>,
    tools: map<Slot, Tool>,
    textColor: Option<Word>,
    textAlign: Option<Word>)

  datatype Event =
    | Shape(kind: Word, geometry: seq<Word>, pen: Option<Tool>, brush: Option<Tool>)
    | Text(position: seq<Word>, units: seq<nat>, font: Option<Tool>, color: Option<Word>, align: Option<Word>)

  const EMPTY := State(map[], map[], None, None)

  predicate IsShape(kind: Word) {
    kind == EMR_POLYGON || kind == EMR_POLYLINE || kind == EMR_ELLIPSE || kind == EMR_RECTANGLE || kind == EMR_ROUNDRECT
  }

  function SlotOf(kind: Word): Slot {
    if kind == EMR_EXTCREATEPEN then PenSlot else if kind == EMR_CREATEBRUSHINDIRECT then BrushSlot else FontSlot
  }

  function ToolIn(s: State, slot: Slot): Option<Tool> {
    if slot in s.tools then Some(s.tools[slot]) else None
  }

  function Select(s: State, handle: Word): State {
    if handle == STOCK_NULL_PEN then s.(tools := s.tools[PenSlot := Stock(handle)])
    else if handle == STOCK_NULL_BRUSH then s.(tools := s.tools[BrushSlot := Stock(handle)])
    else if handle in s.objects then s.(tools := s.tools[SlotOf(s.objects[handle].kind) := Made(s.objects[handle])])
    else s
  }

  /** The UTF-16 units of a run of words, two to a word. */
  function Units(words: seq<Word>): (units: seq<nat>)
    ensures |units| == 2 * |words|
  {
    if words == [] then [] else [words[0] % 65536, words[0] / 65536] + Units(words[1..])
  }

  /** The text a text record holds: nChars units from offString, which counts from the record's own start. */
  function TextUnits(record: seq<Word>): seq<nat>
    requires |record| >= 19
  {
    var count, off := record[11], record[12] / 4;
    if off <= |record| && count <= |Units(record[off..])| then Units(record[off..])[..count] else []
  }

  /** One record, as its words. */
  function Play(s: State, record: seq<Word>): (State, seq<Event>) {
    if |record| < 3 then (s, [])
    else
      var kind := record[0];
      if Creates(kind) then (s.(objects := s.objects[record[2] := Object(kind, record[3..])]), [])
      else if kind == EMR_SELECTOBJECT then (Select(s, record[2]), [])
      else if kind == EMR_SETTEXTCOLOR then (s.(textColor := Some(record[2])), [])
      else if kind == EMR_SETTEXTALIGN then (s.(textAlign := Some(record[2])), [])
      else if IsShape(kind) then (s, [Shape(kind, record[2..], ToolIn(s, PenSlot), ToolIn(s, BrushSlot))])
      else if kind == EMR_EXTTEXTOUTW && |record| >= 19 then
        (s, [Text(record[9..11], TextUnits(record), ToolIn(s, FontSlot), s.textColor, s.textAlign)])
      else (s, [])
  }

  function PlayAll(records: seq<seq<Word>>): (State, seq<Event>) {
    if records == [] then (EMPTY, [])
    else
      var (s, events) := PlayAll(records[..|records| - 1]);
      var (t, more) := Play(s, records[|records| - 1]);
      (t, events + more)
  }

  lemma PlaySnoc(records: seq<seq<Word>>, record: seq<Word>)
    ensures var (s, events) := PlayAll(records);
            var (t, more) := Play(s, record);
            PlayAll(records + [record]) == (t, events + more)
  {
    assert (records + [record])[..|records|] == records;
  }

  /** A metafile's drawing calls: split, parsed and played. */
  ghost function Replay(records: seq<seq<Byte>>): seq<Event>
    requires AllWellSized(records)
  {
    PlayAll(seq(|records|, i requires 0 <= i < |records| => ParseWords(records[i]))).1
  }
}
