/**
 A whole metafile as lists of words: a body whose handles are created in order, framed by a header and an end record,
 is a file the validator accepts and a consumer replays.
 */
module EmfFile {
  import opened Outcomes
  import opened EmfBytes
  import opened EmfValidator
  import opened EmfReplay

  /** A record with at least one payload word and its own length in its size word. */
  predicate IsFramed(ws: seq<Word>) {
    3 <= |ws| < 0x1000_0000 && ws[1] == 4 * |ws|
  }

  type Framed = ws: seq<Word> | IsFramed(ws) witness [0, 12, 0]

  /** The highest handle the body creates, when it creates them in order. */
  function TopWords(words: seq<Framed>): nat {
    if words == [] then 0
    else
      var last := words[|words| - 1];
      if Creates(last[0]) then last[2] else TopWords(words[..|words| - 1])
  }

  /** Not an end record; a new object takes the next handle; a selected object exists. */
  predicate InOrder(record: Framed, top: nat) {
    && record[0] != EMR_EOF
    && (Creates(record[0]) ==> record[2] == top + 1)
    && (record[0] == EMR_SELECTOBJECT ==> record[2] >= STOCK || record[2] <= top)
  }

  predicate BodyOk(words: seq<Framed>) {
    words == [] || (BodyOk(words[..|words| - 1]) && InOrder(words[|words| - 1], TopWords(words[..|words| - 1])))
  }

  predicate Packed(recs: seq<seq<Byte>>, words: seq<Framed>) {
    |recs| == |words| && forall i :: 0 <= i < |recs| ==> recs[i] == PackWords(words[i])
  }

  /** Replaying the records leads a consumer to `s` and makes it draw `events`. */
  predicate Plays(words: seq<Framed>, s: State, events: seq<Event>) {
    PlayAll(words) == (s, events)
  }

  /** One record takes a consumer from `s` to `t` and makes it draw `events`. */
  predicate Does(s: State, kind: Word, payload: seq<Word>, t: State, events: seq<Event>)
    requires |payload| < 0x1000_0000
  {
    Play(s, RecordWords(kind, payload)) == (t, events)
  }

  /** A record may follow a body whose highest handle is `top`. */
  predicate MayFollow(kind: Word, payload: seq<Word>, top: nat) {
    0 < |payload| < 0x800_0000 && InOrder(FrameOf(kind, payload), top)
  }

  function FrameOf(kind: Word, payload: seq<Word>): (record: Framed)
    requires 0 < |payload| < 0x800_0000
    ensures record[0] == kind && record[2] == payload[0] && record[2..] == payload && record[3..] == payload[1..]
  {
    RecordWords(kind, payload)
  }

  lemma Extend(words: seq<Framed>, kind: Word, payload: seq<Word>, s: State, events: seq<Event>, t: State, more: seq<Event>)
    requires BodyOk(words) && Plays(words, s, events)
    requires MayFollow(kind, payload, TopWords(words)) && Does(s, kind, payload, t, more)
    ensures var all := words + [FrameOf(kind, payload)];
            && BodyOk(all) && Plays(all, t, events + more)
            && TopWords(all) == if Creates(kind) then TopWords(words) + 1 else TopWords(words)
  {
    assert (words + [FrameOf(kind, payload)])[..|words|] == words;
  }

  // ---- header and end record ---------------------------------------------------------------

  type Extent = x: int | 0 <= x < 0x8000_0000

  const EOF_WORDS: Framed := [EMR_EOF, 20, 0, 16, 20]

  function HeaderWords(w: Extent, h: Extent, total: Word, count: Word, handles: Word): (words: Framed)
    ensures |words| == 22
  {
    [EMR_HEADER, 88, 0, 0, Signed(w - 1), Signed(h - 1), 0, 0, w, h, SIGNATURE, VERSION, total, count, handles,
     0, 0, 0, w, h, w / 100, h / 100]
  }

  lemma {:induction false} HeaderFirst(header: Framed, words: seq<Framed>)
    requires header[0] == EMR_HEADER && BodyOk(words)
    ensures TopWords([header] + words) == TopWords(words) && BodyOk([header] + words)
  {
    var all := [header] + words;
    if words == [] {
      assert all[..0] == [];
    } else {
      var init := words[..|words| - 1];
      HeaderFirst(header, init);
      assert all[..|words|] == [header] + init;
    }
  }

  /** Neither the header nor the end record changes or draws anything. */
  lemma QuietRecord(records: seq<seq<Word>>, record: seq<Word>)
    requires 3 <= |record| && (record[0] == EMR_HEADER || record[0] == EMR_EOF)
    ensures PlayAll(records + [record]) == PlayAll(records)
  {
    PlaySnoc(records, record);
    var (s, events) := PlayAll(records);
    assert Play(s, record) == (s, []);
    assert events + [] == events;
  }

  lemma {:induction false} HeaderIsQuiet(header: seq<Word>, records: seq<seq<Word>>)
    requires 3 <= |header| && header[0] == EMR_HEADER
    ensures PlayAll([header] + records) == PlayAll(records)
  {
    if records == [] {
      QuietRecord([], header);
      assert [header] + records == [] + [header];
    } else {
      var init, last := records[..|records| - 1], records[|records| - 1];
      HeaderIsQuiet(header, init);
      PlaySnoc([header] + init, last);
      PlaySnoc(init, last);
      assert [header] + records == ([header] + init) + [last];
      assert records == init + [last];
    }
  }

  lemma RecordAt(records: seq<seq<Byte>>, words: seq<Framed>, n: nat, k: nat)
    requires Packed(records, words) && AllWellSized(records) && n < |words| && k < |words[n]|
    ensures var off := |Concat(records[..n])|;
            off + 4 * |words[n]| <= |Concat(records)| && ReadWord(Concat(records), off + 4 * k) == words[n][k]
  {
    var data, off := Concat(records), |Concat(records[..n])|;
    NextRecord(data, records, n);
    ReadPacked(words[n], k);
    ReadSlice(data, off, |records[n]|, 4 * k);
  }

  lemma PackedIsSized(records: seq<seq<Byte>>, words: seq<Framed>)
    requires Packed(records, words)
    ensures AllWellSized(records)
    ensures forall i :: 0 <= i < |records| ==> Kind(records[i]) == words[i][0]
  {
    forall i | 0 <= i < |records| ensures WellSized(records[i]) && Kind(records[i]) == words[i][0] {
      ReadPacked(words[i], 0);
      ReadPacked(words[i], 1);
    }
  }

  /** What the validator finds in the bytes of a prefix is what the words say. */
  lemma {:induction false} BodyIsOk(records: seq<seq<Byte>>, words: seq<Framed>, n: nat)
    requires Packed(records, words) && AllWellSized(records) && n <= |words| && BodyOk(words[..n])
    ensures TopHandle(Concat(records), records[..n]) == TopWords(words[..n])
    ensures AllOk(Concat(records), records[..n])
  {
    if n > 0 {
      var m := n - 1;
      assert words[..n][..m] == words[..m] && records[..n][..m] == records[..m];
      BodyIsOk(records, words, m);
      PackedIsSized(records, words);
      RecordAt(records, words, m, 2);
    }
  }

  /** A consumer parses back the words that were packed. */
  lemma ReplayParses(records: seq<seq<Byte>>, words: seq<Framed>)
    requires Packed(records, words) && AllWellSized(records)
    ensures Replay(records) == PlayAll(words).1
  {
    var parsed := seq(|records|, i requires 0 <= i < |records| => ParseWords(records[i]));
    forall i | 0 <= i < |records| ensures parsed[i] == words[i] {
      WordsRoundTrip(words[i]);
    }
    assert parsed == words;
  }

  /** The data is a file, and replaying it draws exactly these events. */
  ghost predicate Depicts(data: seq<Byte>, events: seq<Event>) {
    exists records :: IsFile(data, records) && Replay(records) == events
  }

  /** Header, body and end record of a file with these counts. */
  ghost function Whole(w: Extent, h: Extent, total: Word, handles: Word, words: seq<Framed>): (all: seq<Framed>)
    requires |words| + 2 < WORD
  {
    [HeaderWords(w, h, total, |words| + 2, handles)] + words + [EOF_WORDS]
  }

  lemma WholeBody(w: Extent, h: Extent, total: Word, handles: Word, words: seq<Framed>)
    requires BodyOk(words) && |words| + 2 < WORD
    ensures var all := Whole(w, h, total, handles, words);
            && |all| == |words| + 2 && all[|all| - 1] == EOF_WORDS
            && BodyOk(all[..|all| - 1]) && TopWords(all) == TopWords(all[..|all| - 1]) == TopWords(words)
            && PlayAll(all) == PlayAll(words)
  {
    var header := HeaderWords(w, h, total, |words| + 2, handles);
    HeaderFirst(header, words);
    HeaderIsQuiet(header, words);
    QuietRecord([header] + words, EOF_WORDS);
    var all := Whole(w, h, total, handles, words);
    assert all[..|all| - 1] == [header] + words;
  }

  /** A last record that is an end record passes the validator's checks. */
  lemma EofEnds(before: seq<seq<Byte>>, record: seq<Byte>)
    requires AllWellSized(before) && WellSized(record) && Kind(record) == EMR_EOF && |record| == 20
    requires ReadWord(record, 16) == 20
    ensures var data := Concat(before) + record;
            RecordOk(data, before, record)
            && (AllOk(data, before) ==> AllWellSized(before + [record]) && AllOk(data, before + [record]))
            && TopHandle(data, before + [record]) == TopHandle(data, before) && HasEof(before + [record])
  {
    var data := Concat(before) + record;
    ReadInside(Concat(before), record, [], 16);
    assert data + [] == data;
    OkSnoc(data, before, record);
    EofSnoc(before, record);
    Snoc(before, record);
  }

  /** An ordered body and an end record pass the walk. */
  lemma EofIsOk(records: seq<seq<Byte>>, words: seq<Framed>)
    requires Packed(records, words) && AllWellSized(records) && words != []
    requires BodyOk(words[..|words| - 1]) && words[|words| - 1] == EOF_WORDS
    ensures AllOk(Concat(records), records) && HasEof(records)
    ensures TopHandle(Concat(records), records) == TopWords(words)
  {
    var n := |words| - 1;
    var before, record := records[..n], records[n];
    BodyIsOk(records, words, n);
    PackedIsSized(records, words);
    ReadPacked(words[n], 4);
    assert records == before + [record];
    EofEnds(before, record);
  }

  lemma HeaderReads(records: seq<seq<Byte>>, words: seq<Framed>, w: Extent, h: Extent, total: Word, count: Word, handles: Word)
    requires Packed(records, words) && AllWellSized(records) && words != []
    requires words[0] == HeaderWords(w, h, total, count, handles) && handles < 65536
    ensures var data := Concat(records);
            && |data| >= HEADER_BYTES
            && ReadWord(data, 0) == EMR_HEADER && ReadWord(data, 40) == SIGNATURE && ReadWord(data, 44) == VERSION
            && ReadWord(data, 48) == total && ReadWord(data, 52) == count && ReadHalf(data, 56) == handles
            && Frames(data, w, h)
  {
    CountsRead(records, words, words[0]);
    FrameReads(records, words, w, h, total, count, handles);
  }

  /** The header's words at their offsets. */
  lemma CountsRead(records: seq<seq<Byte>>, words: seq<Framed>, header: Framed)
    requires Packed(records, words) && AllWellSized(records) && words != [] && words[0] == header && |header| == 22
    requires header[14] < 65536
    ensures var data := Concat(records);
            && |data| >= HEADER_BYTES
            && ReadWord(data, 0) == header[0] && ReadWord(data, 40) == header[10] && ReadWord(data, 44) == header[11]
            && ReadWord(data, 48) == header[12] && ReadWord(data, 52) == header[13] && ReadHalf(data, 56) == header[14]
  {
    assert records[..0] == [];
    RecordAt(records, words, 0, 0);
    RecordAt(records, words, 0, 10);
    RecordAt(records, words, 0, 11);
    RecordAt(records, words, 0, 12);
    RecordAt(records, words, 0, 13);
    RecordAt(records, words, 0, 14);
  }

  /** The page's frame and the device's size, as a reader of the header gets them. */
  predicate Frames(data: seq<Byte>, w: Extent, h: Extent) {
    && |data| >= HEADER_BYTES
    && ReadWord(data, 24) == 0 && ReadWord(data, 28) == 0 && ReadWord(data, 32) == w && ReadWord(data, 36) == h
    && ReadWord(data, 72) == w && ReadWord(data, 76) == h
  }

  lemma FrameReads(records: seq<seq<Byte>>, words: seq<Framed>, w: Extent, h: Extent, total: Word, count: Word, handles: Word)
    requires Packed(records, words) && AllWellSized(records) && words != []
    requires words[0] == HeaderWords(w, h, total, count, handles)
    ensures Frames(Concat(records), w, h)
  {
    assert records[..0] == [];
    RecordAt(records, words, 0, 6);
    RecordAt(records, words, 0, 7);
    RecordAt(records, words, 0, 8);
    RecordAt(records, words, 0, 9);
    RecordAt(records, words, 0, 18);
    RecordAt(records, words, 0, 19);
  }

  /** The data is accepted, replays to these events and states this page size. */
  ghost predicate Renders(data: seq<Byte>, events: seq<Event>, w: Extent, h: Extent) {
    Accepted(data) && Depicts(data, events) && Frames(data, w, h)
  }

  /** Packed under a header with the right counts, an ordered body is a file, and it replays to what the body plays. */
  lemma WholeIsFile(records: seq<seq<Byte>>, w: Extent, h: Extent, total: Word, handles: Word, words: seq<Framed>)
    requires BodyOk(words) && |words| + 2 < WORD && TopWords(words) < handles < 65536
    requires Packed(records, Whole(w, h, total, handles, words)) && |Concat(records)| == total
    ensures Renders(Concat(records), PlayAll(words).1, w, h)
  {
    var all := Whole(w, h, total, handles, words);
    WholeBody(w, h, total, handles, words);
    PackedIsSized(records, all);
    FrameReads(records, all, w, h, total, |words| + 2, handles);
    IsWholeFile(records, all, w, h, total, handles);
    ReplayParses(records, all);
  }

  lemma IsWholeFile(records: seq<seq<Byte>>, all: seq<Framed>, w: Extent, h: Extent, total: Word, handles: Word)
    requires Packed(records, all) && AllWellSized(records) && all != [] && |all| < WORD
    requires all[0] == HeaderWords(w, h, total, |all|, handles) && all[|all| - 1] == EOF_WORDS
    requires BodyOk(all[..|all| - 1]) && TopWords(all) < handles < 65536 && |Concat(records)| == total
    ensures IsFile(Concat(records), records)
  {
    EofIsOk(records, all);
    HeaderReads(records, all, w, h, total, |all|, handles);
  }

  /** The bytes split into records in only one way, so a file depicts only one thing. */
  lemma DepictsOneThing(data: seq<Byte>, events: seq<Event>, others: seq<Event>)
    requires Depicts(data, events) && Depicts(data, others)
    ensures events == others
  {
    var a :| IsFile(data, a) && Replay(a) == events;
    var b :| IsFile(data, b) && Replay(b) == others;
    OneSplit(data, a, b);
  }

  lemma OneSplit(data: seq<Byte>, a: seq<seq<Byte>>, b: seq<seq<Byte>>)
    requires AllWellSized(a) && Concat(a) == data && AllWellSized(b) && Concat(b) == data
    ensures a == b
  {
    SplitIsForced(data, a, b, |a|);
    SplitIsForced(data, b, a, |b|);
    assert a[..|a|] == a && b[..|b|] == b;
  }

  lemma {:induction false} SplitIsForced(data: seq<Byte>, a: seq<seq<Byte>>, b: seq<seq<Byte>>, n: nat)
    requires AllWellSized(a) && Concat(a) == data && AllWellSized(b) && Concat(b) == data && n <= |a|
    ensures n <= |b| && a[..n] == b[..n]
  {
    if n > 0 {
      var m := n - 1;
      SplitIsForced(data, a, b, m);
      NextRecord(data, a, m);
      NextRecord(data, b, m);
      var off := |Concat(a[..m])|;
      ReadSlice(data, off, |a[m]|, 4);
      ReadSlice(data, off, |b[m]|, 4);
      assert a[..n] == a[..m] + [a[m]] && b[..n] == b[..m] + [b[m]];
    }
  }
}
