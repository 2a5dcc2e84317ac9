/**
 The metafile validator (`validate_emf` in `vsdxemf.py`): a walk over the records that reports every problem it meets,
 against a declarative reading of what an accepted file is. Unpacking past the end of the data raises in the source;
 that is `StructError` here.
 */
module EmfValidator {
  import opened Outcomes
  import opened EmfBytes

  const EMR_HEADER: Word := 1
  const EMR_EOF: Word := 14
  const EMR_SELECTOBJECT: Word := 37
  const EMR_CREATEBRUSHINDIRECT: Word := 39
  const EMR_EXTCREATEFONTINDIRECTW: Word := 82
  const EMR_EXTCREATEPEN: Word := 95

  const HEADER_BYTES: nat := 88
  const SIGNATURE: Word := 0x464D4520
  const VERSION: Word := 0x00010000
  const STOCK: Word := 0x80000000

  predicate Creates(kind: Word) {
    kind == EMR_EXTCREATEPEN || kind == EMR_CREATEBRUSHINDIRECT || kind == EMR_EXTCREATEFONTINDIRECTW
  }

  datatype Problem =
    | TooShort | NotHeader | BadSignature | BadVersion | ByteCount
    | TruncatedRecord(off: nat) | BadSize(index: nat, off: nat) | RunsPastEnd(index: nat, off: nat)
    | UnknownHandle(index: nat, handle: Word) | EofSize | EofNotLast
    | RecordCount | NoEof | HandleCount

  datatype Verdict = Problems(list: seq<Problem>) | StructError

  // ---- what an accepted file is ------------------------------------------------------------

  function Kind(record: seq<Byte>): Word
    requires |record| >= 8
  {
    ReadWord(record, 0)
  }

  predicate AllWellSized(records: seq<seq<Byte>>) {
    forall i :: 0 <= i < |records| ==> WellSized(records[i])
  }

  /** The largest handle created so far. */
  function TopHandle(data: seq<Byte>, records: seq<seq<Byte>>): nat
    requires AllWellSized(records)
  {
    if records == [] then 0
    else
      var init, last := records[..|records| - 1], records[|records| - 1];
      var off := |Concat(init)|;
      var top := TopHandle(data, init);
      if Creates(Kind(last)) && off + 12 <= |data| && top < ReadWord(data, off + 8) then ReadWord(data, off + 8) else top
  }

  /** A record at the end of `before` is in order: what it selects exists, and an end record ends the file. */
  predicate RecordOk(data: seq<Byte>, before: seq<seq<Byte>>, record: seq<Byte>)
    requires AllWellSized(before) && WellSized(record)
  {
    var off := |Concat(before)|;
    && (Creates(Kind(record)) ==> off + 12 <= |data|)
    && (Kind(record) == EMR_SELECTOBJECT ==>
          off + 12 <= |data| && (ReadWord(data, off + 8) >= STOCK || ReadWord(data, off + 8) <= TopHandle(data, before)))
    && (Kind(record) == EMR_EOF ==>
          off + 20 <= |data| && ReadWord(data, off + 16) == |record| && off + |record| == |data|)
  }

  predicate AllOk(data: seq<Byte>, records: seq<seq<Byte>>)
    requires AllWellSized(records)
  {
    records == [] ||
    (AllOk(data, records[..|records| - 1]) && RecordOk(data, records[..|records| - 1], records[|records| - 1]))
  }

  predicate HasEof(records: seq<seq<Byte>>)
    requires AllWellSized(records)
  {
    exists i :: 0 <= i < |records| && Kind(records[i]) == EMR_EOF
  }

  /** The data splits into these records, each in order. */
  predicate Walkable(data: seq<Byte>, records: seq<seq<Byte>>) {
    AllWellSized(records) && Concat(records) == data && AllOk(data, records)
  }

  predicate HeaderOk(data: seq<Byte>)
    requires |data| >= HEADER_BYTES
  {
    && ReadWord(data, 0) == EMR_HEADER
    && ReadWord(data, 40) == SIGNATURE && ReadWord(data, 44) == VERSION
    && ReadWord(data, 48) == |data|
  }

  ghost predicate IsFile(data: seq<Byte>, records: seq<seq<Byte>>) {
    && |data| >= HEADER_BYTES && HeaderOk(data)
    && Walkable(data, records) && HasEof(records)
    && ReadWord(data, 52) == |records|
    && TopHandle(data, records) < ReadHalf(data, 56)
  }

  ghost predicate Accepted(data: seq<Byte>) {
    exists records :: IsFile(data, records)
  }

  // ---- the walk -------------------------------------------------------------------------------

  lemma Snoc(records: seq<seq<Byte>>, record: seq<Byte>)
    ensures (records + [record])[..|records|] == records && (records + [record])[|records|] == record
    ensures Concat(records + [record]) == Concat(records) + record
  {
    assert (records + [record])[..|records|] == records;
  }

  lemma SliceOut(a: seq<Byte>, r: seq<Byte>, rest: seq<Byte>)
    ensures (a + (r + rest))[|a|..|a| + |r|] == r
  {
  }

  lemma ConcatFirst(records: seq<seq<Byte>>)
    requires records != []
    ensures Concat(records) == records[0] + Concat(records[1..])
  {
    ConcatAppend([records[0]], records[1..]);
    assert [records[0]] + records[1..] == records;
    Snoc([], records[0]);
    assert [] + [records[0]] == [records[0]];
  }

  /** Splitting is forced: what follows the first n records is the next one. */
  lemma NextRecord(data: seq<Byte>, records: seq<seq<Byte>>, n: nat)
    requires AllWellSized(records) && Concat(records) == data && n <= |records|
    ensures var off := |Concat(records[..n])|;
            && off <= |data| && Concat(records[..n]) == data[..off]
            && (off < |data| <==> n < |records|)
            && (n < |records| ==> off + |records[n]| <= |data| && data[off..off + |records[n]|] == records[n])
  {
    var a, b := Concat(records[..n]), Concat(records[n..]);
    ConcatAppend(records[..n], records[n..]);
    assert records[..n] + records[n..] == records;
    assert data == a + b;
    if n < |records| {
      ConcatFirst(records[n..]);
      SliceOut(a, records[n], Concat(records[n..][1..]));
    } else {
      assert records[n..] == [];
    }
  }

  lemma {:induction false} OkAt(data: seq<Byte>, records: seq<seq<Byte>>, n: nat)
    requires AllWellSized(records) && AllOk(data, records) && n < |records|
    ensures AllOk(data, records[..n]) && RecordOk(data, records[..n], records[n])
    decreases |records|
  {
    var init := records[..|records| - 1];
    if n < |records| - 1 {
      OkAt(data, init, n);
      assert init[..n] == records[..n];
    }
  }

  lemma SliceJoin(data: seq<Byte>, off: nat, size: nat)
    requires off + size <= |data|
    ensures data[..off] + data[off..off + size] == data[..off + size]
  {
  }

  lemma ReadSlice(data: seq<Byte>, off: nat, size: nat, at: nat)
    requires off + size <= |data| && at + 4 <= size
    ensures ReadWord(data[off..off + size], at) == ReadWord(data, off + at)
  {
  }

  /** The checks on one record, at the end of the records `before` it. */
  method CheckRecord(data: seq<Byte>, off: nat, kind: Word, size: nat, count: nat, top: nat,
                     ghost before: seq<seq<Byte>>, ghost record: seq<Byte>)
    returns (found: seq<Problem>, newTop: nat, raised: bool)
    requires AllWellSized(before) && WellSized(record) && Kind(record) == kind && |record| == size
    requires off == |Concat(before)| && off + size <= |data| && top == TopHandle(data, before)
    ensures !raised && found == [] <==> RecordOk(data, before, record)
    ensures AllWellSized(before + [record]) && (!raised ==> newTop == TopHandle(data, before + [record]))
  {
    found, newTop, raised := [], top, false;
    Snoc(before, record);
    if ((Creates(kind) || kind == EMR_SELECTOBJECT) && off + 12 > |data|) || (kind == EMR_EOF && off + 20 > |data|) {
      raised := true;
      return;
    }
    if Creates(kind) && top < ReadWord(data, off + 8) {
      newTop := ReadWord(data, off + 8);
    }
    if kind == EMR_SELECTOBJECT {
      var h := ReadWord(data, off + 8);
      if h < STOCK && h > newTop {
        found := found + [UnknownHandle(count, h)];
      }
    }
    if kind == EMR_EOF {
      if ReadWord(data, off + 16) != size {
        found := found + [EofSize];
      }
      if off + size != |data| {
        found := found + [EofNotLast];
      }
    }
  }

  lemma EofSnoc(records: seq<seq<Byte>>, record: seq<Byte>)
    requires AllWellSized(records) && WellSized(record)
    ensures AllWellSized(records + [record])
    ensures HasEof(records + [record]) <==> HasEof(records) || Kind(record) == EMR_EOF
  {
    var all := records + [record];
    if HasEof(records) {
      var i :| 0 <= i < |records| && Kind(records[i]) == EMR_EOF;
      assert Kind(all[i]) == EMR_EOF;
    }
    if Kind(record) == EMR_EOF {
      assert Kind(all[|records|]) == EMR_EOF;
    }
  }

  lemma OkSnoc(data: seq<Byte>, records: seq<seq<Byte>>, record: seq<Byte>)
    requires AllWellSized(records) && WellSized(record)
    ensures AllWellSized(records + [record])
    ensures AllOk(data, records + [record]) <==> AllOk(data, records) && RecordOk(data, records, record)
  {
    Snoc(records, record);
  }

  lemma ExpectedNext(data: seq<Byte>, expected: seq<seq<Byte>>, count: nat, off: nat)
    requires Walkable(data, expected) && count <= |expected| && off == |Concat(expected[..count])|
    ensures off < |data| <==> count < |expected|
    ensures count < |expected| ==>
              var record := expected[count];
              && off + |record| <= |data| && |record| >= 8 && |record| % 4 == 0
              && ReadWord(data, off + 4) == |record| && data[off..off + |record|] == record
              && expected[..count + 1] == expected[..count] + [record]
              && AllWellSized(expected[..count]) && WellSized(record) && RecordOk(data, expected[..count], record)
  {
    NextRecord(data, expected, count);
    if count < |expected| {
      OkAt(data, expected, count);
      ReadSlice(data, off, |expected[count]|, 4);
    }
  }

  /** What is wrong with the frame of the record at `off`, if anything. */
  function FrameFault(data: seq<Byte>, off: nat, count: nat): (fault: Option<Problem>)
    requires off < |data|
    ensures fault.None? ==>
              off + 8 <= |data| && var size := ReadWord(data, off + 4); 8 <= size && size % 4 == 0 && off + size <= |data|
  {
    if off + 8 > |data| then Some(TruncatedRecord(off))
    else
      var size := ReadWord(data, off + 4);
      if size < 8 || size % 4 != 0 then Some(BadSize(count, off))
      else if off + size > |data| then Some(RunsPastEnd(count, off))
      else None
  }

  lemma WalkedMore(data: seq<Byte>, walked: seq<seq<Byte>>, record: seq<Byte>, off: nat)
    requires AllWellSized(walked) && WellSized(record) && off + |record| <= |data|
    requires Concat(walked) == data[..off] && record == data[off..off + |record|]
    ensures AllWellSized(walked + [record]) && Concat(walked + [record]) == data[..off + |record|]
    ensures HasEof(walked + [record]) <==> HasEof(walked) || Kind(record) == EMR_EOF
    ensures AllOk(data, walked + [record]) <==> AllOk(data, walked) && RecordOk(data, walked, record)
  {
    Snoc(walked, record);
    EofSnoc(walked, record);
    OkSnoc(data, walked, record);
    SliceJoin(data, off, |record|);
  }

  /** The walk stands at `off` with these records behind it. */
  ghost predicate Underway(data: seq<Byte>, off: nat, count: nat, top: nat, walked: seq<seq<Byte>>) {
    && off <= |data| && AllWellSized(walked) && Concat(walked) == data[..off]
    && count == |walked| && top == TopHandle(data, walked)
  }

  /** They are the first records of a walkable split. */
  ghost predicate Follows(data: seq<Byte>, expected: seq<seq<Byte>>, walked: seq<seq<Byte>>) {
    Walkable(data, expected) && |walked| <= |expected| && walked == expected[..|walked|]
  }

  /** One turn of the walk: stop at a broken frame, or check the record and go past it. */
  method WalkRecord(data: seq<Byte>, off: nat, count: nat, top: nat, ghost walked: seq<seq<Byte>>, ghost expected: seq<seq<Byte>>)
    returns (found: seq<Problem>, size: nat, newTop: nat, eof: bool, stop: bool, raised: bool, ghost record: seq<Byte>)
    requires off < |data| && Underway(data, off, count, top, walked)
    ensures stop ==> found != []
    ensures stop || raised ==> !Follows(data, expected, walked)
    ensures !stop && !raised ==>
              && size > 0 && Underway(data, off + size, count + 1, newTop, walked + [record])
              && (found == [] && AllOk(data, walked) <==> AllOk(data, walked + [record]))
              && (eof || HasEof(walked) <==> HasEof(walked + [record]))
              && (Follows(data, expected, walked) ==> found == [] && Follows(data, expected, walked + [record]))
  {
    found, size, newTop, eof, stop, raised, record := [], 0, top, false, false, false, [];
    ghost var given := Follows(data, expected, walked);
    if given {
      ExpectedNext(data, expected, count, off);
    }
    var fault := FrameFault(data, off, count);
    if fault.Some? {
      found, stop := [fault.value], true;
      return;
    }
    var kind := ReadWord(data, off);
    size := ReadWord(data, off + 4);
    record := data[off..off + size];
    assert given ==> record == expected[count] && walked + [record] == expected[..count + 1];
    ReadSlice(data, off, size, 0);
    ReadSlice(data, off, size, 4);
    found, newTop, raised := CheckRecord(data, off, kind, size, count, top, walked, record);
    WalkedMore(data, walked, record, off);
    eof := kind == EMR_EOF;
  }

  /**
   Walk every record. `expected` is any split the data might have: if it is walkable, the walk finds no fault and finds
   exactly it.
   */
  method Walk(data: seq<Byte>, ghost expected: seq<seq<Byte>>)
    returns (bad: seq<Problem>, count: nat, seenEof: bool, maxHandle: nat, raised: bool, ghost walked: seq<seq<Byte>>)
    ensures AllWellSized(walked) && count == |walked|
    ensures !raised && bad == [] ==>
              Walkable(data, walked) && seenEof == HasEof(walked) && maxHandle == TopHandle(data, walked)
    ensures Walkable(data, expected) ==> !raised && bad == [] && walked == expected
  {
    bad, count, seenEof, maxHandle, raised, walked := [], 0, false, 0, false, [];
    var off := 0;
    while off < |data|
      invariant Underway(data, off, count, maxHandle, walked)
      invariant seenEof == HasEof(walked)
      invariant bad == [] ==> AllOk(data, walked)
      invariant !raised
      invariant Walkable(data, expected) ==> bad == [] && Follows(data, expected, walked)
      decreases |data| - off
    {
      ghost var record;
      var found, size, top, eof, stop;
      found, size, top, eof, stop, raised, record := WalkRecord(data, off, count, maxHandle, walked, expected);
      if raised {
        return;
      }
      bad := bad + found;
      if stop {
        break;
      }
      maxHandle, seenEof := top, seenEof || eof;
      walked, count, off := walked + [record], count + 1, off + size;
    }
    if Walkable(data, expected) {
      ExpectedNext(data, expected, count, off);
    }
    assert off == |data| ==> data[..off] == data;
  }

  /** The source's checks, in its order. */
  method ValidateEmf(data: seq<Byte>) returns (verdict: Verdict)
    ensures verdict == Problems([]) <==> Accepted(data)
  {
    if |data| < HEADER_BYTES {
      return Problems([TooShort]);
    }
    ghost var expected := if Accepted(data) then (var r :| IsFile(data, r); r) else [];
    var bad := [];
    if ReadWord(data, 0) != EMR_HEADER {
      bad := bad + [NotHeader];
    }
    if ReadWord(data, 40) != SIGNATURE {
      bad := bad + [BadSignature];
    }
    if ReadWord(data, 44) != VERSION {
      bad := bad + [BadVersion];
    }
    var nbytes, nrecords, nhandles := ReadWord(data, 48), ReadWord(data, 52), ReadHalf(data, 56);
    if nbytes != |data| {
      bad := bad + [ByteCount];
    }
    assert bad == [] <==> HeaderOk(data);
    var found, count, seenEof, maxHandle, raised;
    ghost var walked;
    found, count, seenEof, maxHandle, raised, walked := Walk(data, expected);
    if raised {
      return StructError;
    }
    bad := bad + found;
    if count != nrecords {
      bad := bad + [RecordCount];
    }
    if !seenEof {
      bad := bad + [NoEof];
    }
    if nhandles <= maxHandle {
      bad := bad + [HandleCount];
    }
    if bad == [] {
      assert IsFile(data, walked);
    }
    return Problems(bad);
  }

  /** An end record in order is the last one. */
  lemma EofIsLast(data: seq<Byte>, records: seq<seq<Byte>>, i: nat)
    requires Walkable(data, records) && i < |records| && Kind(records[i]) == EMR_EOF
    ensures i == |records| - 1
  {
    OkAt(data, records, i);
    NextRecord(data, records, i);
    NextRecord(data, records, i + 1);
    Snoc(records[..i], records[i]);
    assert records[..i] + [records[i]] == records[..i + 1];
  }

  /** The first record is the header. */
  lemma HeaderIsFirst(data: seq<Byte>, records: seq<seq<Byte>>)
    requires |data| >= HEADER_BYTES && ReadWord(data, 0) == EMR_HEADER && AllWellSized(records) && Concat(records) == data
    ensures records != [] && Kind(records[0]) == EMR_HEADER
  {
    NextRecord(data, records, 0);
    assert records[..0] == [];
    ReadSlice(data, 0, |records[0]|, 0);
  }

  /** Whatever is accepted splits into sized records with the header first and exactly one end record, last. */
  lemma AcceptedShape(data: seq<Byte>) returns (records: seq<seq<Byte>>)
    requires Accepted(data)
    ensures Concat(records) == data && AllWellSized(records) && records != []
    ensures Kind(records[0]) == EMR_HEADER
    ensures forall i :: 0 <= i < |records| ==> (Kind(records[i]) == EMR_EOF <==> i == |records| - 1)
  {
    records :| IsFile(data, records);
    HeaderIsFirst(data, records);
    forall i | 0 <= i < |records| && Kind(records[i]) == EMR_EOF ensures i == |records| - 1 {
      EofIsLast(data, records, i);
    }
    var i :| 0 <= i < |records| && Kind(records[i]) == EMR_EOF;
  }
}
