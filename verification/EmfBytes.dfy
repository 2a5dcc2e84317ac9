/** Little-endian packing and the record frame of an Enhanced Metafile (`vsdxemf.py`, MS-EMF section 2.3). */
module EmfBytes {
  import opened Sequences

  type Byte = b: int | 0 <= b < 256

  const WORD: nat := 0x1_0000_0000

  type Word = w: int | 0 <= w < WORD

  /** struct.pack("<I", w) */
  function PackWord(w: Word): seq<Byte> {
    [w % 256, w / 256 % 256, w / 65536 % 256, w / 16777216]
  }

  /** struct.unpack_from("<I", data, off) */
  function ReadWord(data: seq<Byte>, off: nat): Word
    requires off + 4 <= |data|
  {
    data[off] as int + 256 * data[off + 1] as int + 65536 * data[off + 2] as int + 16777216 * data[off + 3] as int
  }

  /** struct.unpack_from("<H", data, off) */
  function ReadHalf(data: seq<Byte>, off: nat): nat
    requires off + 2 <= |data|
  {
    data[off] as int + 256 * data[off + 1] as int
  }

  /** struct.pack("<l", x), as the word its two's complement is. */
  function Signed(x: int): Word
    requires -0x8000_0000 <= x < 0x8000_0000
  {
    if x < 0 then x + WORD else x
  }

  function PackWords(words: seq<Word>): (bytes: seq<Byte>)
    ensures |bytes| == 4 * |words|
  {
    if words == [] then [] else PackWord(words[0]) + PackWords(words[1..])
  }

  /** The words of a byte string whose length is a multiple of four. */
  function ParseWords(bytes: seq<Byte>): (words: seq<Word>)
    requires |bytes| % 4 == 0
    ensures |words| == |bytes| / 4
  {
    if bytes == [] then [] else [ReadWord(bytes, 0)] + ParseWords(bytes[4..])
  }

  lemma WordRoundTrips(w: Word)
    ensures ReadWord(PackWord(w), 0) == w
  {
    DivideTwice(w, 256);
    DivideTwice(w, 65536);
    assert w == w / 256 * 256 + w % 256;
  }

  /** Dividing by 256 again peels off the next byte. */
  lemma DivideTwice(w: nat, unit: nat)
    requires unit == 256 || unit == 65536
    ensures w / unit == w / (256 * unit) * 256 + w / unit % 256
  {
    assert w / (256 * unit) == w / unit / 256;
  }

  lemma ReadInside(prefix: seq<Byte>, data: seq<Byte>, suffix: seq<Byte>, off: nat)
    requires off + 4 <= |data|
    ensures ReadWord(prefix + data + suffix, |prefix| + off) == ReadWord(data, off)
  {
  }

  lemma {:induction false} ReadPacked(words: seq<Word>, i: nat)
    requires i < |words|
    ensures ReadWord(PackWords(words), 4 * i) == words[i]
  {
    var head, tail := PackWord(words[0]), PackWords(words[1..]);
    if i == 0 {
      WordRoundTrips(words[0]);
      ReadInside([], head, tail, 0);
      assert [] + head + tail == PackWords(words);
    } else {
      ReadPacked(words[1..], i - 1);
      ReadInside(head, tail, [], 4 * (i - 1));
      assert head + tail + [] == PackWords(words);
    }
  }

  lemma {:induction false} WordsRoundTrip(words: seq<Word>)
    ensures ParseWords(PackWords(words)) == words
  {
    if words != [] {
      WordsRoundTrip(words[1..]);
      ReadPacked(words, 0);
      assert PackWords(words)[4..] == PackWords(words[1..]);
    }
  }

  lemma {:induction false} PackConcat(a: seq<Word>, b: seq<Word>)
    ensures PackWords(a + b) == PackWords(a) + PackWords(b)
  {
    if a == [] {
      assert a + b == b;
    } else {
      PackConcat(a[1..], b);
      assert (a + b)[1..] == a[1..] + b;
      Assoc(PackWord(a[0]), PackWords(a[1..]), PackWords(b));
    }
  }

  function Padding(length: nat): (zeros: seq<Byte>)
    ensures (length + |zeros|) % 4 == 0
  {
    if length % 4 == 0 then [] else seq(4 - length % 4, _ => 0)
  }

  /** One record: type, size, payload padded to a multiple of four. */
  function Record(kind: Word, payload: seq<Byte>): (record: seq<Byte>)
    requires |payload| < 0x8000_0000
  {
    var padded := payload + Padding(|payload|);
    PackWords([kind, 8 + |padded|]) + padded
  }

  /** The words of a record whose payload is whole words. */
  function RecordWords(kind: Word, payload: seq<Word>): seq<Word>
    requires |payload| < 0x1000_0000
  {
    [kind, 8 + 4 * |payload|] + payload
  }

  lemma WholeWordsNeedNoPadding(kind: Word, bytes: seq<Byte>, n: nat)
    requires |bytes| == 4 * n < 0x4000_0000
    ensures Record(kind, bytes) == PackWords([kind, 8 + 4 * n]) + bytes
  {
    assert bytes + [] == bytes;
  }

  lemma RecordIsWords(kind: Word, payload: seq<Word>)
    requires |payload| < 0x1000_0000
    ensures Record(kind, PackWords(payload)) == PackWords(RecordWords(kind, payload))
  {
    WholeWordsNeedNoPadding(kind, PackWords(payload), |payload|);
    FramePacks(kind, 8 + 4 * |payload|, PackWords(payload), payload);
  }

  lemma FramePacks(kind: Word, size: Word, bytes: seq<Byte>, payload: seq<Word>)
    requires bytes == PackWords(payload)
    ensures PackWords([kind, size]) + bytes == PackWords([kind, size] + payload)
  {
    PackConcat([kind, size], payload);
  }

  function Concat(records: seq<seq<Byte>>): seq<Byte> {
    if records == [] then [] else Concat(records[..|records| - 1]) + records[|records| - 1]
  }

  lemma {:induction false} ConcatAppend(a: seq<seq<Byte>>, b: seq<seq<Byte>>)
    ensures Concat(a + b) == Concat(a) + Concat(b)
  {
    if b == [] {
      assert a + b == a;
    } else {
      ConcatAppend(a, b[..|b| - 1]);
      assert (a + b)[..|a + b| - 1] == a + b[..|b| - 1];
    }
  }

  /** A record frame: at least eight bytes, whole words, and its size field is its length. */
  predicate WellSized(record: seq<Byte>) {
    |record| >= 8 && |record| % 4 == 0 && ReadWord(record, 4) == |record|
  }
}
