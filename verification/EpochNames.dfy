/** Epoch snapshot names as strings (`identity.rs`, `replica_sync.rs`) and how `SyncRecord.EpochName` reads them. */
module EpochNames {
  import opened Outcomes
  import opened Text
  import SyncRecord

  const PREFIX := "epoch-"

  function Name(volume: string, number: nat): string {
    PREFIX + volume + "-" + Decimal(number)
  }

  /** The sequence number of one of this volume's epoch names; None for anything else. */
  function Seq(volume: string, name: string): Option<nat> {
    if !(PREFIX <= name) then None
    else
      var rest := name[|PREFIX|..];
      if !(volume <= rest) then None
      else
        var tail := rest[|volume|..];
        if tail == "" || tail[0] != '-' || tail[1..] == "" then None else ParseU64(tail[1..])
  }

  /** How the scheduler's model reads a snapshot name found on a node. */
  function Read(volume: string, name: string): SyncRecord.EpochName {
    var number := Seq(volume, name);
    if number.Some? then SyncRecord.Epoch(number.value) else SyncRecord.Other(name)
  }

  /**
   The "is it ours" filter is strict: an epoch name is read back as its number by its own volume and by no other, even
   when one volume's name extends another's.
   */
  lemma NamesAreStrict(volume: string, other: string, number: nat)
    requires number <= U64_MAX
    ensures Seq(volume, Name(other, number)) == if volume == other then Some(number) else None
    ensures Read(volume, Name(other, number)) ==
            if volume == other then SyncRecord.Epoch(number) else SyncRecord.Other(Name(other, number))
  {
    var digits := Decimal(number);
    var name := Name(other, number);
    var rest := name[|PREFIX|..];
    assert rest == other + "-" + digits;
    if volume <= rest {
      var tail := rest[|volume|..];
      if |volume| == |other| {
        assert volume == other && tail[1..] == digits;
        ParseDecimal(number);
      } else if |volume| < |other| {
        assert tail == other[|volume|..] + "-" + digits;
        var dash := |other| - |volume|;
        assert tail[dash] == '-' && !IsDigit(tail[dash]);
        if tail[0] == '-' {
          assert tail[1..][dash - 1] == '-';
          NotANumber(tail[1..], dash - 1);
        }
      } else {
        assert tail == digits[|volume| - |other| - 1..];
      }
    }
  }

  lemma NotANumber(s: string, i: nat)
    requires i < |s| && s[i] == '-'
    ensures ParseU64(s) == None
  {
    if s[0] == '+' {
      assert s[1..][i - 1] == '-';
    }
  }
}
