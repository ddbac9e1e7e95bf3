/** The 32 characters of a serial number: the time in decimal, the last four digits of
  * an id, and as much of a short unique id as still fits. */
module SerialNumber {
  import opened Wrappers
  import opened MachineIntegers
  import opened Decimals

  const LENGTH := 32

  /** The verb %04d: zeros go between the sign and the digits; what is wider is not cut. */
  function FormatPadded(x: int): string {
    var sign, digits := if x < 0 then "-" else "", Decimal(if x < 0 then -x else x);
    var width := |sign| + |digits|;
    sign + Zeros(if width < 4 then 4 - width else 0) + digits
  }

  /** Go's remainder takes the sign of the dividend. */
  function Remainder(x: int, m: int): int
    requires m > 0
  {
    if x >= 0 then x % m else -((-x) % m)
  }

  // ----- the generator -----

  function LastFour(id: int): string {
    FormatPadded(Remainder(id, 10000))
  }

  function Whole(timestamp: int, id: int, uuid: string): string {
    FormatInt(timestamp) + LastFour(id) + uuid
  }

  /** Taking the first 32 of too few characters panics; there is no other failure. */
  function Generate(timestamp: Int64, id: Int64, uuid: string): Option<string> {
    var s := Whole(timestamp, id, uuid);
    if |s| < LENGTH then None else Some(s[..LENGTH])
  }

  /** The id part is four characters, five for an id whose remainder is below -999. */
  lemma LastFourWidth(id: int)
    ensures |LastFour(id)| == if Remainder(id, 10000) <= -1000 then 5 else 4
  {
    var r := Remainder(id, 10000);
    var n := if r < 0 then -r else r;
    SmallPowers();
    DecimalWidth(n, 3);
    DecimalWidth(n, 4);
  }

  lemma SmallPowers()
    ensures Pow10(3) == 1000 && Pow10(4) == 10000 && Pow10(5) == 100000
    ensures Pow10(12) == 1_000_000_000_000 && Pow10(13) == 10_000_000_000_000
  {
    assert Pow10(3) == 1000 by { assert Pow10(1) == 10 && Pow10(2) == 100; }
    assert Pow10(6) == 1000_000 by { assert Pow10(4) == 10000 && Pow10(5) == 100000; }
    assert Pow10(9) == 1_000_000_000 by { assert Pow10(7) == 10_000_000 && Pow10(8) == 100_000_000; }
    assert Pow10(12) == 1_000_000_000_000 by { assert Pow10(10) == 10_000_000_000 && Pow10(11) == 100_000_000_000; }
  }

  lemma LastFourReadsBack(id: nat)
    ensures |LastFour(id)| == 4 && ParseInt(LastFour(id)) == Some(id % 10000)
  {
    LastFourWidth(id);
    var digits := Decimal(id % 10000);
    assert LastFour(id) == Zeros(4 - |digits|) + digits;
    LeadingZeros(4 - |digits|, digits);
    DecimalReadsBack(id % 10000);
  }

  /** There are enough characters exactly when what the time and the unique id leave is covered
    * by the id part. */
  lemma GenerateSucceeds(timestamp: Int64, id: Int64, uuid: string)
    ensures var r := Generate(timestamp, id, uuid);
            && (r.Some? <==>
                  |FormatInt(timestamp)| + |uuid| + (if Remainder(id, 10000) <= -1000 then 5 else 4) >= LENGTH)
            && (r.Some? ==> |r.value| == LENGTH)
  {
    LastFourWidth(id);
  }

  /** With a unique id of 22 characters, six digits of time are what it takes. */
  lemma AlwaysLongEnough(timestamp: Int64, id: Int64, uuid: string)
    requires |uuid| == 22 && timestamp >= 0 && id >= 0
    ensures Generate(timestamp, id, uuid).Some? <==> timestamp >= 100000
  {
    SmallPowers();
    DecimalWidth(timestamp, 5);
    GenerateSucceeds(timestamp, id, uuid);
  }

  /** The milliseconds from September 2001 to November 2286 have thirteen digits. */
  predicate Current(timestamp: int) {
    1_000_000_000_000 <= timestamp < 10_000_000_000_000
  }

  lemma CurrentWidth(timestamp: int)
    requires timestamp >= 0
    ensures |FormatInt(timestamp)| == 13 <==> Current(timestamp)
  {
    SmallPowers();
    DecimalWidth(timestamp, 12);
    DecimalWidth(timestamp, 13);
  }

  /** What a serial number says: time and id can be read back, and fifteen characters of the
    * unique id are kept. */
  lemma SerialReadsBack(timestamp: Int64, id: Int64, uuid: string)
    requires Current(timestamp) && id >= 0 && |uuid| >= 15
    ensures var r := Generate(timestamp, id, uuid);
            && r.Some? && |r.value| == LENGTH
            && ParseInt(r.value[..13]) == Some(timestamp) && ParseInt(r.value[13..17]) == Some(id % 10000)
            && r.value[17..] == uuid[..15]
  {
    CurrentWidth(timestamp);
    LastFourReadsBack(id);
    GenerateSucceeds(timestamp, id, uuid);
    FormatReadsBack(timestamp);
    Parts(FormatInt(timestamp), LastFour(id), uuid);
  }

  lemma Parts(time: string, four: string, uuid: string)
    requires |time| == 13 && |four| == 4 && |uuid| >= 15
    ensures var s := (time + four + uuid)[..LENGTH];
            s[..13] == time && s[13..17] == four && s[17..] == uuid[..15] && s == time + four + uuid[..15]
  {}

  /** Two serial numbers are the same exactly when time, last four digits and the kept part of
    * the unique id are. */
  lemma SerialsCollide(t: Int64, id: Int64, uuid: string, t': Int64, id': Int64, uuid': string)
    requires Current(t) && id >= 0 && |uuid| >= 15
    requires Current(t') && id' >= 0 && |uuid'| >= 15
    ensures Generate(t, id, uuid) == Generate(t', id', uuid') <==>
            t == t' && id % 10000 == id' % 10000 && uuid[..15] == uuid'[..15]
  {
    SerialReadsBack(t, id, uuid);
    SerialReadsBack(t', id', uuid');
    CurrentWidth(t);
    CurrentWidth(t');
    LastFourReadsBack(id);
    LastFourReadsBack(id');
    Parts(FormatInt(t), LastFour(id), uuid);
    Parts(FormatInt(t'), LastFour(id'), uuid');
  }
}
