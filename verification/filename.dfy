/** The audio file name `generateFilename` builds from the completion time, and the record path
    a saved run stores. */
module Filename {
  import opened Wrappers
  import opened Text

  /** The calendar fields `Date` reports: `getDate()`, `getMonth()` (0-based), `getFullYear()`,
      `getHours()`, `getMinutes()`. */
  datatype Stamp = Stamp(day: nat, month0: nat, year: nat, hour: nat, minute: nat)

  predicate ValidStamp(t: Stamp)
  {
    1 <= t.day <= 31 && t.month0 < 12 && t.hour < 24 && t.minute < 60
  }

  const Prefix := "noticia_"
  const Extension := ".mp3"
  const RecordFolder := "/noticias/"

  /** `noticia_` + day-month- (both two digits, month counted from 1). */
  function Head(t: Stamp): (r: string)
    requires ValidStamp(t)
    ensures |r| == 14 && r[..8] == Prefix && r[10] == '-' && r[13] == '-'
    ensures r[8..10] == PadTwo(t.day) && r[11..13] == PadTwo(t.month0 + 1)
  {
    Prefix + PadTwo(t.day) + "-" + PadTwo(t.month0 + 1) + "-"
  }

  /** `__` + hour-minute (both two digits) + `.mp3`. */
  function Tail(t: Stamp): (r: string)
    requires ValidStamp(t)
    ensures |r| == 11 && r[..2] == "__" && r[4] == '-' && r[7..] == Extension
    ensures r[2..4] == PadTwo(t.hour) && r[5..7] == PadTwo(t.minute)
  {
    "__" + PadTwo(t.hour) + "-" + PadTwo(t.minute) + Extension
  }

  /** `noticia_DD-MM-YYYY__HH-MM.mp3`; the year is written unpadded. */
  function GenerateFilename(t: Stamp): (r: string)
    requires ValidStamp(t)
    ensures |r| == 25 + |Decimal(t.year)|
    ensures r[..14] == Head(t) && r[14..|r| - 11] == Decimal(t.year) && r[|r| - 11..] == Tail(t)
  {
    var r := Head(t) + Decimal(t.year) + Tail(t);
    assert r[..14] == Head(t);
    assert r[14..|r| - 11] == Decimal(t.year);
    r
  }

  /** The path kept in the saved-run record. */
  function RecordPath(t: Stamp): (r: string)
    requires ValidStamp(t)
    ensures |r| == |RecordFolder| + |GenerateFilename(t)|
    ensures r[..|RecordFolder|] == RecordFolder && r[|RecordFolder|..] == GenerateFilename(t)
  {
    RecordFolder + GenerateFilename(t)
  }

  function TwoDigits(s: string): Option<nat>
  {
    if |s| == 2 && AllDigits(s) then Some(DigitsValue(s)) else None
  }

  /** Reads the fields back out of a file name of this shape. */
  function ParseFilename(s: string): (r: Option<Stamp>)
    ensures r.Some? ==> |s| >= 26 && s[..8] == Prefix && s[|s| - 4..] == Extension
  {
    if |s| < 26 || s[..8] != Prefix || s[10] != '-' || s[13] != '-'
      || s[|s| - 11..|s| - 9] != "__" || s[|s| - 7] != '-' || s[|s| - 4..] != Extension
    then None
    else
      var year := s[14..|s| - 11];
      var day := TwoDigits(s[8..10]);
      var month := TwoDigits(s[11..13]);
      var hour := TwoDigits(s[|s| - 9..|s| - 7]);
      var minute := TwoDigits(s[|s| - 6..|s| - 4]);
      if day.None? || month.None? || hour.None? || minute.None? || month.value == 0 || !AllDigits(year)
      then None
      else Some(Stamp(day.value, month.value - 1, DigitsValue(year), hour.value, minute.value))
  }

  lemma TwoDigitsOfPad(n: nat)
    requires n < 100
    ensures TwoDigits(PadTwo(n)) == Some(n)
  {
  }

  /** Where the day and month sit in a file name. */
  lemma HeadFields(t: Stamp)
    requires ValidStamp(t)
    ensures var s := GenerateFilename(t);
      && s[..8] == Prefix && s[10] == '-' && s[13] == '-'
      && s[8..10] == PadTwo(t.day) && s[11..13] == PadTwo(t.month0 + 1)
  {
    var s := GenerateFilename(t);
    var h := Head(t);
    assert s[..8] == h[..8];
    assert s[10] == h[10] && s[13] == h[13];
    assert s[8..10] == h[8..10] && s[11..13] == h[11..13];
  }

  /** Where the hour and minute sit in a file name, counted from its end. */
  lemma TailFields(t: Stamp)
    requires ValidStamp(t)
    ensures var s := GenerateFilename(t);
      && s[|s| - 11..|s| - 9] == "__" && s[|s| - 7] == '-' && s[|s| - 4..] == Extension
      && s[|s| - 9..|s| - 7] == PadTwo(t.hour) && s[|s| - 6..|s| - 4] == PadTwo(t.minute)
  {
    var s := GenerateFilename(t);
    var tl := Tail(t);
    assert s[|s| - 11..|s| - 9] == tl[..2];
    assert s[|s| - 7] == tl[4];
    assert s[|s| - 4..] == tl[7..];
    assert s[|s| - 9..|s| - 7] == tl[2..4] && s[|s| - 6..|s| - 4] == tl[5..7];
  }

  /** Every field survives the trip through the file name. */
  lemma {:induction false} ParseGenerate(t: Stamp)
    requires ValidStamp(t)
    ensures ParseFilename(GenerateFilename(t)) == Some(t)
  {
    HeadFields(t);
    TailFields(t);
    TwoDigitsOfPad(t.day);
    TwoDigitsOfPad(t.month0 + 1);
    TwoDigitsOfPad(t.hour);
    TwoDigitsOfPad(t.minute);
    DecimalRoundTrip(t.year);
  }

  /** Distinct completion minutes never share a file name. */
  lemma FilenameInjective(t: Stamp, u: Stamp)
    requires ValidStamp(t) && ValidStamp(u) && GenerateFilename(t) == GenerateFilename(u)
    ensures t == u
  {
    ParseGenerate(t);
    ParseGenerate(u);
  }
}
