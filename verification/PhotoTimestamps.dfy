/** The photo timestamp adapters: ISO strings in, native dates out, and back. */
module PhotoTimestamps {
  import opened Prelude
  import opened Calendar
  import opened Decimal

  const MS_PER_DAY := 86_400_000

  /** The numbers in a string that matches the pattern of `timestampDate`. */
  datatype Fields = Fields(year: int, month: int, day: int, hour: int, minute: int, second: int, ms: int,
                           sign: int, zoneHour: int, zoneMinute: int)

  /** 1 for a trailing Z, 6 for a trailing +hh:mm. */
  function ZoneLength(s: string): nat {
    if |s| > 0 && s[|s| - 1] == 'Z' then 1 else 6
  }

  predicate DigitsAt(s: string, i: nat, n: nat) {
    i + n <= |s| && AllDigits(s[i..i + n])
  }

  predicate CharAt(s: string, i: nat, c: char) {
    i < |s| && s[i] == c
  }

  /** yyyy-mm-ddThh:mm:ss, an optional fraction of one to three digits, then Z or an offset. */
  predicate Shape(s: string) {
    && DigitsAt(s, 0, 4) && CharAt(s, 4, '-') && DigitsAt(s, 5, 2) && CharAt(s, 7, '-') && DigitsAt(s, 8, 2)
    && CharAt(s, 10, 'T')
    && DigitsAt(s, 11, 2) && CharAt(s, 13, ':') && DigitsAt(s, 14, 2) && CharAt(s, 16, ':') && DigitsAt(s, 17, 2)
    && |s| >= 19 + ZoneLength(s)
    && (var f := |s| - 19 - ZoneLength(s);
        f == 0 || (2 <= f <= 4 && s[19] == '.' && DigitsAt(s, 20, f - 1)))
    && (var z := |s| - ZoneLength(s);
        ZoneLength(s) == 1
        || ((s[z] == '+' || s[z] == '-') && DigitsAt(s, z + 1, 2) && CharAt(s, z + 3, ':') && DigitsAt(s, z + 4, 2)))
  }

  function Read(s: string): Fields
    requires Shape(s)
  {
    var z := |s| - ZoneLength(s);
    var f := z - 19;
    var ms := if f == 0 then 0 else Num(s[20..19 + f]) * (if f == 2 then 100 else if f == 3 then 10 else 1);
    Fields(Num(s[0..4]), Num(s[5..7]), Num(s[8..10]), Num(s[11..13]), Num(s[14..16]), Num(s[17..19]), ms,
           if s[z] == '-' then -1 else 1,
           if s[z] == 'Z' then 0 else Num(s[z + 1..z + 3]),
           if s[z] == 'Z' then 0 else Num(s[z + 4..z + 6]))
  }

  function TimeOfDay(f: Fields): int {
    f.hour * 3_600_000 + f.minute * 60_000 + f.second * 1000 + f.ms
  }

  function Offset(f: Fields): int {
    f.sign * (f.zoneHour * 3_600_000 + f.zoneMinute * 60_000)
  }

  /** The UTC instant, in milliseconds, that the fields denote; days may roll over. */
  function Instant(f: Fields): int {
    MakeDay(f.year, f.month - 1, f.day) * MS_PER_DAY + TimeOfDay(f) - Offset(f)
  }

  /**
   What `new Date(text)` yields, or None for an invalid date.  Engines may refuse a day
   beyond its month (`strict`) or roll it over; ECMA-262 leaves them the choice.
   */
  function DateParse(f: Fields, strict: bool): Option<int> {
    if && 1 <= f.month <= 12 && 1 <= f.day <= 31 && (strict ==> f.day <= DaysInMonth(f.year, f.month - 1))
       && 0 <= f.hour <= 24 && (f.hour == 24 ==> f.minute == f.second == f.ms == 0)
       && 0 <= f.minute < 60 && 0 <= f.second < 60
       && 0 <= f.zoneHour < 24 && 0 <= f.zoneMinute < 60
    then Some(Instant(f))
    else None
  }

  /** A field value; a native date may itself be invalid. */
  datatype Value = DateV(time: Option<int>) | Text(text: string) | Null | Undefined | Other

  /** `timestampDate`: the instant, or None where the source throws. */
  function TimestampDate(v: Value, strict: bool): Option<int> {
    match v
    case DateV(time) => time
    case Text(s) =>
      if !Shape(s) then None else
        var f := Read(s);
        var date := DateParse(f, strict);
        if date.Some? && RollOverAccepts(f.year, f.month, f.day) && f.hour < 24 && f.minute < 60 && f.second < 60
        then date else None
    case _ => None
  }

  /** Which strings stand for an instant: a real calendar date, a real time and a real offset. */
  predicate Acceptable(s: string) {
    && Shape(s)
    && var f := Read(s);
    ValidDate(f.year, f.month, f.day) && f.hour < 24 && f.minute < 60 && f.second < 60 && f.zoneHour < 24
      && f.zoneMinute < 60
  }

  lemma MonthsHaveAtMost31Days(y: int, m: nat)
    requires m < 12
    ensures 28 <= DaysInMonth(y, m) <= 31
  {
  }

  /** Acceptance does not depend on the engine and is exactly validity of every field. */
  lemma AcceptsExactly(s: string, strict: bool)
    ensures TimestampDate(Text(s), strict) == if Acceptable(s) then Some(Instant(Read(s))) else None
  {
    if Shape(s) {
      var f := Read(s);
      hide RollOverAccepts, Instant, MakeDay;
      RollOverAcceptsExactlyValidDates(f.year, f.month, f.day);
      if 1 <= f.month <= 12 {
        MonthsHaveAtMost31Days(f.year, f.month - 1);
      }
    }
  }

  // ----- toISOString -----

  function IsoYear(y: int): string {
    if 0 <= y <= 9999 then Digits(y, 4) else if y < 0 then "-" + Digits(-y, 6) else "+" + Digits(y, 6)
  }

  function DateText(year: string, month: string, day: string): string {
    year + "-" + month + "-" + day
  }

  function TimeText(hour: string, minute: string, second: string, ms: string): string {
    hour + ":" + minute + ":" + second + "." + ms + "Z"
  }

  function IsoString(time: int): string {
    var c, tod := CivilOf(time / MS_PER_DAY), time % MS_PER_DAY;
    DateText(IsoYear(c.year), Digits(c.month + 1, 2), Digits(c.day, 2)) + "T"
    + TimeText(Digits(tod / 3_600_000, 2), Digits(tod / 60_000 % 60, 2), Digits(tod / 1000 % 60, 2),
      Digits(tod % 1000, 3))
  }

  /** Instants whose year needs exactly four digits. */
  predicate FourDigitYear(time: int) {
    0 <= CivilOf(time / MS_PER_DAY).year <= 9999
  }

  lemma Pow10Values()
    ensures Pow10(2) == 100 && Pow10(3) == 1000 && Pow10(4) == 10_000
  {
    assert Pow10(1) == 10;
  }

  predicate Is(s: string, i: nat, piece: string) {
    i + |piece| <= |s| && s[i..i + |piece|] == piece
  }

  lemma DatePieces(y: string, mo: string, d: string, rest: string)
    requires |y| == 4 && |mo| == |d| == 2
    ensures var s := DateText(y, mo, d) + rest;
      && |DateText(y, mo, d)| == 10
      && Is(s, 0, y) && s[4] == '-' && Is(s, 5, mo) && s[7] == '-' && Is(s, 8, d)
  {
  }

  lemma TimePieces(h: string, mi: string, se: string, ms: string)
    requires |h| == |mi| == |se| == 2 && |ms| == 3
    ensures var s := TimeText(h, mi, se, ms);
      && |s| == 13
      && Is(s, 0, h) && s[2] == ':' && Is(s, 3, mi) && s[5] == ':' && Is(s, 6, se) && s[8] == '.' && Is(s, 9, ms)
      && s[12] == 'Z'
  {
  }

  /** A text of the canonical form, cut into its fields. */
  predicate Canonical(s: string) {
    Shape(s) && |s| == 24 && s[23] == 'Z'
  }

  /** `s` is the canonical text with these pieces. */
  predicate HasPieces(s: string, y: string, mo: string, d: string, h: string, mi: string, se: string, ms: string) {
    && |s| == 24
    && s[0..4] == y && s[4] == '-' && s[5..7] == mo && s[7] == '-' && s[8..10] == d && s[10] == 'T'
    && s[11..13] == h && s[13] == ':' && s[14..16] == mi && s[16] == ':' && s[17..19] == se
    && s[19] == '.' && s[20..23] == ms && s[23] == 'Z'
  }

  lemma ComposedHasPieces(y: string, mo: string, d: string, h: string, mi: string, se: string, ms: string)
    requires |y| == 4 && |mo| == |d| == |h| == |mi| == |se| == 2 && |ms| == 3
    ensures HasPieces(DateText(y, mo, d) + "T" + TimeText(h, mi, se, ms), y, mo, d, h, mi, se, ms)
  {
    var date, time := DateText(y, mo, d), TimeText(h, mi, se, ms);
    DatePieces(y, mo, d, "T" + time);
    TimePieces(h, mi, se, ms);
    hide DateText, TimeText;
    var s := date + "T" + time;
    assert s == date + ("T" + time);
    assert s[11..] == time;
    assert forall i, j | 0 <= i <= j <= 13 :: s[11 + i..11 + j] == time[i..j];
    assert forall i | 0 <= i < 13 :: s[11 + i] == time[i];
  }

  lemma PiecesAreRead(s: string, y: string, mo: string, d: string, h: string, mi: string, se: string, ms: string)
    requires HasPieces(s, y, mo, d, h, mi, se, ms)
    requires AllDigits(y) && AllDigits(mo) && AllDigits(d) && AllDigits(h) && AllDigits(mi) && AllDigits(se)
      && AllDigits(ms)
    ensures Canonical(s)
    ensures Read(s) == Fields(Num(y), Num(mo), Num(d), Num(h), Num(mi), Num(se), Num(ms), 1, 0, 0)
  {
    hide Num, AllDigits;
  }

  /** The clock fields of an instant, as toISOString reads them. */
  function FieldsOf(time: int): Fields {
    var c, tod := CivilOf(time / MS_PER_DAY), time % MS_PER_DAY;
    Fields(c.year, c.month + 1, c.day, tod / 3_600_000, tod / 60_000 % 60, tod / 1000 % 60, tod % 1000, 1, 0, 0)
  }

  lemma ClockRange(time: int)
    ensures var f := FieldsOf(time);
      && 1 <= f.month <= 12 && 1 <= f.day <= 31 && ValidDate(f.year, f.month, f.day)
      && 0 <= f.hour < 24 && 0 <= f.minute < 60 && 0 <= f.second < 60 && 0 <= f.ms < 1000
      && TimeOfDay(f) == time % MS_PER_DAY
  {
    var c := CivilOf(time / MS_PER_DAY);
    MonthsHaveAtMost31Days(c.year, c.month);
    ClockOf(time % MS_PER_DAY);
  }

  lemma ClockOf(tod: nat)
    requires tod < MS_PER_DAY
    ensures 0 <= tod / 3_600_000 < 24
    ensures tod / 3_600_000 * 3_600_000 + tod / 60_000 % 60 * 60_000 + tod / 1000 % 60 * 1000 + tod % 1000 == tod
  {
    assert tod / 60_000 / 60 == tod / 3_600_000;
    assert tod / 1000 / 60 == tod / 60_000;
  }

  lemma FieldsDenoteInstant(time: int)
    ensures Instant(FieldsOf(time)) == time
  {
    ClockRange(time);
    DayRoundTrip(time / MS_PER_DAY);
    hide CivilOf, MakeDay, TimeOfDay;
    assert Offset(FieldsOf(time)) == 0;
  }

  /** The canonical text of fields within their decimal widths. */
  function TextOf(f: Fields): string
    requires 0 <= f.year && 0 <= f.month && 0 <= f.day && 0 <= f.hour && 0 <= f.minute && 0 <= f.second && 0 <= f.ms
  {
    DateText(Digits(f.year, 4), Digits(f.month, 2), Digits(f.day, 2)) + "T"
    + TimeText(Digits(f.hour, 2), Digits(f.minute, 2), Digits(f.second, 2), Digits(f.ms, 3))
  }

  lemma TextReads(f: Fields)
    requires 0 <= f.year < 10_000 && 0 <= f.month < 100 && 0 <= f.day < 100
    requires 0 <= f.hour < 100 && 0 <= f.minute < 100 && 0 <= f.second < 100 && 0 <= f.ms < 1000
    requires f.sign == 1 && f.zoneHour == f.zoneMinute == 0
    ensures Canonical(TextOf(f)) && Read(TextOf(f)) == f
  {
    Pow10Values();
    NumOfDigits(f.year, 4);
    NumOfDigits(f.month, 2);
    NumOfDigits(f.day, 2);
    NumOfDigits(f.hour, 2);
    NumOfDigits(f.minute, 2);
    NumOfDigits(f.second, 2);
    NumOfDigits(f.ms, 3);
    hide Digits, Num, HasPieces, Canonical, Read, DateText, TimeText, AllDigits, Pow10;
    var y, mo, d := Digits(f.year, 4), Digits(f.month, 2), Digits(f.day, 2);
    var h, mi, se, ms := Digits(f.hour, 2), Digits(f.minute, 2), Digits(f.second, 2), Digits(f.ms, 3);
    ComposedHasPieces(y, mo, d, h, mi, se, ms);
    PiecesAreRead(TextOf(f), y, mo, d, h, mi, se, ms);
  }

  /** toISOString writes a canonical text of the instant's own fields, if the year has four digits. */
  lemma IsoReads(time: int)
    requires FourDigitYear(time)
    ensures Canonical(IsoString(time)) && Read(IsoString(time)) == FieldsOf(time)
  {
    ClockRange(time);
    hide Digits, Canonical, Read, DateText, TimeText, CivilOf, ValidDate, TimeOfDay;
    assert IsoString(time) == TextOf(FieldsOf(time));
    TextReads(FieldsOf(time));
  }

  /**
   A native date written out is read back as the same instant exactly when its year has
   four digits; beyond, toISOString uses a signed six-digit year, which the pattern refuses.
   */
  lemma DateSurvivesTextIff(time: int, strict: bool)
    ensures FourDigitYear(time) ==> TimestampDate(Text(IsoString(time)), strict) == Some(time)
    ensures !FourDigitYear(time) ==> TimestampDate(Text(IsoString(time)), strict) == None
  {
    if FourDigitYear(time) {
      IsoReads(time);
      ClockRange(time);
      FieldsDenoteInstant(time);
      AcceptsExactly(IsoString(time), strict);
    } else {
      SignedYearIsRefused(time);
    }
  }

  lemma SignedYearIsRefused(time: int)
    requires !FourDigitYear(time)
    ensures !Shape(IsoString(time))
  {
    var s := IsoString(time);
    assert s[0] == '-' || s[0] == '+';
    assert !IsDigit(s[0..4][0]);
  }

  lemma CanonicalPieces(s: string)
    requires Canonical(s)
    ensures HasPieces(s, s[0..4], s[5..7], s[8..10], s[11..13], s[14..16], s[17..19], s[20..23])
    ensures AllDigits(s[20..23])
    ensures s == DateText(s[0..4], s[5..7], s[8..10]) + "T" + TimeText(s[11..13], s[14..16], s[17..19], s[20..23])
  {
    ComposedHasPieces(s[0..4], s[5..7], s[8..10], s[11..13], s[14..16], s[17..19], s[20..23]);
    SamePieces(s, DateText(s[0..4], s[5..7], s[8..10]) + "T" + TimeText(s[11..13], s[14..16], s[17..19], s[20..23]),
               s[0..4], s[5..7], s[8..10], s[11..13], s[14..16], s[17..19], s[20..23]);
  }

  lemma SamePieces(s: string, t: string, y: string, mo: string, d: string, h: string, mi: string, se: string,
    ms: string)
    requires HasPieces(s, y, mo, d, h, mi, se, ms) && HasPieces(t, y, mo, d, h, mi, se, ms)
    ensures s == t
  {
    PiecesCover(s, t, 0, 4);
    PiecesCover(s, t, 5, 7);
    PiecesCover(s, t, 8, 10);
    PiecesCover(s, t, 11, 13);
    PiecesCover(s, t, 14, 16);
    PiecesCover(s, t, 17, 19);
    PiecesCover(s, t, 20, 23);
  }

  lemma PiecesCover(s: string, t: string, lo: nat, hi: nat)
    requires lo <= hi <= |s| == |t| && s[lo..hi] == t[lo..hi]
    ensures forall i | lo <= i < hi :: s[i] == t[i]
  {
    forall i | lo <= i < hi ensures s[i] == t[i] {
      assert s[i] == s[lo..hi][i - lo];
      assert t[i] == t[lo..hi][i - lo];
    }
  }

  /** An acceptable canonical text comes back unchanged from the instant it denotes. */
  lemma CanonicalTextSurvives(s: string)
    requires Canonical(s) && Acceptable(s)
    ensures FourDigitYear(Instant(Read(s))) && IsoString(Instant(Read(s))) == s
  {
    CanonicalPieces(s);
    var f := Read(s);
    DigitsOfNum(s[0..4]);
    DigitsOfNum(s[5..7]);
    DigitsOfNum(s[8..10]);
    DigitsOfNum(s[11..13]);
    DigitsOfNum(s[14..16]);
    DigitsOfNum(s[17..19]);
    DigitsOfNum(s[20..23]);
    Pow10Values();
    PiecesAreRead(s, s[0..4], s[5..7], s[8..10], s[11..13], s[14..16], s[17..19], s[20..23]);
    hide Digits, Num, HasPieces, Canonical, Read, DateText, TimeText, AllDigits, CivilOf, MakeDay, DaysInMonth, Shape;
    CivilRoundTrip(Civil(f.year, f.month - 1, f.day));
    ClockFromFields(f);
  }

  lemma ClockFromFields(f: Fields)
    requires 0 <= f.hour < 24 && 0 <= f.minute < 60 && 0 <= f.second < 60 && 0 <= f.ms < 1000
    requires f.zoneHour == f.zoneMinute == 0
    ensures Instant(f) / MS_PER_DAY == MakeDay(f.year, f.month - 1, f.day)
    ensures var tod := Instant(f) % MS_PER_DAY;
      tod / 3_600_000 == f.hour && tod / 60_000 % 60 == f.minute && tod / 1000 % 60 == f.second && tod % 1000 == f.ms
  {
    hide MakeDay;
    var tod := TimeOfDay(f);
    assert Offset(f) == 0;
    assert 0 <= tod < MS_PER_DAY;
    assert Instant(f) == MakeDay(f.year, f.month - 1, f.day) * MS_PER_DAY + tod;
    assert tod / 60_000 == f.hour * 60 + f.minute;
    assert tod / 1000 == (f.hour * 60 + f.minute) * 60 + f.second;
  }
}
