/** Which texts a photo timestamp may be, and which instant each of them is, told on the text itself. */
module TimestampMeaning {
  import opened Prelude
  import opened Calendar
  import opened Decimal
  import opened PhotoTimestamps

  /** A date and a time of day to the second, in digits. */
  datatype Clock = Clock(year: string, month: string, day: string, hour: string, minute: string, second: string)

  predicate IsNumber(s: string, width: nat) {
    |s| == width && forall i | 0 <= i < |s| :: '0' <= s[i] <= '9'
  }

  predicate IsClock(c: Clock) {
    && IsNumber(c.year, 4) && IsNumber(c.month, 2) && IsNumber(c.day, 2)
    && IsNumber(c.hour, 2) && IsNumber(c.minute, 2) && IsNumber(c.second, 2)
  }

  function ClockText(c: Clock): string {
    c.year + "-" + c.month + "-" + c.day + "T" + c.hour + ":" + c.minute + ":" + c.second
  }

  datatype Zone = Utc | Ahead(hours: string, minutes: string) | Behind(hours: string, minutes: string)

  predicate IsZone(z: Zone) {
    z.Utc? || (IsNumber(z.hours, 2) && IsNumber(z.minutes, 2))
  }

  function ZoneText(z: Zone): string {
    match z
    case Utc => "Z"
    case Ahead(hours, minutes) => "+" + hours + ":" + minutes
    case Behind(hours, minutes) => "-" + hours + ":" + minutes
  }

  /** Up to three decimals of a second; none has no point either. */
  predicate IsFraction(digits: string) {
    |digits| <= 3 && IsNumber(digits, |digits|)
  }

  function FractionText(digits: string): string {
    if digits == "" then "" else "." + digits
  }

  function FullText(c: Clock, digits: string, z: Zone): string {
    ClockText(c) + FractionText(digits) + ZoneText(z)
  }

  ghost predicate Writes(s: string, c: Clock, digits: string, z: Zone) {
    IsClock(c) && IsFraction(digits) && IsZone(z) && s == FullText(c, digits, z)
  }

  lemma ClockPieces(c: Clock, rest: string)
    requires IsClock(c)
    ensures var s := ClockText(c) + rest;
      && |ClockText(c)| == 19 && s[19..] == rest
      && s[0..4] == c.year && s[4] == '-' && s[5..7] == c.month && s[7] == '-' && s[8..10] == c.day && s[10] == 'T'
      && s[11..13] == c.hour && s[13] == ':' && s[14..16] == c.minute && s[16] == ':' && s[17..19] == c.second
  {
    var a := c.year + "-" + c.month + "-" + c.day;
    var b := "T" + c.hour + ":" + c.minute + ":" + c.second;
    assert |a| == 10 && |b| == 9;
    var s := ClockText(c) + rest;
    assert s == a + b + rest;
    assert s[..10] == a && s[10..19] == b;
    assert s[0..4] == a[0..4] == c.year && s[5..7] == a[5..7] == c.month && s[8..10] == a[8..10] == c.day;
    assert s[11..13] == b[1..3] == c.hour && s[14..16] == b[4..6] == c.minute && s[17..19] == b[7..9] == c.second;
    assert s[4] == a[4] && s[7] == a[7] && s[10] == b[0] && s[13] == b[3] && s[16] == b[6];
  }

  /** `t` is a zone from `f` on. */
  predicate HasZone(t: string, f: nat, z: Zone) {
    && |t| == f + (if z.Utc? then 1 else 6)
    && (z.Utc? <==> t[|t| - 1] == 'Z')
    && t[f] == (match z case Utc => 'Z' case Ahead(_, _) => '+' case Behind(_, _) => '-')
    && (!z.Utc? ==> t[f + 1..f + 3] == z.hours && t[f + 3] == ':' && t[f + 4..f + 6] == z.minutes)
  }

  lemma ZonePieces(z: Zone)
    requires IsZone(z)
    ensures HasZone(ZoneText(z), 0, z)
  {
    if !z.Utc? {
      var t := ZoneText(z);
      var sign := if z.Ahead? then "+" else "-";
      assert t == sign + z.hours + ":" + z.minutes;
      assert t[5] == z.minutes[1];
    }
  }

  lemma ZoneAfter(head: string, t: string, f: nat, z: Zone)
    requires HasZone(t, f, z)
    ensures HasZone(head + t, |head| + f, z)
  {
    var s := head + t;
    assert forall i | 0 <= i < |t| :: s[|head| + i] == t[i];
    var g := |head| + f;
    if !z.Utc? {
      assert s[g + 1..g + 3] == t[f + 1..f + 3] && s[g + 4..g + 6] == t[f + 4..f + 6];
    }
  }

  /** Zeros to the right make any fraction one of milliseconds. */
  function Padded(digits: string): string {
    if |digits| == 0 then "000"
    else if |digits| == 1 then digits + "00"
    else if |digits| == 2 then digits + "0"
    else digits
  }

  lemma ZeroTimesTen(digits: string)
    requires AllDigits(digits)
    ensures AllDigits(digits + "0") && Num(digits + "0") == Num(digits) * 10
  {
    assert (digits + "0")[..|digits|] == digits;
  }

  lemma TwoZeros(digits: string)
    requires AllDigits(digits)
    ensures AllDigits(digits + "00") && Num(digits + "00") == Num(digits) * 100
  {
    ZeroTimesTen(digits);
    ZeroTimesTen(digits + "0");
    hide Num;
    assert digits + "0" + "0" == digits + "00";
  }

  lemma ThreeZeros()
    ensures AllDigits("000") && Num("000") == 0
  {
    TwoZeros("");
    ZeroTimesTen("00");
    assert "" + "00" == "00" && "00" + "0" == "000";
  }

  lemma PaddedNum(digits: string)
    requires IsFraction(digits)
    ensures AllDigits(digits) && AllDigits(Padded(digits)) && |Padded(digits)| == 3
    ensures digits == "" ==> Num(Padded(digits)) == 0
    ensures digits != "" ==>
      Num(Padded(digits)) == Num(digits) * (if |digits| == 1 then 100 else if |digits| == 2 then 10 else 1)
  {
    ThreeZeros();
    ZeroTimesTen(digits);
    TwoZeros(digits);
    hide Num;
  }

  /** The numbers that a text of this form holds. */
  function FieldsIn(c: Clock, digits: string, z: Zone): Fields
    requires IsClock(c) && IsFraction(digits) && IsZone(z)
  {
    PaddedNum(digits);
    Fields(Num(c.year), Num(c.month), Num(c.day), Num(c.hour), Num(c.minute), Num(c.second),
           Num(Padded(digits)), if z.Behind? then -1 else 1,
           if z.Utc? then 0 else Num(z.hours), if z.Utc? then 0 else Num(z.minutes))
  }

  predicate HasClock(s: string, c: Clock) {
    && |s| >= 19
    && s[0..4] == c.year && s[4] == '-' && s[5..7] == c.month && s[7] == '-' && s[8..10] == c.day && s[10] == 'T'
    && s[11..13] == c.hour && s[13] == ':' && s[14..16] == c.minute && s[16] == ':' && s[17..19] == c.second
  }

  predicate HasFraction(s: string, digits: string) {
    if digits == "" then true
    else |s| >= 20 + |digits| && s[19] == '.' && s[20..20 + |digits|] == digits
  }

  function ZoneAt(digits: string): nat {
    if digits == "" then 19 else 20 + |digits|
  }

  lemma FullTextHasPieces(c: Clock, digits: string, z: Zone)
    requires IsClock(c) && IsFraction(digits) && IsZone(z)
    ensures var s := FullText(c, digits, z);
      HasClock(s, c) && HasFraction(s, digits) && HasZone(s, ZoneAt(digits), z)
  {
    var clock, fraction, zone := ClockText(c), FractionText(digits), ZoneText(z);
    var s := FullText(c, digits, z);
    assert s == clock + (fraction + zone);
    ClockPieces(c, fraction + zone);
    ZonePieces(z);
    hide ClockText, ZoneText, HasZone, HasFraction, FractionText, HasClock, ZoneAt;
    ZoneAfter(clock + fraction, zone, 0, z);
    FractionAfter(clock, digits, zone);
    assert clock + (FractionText(digits) + zone) == s;
  }

  lemma FractionAfter(head: string, digits: string, zone: string)
    requires |head| == 19
    ensures HasFraction(head + (FractionText(digits) + zone), digits)
    ensures |head + FractionText(digits)| == ZoneAt(digits)
  {
    var s := head + (FractionText(digits) + zone);
    if digits != "" {
      assert s[19..] == FractionText(digits) + zone;
      assert s[20..20 + |digits|] == digits;
    }
  }

  lemma PiecesRead(s: string, c: Clock, digits: string, z: Zone)
    requires IsClock(c) && IsFraction(digits) && IsZone(z)
    requires HasClock(s, c) && HasFraction(s, digits) && HasZone(s, ZoneAt(digits), z)
    ensures Shape(s) && Read(s) == FieldsIn(c, digits, z)
  {
    PaddedNum(digits);
    hide Num, Padded;
    assert ZoneLength(s) == if z.Utc? then 1 else 6;
  }

  lemma FullTextReads(c: Clock, digits: string, z: Zone)
    requires IsClock(c) && IsFraction(digits) && IsZone(z)
    ensures Shape(FullText(c, digits, z)) && Read(FullText(c, digits, z)) == FieldsIn(c, digits, z)
  {
    FullTextHasPieces(c, digits, z);
    PiecesRead(FullText(c, digits, z), c, digits, z);
  }

  lemma SameText(s: string, t: string, c: Clock, digits: string, z: Zone)
    requires IsClock(c) && IsFraction(digits) && IsZone(z)
    requires HasClock(s, c) && HasFraction(s, digits) && HasZone(s, ZoneAt(digits), z)
    requires HasClock(t, c) && HasFraction(t, digits) && HasZone(t, ZoneAt(digits), z)
    ensures s == t
  {
    PiecesCover(s, t, 0, 4);
    PiecesCover(s, t, 5, 7);
    PiecesCover(s, t, 8, 10);
    PiecesCover(s, t, 11, 13);
    PiecesCover(s, t, 14, 16);
    PiecesCover(s, t, 17, 19);
    if digits != "" {
      PiecesCover(s, t, 20, 20 + |digits|);
    }
    if !z.Utc? {
      PiecesCover(s, t, ZoneAt(digits) + 1, ZoneAt(digits) + 3);
      PiecesCover(s, t, ZoneAt(digits) + 4, ZoneAt(digits) + 6);
    }
    hide HasClock, HasFraction;
  }

  /** The pattern: a date, a time of day, at most three decimals and a zone, and nothing else. */
  lemma ShapeIff(s: string)
    ensures Shape(s) <==> exists c, digits, z :: Writes(s, c, digits, z)
  {
    if c, digits, z :| Writes(s, c, digits, z) {
      FullTextReads(c, digits, z);
    }
    if Shape(s) {
      var c, digits, z := PiecesOf(s);
      hide Shape, HasClock, HasFraction, HasZone, FullText, ZoneAt;
      FullTextHasPieces(c, digits, z);
      SameText(s, FullText(c, digits, z), c, digits, z);
      assert Writes(s, c, digits, z);
    }
  }

  lemma PiecesOf(s: string) returns (c: Clock, digits: string, z: Zone)
    requires Shape(s)
    ensures IsClock(c) && IsFraction(digits) && IsZone(z)
    ensures HasClock(s, c) && HasFraction(s, digits) && HasZone(s, ZoneAt(digits), z)
  {
    var at := |s| - ZoneLength(s);
    c := Clock(s[0..4], s[5..7], s[8..10], s[11..13], s[14..16], s[17..19]);
    digits := if at == 19 then "" else s[20..at];
    z := if s[at] == 'Z' then Utc
         else if s[at] == '+' then Ahead(s[at + 1..at + 3], s[at + 4..at + 6])
         else Behind(s[at + 1..at + 3], s[at + 4..at + 6]);
    assert ZoneLength(s) == 6 ==> IsDigit(s[at + 4..at + 6][1]);
  }

  /** What a text of this form is read as. */
  function InstantOf(c: Clock, digits: string, z: Zone, strict: bool): Option<int> {
    TimestampDate(Text(FullText(c, digits, z)), strict)
  }

  /** A text is accepted exactly when its date exists and its clock and zone show times of day. */
  lemma AcceptedIff(c: Clock, digits: string, z: Zone, strict: bool)
    requires IsClock(c) && IsFraction(digits) && IsZone(z)
    ensures InstantOf(c, digits, z, strict).Some? <==>
      && ValidDate(Num(c.year), Num(c.month), Num(c.day))
      && Num(c.hour) < 24 && Num(c.minute) < 60 && Num(c.second) < 60
      && (!z.Utc? ==> Num(z.hours) < 24 && Num(z.minutes) < 60)
  {
    hide FullText, Shape, Read, Num, TimestampDate;
    FullTextReads(c, digits, z);
    AcceptsExactly(FullText(c, digits, z), strict);
  }

  /** A text with Z is the instant that the calendar and the clock say. */
  lemma UtcTextIsItsInstant(c: Clock, digits: string, strict: bool)
    requires IsClock(c) && |digits| == 3 && IsNumber(digits, 3)
    requires InstantOf(c, digits, Utc, strict).Some?
    ensures InstantOf(c, digits, Utc, strict) == Some(
      MakeDay(Num(c.year), Num(c.month) - 1, Num(c.day)) * 86_400_000
      + ((Num(c.hour) * 60 + Num(c.minute)) * 60 + Num(c.second)) * 1000 + Num(digits))
  {
    hide FullText, Shape, Read, Num, TimestampDate, MakeDay;
    FullTextReads(c, digits, Utc);
    AcceptsExactly(FullText(c, digits, Utc), strict);
  }

  /** By how much clocks in this zone are ahead of UTC. */
  function MinutesAhead(z: Zone): int
    requires IsZone(z)
  {
    match z
    case Utc => 0
    case Ahead(hours, minutes) => 60 * Num(hours) + Num(minutes)
    case Behind(hours, minutes) => -(60 * Num(hours) + Num(minutes))
  }

  /** A zone ahead of UTC by so many minutes makes the same clock that much earlier, one behind that much later. */
  lemma ZoneShiftsTheInstant(c: Clock, digits: string, z: Zone, strict: bool)
    requires IsClock(c) && IsFraction(digits) && IsZone(z)
    requires InstantOf(c, digits, z, strict).Some?
    ensures InstantOf(c, digits, Utc, strict).Some?
    ensures InstantOf(c, digits, z, strict).value ==
      InstantOf(c, digits, Utc, strict).value - 60_000 * MinutesAhead(z)
  {
    hide FullText, Shape, Read, Num, TimestampDate, MakeDay;
    FullTextReads(c, digits, z);
    FullTextReads(c, digits, Utc);
    AcceptsExactly(FullText(c, digits, z), strict);
    AcceptsExactly(FullText(c, digits, Utc), strict);
  }

  /** No fraction, one decimal or two are the same instant as with zeros up to three. */
  lemma FractionsArePadded(c: Clock, digits: string, z: Zone, strict: bool)
    requires IsClock(c) && IsFraction(digits) && IsZone(z)
    ensures var padded :=
        if |digits| == 0 then "000" else if |digits| == 1 then digits + "00"
        else if |digits| == 2 then digits + "0" else digits;
      InstantOf(c, digits, z, strict) == InstantOf(c, padded, z, strict)
  {
    PaddedNum(digits);
    assert Padded(Padded(digits)) == Padded(digits);
    hide FullText, Shape, Read, Num, TimestampDate, MakeDay;
    FullTextReads(c, digits, z);
    FullTextReads(c, Padded(digits), z);
    AcceptsExactly(FullText(c, digits, z), strict);
    AcceptsExactly(FullText(c, Padded(digits), z), strict);
  }

  /** The canonical form: three decimals and Z. */
  lemma CanonicalIff(s: string)
    ensures Canonical(s) <==> exists c, digits :: |digits| == 3 && Writes(s, c, digits, Utc)
  {
    if Canonical(s) {
      ShapeIff(s);
      var c, digits, z :| Writes(s, c, digits, z);
      FullTextHasPieces(c, digits, z);
      assert |digits| == 3 && z == Utc;
    }
    if c, digits :| |digits| == 3 && Writes(s, c, digits, Utc) {
      FullTextReads(c, digits, Utc);
      FullTextHasPieces(c, digits, Utc);
    }
  }

  /** The same clock in a year of four digits. */
  function CommonText(time: int): string {
    ClockRange(time);
    TextOf(FieldsOf(time).(year := 2000))
  }

  /** What follows the year does not depend on it. */
  lemma YearFirst(year: string, month: string, day: string, time: string)
    ensures var s := DateText(year, month, day) + "T" + time;
      |s| >= |year| && s[..|year|] == year && s[|year|..] == "-" + month + "-" + day + "T" + time
  {
    var rest := "-" + month + "-" + day + "T" + time;
    assert DateText(year, month, day) + "T" + time == year + rest;
  }

  /** A date whose year has not four digits is written with a sign and six, and the rest as ever. */
  lemma SignedYearText(time: int)
    requires !FourDigitYear(time) && -1_000_000 < CivilOf(time / MS_PER_DAY).year < 1_000_000
    ensures var year, s := CivilOf(time / MS_PER_DAY).year, IsoString(time);
      && |s| >= 7 && s[0] == (if year < 0 then '-' else '+')
      && AllDigits(s[1..7]) && Num(s[1..7]) == (if year < 0 then -year else year)
      && |CommonText(time)| >= 4 && s[7..] == CommonText(time)[4..]
  {
    var year := CivilOf(time / MS_PER_DAY).year;
    SignedYear(year);
    IsoTextSplits(time);
    hide *;
    assert IsoString(time)[1..7] == IsoYear(year)[1..7];
    assert IsoString(time)[0] == IsoString(time)[..7][0];
  }

  lemma SignedYear(year: int)
    requires -1_000_000 < year < 1_000_000 && !(0 <= year <= 9999)
    ensures var s := IsoYear(year);
      && |s| == 7 && s[0] == (if year < 0 then '-' else '+')
      && AllDigits(s[1..7]) && Num(s[1..7]) == (if year < 0 then -year else year)
  {
    var y: nat := if year < 0 then -year else year;
    SixPlaces();
    NumOfDigits(y, 6);
    hide Digits, Num, Pow10;
    assert IsoYear(year)[1..7] == Digits(y, 6);
  }

  lemma IsoTextSplits(time: int)
    ensures var year, s := IsoYear(CivilOf(time / MS_PER_DAY).year), IsoString(time);
      && |s| >= |year| && s[..|year|] == year
      && |CommonText(time)| >= 4 && s[|year|..] == CommonText(time)[4..]
  {
    ClockRange(time);
    var f := FieldsOf(time);
    hide Digits, CivilOf, DateText, TimeText, ValidDate, TimeOfDay, IsoYear;
    var clock := TimeText(Digits(f.hour, 2), Digits(f.minute, 2), Digits(f.second, 2), Digits(f.ms, 3));
    assert IsoString(time) == DateText(IsoYear(f.year), Digits(f.month, 2), Digits(f.day, 2)) + "T" + clock;
    assert CommonText(time) == DateText(Digits(2000, 4), Digits(f.month, 2), Digits(f.day, 2)) + "T" + clock;
    YearFirst(IsoYear(f.year), Digits(f.month, 2), Digits(f.day, 2), clock);
    YearFirst(Digits(2000, 4), Digits(f.month, 2), Digits(f.day, 2), clock);
  }

  lemma SixPlaces()
    ensures Pow10(6) == 1_000_000
  {
    assert Pow10(3) == 1000 && Pow10(4) == 10_000 && Pow10(5) == 100_000;
  }

  lemma EpochText()
    ensures FullText(Clock("1970", "01", "01", "00", "00", "00"), "000", Utc) == "1970-01-01T00:00:00.000Z"
  {
  }

  lemma LaterText()
    ensures FullText(Clock("2000", "03", "01", "14", "34", "56"), "789", Ahead("02", "00"))
         == "2000-03-01T14:34:56.789+02:00"
  {
  }

  lemma EpochDay()
    ensures MakeDay(1970, 0, 1) == 0 && ValidDate(1970, 1, 1)
  {
  }

  lemma LaterDay()
    ensures MakeDay(2000, 2, 1) == 11_017 && ValidDate(2000, 3, 1)
  {
  }

  /** The epoch, written out. */
  lemma EpochIsZero(strict: bool)
    ensures TimestampDate(Text("1970-01-01T00:00:00.000Z"), strict) == Some(0)
  {
    var epoch := Clock("1970", "01", "01", "00", "00", "00");
    EpochText();
    EpochNumbers();
    EpochDay();
    hide FullText, Num, TimestampDate, MakeDay, ValidDate;
    AcceptedIff(epoch, "000", Utc, strict);
    UtcTextIsItsInstant(epoch, "000", strict);
  }

  /** A well-known instant, written in a zone two hours ahead. */
  lemma KnownInstant(strict: bool)
    ensures TimestampDate(Text("2000-03-01T14:34:56.789+02:00"), strict) == Some(951_914_096_789)
  {
    var later := Clock("2000", "03", "01", "14", "34", "56");
    LaterText();
    LaterNumbers();
    ClockNumbers();
    LaterDay();
    hide FullText, Num, TimestampDate, MakeDay, ValidDate;
    AcceptedIff(later, "789", Ahead("02", "00"), strict);
    ZoneShiftsTheInstant(later, "789", Ahead("02", "00"), strict);
    UtcTextIsItsInstant(later, "789", strict);
  }

  function DigitAt(s: string, i: nat): int
    requires i < |s|
  {
    s[i] as int - '0' as int
  }

  /** Two, three and four digits are read by their places. */
  lemma PlacesOf(s: string)
    requires AllDigits(s)
    ensures |s| == 2 ==> Num(s) == 10 * DigitAt(s, 0) + DigitAt(s, 1)
    ensures |s| == 3 ==> Num(s) == 100 * DigitAt(s, 0) + 10 * DigitAt(s, 1) + DigitAt(s, 2)
    ensures |s| == 4 ==>
      Num(s) == 1000 * DigitAt(s, 0) + 100 * DigitAt(s, 1) + 10 * DigitAt(s, 2) + DigitAt(s, 3)
  {
    if 2 <= |s| <= 4 {
      assert s[..1] == [s[0]] && s[..1][..0] == "";
      assert Num(s[..1]) == DigitAt(s, 0);
      assert s[..2][..1] == s[..1] && Num(s[..2]) == 10 * DigitAt(s, 0) + DigitAt(s, 1);
      assert |s| >= 3 ==> s[..3][..2] == s[..2];
      assert s[..|s|] == s;
    }
  }

  lemma EpochNumbers()
    ensures Num("1970") == 1970 && Num("01") == 1 && Num("00") == Num("000") == 0
  {
    PlacesOf("1970");
    PlacesOf("01");
    PlacesOf("00");
    PlacesOf("000");
    hide Num;
  }

  lemma LaterNumbers()
    ensures Num("2000") == 2000 && Num("03") == 3 && Num("01") == 1 && Num("789") == 789
  {
    PlacesOf("2000");
    PlacesOf("03");
    PlacesOf("01");
    PlacesOf("789");
    hide Num;
  }

  lemma ClockNumbers()
    ensures Num("14") == 14 && Num("34") == 34 && Num("56") == 56 && Num("02") == 2 && Num("00") == 0
  {
    PlacesOf("14");
    PlacesOf("34");
    PlacesOf("56");
    PlacesOf("02");
    PlacesOf("00");
    hide Num;
  }
}
