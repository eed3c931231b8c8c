/** `pad` and `toICalDate` of lib/ics.ts: an instant (milliseconds since
    1970-01-01T00:00:00Z, the time value of a JavaScript `Date`) written as
    the UTC form `YYYYMMDDTHHMMSSZ` of RFC 5545 section 3.3.5.

    The UTC calendar fields are those of `getUTCFullYear`, `getUTCMonth`,
    `getUTCDate`, `getUTCHours`, `getUTCMinutes` and `getUTCSeconds`:
    day and time of day by floor division (Dafny's `/` and `%` with a
    positive divisor), then the proleptic Gregorian date of the day. */
module ICalDate {
  import opened Strings

  const MsPerDay: int := 86400000

  datatype Civil = Civil(year: int, month: int, day: int)

  /** The day within its 400-year era (eras start on a 1 March). */
  function DayOfEra(shifted: int): (doe: int)
    ensures 0 <= doe < 146097
    ensures shifted == (shifted / 146097) * 146097 + doe
  {
    shifted % 146097
  }

  /** The year within the era of day `doe` of that era, for years that
      start on 1 March; the day of that year then lies in 0..365. */
  function YearOfEra(doe: int): (yoe: int)
    requires 0 <= doe < 146097
    ensures 0 <= yoe < 400
    ensures 0 <= doe - (365 * yoe + yoe / 4 - yoe / 100) <= 365
  {
    YearOfEraBounds(doe);
    (doe - doe / 1460 + doe / 36524 - doe / 146096) / 365
  }

  /** The era splits into centuries of 36524 days (the last one a day
      longer) and those into four-year cycles of 1461 days; `yoe` is then
      100 * century + 4 * cycle + year of the cycle. */
  lemma YearOfEraBounds(doe: int)
    requires 0 <= doe < 146097
    ensures var yoe := (doe - doe / 1460 + doe / 36524 - doe / 146096) / 365;
      0 <= yoe < 400 && 0 <= doe - (365 * yoe + yoe / 4 - yoe / 100) <= 365
  {
    if doe < 146096 {
      var century, cycle, s := EraParts(doe);
      YearOfEraFromParts(century, cycle, s);
    }
  }

  /** Day `doe` (not the era's last) as century, four-year cycle of the
      century and day of the cycle. */
  lemma EraParts(doe: int) returns (century: int, cycle: int, s: int)
    requires 0 <= doe < 146096
    ensures 0 <= century <= 3 && 0 <= cycle <= 24 && 0 <= s < 1461 && 1461 * cycle + s < 36524
    ensures doe == 36524 * century + 1461 * cycle + s
  {
    century := doe / 36524;
    var r := doe % 36524;
    cycle := r / 1461;
    s := r % 1461;
  }

  /** The year-of-era formula on a day given by its parts. */
  lemma YearOfEraFromParts(century: int, cycle: int, s: int)
    requires 0 <= century <= 3 && 0 <= cycle <= 24 && 0 <= s < 1461 && 1461 * cycle + s < 36524
    ensures var doe := 36524 * century + 1461 * cycle + s;
      var yoe := (doe - doe / 1460 + doe / 36524 - doe / 146096) / 365;
      0 <= yoe < 400 && 0 <= doe - (365 * yoe + yoe / 4 - yoe / 100) <= 365
  {
    var doe := 36524 * century + 1461 * cycle + s;
    var e := DivisionsOfParts(century, cycle, s);
    YearOfCycle(century, cycle, s - e);
  }

  /** The divisions the formula makes of a day given by its parts; `e` is
      the day the 1460-day divisor takes off at the end of a leap cycle. */
  lemma DivisionsOfParts(century: int, cycle: int, s: int) returns (e: int)
    requires 0 <= century <= 3 && 0 <= cycle <= 24 && 0 <= s < 1461 && 1461 * cycle + s < 36524
    ensures var doe := 36524 * century + 1461 * cycle + s;
      && doe / 36524 == century && doe / 146096 == 0
      && doe / 1460 == 25 * century + cycle + e
      && 0 <= e <= 1 && 0 <= s - e <= 1459
  {
    var doe := 36524 * century + 1461 * cycle + s;
    e := (24 * century + cycle + s) / 1460;
    assert e == 1 ==> s >= 1364;
    assert s == 1460 ==> e == 1;
  }

  /** The year of the era from the days `t` past the start of a four-year
      cycle: 100 per century, 4 per cycle and the years of the cycle. */
  lemma YearOfCycle(century: int, cycle: int, t: int)
    requires 0 <= century <= 3 && 0 <= cycle <= 24 && 0 <= t <= 1459
    ensures var yoe := (365 * (100 * century + 4 * cycle) + t) / 365;
      && yoe == 100 * century + 4 * cycle + t / 365
      && yoe / 4 == 25 * century + cycle && yoe / 100 == century
      && 0 <= t - 365 * (t / 365) < 365
  {
    var j := t / 365;
    assert 0 <= j <= 3;
  }

  /** The month of day `doy` of a year starting on 1 March (0 = March),
      and the day of the month is then in 1..31. */
  function MonthIndex(doy: int): (mp: int)
    requires 0 <= doy <= 365
    ensures 0 <= mp <= 11
    ensures 1 <= doy - (153 * mp + 2) / 5 + 1 <= 31
  {
    (5 * doy + 2) / 153
  }

  /** The Gregorian date of day `z` counted from 1970-01-01. */
  function CivilFromDays(z: int): Civil {
    var shifted := z + 719468;
    var doe := DayOfEra(shifted);
    var yoe := YearOfEra(doe);
    DateInYear(yoe + (shifted / 146097) * 400, doe - (365 * yoe + yoe / 4 - yoe / 100))
  }

  /** The date of day `doy` of the year `y` that starts on 1 March:
      January and February belong to the next calendar year. */
  function DateInYear(y: int, doy: int): Civil
    requires 0 <= doy <= 365
  {
    var mp := MonthIndex(doy);
    var d := doy - (153 * mp + 2) / 5 + 1;
    var m := if mp < 10 then mp + 3 else mp - 9;
    Civil(if m <= 2 then y + 1 else y, m, d)
  }

  /** The day number of a Gregorian date (what `Date.UTC` computes for the
      date part). */
  function DaysFromCivil(c: Civil): int {
    var y := if c.month <= 2 then c.year - 1 else c.year;
    var era := y / 400;
    var yoe := y - era * 400;
    var mp := if c.month > 2 then c.month - 3 else c.month + 9;
    var doy := (153 * mp + 2) / 5 + c.day - 1;
    var doe := yoe * 365 + yoe / 4 - yoe / 100 + doy;
    era * 146097 + doe - 719468
  }

  /** Every day has one date and the date gives the day back, with the
      month in 1..12 and the day in 1..31. */
  lemma CivilDaysRoundTrip(z: int)
    ensures DaysFromCivil(CivilFromDays(z)) == z
    ensures 1 <= CivilFromDays(z).month <= 12 && 1 <= CivilFromDays(z).day <= 31
  {
    CivilDaysBack(z);
    CivilFieldRanges(z);
  }

  /** The day number of the date of day `z` is `z`. */
  lemma CivilDaysBack(z: int)
    ensures DaysFromCivil(CivilFromDays(z)) == z
  {
    var era, yoe, doy := CivilParts(z);
    var c := DateInYear(yoe + era * 400, doy);
    var mp := MonthIndex(doy);
    MonthOfIndex(mp);
    DateInYearFields(yoe + era * 400, doy);
    DaysFromCivilParts(c, era, yoe, mp, doy);
  }

  /** The parts `CivilFromDays` computes: the era, the March-based year of
      the era and the day of that year. */
  lemma CivilParts(z: int) returns (era: int, yoe: int, doy: int)
    ensures 0 <= yoe < 400 && 0 <= doy <= 365
    ensures era * 146097 + (yoe * 365 + yoe / 4 - yoe / 100 + doy) - 719468 == z
    ensures CivilFromDays(z) == DateInYear(yoe + era * 400, doy)
  {
    var shifted := z + 719468;
    era := shifted / 146097;
    var doe := DayOfEra(shifted);
    yoe := YearOfEra(doe);
    doy := doe - (365 * yoe + yoe / 4 - yoe / 100);
    assert era * 146097 + doe == shifted;
    CivilFromDaysUnfold(z);
  }

  /** `CivilFromDays` in terms of the day of the era and the year of the era. */
  lemma CivilFromDaysUnfold(z: int)
    ensures var doe := DayOfEra(z + 719468);
      var yoe := YearOfEra(doe);
      CivilFromDays(z) == DateInYear(yoe + ((z + 719468) / 146097) * 400, doe - (365 * yoe + yoe / 4 - yoe / 100))
  {
  }

  /** The fields of `DateInYear`, by the month index of the day. */
  lemma DateInYearFields(y: int, doy: int)
    requires 0 <= doy <= 365
    ensures var mp := MonthIndex(doy);
      var m := if mp < 10 then mp + 3 else mp - 9;
      var c := DateInYear(y, doy);
      && c.month == m && c.day == doy - (153 * mp + 2) / 5 + 1
      && (if c.month <= 2 then c.year - 1 else c.year) == y
      && 1 <= c.day <= 31
  {
  }

  /** The month of a date is in 1..12 and its day in 1..31. */
  lemma CivilFieldRanges(z: int)
    ensures 1 <= CivilFromDays(z).month <= 12 && 1 <= CivilFromDays(z).day <= 31
  {
    var era, yoe, doy := CivilParts(z);
    MonthOfIndex(MonthIndex(doy));
    DateInYearFields(yoe + era * 400, doy);
  }

  /** The month numbering of `CivilFromDays` (March = 0) and the calendar
      one (January = 1) translate into each other. */
  lemma MonthOfIndex(mp: int)
    requires 0 <= mp <= 11
    ensures var m := if mp < 10 then mp + 3 else mp - 9;
      1 <= m <= 12 && (if m > 2 then m - 3 else m + 9) == mp
  {
  }

  /** `DaysFromCivil` of a date whose March-based year is `yoe` of era
      `era`, in month `mp` and on day `doy` of that year. */
  lemma DaysFromCivilParts(c: Civil, era: int, yoe: int, mp: int, doy: int)
    requires 0 <= yoe < 400
    requires (if c.month <= 2 then c.year - 1 else c.year) == yoe + era * 400
    requires (if c.month > 2 then c.month - 3 else c.month + 9) == mp
    requires doy == (153 * mp + 2) / 5 + c.day - 1
    ensures DaysFromCivil(c) == era * 146097 + (yoe * 365 + yoe / 4 - yoe / 100 + doy) - 719468
  {
    EraOfYear(yoe, era);
  }

  lemma EraOfYear(yoe: int, era: int)
    requires 0 <= yoe < 400
    ensures (yoe + era * 400) / 400 == era
  {
  }

  datatype UtcFields = UtcFields(year: int, month: int, day: int, hour: int, minute: int, second: int)

  /** The UTC getters of a `Date` with time value `t`. */
  function Utc(t: int): UtcFields {
    var c := CivilFromDays(t / MsPerDay);
    var ms := t % MsPerDay;
    UtcFields(c.year, c.month, c.day, ms / 3600000, ms / 60000 % 60, ms / 1000 % 60)
  }

  /** `pad(n, w)`: `n.toString().padStart(w, '0')`. */
  function Pad(n: int, w: nat): string {
    PadStart(IntToString(n), w)
  }

  /** `toICalDate(date)`. */
  function ToICalDate(t: int): string {
    Render(Utc(t))
  }

  /** The text `toICalDate` builds from the UTC fields. */
  function Render(f: UtcFields): string {
    IntToString(f.year) + Pad(f.month, 2) + Pad(f.day, 2) + "T"
      + Pad(f.hour, 2) + Pad(f.minute, 2) + Pad(f.second, 2) + "Z"
  }

  /** The UTC getters stay in their ranges. */
  lemma UtcRanges(t: int)
    ensures 1 <= Utc(t).month <= 12 && 1 <= Utc(t).day <= 31
    ensures 0 <= Utc(t).hour < 24 && 0 <= Utc(t).minute < 60 && 0 <= Utc(t).second < 60
  {
    CivilDaysRoundTrip(t / MsPerDay);
  }

  lemma AllDigitsConcat3(a: string, b: string, c: string)
    requires AllDigits(a) && AllDigits(b) && AllDigits(c)
    ensures AllDigits(a + b + c)
  {
  }

  /** Two-digit padding of 0..99 gives two digits that read back as `n`. */
  lemma PadTwo(n: int)
    requires 0 <= n < 100
    ensures |Pad(n, 2)| == 2 && AllDigits(Pad(n, 2))
    ensures DecimalValue(Pad(n, 2)) == n
  {
    var s := NatToString(n);
    NatToStringValue(n);
    if n < 10 {
      assert s == [DigitChar(n)];
      PadOneDigit(n);
      var padded := Pad(n, 2);
      assert padded[..1] == ['0'] && padded[1] == DigitChar(n);
      assert DecimalValue(padded[..1]) == 0 by {
        assert padded[..1][..0] == [];
      }
      assert DecimalValue(s) == DigitValue(DigitChar(n)) by {
        assert s[..0] == [];
      }
    } else {
      assert s == NatToString(n / 10) + [DigitChar(n % 10)];
      assert Pad(n, 2) == s;
    }
  }

  /** A year in 1000..9999 is written with exactly four digits. */
  lemma YearDigits(y: int)
    requires 1000 <= y <= 9999
    ensures |IntToString(y)| == 4 && AllDigits(IntToString(y))
    ensures DecimalValue(IntToString(y)) == y
  {
    NatToStringValue(y);
    var s3 := NatToString(y / 1000);
    assert |s3| == 1;
    assert |NatToString(y / 100)| == 2;
    assert |NatToString(y / 10)| == 3;
  }

  /** Reading the fields back from a `YYYYMMDDTHHMMSSZ` string. */
  function ParseICalDate(s: string): (f: UtcFields)
    requires |s| == 16 && AllDigits(s[..8]) && AllDigits(s[9..15])
  {
    var date, time := s[..8], s[9..15];
    UtcFields(DecimalValue(date[..4]), DecimalValue(date[4..6]), DecimalValue(date[6..]),
              DecimalValue(time[..2]), DecimalValue(time[2..4]), DecimalValue(time[4..]))
  }

  /** For years 1000..9999 the text has the fixed RFC 5545 UTC shape and
      every field reads back: year, zero-padded month, day, `T`, hour,
      minute, second, `Z`. */
  lemma ToICalDateShape(t: int)
    requires 1000 <= Utc(t).year <= 9999
    ensures |ToICalDate(t)| == 16 && ToICalDate(t)[8] == 'T' && ToICalDate(t)[15] == 'Z'
    ensures AllDigits(ToICalDate(t)[..8]) && AllDigits(ToICalDate(t)[9..15])
    ensures ParseICalDate(ToICalDate(t)) == Utc(t)
  {
    UtcRanges(t);
    RenderShape(Utc(t));
  }

  lemma RenderShape(f: UtcFields)
    requires 1000 <= f.year <= 9999 && 0 <= f.month < 100 && 0 <= f.day < 100
    requires 0 <= f.hour < 100 && 0 <= f.minute < 100 && 0 <= f.second < 100
    ensures |Render(f)| == 16 && Render(f)[8] == 'T' && Render(f)[15] == 'Z'
    ensures AllDigits(Render(f)[..8]) && AllDigits(Render(f)[9..15])
    ensures ParseICalDate(Render(f)) == f
  {
    YearDigits(f.year);
    PadTwo(f.month);
    PadTwo(f.day);
    PadTwo(f.hour);
    PadTwo(f.minute);
    PadTwo(f.second);
    var ys, mo, da := IntToString(f.year), Pad(f.month, 2), Pad(f.day, 2);
    var ho, mi, se := Pad(f.hour, 2), Pad(f.minute, 2), Pad(f.second, 2);
    assert Render(f) == ys + mo + da + "T" + ho + mi + se + "Z";
    Layout(ys, mo, da, ho, mi, se);
  }

  /** Where each field sits in the concatenation, and what reading it back gives. */
  lemma Layout(ys: string, mo: string, da: string, ho: string, mi: string, se: string)
    requires |ys| == 4 && |mo| == 2 && |da| == 2 && |ho| == 2 && |mi| == 2 && |se| == 2
    requires AllDigits(ys) && AllDigits(mo) && AllDigits(da)
    requires AllDigits(ho) && AllDigits(mi) && AllDigits(se)
    ensures var s := ys + mo + da + "T" + ho + mi + se + "Z";
      && |s| == 16 && s[8] == 'T' && s[15] == 'Z'
      && AllDigits(s[..8]) && AllDigits(s[9..15])
      && ParseICalDate(s) == UtcFields(DecimalValue(ys), DecimalValue(mo), DecimalValue(da),
                                       DecimalValue(ho), DecimalValue(mi), DecimalValue(se))
  {
    var s := ys + mo + da + "T" + ho + mi + se + "Z";
    var date, time := s[..8], s[9..15];
    assert date == ys + mo + da && time == ho + mi + se;
    AllDigitsConcat3(ys, mo, da);
    AllDigitsConcat3(ho, mi, se);
    assert date[..4] == ys && date[4..6] == mo && date[6..] == da;
    assert time[..2] == ho && time[2..4] == mi && time[4..] == se;
  }

  /** Within those years, different seconds never share a text: the
      timestamp loses only the milliseconds. */
  lemma ToICalDateInjective(t1: int, t2: int)
    requires 1000 <= Utc(t1).year <= 9999 && 1000 <= Utc(t2).year <= 9999
    requires ToICalDate(t1) == ToICalDate(t2)
    ensures t1 / 1000 == t2 / 1000
  {
    ToICalDateShape(t1);
    ToICalDateShape(t2);
    UtcSeconds(t1);
    UtcSeconds(t2);
  }

  /** The whole second of an instant is determined by its UTC fields. */
  lemma UtcSeconds(t: int)
    ensures var f := Utc(t);
      t / 1000 == DaysFromCivil(Civil(f.year, f.month, f.day)) * 86400 + f.hour * 3600 + f.minute * 60 + f.second
  {
    var days := t / MsPerDay;
    var ms := t % MsPerDay;
    CivilDaysRoundTrip(days);
    assert Civil(Utc(t).year, Utc(t).month, Utc(t).day) == CivilFromDays(days);
    SecondOfDay(ms);
    assert t / 1000 == days * 86400 + ms / 1000;
  }

  /** Hours, minutes and seconds recompose the second of the day. */
  lemma SecondOfDay(ms: int)
    requires 0 <= ms < MsPerDay
    ensures ms / 1000 == (ms / 3600000) * 3600 + (ms / 60000 % 60) * 60 + ms / 1000 % 60
  {
    var sec := ms / 1000;
    assert ms / 60000 == sec / 60;
    assert ms / 3600000 == sec / 3600;
    assert (sec / 60) / 60 == sec / 3600;
  }

  /** 2024-01-02 03:04:05 UTC is written `20240102T030405Z`. */
  lemma ToICalDateExample()
    ensures ToICalDate(1704164645000) == "20240102T030405Z"
  {
    ToICalDateAt(1704164645000, UtcFields(2024, 1, 2, 3, 4, 5));
    PadOneDigit(3);
    PadOneDigit(4);
    PadOneDigit(5);
  }

  /** A one-digit number is padded with a single zero. */
  lemma PadOneDigit(n: int)
    requires 0 <= n < 10
    ensures Pad(n, 2) == ['0', DigitChar(n)]
  {
    var s := [DigitChar(n)];
    assert IntToString(n) == s;
    assert PadStart(s, 2) == PadStart(['0'] + s, 2);
    assert |['0'] + s| == 2;
  }

  /** A two-digit number needs no padding. */
  lemma PadTwoDigits(n: int)
    requires 10 <= n < 100
    ensures Pad(n, 2) == [DigitChar(n / 10), DigitChar(n % 10)]
  {
    assert NatToString(n / 10) == [DigitChar(n / 10)];
    assert IntToString(n) == [DigitChar(n / 10), DigitChar(n % 10)];
  }

  /** An instant on 2 January 2024 is rendered from its time of day. */
  lemma ToICalDateAt(t: int, f: UtcFields)
    requires 1704153600000 <= t < 1704153600000 + MsPerDay
    requires f == UtcFields(2024, 1, 2, (t - 1704153600000) / 3600000,
                            (t - 1704153600000) / 60000 % 60, (t - 1704153600000) / 1000 % 60)
    ensures ToICalDate(t) == Render(f)
    ensures Render(f) == "20240102" + "T" + Pad(f.hour, 2) + Pad(f.minute, 2) + Pad(f.second, 2) + "Z"
  {
    assert t / MsPerDay == 19724;
    SecondOfJanuary2024();
    assert Utc(t) == f;
    YearText2024();
    PadOneDigit(1);
    PadOneDigit(2);
  }

  /** Day 19724 after the epoch is 2 January 2024. */
  lemma SecondOfJanuary2024()
    ensures CivilFromDays(19724) == Civil(2024, 1, 2)
  {
    assert DayOfEra(19724 + 719468) == 8707;
    assert YearOfEra(8707) == 23;
    assert MonthIndex(307) == 10;
  }

  lemma YearText2024()
    ensures IntToString(2024) == "2024"
  {
    assert NatToString(2) == "2";
    assert NatToString(20) == "20";
    assert NatToString(202) == "202";
  }
}
