/** Gregorian dates and the DDMMYYYY integer the COBOL records carry them in. */
module Calendar {
  import opened Text

  datatype Date = Date(year: int, month: nat, day: nat)

  datatype BirthDate = Parsed(date: Date) | TooOld | Invalid

  predicate IsLeap(year: int) {
    year % 4 == 0 && (year % 100 != 0 || year % 400 == 0)
  }

  function DaysIn(year: int, month: nat): nat {
    if month == 2 then if IsLeap(year) then 29 else 28
    else if month in {4, 6, 9, 11} then 30
    else 31
  }

  predicate IsDate(d: Date) {
    1 <= d.month <= 12 && 1 <= d.day <= DaysIn(d.year, d.month)
  }

  function NextDay(d: Date): Date {
    if d.day < DaysIn(d.year, d.month) then d.(day := d.day + 1)
    else if d.month < 12 then Date(d.year, d.month + 1, 1)
    else Date(d.year + 1, 1, 1)
  }

  function PlusDays(d: Date, days: nat): Date {
    if days == 0 then d else NextDay(PlusDays(d, days - 1))
  }

  /** Adding up to a month gives a date, in the same year or in January of the next. */
  lemma {:induction false} PlusDaysIsDate(d: Date, days: nat)
    requires IsDate(d) && days <= 31
    ensures var e := PlusDays(d, days);
            IsDate(e) && (e.year == d.year || (e.year == d.year + 1 && e.month == 1 && e.day <= days))
  {
    if days > 0 {
      PlusDaysIsDate(d, days - 1);
    }
  }

  function DaysBeforeMonth(year: int, month: nat): nat {
    if month <= 1 then 0 else DaysBeforeMonth(year, month - 1) + DaysIn(year, month - 1)
  }

  /** The days up to a date, counted through the calendar: 365 a year and one for every leap year. */
  function DayNumber(d: Date): int {
    365 * d.year + (d.year - 1) / 4 - (d.year - 1) / 100 + (d.year - 1) / 400 + DaysBeforeMonth(d.year, d.month) + d.day
  }

  lemma LeapYearsCount(year: int)
    ensures var before := (year - 1) / 4 - (year - 1) / 100 + (year - 1) / 400;
            var after := year / 4 - year / 100 + year / 400;
            after - before == if IsLeap(year) then 1 else 0
  {
    OneMultiple(year, 4);
    OneMultiple(year, 100);
    OneMultiple(year, 400);
  }

  lemma OneMultiple(n: int, m: int)
    requires m in {4, 100, 400}
    ensures n / m - (n - 1) / m == if n % m == 0 then 1 else 0
  {
  }

  lemma YearLength(year: int)
    ensures DaysBeforeMonth(year, 12) + 31 == if IsLeap(year) then 366 else 365
  {
    assert DaysBeforeMonth(year, 2) == DaysBeforeMonth(year, 1) + 31;
    assert DaysBeforeMonth(year, 3) == 31 + DaysIn(year, 2);
    assert DaysBeforeMonth(year, 5) == DaysBeforeMonth(year, 4) + 30 == DaysBeforeMonth(year, 3) + 61;
    assert DaysBeforeMonth(year, 7) == DaysBeforeMonth(year, 6) + 30 == DaysBeforeMonth(year, 5) + 61;
    assert DaysBeforeMonth(year, 9) == DaysBeforeMonth(year, 8) + 31 == DaysBeforeMonth(year, 7) + 62;
    assert DaysBeforeMonth(year, 11) == DaysBeforeMonth(year, 10) + 31 == DaysBeforeMonth(year, 9) + 61;
    assert DaysBeforeMonth(year, 12) == DaysBeforeMonth(year, 11) + 30;
  }

  lemma NextDayCounts(d: Date)
    requires IsDate(d)
    ensures DayNumber(NextDay(d)) == DayNumber(d) + 1
  {
    if d.day >= DaysIn(d.year, d.month) && d.month == 12 {
      LeapYearsCount(d.year);
      YearLength(d.year);
    }
  }

  /** Adding days moves a date by that many days of the calendar. */
  lemma {:induction false} PlusDaysCounts(d: Date, days: nat)
    requires IsDate(d)
    ensures IsDate(PlusDays(d, days)) && DayNumber(PlusDays(d, days)) == DayNumber(d) + days
  {
    if days > 0 {
      PlusDaysCounts(d, days - 1);
      NextDayCounts(PlusDays(d, days - 1));
    }
  }

  /** A date whose year prints in four digits. */
  predicate IsCobolDate(d: Date) {
    IsDate(d) && 0 <= d.year <= 9999
  }

  /** `%Y`: four digits, with a sign once the year leaves 0..9999. */
  function FormatYear(year: int): string {
    if 0 <= year <= 9999 then ZeroPad(year, 4)
    else if year < 0 then "-" + ZeroPad(-year, 4)
    else "+" + ZeroPad(year, 4)
  }

  function FormatDdmmyyyy(d: Date): string {
    ZeroPad(d.day, 2) + ZeroPad(d.month, 2) + FormatYear(d.year)
  }

  function FormatSlashed(d: Date): string {
    ZeroPad(d.day, 2) + "/" + ZeroPad(d.month, 2) + "/" + FormatYear(d.year)
  }

  /** The arithmetic encoder; a negative year counts as 0. */
  function CobolDateByArithmetic(d: Date): nat {
    d.day * 1000000 + d.month * 10000 + if d.year < 0 then 0 else d.year
  }

  /** The format-and-parse encoder. */
  function CobolDateByFormat(d: Date): nat
    requires IsCobolDate(d)
  {
    DigitsOfDate(d);
    ParseNat(FormatDdmmyyyy(d))
  }

  /** Reads eight digits as day, month and year; anything longer is left-over input. */
  function ParseDateOfBirth(raw: nat): (r: BirthDate) {
    var s := ZeroPad(raw, 8);
    var d := Date(ParseNat(s[4..8]), ParseNat(s[2..4]), ParseNat(s[..2]));
    if |s| == 8 && IsDate(d) then Parsed(d)
    else if raw % 10000 < 1601 then TooOld
    else Invalid
  }

  lemma DigitsOfDate(d: Date)
    requires IsCobolDate(d)
    ensures |ZeroPad(d.day, 2)| == 2 && |ZeroPad(d.month, 2)| == 2 && |ZeroPad(d.year, 4)| == 4
    ensures AllDigits(FormatDdmmyyyy(d)) && |FormatDdmmyyyy(d)| == 8
    ensures |FormatSlashed(d)| == 10
  {
    PowersOfTen();
    ZeroPadWidth(d.day, 2);
    ZeroPadWidth(d.month, 2);
    ZeroPadWidth(d.year, 4);
  }

  lemma PowersOfTen()
    ensures Pow10(1) == 10 && Pow10(2) == 100 && Pow10(4) == 10000 && Pow10(6) == 1000000 && Pow10(8) == 100000000
    ensures Pow10(10) == 10000000000
  {
    assert Pow10(2) == 10 * Pow10(1);
    assert Pow10(3) == 10 * Pow10(2);
    assert Pow10(4) == 10 * Pow10(3);
    assert Pow10(5) == 10 * Pow10(4);
    assert Pow10(6) == 10 * Pow10(5);
    assert Pow10(7) == 10 * Pow10(6);
    assert Pow10(8) == 10 * Pow10(7);
    assert Pow10(9) == 10 * Pow10(8);
    assert Pow10(10) == 10 * Pow10(9);
  }

  lemma JoinDigits(a: string, b: string, power: nat)
    requires AllDigits(a) && AllDigits(b) && power == Pow10(|b|)
    ensures AllDigits(a + b) && ParseNat(a + b) == ParseNat(a) * power + ParseNat(b)
  {
    ParseConcat(a, b);
  }

  /** The eight digits of a number split into day, month and year. */
  lemma SplitDigits(s: string)
    requires AllDigits(s) && |s| == 8
    ensures ParseNat(s) == ParseNat(s[..2]) * 1000000 + ParseNat(s[2..4]) * 10000 + ParseNat(s[4..8])
    ensures ParseNat(s[4..8]) < 10000 && ParseNat(s[2..4]) < 100 && ParseNat(s[..2]) < 100
  {
    PowersOfTen();
    JoinDigits(s[..2], s[2..4], 100);
    assert s[..2] + s[2..4] == s[..4];
    JoinDigits(s[..4], s[4..8], 10000);
    assert s[..4] + s[4..8] == s;
    ZeroPadOfParse(s[..2]);
    ZeroPadOfParse(s[2..4]);
    ZeroPadOfParse(s[4..8]);
  }

  /** The formatted text reads back field by field. */
  lemma FieldsOfFormat(d: Date)
    requires IsCobolDate(d)
    ensures var s := FormatDdmmyyyy(d);
            && AllDigits(s) && |s| == 8
            && ParseNat(s[..2]) == d.day && ParseNat(s[2..4]) == d.month && ParseNat(s[4..8]) == d.year
  {
    DigitsOfDate(d);
    var s := FormatDdmmyyyy(d);
    ParseOfZeroPad(d.day, 2);
    ParseOfZeroPad(d.month, 2);
    ParseOfZeroPad(d.year, 4);
    assert s[..2] == ZeroPad(d.day, 2) && s[2..4] == ZeroPad(d.month, 2) && s[4..8] == ZeroPad(d.year, 4);
  }

  /** The two encoders agree on every date of years 0 to 9999. */
  lemma EncodersAgree(d: Date)
    requires IsCobolDate(d)
    ensures CobolDateByArithmetic(d) == CobolDateByFormat(d) <= 99999999
  {
    FieldsOfFormat(d);
    SplitDigits(FormatDdmmyyyy(d));
    ZeroPadOfParse(FormatDdmmyyyy(d));
    PowersOfTen();
  }

  /** Parsing inverts the encoders. */
  lemma ParseInvertsEncoding(d: Date)
    requires IsCobolDate(d)
    ensures ParseDateOfBirth(CobolDateByArithmetic(d)) == Parsed(d)
    ensures ParseDateOfBirth(CobolDateByFormat(d)) == Parsed(d)
  {
    EncodersAgree(d);
    FieldsOfFormat(d);
    ZeroPadOfParse(FormatDdmmyyyy(d));
  }

  /**
   * Exactly the numbers below 10^8 whose fields name a calendar date parse, re-encoding
   * gives the number back, and the two error kinds split on the year field alone.
   */
  lemma ParseCharacterised(raw: nat)
    ensures var d := Date(raw % 10000, raw / 10000 % 100, raw / 1000000);
            ParseDateOfBirth(raw) ==
            if raw <= 99999999 && IsDate(d) then Parsed(d) else if raw % 10000 < 1601 then TooOld else Invalid
    ensures var p := ParseDateOfBirth(raw);
            p.Parsed? ==> IsCobolDate(p.date) && CobolDateByArithmetic(p.date) == raw
  {
    var s := ZeroPad(raw, 8);
    PowersOfTen();
    ParseOfZeroPad(raw, 8);
    if |s| == 8 {
      ZeroPadOfParse(s);
      SplitDigits(s);
      FieldsByDivision(ParseNat(s[..2]), ParseNat(s[2..4]), ParseNat(s[4..8]));
    } else if raw <= 99999999 {
      ZeroPadWidth(raw, 8);
    }
  }

  lemma FieldsByDivision(day: nat, month: nat, year: nat)
    requires day < 100 && month < 100 && year < 10000
    ensures var raw := day * 1000000 + month * 10000 + year;
            raw % 10000 == year && raw / 10000 % 100 == month && raw / 1000000 == day
  {
    var high := day * 100 + month;
    assert (high * 10000 + year) / 10000 == high;
    assert (high * 10000 + year) % 10000 == year;
    assert high / 100 == day && high % 100 == month;
  }
}
