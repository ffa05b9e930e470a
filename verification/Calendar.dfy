/** Timestamps: day counts to civil dates and back, and the textual form. */
module Calendar {
  import opened Bytes
  import opened Decimal

  datatype Date = Date(year: int, month: int, day: int)

  // ---- The proleptic Gregorian calendar ---------------------------------------------

  /** Appendix C of RFC 3339. */
  predicate IsLeap(year: int) { Divides(4, year) && (!Divides(100, year) || Divides(400, year)) }

  predicate Divides(m: int, year: int)
    requires m > 0
  {
    year % m == 0
  }

  function DaysInMonth(year: int, month: int): int
    requires 1 <= month <= 12
  {
    if month == 2 then (if IsLeap(year) then 29 else 28)
    else if month == 4 || month == 6 || month == 9 || month == 11 then 30
    else 31
  }

  predicate IsDate(date: Date) {
    1 <= date.month <= 12 && 1 <= date.day <= DaysInMonth(date.year, date.month)
  }

  /** The day after. */
  function NextDay(date: Date): (next: Date)
    requires IsDate(date)
    ensures IsDate(next)
  {
    if date.day < DaysInMonth(date.year, date.month) then date.(day := date.day + 1)
    else if date.month < 12 then Date(date.year, date.month + 1, 1)
    else Date(date.year + 1, 1, 1)
  }

  const EPOCH: Date := Date(1970, 1, 1)

  // ---- The conversion ------------------------------------------------------------------

  /** `days_to_ymd`, in 400-year eras that start on the first of March. */
  function DaysToDate(days: int): Date {
    var shifted := days + 719468;
    var era := shifted / 146097;
    var dayOfEra := shifted % 146097;
    var yearOfEra := YearOfEra(dayOfEra);
    DateInYear(yearOfEra + era * 400, dayOfEra - MarchStart(yearOfEra))
  }

  function YearOfEra(dayOfEra: int): int {
    (dayOfEra - dayOfEra / 1460 + dayOfEra / 36524 - dayOfEra / 146096) / 365
  }

  /** Days from the first of March of an era's year 0 to that of `yearOfEra`. */
  function MarchStart(yearOfEra: int): int { 365 * yearOfEra + yearOfEra / 4 - yearOfEra / 100 }

  function DateInYear(year: int, dayOfYear: int): Date {
    var mp := (5 * dayOfYear + 2) / 153;
    var day := dayOfYear - (153 * mp + 2) / 5 + 1;
    var month := if mp < 10 then mp + 3 else mp - 9;
    Date(if month <= 2 then year + 1 else year, month, day)
  }

  // ---- An independent day number ---------------------------------------------------------

  /** Days from the first of January of year 1 to that of `year`. */
  function DaysBeforeYear(year: int): int { 365 * (year - 1) + LeapsBefore(year) }

  /** Leap years from year 1 to the one before `year`. */
  function LeapsBefore(year: int): int {
    Multiples(4, year - 1) - Multiples(100, year - 1) + Multiples(400, year - 1)
  }

  /** How many multiples of `m` there are from 1 to `n`. */
  function Multiples(m: int, n: int): int
    requires m > 0
  {
    n / m
  }

  lemma MultiplesStep(m: int, n: int)
    requires m == 4 || m == 100 || m == 400
    ensures Multiples(m, n) == Multiples(m, n - 1) + if Divides(m, n) then 1 else 0
  {
    var q, r := n / m, n % m;
    assert n == m * q + r;
    if r == 0 { assert n - 1 == m * (q - 1) + (m - 1); } else { assert n - 1 == m * q + (r - 1); }
  }

  lemma DividesNested(year: int)
    ensures Divides(400, year) ==> Divides(100, year)
    ensures Divides(100, year) ==> Divides(4, year)
  {
    if Divides(400, year) { assert year == 100 * (4 * (year / 400)); }
    if Divides(100, year) { assert year == 4 * (25 * (year / 100)); }
  }

  function DaysBeforeMonth(year: int, month: int): int
    requires 1 <= month <= 12
    decreases month
  {
    if month == 1 then 0 else DaysBeforeMonth(year, month - 1) + DaysInMonth(year, month - 1)
  }

  /** Days since the epoch. */
  function DayNumber(date: Date): int
    requires IsDate(date)
  {
    DaysBeforeYear(date.year) + DaysBeforeMonth(date.year, date.month) + date.day - 1 - 719162
  }

  lemma YearLength(year: int)
    ensures DaysBeforeYear(year + 1) == DaysBeforeYear(year) + if IsLeap(year) then 366 else 365
  {
    MultiplesStep(4, year);
    MultiplesStep(100, year);
    MultiplesStep(400, year);
    DividesNested(year);
    hide Multiples, Divides;
  }

  lemma {:induction false} YearsIncrease(a: int, b: int)
    requires a <= b
    ensures DaysBeforeYear(a) <= DaysBeforeYear(b)
    decreases b - a
  {
    hide DaysBeforeYear, IsLeap;
    if a < b {
      YearLength(a);
      YearsIncrease(a + 1, b);
    }
  }

  /** The months of a year, counted out. */
  lemma MonthStarts(year: int, month: int)
    requires 1 <= month <= 12
    ensures var f := if IsLeap(year) then 1 else 0;
      DaysBeforeMonth(year, month) ==
      [0, 31, 59 + f, 90 + f, 120 + f, 151 + f, 181 + f, 212 + f, 243 + f, 273 + f, 304 + f, 334 + f][month - 1]
  {
    hide IsLeap;
    if month > 1 { MonthStarts(year, month - 1); }
  }

  lemma EpochIsZero()
    ensures DayNumber(EPOCH) == 0
  {
  }

  /** Day numbers count days: one more each day. */
  lemma DayNumberCounts(date: Date)
    requires IsDate(date)
    ensures DayNumber(NextDay(date)) == DayNumber(date) + 1
  {
    hide IsLeap, DaysBeforeYear;
    MonthStarts(date.year, 12);
    MonthStarts(date.year + 1, 1);
    YearLength(date.year);
  }

  predicate Earlier(a: Date, b: Date) {
    a.year < b.year || (a.year == b.year && (a.month < b.month || (a.month == b.month && a.day < b.day)))
  }

  lemma DayNumberIncreases(a: Date, b: Date)
    requires IsDate(a) && IsDate(b) && Earlier(a, b)
    ensures DayNumber(a) < DayNumber(b)
  {
    hide DaysBeforeYear, IsLeap, DaysBeforeMonth;
    MonthStarts(a.year, a.month);
    MonthStarts(b.year, b.month);
    YearLength(a.year);
    if a.year < b.year { YearsIncrease(a.year + 1, b.year); }
  }

  // ---- The conversion is right ---------------------------------------------------------------

  /** The year estimate, by century, four-year cycle and day of cycle. */
  lemma Estimate(doe: int, c: int, q: int, s: int)
    requires 0 <= c < 4 && 0 <= q < 25 && 0 <= s < 1461 && doe == 36524 * c + 1461 * q + s && 1461 * q + s < 36524
    ensures var t := if s < 1460 then s / 365 else 3;
      YearOfEra(doe) == 100 * c + 4 * q + t
  {
    var late := if 24 * c + q + s >= 1460 then 1 else 0;
    assert doe / 36524 == c && doe / 146096 == 0;
    assert doe / 1460 == 25 * c + q + late;
    assert doe - doe / 1460 + doe / 36524 - doe / 146096 == 365 * (100 * c + 4 * q) + s - late;
  }

  lemma MarchStartOf(c: int, q: int, t: int)
    requires 0 <= c < 4 && 0 <= q < 25 && 0 <= t < 4
    ensures MarchStart(100 * c + 4 * q + t) == 36524 * c + 1461 * q + 365 * t
  {
  }

  /** The last day of a four-year cycle is in a leap year, if it is there at all. */
  lemma CycleEnd(c: int, q: int)
    requires 0 <= c < 4 && 0 <= q < 24
    ensures IsLeap(100 * c + 4 * q + 3 + 1)
  {
    assert 100 * c + 4 * q + 4 == 4 * (25 * c + q + 1);
  }

  lemma LastDayOfEra()
    ensures YearOfEra(146096) == 399 && MarchStart(399) == 145731 && IsLeap(400)
  {
  }

  /** Which year of the era a day is in: the estimate is exact. */
  lemma YearOfEraIsExact(doe: int)
    requires 0 <= doe < 146097
    ensures 0 <= YearOfEra(doe) < 400
    ensures 0 <= doe - MarchStart(YearOfEra(doe)) <= if IsLeap(YearOfEra(doe) + 1) then 365 else 364
  {
    LastDayOfEra();
    hide YearOfEra, MarchStart, IsLeap;
    if doe < 146096 {
      var c, q := doe / 36524, doe % 36524 / 1461;
      var s := doe % 36524 - 1461 * q;
      var t := if s < 1460 then s / 365 else 3;
      Estimate(doe, c, q, s);
      MarchStartOf(c, q, t);
      if s == 1460 { CycleEnd(c, q); }
    }
  }

  /** Where the months of a March-based year start, against the plain table. */
  lemma MarchMonths(doy: int)
    requires 0 <= doy <= 365
    ensures var mp := (5 * doy + 2) / 153; var day := doy - (153 * mp + 2) / 5 + 1;
      && 0 <= mp < 12 && (153 * mp + 2) / 5 == [0, 31, 61, 92, 122, 153, 184, 214, 245, 275, 306, 337][mp]
      && 1 <= day <= [31, 30, 31, 30, 31, 31, 30, 31, 30, 31, 31, 29][mp]
      && (mp == 11 && day == 29 <==> doy == 365)
  {
    var mp := (5 * doy + 2) / 153;
    assert 0 <= mp < 12;
  }

  /** Eras repeat: 400 years, 146097 days. */
  lemma EraShift(yoe: int, era: int)
    requires 0 <= yoe < 400
    ensures DaysBeforeYear(yoe + era * 400 + 1) == 146097 * era + MarchStart(yoe)
  {
    var year := yoe + era * 400;
    assert year / 4 == yoe / 4 + era * 100;
    assert year / 100 == yoe / 100 + era * 4;
    assert year / 400 == era;
  }

  lemma LeapPeriod(year: int)
    ensures IsLeap(year + 400) <==> IsLeap(year)
  {
  }

  lemma {:induction false} LeapShift(year: int, era: int)
    ensures IsLeap(year + era * 400) <==> IsLeap(year)
    decreases if era < 0 then -era else era
  {
    hide IsLeap;
    if era > 0 {
      LeapShift(year, era - 1);
      LeapPeriod(year + (era - 1) * 400);
    } else if era < 0 {
      LeapShift(year, era + 1);
      LeapPeriod(year + era * 400);
    }
  }

  /** The date of a day of a March-based year. */
  lemma DateInYearIsExact(yoe: int, era: int, doy: int)
    requires 0 <= yoe < 400 && 0 <= doy <= if IsLeap(yoe + 1) then 365 else 364
    ensures var date := DateInYear(yoe + era * 400, doy);
      IsDate(date) && DayNumber(date) == 146097 * era + MarchStart(yoe) + doy - 719468
  {
    hide IsLeap, DaysBeforeYear, MarchStart, DaysBeforeMonth;
    var year, date := yoe + era * 400, DateInYear(yoe + era * 400, doy);
    MarchMonths(doy);
    EraShift(yoe, era);
    LeapShift(yoe + 1, era);
    assert yoe + 1 + era * 400 == year + 1;
    YearLength(year);
    YearLength(year + 1);
    MonthStarts(date.year, date.month);
  }

  /** Every day count becomes a date of the calendar whose number it is. */
  lemma DaysToDateIsExact(days: int)
    ensures IsDate(DaysToDate(days)) && DayNumber(DaysToDate(days)) == days
  {
    hide IsLeap, IsDate, DayNumber, MarchStart, YearOfEra, DateInYear;
    var shifted := days + 719468;
    var doe := shifted % 146097;
    YearOfEraIsExact(doe);
    DateInYearIsExact(YearOfEra(doe), shifted / 146097, doe - MarchStart(YearOfEra(doe)));
  }

  /** Every date of the calendar is reached, from its own number. */
  lemma DateToDaysIsExact(date: Date)
    requires IsDate(date)
    ensures DaysToDate(DayNumber(date)) == date
  {
    hide DayNumber, DaysToDate;
    var other := DaysToDate(DayNumber(date));
    DaysToDateIsExact(DayNumber(date));
    if Earlier(date, other) {
      DayNumberIncreases(date, other);
    } else if Earlier(other, date) {
      DayNumberIncreases(other, date);
    }
  }

  /** So the conversion walks the calendar: the epoch at zero, then day by day. */
  lemma DaysToDateWalks(days: int)
    ensures DaysToDate(0) == EPOCH && IsDate(DaysToDate(days))
    ensures DaysToDate(days + 1) == NextDay(DaysToDate(days)) && Earlier(DaysToDate(days), DaysToDate(days + 1))
  {
    hide DayNumber, DaysToDate;
    DaysToDateIsExact(days);
    EpochIsZero();
    DayNumberCounts(DaysToDate(days));
    DateToDaysIsExact(EPOCH);
    DateToDaysIsExact(NextDay(DaysToDate(days)));
  }

  // ---- The textual form ---------------------------------------------------------------------

  const I64_MAX: nat := 0x7FFF_FFFF_FFFF_FFFF
  const DASH: byte := 45
  const COLON: byte := 58
  const T: byte := 84
  const Z: byte := 90

  /** The date a non-negative day count gives. */
  lemma FromTheEpochOn(days: nat)
    ensures IsDate(DaysToDate(days)) && DaysToDate(days).year >= 1970
    ensures DaysToDate(days).year <= 9999 <==> days < 2932897
  {
    var date, far := DaysToDate(days), Date(10000, 1, 1);
    EpochIsZero();
    assert DayNumber(far) == 2932897;
    DaysToDateIsExact(days);
    hide DayNumber, DaysToDate;
    if Earlier(date, EPOCH) { DayNumberIncreases(date, EPOCH); }
    if Earlier(date, far) { DayNumberIncreases(date, far); }
    if Earlier(far, date) { DayNumberIncreases(far, date); }
  }

  /** `iso_timestamp_at`, of whole seconds since the epoch. */
  function IsoTimestamp(seconds: nat): Bytes {
    var secs := if seconds > I64_MAX then I64_MAX else seconds;
    var days, sod := secs / 86400, secs % 86400;
    var date := DaysToDate(days);
    FromTheEpochOn(days);
    Padded(date.year, 4) + [DASH] + Padded(date.month, 2) + [DASH] + Padded(date.day, 2) + [T] +
    Padded(sod / 3600, 2) + [COLON] + Padded(sod % 3600 / 60, 2) + [COLON] + Padded(sod % 60, 2) + [Z]
  }

  /** Section 5.6 of RFC 3339, in whole seconds and UTC. */
  predicate IsTimestamp(text: Bytes) {
    && |text| == 20 && text[4] == DASH && text[7] == DASH && text[10] == T && text[13] == COLON && text[16] == COLON
    && text[19] == Z
    && AllDigits(text[..4]) && AllDigits(text[5..7]) && AllDigits(text[8..10])
    && AllDigits(text[11..13]) && AllDigits(text[14..16]) && AllDigits(text[17..19])
    && IsDate(DateOf(text)) && Value(text[11..13]) < 24 && Value(text[14..16]) < 60 && Value(text[17..19]) < 60
  }

  function DateOf(text: Bytes): Date
    requires |text| == 20 && AllDigits(text[..4]) && AllDigits(text[5..7]) && AllDigits(text[8..10])
  {
    Date(Value(text[..4]), Value(text[5..7]), Value(text[8..10]))
  }

  /** The instant a timestamp names. */
  function SecondsOf(text: Bytes): int
    requires IsTimestamp(text)
  {
    86400 * DayNumber(DateOf(text)) + 3600 * Value(text[11..13]) + 60 * Value(text[14..16]) + Value(text[17..19])
  }

  /** A field between what precedes and what follows it is read back. */
  lemma FieldAt(front: Bytes, field: Bytes, mark: byte, back: Bytes, text: Bytes)
    requires text == front + field + [mark] + back
    ensures text[|front|..|front| + |field|] == field && text[|front| + |field|] == mark
    ensures text[|front| + |field| + 1..] == back && |text| == |front| + |field| + 1 + |back|
  {
  }

  /** Fields side by side are read back one by one. */
  lemma Fields(y: Bytes, mo: Bytes, d: Bytes, h: Bytes, m: Bytes, s: Bytes)
    requires |y| == 4 && |mo| == |d| == |h| == |m| == |s| == 2
    ensures var text := y + [DASH] + mo + [DASH] + d + [T] + h + [COLON] + m + [COLON] + s + [Z];
      && |text| == 20 && text[4] == DASH && text[7] == DASH && text[10] == T && text[13] == COLON && text[16] == COLON
      && text[19] == Z && text[..4] == y && text[5..7] == mo && text[8..10] == d && text[11..13] == h
      && text[14..16] == m && text[17..19] == s
  {
    var a := y + [DASH];
    var b := a + mo + [DASH];
    var c := b + d + [T];
    var e := c + h + [COLON];
    var f := e + m + [COLON];
    var text := f + s + [Z];
    FieldAt([], y, DASH, text[5..], text);
    FieldAt(a, mo, DASH, text[8..], text);
    FieldAt(b, d, T, text[11..], text);
    FieldAt(c, h, COLON, text[14..], text);
    FieldAt(e, m, COLON, text[17..], text);
    FieldAt(f, s, Z, [], text);
  }

  /** Up to the end of year 9999 the text is a timestamp and names the instant
      it was made from; from then on it is too long to be one. */
  lemma TimestampRoundTrip(seconds: nat)
    ensures IsTimestamp(IsoTimestamp(seconds)) <==> seconds < 253402300800
    ensures seconds < 253402300800 ==> SecondsOf(IsoTimestamp(seconds)) == seconds
  {
    hide DaysToDate, DayNumber, Padded, Value, Digits, IsDate;
    var secs := if seconds > I64_MAX then I64_MAX else seconds;
    var days, sod := secs / 86400, secs % 86400;
    var date := DaysToDate(days);
    FromTheEpochOn(days);
    DaysToDateIsExact(days);
    MonthAndDay(date);
    var y, mo, d := Padded(date.year, 4), Padded(date.month, 2), Padded(date.day, 2);
    var h, m, s := Padded(sod / 3600, 2), Padded(sod % 3600 / 60, 2), Padded(sod % 60, 2);
    PaddedShape(date.year, 4);
    PaddedShape(date.month, 2);
    PaddedShape(date.day, 2);
    PaddedShape(sod / 3600, 2);
    PaddedShape(sod % 3600 / 60, 2);
    PaddedShape(sod % 60, 2);
    assert Pow10(2) == 100 && Pow10(4) == 10000 by { assert Pow10(3) == 1000; }
    DigitsLength(date.year, 4);
    if days < 2932897 {
      Fields(y, mo, d, h, m, s);
      assert DateOf(IsoTimestamp(seconds)) == date;
    }
  }

  lemma MonthAndDay(date: Date)
    requires IsDate(date)
    ensures 1 <= date.month <= 12 && 1 <= date.day <= 31
  {
  }
}
