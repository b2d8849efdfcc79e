/** The date the prompt shows: days since the epoch to a proleptic Gregorian date. */
module Calendar {
  import opened Text

  datatype Date = Date(year: int, month: int, day: int)

  /** Integer division of the source, truncating toward zero. */
  function Quot(a: int, b: int): int
    requires b > 0
  {
    if a >= 0 then a / b else -(-a / b)
  }

  function CivilFromDays(days: int): Date {
    var z := days + 719468;
    var era := Quot(if z >= 0 then z else z - 146096, 146097);
    CivilInEra(era, z - era * 146097)
  }

  function CivilInEra(era: int, dayOfEra: int): Date {
    var yearOfEra := Quot(dayOfEra - Quot(dayOfEra, 1460) + Quot(dayOfEra, 36524) - Quot(dayOfEra, 146096), 365);
    var year := yearOfEra + era * 400;
    var dayOfYear := dayOfEra - (365 * yearOfEra + Quot(yearOfEra, 4) - Quot(yearOfEra, 100));
    var shiftedMonth := Quot(5 * dayOfYear + 2, 153);
    var day := dayOfYear - Quot(153 * shiftedMonth + 2, 5) + 1;
    var month := if shiftedMonth < 10 then shiftedMonth + 3 else shiftedMonth - 9;
    Date(if month <= 2 then year + 1 else year, month, day)
  }

  // ----- the calendar itself -----

  predicate Leap(year: int) { year % 4 == 0 && (year % 100 != 0 || year % 400 == 0) }

  function DaysIn(year: int, month: int): int {
    if month == 2 then (if Leap(year) then 29 else 28)
    else if month in {4, 6, 9, 11} then 30
    else 31
  }

  predicate Valid(d: Date) { 1 <= d.month <= 12 && 1 <= d.day <= DaysIn(d.year, d.month) }

  function Next(d: Date): Date {
    if d.day < DaysIn(d.year, d.month) then d.(day := d.day + 1)
    else if d.month < 12 then Date(d.year, d.month + 1, 1)
    else Date(d.year + 1, 1, 1)
  }

  // ----- years and months counted from March -----

  /** Days of an era before its March-based year `y`. */
  function Before(y: int): int { 365 * y + y / 4 - y / 100 + y / 400 }

  function YearOfEra(doe: int): int
    requires 0 <= doe < 146097
  {
    (doe - doe / 1460 + doe / 36524 - doe / 146096) / 365
  }

  /** Century, four-year cycle, year and day within an era; the last year of a long cycle has a day 365. */
  predicate Split(doe: int, c: int, q: int, k: int, r: int) {
    && doe == 36524 * c + 1461 * q + 365 * k + r
    && 0 <= c <= 3 && 0 <= q <= 24 && 0 <= k <= 3 && 0 <= r <= 365
    && (r == 365 ==> k == 3 && (q < 24 || c == 3))
  }

  lemma SplitEra(doe: int) returns (c: int, q: int, k: int, r: int)
    requires 0 <= doe < 146097
    ensures Split(doe, c, q, k, r)
  {
    c := if doe / 36524 > 3 then 3 else doe / 36524;
    var inCentury := doe - 36524 * c;
    q := if inCentury / 1461 > 24 then 24 else inCentury / 1461;
    var inCycle := inCentury - 1461 * q;
    k := if inCycle / 365 > 3 then 3 else inCycle / 365;
    r := inCycle - 365 * k;
  }

  lemma YearOfSplit(doe: int, c: int, q: int, k: int, r: int)
    requires Split(doe, c, q, k, r) && 0 <= doe < 146097
    ensures YearOfEra(doe) == 100 * c + 4 * q + k
  {
    var over := if 24 * c + q + 365 * k + r >= 1460 then 1 else 0;
    assert doe / 1460 == 25 * c + q + over;
    assert doe / 36524 - doe / 146096 == c;
    assert doe - doe / 1460 + c == 365 * (100 * c + 4 * q + k) + (r - over);
  }

  lemma BeforeSplit(c: int, q: int, k: int)
    requires 0 <= c <= 3 && 0 <= q <= 24 && 0 <= k <= 3
    ensures Before(100 * c + 4 * q + k) == 36524 * c + 1461 * q + 365 * k
  {
    var y := 100 * c + 4 * q + k;
    assert y / 4 == 25 * c + q && y / 100 == c && y / 400 == 0;
  }

  /** The division formula finds the March-based year of the era in which the day lies. */
  lemma YearOfEraIsRight(doe: int)
    requires 0 <= doe < 146097
    ensures 0 <= YearOfEra(doe) <= 399 && Before(YearOfEra(doe)) <= doe < Before(YearOfEra(doe) + 1)
  {
    var c, q, k, r := SplitEra(doe);
    YearOfSplit(doe, c, q, k, r);
    BeforeSplit(c, q, k);
    if k < 3 {
      BeforeSplit(c, q, k + 1);
    } else if q < 24 {
      BeforeSplit(c, q + 1, 0);
    } else if c < 3 {
      BeforeSplit(c + 1, 0, 0);
    }
  }

  // ----- the conversion against the calendar -----

  /** Days of a March-based year before its month `m` (March is 0). */
  function BeforeMonth(m: int): int { (153 * m + 2) / 5 }

  function FromMarch(year: int, shiftedMonth: int, day: int): Date {
    var month := if shiftedMonth < 10 then shiftedMonth + 3 else shiftedMonth - 9;
    Date(if month <= 2 then year + 1 else year, month, day)
  }

  /** The month formula finds the March-based month in which the day of the year lies. */
  lemma MonthOfYearIsRight(doy: int)
    requires 0 <= doy <= 365
    ensures var m := (5 * doy + 2) / 153; 0 <= m <= 11 && BeforeMonth(m) <= doy < BeforeMonth(m + 1)
  {
  }

  /** Length of the months between March and February, apart from the leap day. */
  lemma MonthLengths(year: int, m: int)
    requires 0 <= m <= 11
    ensures var d := FromMarch(year, m, 1);
            && 1 <= d.month <= 12
            && DaysIn(d.year, d.month) ==
                 if m < 11 then BeforeMonth(m + 1) - BeforeMonth(m) else if Leap(year + 1) then 29 else 28
  {
    var d := FromMarch(year, m, 1);
    assert BeforeMonth(0) == 0 && BeforeMonth(1) == 31 && BeforeMonth(2) == 61 && BeforeMonth(3) == 92;
    assert BeforeMonth(4) == 122 && BeforeMonth(5) == 153 && BeforeMonth(6) == 184 && BeforeMonth(7) == 214;
    assert BeforeMonth(8) == 245 && BeforeMonth(9) == 275 && BeforeMonth(10) == 306 && BeforeMonth(11) == 337;
  }

  /** Day `doy` of the March-based year `year`. */
  function InYear(year: int, doy: int): Date {
    var m := (5 * doy + 2) / 153;
    FromMarch(year, m, doy - BeforeMonth(m) + 1)
  }

  function YearDays(year: int): int { if Leap(year + 1) then 366 else 365 }

  lemma InYearIsValid(year: int, doy: int)
    requires 0 <= doy < YearDays(year)
    ensures Valid(InYear(year, doy))
  {
    MonthOfYearIsRight(doy);
    MonthLengths(year, (5 * doy + 2) / 153);
  }

  lemma MonthIsUnique(doy: int, m: int)
    requires 0 <= m <= 11 && BeforeMonth(m) <= doy < BeforeMonth(m + 1)
    ensures (5 * doy + 2) / 153 == m
  {
  }

  lemma NextInYear(year: int, doy: int)
    requires 0 <= doy < YearDays(year)
    ensures Next(InYear(year, doy)) == if doy + 1 < YearDays(year) then InYear(year, doy + 1) else InYear(year + 1, 0)
  {
    var m := (5 * doy + 2) / 153;
    MonthOfYearIsRight(doy);
    MonthLengths(year, m);
    if doy + 1 < BeforeMonth(m + 1) {
      MonthIsUnique(doy + 1, m);
    } else if m < 11 {
      MonthIsUnique(doy + 1, m + 1);
    }
  }

  /** Where day `days` lies: era, year of the era, and day of that March-based year. */
  predicate Lies(days: int, era: int, yoe: int, doy: int) {
    && 0 <= yoe <= 399 && 0 <= doy < Before(yoe + 1) - Before(yoe)
    && days + 719468 == 146097 * era + Before(yoe) + doy
  }

  lemma LeapInCycle(c: int, q: int, k: int)
    requires 0 <= c <= 3 && 0 <= q <= 24 && 0 <= k <= 3
    ensures Leap(100 * c + 4 * q + k + 1) <==> k == 3 && (q < 24 || c == 3)
  {
    var y := 100 * c + 4 * q + k + 1;
    if k < 3 {
      assert y == 4 * (25 * c + q) + (k + 1);
    } else if q < 24 {
      assert y == 4 * (25 * c + q + 1) && y == 100 * c + 4 * (q + 1);
    } else {
      assert y == 100 * (c + 1);
    }
  }

  lemma BeforeCycle(c: int, q: int, k: int)
    requires 0 <= c <= 3 && 0 <= q <= 24 && 0 <= k <= 3
    ensures Before(100 * c + 4 * q + k + 1) - Before(100 * c + 4 * q + k)
         == if k == 3 && (q < 24 || c == 3) then 366 else 365
  {
    BeforeSplit(c, q, k);
    if k < 3 {
      BeforeSplit(c, q, k + 1);
    } else if q < 24 {
      BeforeSplit(c, q + 1, 0);
    } else if c < 3 {
      BeforeSplit(c + 1, 0, 0);
    }
  }

  lemma YearLength(y: int)
    requires 0 <= y <= 399
    ensures Before(y + 1) - Before(y) == if Leap(y + 1) then 366 else 365
  {
    var c, inCentury := y / 100, y % 100;
    var q, k := inCentury / 4, inCentury % 4;
    assert y == 100 * c + 4 * q + k;
    LeapInCycle(c, q, k);
    BeforeCycle(c, q, k);
  }

  lemma Shift4(y: int, n: int)
    ensures (y + 4 * n) % 4 == y % 4
  {
  }

  lemma Shift100(y: int, n: int)
    ensures (y + 100 * n) % 100 == y % 100
  {
  }

  lemma Shift400(y: int, n: int)
    ensures (y + 400 * n) % 400 == y % 400 && (0 <= y < 400 ==> (y + 400 * n) / 400 == n)
  {
  }

  lemma LeapInEra(y: int, era: int)
    ensures Leap(y + era * 400) <==> Leap(y)
  {
    Shift4(y, 100 * era);
    Shift100(y, 4 * era);
    Shift400(y, era);
  }

  lemma EraOf(z: int)
    ensures Quot(if z >= 0 then z else z - 146096, 146097) == z / 146097
  {
  }

  lemma CivilInEraIs(era: int, doe: int)
    requires 0 <= doe < 146097
    ensures CivilInEra(era, doe) == InYear(YearOfEra(doe) + era * 400, doe - Before(YearOfEra(doe)))
  {
    YearOfEraIsRight(doe);
    var yoe := YearOfEra(doe);
    assert yoe / 400 == 0;
    assert Quot(yoe, 4) == yoe / 4 && Quot(yoe, 100) == yoe / 100;
    var doy := doe - Before(yoe);
    assert Quot(5 * doy + 2, 153) == (5 * doy + 2) / 153 >= 0;
  }

  lemma Locate(days: int) returns (era: int, yoe: int, doy: int)
    ensures Lies(days, era, yoe, doy) && CivilFromDays(days) == InYear(yoe + era * 400, doy)
  {
    hide CivilInEra, InYear, YearOfEra;
    var z := days + 719468;
    EraOf(z);
    era := z / 146097;
    var doe := z - era * 146097;
    yoe := YearOfEra(doe);
    YearOfEraIsRight(doe);
    doy := doe - Before(yoe);
    CivilInEraIs(era, doe);
  }

  lemma BeforeGrows(y1: int, y2: int)
    requires y1 <= y2
    ensures Before(y1) <= Before(y2)
  {
  }

  /** A day lies in one place only. */
  lemma LiesOnce(days: int, e1: int, y1: int, d1: int, e2: int, y2: int, d2: int)
    requires Lies(days, e1, y1, d1) && Lies(days, e2, y2, d2)
    ensures e1 == e2 && y1 == y2 && d1 == d2
  {
    BeforeGrows(0, y1);
    BeforeGrows(0, y2);
    BeforeGrows(y1 + 1, 400);
    BeforeGrows(y2 + 1, 400);
    if y1 < y2 {
      BeforeGrows(y1 + 1, y2);
    } else if y2 < y1 {
      BeforeGrows(y2 + 1, y1);
    }
  }

  lemma CivilAt(days: int, era: int, yoe: int, doy: int)
    requires Lies(days, era, yoe, doy)
    ensures CivilFromDays(days) == InYear(yoe + era * 400, doy)
  {
    var e, y, d := Locate(days);
    LiesOnce(days, era, yoe, doy, e, y, d);
  }

  lemma YearLengthInEra(yoe: int, era: int)
    requires 0 <= yoe <= 399
    ensures Before(yoe + 1) - Before(yoe) == YearDays(yoe + era * 400)
  {
    YearLength(yoe);
    LeapInEra(yoe + 1, era);
  }

  /** Every day number converts to a date of the Gregorian calendar. */
  lemma DatesAreValid(days: int)
    ensures Valid(CivilFromDays(days))
  {
    var era, yoe, doy := Locate(days);
    YearLengthInEra(yoe, era);
    InYearIsValid(yoe + era * 400, doy);
  }

  lemma NextPlace(days: int, era: int, yoe: int, doy: int) returns (era': int, yoe': int, doy': int)
    requires Lies(days, era, yoe, doy)
    ensures Lies(days + 1, era', yoe', doy') && 0 <= doy < YearDays(yoe + era * 400)
    ensures var year, year' := yoe + era * 400, yoe' + era' * 400;
            if doy + 1 < YearDays(year) then year' == year && doy' == doy + 1 else year' == year + 1 && doy' == 0
  {
    YearLengthInEra(yoe, era);
    if doy + 1 < Before(yoe + 1) - Before(yoe) {
      era', yoe', doy' := era, yoe, doy + 1;
    } else if yoe < 399 {
      YearLengthInEra(yoe + 1, era);
      era', yoe', doy' := era, yoe + 1, 0;
    } else {
      era', yoe', doy' := era + 1, 0, 0;
    }
  }

  lemma DayZeroIsTheEpoch()
    ensures CivilFromDays(0) == Date(1970, 1, 1)
  {
    assert Quot(719468, 146097) == 4;
    assert Quot(135080, 1460) == 92 && Quot(135080, 36524) == 3 && Quot(135080, 146096) == 0;
    assert Quot(134991, 365) == 369 && Quot(369, 4) == 92 && Quot(369, 100) == 3;
    assert Quot(1532, 153) == 10 && Quot(1532, 5) == 306;
  }

  /** The next day number is the next day of the calendar. */
  lemma DaysAdvance(days: int)
    ensures CivilFromDays(days + 1) == Next(CivilFromDays(days))
  {
    hide *;
    var era, yoe, doy := Locate(days);
    var era', yoe', doy' := NextPlace(days, era, yoe, doy);
    NextInYear(yoe + era * 400, doy);
    CivilAt(days + 1, era', yoe', doy');
  }

  // ----- the inverse -----

  /** Day number of a valid date, counted by whole eras, years and months from March of year 0. */
  function DayNumber(d: Date): int {
    var year := if d.month <= 2 then d.year - 1 else d.year;
    var shiftedMonth := if d.month <= 2 then d.month + 9 else d.month - 3;
    146097 * (year / 400) + Before(year % 400) + BeforeMonth(shiftedMonth) + d.day - 1 - 719468
  }

  /** The conversion is a bijection between the integers and the valid dates, with `DayNumber` its inverse. */
  lemma DayNumberInverts(days: int, d: Date)
    ensures DayNumber(CivilFromDays(days)) == days
    ensures Valid(d) ==> CivilFromDays(DayNumber(d)) == d
  {
    DayNumberOfDays(days);
    if Valid(d) {
      DaysOfDayNumber(d);
    }
  }

  lemma DayOfYearInRange(days: int, era: int, yoe: int, doy: int)
    requires Lies(days, era, yoe, doy)
    ensures 0 <= doy <= 365
  {
    YearLengthInEra(yoe, era);
  }

  lemma DayNumberOfDays(days: int)
    ensures DayNumber(CivilFromDays(days)) == days
  {
    hide CivilFromDays, Before, YearDays;
    var era, yoe, doy := Locate(days);
    DayOfYearInRange(days, era, yoe, doy);
    MonthOfYearIsRight(doy);
    Shift400(yoe, era);
  }

  lemma DaysOfDayNumber(d: Date)
    requires Valid(d)
    ensures CivilFromDays(DayNumber(d)) == d
  {
    var year := if d.month <= 2 then d.year - 1 else d.year;
    var m := if d.month <= 2 then d.month + 9 else d.month - 3;
    var era, yoe := year / 400, year % 400;
    var doy := BeforeMonth(m) + d.day - 1;
    assert FromMarch(year, m, d.day) == d;
    MonthLengths(year, m);
    YearLengthInEra(yoe, era);
    MonthsAddUp(m);
    assert 0 <= doy < YearDays(year);
    CivilAt(DayNumber(d), era, yoe, doy);
    MonthOfYearIsRight(doy);
    if m < 11 {
      MonthIsUnique(doy, m);
    } else {
      LastMonthIsUnique(doy);
    }
  }

  lemma LastMonthIsUnique(doy: int)
    requires BeforeMonth(11) <= doy <= 365
    ensures (5 * doy + 2) / 153 == 11
  {
  }

  lemma MonthsAddUp(m: int)
    requires 0 <= m <= 11
    ensures 0 <= BeforeMonth(m) <= 337 && (m < 11 ==> BeforeMonth(m + 1) <= 337) && BeforeMonth(11) == 337
  {
  }

  // ----- the formatted date -----

  /** The UTC date at `secs` seconds from the epoch; the source's `div_euclid` is Dafny's division. */
  function DateOfSeconds(secs: int): (d: Date)
    ensures Valid(d) && DayNumber(d) * 86400 <= secs < (DayNumber(d) + 1) * 86400
  {
    hide *;
    var days := secs / 86400;
    DatesAreValid(days);
    DayNumberInverts(days, Date(0, 0, 0));
    CivilFromDays(days)
  }

  /** `{year:04}-{month:02}-{day:02}`; the sign of a negative year counts toward its width. */
  function IsoText(d: Date): string
    requires Valid(d)
  {
    (if d.year >= 0 then Padded(d.year, 4) else "-" + Padded(-d.year, 3))
    + "-" + Padded(d.month, 2) + "-" + Padded(d.day, 2)
  }

  /** A text of digits for `n`, at least `width` of them and no leading zero beyond. */
  predicate Spells(s: string, n: nat, width: nat) {
    && AllDigits(s) && DigitsValue(s) == n && |s| >= width && (|s| > width ==> s[0] != '0')
  }

  lemma {:induction false} NoLeadingZero(n: nat)
    ensures Decimal(n) != [] && (n > 0 ==> Decimal(n)[0] != '0')
    ensures n == 0 ==> |Decimal(n)| == 1
  {
    if n < 10 {
    } else {
      NoLeadingZero(n / 10);
    }
  }

  lemma PaddedSpells(n: nat, width: nat)
    requires width > 0
    ensures Spells(Padded(n, width), n, width)
  {
    DecimalRoundTrip(n);
    NoLeadingZero(n);
    hide Decimal;
    if |Decimal(n)| <= width {
      LeftPaddedValue(Decimal(n), width);
    }
  }

  /**
   * Every date is shown as sign, year, month and day: two digits each for month and day, four for a year, or
   * three behind the sign of a negative one, and more only where the year has more.
   */
  lemma IsoSpells(d: Date) returns (year: string, month: string, day: string)
    requires Valid(d)
    ensures IsoText(d) == (if d.year < 0 then "-" else "") + year + "-" + month + "-" + day
    ensures if d.year < 0 then Spells(year, -d.year, 3) else Spells(year, d.year, 4)
    ensures |month| == |day| == 2 && Spells(month, d.month, 2) && Spells(day, d.day, 2)
  {
    assert TenTo(1) == 10 && TenTo(2) == 100;
    year := if d.year < 0 then Padded(-d.year, 3) else Padded(d.year, 4);
    month, day := Padded(d.month, 2), Padded(d.day, 2);
    PaddedSpells(if d.year < 0 then -d.year else d.year, if d.year < 0 then 3 else 4);
    PaddedSpells(d.month, 2);
    PaddedSpells(d.day, 2);
    PaddedRoundTrip(d.month, 2);
    PaddedRoundTrip(d.day, 2);
    hide Padded, Spells;
    assert "" + year == year;
  }

  function ReadIso(s: string): Date
    requires |s| == 10 && AllDigits(s[..4]) && AllDigits(s[5..7]) && AllDigits(s[8..])
  {
    Date(DigitsValue(s[..4]), DigitsValue(s[5..7]), DigitsValue(s[8..]))
  }

  /** A four-digit year is shown as ten characters that read back as the same date. */
  lemma IsoRoundTrip(d: Date)
    requires Valid(d) && 0 <= d.year <= 9999
    ensures var s := IsoText(d);
            |s| == 10 && s[4] == s[7] == '-' && AllDigits(s[..4]) && AllDigits(s[5..7]) && AllDigits(s[8..])
            && ReadIso(s) == d
  {
    assert TenTo(1) == 10 && TenTo(2) == 100 && TenTo(3) == 1000 && TenTo(4) == 10000;
    PaddedRoundTrip(d.year, 4);
    PaddedRoundTrip(d.month, 2);
    PaddedRoundTrip(d.day, 2);
    hide Padded;
    var s := IsoText(d);
    assert s[..4] == Padded(d.year, 4) && s[5..7] == Padded(d.month, 2) && s[8..] == Padded(d.day, 2);
  }
}
