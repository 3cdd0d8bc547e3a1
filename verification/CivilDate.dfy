/**
 The build date: a day count since 1970-01-01 as a Gregorian date, without a calendar
 library.

 The calendar it is held to is defined here by counting: years and months add up their
 lengths, one by one.
 */
module CivilDate {
  import opened JsonText

  datatype Date = Date(year: nat, month: nat, day: nat)

  // ---------------------------------------------------------------------------
  // The calendar
  // ---------------------------------------------------------------------------

  predicate IsLeap(year: nat) { year % 4 == 0 && (year % 100 != 0 || year % 400 == 0) }

  function DaysIn(year: nat, month: nat): nat {
    if month == 2 then (if IsLeap(year) then 29 else 28)
    else if month in [4, 6, 9, 11] then 30
    else 31
  }

  predicate IsDate(d: Date) { d.year >= 1970 && 1 <= d.month <= 12 && 1 <= d.day <= DaysIn(d.year, d.month) }

  /** The days from 1970-01-01 to the first of January. */
  function YearStart(year: nat): nat
    requires year >= 1970
  {
    if year == 1970 then 0 else YearStart(year - 1) + (if IsLeap(year - 1) then 366 else 365)
  }

  /** The days from the first of January to the first of the month. */
  function MonthStart(year: nat, month: nat): nat
    requires month >= 1
  {
    if month == 1 then 0 else MonthStart(year, month - 1) + DaysIn(year, month - 1)
  }

  function DayNumber(d: Date): nat
    requires IsDate(d)
  {
    YearStart(d.year) + MonthStart(d.year, d.month) + (d.day - 1)
  }

  function NextDay(d: Date): Date {
    if d.day < DaysIn(d.year, d.month) then d.(day := d.day + 1)
    else if d.month < 12 then Date(d.year, d.month + 1, 1)
    else Date(d.year + 1, 1, 1)
  }

  lemma MonthStarts(year: nat)
    ensures var f := if IsLeap(year) then 60 else 59;
            && MonthStart(year, 1) == 0 && MonthStart(year, 2) == 31 && MonthStart(year, 3) == f
            && MonthStart(year, 4) == f + 31 && MonthStart(year, 5) == f + 61 && MonthStart(year, 6) == f + 92
            && MonthStart(year, 7) == f + 122 && MonthStart(year, 8) == f + 153 && MonthStart(year, 9) == f + 184
            && MonthStart(year, 10) == f + 214 && MonthStart(year, 11) == f + 245 && MonthStart(year, 12) == f + 275
  {
    assert MonthStart(year, 3) == MonthStart(year, 2) + DaysIn(year, 2);
    assert MonthStart(year, 6) == MonthStart(year, 5) + 31;
    assert MonthStart(year, 9) == MonthStart(year, 8) + 31;
  }

  /** The day after is one more, and is a date. */
  lemma NextDayCounts(d: Date)
    requires IsDate(d)
    ensures IsDate(NextDay(d)) && DayNumber(NextDay(d)) == DayNumber(d) + 1
  {
    MonthStarts(d.year);
  }

  lemma MonthStartGrows(year: nat, m: nat, n: nat)
    requires 1 <= m < n <= 12
    ensures MonthStart(year, m) + DaysIn(year, m) <= MonthStart(year, n)
    decreases n
  {
    if m < n - 1 { MonthStartGrows(year, m, n - 1); }
  }

  lemma DayWithinYear(d: Date)
    requires IsDate(d)
    ensures YearStart(d.year) <= DayNumber(d) < YearStart(d.year + 1)
  {
    MonthStarts(d.year);
  }

  lemma {:induction false} YearStartGrows(a: nat, b: nat)
    requires 1970 <= a <= b
    ensures YearStart(a) <= YearStart(b)
    decreases b
  {
    if a < b { YearStartGrows(a, b - 1); }
  }

  /** Two dates with one number are one date. */
  lemma DayNumberIsInjective(a: Date, b: Date)
    requires IsDate(a) && IsDate(b) && DayNumber(a) == DayNumber(b)
    ensures a == b
  {
    DayWithinYear(a);
    DayWithinYear(b);
    if a.year < b.year { YearStartGrows(a.year + 1, b.year); }
    if b.year < a.year { YearStartGrows(b.year + 1, a.year); }
    if a.month < b.month { MonthStartGrows(a.year, a.month, b.month); }
    if b.month < a.month { MonthStartGrows(a.year, b.month, a.month); }
  }

  function One(b: bool): nat { if b then 1 else 0 }

  lemma Below(k: nat, a: nat, b: nat, i: nat, j: nat)
    requires a < b && i < k
    ensures k * a + i < k * b + j
    decreases b
  {
    assert k * b == k * (b - 1) + k;
    if a < b - 1 { Below(k, a, b - 1, i, j); }
  }

  /** Division with remainder has one answer. */
  lemma Divides(x: nat, k: nat, q: nat, s: nat)
    requires s < k && x == k * q + s
    ensures x / k == q && x % k == s
  {
    var a, i := x / k, x % k;
    assert x == k * a + i;
    if a < q { Below(k, a, q, i, s); }
    if q < a { Below(k, q, a, s, i); }
  }

  lemma Multiples(y: nat, k: nat)
    requires y > 0 && k > 0
    ensures y / k == (y - 1) / k + One(y % k == 0)
  {
    var q, s := (y - 1) / k, (y - 1) % k;
    assert y - 1 == k * q + s;
    if s + 1 < k {
      Divides(y, k, q, s + 1);
    } else {
      assert k * (q + 1) == k * q + k;
      Divides(y, k, q + 1, 0);
    }
  }

  lemma Divisible(y: nat)
    ensures y % 400 == 0 ==> y % 100 == 0
    ensures y % 100 == 0 ==> y % 4 == 0
  {
    if y % 400 == 0 { Divides(y, 100, 4 * (y / 400), 0); }
    if y % 100 == 0 { Divides(y, 4, 25 * (y / 100), 0); }
  }

  /** The leap years are the fourth years, less the hundredths, and the four hundredths. */
  lemma LeapCount(y: nat)
    requires y > 0
    ensures y / 4 - y / 100 + y / 400 == (y - 1) / 4 - (y - 1) / 100 + (y - 1) / 400 + One(IsLeap(y))
  {
    Multiples(y, 4);
    Multiples(y, 100);
    Multiples(y, 400);
    Divisible(y);
  }

  /** Counting year by year, in closed form. */
  lemma {:induction false} YearStartCloses(year: nat)
    requires year >= 1970
    ensures YearStart(year) == 365 * year + (year - 1) / 4 - (year - 1) / 100 + (year - 1) / 400 - 719_527
  {
    if year > 1970 {
      YearStartCloses(year - 1);
      LeapCount(year - 1);
    }
  }

  // ---------------------------------------------------------------------------
  // From a day count to a date
  // ---------------------------------------------------------------------------

  /** The days of a 400-year era before its `y`th year, years beginning in March. */
  function EraStart(y: nat): nat
    requires y <= 400
  {
    365 * y + y / 4 - y / 100 + y / 400
  }

  function YearOfEra(doe: nat): nat
    requires doe < 146_097
  {
    (doe - doe / 1460 + doe / 36524 - doe / 146_096) / 365
  }

  /** Within a four-year cycle of 1461 days, the last day of which is the leap day. */
  lemma YearOfCycle(g: nat, t: nat, c: nat)
    requires g < 25 && t < 1461 && c < 4
    ensures var e := (g + t + 24 * c) / 1460;
            && e <= 1 && e <= t
            && (t - e) / 365 == (if t == 1460 then 3 else t / 365) <= 3
  {
  }

  /** Within a century, whose last cycle is a day short. */
  lemma YearOfCentury(r: nat, c: nat)
    requires r < 36524 && c < 4
    ensures (r + 24 * c) / 1460 <= r
    ensures var z := (r - (r + 24 * c) / 1460) / 365;
            z < 100 && 365 * z + z / 4 <= r && (z < 99 ==> r < 365 * (z + 1) + (z + 1) / 4)
  {
    var g, t := r / 1461, r % 1461;
    assert r == 1461 * g + t;
    YearOfCycle(g, t, c);
    var e := (g + t + 24 * c) / 1460;
    assert (r + 24 * c) / 1460 == g + e by { Shift(g, g + t + 24 * c, 1460); }
    var w := (t - e) / 365;
    assert (r - (g + e)) / 365 == 4 * g + w by { Shift(4 * g, t - e, 365); }
    assert (4 * g + w) / 4 == g;
  }

  lemma Shift(q: nat, x: nat, k: nat)
    requires k > 0
    ensures (k * q + x) / k == q + x / k
  {
    assert k * (q + x / k) == k * q + k * (x / k);
    Divides(k * q + x, k, q + x / k, x % k);
  }

  lemma YearOfEraIsRight(doe: nat)
    requires doe < 146_097
    ensures var y := YearOfEra(doe); y < 400 && EraStart(y) <= doe < EraStart(y + 1)
  {
    if doe == 146_096 {
      assert YearOfEra(doe) == 399;
    } else {
      var c, r := doe / 36524, doe % 36524;
      YearOfCentury(r, c);
      var z := (r - (r + 24 * c) / 1460) / 365;
      assert doe == 1460 * (25 * c) + (24 * c + r);
      Shift(25 * c, 24 * c + r, 1460);
      assert doe - doe / 1460 + c == 365 * (100 * c) + (r - (r + 24 * c) / 1460);
      Shift(100 * c, r - (r + 24 * c) / 1460, 365);
      assert YearOfEra(doe) == 100 * c + z;
      EraYear(c, z);
    }
  }

  lemma EraYear(c: nat, z: nat)
    requires c < 4 && z < 100
    ensures EraStart(100 * c + z) == 36524 * c + 365 * z + z / 4
    ensures z < 99 ==> EraStart(100 * c + z + 1) == 36524 * c + 365 * (z + 1) + (z + 1) / 4
    ensures z == 99 ==> EraStart(100 * c + z + 1) >= 36524 * (c + 1)
  {
    EraStartOf(c, z);
    if z < 99 { EraStartOf(c, z + 1); } else if c < 3 { EraStartOf(c + 1, 0); }
  }

  lemma EraStartOf(c: nat, z: nat)
    requires c < 4 && z < 100
    ensures EraStart(100 * c + z) == 36524 * c + 365 * z + z / 4
  {
    Shift(25 * c, z, 4);
    Shift(c, z, 100);
    assert (100 * c + z) / 400 == 0;
  }

  /** Where in the year that begins in March, and which month and day that is. */
  function MarchMonth(doy: nat): nat { (5 * doy + 2) / 153 }

  function MarchDay(doy: nat): int { doy - (153 * MarchMonth(doy) + 2) / 5 + 1 }

  function MonthOf(mp: nat): int { if mp < 10 then mp + 3 else mp - 9 }

  /** The date `doy` days into the year that begins in March. */
  function MarchDate(year: nat, doy: nat): Date
    requires doy < 366
  {
    DayOfMarchYear(doy);
    var month := MonthOf(MarchMonth(doy));
    Date(if month <= 2 then year + 1 else year, month, MarchDay(doy))
  }

  /** The year that begins in March, and the day of it; `days` counts from the first of March
      of year 0. */
  function YearAndDay(days: nat): (r: (nat, nat))
    ensures r.1 < 366
  {
    var era := days / 146_097;
    var doe := days % 146_097;
    YearOfEraIsRight(doe);
    var yoe := YearOfEra(doe);
    EraYearLength(era, yoe);
    (yoe + era * 400, doe - (365 * yoe + yoe / 4 - yoe / 100))
  }

  /** The date `n` days after 1970-01-01. */
  function Civil(n: nat): Date {
    var (year, doy) := YearAndDay(n + 719_468);
    MarchDate(year, doy)
  }

  lemma DayOfMarchYear(doy: nat)
    requires doy < 366
    ensures 0 <= MarchMonth(doy) < 12 && 1 <= MarchDay(doy) <= 31
  {
  }

  // ---------------------------------------------------------------------------
  // It is the calendar's date
  // ---------------------------------------------------------------------------

  /** From March on: the month begins after February's end. */
  lemma FromMarch(year: nat, doy: nat)
    requires doy < 366 && MarchMonth(doy) < 10
    ensures var month := MonthOf(MarchMonth(doy));
            && 3 <= month <= 12 && 1 <= MarchDay(doy) <= DaysIn(year, month)
            && MonthStart(year, month) + MarchDay(doy) - 1 == 59 + One(IsLeap(year)) + doy
  {
    MonthStarts(year);
  }

  /** January and February belong to the next year, and February's length is that year's. */
  lemma BeforeMarch(year: nat, doy: nat)
    requires doy < 365 + One(IsLeap(year)) && MarchMonth(doy) >= 10
    ensures var month := MonthOf(MarchMonth(doy));
            && 1 <= month <= 2 && 1 <= MarchDay(doy) <= DaysIn(year, month)
            && MonthStart(year, month) + MarchDay(doy) - 1 == doy - 306
  {
    MonthStarts(year);
  }

  function Leaps(y: nat): int { y / 4 - y / 100 + y / 400 }

  /** Every era has as many leap years as any other. */
  lemma LeapsInEra(era: nat, yoe: nat)
    requires yoe <= 400
    ensures Leaps(yoe + era * 400) == Leaps(yoe) + 97 * era
  {
    Shift(100 * era, yoe, 4);
    Shift(4 * era, yoe, 100);
    Shift(era, yoe, 400);
  }

  /** A year of the era is as long as its February, next year, says. */
  lemma EraYearLength(era: nat, yoe: nat)
    requires yoe < 400
    ensures EraStart(yoe + 1) - EraStart(yoe) == 365 + One(IsLeap(yoe + era * 400 + 1))
  {
    LeapCount(yoe + era * 400 + 1);
    LeapsInEra(era, yoe);
    LeapsInEra(era, yoe + 1);
  }

  lemma YearStartOf(year: nat)
    requires year >= 1970
    ensures YearStart(year) + 59 + One(IsLeap(year)) == 365 * year + Leaps(year) - 719_468
    ensures YearStart(year + 1) == 365 * year + Leaps(year) - 719_162
  {
    YearStartCloses(year);
    YearStartCloses(year + 1);
    LeapCount(year);
  }

  /** What counting the days of a year that begins in March comes to. */
  lemma MarchDateIsRight(year: nat, doy: nat)
    requires doy < 365 + One(IsLeap(year + 1)) && (year >= 1970 || (year == 1969 && doy >= 306))
    ensures var d := MarchDate(year, doy);
            IsDate(d) && DayNumber(d) == 365 * year + Leaps(year) + doy - 719_468
  {
    if MarchMonth(doy) < 10 {
      assert doy < 306;
      FromMarch(year, doy);
      YearStartOf(year);
    } else {
      BeforeMarch(year + 1, doy);
      YearStartCloses(year + 1);
    }
  }

  lemma YearAndDayIsRight(days: nat)
    requires days >= 719_468
    ensures var (year, doy) := YearAndDay(days);
            && doy < 365 + One(IsLeap(year + 1)) && days == 365 * year + Leaps(year) + doy
            && (year >= 1970 || (year == 1969 && doy >= 306))
  {
    var era, doe := days / 146_097, days % 146_097;
    var yoe := YearOfEra(doe);
    YearOfEraIsRight(doe);
    EraYearLength(era, yoe);
    LeapsInEra(era, yoe);
    assert days == 146_097 * era + doe;
    if era <= 4 { assert era == 4 && doe >= 135_080; }
  }

  /** The date is a date, and its number is the days counted. */
  lemma CivilIsRight(n: nat)
    ensures IsDate(Civil(n)) && DayNumber(Civil(n)) == n
  {
    YearAndDayIsRight(n + 719_468);
    var (year, doy) := YearAndDay(n + 719_468);
    MarchDateIsRight(year, doy);
  }

  /** It is the inverse of counting. */
  lemma CivilInverts(d: Date)
    requires IsDate(d)
    ensures Civil(DayNumber(d)) == d
  {
    CivilIsRight(DayNumber(d));
    DayNumberIsInjective(Civil(DayNumber(d)), d);
  }

  lemma NextIsNext(d: Date, n: nat)
    requires IsDate(d) && DayNumber(d) == n
    ensures Civil(n + 1) == NextDay(d)
  {
    NextDayCounts(d);
    CivilInverts(NextDay(d));
  }

  /** Consecutive days have consecutive dates, across months, leap years and eras. */
  lemma ConsecutiveDays(n: nat)
    ensures Civil(n + 1) == NextDay(Civil(n))
  {
    CivilIsRight(n);
    NextIsNext(Civil(n), n);
  }

  lemma FirstDay()
    ensures Civil(0) == Date(1970, 1, 1)
  {
    CivilInverts(Date(1970, 1, 1));
  }

  // ---------------------------------------------------------------------------
  // The text
  // ---------------------------------------------------------------------------

  function Zeros(n: nat): string { if n == 0 then "" else Zeros(n - 1) + "0" }

  function Missing(len: nat, width: nat): nat { if len < width then width - len else 0 }

  /** At least `width` digits. */
  function Padded(n: nat, width: nat): string {
    Zeros(Missing(|Digits(n)|, width)) + Digits(n)
  }

  function DateText(d: Date): string { Padded(d.year, 4) + "-" + Padded(d.month, 2) + "-" + Padded(d.day, 2) }

  function CivilText(secs: nat): string { DateText(Civil(secs / 86_400)) }

  function Digit(c: char): int { c as int - '0' as int }

  function ValueOf(s: string): int {
    if s == "" then 0 else 10 * ValueOf(s[..|s| - 1]) + Digit(s[|s| - 1])
  }

  predicate AllDigits(s: string) { forall i :: 0 <= i < |s| ==> '0' <= s[i] <= '9' }

  lemma {:induction false} ZerosAreZeros(n: nat)
    ensures |Zeros(n)| == n && AllDigits(Zeros(n)) && ValueOf(Zeros(n)) == 0
  {
    if n == 0 {
    } else {
      ZerosAreZeros(n - 1);
      assert Zeros(n) == Zeros(n - 1) + ['0'];
      ValueSnoc(Zeros(n - 1), '0');
    }
  }

  lemma {:induction false} LeadingZeros(n: nat, s: string)
    ensures ValueOf(Zeros(n) + s) == ValueOf(s)
  {
    ZerosAreZeros(n);
    if s == "" {
      assert Zeros(n) + s == Zeros(n);
    } else {
      var front := s[..|s| - 1];
      LeadingZeros(n, front);
      assert (Zeros(n) + s)[..|Zeros(n) + s| - 1] == Zeros(n) + front;
    }
  }

  lemma ValueSnoc(s: string, c: char)
    ensures ValueOf(s + [c]) == 10 * ValueOf(s) + Digit(c)
    ensures AllDigits(s) && '0' <= c <= '9' ==> AllDigits(s + [c])
  {
    assert (s + [c])[..|s|] == s;
  }

  lemma {:induction false} DigitsHaveValue(n: nat)
    ensures AllDigits(Digits(n)) && ValueOf(Digits(n)) == n && Digits(n) != ""
  {
    var front := if n < 10 then "" else Digits(n / 10);
    if n >= 10 { DigitsHaveValue(n / 10); }
    assert Digits(n) == front + [DigitChar(n % 10)];
    ValueSnoc(front, DigitChar(n % 10));
  }

  function Power10(w: nat): nat { if w == 0 then 1 else 10 * Power10(w - 1) }

  lemma {:induction false} DigitsAreShort(n: nat, w: nat)
    requires w > 0 && n < Power10(w)
    ensures |Digits(n)| <= w
  {
    if n >= 10 { DigitsAreShort(n / 10, w - 1); }
  }

  lemma PaddedHasValue(n: nat, width: nat)
    ensures AllDigits(Padded(n, width)) && ValueOf(Padded(n, width)) == n
  {
    DigitsHaveValue(n);
    ZerosInFront(Missing(|Digits(n)|, width), Digits(n));
  }

  lemma ZerosInFront(n: nat, s: string)
    requires AllDigits(s)
    ensures AllDigits(Zeros(n) + s) && ValueOf(Zeros(n) + s) == ValueOf(s)
  {
    ZerosAreZeros(n);
    LeadingZeros(n, s);
  }

  lemma PaddedIsWide(n: nat, width: nat)
    requires width > 0 && n < Power10(width)
    ensures |Padded(n, width)| == width
  {
    DigitsAreShort(n, width);
    ZerosAreZeros(Missing(|Digits(n)|, width));
  }

  lemma {:induction false} DigitsAreLong(n: nat, w: nat)
    requires Power10(w) <= n
    ensures |Digits(n)| > w
  {
    if w == 0 {
      DigitsHaveValue(n);
    } else {
      PowerGrows(w - 1);
      DigitsAreLong(n / 10, w - 1);
    }
  }

  lemma PowerGrows(w: nat)
    ensures 1 <= Power10(w)
  {
  }

  lemma Parts(a: string, b: string, c: string)
    requires |b| == 2 && |c| == 2
    ensures var t, y := a + "-" + b + "-" + c, |a|;
            && |t| == y + 6 && t[y] == '-' && t[y + 3] == '-'
            && t[..y] == a && t[y + 1..y + 3] == b && t[y + 4..] == c
  {
  }

  lemma YearIsWide(year: nat)
    ensures |Padded(year, 4)| >= 4 && (|Padded(year, 4)| == 4 <==> year <= 9999)
  {
    assert Power10(4) == 10 * (10 * (10 * (10 * Power10(0))));
    if year <= 9999 {
      PaddedIsWide(year, 4);
    } else {
      DigitsAreLong(year, 4);
      ZerosAreZeros(0);
    }
  }

  /** The year in at least four digits, the month and the day in two, which read as the
      date.  It is a full-date of section 5.6 of RFC 3339, with its four-digit year, exactly
      to the year 9999. */
  predicate IsTextOf(t: string, d: Date) {
    && |t| >= 10 && (|t| == 10 <==> d.year <= 9999)
    && var y := |t| - 6;
       && t[y] == '-' && t[y + 3] == '-'
       && AllDigits(t[..y]) && AllDigits(t[y + 1..y + 3]) && AllDigits(t[y + 4..])
       && d.year == ValueOf(t[..y]) && d.month == ValueOf(t[y + 1..y + 3]) && d.day == ValueOf(t[y + 4..])
  }

  lemma DateTextReads(d: Date)
    requires d.month < 100 && d.day < 100
    ensures IsTextOf(DateText(d), d)
  {
    var year, month, day := Padded(d.year, 4), Padded(d.month, 2), Padded(d.day, 2);
    PaddedHasValue(d.year, 4);
    PaddedHasValue(d.month, 2);
    PaddedHasValue(d.day, 2);
    YearIsWide(d.year);
    assert Power10(2) == 10 * (10 * Power10(0));
    PaddedIsWide(d.month, 2);
    PaddedIsWide(d.day, 2);
    PartsRead(year, month, day, d);
  }

  lemma PartsRead(year: string, month: string, day: string, d: Date)
    requires |year| >= 4 && (|year| == 4 <==> d.year <= 9999) && |month| == 2 && |day| == 2
    requires AllDigits(year) && AllDigits(month) && AllDigits(day)
    requires ValueOf(year) == d.year && ValueOf(month) == d.month && ValueOf(day) == d.day
    ensures IsTextOf(year + "-" + month + "-" + day, d)
  {
    Parts(year, month, day);
  }

  /** For every time the text is that of the date that the day counts to. */
  lemma TextIsFullDate(secs: nat)
    ensures exists d :: IsTextOf(CivilText(secs), d) && IsDate(d) && DayNumber(d) == secs / 86_400
  {
    var d := Civil(secs / 86_400);
    CivilIsRight(secs / 86_400);
    DateTextReads(d);
  }
}
