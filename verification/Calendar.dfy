/**
 The calendar arithmetic of src/datetime.c: day numbers counted from 1 January 1970, civil dates of the
 proleptic Gregorian calendar, and the weeks of ISO 8601 (HTML Standard, section 2.3.5.8).

 The division of the source truncates toward zero; it is written out here.
 */
module Calendar {

  datatype Date = Date(y: int, m: int, d: int)

  function TruncDiv(a: int, b: int): int
    requires b > 0
  {
    if a >= 0 then a / b else -((-a) / b)
  }

  function TruncRem(a: int, b: int): int
    requires b > 0
  {
    a - TruncDiv(a, b) * b
  }

  /** ns_dt_floormod: the remainder has the sign of the modulus.  The remainder of C does not depend on that sign. */
  function FloorMod(a: int, b: int): (r: int)
    requires b != 0
    ensures b > 0 ==> r == a % b
    ensures b < 0 ==> r == -((-a) % (-b))
  {
    var m := if b > 0 then b else -b;
    RemIs(a, m, TruncRem(a, m));
    var r := TruncRem(a, m);
    if r != 0 && (r < 0) != (b < 0) then r + b else r
  }

  lemma RemIs(a: int, m: int, r: int)
    requires m > 0 && r == TruncRem(a, m)
    ensures a % m == if r < 0 then r + m else r
    ensures (-a) % m == if r > 0 then m - r else -r
  {
    var q := TruncDiv(a, m);
    var p := q * m;
    RemBounds(a, m, q, r);
    if r < 0 {
      Times(q, -1, m);
      Euclid(a, m, q - 1, r + m);
    } else {
      Euclid(a, m, q, r);
    }
    Negated(q, m);
    if r > 0 {
      Times(-q, -1, m);
      Euclid(-a, m, -q - 1, m - r);
    } else {
      Euclid(-a, m, -q, -r);
    }
  }

  lemma RemBounds(a: int, m: int, q: int, r: int)
    requires m > 0 && q == TruncDiv(a, m) && r == a - q * m
    ensures -m < r < m
  {
    var x := if a >= 0 then a else -a;
    assert x == x / m * m + x % m;
    Negated(x / m, m);
  }

  lemma Times(q: int, k: int, m: int)
    ensures (q + k) * m == q * m + k * m
  {
  }

  lemma Negated(q: int, m: int)
    ensures (-q) * m == -(q * m)
  {
  }

  lemma TruncRemIs(a: int, b: int)
    requires b > 0
    ensures a >= 0 ==> TruncRem(a, b) == a % b
    ensures a < 0 ==> TruncRem(a, b) == -((-a) % b)
    ensures a < 0 ==> a % b == if (-a) % b == 0 then 0 else b - (-a) % b
  {
    if a < 0 {
      var q, r := (-a) / b, (-a) % b;
      assert -a == q * b + r;
      if r != 0 { Euclid(a, b, -q - 1, b - r); } else { Euclid(a, b, -q, 0); }
    }
  }

  lemma Euclid(a: int, b: int, q: int, r: int)
    requires b > 0 && a == q * b + r && 0 <= r < b
    ensures a / b == q && a % b == r
  {
    var q1, r1 := a / b, a % b;
    assert a == q1 * b + r1;
    assert q1 * b - q * b == (q1 - q) * b && q * b - q1 * b == (q - q1) * b;
    if q1 > q { Multiple(q1 - q, b); }
    if q1 < q { Multiple(q - q1, b); }
  }

  lemma Multiple(x: int, b: int)
    requires x >= 1 && b > 0
    ensures x * b >= b
  {
  }

  // ---------- what the source computes ----------

  /** The era of a year: division that truncates is made to round down. */
  function EraOf(yy: int): (era: int)
    ensures era == yy / 400
  {
    TruncDiv(if yy >= 0 then yy else yy - 399, 400)
  }

  function EraOfDay(z: int): (era: int)
    ensures era == z / 146097
  {
    TruncDiv(if z >= 0 then z else z - 146096, 146097)
  }

  /** ns_dt_days_from_civil */
  function DaysFromCivil(y: int, m: int, d: int): int {
    var yy := y - if m <= 2 then 1 else 0;
    var era := EraOf(yy);
    var yoe := yy - era * 400;
    var doy := (153 * (m + if m > 2 then -3 else 9) + 2) / 5 + d - 1;
    var doe := yoe * 365 + yoe / 4 - yoe / 100 + doy;
    era * 146097 + doe - 719468
  }

  /** ns_dt_civil_from_days: its first half finds the year that starts on 1 March and the day in it, ... */
  function CivilFromDays(days: int): Date {
    var yd := YearAndDay(days + 719468);
    MonthDate(yd.0, yd.1)
  }

  function YearAndDay(z: int): (int, int) {
    var era := EraOfDay(z);
    var doe := z - era * 146097;
    var yoe := YearOfDay(doe);
    (yoe + era * 400, doe - (365 * yoe + yoe / 4 - yoe / 100))
  }

  function YearOfDay(doe: int): int {
    (doe - doe / 1460 + doe / 36524 - doe / 146096) / 365
  }

  /** ... and its second half the month and the day of the month. */
  function MonthDate(yy: int, doy: int): Date {
    var mp := (5 * doy + 2) / 153;
    var dd := doy - (153 * mp + 2) / 5 + 1;
    var mm := mp + if mp < 10 then 3 else -9;
    Date(yy + if mm <= 2 then 1 else 0, mm, dd)
  }

  predicate IsLeap(y: int) {
    y % 4 == 0 && (y % 100 != 0 || y % 400 == 0)
  }

  /** ns_dt_days_in_month.  Whether a remainder is zero does not depend on how the division rounds. */
  function DaysInMonth(y: int, m: int): int {
    if m < 1 || m > 12 then 0
    else if m == 2 then (if IsLeap(y) then 29 else 28)
    else if m == 4 || m == 6 || m == 9 || m == 11 then 30
    else 31
  }

  predicate IsDate(t: Date) {
    1 <= t.m <= 12 && 1 <= t.d <= DaysInMonth(t.y, t.m)
  }

  /** ns_dt_iso_weeks_in_year */
  function WeeksInYear(y: int): int {
    var p := TruncRem(y + TruncDiv(y, 4) - TruncDiv(y, 100) + TruncDiv(y, 400), 7);
    var py := y - 1;
    var p1 := TruncRem(py + TruncDiv(py, 4) - TruncDiv(py, 100) + TruncDiv(py, 400), 7);
    if p == 4 || p1 == 3 then 53 else 52
  }

  /** ns_dt_iso_week1_monday */
  function Week1Monday(y: int): int {
    var jan4 := DaysFromCivil(y, 1, 4);
    jan4 - FloorMod(jan4 + 3, 7)
  }

  // ---------- eras of 400 years, starting on 1 March ----------

  /** The days from 1 March of year 0 to 1 March of year `n`, counted year by year. */
  function YearStart(n: int): int
    decreases if n >= 0 then n else -n
  {
    if n == 0 then 0
    else if n > 0 then YearStart(n - 1) + YearDays(n - 1)
    else YearStart(n + 1) - YearDays(n)
  }

  /** The length of the year that starts on 1 March of year `n`, with the February of the next one. */
  function YearDays(n: int): int {
    if IsLeap(n + 1) then 366 else 365
  }

  lemma {:induction false} YearFormula(n: int)
    ensures YearStart(n) == 365 * n + n / 4 - n / 100 + n / 400
    decreases if n >= 0 then n else -n
  {
    if n > 0 {
      YearFormula(n - 1);
      LeapStep(n);
    } else if n < 0 {
      YearFormula(n + 1);
      LeapStep(n + 1);
    }
  }

  lemma LeapStep(n: int)
    ensures (n / 4 - n / 100 + n / 400) - ((n - 1) / 4 - (n - 1) / 100 + (n - 1) / 400) == if IsLeap(n) then 1 else 0
  {
    assert n / 4 - (n - 1) / 4 == if n % 4 == 0 then 1 else 0;
    assert n / 100 - (n - 1) / 100 == if n % 100 == 0 then 1 else 0;
    assert n / 400 - (n - 1) / 400 == if n % 400 == 0 then 1 else 0;
    Centuries(n);
  }

  lemma Centuries(y: int)
    ensures y % 400 == 0 ==> y % 100 == 0
    ensures y % 100 == 0 ==> y % 4 == 0
  {
    if y % 400 == 0 { Euclid(y, 100, 4 * (y / 400), 0); }
    if y % 100 == 0 { Euclid(y, 4, 25 * (y / 100), 0); }
  }

  /** The first day of month `k` after February. */
  function MonthStart(k: int): int {
    (153 * k + 2) / 5
  }

  /** The formula for the year of a day of an era is right. */
  lemma YearOfEra(doe: int)
    requires 0 <= doe < 146097
    ensures var n := YearOfDay(doe); 0 <= n < 400 && YearStart(n) <= doe < YearStart(n + 1)
  {
    var c := if doe == 146096 then 3 else doe / 36524;
    var r := doe - 36524 * c;
    var q, s := r / 1461, r % 1461;
    InCentury(c, q, s);
    YearOfDayIs(c, q, s);
  }

  lemma YearOfDayIs(c: int, q: int, s: int)
    requires 0 <= c <= 3 && 0 <= q <= 24 && 0 <= s < 1461 && (q == 24 && c < 3 ==> s < 1460)
    ensures YearOfDay(36524 * c + 1461 * q + s) == 100 * c + 4 * q + if s == 1460 then 3 else s / 365
  {
    var doe := 36524 * c + 1461 * q + s;
    var e := (24 * c + q + s) / 1460;
    assert 0 <= e <= 1;
    assert doe / 1460 == 25 * c + q + e;
    assert doe / 36524 - doe / 146096 == c;
    assert (s - e) / 365 == if s == 1460 then 3 else s / 365;
  }

  /** Day `s` of the `q`-th four years of the `c`-th century. */
  lemma InCentury(c: int, q: int, s: int)
    requires 0 <= c <= 3 && 0 <= q <= 24 && 0 <= s < 1461 && (q == 24 && c < 3 ==> s < 1460)
    ensures var n := 100 * c + 4 * q + (if s == 1460 then 3 else s / 365);
            YearStart(n) <= 36524 * c + 1461 * q + s < YearStart(n + 1)
  {
    var t := if s == 1460 then 3 else s / 365;
    var n := 100 * c + 4 * q + t;
    assert n / 4 == 25 * c + q && n / 100 == c && n / 400 == 0;
    assert (n + 1) / 4 == 25 * c + q + if t == 3 then 1 else 0;
    assert (n + 1) / 100 == c + if t == 3 && q == 24 then 1 else 0;
    assert (n + 1) / 400 == if t == 3 && q == 24 && c == 3 then 1 else 0;
    YearFormula(n);
    YearFormula(n + 1);
  }

  lemma {:induction false} YearStartMonotone(a: int, b: int)
    requires a < b
    ensures YearStart(a) + 365 <= YearStart(b)
    decreases b - a
  {
    YearLength(b - 1);
    if a < b - 1 { YearStartMonotone(a, b - 1); }
  }

  lemma YearLength(n: int)
    ensures YearStart(n + 1) - YearStart(n) == YearDays(n)
  {
  }

  lemma MonthOfYear(doy: int)
    requires 0 <= doy < 366
    ensures var k := (5 * doy + 2) / 153; 0 <= k < 12 && MonthStart(k) <= doy && (k < 11 ==> doy < MonthStart(k + 1))
  {
  }

  // ---------- closed forms ----------

  /** A date in the year that starts on 1 March. */
  function MarchYear(t: Date): int {
    t.y - if t.m <= 2 then 1 else 0
  }

  function MonthAfterFebruary(m: int): int {
    m + if m > 2 then -3 else 9
  }

  function DayOfYear(t: Date): int {
    MonthStart(MonthAfterFebruary(t.m)) + t.d - 1
  }

  lemma EraOfYear(e: int, n: int)
    requires 0 <= n < 400
    ensures YearStart(n + e * 400) == 146097 * e + YearStart(n) && YearStart(n) == 365 * n + n / 4 - n / 100
  {
    var y := n + e * 400;
    YearFormula(y);
    YearFormula(n);
    assert y / 4 == 100 * e + n / 4;
    assert y / 100 == 4 * e + n / 100;
    assert y / 400 == e;
  }

  /** The day number of a date is the days of the years before it, counted one by one, and the days since
      1 March: the eras are only a way to compute it. */
  lemma ClosedForm(t: Date)
    ensures DaysFromCivil(t.y, t.m, t.d) == YearStart(MarchYear(t)) + DayOfYear(t) - 719468
  {
    var yy := MarchYear(t);
    EraOfYear(yy / 400, yy % 400);
  }

  lemma DateInYear(t: Date)
    requires IsDate(t)
    ensures 0 <= DayOfYear(t) < YearStart(MarchYear(t) + 1) - YearStart(MarchYear(t))
  {
    YearLength(MarchYear(t));
  }

  predicate Earlier(s: Date, t: Date) {
    s.y < t.y || (s.y == t.y && (s.m < t.m || (s.m == t.m && s.d < t.d)))
  }

  lemma LaterInYear(s: Date, t: Date)
    requires IsDate(s) && IsDate(t) && Earlier(s, t)
    ensures MarchYear(s) <= MarchYear(t)
    ensures MarchYear(s) == MarchYear(t) ==> DayOfYear(s) < DayOfYear(t)
  {
  }

  /** Day numbers follow the order of dates. */
  lemma LaterDateLaterDay(s: Date, t: Date)
    requires IsDate(s) && IsDate(t) && Earlier(s, t)
    ensures DaysFromCivil(s.y, s.m, s.d) < DaysFromCivil(t.y, t.m, t.d)
  {
    ClosedForm(s);
    ClosedForm(t);
    DateInYear(s);
    DateInYear(t);
    LaterInYear(s, t);
    if MarchYear(s) < MarchYear(t) { YearStartGrows(MarchYear(s) + 1, MarchYear(t)); }
  }

  lemma YearStartGrows(a: int, b: int)
    requires a <= b
    ensures YearStart(a) <= YearStart(b)
  {
    if a < b { YearStartMonotone(a, b); }
  }

  /** The year and the day in it that civil_from_days finds. */
  lemma CivilYear(z: int)
    ensures var era := z / 146097; var n := YearOfDay(z - era * 146097);
            && YearStart(n + era * 400) == era * 146097 + 365 * n + n / 4 - n / 100
            && YearStart(n + era * 400) <= z < YearStart(n + era * 400 + 1)
  {
    var era := z / 146097;
    var n := YearOfDay(z - era * 146097);
    YearOfEra(z - era * 146097);
    EraOfYear(era, n);
    YearEnd(era, n);
  }

  lemma CivilSteps(z: int)
    ensures var yd := YearAndDay(z); YearStart(yd.0) + yd.1 == z < YearStart(yd.0 + 1) && yd.1 >= 0
  {
    CivilYear(z);
  }

  lemma CivilParts(days: int)
    ensures var t, z := CivilFromDays(days), days + 719468;
            && 1 <= t.m <= 12 && t.d >= 1
            && YearStart(MarchYear(t)) <= z < YearStart(MarchYear(t) + 1)
            && DayOfYear(t) == z - YearStart(MarchYear(t))
            && (t.m != 2 ==> t.d <= MonthStart(MonthAfterFebruary(t.m) + 1) - MonthStart(MonthAfterFebruary(t.m)))
  {
    CivilSteps(days + 719468);
    var yd := YearAndDay(days + 719468);
    YearLength(yd.0);
    MonthParts(yd.0, yd.1, MonthDate(yd.0, yd.1));
  }

  lemma MonthParts(y: int, doy: int, t: Date)
    requires 0 <= doy < 366 && t == MonthDate(y, doy)
    ensures 1 <= t.m <= 12 && t.d >= 1 && MarchYear(t) == y && DayOfYear(t) == doy
    ensures t.m != 2 ==> t.d <= MonthStart(MonthAfterFebruary(t.m) + 1) - MonthStart(MonthAfterFebruary(t.m))
  {
    MonthOfYear(doy);
  }

  lemma YearEnd(era: int, n: int)
    requires 0 <= n < 400
    ensures YearStart(n + era * 400 + 1) == 146097 * era + YearStart(n + 1)
  {
    if n < 399 {
      EraOfYear(era, n + 1);
    } else {
      EraOfYear(era + 1, 0);
      YearFormula(400);
    }
  }

  lemma MonthFits(t: Date)
    requires 1 <= t.m <= 12 && t.d >= 1
    requires t.m != 2 ==> t.d <= MonthStart(MonthAfterFebruary(t.m) + 1) - MonthStart(MonthAfterFebruary(t.m))
    requires DayOfYear(t) < YearStart(MarchYear(t) + 1) - YearStart(MarchYear(t))
    ensures IsDate(t)
  {
    YearLength(MarchYear(t));
  }

  // ---------- the two conversions are inverse ----------

  /** Every day number is the number of exactly the date that civil_from_days gives. */
  lemma DayRoundTrip(days: int)
    ensures var t := CivilFromDays(days); IsDate(t) && DaysFromCivil(t.y, t.m, t.d) == days
  {
    var t := CivilFromDays(days);
    CivilParts(days);
    MonthFits(t);
    ClosedForm(t);
  }

  lemma DateRoundTrip(t: Date)
    requires IsDate(t)
    ensures CivilFromDays(DaysFromCivil(t.y, t.m, t.d)) == t
  {
    var days := DaysFromCivil(t.y, t.m, t.d);
    var s := CivilFromDays(days);
    DayRoundTrip(days);
    if Earlier(s, t) { LaterDateLaterDay(s, t); }
    if Earlier(t, s) { LaterDateLaterDay(t, s); }
  }

  /** The next day of the calendar. */
  function Next(t: Date): Date {
    if t.d < DaysInMonth(t.y, t.m) then t.(d := t.d + 1)
    else if t.m < 12 then Date(t.y, t.m + 1, 1)
    else Date(t.y + 1, 1, 1)
  }

  lemma NextInYear(t: Date)
    requires IsDate(t)
    ensures IsDate(Next(t))
    ensures !(t.m == 2 && t.d == DaysInMonth(t.y, 2)) ==>
            MarchYear(Next(t)) == MarchYear(t) && DayOfYear(Next(t)) == DayOfYear(t) + 1
    ensures t.m == 2 && t.d == DaysInMonth(t.y, 2) ==>
            MarchYear(Next(t)) == MarchYear(t) + 1 && DayOfYear(Next(t)) == 0 &&
            DayOfYear(t) + 1 == YearDays(MarchYear(t))
  {
  }

  lemma NextNumber(t: Date)
    requires IsDate(t)
    ensures DaysFromCivil(Next(t).y, Next(t).m, Next(t).d) == DaysFromCivil(t.y, t.m, t.d) + 1
  {
    NextInYear(t);
    ClosedForm(t);
    ClosedForm(Next(t));
    YearLength(MarchYear(t));
  }

  lemma NextDayIsOneMore(t: Date)
    requires IsDate(t)
    ensures IsDate(Next(t))
    ensures DaysFromCivil(Next(t).y, Next(t).m, Next(t).d) == DaysFromCivil(t.y, t.m, t.d) + 1
    ensures CivilFromDays(DaysFromCivil(t.y, t.m, t.d) + 1) == Next(t)
  {
    NextInYear(t);
    NextNumber(t);
    DateRoundTrip(Next(t));
  }

  // ---------- weeks ----------

  /** Day 0 is a Thursday; Monday counts as 0. */
  function Weekday(days: int): int {
    (days + 3) % 7
  }

  /** The leap days up to and including year `n`, plus one day for every year. */
  function Shift(n: int): int {
    n + n / 4 - n / 100 + n / 400
  }

  lemma January4(y: int)
    ensures DaysFromCivil(y, 1, 4) == 364 * (y - 1) + Shift(y - 1) - 719159
  {
    ClosedForm(Date(y, 1, 4));
    YearFormula(y - 1);
  }

  /** Week 1 starts on a Monday and contains 4 January. */
  lemma Week1(y: int)
    ensures Weekday(Week1Monday(y)) == 0
    ensures Week1Monday(y) <= DaysFromCivil(y, 1, 4) < Week1Monday(y) + 7
  {
    BackToMonday(DaysFromCivil(y, 1, 4));
  }

  lemma BackToMonday(j: int)
    ensures Weekday(j - FloorMod(j + 3, 7)) == 0
  {
  }

  lemma WeeksByShift(y: int)
    requires y >= 1
    ensures WeeksInYear(y) == if Shift(y) % 7 == 4 || Shift(y - 1) % 7 == 3 then 53 else 52
  {
    assert Shift(y) >= 0 && Shift(y - 1) >= 0;
    TruncRemIs(Shift(y), 7);
    TruncRemIs(Shift(y - 1), 7);
  }

  lemma ShiftGrows(y: int)
    ensures Shift(y) - Shift(y - 1) == if IsLeap(y) then 2 else 1
  {
    LeapStep(y);
  }

  /** From one week 1 to the next it is exactly as many weeks as the year has. */
  lemma WeeksFillTheYear(y: int)
    requires y >= 1
    ensures Week1Monday(y + 1) - Week1Monday(y) == 7 * WeeksInYear(y)
  {
    January4(y);
    January4(y + 1);
    WeeksByShift(y);
    ShiftGrows(y);
    Offset(y, Shift(y - 1));
    Offset(y + 1, Shift(y));
    WholeWeeks(Shift(y - 1), Shift(y));
    Difference(DaysFromCivil(y, 1, 4), DaysFromCivil(y + 1, 1, 4), Week1Monday(y), Week1Monday(y + 1),
               (Shift(y - 1) % 7 + 3) % 7, (Shift(y) % 7 + 3) % 7);
  }

  lemma Difference(j: int, k: int, a: int, b: int, x: int, y: int)
    requires j - a == x && k - b == y
    ensures b - a == k - j - (y - x)
  {
  }

  lemma WholeWeeks(a: int, b: int)
    requires b - a == 1 || b - a == 2
    ensures 364 + (b - a) - ((b % 7 + 3) % 7 - (a % 7 + 3) % 7) == 7 * if b % 7 == 4 || a % 7 == 3 then 53 else 52
  {
  }

  lemma Offset(y: int, a: int)
    requires a == Shift(y - 1)
    ensures DaysFromCivil(y, 1, 4) - Week1Monday(y) == (a % 7 + 3) % 7
  {
    January4(y);
    Mod7(DaysFromCivil(y, 1, 4) + 3, a, 52 * (y - 1) - 102737);
  }

  lemma Mod7(x: int, a: int, q: int)
    requires x == 7 * q + a + 3
    ensures x % 7 == (a % 7 + 3) % 7
  {
  }

  /** The Monday of a week, the value of a week input in days. */
  function WeekStart(y: int, w: int): int {
    Week1Monday(y) + (w - 1) * 7
  }

  predicate IsWeek(y: int, w: int) {
    y >= 1 && 1 <= w <= WeeksInYear(y)
  }

  lemma {:induction false} YearsApart(y: int, z: int)
    requires 1 <= y < z
    ensures Week1Monday(z) >= Week1Monday(y) + 7 * WeeksInYear(y)
    decreases z
  {
    WeeksFillTheYear(z - 1);
    if y < z - 1 { YearsApart(y, z - 1); }
  }

  /** Later weeks start later, by at least a week: weeks of different years never overlap. */
  lemma LaterWeekStartsLater(y: int, w: int, z: int, v: int)
    requires IsWeek(y, w) && IsWeek(z, v) && (y < z || (y == z && w < v))
    ensures WeekStart(y, w) + 7 <= WeekStart(z, v)
  {
    if y < z { YearsApart(y, z); }
  }

  /** And no Monday is left out. */
  lemma {:induction false} EveryMondayIsAWeek(days: int) returns (y: int, w: int)
    requires Weekday(days) == 0 && days >= Week1Monday(1)
    ensures IsWeek(y, w) && WeekStart(y, w) == days
  {
    y := 1;
    while days >= Week1Monday(y + 1)
      invariant y >= 1 && days >= Week1Monday(y)
      decreases days - Week1Monday(y)
    {
      WeeksFillTheYear(y);
      y := y + 1;
    }
    Week1(y);
    WeeksFillTheYear(y);
    w := MondaysApart(Week1Monday(y), days, WeeksInYear(y));
  }

  lemma MondaysApart(first: int, days: int, weeks: int) returns (w: int)
    requires Weekday(first) == 0 && Weekday(days) == 0 && first <= days < first + 7 * weeks
    ensures 1 <= w <= weeks && first + (w - 1) * 7 == days
  {
    w := (days - first) / 7 + 1;
  }
}
