/** Civil dates, the canonical text form YYYY-MM-DD, and day arithmetic. */
module Calendar {
  import opened Text

  datatype Date = Date(year: nat, month: nat, day: nat)

  predicate Leap(y: nat) { y % 4 == 0 && (y % 100 != 0 || y % 400 == 0) }

  function DaysIn(y: nat, m: nat): nat {
    if m == 2 then (if Leap(y) then 29 else 28)
    else if m == 4 || m == 6 || m == 9 || m == 11 then 30
    else 31
  }

  predicate Exists(d: Date) { 1 <= d.month <= 12 && 1 <= d.day <= DaysIn(d.year, d.month) }

  /** The following day. */
  function Next(d: Date): Date {
    if d.day < DaysIn(d.year, d.month) then d.(day := d.day + 1)
    else if d.month < 12 then Date(d.year, d.month + 1, 1)
    else Date(d.year + 1, 1, 1)
  }

  function Steps(d: Date, n: nat): Date {
    if n == 0 then d else Next(Steps(d, n - 1))
  }

  predicate DateLess(a: Date, b: Date) {
    a.year < b.year ||
    (a.year == b.year && (a.month < b.month || (a.month == b.month && a.day < b.day)))
  }

  /** The days there are. */
  lemma RealDays(y: nat, m: nat, d: nat)
    ensures Exists(Date(y, m, d)) <==>
            && 1 <= m <= 12 && 1 <= d
            && (m in {1, 3, 5, 7, 8, 10, 12} ==> d <= 31)
            && (m in {4, 6, 9, 11} ==> d <= 30)
            && (m == 2 ==> d <= 28 || (d == 29 && y % 4 == 0 && (y % 100 != 0 || y % 400 == 0)))
  {
  }

  // ----- day numbers -----

  function YearLen(y: nat): nat { if Leap(y) then 366 else 365 }

  function DaysBeforeYear(y: nat): nat {
    if y == 0 then 0 else DaysBeforeYear(y - 1) + YearLen(y - 1)
  }

  function DaysBeforeMonth(y: nat, m: nat): nat {
    if m <= 1 then 0 else DaysBeforeMonth(y, m - 1) + DaysIn(y, m - 1)
  }

  /** Days since 0000-01-01. */
  function DayNumber(d: Date): nat
    requires Exists(d)
  {
    DaysBeforeYear(d.year) + DaysBeforeMonth(d.year, d.month) + d.day - 1
  }

  function FromMonth(y: nat, m: nat, n: nat): Date
    requires 1 <= m <= 12
    decreases 12 - m
  {
    if m == 12 || n < DaysIn(y, m) then Date(y, m, n + 1) else FromMonth(y, m + 1, n - DaysIn(y, m))
  }

  function FromYear(y: nat, n: nat): Date
    decreases n
  {
    if n < YearLen(y) then FromMonth(y, 1, n) else FromYear(y + 1, n - YearLen(y))
  }

  /** The date n days after 0000-01-01. */
  function FromDayNumber(n: nat): Date { FromYear(0, n) }

  /** time.AddDate(0, 0, n). */
  function AddDays(d: Date, n: nat): Date
    requires Exists(d)
  {
    FromDayNumber(DayNumber(d) + n)
  }

  function One(b: bool): nat { if b then 1 else 0 }

  lemma NextFourth(n: nat)
    ensures (n + 4) / 4 == (n + 3) / 4 + One(n % 4 == 0)
  {
  }

  lemma NextHundredth(n: nat)
    ensures (n + 100) / 100 == (n + 99) / 100 + One(n % 100 == 0)
  {
  }

  lemma NextFourHundredth(n: nat)
    ensures (n + 400) / 400 == (n + 399) / 400 + One(n % 400 == 0)
  {
  }

  lemma Multiples(n: nat)
    ensures n % 100 == 0 ==> n % 4 == 0
    ensures n % 400 == 0 ==> n % 100 == 0
  {
    assert n % 100 == 0 ==> n == 4 * (25 * (n / 100));
    assert n % 400 == 0 ==> n == 100 * (4 * (n / 400));
  }

  /** The days before a year, in closed form. */
  lemma {:induction false} DaysBeforeYearIs(y: nat)
    ensures DaysBeforeYear(y) == 365 * y + (y + 3) / 4 - (y + 99) / 100 + (y + 399) / 400
  {
    if y > 0 {
      var n := y - 1;
      DaysBeforeYearIs(n);
      NextFourth(n);
      NextHundredth(n);
      NextFourHundredth(n);
      LengthIs(n);
    }
  }

  lemma LengthIs(n: nat)
    ensures YearLen(n) == 365 + One(n % 4 == 0) - One(n % 100 == 0) + One(n % 400 == 0)
  {
    Multiples(n);
  }

  lemma FourthsRepeat(y: nat)
    ensures (y + 400) % 4 == y % 4
  {
  }

  lemma HundredthsRepeat(y: nat)
    ensures (y + 400) % 100 == y % 100
  {
  }

  lemma FourHundredthsRepeat(y: nat)
    ensures (y + 400) % 400 == y % 400
  {
  }

  lemma LeapRepeats(y: nat)
    ensures Leap(y + 400) <==> Leap(y)
  {
    FourthsRepeat(y);
    HundredthsRepeat(y);
    FourHundredthsRepeat(y);
  }

  lemma DivisionsRepeat(y: nat)
    ensures (y + 403) / 4 == (y + 3) / 4 + 100
    ensures (y + 499) / 100 == (y + 99) / 100 + 4
    ensures (y + 799) / 400 == (y + 399) / 400 + 1
  {
  }

  /** The calendar repeats after 400 years, which are 146097 days. */
  lemma CycleIs146097Days(d: Date)
    requires Exists(d)
    ensures Exists(d.(year := d.year + 400)) && DayNumber(d.(year := d.year + 400)) == DayNumber(d) + 146097
  {
    LeapRepeats(d.year);
    SameMonths(d.year, d.month);
    YearsRepeat(d.year);
  }

  lemma YearsRepeat(y: nat)
    ensures DaysBeforeYear(y + 400) == DaysBeforeYear(y) + 146097
  {
    DaysBeforeYearIs(y);
    DaysBeforeYearIs(y + 400);
    DivisionsRepeat(y);
  }

  lemma {:induction false} SameMonths(y: nat, m: nat)
    ensures DaysBeforeMonth(y + 400, m) == DaysBeforeMonth(y, m)
  {
    LeapRepeats(y);
    if m > 1 {
      SameMonths(y, m - 1);
    }
  }

  lemma YearIsMonths(y: nat)
    ensures DaysBeforeMonth(y, 12) + 31 == YearLen(y)
  {
    assert DaysBeforeMonth(y, 2) == 31 + DaysBeforeMonth(y, 1);
    assert DaysBeforeMonth(y, 3) == DaysBeforeMonth(y, 2) + DaysIn(y, 2);
    assert DaysBeforeMonth(y, 5) == DaysBeforeMonth(y, 3) + 61;
    assert DaysBeforeMonth(y, 7) == DaysBeforeMonth(y, 5) + 61;
    assert DaysBeforeMonth(y, 9) == DaysBeforeMonth(y, 7) + 62;
    assert DaysBeforeMonth(y, 11) == DaysBeforeMonth(y, 9) + 61;
  }

  lemma {:induction false} FromMonthInverse(y: nat, m: nat, n: nat)
    requires 1 <= m <= 12 && DaysBeforeMonth(y, m) + n < YearLen(y)
    ensures Exists(FromMonth(y, m, n)) && FromMonth(y, m, n).year == y
    ensures DayNumber(FromMonth(y, m, n)) == DaysBeforeYear(y) + DaysBeforeMonth(y, m) + n
    decreases 12 - m
  {
    YearIsMonths(y);
    if m < 12 && n >= DaysIn(y, m) {
      FromMonthInverse(y, m + 1, n - DaysIn(y, m));
    }
  }

  lemma {:induction false} FromYearInverse(y: nat, n: nat)
    ensures Exists(FromYear(y, n))
    ensures DayNumber(FromYear(y, n)) == DaysBeforeYear(y) + n
    decreases n
  {
    if n < YearLen(y) {
      FromMonthInverse(y, 1, n);
    } else {
      FromYearInverse(y + 1, n - YearLen(y));
    }
  }

  lemma {:induction false} MonthsMonotone(y: nat, m: nat, m2: nat)
    requires 1 <= m < m2 <= 13
    ensures DaysBeforeMonth(y, m) + DaysIn(y, m) <= DaysBeforeMonth(y, m2)
    decreases m2
  {
    if m + 1 < m2 {
      MonthsMonotone(y, m, m2 - 1);
    }
  }

  lemma {:induction false} YearsMonotone(y: nat, y2: nat)
    requires y < y2
    ensures DaysBeforeYear(y) + YearLen(y) <= DaysBeforeYear(y2)
    decreases y2
  {
    if y + 1 < y2 {
      YearsMonotone(y, y2 - 1);
    }
  }

  lemma DayOfYearBound(d: Date)
    requires Exists(d)
    ensures DaysBeforeMonth(d.year, d.month) + d.day <= YearLen(d.year)
  {
    YearIsMonths(d.year);
    if d.month < 12 {
      MonthsMonotone(d.year, d.month, 12);
    }
  }

  lemma YearAtLeast(d: Date, y: nat)
    requires Exists(d)
    ensures DayNumber(d) >= DaysBeforeYear(y) <==> d.year >= y
  {
    DayOfYearBound(d);
    if d.year < y {
      YearsMonotone(d.year, y);
    } else if d.year > y {
      YearsMonotone(y, d.year);
    }
  }

  lemma EarlierIsSmaller(a: Date, b: Date)
    requires Exists(a) && Exists(b) && DateLess(a, b)
    ensures DayNumber(a) < DayNumber(b)
  {
    DayOfYearBound(a);
    if a.year < b.year {
      YearsMonotone(a.year, b.year);
    } else if a.month < b.month {
      MonthsMonotone(a.year, a.month, b.month);
    }
  }

  /** Day numbers order dates chronologically and identify them. */
  lemma DayNumberOrder(a: Date, b: Date)
    requires Exists(a) && Exists(b)
    ensures DateLess(a, b) <==> DayNumber(a) < DayNumber(b)
    ensures a == b <==> DayNumber(a) == DayNumber(b)
  {
    if DateLess(a, b) {
      EarlierIsSmaller(a, b);
    } else if DateLess(b, a) {
      EarlierIsSmaller(b, a);
    }
  }

  lemma NextDayNumber(d: Date)
    requires Exists(d)
    ensures Exists(Next(d)) && DayNumber(Next(d)) == DayNumber(d) + 1
  {
    if d.day >= DaysIn(d.year, d.month) && d.month == 12 {
      YearIsMonths(d.year);
    }
  }

  lemma {:induction false} StepsDayNumber(d: Date, n: nat)
    requires Exists(d)
    ensures Exists(Steps(d, n)) && DayNumber(Steps(d, n)) == DayNumber(d) + n
  {
    if n > 0 {
      StepsDayNumber(d, n - 1);
      NextDayNumber(Steps(d, n - 1));
    }
  }

  /** Adding n days is n single steps, across month ends and leap years. */
  lemma AddDaysIsSteps(d: Date, n: nat)
    requires Exists(d)
    ensures Exists(AddDays(d, n)) && AddDays(d, n) == Steps(d, n)
    ensures DayNumber(AddDays(d, n)) == DayNumber(d) + n
  {
    FromYearInverse(0, DayNumber(d) + n);
    StepsDayNumber(d, n);
    DayNumberOrder(AddDays(d, n), Steps(d, n));
  }

  /** A step shorter than a year ends in the same year or the next. */
  lemma YearAfter(d: Date, k: nat)
    requires Exists(d) && k <= 365
    ensures d.year <= AddDays(d, k).year <= d.year + 1
  {
    AddDaysIsSteps(d, k);
    var e := AddDays(d, k);
    DayOfYearBound(d);
    assert DayNumber(d) < DaysBeforeYear(d.year + 1);
    assert DaysBeforeYear(d.year + 2) == DaysBeforeYear(d.year + 1) + YearLen(d.year + 1);
    YearAtLeast(e, d.year + 2);
    YearAtLeast(e, d.year);
  }

  // ----- the canonical text form -----

  /** Format("2006-01-02"): at least four year digits. */
  function Format(d: Date): string {
    (if d.year < 10000 then Pad(d.year, 4) else Decimal(d.year)) + "-" + Pad(d.month, 2) + "-" + Pad(d.day, 2)
  }

  /** The shape dddd-dd-dd. */
  predicate DateShape(s: string) {
    |s| == 10 && s[4] == '-' && s[7] == '-' &&
    AllDigits(s[..4]) && AllDigits(s[5..7]) && AllDigits(s[8..10])
  }

  function ReadDate(s: string): Date
    requires DateShape(s)
  {
    Date(Number(s[..4]), Number(s[5..7]), Number(s[8..10]))
  }

  /** time.Parse("2006-01-02", s) accepts s: two-digit month and day, and the day exists. */
  predicate ParsesAsDate(s: string) { DateShape(s) && Exists(ReadDate(s)) }

  /** A canonical stored date: the text of a day that exists, years 0000 to 9999. */
  ghost predicate Canonical(s: string) {
    exists d: Date :: Exists(d) && d.year < 10000 && s == Format(d)
  }

  lemma Pow10Small()
    ensures Pow10(2) == 100 && Pow10(3) == 1000 && Pow10(4) == 10000
  {
    assert Pow10(1) == 10 * Pow10(0);
    assert Pow10(3) == 10 * Pow10(2);
  }

  lemma FormatParts(d: Date)
    requires Exists(d) && d.year < 10000
    ensures DateShape(Format(d)) && ReadDate(Format(d)) == d
  {
    Pow10Small();
    NumberPad(d.year, 4);
    NumberPad(d.month, 2);
    NumberPad(d.day, 2);
    DateSlices(Pad(d.year, 4), Pad(d.month, 2), Pad(d.day, 2));
  }

  lemma DateSlices(y: string, m: string, d: string)
    requires |y| == 4 && |m| == |d| == 2
    ensures var s := y + "-" + m + "-" + d;
      |s| == 10 && s[4] == '-' && s[7] == '-' && s[..4] == y && s[5..7] == m && s[8..10] == d
  {
  }

  lemma ReadThenFormat(s: string)
    requires DateShape(s)
    ensures ReadDate(s).year < 10000 && ReadDate(s).month < 100 && ReadDate(s).day < 100
    ensures Format(ReadDate(s)) == s
  {
    PadNumber(s[..4]);
    PadNumber(s[5..7]);
    PadNumber(s[8..10]);
    Pow10Small();
    DateParts(s);
  }

  lemma DateParts(s: string)
    requires |s| == 10 && s[4] == '-' && s[7] == '-'
    ensures s == s[..4] + "-" + s[5..7] + "-" + s[8..10]
  {
  }

  /** validTaskDate: the text parses and prints back unchanged. */
  predicate ValidTaskDate(s: string) {
    ParsesAsDate(s) && Format(ReadDate(s)) == s
  }

  /** The validator accepts exactly the canonical dates. */
  lemma ValidTaskDateExact(s: string)
    ensures ValidTaskDate(s) <==> Canonical(s)
    ensures ParsesAsDate(s) <==> Canonical(s)
  {
    if DateShape(s) {
      ReadThenFormat(s);
    }
    if Canonical(s) {
      var d: Date :| Exists(d) && d.year < 10000 && s == Format(d);
      FormatParts(d);
    }
  }

  /** Comparing canonical texts is comparing days. */
  lemma TextOrderIsDayOrder(a: Date, b: Date)
    requires Exists(a) && Exists(b) && a.year < 10000 && b.year < 10000
    ensures LexLess(Format(a), Format(b)) <==> DayNumber(a) < DayNumber(b)
    ensures Format(a) == Format(b) <==> a == b
  {
    FormatParts(a);
    FormatParts(b);
    DayNumberOrder(a, b);
    LexNumbers(Pad(a.year, 4), Pad(b.year, 4), a.year, b.year);
    LexNumbers(Pad(a.month, 2), Pad(b.month, 2), a.month, b.month);
    LexNumbers(Pad(a.day, 2), Pad(b.day, 2), a.day, b.day);
    LexFields(Pad(a.year, 4), Pad(a.month, 2), Pad(a.day, 2), Pad(b.year, 4), Pad(b.month, 2), Pad(b.day, 2));
  }

  lemma LexDash(a: string, b: string, x: string, y: string)
    requires |a| == |b|
    ensures LexLess(a + "-" + x, b + "-" + y) <==> LexLess(a, b) || (a == b && LexLess(x, y))
  {
    assert a + "-" + x == a + ("-" + x) && b + "-" + y == b + ("-" + y);
    LexAppend(a, b, "-" + x, "-" + y);
    LexAppend("-", "-", x, y);
  }

  lemma LexTwo(y: string, m: string, y2: string, m2: string)
    requires |y| == |y2| && |m| == |m2|
    ensures LexLess(y + "-" + m, y2 + "-" + m2) <==> LexLess(y, y2) || (y == y2 && LexLess(m, m2))
    ensures y + "-" + m == y2 + "-" + m2 <==> y == y2 && m == m2
  {
    LexDash(y, y2, m, m2);
    if y + "-" + m == y2 + "-" + m2 {
      SameFields(y, m, y2, m2);
    }
  }

  lemma SameFields(y: string, m: string, y2: string, m2: string)
    requires |y| == |y2| && y + "-" + m == y2 + "-" + m2
    ensures y == y2 && m == m2
  {
    assert y == (y + "-" + m)[..|y|] && y2 == (y2 + "-" + m2)[..|y|];
    assert m == (y + "-" + m)[|y| + 1..] && m2 == (y2 + "-" + m2)[|y| + 1..];
  }

  lemma LexThree(p: string, d: string, p2: string, d2: string, ym: bool, same: bool)
    requires |p| == |p2| && (LexLess(p, p2) <==> ym) && (p == p2 <==> same)
    ensures LexLess(p + "-" + d, p2 + "-" + d2) <==> ym || (same && LexLess(d, d2))
  {
    LexDash(p, p2, d, d2);
  }

  lemma LexFields(y: string, m: string, d: string, y2: string, m2: string, d2: string)
    requires |y| == |y2| && |m| == |m2| && |d| == |d2|
    ensures LexLess(y + "-" + m + "-" + d, y2 + "-" + m2 + "-" + d2) <==>
            LexLess(y, y2) || (y == y2 && (LexLess(m, m2) || (m == m2 && LexLess(d, d2))))
  {
    LexTwo(y, m, y2, m2);
    LexThree(y + "-" + m, d, y2 + "-" + m2, d2,
      LexLess(y, y2) || (y == y2 && LexLess(m, m2)), y == y2 && m == m2);
  }

  lemma LexNumbers(s: string, t: string, m: nat, n: nat)
    requires |s| == |t| <= 4 && s == Pad(m, |s|) && t == Pad(n, |t|)
    requires m < Pow10(|s|) && n < Pow10(|t|)
    ensures LexLess(s, t) <==> m < n
    ensures s == t <==> m == n
  {
    LexDigits(s, t);
    NumberPad(m, |s|);
    NumberPad(n, |t|);
  }

  // ----- past year 9999 -----

  /** The first four digits of a year of four digits or more. */
  function LeadingYear(y: nat): (l: nat)
    ensures l < 10000 && (y >= 1000 ==> l >= 1000)
  {
    if y < 10000 then y else LeadingYear(y / 10)
  }

  lemma {:induction false} LongYear(y: nat)
    requires y >= 10000
    ensures |Decimal(y)| >= 5 && Decimal(y)[..4] == Pad(LeadingYear(y), 4)
  {
    if y / 10 >= 10000 {
      LongYear(y / 10);
      assert Decimal(y)[..4] == Decimal(y / 10)[..4];
    } else {
      Pow10Small();
      DecimalIsPad(y / 10, 4);
    }
  }

  /** Against a longer printed year a canonical date is compared by the first four digits, and
      where these agree its dash comes before the fifth digit. */
  lemma PrintedOrder(d: Date, a: Date)
    requires Exists(d) && d.year < 10000 <= a.year
    ensures LexLess(Format(d), Format(a)) <==> d.year <= LeadingYear(a.year)
    ensures LexLess(Format(a), Format(d)) <==> LeadingYear(a.year) < d.year
    ensures Format(a) != Format(d)
  {
    LongYear(a.year);
    Pow10Small();
    var y, l := Decimal(a.year), Pad(LeadingYear(a.year), 4);
    var rest := "-" + Pad(d.month, 2) + "-" + Pad(d.day, 2);
    var more := y[4..] + "-" + Pad(a.month, 2) + "-" + Pad(a.day, 2);
    assert Format(d) == Pad(d.year, 4) + rest && Format(a) == l + more;
    assert '-' < more[0] && rest[0] == '-';
    LexNumbers(Pad(d.year, 4), l, d.year, LeadingYear(a.year));
    LexAppend(Pad(d.year, 4), l, rest, more);
    LexAppend(l, Pad(d.year, 4), more, rest);
    LexNumbers(l, Pad(d.year, 4), LeadingYear(a.year), d.year);
    LexTotal(Format(a), Format(d));
  }

  /** Printed, the date stands in the right order to every canonical date. */
  ghost predicate OrdersRightly(a: Date)
    requires Exists(a)
  {
    forall d: Date :: Exists(d) && d.year < 10000 ==>
      (LexLess(Format(d), Format(a)) <==> DayNumber(d) < DayNumber(a)) &&
      (LexLess(Format(a), Format(d)) <==> DayNumber(a) < DayNumber(d))
  }

  /** The text order is right exactly for years up to 9999 and the later years that begin with
      9999: of all others the year 9999 is sorted after them. */
  lemma OrdersRightlyExactly(a: Date)
    requires Exists(a)
    ensures OrdersRightly(a) <==> LeadingYear(a.year) == 9999 || a.year < 10000
  {
    forall d: Date | Exists(d) && d.year < 10000
      ensures a.year < 10000 ==> (LexLess(Format(d), Format(a)) <==> DayNumber(d) < DayNumber(a))
      ensures a.year < 10000 ==> (LexLess(Format(a), Format(d)) <==> DayNumber(a) < DayNumber(d))
      ensures a.year >= 10000 ==> DayNumber(d) < DayNumber(a)
      ensures a.year >= 10000 ==> (LexLess(Format(d), Format(a)) <==> d.year <= LeadingYear(a.year))
      ensures a.year >= 10000 ==> (LexLess(Format(a), Format(d)) <==> LeadingYear(a.year) < d.year)
    {
      DayNumberOrder(d, a);
      if a.year < 10000 {
        TextOrderIsDayOrder(d, a);
        TextOrderIsDayOrder(a, d);
      } else {
        PrintedOrder(d, a);
      }
    }
    var last := Date(9999, 12, 31);
    assert Exists(last);
    if a.year >= 10000 && LeadingYear(a.year) < 9999 {
      assert LexLess(Format(a), Format(last)) && DayNumber(last) < DayNumber(a);
    }
  }
}
