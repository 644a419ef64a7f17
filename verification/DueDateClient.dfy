/** The browser's due-date helpers: JavaScript date arithmetic over the canonical text form. */
module DueDateClient {
  import opened Wrappers
  import opened Text
  import opened Calendar
  import opened Sql
  import opened TaskFilter

  datatype DueClass = Overdue | Today | Future | NoDue

  /** dateKey: the year is printed without padding, month and day with two digits. */
  function DateKey(d: Date): string {
    Decimal(d.year) + "-" + Pad(d.month, 2) + "-" + Pad(d.day, 2)
  }

  /** dueClassOf: the colour class of a task's due date on the given local day. */
  function DueClassOf(due: Option<string>, now: Date): DueClass {
    if due.None? || due.value == "" || !DateShape(due.value) then NoDue
    else if LexLess(due.value, DateKey(now)) then Overdue
    else if due.value == DateKey(now) then Today
    else Future
  }

  /** The first day of the month that fields read from text denote in JavaScript: years 0 to 99
      mean 1900 to 1999, and months outside 1 to 12 carry over. */
  function FirstOfMonth(f: Date): (first: Date)
    ensures Exists(first) && first.day == 1 && first.year >= 99
    ensures f.year < 100 ==> first.year >= 1899
    ensures f.year >= 100 && 1 <= f.month <= 12 ==> first == Date(f.year, f.month, 1)
  {
    var year := if f.year < 100 then 1900 + f.year else f.year;
    var months := 12 * year + f.month - 1;
    assert 1 <= f.month <= 12 ==> months / 12 == year && months % 12 == f.month - 1;
    Date(months / 12, months % 12 + 1, 1)
  }

  /** new Date(y, m - 1, d): days outside the month carry over too, day 0 is the day before. */
  function JsDate(f: Date): Date {
    var first := FirstOfMonth(f);
    DayNumberPositive(first);
    FromDayNumber(DayNumber(first) + f.day - 1)
  }

  lemma DayNumberPositive(d: Date)
    requires Exists(d) && d.year >= 1
    ensures DayNumber(d) >= 1
  {
    YearsMonotone(0, d.year);
  }

  /** toCanonicalDate on a string: the ten-character prefix if JavaScript maps it to itself. */
  function ToCanonicalDate(s: string): Option<string> {
    if |s| < 10 || !DateShape(s[..10]) then None
    else if DateKey(JsDate(ReadDate(s[..10]))) == s[..10] then Some(s[..10])
    else None
  }

  lemma KeyIsFormat(d: Date)
    ensures 1000 <= d.year < 10000 ==> DateKey(d) == Format(d)
    ensures d.year < 1000 ==> |DateKey(d)| < 10
  {
    Pow10Small();
    DecimalLength(d.year, 3);
    if 1000 <= d.year < 10000 {
      DecimalIsPad(d.year, 4);
    }
  }

  lemma JsDateOfExisting(f: Date)
    requires Exists(f) && f.year >= 100
    ensures JsDate(f) == f
  {
    var first := Date(f.year, f.month, 1);
    DayNumberPositive(first);
    assert DayNumber(first) + f.day - 1 == DayNumber(f);
    FromYearInverse(0, DayNumber(f));
    DayNumberOrder(FromDayNumber(DayNumber(f)), f);
  }

  lemma JsDateExists(f: Date)
    ensures Exists(JsDate(f))
    ensures f.year < 100 ==> JsDate(f).year >= 1800
  {
    var first := FirstOfMonth(f);
    DayNumberPositive(first);
    FromYearInverse(0, DayNumber(first) + f.day - 1);
    YearAtLeast(first, first.year - 1);
    YearsMonotone(first.year - 1, first.year);
    YearAtLeast(JsDate(f), first.year - 1);
  }

  /** The ten characters the browser reads are a date it accepts. */
  predicate KeepsPrefix(s: string) {
    |s| >= 10 && ValidTaskDate(s[..10]) && ReadDate(s[..10]).year >= 1000
  }

  /** The browser reads a date from a text exactly when its first ten characters are one that the
      server's validator accepts and the year has four significant digits; the tail is dropped. */
  lemma CanonicalAgreesFromYear1000(s: string)
    ensures ToCanonicalDate(s) == if KeepsPrefix(s) then Some(s[..10]) else None
    ensures ToCanonicalDate(s) == Some(s) <==> ValidTaskDate(s) && ReadDate(s).year >= 1000
  {
    if |s| >= 10 {
      PrefixKept(s[..10]);
      assert |s| == 10 ==> s[..10] == s;
    }
  }

  lemma PrefixKept(s: string)
    requires |s| == 10
    ensures DateShape(s) && DateKey(JsDate(ReadDate(s))) == s <==> ValidTaskDate(s) && ReadDate(s).year >= 1000
  {
    ValidTaskDateExact(s);
    if DateShape(s) {
      ReadThenFormat(s);
      var f := ReadDate(s);
      JsDateExists(f);
      var d := JsDate(f);
      if Exists(f) && f.year >= 1000 {
        JsDateOfExisting(f);
        KeyIsFormat(f);
      } else if DateKey(d) == s {
        KeyOfTenChars(d);
        FormatParts(d);
      }
    }
  }

  lemma KeyOfTenChars(d: Date)
    requires Exists(d) && |DateKey(d)| == 10
    ensures 1000 <= d.year < 10000 && DateKey(d) == Format(d)
  {
    Pow10Small();
    DecimalLength(d.year, 4);
    KeyIsFormat(d);
  }

  /** The browser's colour of a stored date is its chronological relation to the local day. */
  lemma ClassIsDayOrder(d: Date, now: Date)
    requires Exists(d) && d.year < 10000 && Exists(now) && 1000 <= now.year < 10000
    ensures DueClassOf(Some(Format(d)), now) ==
      if DayNumber(d) < DayNumber(now) then Overdue
      else if DayNumber(d) == DayNumber(now) then Today
      else Future
  {
    FormatParts(d);
    KeyIsFormat(now);
    TextOrderIsDayOrder(d, now);
    DayNumberOrder(d, now);
  }

  /** The unpadded key makes the comparison right exactly from year 1000 on: only then does a
      task due today carry today's class. */
  lemma TodayIsTodayFromYear1000(now: Date)
    requires Exists(now) && now.year < 10000
    ensures DueClassOf(Some(Format(now)), now) == Today <==> now.year >= 1000
  {
    FormatParts(now);
    KeyIsFormat(now);
    if now.year >= 1000 {
      ClassIsDayOrder(now, now);
    }
  }

  /** The colour of a row's due date agrees with the server's due filters on the same day. */
  predicate ColourAgrees(row: TaskRow, now: Date)
    requires Exists(now)
  {
    var colour := DueClassOf(row.dueDate, now);
    (colour == Overdue <==> DueHolds("overdue", now, row)) && (colour == Today <==> DueHolds("today", now, row)) &&
    (colour == NoDue <==> DueHolds("none", now, row))
  }

  lemma ColourFromYear1000(row: TaskRow, now: Date)
    requires MayHoldDay(row.dueDate) && Exists(now) && 1000 <= now.year < 10000
    ensures ColourAgrees(row, now)
  {
    DueWindowsInDays(row, now);
    if row.dueDate.Some? {
      var d := ReadDate(row.dueDate.value);
      ReadThenFormat(row.dueDate.value);
      ClassIsDayOrder(d, now);
    }
  }

  ghost predicate EveryColourAgrees(row: TaskRow, now: Date)
    requires Exists(now)
  {
    forall due :: MayHoldDay(due) ==> ColourAgrees(row.(dueDate := due), now)
  }

  /** Whatever canonical date a row has, or none, the browser colours it as overdue, due today or
      without date exactly when the server's filters say so: if and only if the current year has
      four significant digits. */
  lemma ColourMeansFilterFromYear1000(row: TaskRow, now: Date)
    requires Exists(now) && now.year < 10000
    ensures EveryColourAgrees(row, now) <==> now.year >= 1000
  {
    if now.year >= 1000 {
      forall due | MayHoldDay(due)
        ensures ColourAgrees(row.(dueDate := due), now)
      {
        ColourFromYear1000(row.(dueDate := due), now);
      }
    } else {
      var due := Some(Format(now));
      FormatParts(now);
      TodayIsTodayFromYear1000(now);
      assert MayHoldDay(due) && DueHolds("today", now, row.(dueDate := due));
    }
  }
}
