/** Calendar dates as the ledger compares them, and the pure helpers of
    lib/utils/dates.ts. A date is a (year, month, day) triple ordered
    lexicographically; "now" is a day plus the milliseconds since its midnight. */
module Dates {
  import opened Wrappers
  import opened Text

  datatype Date = Date(year: int, month: int, day: int)

  /** Strict chronological order on dates. */
  predicate Before(a: Date, b: Date)
  {
    a.year < b.year
    || (a.year == b.year && (a.month < b.month || (a.month == b.month && a.day < b.day)))
  }

  lemma BeforeIsStrictTotalOrder(a: Date, b: Date, c: Date)
    ensures !Before(a, a)
    ensures Before(a, b) && Before(b, c) ==> Before(a, c)
    ensures a != b ==> Before(a, b) || Before(b, a)
    ensures !(Before(a, b) && Before(b, a))
  {
  }

  /** A point in time: a day and the milliseconds elapsed since its midnight. */
  datatype Moment = Moment(date: Date, millis: nat)

  /** `new Date(due) < now`, where a stored due date stands for midnight of its day. */
  predicate DuePassed(due: Date, now: Moment)
  {
    Before(due, now.date) || (due == now.date && now.millis > 0)
  }

  /** The position of a month on a single line of months: consecutive months differ by one. */
  function MonthIndex(year: int, month: int): int
  {
    year * 12 + month - 1
  }

  /** `new Date(year, month, 1)` for a 1-based `month`: the first day of the following
      month. The zero-based month argument rolls over into later or earlier years. */
  function FirstOfNextMonth(year: int, month: int): (d: Date)
    ensures d.day == 1 && 1 <= d.month <= 12
    ensures MonthIndex(d.year, d.month) == MonthIndex(year, month) + 1
    ensures 1 <= month <= 12 ==> Before(Date(year, month, 31), d)
  {
    Date(year + month / 12, month % 12 + 1, 1)
  }

  const MonthNames: seq<string> := [
    "January", "February", "March", "April", "May", "June",
    "July", "August", "September", "October", "November", "December"
  ]

  /** `getMonthName` of lib/utils/dates.ts. */
  function MonthName(n: int): string
  {
    if 1 <= n <= 12 then MonthNames[n - 1] else "Invalid Month"
  }

  /** The month number a name stands for, if any. */
  function MonthNumber(name: string): Option<int>
  {
    if name in MonthNames then
      var k :| 0 <= k < 12 && MonthNames[k] == name; Some(k + 1)
    else None
  }

  lemma MonthNameRoundTrip(n: int)
    ensures MonthNumber(MonthName(n)) == if 1 <= n <= 12 then Some(n) else None
  {
    if 1 <= n <= 12 {
      var name := MonthName(n);
      assert MonthNames[n - 1] == name;
      var k :| 0 <= k < 12 && MonthNames[k] == name;
      assert k == n - 1;
    } else {
      assert "Invalid Month" !in MonthNames;
    }
  }

  datatype MonthOption = MonthOption(value: int, display: string)

  /** `getMonthOptions`: one entry per month, January first. */
  function MonthOptions(): (r: seq<MonthOption>)
    ensures |r| == 12
    ensures forall i :: 0 <= i < 12 ==> r[i].value == i + 1 && r[i].display == MonthNames[i]
    ensures forall i, j :: 0 <= i < j < 12 ==> r[i].value < r[j].value
  {
    seq(12, i requires 0 <= i < 12 => MonthOption(i + 1, MonthName(i + 1)))
  }

  datatype YearOption = YearOption(value: int, display: string)

  /** `startYear || fallback`: an absent or zero year falls back to the default. */
  function YearOrDefault(year: Option<int>, fallback: int): int
  {
    if year.Some? && year.value != 0 then year.value else fallback
  }

  /** `getYearOptions`: every year from the start to the end, one entry each.
      `Array.from` with a negative length gives an empty list. */
  function YearOptions(startYear: Option<int>, endYear: Option<int>, currentYear: int): (r: seq<YearOption>)
    ensures var start := YearOrDefault(startYear, currentYear - 5);
            var end := YearOrDefault(endYear, currentYear + 1);
            |r| == (if end < start then 0 else end - start + 1)
            && (forall i :: 0 <= i < |r| ==> r[i].value == start + i && r[i].display == IntToString(start + i))
  {
    var start := YearOrDefault(startYear, currentYear - 5);
    var end := YearOrDefault(endYear, currentYear + 1);
    var n := if end < start then 0 else end - start + 1;
    seq(n, i requires 0 <= i < n => YearOption(start + i, IntToString(start + i)))
  }

  /** `${n} days ago`. */
  function DaysAgo(n: nat): (r: string)
    ensures |r| > 9 && IsDigit(r[0])
  {
    NatToString(n) + " days ago"
  }

  /** `In ${n} days`. */
  function InDays(n: nat): (r: string)
    ensures |r| > 8 && r[0] == 'I' && r[2] == ' '
  {
    "In " + NatToString(n) + " days"
  }

  /** `getRelativeTime`, given whether the date parsed and the whole days from it to now
      (positive when the date is in the past). */
  function RelativeTime(valid: bool, daysDiff: int): (r: string)
    ensures !valid <==> r == "Invalid Date"
    ensures valid ==> (r == "Today" <==> daysDiff == 0)
    ensures valid ==> (r == "Yesterday" <==> daysDiff == 1)
    ensures valid ==> (r == "Tomorrow" <==> daysDiff == -1)
    ensures valid && daysDiff > 1 ==> r == NatToString(daysDiff) + " days ago"
    ensures valid && daysDiff < -1 ==> r == "In " + NatToString(-daysDiff) + " days"
  {
    if !valid then "Invalid Date"
    else if daysDiff == 0 then "Today"
    else if daysDiff == 1 then "Yesterday"
    else if daysDiff == -1 then "Tomorrow"
    else if daysDiff > 0 then DaysAgo(daysDiff)
    else InDays(-daysDiff)
  }

  /** `isOverdue`: the date parsed and lies at least one whole day in the past. */
  function IsOverdue(valid: bool, daysDiff: int): bool
  {
    valid && daysDiff > 0
  }

  lemma NatToStringInjective(a: nat, b: nat)
    requires NatToString(a) == NatToString(b)
    ensures a == b
  {
    DecimalRoundTrip(a);
    DecimalRoundTrip(b);
  }

  /** Different day counts never read the same. */
  lemma RelativeTimeInjective(d1: int, d2: int)
    requires RelativeTime(true, d1) == RelativeTime(true, d2)
    ensures d1 == d2
  {
    var r := RelativeTime(true, d1);
    if d1 > 1 && d2 > 1 {
      var s1, s2 := NatToString(d1), NatToString(d2);
      assert r == s1 + " days ago" && r == s2 + " days ago";
      assert s1 == r[..|r| - 9] == s2;
      NatToStringInjective(d1, d2);
    } else if d1 < -1 && d2 < -1 {
      var s1, s2 := NatToString(-d1), NatToString(-d2);
      assert r == "In " + s1 + " days" && r == "In " + s2 + " days";
      assert s1 == r[3..|r| - 5] == s2;
      NatToStringInjective(-d1, -d2);
    }
  }

  /** A valid date is overdue exactly when its relative label reads as past. */
  lemma OverdueReadsAsPast(daysDiff: int)
    ensures var r := RelativeTime(true, daysDiff);
            IsOverdue(true, daysDiff) <==> r == "Yesterday" || IsDigit(r[0])
  {
    var r := RelativeTime(true, daysDiff);
  }
}
