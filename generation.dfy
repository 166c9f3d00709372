/** The month arithmetic and debt rows of lib/utils/debt-automation.ts that
    `generateMonthlyDebts` and `generateHistoricalDebts` rely on: which months
    a member owes dues for, the row created for a month, and what "create the
    row unless one exists" does to a debt table. */
module Generation {
  import opened Wrappers
  import opened Text
  import opened Dates
  import opened Records

  /** `MONTHLY_DUES_AMOUNT`: the dues a new member is charged unless given others. */
  const MonthlyDuesAmount: int := 200

  /** `getMonthName` of debt-automation.ts: `months[n - 1] || 'Unknown'`. */
  function DuesMonthName(n: int): (r: string)
    ensures 1 <= n <= 12 ==> r == MonthName(n)
    ensures !(1 <= n <= 12) <==> r == "Unknown"
  {
    if 1 <= n <= 12 then MonthNames[n - 1] else "Unknown"
  }

  /** The two month-name helpers agree on every real month and differ only in the fallback. */
  lemma DuesMonthNameRoundTrip(n: int)
    ensures MonthNumber(DuesMonthName(n)) == if 1 <= n <= 12 then Some(n) else None
  {
    MonthNameRoundTrip(n);
    if !(1 <= n <= 12) {
      assert "Unknown" !in MonthNames;
    }
  }

  // ---- Months between two dates ----

  function Max(a: int, b: int): int
  {
    if a >= b then a else b
  }

  /** `getMonthsDifference`: whole calendar months from `start` to `end`, never negative. */
  function MonthsDifference(start: Date, end: Date): (n: nat)
    ensures n == Max(0, MonthIndex(end.year, end.month) - MonthIndex(start.year, start.month))
  {
    Max(0, (end.year - start.year) * 12 + (end.month - start.month))
  }

  /** `calculateMemberDebt`'s result. */
  datatype DebtSummary = DebtSummary(
    monthsSinceJoin: nat, monthsSinceLastPayment: nat, totalDebt: int,
    monthlyDues: int, isOverdue: bool)

  /** `calculateMemberDebt(member, lastPaymentDate)` at time `now`; with no last
      payment, months are counted from the join date. */
  function CalculateMemberDebt(member: Member, lastPayment: Option<Date>, now: Date): (s: DebtSummary)
    ensures s.monthsSinceJoin == MonthsDifference(member.joinDate, now)
    ensures lastPayment.None? ==> s.monthsSinceLastPayment == s.monthsSinceJoin
    ensures lastPayment.Some? ==> s.monthsSinceLastPayment == MonthsDifference(lastPayment.value, now)
    ensures s.totalDebt == s.monthsSinceLastPayment * member.monthlyDues
    ensures s.monthlyDues == member.monthlyDues
    ensures s.isOverdue <==> s.monthsSinceLastPayment > 1
  {
    var lastPaid := if lastPayment.Some? then lastPayment.value else member.joinDate;
    var sinceLast := MonthsDifference(lastPaid, now);
    DebtSummary(MonthsDifference(member.joinDate, now), sinceLast, sinceLast * member.monthlyDues,
                member.monthlyDues, sinceLast > 1)
  }

  /** A later last payment never makes a member owe for more months. */
  lemma LaterPaymentOwesNoMore(member: Member, p1: Date, p2: Date, now: Date)
    requires MonthIndex(p1.year, p1.month) <= MonthIndex(p2.year, p2.month)
    requires member.monthlyDues >= 0
    ensures CalculateMemberDebt(member, Some(p2), now).monthsSinceLastPayment
         <= CalculateMemberDebt(member, Some(p1), now).monthsSinceLastPayment
    ensures CalculateMemberDebt(member, Some(p2), now).totalDebt
         <= CalculateMemberDebt(member, Some(p1), now).totalDebt
  {
    var a := CalculateMemberDebt(member, Some(p1), now).monthsSinceLastPayment;
    var b := CalculateMemberDebt(member, Some(p2), now).monthsSinceLastPayment;
    assert b <= a;
    assert b * member.monthlyDues <= a * member.monthlyDues by {
      MulMonotone(b, a, member.monthlyDues);
    }
  }

  /** A member who paid in the current month, or whose last payment date lies ahead,
      owes nothing and is not overdue; one whose last payment was two or more months
      back is overdue. */
  lemma PaymentRecencyDecidesOverdue(member: Member, paid: Date, now: Date)
    ensures MonthIndex(paid.year, paid.month) >= MonthIndex(now.year, now.month) ==>
              CalculateMemberDebt(member, Some(paid), now).totalDebt == 0
              && !CalculateMemberDebt(member, Some(paid), now).isOverdue
    ensures CalculateMemberDebt(member, Some(paid), now).isOverdue <==>
              MonthIndex(now.year, now.month) - MonthIndex(paid.year, paid.month) >= 2
  {
  }

  lemma MulMonotone(x: nat, y: nat, k: int)
    requires x <= y && k >= 0
    ensures x * k <= y * k
  {
    assert y * k == x * k + (y - x) * k;
  }

  // ---- The months `generateHistoricalDebts` walks ----

  datatype YearMonth = YearMonth(year: int, month: int)

  function Index(ym: YearMonth): int
  {
    MonthIndex(ym.year, ym.month)
  }

  predicate ValidMonth(ym: YearMonth)
  {
    1 <= ym.month <= 12
  }

  /** The year and 1-based month of a date, as `getFullYear()` and `getMonth() + 1` give them. */
  function MonthOf(d: Date): YearMonth
  {
    YearMonth(d.year, d.month)
  }

  /** The inner loop: months `first` to `last` of one year. */
  function MonthRun(year: int, first: int, last: int): (r: seq<YearMonth>)
    decreases last - first + 1
    ensures |r| == (if last < first then 0 else last - first + 1)
    ensures forall i :: 0 <= i < |r| ==> r[i] == YearMonth(year, first + i)
  {
    if last < first then [] else [YearMonth(year, first)] + MonthRun(year, first + 1, last)
  }

  /** The outer loop from `year` on: each year runs from the start month (in the
      start year) or January, to the end month (in the end year) or December. */
  function HistoryFrom(year: int, start: YearMonth, end: YearMonth): seq<YearMonth>
    decreases end.year - year
  {
    if year > end.year then []
    else
      MonthRun(year, if year == start.year then start.month else 1, if year == end.year then end.month else 12)
      + HistoryFrom(year + 1, start, end)
  }

  /** Every (year, month) the nested loops of `generateHistoricalDebts` visit, in order. */
  function HistoryMonths(start: YearMonth, end: YearMonth): seq<YearMonth>
  {
    HistoryFrom(start.year, start, end)
  }

  /** A year's run of months moves from the part of the walk ahead to the part done. */
  lemma WalkYear(walked: seq<YearMonth>, run: seq<YearMonth>, later: seq<YearMonth>)
    ensures walked + (run + later) == (walked + run) + later
  {
  }

  /** The inner loop's months so far, one month longer. */
  lemma {:induction false} MonthRunSnoc(year: int, first: int, last: int)
    requires first <= last
    ensures MonthRun(year, first, last) == MonthRun(year, first, last - 1) + [YearMonth(year, last)]
    decreases last - first
  {
    if first < last {
      MonthRunSnoc(year, first + 1, last);
    }
  }

  lemma {:induction false} HistoryFromFacts(year: int, start: YearMonth, end: YearMonth)
    requires ValidMonth(start) && ValidMonth(end) && year >= start.year
    ensures var first := if year == start.year then start else YearMonth(year, 1);
            var r := HistoryFrom(year, start, end);
            |r| == Max(0, Index(end) - Index(first) + 1)
            && forall i :: 0 <= i < |r| ==> Index(r[i]) == Index(first) + i && ValidMonth(r[i])
    decreases end.year - year
  {
    if year <= end.year {
      var first := if year == start.year then start else YearMonth(year, 1);
      var run := MonthRun(year, first.month, if year == end.year then end.month else 12);
      var rest := HistoryFrom(year + 1, start, end);
      HistoryFromFacts(year + 1, start, end);
      var r := run + rest;
      forall i | 0 <= i < |r| ensures Index(r[i]) == Index(first) + i && ValidMonth(r[i]) {
        if i >= |run| {
          assert r[i] == rest[i - |run|];
        }
      }
    }
  }

  /** The walk visits every month from the join month to the current month once,
      oldest first: `MonthsDifference + 1` months when the join month is not later. */
  lemma HistoryCoversEveryMonth(start: YearMonth, end: YearMonth)
    requires ValidMonth(start) && ValidMonth(end)
    ensures var r := HistoryMonths(start, end);
            |r| == (if Index(end) < Index(start) then 0
                    else MonthsDifference(Date(start.year, start.month, 1), Date(end.year, end.month, 1)) + 1)
            && (forall i :: 0 <= i < |r| ==> Index(r[i]) == Index(start) + i && ValidMonth(r[i]))
            && (forall ym :: ym in r <==> ValidMonth(ym) && Index(start) <= Index(ym) <= Index(end))
  {
    var r := HistoryMonths(start, end);
    HistoryFromFacts(start.year, start, end);
    forall ym ensures ym in r <==> ValidMonth(ym) && Index(start) <= Index(ym) <= Index(end) {
      if ValidMonth(ym) && Index(start) <= Index(ym) <= Index(end) {
        var i := Index(ym) - Index(start);
        SameIndexSameMonth(r[i], ym);
      }
    }
  }

  lemma SameIndexSameMonth(a: YearMonth, b: YearMonth)
    requires ValidMonth(a) && ValidMonth(b) && Index(a) == Index(b)
    ensures a == b
  {
    assert 12 * (a.year - b.year) == b.month - a.month;
  }

  // ---- The row created for a month ----

  /** `Monthly dues for <month name> <year>`. */
  function MonthlyDescription(ym: YearMonth): string
  {
    "Monthly dues for " + DuesMonthName(ym.month) + " " + IntToString(ym.year)
  }

  /** The pending monthly-dues debt for `ym`, due on the first of the following month. */
  function MonthlyDebt(id: Id, memberId: Id, dues: int, ym: YearMonth): Debt
  {
    Debt(id, memberId, dues, MonthlyDues, Some(MonthlyDescription(ym)),
         FirstOfNextMonth(ym.year, ym.month), Pending, ym.month, ym.year)
  }

  /** `d` is the member's monthly-dues debt for that month, whatever its status. */
  predicate IsMonthlySlot(d: Debt, m: Id, ym: YearMonth)
  {
    d.memberId == m && d.month == ym.month && d.year == ym.year && d.debtType == MonthlyDues
  }

  /** The `existingDebts.find(...)` check succeeds. */
  predicate HasMonthlyDebt(ds: seq<Debt>, m: Id, ym: YearMonth)
  {
    exists d :: d in ds && IsMonthlySlot(d, m, ym)
  }

  /** No member has two monthly-dues debts for the same month. */
  predicate UniqueMonthlySlots(ds: seq<Debt>)
  {
    forall i, j :: 0 <= i < j < |ds| && ds[i].debtType == MonthlyDues ==>
      !IsMonthlySlot(ds[j], ds[i].memberId, YearMonth(ds[i].year, ds[i].month))
  }

  /** One step of either generator: create the member's row for `ym` unless one exists. */
  function AddIfMissing(ds: seq<Debt>, m: Id, dues: int, ym: YearMonth): seq<Debt>
  {
    if HasMonthlyDebt(ds, m, ym) then ds else ds + [MonthlyDebt(|ds|, m, dues, ym)]
  }

  /** `AddIfMissing` for each month of `months`, first to last. */
  function Backfill(ds: seq<Debt>, m: Id, dues: int, months: seq<YearMonth>): seq<Debt>
  {
    if months == [] then ds
    else AddIfMissing(Backfill(ds, m, dues, months[..|months| - 1]), m, dues, months[|months| - 1])
  }

  /** One more month walked is one more `AddIfMissing`. */
  lemma BackfillSnoc(ds: seq<Debt>, m: Id, dues: int, months: seq<YearMonth>, ym: YearMonth)
    ensures Backfill(ds, m, dues, months + [ym]) == AddIfMissing(Backfill(ds, m, dues, months), m, dues, ym)
  {
    assert (months + [ym])[..|months|] == months;
  }

  /** Walking `a` then `b` is walking `a + b`. */
  lemma {:induction false} BackfillAppend(ds: seq<Debt>, m: Id, dues: int, a: seq<YearMonth>, b: seq<YearMonth>)
    ensures Backfill(ds, m, dues, a + b) == Backfill(Backfill(ds, m, dues, a), m, dues, b)
    decreases |b|
  {
    if b == [] {
      assert a + b == a;
    } else {
      var init := b[..|b| - 1];
      BackfillAppend(ds, m, dues, a, init);
      assert (a + b)[..|a + b| - 1] == a + init;
    }
  }

  lemma AddIfMissingFacts(ds: seq<Debt>, m: Id, dues: int, ym: YearMonth)
    ensures var r := AddIfMissing(ds, m, dues, ym);
            ds <= r && HasMonthlyDebt(r, m, ym)
            && (HasMonthlyDebt(ds, m, ym) <==> r == ds)
            && (UniqueMonthlySlots(ds) ==> UniqueMonthlySlots(r))
            && (PositionalIds(ds) ==> PositionalIds(r))
            && (forall other, x :: other != m || x != ym ==> (HasMonthlyDebt(r, other, x) <==> HasMonthlyDebt(ds, other, x)))
            && (forall other :: other != m ==> OutstandingSum(r, other) == OutstandingSum(ds, other))
            && OutstandingSum(r, m) == OutstandingSum(ds, m) + (if HasMonthlyDebt(ds, m, ym) then 0 else dues)
  {
    var r := AddIfMissing(ds, m, dues, ym);
    if !HasMonthlyDebt(ds, m, ym) {
      var d := MonthlyDebt(|ds|, m, dues, ym);
      assert r[|ds|] == d && d in r;
      forall other ensures OutstandingSum(r, other) == OutstandingSum(ds, other) + (if other == m then dues else 0) {
        OutstandingSumSnoc(ds, d, other);
      }
      forall other, x | other != m || x != ym ensures HasMonthlyDebt(r, other, x) <==> HasMonthlyDebt(ds, other, x) {
        if HasMonthlyDebt(r, other, x) {
          var e :| e in r && IsMonthlySlot(e, other, x);
          assert e in ds;
        }
      }
      if UniqueMonthlySlots(ds) {
        forall i, j | 0 <= i < j < |r| && r[i].debtType == MonthlyDues
          ensures !IsMonthlySlot(r[j], r[i].memberId, YearMonth(r[i].year, r[i].month))
        {
          if j == |ds| && IsMonthlySlot(r[j], r[i].memberId, YearMonth(r[i].year, r[i].month)) {
            assert ds[i] in ds && IsMonthlySlot(ds[i], m, ym);
            assert false;
          }
        }
      }
    }
  }

  lemma {:induction false} BackfillFacts(ds: seq<Debt>, m: Id, dues: int, months: seq<YearMonth>)
    ensures var r := Backfill(ds, m, dues, months);
            ds <= r
            && (forall ym :: ym in months ==> HasMonthlyDebt(r, m, ym))
            && (forall ym :: HasMonthlyDebt(ds, m, ym) ==> HasMonthlyDebt(r, m, ym))
            && (UniqueMonthlySlots(ds) ==> UniqueMonthlySlots(r))
            && (PositionalIds(ds) ==> PositionalIds(r))
            && (forall other, x :: other != m ==> (HasMonthlyDebt(r, other, x) <==> HasMonthlyDebt(ds, other, x)))
            && (forall other :: other != m ==> OutstandingSum(r, other) == OutstandingSum(ds, other))
  {
    if months != [] {
      var init := months[..|months| - 1];
      var last := months[|months| - 1];
      var mid := Backfill(ds, m, dues, init);
      BackfillFacts(ds, m, dues, init);
      AddIfMissingFacts(mid, m, dues, last);
      var r := AddIfMissing(mid, m, dues, last);
      forall ym | HasMonthlyDebt(mid, m, ym) ensures HasMonthlyDebt(r, m, ym) {
        var e :| e in mid && IsMonthlySlot(e, m, ym);
        assert e in r;
      }
      forall ym | ym in months ensures HasMonthlyDebt(r, m, ym) {
        if ym != last {
          assert ym in init;
        }
      }
    }
  }

  /** Months that already have a monthly-dues row get no second one: a table that
      has them all is left as it is. */
  lemma {:induction false} BackfillKeepsCompleteTable(ds: seq<Debt>, m: Id, dues: int, months: seq<YearMonth>)
    requires forall ym :: ym in months ==> HasMonthlyDebt(ds, m, ym)
    ensures Backfill(ds, m, dues, months) == ds
  {
    if months != [] {
      var init := months[..|months| - 1];
      BackfillKeepsCompleteTable(ds, m, dues, init);
      assert months[|months| - 1] in months;
    }
  }

  /** Running the generator twice creates nothing the second time. */
  lemma BackfillIdempotent(ds: seq<Debt>, m: Id, dues: int, months: seq<YearMonth>)
    ensures Backfill(Backfill(ds, m, dues, months), m, dues, months) == Backfill(ds, m, dues, months)
  {
    BackfillFacts(ds, m, dues, months);
    BackfillKeepsCompleteTable(Backfill(ds, m, dues, months), m, dues, months);
  }

  /** Every row a backfill adds is a pending monthly-dues debt of the member for
      one of the months walked that had no row before. */
  lemma {:induction false} BackfillAddsOnlyMissingMonths(ds: seq<Debt>, m: Id, dues: int, months: seq<YearMonth>)
    ensures var r := Backfill(ds, m, dues, months);
            forall k :: |ds| <= k < |r| ==>
              exists ym :: ym in months && !HasMonthlyDebt(ds, m, ym) && r[k] == MonthlyDebt(k, m, dues, ym)
  {
    if months != [] {
      var init := months[..|months| - 1];
      var last := months[|months| - 1];
      var mid := Backfill(ds, m, dues, init);
      BackfillAddsOnlyMissingMonths(ds, m, dues, init);
      BackfillFacts(ds, m, dues, init);
      var r := AddIfMissing(mid, m, dues, last);
      forall k | |ds| <= k < |r|
        ensures exists ym :: ym in months && !HasMonthlyDebt(ds, m, ym) && r[k] == MonthlyDebt(k, m, dues, ym)
      {
        if k < |mid| {
          var ym :| ym in init && !HasMonthlyDebt(ds, m, ym) && mid[k] == MonthlyDebt(k, m, dues, ym);
          assert r[k] == mid[k] && ym in months;
        } else {
          assert !HasMonthlyDebt(mid, m, last);
          assert r[k] == MonthlyDebt(k, m, dues, last) && last in months;
        }
      }
    }
  }
}
