/** lib/utils/debt-automation.ts: monthly and historical dues generation, the
    overdue sweep, payment allocation and the recomputation of each member's
    stored `total_debt`, as methods over the server tables. The clock is the
    parameter `now`. */
module DebtAutomation {
  import opened Wrappers
  import opened Dates
  import opened Records
  import opened Allocation
  import opened Generation
  import opened Charging
  import opened Database

  // ---- The overdue sweep ----

  /** A pending debt whose due date has passed becomes overdue; any other debt is kept. */
  function MarkIfLate(d: Debt, now: Moment): Debt
  {
    if d.status == Pending && DuePassed(d.dueDate, now) then d.(status := Overdue) else d
  }

  /** The debts table after `updateOverdueDebts` at time `now`. */
  function Sweep(ds: seq<Debt>, now: Moment): (r: seq<Debt>)
    ensures |r| == |ds|
    ensures forall k :: 0 <= k < |ds| ==> r[k] == MarkIfLate(ds[k], now)
  {
    seq(|ds|, k requires 0 <= k < |ds| => MarkIfLate(ds[k], now))
  }

  /** The sweep only moves `pending` to `overdue`, never touching amounts, members or
      paid debts, and afterwards no pending debt is past its due date. */
  lemma SweepOnlyMarksLatePending(ds: seq<Debt>, now: Moment)
    ensures var r := Sweep(ds, now);
            (forall k :: 0 <= k < |ds| ==>
               r[k] == ds[k].(status := r[k].status)
               && (r[k].status != ds[k].status <==>
                     ds[k].status == Pending && DuePassed(ds[k].dueDate, now) && r[k].status == Overdue))
            && (forall d :: d in r ==> !(d.status == Pending && DuePassed(d.dueDate, now)))
  {
    var r := Sweep(ds, now);
    forall d | d in r ensures !(d.status == Pending && DuePassed(d.dueDate, now)) {
      var k :| 0 <= k < |r| && r[k] == d;
    }
  }

  /** `pending` and `overdue` both count as owed, so the sweep leaves every
      member's outstanding total as it was. */
  lemma {:induction false} SweepKeepsOutstanding(ds: seq<Debt>, now: Moment, m: Id)
    ensures OutstandingSum(Sweep(ds, now), m) == OutstandingSum(ds, m)
  {
    if ds != [] {
      var r := Sweep(ds, now);
      assert r[1..] == Sweep(ds[1..], now);
      SweepKeepsOutstanding(ds[1..], now, m);
      assert IsOutstanding(r[0]) == IsOutstanding(ds[0]) && r[0].memberId == ds[0].memberId;
      assert OutstandingOf(r, m) == (if r[0].memberId == m && IsOutstanding(r[0]) then [r[0]] else []) + OutstandingOf(r[1..], m);
      assert OutstandingOf(ds, m) == (if ds[0].memberId == m && IsOutstanding(ds[0]) then [ds[0]] else []) + OutstandingOf(ds[1..], m);
      SumAppend(if r[0].memberId == m && IsOutstanding(r[0]) then [r[0]] else [], OutstandingOf(r[1..], m));
      SumAppend(if ds[0].memberId == m && IsOutstanding(ds[0]) then [ds[0]] else [], OutstandingOf(ds[1..], m));
    }
  }

  /** ... and the grand total of what is owed as it was. */
  lemma {:induction false} SweepKeepsTotalOutstanding(ds: seq<Debt>, now: Moment)
    ensures TotalOutstanding(Sweep(ds, now)) == TotalOutstanding(ds)
  {
    if ds != [] {
      var r := Sweep(ds, now);
      assert r[1..] == Sweep(ds[1..], now);
      SweepKeepsTotalOutstanding(ds[1..], now);
      assert IsOutstanding(r[0]) == IsOutstanding(ds[0]);
      assert AllOutstanding(r) == (if IsOutstanding(r[0]) then [r[0]] else []) + AllOutstanding(r[1..]);
      assert AllOutstanding(ds) == (if IsOutstanding(ds[0]) then [ds[0]] else []) + AllOutstanding(ds[1..]);
      SumAppend(if IsOutstanding(r[0]) then [r[0]] else [], AllOutstanding(r[1..]));
      SumAppend(if IsOutstanding(ds[0]) then [ds[0]] else [], AllOutstanding(ds[1..]));
    }
  }

  /** Sweeping twice at the same time marks nothing more. */
  lemma SweepIdempotent(ds: seq<Debt>, now: Moment)
    ensures Sweep(Sweep(ds, now), now) == Sweep(ds, now)
  {
  }

  predicate NotLater(t1: Moment, t2: Moment)
  {
    Before(t1.date, t2.date) || (t1.date == t2.date && t1.millis <= t2.millis)
  }

  /** A later sweep subsumes an earlier one: what was late then is late now. */
  lemma LaterSweepSubsumesEarlier(ds: seq<Debt>, t1: Moment, t2: Moment)
    requires NotLater(t1, t2)
    ensures Sweep(Sweep(ds, t1), t2) == Sweep(ds, t2)
  {
    forall k | 0 <= k < |ds| ensures MarkIfLate(MarkIfLate(ds[k], t1), t2) == MarkIfLate(ds[k], t2) {
      BeforeIsStrictTotalOrder(ds[k].dueDate, t1.date, t2.date);
    }
  }

  /** Monthly-dues rows keep their member, month, year and type under the sweep. */
  lemma SweepKeepsSlots(ds: seq<Debt>, now: Moment, m: Id, ym: YearMonth)
    ensures HasMonthlyDebt(Sweep(ds, now), m, ym) <==> HasMonthlyDebt(ds, m, ym)
  {
    var r := Sweep(ds, now);
    if HasMonthlyDebt(ds, m, ym) {
      var d :| d in ds && IsMonthlySlot(d, m, ym);
      var k :| 0 <= k < |ds| && ds[k] == d;
      assert r[k] in r && IsMonthlySlot(r[k], m, ym);
    }
    if HasMonthlyDebt(r, m, ym) {
      var d :| d in r && IsMonthlySlot(d, m, ym);
      var k :| 0 <= k < |r| && r[k] == d;
      assert ds[k] in ds && IsMonthlySlot(ds[k], m, ym);
    }
  }

  // ---- Stored totals ----

  /** The members table after `updateMemberTotalDebt(m)`: the member's `total_debt`
      is the sum of its pending and overdue debts; nothing else changes. */
  function RecordTotal(ms: map<Id, Member>, ds: seq<Debt>, m: Id): map<Id, Member>
  {
    if m in ms then ms[m := ms[m].(totalDebt := OutstandingSum(ds, m))] else ms
  }

  /** Every member's stored total agrees with its outstanding debts. */
  ghost predicate TotalsAgree(ms: map<Id, Member>, ds: seq<Debt>)
  {
    forall id :: id in ms ==> ms[id].totalDebt == OutstandingSum(ds, id)
  }

  /** Recomputing a total twice is recomputing it once, and recomputing one that
      already agrees changes nothing. */
  lemma RecordTotalIdempotent(ms: map<Id, Member>, ds: seq<Debt>, m: Id)
    ensures RecordTotal(RecordTotal(ms, ds, m), ds, m) == RecordTotal(ms, ds, m)
    ensures TotalsAgree(ms, ds) ==> RecordTotal(ms, ds, m) == ms
  {
    if m in ms && TotalsAgree(ms, ds) {
      assert ms[m].(totalDebt := OutstandingSum(ds, m)) == ms[m];
    }
  }

  /** `current` is `table` with the totals of the members in `done` recomputed
      against `ds`, and every other member as it was. */
  ghost predicate TotalsRecordedFor(table: map<Id, Member>, current: map<Id, Member>, ds: seq<Debt>, done: set<Id>)
  {
    current.Keys == table.Keys
    && forall id :: id in table ==>
         current[id] == if id in done then table[id].(totalDebt := OutstandingSum(ds, id)) else table[id]
  }

  /** Recording one more member's total, after a change that moved no other member's
      outstanding sum. */
  lemma RecordOneMore(table: map<Id, Member>, current: map<Id, Member>, ds: seq<Debt>, ds2: seq<Debt>,
                      done: set<Id>, id: Id)
    requires TotalsRecordedFor(table, current, ds, done) && id in table
    requires forall other :: other != id ==> OutstandingSum(ds2, other) == OutstandingSum(ds, other)
    ensures TotalsRecordedFor(table, RecordTotal(current, ds2, id), ds2, done + {id})
  {
  }

  /** Once every member's total is recorded, all totals agree with the table and
      nothing but totals changed. */
  lemma RecordingEveryTotalAgrees(table: map<Id, Member>, current: map<Id, Member>, ds: seq<Debt>)
    requires TotalsRecordedFor(table, current, ds, table.Keys)
    ensures TotalsAgree(current, ds) && SameExceptTotals(table, current)
  {
  }

  /** One member of `initializeDebtSystem`: `generateHistoricalDebts` reads the member
      afresh, but only its total can have changed, so the step is the fold's next
      step; and it moves no other member's outstanding sum. */
  lemma InitStep(d0: seq<Debt>, table: map<Id, Member>, current: map<Id, Member>, before: seq<Debt>, after: seq<Debt>,
                 visited: seq<Member>, member: Member, now: Moment, done: set<Id>)
    requires TotalsRecordedFor(table, current, before, done)
    requires member.id in table && table[member.id] == member
    requires before == BackfillMembers(d0, visited, now)
    requires after == Backfill(before, member.id, current[member.id].monthlyDues, HistoryOf(current[member.id], now))
    ensures after == BackfillMembers(d0, visited + [member], now)
    ensures TotalsRecordedFor(table, RecordTotal(current, after, member.id), after, done + {member.id})
  {
    assert current[member.id].joinDate == member.joinDate && current[member.id].monthlyDues == member.monthlyDues;
    BackfillMembersSnoc(d0, visited, member, now);
    BackfillFacts(before, member.id, member.monthlyDues, HistoryOf(member, now));
    RecordOneMore(table, current, before, after, done, member.id);
  }

  function TotalDebtPatch(total: int): MemberPatch
  {
    MemberPatch(None, None, None, None, None, None, Some(total))
  }

  // ---- The operations ----

  /** `updateMemberTotalDebt`: stores and returns the member's outstanding total;
      fails, changing nothing, when the member does not exist. */
  method UpdateMemberTotalDebt(ledger: Ledger, memberId: Id) returns (r: Result<int>)
    requires ledger.Valid()
    modifies ledger
    ensures ledger.Valid()
    ensures r.Ok? <==> memberId in old(ledger.members)
    ensures r.Ok? ==> r.value == OutstandingSum(ledger.debts, memberId)
    ensures ledger.members == RecordTotal(old(ledger.members), ledger.debts, memberId)
    ensures ledger.debts == old(ledger.debts) && ledger.payments == old(ledger.payments)
  {
    var total := OutstandingSum(ledger.debts, memberId);
    var updated := ledger.UpdateMember(memberId, TotalDebtPatch(total));
    if updated.Err? {
      return Err(updated.error);
    }
    return Ok(total);
  }

  /** `updateOverdueDebts`: every pending debt past its due date becomes overdue. */
  method UpdateOverdueDebts(ledger: Ledger, now: Moment)
    requires ledger.Valid()
    modifies ledger
    ensures ledger.Valid()
    ensures ledger.debts == Sweep(old(ledger.debts), now)
    ensures ledger.members == old(ledger.members) && ledger.payments == old(ledger.payments)
  {
    var snapshot := ledger.debts;
    var k := 0;
    while k < |snapshot|
      invariant 0 <= k <= |snapshot|
      invariant ledger.Valid() && |ledger.debts| == |snapshot|
      invariant forall j :: 0 <= j < |snapshot| ==>
                  ledger.debts[j] == if j < k then MarkIfLate(snapshot[j], now) else snapshot[j]
      invariant ledger.members == old(ledger.members) && ledger.payments == old(ledger.payments)
    {
      var debt := snapshot[k];
      if debt.status == Pending && DuePassed(debt.dueDate, now) {
        var _ := ledger.UpdateDebtStatus(debt.id, Overdue);
      }
      k := k + 1;
    }
  }

  /** `processPayment`'s loop after `i` turns with `remaining` left: the first `i`
      debts of the queue are paid, `rem` is the remainder row once one was split off,
      and the allocation of the whole payment is what was done followed by the walk
      still to come. */
  ghost predicate PaidSoFar(d0: seq<Debt>, queue: seq<Debt>, amount: int, i: int, remaining: int,
                            rem: Option<Debt>, debts: seq<Debt>)
  {
    0 <= i <= |queue|
    && (rem.None? ==>
          debts == MarkPaid(d0, IdSet(queue[..i]))
          && Allocate(queue, amount, |d0|) == Prefixed(queue[..i], Allocate(queue[i..], remaining, |d0|)))
    && (rem.Some? ==>
          remaining == 0
          && debts == MarkPaid(d0, IdSet(queue[..i])) + [rem.value]
          && Allocate(queue, amount, |d0|) == Allocation(queue[..i], rem, 0))
  }

  /** Before the first turn nothing is paid. */
  lemma PaidNothingYet(d0: seq<Debt>, queue: seq<Debt>, amount: int)
    ensures PaidSoFar(d0, queue, amount, 0, amount, None, d0)
  {
    AllocateStart(queue, amount, |d0|);
    assert IdSet(queue[..0]) == {};
    MarkPaidNothing(d0);
  }

  /** One more turn: the debt at `i` is paid, and split when `remaining` falls short. */
  lemma PaidOneMore(d0: seq<Debt>, queue: seq<Debt>, amount: int, i: int, remaining: int, debts: seq<Debt>)
    requires PaidSoFar(d0, queue, amount, i, remaining, None, debts)
    requires i < |queue| && remaining > 0
    ensures var paid := SetStatus(debts, queue[i].id, Paid);
            |paid| == |d0|
            && (remaining >= queue[i].amount ==>
                  PaidSoFar(d0, queue, amount, i + 1, remaining - queue[i].amount, None, paid))
            && (remaining < queue[i].amount ==>
                  var rest := RemainderDebt(queue[i], remaining, |d0|);
                  PaidSoFar(d0, queue, amount, i + 1, 0, Some(rest), paid + [rest]))
  {
    AllocateStep(queue, i, remaining, |d0|);
    SettleNext(d0, queue, i);
  }

  /** When the loop stops, the table is the whole allocation applied to the old table. */
  lemma PaidAll(d0: seq<Debt>, m: Id, queue: seq<Debt>, amount: int, i: int, remaining: int, rem: Option<Debt>,
                 debts: seq<Debt>)
    requires queue == PaymentQueue(d0, m)
    requires PaidSoFar(d0, queue, amount, i, remaining, rem, debts)
    requires i == |queue| || remaining <= 0
    ensures debts == PaymentEffect(d0, m, amount)
  {
    if rem.None? {
      AllocateStop(queue, i, remaining, |d0|);
    }
  }

  /** One turn of `processPayment`'s loop over the queue: the debt at `i` is marked
      paid and, when the remainder does not cover it, its unpaid rest is added as a
      new pending debt and the walk ends (`rem` is that row). */
  method SettleOne(ledger: Ledger, ghost d0: seq<Debt>, queue: seq<Debt>, ghost amount: int, i: nat, remaining: int)
      returns (left: int, ghost rem: Option<Debt>)
    requires ledger.Valid()
    requires i < |queue| && remaining > 0
    requires PaidSoFar(d0, queue, amount, i, remaining, None, ledger.debts)
    modifies ledger
    ensures ledger.Valid()
    ensures ledger.members == old(ledger.members) && ledger.payments == old(ledger.payments)
    ensures PaidSoFar(d0, queue, amount, i + 1, left, rem, ledger.debts)
  {
    var debt := queue[i];
    PaidOneMore(d0, queue, amount, i, remaining, ledger.debts);
    var _ := ledger.UpdateDebtStatus(debt.id, Paid);
    if remaining >= debt.amount {
      left := remaining - debt.amount;
      rem := None;
    } else {
      var newDebt := Debt(0, debt.memberId, debt.amount - remaining, debt.debtType,
                          PartialDescription(debt.description), debt.dueDate, Pending, debt.month, debt.year);
      var saved := ledger.CreateDebt(newDebt);
      assert saved == RemainderDebt(debt, remaining, |d0|);
      left := 0;
      rem := Some(saved);
    }
  }

  /** `processPayment`'s loop: the member's pending and overdue debts, oldest first,
      are settled until the payment runs out; the first one it cannot cover is split. */
  method PayOldestFirst(ledger: Ledger, memberId: Id, amount: int)
    requires ledger.Valid()
    modifies ledger
    ensures ledger.Valid()
    ensures ledger.debts == PaymentEffect(old(ledger.debts), memberId, amount)
    ensures ledger.members == old(ledger.members) && ledger.payments == old(ledger.payments)
  {
    ghost var d0 := ledger.debts;
    var queue := PaymentQueue(ledger.debts, memberId);
    var remaining := amount;
    ghost var rem: Option<Debt> := None;
    var i := 0;
    PaidNothingYet(d0, queue, amount);
    while i < |queue| && remaining > 0
      invariant 0 <= i <= |queue| && (rem.Some? ==> remaining == 0)
      invariant ledger.Valid()
      invariant ledger.members == old(ledger.members) && ledger.payments == old(ledger.payments)
      invariant PaidSoFar(d0, queue, amount, i, remaining, rem, ledger.debts)
      decreases |queue| - i
    {
      remaining, rem := SettleOne(ledger, d0, queue, amount, i, remaining);
      i := i + 1;
    }
    PaidAll(d0, memberId, queue, amount, i, remaining, rem, ledger.debts);
  }

  /** `processPayment(memberId, amount, paymentDate)`: settles the member's pending and
      overdue debts oldest first, splits the first one the payment cannot cover,
      then recomputes the member's total (failing if the member does not exist,
      after the debts have been updated). `paymentDate` is not used. */
  method ProcessPayment(ledger: Ledger, memberId: Id, amount: int, paymentDate: Date) returns (r: Outcome)
    requires ledger.Valid()
    modifies ledger
    ensures ledger.Valid()
    ensures ledger.debts == PaymentEffect(old(ledger.debts), memberId, amount)
    ensures r.Done? <==> memberId in old(ledger.members)
    ensures ledger.members == RecordTotal(old(ledger.members), ledger.debts, memberId)
    ensures ledger.payments == old(ledger.payments)
  {
    PayOldestFirst(ledger, memberId, amount);
    r := Done;
    var updated := UpdateMemberTotalDebt(ledger, memberId);
    if updated.Err? {
      r := Failed(updated.error);
    }
  }

  /** The step both generators share: look for the member's monthly-dues debt for
      `ym` and create it, pending, when there is none. */
  method AddMonthlyDebtIfMissing(ledger: Ledger, memberId: Id, dues: int, ym: YearMonth)
    requires ledger.Valid()
    modifies ledger
    ensures ledger.Valid()
    ensures ledger.debts == AddIfMissing(old(ledger.debts), memberId, dues, ym)
    ensures ledger.members == old(ledger.members) && ledger.payments == old(ledger.payments)
  {
    var existing := HasMonthlyDebt(ledger.debts, memberId, ym);
    if !existing {
      var _ := ledger.CreateDebt(MonthlyDebt(0, memberId, dues, ym));
    }
  }

  /** `generateMonthlyDebts`: visits the active members, in an order the model
      leaves open (`visited`), and creates the current month's dues for each one
      that has none. What a run guarantees for every order is stated by
      `MonthlyGenerationCharges` and the lemmas after it. */
  method GenerateMonthlyDebts(ledger: Ledger, now: Moment) returns (ghost visited: seq<Member>)
    requires ledger.Valid()
    modifies ledger
    ensures ledger.Valid()
    ensures ledger.members == old(ledger.members) && ledger.payments == old(ledger.payments)
    ensures EnumeratesActive(visited, ledger.members)
    ensures ledger.debts == ChargeMonth(old(ledger.debts), visited, MonthOf(now.date))
  {
    ghost var d0 := ledger.debts;
    var ms := ledger.members;
    var current := MonthOf(now.date);
    var todo := ActiveIds(ms);
    visited := [];
    VisitStart(ms);
    while todo != {}
      invariant ledger.Valid()
      invariant ledger.members == ms && ledger.payments == old(ledger.payments)
      invariant VisitedSoFar(visited, ms, todo)
      invariant ledger.debts == ChargeMonth(d0, visited, current)
      decreases |todo|
    {
      var id :| id in todo;
      var member := ms[id];
      AddMonthlyDebtIfMissing(ledger, id, member.monthlyDues, current);
      ChargeMonthSnoc(d0, visited, member, current);
      VisitNext(visited, ms, todo, id);
      visited := visited + [member];
      todo := todo - {id};
    }
    VisitDone(visited, ms);
  }

  /** The inner loop of `generateHistoricalDebts`: months `first` to `last` of `year`. */
  method BackfillYear(ledger: Ledger, memberId: Id, dues: int, year: int, first: int, last: int)
    requires ledger.Valid()
    modifies ledger
    ensures ledger.Valid()
    ensures ledger.debts == Backfill(old(ledger.debts), memberId, dues, MonthRun(year, first, last))
    ensures ledger.members == old(ledger.members) && ledger.payments == old(ledger.payments)
  {
    ghost var d0 := ledger.debts;
    var month := first;
    while month <= last
      invariant first <= month <= last + 1 || (last < first && month == first)
      invariant ledger.Valid()
      invariant ledger.members == old(ledger.members) && ledger.payments == old(ledger.payments)
      invariant ledger.debts == Backfill(d0, memberId, dues, MonthRun(year, first, month - 1))
      decreases last - month + 1
    {
      var ym := YearMonth(year, month);
      AddMonthlyDebtIfMissing(ledger, memberId, dues, ym);
      MonthRunSnoc(year, first, month);
      BackfillSnoc(d0, memberId, dues, MonthRun(year, first, month - 1), ym);
      month := month + 1;
    }
    assert MonthRun(year, first, month - 1) == MonthRun(year, first, last);
  }

  /** The nested loops of `generateHistoricalDebts`: every month from `start` to
      `end`, year by year. */
  method BackfillHistory(ledger: Ledger, memberId: Id, dues: int, start: YearMonth, end: YearMonth)
    requires ledger.Valid()
    modifies ledger
    ensures ledger.Valid()
    ensures ledger.debts == Backfill(old(ledger.debts), memberId, dues, HistoryMonths(start, end))
    ensures ledger.members == old(ledger.members) && ledger.payments == old(ledger.payments)
  {
    ghost var d0 := ledger.debts;
    ghost var walked: seq<YearMonth> := [];
    var year := start.year;
    while year <= end.year
      invariant ledger.Valid()
      invariant ledger.members == old(ledger.members) && ledger.payments == old(ledger.payments)
      invariant walked + HistoryFrom(year, start, end) == HistoryMonths(start, end)
      invariant ledger.debts == Backfill(d0, memberId, dues, walked)
      decreases end.year - year
    {
      var monthStart := if year == start.year then start.month else 1;
      var monthEnd := if year == end.year then end.month else 12;
      ghost var run := MonthRun(year, monthStart, monthEnd);
      BackfillYear(ledger, memberId, dues, year, monthStart, monthEnd);
      BackfillAppend(d0, memberId, dues, walked, run);
      WalkYear(walked, run, HistoryFrom(year + 1, start, end));
      walked := walked + run;
      year := year + 1;
    }
    assert walked + [] == walked;
  }

  /** `generateHistoricalDebts(memberId)`: a monthly-dues debt for every month from the
      member's join month to the current month that has none yet; then the member's
      total is recomputed. Fails, changing nothing, when the member does not exist. */
  method GenerateHistoricalDebts(ledger: Ledger, memberId: Id, now: Moment) returns (r: Outcome)
    requires ledger.Valid()
    modifies ledger
    ensures ledger.Valid()
    ensures r.Done? <==> memberId in old(ledger.members)
    ensures r.Failed? ==> ledger.debts == old(ledger.debts)
    ensures r.Done? ==>
              ledger.debts == Backfill(old(ledger.debts), memberId, old(ledger.members)[memberId].monthlyDues,
                                       HistoryOf(old(ledger.members)[memberId], now))
    ensures ledger.members == RecordTotal(old(ledger.members), ledger.debts, memberId)
    ensures ledger.payments == old(ledger.payments)
  {
    var got := ledger.GetMember(memberId);
    if got.Err? {
      return Failed(got.error);
    }
    var member := got.value;
    BackfillHistory(ledger, memberId, member.monthlyDues, MonthOf(member.joinDate), MonthOf(now.date));
    var _ := UpdateMemberTotalDebt(ledger, memberId);
    r := Done;
  }

  /** `scheduleMonthlyDebtGeneration`: this month's dues, then the overdue sweep, then
      every member's total recomputed. */
  method ScheduleMonthlyDebtGeneration(ledger: Ledger, now: Moment) returns (ghost visited: seq<Member>)
    requires ledger.Valid()
    modifies ledger
    ensures ledger.Valid()
    ensures EnumeratesActive(visited, old(ledger.members))
    ensures ledger.debts == Sweep(ChargeMonth(old(ledger.debts), visited, MonthOf(now.date)), now)
    ensures TotalsRecordedFor(old(ledger.members), ledger.members, ledger.debts, old(ledger.members).Keys)
    ensures ledger.payments == old(ledger.payments)
  {
    visited := GenerateMonthlyDebts(ledger, now);
    UpdateOverdueDebts(ledger, now);
    var ms := ledger.members;
    var todo := ms.Keys;
    while todo != {}
      invariant ledger.Valid() && todo <= ms.Keys
      invariant ledger.debts == Sweep(ChargeMonth(old(ledger.debts), visited, MonthOf(now.date)), now)
      invariant ledger.payments == old(ledger.payments)
      invariant TotalsRecordedFor(ms, ledger.members, ledger.debts, ms.Keys - todo)
      decreases |todo|
    {
      var id :| id in todo;
      ghost var before := ledger.members;
      var _ := UpdateMemberTotalDebt(ledger, id);
      RecordOneMore(ms, before, ledger.debts, ledger.debts, ms.Keys - todo, id);
      todo := todo - {id};
    }
  }

  /** `initializeDebtSystem`: historical dues, and a recomputed total, for every
      active member, visited in an order the model leaves open. */
  method InitializeDebtSystem(ledger: Ledger, now: Moment) returns (ghost visited: seq<Member>)
    requires ledger.Valid()
    modifies ledger
    ensures ledger.Valid()
    ensures EnumeratesActive(visited, old(ledger.members))
    ensures ledger.debts == BackfillMembers(old(ledger.debts), visited, now)
    ensures TotalsRecordedFor(old(ledger.members), ledger.members, ledger.debts, ActiveIds(old(ledger.members)))
    ensures ledger.payments == old(ledger.payments)
  {
    ghost var d0 := ledger.debts;
    var ms := ledger.members;
    var todo := ActiveIds(ms);
    visited := [];
    VisitStart(ms);
    while todo != {}
      invariant ledger.Valid()
      invariant ledger.payments == old(ledger.payments)
      invariant VisitedSoFar(visited, ms, todo)
      invariant ledger.debts == BackfillMembers(d0, visited, now)
      invariant TotalsRecordedFor(ms, ledger.members, ledger.debts, ActiveIds(ms) - todo)
      decreases |todo|
    {
      var id :| id in todo;
      var member := ms[id];
      ghost var before := ledger.debts;
      ghost var membersBefore := ledger.members;
      var _ := GenerateHistoricalDebts(ledger, id, now);
      InitStep(d0, ms, membersBefore, before, ledger.debts, visited, member, now, ActiveIds(ms) - todo);
      VisitNext(visited, ms, todo, id);
      visited := visited + [member];
      todo := todo - {id};
    }
    VisitDone(visited, ms);
  }
}
