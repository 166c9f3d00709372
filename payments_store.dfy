/** lib/stores/payments.ts: the client's cached payments (newest first), the
    list filters and the monthly summary. An online payment is saved and then
    applied to the member's debts by `processPayment`; offline it is queued with a
    flag asking the sync manager to apply it later. */
module PaymentsStore {
  import opened Wrappers
  import opened Dates
  import opened Records
  import opened Lists
  import opened Offline
  import opened Database
  import opened Allocation
  import opened DebtAutomation

  const UpdatePaymentError: string := "Failed to update payment. Please try again."

  function PaymentId(p: Payment): Id
  {
    p.id
  }

  // ---- Selectors ----

  /** A filter left at `None` (`null`) lets every payment through. */
  predicate Shown(p: Payment, month: Option<int>, year: Option<int>, memberId: Option<Id>)
  {
    (month.None? || p.month == month.value)
    && (year.None? || p.year == year.value)
    && (memberId.None? || p.memberId == memberId.value)
  }

  /** `useFilteredPayments`: the payments every set filter lets through, in order. */
  function FilteredPayments(ps: seq<Payment>, month: Option<int>, year: Option<int>, memberId: Option<Id>): (r: seq<Payment>)
    ensures |r| <= |ps|
    ensures forall p :: p in r <==> p in ps && Shown(p, month, year, memberId)
  {
    if ps == [] then []
    else if Shown(ps[0], month, year, memberId) then [ps[0]] + FilteredPayments(ps[1..], month, year, memberId)
    else FilteredPayments(ps[1..], month, year, memberId)
  }

  /** With no filter set the whole list is shown, in its own order. */
  lemma {:induction false} NoFilterShowsAll(ps: seq<Payment>)
    ensures FilteredPayments(ps, None, None, None) == ps
  {
    if ps != [] {
      NoFilterShowsAll(ps[1..]);
      assert ps == [ps[0]] + ps[1..];
    }
  }

  function PaymentTotal(ps: seq<Payment>): int
  {
    if ps == [] then 0 else ps[0].amount + PaymentTotal(ps[1..])
  }

  /** `new Set(ps.map(p => p.member_id))`. */
  function Payers(ps: seq<Payment>): (r: set<Id>)
    ensures |r| <= |ps|
    ensures ps != [] ==> |r| >= 1
    ensures forall id :: id in r <==> exists p :: p in ps && p.memberId == id
  {
    if ps == [] then {}
    else
      var rest := Payers(ps[1..]);
      assert forall p :: p in ps ==> p == ps[0] || p in ps[1..];
      {ps[0].memberId} + rest
  }

  datatype MonthlySummary = MonthlySummary(totalAmount: int, paymentCount: nat, uniqueMembers: nat)

  /** The payments recorded against `year`/`month`. */
  function PaymentsOfMonth(ps: seq<Payment>, year: int, month: int): seq<Payment>
  {
    FilteredPayments(ps, Some(month), Some(year), None)
  }

  /** `useMonthlyStats(year, month)`: total, number of payments and number of distinct
      paying members for the month; never more payers than payments, and a month
      with payments has at least one payer. */
  function MonthlyStats(ps: seq<Payment>, year: int, month: int): (r: MonthlySummary)
    ensures r.uniqueMembers <= r.paymentCount
    ensures r.paymentCount == 0 <==> r.uniqueMembers == 0
    ensures r.paymentCount <= |ps|
  {
    var monthly := PaymentsOfMonth(ps, year, month);
    MonthlySummary(PaymentTotal(monthly), |monthly|, |Payers(monthly)|)
  }

  /** A new payment for the month, placed at the head of the list as `addPayment` does,
      raises the month's total by its amount and its count by one; a payment for any
      other month leaves the summary alone. */
  lemma PrependedPaymentStats(ps: seq<Payment>, p: Payment, year: int, month: int)
    ensures var before := MonthlyStats(ps, year, month);
            var after := MonthlyStats([p] + ps, year, month);
            if p.year == year && p.month == month
            then after.totalAmount == before.totalAmount + p.amount && after.paymentCount == before.paymentCount + 1
            else after == before
  {
    assert ([p] + ps)[1..] == ps;
  }

  // ---- Editing a payment ----

  /** Every owed debt of the table is for a positive amount. */
  ghost predicate OwedAmountsPositive(ds: seq<Debt>)
  {
    forall d :: d in ds && IsOutstanding(d) ==> d.amount > 0
  }

  /** `processPayment` keeps row ids positional and owed amounts positive. */
  lemma PaymentKeepsTableShape(ds: seq<Debt>, m: Id, amount: int)
    requires PositionalIds(ds) && OwedAmountsPositive(ds)
    ensures PositionalIds(PaymentEffect(ds, m, amount)) && OwedAmountsPositive(PaymentEffect(ds, m, amount))
  {
    PositionalIdsAreUnique(ds);
    PaymentRowChanges(ds, m, amount);
    var r := PaymentEffect(ds, m, amount);
    forall d | d in r && IsOutstanding(d) ensures d.amount > 0 {
      var k :| 0 <= k < |r| && r[k] == d;
      if k < |ds| {
        assert ds[k] in ds;
      }
    }
  }

  /** `updatePayment` hands the edited payment's whole amount to `processPayment`
      again, on a table the original amount was already applied to. When the member
      owes at least both amounts, editing a payment of `a` into one of `b` has cleared
      `a + b` of debt, though the payment records only `b`. */
  lemma EditedPaymentIsAppliedAgain(ds: seq<Debt>, m: Id, a: int, b: int)
    requires PositionalIds(ds) && OwedAmountsPositive(ds)
    requires 0 < a && 0 < b && a + b <= OutstandingSum(ds, m)
    ensures OutstandingSum(PaymentEffect(PaymentEffect(ds, m, a), m, b), m) == OutstandingSum(ds, m) - (a + b)
  {
    PositionalIdsAreUnique(ds);
    PaymentConservation(ds, m, a);
    var once := PaymentEffect(ds, m, a);
    PaymentKeepsTableShape(ds, m, a);
    PositionalIdsAreUnique(once);
    PaymentConservation(once, m, b);
  }

  class PaymentsStore {
    /** Cached payments, newest first. */
    var payments: seq<Payment>
    var filterMonth: Option<int>
    var filterYear: Option<int>
    var filterMemberId: Option<Id>
    var error: Option<string>

    constructor ()
      ensures payments == [] && error == None
      ensures filterMonth == None && filterYear == None && filterMemberId == None
    {
      payments := [];
      filterMonth := None;
      filterYear := None;
      filterMemberId := None;
      error := None;
    }

    /** `addPayment`: online the saved payment goes to the head of the list and is
        applied to the member's debts; when that fails (no such member) the fallback
        recomputation of the total fails too, and both failures are only logged.
        Offline the payment is listed under `localId` and queued for later processing. */
    method AddPayment(ledger: Ledger, queue: SyncQueue, online: bool, data: Payment, localId: Id)
      requires ledger.Valid()
      modifies this, ledger, queue
      ensures ledger.Valid()
      ensures error == old(error)
      ensures filterMonth == old(filterMonth) && filterYear == old(filterYear) && filterMemberId == old(filterMemberId)
      ensures online ==>
                var saved := data.(id := old(ledger.nextPaymentId));
                payments == [saved] + old(payments)
                && ledger.payments == old(ledger.payments)[saved.id := saved]
                && ledger.debts == PaymentEffect(old(ledger.debts), data.memberId, data.amount)
                && ledger.members == RecordTotal(old(ledger.members), ledger.debts, data.memberId)
                && queue.ops == old(queue.ops)
      ensures !online ==>
                payments == [data.(id := localId)] + old(payments)
                && ledger.payments == old(ledger.payments) && ledger.debts == old(ledger.debts)
                && ledger.members == old(ledger.members)
                && queue.ops == old(queue.ops) + [OfflineOperation(Create, PaymentsTable, NewPayment(data, true))]
    {
      if online {
        var saved := ledger.CreatePayment(data);
        payments := [saved] + payments;
        var r := ProcessPayment(ledger, saved.memberId, saved.amount, saved.paymentDate);
        if r.Failed? {
          var _ := UpdateMemberTotalDebt(ledger, saved.memberId);
        }
      } else {
        queue.Add(Create, PaymentsTable, NewPayment(data, true));
        payments := [data.(id := localId)] + payments;
      }
    }

    /** `updatePayment`: online a missing payment sets the error; otherwise the list
        takes the saved row and, when the patch sets an amount, `processPayment` runs
        again with the full new amount. Offline a cached payment is patched and the
        change queued. */
    method UpdatePayment(ledger: Ledger, queue: SyncQueue, online: bool, id: Id, patch: PaymentPatch)
      requires ledger.Valid()
      modifies this, ledger, queue
      ensures ledger.Valid()
      ensures filterMonth == old(filterMonth) && filterYear == old(filterYear) && filterMemberId == old(filterMemberId)
      ensures online ==> queue.ops == old(queue.ops)
      ensures online && id in old(ledger.payments) ==>
                var u := PatchPayment(old(ledger.payments)[id], patch);
                payments == Replace(old(payments), PaymentId, id, u) && error == old(error)
                && ledger.payments == old(ledger.payments)[id := u]
                && (patch.amount.Some? ==>
                      ledger.debts == PaymentEffect(old(ledger.debts), u.memberId, u.amount)
                      && ledger.members == RecordTotal(old(ledger.members), ledger.debts, u.memberId))
                && (patch.amount.None? ==> ledger.debts == old(ledger.debts) && ledger.members == old(ledger.members))
      ensures online && id !in old(ledger.payments) ==>
                payments == old(payments) && error == Some(UpdatePaymentError)
                && ledger.payments == old(ledger.payments) && ledger.debts == old(ledger.debts)
                && ledger.members == old(ledger.members)
      ensures !online ==>
                error == old(error) && ledger.payments == old(ledger.payments)
                && ledger.debts == old(ledger.debts) && ledger.members == old(ledger.members)
      ensures !online && Find(old(payments), PaymentId, id).None? ==>
                payments == old(payments) && queue.ops == old(queue.ops)
      ensures !online && Find(old(payments), PaymentId, id).Some? ==>
                payments == Replace(old(payments), PaymentId, id, PatchPayment(Find(old(payments), PaymentId, id).value, patch))
                && queue.ops == old(queue.ops) + [OfflineOperation(Update, PaymentsTable, PaymentChange(id, patch))]
    {
      if online {
        var r := ledger.UpdatePayment(id, patch);
        if r.Err? {
          error := Some(UpdatePaymentError);
          return;
        }
        payments := Replace(payments, PaymentId, id, r.value);
        if patch.amount.Some? {
          var _ := ProcessPayment(ledger, r.value.memberId, r.value.amount, r.value.paymentDate);
        }
      } else {
        var current := Find(payments, PaymentId, id);
        if current.Some? {
          queue.Add(Update, PaymentsTable, PaymentChange(id, patch));
          payments := Replace(payments, PaymentId, id, PatchPayment(current.value, patch));
        }
      }
    }

    /** `deletePayment`: the payment leaves the list (and, online, the server); online,
        when the list held it, its member's total is recomputed. The debts it settled
        stay settled. Offline the deletion is queued. */
    method DeletePayment(ledger: Ledger, queue: SyncQueue, online: bool, id: Id)
      requires ledger.Valid()
      modifies this, ledger, queue
      ensures ledger.Valid()
      ensures error == old(error)
      ensures filterMonth == old(filterMonth) && filterYear == old(filterYear) && filterMemberId == old(filterMemberId)
      ensures payments == Remove(old(payments), PaymentId, id)
      ensures ledger.debts == old(ledger.debts)
      ensures online ==>
                ledger.payments == old(ledger.payments) - {id} && queue.ops == old(queue.ops)
                && ledger.members == (if Find(old(payments), PaymentId, id).Some?
                                      then RecordTotal(old(ledger.members), ledger.debts, Find(old(payments), PaymentId, id).value.memberId)
                                      else old(ledger.members))
      ensures !online ==>
                ledger.payments == old(ledger.payments) && ledger.members == old(ledger.members)
                && queue.ops == old(queue.ops) + [OfflineOperation(Delete, PaymentsTable, Removal(id))]
    {
      var toDelete := Find(payments, PaymentId, id);
      if online {
        ledger.DeletePayment(id);
      } else {
        queue.Add(Delete, PaymentsTable, Removal(id));
      }
      payments := Remove(payments, PaymentId, id);
      if toDelete.Some? && online {
        var _ := UpdateMemberTotalDebt(ledger, toDelete.value.memberId);
      }
    }

    /** `setFilters`: a filter given (`Some`, possibly `Some(None)` for `null`) is set;
        one left `undefined` (`None`) keeps its value. */
    method SetFilters(month: Option<Option<int>>, year: Option<Option<int>>, memberId: Option<Option<Id>>)
      modifies this
      ensures filterMonth == Pick(month, old(filterMonth))
      ensures filterYear == Pick(year, old(filterYear))
      ensures filterMemberId == Pick(memberId, old(filterMemberId))
      ensures payments == old(payments) && error == old(error)
    {
      filterMonth := Pick(month, filterMonth);
      filterYear := Pick(year, filterYear);
      filterMemberId := Pick(memberId, filterMemberId);
    }
  }
}
