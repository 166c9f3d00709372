/** lib/stores/debts.ts: the client's cached list of debts. Online, writes go to the
    server tables first and the cache takes the saved row; offline, the cache is
    changed directly and the write is queued for the sync manager. Every server
    call made while offline fails, so the offline branches leave the tables alone. */
module DebtsStore {
  import opened Wrappers
  import opened Dates
  import opened Records
  import opened Lists
  import opened Offline
  import opened Database
  import opened DebtAutomation

  const UpdateStatusError: string := "Failed to update debt status. Please try again."

  function DebtId(d: Debt): Id
  {
    d.id
  }

  /** `getOverdueDebts`: the cached debts still pending after their due date. */
  function OverdueDebts(ds: seq<Debt>, now: Moment): (r: seq<Debt>)
    ensures |r| <= |ds|
    ensures forall d :: d in r <==> d in ds && d.status == Pending && DuePassed(d.dueDate, now)
  {
    if ds == [] then []
    else if ds[0].status == Pending && DuePassed(ds[0].dueDate, now) then [ds[0]] + OverdueDebts(ds[1..], now)
    else OverdueDebts(ds[1..], now)
  }

  lemma {:induction false} NothingOverdue(ds: seq<Debt>, now: Moment)
    requires forall d :: d in ds ==> !(d.status == Pending && DuePassed(d.dueDate, now))
    ensures OverdueDebts(ds, now) == []
  {
    if ds != [] {
      assert ds[0] in ds;
      assert forall d :: d in ds[1..] ==> d in ds;
      NothingOverdue(ds[1..], now);
    }
  }

  /** The debts `getOverdueDebts` lists are exactly the ones the overdue sweep would
      change, and once the sweep has run at the same moment the list is empty. */
  lemma OverdueDebtsAreSweepTargets(ds: seq<Debt>, now: Moment)
    ensures forall d :: d in OverdueDebts(ds, now) <==> d in ds && MarkIfLate(d, now) != d
    ensures OverdueDebts(Sweep(ds, now), now) == []
  {
    SweepOnlyMarksLatePending(ds, now);
    NothingOverdue(Sweep(ds, now), now);
  }

  /** Adding a debt raises `getTotalOutstanding` by its amount exactly when it is owed. */
  lemma TotalOutstandingAddDebt(ds: seq<Debt>, d: Debt)
    ensures TotalOutstanding(ds + [d]) == TotalOutstanding(ds) + (if IsOutstanding(d) then d.amount else 0)
  {
    AllOutstandingAppend(ds, [d]);
    SumAppend(AllOutstanding(ds), AllOutstanding([d]));
  }

  /** Marking a debt paid lowers its member's outstanding sum by its amount when it was
      owed, and moves no other member's sum. */
  lemma MarkingPaidLowersOutstanding(ds: seq<Debt>, id: Id, m: Id)
    ensures OutstandingSum(SetStatus(ds, id, Paid), m) == OutstandingSum(ds, m) - SumIds(OutstandingOf(ds, m), {id})
  {
    MarkPaidNothing(ds);
    MarkPaidStep(ds, {}, id);
    assert {} + {id} == {id};
    MarkPaidOutstanding(ds, {id}, m);
  }

  class DebtsStore {
    var debts: seq<Debt>
    var error: Option<string>

    constructor ()
      ensures debts == [] && error == None
    {
      debts := [];
      error := None;
    }

    /** `addDebt`: online the server assigns the id and the cache appends the saved row;
        offline the cache appends the row under the locally generated id `localId` and
        the creation is queued. */
    method AddDebt(ledger: Ledger, queue: SyncQueue, online: bool, data: Debt, localId: Id)
      requires ledger.Valid()
      modifies this, ledger, queue
      ensures ledger.Valid()
      ensures error == old(error)
      ensures online ==>
                debts == old(debts) + [data.(id := old(|ledger.debts|))]
                && ledger.debts == old(ledger.debts) + [data.(id := old(|ledger.debts|))]
                && queue.ops == old(queue.ops)
      ensures !online ==>
                debts == old(debts) + [data.(id := localId)]
                && ledger.debts == old(ledger.debts)
                && queue.ops == old(queue.ops) + [OfflineOperation(Create, DebtsTable, NewDebt(data))]
      ensures ledger.members == old(ledger.members) && ledger.payments == old(ledger.payments)
    {
      if online {
        var saved := ledger.CreateDebt(data);
        debts := debts + [saved];
      } else {
        queue.Add(Create, DebtsTable, NewDebt(data));
        debts := debts + [data.(id := localId)];
      }
    }

    /** `updateDebtStatus`: online the server row's status is set, the cache takes the
        saved row and the member's total is recomputed (a failure there is only logged);
        a missing row sets the error and changes nothing. Offline a cached row is
        updated and the change queued; the recomputation then fails for want of a network. */
    method UpdateDebtStatus(ledger: Ledger, queue: SyncQueue, online: bool, id: Id, status: DebtStatus)
      requires ledger.Valid()
      modifies this, ledger, queue
      ensures ledger.Valid()
      ensures ledger.payments == old(ledger.payments)
      ensures online ==> ledger.debts == SetStatus(old(ledger.debts), id, status) && queue.ops == old(queue.ops)
      ensures online && id < |old(ledger.debts)| ==>
                var saved := old(ledger.debts)[id].(status := status);
                debts == Replace(old(debts), DebtId, id, saved) && error == old(error)
                && ledger.members == RecordTotal(old(ledger.members), ledger.debts, saved.memberId)
      ensures online && id >= |old(ledger.debts)| ==>
                debts == old(debts) && error == Some(UpdateStatusError) && ledger.members == old(ledger.members)
      ensures !online ==>
                ledger.debts == old(ledger.debts) && ledger.members == old(ledger.members) && error == old(error)
      ensures !online && Find(old(debts), DebtId, id).None? ==> debts == old(debts) && queue.ops == old(queue.ops)
      ensures !online && Find(old(debts), DebtId, id).Some? ==>
                debts == Replace(old(debts), DebtId, id, Find(old(debts), DebtId, id).value.(status := status))
                && queue.ops == old(queue.ops) + [OfflineOperation(Update, DebtsTable, StatusChange(id, status))]
    {
      if online {
        var r := ledger.UpdateDebtStatus(id, status);
        if r.Err? {
          error := Some(UpdateStatusError);
          return;
        }
        debts := Replace(debts, DebtId, id, r.value);
        var _ := UpdateMemberTotalDebt(ledger, r.value.memberId);
      } else {
        var current := Find(debts, DebtId, id);
        if current.Some? {
          queue.Add(Update, DebtsTable, StatusChange(id, status));
          debts := Replace(debts, DebtId, id, current.value.(status := status));
        }
      }
    }
  }
}
