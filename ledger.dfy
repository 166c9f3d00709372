/** The server-side tables (members, debts, payments) and the record operations
    of lib/supabase/queries.ts that the debt engine and the stores call. A query
    that selects `.single()` row fails when no row matches; a delete that
    matches nothing succeeds. */
module Database {
  import opened Wrappers
  import opened Dates
  import opened Records

  /** The error a `.single()` query reports when no row matches. */
  const NoRowError: string := "JSON object requested, multiple (or no) rows returned"

  class Ledger {
    var members: map<Id, Member>
    var nextMemberId: Id
    /** The debts table in insertion order; a row's id is its position. */
    var debts: seq<Debt>
    var payments: map<Id, Payment>
    var nextPaymentId: Id

    ghost predicate Valid()
      reads this
    {
      PositionalIds(debts)
      && (forall id :: id in members ==> members[id].id == id && id < nextMemberId)
      && (forall id :: id in payments ==> payments[id].id == id && id < nextPaymentId)
    }

    constructor ()
      ensures Valid()
      ensures members == map[] && debts == [] && payments == map[]
    {
      members := map[];
      nextMemberId := 0;
      debts := [];
      payments := map[];
      nextPaymentId := 0;
    }

    /** `membersQueries.getById`. */
    method GetMember(id: Id) returns (r: Result<Member>)
      ensures r.Ok? <==> id in members
      ensures r.Ok? ==> r.value == members[id]
    {
      if id in members {
        r := Ok(members[id]);
      } else {
        r := Err(NoRowError);
      }
    }

    /** `membersQueries.create`: the row gets a fresh id. */
    method CreateMember(m: Member) returns (saved: Member)
      requires Valid()
      modifies this
      ensures Valid()
      ensures saved == m.(id := old(nextMemberId)) && saved.id !in old(members)
      ensures members == old(members)[saved.id := saved]
      ensures debts == old(debts) && payments == old(payments) && nextPaymentId == old(nextPaymentId)
    {
      saved := m.(id := nextMemberId);
      members := members[saved.id := saved];
      nextMemberId := nextMemberId + 1;
    }

    /** `membersQueries.update`: fails when no member has the id. */
    method UpdateMember(id: Id, patch: MemberPatch) returns (r: Result<Member>)
      requires Valid()
      modifies this
      ensures Valid()
      ensures r.Ok? <==> id in old(members)
      ensures r.Ok? ==> r.value == PatchMember(old(members)[id], patch) && members == old(members)[id := r.value]
      ensures r.Err? ==> members == old(members)
      ensures debts == old(debts) && payments == old(payments)
      ensures nextMemberId == old(nextMemberId) && nextPaymentId == old(nextPaymentId)
    {
      if id in members {
        var updated := PatchMember(members[id], patch);
        members := members[id := updated];
        r := Ok(updated);
      } else {
        r := Err(NoRowError);
      }
    }

    /** `membersQueries.delete`. */
    method DeleteMember(id: Id)
      requires Valid()
      modifies this
      ensures Valid()
      ensures members == old(members) - {id}
      ensures debts == old(debts) && payments == old(payments)
      ensures nextMemberId == old(nextMemberId) && nextPaymentId == old(nextPaymentId)
    {
      members := members - {id};
    }

    /** `debtsQueries.create`: the row is appended and its id is its position. */
    method CreateDebt(d: Debt) returns (saved: Debt)
      requires Valid()
      modifies this
      ensures Valid()
      ensures saved == d.(id := old(|debts|))
      ensures debts == old(debts) + [saved]
      ensures members == old(members) && payments == old(payments)
      ensures nextMemberId == old(nextMemberId) && nextPaymentId == old(nextPaymentId)
    {
      saved := d.(id := |debts|);
      debts := debts + [saved];
    }

    /** `debtsQueries.updateStatus`: fails when no debt has the id. */
    method UpdateDebtStatus(id: Id, status: DebtStatus) returns (r: Result<Debt>)
      requires Valid()
      modifies this
      ensures Valid()
      ensures r.Ok? <==> id < |old(debts)|
      ensures debts == SetStatus(old(debts), id, status)
      ensures r.Ok? ==> r.value == old(debts)[id].(status := status)
      ensures members == old(members) && payments == old(payments)
      ensures nextMemberId == old(nextMemberId) && nextPaymentId == old(nextPaymentId)
    {
      debts := SetStatus(debts, id, status);
      if id < |debts| {
        r := Ok(debts[id]);
      } else {
        r := Err(NoRowError);
      }
    }

    /** `paymentsQueries.create`: the row gets a fresh id. */
    method CreatePayment(p: Payment) returns (saved: Payment)
      requires Valid()
      modifies this
      ensures Valid()
      ensures saved == p.(id := old(nextPaymentId)) && saved.id !in old(payments)
      ensures payments == old(payments)[saved.id := saved]
      ensures members == old(members) && debts == old(debts) && nextMemberId == old(nextMemberId)
    {
      saved := p.(id := nextPaymentId);
      payments := payments[saved.id := saved];
      nextPaymentId := nextPaymentId + 1;
    }

    /** `paymentsQueries.update`: fails when no payment has the id. */
    method UpdatePayment(id: Id, patch: PaymentPatch) returns (r: Result<Payment>)
      requires Valid()
      modifies this
      ensures Valid()
      ensures r.Ok? <==> id in old(payments)
      ensures r.Ok? ==> r.value == PatchPayment(old(payments)[id], patch) && payments == old(payments)[id := r.value]
      ensures r.Err? ==> payments == old(payments)
      ensures members == old(members) && debts == old(debts)
      ensures nextMemberId == old(nextMemberId) && nextPaymentId == old(nextPaymentId)
    {
      if id in payments {
        var updated := PatchPayment(payments[id], patch);
        payments := payments[id := updated];
        r := Ok(updated);
      } else {
        r := Err(NoRowError);
      }
    }

    /** `paymentsQueries.delete`. */
    method DeletePayment(id: Id)
      requires Valid()
      modifies this
      ensures Valid()
      ensures payments == old(payments) - {id}
      ensures members == old(members) && debts == old(debts)
      ensures nextMemberId == old(nextMemberId) && nextPaymentId == old(nextPaymentId)
    {
      payments := payments - {id};
    }
  }
}
