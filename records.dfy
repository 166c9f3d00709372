/** The records of types/app.ts and the facts about debt tables that the
    engine and the stores share: what "outstanding" means, the sums over it,
    and the status updates the record store performs. */
module Records {
  import opened Wrappers
  import opened Dates

  type Id = nat

  datatype MemberStatus = Active | Inactive
  datatype DebtStatus = Pending | Overdue | Paid
  datatype DebtType = MonthlyDues | Custom | LateFee

  datatype Member = Member(
    id: Id, name: string, phone: Option<string>, address: Option<string>,
    status: MemberStatus, joinDate: Date, monthlyDues: int, totalDebt: int)

  datatype Debt = Debt(
    id: Id, memberId: Id, amount: int, debtType: DebtType, description: Option<string>,
    dueDate: Date, status: DebtStatus, month: int, year: int)

  datatype Payment = Payment(
    id: Id, memberId: Id, amount: int, paymentDate: Date, month: int, year: int,
    notes: Option<string>, receiptNumber: Option<string>)

  /** `Partial<Member>`: the fields an update sets; an absent field is left alone. */
  datatype MemberPatch = MemberPatch(
    name: Option<string>, phone: Option<string>, address: Option<string>,
    status: Option<MemberStatus>, joinDate: Option<Date>, monthlyDues: Option<int>,
    totalDebt: Option<int>)

  /** `Partial<Payment>`. */
  datatype PaymentPatch = PaymentPatch(
    memberId: Option<Id>, amount: Option<int>, paymentDate: Option<Date>,
    month: Option<int>, year: Option<int>, notes: Option<string>, receiptNumber: Option<string>)

  function Pick<T>(o: Option<T>, current: T): T
  {
    if o.Some? then o.value else current
  }

  /** `{ ...m, ...patch }`, keeping the id: a field the patch sets takes the patch's
      value, and a field it leaves out keeps the row's. */
  function PatchMember(m: Member, p: MemberPatch): (r: Member)
    ensures r.id == m.id
    ensures r.name == if p.name.Some? then p.name.value else m.name
    ensures r.phone == if p.phone.Some? then p.phone else m.phone
    ensures r.address == if p.address.Some? then p.address else m.address
    ensures r.status == if p.status.Some? then p.status.value else m.status
    ensures r.joinDate == if p.joinDate.Some? then p.joinDate.value else m.joinDate
    ensures r.monthlyDues == if p.monthlyDues.Some? then p.monthlyDues.value else m.monthlyDues
    ensures r.totalDebt == if p.totalDebt.Some? then p.totalDebt.value else m.totalDebt
  {
    m.(name := Pick(p.name, m.name), phone := if p.phone.Some? then p.phone else m.phone,
       address := if p.address.Some? then p.address else m.address,
       status := Pick(p.status, m.status), joinDate := Pick(p.joinDate, m.joinDate),
       monthlyDues := Pick(p.monthlyDues, m.monthlyDues), totalDebt := Pick(p.totalDebt, m.totalDebt))
  }

  /** `{ ...pay, ...patch }`, keeping the id: a field the patch sets takes the patch's
      value, and a field it leaves out keeps the row's. */
  function PatchPayment(pay: Payment, p: PaymentPatch): (r: Payment)
    ensures r.id == pay.id
    ensures r.memberId == if p.memberId.Some? then p.memberId.value else pay.memberId
    ensures r.amount == if p.amount.Some? then p.amount.value else pay.amount
    ensures r.paymentDate == if p.paymentDate.Some? then p.paymentDate.value else pay.paymentDate
    ensures r.month == if p.month.Some? then p.month.value else pay.month
    ensures r.year == if p.year.Some? then p.year.value else pay.year
    ensures r.notes == if p.notes.Some? then p.notes else pay.notes
    ensures r.receiptNumber == if p.receiptNumber.Some? then p.receiptNumber else pay.receiptNumber
  {
    pay.(memberId := Pick(p.memberId, pay.memberId), amount := Pick(p.amount, pay.amount),
         paymentDate := Pick(p.paymentDate, pay.paymentDate), month := Pick(p.month, pay.month),
         year := Pick(p.year, pay.year), notes := if p.notes.Some? then p.notes else pay.notes,
         receiptNumber := if p.receiptNumber.Some? then p.receiptNumber else pay.receiptNumber)
  }

  /** `{ ...p, ...q }` on two patches: the later patch wins where both set a field. */
  function Or<T>(later: Option<T>, earlier: Option<T>): Option<T>
  {
    if later.Some? then later else earlier
  }
  function MergeMemberPatches(p: MemberPatch, q: MemberPatch): MemberPatch
  {
    MemberPatch(Or(q.name, p.name), Or(q.phone, p.phone), Or(q.address, p.address),
                Or(q.status, p.status), Or(q.joinDate, p.joinDate),
                Or(q.monthlyDues, p.monthlyDues), Or(q.totalDebt, p.totalDebt))
  }
  function MergePaymentPatches(p: PaymentPatch, q: PaymentPatch): PaymentPatch
  {
    PaymentPatch(Or(q.memberId, p.memberId), Or(q.amount, p.amount), Or(q.paymentDate, p.paymentDate),
                 Or(q.month, p.month), Or(q.year, p.year), Or(q.notes, p.notes),
                 Or(q.receiptNumber, p.receiptNumber))
  }

  /** An empty patch leaves the row as it is. */
  lemma EmptyPatchesKeepRows(m: Member, pay: Payment)
    ensures PatchMember(m, MemberPatch(None, None, None, None, None, None, None)) == m
    ensures PatchPayment(pay, PaymentPatch(None, None, None, None, None, None, None)) == pay
  {
  }

  /** Two updates in a row are one update with the merged patch. */
  lemma PatchesCompose(m: Member, p: MemberPatch, q: MemberPatch, pay: Payment, pp: PaymentPatch, pq: PaymentPatch)
    ensures PatchMember(PatchMember(m, p), q) == PatchMember(m, MergeMemberPatches(p, q))
    ensures PatchPayment(PatchPayment(pay, pp), pq) == PatchPayment(pay, MergePaymentPatches(pp, pq))
  {
  }

  // ---- Operations queued while offline (OfflineOperation in types/app.ts) ----

  datatype OpKind = Create | Update | Delete
  datatype TableName = MembersTable | PaymentsTable | DebtsTable

  datatype OpData =
    | NewDebt(debt: Debt)
    | StatusChange(debtId: Id, status: DebtStatus)
    | NewPayment(payment: Payment, needsDebtProcessing: bool)
    | PaymentChange(paymentId: Id, paymentPatch: PaymentPatch)
    | NewMember(member: Member)
    | MemberChange(memberId: Id, memberPatch: MemberPatch)
    | Removal(removedId: Id)

  datatype OfflineOperation = OfflineOperation(kind: OpKind, table: TableName, data: OpData)

  // ---- Outstanding debt ----

  /** A debt still owed: `pending` or `overdue`. */
  predicate IsOutstanding(d: Debt)
  {
    d.status == Pending || d.status == Overdue
  }

  function Sum(ds: seq<Debt>): int
  {
    if ds == [] then 0 else ds[0].amount + Sum(ds[1..])
  }

  /** The member's outstanding debts, in table order. */
  function OutstandingOf(ds: seq<Debt>, m: Id): (r: seq<Debt>)
    ensures |r| <= |ds|
  {
    if ds == [] then []
    else if ds[0].memberId == m && IsOutstanding(ds[0]) then [ds[0]] + OutstandingOf(ds[1..], m)
    else OutstandingOf(ds[1..], m)
  }

  /** The member's outstanding debts are exactly its pending and overdue rows. */
  lemma {:induction false} OutstandingOfMembers(ds: seq<Debt>, m: Id)
    ensures forall d :: d in OutstandingOf(ds, m) <==> d in ds && d.memberId == m && IsOutstanding(d)
  {
    if ds != [] {
      OutstandingOfMembers(ds[1..], m);
      assert ds == [ds[0]] + ds[1..];
    }
  }

  /** What `updateMemberTotalDebt` stores as the member's `total_debt`. */
  function OutstandingSum(ds: seq<Debt>, m: Id): int
  {
    Sum(OutstandingOf(ds, m))
  }

  /** Every outstanding debt, in table order. */
  function AllOutstanding(ds: seq<Debt>): (r: seq<Debt>)
    ensures |r| <= |ds|
    ensures forall d :: d in r <==> d in ds && IsOutstanding(d)
  {
    if ds == [] then []
    else if IsOutstanding(ds[0]) then [ds[0]] + AllOutstanding(ds[1..])
    else AllOutstanding(ds[1..])
  }

  /** `getTotalOutstanding` of lib/stores/debts.ts. */
  function TotalOutstanding(ds: seq<Debt>): int
  {
    Sum(AllOutstanding(ds))
  }

  /** The sum of the amounts of the debts whose id lies in `ids`. */
  function SumIds(ds: seq<Debt>, ids: set<Id>): int
  {
    if ds == [] then 0 else (if ds[0].id in ids then ds[0].amount else 0) + SumIds(ds[1..], ids)
  }

  function IdSet(ds: seq<Debt>): (r: set<Id>)
    ensures forall d :: d in ds ==> d.id in r
  {
    set d | d in ds :: d.id
  }

  /** Every id in `IdSet(ds)` belongs to a debt of `ds`. */
  lemma IdSetWitness(ds: seq<Debt>, id: Id) returns (d: Debt)
    requires id in IdSet(ds)
    ensures d in ds && d.id == id
  {
    d :| d in ds && d.id == id;
  }

  /** Row ids are table positions, so a new row's id is the table's length. */
  predicate PositionalIds(ds: seq<Debt>)
  {
    forall k :: 0 <= k < |ds| ==> ds[k].id == k
  }

  predicate UniqueIds(ds: seq<Debt>)
  {
    forall i, j :: 0 <= i < j < |ds| ==> ds[i].id != ds[j].id
  }

  /** `debtsQueries.updateStatus(id, status)`: every row with that id gets the status. */
  function SetStatus(ds: seq<Debt>, id: Id, status: DebtStatus): (r: seq<Debt>)
    ensures |r| == |ds|
    ensures forall k :: 0 <= k < |ds| ==> r[k] == if ds[k].id == id then ds[k].(status := status) else ds[k]
  {
    if ds == [] then [] else [if ds[0].id == id then ds[0].(status := status) else ds[0]] + SetStatus(ds[1..], id, status)
  }

  /** Every row whose id is in `ids` marked `paid`. */
  function MarkPaid(ds: seq<Debt>, ids: set<Id>): (r: seq<Debt>)
    ensures |r| == |ds|
  {
    if ds == [] then [] else [if ds[0].id in ids then ds[0].(status := Paid) else ds[0]] + MarkPaid(ds[1..], ids)
  }

  /** Row by row, `MarkPaid` marks exactly the rows whose id is in `ids`. */
  lemma {:induction false} MarkPaidAt(ds: seq<Debt>, ids: set<Id>)
    ensures forall k :: 0 <= k < |ds| ==> MarkPaid(ds, ids)[k] == if ds[k].id in ids then ds[k].(status := Paid) else ds[k]
  {
    if ds != [] {
      MarkPaidAt(ds[1..], ids);
    }
  }

  // ---- Lemmas about sums and filters ----

  lemma {:induction false} SumAppend(a: seq<Debt>, b: seq<Debt>)
    ensures Sum(a + b) == Sum(a) + Sum(b)
  {
    if a != [] {
      assert (a + b)[1..] == a[1..] + b;
      SumAppend(a[1..], b);
    } else {
      assert a + b == b;
    }
  }

  lemma {:induction false} SumIdsAppend(a: seq<Debt>, b: seq<Debt>, ids: set<Id>)
    ensures SumIds(a + b, ids) == SumIds(a, ids) + SumIds(b, ids)
  {
    if a != [] {
      assert (a + b)[1..] == a[1..] + b;
      SumIdsAppend(a[1..], b, ids);
    } else {
      assert a + b == b;
    }
  }

  lemma {:induction false} OutstandingOfAppend(a: seq<Debt>, b: seq<Debt>, m: Id)
    ensures OutstandingOf(a + b, m) == OutstandingOf(a, m) + OutstandingOf(b, m)
  {
    if a != [] {
      assert (a + b)[1..] == a[1..] + b;
      OutstandingOfAppend(a[1..], b, m);
    } else {
      assert a + b == b;
    }
  }

  lemma {:induction false} AllOutstandingAppend(a: seq<Debt>, b: seq<Debt>)
    ensures AllOutstanding(a + b) == AllOutstanding(a) + AllOutstanding(b)
  {
    if a != [] {
      assert (a + b)[1..] == a[1..] + b;
      AllOutstandingAppend(a[1..], b);
    } else {
      assert a + b == b;
    }
  }

  /** Appending one debt adds its amount to its member's outstanding sum when it is owed. */
  lemma OutstandingSumSnoc(ds: seq<Debt>, d: Debt, m: Id)
    ensures OutstandingSum(ds + [d], m)
         == OutstandingSum(ds, m) + (if d.memberId == m && IsOutstanding(d) then d.amount else 0)
  {
    OutstandingOfAppend(ds, [d], m);
    assert OutstandingOf([d], m) == if d.memberId == m && IsOutstanding(d) then [d] else [];
    SumAppend(OutstandingOf(ds, m), OutstandingOf([d], m));
  }

  /** Marking debts paid lowers a member's outstanding sum by exactly the amounts
      of the member's outstanding debts that were marked. */
  lemma {:induction false} MarkPaidOutstanding(ds: seq<Debt>, ids: set<Id>, m: Id)
    ensures OutstandingSum(MarkPaid(ds, ids), m) == OutstandingSum(ds, m) - SumIds(OutstandingOf(ds, m), ids)
  {
    if ds != [] {
      MarkPaidOutstanding(ds[1..], ids, m);
      assert MarkPaid(ds, ids)[1..] == MarkPaid(ds[1..], ids);
    }
  }

  lemma {:induction false} SumIdsNone(ds: seq<Debt>, ids: set<Id>)
    requires forall d :: d in ds ==> d.id !in ids
    ensures SumIds(ds, ids) == 0
  {
    if ds != [] {
      assert ds[0] in ds;
      SumIdsNone(ds[1..], ids);
    }
  }

  lemma {:induction false} SumIdsAll(ds: seq<Debt>, ids: set<Id>)
    requires forall d :: d in ds ==> d.id in ids
    ensures SumIds(ds, ids) == Sum(ds)
  {
    if ds != [] {
      assert ds[0] in ds;
      SumIdsAll(ds[1..], ids);
    }
  }

  lemma {:induction false} MarkPaidNothing(ds: seq<Debt>)
    ensures MarkPaid(ds, {}) == ds
  {
    if ds != [] {
      MarkPaidNothing(ds[1..]);
    }
  }

  /** Marking one more id paid, one call at a time, is marking the larger set. */
  lemma MarkPaidStep(ds: seq<Debt>, ids: set<Id>, id: Id)
    ensures SetStatus(MarkPaid(ds, ids), id, Paid) == MarkPaid(ds, ids + {id})
  {
  }

  lemma {:induction false} UniqueOutstandingOf(ds: seq<Debt>, m: Id)
    requires UniqueIds(ds)
    ensures UniqueIds(OutstandingOf(ds, m))
  {
    if ds != [] {
      UniqueOutstandingOf(ds[1..], m);
      var tail := OutstandingOf(ds[1..], m);
      OutstandingOfMembers(ds[1..], m);
      forall d | d in tail ensures d.id != ds[0].id {
        var k :| 0 <= k < |ds[1..]| && ds[1..][k] == d;
        assert ds[k + 1] == d;
      }
    }
  }

  lemma PositionalIdsAreUnique(ds: seq<Debt>)
    requires PositionalIds(ds)
    ensures UniqueIds(ds)
  {
  }

  /** With unique ids, two debts of a table that share an id are the same debt. */
  lemma SameIdSameDebt(ds: seq<Debt>, x: Debt, y: Debt)
    requires UniqueIds(ds) && x in ds && y in ds && x.id == y.id
    ensures x == y
  {
  }
}
