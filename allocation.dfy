/** What `processPayment` (lib/utils/debt-automation.ts) does to the debt table,
    stated as functions: the member's outstanding debts sorted oldest first,
    the walk that settles them with the running remainder, and the table that
    results. The Ledger's ProcessPayment method is proved to produce exactly
    `PaymentEffect`; the lemmas here say what that table means. */
module Allocation {
  import opened Wrappers
  import opened Dates
  import opened Records

  // ---- Oldest first: a stable sort by due date ----

  predicate SortedByDue(q: seq<Debt>)
  {
    forall i, j :: 0 <= i < j < |q| ==> !Before(q[j].dueDate, q[i].dueDate)
  }

  /** Puts `x` after every debt due no later than it, so equal due dates keep their order. */
  function InsertByDue(s: seq<Debt>, x: Debt): (r: seq<Debt>)
    ensures |r| == |s| + 1
    ensures multiset(r) == multiset(s) + multiset{x}
  {
    if s == [] then [x]
    else if Before(x.dueDate, s[0].dueDate) then [x] + s
    else
      assert s == [s[0]] + s[1..];
      [s[0]] + InsertByDue(s[1..], x)
  }

  /** `.sort((a, b) => due(a) - due(b))`: JavaScript's sort is stable, so debts
      with the same due date stay in the order the table lists them. */
  function SortByDue(s: seq<Debt>): (r: seq<Debt>)
    ensures multiset(r) == multiset(s)
  {
    if s == [] then []
    else
      assert s == s[..|s| - 1] + [s[|s| - 1]];
      InsertByDue(SortByDue(s[..|s| - 1]), s[|s| - 1])
  }

  lemma {:induction false} SortByDueSorted(s: seq<Debt>)
    ensures SortedByDue(SortByDue(s))
  {
    if s != [] {
      SortByDueSorted(s[..|s| - 1]);
      InsertByDueSorted(SortByDue(s[..|s| - 1]), s[|s| - 1]);
    }
  }

  lemma {:induction false} InsertByDueSorted(s: seq<Debt>, x: Debt)
    requires SortedByDue(s)
    ensures SortedByDue(InsertByDue(s, x))
  {
    if s != [] && !Before(x.dueDate, s[0].dueDate) {
      InsertByDueSorted(s[1..], x);
      var r := InsertByDue(s, x);
      forall j | 0 < j < |r| ensures !Before(r[j].dueDate, r[0].dueDate) {
        assert r[j] in multiset(InsertByDue(s[1..], x));
      }
    }
  }

  lemma {:induction false} InsertByDueSums(s: seq<Debt>, x: Debt, ids: set<Id>)
    ensures Sum(InsertByDue(s, x)) == Sum(s) + x.amount
    ensures SumIds(InsertByDue(s, x), ids) == SumIds(s, ids) + (if x.id in ids then x.amount else 0)
  {
    if s != [] && !Before(x.dueDate, s[0].dueDate) {
      InsertByDueSums(s[1..], x, ids);
      assert InsertByDue(s, x)[1..] == InsertByDue(s[1..], x);
    } else if s != [] {
      assert ([x] + s)[1..] == s;
    }
  }

  lemma {:induction false} InsertByDueUnique(s: seq<Debt>, x: Debt)
    requires UniqueIds(s) && x.id !in IdSet(s)
    ensures UniqueIds(InsertByDue(s, x))
  {
    var r := InsertByDue(s, x);
    if s != [] && !Before(x.dueDate, s[0].dueDate) {
      InsertByDueUnique(s[1..], x);
      forall j | 0 < j < |r| ensures r[j].id != r[0].id {
        assert r[j] in multiset(InsertByDue(s[1..], x));
        if r[j] != x {
          var k :| 1 <= k < |s| && s[k] == r[j];
        }
      }
    }
  }

  lemma {:induction false} SortByDueSums(s: seq<Debt>, ids: set<Id>)
    ensures Sum(SortByDue(s)) == Sum(s)
    ensures SumIds(SortByDue(s), ids) == SumIds(s, ids)
  {
    if s != [] {
      var init, x := s[..|s| - 1], s[|s| - 1];
      assert s == init + [x];
      SortByDueSums(init, ids);
      InsertByDueSums(SortByDue(init), x, ids);
      SumAppend(init, [x]);
      SumIdsAppend(init, [x], ids);
    }
  }

  lemma {:induction false} SortByDueUnique(s: seq<Debt>)
    requires UniqueIds(s)
    ensures UniqueIds(SortByDue(s))
  {
    if s != [] {
      var init, x := s[..|s| - 1], s[|s| - 1];
      SortByDueUnique(init);
      var sorted := SortByDue(init);
      forall d | d in sorted ensures d.id != x.id {
        assert d in multiset(init);
        var k :| 0 <= k < |init| && init[k] == d;
      }
      InsertByDueUnique(sorted, x);
    }
  }

  /** The table is already read oldest first; sorting it again changes nothing. */
  lemma {:induction false} SortSortedIsIdentity(s: seq<Debt>)
    requires SortedByDue(s)
    ensures SortByDue(s) == s
  {
    if s != [] {
      var init, x := s[..|s| - 1], s[|s| - 1];
      SortSortedIsIdentity(init);
      InsertLastStays(init, x);
    }
  }

  lemma {:induction false} InsertLastStays(s: seq<Debt>, x: Debt)
    requires forall k :: 0 <= k < |s| ==> !Before(x.dueDate, s[k].dueDate)
    ensures InsertByDue(s, x) == s + [x]
  {
    if s != [] {
      InsertLastStays(s[1..], x);
    }
  }

  // ---- The walk over the sorted debts ----

  /** The debts marked `paid`, the new debt for a shortfall (if any), and the
      part of the payment left over when the walk ended. */
  datatype Allocation = Allocation(settled: seq<Debt>, remainder: Option<Debt>, surplus: int)

  function RemainderAmount(a: Allocation): int
  {
    if a.remainder.Some? then a.remainder.value.amount else 0
  }

  /** `${debt.description} (Partial payment remaining)`; a missing description reads "undefined". */
  function PartialDescription(description: Option<string>): Option<string>
  {
    Some((if description.Some? then description.value else "undefined") + " (Partial payment remaining)")
  }

  /** `r` is the pending debt created for what is still owed on `d`. */
  predicate IsRemainderOf(r: Debt, d: Debt, newId: Id)
  {
    r.id == newId && r.memberId == d.memberId && r.dueDate == d.dueDate
    && r.debtType == d.debtType && r.month == d.month && r.year == d.year
    && r.status == Pending && r.description == PartialDescription(d.description)
    && 0 < r.amount < d.amount
  }

  /** The loop of `processPayment` over `queue` with `remaining` still to apply;
      a new debt, if one is needed, gets the id `newId`. */
  function Allocate(queue: seq<Debt>, remaining: int, newId: Id): Allocation
    decreases |queue|
  {
    if queue == [] || remaining <= 0 then Allocation([], None, remaining)
    else if remaining >= queue[0].amount then
      var rest := Allocate(queue[1..], remaining - queue[0].amount, newId);
      Allocation([queue[0]] + rest.settled, rest.remainder, rest.surplus)
    else
      Allocation([queue[0]], Some(RemainderDebt(queue[0], remaining, newId)), 0)
  }

  /** What the walk promises for any queue: the settled debts are a prefix of the
      queue; what they add up to, less the new remainder, is what was applied; a
      positive payment leaves no negative surplus and stops early only when used
      up; and a remainder is the pending rest of the last settled debt. */
  lemma {:induction false} AllocateFacts(queue: seq<Debt>, remaining: int, newId: Id)
    ensures var a := Allocate(queue, remaining, newId);
            a.settled <= queue
            && Sum(a.settled) - RemainderAmount(a) == remaining - a.surplus
            && (remaining <= 0 ==> a == Allocation([], None, remaining))
            && (remaining > 0 ==> a.surplus >= 0)
            && (remaining > 0 && |a.settled| < |queue| ==> a.surplus == 0)
            && (a.remainder.Some? ==>
                  a.settled != [] && a.surplus == 0
                  && IsRemainderOf(a.remainder.value, a.settled[|a.settled| - 1], newId))
    decreases |queue|
  {
    var a := Allocate(queue, remaining, newId);
    if queue != [] && remaining > 0 {
      if remaining >= queue[0].amount {
        var rest := Allocate(queue[1..], remaining - queue[0].amount, newId);
        AllocateFacts(queue[1..], remaining - queue[0].amount, newId);
        assert queue == [queue[0]] + queue[1..];
        assert a.settled[1..] == rest.settled;
        if a.remainder.Some? {
          assert a.settled[|a.settled| - 1] == rest.settled[|rest.settled| - 1];
        }
      } else {
        assert a.settled[1..] == [];
      }
    }
  }

  /** The pending debt created for what `remaining` leaves unpaid of `d`. */
  function RemainderDebt(d: Debt, remaining: int, newId: Id): Debt
  {
    Debt(newId, d.memberId, d.amount - remaining, d.debtType,
         PartialDescription(d.description), d.dueDate, Pending, d.month, d.year)
  }

  /** The walk with `done` already settled in front of it. */
  function Prefixed(done: seq<Debt>, a: Allocation): Allocation
  {
    Allocation(done + a.settled, a.remainder, a.surplus)
  }

  /** One turn of the loop: a debt the remainder covers is settled and the walk goes
      on; the first one it does not cover is settled and split, and the walk ends. */
  lemma AllocateStep(queue: seq<Debt>, i: nat, remaining: int, newId: Id)
    requires i < |queue| && remaining > 0
    ensures remaining >= queue[i].amount ==>
              Prefixed(queue[..i], Allocate(queue[i..], remaining, newId))
              == Prefixed(queue[..i + 1], Allocate(queue[i + 1..], remaining - queue[i].amount, newId))
    ensures remaining < queue[i].amount ==>
              Prefixed(queue[..i], Allocate(queue[i..], remaining, newId))
              == Allocation(queue[..i + 1], Some(RemainderDebt(queue[i], remaining, newId)), 0)
  {
    assert queue[i..][1..] == queue[i + 1..];
    assert queue[..i + 1] == queue[..i] + [queue[i]];
    var rest := Allocate(queue[i + 1..], remaining - queue[i].amount, newId);
    assert queue[..i] + ([queue[i]] + rest.settled) == queue[..i + 1] + rest.settled;
  }

  lemma AllocateStart(queue: seq<Debt>, remaining: int, newId: Id)
    ensures Prefixed(queue[..0], Allocate(queue[0..], remaining, newId)) == Allocate(queue, remaining, newId)
  {
    assert queue[0..] == queue;
    assert queue[..0] + Allocate(queue, remaining, newId).settled == Allocate(queue, remaining, newId).settled;
  }

  /** The walk ends when the queue is exhausted or nothing remains to apply. */
  lemma AllocateStop(queue: seq<Debt>, i: nat, remaining: int, newId: Id)
    requires i <= |queue| && (i == |queue| || remaining <= 0)
    ensures Prefixed(queue[..i], Allocate(queue[i..], remaining, newId)) == Allocation(queue[..i], None, remaining)
  {
    assert queue[..i] + [] == queue[..i];
  }

  /** Marking the next queued debt paid extends the settled prefix by one. */
  lemma SettleNext(ds: seq<Debt>, queue: seq<Debt>, i: nat)
    requires i < |queue|
    ensures SetStatus(MarkPaid(ds, IdSet(queue[..i])), queue[i].id, Paid) == MarkPaid(ds, IdSet(queue[..i + 1]))
  {
    assert queue[..i + 1] == queue[..i] + [queue[i]];
    assert IdSet(queue[..i + 1]) == IdSet(queue[..i]) + {queue[i].id};
    MarkPaidStep(ds, IdSet(queue[..i]), queue[i].id);
  }

  function Min(a: int, b: int): int
  {
    if a <= b then a else b
  }

  lemma {:induction false} SumOfPositives(q: seq<Debt>)
    requires forall d :: d in q ==> d.amount > 0
    ensures Sum(q) >= 0
    ensures q != [] ==> Sum(q) > 0
  {
    if q != [] {
      assert q[0] in q;
      SumOfPositives(q[1..]);
    }
  }

  /** With debts of positive amount, a positive payment settles exactly the smaller
      of itself and the total owed; a payment covering everything settles every debt
      and leaves no remainder. */
  lemma {:induction false} AllocateSettlesMin(queue: seq<Debt>, remaining: int, newId: Id)
    requires remaining > 0
    requires forall d :: d in queue ==> d.amount > 0
    ensures var a := Allocate(queue, remaining, newId);
            Sum(a.settled) - RemainderAmount(a) == Min(remaining, Sum(queue))
            && a.surplus == remaining - Min(remaining, Sum(queue))
            && (remaining >= Sum(queue) ==> a.settled == queue && a.remainder.None?)
  {
    if queue != [] {
      var rest := queue[1..];
      SumOfPositives(rest);
      AllocateFacts(queue, remaining, newId);
      if remaining >= queue[0].amount && remaining - queue[0].amount > 0 {
        AllocateSettlesMin(rest, remaining - queue[0].amount, newId);
      } else if remaining >= queue[0].amount {
        if rest != [] {
          assert rest[0] in queue;
        }
      }
    }
  }

  // ---- The table after a payment ----

  /** The member's outstanding debts in the order `processPayment` settles them. */
  function PaymentQueue(ds: seq<Debt>, m: Id): seq<Debt>
  {
    SortByDue(OutstandingOf(ds, m))
  }

  function RemainderRows(a: Allocation): seq<Debt>
  {
    if a.remainder.Some? then [a.remainder.value] else []
  }

  /** Settled rows marked `paid`, then the remainder row appended by `debtsQueries.create`. */
  function ApplyAllocation(ds: seq<Debt>, a: Allocation): seq<Debt>
  {
    MarkPaid(ds, IdSet(a.settled)) + RemainderRows(a)
  }

  /** The debt table after `processPayment(m, amount, _)` on table `ds`;
      a new row takes the next id, `|ds|`. */
  function PaymentEffect(ds: seq<Debt>, m: Id, amount: int): seq<Debt>
  {
    ApplyAllocation(ds, Allocate(PaymentQueue(ds, m), amount, |ds|))
  }

  /** A payment of zero or less changes no debt. */
  lemma NonPositivePaymentChangesNothing(ds: seq<Debt>, m: Id, amount: int)
    requires amount <= 0
    ensures PaymentEffect(ds, m, amount) == ds
  {
    assert IdSet([]) == {};
    MarkPaidNothing(ds);
  }

  lemma QueueFacts(ds: seq<Debt>, m: Id)
    requires UniqueIds(ds)
    ensures forall d :: d in PaymentQueue(ds, m) <==> d in ds && d.memberId == m && IsOutstanding(d)
    ensures UniqueIds(PaymentQueue(ds, m))
    ensures Sum(PaymentQueue(ds, m)) == OutstandingSum(ds, m)
  {
    var f := OutstandingOf(ds, m);
    OutstandingOfMembers(ds, m);
    forall d ensures d in PaymentQueue(ds, m) <==> d in f {
      assert d in multiset(PaymentQueue(ds, m)) <==> d in multiset(f);
    }
    UniqueOutstandingOf(ds, m);
    SortByDueUnique(f);
    SortByDueSums(f, {});
  }

  lemma PrefixMembers(p: seq<Debt>, q: seq<Debt>)
    requires p <= q
    ensures forall e :: e in p ==> e in q
  {
    forall e | e in p ensures e in q {
      var j :| 0 <= j < |p| && p[j] == e;
      assert q[j] == e;
    }
  }

  /** In a list with unique ids, the ids of a prefix pick out exactly that prefix. */
  lemma PrefixIdsSum(q: seq<Debt>, p: seq<Debt>)
    requires UniqueIds(q) && p <= q
    ensures SumIds(q, IdSet(p)) == Sum(p)
  {
    var rest := q[|p|..];
    assert q == p + rest;
    SumIdsAppend(p, rest, IdSet(p));
    SumIdsAll(p, IdSet(p));
    forall d | d in rest ensures d.id !in IdSet(p) {
      var k :| 0 <= k < |rest| && rest[k] == d;
      assert q[|p| + k] == d;
      forall e | e in p ensures e.id != d.id {
        var j :| 0 <= j < |p| && p[j] == e;
        assert q[j] == e;
      }
    }
    SumIdsNone(rest, IdSet(p));
  }

  /** Conservation: the member's outstanding total drops by exactly what the payment
      settles, the smaller of the payment and what was owed. The surplus of an
      overpayment is not recorded anywhere. */
  lemma PaymentConservation(ds: seq<Debt>, m: Id, amount: int)
    requires UniqueIds(ds)
    requires forall d :: d in ds && d.memberId == m && IsOutstanding(d) ==> d.amount > 0
    ensures OutstandingSum(PaymentEffect(ds, m, amount), m)
         == OutstandingSum(ds, m) - (if amount <= 0 then 0 else Min(amount, OutstandingSum(ds, m)))
  {
    if amount <= 0 {
      NonPositivePaymentChangesNothing(ds, m, amount);
    } else {
      var q := PaymentQueue(ds, m);
      var a := Allocate(q, amount, |ds|);
      var ids := IdSet(a.settled);
      QueueFacts(ds, m);
      AllocateFacts(q, amount, |ds|);
      AllocateSettlesMin(q, amount, |ds|);
      var marked := MarkPaid(ds, ids);
      OutstandingOfAppend(marked, RemainderRows(a), m);
      SumAppend(OutstandingOf(marked, m), OutstandingOf(RemainderRows(a), m));
      MarkPaidOutstanding(ds, ids, m);
      SortByDueSums(OutstandingOf(ds, m), ids);
      PrefixIdsSum(q, a.settled);
      if a.remainder.Some? {
        var last := a.settled[|a.settled| - 1];
        PrefixMembers(a.settled, q);
        assert last in q;
        assert OutstandingOf(RemainderRows(a), m) == [a.remainder.value];
      } else {
        assert OutstandingOf(RemainderRows(a), m) == [];
      }
    }
  }

  /** The payment settles only the member's own debts: every other member's
      outstanding total is unchanged. */
  lemma OtherMembersUnaffected(ds: seq<Debt>, m: Id, amount: int, other: Id)
    requires UniqueIds(ds) && other != m
    ensures OutstandingSum(PaymentEffect(ds, m, amount), other) == OutstandingSum(ds, other)
  {
    var q := PaymentQueue(ds, m);
    var a := Allocate(q, amount, |ds|);
    var ids := IdSet(a.settled);
    QueueFacts(ds, m);
    AllocateFacts(q, amount, |ds|);
    PrefixMembers(a.settled, q);
    var marked := MarkPaid(ds, ids);
    OutstandingOfAppend(marked, RemainderRows(a), other);
    SumAppend(OutstandingOf(marked, other), OutstandingOf(RemainderRows(a), other));
    MarkPaidOutstanding(ds, ids, other);
    OutstandingOfMembers(ds, other);
    forall d | d in OutstandingOf(ds, other) ensures d.id !in ids {
      forall e | e in a.settled ensures e.id != d.id {
        assert e in q;
        if e.id == d.id {
          SameIdSameDebt(ds, d, e);
        }
      }
    }
    SumIdsNone(OutstandingOf(ds, other), ids);
    if a.remainder.Some? {
      assert a.settled[|a.settled| - 1] in q;
      assert OutstandingOf(RemainderRows(a), other) == [];
    } else {
      assert OutstandingOf(RemainderRows(a), other) == [];
    }
  }

  /** Oldest first: the settled debts are a prefix of the member's outstanding
      debts sorted by due date, so no unsettled debt is due before a settled one. */
  lemma OldestFirst(ds: seq<Debt>, m: Id, amount: int)
    ensures var q := PaymentQueue(ds, m);
            var a := Allocate(q, amount, |ds|);
            a.settled <= q
            && forall i, j :: 0 <= i < |a.settled| <= j < |q| ==> !Before(q[j].dueDate, a.settled[i].dueDate)
  {
    var q := PaymentQueue(ds, m);
    var a := Allocate(q, amount, |ds|);
    AllocateFacts(q, amount, |ds|);
    SortByDueSorted(OutstandingOf(ds, m));
    forall i, j | 0 <= i < |a.settled| <= j < |q| ensures !Before(q[j].dueDate, a.settled[i].dueDate) {
      assert a.settled[i] == q[i];
    }
  }

  /** Row by row: each existing debt either keeps every field, or is one of the
      member's outstanding debts that is now `paid` (only the settled ones are);
      at most one row is added, the pending remainder of the last settled debt. */
  lemma PaymentRowChanges(ds: seq<Debt>, m: Id, amount: int)
    requires UniqueIds(ds)
    ensures var q := PaymentQueue(ds, m);
            var a := Allocate(q, amount, |ds|);
            var r := PaymentEffect(ds, m, amount);
            |ds| <= |r| <= |ds| + 1
            && (forall k :: 0 <= k < |ds| ==>
                  if ds[k] in a.settled
                  then r[k] == ds[k].(status := Paid) && ds[k].memberId == m && IsOutstanding(ds[k])
                  else r[k] == ds[k])
            && (|r| == |ds| + 1 <==> a.remainder.Some?)
            && (|r| == |ds| + 1 ==>
                  (r[|ds|] == a.remainder.value
                   && IsRemainderOf(r[|ds|], a.settled[|a.settled| - 1], |ds|)))
  {
    var q := PaymentQueue(ds, m);
    var a := Allocate(q, amount, |ds|);
    QueueFacts(ds, m);
    AllocateFacts(q, amount, |ds|);
    PrefixMembers(a.settled, q);
    MarkPaidAt(ds, IdSet(a.settled));
    forall k | 0 <= k < |ds| && ds[k].id in IdSet(a.settled) ensures ds[k] in a.settled {
      var e := IdSetWitness(a.settled, ds[k].id);
      assert e in q;
      SameIdSameDebt(ds, ds[k], e);
    }
  }
}
