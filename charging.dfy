/** What `generateMonthlyDebts` and `initializeDebtSystem` of
    lib/utils/debt-automation.ts do to the debts table when they walk the active
    members: each run is a fold of the per-member step over the members in the
    order they were visited, and what the run guarantees holds for every order. */
module Charging {
  import opened Dates
  import opened Records
  import opened Generation

  /** The ids of the members the generators charge: `m.status === 'active'`. */
  function ActiveIds(table: map<Id, Member>): set<Id>
  {
    set id | id in table && table[id].status == Active
  }

  function MemberIds(members: seq<Member>): set<Id>
  {
    set m | m in members :: m.id
  }

  predicate DistinctIds(members: seq<Member>)
  {
    forall i, j :: 0 <= i < j < |members| ==> members[i].id != members[j].id
  }

  /** `visited` lists every active member of `table` once, as the table holds it. */
  ghost predicate EnumeratesActive(visited: seq<Member>, table: map<Id, Member>)
  {
    DistinctIds(visited)
    && MemberIds(visited) == ActiveIds(table)
    && forall m :: m in visited ==> m.id in table && table[m.id] == m
  }

  /** The members tables hold the same members, differing at most in `total_debt`. */
  ghost predicate SameExceptTotals(before: map<Id, Member>, after: map<Id, Member>)
  {
    before.Keys == after.Keys
    && forall id :: id in before ==> after[id] == before[id].(totalDebt := after[id].totalDebt)
  }

  lemma MemberIdsWitness(members: seq<Member>, id: Id) returns (m: Member)
    requires id in MemberIds(members)
    ensures m in members && m.id == id
  {
    m :| m in members && m.id == id;
  }

  /** Loop state of a walk over the active members: `visited` lists the ones done,
      `todo` holds the rest. */
  ghost predicate VisitedSoFar(visited: seq<Member>, table: map<Id, Member>, todo: set<Id>)
  {
    todo <= ActiveIds(table)
    && DistinctIds(visited)
    && MemberIds(visited) == ActiveIds(table) - todo
    && forall m :: m in visited ==> m.id in table && table[m.id] == m
  }

  lemma VisitStart(table: map<Id, Member>)
    ensures VisitedSoFar([], table, ActiveIds(table))
  {
  }

  /** Visiting one more member, not visited before, keeps the ids distinct. */
  lemma VisitNext(visited: seq<Member>, table: map<Id, Member>, todo: set<Id>, id: Id)
    requires VisitedSoFar(visited, table, todo) && id in todo && table[id].id == id
    ensures VisitedSoFar(visited + [table[id]], table, todo - {id})
  {
    var m := table[id];
    forall i | 0 <= i < |visited| ensures visited[i].id != id {
      assert visited[i] in visited;
    }
    assert forall x :: x in visited + [m] <==> x in visited || x == m;
    assert MemberIds(visited + [m]) == MemberIds(visited) + {id};
  }

  lemma VisitDone(visited: seq<Member>, table: map<Id, Member>)
    requires VisitedSoFar(visited, table, {})
    ensures EnumeratesActive(visited, table)
  {
  }

  /** In a list with distinct ids, the last member's id is not among the others'. */
  lemma LastIdIsNew(members: seq<Member>)
    requires members != [] && DistinctIds(members)
    ensures members[|members| - 1].id !in MemberIds(members[..|members| - 1])
    ensures DistinctIds(members[..|members| - 1])
  {
    var init := members[..|members| - 1];
    forall m | m in init ensures m.id != members[|members| - 1].id {
      var j :| 0 <= j < |init| && init[j] == m;
      assert members[j] == m;
    }
  }

  // ---- generateMonthlyDebts ----

  /** The debts table after `generateMonthlyDebts` visits `members` in this order in month `ym`. */
  function ChargeMonth(ds: seq<Debt>, members: seq<Member>, ym: YearMonth): seq<Debt>
  {
    if members == [] then ds
    else
      var m := members[|members| - 1];
      AddIfMissing(ChargeMonth(ds, members[..|members| - 1], ym), m.id, m.monthlyDues, ym)
  }

  lemma ChargeMonthSnoc(ds: seq<Debt>, members: seq<Member>, m: Member, ym: YearMonth)
    ensures ChargeMonth(ds, members + [m], ym) == AddIfMissing(ChargeMonth(ds, members, ym), m.id, m.monthlyDues, ym)
  {
    assert (members + [m])[..|members|] == members;
  }

  /** What one run guarantees, in any order of visiting: every visited member has a
      row for the month; nobody else's rows and no other month change; each visited
      member owes its dues more exactly when it had no row; rows stay unique per
      member and month, and ids stay positional. */
  lemma {:induction false} ChargeMonthFacts(ds: seq<Debt>, members: seq<Member>, ym: YearMonth)
    requires DistinctIds(members)
    ensures var r := ChargeMonth(ds, members, ym);
            ds <= r
            && (forall m :: m in members ==> HasMonthlyDebt(r, m.id, ym))
            && (forall id, x :: id !in MemberIds(members) || x != ym ==>
                  (HasMonthlyDebt(r, id, x) <==> HasMonthlyDebt(ds, id, x)))
            && (forall id :: id !in MemberIds(members) ==> OutstandingSum(r, id) == OutstandingSum(ds, id))
            && (forall m :: m in members ==>
                  OutstandingSum(r, m.id)
                  == OutstandingSum(ds, m.id) + (if HasMonthlyDebt(ds, m.id, ym) then 0 else m.monthlyDues))
            && (UniqueMonthlySlots(ds) ==> UniqueMonthlySlots(r))
            && (PositionalIds(ds) ==> PositionalIds(r))
  {
    if members != [] {
      var init := members[..|members| - 1];
      var last := members[|members| - 1];
      var mid := ChargeMonth(ds, init, ym);
      var r := AddIfMissing(mid, last.id, last.monthlyDues, ym);
      assert members == init + [last];
      LastIdIsNew(members);
      ChargeMonthFacts(ds, init, ym);
      AddIfMissingFacts(mid, last.id, last.monthlyDues, ym);
      forall m | m in members
        ensures HasMonthlyDebt(r, m.id, ym)
        ensures OutstandingSum(r, m.id)
                == OutstandingSum(ds, m.id) + (if HasMonthlyDebt(ds, m.id, ym) then 0 else m.monthlyDues)
      {
        if m != last {
          assert m in init;
          assert m.id in MemberIds(init);
          var e :| e in mid && IsMonthlySlot(e, m.id, ym);
          assert e in r;
        }
      }
    }
  }

  /** Every row a run adds, row `k` say, is the month's pending dues of a visited
      member that had no row for the month; `m` is that member. */
  lemma {:induction false} ChargeMonthRowAt(ds: seq<Debt>, members: seq<Member>, ym: YearMonth, k: int) returns (m: Member)
    requires DistinctIds(members)
    requires |ds| <= k < |ChargeMonth(ds, members, ym)|
    ensures m in members && !HasMonthlyDebt(ds, m.id, ym)
    ensures ChargeMonth(ds, members, ym)[k] == MonthlyDebt(k, m.id, m.monthlyDues, ym)
    decreases |members|
  {
    assert members != [];
    var init := members[..|members| - 1];
    var last := members[|members| - 1];
    var mid := ChargeMonth(ds, init, ym);
    var r := ChargeMonth(ds, members, ym);
    assert members == init + [last];
    assert r == AddIfMissing(mid, last.id, last.monthlyDues, ym);
    if k < |mid| {
      m := ChargeMonthRowAt(ds, init, ym, k);
      assert r[k] == mid[k];
    } else {
      assert !HasMonthlyDebt(mid, last.id, ym);
      assert r[k] == MonthlyDebt(k, last.id, last.monthlyDues, ym);
      LastIdIsNew(members);
      assert !HasMonthlyDebt(ds, last.id, ym) by {
        ChargeMonthFacts(ds, init, ym);
      }
      m := last;
    }
  }

  /** A run over members who all have their row already adds nothing. */
  lemma {:induction false} ChargeMonthKeepsCompleteTable(ds: seq<Debt>, members: seq<Member>, ym: YearMonth)
    requires forall m :: m in members ==> HasMonthlyDebt(ds, m.id, ym)
    ensures ChargeMonth(ds, members, ym) == ds
  {
    if members != [] {
      ChargeMonthKeepsCompleteTable(ds, members[..|members| - 1], ym);
      assert members[|members| - 1] in members;
    }
  }

  /** `generateMonthlyDebts` in terms of the members table: the active members get
      the month's dues exactly when they had no row for it, and nothing else changes. */
  lemma MonthlyGenerationCharges(ds: seq<Debt>, table: map<Id, Member>, visited: seq<Member>, ym: YearMonth)
    requires EnumeratesActive(visited, table)
    ensures var r := ChargeMonth(ds, visited, ym);
            ds <= r
            && (forall id :: id in ActiveIds(table) ==> HasMonthlyDebt(r, id, ym))
            && (forall id, x :: id !in ActiveIds(table) || x != ym ==>
                  (HasMonthlyDebt(r, id, x) <==> HasMonthlyDebt(ds, id, x)))
            && (forall id :: OutstandingSum(r, id)
                  == OutstandingSum(ds, id)
                     + (if id in ActiveIds(table) && !HasMonthlyDebt(ds, id, ym) then table[id].monthlyDues else 0))
            && (UniqueMonthlySlots(ds) ==> UniqueMonthlySlots(r))
  {
    var r := ChargeMonth(ds, visited, ym);
    ChargeMonthFacts(ds, visited, ym);
    forall id | id in ActiveIds(table)
      ensures HasMonthlyDebt(r, id, ym)
      ensures OutstandingSum(r, id)
              == OutstandingSum(ds, id) + (if HasMonthlyDebt(ds, id, ym) then 0 else table[id].monthlyDues)
    {
      var m := MemberIdsWitness(visited, id);
    }
  }

  /** A run in which every active member already had a row changes nothing, and
      every added row is the dues of an active member that had none. */
  lemma MonthlyGenerationAddsOnlyMissing(ds: seq<Debt>, table: map<Id, Member>, visited: seq<Member>, ym: YearMonth)
    requires EnumeratesActive(visited, table)
    ensures var r := ChargeMonth(ds, visited, ym);
            ((forall id :: id in ActiveIds(table) ==> HasMonthlyDebt(ds, id, ym)) ==> r == ds)
            && forall k :: |ds| <= k < |r| ==>
                 exists id :: id in ActiveIds(table) && !HasMonthlyDebt(ds, id, ym)
                              && r[k] == MonthlyDebt(k, id, table[id].monthlyDues, ym)
  {
    var r := ChargeMonth(ds, visited, ym);
    if forall id :: id in ActiveIds(table) ==> HasMonthlyDebt(ds, id, ym) {
      forall m | m in visited ensures HasMonthlyDebt(ds, m.id, ym) {
        assert m.id in MemberIds(visited);
      }
      ChargeMonthKeepsCompleteTable(ds, visited, ym);
    }
    forall k | |ds| <= k < |r|
      ensures exists id :: id in ActiveIds(table) && !HasMonthlyDebt(ds, id, ym)
                           && r[k] == MonthlyDebt(k, id, table[id].monthlyDues, ym)
    {
      var m := ChargeMonthRowAt(ds, visited, ym, k);
      assert m.id in MemberIds(visited);
    }
  }

  /** Generation is idempotent: a second run in the same month, whatever order it
      visits the members in, creates nothing. */
  lemma MonthlyGenerationIdempotent(ds: seq<Debt>, table: map<Id, Member>, first: seq<Member>, second: seq<Member>, ym: YearMonth)
    requires EnumeratesActive(first, table) && EnumeratesActive(second, table)
    ensures ChargeMonth(ChargeMonth(ds, first, ym), second, ym) == ChargeMonth(ds, first, ym)
  {
    var r := ChargeMonth(ds, first, ym);
    MonthlyGenerationCharges(ds, table, first, ym);
    forall m | m in second ensures HasMonthlyDebt(r, m.id, ym) {
      assert m.id in MemberIds(second);
    }
    ChargeMonthKeepsCompleteTable(r, second, ym);
  }

  // ---- initializeDebtSystem ----

  /** The months `generateHistoricalDebts` charges a member for at time `now`. */
  function HistoryOf(m: Member, now: Moment): seq<YearMonth>
  {
    HistoryMonths(MonthOf(m.joinDate), MonthOf(now.date))
  }

  /** The debts table after `generateHistoricalDebts` for each of `members`, in order. */
  function BackfillMembers(ds: seq<Debt>, members: seq<Member>, now: Moment): seq<Debt>
  {
    if members == [] then ds
    else
      var m := members[|members| - 1];
      Backfill(BackfillMembers(ds, members[..|members| - 1], now), m.id, m.monthlyDues, HistoryOf(m, now))
  }

  lemma BackfillMembersSnoc(ds: seq<Debt>, members: seq<Member>, m: Member, now: Moment)
    ensures BackfillMembers(ds, members + [m], now)
            == Backfill(BackfillMembers(ds, members, now), m.id, m.monthlyDues, HistoryOf(m, now))
  {
    assert (members + [m])[..|members|] == members;
  }

  /** What initialisation guarantees, in any order of visiting: each visited member
      has a row for every month of its history; nobody else's rows or totals change;
      rows stay unique per member and month, and ids stay positional. */
  lemma {:induction false} BackfillMembersFacts(ds: seq<Debt>, members: seq<Member>, now: Moment)
    requires DistinctIds(members)
    ensures var r := BackfillMembers(ds, members, now);
            ds <= r
            && (forall m, ym :: m in members && ym in HistoryOf(m, now) ==> HasMonthlyDebt(r, m.id, ym))
            && (forall id, x :: id !in MemberIds(members) ==> (HasMonthlyDebt(r, id, x) <==> HasMonthlyDebt(ds, id, x)))
            && (forall id :: id !in MemberIds(members) ==> OutstandingSum(r, id) == OutstandingSum(ds, id))
            && (UniqueMonthlySlots(ds) ==> UniqueMonthlySlots(r))
            && (PositionalIds(ds) ==> PositionalIds(r))
  {
    if members != [] {
      var init := members[..|members| - 1];
      var last := members[|members| - 1];
      var mid := BackfillMembers(ds, init, now);
      var r := Backfill(mid, last.id, last.monthlyDues, HistoryOf(last, now));
      assert members == init + [last];
      LastIdIsNew(members);
      BackfillMembersFacts(ds, init, now);
      BackfillFacts(mid, last.id, last.monthlyDues, HistoryOf(last, now));
      forall m, ym | m in members && ym in HistoryOf(m, now) ensures HasMonthlyDebt(r, m.id, ym) {
        if m != last {
          assert m in init;
          assert m.id in MemberIds(init);
        }
      }
    }
  }

  /** A table that already has every visited member's history is left as it is. */
  lemma {:induction false} BackfillMembersKeepsCompleteTable(ds: seq<Debt>, members: seq<Member>, now: Moment)
    requires forall m, ym :: m in members && ym in HistoryOf(m, now) ==> HasMonthlyDebt(ds, m.id, ym)
    ensures BackfillMembers(ds, members, now) == ds
  {
    if members != [] {
      var last := members[|members| - 1];
      BackfillMembersKeepsCompleteTable(ds, members[..|members| - 1], now);
      assert last in members;
      BackfillKeepsCompleteTable(ds, last.id, last.monthlyDues, HistoryOf(last, now));
    }
  }

  /** Initialisation is idempotent: running it again at the same time, over a members
      table that differs only in stored totals and in any order, creates nothing. */
  lemma InitializationIdempotent(ds: seq<Debt>, t1: map<Id, Member>, t2: map<Id, Member>,
                                 first: seq<Member>, second: seq<Member>, now: Moment)
    requires EnumeratesActive(first, t1) && EnumeratesActive(second, t2) && SameExceptTotals(t1, t2)
    ensures BackfillMembers(BackfillMembers(ds, first, now), second, now) == BackfillMembers(ds, first, now)
  {
    var r := BackfillMembers(ds, first, now);
    BackfillMembersFacts(ds, first, now);
    forall m, ym | m in second && ym in HistoryOf(m, now) ensures HasMonthlyDebt(r, m.id, ym) {
      assert m.id in MemberIds(second);
      assert m.id in ActiveIds(t1);
      var m1 := MemberIdsWitness(first, m.id);
      assert m1.joinDate == m.joinDate;
    }
    BackfillMembersKeepsCompleteTable(r, second, now);
  }
}
