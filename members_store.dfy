/** lib/stores/members.ts: the client's cached member list, its search and the
    debt refresh. A member added online is saved, given a monthly-dues debt for
    every month since joining and has its total recomputed; offline it is listed
    under a local id and its creation queued. */
module MembersStore {
  import opened Wrappers
  import opened Text
  import opened Dates
  import opened Records
  import opened Lists
  import opened Offline
  import opened Database
  import opened Generation
  import opened Charging
  import opened DebtAutomation

  const UpdateMemberError: string := "Failed to update member. Please try again."

  function MemberId(m: Member): Id
  {
    m.id
  }

  /** The record `addMember` saves: monthly dues of 0 (falsy) become the standard
      dues, and the stored total starts at 0. */
  function WithDefaults(data: Member): (r: Member)
    ensures r == data.(monthlyDues := r.monthlyDues, totalDebt := 0)
    ensures r.monthlyDues != 0
    ensures data.monthlyDues != 0 ==> r.monthlyDues == data.monthlyDues
    ensures data.monthlyDues == 0 ==> r.monthlyDues == MonthlyDuesAmount
  {
    data.(monthlyDues := if data.monthlyDues != 0 then data.monthlyDues else MonthlyDuesAmount, totalDebt := 0)
  }

  // ---- Selectors ----

  /** `field?.toLowerCase().includes(q)`: an absent field never matches. */
  predicate FieldMatches(field: Option<string>, q: string)
  {
    field.Some? && Includes(ToLower(field.value), q)
  }

  predicate MatchesQuery(m: Member, query: string)
  {
    var q := ToLower(query);
    Includes(ToLower(m.name), q) || FieldMatches(m.phone, q) || FieldMatches(m.address, q)
  }

  function MembersMatching(ms: seq<Member>, query: string): (r: seq<Member>)
    ensures |r| <= |ms|
    ensures forall m :: m in r <==> m in ms && MatchesQuery(m, query)
  {
    if ms == [] then []
    else if MatchesQuery(ms[0], query) then [ms[0]] + MembersMatching(ms[1..], query)
    else MembersMatching(ms[1..], query)
  }

  /** `useFilteredMembers`: an empty query shows every member. */
  function FilteredMembers(ms: seq<Member>, query: string): seq<Member>
  {
    if query == "" then ms else MembersMatching(ms, query)
  }

  /** The empty-query shortcut agrees with the filter itself, since every name
      contains the empty string; and the search ignores ASCII case. */
  lemma {:induction false} SearchIgnoresCase(ms: seq<Member>, query: string)
    ensures FilteredMembers(ms, query) == MembersMatching(ms, query)
    ensures FilteredMembers(ms, query) == FilteredMembers(ms, ToLower(query)) || query == ""
  {
    if ms != [] {
      SearchIgnoresCase(ms[1..], query);
      assert OccursAt(ToLower(ms[0].name), ToLower(query), 0) || query != "";
      assert ms == [ms[0]] + ms[1..];
    }
    var lowered := ToLower(query);
    assert ToLower(lowered) == lowered;
    if query != "" {
      assert lowered != "";
      LoweredQueryMatchesSame(ms, query);
    }
  }

  lemma {:induction false} LoweredQueryMatchesSame(ms: seq<Member>, query: string)
    ensures MembersMatching(ms, query) == MembersMatching(ms, ToLower(query))
  {
    assert ToLower(ToLower(query)) == ToLower(query);
    if ms != [] {
      LoweredQueryMatchesSame(ms[1..], query);
    }
  }

  /** `useActiveMembers`: the members whose status is active, in order. */
  function ActiveMembers(ms: seq<Member>): (r: seq<Member>)
    ensures |r| <= |ms|
    ensures forall m :: m in r <==> m in ms && m.status == Active
  {
    if ms == [] then []
    else if ms[0].status == Active then [ms[0]] + ActiveMembers(ms[1..])
    else ActiveMembers(ms[1..])
  }

  // ---- The debt refresh ----

  function IdsOf(ms: seq<Member>): set<Id>
  {
    set m | m in ms :: m.id
  }

  /** The list `refreshMemberDebts` builds: each member as the server now has it, or
      as it was when the server has no such member. */
  function Refreshed(list: seq<Member>, server: map<Id, Member>): (r: seq<Member>)
    ensures |r| == |list|
    ensures forall k :: 0 <= k < |list| ==> r[k] == if list[k].id in server then server[list[k].id] else list[k]
  {
    if list == [] then []
    else
      var last := list[|list| - 1];
      Refreshed(list[..|list| - 1], server) + [if last.id in server then server[last.id] else last]
  }

  /** The refresh loop's state after the members of `prefix`: their totals are
      recorded and `updated` lists them as the server now has them. */
  ghost predicate RefreshedSoFar(table: map<Id, Member>, current: map<Id, Member>, ds: seq<Debt>,
                                 prefix: seq<Member>, updated: seq<Member>)
  {
    TotalsRecordedFor(table, current, ds, IdsOf(prefix)) && updated == Refreshed(prefix, current)
  }

  /** Recording the next member's total leaves the members already refreshed as they
      were listed, even when the same member appears twice. */
  lemma RefreshedKeepsPrefix(table: map<Id, Member>, current: map<Id, Member>, ds: seq<Debt>, prefix: seq<Member>, m: Member)
    requires TotalsRecordedFor(table, current, ds, IdsOf(prefix))
    ensures Refreshed(prefix, RecordTotal(current, ds, m.id)) == Refreshed(prefix, current)
  {
    var after := RecordTotal(current, ds, m.id);
    forall k | 0 <= k < |prefix| ensures Refreshed(prefix, after)[k] == Refreshed(prefix, current)[k] {
      assert prefix[k] in prefix;
    }
  }

  /** One step of the refresh: one more total recorded, one more row listed. */
  lemma RefreshStep(table: map<Id, Member>, current: map<Id, Member>, ds: seq<Debt>,
                    prefix: seq<Member>, updated: seq<Member>, m: Member)
    requires RefreshedSoFar(table, current, ds, prefix, updated)
    ensures var after := RecordTotal(current, ds, m.id);
            RefreshedSoFar(table, after, ds, prefix + [m], updated + [if m.id in after then after[m.id] else m])
  {
    var after := RecordTotal(current, ds, m.id);
    assert IdsOf(prefix + [m]) == IdsOf(prefix) + {m.id};
    assert (prefix + [m])[..|prefix|] == prefix;
    RefreshedKeepsPrefix(table, current, ds, prefix, m);
  }

  /** After the refresh every listed member the server knows shows its outstanding
      total, and nothing else about it changed. */
  lemma RefreshedTotalsAgree(table: map<Id, Member>, current: map<Id, Member>, ds: seq<Debt>, list: seq<Member>)
    requires TotalsRecordedFor(table, current, ds, IdsOf(list))
    ensures forall k :: 0 <= k < |list| && list[k].id in table ==>
              Refreshed(list, current)[k] == table[list[k].id].(totalDebt := OutstandingSum(ds, list[k].id))
  {
    forall k | 0 <= k < |list| && list[k].id in table
      ensures Refreshed(list, current)[k] == table[list[k].id].(totalDebt := OutstandingSum(ds, list[k].id))
    {
      assert list[k] in list;
    }
  }

  class MembersStore {
    var members: seq<Member>
    var searchQuery: string
    var error: Option<string>

    constructor ()
      ensures members == [] && searchQuery == "" && error == None
    {
      members := [];
      searchQuery := "";
      error := None;
    }

    /** `addMember` at time `now`. */
    method AddMember(ledger: Ledger, queue: SyncQueue, online: bool, data: Member, localId: Id, now: Moment)
      requires ledger.Valid()
      modifies this, ledger, queue
      ensures ledger.Valid()
      ensures error == old(error) && searchQuery == old(searchQuery)
      ensures online ==>
                var s := WithDefaults(data).(id := old(ledger.nextMemberId));
                s.id !in old(ledger.members)
                && ledger.debts == Backfill(old(ledger.debts), s.id, s.monthlyDues, HistoryOf(s, now))
                && ledger.members == old(ledger.members)[s.id := s.(totalDebt := OutstandingSum(ledger.debts, s.id))]
                && members == Replace(old(members) + [s], MemberId, s.id, ledger.members[s.id])
                && ledger.payments == old(ledger.payments) && queue.ops == old(queue.ops)
      ensures !online ==>
                members == old(members) + [WithDefaults(data).(id := localId)]
                && ledger.members == old(ledger.members) && ledger.debts == old(ledger.debts)
                && ledger.payments == old(ledger.payments)
                && queue.ops == old(queue.ops) + [OfflineOperation(Create, MembersTable, NewMember(WithDefaults(data)))]
    {
      var withDefaults := WithDefaults(data);
      if online {
        var saved := ledger.CreateMember(withDefaults);
        members := members + [saved];
        var generated := GenerateHistoricalDebts(ledger, saved.id, now);
        if generated.Done? {
          var _ := UpdateMemberTotalDebt(ledger, saved.id);
          var refreshed := ledger.GetMember(saved.id);
          if refreshed.Ok? {
            members := Replace(members, MemberId, saved.id, refreshed.value);
          }
        }
      } else {
        queue.Add(Create, MembersTable, NewMember(withDefaults));
        members := members + [withDefaults.(id := localId)];
      }
    }

    /** `updateMember`: online a missing member sets the error; otherwise the list takes
        the saved row and, when the patch sets the monthly dues, the total is recomputed
        and the list takes the refreshed row. Offline a cached member is patched and
        the change queued. */
    method UpdateMember(ledger: Ledger, queue: SyncQueue, online: bool, id: Id, patch: MemberPatch)
      requires ledger.Valid()
      modifies this, ledger, queue
      ensures ledger.Valid()
      ensures searchQuery == old(searchQuery)
      ensures ledger.debts == old(ledger.debts) && ledger.payments == old(ledger.payments)
      ensures online ==> queue.ops == old(queue.ops)
      ensures online && id in old(ledger.members) ==>
                var u := PatchMember(old(ledger.members)[id], patch);
                error == old(error)
                && (patch.monthlyDues.None? ==> ledger.members == old(ledger.members)[id := u])
                && (patch.monthlyDues.Some? ==>
                      ledger.members == old(ledger.members)[id := u.(totalDebt := OutstandingSum(ledger.debts, id))])
                && members == Replace(old(members), MemberId, id, ledger.members[id])
      ensures online && id !in old(ledger.members) ==>
                members == old(members) && error == Some(UpdateMemberError) && ledger.members == old(ledger.members)
      ensures !online ==> error == old(error) && ledger.members == old(ledger.members)
      ensures !online && Find(old(members), MemberId, id).None? ==>
                members == old(members) && queue.ops == old(queue.ops)
      ensures !online && Find(old(members), MemberId, id).Some? ==>
                members == Replace(old(members), MemberId, id, PatchMember(Find(old(members), MemberId, id).value, patch))
                && queue.ops == old(queue.ops) + [OfflineOperation(Update, MembersTable, MemberChange(id, patch))]
    {
      if online {
        var r := ledger.UpdateMember(id, patch);
        if r.Err? {
          error := Some(UpdateMemberError);
          return;
        }
        members := Replace(members, MemberId, id, r.value);
        if patch.monthlyDues.Some? {
          var _ := UpdateMemberTotalDebt(ledger, id);
          var refreshed := ledger.GetMember(id);
          if refreshed.Ok? {
            ReplaceTwice(old(members), MemberId, id, r.value, refreshed.value);
            members := Replace(members, MemberId, id, refreshed.value);
          }
        }
      } else {
        var current := Find(members, MemberId, id);
        if current.Some? {
          queue.Add(Update, MembersTable, MemberChange(id, patch));
          members := Replace(members, MemberId, id, PatchMember(current.value, patch));
        }
      }
    }

    /** `deleteMember`: the member leaves the list and, online, the server; offline the
        deletion is queued. Its debts and payments are not touched. */
    method DeleteMember(ledger: Ledger, queue: SyncQueue, online: bool, id: Id)
      requires ledger.Valid()
      modifies this, ledger, queue
      ensures ledger.Valid()
      ensures error == old(error) && searchQuery == old(searchQuery)
      ensures members == Remove(old(members), MemberId, id)
      ensures ledger.debts == old(ledger.debts) && ledger.payments == old(ledger.payments)
      ensures online ==> ledger.members == old(ledger.members) - {id} && queue.ops == old(queue.ops)
      ensures !online ==>
                ledger.members == old(ledger.members)
                && queue.ops == old(queue.ops) + [OfflineOperation(Delete, MembersTable, Removal(id))]
    {
      if online {
        ledger.DeleteMember(id);
      } else {
        queue.Add(Delete, MembersTable, Removal(id));
      }
      members := Remove(members, MemberId, id);
    }

    /** `searchMembers`. */
    method SearchMembers(query: string)
      modifies this
      ensures searchQuery == query && members == old(members) && error == old(error)
    {
      searchQuery := query;
    }

    /** One member of `refreshMemberDebts`: its total recomputed and its row read back;
        when either call fails the member is kept as listed. */
    method RefreshOne(ledger: Ledger, m: Member) returns (shown: Member)
      requires ledger.Valid()
      modifies ledger
      ensures ledger.Valid()
      ensures ledger.debts == old(ledger.debts) && ledger.payments == old(ledger.payments)
      ensures ledger.members == RecordTotal(old(ledger.members), ledger.debts, m.id)
      ensures shown == if m.id in ledger.members then ledger.members[m.id] else m
    {
      shown := m;
      var total := UpdateMemberTotalDebt(ledger, m.id);
      if total.Ok? {
        var refreshed := ledger.GetMember(m.id);
        if refreshed.Ok? {
          shown := refreshed.value;
        }
      }
    }

    /** The refresh loop's body: one more member refreshed and listed. */
    method RefreshNext(ledger: Ledger, ghost table: map<Id, Member>, ghost prefix: seq<Member>,
                       updated: seq<Member>, m: Member) returns (extended: seq<Member>)
      requires ledger.Valid()
      requires RefreshedSoFar(table, ledger.members, ledger.debts, prefix, updated)
      modifies ledger
      ensures ledger.Valid()
      ensures ledger.debts == old(ledger.debts) && ledger.payments == old(ledger.payments)
      ensures RefreshedSoFar(table, ledger.members, ledger.debts, prefix + [m], extended)
    {
      RefreshStep(table, ledger.members, ledger.debts, prefix, updated, m);
      var shown := RefreshOne(ledger, m);
      extended := updated + [shown];
    }

    /** `refreshMemberDebts`: each listed member's total is recomputed and the list
        rebuilt from the server's rows; a member the server lacks is kept as it was.
        Offline every call fails and each member is kept. */
    method RefreshMemberDebts(ledger: Ledger, online: bool)
      requires ledger.Valid()
      modifies this, ledger
      ensures ledger.Valid()
      ensures error == old(error) && searchQuery == old(searchQuery)
      ensures ledger.debts == old(ledger.debts) && ledger.payments == old(ledger.payments)
      ensures online ==>
                TotalsRecordedFor(old(ledger.members), ledger.members, ledger.debts, IdsOf(old(members)))
                && members == Refreshed(old(members), ledger.members)
      ensures !online ==> members == old(members) && ledger.members == old(ledger.members)
    {
      if !online {
        return;
      }
      var list := members;
      var updated := [];
      var i := 0;
      assert list[..0] == [];
      while i < |list|
        modifies ledger
        invariant 0 <= i <= |list|
        invariant ledger.Valid()
        invariant ledger.debts == old(ledger.debts) && ledger.payments == old(ledger.payments)
        invariant RefreshedSoFar(old(ledger.members), ledger.members, ledger.debts, list[..i], updated)
      {
        var m := list[i];
        updated := RefreshNext(ledger, old(ledger.members), list[..i], updated, m);
        assert list[..i + 1] == list[..i] + [m];
        i := i + 1;
      }
      assert list[..|list|] == list;
      members := updated;
    }
  }
}
