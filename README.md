# Mosque-committee dues ledger — a Dafny model of the debt engine, the client stores and form validation

The system keeps a members table, a debts table and a payments table for a
membership organisation whose members owe monthly dues. This project models its
core:

- **The debt engine** (`lib/utils/debt-automation.ts`). It charges every active
  member one `monthly_dues` debt per calendar month and backfills a new member's
  history from the join month. It sweeps pending debts whose due date has passed
  to `overdue`, and applies a payment to a member's outstanding debts oldest-first,
  splitting the last one into a paid row and a pending remainder. It also recomputes
  a member's cached `total_debt`.
- **The record store** (`lib/supabase/queries.ts`), as the class `Database.Ledger`:
  a member map, a debts table whose ids are table positions, and a payment map.
  Debt ids are positions because debts are never deleted in the model.
- **The three client stores** (`lib/stores/debts.ts`, `payments.ts`, `members.ts`),
  as the classes `DebtsStore.DebtsStore`, `PaymentsStore.PaymentsStore` and
  `MembersStore.MembersStore`.
  - Each holds a cached list and an error message.
  - Online, a write goes to the ledger and the cache takes the saved row.
  - Offline, the cache is changed directly and an operation is appended to the
    sync queue (`Offline.SyncQueue`).
  - Their selectors (filtered and active members, filtered payments, monthly
    statistics, overdue debts, total outstanding) are functions.
- **Form validation** (`lib/utils/validation.ts`) and **date helpers**
  (`lib/utils/dates.ts`).

Things outside the program become parameters:

- the current moment is `now: Moment`: a calendar date plus milliseconds since
  midnight;
- the network status is `online: bool`;
- the random UUID an offline row receives is `localId`.

Due dates are midnight of their day, so `new Date(due) < now` is `Dates.DuePassed`.

The engine's loops are `while` loops in methods on the `Ledger`. Each is proved
against a function of the old table:

| engine method | specified by |
|---|---|
| `UpdateOverdueDebts` | `Sweep` |
| `GenerateMonthlyDebts` | `ChargeMonth` |
| `GenerateHistoricalDebts` | `Backfill` over `HistoryMonths` |
| `ProcessPayment` | `PaymentEffect`, built from `SortByDue` and `Allocate` |
| `InitializeDebtSystem` | `BackfillMembers` |

The properties are lemmas about those functions:

- conservation of the amount paid;
- oldest-first settlement;
- other members untouched;
- idempotence of monthly generation, backfill, initialisation and the overdue sweep;
- the new rows are exactly the missing months.

The runs over "all members" visit the members in an order the model leaves open.
The order is a ghost out-parameter `visited`, and `EnumeratesActive` says it lists
every active member once. The proved properties hold for every such order.

Three behaviours of the code a reader might not expect, which the model follows:

- `updatePayment` re-runs `processPayment` on the edited payment's whole new
  amount. It does not undo the earlier allocation first.
  `PaymentsStore.EditedPaymentIsAppliedAgain` shows that the original amount and the
  new amount are both taken off the member's outstanding sum.
- `updateDebtStatus` recomputes the member total in both branches. Offline, that
  recomputation fails and is only logged.
- The engine's `getMonthName` answers `"Unknown"` outside 1..12. The date helper
  of the same name answers `"Invalid Month"`. Both are modelled:
  `Generation.DuesMonthName` and `Dates.MonthName`.

## Model

| member | source | states |
|---|---|---|
| Dates.BeforeIsStrictTotalOrder | lib/utils/debt-automation.ts:158 | Comparing due dates is a strict total order: irreflexive, transitive, total and asymmetric. |
| Dates.FirstOfNextMonth | lib/utils/debt-automation.ts:80 | The due date of month m is the first day of the month after m. It lies after every day of month m. |
| Dates.MonthNameRoundTrip | lib/utils/dates.ts:54-60 | The date helper's month name reads back as its number exactly for 1..12. Every other number gives a name that is no month. |
| Dates.MonthOptions | lib/utils/dates.ts:63-68 | Twelve options. Option i has value i+1 and that month's name. Values strictly increase. |
| Dates.YearOptions | lib/utils/dates.ts:71-80 | The years start..end, one per option, labelled with their decimal form. The defaults are current-5 and current+1. The list is empty when end < start. |
| Dates.RelativeTime | lib/utils/dates.ts:24-41 | "Invalid Date" exactly for an invalid date. "Today", "Yesterday" and "Tomorrow" exactly for a difference of 0, 1 and -1 days. More than one day back reads "N days ago" and more than one day ahead "In N days", with N in decimal. |
| Dates.RelativeTimeInjective | lib/utils/dates.ts:29-35 | Two valid dates with the same relative-time text are the same number of days away. |
| Dates.OverdueReadsAsPast | lib/utils/dates.ts:44-51 | A date is overdue exactly when its relative time reads "Yesterday" or "N days ago". |
| Text.Trim | lib/utils/validation.ts:69 | `trim()` keeps the slice between the leading and the trailing white space, and everything it drops is white space. The result neither starts nor ends with white space, and it is empty exactly when the input is all white space. |
| Text.ToLower | lib/stores/members.ts:247 | Lower-casing keeps the length and maps every character. |
| Text.Includes | lib/stores/members.ts:247 | `includes` holds exactly when the needle occurs at some position. |
| Text.DecimalRoundTrip | lib/utils/dates.ts:78 | The decimal text of a natural number reads back as that number. |
| Text.IntToString | lib/utils/dates.ts:78 | `toString()` of an integer starts with '-' exactly when it is negative, and otherwise is its digits. |
| Text.Join | lib/utils/validation.ts:114 | Joining no parts gives "". Joining one part gives that part. Together with `Text.JoinLast` these fix the join of every list. |
| Text.JoinLast | lib/utils/validation.ts:114 | Appending a part to a non-empty list appends the separator and that part to the join, so a path of two or more parts reads as its parts in order with "." between neighbours. |
| Text.JoinLength | lib/utils/validation.ts:114 | The join is as long as the parts together plus one separator between each pair of neighbours. |
| Generation.MonthsDifference | lib/utils/debt-automation.ts:39-43 | The month difference is the distance in months between the two year-months, floored at 0. |
| Generation.CalculateMemberDebt | lib/utils/debt-automation.ts:13-34 | The months since joining, and the months since the given last payment or, without one, since joining. The debt is the unpaid months times the dues. Overdue exactly when more than one month is unpaid. |
| Generation.PaymentRecencyDecidesOverdue | lib/utils/debt-automation.ts:16-32 | A payment in the current month (or later) leaves nothing owed and not overdue. The member is overdue exactly when the last payment is two or more calendar months back. |
| Generation.LaterPaymentOwesNoMore | lib/utils/debt-automation.ts:16-25 | A later last payment never gives more unpaid months or a larger computed debt (dues not negative). |
| Generation.DuesMonthName | lib/utils/debt-automation.ts:266-272 | The engine's month name is the calendar name for 1..12, and "Unknown" exactly otherwise. |
| Generation.DuesMonthNameRoundTrip | lib/utils/debt-automation.ts:266-272 | The engine's month name reads back as its number exactly for 1..12. |
| Generation.HistoryCoversEveryMonth | lib/utils/debt-automation.ts:218-227 | The nested year/month walk visits every month from the join month to the current month once, in order. The count is the month difference plus one. |
| Generation.AddIfMissingFacts | lib/utils/debt-automation.ts:228-249 | One "find, else create" step appends a debt exactly when the slot was empty. Other slots and other members' sums stay. The member's sum grows by the dues exactly when a row was added. Unique slots and positional ids are kept. |
| Generation.BackfillFacts | lib/utils/debt-automation.ts:223-253 | Backfilling extends the table and fills every listed month. It keeps existing slots. It leaves other members alone and keeps slots unique. |
| Generation.BackfillKeepsCompleteTable | lib/utils/debt-automation.ts:228-237 | Backfilling months that all have a debt changes nothing. |
| Generation.BackfillIdempotent | lib/utils/debt-automation.ts:223-253 | Backfilling twice is backfilling once. |
| Generation.BackfillAddsOnlyMissingMonths | lib/utils/debt-automation.ts:237-249 | Every new row is a monthly-dues debt for a listed month that had none. |
| Records.PatchMember | lib/supabase/queries.ts:38-48 | An update keeps the member's id. Each field the patch sets takes the patch's value, and each field it leaves out keeps the row's. |
| Records.PatchPayment | lib/supabase/queries.ts:108-118 | An update keeps the payment's id. Each field the patch sets takes the patch's value, and each field it leaves out keeps the row's. |
| Records.EmptyPatchesKeepRows | lib/supabase/queries.ts:38-48 | An update with an empty patch leaves the member or payment row unchanged. |
| Records.PatchesCompose | lib/supabase/queries.ts:108-118 | Two updates in a row equal one update with the merged patch, the later patch winning per field. |
| Records.OutstandingOfMembers | lib/utils/debt-automation.ts:109-112 | The filter keeps exactly the member's pending and overdue debts. |
| Records.AllOutstanding | lib/stores/debts.ts:164 | The filter keeps exactly the pending and overdue debts. |
| Records.SetStatus | lib/supabase/queries.ts:195-205 | A status update changes the status of the row with that id and nothing else. |
| Records.MarkPaidOutstanding | lib/utils/debt-automation.ts:163-176 | Marking a set of debts paid lowers the member's outstanding sum by the amounts of the member's owed debts in the set. |
| Allocation.SortByDue | lib/utils/debt-automation.ts:158 | Sorting by due date is a permutation. |
| Allocation.SortByDueSorted | lib/utils/debt-automation.ts:158 | The sorted list is in due-date order. |
| Allocation.SortSortedIsIdentity | lib/utils/debt-automation.ts:153-158 | Sorting a list already in due-date order changes nothing. |
| Allocation.QueueFacts | lib/utils/debt-automation.ts:153-158 | The payment queue holds exactly the member's pending and overdue debts. Its total is the member's outstanding sum. |
| Allocation.AllocateFacts | lib/utils/debt-automation.ts:160-194 | The allocation settles a prefix of the queue and spends exactly the amount minus the surplus. A non-positive amount settles nothing. A remainder is only split off the last settled debt, and then nothing is left over. |
| Allocation.AllocateSettlesMin | lib/utils/debt-automation.ts:160-194 | A positive payment settles min(amount, total owed). When it covers everything, the whole queue is settled with no remainder. |
| Allocation.NonPositivePaymentChangesNothing | lib/utils/debt-automation.ts:164 | A payment of zero or less leaves the debts table as it was. |
| Allocation.PaymentConservation | lib/utils/debt-automation.ts:149-204 | After a payment, the member's outstanding sum falls by min(amount, sum), and by nothing for a non-positive amount. |
| Allocation.OtherMembersUnaffected | lib/utils/debt-automation.ts:153-157 | A payment leaves every other member's outstanding sum unchanged. |
| Allocation.OldestFirst | lib/utils/debt-automation.ts:153-166 | No unsettled debt in the queue falls due before a settled one. |
| Allocation.PaymentRowChanges | lib/utils/debt-automation.ts:166-191 | Only settled rows change, and only to paid. At most one row is added: the pending remainder of the last settled debt, with the rest of its amount. |
| Charging.ChargeMonthFacts | lib/utils/debt-automation.ts:62-90 | Charging a month gives every listed member a debt for it. Other slots and members stay. Each member's sum grows by the dues exactly when the slot was empty. |
| Charging.ChargeMonthRowAt | lib/utils/debt-automation.ts:64-86 | Every row a run adds is the month's pending dues of a visited member that had no row for the month. |
| Charging.MonthlyGenerationCharges | lib/utils/debt-automation.ts:48-101 | After monthly generation, every active member has a debt for the current month. Every member's sum grows by the dues exactly when it is active and had none. |
| Charging.MonthlyGenerationAddsOnlyMissing | lib/utils/debt-automation.ts:64-86 | New rows are only for active members lacking the month. With none lacking, the table is unchanged. |
| Charging.MonthlyGenerationIdempotent | lib/utils/debt-automation.ts:64-73 | A second monthly generation in the same month, in any member order, creates nothing. |
| Charging.BackfillMembersFacts | lib/utils/debt-automation.ts:298-316 | Initialisation fills every month of each visited member's history and leaves other members alone. |
| Charging.InitializationIdempotent | lib/utils/debt-automation.ts:298-316 | Running initialisation again, even after the totals changed, adds no debt. |
| DebtAutomation.Sweep | lib/utils/debt-automation.ts:134-139 | The sweep keeps the table's length and treats each row on its own. |
| DebtAutomation.SweepOnlyMarksLatePending | lib/utils/debt-automation.ts:134-139 | A row changes exactly when it was pending past its due date, and then only its status changes, to overdue. Afterwards no late pending row remains. |
| DebtAutomation.SweepKeepsOutstanding | lib/utils/debt-automation.ts:134-139 | The sweep keeps every member's outstanding sum. |
| DebtAutomation.SweepKeepsTotalOutstanding | lib/utils/debt-automation.ts:134-139 | The sweep keeps the total outstanding. |
| DebtAutomation.SweepIdempotent | lib/utils/debt-automation.ts:129-144 | Sweeping twice at the same moment is sweeping once. |
| DebtAutomation.LaterSweepSubsumesEarlier | lib/utils/debt-automation.ts:132-135 | A sweep followed by a later sweep equals the later sweep alone. |
| DebtAutomation.SweepKeepsSlots | lib/utils/debt-automation.ts:134-136 | The sweep neither creates nor removes a monthly slot. |
| DebtAutomation.RecordTotalIdempotent | lib/utils/debt-automation.ts:106-124 | Recording a total twice is recording it once. Where totals already agree, recording changes nothing. |
| DebtAutomation.RecordOneMore | lib/utils/debt-automation.ts:284-286 | Recording one more member's total extends the set of members whose total is correct. |
| DebtAutomation.RecordingEveryTotalAgrees | lib/utils/debt-automation.ts:283-286 | Once every member's total is recorded, every total equals its outstanding sum, and nothing else in the table changed. |
| DebtAutomation.UpdateMemberTotalDebt | lib/utils/debt-automation.ts:106-124 | Succeeds exactly for a known member. It returns and stores that member's pending and overdue sum. Debts and payments are untouched. |
| DebtAutomation.UpdateOverdueDebts | lib/utils/debt-automation.ts:129-144 | The debts table becomes its sweep at `now`. Nothing else changes. |
| DebtAutomation.PaidNothingYet | lib/utils/debt-automation.ts:159-164 | Before the walk, nothing is paid, and the whole amount is still to allocate over the whole queue. |
| DebtAutomation.PaidOneMore | lib/utils/debt-automation.ts:166-193 | One more debt settled: it is marked paid and the table keeps its length. When the remainder covers the debt, the walk goes on with the debt's amount taken off. Otherwise the unpaid rest becomes the new row and nothing is left. |
| DebtAutomation.PaidAll | lib/utils/debt-automation.ts:166-194 | When the queue is exhausted or the money is spent, the table is exactly `PaymentEffect` of the member's payment. |
| DebtAutomation.PayOldestFirst | lib/utils/debt-automation.ts:149-194 | The debts table becomes `PaymentEffect` of the old table, the member and the amount. Members and payments are unchanged. |
| DebtAutomation.SettleOne | lib/utils/debt-automation.ts:166-193 | One loop step: it marks the debt paid, and on a partial payment appends the remainder and stops. It agrees with the allocation function. |
| DebtAutomation.ProcessPayment | lib/utils/debt-automation.ts:149-204 | The debts table becomes `PaymentEffect`. The member's total is recomputed. The call fails exactly for an unknown member. |
| DebtAutomation.AddMonthlyDebtIfMissing | lib/utils/debt-automation.ts:64-90 | Creates the month's debt exactly when none exists. |
| DebtAutomation.GenerateMonthlyDebts | lib/utils/debt-automation.ts:48-101 | The table becomes `ChargeMonth` of the current month over all active members. Members and payments are unchanged. |
| DebtAutomation.BackfillYear | lib/utils/debt-automation.ts:227-252 | The inner month loop backfills that year's run of months. |
| DebtAutomation.BackfillHistory | lib/utils/debt-automation.ts:223-253 | The nested loops backfill every month from start to end. |
| DebtAutomation.GenerateHistoricalDebts | lib/utils/debt-automation.ts:209-261 | An unknown member fails with nothing changed. Otherwise the member's history is backfilled and the total recomputed. |
| DebtAutomation.ScheduleMonthlyDebtGeneration | lib/utils/debt-automation.ts:277-293 | Monthly generation, then the sweep, then every member's total recorded against the final table. |
| DebtAutomation.InitializeDebtSystem | lib/utils/debt-automation.ts:298-316 | Every active member's history is backfilled and its total recorded. |
| Database.Ledger.GetMember | lib/supabase/queries.ts:16-25 | Found exactly for a known id, with that row. |
| Database.Ledger.CreateMember | lib/supabase/queries.ts:27-36 | Stores the member under a fresh id and returns it. |
| Database.Ledger.UpdateMember | lib/supabase/queries.ts:38-48 | Fails exactly for an unknown id. Otherwise it stores the patched row. |
| Database.Ledger.DeleteMember | lib/supabase/queries.ts:50-57 | Removes the id, and only it. |
| Database.Ledger.CreateDebt | lib/supabase/queries.ts:184-193 | Appends the debt under the next position id. |
| Database.Ledger.UpdateDebtStatus | lib/supabase/queries.ts:195-205 | Fails exactly for an unknown id. Otherwise it sets that row's status and returns the saved row. |
| Database.Ledger.CreatePayment | lib/supabase/queries.ts:97-106 | Stores the payment under a fresh id. |
| Database.Ledger.UpdatePayment | lib/supabase/queries.ts:108-118 | Fails exactly for an unknown id. Otherwise it stores the patched row. |
| Database.Ledger.DeletePayment | lib/supabase/queries.ts:120-127 | Removes the id, and only it. |
| Offline.SyncQueue.Add | lib/offline/sync.ts:181-195 | Appends one operation with the given kind, table and data. |
| Lists.Replace | lib/stores/members.ts:132-134 | The map over the cache replaces exactly the rows with the key and keeps the order. |
| Lists.Remove | lib/stores/members.ts:195-197 | The filter keeps exactly the rows without the key. |
| Lists.Find | lib/stores/members.ts:159 | Finds a row exactly when one has the key. The row found has the key, and no row before it has. |
| Lists.ReplaceMissing | lib/stores/payments.ts:136-140 | Replacing a key no row has leaves the cache as it was. |
| Lists.ReplaceTwice | lib/stores/members.ts:144-148 | A second replacement under the same key overrides the first. |
| Lists.RemoveMissing | lib/stores/payments.ts:207-209 | Removing a key no row has changes nothing. |
| Lists.RemoveAppend | lib/stores/payments.ts:207-209 | Removal works row by row, so the remaining rows keep their order. |
| Lists.RemoveIdempotent | lib/stores/members.ts:195-197 | Removing twice is removing once. |
| DebtsStore.OverdueDebts | lib/stores/debts.ts:153-159 | `getOverdueDebts` lists exactly the cached pending debts past their due date. |
| DebtsStore.NothingOverdue | lib/stores/debts.ts:156-158 | With no pending late row, the list is empty. |
| DebtsStore.OverdueDebtsAreSweepTargets | lib/stores/debts.ts:153-159 | The overdue list is exactly the rows the engine's sweep would change. After the sweep it is empty. |
| DebtsStore.TotalOutstandingAddDebt | lib/stores/debts.ts:161-166 | Adding a debt raises the total outstanding by its amount exactly when it is pending or overdue. |
| DebtsStore.MarkingPaidLowersOutstanding | lib/stores/debts.ts:97-111 | Marking one debt paid lowers its member's sum by its amount when it was owed. |
| DebtsStore.DebtsStore.AddDebt | lib/stores/debts.ts:64-95 | Online, the saved row is appended to both the table and the cache. Offline, the cache gets the local row, the creation is queued, and the table is untouched. |
| DebtsStore.DebtsStore.UpdateDebtStatus | lib/stores/debts.ts:97-151 | Online, the status is set, the cache takes the saved row and the member's total is recorded. An unknown id sets the error. Offline, a cached row is updated and the change queued. |
| PaymentsStore.FilteredPayments | lib/stores/payments.ts:241-251 | Keeps exactly the payments matching every set filter. |
| PaymentsStore.NoFilterShowsAll | lib/stores/payments.ts:245-247 | With no filter set, all payments are shown, in order. |
| PaymentsStore.Payers | lib/stores/payments.ts:263 | The set of payer ids: at least one for a non-empty list, and no more than the payments. |
| PaymentsStore.MonthlyStats | lib/stores/payments.ts:253-265 | No more distinct members than payments, none exactly when there are no payments, and no more payments than the cache. |
| PaymentsStore.PrependedPaymentStats | lib/stores/payments.ts:253-265 | A new payment of the month adds its amount and one to the count. Any other payment leaves the statistics as they were. |
| PaymentsStore.PaymentKeepsTableShape | lib/utils/debt-automation.ts:166-191 | A payment keeps the debt ids positional and every owed amount positive. |
| PaymentsStore.EditedPaymentIsAppliedAgain | lib/stores/payments.ts:143-149 | Editing an amount re-applies the whole new amount. Paying a and then editing to b takes a+b off the member's sum. |
| PaymentsStore.PaymentsStore.AddPayment | lib/stores/payments.ts:70-128 | Online, the saved payment is prepended and processed against the member's debts. Offline, the local row is prepended and the creation is queued with the debt-processing flag. |
| PaymentsStore.PaymentsStore.UpdatePayment | lib/stores/payments.ts:130-182 | Online, the patched payment replaces the cached row. An amount edit re-runs payment processing on the new amount. An unknown id sets the error. Offline, a cached row is patched and the change queued. |
| PaymentsStore.PaymentsStore.DeletePayment | lib/stores/payments.ts:184-225 | The cached row is removed. Online, the server row goes and the payer's total is recomputed when the row was cached. Offline, the deletion is queued. The debts are never restored. |
| PaymentsStore.PaymentsStore.SetFilters | lib/stores/payments.ts:227-233 | Each given filter replaces the current one. An absent filter keeps it. |
| MembersStore.WithDefaults | lib/stores/members.ts:70-74 | Missing dues (0) become the default 200. The total starts at 0. Everything else is kept. |
| MembersStore.MembersMatching | lib/stores/members.ts:246-250 | Keeps exactly the members whose name, phone or address contains the lower-cased query. |
| MembersStore.SearchIgnoresCase | lib/stores/members.ts:241-251 | An empty query shows everyone. Otherwise the search ignores the query's case. |
| MembersStore.LoweredQueryMatchesSame | lib/stores/members.ts:247-249 | Lower-casing the query first selects the same members. |
| MembersStore.ActiveMembers | lib/stores/members.ts:253-256 | Keeps exactly the active members. |
| MembersStore.Refreshed | lib/stores/members.ts:213-228 | Each cached member becomes the server's row when it exists, and otherwise stays. |
| MembersStore.RefreshedKeepsPrefix | lib/stores/members.ts:213-221 | Recording one more total leaves the rows already refreshed unchanged, even when a member is listed twice. |
| MembersStore.RefreshStep | lib/stores/members.ts:213-226 | One loop step records one more total and extends the refreshed list by one row. |
| MembersStore.RefreshedTotalsAgree | lib/stores/members.ts:208-233 | After the refresh, every cached member known to the server shows its outstanding sum as total. |
| MembersStore.MembersStore.AddMember | lib/stores/members.ts:67-123 | Online, it creates the member with defaults, backfills its history, records its total and caches the refreshed row. Offline, the local row is appended and the creation queued. |
| MembersStore.MembersStore.UpdateMember | lib/stores/members.ts:125-181 | Online, the patched member replaces the cached row. A dues change records the total again. An unknown id sets the error. Offline, a cached row is patched and the change queued. |
| MembersStore.MembersStore.DeleteMember | lib/stores/members.ts:183-202 | The cached row is removed. Online, the server row goes. Offline, the deletion is queued. |
| MembersStore.MembersStore.SearchMembers | lib/stores/members.ts:204-206 | Sets the query and nothing else. |
| MembersStore.MembersStore.RefreshOne | lib/stores/members.ts:214-221 | Records the member's total and returns the server row, or the cached row when the server has none. |
| MembersStore.MembersStore.RefreshNext | lib/stores/members.ts:213-226 | One loop iteration: one more member's total is recorded and its row appended, keeping the refresh state. |
| MembersStore.MembersStore.RefreshMemberDebts | lib/stores/members.ts:208-233 | Online, every cached member's total is recorded and the cache becomes the refreshed rows. Offline, nothing changes. |
| Validation.ValidateRequired | lib/utils/validation.ts:68-73 | An error exactly when the value is empty or all spaces. The message names the field. |
| Validation.PhoneTestMatchesShape | lib/utils/validation.ts:85-86 | The scanning test accepts exactly the language of `^[+]?[1-9][0-9]{0,15}$`. |
| Validation.ValidatePhone | lib/utils/validation.ts:83-90 | No error exactly for "" or a string of that shape. |
| Validation.ValidateAmount | lib/utils/validation.ts:92-101 | No error exactly for a finite number in [0, 99999.99]. "positive" exactly for NaN or a negative number. "too large" exactly above the maximum. |
| Validation.StripBrackets | lib/utils/validation.ts:105 | Removes exactly the '<' and '>' characters: every other character is kept as many times as it occurs. |
| Validation.RemovesBracketsInPlace | lib/utils/validation.ts:105 | Stripping a concatenation strips each part, so the kept characters stay in their order. |
| Validation.StripBracketsIdempotent | lib/utils/validation.ts:105 | Stripping twice is stripping once. |
| Validation.SanitizeString | lib/utils/validation.ts:104-106 | No angle bracket remains. Every other character of the trimmed input is kept as many times as it occurs. |
| Validation.SanitizedMayStartWithSpace | lib/utils/validation.ts:104-106 | Trimming happens before the brackets go, so "< a" sanitises to " a". |
| Validation.ErrorMapFields | lib/utils/validation.ts:109-119 | The map's keys are exactly the issues' dotted paths. The last issue for a path wins. |
| Validation.GetValidationErrors | lib/utils/validation.ts:109-119 | No errors on success. On failure, the errors are the fold of the issues. |
| Validation.NameError | lib/utils/validation.ts:125-131 | An error exactly when the trimmed name is missing or not 2..100 characters long. "required" exactly when missing or blank. "too short" exactly for one character. |
| Validation.PhoneFieldError | lib/utils/validation.ts:133-138 | An error exactly when a non-blank trimmed phone has the wrong shape. |
| Validation.AddressError | lib/utils/validation.ts:140-142 | An error exactly when the trimmed address exceeds 500 characters, with the "Address is too long" message. |
| Validation.DuesError | lib/utils/validation.ts:148-157 | "required" exactly for missing, zero or NaN dues. Otherwise an error exactly for a negative or too-large amount, with the matching message. |
| Validation.StatusError | lib/utils/validation.ts:159-161 | An error exactly when the status is neither "active" nor "inactive", with the "Status is required" message. |
| Validation.ValidateMemberForm | lib/utils/validation.ts:122-164 | Each field has an entry exactly when its check fails, with that check's message for every field. There are no other keys. |

## Left out

- The network, Supabase's transport and the IndexedDB cache (`offlineStorage`) are not modelled. The record store is the in-memory `Database.Ledger`. Cache puts and deletes have no counterpart.
- The sync manager's replay of queued operations and its network listener (the rest of `lib/offline/sync.ts`) are not part of this model. Only the append to the queue is.
- Concurrency is left out: every call runs to completion before the next one starts. The race between two payment calls for the same member cannot arise in the model.
- Offline, every server call fails. The engine calls the stores make offline therefore change no table, and their errors are only logged. The model leaves the ledger unchanged on those paths.
- The network status is read once per store call. A status flip in the middle of a call is not modelled.
- Timestamps (`created_at`, `updated_at`, the queue entry's `timestamp` and `synced`), the random UUIDs (the `localId` parameter) and console logging are left out.
- Loading flags, `fetchMembers`, `fetchPayments`, `fetchDebts` and the plain setters (`setMembers`, `setLoading`, `setError`, and the like) are left out, because they only copy values.
- Time zones and locale are left out. A date is a calendar date; "now" is a date plus milliseconds since midnight.
- `differenceInDays` is taken as a given integer parameter of `Dates.RelativeTime` and `Dates.IsOverdue`.
- `parseISO` and `isValid` are taken as a given validity flag.
- Amounts in the engine are integers; floating-point currency arithmetic is not modelled.
- Validation numbers are `Validation.JsNumber`: NaN, the infinities or a real.
  - `parseFloat` of a string (the string branch of `validateAmount`, and `monthly_dues` arriving as text in `validateMemberForm`) is left out. The model receives the parsed number.
  - A numeric string `"0"` is truthy in JavaScript, but a number 0 is not. The model checks the number.
- The zod schemas (`memberSchema` and the others) and `validateEmail` are not part of this model. `getValidationErrors` receives the issues list.
- Lengths are counted in characters, not UTF-16 code units.
- Case folding covers ASCII letters only.
- The phone regex's `\d` is taken as the ASCII digits.
- Deleting a member does not cascade to that member's debts and payments. That cascade belongs to the database schema, which is not part of this model.
- Member ids are counters, and payment ids are counters.
- The ledger's `CreateMember`, `CreateDebt` and `CreatePayment` never fail, because foreign keys and column constraints are not modelled.
- `membersQueries.getAll` orders members by name. The runs over all members visit them in an unspecified order, the ghost `visited`, and every property is proved for every order.
- `debtsQueries.getAll` also orders debts by due date. The model keeps the table in insertion order and sorts in `ProcessPayment`. `Allocation.SortSortedIsIdentity` shows the two agree when the table is already in due-date order.
- DebtAutomation.ProcessPayment: the payment date is accepted and not used, as in the source.
- PaymentsStore.MonthlyStats: the contract bounds the counts rather than restating them. `PaymentsStore.PrependedPaymentStats` relates the statistics before and after a new payment.
