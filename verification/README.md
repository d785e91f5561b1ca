# Mess accounts: settlement, month report and ledger writes

A mess is a shared household. Its members log meals, deposit cash and
record shared grocery costs. Once a month the members settle up. This
project models and proves properties of the parts of the web client that
decide the figures:

- **The monthly settlement.** `calculateSummary` in `ActiveMonthDetails.jsx`
  is modelled as `Settlement.CalculateSummary`. It computes:
  - the month's deposit, meal-cost and meal-unit totals;
  - the meal rate, which is the costs divided by the units, or 0 when
    nobody ate;
  - one line per member who has a meal row: their units, their deposits,
    their cost at the rate, and their balance;
  - the mess balance.
- **The month report.** `fetchMonthData` is modelled as
  `MonthReport.QueryMonth` and `MonthReport.FetchMonthData`. It runs three
  queries, one per table. Each keeps the current mess's rows dated from
  day `01` to the literal day `31` of the selected month, ordered by date
  ascending (`Query.Select`). The summary is then computed over what the
  queries returned.
- **Meal entry.** `AddMeal.jsx` is modelled in module `MealEntry`:
  - the per-member draft counts, initialised from the stored rows or from
    the default meal;
  - edits to one slot (breakfast, lunch or dinner);
  - "apply default to all";
  - the submit, which builds one row per draft and upserts the batch into a
    meal table keyed by (mess, member, date) (`MealLedger`).
- **Deposits and meal costs.** `AddDeposit.jsx` and `AddMealCost.jsx` are
  modelled in modules `Deposits` and `MealCosts`. Each has a guard on the
  form fields, appends one row on success and then resets the form. Their
  tables are append-only, so repeated identical submissions all stay.

A JavaScript object used as a dictionary (`memberMeals`) is modelled as
`OrderedMaps.OrderedMap`. It keeps the key insertion order, so
`Object.keys`, `Object.values` and `Object.entries` follow that order.
Amounts and meal counts are exact `real`s. Store calls become parameters
(`storeAccepts`, `Outcome`), and so do the clock (`today`) and the
selected month.

Modules, in dependency order: `Wrappers`, `Ids`, `Forms`, `Calendar`,
`Sums`, `OrderedMaps`, `Query`, `MealLedger`, `MealEntry`, `Deposits`,
`MealCosts`, `Settlement`, `SettlementExample`, `MonthReport`.

## Behaviour of the code worth knowing

- **Validation.** The submit handlers do not check that an amount or a
  meal count is non-negative, or that the chosen member belongs to the
  mess. The deposit handler checks only that a mess, a member and an
  amount are present (AddDeposit.jsx:19), the meal-cost handler that a
  mess, an amount and a shopper are present (AddMealCost.jsx:19), and the
  meal handler that a mess is present (AddMeal.jsx:68). The inputs' HTML
  attributes (`min="0"`, `step`, `required`) are the only other checks;
  they are not modelled. The bound on the members' deposits
  (`Settlement.MemberDepositsAccounted`) therefore assumes non-negative
  amounts explicitly.
- **Who gets a line.** Only members with a meal row get a per-member
  line (`AddMealRow` and `CreditDeposit`). A deposit by anyone else raises
  the mess's deposit total but is credited to nobody
  (`Settlement.DepositWithoutMealsNotCredited`).
- **The month window.** It ends on the literal day 31 for every month.
  `Calendar.ShortMonthOverreach`, `Calendar.FebruaryOverreach` and
  `MonthReport.DayThirtyOneReported` state the consequence for short
  months. `Calendar.MonthWindowSelectsMonth` shows the window is exact on
  real calendar dates.
- **Rounding.** None is modelled. The source accumulates in
  floating point and only rounds for display.
- **The rate guard.** It is `totalMeals > 0`, so a negative unit total
  also gives rate 0.

## Model

| member | source | states |
|---|---|---|
| Settlement.CalculateSummary | src/components/Reports/ActiveMonthDetails.jsx:89-133 | the deposit and cost totals are the sums of the amounts; the meal total is the sum of every row's breakfast+lunch+dinner and equals the sum of the members' meals; the members listed are exactly the users with a meal row; each line is that user's units and deposits settled at the rate; the mess balance is deposits less costs |
| Settlement.TallyMeals | src/components/Reports/ActiveMonthDetails.jsx:93-106 | the first forEach creates one entry per distinct meal-row user, holding the units of all that user's rows and zero deposits |
| Settlement.TallyMealsTotal | src/components/Reports/ActiveMonthDetails.jsx:93-115 | summing the entries' meals (line 115) counts each meal row exactly once |
| Settlement.CreditDeposits | src/components/Reports/ActiveMonthDetails.jsx:108-113 | deposits are credited only to existing entries, each entry gaining its user's deposits; the set of entries and their meals do not change |
| Settlement.CreditDepositsTotal | src/components/Reports/ActiveMonthDetails.jsx:108-113 | after crediting, the entries' deposits add up to exactly the deposits made by entered members |
| Settlement.MealRate | src/components/Reports/ActiveMonthDetails.jsx:116 | with no (or negative) meal total the rate is 0 and nothing is divided; otherwise the rate times the meal total gives back the month's costs |
| Settlement.SummaryMealRate | src/components/Reports/ActiveMonthDetails.jsx:115-116 | the same two facts about the rate of a computed summary |
| Settlement.SettleAll | src/components/Reports/ActiveMonthDetails.jsx:118-123 | every entry gets cost = meals x rate and balance = deposits - cost; members and their order are unchanged and meal and deposit totals are preserved |
| Settlement.SummaryMemberLine | src/components/Reports/ActiveMonthDetails.jsx:93-123 | a listed member's meals are the units of their own rows, deposits the amounts they deposited, cost their meals at the rate, balance deposits less cost |
| Settlement.SummaryMembersAreEaters | src/components/Reports/ActiveMonthDetails.jsx:94-103 | a user is listed if and only if some meal row is theirs |
| Settlement.CostConservation | src/components/Reports/ActiveMonthDetails.jsx:115-123 | when anybody ate, the members' costs add up exactly to the month's costs; when nobody did, they add up to 0 |
| Settlement.MemberCostsTotal | src/components/Reports/ActiveMonthDetails.jsx:118-123 | the members' costs add up to the whole meal total charged at the rate |
| Settlement.MemberDepositsAccounted | src/components/Reports/ActiveMonthDetails.jsx:90-113 | with non-negative amounts the members' deposits never exceed the month's deposits, and they equal them when every depositor has a meal row |
| Settlement.DepositWithoutMealsNotCredited | src/components/Reports/ActiveMonthDetails.jsx:108-113 | a deposit by a user with no meal row raises the deposit total and the mess balance by its amount and leaves every member line unchanged |
| Settlement.MessBalanceIgnoresMeals | src/components/Reports/ActiveMonthDetails.jsx:125-132 | the mess balance is deposits less costs, whatever the meal rows are |
| Settlement.EmptyMonth | src/components/Reports/ActiveMonthDetails.jsx:89-133 | an empty month has zero totals, rate 0, balance 0 and no member lines |
| SettlementExample.AliceAndBob | src/components/Reports/ActiveMonthDetails.jsx:89-133 | 10 and 20 units, deposits 200 and 300, costs 300: rate 10, costs 100 and 200, both balances 100, mess balance 200 |
| Calendar.MonthWindowSelectsMonth | src/components/Reports/ActiveMonthDetails.jsx:28-29 | on real calendar dates the day-01-to-31 window holds exactly the dates of the selected month |
| Calendar.MonthWindowMatchesCalendar | src/components/Reports/ActiveMonthDetails.jsx:28-29 | on real calendar dates the literal window agrees with the window ending on the month's true last day |
| Calendar.ShortMonthOverreach | src/components/Reports/ActiveMonthDetails.jsx:28-29 | in a month shorter than 31 days the upper bound is not a real date and every day number past the month's end up to 31 lies in the window |
| Calendar.FebruaryOverreach | src/components/Reports/ActiveMonthDetails.jsx:28-29 | the February window admits the 30th and 31st, and the 29th in a common year |
| Query.Matching | src/components/Reports/ActiveMonthDetails.jsx:38-40 | a row is kept if and only if it belongs to the mess and its date is within the inclusive window |
| Query.MatchingCounts | src/components/Reports/ActiveMonthDetails.jsx:38-40 | every matching row is kept exactly as many times as it occurs in the table, and a row that does not match is not kept at all |
| Query.SortByDate | src/components/Reports/ActiveMonthDetails.jsx:41 | the result is in non-decreasing date order and is a permutation of the input |
| Query.Select | src/components/Reports/ActiveMonthDetails.jsx:38-41 | the query result is date-ordered, a permutation of the matching rows, and holds a row if and only if it is of the mess and in the window |
| Query.SumOfSelect | src/components/Reports/ActiveMonthDetails.jsx:38-41 | ordering does not change any sum: a sum over the query result equals the sum over the matching rows in table order |
| MonthReport.QueryMonth | src/components/Reports/ActiveMonthDetails.jsx:27-80 | the three lists are date-ordered and hold exactly the table rows of the mess dated in the window, each as often as it occurs in the table; the summary's totals are the sums over those rows and the mess balance is deposits less costs |
| MonthReport.FetchMonthData | src/components/Reports/ActiveMonthDetails.jsx:19-86 | without a current mess, or when any query fails, the previous report stays; with a mess and no failed query the report becomes the month's query result, whose mess balance is the in-window deposits less the in-window costs |
| MonthReport.ReportMembers | src/components/Reports/ActiveMonthDetails.jsx:31-41 | a user gets a report line if and only if they have a meal row of the mess dated in the window |
| MonthReport.DepositOutsideMonthIgnored | src/components/Reports/ActiveMonthDetails.jsx:52-54 | adding a deposit of another mess, or one dated outside the window, leaves the whole report unchanged |
| MonthReport.DepositInMonthCounted | src/components/Reports/ActiveMonthDetails.jsx:46-55 | adding an in-window deposit of the mess raises the deposit total and the mess balance by its amount and leaves the cost total unchanged |
| MonthReport.CostOutsideMonthIgnored | src/components/Reports/ActiveMonthDetails.jsx:66-68 | adding a meal cost of another mess, or one dated outside the window, leaves the whole report unchanged |
| MonthReport.CostInMonthCounted | src/components/Reports/ActiveMonthDetails.jsx:60-69 | adding an in-window meal cost raises the cost total by its amount, lowers the mess balance by it, and leaves deposits unchanged |
| MonthReport.MealOutsideMonthIgnored | src/components/Reports/ActiveMonthDetails.jsx:38-40 | adding a meal row of another mess, or one dated outside the window, leaves the whole report unchanged |
| MonthReport.DayThirtyOneReported | src/components/Reports/ActiveMonthDetails.jsx:28-29 | in a month shorter than 31 days, a deposit dated the non-existent 31st is in the report |
| MealLedger.Upsert | src/components/Meals/AddMeal.jsx:84-88 | after an upsert the row's key holds that row, every other key holds what it held, and the key set grows by at most that key |
| MealLedger.UpsertIdempotent | src/components/Meals/AddMeal.jsx:84-88 | upserting the same row twice leaves the table as upserting it once |
| MealLedger.UpsertReplaces | src/components/Meals/AddMeal.jsx:84-88 | a later upsert under the same key fully replaces the earlier row; nothing is added up |
| MealLedger.UpsertBatchContents | src/components/Meals/AddMeal.jsx:84-88 | after a batch upsert each key holds the last row of the batch with that key, or what it held before (for batches with distinct keys, the only ones the screen builds, that is the row under its key) |
| MealLedger.UpsertBatchKeyed | src/components/Meals/AddMeal.jsx:84-88 | a batch upsert keeps every stored row under its own (mess, member, date) key |
| MealLedger.UpsertBatchIdempotent | src/components/Meals/AddMeal.jsx:84-88 | replaying a batch upsert leaves the table unchanged |
| MealLedger.UpsertDistinctBatch | src/components/Meals/AddMeal.jsx:84-88 | for a batch with distinct keys, each row is stored under its key and keys outside the batch are untouched |
| MealEntry.FindForUser | src/components/Meals/AddMeal.jsx:34 | returns the first stored row of the member, or nothing when no row is theirs |
| MealEntry.InitializeMemberMeals | src/components/Meals/AddMeal.jsx:32-40 | exactly the mess members get an entry; each holds the member's stored counts for the date, or a copy of the default meal |
| MealEntry.InitializeReflectsLedger | src/components/Meals/AddMeal.jsx:24-40 | when the fetched rows are the table's rows for the mess and date, each member starts with what the table holds under their key, else the default |
| MealEntry.HandleMealChange | src/components/Meals/AddMeal.jsx:48-56 | only the edited slot of the edited member changes, to the parsed value or 0 when it does not parse; a member without an entry gets one holding only that slot; every other entry is unchanged |
| MealEntry.SetDefaultSlot | src/components/Meals/AddMeal.jsx:156-191 | editing one default input sets that slot to the parsed value or 0 and keeps the other two |
| MealEntry.ApplyDefaultToAll | src/components/Meals/AddMeal.jsx:58-64 | the new state gives every mess member, and nobody else, a copy of the default meal |
| MealEntry.InitializedDraftsComplete | src/components/Meals/AddMeal.jsx:11-40 | with a complete default meal, including the initial all-zero one, every starting entry holds all three counts, so the submit's batch can be built |
| MealEntry.AppliedDraftsComplete | src/components/Meals/AddMeal.jsx:58-64 | applying a complete default leaves every entry with all three counts |
| MealEntry.EditKeepsDraftsComplete | src/components/Meals/AddMeal.jsx:48-56 | editing a member who has an entry keeps all entries complete; editing a member with no entry creates an entry missing two counts |
| MealEntry.TotalShownIsStoredUnits | src/components/Meals/AddMeal.jsx:100-102 | the total shown beside a member with a complete entry is the number of meal units the month report counts for the row submitted for them |
| MealEntry.BuildBatch | src/components/Meals/AddMeal.jsx:73-81 | one row per entry in key order, all of the current mess, the selected date and the acting user, with distinct keys |
| MealEntry.SubmitMeals | src/components/Meals/AddMeal.jsx:66-98 | skipped if and only if there is no current mess, and rejected if and only if the store refuses; the table is unchanged unless saved; when saved, each drafted member's key holds their row and every other key is untouched; rows stay under their own keys |
| MealEntry.SubmitMealsTwice | src/components/Meals/AddMeal.jsx:66-90 | submitting the same entries twice stores the same table as submitting once |
| Deposits.BlankDepositFormNotSubmittable | src/components/Deposits/AddDeposit.jsx:9-19 | the initial and reset form fails the submit guard |
| Deposits.SubmitAgainAfterSaveSkipped | src/components/Deposits/AddDeposit.jsx:17-42 | a second submit right after a save is skipped, so the table holds exactly the one new row |
| Deposits.SubmitDeposit | src/components/Deposits/AddDeposit.jsx:17-48 | skipped if and only if the mess, member or amount is missing, and rejected if and only if the store refuses; in both cases nothing changes; when saved, exactly one row with the form's fields and the acting user is appended after the existing rows, and the form is reset |
| Deposits.RepeatedDepositsBothKept | src/components/Deposits/AddDeposit.jsx:23-32 | two identical accepted deposits both stay and the table's total grows by both amounts |
| MealCosts.BlankCostFormNotSubmittable | src/components/Meals/AddMealCost.jsx:9-19 | the initial and reset form fails the submit guard |
| MealCosts.SubmitAgainAfterSaveSkipped | src/components/Meals/AddMealCost.jsx:17-42 | a second submit right after a save is skipped, so the table holds exactly the one new row |
| MealCosts.SubmitCost | src/components/Meals/AddMealCost.jsx:17-48 | skipped if and only if the mess, amount or shopper is missing, and rejected if and only if the store refuses; in both cases nothing changes; when saved, exactly one row with the form's fields and the acting user is appended and the form is reset |
| MealCosts.RepeatedCostsBothKept | src/components/Meals/AddMealCost.jsx:23-32 | two identical accepted costs both stay and the table's total grows by both amounts |

## Left out

- Store I/O. The hosted store's queries, inserts and upserts, their
  async/await, the loading flags and the alerts are not modelled. A
  store failure is a boolean parameter (`storeAccepts`, `Outcome`).
- The `profiles (name, email)` join. The name and email copied into each
  member line (ActiveMonthDetails.jsx:98-101) are display data and are
  not modelled.
- Text parsing and formatting. `parseFloat` is modelled by its result,
  an `Option<real>` where `None` stands for NaN. `toFixed(2)` and all
  rendering are not modelled. Amounts are exact reals, so no
  floating-point rounding is modelled.
- Amount inputs. Both amount fields are `<input type="number">`
  (AddDeposit.jsx:113-123, AddMealCost.jsx:93-103), whose value is
  either empty or a valid number. The form's amount is therefore modelled
  as `Blank` or the parsed number, which is exact for what the field can
  hold.
- The clock. `new Date()` is not modelled: today's date and the selected
  month are parameters.
- Context code. The mess and member hooks, the dashboard, the
  member-management screens and the PDF export are not part of this
  model.
- MealEntry.BuildBatch requires every draft to hold all three slots.
  A partial draft arises only when a slot is edited for a member before
  the drafts are initialised (`MealEntry.EditKeepsDraftsComplete`). The
  row the source would then send, with `undefined` counts, is not
  modelled.
- MealEntry.SubmitMeals requires complete drafts, as MealEntry.BuildBatch
  does and for the same reason.
- MealEntry.SubmitMealsTwice requires complete drafts, as
  MealEntry.SubmitMeals does.
- MealLedger.UpsertBatchContents applies a batch that repeats a key as
  last-write-wins. The store runs the batch upsert as one statement, and
  that statement refuses a batch touching one key twice, leaving the
  table unchanged. This refusal is not modelled. The screen never builds
  such a batch, because `MealEntry.BuildBatch` ensures distinct keys.
- HTML constraint validation is not modelled: `min="0"`, `step` and
  `required` on the inputs (AddDeposit.jsx:84, 120-122;
  AddMealCost.jsx:100-102, 115; AddMeal.jsx:243, 256, 269). The browser
  blocks the submit while one of them fails. So Deposits.SubmitDeposit,
  MealCosts.SubmitCost and MealEntry.SubmitMeals accept negative or
  off-step values that the browser would stop.
- MonthReport.QueryMonth takes each table as a sequence of rows in the
  store's order. The meal table's uniqueness by key (`MealLedger`) is not
  connected to that sequence.
- Date columns. A store that rejects the day-31 bound of a short month
  as an invalid date is not modelled; the bound is compared as a
  (year, month, day) triple, which is how the zero-padded ISO strings
  compare.
- Concurrency. Two managers editing the same day are not modelled
  separately: the last upsert under a key wins, as
  `MealLedger.UpsertReplaces` states.
