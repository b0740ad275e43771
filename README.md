# Budgety ledger store and number formatter, in Dafny

Budgety is a client-side budget tracker. Its `budgetController` keeps two
insertion-ordered lists of items, incomes ("inc") and expenses ("exp"), and
the aggregates last computed from them: the two totals, the budget (income
minus expense) and the overall expense percentage. Each expense also carries
its own percentage of total income. The page asks the controller to add or
delete an item. It then asks it to recompute the budget and the expense
percentages, and reads them back. The page's `formatNumber` turns an amount
into text such as `+ 1,200.00`.

This project models that store and that formatter:

- `decimal.dfy` (module `Decimal`): the decimal text of a whole number and
  the number a digit string reads back as.
- `ledger.dfy` (module `Ledger`): the `Item` datatype (`Income` without a
  percentage, `Expense` with one) and the pure rules over one list. These
  are the id rule (`NextId`), lookup (`IndexOf`), removal (`Remove`),
  totals (`Sum`) and the rounded percentage (`RoundPercent`,
  `CalcPercentage`), with the lemmas about them.
- `budget.dfy` (module `Budget`): the class `BudgetController`. Its fields
  are the two lists (`seq<Item>`) and the aggregate fields. `AddItem`,
  `DeleteItem`, `CalculateBudget` and `CalculatePercentages` change them in
  place, and `GetBudget` and `GetPercentages` read them. `Valid()` says each
  list holds its own variant with strictly increasing ids. `Current()` says
  the aggregates agree with the lists.
- `format.dfy` (module `Format`): `formatNumber` as written
  (`FormatNumber`, with the source's grouping loop), the intended formatter
  (`FormatAmount`) and what the formatted text says.
- `scenarios.dfy` (module `Scenarios`): runs of the store as the page drives
  it, with the expected totals and percentages asserted from the contracts.

Amounts are whole numbers of cents. For non-negative operands,
`Math.round(100 * v / inc)` equals `(200 * v + inc) / (2 * inc)` in integer
division. `RoundPercent` computes it that way, and its contract states it
as "the nearest whole number, halves rounded up".

In three places the model follows what the code does, which a reader might
not expect:

- The overall percentage is the number -1 before the first recompute. After
  it, the text is `"<n>%"`, or `"---"` without income (datatype `Share`:
  `Unset`, `Percent(n)`, `Dashes`). An expense uses -1 (`NoPercentage`) for
  "unknown".
- `calcPercentage` divides by the STORED income total, which is stale if
  items changed since the last `calculateBudget`. `CalculatePercentages`
  uses the field `totalInc`, not the sum of the income list.
- An expense's percentage can exceed 100. It does so exactly when the
  expense is at least 100.5% of total income (`PercentAboveHundred`); an
  expense no larger than income stays at most 100 (`PercentAtMostHundred`).

## Model

| member | source | states |
|---|---|---|
| `Ledger.PushedKeepsIdsIncreasing` | app.js:79-94 | the id addItem picks is not already in the list; appending the new item keeps ids strictly increasing and the list of one variant |
| `Ledger.PushedAllIds` | app.js:79-98 | a run of addItem calls keeps the old items, appends one item per call with that call's description and amount, and hands out ids counting up by one from the first new id |
| `Ledger.SequentialIds` | app.js:79-84 | from an empty list, the ids handed out are 0, 1, 2, ... in call order |
| `Ledger.IndexOf` | app.js:177-182 | -1 exactly when no item has the id; otherwise the first position whose item has the id |
| `Ledger.FindIndex` | app.js:177-182 | the scan over the list's ids returns exactly `IndexOf`: the first position carrying the id, or -1 |
| `Ledger.RemoveExactlyOne` | app.js:182-187 | with increasing ids, the matching item is the only one with that id; deleting it removes exactly one item and no item with that id is left |
| `Ledger.RemoveKeepsInvariant` | app.js:182-187 | the items left after a delete keep their variant and strictly increasing ids |
| `Ledger.RemoveUndoesPush` | app.js:79-94 | deleting the item just added gives the old list back, so the next add reuses that id |
| `Ledger.NextIdAfterRemove` | app.js:79-84 | deleting any item but the last leaves the next id unchanged; deleting the last lets the next id be at most the deleted one |
| `Ledger.SumConcat` | app.js:110-117 | the total of two lists joined is the sum of their totals |
| `Ledger.SumAfterRemove` | app.js:182-187 | deleting an item lowers its list's total by exactly its amount; a missing id leaves the total unchanged |
| `Ledger.RoundPercent` | app.js:124-125 | `Math.round(part / whole * 100)`: the result r satisfies whole*(2r-1) <= 200*part < whole*(2r+1), the nearest whole percentage with halves rounded up |
| `Ledger.PercentAtMostHundred` | app.js:36 | an amount no larger than income rounds to at most 100 percent |
| `Ledger.PercentAboveHundred` | app.js:36 | the rounded share is above 100 exactly when the amount is at least 100.5 percent of the whole |
| `Ledger.CalcPercentage` | app.js:33-41 | -1 exactly when total income is zero; otherwise a non-negative whole number that is the rounded percentage of income |
| `Budget.ShareTextInjective` | app.js:124-126 | distinct stored percentages ("-1", "<n>%", "---") are distinct texts |
| `Budget.BudgetController.constructor` | app.js:55-66 | the store starts with empty lists, zero totals and budget, and percentage -1 |
| `Budget.BudgetController.AddItem` | app.js:75-99 | returns the last id + 1 (0 for an empty list); the list becomes `Pushed` of the old list, so the lemmas about runs of adds apply; appends one item with that id, description and amount to its kind's list; an expense starts at -1; the other list, the old items and the aggregates are unchanged; ids stay increasing |
| `Budget.BudgetController.DeleteItem` | app.js:172-189 | the list becomes `Remove` of the old list: a missing id changes nothing; otherwise the item at `IndexOf` is spliced out, the list is one shorter and no item with that id remains; the other list and the aggregates are unchanged; ids stay increasing |
| `Budget.BudgetController.CalculateBudget` | app.js:106-128 | totals become the sums of the lists, the budget their difference, the percentage the rounded expense share of income or "---" without income; lists unchanged |
| `Budget.BudgetController.CalculatePercentages` | app.js:135-142 | each expense keeps id, description and amount, and takes the rounded share of the stored income total or -1 without income; list length and order, incomes and aggregates unchanged |
| `Budget.BudgetController.GetPercentages` | app.js:149-151 | one percentage per expense, in expense-list order |
| `Budget.BudgetController.GetBudget` | app.js:158-165 | after a recompute, the totals are the sums of the lists, the budget is their difference and the percentage is the rounded share or "---" |
| `Scenarios.RecalculateTwice` | app.js:106-128 | recomputing twice with no add or delete between gives identical summaries |
| `Decimal.ValueOfDigits` | app.js:238 | the decimal text of a whole number reads back as that number |
| `Decimal.TwoDigits` | app.js:238 | `toFixed(2)`'s fraction is two digits that read back as the hundredths |
| `Format.FormatNumber` | app.js:230-250 | the grouping loop yields the sign, a space, the whole part of `toFixed(2)`'s text grouped in threes from the right, a point and the two fraction digits |
| `Format.AsWrittenAgreesOnNonNegative` | app.js:230-250 | for a non-negative amount, the code as written gives the intended text |
| `Format.NegativeBudgetShownTwice` | app.js:327-329 | a budget of -120.00 is shown as "- -,120.00" as written, and as "- 120.00" by the intended formatter |
| `Format.GroupedStripsBack` | app.js:242-246 | removing the commas from the grouped whole part gives the digits back |
| `Format.GroupedCommas` | app.js:242-246 | a position holds a comma iff it is not the first and it starts a group of three counted from the right; n digits get (n-1)/3 commas |
| `Format.FormatAmountParts` | app.js:235-249 | the intended text starts with "+ " for an income and "- " otherwise, and ends with a point and two digits |
| `Format.FormatAmountReadsBack` | app.js:238-249 | the whole part without commas, times 100, plus the two fraction digits, is the amount in cents |
| `Format.FormatAmountGroups` | app.js:242-246 | in the intended text, a comma stands exactly before each group of three whole digits counted from the right |

## Left out

- The page itself: reading the inputs, the HTML of list rows, clearing
  fields, writing the budget and the percentages into the page, removing a
  row and restyling on a type change (`UIController` apart from
  `formatNumber`). These are presentation side effects.
- `displayMonth`, which reads the clock.
- `APPController`'s event wiring and its parsing of the row's element id on
  delete. Its input check (non-empty description, positive number) becomes
  the precondition of `AddItem`. `AddItem` states exactly what the source
  promises under that check.
- Floating point. `parseFloat` of item values, float sums and `toFixed(2)`
  rounding are not modelled: amounts are whole cents, so sums, differences,
  percentages and the formatted text are exact. Non-numeric values, which
  the store itself would accept, are outside this model.
- Kinds other than "inc" and "exp": `Kind` has just these two. In the source
  any other kind fails when it looks up a missing list.
- `deleteItem` builds the array of ids and then calls `indexOf` on it.
  `FindIndex` scans the items' ids directly for the first match, with the
  same result, and does not build the intermediate array.
- `testing()`, which only hands out the internal object.

## Findings

| source | as written | input that shows it | evidently intended | confidence | as-written member | corrected member |
|---|---|---|---|---|---|---|
| app.js:238-246 | `formatNumber` groups the whole part of `toFixed(2)`'s text including JavaScript's minus sign. `displayBudget` (app.js:327-329) passes it a negative budget with kind "exp". | a budget of -120.00 is shown as `- -,120.00`, and -1,200.00 as `- -1,200.00` | `- 120.00`: the sign comes from the kind alone | high; not executed | `Format.NegativeBudgetShownTwice` | `Format.FormatAmountReadsBack` |
