# Break-even ROAS calculator: a verified model of its core

This project models three small pieces of a browser-based break-even ROAS (return on ad
spend) calculator for e-commerce sellers. Each is written as immutable Dafny datatypes and
pure functions, with proofs about them.

- **Calculation engine** (`engine.dfy`, module `Engine`). The page's `calculateValues` takes
  one product's order value (AOV), unit cost, card-fee percentage and flat fees. It returns the
  card fee, total cost, gross profit, margin and cost percentages, the break-even ROAS, and the
  ROAS needed for margin targets of 10, 20, ..., 100 percent. Numbers are exact `real`s. A
  JavaScript division by a zero AOV is modelled by `Num` (finite, plus or minus infinity, NaN)
  with IEEE sign rules. Non-positive ad budgets give the source's exact `0` sentinel.
- **Product working set** (`products.dfy`, module `Products`). These are the page's list
  operations keyed by product id: add, remove, duplicate and field update. It also covers the
  effect that moves the selected tab when its product disappears.
- **In-memory repository** (`storage.dfy`, `sorting.dfy`, modules `Storage` and `Sorting`). The
  server's `MemStorage` holds users, saved calculations and templates. Each table is an
  insertion-ordered sequence, which is the iteration order of a JavaScript `Map` whose keys are
  never re-inserted. All three tables draw ids from one shared counter, rendered as a decimal
  string (`decimal.dfy`, module `Decimal`). Lists are returned newest first by a stable sort.
- **Translation lookup** (`i18n.dfy`, module `I18n`). The `t` function looks a key up in the
  current language's table, then in the Turkish table, then falls back to the key itself. It
  then fills `{name}` placeholders one parameter at a time, replacing only the first occurrence
  of each.

`common.dfy` holds the `Option` type used for JavaScript's `undefined`/`null`.

The clock (`new Date()`), `Math.random` ids, `parseFloat`, and the translated strings `t`
returns are all parameters of the functions that need them. A fresh product id is assumed not
to be in the list already; the lemmas that need this state it as a precondition.

Two behaviours of the code are worth stating plainly:
- A zero AOV makes the percentage fields `-Infinity` or `+Infinity`. They are NaN only when
  the numerator is 0 as well. `Engine.ZeroOrderValueProduct` shows the case.
- `createTemplate` writes `description || null`, so it stores an empty description as `null`,
  just like an absent one.

## Model

| member | source | states |
|---|---|---|
| Engine.Divide | client/src/pages/home.tsx:119-120 | a quotient is finite exactly when the divisor is non-zero, and then multiplies back to the dividend; 0/0 is NaN, a positive number over 0 is +Infinity |
| Engine.CreateDefaultValues | client/src/pages/home.tsx:98-107 | a new product keeps the given id and name and starts with a positive order value and non-negative costs |
| Engine.RoasForMargin | client/src/pages/home.tsx:126-132 | the margin-target ROAS is order value over available ad budget when that budget is positive, else the sentinel 0; for a non-zero order value it is 0 exactly when the budget is not positive, and for a positive one it is positive exactly when the budget is |
| Engine.RoasSweep | client/src/pages/home.tsx:134-137 | the sweep has exactly 10 entries; entry i has margin (i+1)*10 and that margin's ROAS |
| Engine.Calculate | client/src/pages/home.tsx:109-151 | fee is the percentage of the order value; total cost is the sum of the five cost parts; profit plus total cost equals the order value; margin percentage is profit over order value times 100 and cost percentage is total cost over order value times 100, both as JavaScript divides (so a zero order value gives signed Infinity, or NaN over a zero numerator); for a non-zero order value both are finite and add to 100, and for a zero one they are not finite; break-even ROAS is 0 when profit is not positive, else order value over profit; 10 sweep entries; targetRoas10/20 equal the first two sweep entries |
| Engine.CostsAsCalculated | client/src/pages/home.tsx:110-118 | the card fee, total cost and gross profit computed directly from a product's figures are the ones `calculateValues` reports |
| Engine.CalculateDependsOnFiguresOnly | client/src/pages/home.tsx:109-151 | two products with the same six figures get identical metrics, whatever their id and name |
| Engine.BreakEvenLeavesZeroProfit | client/src/pages/home.tsx:122-123 | spending order value / break-even ROAS on ads leaves exactly zero profit, which is what break-even means |
| Engine.BreakEvenAtLeastOne | client/src/pages/home.tsx:122-123 | with a positive order value, non-negative costs and positive profit, break-even ROAS is at least 1, and above 1 when the total cost is positive |
| Engine.MarginTargetIsMet | client/src/pages/home.tsx:126-132 | buying ads at the margin-target ROAS leaves exactly the target share of the order value as profit |
| Engine.RoasMonotoneInMargin | client/src/pages/home.tsx:126-132 | for a positive order value, a higher target never needs a lower positive ROAS, and once a target gives 0 every higher target gives 0 |
| Engine.SweepOrdered | client/src/pages/home.tsx:134-137 | the sweep's margins strictly ascend; its positive ROAS values never decrease; after a 0 entry every later entry is 0 |
| Engine.DefaultProductFigures | client/src/pages/home.tsx:98-151 | the sample product has fee 24, total cost 92.25, profit 907.75, margin 90.775 percent, break-even ROAS 1000/907.75 and ROAS 1000/807.75 at a 10 percent target |
| Engine.LossMakingProduct | client/src/pages/home.tsx:118-123 | order value 100 with cost 120 gives profit -20 and break-even ROAS 0 |
| Engine.ZeroOrderValueProduct | client/src/pages/home.tsx:119-123 | a zero order value with cost 50 gives margin -Infinity, cost share +Infinity, break-even ROAS 0 |
| Products.AddProduct | client/src/pages/home.tsx:748-752 | exactly one product is appended and the existing entries are untouched; it has the new id, the default figures, and the name "<new product text> <new list length>" |
| Products.DuplicateProduct | client/src/pages/home.tsx:762-770 | exactly one product is appended and the existing entries are untouched; it has the new id, every figure of the original, and the original name plus " (<copy text>)" |
| Products.DuplicateHasSameMetrics | client/src/pages/home.tsx:762-770 | a duplicate shows exactly the metrics of the product it copies |
| Products.Without | client/src/pages/home.tsx:756 | no entry with the id remains, and the length drops by exactly the number of entries that had it |
| Products.WithoutMembers | client/src/pages/home.tsx:756 | the filter keeps exactly the entries whose id differs |
| Products.WithoutAppend | client/src/pages/home.tsx:756 | the filter distributes over concatenation, so kept entries keep their relative order |
| Products.WithoutAbsent | client/src/pages/home.tsx:756 | filtering out an id that is not in the list returns the list unchanged |
| Products.RemoveProduct | client/src/pages/home.tsx:754-760 | a list of at most one product is left unchanged; otherwise the result is the list with that id filtered out; removing an absent id changes nothing |
| Products.RemoveKeepsWorkingSet | client/src/pages/home.tsx:754-760 | on a non-empty list with unique ids, removal keeps the list non-empty with unique ids, shrinks it by one exactly when the id was present and the list had more than one entry, and leaves the id absent unless it was the only product |
| Products.AppendKeepsWorkingSet | client/src/pages/home.tsx:748-770 | adding or duplicating under an id not yet in the list keeps the list non-empty with unique ids |
| Products.SetFigure | client/src/pages/home.tsx:776-779 | setting one figure changes that figure only; id, name and the other five figures are kept |
| Products.NumberOrZero | client/src/pages/home.tsx:778 | a failed parse or a parsed 0 gives 0; any other parsed number is kept |
| Products.Edit | client/src/pages/home.tsx:775-780 | editing the name stores the typed text as given; editing a figure stores the parsed value (or 0) in that figure only; the id never changes |
| Products.UpdateProduct | client/src/pages/home.tsx:772-784 | length and order are unchanged; entries with other ids are untouched; every entry with the id gets the edit |
| Products.UpdateKeepsWorkingSet | client/src/pages/home.tsx:772-784 | an update keeps the list non-empty with unique ids |
| Products.FixActiveTab | client/src/pages/home.tsx:714-724 | the comparison tab and a tab whose product exists stay put; a tab whose product is gone moves to the last product; on a non-empty list the result is the comparison tab or an existing id |
| Products.FixActiveTabIdempotent | client/src/pages/home.tsx:714-724 | running the effect again on its own result changes nothing, so it settles after one run |
| Products.RemoveActiveSwitchesToLast | client/src/pages/home.tsx:714-724 | removing the open product from a list of two or more moves the tab to the last remaining product |
| Products.AddToSingleNamesSecond | client/src/pages/home.tsx:750 | adding to a one-product list names the new product "<new product text> 2" |
| Decimal.NatToString | server/storage.ts:54 | the rendering is a non-empty string of digits, one digit long exactly for numbers below 10, with no leading zero otherwise |
| Decimal.ParseRendered | server/storage.ts:54 | reading the decimal rendering of n back gives n |
| Decimal.RenderInjective | server/storage.ts:54 | distinct counter values render to distinct id strings |
| Sorting.Insert | server/storage.ts:61-63 | inserting into a newest-first list gives a newest-first list with exactly one more element |
| Sorting.SortNewestFirst | server/storage.ts:61-63 | the sort returns a permutation of its input, ordered by key from largest to smallest |
| Sorting.SortIsStable | server/storage.ts:61-63 | entries with equal keys keep their input order |
| Storage.FindIndex | server/storage.ts:47-51 | the index found is the first row with the key; none is found exactly when no row has it |
| Storage.Find | server/storage.ts:66-68 | a found row is in the table and has the key; nothing is found exactly when no row has it |
| Storage.Drop | server/storage.ts:83-85 | the remaining rows are exactly the rows with other keys, and keys distinct before stay distinct |
| Storage.FindAfterDrop | server/storage.ts:83-85 | deleting one key leaves every other key's lookup unchanged |
| Storage.FindAppended | server/storage.ts:79 | a row appended under a fresh key is what a lookup of that key finds |
| Storage.FindOtherAfterAppend | server/storage.ts:79 | appending a row leaves lookups of other keys unchanged |
| Storage.NextIdIsFresh | server/storage.ts:34 | the counter's next id is none of the ids it has issued |
| Storage.NewStorage | server/storage.ts:36-41 | the store starts with three empty tables, the counter at 1, and valid |
| Storage.GetUser | server/storage.ts:43-45 | a found user has the id and is stored; none is found exactly when no user has the id |
| Storage.GetUserByUsername | server/storage.ts:47-51 | the result is the first stored user with that username, or none exactly when no user has it |
| Storage.CreateUser | server/storage.ts:53-58 | the new user carries the given fields and the counter's current value as id; it is appended and the counter moves on by one |
| Storage.GetCalculations | server/storage.ts:60-64 | the list is exactly the stored calculations, ordered newest first, with a missing time counting as 0 |
| Storage.GetCalculation | server/storage.ts:66-68 | a found calculation has the id and is stored; none is found exactly when the id is not stored |
| Storage.CreateCalculation | server/storage.ts:70-81 | the new calculation has the counter's current value as id, the given name, the given products or an empty list, and the creation time; it is appended and the counter moves on |
| Storage.DeleteCalculation | server/storage.ts:83-85 | reports true exactly when the id was stored; afterwards it is not; users, templates and the counter are untouched |
| Storage.GetTemplates | server/storage.ts:87-91 | the list is exactly the stored templates, ordered newest first |
| Storage.GetTemplate | server/storage.ts:93-95 | a found template has the id and is stored; none is found exactly when the id is not stored |
| Storage.StoredDescription | server/storage.ts:102 | a description is stored exactly when it is present and non-empty, and then unchanged |
| Storage.CreateTemplate | server/storage.ts:97-109 | the new template has the counter's id, the given name, the description or null, the given products or an empty list, and the creation time; it is appended and the counter moves on |
| Storage.DeleteTemplate | server/storage.ts:111-113 | reports true exactly when the id was stored; afterwards it is not; users, calculations and the counter are untouched |
| Storage.CreatesKeepValid | server/storage.ts:34-109 | every create issues an id held by no row of any table, and keeps every id issued and pairwise distinct across all three tables |
| Storage.DeletesKeepValid | server/storage.ts:83-113 | deletes keep every id issued and pairwise distinct |
| Storage.SuccessiveIdsDiffer | server/storage.ts:71-98 | a calculation and the template created right after it get different ids |
| Storage.GetAfterCreateCalculation | server/storage.ts:66-81 | after a create, the calculation is found under its id with the given name and the products or an empty list; other lookups and the template list are unchanged |
| Storage.GetAfterCreateTemplate | server/storage.ts:93-109 | after a create, the template is found under its id; other template lookups and the calculation list are unchanged |
| Storage.GetAfterCreateUser | server/storage.ts:43-58 | after a create, the user is found by id and a user with that username is found |
| Storage.DeleteCalculationOnlyRemovesId | server/storage.ts:83-91 | deleting a calculation leaves every other calculation lookup and the template list unchanged |
| Storage.DeleteTemplateOnlyRemovesId | server/storage.ts:60-113 | deleting a template leaves every other template lookup and the calculation list unchanged |
| Storage.DeleteTwice | server/storage.ts:83-113 | deleting the same id a second time reports false |
| I18n.Lookup | client/src/lib/i18n.tsx:38 | the current language's entry if it is non-empty, else the Turkish entry if that is non-empty, else the key; the result is empty only for an empty key |
| I18n.IndexOf | client/src/lib/i18n.tsx:42 | the position returned is the first occurrence at or after the start; none is returned exactly when there is no occurrence |
| I18n.ReplaceFirst | client/src/lib/i18n.tsx:42 | with no occurrence the text is unchanged; otherwise the first occurrence is replaced by the value, inserted literally |
| I18n.ApplyParams | client/src/lib/i18n.tsx:41-43 | with no parameters the text is unchanged; otherwise the last parameter is applied to the text the earlier ones produced, so parameters apply in entry order |
| I18n.T | client/src/lib/i18n.tsx:37-47 | without parameters, or with an empty parameter object, t returns the looked-up text unchanged |
| I18n.AbsentPlaceholderIsNoop | client/src/lib/i18n.tsx:42 | a parameter whose placeholder does not occur leaves the text unchanged, under both the literal replace and the source's pattern-expanding replace |
| I18n.LaterOccurrenceRemains | client/src/lib/i18n.tsx:42 | with a literal replace, a later non-overlapping occurrence of the placeholder is still in the output, shifted by the length difference |
| I18n.LaterOccurrenceRemainsAsWritten | client/src/lib/i18n.tsx:42 | with the source's replace, a later non-overlapping occurrence is still in the output, shifted by the length of the expanded value |
| I18n.AsWrittenIsLiteralOfExpansion | client/src/lib/i18n.tsx:42 | the source's replace is the literal replace of the pattern-expanded value |
| I18n.InsertedTextIsSubstitutedLater | client/src/lib/i18n.tsx:41-43 | text inserted by an earlier parameter is replaced by a later one, so swapping the entries changes the result |
| I18n.RepeatedPlaceholderFilledOnce | client/src/lib/i18n.tsx:42 | a placeholder used twice is filled only at its first occurrence |
| I18n.Expand | client/src/lib/i18n.tsx:42 | the replacement-pattern expansion of ECMA-262 GetSubstitution; a value without `$` comes out as it is |
| I18n.ReplaceFirstAsWritten | client/src/lib/i18n.tsx:42 | with no occurrence the text is unchanged; otherwise the text before the first occurrence is a prefix of the result and the text after it a suffix; a value without `$` gives exactly the literal replacement |
| I18n.ApplyParamsAsWritten | client/src/lib/i18n.tsx:41-43 | the source's fold applies the last parameter to the text the earlier ones produced; it equals the literal fold when no parameter value holds `$` |
| I18n.TAsWritten | client/src/lib/i18n.tsx:37-47 | the source's t returns the looked-up text without parameters or with an empty object, and agrees with the literal t on every lookup whose parameter values hold no `$` |
| I18n.DollarNameCounterexample | client/src/lib/i18n.tsx:42 | the source turns the value `$&` into the placeholder itself, where the literal replacement shows `$&` |

## Findings

| source | as written | input that shows it | evidently intended | confidence | as-written member | corrected member |
|---|---|---|---|---|---|---|
| client/src/lib/i18n.tsx:42 | `text.replace("{name}", String(value))` passes the value as a replacement *pattern*, so `$&`, `$'`, `` $` `` and `$$` in it are expanded | loading a saved calculation named `$&` gives `t("successLoadedDesc", { name: "$&" })`, whose toast shows `"{name}"` instead of the name | the value is inserted literally | medium (not executed) | I18n.DollarNameCounterexample | I18n.ReplaceFirst |

`I18n.TAsWritten` is the source's `t` with the pattern expansion (`I18n.Expand`). `I18n.T` is the
literal version. The contract of `I18n.TAsWritten` states that the two agree whenever no value
contains `$`, so every property proved about `T` also holds for the source on such values.

## Left out

- Rendering: JSX, dialogs, tabs, charts, colour thresholds, `StickyResultBar` and `CountUp`.
  These are presentation and animation only.
- `formatCurrency`, `formatPercent` and `formatRoas`. They are locale formatting done by `Intl.NumberFormat`.
- IEEE-754 rounding and `toFixed`. The engine works in exact reals; only division by zero
  follows IEEE rules.
- Engine.Calculate: states the algebraic identities over exact reals; the doubles the source
  computes may differ from them by rounding.
- localStorage persistence, the saved-history list, the share-link token and `JSON.parse`
  error handling. These are browser I/O and foreign encoders.
- PDF and spreadsheet export, which are foreign libraries.
- Random product ids, which are parameters. The lemmas that need a fresh id require it to be
  absent from the list.
- Storage.Drop: states which rows remain, but not that they keep their insertion order, which
  `Map.delete` does. The order only matters for ties between equal `createdAt` stamps in the
  sorted lists.
- Products.UpdateProduct: the `id` field cannot be edited in the model; the page never passes it.
- Products.NumberOrZero: `parseFloat` is a parameter returning a real or nothing (NaN). Its
  `Infinity` result is not modelled.
- Switching to the new tab after `addProduct` (a deferred `setActiveTab`) is not modelled.
  That is UI scheduling.
- `Object.entries` puts integer-like keys first in ascending order. The parameter list of `t`
  is taken to be already in entry order. `String(paramValue)` of numbers is left to the caller:
  values are strings.
- A stored language other than Turkish or English, which would make `translations[language]`
  undefined and throw. `Language` has only the two values.
- The counter is an unbounded natural. The source's double loses integer precision past 2^53,
  which a process never reaches.
- The HTTP routes in `server/routes.ts` and the schema declarations in `shared/schema.ts`.
  The schema is used only for the shape of the records.
- The translation tables themselves. They are parameters of `t`.
- Evaluating the engine twice on the same input gives the same output. This holds for every
  Dafny function, so it is not stated separately.
