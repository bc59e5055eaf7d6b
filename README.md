# Food diary core in Dafny

A model of the record logic beneath a small browser food diary (smishr97/studio).
The diary keeps one list of `MealEntry` records. Each record belongs to a day
(`YYYY-MM-DD`) and a meal slot (Breakfast, Lunch, Dinner, Snack), and carries
a name, a category and eight optional fields: notes, side dishes, two times in
minutes and four nutrient amounts.

The model covers five parts:

- `types.dfy` (`Types`): the closed slot and category enumerations, the record,
  and its well-formedness: a `YYYY-MM-DD` date, a name of at least two
  characters, whole non-negative minutes, non-negative nutrients.
- `store.dfy` (`Store`): the page's `allMeals` collection as a class
  `MealStore`, with the upsert-by-id and delete-by-id handlers. Each is proved
  against a function on sequences (`Upserted`, `DeleteById`), with lemmas on
  those functions.
- `daily_view.dfy` (`DailyView`): the per-slot lookup the day view renders,
  and the one-entry-per-slot convention it relies on.
- `summary.dfy` (`Summary`): the nutrient fold, as a loop method
  proved against the recursive `Total`. Also the day, week and month filters
  and the weekly and monthly averages (total / 7 and total / 30).
- `meal_form.dfy` (`MealForm`): the add/edit dialog's schema as a validator,
  the initial form values, and the record `onSubmit` builds. Round trips
  between the form and the record are proved.

Supporting modules:

- `wrappers.dfy` (`Wrappers`): `Option`.
- `array_ops.dfy` (`ArrayOps`): JavaScript's `findIndex`, `find` and `filter`.
- `date_strings.dfy` (`DateStrings`): JavaScript's string `<`/`<=`. Its lemma
  shows that on `YYYY-MM-DD` strings this order is calendar order.

Three behaviours of the code worth knowing:

- **The id on submit.** `existingMeal?.id || crypto.randomUUID()` also takes
  the fresh id when the existing meal's id is the empty string, not only when
  there is no existing meal (`MealForm.BuildEntry`).
- **Notes when editing.** An edited meal whose notes or side dishes were
  absent comes back with them as empty text. `getInitialFormInputValues` turns
  absence into `""`, and the schema keeps `""` as a string
  (`MealForm.EditUnchangedRoundTrip`).
- **Upsert then query.** After an upsert, the slot lookup returns the new
  record only if no older record occupies that slot, because the store does
  not enforce one entry per slot (`DailyView.LookupAfterUpsertCanShowOtherEntry`).
  Saving through a slot's own card keeps the convention
  (`DailyView.SaveFromCardKeepsSlotsUnique`).

## Model

| member | source | states |
|---|---|---|
| Types.MealTypesEnumerateSlots | src/lib/types.ts:1-2 | exactly four slots, in the order Breakfast, Lunch, Dinner, Snack, every slot listed, names pairwise distinct |
| Types.MealCategoriesListEveryCategory | src/lib/types.ts:4-17 | eleven categories, "General" first, every category listed |
| Types.MealCategoriesDistinct | src/lib/types.ts:4-17 | no two listed categories share a name |
| Types.CategoryNameInjective | src/lib/types.ts:4-17 | two categories with the same name are the same category |
| Types.CategoryNamed | src/lib/types.ts:4-17 | a name that parses yields the category with exactly that name |
| Types.CategoryNamedRejectsOnlyUnknownNames | src/lib/types.ts:4-17 | parsing fails if and only if no category has that name (the closed enum) |
| Types.CategoryNameRoundTrip | src/lib/types.ts:4-17 | every category's own name parses back to it |
| DateStrings.AtMostIsTotalOrder | src/components/summary/SummaryDashboard.tsx:45 | JavaScript's string `<=` is reflexive, antisymmetric, transitive and total |
| DateStrings.DateLessIsEarlier | src/components/summary/SummaryDashboard.tsx:45 | on `YYYY-MM-DD` strings, string `<` holds exactly when the first date is earlier by (year, month, day) |
| DateStrings.WindowIsCalendarWindow | src/components/summary/SummaryDashboard.tsx:53 | `start <= d && d <= end` on dates is the inclusive calendar window |
| ArrayOps.FindIndex | src/app/page.tsx:36 | -1 exactly when nothing matches, otherwise the lowest matching index |
| ArrayOps.Find | src/components/daily-view/DailyView.tsx:20-22 | nothing exactly when nothing matches, otherwise a matching element of the list |
| ArrayOps.Filter | src/app/page.tsx:58 | no longer than the input, every kept element matches and comes from the input, every matching element is kept |
| ArrayOps.FilterCounts | src/app/page.tsx:58 | every copy of a passing element is kept and every copy of a failing one is dropped |
| ArrayOps.FilterIsSubsequence | src/app/page.tsx:58 | `filter` keeps the input's relative order |
| ArrayOps.FilterAppend | src/components/summary/SummaryDashboard.tsx:38 | filtering a concatenation concatenates the filtered parts |
| ArrayOps.FilterKeepsAll | src/app/page.tsx:58 | filtering returns the input unchanged if and only if every element matches |
| ArrayOps.FilterIdempotent | src/app/page.tsx:58 | filtering twice by the same test is filtering once |
| ArrayOps.FilterNarrows | src/components/summary/SummaryDashboard.tsx:43-46 | filtering by a wider test, then by a narrower one, is filtering by the narrower one |
| Store.Upserted | src/app/page.tsx:36-44 | with the id present, same length and only the first index with that id overwritten; with it absent, the old list plus the entry at the end |
| Store.DeleteById | src/app/page.tsx:58 | no kept entry has the id, every kept entry was in the list, and every entry with another id is kept as often as it occurs |
| Store.UpsertStoresEntry | src/app/page.tsx:39-44 | after an upsert the entry, and so its id, is in the list |
| Store.UpsertReplacesFirstMatch | src/app/page.tsx:36-41 | with `k` the first index holding the id, the result is the list with position `k` replaced |
| Store.UpsertAppendsNewId | src/app/page.tsx:44 | an absent id is appended: the result is the list followed by the entry |
| Store.UpsertIdempotent | src/app/page.tsx:36-44 | upserting the same entry twice is upserting it once |
| Store.UpsertKeepsIdsUnique | src/app/page.tsx:36-44 | a list with distinct ids keeps distinct ids after an upsert |
| Store.DeleteRemovesEveryMatch | src/app/page.tsx:58 | after a delete no entry with that id remains, not merely the first |
| Store.DeleteAbsentIsNoOp | src/app/page.tsx:58 | deleting an id that is absent returns an equal list |
| Store.DeleteIdempotent | src/app/page.tsx:58 | deleting twice is deleting once |
| Store.DeleteKeepsOrder | src/app/page.tsx:58 | the remaining entries keep their relative order |
| Store.MealStore.constructor | src/app/page.tsx:17 | the collection starts empty |
| Store.MealStore.UpdateMeal | src/app/page.tsx:34-46 | the new collection is the upsert of the old one by the record's id (copy, overwrite the slot or append), and the record is in it |
| Store.MealStore.DeleteMeal | src/app/page.tsx:48-60 | the new collection is the old one without the id, and the id is gone |
| DailyView.MealForSlot | src/components/daily-view/DailyView.tsx:19-23 | nothing exactly when no entry has both the day and the slot; otherwise an entry with that day and slot, the one at the lowest such index |
| DailyView.DayCards | src/components/daily-view/DailyView.tsx:29-33 | four cards, one per slot in `mealTypes` order, each showing that slot's lookup: the first occupant, or nothing exactly when the slot is empty |
| DailyView.LookupFindsOccupant | src/components/daily-view/DailyView.tsx:20-22 | with at most one entry per slot, every stored entry is what its own slot shows |
| DailyView.LookupAfterAddingToEmptySlot | src/components/daily-view/DailyView.tsx:20-22 | upserting a new id into an empty slot makes the lookup of that slot return it |
| DailyView.LookupAfterUpsertCanShowOtherEntry | src/components/daily-view/DailyView.tsx:20 | a list and entry for which, after the upsert, the slot lookup returns an older entry with another id |
| DailyView.SaveFromCardKeepsSlotsUnique | src/components/daily-view/DailyView.tsx:29-35 | saving a new id into an empty slot, or editing the entry a slot shows, keeps one entry per slot and makes the slot show the saved record |
| Summary.CalculateSummary | src/components/summary/SummaryDashboard.tsx:22-33 | the loop's four accumulators end equal to the fold `Total` of the list |
| Summary.TotalOfNothing | src/components/summary/SummaryDashboard.tsx:31 | the summary of the empty list is all zeros |
| Summary.AbsentNutrientAddsNothing | src/components/summary/SummaryDashboard.tsx:25-28 | an entry without a nutrient leaves that nutrient's total unchanged |
| Summary.TotalAppend | src/components/summary/SummaryDashboard.tsx:23-32 | the summary of `a ++ b` is the componentwise sum of the two summaries |
| Summary.TotalCons | src/components/summary/SummaryDashboard.tsx:23-32 | the summary of an entry followed by a list is that entry's amounts plus the list's summary |
| Summary.TotalBounds | src/components/summary/SummaryDashboard.tsx:23-32 | with non-negative amounts, every total is non-negative and at least each single entry's amount |
| Summary.FilteredTotalAtMost | src/components/summary/SummaryDashboard.tsx:35-57 | with non-negative amounts, a filtered list's totals never exceed the whole list's |
| Summary.NonNegativeSurvivesFilter | src/components/summary/SummaryDashboard.tsx:35-57 | filtering keeps amounts non-negative |
| Summary.MealsInPeriod | src/components/summary/SummaryDashboard.tsx:35-57 | exactly the entries on the day (string equality), or within the inclusive week or month bounds, in their original order and each as often as it occurs |
| Summary.DayWithinWindow | src/components/summary/SummaryDashboard.tsx:38-45 | when start <= day <= end, the day's entries are those of the window that fall on the day, and a subsequence of the window |
| Summary.SummaryData | src/components/summary/SummaryDashboard.tsx:70-78 | the daily figure is the day's total; weekly average times 7 and monthly average times 30 give back the week's and month's totals |
| Summary.DailyAtMostPeriodTotals | src/components/summary/SummaryDashboard.tsx:70-78 | with non-negative amounts and the day inside both windows, the daily figure is at most 7 times the weekly average and 30 times the monthly one |
| MealForm.Errors | src/components/meal-entry/MealFormDialog.tsx:42-71 | a field is reported exactly when its check fails |
| MealForm.ErrorsUnlessChecksPass | src/components/meal-entry/MealFormDialog.tsx:42-71 | a form failing any check has at least one error |
| MealForm.Validate | src/components/meal-entry/MealFormDialog.tsx:42-71 | accepted if and only if the name has at least 2 characters, the category is one of the eleven, and each numeric box is empty or a number >= 0, whole for the two times; rejection reports exactly the failing fields; accepted values copy name, category and texts |
| MealForm.AmountOfAcceptable | src/components/meal-entry/MealFormDialog.tsx:47-70 | an accepted box gives nothing exactly when it was empty, otherwise its number, non-negative and whole when asked |
| MealForm.AcceptedAmountsFollowTheBoxes | src/components/meal-entry/MealFormDialog.tsx:47-70 | an accepted form's six amounts are the boxes' numbers, absent exactly where a box was empty, whole non-negative minutes and non-negative nutrients |
| MealForm.InitialValues | src/components/meal-entry/MealFormDialog.tsx:90-101 | with no meal, empty texts, "General" and empty boxes; with a meal, its name, category name, notes or "", and each box empty exactly when the field is absent and otherwise holding the stored number |
| MealForm.BuildEntry | src/components/meal-entry/MealFormDialog.tsx:128-133 | the existing meal's id when it has a non-empty one, otherwise the fresh id; the dialog's day and slot; the accepted name, category, texts and six amounts |
| MealForm.Submit | src/components/meal-entry/MealFormDialog.tsx:166 | a record is saved if and only if the schema accepts the form, and it is the record built from the accepted values |
| MealForm.SubmittedEntryIsWellFormed | src/components/meal-entry/MealFormDialog.tsx:127-134 | for a `YYYY-MM-DD` day, whatever is saved is a well-formed record |
| MealForm.NewFormComplainsOnlyOfName | src/components/meal-entry/MealFormDialog.tsx:90-101 | the empty dialog is rejected, and the name is its only error |
| MealForm.BoxRoundTrip | src/components/meal-entry/MealFormDialog.tsx:95-100 | a stored amount shown in a box is accepted and read back unchanged |
| MealForm.EditUnchangedRoundTrip | src/components/meal-entry/MealFormDialog.tsx:127-133 | opening a well-formed meal and saving it unchanged returns the same record, with absent notes and side dishes turned into "" |

## Left out

- Persistence: `useLocalStorage` (reading and writing `window.localStorage`, JSON encoding) is not part of this model. The store starts from an empty list.
- Toasts in `handleUpdateMeal` and `handleDeleteMeal` are UI side effects. `DeleteMeal` does not model the `find` that only chooses the toast text.
- The date-fns calls (`format`, `startOfWeek`, `endOfWeek`, `startOfMonth`, `endOfMonth`) are a foreign library. The day string and the week and month bounds are given as `PeriodBounds`.
- The `return []` for an unknown period is unreachable here: `Period` is a closed datatype.
- `DateStrings.IsDate` checks month 01-12 and day 01-31 but not the number of days in each month. Years are four digits.
- Floating point: amounts are `real`. JavaScript double addition, the rounding in / 7 and / 30, and the `toFixed(0)` display are not modelled.
- Text-to-number coercion (`z.coerce.number`, JavaScript `Number()` on text, including whitespace or exponent forms) is library behaviour. A numeric box is given as what its text denotes: empty, a number, or not a number (`NumberInput`).
- Error messages and the react-hook-form state object are not modelled. `MealForm.Validate` reports failing fields in schema order, without messages.
- Strings are `seq<char>`: length counts characters and `DateStrings.Less` compares characters, not UTF-16 code units, so both differ from JavaScript above U+FFFF (dates are ASCII, so the period filters are unaffected).
- `crypto.randomUUID` is nondeterministic. The fresh id is a parameter.
- `MealForm.InitialValues` does not model JSON `null` in stored optional fields: the record type has only present or absent values.
- Dialog state (`setIsOpen`, `form.reset`) and all rendering are not modelled. That includes MealCard, the header, layout, calendar and summary page, charts and tabs.
- Several browser tabs sharing one storage key (last writer wins) is concurrency outside this model.
