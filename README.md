# medicine-helper: a verified model of the supply projections and the medicine store

medicine-helper keeps a list of medicine records. Each record holds a name, a pack
size (`specification`), a stock in packs and a dose for morning, noon and night. The
app derives projections from the list:

- how many whole days and units of supply are left at a target date;
- when the supply runs out, "as of now";
- how many whole packs to buy so the supply lasts a given number of extra days;
- which medicines are exhausted at a window date.

It also sorts the list by remaining days or by depletion date, and sums the doses per
time slot and per day. The list itself lives in a small store with three actions:
append, replace by id and delete by id.

This project models that core in Dafny. The modules are:

- `MedicineTypes` (`types.dfy`): the record, `updatedAt || id` as the baseline
  timestamp, and daily usage. It also defines the order-preserving subsequence relation.
- `Arith` (`arith.dfy`): the floor and ceiling facts the projections rely on, stated
  over plain variables.
- `Projection` (`projection.dfy`): `calculateRemainingDays`, `calculateMedicineExpiry`
  and `calculateSuggestedReplenishment`, with their bounds, monotonicity and minimality.
- `Collection` (`collection.dfy`): `filterByReplenishDate` and the dose totals.
- `MedicineSort` (`sorting.dfy`): `sortMedicines`. It copies the list into a fresh array
  and sorts it in place with a stable insertion sort. The sort is proved equal to a
  functional stable sort, which is proved ordered, a permutation and stable.
- `MedicineStore` (`store.dfy`): the store as a class with a `medicines` field.
  Each action replaces the field; the new value is given by the pure functions
  `Updated` and `Removed`.
- `Scenarios` (`scenarios.dfy`): worked cases on literal records.

Value types:

- Timestamps are integer milliseconds, and a day is 86400000 ms.
- `Date.now()` and the target dates are parameters.
- Stock, pack size and doses are exact reals. `Math.floor` is `.Floor`, and `Math.ceil`
  is derived from it.
- Dafny's integer `/` with a positive divisor is `Math.floor` of the quotient, also
  for negative time spans.
- The `Infinity` returned for a medicine that is never taken is the `Unbounded`
  amount.

## Model

| member | source | states |
|---|---|---|
| MedicineTypes.Baseline | src/components/MedicineList.tsx:21 | the baseline is the update time when it is set and non-zero, and the creation id otherwise; it is always one of the two |
| Projection.Elapsed | src/components/MedicineList.tsx:62-64 | the clamped elapsed days are never negative, are 0 before the end of the baseline's first day, and from the baseline on are the whole days between baseline and target |
| Projection.RemainingDays | src/components/MedicineList.tsx:53-73 | days and quantity are both unbounded exactly when daily usage is 0, whatever the stock or date; finite values are never negative |
| Projection.RemainingDaysBracket | src/components/MedicineList.tsx:62-72 | when nothing is left both are 0; otherwise days × usage ≤ remaining < (days+1) × usage and quantity ≤ remaining < quantity + 1 |
| Projection.ElapsedMonotone | src/components/MedicineList.tsx:62-64 | the clamped elapsed days grow with the target date |
| Projection.LaterTargetNeverIncreases | src/components/MedicineList.tsx:62-72 | a later target never leaves more days or more units |
| Projection.MoreStockNeverDecreases | src/components/MedicineList.tsx:64-72 | more packs in stock, everything else equal, never leaves fewer days or units |
| Projection.NothingConsumedBeforeFirstDay | src/components/MedicineList.tsx:60-71 | a target before the end of the baseline's first day consumes nothing: quantity = floor(stock × specification) and days = floor(stock × specification / usage) |
| Projection.MedicineExpiry | src/components/MedicineList.tsx:16-40 | with positive daily usage the "as of now" remaining days are never negative |
| Projection.ExpiryDateFromBaseline | src/components/MedicineList.tsx:24-34 | the depletion instant is baseline + floor(stock × specification / usage) days |
| Projection.ExpiryDateIndependentOfNow | src/components/MedicineList.tsx:24-34 | the depletion instant is the same whatever `now` is |
| Projection.ExpiryAgreesWithRemainingDays | src/components/MedicineList.tsx:24-37 | from the baseline on, the "as of now" days equal calculateRemainingDays' days at `now` |
| Projection.ExpiryRemainingDaysAtAnyTime | src/components/MedicineList.tsx:24-37 | at any `now`, also before the baseline, the "as of now" days are max(0, floor(stock × specification / usage) − daysPassed), where daysPassed may be negative |
| Projection.PackUnitsMonotone | src/components/MedicineList.tsx:95-97 | more packs hold at least as many units |
| Projection.SuggestedReplenishment | src/components/MedicineList.tsx:82-102 | zero usage gives (0 packs, total 0, target); otherwise packs ≥ 0, total = units left at the target + packs × specification, the new expiry = target + floor(total / usage) days and so at least target + daysOffset days; the suggested packs cover daysOffset days of usage and one pack fewer does not |
| Projection.ReplenishmentFacts | src/components/MedicineList.tsx:91-99 | the rounding facts behind the suggestion: a ceiling of the shortfall over the pack size covers it, one pack fewer does not, and the total lasts at least daysOffset days |
| Projection.ReplenishmentMinimal | src/components/MedicineList.tsx:93-95 | any whole number of packs below the suggested number leaves daysOffset days uncovered |
| Collection.WindowDate | src/components/MedicineList.tsx:158 | the window date is exactly offsetDays whole days after the base date |
| Collection.NeedsReplenishment | src/components/MedicineList.tsx:161-163 | a record that passes the filter's test is taken daily (positive daily usage) |
| Collection.NeedsReplenishmentIffNoDaysLeft | src/components/MedicineList.tsx:161-163 | the filter's test holds exactly when the days left at the window date are 0; a never-taken medicine fails it |
| Collection.NeedsReplenishmentIffLessThanOneDay | src/components/MedicineList.tsx:161-163 | equivalently: the medicine is taken daily and less than one day's usage is left at the window date |
| Collection.KeepNeedingReplenishment | src/components/MedicineList.tsx:160-164 | a record is in the result exactly when it is in the list and passes the test, with the same multiplicity |
| Collection.FilterByReplenishDate | src/components/MedicineList.tsx:156-165 | the kept records are exactly those exhausted at baseDate + offsetDays days |
| Collection.KeepNeedingReplenishmentIsSubsequence | src/components/MedicineList.tsx:160-164 | the filter keeps list order |
| Collection.FilterByReplenishDateProperties | src/components/MedicineList.tsx:156-165 | the result is an order-preserving subsequence and holds no medicine with zero daily usage |
| Collection.SlotTotal | src/components/MedicineList.tsx:312 | the column total of a time slot is never negative for valid doses |
| Collection.DailyTotal | src/components/MedicineList.tsx:324-326 | the daily total is never negative for valid doses |
| Collection.SlotTotalsMakeDailyTotal | src/components/MedicineList.tsx:324-326 | the morning, noon and night totals add up to the daily total |
| MedicineSort.InsertPermutes | src/components/MedicineList.tsx:128 | one insertion step adds exactly the inserted record |
| MedicineSort.StableSortPermutes | src/components/MedicineList.tsx:128 | the sort is a permutation of its input |
| MedicineSort.InsertOrdered | src/components/MedicineList.tsx:128 | inserting into an ordered list keeps it ordered |
| MedicineSort.StableSortOrdered | src/components/MedicineList.tsx:128 | the sort's result is ordered by key |
| MedicineSort.InsertWithKey | src/components/MedicineList.tsx:128 | an inserted record goes after every record with the same key |
| MedicineSort.StableSortStable | src/components/MedicineList.tsx:128 | records with equal keys keep their input order |
| MedicineSort.InsertAt | src/components/MedicineList.tsx:128 | the inserted record lands after the last record keyed no higher and before those keyed above it |
| MedicineSort.StableSortPrefix | src/components/MedicineList.tsx:128 | sorting one more element is inserting it into the sorted prefix |
| MedicineSort.InsertLast | src/components/MedicineList.tsx:128 | shifting in place leaves the array prefix equal to the insertion and the rest unchanged |
| MedicineSort.InsertionSort | src/components/MedicineList.tsx:128 | the in-place sort leaves the array equal to the stable sort of its old contents |
| MedicineSort.WithNegatedKey | src/components/MedicineList.tsx:145 | under the negated key the group of key k is the group of key -k |
| MedicineSort.ToggleKeepsGroups | src/components/MedicineList.tsx:128-145 | sorting by a key, its negation and the key again keeps each equal-key group in input order |
| MedicineSort.FieldKey | src/components/MedicineList.tsx:132-141 | the remaining-days key is max(0, floor(stock × specification / usage) − daysPassed) and never negative; the expiry key is baseline + floor(stock × specification / usage) days, whatever `now` is |
| MedicineSort.Rank | src/components/MedicineList.tsx:144 | for a record with daily usage the rank is the field key for 'asc' and its negation for 'desc' |
| MedicineSort.Comparator | src/components/MedicineList.tsx:128-145 | the comparator is the difference of the two ranks (so it is antisymmetric) and is 0 exactly when the field keys are equal |
| MedicineSort.OrderedComparator | src/components/MedicineList.tsx:128-145 | in a list ordered by rank the comparator is ≤ 0 for every earlier/later pair |
| MedicineSort.DescendingNegatesRank | src/components/MedicineList.tsx:145 | 'desc' ranks every record by the negation of its 'asc' rank |
| MedicineSort.ToggleDirectionKeepsGroups | src/components/MedicineList.tsx:128-145 | sorting asc, then desc, then asc leaves each group of equal key in its original order |
| MedicineSort.SortedIsSortable | src/components/MedicineList.tsx:128 | the sorted copy holds only the records given, so all still have daily usage |
| MedicineSort.OrderedFieldKeys | src/components/MedicineList.tsx:129-145 | ordered by the comparator means non-decreasing remaining days or expiry for 'asc' and non-increasing for 'desc' |
| MedicineSort.SortMedicines | src/components/MedicineList.tsx:127-147 | the sorted copy is a permutation of the list; 'asc' is non-decreasing and 'desc' non-increasing by the chosen key; the comparator is ≤ 0 for every earlier/later pair; equal keys keep input order |
| MedicineStore.Updated | src/store/medicineStore.ts:24-26 | same length; entries with another id unchanged; entries with the id become `med` with its id forced to the argument |
| MedicineStore.Removed | src/store/medicineStore.ts:31 | a record is kept exactly when it was in the list and its id differs |
| MedicineStore.UpdatedKeepsIds | src/store/medicineStore.ts:25 | the sequence of ids is unchanged by an update |
| MedicineStore.UpdatedAbsentUnchanged | src/store/medicineStore.ts:24-26 | updating an id no entry carries leaves the list unchanged |
| MedicineStore.UpdatedIdempotent | src/store/medicineStore.ts:24-26 | repeating the same update changes nothing more |
| MedicineStore.RemovedIsSubsequence | src/store/medicineStore.ts:31 | deletion keeps the other entries in their relative order |
| MedicineStore.RemovedAbsentUnchanged | src/store/medicineStore.ts:31 | deleting an absent id leaves the list unchanged |
| MedicineStore.RemovedIdempotent | src/store/medicineStore.ts:31 | deleting twice is deleting once |
| MedicineStore.RemovedAppend | src/store/medicineStore.ts:31 | the filter distributes over concatenation |
| MedicineStore.AddThenDeleteRestores | src/store/medicineStore.ts:16-33 | adding a record with a fresh id and deleting that id restores the list |
| MedicineStore.Store.constructor | src/store/medicineStore.ts:15 | the store starts with an empty list |
| MedicineStore.Store.AddMedicine | src/store/medicineStore.ts:16-19 | the new list is the old list with `med` appended; earlier entries and their order are unchanged |
| MedicineStore.Store.UpdateMedicine | src/store/medicineStore.ts:22-28 | the new list is the id-keyed map-replace of the old: same length and ids, other entries unchanged, an absent id changes nothing |
| MedicineStore.Store.DeleteMedicine | src/store/medicineStore.ts:29-33 | no entry with the id remains; the others keep their relative order; an absent id changes nothing |
| Scenarios.TwoPacksAtBaseline | src/components/MedicineList.tsx:53-73 | 2 packs of 20 at 6 units a day give 40 units and 6 days at the baseline |
| Scenarios.TwoPacksAfterThreeDays | src/components/MedicineList.tsx:53-73 | three days later 22 units and 3 days are left |
| Scenarios.TwoPacksBeforeBaseline | src/components/MedicineList.tsx:24-37 | ten days before the baseline the "as of now" view says 16 days left (6 + 10) and the unchanged depletion instant, while the day count at that date says 6 |
| Scenarios.HalfPackReplenishment | src/components/MedicineList.tsx:82-102 | 5 units left, 5 a day, 4 days wanted, 10-unit packs: 2 packs, total 25, new expiry target + 5 days |
| Scenarios.BaselineFollowsUpdate | src/components/MedicineList.tsx:60 | the baseline is the creation id until a non-zero update time replaces it; an update time of 0 falls back to the id |

## Left out

- IEEE-754 arithmetic is not modelled; reals are exact. This leaves out rounding of a
  fractional stock × specification, and the NaN or Infinity that
  calculateMedicineExpiry produces when daily usage is 0 (MedicineList.tsx:28). That
  case is excluded by `requires DailyUsage(m.doses) > 0.0`.
- MedicineSort.SortMedicines: requires every record to have positive daily usage, so
  it does not capture how such records sort. By remaining days, calculateMedicineExpiry
  gives a never-taken record with stock an `Infinity` key (MedicineList.tsx:28, kept by
  line 37). The comparator then gives ±Infinity against a finite key, and NaN, treated
  as equal, between two such records. These records therefore sort last for 'asc' and
  first for 'desc', in input order. A never-taken record without stock gets NaN
  remaining days, which compare as equal to every key, so the order is then not
  specified. By expiry date every never-taken record gets an Invalid Date
  (line 141), the comparator returns NaN, and the order is not specified.
- MedicineSort.SortMedicines: evaluates every comparison at one `now`. The source
  calls `Date.now()` anew in each comparison. Since the expiry instant does not depend
  on `now` (ExpiryDateIndependentOfNow), only the remaining-days key could differ.
- MedicineSort.SortMedicines: models a stable insertion sort, not the engine's own
  algorithm. Only the properties `Array.prototype.sort` guarantees (stability, order,
  permutation) are claimed.
- Projection.RemainingDays: requires the doses to be non-negative, as the form schema
  guarantees (MedicineForm.tsx:13-15). With negative doses the day count could be
  negative.
- Projection.SuggestedReplenishment: requires a positive pack size. The form
  guarantees at least 1 (MedicineForm.tsx:9).
- Date handling is left out: `new Date`, `formatDate`, `toLocaleDateString`,
  `toFixed` and the date input. These are locale and time-zone formatting of
  host dates.
- Replenish dates are instants in milliseconds.
- A never-taken medicine in the filter makes an invalid date, whose comparison is
  false. The model states this as "never kept".
- `localStorage.setItem` in addMedicine (medicineStore.ts:20) and the zustand `persist`
  middleware are browser storage and are not modelled. The payload written at line 20
  is read after `set`, and `med` is appended to it again. Whether the stored copy then
  holds `med` twice depends on persist's behaviour, which is not part of this model.
- MedicineForm.tsx is not part of this model. Only its schema constraints (lines
  9-15) appear, as `ValidDoses` and `ValidMedicine`.
- The manual `replenishQuantities` override and its fallback to the suggested number
  of packs are left out. They are user-interface input state.
- JSX rendering, dialogs, pages and the button component are left out; they are
  presentation.
- The `sortField` and `sortDirection` React state is left out. It is passed in as
  `SortOrder`.
