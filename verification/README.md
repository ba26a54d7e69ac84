# Personal finance tracker: a Dafny model of its client-side core

The application keeps a list of transactions. Each transaction has an id, an
amount, a category, an ISO date, notes and an optional creation stamp. The
page shows the list, sorts it, charts it and lets the user add records. A
signed-out visitor's records live in the browser's session storage. This
project models the logic behind that page:

- **Category style** (`constants/categoryStyle.ts`): the shared ten-colour
  palette and `hexToRgba`. Also the label hash: it normalises with
  `(label || "Uncategorized").trim().toLowerCase()`, runs a 31-multiplier
  polynomial wrapped to 32 bits by `| 0`, and takes `Math.abs(h) % mod`.
  The module also covers the per-label pie colours and `getCategoryMeta`
  (colour slot, tinted background and border, icon).
- **Spending charts** (`app/components/SpendingCharts.tsx`): the chart's own
  palette and its hash, which does not normalise. The twelve-month window
  of `YYYY-MM` keys, with the month totals bucketed through a key-to-position
  map. The per-category totals in first-seen order. The KPI total and
  average. The "No data" placeholder of the doughnut chart.
- **Sorting** (`app/hooks/useSort.ts`): the sort state, `toggleSortDir` and
  `setSortBy`. The three comparators: date, amount and category. The stable
  sort of a copy of the list.
- **Transaction list** (`app/components/TransactionList.tsx`): the empty
  view. The colour slot a category gets from an insertion-order counter
  taken modulo the seven chip classes. The avatar letter, and the chip
  text of each row.
- **Demo storage** (`lib/demoStorage.ts`): `loadDemo`, `saveDemo`, `addDemo`
  and `removeDemo` over a storage map, including the JSON round trip.
- **Transaction form** (`app/components/TransactionForm.tsx`): the field
  updates, the rule that disables the Add button, and the record a submit
  hands on.

JavaScript semantics are spelled out where the code relies on them:

- `Number(x) || 0` maps `NaN` to 0. An amount is a real number or `NaN`.
- `| 0` is the ECMAScript ToInt32 conversion.
- `Array.prototype.sort` is stable. The model uses insertion sort, which
  keeps equal elements in their input order.
- A `Map` keeps its keys in insertion order.
- `JSON.stringify` writes `NaN` as `null`.

Line 99 of `SpendingCharts.tsx` parses as `((prev || 0) + amount) || 0`.
So a `NaN` amount resets its category's running total to 0. The model keeps
that behaviour and proves what it means: a category's slice is the sum of
its amounts after the last unparsable one.

Three behaviours of the code worth noting:

- The doughnut's categories are in first-seen order. They are not sorted by
  descending total.
- The list's chip and avatar colours come from the insertion-order counter
  of `TransactionList.tsx`. They do not come from the category hash.
- The chart component has its own palette and its own, case-sensitive hash.
  It does not use `constants/categoryStyle.ts`.

Modules: `Wrappers` (Option), `Text` (trim, ASCII case, ordinal comparison),
`Sums`, `FirstSeen` (first-seen de-duplication), `Transactions` (the record
and its category key), `StringHash`, `HexColor` (`parseInt(…, 16)`, `slice`,
`hexToRgba`), `CategoryStyle`, `MonthWindow`, `SpendingCharts`, `Sort`,
`TransactionList`, `DemoStorage` and `TransactionForm`.

## Model

| member | source | states |
|---|---|---|
| Transactions.OrUncategorized | app/components/SpendingCharts.tsx:98 | the default never yields an empty category, and it replaces nothing but the empty string |
| Transactions.CategoryKeyIsTrimmedDefault | app/components/TransactionList.tsx:55 | the grouping key used everywhere is the trimmed category, with "Uncategorized" for an empty one |
| Transactions.CategoryKeyCases | app/components/SpendingCharts.tsx:98 | an empty category groups as "Uncategorized"; a whitespace-only one groups as the empty string; any other groups as its trimmed, non-empty text |
| Transactions.TotalSnoc | app/components/SpendingCharts.tsx:109 | the running total grows by each amount read as a number, or 0 when unparsable |
| Text.TrimIgnoresPadding | constants/categoryStyle.ts:39 | white space added on either side does not change the trimmed text |
| Text.TrimIdempotent | constants/categoryStyle.ts:39 | trimming an already trimmed string changes nothing |
| Text.TrimEmptyIffAllSpace | app/components/SpendingCharts.tsx:98 | trim gives the empty string exactly when the input is all white space |
| Text.LowerIdempotent | constants/categoryStyle.ts:39 | lower-casing twice is lower-casing once |
| Text.LexCmp | app/hooks/useSort.ts:15 | the comparison is -1, 0 or 1, and 0 exactly for equal strings |
| Text.LexCmpAntisymmetric | app/hooks/useSort.ts:15 | swapping the arguments negates the comparison |
| Text.LexCmpTransitive | app/hooks/useSort.ts:15 | "not after" is transitive, so the date order is a total preorder |
| FirstSeen.Dedup | app/components/SpendingCharts.tsx:101 | the `Map` key list holds each input key exactly once and nothing else |
| FirstSeen.DedupFirstSeenOrder | app/components/SpendingCharts.tsx:101 | keys are listed in the order of their first occurrence |
| FirstSeen.DedupPrefix | app/components/TransactionList.tsx:56-59 | the keys seen so far are a prefix of all keys, so a key's position never changes later |
| StringHash.ToInt32 | app/components/SpendingCharts.tsx:43 | the 32-bit truncation gives a signed 32-bit value congruent to its input modulo 2^32 |
| StringHash.Hash32IsWrappedPolyHash | app/components/SpendingCharts.tsx:43 | wrapping at every step equals wrapping the unbounded polynomial once at the end |
| StringHash.IndexFor | app/components/SpendingCharts.tsx:44 | `Math.abs(h) % mod` is always a valid palette index |
| StringHash.MostNegativeHashInRange | constants/categoryStyle.ts:42 | even at h = -2^31, whose absolute value leaves the 32-bit range, the index is in range (8 for ten colours) |
| HexColor.ParseTwoDigits | constants/categoryStyle.ts:32 | two hex digits parse as their byte value in 0..255 |
| HexColor.RemoveFirstHash | constants/categoryStyle.ts:31 | a string without `#` is unchanged, and a leading `#` is dropped |
| HexColor.RemoveFirstHashAt | constants/categoryStyle.ts:31 | wherever the first `#` stands, exactly that one character is removed and any later `#` stays |
| HexColor.Slice | constants/categoryStyle.ts:32-34 | `slice` never returns more than asked for, and returns exactly the range when it lies inside the string |
| HexColor.HexColorBytes | constants/categoryStyle.ts:30-36 | a well-formed colour reads as its three bytes, each in 0..255, with the requested alpha |
| HexColor.HexColorIgnoresAlphaDigits | constants/categoryStyle.ts:19 | an 8-digit palette entry gives the same colour as its first six digits |
| HexColor.HexRoundTrip | constants/categoryStyle.ts:30-36 | three bytes written as `#rrggbb`, followed by anything, read back as those bytes |
| HexColor.AlphaOnlySetsAlpha | constants/categoryStyle.ts:35 | the alpha argument changes nothing but the alpha channel |
| CategoryStyle.PaletteIsValid | constants/categoryStyle.ts:17-28 | all ten palette entries are well-formed colours, so each slot yields valid bytes |
| CategoryStyle.HashLabelToIndex | constants/categoryStyle.ts:38-43 | the index is in range and is the wrapped polynomial hash of the normalised label |
| CategoryStyle.NormalizeNonEmpty | constants/categoryStyle.ts:39 | a non-empty label normalises to its trimmed lower-case text |
| CategoryStyle.HashIgnoresCase | constants/categoryStyle.ts:39-42 | labels that differ only in ASCII case or padding share a colour |
| CategoryStyle.HashIgnoresPadding | constants/categoryStyle.ts:39 | surrounding white space does not move a label's colour |
| CategoryStyle.WhitespaceLabelIsSlotZero | constants/categoryStyle.ts:39-42 | a whitespace-only label normalises to "" and always gets slot 0 |
| CategoryStyle.EmptyLabelIsUncategorized | constants/categoryStyle.ts:39 | the empty label is coloured like "Uncategorized" in any case |
| CategoryStyle.ColorsForLabels | constants/categoryStyle.ts:46-50 | each label's fill is the palette colour at its `hashLabelToIndex` slot at alpha 0.88, its hover the same colour at alpha 0.7; labels that normalise alike get equal colours |
| CategoryStyle.SlotColorAlpha | constants/categoryStyle.ts:47-48 | a slot's colour at one alpha, re-alphaed, is the slot's colour at the other |
| CategoryStyle.GetCategoryMeta | constants/categoryStyle.ts:71-79 | the meta carries the trimmed default category, the hash slot of that category and its palette colour, that colour at alpha 0.14 (background) and 0.28 (border), and the table icon or the generic one |
| CategoryStyle.MetaSlotAgreesWithHash | constants/categoryStyle.ts:72-73 | for a label that is not all white space, trimming before the hash does not change the slot, so the meta slot equals the hash of the raw label |
| CategoryStyle.MetaSlotOfWhitespaceLabel | constants/categoryStyle.ts:72-73 | a whitespace-only category shows as "" and takes the "Uncategorized" slot, although hashing the raw label gives slot 0 |
| CategoryStyle.IconLookupAsWritten | constants/categoryStyle.ts:77 | the lookup leaks an inherited `Object.prototype` member exactly for names outside the table that the prototype defines |
| CategoryStyle.InheritedMemberReachesIcon | constants/categoryStyle.ts:77 | "constructor" and "toString" reach a prototype member instead of the fallback icon |
| CategoryStyle.IconFor | constants/categoryStyle.ts:53-69 | a table name gets its own icon, and the generic icon is returned exactly for names outside the table (no table entry uses it) |
| CategoryStyle.IconForMatchesIntent | constants/categoryStyle.ts:77 | the corrected lookup agrees with the written one on every table entry, and gives the generic icon exactly where the written one does not find an own entry |
| CategoryStyle.IconLookupIsCaseSensitive | constants/categoryStyle.ts:53-69 | only exact names match: "Groceries" has its icon, while "groceries" and "food" do not |
| MonthWindow.DateFromParts | app/components/SpendingCharts.tsx:70 | `new Date(y, m - i, 1)` normalises the month into the year, keeping the month count |
| MonthWindow.OrdinalInjective | app/components/SpendingCharts.tsx:70 | two calendar months with the same month count are the same month |
| MonthWindow.Window | app/components/SpendingCharts.tsx:69-70 | the window holds n months and ends at the current month; month j lies n-1-j months back |
| MonthWindow.WindowIsConsecutive | app/components/SpendingCharts.tsx:69-70 | each month is followed by the next calendar month, and December by January of the next year |
| MonthWindow.WindowMembership | app/components/SpendingCharts.tsx:69-70 | a month is in the window exactly when it lies within the last n months, and it sits at the position its distance gives |
| MonthWindow.NatToDecimalInjective | app/components/SpendingCharts.tsx:71 | different years print differently |
| MonthWindow.Pad2Injective | app/components/SpendingCharts.tsx:71 | `padStart(2, "0")` keeps different months different |
| MonthWindow.KeyStringInjective | app/components/SpendingCharts.tsx:71 | different months have different `YYYY-MM` keys |
| MonthWindow.WindowKeysDistinct | app/components/SpendingCharts.tsx:71 | the window's keys are pairwise distinct |
| MonthWindow.PositionMap | app/components/SpendingCharts.tsx:78 | the key-to-index map holds exactly the listed keys, each mapped to a position holding that key |
| MonthWindow.PositionMapOfDistinct | app/components/SpendingCharts.tsx:78 | for distinct keys, every key maps to its own position |
| MonthWindow.LookupMonth | app/components/SpendingCharts.tsx:83-84 | a transaction's month key is found exactly when its month is in the window, and at that month's position |
| MonthWindow.LastNMonthsKeys | app/components/SpendingCharts.tsx:66-74 | n distinct keys, in calendar order, the last of them the current month |
| SpendingCharts.PaletteIsValid | app/components/SpendingCharts.tsx:19-30 | all ten entries of the chart palette are well-formed colours |
| SpendingCharts.HashLabelToIndex | app/components/SpendingCharts.tsx:41-45 | the index is in range and is the wrapped polynomial hash of the raw label |
| SpendingCharts.HashIsCaseSensitive | app/components/SpendingCharts.tsx:41-45 | the chart colours "Food" and "food" differently (slots 2 and 4), while the shared hash does not |
| SpendingCharts.ColorsForLabels | app/components/SpendingCharts.tsx:47-51 | each label's fill is this palette's colour at the raw label's hash slot at alpha 0.88, its hover the same colour at alpha 0.7; labels with equal slots get equal fills |
| SpendingCharts.WindowIsIndexed | app/components/SpendingCharts.tsx:78 | the position map of the window's keys finds exactly the window's months, each at its own position |
| SpendingCharts.AddToBucket | app/components/SpendingCharts.tsx:81-85 | one step of the loop keeps the buckets equal to the month totals of the transactions seen so far |
| SpendingCharts.AggregateByMonthLastN | app/components/SpendingCharts.tsx:76-93 | n keys, one per window month; each bucket is that month's total; no transactions give all zeros |
| SpendingCharts.IgnoredTransactionChangesNoBucket | app/components/SpendingCharts.tsx:82-84 | an undated transaction, or one outside the window, changes no bucket wherever it sits in the list |
| SpendingCharts.BucketsSnocIn | app/components/SpendingCharts.tsx:85 | a transaction in the window adds its coerced amount to its own month and to no other |
| SpendingCharts.BucketsSnocOut | app/components/SpendingCharts.tsx:82-84 | a transaction outside the window leaves every bucket unchanged |
| SpendingCharts.BucketsSumToInWindowTotal | app/components/SpendingCharts.tsx:85 | the bars add up to the total of the transactions dated inside the window |
| SpendingCharts.AllInWindowTotal | app/components/SpendingCharts.tsx:109 | when every transaction is dated inside the window, that total is the KPI total |
| SpendingCharts.AggregateSnoc | app/components/SpendingCharts.tsx:97-100 | each transaction updates only its own category's bucket |
| SpendingCharts.DataAfterSet | app/components/SpendingCharts.tsx:99-102 | updating a known key changes its slice in place; a new key appends a slice at the end |
| SpendingCharts.AggregateWellFormed | app/components/SpendingCharts.tsx:96-101 | the label list has no repeats and matches the set of bucket keys |
| SpendingCharts.AggregateLabels | app/components/SpendingCharts.tsx:96-101 | the labels are the category keys in first-seen order, and a key has a bucket exactly when some transaction has it |
| SpendingCharts.LabelsInFirstSeenOrder | app/components/SpendingCharts.tsx:101 | the labels are the transactions' category keys in first-seen order |
| SpendingCharts.TotalSinceReset | app/components/SpendingCharts.tsx:99 | a bucket holds the sum of its category's amounts after its last unparsable amount |
| SpendingCharts.CategoryTotalSinceReset | app/components/SpendingCharts.tsx:99 | the same for the transactions' categories |
| SpendingCharts.NoReset | app/components/SpendingCharts.tsx:99 | without unparsable amounts nothing is reset |
| SpendingCharts.NumericCategoryTotal | app/components/SpendingCharts.tsx:99 | with numeric amounts, each slice is the full sum of its category's amounts |
| SpendingCharts.ResetExample | app/components/SpendingCharts.tsx:99 | Food 5, Food NaN, Food 3 give a Food slice of 3, not 8 |
| SpendingCharts.DataSumsToTotal | app/components/SpendingCharts.tsx:99-102 | with numeric amounts, the slices add up to the sum of all amounts |
| SpendingCharts.CategoryDataSumsToTotal | app/components/SpendingCharts.tsx:99-102 | with numeric amounts, the slices add up to the list's total |
| SpendingCharts.NonPositiveTotals | app/components/SpendingCharts.tsx:99 | when no amount is positive, no slice is positive |
| SpendingCharts.HasCatDataIffPositiveTotal | app/components/SpendingCharts.tsx:157 | the chart shows categories exactly when some category's slice is positive |
| SpendingCharts.PositiveTotalHasCatData | app/components/SpendingCharts.tsx:157 | a positive total over numeric amounts always shows categories |
| SpendingCharts.NoPositiveAmountNoCatData | app/components/SpendingCharts.tsx:157-163 | a list of expenses only, entered as negative or zero amounts, shows the placeholder |
| SpendingCharts.CategoryChart | app/components/SpendingCharts.tsx:157-163 | with data: the first-seen categories, their slices, and each category's palette colours from `colorsForLabels`; otherwise the grey "No data" slice of weight 1 |
| SpendingCharts.ComputeKpis | app/components/SpendingCharts.tsx:109-110 | the count is the list length, and the average times the count is the total; an empty list gives 0 and 0 |
| SpendingCharts.KpiTotalMatchesSlices | app/components/SpendingCharts.tsx:109 | with numeric amounts, the KPI total equals the sum of the doughnut slices |
| SpendingCharts.KpiTotalMatchesBars | app/components/SpendingCharts.tsx:109-112 | when every transaction falls inside the window, the KPI total equals the sum of the bars |
| Sort.InitialIsNewestFirst | app/hooks/useSort.ts:8-9 | the hook starts sorting by date, newest first: one transaction sorts before another exactly when its date is later, and they tie exactly on equal dates |
| Sort.ToggleDir | app/hooks/useSort.ts:23 | toggling always changes the direction |
| Sort.ToggleDirInvolution | app/hooks/useSort.ts:23 | toggling twice restores the direction |
| Sort.Toggle | app/hooks/useSort.ts:23 | toggling keeps the sort key and flips the direction |
| Sort.ToggleInvolution | app/hooks/useSort.ts:23 | toggling twice restores the sort state |
| Sort.SetSortBy | app/hooks/useSort.ts:8 | choosing a key keeps the current direction |
| Sort.SetSortByCommutesWithToggle | app/hooks/useSort.ts:8-9 | choosing a key and toggling the direction commute |
| Sort.CompareAntisymmetric | app/hooks/useSort.ts:13-19 | swapping the two transactions negates the comparator, for every key and direction |
| Sort.KeyCompareTransitive | app/hooks/useSort.ts:14-17 | on comparable values each key's order is transitive |
| Sort.CompareTransitive | app/hooks/useSort.ts:14-18 | on comparable values the directed comparator is transitive |
| Sort.TiesTransitive | app/hooks/useSort.ts:14-18 | on comparable values ties are transitive |
| Sort.NaNBreaksTransitivity | app/hooks/useSort.ts:16 | with an unparsable amount, 1 ties NaN and NaN ties 0, yet 1 sorts after 0 |
| Sort.Insert | app/hooks/useSort.ts:13 | inserting adds exactly one element and keeps all the others |
| Sort.SortList | app/hooks/useSort.ts:11-20 | the sorted copy is a permutation of the list |
| Sort.InsertKeepsSorted | app/hooks/useSort.ts:13-19 | inserting into a sorted list keeps it sorted |
| Sort.SortIsSortedAdjacent | app/hooks/useSort.ts:13-19 | every neighbouring pair of the result is in comparator order |
| Sort.SortIsSorted | app/hooks/useSort.ts:13-19 | with comparable values, every pair of the result is in comparator order |
| Sort.InsertKeepsTies | app/hooks/useSort.ts:13-18 | inserting keeps the relative order of equal elements |
| Sort.SortIsStable | app/hooks/useSort.ts:13-18 | elements that compare equal keep their input order |
| Sort.SortTwo | app/hooks/useSort.ts:13-18 | two elements already in order are left as they are |
| Sort.DescendingIsNotReversedAscending | app/hooks/useSort.ts:18 | two records on the same date keep their order in both directions, so descending is not ascending reversed |
| Sort.CategoryExampleCompares | app/hooks/useSort.ts:17-18 | the category order ignores ASCII case: "apple" comes before "Banana", which comes before "Cherry" |
| Sort.SortThree | app/hooks/useSort.ts:13-18 | the sorted order of three elements follows from their pairwise comparisons |
| Sort.CategoryDescendingExample | app/hooks/useSort.ts:17-18 | sorted descending by category, "Banana", "apple", "Cherry" become "Cherry", "Banana", "apple" |
| TransactionList.PalettesHaveSlots | app/components/TransactionList.tsx:21-39 | both class tables have exactly seven entries |
| TransactionList.Assign | app/components/TransactionList.tsx:56-60 | the key ends up mapped to the returned slot, earlier keys keep theirs, and a new key gets a slot below seven |
| TransactionList.TracksNothing | app/components/TransactionList.tsx:52-53 | the empty map and a zero counter describe an empty history |
| TransactionList.AssignTracks | app/components/TransactionList.tsx:54-61 | after each lookup, every key's slot is its first-seen rank modulo seven and the counter is the number of distinct keys |
| TransactionList.AssignAgain | app/components/TransactionList.tsx:56-60 | looking a key up again returns the same slot and changes nothing |
| TransactionList.AssignInRange | app/components/TransactionList.tsx:67-68 | every slot indexes both class tables |
| TransactionList.AvatarLetter | app/components/TransactionList.tsx:69 | one character with no lower-case letter; for a non-empty category it equals the first character of the untrimmed category up to ASCII case, and is that character itself when it is not a lower-case letter; "?" exactly when the category is empty or starts with "?" |
| TransactionList.AvatarLetterIgnoresCase | app/components/TransactionList.tsx:69 | categories differing only in ASCII case get the same avatar letter |
| TransactionList.AvatarLetterOfPaddedCategory | app/components/TransactionList.tsx:55-69 | " food" shows a blank avatar letter but groups under "food" |
| TransactionList.Rank | app/components/TransactionList.tsx:52-61 | each row's rank is the position of its category key among the keys in first-seen order |
| TransactionList.SlotOf | app/components/TransactionList.tsx:57 | a row's slot is below seven, and equals its rank while fewer than seven keys have been seen |
| TransactionList.RenderRows | app/components/TransactionList.tsx:65-68 | the loop builds one row per transaction, each with its category's first-seen slot |
| TransactionList.Render | app/components/TransactionList.tsx:46-68 | an empty list shows "No transactions yet."; otherwise one row per transaction in order, coloured by its category's first-seen rank modulo seven |
| TransactionList.SameKeySameSlot | app/components/TransactionList.tsx:56-60 | two rows with the same category key get the same colour |
| TransactionList.SlotsDistinctUpToSeven | app/components/TransactionList.tsx:57 | among the first seven keys, rows share a colour exactly when they share a key |
| TransactionList.EighthKeyWraps | app/components/TransactionList.tsx:57 | the eighth distinct key reuses the first key's colour |
| TransactionList.EmptyCategorySharesUncategorizedSlot | app/components/TransactionList.tsx:55-86 | an empty category and "Uncategorized" share a colour and a chip text |
| DemoStorage.JsonAmount | lib/demoStorage.ts:22 | after the JSON round trip an amount is a number, read the same as before |
| DemoStorage.Json | lib/demoStorage.ts:15-22 | the round trip keeps the length and every field except an unparsable amount, and yields numeric amounts |
| DemoStorage.JsonKeepsNumericList | lib/demoStorage.ts:15-22 | a list with numeric amounts survives the round trip unchanged |
| DemoStorage.JsonIdempotent | lib/demoStorage.ts:15-22 | a second round trip changes nothing |
| DemoStorage.JsonKeepsTotal | lib/demoStorage.ts:22 | every amount reads the same after the round trip, so every chart total is unchanged |
| DemoStorage.LoadDemo | lib/demoStorage.ts:12-19 | a missing slot, or one that is not a serialised list, loads as the empty list |
| DemoStorage.SaveDemo | lib/demoStorage.ts:21-23 | saving writes the demo key and leaves every other key as it was |
| DemoStorage.LoadAfterSave | lib/demoStorage.ts:12-23 | loading what was saved gives the list back after the JSON round trip, and the very same list when its amounts are numeric |
| DemoStorage.SaveOverwrites | lib/demoStorage.ts:22 | a later save replaces an earlier one completely |
| DemoStorage.DemoId | lib/demoStorage.ts:28 | every demo id starts with "demo_" |
| DemoStorage.AddDemo | lib/demoStorage.ts:25-32 | the new record carries the new id, the stamp and the given fields; the stored list becomes it followed by the old list; other keys are untouched |
| DemoStorage.SavedListIsNumeric | lib/demoStorage.ts:22 | whatever was saved reads back with numeric amounts |
| DemoStorage.AddDemoPrepends | lib/demoStorage.ts:26-30 | on a stored list, adding puts the record in front and keeps the old records in order |
| DemoStorage.AddOverUnreadableSlot | lib/demoStorage.ts:13-30 | an unreadable slot is treated as empty, and adding leaves a one-record list |
| DemoStorage.WithoutId | lib/demoStorage.ts:35 | a record stays exactly when its id differs from the one removed |
| DemoStorage.WithoutIdAppend | lib/demoStorage.ts:35 | the filter works piece by piece, so the kept records stay in order |
| DemoStorage.WithoutAbsentId | lib/demoStorage.ts:35 | filtering an id no record has keeps the list |
| DemoStorage.WithoutIdJson | lib/demoStorage.ts:35-36 | filtering commutes with the JSON round trip |
| DemoStorage.RemoveDemo | lib/demoStorage.ts:34-37 | no record with the id remains, the rest are saved in order, and other keys are untouched |
| DemoStorage.RemoveAbsentId | lib/demoStorage.ts:34-37 | removing an absent id from a stored list changes nothing |
| DemoStorage.RemoveIdempotent | lib/demoStorage.ts:34-37 | removing twice is removing once |
| DemoStorage.RemoveUndoesAdd | lib/demoStorage.ts:25-37 | adding a record with a fresh id and then removing that id restores the list |
| TransactionForm.HandleChange | app/components/TransactionForm.tsx:19-23 | a change event sets its own field to the typed value and leaves the other three alone |
| TransactionForm.HandleChangeLaws | app/components/TransactionForm.tsx:22 | re-setting a field's value changes nothing, and a later change of a field overrides an earlier one |
| TransactionForm.DisabledIffSomeFieldEmpty | app/components/TransactionForm.tsx:39-40 | the Add button is disabled exactly when some field is empty |
| TransactionForm.FillingEveryFieldEnables | app/components/TransactionForm.tsx:12-40 | a fresh form is disabled, and filling in all four fields enables it |
| TransactionForm.HandleSubmit | app/components/TransactionForm.tsx:25-37 | the form is cleared, so the Add button is disabled again; the category and notes sent carry no surrounding white space |
| TransactionForm.Submit | app/components/TransactionForm.tsx:74 | a submit sends a record exactly when the button is enabled |
| TransactionForm.SubmitDisablesForm | app/components/TransactionForm.tsx:36-40 | after a submit, the button is disabled again |
| TransactionForm.SubmittedTextIsTrimmed | app/components/TransactionForm.tsx:30-32 | for every form, the sent category and notes have no surrounding white space; a category that is not all white space groups as the typed one would |
| TransactionForm.WhitespaceCategoryIsSentEmpty | app/components/TransactionForm.tsx:30 | a whitespace-only category enables the button but is sent as "", which then groups as "Uncategorized" |
| TransactionForm.WhitespaceNotesAreSentEmpty | app/components/TransactionForm.tsx:32 | whitespace-only notes are accepted and sent as "" |

## Left out

- Date parsing and time zones: `new Date(t.date)` with its `getFullYear`/`getMonth` is the parameter `dateOf`, and `None` stands for an invalid date. The current month is a parameter too.
- Month labels (`toLocaleString`, `SpendingCharts.tsx:87-91`), the currency and date formatting in the list, and the chart percentage labels (`SpendingCharts.tsx:189-194`): these are locale-dependent display formatting.
- `localeCompare`: the date key is compared by code points, which orders `YYYY-MM-DD` strings correctly. The category key is compared by code points after ASCII lower-casing. This approximates `sensitivity: "base"`, which also folds accents and uses the locale's collation.
- Floating point: amounts are exact reals, with `NaN` as a separate value. Infinity, -0 and rounding are not modelled. The KPI average is an exact division.
- `Number(form.amount)` string parsing is the parameter `toNumber`.
- Trim and case conversion cover ASCII white space and letters only. Unicode white space and case mappings are not modelled.
- React state, rendering and event plumbing, Chart.js options, and the MUI components.
- `Date.now()`, `new Date().toISOString()` and `Math.random()` are parameters of `addDemo`.
- Session storage is a map passed in and returned. A stored JSON text that parses but is not an array of records is not modelled; such text is represented as `Raw` and loads as empty.
- `app/page.tsx`, the API routes, `lib/db.ts` and `AuthButtons.tsx` are not part of this model.
- Sort.SortIsSorted: requires comparable values, meaning numeric amounts when sorting by amount. With a `NaN` amount the comparator is inconsistent (see `Sort.NaNBreaksTransitivity`), and ECMA-262 leaves the resulting order implementation-defined. The model's own insertion order for that case is still proved adjacently sorted and a permutation.
- Sort.SortIsStable: same restriction, for the same reason.
- SpendingCharts.NumericCategoryTotal: stated for numeric amounts only. The general case is `SpendingCharts.CategoryTotalSinceReset`.
- SpendingCharts.CategoryDataSumsToTotal: stated for numeric amounts only, because a reset discards earlier amounts of the category.
- StringHash.CharCode: a string is a sequence of Unicode code points, while `charCodeAt` reads UTF-16 code units. The hashes agree only for text below U+10000; a character above it is one term here and two surrogate terms in JavaScript.
- CategoryStyle.HashLabelToIndex: exact only for labels below U+10000, as `StringHash.CharCode` explains.
- SpendingCharts.HashLabelToIndex: exact only for labels below U+10000, as `StringHash.CharCode` explains.
- TransactionList.AvatarLetter: `category[0]` is a UTF-16 code unit in JavaScript but a code point here. For a category starting above U+FFFF the page shows a lone high surrogate, and the model shows the whole character.
- CategoryStyle.GetCategoryMeta: the icon comes from the corrected lookup `CategoryStyle.IconFor`, not from line 77 as written. The written lookup is `CategoryStyle.IconLookupAsWritten`; see Findings.
- DemoStorage.SaveDemo: `sessionStorage.setItem` can throw (quota exceeded, storage disabled), and `saveDemo` does not catch it. The model's save always succeeds.
- DemoStorage.AddDemo: a throwing `setItem` would propagate out of `addDemo`; the model always succeeds, as for `DemoStorage.SaveDemo`.
- DemoStorage.RemoveDemo: a throwing `setItem` would propagate out of `removeDemo`; the model always succeeds, as for `DemoStorage.SaveDemo`.
- Sort.SortList: models `Array.prototype.sort` as a stable insertion sort. Any stable sort gives the same output for a consistent comparator.

## Findings

| source | as written | input that shows it | evidently intended | confidence | as-written member | corrected member |
|---|---|---|---|---|---|---|
| constants/categoryStyle.ts:77 | `ICONS[category] ?? CategoryIcon` looks the name up on a plain object literal, so names inherited from `Object.prototype` are found too | category "constructor" (or "toString") yields the `Object` constructor (or a function) as the icon component instead of the generic icon | only the fifteen names of the table map to icons; every other category gets the generic icon | medium, not executed | CategoryStyle.IconLookupAsWritten | CategoryStyle.IconFor |
