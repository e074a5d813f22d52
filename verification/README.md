# Inventory and student-declaration dashboard, modelled in Dafny

This project models the decision-making core of a Next.js admin dashboard:

- **Inventory aggregation.** Covers:
  - the marketing-statistics page: purchase breakdown per product, syncing sold quantities from customer purchases (every row sharing a product id gets the quantity summed over that product's purchases, src/app/data/page.tsx:146-158), the add/edit form with its derived sold quantity and validator, the year/product filters, totals and filter lists;
  - the product page: grouping rows by trimmed product name, per-year views, year toggles and overall statistics;
  - the inventory chart's per-year buckets.
- **Pagination.** Covers the table's page arithmetic and page-number list with ellipses, the compact pagination bar, and the card pager on the home page.
- **Record handling on the home page.** Covers the conversion between the nested student declaration and the flat form record, the create-or-update choice on submit, id filling for table rows, and the table-row form validator.
- **The student declaration form.** Covers its fields, its membership-number option list and the "add new number" flow, its validator, and what a successful submit leaves behind.
- **The searchable select box.** Covers its caption lookup, filtering, the "add new" entry and its keyboard and mouse state machine.
- **Authentication.** Covers:
  - the request middleware: protected and public routes, token extraction, redirects;
  - the in-memory mock user store;
  - the API client's credential check, sign-up checks, error reporting and membership-number listing.

Pure computations are Dafny functions with lemmas. Loops that build a result become methods proved against a specification function. Components that keep state become classes whose methods update their fields. Network calls, storage and timers become parameters, and their answers are values: a fetched list is `Option<seq<…>>`, a generated id is a string argument.

Shared pieces:

| Module | What it holds |
|---|---|
| `Wrappers` | `Option` and `Result` |
| `Text` | JavaScript `trim`, `toLowerCase`, `includes`, `startsWith`, `split('-')[0]`, `replace` and `localeCompare`, plus the e-mail pattern `^[^\s@]+@[^\s@]+\.[^\s@]+$` |
| `Seqs` | `filter`, `find`, de-duplication in first-occurrence order, and a stable sort by a string key |
| `Stock` | field-wise sums over rows and grouping by a key |
| `Paging` | `Math.ceil`, `slice` and the page-number list |

## Model

| member | source | states |
|---|---|---|
| Text.TrimStart | src/app/product/page.tsx:50 | the result is never longer than the input |
| Text.TrimEnd | src/app/product/page.tsx:50 | the result is never longer than the input |
| Text.TrimStartDrops | src/app/product/page.tsx:50 | trimming the start drops exactly a prefix of white space and leaves a non-space first character |
| Text.TrimEndDrops | src/app/product/page.tsx:50 | trimming the end drops exactly a suffix of white space and leaves a non-space last character |
| Text.TrimBlank | src/app/data/page.tsx:204 | `!x.trim()` holds exactly when the string is all white space |
| Text.TrimIdempotent | src/app/product/page.tsx:50 | trimming twice is trimming once |
| Text.ToLower | src/lib/api.ts:102 | lower-casing keeps the length |
| Text.TrimLower | src/components/StudentDeclarationForm/StudentDeclarationForm.tsx:171 | trimming and lower-casing commute |
| Text.TrimStartLower | src/components/StudentDeclarationForm/StudentDeclarationForm.tsx:171 | trimming the start commutes with lower-casing |
| Text.TrimEndLower | src/components/StudentDeclarationForm/StudentDeclarationForm.tsx:171 | trimming the end commutes with lower-casing |
| Text.ContainsEmpty | src/components/SearchableSelect/SearchableSelect.tsx:52-55 | every string contains the empty search text |
| Text.BeforeFirst | src/app/data/page.tsx:413 | `split(c)[0]` is the longest prefix without `c`, followed by `c` when shorter than the input |
| Text.ReplaceFirstAbsent | src/middleware.ts:12 | `replace` of a pattern that does not occur leaves the string unchanged |
| Text.LessIrreflexive | src/app/data/page.tsx:417 | the string order used for `localeCompare` is irreflexive |
| Text.LessTransitive | src/app/data/page.tsx:417 | the string order is transitive |
| Text.LessTotal | src/app/data/page.tsx:417 | any two different strings are ordered one way or the other |
| Text.LessAsymmetric | src/app/data/page.tsx:417 | the string order is asymmetric |
| Text.IndexOf | src/app/page.tsx:295 | the first position of a character, or the length when it is absent |
| Text.EmailPatternTestCorrect | src/app/page.tsx:295 | the scanning test accepts exactly the strings of the e-mail pattern: a non-empty run without `@` or white space, `@`, a run, `.`, a run |
| Seqs.Filter | src/app/data/page.tsx:432-437 | a filter is never longer than its input |
| Seqs.FilterMembers | src/app/data/page.tsx:432-437 | an element is kept exactly when it is in the input and satisfies the test |
| Seqs.FilterAppend | src/app/data/page.tsx:432-437 | filtering distributes over concatenation |
| Seqs.FilterKeepsAll | src/app/data/page.tsx:432-437 | when every element passes, the filter returns the input |
| Seqs.Find | src/components/SearchableSelect/SearchableSelect.tsx:48 | `find` returns the first index satisfying the test, and none exactly when no element does |
| Seqs.FindFirst | src/components/SearchableSelect/SearchableSelect.tsx:48 | an index that satisfies the test with none before it is what `find` returns |
| Seqs.Distinct | src/app/product/page.tsx:73-80 | de-duplication has no repeats and keeps exactly the input's elements |
| Seqs.DistinctFirst | src/app/product/page.tsx:87 | the first element survives de-duplication in first place |
| Seqs.InOrderReflexive | src/app/data/page.tsx:135 | the sort comparator accepts equal keys |
| Seqs.InOrderTotal | src/app/data/page.tsx:135 | the sort comparator orders any two keys |
| Seqs.InOrderTransitive | src/app/data/page.tsx:135 | the sort comparator is transitive |
| Seqs.InsertByPermutes | src/app/data/page.tsx:135 | inserting adds exactly the one element |
| Seqs.SortByPermutes | src/app/data/page.tsx:135 | sorting is a permutation |
| Seqs.InsertBySorted | src/app/data/page.tsx:135 | inserting into a sorted list keeps it sorted |
| Seqs.SortBySorted | src/app/data/page.tsx:135 | the sort's output is ordered by key |
| Seqs.FilterSingle | src/app/data/page.tsx:135 | filtering a one-element list keeps it exactly when it passes |
| Seqs.SwapApart | src/app/data/page.tsx:135 | two elements the comparator swaps have different keys |
| Seqs.InsertByStable | src/app/data/page.tsx:135 | insertion keeps the relative order of elements with equal keys |
| Seqs.SortByStable | src/app/data/page.tsx:135 | the sort is stable: equal keys keep their input order |
| Seqs.SortByNoDup | src/app/data/page.tsx:417 | sorting a list without repeats gives a list without repeats |
| Seqs.MultiplicityOne | src/app/data/page.tsx:417 | in a list without repeats every element occurs at most once |
| Seqs.SortStrings | src/app/data/page.tsx:417 | sorted distinct strings are strictly ascending, or strictly descending when asked |
| Stock.SumPush | src/app/data/page.tsx:440-449 | the running sum adds the last row's field |
| Stock.SumAppend | src/app/data/page.tsx:440-449 | a sum over a concatenation is the sum of the sums |
| Stock.SumSplit | src/app/data/page.tsx:440-449 | the rows a test keeps and the rows it drops together sum to all rows |
| Stock.KeyList | src/app/product/page.tsx:49-51 | the key of each row, in row order |
| Stock.Keys | src/app/product/page.tsx:47-82 | a `Map`'s keys have no repeats and are exactly the keys of the rows |
| Stock.KeysStep | src/app/product/page.tsx:56-61 | a row with a new key appends it last; a known key changes nothing |
| Stock.WithKeyStep | src/app/product/page.tsx:66-70 | a new row joins exactly the group of its own key |
| Stock.WithKeyEmpty | src/app/product/page.tsx:51 | a key's group is empty exactly when the key is not in the map |
| Stock.SumOverAddRow | src/app/product/page.tsx:68-70 | adding a row adds its field to the total of the groups that contain its key |
| Stock.SumOverNewKey | src/app/product/page.tsx:61-65 | a row with a new key opens a group holding only itself |
| Stock.GroupSumsConserve | src/app/product/page.tsx:47-90 | the group sums over all keys add up to the sum over all rows |
| Stock.SumOverAppend | src/app/product/page.tsx:140-149 | group sums over a concatenated key list add up |
| Stock.SumOverOne | src/app/product/page.tsx:140-149 | the sum over a single key is that group's sum |
| Stock.SumOverInsert | src/components/ProductInventoryChart/ProductInventoryChart.tsx:46 | inserting a key in sorted position keeps the group total |
| Stock.SumOverSorted | src/components/ProductInventoryChart/ProductInventoryChart.tsx:46 | the order the groups are visited in does not change their total |
| Inventory.PurchaseBreakdown | src/app/data/page.tsx:118-136 | the nested loops and sort produce the specified breakdown |
| Inventory.EntriesForMembers | src/app/data/page.tsx:123-131 | a customer contributes an entry exactly for each purchase of the product |
| Inventory.MatchesMembers | src/app/data/page.tsx:121-133 | the unsorted breakdown holds exactly the matching purchases of all customers |
| Inventory.MatchesAppend | src/app/data/page.tsx:121-133 | customers contribute in customer order |
| Inventory.BreakdownMembers | src/app/data/page.tsx:118-136 | an entry is in the breakdown exactly when some customer made a matching purchase it records |
| Inventory.BreakdownEmpty | src/app/data/page.tsx:118-136 | the breakdown is empty exactly when nobody bought the product |
| Inventory.BreakdownOrder | src/app/data/page.tsx:135 | latest date first, a permutation of the matches, stable among equal dates |
| Inventory.SumQuantitiesInsert | src/app/data/page.tsx:148 | inserting an entry adds its quantity |
| Inventory.SumQuantitiesSorted | src/app/data/page.tsx:148 | sorting does not change the summed quantity |
| Inventory.SoldForUnsorted | src/app/data/page.tsx:147-148 | the sold quantity is the plain sum of the matching purchase quantities |
| Inventory.SumQuantitiesNonNegative | src/app/data/page.tsx:148 | non-negative quantities sum to a non-negative total |
| Inventory.SyncSoldQuantities | src/app/data/page.tsx:144-158 | one update per row, in row order; rows with the same product id get the same sold quantity |
| Inventory.SyncedRow | src/app/data/page.tsx:151-166 | a saved row changes only its two recomputed fields; its stock is never negative and never above a non-negative total |
| Inventory.SyncIdempotent | src/app/data/page.tsx:138-170 | syncing again after saving changes nothing |
| Inventory.UnmatchedCustomerIgnored | src/app/data/page.tsx:118-158 | a customer who bought none of the listed products changes no row |
| Inventory.EditForm | src/app/data/page.tsx:92-106 | the edit form copies the row, and its sold quantity is `max(0, total - available)`: the difference when available does not exceed total, else 0 |
| Inventory.ApplyChange | src/app/data/page.tsx:269-289 | the named field takes the typed value and every other field stays, except that a stock change recomputes the sold quantity as `max(0, total - available)` |
| Inventory.StockChangeBalances | src/app/data/page.tsx:277-286 | after a stock change with `0 <= available <= total`, sold plus available equals total |
| Inventory.ClearErrors | src/app/data/page.tsx:291-307 | no message is added; a non-empty message of the changed field goes, and so does the sold-quantity message on a stock change |
| Inventory.StockErrorsValid | src/app/data/page.tsx:201-231 | the stock form is valid exactly when no field has a message |
| Inventory.ValidateStockForm | src/app/data/page.tsx:201-231 | the error map holds exactly each field's message, the later check winning, and the result is validity |
| Inventory.FilteredData | src/app/data/page.tsx:431-438 | the filtered rows are never more than the rows |
| Inventory.FilteredDataMembers | src/app/data/page.tsx:431-438 | a row is kept exactly when it matches the selected year and name; no selection keeps all rows |
| Inventory.FilteredTotalsSplit | src/app/data/page.tsx:440-449 | the totals of the kept rows and of the dropped rows add up to the totals of all rows |
| Inventory.UniqueYears | src/app/data/page.tsx:409-418 | the distinct year prefixes of the dated rows, without repeats, strictly descending |
| Inventory.UniqueProductNames | src/app/data/page.tsx:420-428 | the distinct non-empty product names, without repeats, strictly ascending |
| Products.ProductIdList | src/app/product/page.tsx:63-75 | the product id of each row of a group, in row order |
| Products.YearListMembers | src/app/product/page.tsx:54-80 | a year is listed exactly when some dated row of the group has that non-empty year prefix |
| Products.Summary | src/app/product/page.tsx:61-89 | an entry's first product id is that of the group's first row |
| Products.SummaryStart | src/app/product/page.tsx:56-65 | the entry opened by a name's first row is that row's summary |
| Products.SummaryExtend | src/app/product/page.tsx:66-81 | extending an entry by a row gives the summary of the longer group |
| Products.DraftsOfMeaning | src/app/product/page.tsx:47-82 | the map has an entry exactly for each name seen, and it is the summary of that name's rows |
| Products.GroupsFromDrafts | src/app/product/page.tsx:85-89 | the listed entries are the groups of the names, in insertion order |
| Products.GroupStep | src/app/product/page.tsx:49-82 | one more row changes the map and its key order as `forEach` does |
| Products.ExtendFields | src/app/product/page.tsx:54-80 | the entry updates spelled out field by field with the year as read |
| Products.GroupProducts | src/app/product/page.tsx:46-90 | the map-filling loop produces the specified product list |
| Products.ProductGroupsNames | src/app/product/page.tsx:46-90 | one entry per distinct trimmed name, in order of first occurrence |
| Products.ProductGroupSums | src/app/product/page.tsx:61-70 | an entry's stock fields are the sums over its name's rows, and the rest is its first row |
| Products.ProductGroupIds | src/app/product/page.tsx:63-87 | an entry's ids are the distinct ids of its rows, and the first is the displayed id |
| Products.ProductGroupYears | src/app/product/page.tsx:54-88 | an entry's years are the distinct non-empty year prefixes of its rows, latest first |
| Products.ProductSumPrefix | src/app/product/page.tsx:140-149 | summing the first entries sums the groups of the first keys |
| Products.StatisticsConserve | src/app/product/page.tsx:140-149 | the statistics count the distinct names, and their stock sums equal the sums over all rows |
| Products.FindProduct | src/app/product/page.tsx:96-97 | the entry found has that trimmed name; none means no entry has it |
| Products.ProductDataOverall | src/app/product/page.tsx:93-98 | without a year the card shows the entry of that name, if any |
| Products.ProductDataInYear | src/app/product/page.tsx:100-123 | with a year the card has data exactly when that year is one of the entry's years |
| Products.ToggleYear | src/app/product/page.tsx:126-137 | clicking the selected year deselects it, any other year selects it, and other products keep their selection |
| Products.ToggleTwice | src/app/product/page.tsx:126-137 | clicking a year twice restores the selection, except that a different year selected before is cleared |
| Chart.AccumulateStep | src/components/ProductInventoryChart/ProductInventoryChart.tsx:24-42 | one `reduce` step keeps the accumulator equal to the per-year sums of the rows seen |
| Chart.AddToEntry | src/components/ProductInventoryChart/ProductInventoryChart.tsx:37-39 | adding the row's fields to its year's entry gives the entries for the longer prefix |
| Chart.EntryStep | src/components/ProductInventoryChart/ProductInventoryChart.tsx:37-39 | a row changes only its own year's entry, by its three stock fields |
| Chart.ChartData | src/components/ProductInventoryChart/ProductInventoryChart.tsx:24-54 | the accumulate-then-sort code produces the specified points |
| Chart.ChartYears | src/components/ProductInventoryChart/ProductInventoryChart.tsx:26-46 | one point per distinct year, strictly ascending; undated rows fall in `Unknown` |
| Chart.PointSumPrefix | src/components/ProductInventoryChart/ProductInventoryChart.tsx:45-54 | summing the first points sums the groups of the first years |
| Chart.ChartConserves | src/components/ProductInventoryChart/ProductInventoryChart.tsx:24-54 | each field summed over the points equals that field summed over the rows |
| Chart.ChartEmpty | src/components/ProductInventoryChart/ProductInventoryChart.tsx:24-54 | the chart is empty exactly when there are no rows |
| Paging.CeilDiv | src/components/Table/Table.tsx:41 | `Math.ceil(a / b)` is the least count of pages of size `b` holding `a` items |
| Paging.CeilDivZero | src/components/Table/Table.tsx:41 | no pages exactly when no items |
| Paging.SliceIndex | src/components/Table/Table.tsx:48 | a `slice` index is clamped to the length |
| Paging.PageOfBounds | src/components/Table/Table.tsx:44-49 | a page is the run of at most `size` items after the earlier pages' items |
| Paging.PagesUpToPrefix | src/components/Table/Table.tsx:44-49 | pages `1..k` together are the first `k * size` items |
| Paging.PagesPartition | src/components/Table/Table.tsx:39-49 | the pages `1..totalPages` read in order give back exactly the data |
| Paging.ItemsMatchPage | src/components/Table/Table.tsx:51-59 | on an existing page the "Showing" numbers are the positions of the page's first and last item |
| Paging.Range | src/components/Table/Table.tsx:72-74 | the counting loop pushes the pages `lo..hi` in order |
| Paging.PageNumbers | src/components/Table/Table.tsx:67-100 | the loops and pushes build the specified page-number list |
| Paging.PageListSmall | src/components/Table/Table.tsx:71-74 | up to five pages, the list is all pages |
| Paging.PageListLarge | src/components/Table/Table.tsx:75-97 | beyond five pages the list has six or seven entries, runs from page 1 to the last page, and shows the current page |
| Paging.PageListOrdered | src/components/Table/Table.tsx:67-100 | page numbers rise within range, and each ellipsis hides at least one page, so every page is listed or hidden |
| Paging.CoversHead | src/components/Table/Table.tsx:76-81 | the near-the-start list covers all pages |
| Paging.CoversTail | src/components/Table/Table.tsx:82-87 | the near-the-end list covers all pages |
| Paging.CoversMiddle | src/components/Table/Table.tsx:88-96 | the middle list covers all pages |
| TableView.TotalPages | src/components/Table/Table.tsx:39-42 | one page without pagination, else the least page count holding the rows |
| TableView.TablePages | src/components/Table/Table.tsx:39-49 | without pagination every row shows; with it, pages hold at most `size` rows and together give back the rows |
| TableView.TableItems | src/components/Table/Table.tsx:51-59 | with no rows both numbers are 0; on an existing page they count the visible rows |
| TableView.TablePager.constructor | src/components/Table/Table.tsx:37 | the table starts on page 1 |
| TableView.TablePager.HandlePageChange | src/components/Table/Table.tsx:61-65 | only a page within `1..totalPages` is taken |
| TableView.TablePager.ResetOnDataChange | src/components/Table/Table.tsx:103-112 | back to page 1 when the page no longer exists or there are no pages, else unchanged |
| PaginationBar.RequestPage | src/components/Pagination/Pagination.tsx:32-36 | `onPageChange` is called exactly for a page within range, with that page |
| PaginationBar.BarPagesShape | src/components/Pagination/Pagination.tsx:38-53 | the list ends with the last page, starts with the current one, and has an ellipsis only between two numbers |
| PaginationBar.PressInRange | src/components/Pagination/Pagination.tsx:63-150 | whatever is clicked, only an existing page is requested, and the arrows move as labelled unless at their end |
| PaginationBar.BarItems | src/components/Pagination/Pagination.tsx:29-30 | on an existing page the "Showing" numbers count the page's items |
| Records.FromForm | src/app/page.tsx:188-212 | a nested declaration built from the form has no id |
| Records.FormRoundTrip | src/app/page.tsx:169-212 | nesting a form record and flattening it gives back the form |
| Records.DeclarationRoundTrip | src/app/page.tsx:169-212 | flattening a declaration and nesting it gives it back without its id |
| Records.SubmitAction | src/app/page.tsx:214-228 | an update exactly when editing a declaration with a truthy id, keeping that id; otherwise a create without id; the data is the form |
| Records.SaveUnchanged | src/app/page.tsx:214-228 | saving an opened declaration untouched updates it with itself |
| Records.FillIds | src/app/page.tsx:69-72 | each row keeps everything but its id; every id becomes truthy; a truthy id is kept, else it is `index + 1` |
| Records.FillIdsIdempotent | src/app/page.tsx:123-126 | filling ids twice is filling them once |
| Records.RecordErrorsValid | src/app/page.tsx:286-313 | the table form is valid exactly when no field has a message, and a valid e-mail matches the pattern |
| Records.ValidateRecordForm | src/app/page.tsx:286-313 | the error map holds exactly each field's message, a blank e-mail gets the required message, and the result is validity |
| Records.CardPager.constructor | src/app/page.tsx:659-660 | no declarations, page 1 |
| Records.CardPager.Reload | src/app/page.tsx:98-99 | a successful fetch replaces the list and resets to page 1 |
| Records.CardPager.Retried | src/app/page.tsx:629-646 | the Retry button replaces the list but keeps the card page, which stays an existing page only if it still fits the new list |
| Records.StalePageShowsEmptyRange | src/app/page.tsx:629-646 | a page left past the last one is not an existing page and its "Showing" numbers run backwards, e.g. "Showing 13 to 8" on page 3 with 8 cards and the bar shown |
| Records.CardPager.LoadFailed | src/app/page.tsx:106 | a failed fetch empties the list and leaves the page |
| Records.CardPager.Info | src/app/page.tsx:670-675 | on an existing page with the bar shown, the "Showing" numbers are the positions of the first and last visible card; on a page past the last one (left by a retry) they run backwards |
| Records.StaleRetryThenPrevious | src/app/page.tsx:629-681 | eighteen cards, two pages forward, a failed fetch and a retry with eight cards show "Showing 13 to 8", and Previous then lands on page 2 |
| Records.CardPager.Previous | src/app/page.tsx:680-681 | on page 1 nothing changes, else the page goes back by one (to 1 from below 1); the result is an existing page whenever the page before it is, in particular after a stale retry |
| Records.CardPager.Next | src/app/page.tsx:757-766 | from the last page on (including a stale page past it) nothing changes, else the page goes forward by one; an existing page stays existing |
| Records.CardPager.PageButtons | src/app/page.tsx:699-730 | the buttons follow the table's page-list rule and cover every page |
| Records.CardPager.GoTo | src/app/page.tsx:744 | a listed page button sets its page, which is an existing page even when the page before was stale |
| SearchSelect.DisplayValue | src/components/SearchableSelect/SearchableSelect.tsx:48-49 | the caption of the first option with the value, else the value itself |
| SearchSelect.FilteredMeaning | src/components/SearchableSelect/SearchableSelect.tsx:52-55 | an option is listed exactly when its caption or value contains the text ignoring case; an empty text lists all |
| SearchSelect.AddNewAlone | src/components/SearchableSelect/SearchableSelect.tsx:58-61 | when the add-new entry shows, no option matches and it is the only entry |
| SearchSelect.SelectBox.constructor | src/components/SearchableSelect/SearchableSelect.tsx:40-42 | closed, no text, no highlight |
| SearchSelect.SelectBox.Select | src/components/SearchableSelect/SearchableSelect.tsx:85-91 | the value is reported and the box closes |
| SearchSelect.SelectBox.AddNew | src/components/SearchableSelect/SearchableSelect.tsx:93-102 | with a callback and non-blank text the trimmed text is added and chosen and the box closes, else nothing happens |
| SearchSelect.SelectBox.KeyDown | src/components/SearchableSelect/SearchableSelect.tsx:105-151 | per key: arrows move the highlight within `-1..max`, Enter adds or selects the highlighted entry, Escape closes; a closed box ignores keys |
| SearchSelect.SelectBox.InputChange | src/components/SearchableSelect/SearchableSelect.tsx:165-172 | typing opens the list, drops the highlight and reports the raw text |
| SearchSelect.SelectBox.InputFocus | src/components/SearchableSelect/SearchableSelect.tsx:174-182 | focus opens the list; the text becomes the value only when it is not an option's value |
| SearchSelect.SelectBox.ClickOutside | src/components/SearchableSelect/SearchableSelect.tsx:64-83 | an outside click closes an open box and resets it |
| SearchSelect.SelectBox.Toggle | src/components/SearchableSelect/SearchableSelect.tsx:184-192 | unless disabled, flips open; closing clears the text but keeps the highlight |
| DeclarationForm.Set | src/components/StudentDeclarationForm/StudentDeclarationForm.tsx:181 | the named field takes the value and no other field changes |
| DeclarationForm.FieldsDetermine | src/components/StudentDeclarationForm/StudentDeclarationForm.tsx:101-115 | a form record is determined by its thirteen fields |
| DeclarationForm.Initial | src/components/StudentDeclarationForm/StudentDeclarationForm.tsx:101-115 | each field is the initial data's value, or `''` |
| DeclarationForm.InitialFromRecord | src/components/StudentDeclarationForm/StudentDeclarationForm.tsx:126-145 | starting from a complete record gives that record back |
| DeclarationForm.OptionsFrom | src/components/StudentDeclarationForm/StudentDeclarationForm.tsx:148-165 | the placeholder, then one option per fetched number, in order |
| DeclarationForm.AddOption | src/components/StudentDeclarationForm/StudentDeclarationForm.tsx:196-205 | unchanged when some option has exactly this value; otherwise the options without the empty-valued placeholder, in their order, followed by the new option last |
| DeclarationForm.FilterUniqueValues | src/components/StudentDeclarationForm/StudentDeclarationForm.tsx:204 | dropping the placeholder keeps values unique |
| DeclarationForm.AddOptionUnique | src/components/StudentDeclarationForm/StudentDeclarationForm.tsx:196-205 | adding a number never creates a duplicate value |
| DeclarationForm.AddedNumberExists | src/components/StudentDeclarationForm/StudentDeclarationForm.tsx:168-175 | after the trimmed text is added, the is-new check no longer calls it new |
| DeclarationForm.StudentErrorsValid | src/components/StudentDeclarationForm/StudentDeclarationForm.tsx:209-236 | valid exactly when no field has a message; optional fields never get one; a valid e-mail matches the pattern |
| DeclarationForm.ValidateStudentForm | src/components/StudentDeclarationForm/StudentDeclarationForm.tsx:209-236 | the error map holds exactly each field's message, a blank e-mail gets the required message, and the result is validity |
| DeclarationForm.Cleared | src/components/StudentDeclarationForm/StudentDeclarationForm.tsx:269-290 | the kept membership number and every other field empty |
| DeclarationForm.FormState.constructor | src/components/StudentDeclarationForm/StudentDeclarationForm.tsx:101-123 | fields from the initial data, no options, no errors, both flags off |
| DeclarationForm.FormState.LoadInitial | src/components/StudentDeclarationForm/StudentDeclarationForm.tsx:126-145 | new initial data reloads the fields and turns both flags off |
| DeclarationForm.FormState.LoadOptions | src/components/StudentDeclarationForm/StudentDeclarationForm.tsx:148-165 | the fetched numbers become the option list; nothing else changes |
| DeclarationForm.FormState.RecheckNew | src/components/StudentDeclarationForm/StudentDeclarationForm.tsx:168-175 | with a number, the is-new flag is recomputed from the options; without one it is left |
| DeclarationForm.FormState.HandleChange | src/components/StudentDeclarationForm/StudentDeclarationForm.tsx:177-194 | only the named field changes, its message goes, and a number change recomputes the is-new flag |
| DeclarationForm.FormState.AddNewNumber | src/components/StudentDeclarationForm/StudentDeclarationForm.tsx:196-207 | the number is added to the options and flagged as new |
| DeclarationForm.FormState.SetAddMultiple | src/components/StudentDeclarationForm/StudentDeclarationForm.tsx:123 | the checkbox sets the add-multiple flag alone |
| DeclarationForm.FormState.Validate | src/components/StudentDeclarationForm/StudentDeclarationForm.tsx:209-236 | the error map is replaced by the validator's and the result is validity |
| DeclarationForm.FormState.SubmitSucceeded | src/components/StudentDeclarationForm/StudentDeclarationForm.tsx:254-298 | a new number refreshes the options; a create clears the form, keeping the number only when adding several; an edit keeps the data |
| Middleware.ProtectedMeaning | src/middleware.ts:7-17 | a path is protected exactly when it starts with `/dashboard`, so `/dashboardx` is too |
| Middleware.PublicMeaning | src/middleware.ts:5-22 | a path is public exactly when it is one of the four auth routes |
| Middleware.PublicNotProtected | src/middleware.ts:5-7 | no public route is protected |
| Middleware.Token | src/middleware.ts:11-12 | a non-empty cookie wins; with neither cookie nor header there is no token |
| Middleware.HeaderToken | src/middleware.ts:12 | a `Bearer ` header yields what follows it; a header without it is taken whole |
| Middleware.BarePrefixNoToken | src/middleware.ts:12 | the header `Bearer ` alone carries no token |
| Middleware.Decide | src/middleware.ts:24-39 | to login with the path as `redirect` exactly for a protected path without token; home exactly for `/login` with a token; else through |
| Middleware.PublicRoutesWithToken | src/middleware.ts:33-39 | with a token, `/login` goes home and the other public routes pass |
| MockAuth.FirstLogin | src/lib/mockAuth.ts:43 | the first user matching both email and password, none exactly when nobody does |
| MockAuth.SignupThenLogin | src/lib/mockAuth.ts:61-89 | after a user with a fresh email is appended, its credentials find exactly it |
| MockAuth.UserStore.constructor | src/lib/mockAuth.ts:23-28 | an empty store with distinct emails |
| MockAuth.UserStore.Login | src/lib/mockAuth.ts:40-59 | the first matching user's profile, else the invalid-credentials error |
| MockAuth.UserStore.Signup | src/lib/mockAuth.ts:61-89 | a taken email is refused with no change; else the user is appended, its profile returned, and login finds it |
| Api.Login | src/lib/api.ts:102-140 | success exactly when the first email match, ignoring case, is complete and has that non-empty password; the incomplete-data error exactly for an incomplete match; otherwise invalid credentials |
| Api.LoginWithUniqueEmails | src/lib/api.ts:102-129 | with emails unique ignoring case, login succeeds exactly for a complete user with that email and password |
| Api.LoginUsesFirstRecord | src/lib/api.ts:102 | a duplicated email logs in only with the first record's password |
| Api.Signup | src/lib/api.ts:194-226 | success exactly when no email clashes ignoring case and the create answered with an id; a clash gives the email field error; otherwise the create-failed error |
| Api.Decimal | src/lib/api.ts:164 | a status prints as a non-empty string of decimal digits that denotes the status, with a leading `0` only for zero |
| Api.Report | src/lib/api.ts:150-173 | no response gives the connection error; an error response the first non-empty of message, error and status default, with its field errors; a thrown error passes through; else the generic text |
| Api.ReportHasMessage | src/lib/api.ts:150-173 | every error the client makes itself has a non-empty message |
| Api.MembershipNumbers | src/lib/api.ts:568-577 | the forms' membership numbers in order, or none when the fetch fails |

## Left out

- Network, storage and timers: HTTP requests, axios and its interceptors, `localStorage`, cookies, simulated delays. Their answers are parameters.
- Router navigation, modals, loading flags, alerts and everything rendered. Only the state and data that the handlers compute are modelled.
- Effect timing: React effects and state updates are separate method calls. For example, the is-new recheck after adding a number is `RecheckNew`, called by whoever models the render.
- Token and id generation: `btoa`, `Date.now`, `Math.random` and the mock token format. Ids and tokens are arguments.
- The switch between the mock and the real authentication back end. Both paths are modelled separately.
- The middleware's matcher configuration and URL construction. The redirect target is the path itself, without percent-encoding.
- `new Date(...)` parsing: dates are compared as strings.
- `localeCompare`: modelled as ordinal comparison of characters.
- `toLowerCase`: maps ASCII letters only.
- Percentages and other floating-point display values (stock utilisation, `toLocaleString`).
- Runtime values outside the declared types: the model does not cover missing fields, `null` years (written `""`), non-string ids, `NaN`, or `parseInt` of non-numeric text in the stock form. Stock amounts are integers.
- Api.Login: does not model the exception thrown when a listed user has no email at all, which the source's `u.email.toLowerCase()` would raise.
- The object key order of the chart's accumulator: the chart sorts its values by year, so the order is irrelevant.
- Row page sizes below 1: every pager assumes `itemsPerPage >= 1`.
- The declaration form without an `onSubmit` callback, and failures of the submit callback: `SubmitSucceeded` models the success path only.
- Aliasing: records are values, so the in-place updates of the product map's entry objects are modelled as map updates.
