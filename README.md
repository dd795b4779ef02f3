# Data table view engine and contact form: a Dafny model

This project models the two stateful Lightning Web Components of the repository:

- **`dataTable`**: a searchable, sortable, paginated table over an in-memory row
  collection. Its state is `searchKey`, `sortedBy`, `sortDirection`, `pageSize`,
  `currentPage`, `totalPages`, `totalRecords`, `data` and `selectedRows`. Every event
  handler updates some of that state and then reruns one pipeline,
  `updateDisplayData`. The pipeline filters rows by a case-insensitive substring
  search over all values, counts them into pages, resets a page that is past the end
  to page 1, sorts by one column's string value and slices out the current page.
- **`contactInputForm`**: a form with eight inputs that builds the field map for a new
  Contact record. It tracks the saving, success and error flags through validation and
  through the two outcomes of the asynchronous create call. On failure it picks the
  message to show from the error body.

Files:

- `optional.dfy` holds the `Option` type, which stands for JavaScript's `undefined`.
- `text.dfy` (module `Text`) holds the string operations: ASCII lower-casing,
  `includes`, JavaScript's `<` on strings with a reference lexicographic order it is
  proved equal to, and decimal rendering of numbers with its inverse.
- `data_table.dfy` (module `DataTable`) holds the pipeline as pure functions, the
  in-place sort as methods over a fresh array, and the component as class
  `DataTable`. The class keeps a ghost field `view`: the whole filtered and sorted
  sequence that the current page was cut from. `Valid()` states the class invariant:
  the derived fields agree with the pipeline, and the page is in range.
- `data_table_samples.dfy` holds the component's eight sample rows as a fixture, with
  the paging and search scenarios they show.
- `contact_input_form.dfy` (module `ContactInputForm`) holds the field map, the error
  extraction and the form as class `ContactInputForm`.

Edge cases the model keeps as the code has them:

- `totalPages` is `Math.ceil(totalRecords / pageSize)` with no minimum of 1. It is 0
  when nothing matches.
- The page is not always in `[1, totalPages]`. With no matches the page is 1 after a
  search, and `handleLast` sets it to 0, which the clamp `0 > 0` keeps. `PageInRange`
  states exactly this.
- The sort leaves `currentPage` unchanged only when the page was in range, which every
  handler preserves. `HandleSort` therefore requires `Valid()`.
- With no matches the pagination text reads "1 - 0 件 / 全 0 件" on page 1. On page 0
  the start is `1 - pageSize`, for example "-4 - 0 件 / 全 0 件" (`InfoWhenEmpty`).

## Model

| member | source | states |
|---|---|---|
| `DataTable.Filter` | force-app/main/default/lwc/dataTable/dataTable.js:176-183 | The search step: no filtering when the key is empty, otherwise the rows some value of which includes the lower-cased key. Its meaning is stated by `FilterCounts`, `FilterAppend`, `FilterCaseInsensitive` and `FilterLowerKey`. |
| `DataTable.FilterCounts` | force-app/main/default/lwc/dataTable/dataTable.js:173-183 | Every copy of a row the search keeps is kept, and no copy of any other row. A row is in the result iff it is in the input and some value, lower-cased, includes the lower-cased key. An empty key keeps every row. |
| `DataTable.FilterAppend` | force-app/main/default/lwc/dataTable/dataTable.js:178-182 | Filtering a concatenation is the concatenation of the filtered parts, so kept rows stay in their original relative order. |
| `DataTable.FilterCaseInsensitive` | force-app/main/default/lwc/dataTable/dataTable.js:176-181 | Two keys that lower-case alike select the same rows. |
| `DataTable.FilterLowerKey` | force-app/main/default/lwc/dataTable/dataTable.js:177 | Lower-casing the key before searching selects the same rows, since the search lower-cases it anyway. |
| `DataTable.FilterRows` | force-app/main/default/lwc/dataTable/dataTable.js:178-182 | Filtering never yields more rows than it was given. |
| `DataTable.PageCount` | force-app/main/default/lwc/dataTable/dataTable.js:166 | `Math.ceil(totalRecords / pageSize)` on whole numbers; `PageCountIsCeiling` states what it means. |
| `DataTable.PageCountIsCeiling` | force-app/main/default/lwc/dataTable/dataTable.js:165-167 | The page count is the ceiling of total / pageSize: the fewest pages that hold every row. It is 0 exactly when there are no rows. |
| `DataTable.ClampPage` | force-app/main/default/lwc/dataTable/dataTable.js:190-192 | A page past the last goes back to 1, any other page is kept; `UpdateDisplayData` ensures the new page is this clamp of the old one. |
| `DataTable.Slice` | force-app/main/default/lwc/dataTable/dataTable.js:202 | `Array.prototype.slice` on a sequence; `SliceInRange` states what it returns. |
| `DataTable.SliceInRange` | force-app/main/default/lwc/dataTable/dataTable.js:202 | `slice` with both indices in range is the subsequence between them. A range of non-negative indices that is inverted or starts past the end is empty. An end past the last row is clipped. A negative start counts from the end. |
| `DataTable.Page` | force-app/main/default/lwc/dataTable/dataTable.js:200-202 | Page `currentPage` is `slice((currentPage - 1) * pageSize, (currentPage - 1) * pageSize + pageSize)`; `PageContents` and `PagesCoverRows` state what it holds. |
| `DataTable.PageContents` | force-app/main/default/lwc/dataTable/dataTable.js:200-202 | Page `p >= 1` is the block of rows from `(p-1)*pageSize`, clipped to the rows there are, so it holds at most `pageSize` rows. Page 0 is empty. |
| `DataTable.PagesUpToPrefix` | force-app/main/default/lwc/dataTable/dataTable.js:200-202 | Pages 1 to n laid end to end are the first n * pageSize rows, or all of them. |
| `DataTable.PagesCoverRows` | force-app/main/default/lwc/dataTable/dataTable.js:165-167 | Pages 1 to `totalPages` laid end to end are exactly the rows, in order: every row is on exactly one page. |
| `DataTable.Lookup` | force-app/main/default/lwc/dataTable/dataTable.js:214-216 | `row[fieldName]` is present iff the row has a property of that name, and it is that property's value. |
| `DataTable.SortKey` | force-app/main/default/lwc/dataTable/dataTable.js:214-220 | A row's sort key: its value for the column, with a missing or empty value read as ''. `InOrderIsKeyOrder` states the order built on it. |
| `DataTable.CompareKeys` | force-app/main/default/lwc/dataTable/dataTable.js:221 | `(x > y) - (y > x)` on two keys. `InOrderIsKeyOrder` relates it to the string order. |
| `DataTable.Compare` | force-app/main/default/lwc/dataTable/dataTable.js:217-221 | The comparator, negated for any direction but 'asc'. `InOrderIsKeyOrder`, `InOrderTotal` and `InOrderTransitive` state its properties. |
| `DataTable.InOrderIsKeyOrder` | force-app/main/default/lwc/dataTable/dataTable.js:217-221 | The comparator puts `x` before `y` iff `x`'s key is at most `y`'s key in string order for 'asc'. For any other direction the order is reversed. Falsy keys compare as ''. |
| `DataTable.InOrderTotal` | force-app/main/default/lwc/dataTable/dataTable.js:221 | Of any two rows, the comparator lets at least one come first. |
| `DataTable.InOrderTransitive` | force-app/main/default/lwc/dataTable/dataTable.js:217-221 | The comparator's "may come before" is transitive, so the comparator is consistent. |
| `DataTable.SortedByKeys` | force-app/main/default/lwc/dataTable/dataTable.js:217-221 | A sequence sorted by the comparator has non-decreasing keys for 'asc' and non-increasing keys otherwise. |
| `DataTable.Insert` | force-app/main/default/lwc/dataTable/dataTable.js:218-221 | One pass of the sort on values: the new row moves in from the end past every row that must come after it. `InsertCount` and `InsertKeepsOrder` state its meaning, and `InsertDown` is proved to compute it. |
| `DataTable.InsertCount` | force-app/main/default/lwc/dataTable/dataTable.js:218-221 | One pass adds exactly the one row: the multiset grows by it. |
| `DataTable.InsertKeepsOrder` | force-app/main/default/lwc/dataTable/dataTable.js:218-221 | One pass into rows in order leaves rows in order. |
| `DataTable.InsertionSort` | force-app/main/default/lwc/dataTable/dataTable.js:212-224 | The order `sortData` returns, as a function of its input: each row in turn inserted among the sorted rows before it. `InsertionSortSorts` and `InsertionSortIsSorted` state its meaning. |
| `DataTable.InsertionSortSorts` | force-app/main/default/lwc/dataTable/dataTable.js:212-224 | The sort's result is a permutation of the input whose neighbouring rows are in comparator order. |
| `DataTable.InsertionSortIsSorted` | force-app/main/default/lwc/dataTable/dataTable.js:212-224 | The sort's result is a permutation of the input, sorted by the comparator at any distance. |
| `DataTable.InsertDown` | force-app/main/default/lwc/dataTable/dataTable.js:218 | One in-place pass leaves `a[..i + 1]` as `Insert` orders the old `a[..i]` with the old `a[i]`, and leaves `a[i + 1..]` unchanged. |
| `DataTable.SortData` | force-app/main/default/lwc/dataTable/dataTable.js:212-224 | The result is exactly `InsertionSort` of the input, a permutation of it sorted by the comparator. The input, a value, is left as it was. |
| `DataTable.SortedView` | force-app/main/default/lwc/dataTable/dataTable.js:173-197 | The rows the table pages through: the filtered rows, sorted by `InsertionSort` when a column is chosen. `SortedViewIsSorted` states what they are. |
| `DataTable.SortedViewIsSorted` | force-app/main/default/lwc/dataTable/dataTable.js:194-197 | The view has the filtered rows as its multiset and length. It is exactly the filtered rows without a sort column, and sorted by the comparator with one. |
| `DataTable.Info` | force-app/main/default/lwc/dataTable/dataTable.js:382-383 | The start and end record of the pagination text. `InfoMatchesPage` and `InfoWhenEmpty` state what they are. |
| `DataTable.InfoText` | force-app/main/default/lwc/dataTable/dataTable.js:384 | The text `${start} - ${end} 件 / 全 ${total} 件`, with the numbers rendered by `IntToString` and `NatToString`. |
| `DataTable.InfoMatchesPage` | force-app/main/default/lwc/dataTable/dataTable.js:381-385 | On a page in range, the reported start and end records lie within the rows and are exactly the rows shown on the page. |
| `DataTable.InfoWhenEmpty` | force-app/main/default/lwc/dataTable/dataTable.js:381-385 | With no rows the page is empty and the end record is 0. The start is 1 on page 1 and `1 - pageSize` on page 0. |
| `DataTable.SelectedText` | force-app/main/default/lwc/dataTable/dataTable.js:412-416 | The selection text is empty iff no row is selected. |
| `DataTable.DataTable.constructor` | force-app/main/default/lwc/dataTable/dataTable.js:134-144 | The initial state: no data, no sort column, 'asc', empty key, page size 5, page 1, 1 page, 0 records. |
| `DataTable.DataTable.CalculateTotalPages` | force-app/main/default/lwc/dataTable/dataTable.js:165-167 | `totalPages` becomes the page count of `totalRecords`. Nothing else changes. |
| `DataTable.DataTable.UpdateDisplayData` | force-app/main/default/lwc/dataTable/dataTable.js:172-203 | `totalRecords` is the number of filtered rows and `totalPages` its page count. The page resets to 1 exactly when it exceeded `totalPages`. `view` is `SortedView` of the state and `data` is that page of it, with at most `pageSize` rows. |
| `DataTable.DataTable.LoadData` | force-app/main/default/lwc/dataTable/dataTable.js:156-160 | Loading from the initial page establishes the invariant, stays on page 1 and counts the matching rows. |
| `DataTable.DataTable.HandleSort` | force-app/main/default/lwc/dataTable/dataTable.js:230-234 | Sets the column and direction and re-sorts. The page, page count and record count are unchanged. |
| `DataTable.DataTable.HandleSearch` | force-app/main/default/lwc/dataTable/dataTable.js:240-244 | Sets the key, ends on page 1, and counts the rows that match the new key. |
| `DataTable.DataTable.HandleClearSearch` | force-app/main/default/lwc/dataTable/dataTable.js:249-253 | Clears the key, ends on page 1, and counts every row. |
| `DataTable.DataTable.HandlePageSizeChange` | force-app/main/default/lwc/dataTable/dataTable.js:355-359 | Sets the page size and ends on page 1. |
| `DataTable.DataTable.HandleRowSelection` | force-app/main/default/lwc/dataTable/dataTable.js:259-263 | Stores the selected rows and changes nothing else. |
| `DataTable.DataTable.HandlePrevious` | force-app/main/default/lwc/dataTable/dataTable.js:318-323 | When `isPreviousDisabled` holds, nothing changes. Otherwise the page goes back by exactly one. The invariant is kept. The view, and so every other page, is unchanged. |
| `DataTable.DataTable.HandleNext` | force-app/main/default/lwc/dataTable/dataTable.js:328-333 | When `isNextDisabled` holds, nothing changes. Otherwise the page goes forward by exactly one. The invariant is kept. The view, and so every other page, is unchanged. |
| `DataTable.DataTable.HandleFirst` | force-app/main/default/lwc/dataTable/dataTable.js:338-341 | Ends on page 1, with the counts and the view unchanged. |
| `DataTable.DataTable.HandleLast` | force-app/main/default/lwc/dataTable/dataTable.js:346-349 | Ends on page `totalPages`, which is 0 when nothing matches. The counts and the view are unchanged. |
| `DataTable.DataTable.IsPreviousDisabled` | force-app/main/default/lwc/dataTable/dataTable.js:365-367 | In a valid state, "previous" is disabled exactly on page 1 or when there are no pages. |
| `DataTable.DataTable.IsNextDisabled` | force-app/main/default/lwc/dataTable/dataTable.js:373-375 | In a valid state, "next" is disabled exactly on the last page or when there are no pages. |
| `DataTable.DataTable.PaginationInfo` | force-app/main/default/lwc/dataTable/dataTable.js:381-385 | In a valid state from page 1 on, the reported range has exactly as many records as `data`. When rows match, `data` is exactly `view[start-1 .. end]`. |
| `DataTable.DataTable.PageFacts` | force-app/main/default/lwc/dataTable/dataTable.js:381-385 | The same facts about the current state, plus the empty case: with no rows, `data` is empty and the end record is 0. |
| `DataTable.DataTable.PaginationText` | force-app/main/default/lwc/dataTable/dataTable.js:381-385 | The pagination text of the current state; `PaginationInfo` states what its numbers are. |
| `DataTable.DataTable.HasSearchKey` | force-app/main/default/lwc/dataTable/dataTable.js:404-406 | True iff the key is non-empty. Without a key the filter keeps every row. |
| `DataTable.DataTable.SelectedRowsText` | force-app/main/default/lwc/dataTable/dataTable.js:412-416 | Empty iff no row is selected. |
| `DataTableSamples.SampleData` | force-app/main/default/lwc/dataTable/dataTable.js:59-132 | The fixture has the component's eight sample rows, the first with the e-mail "yamada.taro@example.com". |
| `DataTableSamples.EightRowsTwoPages` | force-app/main/default/lwc/dataTable/dataTable.js:381-385 | Eight rows at five per page make two pages. Page 1 is rows 1-5 and page 2 is rows 6-8. The text on page 2 reads "6 - 8 件 / 全 8 件". |
| `DataTableSamples.SearchFindsTaro` | force-app/main/default/lwc/dataTable/dataTable.js:176-182 | The key "Taro" keeps any row whose e-mail is "yamada.taro@example.com", as the first sample row's is. |
| `DataTableSamples.SampleSearchFindsTaro` | force-app/main/default/lwc/dataTable/dataTable.js:59-66 | The key "Taro" keeps the first sample row. |
| `DataTableSamples.NumbersSortAsText` | force-app/main/default/lwc/dataTable/dataTable.js:221 | Keys compare as text, so "10" sorts before "9". |
| `DataTableSamples.PagingScenario` | force-app/main/default/lwc/dataTable/dataTable.js:328-333 | Loading a table of eight rows, as many as the samples, and pressing "next" shows rows 6-8, and the text reads "6 - 8 件 / 全 8 件". |
| `DataTableSamples.SamplePaging` | force-app/main/default/lwc/dataTable/dataTable.js:59-132 | Loading the sample table and pressing "next" shows the last three samples, and the text reads "6 - 8 件 / 全 8 件". |
| `Text.ToLower` | force-app/main/default/lwc/dataTable/dataTable.js:177 | Lower-casing keeps the length, leaves no capital A-Z, moves each capital 32 code points up to its small letter and keeps every other character. `ToLowerIdempotent` and `FilterCaseInsensitive` state what it means for the search. |
| `Text.ToLowerIdempotent` | force-app/main/default/lwc/dataTable/dataTable.js:177 | Lower-casing twice is lower-casing once. |
| `Text.Contains` | force-app/main/default/lwc/dataTable/dataTable.js:180 | `includes`: the key is a prefix of some suffix. `ContainsIff` states it as an occurrence at an index. |
| `Text.ContainsIff` | force-app/main/default/lwc/dataTable/dataTable.js:180 | `includes` holds iff the key occurs as a contiguous block at some index. |
| `Text.StrLess` | force-app/main/default/lwc/dataTable/dataTable.js:221 | String `>` on the keys, read from the other side. `StrLessIsLex` states what order it is. |
| `Text.StrLessIsLex` | force-app/main/default/lwc/dataTable/dataTable.js:221 | String `<` equals the reference lexicographic order: a proper prefix, or a smaller character at the first difference. |
| `Text.StrLessTransitive` | force-app/main/default/lwc/dataTable/dataTable.js:221 | String `<` is transitive. |
| `Text.StrLessTotal` | force-app/main/default/lwc/dataTable/dataTable.js:221 | Of two different strings, one is smaller. |
| `Text.NatToString` | force-app/main/default/lwc/dataTable/dataTable.js:384 | A number renders as a non-empty string of decimal digits with no leading zero. |
| `Text.IntToString` | force-app/main/default/lwc/dataTable/dataTable.js:382-384 | A negative start record renders with a leading '-', and only a negative one does. |
| `Text.NatToStringRoundTrip` | force-app/main/default/lwc/dataTable/dataTable.js:384 | Reading the digits back gives the number. |
| `ContactInputForm.Set` | force-app/main/default/lwc/contactInputForm/contactInputForm.js:42-47 | `this[field] = value` changes exactly the named input. |
| `ContactInputForm.ApiNameInjective` | force-app/main/default/lwc/contactInputForm/contactInputForm.js:74-83 | Different inputs fill different Contact fields. |
| `ContactInputForm.AddIfPresentFields` | force-app/main/default/lwc/contactInputForm/contactInputForm.js:77-83 | Each optional field is added iff its input is non-empty, with its value. No other key is added. |
| `ContactInputForm.BuildFields` | force-app/main/default/lwc/contactInputForm/contactInputForm.js:73-85 | The `fields` object of the record input. `BuildFieldsContents` and `BuildFieldsRoundTrip` state what it holds. |
| `ContactInputForm.BuildFieldsContents` | force-app/main/default/lwc/contactInputForm/contactInputForm.js:73-85 | The field map always has FirstName and LastName. Each of the six optional fields is present iff its input is non-empty, each with its input's value. There are no other keys. |
| `ContactInputForm.BuildFieldsRoundTrip` | force-app/main/default/lwc/contactInputForm/contactInputForm.js:73-85 | Every input reads back from the map, with a missing key read as ''. |
| `ContactInputForm.ExtractErrorMessage` | force-app/main/default/lwc/contactInputForm/contactInputForm.js:175-191 | The result, in priority order: the body's message; else the first page error; else the first field's first error; else the fixed fallback. No body always gives the fallback. The result is always a message the error carries, or the fallback. |
| `ContactInputForm.SuccessMessage` | force-app/main/default/lwc/contactInputForm/contactInputForm.js:92 | The template literal `Contact "${firstName} ${lastName}" created successfully!`. `OnCreateSuccess` ensures the banner text is built from the names as they were before the form is cleared. |
| `ContactInputForm.ContactInputForm.constructor` | force-app/main/default/lwc/contactInputForm/contactInputForm.js:24-36 | All inputs and messages start empty and all flags false. |
| `ContactInputForm.ContactInputForm.HandleInputChange` | force-app/main/default/lwc/contactInputForm/contactInputForm.js:42-54 | Only the named input changes. Both banners end hidden, and the saving flag and the messages are unchanged. |
| `ContactInputForm.ContactInputForm.ValidateForm` | force-app/main/default/lwc/contactInputForm/contactInputForm.js:131-144 | Returns the validity. When invalid, the error banner is shown with the required-fields text. Otherwise nothing changes. |
| `ContactInputForm.ContactInputForm.HandleSubmit` | force-app/main/default/lwc/contactInputForm/contactInputForm.js:60-85 | An invalid form submits nothing, shows the required-fields error and leaves `isSaving` as it was. A valid one sets `isSaving`, hides both banners and submits a Contact with the built field map. |
| `ContactInputForm.ContactInputForm.HandleClear` | force-app/main/default/lwc/contactInputForm/contactInputForm.js:149-159 | All eight inputs become '' and both banners are hidden. Nothing else changes. |
| `ContactInputForm.ContactInputForm.OnCreateSuccess` | force-app/main/default/lwc/contactInputForm/contactInputForm.js:89-104 | `isSaving` ends false. The success text is built from the names before clearing. All inputs end empty, and the success banner ends hidden. |
| `ContactInputForm.ContactInputForm.OnCreateSuccessKeepingBanner` | force-app/main/default/lwc/contactInputForm/contactInputForm.js:103-109 | The intended continuation: the same state, except that the success banner stays shown until the timer hides it. |
| `ContactInputForm.ContactInputForm.OnCreateFailure` | force-app/main/default/lwc/contactInputForm/contactInputForm.js:111-114 | `isSaving` ends false, the error banner is shown, and the message is the extracted one. |
| `ContactInputForm.SuccessBannerAfterCreate` | force-app/main/default/lwc/contactInputForm/contactInputForm.js:89-109 | After a valid submit and a successful create, the banner is off as written and on as intended. |

## Left out

- Platform machinery is not modelled: the component decorators and reactivity, the unused object-info import, `createRecord` itself, toast events and `dispatchEvent`.
- `querySelectorAll` with `reportValidity`/`checkValidity` is not modelled. The combined validity is an input boolean of `ValidateForm` and `HandleSubmit`.
- Clearing the input widgets' own values in `handleClear` is not modelled.
- The five-second `setTimeout` that hides the success banner is not modelled. It is timer-driven and fire-and-forget.
- The create call is asynchronous. The model splits it into `HandleSubmit`, which returns the record input, and the two continuations, which the caller invokes.
- `console.log` output is not modelled. Neither are the row-action handlers (`handleRowAction`, `handleView`, `handleEdit`, `handleDelete`), which only log.
- The `columns` literal is not modelled. The sample rows appear only as a fixture.
- The contact card component is not part of this model. Its getters only read wired record data through the platform.
- `parseInt` on the page-size event value is not modelled. The page size is any positive integer (`PageSize`); the selector offers 5, 10, 25 and 50.
- The sort is modelled as an insertion sort, `InsertionSort`. It keeps rows with equal keys in their input order, as the stable `Array.prototype.sort` of ECMAScript 2019 does. The model proves the result a sorted permutation and a function of its input, so every recompute from the same state pages through the same `view`. No lemma states stability itself.
- The JSON deep copy in `sortData` becomes a fresh array. Row values are strings, so the copy equals the original.
- `toLowerCase` lower-cases ASCII letters only. Full Unicode case mapping is not modelled.
- String `<` compares by characters, while JavaScript compares UTF-16 code units. The two differ only for characters outside the Basic Multilingual Plane.
- Row values are strings. `String(value)` of numbers or other types is not modelled, because every value in the table's rows is a string.
- The initial `undefined` of `sortedBy` is modelled as ''. Both are falsy, and the code only tests the field's truthiness and looks it up.
- In the error body, a missing `message`, `pageErrors` or `fieldErrors` is modelled as '' or an empty list, which the code treats the same way. A page or field error with no `message` property (JavaScript `undefined`) is not modelled: messages are strings.
- Dynamic `this[field] = value` for names outside the eight inputs is not modelled. `FormField` enumerates the eight named inputs.

## Findings

| source | as written | input that shows it | evidently intended | confidence | as-written member | corrected member |
|---|---|---|---|---|---|---|
| force-app/main/default/lwc/contactInputForm/contactInputForm.js:91-109 | The success continuation sets `showSuccess = true` and then calls `handleClear`, which sets it back to false at once. The timer that should hide the banner after five seconds finds it already hidden. | Any valid submit whose create call succeeds, e.g. first name "A", last name "B". | The banner stays visible after the form is cleared until the timer hides it, as the comment at line 106 says. | medium, not executed | `ContactInputForm.ContactInputForm.OnCreateSuccess` (shown off by `ContactInputForm.SuccessBannerAfterCreate`) | `ContactInputForm.ContactInputForm.OnCreateSuccessKeepingBanner` |
