# Smart expense tracker: ledger, totals and CSV export in Dafny

The expense tracker is a single browser script, `script.js`. It keeps a
ledger of transactions (`id`, `amount`, `type`, `category`, `date`,
`notes`) in a module-level array. The submit handler appends a record. The
delete handler filters a record out by id. After each of these changes the
whole array is saved to the browser's local storage. Two loops add up the
ledger: the list renderer's loop feeds the balance panel, and the chart
updater's loop feeds a pie chart of expenses by category and a bar chart of
income against expense. The export handler turns the ledger into a CSV text.

This project models that logic in four modules:

- `Records` (`records.dfy`): the `Transaction` record and an `Option` type.
  The record's `type` field is called `kind` here. It stays a free string,
  because the script never restricts it.
- `LedgerStore` (`ledger.dfy`): the class `Ledger`. Its field
  `transactions` is the in-memory array. Its field `saved` is the stored
  copy: `None` while nothing is stored, `Some(array)` after a save. The
  delete filter is the function `WithoutId`.
- `Aggregate` (`aggregate.dfy`): the two totals loops as methods with
  `while` loops. Each is proved against `Total`, a sum over the ledger of a
  `Measure` (which records count, and for what). The loops classify records
  differently, and both rules are kept as written. The totals loop counts
  a record as income when its type is `"income"` and as expense otherwise.
  The chart loop counts a record as expense when its type is `"expense"`
  and as income otherwise.
- `CsvExport` (`csv.dfy`): the export loop as a method, the row template,
  the quote-doubling of the notes column, and a reader for one line
  (`ParseRow`: the RFC 4180 field grammar, records ended by LF, five
  columns with an integer fourth) that the round-trip lemmas use as the
  partner of the writer. The reader accepts a quoted or an unquoted field in every column,
  so a line that fails to read back fails because of how it was written.

Amounts and ids are unbounded integers. The record id, which the script
takes from the clock, is a parameter of `Ledger.Add`. Saving is modelled as
setting `saved` to the current ledger. Loading is modelled as the
constructor `Ledger.Load`, given what storage holds: `None` stands for every
stored value the page's `|| []` replaces by an empty array.

Three behaviours of the code are easy to miss, and the model keeps them:

- Delete returns nothing, and it removes every record with the given id, not
  only one. With unique ids this is exactly one record (`DeleteRemovesOne`).
- A missing storage entry gives an empty ledger, and so does a stored text
  whose JSON value is falsy (`null`, `0`, `false`, `""`): `|| []` replaces
  it. Both reach `Ledger.Load` as `None`. Stored text that does not parse
  makes the page script throw, so there is no silent recovery to model.
- Ids are not guaranteed unique: two records added in the same millisecond
  share one. The model proves that uniqueness is preserved when the new id
  is fresh, and does not assume it elsewhere.

## Model

| member | source | states |
|---|---|---|
| LedgerStore.Ledger.Load | script.js:10 | the ledger is the stored array, or empty when nothing usable is stored (a missing entry or a falsy JSON value); the stored copy and the ledger agree (`InSync`) |
| LedgerStore.Ledger.Save | script.js:41-43 | the stored copy becomes the whole current ledger, replacing what was there |
| LedgerStore.Ledger.Add | script.js:24-35 | the new record carries exactly the given id and form values; the ledger grows by one; the new record is last and every earlier record is unchanged; the stored copy equals the ledger afterwards; a fresh id keeps ids unique |
| LedgerStore.Ledger.Delete | script.js:96-98 | the ledger becomes the filter of the old one; no remaining record has the id; every other record survives; an absent id leaves the ledger unchanged; the stored copy equals the ledger afterwards; unique ids stay unique and a present id removes exactly one record |
| LedgerStore.WithoutId | script.js:97 | a record is in the filtered ledger exactly when it was in the ledger and its id differs; the result is no longer than the input |
| LedgerStore.WithoutAbsentId | script.js:97 | filtering an id no record has returns the ledger unchanged |
| LedgerStore.WithoutIdAppend | script.js:97 | the filter keeps relative order: filtering a concatenation is the concatenation of the filtered parts |
| LedgerStore.SplitById | script.js:97 | kept records plus removed records are the ledger as a multiset: every record lands in exactly one part, as often as it occurs, so their lengths add up to the ledger's |
| LedgerStore.IdsWithoutId | script.js:97 | the ids after a delete are the ids before it minus the deleted one |
| LedgerStore.DeleteKeepsUnique | script.js:97 | deleting keeps ids unique |
| LedgerStore.DeleteRemovesOne | script.js:97 | with unique ids, deleting a present id shortens the ledger by exactly one |
| LedgerStore.AddFreshUnique | script.js:24-34 | appending a record whose id is not yet used keeps ids unique |
| Aggregate.PanelTotals | script.js:49-86 | the loop's income is the sum of `"income"` amounts, its expense the sum of all other amounts, the balance is income minus expense, income plus expense is the sum of all amounts, and an empty ledger gives zeros |
| Aggregate.ChartTotals | script.js:108-120 | the loop's expense total is the sum of `"expense"` amounts and its income total the sum of all others; the category map has a key exactly for the categories of `"expense"` records, each mapped to that category's expense sum; the map's values add up to the expense total; an empty ledger gives an empty map and zeros |
| Aggregate.PanelPartition | script.js:76-80 | the totals loop puts every record on exactly one side |
| Aggregate.ChartPartition | script.js:113-120 | the chart loop puts every record on exactly one side |
| Aggregate.LoopsDiffer | script.js:76-120 | a record whose type is neither `"income"` nor `"expense"` is income for the bar chart and expense for the balance panel, and the two loops differ by exactly those amounts |
| Aggregate.LoopsAgree | script.js:76-120 | when every type is `"income"` or `"expense"` the two loops give the same income and expense totals |
| Aggregate.TotalAfterDelete | script.js:97 | after a delete, every total drops by exactly the deleted records' contributions |
| Aggregate.DeleteOneTotal | script.js:97 | with unique ids, deleting one record lowers every total by that record's contribution alone |
| Aggregate.CategoryStepExpense | script.js:114-116 | one `"expense"` record adds its amount to its category's slot, starting from zero when the slot is absent, and raises the sum of the map's values by its amount |
| Aggregate.AbsentCategoryTotal | script.js:115 | a category no `"expense"` record has sums to zero, so a fresh slot starts from zero |
| Aggregate.SumValuesUpdate | script.js:115 | updating one key of the category map changes the sum of its values by the difference at that key |
| CsvExport.EscapeQuotes | script.js:187 | the `replace` of the notes: every character of the notes is kept, the only character added is `"`, and notes without a `"` are unchanged |
| CsvExport.QuoteField | script.js:187 | the notes field is wrapped in a pair of `"` and adds no character but `"` to the notes |
| CsvExport.AmountText | script.js:188 | the amount as the template writes it: at least one character, none of them a comma, quote or line break, with a leading `-` exactly when the amount is negative |
| CsvExport.Row | script.js:187-188 | one record's line, ended by a line break |
| CsvExport.Rows | script.js:185-189 | the data lines the export loop appends: empty exactly for an empty ledger, and otherwise ended by a line break |
| CsvExport.ExportCsv | script.js:184-189 | the output is the fixed header followed by one row per record in ledger order, and is the header alone for an empty ledger |
| CsvExport.RowsAppend | script.js:185-189 | the rows of a concatenated ledger are the rows of the parts in order |
| CsvExport.RowsCons | script.js:185-189 | the first record's row comes first |
| CsvExport.UnescapeEscape | script.js:187 | un-doubling the quotes of the escaped notes gives back the original notes |
| CsvExport.EscapedPaired | script.js:187 | the escaped notes contain no lone `"`: every quote is one of a `""` pair |
| CsvExport.UnescapeExactlyPaired | script.js:187 | decoding succeeds exactly on bodies without a lone `"`, and escaping the decoded text gives the body back |
| CsvExport.QuoteFieldRoundTrip | script.js:187 | between its outer quotes, the exported notes field decodes back to the original notes and holds no lone `"` |
| CsvExport.AmountRoundTrip | script.js:188 | the amount column reads back as the amount |
| CsvExport.RowRoundTrip | script.js:187-188 | a row whose date, type and category hold no comma, quote or line break reads back, under the reader, as its record's date, type, category, amount and notes |
| CsvExport.CommaInCategoryBreaks | script.js:188 | a row whose category holds at least one comma and no quote or line break (and whose date and type are plain) does not read back at all, because the category is written unquoted; the same record with its columns quoted as the notes are reads back as written |
| CsvExport.QuotedCategoryMisread | script.js:188 | a row whose category is itself a quoted field (such as `"a,b"` with its quotes) reads back without error, but with the text between the quotes as the category, not the category written |
| CsvExport.RowIsOneLine | script.js:187-188 | a record without line breaks in its text columns exports as exactly one line |
| CsvExport.RowsLineCount | script.js:185-189 | such a ledger has one data line per record |
| CsvExport.CsvLineCount | script.js:184-189 | such a ledger exports as the header line plus one line per record |

## Left out

- The page's DOM work: looking up elements, building the list items with
  their inner HTML, form reset, and wiring the event listeners
  (script.js:2-7, 48-73, 93-95).
- The JSON encoding of the stored array and the storage read and write
  themselves. Storage is the `saved` field, and what it holds is given to
  `Ledger.Load`. A stored JSON value that is truthy but not an array of
  records (an object, a number) is not modelled.
- Chart construction and destruction (script.js:122-179). These are calls
  into a charting library. The model stops at the values handed to it.
- The file download: the blob, the object URL and the anchor click
  (script.js:190-197).
- The clock that supplies record ids. The id is a parameter.
- Floating-point amounts: parsing with unary `+`, `parseInt` of the delete
  button's id, fractional amounts, `NaN`, and rounding in the sums. Amounts
  and ids are integers.
- CsvExport.AmountText: writes an integer amount as its decimal numeral. It
  does not model the exponent notation JavaScript uses from 10^21 upward,
  or fractional amounts.
- Aggregate.ChartTotals: the category map is a Dafny `map`. It does not
  model the order of the keys the pie chart is given. It also does not
  model the inherited properties of a plain JavaScript object, so a
  category named like one of them (`constructor`, `__proto__`) behaves here
  like any other name.
