# Finance tracker core in Dafny

A model of the logic inside `script.js`, the single script of a browser
personal-finance tracker. Under its DOM, canvas and `localStorage` glue the
script keeps a module-level list of transactions
`{id, type, category, amount, date, note}` (newest first) and changes it
through three handlers: submit, delete and clear-all. Start-up seeds the list
when storage holds none. On every render it computes the income, expense,
balance and savings totals. It groups the expense records into a
category-to-sum dictionary sorted for the pie chart, hashes category names
into hues, and escapes text before putting it into `innerHTML`.

Modules, one per component:

- `Text` (`text.dfy`): the runtime services the core leans on. These are
  `String.prototype.trim` with ECMAScript's full whitespace set, the UTF-16
  code units that `charCodeAt` reads, and the decimal rendering of a hue.
- `Transactions` (`transactions.dfy`): the record, the field defaults of the
  submit handler, amount validation, the delete filter and the seed list.
- `Ledger` (`ledger.dfy`): class `Store` holding the list (`txs`) and the
  durable mirror (`stored`) that `save()` writes. Its methods are the handlers.
- `Summary` (`summary.dfy`): the filter/reduce totals, balance and savings.
- `Breakdown` (`breakdown.dfy`): the grouping loop, the entries and the sort.
  It also holds the page's own reduce over a plain object (see Findings).
- `Color` (`color.dfy`): ToInt32, `<< 5`, and the `colorFor` loop.
- `Escape` (`escape.dfy`): `escapeHtml` and a decoder for its four references.
- `Wrappers` (`wrappers.dfy`): `Option`, for `null`/`undefined` arguments.

Amounts are exact `real`s. `parseFloat`'s result is passed in as
`ParsedNumber` (`NaN` or a number). The results of `uid()`, `today()` /
`new Date()` and `confirm()` are passed in as parameters.

Two details of the code that the model keeps as written:

- The amount check at script.js:35 rejects only NaN and values that are not
  above 0, so a parsed Infinity is accepted (see Left out).
- The delete filter at script.js:74 removes every record carrying the id, not
  only the first. `Store.Delete` models the filter, and
  `Transactions.WithoutUnique` shows that exactly one record goes when ids
  are unique.

## Model

| member | source | states |
|---|---|---|
| `Text.TrimStart` | script.js:31 | the result is no longer than the input and does not start with trim-whitespace |
| `Text.TrimEnd` | script.js:31 | the result is no longer than the input and does not end with trim-whitespace |
| `Text.TrimStartIsSuffix` | script.js:31 | what is kept is a suffix of the input and everything dropped is whitespace |
| `Text.TrimEndIsPrefix` | script.js:31 | what is kept is a prefix of the input and everything dropped is whitespace |
| `Text.Trim` | script.js:31 | `trim()` is no longer than its input and has no whitespace at either end |
| `Text.TrimIsInfix` | script.js:31 | `trim()` is the infix between a whitespace prefix and a whitespace suffix |
| `Text.TrimEmptyIff` | script.js:31 | `trim()` is empty exactly when the input is all whitespace |
| `Text.TrimIdempotent` | script.js:31 | trimming twice equals trimming once |
| `Text.CharUnits` | script.js:142 | a character below U+10000 is its own single code unit; any other is a high surrogate (D800-DBFF) then a low surrogate (DC00-DFFF) that together encode it |
| `Text.CodeUnits` | script.js:142 | every unit is 16-bit and there are between n and 2n units for n characters |
| `Text.CodeUnitsAppend` | script.js:142 | the code units of a concatenation are the code units of each part in turn |
| `Text.CodeUnitsOfBmp` | script.js:142 | for text below U+10000 the code units are the characters themselves |
| `Text.Decimal` | script.js:144 | the rendering is a non-empty digit string whose value is the number, "0" for zero and without a leading zero otherwise |
| `Transactions.CategoryOf` | script.js:31 | the category is never empty; it is "Misc" for blank input and the trimmed input otherwise |
| `Transactions.CategoryIsTrimmed` | script.js:31 | a stored category carries no surrounding whitespace |
| `Transactions.Accepts` | script.js:35 | the validity test; `Ledger.Store.Submit` states that a submit succeeds exactly when the parsed amount is a number above 0 |
| `Transactions.NewTx` | script.js:29-37 | the new record keeps the fresh id, the type and the amount; its category is non-empty and has no surrounding whitespace; its note has none either; its date is non-empty whenever today's date is |
| `Transactions.PrependKeepsInvariants` | script.js:38 | prepending a positive amount keeps all amounts positive; prepending an unused id keeps ids unique |
| `Transactions.Without` | script.js:74 | the filter never lengthens the list |
| `Transactions.WithoutMembers` | script.js:74 | a record survives the delete filter iff it was in the list and its id differs |
| `Transactions.WithoutAppend` | script.js:74 | the filter keeps order: filtering a concatenation filters each part |
| `Transactions.WithoutAbsent` | script.js:74 | deleting an id no record carries leaves the list unchanged |
| `Transactions.WithoutUnique` | script.js:74 | with unique ids, deleting record k's id yields the list without exactly record k (one shorter) |
| `Transactions.WithoutKeepsInvariants` | script.js:74 | the filter keeps amounts positive and ids unique, and no record with the id remains |
| `Transactions.SeedList` | script.js:17-22 | four sample records with positive amounts, carrying the given ids and dates in order |
| `Ledger.Store.Open` | script.js:14-24 | a non-empty loaded list is kept; an empty one is replaced by the seed list, which is saved |
| `Ledger.Store.Submit` | script.js:28-42 | accepted iff the parsed amount is a number > 0; if rejected, list and storage are untouched; if accepted, the new record is at index 0, the old list follows unchanged and storage mirrors it; the category is "Misc" or the trimmed input, the date is the picker's value or today's date when that is blank, the note is trimmed; positivity and (with an unused id) id uniqueness are preserved |
| `Ledger.Store.Delete` | script.js:71-77 | the list becomes the id filter of the old list and is saved; an absent id changes nothing; with unique ids exactly the matching record goes; invariants are preserved |
| `Ledger.Store.ClearAll` | script.js:44-49 | confirmed: the list and storage become empty; declined: nothing changes |
| `Summary.OfKind` | script.js:80-81 | a record is in the filtered list exactly when it is in the list and has the requested type |
| `Summary.OfKindAppend` | script.js:80-81 | the filter keeps order: filtering a concatenation filters each part |
| `Summary.Total` | script.js:80-81 | the reduce over records with positive amounts is never negative |
| `Summary.IncomeTotal` | script.js:80 | the income figure equals the reference sum that counts only income records |
| `Summary.ExpenseTotal` | script.js:81 | the expense figure equals the reference sum that counts only expense records |
| `Summary.OfKindEmpty` | script.js:96-102 | the expense filter is empty exactly when no record is an expense |
| `Summary.Summarize` | script.js:80-85 | balance = income - expense; savings is non-negative, at least the balance, and equals 0 or the balance |
| `Summary.TotalAppend` | script.js:80-81 | the reduce distributes over concatenation |
| `Summary.FilterReduceIsKindSum` | script.js:80-81 | filter-then-reduce equals the reference sum where each record adds only to its own type |
| `Summary.BalanceIsSignedSum` | script.js:80-82 | income counts only income records, expense only expense records, and the balance is the sum of the amounts signed as the list shows them |
| `Summary.PrependTotals` | script.js:80-81 | a prepended record adds its amount to its own type's total and leaves the other total alone |
| `Summary.TotalsOfPositive` | script.js:80-81 | with positive amounts a total is non-negative, and positive iff a record of that type exists |
| `Summary.DeleteTotals` | script.js:80-81 | with unique ids, deleting a record takes exactly its amount off its own type's total |
| `Summary.ExampleTotals` | script.js:80-85 | salary 50000 plus rent 15000 give income 50000, expense 15000, balance and savings 35000 |
| `Breakdown.KeyOrder` | script.js:97-101 | the dictionary's key order names no category twice |
| `Breakdown.CategoriesStep` | script.js:96-99 | one more record adds its category to the expense categories iff it is an expense |
| `Breakdown.KeyOrderFacts` | script.js:97-101 | the dictionary's key order lists each expense category once and nothing else; an unlisted category sums to 0 |
| `Breakdown.KeyedSumStep` | script.js:97-99 | one more record adds its amount to the sum over the keys iff it is an expense with one of those categories |
| `Breakdown.KeyedSumIsExpense` | script.js:97-99 | the category sums over the key order add up to the expense total |
| `Breakdown.Entries` | script.js:101 | an entry is listed exactly when its category is a key and its amount that key's value; distinct keys give distinct categories |
| `Breakdown.SumTotals` | script.js:109 | the reduce over the entries; `Breakdown.SumTotalsAppend` and `Breakdown.EntriesSum` state its value |
| `Breakdown.SumTotalsAppend` | script.js:109 | the entries' reduce distributes over concatenation |
| `Breakdown.EntriesSum` | script.js:109 | the entries' total is the sum of the category totals over the keys |
| `Breakdown.Insert` | script.js:101 | insertion adds exactly the one entry to the multiset of entries |
| `Breakdown.InsertPerm` | script.js:101 | insertion adds exactly the one entry and its amount to the total |
| `Breakdown.InsertSorted` | script.js:101 | insertion into a non-increasing list keeps it non-increasing |
| `Breakdown.SortByAmount` | script.js:101 | the sort returns a permutation of its input whose amounts do not increase |
| `Breakdown.SortPerm` | script.js:101 | the sorted entries have the same total as the input |
| `Breakdown.SortDistinct` | script.js:101 | sorting keeps categories distinct |
| `Breakdown.GroupByCategory` | script.js:96-100 | the keys are exactly the expense categories in first-seen order, and each value is the sum of that category's expense amounts |
| `Breakdown.ExpenseBreakdown` | script.js:96-109 | the sorted entries are a permutation of the dictionary with distinct categories and non-increasing amounts; their total is the expense total; they are empty (the placeholder path) iff no expense record exists |
| `Breakdown.NoEntriesIffNoExpense` | script.js:102 | no entries exactly when the expense filter is empty |
| `Breakdown.GroupAsWritten` | script.js:97-100 | the page's plain-object reduce: every own key is an expense category, and "__proto__" never is one |
| `Breakdown.AsWrittenAgreesOtherwise` | script.js:97-100 | when no category names an inherited member, the page's plain-object reduce computes exactly the category sums |
| `Breakdown.InheritedNameCorrupts` | script.js:98 | one expense of 5 in category "toString" makes the page's dictionary hold a string, while its category sum is 5 |
| `Breakdown.ProtoCategoryDropped` | script.js:98 | an expense in category "__proto__" is missing from the page's dictionary, though it is an expense category |
| `Color.ToInt32` | script.js:142 | the result is a signed 32-bit integer congruent to the input modulo 2^32 |
| `Color.ToInt32Unique` | script.js:142 | ToInt32 returns the only such integer |
| `Color.ShiftLeft5` | script.js:142 | `h << 5` is always a signed 32-bit integer |
| `Color.ShiftLeft5Wraps` | script.js:142 | `h << 5` is `h * 32` wrapped to a signed 32-bit integer |
| `Color.HashOf` | script.js:141-142 | the hash after the loop; `Color.HashBound` and `Color.HashExact` bound it |
| `Color.HashBound` | script.js:142 | after n code units the hash's magnitude is at most n times (2^31 + 65535) |
| `Color.HashExact` | script.js:142 | for at most 2^21 code units the hash's magnitude stays below 2^53, so double arithmetic computes it exactly |
| `Color.Hue` | script.js:143 | the hue is a degree in [0, 360) |
| `Color.HslColor` | script.js:144 | the string is "hsl(" + digits + " 80% 45% / 0.95)", and the digits read back as the hue |
| `Color.ColorFor` | script.js:140-145 | the hue is in [0, 360) and equals the hash-derived hue of the text (so equal text gives equal colour), and the CSS string is built from it |
| `Escape.EscapeChar` | script.js:146 | a character other than `& < > "` is left as it is, and every replacement is markup-safe |
| `Escape.EscapeText` | script.js:146 | escaping never shortens the text |
| `Escape.EscapeHtml` | script.js:146 | a missing value gives "", otherwise the output is at least as long as the input |
| `Escape.SafeAppend` | script.js:146 | concatenating two markup-safe strings is markup-safe |
| `Escape.EscapeIsSafe` | script.js:146 | the output has no `<`, `>` or `"`, and every `&` starts one of the four references |
| `Escape.UnescapeEscape` | script.js:146 | decoding the four references returns the original text |
| `Escape.EscapeInjective` | script.js:146 | distinct texts escape to distinct markup |
| `Escape.EscapeHtmlEmpty` | script.js:146 | null and "" both escape to "" |

## Left out

- DOM construction, `innerHTML` templates, the badge letter, `txForm.reset()`
  and event-listener wiring (script.js:4-12, 26, 40, 51-71, 124-131). These
  are UI work; the model covers only the values they display.
- Canvas drawing, slice angles and legend percentages (script.js:92-95,
  102-108, 110-123, 126). These are floating-point trigonometry against a
  graphics API. The model stops at the sorted entries and their total.
- `save` and `load` (script.js:134-135). `save()` is modelled as copying the
  list into `Store.stored`; JSON text and `localStorage` are not modelled.
  `load()` is a parameter of `Store.Open`, so its fallback to `[]` on
  malformed content is not modelled. A truthy non-array JSON value (which
  would skip seeding) cannot be expressed either.
- `uid()`, `today()`, `new Date()` (script.js:33, 137, 139). They are
  randomness and clock, so their results are parameters. Id uniqueness is
  therefore a condition on the fresh id, not a guarantee.
- `format`/`toLocaleString` and `toFixed` (script.js:126, 138) are locale
  library calls and are not modelled.
- `alert` and `confirm` (script.js:35, 45) are blocking UI. The confirm answer
  is a `bool` parameter of `Store.ClearAll`.
- Ledger.Store.Submit: does not represent `parseFloat` returning Infinity
  (for input such as "1e999"), which script.js:35 accepts. Amounts are exact
  reals, so IEEE infinities, NaN sums and rounding are outside the model.
- Ledger.Store.Submit: the `type` select is taken to deliver only `income` or
  `expense`; another value would be stored by the page and counted in neither
  total.
- Breakdown.KeyOrder: `Object.entries` lists array-index-like keys (such as
  "2024") first in numeric order. The model uses insertion order for every
  key, which can only change the order of equal amounts after the sort.
- Breakdown.SortByAmount: it is a stable sort, as `Array.prototype.sort`
  must be, but stability itself is not proved.
- Text.CharUnits: a JavaScript string may hold a lone surrogate code unit,
  which no Dafny `char` can hold, so such strings are outside the model.
- Color.ColorFor: the hash uses unbounded integers. `Color.HashExact` shows
  this matches the page's doubles for texts of at most 2^21 code units; beyond
  that the page would round and the model does not.

## Findings

| source | as written | input that shows it | evidently intended | confidence | as-written member | corrected member |
|---|---|---|---|---|---|---|
| script.js:97-99 | the accumulator is the plain object `{}`, and `acc[t.category]` falls back to the member inherited from `Object.prototype`; adding an amount to a function concatenates strings | one expense of 5 in category "toString" (likewise "constructor", "valueOf", "hasOwnProperty", ...) stores a string instead of 5, which breaks the sort, the total and the slice angles | each category maps to the numeric sum of its expenses | high (not executed) | `Breakdown.InheritedNameCorrupts` | `Breakdown.GroupByCategory` |
| script.js:97-99 | writing to `acc["__proto__"]` runs the prototype setter, which ignores the string it is given | one expense in category "__proto__" never appears in the dictionary, the chart or the legend | every expense category appears in the breakdown | high (not executed) | `Breakdown.ProtoCategoryDropped` | `Breakdown.GroupByCategory` |

`Breakdown.GroupAsWritten` models the page's reduce over `{}`.
`Breakdown.AsWrittenAgreesOtherwise` shows it is correct whenever no category
names an inherited member. `Breakdown.GroupByCategory` uses a dictionary with
no inherited members, and `Breakdown.ExpenseBreakdown` is built on it.
