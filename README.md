# POS receipt tool: registration, receipt lookup and seed scripts in Dafny

The POS receipt tool stores point-of-sale transactions and reads their receipts back.
`POST /api/transactions` validates a JSON body (receipt number, JST registration time,
cashier, line items). It derives a transaction id from the business date and the sanitized
receipt number. It totals the items per consumption-tax rate (8 % and 10 %), rounding the tax
up once per rate, and rejects an id that is already stored. Otherwise it writes the header row
and one row per item in a single all-or-nothing batch. `GET /api/receipt` takes a date and a
receipt number, derives the same id and returns the stored header with its items in insertion
order. Two scripts turn CSV exports (the product master and the cashier list) into SQL seed
scripts.

The project models these parts:

- `wrappers.dfy` (`Wrappers`): `Option` and `Result`.
- `text.dfy` (`Text`): JavaScript `trim`, the regex classes `\s` and `\d`, and `String(n)` for integers.
- `shared.dfy` (`Shared`): the helpers of `functions/_shared.ts`. These are the field checks, `sanitizeReceiptNo`, the registered_at pattern, `yyyymmddFromRegisteredAtJst`, the input side of `utcIsoFromRegisteredAtJst` and `calcTaxCeil`.
- `store.dfy` (`Store`): the D1 database, reduced to a header map keyed by id and an item-row sequence in autoincrement order. It includes a `Database` class whose `Batch` applies all statements or none.
- `transactions.dfy` (`Transactions`): body and item validation, the tax buckets and totals, and the transaction id. It also holds the registration as a method over `Database`, proved equal to a pure transition `RegisterStep`.
- `receipt.dfy` (`Receipt`): the receipt lookup as a function over the store state.
- `seed_sql.dfy` (`SeedSql`): the parsed CSV record, `sqlEscape`, and the filter shape both seed loops share.
- `seed_products.js` and `seed_cashiers.js` are modelled in `seed_products.dfy` (`SeedProducts`) and `seed_cashiers.dfy` (`SeedCashiers`): the record filter and the loop that writes the script.

JavaScript strings (UTF-16 in the source) are modelled as sequences of Unicode scalar values, and JavaScript numbers (doubles in the source) are modelled as mathematical integers.

## Model

| member | source | states |
|---|---|---|
| Text.Trim | functions/_shared.ts:109-110 | `trim` leaves no whitespace at either end, and the result is empty exactly when the whole string is whitespace |
| Text.TrimIsInfix | functions/_shared.ts:109-110 | what `trim` keeps is a contiguous infix of the input, and everything it drops on either side is whitespace |
| Text.TrimOfTrimmed | functions/_shared.ts:127 | a string with no whitespace at its ends is its own trim |
| Text.TrimIdempotent | functions/_shared.ts:127 | trimming twice is trimming once |
| Text.NatToDecimal | functions/api/transactions.ts:59 | the index in `items[${idx}]` is rendered as ASCII digits with no leading zero |
| Text.NatToDecimalValue | functions/api/transactions.ts:59 | reading the rendered index back in base ten gives the index, so the rendering is faithful |
| Text.IntToDecimal | scripts/seed_products.js:80-84 | `String(n)` is the shortest base-ten rendering of `n` (NatToDecimal, whose value NatToDecimalValue proves), preceded by `-` exactly when `n` is negative |
| Shared.AsNonEmptyString | functions/_shared.ts:108-111 | succeeds exactly on a string that is not all whitespace and returns its trim; any other value gives "`field` is required" |
| Shared.AsInt | functions/_shared.ts:113-118 | accepts exactly the integral numbers and returns them unchanged; everything else gives "`field` must be an integer" |
| Shared.AsTaxRate | functions/_shared.ts:120-124 | accepts exactly 8 and 10; a non-integer gives the integer error; any other integer (7, say) gives "must be 8 or 10" |
| Shared.ReplaceDisallowed | functions/_shared.ts:127 | every output character is in `[A-Za-z0-9_-]`, and the output has the input's UTF-16 length |
| Shared.SanitizeReceiptNo | functions/_shared.ts:126-128 | the sanitized receipt number has the UTF-16 length of the trimmed input and only `[A-Za-z0-9_-]` characters |
| Shared.ReplaceDisallowedInPlace | functions/_shared.ts:127 | on BMP text, allowed characters stay in place and every other character becomes `_` |
| Shared.SanitizeInPlace | functions/_shared.ts:126-128 | on BMP text, the sanitized string has the trimmed length; each position holds the trimmed character when allowed, `_` otherwise |
| Shared.ReplaceAllowedIsIdentity | functions/_shared.ts:127 | text made of allowed characters is left unchanged |
| Shared.SanitizeIdempotent | functions/_shared.ts:126-128 | sanitizing twice is sanitizing once |
| Shared.DisallowedCollidesWithUnderscore | functions/_shared.ts:126-128 | two receipt numbers of the same length, both BMP text with no whitespace at either end, that differ only where one has a disallowed character and the other `_`, sanitize alike, so they share an id |
| Shared.ReplaceCollides | functions/_shared.ts:127 | the replacement cannot tell a disallowed character from `_` at the same position |
| Shared.SanitizeMergesPunctuation | functions/_shared.ts:126-128 | "A/1" and "A_1" both sanitize to "A_1" |
| Shared.WsThenTimeShape | functions/_shared.ts:90 | `\s*` then a time ending the string matches exactly when the last eight characters are a time and everything before is whitespace |
| Shared.PatternIsShape | functions/_shared.ts:90 | MatchesRegisteredAtPattern, the regex `^\d{4}-\d{2}-\d{2}\s+\d{2}:\d{2}:\d{2}$` accepts exactly the strings with a date in the first ten characters, a time in the last eight, and one or more whitespace characters between |
| Shared.DateLiteralDigits | functions/_shared.ts:93-96 | the three digit groups of a date literal are digits, and so is their concatenation |
| Shared.YyyymmddFromRegisteredAtJst | functions/_shared.ts:89-97 | succeeds exactly on the pattern and then returns the 8 digits at positions 0-3, 5-6 and 8-9; any other string gives the format error |
| Shared.YyyymmddDependsOnDatePart | functions/_shared.ts:93-96 | the business date depends on the first ten characters only |
| Shared.NumberOfPair | functions/_shared.ts:141-143 | `Number` of a two-character slice of digits, whitespace and colons: the base-ten value for two digits, and NaN exactly when a colon is present |
| Shared.ReadUtcArgs | functions/_shared.ts:138-148 | with digit slices, the `Date.UTC` arguments are year, month - 1, day, hour - 9, minute and second in base ten |
| Shared.UtcArgsAsWritten | functions/_shared.ts:134-149 | the conversion as written accepts only strings of the registered_at pattern, and rejects every other string with the format error |
| Shared.AsWrittenReadsFixedOffsets | functions/_shared.ts:134-143 | after the pattern test, the as-written conversion reads the clock at the fixed offsets 11, 14 and 17 |
| Shared.AsWrittenRejectsColonAtMinute | functions/_shared.ts:141-148 | a pattern-conforming string with a colon in the minute slice at offset 14 gets "must be a valid datetime" |
| Shared.TwoSpacesHasShape | functions/_shared.ts:135 | "2024-05-01  12:34:56" (two spaces) matches the pattern, and offset 14 holds a colon |
| Shared.AsWrittenRejectsTwoSpaces | functions/_shared.ts:135-148 | with two spaces, yyyymmddFromRegisteredAtJst accepts the string but the as-written conversion rejects it |
| Shared.AsWrittenReadsShiftedClock | functions/_shared.ts:141-146 | when the fixed offsets see "  ", "12" and "34", the as-written conversion succeeds with hour 0 - 9, minute 12 and second 34 |
| Shared.FourSpacesHasShape | functions/_shared.ts:135 | "2024-05-01    12:34:56" (four spaces) matches the pattern, and its fixed-offset slices are "  ", "12" and "34" |
| Shared.AsWrittenMisreadsFourSpaces | functions/_shared.ts:135-146 | with four spaces, the as-written conversion reads 12:34:56 as 00:12:34 (hour 0 - 9, minute 12, second 34) |
| Shared.UtcFromRegisteredAtJst | functions/_shared.ts:134-149 | the intended conversion accepts exactly what yyyymmddFromRegisteredAtJst accepts and reads hour - 9, minute and second from the last eight characters |
| Shared.AsWrittenAgreesOnSingleSpace | functions/_shared.ts:134-149 | with exactly one separating character, the as-written and the intended conversion agree |
| Shared.CalcTaxCeil | functions/_shared.ts:99-106 | the tax is the least integer `t` with `100 * t >= subtotal * rate`, and it is non-negative for a non-negative subtotal |
| Shared.TaxCeilBoundaries | functions/_shared.ts:103-106 | subtotal 0 gives tax 0, subtotal 1 at 8 % gives 1, 200 at 8 % gives 16 and 300 at 10 % gives 30 |
| Store.RowsOf | functions/api/receipt.ts:32-37 | the selected rows all carry the id and are rows of the table |
| Store.RowsOfAppend | functions/api/receipt.ts:32-37 | the selection distributes over appended rows, so it keeps insertion order |
| Store.RowsOfNone | functions/api/receipt.ts:32-37 | a table without rows for the id selects nothing |
| Store.RowsOfAll | functions/api/receipt.ts:32-37 | rows that all carry the id are selected whole, in order |
| Store.Database.FindHeader | functions/api/transactions.ts:101-103 | the duplicate lookup finds a header exactly when the id is stored, and returns that header |
| Store.Database.Batch | functions/api/transactions.ts:147 | the batch applies every statement in order, or, when the store fails, changes nothing and reports the error |
| Transactions.ItemField | functions/api/transactions.ts:59-71 | every item field name starts with `items[<idx>]` |
| Transactions.PrefixOfAppend | functions/api/transactions.ts:59-71 | a message built by appending to an item field name keeps the `items[<idx>]` prefix |
| Transactions.AsOptionalInt | functions/api/transactions.ts:71 | `pos_cost` is null exactly when it was null or absent, is the integer when it was one, and otherwise gives the integer error |
| Transactions.ValidateItem | functions/api/transactions.ts:58-85 | an item is accepted exactly when every check passes; it then has a 1-13 digit code, qty >= 1, price >= 0, rate 8 or 10 and line amount = price x qty, with the input's trimmed values (IsProductCode is the 1-13 digit code test of line 60); every error names `items[<idx>]` |
| Transactions.ValidateEach | functions/api/transactions.ts:58 | the callback runs on every element with its own index |
| Transactions.Collect | functions/api/transactions.ts:58-85 | all values in order when every result succeeded; otherwise the error of the first failure |
| Transactions.ValidateItems | functions/api/transactions.ts:58-85 | the mapped items, in input order, when every item is acceptable; otherwise the message of the first failing item |
| Transactions.ItemValidationOrder | functions/api/transactions.ts:59-71 | the checks of one item run in source order (code required, code 1-13 digits, name required, price integer, qty integer, qty >= 1, price >= 0, tax_rate integer, tax_rate 8 or 10, pos_cost integer) and the first that fails gives its exact message |
| Transactions.QtyCheckedBeforePrice | functions/api/transactions.ts:66-68 | an item with qty 0 and price -1 reports the qty error, not the price error |
| Transactions.Bucket | functions/api/transactions.ts:88-89 | a rate's bucket holds only input items of that rate |
| Transactions.BucketAppend | functions/api/transactions.ts:88-89 | the filter looks at each item alone: the bucket of a concatenation is the buckets of its parts, in order |
| Transactions.BucketOfOne | functions/api/transactions.ts:88-89 | one item is kept exactly when it has the rate; with BucketAppend, every item of the rate is kept once, in input order |
| Transactions.BucketsPartitionLines | functions/api/transactions.ts:88-89 | the 8 % and 10 % subtotals add up to the sum of all line amounts |
| Transactions.BucketWithoutRate | functions/api/transactions.ts:88-89 | a rate no item has gives an empty bucket |
| Transactions.SumOfWellFormedIsNonNegative | functions/api/transactions.ts:73 | accepted items never sum to a negative amount |
| Transactions.ComputeTotals | functions/api/transactions.ts:88-96 | per rate: subtotal = bucket sum (SumLineAmounts, the reduce of lines 88-89), tax rounded up once on the subtotal, incl = excl + tax; the excl subtotals sum to all lines; total = incl 8 + incl 10; an empty bucket has 0 subtotal and 0 tax |
| Transactions.TotalsNonNegative | functions/api/transactions.ts:88-96 | accepted items give non-negative subtotals, taxes and total |
| Transactions.ExampleTotals | functions/api/transactions.ts:88-96 | 100 x 2 at 8 % and 300 x 1 at 10 % give 200 / 16 / 216 and 300 / 30 / 330, total 546 |
| Transactions.TransactionIdInjective | functions/api/transactions.ts:53-55 | WriteTransactionId builds `${yyyymmdd}_${sanitizeReceiptNo(receiptNo)}`; with an 8-character date, two ids are equal exactly when the dates and the sanitized receipt numbers are |
| Transactions.Prepare | functions/api/transactions.ts:44-96 | a body is accepted exactly when every check passes; it then keeps the trimmed receipt_no, registered_at_jst and cashier_name, an id built from the date and receipt number, the validated items and their totals |
| Transactions.ValidationOrder | functions/api/transactions.ts:44-53 | checks run in the order receipt_no, registered_at_jst, cashier_name, items, then the timestamp format; the first failure is reported |
| Transactions.FirstFailingItemReported | functions/api/transactions.ts:58-85 | once the header fields pass, the message is that of the first failing item, and it starts with `items[<idx>]` |
| Transactions.FirstFailingItem | functions/api/transactions.ts:58-85 | the mapping stops at the first failing item and reports its message |
| Transactions.RowsFor | functions/api/transactions.ts:129-145 | one row per item, in input order, each bound from its item with the id and the creation time |
| Transactions.ApplyItemStmts | functions/api/transactions.ts:129-147 | applying the item inserts appends exactly those rows, in order |
| Transactions.BatchEffect | functions/api/transactions.ts:109-147 | Statements, the list of the header insert followed by one insert per item: running the header insert and then the item inserts adds the header under its id and appends the rows |
| Transactions.Persist | functions/api/transactions.ts:98-161 | the duplicate lookup, the statement loop and the batch give the response and store of the transition for the checked body |
| Transactions.Register | functions/api/transactions.ts:44-164 | the handler's response and resulting store are those of `RegisterStep` |
| Transactions.RejectedBodyLeavesStore | functions/api/transactions.ts:162-164 | a failed check answers 400 with its message and leaves the store unchanged |
| Transactions.DuplicateRejected | functions/api/transactions.ts:101-107 | a stored id answers 409 `ALREADY_REGISTERED` with that id and leaves the store unchanged |
| Transactions.StoreFailureLeavesStore | functions/api/transactions.ts:147-164 | a failing batch answers 400 with the store's message and leaves the store unchanged |
| Transactions.OnlySuccessChangesStore | functions/api/transactions.ts:101-164 | for Decide, the handler after the body checks: the answer is 200 exactly for an accepted new id with a working store; every other answer leaves the store as it was |
| Transactions.CommitEffect | functions/api/transactions.ts:109-147 | Commit, the store after the batch, with HeaderOf binding the header (lines 113-126) and RowOf binding each item row (lines 130-143): a commit adds one header and one row per item, in order, with the new id and one creation time; old rows stay in place and other ids' rows are unchanged |
| Transactions.SuccessfulRegistration | functions/api/transactions.ts:109-161 | a 200 means the body was accepted, the id was new and the store did not fail; the store is the commit, holds the trimmed unsanitized receipt_no, and answers the totals it stored |
| Transactions.CommitPreservesConsistency | functions/api/transactions.ts:109-147 | a commit keeps every header under its own id and every row attached to a stored header |
| Transactions.RegistrationPreservesConsistency | functions/api/transactions.ts:44-164 | every registration outcome keeps the store consistent |
| Transactions.DecideOnlyGrows | functions/api/transactions.ts:101-147 | stored headers are never altered and old rows stay where they were |
| Transactions.LedgerOnlyGrows | functions/api/transactions.ts:44-164 | a registration never alters a stored header or an old row |
| Transactions.SanitizeOfTrimmed | functions/api/transactions.ts:54 | sanitizing the trimmed receipt number is sanitizing the raw one |
| Transactions.SameDateAndReceiptSameId | functions/api/transactions.ts:53-55 | two accepted bodies with the same date part and the same sanitized receipt number get the same id |
| Transactions.SecondSubmissionRejected | functions/api/transactions.ts:101-107 | after a successful registration, the same date and receipt number again answer 409 and the first header is kept |
| Receipt.RemoveDashes | functions/api/receipt.ts:16 | `replaceAll("-", "")` leaves no dash and never lengthens the string |
| Receipt.RemoveDashesAppend | functions/api/receipt.ts:16 | dash removal distributes over concatenation |
| Receipt.RemoveDashesOfDigits | functions/api/receipt.ts:16 | digits are left unchanged |
| Receipt.DateWithoutDashes | functions/api/receipt.ts:14-16 | on a `YYYY-MM-DD` date, removing the dashes gives the three digit groups concatenated |
| Receipt.SameIdOnBothPaths | functions/api/receipt.ts:16-18 | ReadTransactionId, the read path's id built from the first ten characters of registered_at_jst, equals the write path's id |
| Receipt.ItemsOf | functions/api/receipt.ts:32-37 | each item is the product_name, qty, price_excl, line_amount_excl and tax_rate of its row, in row order |
| Receipt.TaxSummary | functions/api/receipt.ts:46-59 | exactly two entries, rate 8 then rate 10, each copied from the header's stored columns |
| Receipt.Read | functions/api/receipt.ts:10-62 | blank date or receipt_no gives the 400 "required" error; then a non-`YYYY-MM-DD` date gives the format error; an unknown id gives 404; otherwise the stored header, its rows in insertion order and the copied summary |
| Receipt.ReadStatus | functions/api/receipt.ts:10-30 | the lookup answers 400 exactly for a blank parameter or a malformed date, 404 exactly for an id without a header, and 200 exactly for a stored transaction |
| Receipt.ReadAfterCommit | functions/api/receipt.ts:20-62 | after a commit, reading the new id finds the committed header and exactly the committed items, in input order |
| Receipt.NewIdHasOnlyCommittedRows | functions/api/receipt.ts:32-37 | in a consistent store a new id has no rows, so after the commit its rows are exactly the committed ones |
| Receipt.ReadAfterWrite | functions/api/receipt.ts:10-37 | a transaction registered with registered_at_jst `s` and receipt number `r` is found by date `s[0..10]` and receipt `r`, with its stored header and items |
| Receipt.IdArgumentsReadBack | functions/api/receipt.ts:10-14 | the date part and receipt number of an accepted registration pass the reader's parameter checks |
| Receipt.TaxSummaryAddsUp | functions/api/receipt.ts:46-60 | for a registered transaction the summary's two incl subtotals add up to total_incl, and each entry's excl + tax is its incl |
| SeedSql.Field | scripts/seed_products.js:65 | `String(r[column] ?? "")`: a missing column reads as "" |
| SeedSql.Escape | scripts/seed_products.js:5-7 | the escaped text is as long as the input plus its number of quotes |
| SeedSql.UnescapeEscape | scripts/seed_products.js:5-7 | an SQL reader recovers exactly the text that was escaped |
| SeedSql.EscapePairsQuotes | scripts/seed_products.js:5-7 | every quote of the escaped text is doubled, so it cannot end the literal |
| SeedSql.EscapeAppend | scripts/seed_products.js:5-7 | escaping works character by character: it distributes over concatenation |
| SeedSql.EscapeWithoutQuotes | scripts/seed_products.js:5-7 | text without quotes is left exactly as it is |
| SeedSql.Keep | scripts/seed_products.js:64-87 | a filtering loop emits at most one value per record |
| SeedSql.KeepAppend | scripts/seed_products.js:64-87 | the filter looks at each record alone: it distributes over concatenation |
| SeedSql.KeepSnoc | scripts/seed_products.js:64-87 | one more record adds its value, if any, after the others |
| SeedSql.KeepOne | scripts/seed_products.js:64-87 | a single record gives its value or nothing |
| SeedSql.KeepFrom | scripts/seed_products.js:64-87 | every emitted value comes from some record, and when every record yields a value there is one per record |
| SeedSql.KeepAll | scripts/seed_products.js:64-87 | a property of every present value holds of every emitted value |
| SeedSql.KeepCount | scripts/seed_products.js:64-87 | one value per record that yields one |
| SeedSql.Framing | scripts/seed_products.js:61-89 | a script is its body between `BEGIN;` and `COMMIT;` |
| SeedProducts.RemoveCommas | scripts/seed_products.js:16 | no comma is left, the result is never longer, and text without commas is unchanged |
| SeedProducts.ToIntOrNull | scripts/seed_products.js:13-19 | a blank cell is null |
| SeedProducts.ToIntOrNullIgnoresCommas | scripts/seed_products.js:16 | cells that differ only in thousands separators read as the same number |
| SeedProducts.ToTaxRate | scripts/seed_products.js:21-32 | blank gives null; "8", "8%", "0.08", "0.080" and "8.0" give 8; "10", "10%", "0.1", "0.10", "0.100" and "10.0" give 10 |
| SeedProducts.SpellingsDecideRate | scripts/seed_products.js:24-25 | a listed spelling decides the rate whatever the numeric fallback does, and no spelling is listed for both rates |
| SeedProducts.RowOfAccepted | scripts/seed_products.js:64-80 | RowOf, the loop's filter, with Accepted the conjunction of the checks of lines 65-78: a record yields a row exactly when its trimmed code is 1-13 digits, its trimmed name is non-empty, its price is a number and its rate is 8 or 10; the row holds the trimmed code, category and name and the converted cost, price and rate |
| SeedProducts.CostSql | scripts/seed_products.js:80 | the cost is written as `NULL` exactly when `toIntOrNull` returned null |
| SeedProducts.InsertLineCarriesCode | scripts/seed_products.js:82-85 | InsertLine starts with the fixed column list and an opening quote, then the escaped product code; an SQL reader gets the code back, and the literal closes right after it |
| SeedProducts.RowsAppend | scripts/seed_products.js:64-87 | Rows, the rows the loop collects: the rows of concatenated records are the rows of each part, in order |
| SeedProducts.RowsOfOne | scripts/seed_products.js:64-86 | one record gives its row when it passes the filter, and nothing otherwise |
| SeedProducts.RowsFromRecords | scripts/seed_products.js:64-87 | every emitted row is the contribution of some input record |
| SeedProducts.AllAcceptedAllKept | scripts/seed_products.js:64-87 | when every record passes the filter, each gives one row |
| SeedProducts.ScriptFraming | scripts/seed_products.js:60-89 | Script, the emitted lines, with Render the INSERT lines of Rows: `BEGIN;` is the first line and `COMMIT;` the last; each line between is the INSERT of one row, in record order |
| SeedProducts.SkipStep | scripts/seed_products.js:66-78 | a record the filter drops adds no row |
| SeedProducts.KeepStep | scripts/seed_products.js:82-86 | a record the filter keeps adds its row after the earlier ones |
| SeedProducts.LinesSnoc | scripts/seed_products.js:82-85 | pushing one INSERT extends the script body by that row's line |
| SeedProducts.RenderSnoc | scripts/seed_products.js:82-85 | the lines of one more row are the old lines plus its INSERT |
| SeedProducts.CheckRecord | scripts/seed_products.js:65-80 | the loop body's checks, in the source's order, yield exactly the record's row or nothing |
| SeedProducts.SeedProductsSql | scripts/seed_products.js:59-89 | the written lines are `BEGIN;`, one INSERT per accepted record in order, then `COMMIT;`; `count` is the number of INSERT lines |
| SeedCashiers.InsertLineCarriesName | scripts/seed_cashiers.js:45 | InsertLine is the fixed head, then the escaped name, then a quote; an SQL reader gets the name back, and no quote in it ends the literal early |
| SeedCashiers.ContributionsAppend | scripts/seed_cashiers.js:42-46 | each record's contribution depends on that record alone |
| SeedCashiers.NamesAppend | scripts/seed_cashiers.js:42-46 | Names, the names the loop collects: the names of concatenated records are the names of each part, in order |
| SeedCashiers.NamesOfOne | scripts/seed_cashiers.js:43-45 | NameOf (the trimmed name of line 43) and Contribution (the guard of line 44): a record with a missing or blank name contributes nothing; any other record contributes its trimmed name |
| SeedCashiers.ContributionIsClean | scripts/seed_cashiers.js:43-44 | a contributed name is non-blank and trimmed |
| SeedCashiers.NamesAreTrimmed | scripts/seed_cashiers.js:43-45 | every name that gets a line is non-blank, with no whitespace at either end |
| SeedCashiers.NamesCounted | scripts/seed_cashiers.js:42-46 | one line per record with a non-blank name |
| SeedCashiers.ScriptFraming | scripts/seed_cashiers.js:40-47 | Script, the emitted lines, with Render the INSERT lines of Names: `BEGIN;` is the first line and `COMMIT;` the last; each line between is the `INSERT OR IGNORE` of one name, in record order |
| SeedCashiers.SkipStep | scripts/seed_cashiers.js:44 | a record with a blank name adds no line |
| SeedCashiers.KeepStep | scripts/seed_cashiers.js:45 | a record with a name adds it after the earlier ones |
| SeedCashiers.RenderSnoc | scripts/seed_cashiers.js:45 | the lines of one more name are the old lines plus its INSERT |
| SeedCashiers.LinesSnoc | scripts/seed_cashiers.js:45 | pushing one INSERT extends the script body by that name's line |
| SeedCashiers.SeedCashiersSql | scripts/seed_cashiers.js:39-47 | the written lines are `BEGIN;`, one `INSERT OR IGNORE` per non-blank trimmed name in record order, then `COMMIT;` |

## Left out

- HTTP plumbing is not modelled. This covers method dispatch (OPTIONS gives 204, other methods 405), CORS headers, `json` and `Response` construction (functions/_shared.ts:5-26), and parsing the body with `request.json()` ("Invalid JSON", functions/api/transactions.ts:37-42). The body arrives already parsed as `BodyIn`. The query string arrives as two optional strings.
- functions/_middleware.ts, functions/api/health.ts, functions/api/products.ts and functions/api/cashiers.ts are not part of this model. They are plain SELECT wrappers and plumbing.
- D1 is reduced to a header map and a row sequence. SQL text, statement binding and the autoincrement id are not modelled, and a row's position stands for its id. `Store.Database.Batch`: atomicity is D1's promise and is written as a single assignment, not proven.
- Store errors from the batch are the parameter `failure`. They answer 400 with the error's message (functions/api/transactions.ts:162-164); the model does the same.
- A failing duplicate lookup is not modelled. If the SELECT at functions/api/transactions.ts:101-103 rejects, the catch answers 400 with its message. `Store.Database.FindHeader` never fails, and `failure` covers only the batch.
- Concurrency is not modelled. Another request could insert the same id between the duplicate SELECT and the batch. A registration is one sequential step.
- The clock is not modelled. `nowUtcIso` is the parameter `createdAtUtc` (or `now` in the scripts). `asUtcIso`, `jstPartsFromDate`, `formatJstDateTimeFromUtcIso` and `yyyymmddFromUtcIso` depend on the clock and Intl time-zone data and are left out.
- `Shared.UtcFromRegisteredAtJst`: only the input check and the `Date.UTC` arguments are modelled. `Date.UTC` field normalisation, its range check and `toISOString` rendering are left out.
- `Shared.AsInt`: JavaScript numbers are mathematical integers here. A finite non-integral number is `Fraction`; NaN and the infinities are not finite, so the source rejects them with the same message as `Fraction`.
- `Shared.CalcTaxCeil`: this is integer arithmetic. The source's float `Math.ceil(subtotal * rate / 100)` agrees with it only while the products stay below 2^53. Nothing in the source enforces that bound.
- `Transactions.ValidateItem`: `price_excl * qty` is exact here. In the source it loses precision above 2^53.
- `Text.IntToDecimal`: JavaScript renders -0 as "0" and numbers from 1e21 up in exponent form. Neither case is modelled.
- A body that is JSON `null` (or any other non-object) is not modelled. `body.receipt_no` at functions/api/transactions.ts:45 would throw a TypeError, which the catch at lines 162-164 turns into a 400 with that message. In the model `BodyIn` always has its four fields.
- An `items` element that is JSON `null` is not modelled. The source's `it.product_code` would throw a TypeError, which the catch turns into a 400. In the model `ItemIn` always has fields.
- Strings are sequences of Unicode scalar values, so lone surrogates cannot be represented. The regex of `sanitizeReceiptNo` works on UTF-16 code units; this is modelled by turning a supplementary-plane character into two underscores.
- `SeedProducts.ToIntOrNull`: `Number` parsing and `Math.trunc` are the function parameter `number`. The blank check and comma removal are modelled.
- `SeedProducts.ToTaxRate`: the floating-point fallback (`Number(s)` compared with 8 and 10, and with 0.08 and 0.10 within 1e-9) is the function parameter `numeric`. The listed spellings are modelled exactly.
- Script I/O is not modelled: `process.argv`, `usage`, file reads and writes, cp932 and shift_jis decoding, CSV parsing (records arrive as maps from column to cell), and console output. `lines.join("\n")` is not modelled; the scripts' output is the sequence of lines.

## Findings

| source | as written | input that shows it | evidently intended | confidence | as-written member | corrected member |
|---|---|---|---|---|---|---|
| functions/_shared.ts:134-149 | the pattern allows one or more whitespace characters between date and time (`\s+`), but the clock is read at fixed offsets 11, 14 and 17 | "2024-05-01  12:34:56" passes the pattern (yyyymmddFromRegisteredAtJst accepts it), yet `Number(":3")` is NaN, so it is rejected as an invalid datetime; "2024-05-01    12:34:56" is accepted and read as 00:12:34 | read the clock where the pattern put it, in the last eight characters (or require exactly one space) | not executed | Shared.UtcArgsAsWritten, Shared.AsWrittenRejectsTwoSpaces, Shared.AsWrittenMisreadsFourSpaces | Shared.UtcFromRegisteredAtJst |
