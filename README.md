# BaseModel: statement building and input filtering

`BaseModel` is a generic PHP data-access class. A concrete model fixes a
table name and a primary-key name. The class then derives CRUD statements at
run time from the table's column list, which it reads with `DESCRIBE`. This
project models the deterministic part of that class in Dafny:

- `filterColumns`: which caller-supplied entries survive;
- `insert`: the `INSERT` text and its named parameters, and the
  empty-input guard;
- `update`: the sparse `UPDATE` text, its positional parameters, and the
  empty-input guard;
- `get` and `getBy`: the guards applied before any query, and the
  `SELECT` they issue;
- `getByQuery` and `delete`: the fixed query texts.

The database is a set of inputs:

- the column list `getTableColumns` returns is the parameter `columns`;
- the rows a `SELECT` matches are the parameter `matching`;
- a prepared statement is returned as a value: its text and its parameters.

Modules:

- `Php` (`php.dfy`) holds the parts of the PHP runtime the class relies on:
  - ordered arrays with string keys (`PhpArray`), with `array_key_exists`,
    assignment, `unset` and `array_values`;
  - `rtrim` and `strtolower` on ASCII, and `Join`, the closed form of what
    an append loop followed by `rtrim` leaves;
  - `ctype_digit` over the kinds of value that reach it: strings, integers,
    arrays and null.
- `BaseModel` (`base_model.dfy`) holds the class's operations:
  - Where the source loops and appends (`filterColumns`, the two column loops
    of `insert`, the `SET` loop of `update`), the model is a method with a
    loop. Each method is proved equal to a specification function, and the
    properties of that function are proved as lemmas.
  - The lookups are guarded dispatch, so they are functions.
  - `get`, `getBy` and `delete` come in two variants. The `AsWritten`
    members follow the code; the others carry the corrections under
    "Findings". `DeleteWithIntId` is the code's `delete` over the corrected
    `get`, so that the second defect can be shown on its own.
- `Scenarios` (`scenarios.dfy`) holds worked cases on a `users(id, name,
  email)` table.

The class keeps no mutable state: its fields are set once and never
assigned, so the model has no class. Every loop accumulates local variables,
and the model does the same.

## Model

| member | source | states |
|---|---|---|
| BaseModel.Filtered | src/BaseModel.php:385-396 | The filtered array has a key exactly when the input has it and it is a table column; each kept value is the input's value. |
| BaseModel.FilterColumns | src/BaseModel.php:385-396 | The `foreach` loop that assigns each known key produces `Filtered(input, columns)`: the same keys in the same order, with the same values. |
| BaseModel.FilteredIdempotent | src/BaseModel.php:385-396 | Filtering an already filtered array changes nothing. |
| BaseModel.FilteredKeepsOrder | src/BaseModel.php:385-396 | Of two supplied keys that are both columns, the one given first comes first in the filtered array. |
| BaseModel.FilteredNoLonger | src/BaseModel.php:385-396 | The filtered array is never longer than the input. |
| BaseModel.Writable | src/BaseModel.php:156-159 | After filtering and unsetting the primary key, a key is kept exactly when it was supplied, is a table column and is not the primary key. Values are unchanged, and input order is kept. |
| BaseModel.WritableEmpty | src/BaseModel.php:161 | `empty($filtered)` holds exactly when every supplied key is unknown or is the primary key. |
| BaseModel.InsertPlan | src/BaseModel.php:156-163 | `insert` raises "No valid columns found for insert" exactly when no supplied key is a non-key table column. No other input raises. |
| BaseModel.Insert | src/BaseModel.php:143-197 | The method runs filtering, the key `unset`, the guard and the two loops. It returns the exception or the statement that `InsertPlan` specifies. |
| BaseModel.InsertSql | src/BaseModel.php:165-197 | No contract; the text of a prepared insert, specified by `InsertSqlForm` and `InsertSqlIgnoresInput`. |
| BaseModel.InsertParams | src/BaseModel.php:181-195 | No contract; the parameter array of a prepared insert, specified by `InsertParamsExact`, `InsertParamsOrder` and `InsertBindsEveryColumn`. |
| BaseModel.InsertStatement | src/BaseModel.php:165-197 | The two column loops build the `INSERT` text `InsertSql` and the parameter array `InsertParams` over the non-key columns. |
| BaseModel.InsertColumnList | src/BaseModel.php:166-179 | The first loop, its `rtrim` and the `) VALUES (` give ``INSERT INTO `T` (`c1`,...,`cn`) VALUES (`` over the non-key columns, in schema order. |
| BaseModel.InsertPlaceholders | src/BaseModel.php:181-197 | The second loop appends `:c,` per non-key column. It binds `:c` to the filtered value or `''`, then trims and closes the list. The result is exactly the `rtrim`med placeholder list and `InsertParams`. |
| BaseModel.ColumnListTrimmed | src/BaseModel.php:179 | `rtrim($query, ',')` after the first loop removes only the final separator. With no columns it removes nothing, because the text ends in `(`. |
| BaseModel.PlaceholderListTrimmed | src/BaseModel.php:197 | `rtrim` after the second loop affects only the placeholder list, never the text before it. |
| BaseModel.PlaceholdersUntrimmed | src/BaseModel.php:197 | `rtrim` leaves the joined placeholder list unchanged unless the last column name ends in a comma. |
| BaseModel.InsertColumns | src/BaseModel.php:169-172 | No contract; the `switch` that skips `case PK: break` in both column loops (also lines 183-185), specified by `UserInsertColumns`, `InsertBindsEveryColumn` and `InsertSqlForm`. |
| BaseModel.Bound | src/BaseModel.php:188-192 | No contract; the value bound to `:c`: the filtered input's when `array_key_exists`, else `''`. Specified by `InsertParamsExact` and `InsertBindsEveryColumn`. |
| BaseModel.InsertColumnsNonEmpty | src/BaseModel.php:161-168 | When the guard lets an insert through, the column list it builds is not empty. |
| BaseModel.InsertParamsExact | src/BaseModel.php:181-195 | For any list of columns, the parameter array has exactly one key `:c` per listed column. Its value is the filtered input's value for `c`, or `''`. |
| BaseModel.InsertParamsOrder | src/BaseModel.php:181-195 | When no column is repeated, the parameter keys come in the order of the listed columns. |
| BaseModel.InsertBindsEveryColumn | src/BaseModel.php:181-195 | A prepared insert binds exactly the placeholders of the non-key table columns, and nothing named after the key or an unknown column. Each holds the caller's value, or `''` when none was given. |
| BaseModel.InsertParamsFollowSchema | src/BaseModel.php:181-195 | With a schema without repeated columns, the parameter names follow schema order. |
| BaseModel.InsertSqlForm | src/BaseModel.php:166-197 | A prepared insert's text is ``INSERT INTO `T` (`c1`,...,`cn`) VALUES (:c1,...,:cn)``. Both lists run over the same non-key columns in schema order. |
| BaseModel.InsertSqlIgnoresInput | src/BaseModel.php:165-197 | Two inserts into the same table prepare the same text, whatever fields their callers supplied. |
| BaseModel.UpdatePlan | src/BaseModel.php:313-323 | `update` raises "No valid columns set for update" exactly when no supplied key is a non-key table column. No other input raises. |
| BaseModel.Update | src/BaseModel.php:308-332 | The method runs filtering, the key `unset`, the guard and the `SET` loop. It returns the exception or the statement and the positional parameters that `UpdatePlan` specifies. |
| BaseModel.UpdateSql | src/BaseModel.php:325-330 | No contract; the text of a prepared update, specified by `UpdateSetsSuppliedColumns`. |
| BaseModel.SetListTrimmed | src/BaseModel.php:330 | `rtrim($query, ', ')` after the `SET` loop removes only the final `, `. |
| BaseModel.UpdateSetsSuppliedColumns | src/BaseModel.php:325-330 | A prepared update's text is ``UPDATE T SET `k1` = ?, ..., `km` = ? WHERE pk = ?``. The `ki` are exactly the supplied non-key table columns. |
| BaseModel.UpdateBindsValuesThenId | src/BaseModel.php:332 | The positional parameters are the values of `k1..km`, in that order, followed by the id. There are m+1 of them. |
| BaseModel.UpdateKeepsCallerOrder | src/BaseModel.php:326-328 | Of two supplied writable columns, the one the caller gave first is set first. |
| BaseModel.Fetch | src/BaseModel.php:53-75 | No contract; what `getResults` (all rows) or `getRow` (the first row, or none) returns, specified by `FetchTruthy`. |
| BaseModel.GetByQuery | src/BaseModel.php:259-271 | No contract; ``SELECT * FROM `T` WHERE`` followed by the caller's clause, with the caller's parameters. The text its callers issue is stated by `GetByAsWrittenOutcome`, `GetByOutcome`, `GetAsWrittenOtherKey` and `GetSelectsByPrimaryKey`. |
| BaseModel.Truthy | src/BaseModel.php:115 | No contract; PHP truthiness of a fetch result, as tested by `if($get)` and by `!$this->get($id)` at line 240. Specified by `FetchTruthy`, `GetAsWritten`, `Get` and `DeleteNeverReturnsFalse`. |
| BaseModel.FetchTruthy | src/BaseModel.php:263-267 | What `getResults` or `getRow` returns is truthy exactly when some row matched. `getRow` returns the first matching row. |
| BaseModel.Index | src/BaseModel.php:290 | No contract; the read `$parameter[...]`, null for a missing key. Specified by `GetAsWrittenRejectsEveryValue`. |
| BaseModel.Single | src/BaseModel.php:114 | No contract; `array($pk)`, a list whose only key is 0. Specified by `GetAsWrittenRejectsEveryValue` and `GetSelectsByPrimaryKey`. |
| BaseModel.GetByAsWritten | src/BaseModel.php:283-297 | No contract; `getBy` as written, specified by `GetByAsWrittenOutcome` and `GetByAsWrittenOnlyKnownColumns`. |
| BaseModel.GetAsWritten | src/BaseModel.php:109-121 | For a key that lowercases to `id`, a value that `ctype_digit` refuses raises "<pk> must be a numerical value" before any query. Every other result carries a truthy fetch, or is an error. |
| BaseModel.GetByAsWrittenOutcome | src/BaseModel.php:283-294 | `getBy` raises "Unknown column <c>" for a column outside the table. For an `id` key whose `$parameter[PK]` is not all digits, it ends in `get`'s numeric error. Otherwise it selects ``SELECT * FROM `T` WHERE c = ?``. |
| BaseModel.GetByAsWrittenOnlyKnownColumns | src/BaseModel.php:286-288 | Every `SELECT` that `getBy` issues names a table column. |
| BaseModel.GetAsWrittenRejectsEveryValue | src/BaseModel.php:290-291 | As written, `get` raises the numeric error for every value when the key is named `id`, digits included (the finding at src/BaseModel.php:290). |
| BaseModel.GetAsWrittenOtherKey | src/BaseModel.php:109-121 | For a key not named `id`, `get` as written selects by the key. It returns the first row, or raises "Record not found". |
| BaseModel.Get | src/BaseModel.php:109-121 | With the corrected `getBy`, `get` raises the numeric error for a refused value before any query. Every other result carries a truthy fetch, or is an error. |
| BaseModel.GetSelectsByPrimaryKey | src/BaseModel.php:114-119 | Corrected, `get` on an accepted value issues ``SELECT * FROM `T` WHERE pk = ?`` bound to `array($pk)`. It returns the first row, or raises "Record not found" (the finding at src/BaseModel.php:290). |
| BaseModel.GetBy | src/BaseModel.php:283-297 | No contract; `getBy` corrected in two places: the guard reads `$parameter[0]`, and a refused value is passed to `get` as `$parameter[0]` instead of the whole array. Both lead to the same numeric error. Specified by `GetByOutcome`. |
| BaseModel.GetByOutcome | src/BaseModel.php:283-294 | The corrected `getBy` keeps both guards, unknown column and non-digit value for an `id` key, and otherwise selects by the column. |
| BaseModel.DeleteSql | src/BaseModel.php:243 | No contract; the `DELETE FROM T WHERE pk = :pk` text, specified by `DeleteRemovesExistingRow`. |
| BaseModel.DeleteAfter | src/BaseModel.php:240-246 | No contract; the tail of `delete` after `get` answers, shared by all three variants. Specified by `DeleteNeverReturnsFalse` and `DeleteRemovesExistingRow`. |
| BaseModel.DeleteAsWritten | src/BaseModel.php:237-246 | No contract; `delete` as written over `get` as written, specified by `DeleteAsWrittenRejectsEveryId` and `DeleteNeverReturnsFalse`. |
| BaseModel.DeleteAsWrittenRejectsEveryId | src/BaseModel.php:239-240 | As written, for a key named `id`, `delete` raises the numeric error for every id (the finding at src/BaseModel.php:290, reached through `get`). |
| BaseModel.DeleteWithIntId | src/BaseModel.php:237-246 | No contract; `delete` as written, passing the integer to the corrected `get`, specified by `DeleteWithIntIdRejectsSmallIds`. |
| BaseModel.DeleteWithIntIdRejectsSmallIds | src/BaseModel.php:239-240 | With `getBy` corrected but `delete` as written, for a key named `id`, any id from 0 to 255 outside 48..57 raises the numeric error (the finding at src/BaseModel.php:239-240). |
| BaseModel.Delete | src/BaseModel.php:237-246 | No contract; `delete` with both corrections, specified by `DeleteRemovesExistingRow`, `DeleteRejectsNegativeIds` and `DeleteNeverReturnsFalse`. |
| BaseModel.DeleteNeverReturnsFalse | src/BaseModel.php:240-242 | `return false` is unreachable in all three variants: `get` either yields a row or raises. |
| BaseModel.DeleteRemovesExistingRow | src/BaseModel.php:237-246 | Corrected, deleting an id that matches a row issues `DELETE FROM T WHERE pk = :pk` bound to that id, for any id when the key is not named `id` and for a non-negative one when it is. A missing row raises "Record not found" instead (the finding at src/BaseModel.php:239-240). |
| BaseModel.DeleteRejectsNegativeIds | src/BaseModel.php:111-113 | Corrected, for a key named `id`, a negative id is not all digits and raises the numeric error before any query. |
| Php.Lower | src/BaseModel.php:111 | `strtolower` on ASCII, also used at line 290: the result has the input's length, and each character is lowered on its own. `LowerIsId` states which keys it maps to `id`. |
| Php.HasKey | src/BaseModel.php:157 | No contract; `array_key_exists`, as used at lines 157, 188 and 314. Specified by `Filtered`, `Writable` and `InsertParamsExact`. |
| Php.Put | src/BaseModel.php:390 | No contract; `$a[$k] = $v`, as used at lines 390, 189 and 191: replaces the value of a present key in place, or appends a new key. Specified by `FilterColumns` and `InsertParamsExact`. |
| Php.Unset | src/BaseModel.php:158 | `unset($a[$k])`, as used at lines 158 and 315: every other key is kept with its value, and `k` is gone. `Writable` states its effect in both operations. |
| Php.Values | src/BaseModel.php:332 | No contract; `array_values`, the values in key order. Specified by `UpdateBindsValuesThenId`. |
| Php.RTrim | src/BaseModel.php:179 | No contract; `rtrim` with a character set, as used at lines 179, 197 and 330. Specified by `RTrimDropsTrimmable`, `RTrimConcat`, `RTrimKeepsFirst`, `ColumnListTrimmed`, `PlaceholderListTrimmed` and `SetListTrimmed`. |
| Php.CtypeDigit | src/BaseModel.php:111 | No contract; `ctype_digit` on the values that reach it: a string is accepted when non-empty and all digits, an integer from -128 to 255 as the character with that code, other integers as their decimal text, and arrays and null are refused. |
| Php.LowerIsId | src/BaseModel.php:111 | `strtolower($pk) === 'id'` holds for exactly the four spellings `id`, `iD`, `Id`, `ID`. |
| Scenarios.UserInsertColumns | src/BaseModel.php:168-177 | An insert into `users(id, name, email)` lists `name` and `email`, never `id`. |
| Scenarios.InsertNothing | src/BaseModel.php:161-163 | An insert of only `id` and an unknown column raises "No valid columns found for insert". |
| Scenarios.UpdateName | src/BaseModel.php:313-332 | `update("42", ...)` on `users` with `name` and an unknown column sets only `name`. It binds the caller's value for `name`, then the id. |
| Scenarios.GetNonNumeric | src/BaseModel.php:111-113 | `get("42x")` raises "id must be a numerical value" in both variants. |
| Scenarios.GetDigitsAsWritten | src/BaseModel.php:290-291 | As written, `get("42")` raises the numeric error as well. |
| Scenarios.GetDigitsMissing | src/BaseModel.php:114-119 | Corrected, `get("42")` with no matching row raises "Record not found". |
| Scenarios.GetByMissingColumn | src/BaseModel.php:286-288 | `getBy("missing_col", ...)` raises "Unknown column missing_col". |
| Scenarios.DeleteSevenAsWritten | src/BaseModel.php:239-240 | `delete(7)` raises the numeric error as written, and still does with only `getBy` corrected. |

## Left out

- PDO I/O is not modelled: `prepare`, `execute`, `fetch`, `fetchAll`, `bindParam` and the `DESCRIBE` query. Statements are returned as text and parameters. The column list and the matching rows are inputs.
- The transaction around insert is not modelled (`beginTransaction`, `commit`, the catch and rethrow). `lastInsertId` is also omitted, so the model stops at the prepared statement and does not return the generated id.
- The recursive insert of nested array values is not modelled: it issues separate writes whose results are discarded. Those writes run before the outer insert, and an exception from one of them aborts the outer `insert` before its own guard. For example, `insert(['name' => 'x', 'n' => ['bogus' => 1]])` raises "No valid columns found for insert" from the nested call. Write values are strings, so the error cases stated for `InsertPlan` cover string-valued input only.
- `timeStamp` and `getTimeStamp` are not modelled, because they read the wall clock.
- `getResults`, `getRow`, `getAll` and `query` are thin driver wrappers and are not modelled as operations. `Fetch` stands for what the first two return.
- `create` is an alias of `insert` and is not modelled separately.
- The execute success flags that `update` and `delete` return come from the driver and are not modelled. The model ends at the statement it would execute.
- Loose comparison is not modelled: `switch` and `in_array` compare as strict string equality, and every key is a string. Under PHP 7's `==`, an integer key such as the positional key 0 equals every non-numeric string, so `in_array(0, $columns)` is true and a positional caller array passes `filterColumns` against any schema with a non-numeric column name; numeric-looking column names are likewise equated. Neither case is modelled (PHP 8, where `0 == 'id'` is false, leaves only the numeric-string case).
- `intval` is not modelled: `delete` takes the integer it produces.
- `strtolower` is modelled on ASCII letters only.
- The schema is treated as one snapshot. `getTableColumns` is re-run for every entry `filterColumns` looks at, and the model assumes one column list per call.
- `delete` never returns `false`: for a missing row `get` throws "Record not found" first (`BaseModel.DeleteNeverReturnsFalse`).
- The `UPDATE` text puts backticks around each `SET` column but not around the table name, and the model keeps that.
- BaseModel.UpdatePlan: takes the id as a string. The source's `$id` may be any value; it is only appended to the positional parameters, so its kind does not affect the statement text.
- BaseModel.InsertSqlForm: proved only when the last non-key column name does not end in a comma. `rtrim($query, ',')` would also strip that name's trailing commas; column names of that shape are not considered here.

## Findings

| source | as written | input that shows it | evidently intended | confidence | as-written member | corrected member |
|---|---|---|---|---|---|---|
| src/BaseModel.php:290 | `getBy` checks `$parameter[$this->getPrimaryKey()]`, but `get` passes `array($pk)`, whose only key is 0. The lookup yields null, `ctype_digit(null)` is false, and the re-dispatched `get($parameter)` rejects the array. | Table key `id`, `get("42")`: raises "id must be a numerical value" | Check `$parameter[0]`, the value the `= ?` placeholder binds, so that `get("42")` selects the row | not executed | BaseModel.GetAsWrittenRejectsEveryValue | BaseModel.GetSelectsByPrimaryKey |
| src/BaseModel.php:239-240 | `delete` passes the integer `intval($id)` to `get`. `ctype_digit` reads an integer from -128 to 255 as a character code, so ids 0-47 and 58-255 fail the numeric guard. | Table key `id`, `delete(7)`: raises "id must be a numerical value" | Pass the id as decimal text, so that any non-negative id reaches the lookup | not executed | BaseModel.DeleteWithIntIdRejectsSmallIds | BaseModel.DeleteRemovesExistingRow |
