# csv2sql conversion core in Dafny

This project models the conversion engine of csv2sql, a tool that turns a
CSV file into MySQL statements: one `CREATE TABLE` and the `INSERT`s for its
rows. The engine comes in two near-identical drafts:

- `main.go`, the **strict** draft: any read error or row of the wrong width
  aborts the conversion;
- `prop_csv2sql.go`, the **lenient** draft that the command line uses: it
  skips such records, drops blank rows, and puts a commented-out
  `DROP TABLE` line in front of the table.

The model is a single set of pure functions. A `Variant` value (`Strict` or
`Lenient`) selects the behaviour at each point where the drafts differ. The
input is the sequence of records the CSV reader yields. Each record is
either `Row(fields)` or `Unreadable`, which stands for a read error.

| module | what it holds |
|---|---|
| `Wrappers` | `Option` and `Result` |
| `Ascii` | character classes, ASCII `TrimSpace`, `ToLower`, `EqualFold`, `Join` |
| `Decimal` | decimal text of integers (`%d`) and reading it back |
| `Settings` | `Config` (strict draft), `Opts` (command-line options), the record and error types |
| `Sanitizer` | `sanitizeColumnName` and the naming rule of `readHeaders` |
| `Classifier` | `isInteger`, `isDate`, `isDecimal` (as a parameter), `refineType` |
| `Columns` | selecting the columns whose type is not `SKIP` |
| `Resolver` | `determineColumnTypes`: initial types, fast path, sampling |
| `Serializer` | NULL mapping, escaping and quoting of one field; the value list of a row; where a literal ends in a value list |
| `Emitter` | `generateCreateTable`, `formatInsertColumns`, `formatBatchInsert`, batching; readers that take the column list and the value lists back out of the INSERT text |
| `Converter` | `Convert` and the insert pass of `generateInsertStatements` |

Modelling choices:

- Strings are `seq<char>`, and each character stands for one byte, so
  lengths are byte lengths. Trimming covers ASCII white space and case
  folding covers ASCII letters.
- `strconv.ParseFloat` is passed in as a parameter `isFloat` of type
  `FloatSyntax`. Its type guarantees three facts: every int64-parsable
  text parses as a float, no text containing `'` or `\` does, and no text
  containing `,` or `)` does. The proofs use nothing else about float
  syntax.
- `refineType` returns the datatype `SqlType`, rendered to the exact type
  text (`Classifier.Render`). Column types elsewhere are plain strings,
  because forced types are arbitrary user text and the source compares them
  textually (`"SKIP"`, prefix `"VARCHAR"`, `"INT"`, `"DECIMAL(20,6)"`).
- `readHeaders` consumes the first record in both header modes. In the
  no-header mode it only reassigns its own local `reader` (main.go:129-131),
  so sampling sees the records after the first one in both modes. The
  insert pass restarts at the first record and skips it only when there is
  a header. With no header, the first data row is therefore emitted but
  never sampled.
- `refineType` never reads its `currentType` argument. The model therefore
  has no such parameter, and the last sampled value wins
  (`Resolver.FoldLastValueWins`). Types are not widened monotonically: a
  later `BIGINT` value replaces an earlier `TEXT` or `VARCHAR`. No 65535
  cap applies to `VARCHAR`.
- Integer settings are unbounded `int`, as the source does not validate
  them. A `MaxSampleSize` below one still samples one row, and a
  `BatchSize` below one flushes every row (`Resolver.Quota`,
  `Emitter.BatchWidth`).

## Model

The functions that chain the steps or assemble statement text are
specified by lemmas about them, listed in the table below:
`Converter.Convert` (main.go:63-94, prop_csv2sql.go:38-69) by
`Converter.ConvertLenient`, `Converter.ConvertStrict` and
`Converter.DraftsAgree`; `Resolver.Resolve` (main.go:150-220) by
`Resolver.ResolveLenient` and `Resolver.ResolveStrict`;
`Emitter.CreateTable` (main.go:248-273) by `Emitter.TableLines`,
`Emitter.ColumnDefs` and `Emitter.CreateTableDrafts`;
`Emitter.BatchLoop` (main.go:335-354) by `Emitter.BatchLoopIsChunks` and
`Emitter.Batching`; `Emitter.InsertStatements` (main.go:335-356) by
`Emitter.InsertStatementsShape` and `Emitter.InsertStatementsReadBack`.

| member | source | states |
|---|---|---|
| `Sanitizer.Sanitize` | main.go:136-148 | the name holds only `a-z`, `0-9`, `_`; does not start with a digit; does not end with `_`; starts with `_` only when a digit follows it |
| `Sanitizer.SanitizeKeepsAlnums` | main.go:136-148 | the ASCII letters and digits of the raw header survive sanitizing, lowercased and in order, and nothing else alphanumeric appears |
| `Sanitizer.SanitizeEmptyIff` | main.go:136-148 | the sanitized name is empty exactly when the raw header holds no ASCII letter or digit |
| `Sanitizer.SanitizeIdempotent` | main.go:136-148 | sanitizing a sanitized name changes nothing |
| `Sanitizer.HeaderNameWellFormed` | main.go:102-108 | every header name is a non-empty identifier that does not start with a digit; a header with no letter or digit becomes `column_<i+1>`, any other becomes its sanitized form |
| `Sanitizer.HeaderNamesAreIdentifiers` | main.go:96-121 | in both header modes every column name is a non-empty `[a-z0-9_]` identifier |
| `Sanitizer.ColumnNameShape` | main.go:118-120 | `column_<k>` is an identifier of more than seven characters starting with a letter |
| `Decimal.IntToStringRoundTrip` | main.go:241-244 | the `%d` text of a width reads back to the same integer |
| `Decimal.IntToStringInjective` | main.go:241-244 | different widths give different `%d` texts |
| `Classifier.IsInteger` | main.go:379-382 | int64-parsable text is non-empty and holds only digits after an optional sign |
| `Classifier.DateLengths` | main.go:389-406 | a date-shaped value has length 10, 19 or 20, and length 10 exactly for the two date-only shapes |
| `Classifier.DateIsNotInteger` | main.go:389-406 | no date-shaped value parses as an integer |
| `Classifier.Classify` | main.go:222-245 | first match wins: `BIGINT` exactly for int64 text; `DECIMAL(20,6)` exactly for other float text; `DATE`/`DATETIME` exactly for non-float date shapes, by length; then `TEXT` above `TextThreshold`; above `VarcharLength` a `VARCHAR` width that is a multiple of 50 in (L, L+50]; else `VARCHAR(VarcharLength)`; never wider than `VarcharLength` when `TextThreshold <= VarcharLength` |
| `Classifier.ParseRender` | main.go:224-244 | every type text `refineType` writes reads back to the type it came from |
| `Classifier.RefineType` | main.go:222-245 | the type text names the classified type unambiguously and is never `SKIP` or `INT` |
| `Classifier.RenderDistinct` | main.go:224-244 | different inferred types have different texts, and none is `SKIP` or `INT` |
| `Classifier.RenderVarcharPrefix` | main.go:163-169 | among inferred types, only `VARCHAR(n)` passes the fast-path prefix test |
| `Columns.KeptIndices` | main.go:252-258 | the positions of the non-`SKIP` columns, strictly increasing, and all of them |
| `Columns.Keep` | main.go:252-258 | selecting per column keeps exactly the entries at the non-`SKIP` positions, in header order |
| `Resolver.Sample` | main.go:174-217 | sampling yields one type per header; only the strict draft fails, and only with a read error |
| `Resolver.LastValueSpec` | main.go:197-213 | the last non-NULL value of a column is `None` exactly when every value is empty or NULL-like, and otherwise is a trimmed value after which all are NULL-like |
| `Resolver.FoldKeepsFixed` | main.go:191-198 | a `SKIP` or forced column keeps its type through any rows |
| `Resolver.FoldLastValueWins` | main.go:197-214 | for any other column, the type after a run of rows is `refineType` of the last non-NULL value in the column, or the starting type when there is none; earlier values have no effect |
| `Resolver.SampleLenient` | prop_csv2sql.go:151-191 | the lenient loop folds exactly the first `max(MaxSampleSize,1)` well-shaped records, skipping read errors and wrong-width records |
| `Resolver.SampleStrict` | main.go:176-217 | the strict loop fails exactly when it reaches a read error before the sample quota is used up, and otherwise equals the lenient loop |
| `Resolver.ResolveLenient` | prop_csv2sql.go:125-195 | lenient resolution never fails and yields `ExpectedTypes`: forced columns get their forced type, skipped ones `SKIP`, any other column `refineType` of its last non-NULL value among the first `max(MaxSampleSize,1)` well-shaped records, or `TEXT` |
| `Resolver.FastPathFixed` | main.go:162-172 | when the fast path fires, every column is forced or skipped |
| `Resolver.ResolveStrict` | main.go:150-220 | strict resolution fails exactly when the fast path does not fire and a read error comes before the quota; otherwise it agrees with the lenient draft |
| `Resolver.OptionsAlwaysSample` | prop_csv2sql.go:28-35 | with the command line's empty force and skip maps, the fast path fires only for a table without columns |
| `Serializer.EscapeIsCharwise` | main.go:321-322 | the two successive `ReplaceAll` calls double each quote and backslash of the original text, and change nothing else |
| `Serializer.EscapeRoundTrip` | main.go:321-322 | collapsing doubled quotes and backslashes recovers the value, and only the escaped text collapses to it |
| `Serializer.EscapePlain` | main.go:325-329 | text without quote or backslash escapes to itself, so an unquoted number is written as read |
| `Serializer.FieldLiteral` | main.go:314-332 | an empty or `NullString`-equal trimmed field gives `NULL`; a float in an `INT` or `DECIMAL(20,6)` column gives the bare value; anything else gives a quoted literal that reads back to the trimmed value |
| `Serializer.RowValues` | main.go:308-333 | one literal per non-`SKIP` column, in header order, each the literal of that column's field |
| `Serializer.AllNullRow` | main.go:314-318 | a row of empty or NULL-like fields becomes a tuple of `NULL`s |
| `Serializer.InferredQuoting` | main.go:325-332 | for an inferred column type, a value is unquoted exactly when the column is `DECIMAL(20,6)` and the value is a float, so `BIGINT` columns are always quoted |
| `Serializer.FieldLiteralIsLiteral` | main.go:314-332 | every literal the insert pass writes can be delimited in a value list: `NULL`, a bare number without `,` or `)`, or a quoted literal that reads back |
| `Serializer.RowValuesAreLiterals` | main.go:308-333 | every literal of a row's value list can be delimited |
| `Serializer.EscapeValue` | main.go:409-418 | an empty or `NULL`-like value gives `NULL`; any other gives a quoted literal that reads back to the trimmed value |
| `Serializer.EscapeValueIsFieldLiteral` | main.go:409-418 | the helper writes what the insert pass writes for a quoted column under the default `NullString` |
| `Emitter.ColumnDefs` | main.go:252-258 | one definition `` `name` type `` per non-`SKIP` column, in header order |
| `Emitter.TableLines` | main.go:252-268 | the table body is the column definitions, followed by one `PRIMARY KEY` line exactly when keys are configured |
| `Emitter.CreateTableDrafts` | prop_csv2sql.go:222-248 | the lenient CREATE TABLE text is `-- DROP TABLE <name>;` and a newline, followed by the strict text |
| `Ascii.SplitJoin` | main.go:360-368 | cutting a `strings.Join` result at the separator recovers the parts, when no part holds the separator's first character |
| `Emitter.ColumnListRoundTrip` | main.go:360-368 | the INSERT column list reads back to the names of the non-`SKIP` columns in header order, when some column is kept and no name holds a comma |
| `Emitter.ColumnNames` | main.go:360-368 | the INSERT column list names the non-`SKIP` columns in header order, the same positions as the value tuples and the table definitions |
| `Emitter.ChunksFlatten` | main.go:335-354 | cutting into batches loses, reorders and invents no row |
| `Emitter.ChunksCount` | main.go:335-354 | the number of batches is ceil(rows / width), and zero exactly for no rows |
| `Emitter.ChunksSizes` | main.go:335-354 | no batch is empty or wider than the width, and all but the last are full |
| `Emitter.BatchLoopIsChunks` | main.go:335-354 | the append-and-flush loop with a final partial flush cuts the rows into consecutive batches of `max(BatchSize,1)` |
| `Emitter.Batching` | main.go:335-354 | the batches hold every tuple once and in order, each holds 1 to `max(BatchSize,1)` tuples, all but the last are full, and no rows give no batch |
| `Emitter.InsertStatementsShape` | main.go:335-376 | unbatched output has one INSERT per row, the k-th being the single-row INSERT of row k; batched output has one INSERT per batch, with the batch's tuples in order |
| `Emitter.TupleRoundTrip` | main.go:336 | a value list written as `(a, b, ...)` reads back, literal by literal, to its literals, whatever text follows it |
| `Emitter.SingleInsertRoundTrip` | main.go:342-345 | a one-row INSERT reads back, after its head, to the literals of its row |
| `Emitter.BatchInsertRoundTrip` | main.go:370-375 | a batch INSERT reads back, after its head, to the literals of each of its rows, in order |
| `Emitter.InsertStatementsReadBack` | main.go:335-356 | without batching statement k reads back to row k's literals; with batching the statements, read in turn, give every row's literals once and in order |
| `Converter.InsertRows` | main.go:294-305 | every emitted row is as wide as the header, and only the strict draft can fail |
| `Converter.InsertBody` | main.go:282-288 | the strict draft fails when a header is expected but cannot be read; otherwise the pass starts after the header, or at the first record without one |
| `Converter.DropBlank` | prop_csv2sql.go:282-293 | every kept row is a non-blank row of the input (blank: first field, and second when present, empty or NULL-like), and every non-blank row is kept |
| `Converter.NonBlankIndices` | prop_csv2sql.go:282-293 | the positions of the non-blank rows: in range, strictly increasing, and all of them |
| `Converter.DropBlankInOrder` | prop_csv2sql.go:282-293 | the k-th kept row is the row at the k-th non-blank position, so each non-blank row is kept once and in its original order |
| `Converter.InsertRowsLenient` | prop_csv2sql.go:265-293 | the lenient insert pass never fails and emits exactly the well-shaped, non-blank records in order |
| `Converter.InsertRowsStrictAccepts` | main.go:294-305 | when every record is readable and as wide as the header, the strict insert pass emits all of them, blank ones included |
| `Converter.InsertRowsStrictRejects` | main.go:299-305 | the strict insert pass fails with the error of the first unreadable or wrong-width record |
| `Converter.LenientRowsInserted` | prop_csv2sql.go:251-345 | the lenient insert pass writes the INSERTs for exactly the well-shaped, non-blank records after the header (from the first record without one) |
| `Converter.ConvertLenient` | prop_csv2sql.go:38-69 | the lenient conversion fails only when there is no readable first record; otherwise its output is the table for `ExpectedTypes` and the INSERTs for the well-shaped, non-blank records |
| `Converter.ConvertStrict` | main.go:63-94 | the strict conversion succeeds exactly when every record is readable and as wide as the first |
| `Converter.StrictRejects` | main.go:299-305 | any unreadable or wrong-width record makes the strict conversion fail |
| `Converter.InsertColumnsReadBack` | main.go:360-368 | for the names `readHeaders` gives, the INSERT column list always reads back to the non-`SKIP` column names in header order |
| `Converter.InsertsReadBack` | main.go:308-356 | when some column is kept, the INSERT text of the emitted rows reads back to each row's literals (one statement per row, or all batches in order) |
| `Converter.DraftsAgree` | prop_csv2sql.go:38-69 | on well-formed input without blank data rows, both drafts produce the same INSERT text and the same table, the lenient one behind the DROP comment |

## Left out

- File I/O: opening, seeking, reopening and closing the input. The
  records are given as a sequence.
- The CSV parser itself: quoting, `TrimLeadingSpace` (set for the first
  pass only), and its own field-count check. The model takes what the
  reader returns for each record: fields, or a read error.
- Exact `strconv.ParseFloat` syntax (exponents, `NaN`, `Inf`, hex floats).
  It is a parameter with the three facts stated above.
- Unicode white space, case folding and lowercasing. ASCII rules stand in
  for them.
- Logging and warnings on stderr and stdout, including the lenient draft's
  "column count mismatch" message.
- Delimiter selection, and its panic on an empty delimiter.
- The `main()` demonstration functions, command-line parsing and printing.
  Of the command line, only the `OptsT` record is kept, with its defaults
  (`Settings.Opts`, `Settings.DefaultOpts`).
- The unused `rowCount` counter of the insert pass.
- Resolver.Sample: the strict draft's error text is not modelled, only the
  error kind. The same holds for the other `Error` values.
