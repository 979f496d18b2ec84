# xlsx2table in Dafny

A model of the importer in `xlsx2table.py`, which loads one spreadsheet into a
MariaDB/MySQL table. The model covers four parts and proves properties of them.

- **Column type inference.** `determine_column_type` strips every cell and sets the blank
  ones aside. It then tries the two strict date formats in order, removes commas and tests
  the integer and decimal regular expressions. The result is one of DATE, DATETIME,
  DECIMAL(18,6) and VARCHAR(255). Integer-looking columns stay text on purpose.
- **Table-name derivation.** Every character outside `[a-zA-Z0-9_一-鿿]` becomes
  `_`, then the name is cut to 30 characters.
- **The SQL text.** This covers `DROP TABLE IF EXISTS`, the `CREATE TABLE` column list,
  the three `SET` statements on each side of the load, and the parameterised `INSERT`
  with one `%s` per column.
- **The whole run, `excel2mariadb_with_progress`.**
  - The reader is chosen from the extension, the headers are stripped, the table name is
    derived and the connection is opened.
  - The table is dropped, each column's type is inferred and the table is created. The
    integrity checks are switched off.
  - The rows are sent in batches of 5000. Blank cells become NULL, and each
    `executemany` is followed by a commit.
  - The checks are switched back on and the connection is closed. A missing column rolls
    back; a database error does not.

The modules follow the program's structure:

| module | file | what it holds |
|---|---|---|
| `Wrappers` | wrappers.dfy | `Option` and `Result` |
| `Text` | text.dfy | Python's `str.strip`, `str.endswith` and `str.join` |
| `ColumnType` | column_type.dfy | the inference, with both regular expressions as one automaton plus the grammar it accepts |
| `TableName` | table_name.dfy | the name derivation |
| `Sql` | sql.dfy | the statements and their text |
| `Batching` | batching.dfy | batch arithmetic and the blank-to-NULL conversion |
| `Driver` | driver.dfy | the connection, as a class whose methods update its state in place |
| `Ingest` | ingest.dfy | the run: the column loop and the batch loop as methods, and `Import` proved equal to the reference function `ExpectedRun` call for call |
| `RunProperties` | run_properties.dfy | what a run guarantees, as lemmas about `ExpectedRun` |

**How the connection is modelled.** The `Database` class stands in for the
connection. It keeps:

- the committed contents of every table;
- the rows of the open transaction;
- counts of `executemany` and `commit` calls;
- the list of calls made on the connection and its cursor.

A `Fault` fixed when the server is built says which call the server refuses, if any:

- the connection itself;
- the CREATE;
- the k-th `executemany`;
- the k-th `commit`.

Each refusal stands for a `mysql.connector.Error`.

## Model

| member | source | states |
|---|---|---|
| Text.StripIdempotent | xlsx2table.py:37 | stripping a stripped text changes nothing |
| ColumnType.TypeNameInjective | xlsx2table.py:35-59 | the type text is always one of the four strings, and different types give different texts |
| ColumnType.RemoveCommas | xlsx2table.py:52 | the result holds no comma, is no longer than the input, and is the input when it had none; a one-character input becomes empty exactly when it is a comma |
| ColumnType.RemoveCommasConcat | xlsx2table.py:52 | removing commas from a concatenation removes them from each part and concatenates the results, so with the one-character case it fixes the result for every input |
| ColumnType.MatchesGrammar | xlsx2table.py:53-56 | the automaton accepts exactly `-?\d+` (or `-?\d+(\.\d+)?` for the decimal test), optionally followed by one final newline, as `$` allows |
| ColumnType.ScanStart | xlsx2table.py:53-56 | the automaton ends accepting exactly on the integer grammar, and on the decimal grammar for the decimal test |
| ColumnType.IntegerLikeIsDecimalLike | xlsx2table.py:53-56 | every integer-looking cell also looks decimal |
| ColumnType.KeptEmpty | xlsx2table.py:37-40 | no cell is kept exactly when every cell is blank |
| ColumnType.KeptAll | xlsx2table.py:37-38 | a test holds of every kept cell exactly when it holds of every non-blank cell once stripped |
| ColumnType.DateTypeOfFormats | xlsx2table.py:44-49 | trying the two formats in order gives DATE if all kept cells parse as `%Y-%m-%d`, else DATETIME if all parse as `%Y-%m-%d %H:%M:%S`, else no date type |
| ColumnType.DetermineIsClassification | xlsx2table.py:35-59 | the inference equals its priority-order restatement over the raw cells: blank, DATE, DATETIME, integer-looking (text), decimal, text |
| ColumnType.BlankColumnIsText | xlsx2table.py:37-41 | a column of empty or whitespace-only cells is VARCHAR(255) |
| ColumnType.DateColumn | xlsx2table.py:44-49 | DATE exactly when some cell has content and every non-blank cell parses as a date; dates are tested before any number |
| ColumnType.DateTimeColumn | xlsx2table.py:44-49 | DATETIME exactly when some cell has content, not all are dates, and all are date-times |
| ColumnType.IntegerColumnIsText | xlsx2table.py:52-54 | a non-date column whose cells all look like integers once commas are removed is VARCHAR(255), never numeric |
| ColumnType.DecimalColumn | xlsx2table.py:52-57 | DECIMAL(18,6) exactly when the date tests fail, some cell is not integer-looking and every cell is decimal-looking |
| ColumnType.OtherTextIsText | xlsx2table.py:52-59 | one non-blank cell that is neither a date, a date-time nor decimal-looking makes the column VARCHAR(255) |
| TableName.TableNameShape | xlsx2table.py:79 | the name has `min(len(stem), 30)` characters; each is the stem's character when allowed, else `_`; so all are allowed |
| TableName.ValidNameKept | xlsx2table.py:79 | a stem of at most 30 allowed characters is its own table name |
| TableName.DeriveIdempotent | xlsx2table.py:79 | deriving a name from a derived name gives it back |
| TableName.EmptyOnlyFromEmptyStem | xlsx2table.py:79 | the name is empty exactly when the stem is |
| TableName.NameHasNoQuoteOrPercent | xlsx2table.py:79 | the name never holds a backquote or `%`, so it cannot break the quoted identifier or the INSERT's placeholders |
| TableName.ExampleName | xlsx2table.py:79 | `Q1-a 销` becomes `Q1_a_销` |
| Sql.PlaceholderCount | xlsx2table.py:112 | the placeholder list holds exactly n `%s`; for n > 0 it is `4n-2` characters long and ends in `s` |
| Sql.InsertPlaceholderCount | xlsx2table.py:111-113 | when no name holds `%`, the INSERT text holds exactly one `%s` per column |
| Batching.BatchCountIsCeiling | xlsx2table.py:107-109 | the batch count is the ceiling of `total / 5000`, and zero exactly when there are no rows |
| Batching.BatchBounds | xlsx2table.py:115-117 | each batch is non-empty and holds at most 5000 rows; each ends where the next starts; all but the last are full; the last ends at the total |
| Batching.ExactlyOneBatch | xlsx2table.py:115-117 | every row index lies in exactly one batch, batch `i / 5000` |
| Batching.BatchesArePrefix | xlsx2table.py:115-120 | the first k batches, joined, are the first `min(5000k, total)` rows in order |
| Batching.BatchesCoverAll | xlsx2table.py:107-120 | all batches joined are exactly the rows |
| Batching.TwelveThousandThreeRows | xlsx2table.py:107-117 | 12003 rows make batches of 5000, 5000 and 2003 |
| Batching.NullRowFaithful | xlsx2table.py:120 | the row keeps its width; exactly the empty cells become NULL; no empty text is sent; reading the cells back gives the row |
| Batching.NullRowsConcat | xlsx2table.py:120 | converting joined rows is joining the converted rows |
| Driver.Database.constructor | xlsx2table.py:83 | a server holding the given tables, not yet connected, with nothing pending and no calls made |
| Driver.Database.Connect | xlsx2table.py:83 | the connection opens unless the server refuses it |
| Driver.Database.Execute | xlsx2table.py:88-103 | the call is recorded; DROP removes the table; CREATE fails on an existing table or a refusal and otherwise adds it empty; SET changes no table |
| Driver.Database.ExecuteMany | xlsx2table.py:122 | the call is recorded; all rows join the open transaction, or none do when the server refuses, the table is missing or a row has the wrong width |
| Driver.Database.Commit | xlsx2table.py:123 | the call is recorded; the open transaction's rows are appended to their table unless the server refuses |
| Driver.Database.Rollback | xlsx2table.py:140 | the open transaction's rows are dropped |
| Driver.Database.Close | xlsx2table.py:144 | the connection closes and uncommitted rows are lost |
| Ingest.ExtensionDispatch | xlsx2table.py:67-72 | `.xls` picks xlrd, `.xlsx` picks openpyxl, and `.XLSX` or `.csv` are refused |
| Ingest.EngineForAnyPath | xlsx2table.py:67-72 | for every path: xlrd exactly when the path is some name followed by `.xls`, openpyxl exactly when it is some name followed by `.xlsx`, and no engine exactly when it is neither |
| Ingest.Lookup | xlsx2table.py:93 | `df[name]` finds a position holding that header, and fails exactly when no header equals the name |
| Ingest.LookupOwnPosition | xlsx2table.py:93 | with distinct headers, looking up header j finds position j |
| Ingest.SchemaShape | xlsx2table.py:91-94 | a completed column loop gives one definition per name, in order, each typed by inferring the column its name finds |
| Ingest.SchemaSucceeds | xlsx2table.py:91-94 | the loop completes when every name is a header |
| Ingest.SchemaFailsAtFirstMissing | xlsx2table.py:91-94 | a failed loop names the first name that is not a header |
| Ingest.InferColumns | xlsx2table.py:91-94 | the loop that appends one definition per column returns the column list, or the first missing name |
| Ingest.HeadersSchema | xlsx2table.py:91-94 | with distinct headers, looking up the raw headers gives, for each column j, its header and the type inferred from column j |
| Ingest.TrimmedHeadersFound | xlsx2table.py:75-94 | when no header has surrounding whitespace, every column is found at its own position |
| Ingest.PaddedHeaderFails | xlsx2table.py:75-93 | a header whose stripped form is not itself a header makes the column loop fail |
| Ingest.SendBatch | xlsx2table.py:120-123 | one executemany and one commit: the batch is appended to the table, or the refusal is reported with the calls made; a refused commit leaves the batch pending and counts the commit, a refused executemany leaves nothing pending |
| Ingest.CommittedBatches | xlsx2table.py:115-123 | the loop commits every batch exactly when the fault does not fire during it |
| Ingest.SendBatches | xlsx2table.py:115-123 | the batch loop leaves the committed batches in the table and reports where it stopped; its calls are the reference calls, up to and including the refused one; only a refused commit leaves a batch pending, and it is the refused batch |
| Ingest.LoadRows | xlsx2table.py:105-131 | the load, the SETs that switch the checks back on, and the close leave the state `Loaded` describes |
| Ingest.CreateAndLoad | xlsx2table.py:96-131 | CREATE, the three SETs and the load leave the state `Created` describes |
| Ingest.RunSession | xlsx2table.py:86-144 | from connect to close, outcome, tables and calls are those of `Session` |
| Ingest.Import | xlsx2table.py:61-144 | a whole run's outcome, committed tables and calls are those of `ExpectedRun` |
| RunProperties.LoadCallsLayout | xlsx2table.py:115-123 | k batches make 2k calls, alternating executemany of batch i and commit |
| RunProperties.LoadCallsRows | xlsx2table.py:115-123 | the rows sent by the first k batches are the first k batches converted, in order |
| RunProperties.LoadedTables | xlsx2table.py:115-123 | the load succeeds exactly when the fault does not fire; the table then holds the committed batches' rows |
| RunProperties.LoadedCloses | xlsx2table.py:134-144 | the load closes once, as its last call, and never rolls back |
| RunProperties.LoadedRestores | xlsx2table.py:129-131 | the checks are switched back on before the close exactly when every batch went through |
| RunProperties.LoadedCommits | xlsx2table.py:122-123 | one commit per committed batch, plus one when the refused call is a commit |
| RunProperties.LoadedSends | xlsx2table.py:120-122 | the rows sent are the committed batches plus the refused batch |
| RunProperties.LoadedInsert | xlsx2table.py:113-122 | every executemany of the load uses the same INSERT |
| RunProperties.SessionOutcome | xlsx2table.py:86-141 | success exactly when the columns are found, the CREATE goes through and no batch is refused; each failure names its step |
| RunProperties.SessionTables | xlsx2table.py:88-131 | other tables are untouched; the target exists afterwards exactly when it was created, and then holds the committed rows |
| RunProperties.SessionCloses | xlsx2table.py:88-144 | the session starts with the DROP and ends with its only close; it rolls back exactly when a column is missing |
| RunProperties.SessionOpens | xlsx2table.py:88-103 | the CREATE follows the DROP, and the three SETs follow the CREATE |
| RunProperties.SessionRestores | xlsx2table.py:101-131 | checks are switched back on, just before the close, exactly when the run succeeds; otherwise nothing switches them back on |
| RunProperties.SessionCommits | xlsx2table.py:115-123 | commits per session: none without a table, else one per committed batch plus a refused one |
| RunProperties.SessionSends | xlsx2table.py:115-123 | nothing is sent without a table; otherwise the committed batches and the refused batch are sent |
| RunProperties.SessionInserts | xlsx2table.py:111-122 | every executemany uses the INSERT naming the stripped headers |
| RunProperties.SchemaOkIffHeadersFound | xlsx2table.py:75-94 | the column loop completes exactly when every stripped header is a header |
| RunProperties.ImportSucceedsExactly | xlsx2table.py:61-144 | a run succeeds exactly when the extension is supported, the connection opens, every stripped header is found, the CREATE goes through and no batch is refused |
| RunProperties.ImportFailureReasons | xlsx2table.py:67-141 | failure reasons: unsupported file; connection refused; missing column (the first stripped header that is not a header); CREATE refused; batch k's executemany refused; batch k's commit refused |
| RunProperties.ImportTables | xlsx2table.py:83-131 | no table changes without a connection; only the target table changes; it exists afterwards exactly when created; it then holds the committed batches |
| RunProperties.ImportedHoldsSheet | xlsx2table.py:105-123 | after a successful run the target table holds every row of the sheet, converted, in order, and the other tables are as before |
| RunProperties.ImportedReadsBack | xlsx2table.py:120 | after a successful run, reading each stored cell back as text gives the sheet's cell |
| RunProperties.FailedLoadKeepsBatches | xlsx2table.py:115-136 | when batch k is refused, the table holds exactly the first 5000k rows, committed earlier, and batch k is not in it |
| RunProperties.ImportCallsOnlyWhenConnected | xlsx2table.py:67-83 | the run makes calls exactly when the extension is supported and the connection opens |
| RunProperties.ImportClosesOnce | xlsx2table.py:88-144 | a connected run starts with the DROP and closes the connection once, as its last call |
| RunProperties.ImportRollsBack | xlsx2table.py:134-141 | a run rolls back exactly when it connected and a column was missing; database errors do not roll back |
| RunProperties.ImportCreates | xlsx2table.py:88-103 | with every column found, the DROP is followed by the CREATE with the inferred columns; once the table is created, by the three SETs |
| RunProperties.ImportColumns | xlsx2table.py:91-96 | with every column found, definition j names stripped header j with the type inferred from the column that name finds |
| RunProperties.InsertNamesCreatedColumns | xlsx2table.py:94-113 | the INSERT names exactly the columns the CREATE defines, in order |
| RunProperties.ImportListsAgree | xlsx2table.py:91-113 | in every run that connects and finds its headers, the second call is the CREATE, and every executemany of that run inserts into the created table with as many columns as the CREATE defines; entry i of the CREATE list is the executemany's column i, quoted, followed by its type |
| RunProperties.ImportRestoresChecks | xlsx2table.py:101-131 | a successful run ends with the three SETs switching checks back on and the close; a failed run leaves them off |
| RunProperties.ImportCommits | xlsx2table.py:115-123 | no commit without a created table; otherwise one per committed batch plus a refused commit |
| RunProperties.ImportSends | xlsx2table.py:115-123 | no row is sent without a created table; otherwise the committed batches and the refused batch, converted, in order |
| RunProperties.ImportedSendsEveryRow | xlsx2table.py:107-123 | a successful run sends every row of the sheet exactly once, in order |
| RunProperties.ImportInserts | xlsx2table.py:111-122 | every executemany of a run uses the INSERT for the derived table and the stripped headers |
| RunProperties.SessionRerun | xlsx2table.py:88-131 | re-running a successful session on what it left gives the same run |
| RunProperties.ReimportIsIdempotent | xlsx2table.py:61-144 | importing the same file again after a successful import makes the same calls and leaves the same tables |

## Left out

- The Tkinter form, the file dialog, `messagebox` and `config.json` are user interface and file I/O. `ProgressLogger` prints wall-clock progress with float arithmetic and terminal escapes.
- `pd.read_excel` is not modelled; the sheet is an input. So are its read errors, and the exception raised before any connection when the file cannot be read.
- `Path(...).stem` is not modelled; the stem is an input.
- Ingest.Inference: the strict date test `pd.to_datetime(..., errors='raise')` is the parameter `parses(format, value)`; pandas' calendar rules are not modelled.
- ColumnType.MatchesGrammar: `\d` is ASCII `0`-`9`; Python's `\d` also accepts other Unicode decimal digits.
- The column loop takes the inference as a parameter; the run passes the importer's own `Inference(parses)`, so the loop's lemmas hold for any inference.
- The server's own checks on the DDL are not modelled. An empty table name, an empty or duplicate column name and a zero-column CREATE are accepted unless the fault refuses the CREATE.
- Names holding a backquote or `%` are sent unescaped, as `xlsx2table.py` sends them. `InsertPlaceholderCount` states its count only for names without `%`. The table name can never hold either character.
- Driver.Database.Execute: MySQL's implicit commit around DDL is not modelled; the transaction is empty at every DDL statement the run issues.
- Ingest.HeaderNames: headers are modelled as text. pandas keeps a numeric or date header cell as a non-text label even with `dtype=str`. The column is then looked up by the text `str(col).strip()` (xlsx2table.py:74, 91), which raises a missing-column error. The run rolls back after the DROP has removed the old table. The model finds such a column and imports it. `SchemaOkIffHeadersFound`, `ImportSucceedsExactly` and `ImportFailureReasons` hold for text headers only.
- Driver.Fault: the server may refuse only the connection, the CREATE, one executemany or one commit. The DROP (xlsx2table.py:88), the six SETs (xlsx2table.py:101-103, 129-131), the rollback and the close are never refused. So the outcome where every batch is committed and a restoring SET is then refused is not modelled; the source reports that run as a database error although the data is loaded. The "exactly when" statements of `ImportSucceedsExactly` and `ImportFailureReasons` rely on this restriction.
- Driver.Database: one open transaction for one table, which is all the run uses; the server refuses at most one call per run.
- The server's handling of a connection closed with a transaction still open is modelled as discarding it. That transaction only exists after a refused commit.
- pandas renames repeated headers when it reads a file. Distinct headers are assumed only where a lemma needs them (`HeadersSchema`, `TrimmedHeadersFound`).
- `port` is converted with `int(port)` before connecting. A bad port string is not modelled, because it raises before the connection is made.
- Behaviour of `xlsx2table.py` kept as written:
  - A header with surrounding whitespace is looked up by its stripped name, which is not a column. The run then fails with a missing column after the DROP has already removed the old table (`PaddedHeaderFails`, `ImportRollsBack`).
  - After a database error the checks are not switched back on, because those statements are not in `finally` (`ImportRestoresChecks`).
  - Only the generic exception branch rolls back; a database error does not (`ImportRollsBack`).
