# DOH health-grades pipeline, modelled in Dafny

This project models the core of `doh_pipeline/tasks.py`, a pipeline that
turns the New York City health-inspection results file into three tables
(restaurants, inspections, violations) in a MySQL database. It models three
parts:

- **Record parsing and cleaning** (`Cleaning`). This is `line_schema`,
  `clean_elements` and `parse_line`:
  - an 18-column positional schema;
  - each element is stripped of whitespace;
  - an empty grade becomes `Unknown` and a grade of `Z` becomes `Pending`;
  - a date `a/b/c` is rewritten as `c/a/b`.
  The IndexErrors of `parse_line` are `ParseError` values.
- **The stream normaliser** (`Normalizer`, `Streams`).
  - `output_restaurant`, `output_inspection` and `output_violation` are
    functions. A KeyError is a `MissingKey` error.
  - `TransformHealthGrades.run` is a class. Its fields are the loop's
    `prev_parsed_line`, its counter `n` and the three output files. Each
    method is proved equal to a pure fold (`Step`, `ScanLines`, `Transform`).
  - `Streams` proves what the three files hold:
    - each file is the order-preserving subsequence of the records its rule
      picks;
    - restaurant and inspection lines are counted by runs of equal keys;
    - on grouped input, that count is the number of distinct keys.
- **The batch loader** (`Loader`). This is `LoadMysqlTask.run` and the
  configuration of `LoadViolations`, `LoadInspections` and `LoadRestaurants`:
  - the INSERT statement, built by `+=`, with its optional
    `ON DUPLICATE KEY UPDATE` clause and the final `sql[:-1]`;
  - the batching loop;
  - the truncate → batches → commit → close → checkpoint sequence.
  The database is a journal of calls (`Call`). Which call raises is a
  parameter, `failAt`.

`Pipeline` connects the two stages:
- each written line is read back by the loader as exactly the written
  fields, provided no value holds a tab or a newline;
- the field counts (9, 7, 5) equal the column counts of the loading tables.

`Wrappers` holds `Option` and `Result`. `Text` holds Python 2's `str.strip`,
`split` and `join` for one-character separators, with their round trips.

Behaviours of the code that a reader may not expect:
- **Batch sizes.** The first batch holds a single row: with `batch_size = 2`
  and 5 rows the batches hold 1, 2 and 2 rows. The first flush happens at
  `n == 0` (`Loader.FiveRowsInPairs`).
- **Short and long lines.** A line with the wrong number of elements is not
  rejected as such. More than 18 elements fails at the first extra one,
  unless an earlier element fails first (a non-empty date with fewer than
  three parts). Fewer than 18 gives a partial record, which fails only if an
  output function later reads a missing key.
- **Dates.** A date with more than three `/`-parts is accepted and the extra
  parts are dropped. A rewritten date can begin or end with whitespace,
  because the parts are not stripped again: `03/05 /2021` becomes
  `2021/03/05 `.
- **Upsert with no columns.** If `upsert` is set and the upsert column list
  is empty, `sql[:-1]` removes the keyword's trailing space rather than a
  comma. No subclass is configured that way.
- **The `None` check.** `parse_line` never returns `None`, so the check
  before the output calls always passes. The model has no such branch.

## Model

| member | source | states |
|---|---|---|
| `Text.Strip` | doh_pipeline/tasks.py:116 | the stripped string has no character of the strip set at either end and is no longer than the input |
| `Text.StripMiddle` | doh_pipeline/tasks.py:116 | stripping removes only characters of the strip set, and only from the two ends: the result is a slice `s[a..b]` with everything outside it in the set |
| `Text.StripUnique` | doh_pipeline/tasks.py:116 | any slice with an unpadded middle and only strip-set characters outside it is the result of stripping |
| `Text.StripUnpadded` | doh_pipeline/tasks.py:116 | stripping a string with nothing to strip leaves it unchanged |
| `Text.Split` | doh_pipeline/tasks.py:129 | `split` always gives at least one part, and no part holds the separator |
| `Text.JoinSplit` | doh_pipeline/tasks.py:129 | joining the parts of a split with the separator gives back the original string |
| `Text.SplitJoin` | doh_pipeline/tasks.py:248 | splitting a join of separator-free parts gives back exactly those parts |
| `Text.JoinChars` | doh_pipeline/tasks.py:145-154 | every character of a join is the separator or a character of some part |
| `Text.SplitRow` | doh_pipeline/tasks.py:261 | `line.strip("\n").split("\t")` gives at least one field, and no field holds a tab |
| `Text.StripNewline` | doh_pipeline/tasks.py:261 | stripping newlines from newline-free text plus a final newline gives back the text |
| `Text.TabLineRoundTrip` | doh_pipeline/tasks.py:145-154 | reading back a tab-joined, newline-terminated line of tab- and newline-free fields gives exactly those fields, in order |
| `Cleaning.RewriteDate` | doh_pipeline/tasks.py:129-130 | the rewritten date `p2/p0/p1` contains a `/` |
| `Cleaning.CleanElement` | doh_pipeline/tasks.py:115-131 | cleaning fails exactly when a date that is non-empty after stripping has fewer than three `/`-parts; a cleaned grade is never empty and never `Z`; outside dates the result has no surrounding whitespace |
| `Cleaning.CleanRules` | doh_pipeline/tasks.py:116-123 | an element that strips to nothing gives `""`, or `Unknown` for the grade; a grade of `Z` gives `Pending`; any other non-date element is returned stripped |
| `Cleaning.CleanDate` | doh_pipeline/tasks.py:124-130 | a date `p0/p1/p2/...` becomes `p2/p0/p1` whatever the parts hold (no calendar check); later parts are dropped |
| `Cleaning.SchemaPositions` | doh_pipeline/tasks.py:49-68 | the schema has 18 positions, and each field sits at exactly one of them |
| `Cleaning.SchemaDistinct` | doh_pipeline/tasks.py:49-68 | no field appears twice in the schema |
| `Cleaning.ElementOutcome` | doh_pipeline/tasks.py:105-111 | an element that is stored is filed under the field of its own position, which exists in the schema |
| `Cleaning.AssembleOk` | doh_pipeline/tasks.py:103-112 | the dictionary is built exactly when every element succeeds |
| `Cleaning.AssembleKeys` | doh_pipeline/tasks.py:103-112 | the built dictionary's keys are exactly the stored fields |
| `Cleaning.AssembleValues` | doh_pipeline/tasks.py:103-112 | with distinct keys, every stored value survives under its key |
| `Cleaning.AssembleFailure` | doh_pipeline/tasks.py:103-112 | a failed build reports the error of the first element that fails, and every earlier element succeeded |
| `Cleaning.AssembleFailureSticks` | doh_pipeline/tasks.py:105-111 | once a prefix of the elements has failed, later elements do not change the outcome |
| `Cleaning.ParseOk` | doh_pipeline/tasks.py:102-112 | `parse_line` succeeds exactly when every element cleans, so never with more elements than the schema has |
| `Cleaning.ParseRecord` | doh_pipeline/tasks.py:102-112 | a parsed record's keys are the fields of the line's positions, and each holds its element cleaned under its schema entry |
| `Cleaning.ParseFailure` | doh_pipeline/tasks.py:102-112 | a failing `parse_line` reports the first element that fails: an extra element past the schema, or a bad date |
| `Cleaning.FieldsOfSize` | doh_pipeline/tasks.py:49-68 | with distinct fields, the first `n` positions name exactly `n` fields |
| `Cleaning.ParseOneKeyPerElement` | doh_pipeline/tasks.py:102-112 | a parsed record has exactly one key per element, and at most 18 |
| `Cleaning.ParseComplete` | doh_pipeline/tasks.py:102-112 | a line of exactly 18 elements that parses yields a record holding every field |
| `Cleaning.ParseLine` | doh_pipeline/tasks.py:102-112 | the dictionary-filling loop returns the parse specification's result, error included |
| `Normalizer.GetAll` | doh_pipeline/tasks.py:145-154 | the format operands are read when all keys are present, giving their values; otherwise the error names the first missing key, left to right |
| `Normalizer.OutputRestaurant` | doh_pipeline/tasks.py:133-157 | on complete records, the restaurant line is written exactly when there is no previous record or `camis` changed, and nothing is written otherwise; on partial records, a failure is a KeyError for a key the record or the previous record lacks, and a record holding the nine written fields (with a previous record holding `camis`) does not fail |
| `Normalizer.OutputInspection` | doh_pipeline/tasks.py:159-184 | on complete records, the inspection line is written exactly when there is no previous record, or `camis` changed, or `inspection_date` changed; on partial records, a failure is a KeyError for a key the record or the previous record lacks, and a record holding the seven written fields (with a previous record holding `camis` and `inspection_date`) does not fail |
| `Normalizer.OutputViolation` | doh_pipeline/tasks.py:186-199 | on a complete record, the violation line is written exactly when `violation_code` is non-empty, whatever the previous record; on a partial record, a failure is a KeyError for a key the record lacks, and a record holding the five written fields does not fail |
| `Normalizer.StoppedStaysStopped` | doh_pipeline/tasks.py:91-99 | once the pass has raised, later lines change nothing |
| `Normalizer.TransformHealthGrades.constructor` | doh_pipeline/tasks.py:81-82 | the scan starts with no previous record, `n = 0` and empty files |
| `Normalizer.TransformHealthGrades.ProcessLine` | doh_pipeline/tasks.py:91-99 | one loop turn moves the state (previous record, count, the three files) exactly as the step specification does, and reports the same failure |
| `Normalizer.TransformHealthGrades.Run` | doh_pipeline/tasks.py:80-100 | the whole pass equals the fold specification: the header row is skipped, lines are processed in order, and the pass stops at the first failure |
| `Streams.Emit` | doh_pipeline/tasks.py:91-99 | a file never has more lines than there were records |
| `Streams.PickedExactly` | doh_pipeline/tasks.py:133-143 | the positions a file picks increase strictly, are in range, and are exactly those where its rule holds |
| `Streams.EmitPicked` | doh_pipeline/tasks.py:91-99 | each file is the order-preserving subsequence of the picked records: one line per picked position, each that record's line |
| `Streams.RestaurantStartsInspection` | doh_pipeline/tasks.py:136-140 | every record that writes a restaurant line also writes an inspection line |
| `Streams.Runs` | doh_pipeline/tasks.py:133-143 | a sequence has at most as many runs of equal neighbours as elements, and at least one when non-empty |
| `Streams.GroupedPrefix` | doh_pipeline/tasks.py:89-90 | a prefix of grouped input is grouped |
| `Streams.GroupedRuns` | doh_pipeline/tasks.py:89-90 | in grouped input, the number of runs equals the number of distinct values |
| `Streams.RestaurantCount` | doh_pipeline/tasks.py:133-143 | the number of restaurant lines equals the number of runs of equal `camis` |
| `Streams.InspectionStep` | doh_pipeline/tasks.py:159-172 | after the first record, an inspection line is written exactly when the (camis, inspection_date) key differs from the previous one |
| `Streams.InspectionCount` | doh_pipeline/tasks.py:159-172 | the number of inspection lines equals the number of runs of equal (camis, inspection_date) keys |
| `Streams.NonEmpty` | doh_pipeline/tasks.py:188 | the non-empty count is at most the number of values |
| `Streams.ViolationCount` | doh_pipeline/tasks.py:186-189 | the number of violation lines equals the number of records with a non-empty `violation_code` |
| `Streams.DistinctRestaurants` | doh_pipeline/tasks.py:89-90 | on input grouped by `camis`, there is one restaurant line per distinct `camis` |
| `Streams.DistinctInspections` | doh_pipeline/tasks.py:89-90 | on input grouped by (camis, inspection_date), there is one inspection line per distinct key |
| `Streams.ParsedComplete` | doh_pipeline/tasks.py:102-112 | every well-formed line parses to a record holding every field |
| `Streams.Records` | doh_pipeline/tasks.py:92 | the records of well-formed lines: one per line, each complete, each what `parse_line` returns for it |
| `Streams.StepComplete` | doh_pipeline/tasks.py:91-99 | a loop turn on a well-formed line does not fail; it counts the line, makes the record the previous one, and appends each rule's line |
| `Streams.ScanRecords` | doh_pipeline/tasks.py:91-99 | after lines that parse to complete records, the previous record is the last record, `n` is the number of lines, and each file holds exactly its rule's lines |
| `Streams.ScanWellFormed` | doh_pipeline/tasks.py:80-100 | a pass over well-formed lines never stops early, and leaves each file holding exactly the lines its rule picks |
| `Loader.TerminatedJoin` | doh_pipeline/tasks.py:252-253 | appending each item followed by a comma gives the comma-join plus one trailing comma |
| `Loader.JoinSnoc` | doh_pipeline/tasks.py:252-253 | joining with one more part appends the separator and that part |
| `Loader.BuildInsertSql` | doh_pipeline/tasks.py:247-254 | the `+=` sequence builds exactly the statement specification |
| `Loader.AppendUpdate` | doh_pipeline/tasks.py:250-254 | the upsert steps append the keyword and the assignments, then drop the last character |
| `Loader.AppendAssignments` | doh_pipeline/tasks.py:252-253 | the loop appends each assignment followed by a comma, in column order |
| `Loader.UpdateSuffixDrop` | doh_pipeline/tasks.py:254 | `sql[:-1]` after the loop leaves the keyword and the comma-joined assignments, or the keyword without its space when there are no columns |
| `Loader.TerminatedDrop` | doh_pipeline/tasks.py:254 | dropping the last character of comma-terminated items removes exactly the trailing comma |
| `Loader.InsertLists` | doh_pipeline/tasks.py:248-249 | the column list splits back into exactly the columns, and the VALUES list into one placeholder per column |
| `Loader.UpdateClause` | doh_pipeline/tasks.py:250-254 | with upsert columns, the statement is the INSERT, the keyword and the clause; the clause splits on commas into one assignment per column, in order, and ends in `)`, not a comma |
| `Loader.UpsertSql` | doh_pipeline/tasks.py:250-254 | with upsert columns, the statement is the INSERT followed by the keyword and the comma-joined assignments |
| `Loader.AssignmentsSplit` | doh_pipeline/tasks.py:252-254 | the comma-joined assignments split back into exactly the assignments and end in `)` |
| `Loader.AssignmentCommaFree` | doh_pipeline/tasks.py:253 | an assignment of comma-free names contains no comma |
| `Loader.JoinLast` | doh_pipeline/tasks.py:254 | a join ends with the last character of its last part |
| `Loader.BatchFoldCovers` | doh_pipeline/tasks.py:256-268 | after any number of rows, the flushed batches followed by the pending rows are exactly the rows read, in order |
| `Loader.BatchFoldSizes` | doh_pipeline/tasks.py:256-268 | after any number of rows: the first batch has one row, every later flushed batch has `batch_size` rows, and `(rows - 1) % batch_size` rows are pending |
| `Loader.BatchesCoverRows` | doh_pipeline/tasks.py:256-272 | concatenating all submitted batches gives every row exactly once, in input order |
| `Loader.BatchSizes` | doh_pipeline/tasks.py:262-272 | the first batch has one row, batches between the first and the last have `batch_size` rows, and no batch is empty or larger than `batch_size` |
| `Loader.FoldStep` | doh_pipeline/tasks.py:260-268 | one loop turn appends the row, then flushes the pending rows exactly when `n % batch_size == 0` |
| `Loader.FlushedPrefix` | doh_pipeline/tasks.py:256-271 | what has been flushed after any number of rows is a prefix of all the batches |
| `Loader.FiveRowsInPairs` | doh_pipeline/tasks.py:262-271 | with `batch_size = 2`, five rows go out as batches of 1, 2 and 2 rows |
| `Loader.ModStep` | doh_pipeline/tasks.py:262 | how `n % batch_size` advances from one row to the next |
| `Loader.SubmittedAppend` | doh_pipeline/tasks.py:265 | the rows submitted by two stretches of calls are those of the first, then those of the second |
| `Loader.SubmittedInserts` | doh_pipeline/tasks.py:265 | the `executemany` calls submit exactly the concatenated batches |
| `Loader.SubmittedNone` | doh_pipeline/tasks.py:244-245 | calls other than `executemany` submit no rows |
| `Loader.SubmittedFramed` | doh_pipeline/tasks.py:242-276 | the truncation before and the commit and close after add no rows to those of the inserts |
| `Loader.PlanSubmitsEveryRow` | doh_pipeline/tasks.py:242-276 | an uninterrupted load submits every input row exactly once, in order |
| `Loader.PlanOrder` | doh_pipeline/tasks.py:242-276 | a load ends with commit then close; with reload the TRUNCATE is the first call, before every insert; without reload nothing is executed besides the inserts |
| `Loader.InsertsSnoc` | doh_pipeline/tasks.py:265 | one more batch adds one `executemany` at the end |
| `Loader.InsertsPrefix` | doh_pipeline/tasks.py:265-271 | the inserts of a prefix of the batches are a prefix of the inserts |
| `Loader.PerformedThen` | doh_pipeline/tasks.py:231-280 | a completed stretch of calls followed by a second stretch performs the two plans in sequence |
| `Loader.PerformedRaised` | doh_pipeline/tasks.py:231-280 | a stretch that raised is an interrupted run of any plan that extends it |
| `Loader.AfterFlush` | doh_pipeline/tasks.py:262-267 | after a flush, the journal holds the inserts of the batches flushed so far, or an interrupted prefix of all inserts if the flush raised |
| `Loader.AfterRemainder` | doh_pipeline/tasks.py:269-272 | the remainder flush completes the inserts of all batches, or interrupts them |
| `Loader.LoadMysqlTask.constructor` | doh_pipeline/tasks.py:222-226 | a reloading task starts without a checkpoint, and a non-reloading task keeps whether it had one |
| `Loader.LoadMysqlTask.Issue` | doh_pipeline/tasks.py:265 | one database call is appended to the journal; it raises exactly when it is call number `failAt` |
| `Loader.LoadMysqlTask.SubmitBatches` | doh_pipeline/tasks.py:256-273 | the loop makes exactly the `executemany` calls of the batches, in order, stopping after the one that raises; when none raises, `n` is the number of lines read |
| `Loader.LoadMysqlTask.Truncate` | doh_pipeline/tasks.py:242-245 | with reload, TRUNCATE and a commit are made, or stop at the call that raises; without reload, nothing is made |
| `Loader.LoadMysqlTask.Finish` | doh_pipeline/tasks.py:275-276 | commit then close, stopping at the call that raises |
| `Loader.LoadMysqlTask.Run` | doh_pipeline/tasks.py:231-280 | the journal is the plan (truncate, inserts, commit, close) up to the call that raises, or all of it; on success `n` is the number of lines and the checkpoint exists; on failure the error names the raising call and the checkpoint is unchanged |
| `Pipeline.WidthsAgree` | doh_pipeline/tasks.py:145-154 | restaurant, inspection and violation lines have 9, 7 and 5 fields, as many as the loading table has columns |
| `Pipeline.LineReadBack` | doh_pipeline/tasks.py:261 | a line written for a record whose values hold no tab or newline is read back as that record's fields, one per table column |
| `Pipeline.LoadedRows` | doh_pipeline/tasks.py:256-261 | loading a file written by the normaliser gives, in order, the fields of exactly the records its rule picked |
| `Pipeline.OneLinePerRestaurant` | doh_pipeline/tasks.py:80-99 | on a file of well-formed data lines grouped by restaurant, the transform does not fail and writes one restaurant line per distinct `camis` |

`Cleaning.Outcomes`, `Normalizer.Values`, `Normalizer.Get`, `Streams.PrevOf`,
`Streams.FieldValues`, `Streams.InspectionKeys`, `Loader.Placeholders`,
`Loader.Assignments`, `Loader.Rows` and `Loader.Inserts` are definitions.
Their meaning is proved by `Cleaning.ParseRecord`, `Normalizer.GetAll`,
`Streams.ScanRecords`, `Streams.RestaurantCount`, `Streams.InspectionCount`,
`Loader.InsertLists`, `Loader.AssignmentsSplit`, `Loader.SubmittedInserts`,
`Loader.PlanSubmitsEveryRow` and `Pipeline.LoadedRows`.

## Definitions

The specification functions the lemmas and methods above are about, each
modelling the cited lines:

| definition | source | defines |
|---|---|---|
| `Text.Join` | doh_pipeline/tasks.py:248-249 | Python's `sep.join(parts)` for a one-character separator |
| `Cleaning.Assemble` | doh_pipeline/tasks.py:103-112 | the dictionary the loop of `parse_line` fills from the element outcomes, in order; the first failing element raises |
| `Cleaning.Parse` | doh_pipeline/tasks.py:102-112 | `parse_line`: the element outcomes against the schema, assembled |
| `Normalizer.Step` | doh_pipeline/tasks.py:91-99 | one turn of the loop of `run`: parse, count, then the restaurant, inspection and violation writes in that order, each done before the next can raise; only a line that gets through all three becomes `prev_parsed_line` |
| `Normalizer.ScanLines` | doh_pipeline/tasks.py:91-99 | the loop of `run` over the data lines, stopping at the first failure |
| `Normalizer.Transform` | doh_pipeline/tasks.py:80-100 | `run`: no header row is a StopIteration; otherwise the header is skipped and the data lines are scanned |
| `Streams.Picked` | doh_pipeline/tasks.py:91-99 | the positions of the records that write a line of one entity |
| `Loader.InsertSql` | doh_pipeline/tasks.py:247-254 | the statement `run` builds: the INSERT, and for an upserting table the update clause after `sql[:-1]` |
| `Loader.BatchFold` | doh_pipeline/tasks.py:256-268 | the batches flushed and the rows pending after the loop has read some rows |
| `Loader.Batches` | doh_pipeline/tasks.py:256-272 | every batch `run` submits: those flushed in the loop, then a non-empty remainder |
| `Loader.Submitted` | doh_pipeline/tasks.py:265 | the rows the `executemany` calls among a sequence of calls submit, in order |
| `Loader.Plan` | doh_pipeline/tasks.py:242-276 | every database call of an uninterrupted load: TRUNCATE and commit when reloading, one `executemany` per batch, then commit and close |
| `Loader.Performed` | doh_pipeline/tasks.py:231-280 | the journal after a plan of calls: all of it, or the calls up to and including the one that raised |

## Left out

- Download of the inspection file (`GetHealthGradeFile`): network I/O with no logic to state.
- Luigi plumbing: `requires`, `output`, `LocalTarget`, the skip of tasks whose output exists, and `UpdateHealthGrades`. Passing `reload` down to the upstream tasks is plumbing as well. `TransformHealthGrades.__init__` deletes the existing output files on reload; the model only notes this, because `run` rewrites the files anyway.
- CSV quoting. The transform takes the rows `csv.reader` yields as sequences of strings. An empty file is the `NoHeaderRow` error of `next(reader)`.
- Logging, and the configuration lookups of the data directory and the database credentials.
- MySQLdb itself: connecting, opening a cursor, parameter escaping and what `ON DUPLICATE KEY UPDATE` does in the database. The database is a journal of the calls `run` makes. A failure is any call that raises, chosen by `failAt`. Failures in `connect` or `cursor` are not modelled.
- The checkpoint file's content (`donzo`): only whether it exists is modelled, and writing it cannot fail.
- `Loader.BatchSize`: `batch_size` is at least 1, as every subclass sets it. A size of 0 would make `n % self.batch_size` raise ZeroDivisionError; that case is not modelled.
- Strings: Python 2 byte strings are modelled as `seq<char>`. There is no encoding.
- `Text.Split`, `Text.Join`: only one-character separators, the only ones the source uses.
- `Streams.DistinctRestaurants`, `Streams.DistinctInspections`: these need input grouped by the key, as the source assumes but never checks. On ungrouped input only `RestaurantCount` and `InspectionCount` (counts of runs) hold.
- The web application under `doh_web` (`server.py` and `models.py`): a presentation layer and ORM declarations, outside the pipeline core.
