# Bank-statement parser generator: a Dafny model

The repository generates a PDF bank-statement parser for one bank and checks it
against a sample CSV.

`agent.py` drives the generation:

- `langgraph_generate_parser` lower-cases the bank name.
- It finds the first sample PDF and CSV in `data/<bank>`, raising `FileNotFoundError`
  when either is missing.
- It reads the CSV header and writes the oracle test `tests/test_<bank>.py` once.
- Then, for at most `MAX_ATTEMPTS` = 3 attempts, it overwrites
  `custom_parsers/<bank>_parser.py` with `PARSER_TEMPLATE` filled in and runs the test.
- It returns at the first passing run and raises `RuntimeError` after three failures.
- The template is filled with a fallback block that `create_fallback_code` builds
  (`textwrap.dedent`, then `textwrap.indent` by four blanks), and with the `repr` of the
  CSV header.
- The oracle compares `_normalize(parsed)` with `_normalize(expected)`.

`icici_parser.py` is one instance of the template. Its `_clean_cell` trims a cell,
deletes `â ‚ ¹ $ ,` and collapses whitespace runs. Its `parse` works as follows:

- It scans pages and tables in order and skips tables of fewer than two rows.
- It tests the header by the first token of each expected name.
- On the first match it coerces the table to exactly `EXPECTED_COLUMNS`.
- Any exception abandons the scan. It then falls back to a regular-expression pass over
  the page texts, and finally yields an empty table.

The model is split into these modules:

| file | module | what it holds |
|---|---|---|
| `text.dfy` | `Text` | Python's whitespace set, `strip`, `split`, `re.sub(r"\s+", " ", _)`, `join`, ASCII `lower`, `str.replace` |
| `frames.dfy` | `Frames` | the DataFrame as a value (column labels and rows of optional strings), with `pd.DataFrame(rows, columns=...)` |
| `textwrap.dfy` | `TextWrap` | `textwrap.dedent` and `textwrap.indent`, with `str.splitlines` |
| `repr.dfy` | `Repr` | `repr` of a string and of a list of strings, and a reader that parses it back |
| `template.dfy` | `Template` | `PARSER_TEMPLATE`, `create_fallback_code` and the `.replace` chain |
| `oracle.dfy` | `Oracle` | `write_test_file`: paths, test text, `_normalize` and the verdict |
| `agent.dfy` | `Agent` | the retry loop, as a `Workspace` class whose methods are proved against the function `Synthesize` |
| `icici_parser.dfy` | `IciciParser` | `_clean_cell` and `parse`, whose imperative loops are proved against the functions `TableStrategy`, `TextStrategy` and `Parsed` |

Everything outside the program is an input:

- the folder listing;
- the CSV header reader (`None` when `read_csv` raises);
- the exit status of each pytest run;
- the PDF engine's per-page tables and texts, each with an explicit failure outcome;
- the regular expression's `findall`.

The loop's file system is a map from paths to `Content`. `Content` records what a
generated file was generated from, and `Render` gives its text. The loop also keeps a
ghost log of its writes and test runs.

## Where the code departs from the design

The model follows the code wherever the repository's design description says otherwise:

- **Header test.** The design calls it a token-prefix match. The code tests whether the
  lower-cased first token occurs anywhere as a substring of the joined header, and
  `IciciParser.AnyTokenInIff` states exactly that.
- **Fallback columns.** The design assigns the three captures positionally and leaves
  the remaining columns empty. The code builds the rows against all expected names, so
  with five names pandas raises a width error, which is swallowed.
  `IciciParser.IciciFallbackNeverFrames` shows that the ICICI fallback never yields a
  frame.
- **Cleaning order.** The design lists cleaning as trim, collapse, then delete the
  symbols. The code trims, deletes, then collapses, so an edge blank can survive
  (`IciciParser.CleanCellKeepsEdgeBlank`).
- **Fallback variants.** The design calls for a different fallback variant on each
  retry. `create_fallback_code` ignores the attempt number, so every attempt writes the
  same parser text (`Agent.SameParserTextEveryAttempt`).
- **Totality.** The design promises that `parse` always returns exactly the schema's
  columns. The code breaks this when a header repeats an expected name (see
  "## Findings").

## Model

| member | source | states |
|---|---|---|
| Agent.GlobFinds | agent.py:120-121 | the glob yields exactly the folder entries that end in the suffix |
| Agent.FirstFound | agent.py:124 | the first entry with the suffix, in listing order, is the first one the glob yields |
| Agent.SamplesAreFirstListed | agent.py:119-124 | the samples are the bank folder's first `.pdf` and first `.csv`, joined to the folder |
| Agent.MissingSamplesChangeNothing | agent.py:120-127 | with no `.pdf` or no `.csv` the call raises `FileNotFoundError` naming the lower-cased bank and folder; it writes and runs nothing |
| Agent.SynthesizeWithSamples | agent.py:124-129 | with samples and a readable CSV, the call writes the test from the samples, then makes the attempts with the CSV header as the columns |
| Agent.TestWrittenFirstAndOnce | agent.py:127-139 | the test file is the first write and is never written again |
| Agent.FirstPass | agent.py:129-142 | the first passing attempt from `k` on, or 4: every attempt before it fails, and it passes |
| Agent.AttemptsStep | agent.py:129-146 | an attempt writes the parser and runs the test; it returns on exit code 0 and goes on to the next attempt otherwise |
| Agent.AttemptsClosedForm | agent.py:129-146 | the attempts end with `Generated(j)` at the first pass `j`, or with `RuntimeError` after the third; they run exactly the rounds up to that point |
| Agent.RoundsAt | agent.py:131-139 | event `2i` of the rounds writes attempt `k+i`'s parser to the one parser path; event `2i+1` runs the test file |
| Agent.RoundsOnlyWriteParser | agent.py:134-139 | inside the loop only the parser path is written, and only the test is run |
| Agent.PassesAt | agent.py:140-142 | if attempt `k` is the first to pass, the loop returns after exactly `k` rounds |
| Agent.FailsThroughout | agent.py:129-146 | if no attempt passes, exactly three rounds run and then the loop gives up |
| Agent.StopsAtFirstPass | agent.py:127-142 | the whole call: the test write, then rounds 1..k, then a normal return after attempt `k` |
| Agent.GivesUpAfterMaxAttempts | agent.py:127-146 | the whole call: the test write, then three rounds, then `RuntimeError` |
| Agent.GaveUpMessageNamesBank | agent.py:146 | the `RuntimeError` message names the bank and the count 3 |
| Agent.GeneratedMeansPassed | agent.py:140-142 | a normal return after attempt `k` means `1 <= k <= 3`, attempt `k` passed and every earlier attempt failed |
| Agent.ApplyRounds | agent.py:134-135 | after `n >= 1` rounds the parser path holds the last attempt's parser and nothing else changed |
| Agent.FilesAfterAttempts | agent.py:127-135 | afterwards the files are the old ones plus the test file and the parser of the last attempt run; every other file is unchanged |
| Agent.SameParserTextEveryAttempt | agent.py:131-133 | the parser file has the same text whichever attempt wrote it |
| Agent.CaseOfTargetIgnored | agent.py:118 | a bank name and its lower-cased form give the same call |
| Agent.PathsUseLowerCasedName | agent.py:118-135 | every write and run names the test path or the parser path of the lower-cased bank |
| Agent.Workspace.WriteTestFile | agent.py:94-114 | writes the test text at `tests/test_<bank>.py` and returns that path; the log gains that one write |
| Agent.Workspace.WriteParser | agent.py:134-135 | overwrites one path and logs the write |
| Agent.Workspace.RunTests | agent.py:138-139 | returns the supplied exit status and logs one run of the test |
| Agent.Workspace.Attempt | agent.py:131-139 | one attempt: the parser path gets this attempt's parser, the log gains one round, and the exit status is returned |
| Agent.Workspace.RunAttempts | agent.py:129-146 | the `for attempt` loop: its exit, its log and its files are those of `Attempts(1, ...)` |
| Agent.Workspace.WriteTestAndAttempt | agent.py:127-146 | the test write, then the loop: exit, log and files as specified |
| Agent.Workspace.GenerateFor | agent.py:119-146 | the call after lower-casing: exit, log and files are those of `SynthesizeFor` |
| Agent.Workspace.GenerateParser | agent.py:117-146 | `langgraph_generate_parser`: exit, log and files are those of `Synthesize` |
| Oracle.TestAndParserPathsDiffer | agent.py:95 | the test file and the parser file never share a path |
| Oracle.PathsSpelled | agent.py:95-98 | `tests/test_<t>.py`, module `custom_parsers.<t>_parser`, file `custom_parsers/<t>_parser.py` |
| Oracle.ImportedModuleIsWrittenFile | agent.py:98 | for a bank name without a dot, the module the test imports is the file the loop writes (agent.py:134) |
| Oracle.TestSource | agent.py:96-112 | the test text imports `parse` from the bank's parser module |
| Oracle.NormalizeCells | agent.py:103-105 | every cell becomes `Some` of its filled, stripped and collapsed text; the labels and the row count are unchanged |
| Oracle.Reindex | agent.py:106 | the named columns in order; a name the frame lacks reads "" in every row |
| Oracle.SetColumn | agent.py:105 | `df[c] = values` replaces column `c` and changes no other cell |
| Oracle.Normalized | agent.py:101-107 | defined exactly when the labels are distinct; then it has the expected columns and every cell present and tidy |
| Oracle.Normalize | agent.py:101-107 | the copy / fillna / per-column loop / reindex method computes `Normalized` |
| Oracle.NormalizeCellIsWords | agent.py:105 | a normalised cell is its words joined by one blank |
| Oracle.NormalizeCellTidy | agent.py:105 | a normalised cell has no whitespace at either end and single blanks inside |
| Oracle.MissingIsEmpty | agent.py:103 | a missing cell compares like "" |
| Oracle.PaddingIgnored | agent.py:105 | whitespace around a value does not change its normal form |
| Oracle.PaddedAmountEqual | agent.py:105 | " 100.00 " normalises like "100.00" |
| Oracle.NormalizeCellIdempotent | agent.py:105 | normalising a cell twice equals normalising it once |
| Oracle.NormalizedIdempotent | agent.py:101-107 | `_normalize` is idempotent for distinct expected names |
| Oracle.SameWordsSameVerdictInput | agent.py:101-111 | tables whose cells carry the same words normalise alike, so the verdict cannot tell them apart |
| Oracle.ExpectedPassesItself | agent.py:111 | the expected table passes against itself |
| Oracle.EmptyParseFails | agent.py:111 | the empty table fails against an expected CSV with at least one row |
| Oracle.ReindexDropsAndFills | agent.py:106 | an expected column the parsed frame lacks reads "" after normalising |
| Template.FallbackIgnoresAttempt | agent.py:69-90 | `create_fallback_code` gives the same text for every attempt number |
| Template.FallbackDedentKeepsMargin | agent.py:70-89 | the fallback literal's first line sits at the left edge, so dedent only empties its blank lines |
| Template.FallbackIndentedByFour | agent.py:90 | the fallback block's lines are the dedented lines, those with text behind four blanks |
| Template.InstantiateShape | agent.py:132-133 | replacing `{fallback_code}` then `{expected_columns}` in a template of this layout puts the fallback and the columns' `repr` in the two places |
| Template.ParserDeclaresColumns | agent.py:131-133 | the generated parser starts with the imports and `EXPECTED_COLUMNS = ` followed by `repr(columns)` |
| Template.ParserCodeShape | agent.py:131-133 | the generated parser is the template with `repr(columns)` and the fallback block in the two places |
| TextWrap.DedentLines | agent.py:70 | `dedent` removes the longest common blank-and-tab margin from each line with text and empties the other lines |
| TextWrap.DedentMarginIsLongest | agent.py:70 | the margin prefixes every line's indentation, and every common prefix of them is a prefix of it |
| TextWrap.DedentIdempotent | agent.py:70 | dedenting twice equals dedenting once |
| TextWrap.IndentLines | agent.py:90 | `indent` prefixes each `splitlines(keepends=True)` line that is not only whitespace and keeps the others |
| TextWrap.OutdentIndent | agent.py:90 | removing the prefix again gives back the original text |
| Repr.ReadStrOfRepr | agent.py:133 | a string's `repr` reads back as that string |
| Repr.ReadListOfRepr | agent.py:133 | `repr(columns)` reads back as exactly `columns`, so `EXPECTED_COLUMNS` is the CSV header |
| Repr.PlainRepr | agent.py:133 | a name of printable characters without quote or backslash, such as `Debit Amt`, appears between single quotes unchanged |
| Text.Strip | icici_parser.py:11 | the result neither starts nor ends with whitespace and is `s` minus whitespace runs at both ends |
| Text.CollapseShape | icici_parser.py:13 | after the `\s+` substitution there are only single plain blanks; it keeps emptiness and a leading blank |
| Text.WordsOfCollapse | icici_parser.py:13 | the substitution keeps the words |
| Text.NormalForm | agent.py:105 | strip then collapse equals `" ".join(s.split())` |
| Frames.FromRows | icici_parser.py:29 | `pd.DataFrame(rows, columns=h)` raises unless the widest row has `len(h)` cells; shorter rows are padded with missing cells |
| Frames.EmptyFrame | icici_parser.py:60 | the empty table has exactly the given columns and no rows |
| IciciParser.RemoveSymbols | icici_parser.py:12 | the result holds none of `â ‚ ¹ $ ,` and every other character of the input |
| IciciParser.CleanCellShape | icici_parser.py:9-14 | `None` cleans to ""; a cleaned cell holds none of the symbols and only single plain blanks |
| IciciParser.CleanCellWords | icici_parser.py:9-14 | a cleaned cell has the words of the raw cell once the symbols are deleted |
| IciciParser.CleanCellKeepsEdgeBlank | icici_parser.py:11-13 | deletion after the trim can leave an edge blank: "$ a" cleans to " a" |
| IciciParser.CleanCellOfWord | icici_parser.py:9-14 | a cell without whitespace or symbols is kept as it is |
| IciciParser.CleanRows | icici_parser.py:26-27 | every cell of every row is cleaned, and the shape is kept |
| IciciParser.AnyTokenInIff | icici_parser.py:28 | when no expected name is blank, the header matches exactly when some name's lower-cased first token occurs in the lower-cased joined header |
| IciciParser.AnyTokenInRaises | icici_parser.py:28 | the test raises exactly when it reaches a blank name before any hit |
| IciciParser.HeaderMatchOfTable | icici_parser.py:26-28 | a table is skipped exactly when no expected name's first token occurs in its cleaned header |
| IciciParser.CoerceRow | icici_parser.py:30-33 | one coerced row: under each expected name, the cell of the first column of that name, else "" |
| IciciParser.Coerce | icici_parser.py:30-33 | the coerced frame has exactly the expected columns, one row per row, and the cell of each name's first column or "" |
| IciciParser.AddColumn | icici_parser.py:32 | `df[col] = ""` appends one column holding "" in every row |
| IciciParser.SelectIsCoerce | icici_parser.py:33 | once every name is a column, the corrected selection (each name's first column) is the coercion `Coerce` |
| IciciParser.ExtendsCoerce | icici_parser.py:30-32 | appending columns the frame lacks does not change the coercion |
| IciciParser.CoerceColumns | icici_parser.py:30-33 | the add-missing-columns loop followed by the corrected selection computes `Coerce` |
| IciciParser.CoerceAsWritten | icici_parser.py:33 | the selection pandas performs keeps one row per row |
| IciciParser.SelectedNamesWiden | icici_parser.py:33 | pandas' selection has at least as many columns as expected names, and more when a name labels two columns |
| IciciParser.DuplicateWidens | icici_parser.py:33 | two columns carrying one expected name widen pandas' selection, while `Coerce` keeps exactly the expected names |
| IciciParser.DuplicateHeaderWidensResult | icici_parser.py:33 | a header with "Date" twice gives more than five columns as written, and five under `Coerce` |
| IciciParser.CoerceAgreesWithoutDuplicates | icici_parser.py:33 | when no expected name labels two columns, pandas' selection is `Coerce` |
| IciciParser.ScanTable | icici_parser.py:25-33 | with the corrected selection, a found frame has exactly the expected columns and one row per data row |
| IciciParser.ScanTables | icici_parser.py:24-35 | with the corrected selection, a found frame has exactly the expected columns |
| IciciParser.ScanPages | icici_parser.py:22-35 | with the corrected selection, a found frame has exactly the expected columns |
| IciciParser.TableStrategy | icici_parser.py:19-37 | with the corrected selection, a found frame has exactly the expected columns |
| IciciParser.RunTableStrategy | icici_parser.py:18-37 | the nested page and table loops, with their early returns and the unread `rows`, compute `TableStrategy` (corrected selection) |
| IciciParser.ScanTablesAppend | icici_parser.py:24-35 | scanning `a + b` is scanning `a`, then `b` only if `a` found nothing |
| IciciParser.ScanPagesAppend | icici_parser.py:22-35 | the same for pages |
| IciciParser.ShortTableIgnored | icici_parser.py:25 | removing a table of fewer than two rows does not change the outcome |
| IciciParser.FirstDecidingTable | icici_parser.py:24-35 | the first table that does not come back empty-handed decides; the earlier and later tables are irrelevant |
| IciciParser.NothingFoundIn | icici_parser.py:34-35 | tables that do not match contribute nothing; their extended rows never reach the result |
| IciciParser.NothingFoundOn | icici_parser.py:22-35 | pages read without a deciding table give nothing |
| IciciParser.FirstDecidingPage | icici_parser.py:22-33 | the first page with a deciding table decides; later pages are never looked at |
| IciciParser.PageErrorAbandons | icici_parser.py:19-37 | an engine error on a page the scan reaches abandons the table strategy, even when a later page holds a matching table |
| IciciParser.MaxWidthOfCleanRows | icici_parser.py:27 | cleaning keeps the widest row's width |
| IciciParser.WidthsFitMax | icici_parser.py:29 | the widths fit exactly when the widest cleaned data row is as wide as the header |
| IciciParser.MatchedTableOutcome | icici_parser.py:28-37 | a matching table yields a frame exactly when its widths fit, and aborts the scan otherwise |
| IciciParser.ScanTableFound | icici_parser.py:26-33 | a found frame is the corrected coercion of the frame built from the cleaned header and rows |
| IciciParser.CoercedRows | icici_parser.py:29-33 | building then coercing, cell by cell: the data cell under the first column of that name, missing past a short row, or "" |
| IciciParser.FoundFrameContents | icici_parser.py:26-33 | a found frame under the corrected selection, cell by cell, in terms of the cleaned header and data rows |
| IciciParser.CleanedData | icici_parser.py:27 | the cleaned data rows are the raw cells through `_clean_cell` |
| IciciParser.CaseOnlyHeaderMatches | icici_parser.py:28 | a header equal to the name up to case passes the header test |
| IciciParser.CaseOnlyHeaderGivesEmptyColumn | icici_parser.py:28-33 | such a header passes, but the frame's column under the name is "" in every row |
| IciciParser.UnnamedColumnBlank | icici_parser.py:28-33 | a one-cell header that passes for `e` but is not `e` gives a frame whose one column is "" |
| IciciParser.UpperCaseHeaderGivesEmptyColumn | icici_parser.py:28-33 | a header "DATE" matches "Date" but yields an empty Date column |
| IciciParser.AbsentColumnBlank | icici_parser.py:30-33 | under an expected name no header column carries, every row holds "" |
| IciciParser.ReadPageTexts | icici_parser.py:43-46 | the page loop gives every page's text, with "" for a page without text, or nothing when the engine fails on a page |
| IciciParser.CaptureAll | icici_parser.py:48-52 | the match loop gives one stripped `[date, desc, amt]` row per match, in order |
| IciciParser.CaptureRowsIndex | icici_parser.py:50-52 | row `i` is built from match `i` |
| IciciParser.TextStrategy | icici_parser.py:40-57 | a fallback frame has exactly the expected columns and at least one row |
| IciciParser.RunTextStrategy | icici_parser.py:40-57 | the fallback block's statements compute `TextStrategy` |
| IciciParser.FallbackOfCaptures | icici_parser.py:47-55 | once every page is read and something matched, the fallback builds its frame from the captured rows under the expected names, or fails with the width error |
| IciciParser.CaptureRowsWidth | icici_parser.py:52 | every captured row has exactly three values |
| IciciParser.IciciFallbackNeverFrames | icici_parser.py:53-57 | under the five ICICI names (icici_parser.py:7) the fallback always meets the width error and never yields a frame |
| IciciParser.IciciWithoutTableIsEmpty | icici_parser.py:36-60 | so for ICICI, without a deciding table the result is the empty table |
| IciciParser.CaptureRowsFrame | icici_parser.py:52-54 | under three names, the captured rows form a frame holding exactly the stripped captures |
| IciciParser.CoerceIdentity | icici_parser.py:55 | coercing a frame with distinct labels to its own labels changes nothing |
| IciciParser.ThreeColumnFallback | icici_parser.py:43-55 | under three distinct names, the fallback yields the stripped captures, one row per match in order |
| IciciParser.Parsed | icici_parser.py:16-60 | `parse` with the corrected selection never raises, and its result always has exactly the expected columns |
| IciciParser.Parse | icici_parser.py:16-60 | the method (table loops, then fallback, then empty table) computes `Parsed`, the corrected `parse` |

## Left out

- The PDF engine (`pdfplumber.open`, `extract_tables`, `extract_text`) is an input: per page, the tables or text, or a failure.
- The regular expression of the fallback (icici_parser.py:49, agent.py:80) is a function parameter from the joined text to the (date, description, amount) triples it captures. Its greedy and backtracking semantics are not modelled.
- The pytest subprocess (agent.py:138-139) is an exit status per attempt, given as a function parameter.
- `pd.read_csv` is a function from the CSV path to its header, or `None` when it raises. Its dtype inference, the float rendering of cells and the dtype sensitivity of `DataFrame.equals` are not modelled: every cell is an optional string.
- `time.sleep`, the logging calls and the import-time `mkdir` calls (agent.py:21-22) have no effect on files or results.
- `run_streamlit`, `importlib` loading and `main` (agent.py:149-198) are user interface and dispatch.
- Concurrent runs for the same bank are not modelled; the last writer of the parser file wins.
- `Text.Lower`: maps only ASCII letters, unlike Python's full Unicode `str.lower()`.
- Agent: the file system holds, for each generated file, the arguments it was generated from (`Content`). Its text is `Render` of that, and `Template.ParserCode` and `Oracle.TestSource` give those texts.
- Template.ParserCodeShape: two facts about the literal text are hypotheses rather than proved, because checking them character by character over the long literals is beyond the solver's budget. They are that the template's middle part (agent.py:31-62) holds no `{`, and that every `{` of the fallback literal (agent.py:70-89) opens a repetition count such as `{1,2}`.
- IciciParser.SelectIsCoerce: proves only that the corrected selection (each expected name's first column) equals `Coerce`. pandas' `df[EXPECTED_COLUMNS]` (icici_parser.py:33) keeps every column carrying an expected name; that selection is `CoerceAsWritten`, which widens on a repeated name (`SelectedNamesWiden`, `DuplicateHeaderWidensResult`) and agrees with `Coerce` when no expected name repeats (`CoerceAgreesWithoutDuplicates`). See "## Findings".
- IciciParser.Select: is the corrected selection, not pandas' widening one, for the reason given for `SelectIsCoerce`.
- IciciParser.CoerceColumns: ends with the corrected selection, so it does not reproduce the widened result of a header that repeats an expected name.
- IciciParser.ScanTable: coerces a found frame with the corrected selection; when the header repeats an expected name, the code as written returns more columns (`DuplicateHeaderWidensResult`).
- IciciParser.ScanTableFound: states the found frame as the corrected coercion `Coerce`, not pandas' selection `CoerceAsWritten`.
- IciciParser.FoundFrameContents: gives the cells of the corrected coercion, each name's first column, not every column carrying the name.
- IciciParser.ScanTables: inherits the corrected selection from `ScanTable`, so "exactly the expected columns" holds of the corrected code only.
- IciciParser.ScanPages: inherits the corrected selection from `ScanTable`, as `ScanTables` does.
- IciciParser.TableStrategy: inherits the corrected selection from `ScanTable`, as `ScanTables` does.
- IciciParser.RunTableStrategy: computes `TableStrategy`, so it uses the corrected selection too.
- IciciParser.Parsed: models `parse` with the corrected selection; the code as written breaks "exactly the expected columns" when a matching header repeats an expected name.
- IciciParser.Parse: computes `Parsed`, so it uses the corrected selection too.
- Repr.StrRepr / Repr.PlainRepr: unassigned code points (general category Cn) are written unescaped, while Python escapes them; telling them apart needs the Unicode character database, which is not modelled. Controls, whitespace, format and private-use characters are escaped as Python does.
- Paths: every path in the model (`Agent.DataFolder`, `Oracle.TestPath`, `Oracle.ParserPath`, the PDF and CSV paths) is relative to the project root. The code builds them on `ROOT`, the resolved directory of agent.py (agent.py:15-18), so the absolute `pdf_path` and `csv_path` embedded in the test text (agent.py:98, 110) and the folder named in the `FileNotFoundError` message (agent.py:122) carry that prefix, which the model leaves out.
- Oracle.Normalized: repeated column labels make `df[c].str` fail. This is modelled as `None`, that is, a failing test, without distinguishing which exception is raised.
- `Frames.FromRows`: pandas' other constructor errors (non-list rows, mixed types) cannot arise from lists of strings and are not modelled.

## Findings

| source | as written | input that shows it | evidently intended | confidence | as-written member | corrected member |
|---|---|---|---|---|---|---|
| icici_parser.py:33 | `df[EXPECTED_COLUMNS]` selects every column whose label equals an expected name, so a cleaned header that carries an expected name twice gives a result with more columns than `EXPECTED_COLUMNS` | a matching table whose cleaned header is `Date, Date, Description, Debit Amt, Credit Amt, Balance` | exactly the expected columns, each taken from the first column of that name | medium, not executed | IciciParser.DuplicateHeaderWidensResult | IciciParser.CoerceAgreesWithoutDuplicates |

The table strategy of the model uses `IciciParser.Coerce`: one column per expected name,
from the first column of that name. `IciciParser.CoerceAsWritten` is pandas' selection,
and `IciciParser.CoerceAgreesWithoutDuplicates` proves that the two agree whenever no
expected name labels two columns.
