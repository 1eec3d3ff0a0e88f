# Budget tracker: a verified model of its ingestion, classification and reports

This project models in Dafny the core of a small C budget tracker. The tracker keeps a
bank's card transactions in an SQLite database and reports spending against yearly
budgets. The model covers:

- **The CSV importer** (`import_csv` in `import.c`, and its earlier copy in
  `budget_tracker.c`). `fgets` cuts the export into lines. `sscanf` picks out the quoted
  date, charge and description. `strptime`/`strftime` rewrite the date from
  `MM/DD/YYYY` to `YYYY-MM-DD`. Credits are skipped. The `(date, charge, description)`
  key is looked up, and each line is then inserted with a category, left alone, or (in
  overwrite mode) has only its category rewritten. An existence check that cannot be
  prepared skips the line; a failed insert or update ends the import.
- **The rule-based classifier** (`get_category_id` in `budget_tracker.c`). The first
  category whose regular expression matches wins. Otherwise a numbered menu lets the
  operator pick a category, create one, or skip.
- **The external classifier** (`get_category_id` in `category.c`). It assembles the
  prompt from the LEFT JOIN of categories and examples, applies the 4096-byte guard,
  and resolves the model's reply to a category id by exact label. The file also holds
  the category upsert (`create_category`) and the `strtok` loader of comma-separated
  examples (`create_category_examples`).
- **The reports** (`report.c`, and the earlier copies in `budget_tracker.c`):
  - the yearly budget report, optionally excluding categories;
  - the monthly budget report;
  - the spend report over an inclusive date range, grouped by category label, year or
    month.

The SQLite tables become the fields of a `Store.Ledger` object: sequences of
transactions, categories and examples, and a map of budgets per year.
`Store.ValidDb` is the invariant the importer keeps:

- no two transactions share a key;
- each date is what strftime writes for a valid date (`YYYY-MM-DD`, with the year
  written without padding);
- only charges that `Csv.ParseCharge` reads as a debit or zero are stored;
- category ids are positive and ascending, and labels are unique.

Each SQL statement is modelled by its meaning: an append, an update of matching rows,
or a filter and a sum. The importer, the classifiers' loops, the prompt assembly, the
examples loader and the report's output loop are methods. Each is proved equal to a
function that specifies it, and the properties of the source are lemmas about those
functions. Amounts are `real`, so `budget / 12` and `budget - |spend|` are exact.

Modules, one concern each:

- `Common`: options, decimal digits and `%d`/`%0wd` text.
- `Dates`: `strptime`/`strftime`.
- `Csv`: `fgets`, `sscanf`, `atof`.
- `Store`: the tables and their statements.
- `Rules`: `budget_tracker.c`'s classifier.
- `Assistant`: `category.c`.
- `Import`: both `import_csv`s.
- `Grouping`: `SUM .. GROUP BY`.
- `Reports`: the reports.

## Model

| member | source | states |
|---|---|---|
| Dates.ParseUsDate | import.c:52 | strptime with `%m/%d/%Y` accepts only a month in 1..12, a day in 1..31 and a year in 0..9999 |
| Dates.NormalizeFormatted | import.c:50-54 | a zero-padded `MM/DD/YYYY` date is read back to its own month, day and year, and the stored key is what strftime writes for it: `YYYY-MM-DD` with month and day padded and the year unpadded |
| Dates.IsoRoundTrip | import.c:53-54 | what strftime writes for a valid date is canonical (length 10, digit groups, month and day in range) exactly when the year has four digits, and then it reads back to the same date |
| Dates.IsoUnique | import.c:53-54 | a canonical text with a four-digit year is what strftime writes for the date it denotes; one whose year is below 1000 is written for no date |
| Dates.WrittenDateUnique | import.c:53-54 | two valid dates for which strftime writes the same text are the same date, so the stored date key is unique per date |
| Dates.TwoDigitYear | import.c:52-54 | the bank date `01/05/24` is read as 5 January of year 24 and stored as `24-01-05`, which is not a canonical date |
| Dates.GetNumberOfPad | import.c:52 | strptime's number reader takes exactly the n digits of a zero-padded in-range field and stops after them |
| Csv.ReadLines | import.c:45-46 | each line fgets returns holds 1 to 255 characters, with a newline only as its last character |
| Csv.ReadLinesCover | import.c:45-46 | the lines fgets returns, put back together, are the whole file: nothing is lost or repeated |
| Csv.ParseLine | import.c:47-48 | when sscanf assigns all three fields, the date has 1..10 characters, the charge 1..19, the description 1..255, and none holds a double quote |
| Csv.ParseFormatted | import.c:48 | on a line in the export's layout, sscanf recovers exactly the date, charge and description written into it |
| Csv.ChargeRoundTrip | import.c:57 | the charge text the bank writes for an amount in cents (`-20.00`, `1234.05`) is read back as exactly that amount |
| Csv.ParseRecord | import.c:46-54 | every line the importer acts on carries a date that strftime writes for a valid date, and a 1..255-character description |
| Csv.RecordOfFormattedLine | import.c:46-54 | a line in the export's layout becomes the record with the date rewritten as strftime writes it (`YYYY-MM-DD`, year unpadded), the charge read as a number and the description kept |
| Csv.TextsQuoteFree | import.c:48 | the bank's date and amount texts contain no double quote, so sscanf's quoted conversions read them whole |
| Store.NextId | budget_tracker.c:89 | the id a new category row receives is at least 1 and above every existing id |
| Store.InsertCategory | budget_tracker.c:81-90 | a plain category insert fails exactly when the label is taken; otherwise it appends one row with the next id |
| Store.InsertKeepsValid | budget_tracker.c:81-90 | a successful insert keeps ids ascending and labels unique |
| Store.UpsertEffect | category.c:185-186 | after the upsert, exactly one category has the label and it has the new description; an existing one keeps its id and pattern, a new one is appended; all other categories are untouched and labels stay unique |
| Store.Ledger.Upsert | category.c:174-198 | `create_category` replaces the category table with the upsert's result and keeps the store valid; the other tables are unchanged |
| Store.SetCategoryKeepsKeys | import.c:98 | the overwrite UPDATE keeps the row count and every row's date, charge and description, so no key appears or disappears and distinct keys stay distinct |
| Store.Ledger.SetBudget | budget_tracker.c:301-302 | after `set_budget(y, a)` the budget for y is a, every other year's budget is as before, and no other table changes |
| Store.Ledger.AddCategory | budget_tracker.c:81-90 | the new-category insert returns the new id and appends the row, or returns -1 and changes nothing when the label is taken |
| Store.Ledger.AddExample | category.c:256-257 | an example insert appends exactly one row and changes no other table |
| Store.Ledger.AddTransaction | import.c:86-87 | a transaction insert appends exactly one row and changes no other table |
| Store.Ledger.UpdateCategory | import.c:98-99 | the UPDATE rewrites the category of the rows with the key, and changes no other table |
| Store.Listed | budget_tracker.c:54 | the menu's query lists every category exactly once (a permutation of the table), in label order, as SQLite reads it from the label's UNIQUE index |
| Rules.FirstMatch | budget_tracker.c:26-46 | the pattern phase picks the first category, in listing order, whose pattern is not NULL, compiles and matches; none before it does; it finds none exactly when no category qualifies |
| Rules.MatchSkipsMenu | budget_tracker.c:50 | when some pattern matches, the first such category's id is returned, no menu is shown and no category is created |
| Rules.MenuChoices | budget_tracker.c:54-100 | after no match: a choice k in 1..n gives the id of the k-th category in label order, the order the menu's query lists them; n+1 inserts the entered label and gives the new id, or -1 if the insert fails; any other number (n+2, "skip", included) gives -1; only n+1 changes the table |
| Rules.MenuListsByLabel | budget_tracker.c:54-70 | the menu counts in label order, not in insertion order: with "Other" (id 1) and "Dining" (id 2), choice 1 gives Dining's id 2 |
| Rules.NewLabel | budget_tracker.c:75-79 | the new label is at most 255 characters and holds no newline |
| Rules.StripNewline | budget_tracker.c:79 | the label is the entered text up to its first newline |
| Rules.ClassifyResult | budget_tracker.c:11-104 | the classifier returns -1 or the id of a category in the table afterwards; the table stays valid and either is unchanged or gains one category, with the entered label, whose id is the result |
| Rules.ClassifyInteractive | budget_tracker.c:11-104 | the three loops (pattern pass in table order, menu listing and count to the choice in label order) compute exactly the classifier's result and table; transactions, examples and budgets are untouched |
| Assistant.ExamplesOf | category.c:61 | the examples the LEFT JOIN pairs with a category are exactly the texts of the examples whose category_id is its id |
| Assistant.AssemblePrompt | category.c:69-89 | the prompt loop leaves categories_part and examples_part as their headers followed by each joined row's lines, in row order |
| Assistant.CategoryLinesOfJoin | category.c:61-83 | because of the LEFT JOIN, each category with a description contributes its `- label: description` line once per example it has, and once when it has none |
| Assistant.ExampleLinesOfJoin | category.c:61-89 | examples_part lists every example of an existing category exactly once, category by category; examples of no category are left out |
| Assistant.LabelId | category.c:144-153 | the reply resolves to -1 exactly when no category has that exact label, and otherwise to the id of a category with that label |
| Assistant.LabelIdExact | category.c:144-153 | with unique labels, a category's own label resolves to its own id |
| Assistant.ExternalClassify | category.c:43-163 | the external classifier returns -1, 0 or the id of an existing category; 0 only when the API key is set and the request is at least 4096 characters |
| Assistant.ExternalExits | category.c:48-162 | without an API key the result is -1 whatever the database and the service do; with a key, a failed curl_easy_init or a category query that cannot be prepared gives -1; otherwise a request of 4096 characters or more gives 0, not -1, whatever the service would answer, and a fitting request whose transfer fails or whose reply has no content gives -1 |
| Assistant.ExternalReply | category.c:144-153 | when the request fits, a reply equal to a category's label gives that category's id, and any other reply gives -1 |
| Assistant.ClassifyExternal | category.c:43-163 | the imperative classifier (prompt loop, length guard, lookup) returns exactly the external classifier's result and changes nothing |
| Assistant.Tokens | category.c:254-267 | every token strtok returns for ',' is non-empty and comma-free |
| Assistant.TokensCover | category.c:254-267 | the tokens, put together in order, are the input with its commas removed, so only delimiters are lost |
| Assistant.TokensOfJoin | category.c:254-267 | splitting comma-joined non-empty, comma-free examples gives them back in order |
| Assistant.NextToken | category.c:254-267 | one strtok call skips delimiters and returns the next token, or reports that none is left |
| Assistant.InsertedStop | category.c:260-265 | the loader inserts up to the first failing insert and stops there |
| Assistant.AddedExamplesShape | category.c:254-268 | every example added is non-empty and comma-free, belongs to the given category, and the added texts are the input's leading tokens in input order; with no failure they are all of them |
| Assistant.CreateCategoryExamples | category.c:244-272 | the strtok loop appends exactly those examples, keeps the ones written before a failure, and touches no other table |
| Import.ClassifyWith | import.c:83 | the classifier the importer is linked with keeps the store valid and leaves transactions, examples and budgets unchanged |
| Import.ImportLine | import.c:46-107 | one line keeps the store valid, in particular free of duplicate keys |
| Import.ImportFrom | import.c:62-80 | the store has no duplicate keys after the import if it had none before, even when the file repeats a line |
| Import.CreditSkipped | import.c:56-60 | a line with a positive charge changes nothing, whatever the classifier and the faults |
| Import.FreshLineInserted | import.c:80-94 | a line whose key is new is inserted once, after the existing rows; its category is 1 for a zero charge and otherwise the classifier's result, -1 included |
| Import.ExistingLine | import.c:95-106 | a line whose key exists changes nothing without overwrite; with overwrite only the matching rows' category changes, and row count and keys stay |
| Import.LineKeepsRows | import.c:80-107 | after any line the earlier rows keep their place and key; without overwrite they are untouched |
| Import.LineUnchanged | import.c:80-95 | without overwrite, a line that does not import or whose key is stored changes nothing |
| Import.FaultEffects | import.c:68-106 | a failed existence check skips only its line; a failed insert or update ends the import, and what was written before it stays |
| Import.RowsKept | import.c:46-108 | over the whole loop the stored rows keep their place and key; without overwrite they are not touched at all |
| Import.AllKeysStored | import.c:80-94 | without faults, every importable line's key is stored at the end, also when the file repeats the line |
| Import.ReimportUnchanged | import.c:80-107 | without overwrite, a file whose importable lines are all stored leaves the store exactly as it was, whatever the classifier, operator, service and faults |
| Import.ImportIdempotent | import.c:11-112 | importing the same file again without overwrite, after a first import without faults, leaves the store unchanged |
| Import.ClassifyLine | import.c:83 | the linked get_category_id, run on the ledger, matches the importer's classification function |
| Import.ImportOne | import.c:47-107 | the loop body on one parsed line performs exactly the line's effect and returns whether the loop breaks |
| Import.NextChunk | import.c:46 | one fgets call returns the next line and leaves the rest of the file to be read |
| Import.ImportNext | import.c:46-107 | one turn of the loop reads the next line and performs exactly its effect |
| Import.ImportCsv | import.c:11-112 | the importer's loop over the file's text leaves the store valid and equal to the line-by-line import of the file's readings |
| Import.ImportCsvInteractive | budget_tracker.c:195-286 | the older importer (interactive classifier, no overwrite) is that import; since a line whose key exists is always skipped, every existing transaction keeps its place and contents |
| Grouping.GroupTotal | report.c:158-173 | grouping keeps the total: the group sums add up to the sum of the grouped charges |
| Grouping.GroupShape | report.c:158-173 | the grouped rows have distinct keys, exactly the keys that occur, and each carries the sum of the charges with its key |
| Grouping.RunningTotal | report.c:189-197 | the output loop's total_spend is the sum of the listed group sums |
| Reports.ReportBudget | report.c:31-40 | the yearly report says "no budget" exactly when the year has no budget row, and then computes no spend; the earlier report_budget of budget_tracker.c, which has no exclusion list, is the case without one |
| Reports.BudgetRemaining | report.c:43-69 | with a budget, the spend is the sum of the year's charges outside the excluded categories, it is at most zero, and remaining = budget − abs(spend) = budget + spend (without exclusions, also the earlier report in budget_tracker.c) |
| Reports.ExclusionSplit | report.c:43-50 | the unfiltered yearly total is the filtered total plus the total of the year's transactions in the excluded categories |
| Reports.ExclusionRaisesRemaining | report.c:43-69 | excluding categories can only leave more of the budget remaining |
| Reports.YearTextMatch | report.c:50 | a date text is counted in `year` exactly when SQLite can read it (a `YYYY-MM-DD` text), its year is `year` and `year` has four digits (SQLite writes four digits, `%d` does not); so a stored date whose year is below 1000 counts in no year |
| Reports.ReportBudgetAsWritten | report.c:49-58 | as written, with an exclusion list the spend query names an undefined table alias, so only the budget is reported |
| Reports.ExclusionLostAsWritten | report.c:49-58 | for any exclusion list and a year with a budget, the as-written report loses the spend that the corrected report shows |
| Reports.AsWrittenWithoutExclusion | report.c:43-50 | without an exclusion list the as-written and the corrected reports agree |
| Reports.LeadingYear | report.c:85-86 | sscanf `%d` on a `YYYY-MM` month reads its year |
| Reports.ReportBudgetMonth | report.c:85-134 | the monthly report needs a leading integer; it says "no budget" exactly when that year has no budget, and otherwise reports budget/12, the spend of the dates SQLite places in the month and budget/12 − abs(spend) |
| Reports.SqlMonthPlacement | report.c:115 | SQLite counts a date in its own `YYYY-MM` exactly when its day exists in that month; a day past the month's end counts in the following month of the same year |
| Reports.AprilThirtyFirst | report.c:115 | the stored date `2024-04-31` counts in `2024-05` |
| Reports.MonthRemaining | report.c:101-134 | for a `YYYY-MM` month with a budget: the monthly budget is the yearly one over 12, the spend is the sum of the charges SQLite places in that month (see Reports.SqlMonthPlacement) and at most zero, and remaining = budget/12 + spend (the same for the earlier copy in budget_tracker.c) |
| Reports.AggregationOf | report.c:158-178 | NULL groups by category, "yearly" by year, "monthly" by month, and every other value is rejected |
| Reports.ReportSpend | report.c:174-178 | the spend report fails exactly when the aggregation is not NULL, "yearly" or "monthly" (as in the earlier copy in budget_tracker.c, which has no exclusion) |
| Reports.CategoryName | report.c:160-161 | the inner join gives a transaction a label exactly when some category has its id |
| Reports.EntryKeys | report.c:158-173 | a key is listed exactly when some transaction with start ≤ date ≤ end (text order, inclusive), not excluded and kept by the join, carries it |
| Reports.EntriesTotal | report.c:158-173 | the grouped rows add up to the charges of the selected transactions the grouping keeps |
| Reports.AggregatedTotal | report.c:164-173 | by year or by month no transaction is dropped: the group sums add up to the range's total spend |
| Reports.CategoryReportMissesOrphans | report.c:158-163 | by category, the group sums add up to the range's spend minus exactly the spend of transactions whose category id names no category (such as -1) |
| Reports.ReportRows | report.c:158-173 | each reported row is one key, listed once, with the sum of the selected charges carrying that key |
| Reports.SpendReportTotal | report.c:189-197 | the report's output loop runs over the grouped rows, and its running total is their sum (the same loop as in budget_tracker.c) |

## Left out

- SQLite plumbing is not modelled: opening, preparing, stepping, finalizing, the `CREATE TABLE`, and the failures of open and exec outside the loops. Each statement is modelled by its meaning on the in-memory tables.
- Statement failures the importer reacts to are inputs: `Faults` lists the lines whose existence check or write fails. The failures of the category query and of the external service are per-line `Outside` values.
- File and console I/O is left out. The file is its text. The operator's menu number and new label are an `Answer`, and the printed messages are not modelled.
- The POSIX regex engine is left out. `Rules.Regex` gives, as two abstract functions, whether a pattern compiles and whether it matches.
- curl, the HTTP exchange, json-c and `WriteCallback` are left out. The reply's message content is an input, and a reply without usable content is `None`.
- Floating point is left out: `REAL` columns, `atof`, `fabs` against `fabsf`, the `%f` in `set_budget`, and `%.2f` rounding. Amounts are exact reals.
- Csv.ParseCharge: reads only plain decimal numerals with an optional sign. It does not model exponents or hexadecimal forms, and a line whose charge is anything else is skipped.
- Csv.ParseCharge: the source splices the charge into its SQL unquoted (import.c:63 and 86), so SQLite evaluates it as an expression. Texts such as `-20.00 ` (a trailing blank), ` -20.00`, `- 20.00` and `(20.00)` are accepted by atof and SQLite, but the model skips their lines. For `(20.00)` atof gives 0, so the source stores the credit +20.0 with category 1; the model's "only debits and zero charges" invariant does not cover that case.
- Import.ImportLine: a failed `sqlite3_step` of the existence check (import.c:74-77) leaves `exists` at 0, so the source inserts the line even when its key is stored, which can duplicate the key. The model's only existence-check fault is a failed prepare (import.c:68-72), which skips the line. The no-duplicate-key results (Import.ImportLine, Import.ImportFrom) rely on that.
- Import.FaultEffects: covers an existence check that cannot be prepared, not one whose step fails (see the line above).
- Csv.ParseLine: a Dafny `char` stands for one byte of the C text, and the model does no decoding. The 255-byte `fgets` line, the `%10`/`%19`/`%255` field widths, the 255 bytes of Rules.NewLabel and the 4096-byte request guard of Assistant.ExternalClassify all count bytes; a UTF-8 text must be given byte by byte.
- Import.ImportLine: a line that sscanf or strptime cannot fully read is skipped. The source goes on with uninitialised buffers there, which is undefined behaviour.
- Store.NextId: the rowid of a new category is one above the largest id. This is SQLite's rule while no row has held a larger id.
- Store.InsertCategory: the only failure modelled is the UNIQUE constraint on the label.
- Assistant.ExternalClassify: the second failure to prepare the category query (category.c:147) is folded into a reply naming no category, which also gives -1.
- Assistant.ExternalClassify: does not model the unchecked `strcat` into the 2048-byte `categories_part` and `examples_part` buffers (category.c:78-87). The model's parts grow without bound.
- Dates.ParseUsDate: day overflow is not normalised when storing (31 February is stored as `YYYY-02-31`), as with the source's direct use of strftime on the unnormalised `tm`. The reports then read such a date as SQLite does (Reports.SqlMonthPlacement).
- Reports.ReportBudgetMonth: a month text with no leading integer gives `None`. The source then reads an uninitialised `year`.
- Reports.ReportBudgetMonth: a single quote inside the month text would change the spliced SQL. This is not modelled.
- Reports.ReportSpend: report.c:162-173 passes two arguments to a format with three `%s`, which is undefined behaviour. The model applies the exclusion list as evidently intended.
- Reports.ReportSpend: a single quote inside the range bounds would change the spliced SQL. This is not modelled.
- Reports.ReportSpend: rows are listed in the order their keys first appear, where SQLite lists them in GROUP BY order. Totals and per-key sums do not depend on the order.
- Reports.YearTextMatch: SQLite's date functions also read other texts (a time of day after the date, Julian day numbers). The model reads only `YYYY-MM-DD` texts and gives NULL for the rest, which covers every date the importer stores.
- Reports.ReportSpend: a year or month group whose date SQLite cannot read has a NULL key. The model keys it by the empty text; how report.c prints a NULL label is not modelled.
- Import.ImportCsv: the classifier mode (`Classifier`) and the outside world are parameters. Which `get_category_id` is linked is a build choice in the source.
- The command-line parsing in `main` (budget_tracker.c:434-474) is not modelled, and neither is `category_list`. The latter only prints.
- budget_tracker.c's `create_category` with a regex (budget_tracker.c:106-128) is not part of this model. The classifier's new-category insert uses the same `Store.InsertCategory`.
- The Python files of the repository are not part of this model.

## Findings

| source | as written | input that shows it | evidently intended | confidence | as-written member | corrected member |
|---|---|---|---|---|---|---|
| report.c:43-50 | the exclusion clause appended to the yearly spend query is `AND t.category_id NOT IN (..)`, but the query reads `transactions` with no alias `t`, so SQLite cannot prepare it | `report_budget(2024, "5")` with a budget for 2024: the budget is printed, then "Failed to fetch total spend" and no spend or remaining budget | the spend of 2024 outside category 5 and the remaining budget | high, from SQLite's name resolution; not executed | Reports.ExclusionLostAsWritten | Reports.ExclusionRaisesRemaining |
