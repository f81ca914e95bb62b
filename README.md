# Amazon Sales data-quality validation, modelled in Dafny

This project models the validation engine of a small data-quality pipeline
for an Amazon Sales dataset. The engine has two layers, and the pipeline
combines their verdicts:

- **The record layer** (`src/pydantic_validation.py`) works row by row:
  - It reads each row into an `AmazonOrder`. `_safe` turns null and NaN into
    absent values, and `str(_safe(x) or "")` turns absent or falsy text into `""`.
  - It runs the eight field validators on the order.
  - It collects one field error per failing field, tagged with row number
    `index + 2`.
  - It summarises: invalid rows are the distinct row numbers among the errors,
    valid rows are the total minus the invalid rows, and the run succeeds iff
    there are no errors.
- **The aggregate layer** (`src/ge_validation.py`, and its earlier copy, the
  script `ge_validation.py`) works column by column:
  - It declares a catalog of accepted values.
  - It grows a suite of nine column expectations, one `add_expectation` at a
    time.
  - It hands the suite to its validation library.
  - It splits the library's per-expectation results into `passed` and `failed`,
    keeping their order. Missing keys get their defaults.
- **The pipeline** (`dq_pipeline.py`) passes only when both layers pass.

Modules:

- `Wrappers` holds `Option`.
- `RecordValidation` is the record layer:
  - raw cells and rows, the value sets and the date pattern;
  - Python's `str.strip` and `re.match` with `^…$`;
  - normalisation, the field checks and per-row errors;
  - the dataset fold and the summary;
  - the row loop, as a method.
- `Expectations` holds the library shapes the aggregate layer uses:
  - expectation declarations;
  - the suite, a class whose `AddExpectation` appends to its list;
  - the optional-keyed result dictionaries.
- `AggregateValidation` is the packaged aggregate layer.
- `StandaloneValidation` is the standalone script. It has its own catalog, suite
  and per-result entry, each proved equal to the packaged one. Its
  `process_results` loop is proved to yield the packaged summary.
- `Pipeline` combines the two verdicts.

The library's run of a suite over a data frame is a function parameter,
`validate: (seq<Expectation>, seq<Row>) -> SuiteResult`. Both layers are given
the same rows. The library's internals are not part of this model.

## Model

| member | source | states |
|---|---|---|
| RecordValidation.Safe | src/pydantic_validation.py:127-133 | absent exactly for a missing value, `None` or NaN; any other value unchanged |
| RecordValidation.TextOf | src/pydantic_validation.py:157-164 | the text of a field is `""` exactly for a missing column, `None`, NaN, `""` or the falsy number 0; a string cell is kept as it is |
| RecordValidation.MissingIsEmpty | src/pydantic_validation.py:157-161 | a missing text column, a null, a NaN and an empty string yield the same order |
| RecordValidation.ReadAlike | src/pydantic_validation.py:156-165 | rows that agree on every other column and read one text column to the same string yield the same order |
| RecordValidation.DefaultsForMissingNumbers | src/pydantic_validation.py:162-163 | a missing Qty column reads as 0, which passes; the amount is absent exactly when missing, null or NaN, which passes; a numeric amount is kept |
| RecordValidation.StripEmptyIff | src/pydantic_validation.py:71 | `strip()` leaves `""` exactly when every character is Python whitespace |
| RecordValidation.OrderIdValidIff | src/pydantic_validation.py:68-73 | the order id passes exactly when it has a non-whitespace character, so `""` and all-space ids fail |
| RecordValidation.MatchesToEndIff | src/pydantic_validation.py:49 | `^pat$` matches exactly a string of the pattern's width, or one more ending in a newline, with every position matching |
| RecordValidation.DateValidIff | src/pydantic_validation.py:75-80 | a date passes exactly when it is digit digit `-` digit digit `-` digit digit, optionally followed by one newline |
| RecordValidation.DateExamples | src/pydantic_validation.py:75-80 | `04-25-22` passes; `invalid-date`, `4-25-22`, `04/25/22` and `04-25-2022` fail |
| RecordValidation.MembershipExamples | src/pydantic_validation.py:82-122 | status, fulfilment, currency and country membership is exact and case-sensitive |
| RecordValidation.QtyRead | src/pydantic_validation.py:162 | a numeric Qty is taken as it is and a text Qty as `int()` parses it: `int()`'s own surrounding whitespace skipped, then a signed run of at most 4300 ASCII digits (the interpreter's default limit) |
| RecordValidation.QtyCellsReadable | src/pydantic_validation.py:162 | a null, a NaN or non-integer text in Qty (`abc`, `3` after U+001C, or 4301 digits) is a row the layer cannot read (`int()` raises); integer text such as ` -1 ` and numbers are readable |
| RecordValidation.IntTextRoundTrip | src/pydantic_validation.py:162 | `int()` reads back the text `str` gives any integer of at most 4300 digits, beyond which `str` itself raises |
| RecordValidation.IntTextDigitLimit | src/pydantic_validation.py:162 | `int()` converts a run of 4300 digits and refuses one of 4301 |
| RecordValidation.IntTextAccepts | src/pydantic_validation.py:162 | `int()` accepts `3`, ` -1 ` and `+12` as 3, -1 and 12 |
| RecordValidation.IntTextRejects | src/pydantic_validation.py:162 | `int()` rejects empty and blank text, a lone sign, `abc`, `3.0`, and `3` after U+001C, which `strip()` would remove |
| RecordValidation.IntTextSkipsNonAsciiSpace | src/pydantic_validation.py:162 | `int()` skips non-ASCII whitespace such as U+00A0 and U+3000 around the digits |
| RecordValidation.NumberChecks | src/pydantic_validation.py:103-115 | Qty fails exactly below 0; an amount fails exactly when present and below 0 |
| RecordValidation.NatTextRoundTrip | src/pydantic_validation.py:157 | the decimal text `str` gives a number reads back as that number |
| RecordValidation.FieldsListed | src/pydantic_validation.py:57-64 | the field list names each of the eight fields exactly once |
| RecordValidation.FieldErrorsSpec | src/pydantic_validation.py:166-175 | one error for each failing field of a list and none for a passing one, each carrying the row number and the field's input; no field twice |
| RecordValidation.RowErrorsSpec | src/pydantic_validation.py:154-175 | a row raises no error exactly when all eight checks pass; otherwise one error per failing field, each tagged with the row number and the input |
| RecordValidation.SingleFailingField | src/pydantic_validation.py:166-175 | a row whose only failing field is `f` raises exactly one error, for `f` |
| RecordValidation.PerRowErrorsTagged | src/pydantic_validation.py:170 | every error of row `i` carries row number `i + 2` |
| RecordValidation.FlattenInRowOrder | src/pydantic_validation.py:154-175 | appended errors carry numbers of existing rows, in non-decreasing row order |
| RecordValidation.FlattenOfRow | src/pydantic_validation.py:154-175 | the appended errors tagged with row `i`'s number are exactly row `i`'s errors; a valid row contributes nothing |
| RecordValidation.RowsWithErrors | src/pydantic_validation.py:178 | the number of rows that raised an error is at most the number of rows |
| RecordValidation.DistinctRowsAreRowsWithErrors | src/pydantic_validation.py:178 | the distinct row numbers among the errors count the rows that raised an error, and there are no more of them than errors |
| RecordValidation.FlattenEmptyIff | src/pydantic_validation.py:187 | no error at all exactly when no row raised one |
| RecordValidation.Summarise | src/pydantic_validation.py:177-187 | total is the row count; invalid is the number of rows with errors; valid + invalid = total; valid ≥ 0; invalid ≤ error count; success exactly when every order is valid |
| RecordValidation.EmptyDatasetSucceeds | src/pydantic_validation.py:177-187 | an empty dataset succeeds with zero rows and zero errors |
| RecordValidation.RowsErrorsPrefix | src/pydantic_validation.py:154-175 | collecting the first `n` rows yields the first `n` rows' errors, appended in order |
| RecordValidation.RowsErrorsAreDatasetErrors | src/pydantic_validation.py:154-175 | collecting every row yields the dataset's errors |
| RecordValidation.CollectErrors | src/pydantic_validation.py:152-175 | the loop's `errors` list is every row's errors, appended row by row |
| RecordValidation.RunPydanticValidation | src/pydantic_validation.py:138-187 | the summary of the rows read as orders; valid + invalid = total = row count; success exactly when the error list is empty |
| AggregateValidation.StatusCatalogsDiverge | src/ge_validation.py:24-34 | every one of the 9 statuses is among the record layer's 13, which accept exactly four more (e.g. `Shipping`) |
| AggregateValidation.CatalogsAgree | src/ge_validation.py:36-38 | fulfilment, currency and country catalogs equal the record layer's, as does the date regex constant used by the suite |
| AggregateValidation.DateExpectationIsRecordPattern | src/ge_validation.py:121-126 | the ninth expectation checks the record layer's `Date` column against the record layer's date pattern, character for character |
| AggregateValidation.SuiteShape | src/ge_validation.py:71-126 | nine expectations on the columns Order ID, Order ID, Qty, Amount, Status, Fulfilment, currency, ship-country, Date; exactly the record layer's columns; both ranges are min 0, no max |
| Expectations.ExpectationSuite.constructor | src/ge_validation.py:69 | a new suite has its name and no expectations |
| Expectations.ExpectationSuite.AddExpectation | src/ge_validation.py:72-126 | `add_expectation` appends one expectation after those already declared |
| AggregateValidation.BuildSuite | src/ge_validation.py:69-126 | a fresh suite named `amazon_sales_suite` holding exactly the nine declared expectations in declaration order |
| AggregateValidation.InfoDefaults | src/ge_validation.py:157-168 | a missing type reads as `Unknown`, a missing column as `N/A`, a missing flag as failure, missing details as empty; present values pass through |
| AggregateValidation.IndicesWithSpec | src/ge_validation.py:156-169 | the positions with a given flag, ascending, each once, and no other position |
| AggregateValidation.SelectKeepsOrder | src/ge_validation.py:156-169 | the k-th entry of a list is the entry of the k-th result with that flag, so input order is kept |
| AggregateValidation.SelectFlags | src/ge_validation.py:169 | `passed` entries carry a true flag and `failed` entries a false one |
| AggregateValidation.SelectPartitions | src/ge_validation.py:156-169 | `passed` and `failed` together are a rearrangement of all entries, so every result lands in exactly one list |
| AggregateValidation.MissingSuccessCountsAsFailed | src/ge_validation.py:160 | a result without a success flag is in `failed` and not in `passed` |
| AggregateValidation.SummariseResults | src/ge_validation.py:150-176 | success is the run's `success` key (default false); passed + failed = total = number of results; the lists are the order-keeping partition by flag |
| AggregateValidation.OverallSuccessIsCopied | src/ge_validation.py:151 | the overall verdict is not recomputed: a run without a `success` key fails though all passed, and a run reporting success keeps it with a failed entry |
| AggregateValidation.ProcessResults | src/ge_validation.py:146-179 | the loop appending to `passed` or `failed` yields the summary above |
| AggregateValidation.RunGeValidation | src/ge_validation.py:43-141 | the summary of the library's results for the nine declared expectations run over the given data frame |
| StandaloneValidation.SameCatalog | ge_validation.py:41-55 | the script's value lists equal the packaged layer's, value for value and in order |
| StandaloneValidation.BuildSuite | ge_validation.py:100-171 | a fresh suite with the packaged layer's name and the same nine expectations, same order, same regex |
| StandaloneValidation.RunValidation | ge_validation.py:75-191 | the library's raw results for the nine declared expectations run over the given data frame |
| StandaloneValidation.SameResultInfo | ge_validation.py:220-230 | the script's `result_info`, with its own defaults, is the packaged layer's entry for every result |
| StandaloneValidation.ProcessResults | ge_validation.py:198-245 | the script's partition and counts equal the packaged layer's summary |
| Pipeline.AllPassedIff | dq_pipeline.py:54 | the combined verdict holds exactly when the library reports success and every row reads as a valid order |
| Pipeline.RunPipeline | dq_pipeline.py:44-54 | running both layers over the same data frame passes exactly when the library reports success on it and every row is valid |

## Left out

- Great Expectations itself is not modelled: the data source, the batch, the run, and how each expectation decides which values are unexpected. The run is the parameter `validate`, applied to the suite and the rows.
- Floating point is not modelled. Amount and Qty are integers, NaN is a cell of its own, and `str` of a number is its decimal integer text. A float such as `1.0` in a text column would read differently.
- `\d` matches the ASCII digits only. Python's `\d` also matches other Unicode decimal digits.
- RecordValidation.Normalise: requires the row to be well typed, because otherwise `int(row.get("Qty", 0))` raises an exception that the `except ValidationError` at src/pydantic_validation.py:166 does not catch, and the run crashes. That happens for a null Qty (`TypeError`), a NaN Qty, text that is not an integer and integer text of more than 4300 digits (`ValueError`). The model fixes the digit limit at the interpreter's default, `sys.int_info.default_max_str_digits`. A limit changed through `PYTHONINTMAXSTRDIGITS` or `sys.set_int_max_str_digits`, and interpreters older than the limit, are not modelled. Qty text with `_` digit separators or non-ASCII digits is excluded too, though `int()` would accept it. Amount must not be text, because pydantic's coercion of text to float is not modelled.
- RecordValidation.RowErrorsSpec: states neither the error messages nor the order of errors within one row; pydantic's error text and ordering are not modelled. The model lists a row's errors in field declaration order.
- Row numbers are positions plus 2. A data frame with a non-default index would number its rows by its labels instead.
- RecordValidation.FieldError: keeps the field's input rather than its `str(...)` text. For an amount, that text would be the float form, such as `-5.0`, which is not modelled.
- The `message` text of each error, the console output and the `timestamp` entries are not modelled.
- Slack notification (`src/slack_notifier.py` and the root script's `send_slack_notification`) is not part of this model. It only performs an HTTP POST of a rendering; the conjunction it computes is `Pipeline.AllPassed`.
- CSV loading, `.env` and environment reading, and exit codes in `dq_pipeline.py` and the root script's `main` are not modelled.
- Result details are abstracted as an opaque map from keys to text, whatever their JSON type. For example, `unexpected_count` is an integer and `unexpected_percent` a float; nothing in the model reads them.
