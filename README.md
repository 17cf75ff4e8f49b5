# Local invoice checker: a Dafny model of the reconciliation core

The program reads a spreadsheet of accounts and expected debts. It fetches the outstanding
amount of every account from the carrier's payment pages, using a browser per attempt and a
pool of worker threads. Next to every row it writes the fetched amount and a verdict in Arabic:
fetch problem, cleared, unpaid, or partially paid.

This project models the deterministic core of `main.py` and proves what it does:

- **Value normalisation** (`normalize.dfy`, with the Python string helpers in `text.dfy`):
  - the `AR2EN` translation table;
  - `normalize_account`;
  - `to_float_safe`, with its character-by-character cleaning loop written as a loop.
- **The verdict** (`classify.dfy`): `compare_amounts` and the four label texts.
- **Fetching** (`fetch.dfy`):
  - the page address chosen for an account;
  - one fetch, where the browser is an oracle that says how the page behaves;
  - the retry loop. Every attempt is given as an oracle value, and the loop records its
    browser events (create, navigate, quit, pause) as a trace.
- **Column detection** (`columns.dfy`): `find_col` and `detect_columns`.
- **Chunk arithmetic** (`chunks.dfy`): the group size, the number of groups, and the row
  range of every group.
- **Completion orders** (`completion.dfy`): the orders in which a thread pool can hand back a
  group's fetches.
- **The batch run** (`batch.dfy`):
  - `process_chunk` as a method. It writes into preallocated arrays by row position, in an
    arbitrary completion order, and increments a shared `ProgressCounter` object.
  - The group loop of `process_excel_parallel`, which runs the groups one after another
    with one shared counter.

Amounts are exact `real` numbers. A spreadsheet cell is `Missing` (Python `None`), `NaN`, or the
text `str(x)` of any other value. Digits and case folding follow ASCII, plus the Arabic-Indic
table the program translates explicitly. White space is Python's own `str.isspace` set,
Unicode spaces and separators included.

## Behaviour worth knowing

These follow from the code as written, and each is proved about the model:

- An amount with several points keeps only the first point and every digit, because the
  cleaning loop drops every '.' after `dot_seen` is set (main.py:59-62). So "1.2.3" reads as
  1.23 (`Normalize.ExtraDotsDropped`).
- The retry loop pauses after every failed attempt, the last one included: the pause at
  main.py:160 is not guarded by an attempt count (`Fetch.RetryPausesAfterEachFailure`).
- A row whose account has no digit gets no fetch and no verdict. It is stored under the
  `None` future (main.py:229-230), which the result loop filters out (main.py:233). So the
  row keeps the `None` and "" it was created with (main.py:215-216), and the progress counter
  does not move for it (`Batch.SubmitFetches`, `Batch.ProcessChunk`, `Batch.RowLabelReadsBack`).
- The `AR2EN` table maps the Arabic thousands mark U+066C to '.', like the decimal mark
  (main.py:43). So "1٬234" reads as 1.234 (`Normalize.ThousandsMarkIsDecimalPoint`).
- A minus sign is neither a digit nor a point, so the cleaning loop drops it (main.py:56-64),
  and "-50" reads as 50 (`Normalize.SignAndCurrencyIgnored`).
- An account that pandas read as a float, rendered as "12345.0", normalises to "123450":
  `normalize_account` keeps every digit, the trailing zero included (main.py:77-78). Its own
  docstring says it removes ".0" (main.py:74); the code removes only the point
  (`Normalize.FloatRenderedAccountGainsZero`).
- The group-size constants are the code's: at least 50 rows, aiming at 10 groups
  (main.py:288).

## Model

| member | source | states |
|---|---|---|
| Normalize.Ar2En | main.py:43 | Arabic-Indic digits become the ASCII digit of the same value; both U+066B and U+066C become '.'; every other character is kept |
| Normalize.Translate | main.py:43 | `str.translate(AR2EN)` keeps the length and maps every character through the table |
| Normalize.CleanAmountText | main.py:54-64 | the cleaning loop with its `dot_seen` flag leaves exactly `Cleaned(s)`: the digits before the first '.', that '.', and the digits after it |
| Normalize.CleanedIsDecimal | main.py:54-64 | what cleaning leaves is made of digits and holds at most one '.' |
| Normalize.CleanedKeepsDigitsAndFirstDot | main.py:54-64 | cleaning keeps every digit of its input in order, and keeps a '.' exactly when the input has one |
| Normalize.CleanedIdempotent | main.py:54-64 | cleaning an already cleaned text changes nothing |
| Normalize.ExtraDotsDropped | main.py:59-62 | after the first '.', later points are dropped and the digits around them joined: "a.b.c" reads as "a.bc" |
| Normalize.ToFloatSafe | main.py:45-71 | `to_float_safe`, with its early returns for None, NaN, blank text and "nan"/"none", returns `AmountOf(x)`: 0.0 for None/NaN, otherwise the decimal value of the cleaned translated text, and 0.0 when that is "" or "." |
| Normalize.StripKeepsCleaning | main.py:49-52 | stripping white space before translating never changes what cleaning leaves |
| Normalize.BlankOrWordCleansToNothing | main.py:49-51 | blank text and "nan"/"none" in any letter case clean to nothing, so the early return agrees with the general rule |
| Normalize.SignAndCurrencyIgnored | main.py:56-64 | characters that are neither digits, points nor Arabic digits or marks around an amount do not change its value: a sign or currency name is ignored |
| Normalize.ThousandsMarkIsDecimalPoint | main.py:43 | a U+066C between digits reads as the decimal point, with value whole part plus fraction |
| Normalize.DigitsDotDigitsAmount | main.py:52-68 | digits, '.', digits (either run may be empty) is read as its exact decimal value, whole part plus fraction |
| Normalize.NormalizeAccount | main.py:73-79 | a normalised account is never empty and holds only digits |
| Normalize.NormalizeAccountDigits | main.py:73-79 | `normalize_account` is None exactly for None, NaN, or text with no digit after translation; otherwise it is the digits of the translated text |
| Normalize.StripKeepsDigits | main.py:77-78 | stripping before translating never changes the digits kept |
| Normalize.NormalizedAccountIsEveryDigit | main.py:77-79 | the account is a subsequence of the translated text, no all-digit subsequence is longer, and the only one as long is the account itself |
| Normalize.FloatRenderedAccountGainsZero | main.py:74-79 | an account rendered as "d.0" normalises to d followed by "0", although the docstring at main.py:74 says ".0" is removed |
| Text.Strip | main.py:49 | `str.strip()` never makes a text longer |
| Text.StripIsMiddle | main.py:49 | `str.strip()` is the middle slice left after removing white space from both ends, and its ends are not white space |
| Text.Lower | main.py:185 | `str.lower()` keeps the length and lowers every character on its own, leaving non-letters as they are |
| Text.IsSubstring | main.py:190 | `a in s` holds only when `a` is no longer than `s` |
| Text.SubstringAtOffset | main.py:190 | the recursive substring test holds exactly when `a` is the slice of `s` at some position |
| Text.Digits | main.py:78 | keeping the digits gives a text of digits only, no longer than the input |
| Text.DigitsEmptyIff | main.py:78-79 | keeping the digits of a text gives nothing exactly when the text has no digit |
| Text.DigitsIsSubsequence | main.py:78 | the kept digits are a subsequence of the text |
| Text.DigitSubsequenceBound | main.py:78 | no all-digit subsequence of a text is longer than its kept digits |
| Text.DigitsUnique | main.py:78 | an all-digit subsequence as long as the kept digits is those digits |
| Classify.CompareAmounts | main.py:165-173 | the verdict is a fetch problem exactly when nothing was fetched, cleared exactly for a fetched 0, unpaid exactly for a non-zero amount at least the expected one (ties included), partial otherwise |
| Classify.LabelTextRoundTrip | main.py:166-173 | each verdict can be read back from its Arabic text, so the four texts are distinct |
| Classify.EmptyCellIsNoLabel | main.py:216 | the empty initial result text is none of the four verdicts |
| Classify.PartialMeansStrictlyBetween | main.py:168-173 | for a non-negative fetched amount, partial payment means strictly between 0 and the expected debt; a debt of 0 or less is never partial |
| Classify.VerdictMonotone | main.py:170-173 | raising a non-zero fetched amount never turns unpaid into partial |
| Fetch.FetchUrl | main.py:116-119 | the address uses the quick-pay template exactly when the account starts with '2', the contract template otherwise, and ends with the account |
| Fetch.FetchUrlRoundTrip | main.py:116-119 | the account can be read back from its address, and only that address reads back to it |
| Fetch.FetchAmountOnce | main.py:114-138 | one fetch opens the account's address; navigation failure raises, a missing field or failed read returns None, a read value is returned through `to_float_safe` |
| Fetch.EmptyFieldReadsAsZero | main.py:133-134 | an empty or absent `value` attribute yields the amount 0.0, not None |
| Fetch.FetchedAmountNonNegative | main.py:132-135 | a fetched amount is never negative |
| Fetch.GetAmountWithRetry | main.py:140-162 | the loop over the first three attempt oracles returns `RetryAmount` (the first amount that is not None) and produces the event trace `RetryTrace` |
| Fetch.StopIndexIsFirstSuccess | main.py:142-148 | the loop stops at the first attempt that yields an amount; every earlier attempt yielded None |
| Fetch.RetryReturnsFirstAmount | main.py:146-148 | the loop returns the amount of the attempt it stops at, and None only when every attempt failed |
| Fetch.ZeroStopsRetrying | main.py:146-148 | a fetched 0.0 is a success: the loop returns it after that attempt, without a pause |
| Fetch.AttemptDisciplined | main.py:143-158 | one attempt creates at most one browser, navigates only to the account's address, quits it, and does not pause |
| Fetch.RetryReleasesEveryDriver | main.py:142-160 | along the loop's trace, a browser is created only when none is open, navigates only to the account's page, and is quit exactly once before the next pause; creations equal quits and are at most the number of attempts |
| Fetch.DisciplinedBalances | main.py:153-158 | in a disciplined trace, creations plus the browser still open equal quits |
| Fetch.RetryPausesAfterEachFailure | main.py:159-160 | the loop pauses once after every failed attempt, the last one included |
| Fetch.RetryBounded | main.py:142-162 | at most `RETRIES_PER_ACCOUNT` browsers are created, each quit; when all fail, there are exactly `RETRIES_PER_ACCOUNT` pauses |
| Columns.FirstAccepted | main.py:182-193 | one pass returns the first column, in frame order, that it accepts for some alias, and None when no column is accepted |
| Columns.ExactImpliesLoose | main.py:184-192 | a column matched exactly or up to case is also matched by the substring pass |
| Columns.FindCol | main.py:181-193 | what `find_col` returns is one of the frame's headers; when it returns None, no header passes either the exact or the substring test |
| Columns.FindColFindsAny | main.py:181-193 | `find_col` finds nothing exactly when no header contains an alias |
| Columns.ExactMatchWins | main.py:182-186 | an exact or case-insensitive match anywhere beats every substring match; the first such column in frame order is returned |
| Columns.LooseMatchInFrameOrder | main.py:188-192 | without any exact match, the first column in frame order containing an alias is returned |
| Columns.FoundHeaderNonEmpty | main.py:195-197 | with non-empty aliases, a found column's header is never empty, so `not account_col` is true only when nothing was found |
| Columns.DetectColumns | main.py:176-202 | both columns are detected exactly when `find_col` finds each of them, and are those columns; otherwise the error lists the available headers |
| Chunks.ChunkSize | main.py:288 | the group size is at least `MIN_CHUNK_SIZE` and at least a tenth of the rows, and is one of the two |
| Chunks.NumChunks | main.py:289 | the group count is the ceiling of rows over group size: enough groups reach the last row, one fewer does not |
| Chunks.ChunkStart | main.py:300 | group `cid` starts inside the sheet exactly when `cid` is below the group count |
| Chunks.ChunkEnd | main.py:301 | a group ends inside the sheet, and a group below the group count ends after it starts and at most `chunk_size` rows later |
| Chunks.Group | main.py:302 | `df.iloc[start:end]` holds rows exactly when `cid` is below the group count, at most `chunk_size` of them, and its k-th row is the sheet's row `start + k` |
| Chunks.NumChunksBounds | main.py:288-289 | a non-empty sheet has between 1 and 11 groups |
| Chunks.ChunksContiguous | main.py:299-302 | groups start at row 0, each ends where the next starts, and the last ends at the last row |
| Chunks.ChunkLengthsSum | main.py:299-302 | the group lengths add up to the number of rows |
| Chunks.RowInExactlyOneChunk | main.py:299-302 | every row lies in exactly one group |
| Completion.PositionsMembers | main.py:229-233 | the submitted positions are exactly the flagged ones, each once, and there are as many as flags set |
| Completion.CompletionOrderFacts | main.py:233 | an order `as_completed` can produce lists every submitted position once and nothing else |
| Batch.ProgressCounter.constructor | main.py:296 | the shared counter starts at 0 |
| Batch.SubmitFetches | main.py:224-230 | every row whose account normalises is stored under its own future with its position, account and normalised amount; no other row gets a future; the `None` key is present exactly when some row's account does not normalise, and holds such a row |
| Batch.FuturesAreDispatchedRows | main.py:229-233 | the rows that own a future are exactly the dispatched rows, so the result loop sees exactly those |
| Batch.CollectResults | main.py:233-246 | whatever the completion order of the non-None futures, every row that owns one gets the retried amount and its verdict at its own position, other rows keep None and "", and the counter rises by the number of those futures |
| Batch.ProcessChunk | main.py:207-246 | both arrays have one entry per row; each row ends with `RowOutcome` (its fetch and verdict when its account normalises, None and "" otherwise); the counter rises by the number of dispatched rows |
| Batch.RowLabelReadsBack | main.py:215-216 | a row's result text is a verdict exactly when the row was dispatched, and then it is the verdict on the row's own amount; an undispatched row has no amount |
| Batch.RunGroup | main.py:300-314 | one pass of the group loop extends the concatenated columns to the end of group `cid` and the counter to the rows dispatched so far |
| Batch.ProcessGroup | main.py:305-313 | `process_chunk` on one group gives one entry per row of the group, each row's own outcome, and raises the counter by the group's dispatched rows |
| Batch.RunGroups | main.py:288-314 | after all groups, every row of the sheet has its own outcome, in sheet order, and the counter equals the number of dispatched rows |
| Batch.ProcessExcelParallel | main.py:270-314 | missing columns raise with the available headers; an empty sheet stops; otherwise every row gets its outcome in order, and the counter ends at the number of dispatched rows |
| Batch.DispatchedCountAppend | main.py:246 | the counts of dispatched rows of consecutive groups add up |
| Batch.GroupAppended | main.py:314 | appending a group's columns keeps the row-by-row agreement and extends it to that group's rows |

## Left out

- Selenium: building options, creating a browser with its webdriver-manager fallback, and
  waiting for the page (main.py:82-131). These are foreign browser calls. Their outcomes are
  the oracle values `PageLoad` and `Attempt`.
- The thread pool and `as_completed` scheduling (main.py:205, 223-233) are concurrency. Only
  "any completion order of the submitted rows" is kept.
- Reading and writing spreadsheets and the partial files, `pd.concat`, and the fallback merge
  (main.py:255-265, 275-277, 316-340) are library I/O. The run's result is the two new columns
  in row order.
- `log_error` and its lock (main.py:32-40) are file I/O.
- Elapsed time, average, ETA and every `print` (main.py:247-252, 284, 291-294, 304, 341-350)
  are clock readings and console output.
- The random pause length (main.py:160) is timing only. The pause itself is an event in the
  trace.
- Stdout reconfiguration (main.py:26-30) and the `__main__` entry are start-up code.
- Normalize.ToFloatSafe: the result is the exact decimal value of the cleaned text, not the
  nearest double that `float()` returns.
- Normalize.ToFloatSafe: the `except` branch (main.py:69-71) is not modelled. With ASCII
  digits and the Arabic table, the cleaned text is always valid for `float()`. The branch is
  reachable only through other Unicode digits, which `str.isdigit` accepts and the model does
  not.
- Text.IsDigit and Text.Lower cover ASCII only. Full Unicode `str.isdigit` and `str.lower`
  are not modelled. Text.IsSpace is Python's full `str.isspace` set.
- Batch.CollectResults: the `except` around `fut.result()` (main.py:238-240) is not modelled.
  The retry function catches every exception of each attempt itself, so the result is always
  its return value.
- Batch.ProcessChunk: for an empty group the source returns the frame without adding the two
  columns (main.py:211-212); the model returns two empty arrays. The run never passes an empty
  group.
- Chunks.NumChunks: `math.ceil` of the float quotient is modelled as the exact ceiling. The
  two agree for any sheet with fewer than 2^53 rows.
- Fetch.FetchAmountOnce: any exception escaping a fetch is the one outcome `Raised`. The loop
  treats `WebDriverException` and other exceptions alike, apart from the log message.
