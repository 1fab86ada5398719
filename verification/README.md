# nginx log analyzer: the log-to-statistics core in Dafny

This project models the pure core of `log_analyzer.py`. The script reads an
nginx access log in the `ui_short` format and writes an HTML report of
per-URL latency statistics. The core is a chain of five steps:

1. `last_log_search` is meant to pick the newest
   `nginx-access-ui.log-YYYYMMDD[.gz]` entry of the log directory, and `main`
   names the report `report-YYYY.MM.DD.html` after its date. As written it
   never returns a log (see "## Findings").
2. `process_line` splits a line on single spaces. Token 7 is the URL and the
   last token, read by `float()`, is the request time.
3. `baselog_parser` counts every line and is meant to skip malformed lines,
   yielding the records of the lines that parse; at the end it fails the run
   on an empty log or when the parsed share of lines is below the configured
   threshold. As written, the first malformed line aborts the run (see
   "## Findings").
4. `collect_url_data` groups the latencies by URL in arrival order, with the
   record count and the total time.
5. `prepare_stat` makes one row per URL: count, count share, time sum, time
   share, average, maximum and median. It sorts the rows by time sum,
   largest first, with a stable sort, and keeps the first `REPORT_SIZE`.

Modules:
- `Wrappers`: `Option` and `Result`.
- `Text`: Python's `str.split`, `strip` and the decimal subset of `float()`.
- `LogLocator`: step 1.
- `LineParser`: step 2.
- `LogStream`: step 3.
- `Aggregator`: step 4.
- `Numbers`: sum, maximum, sorting and median.
- `StatsReporter`: step 5.
- `Failures`: the conditions that end a run.
- `Pipeline`: `main`, composing the steps.

Modelling choices:
- Latencies are exact `real`s and percentages are computed before rounding.
- The directory listing and the lines of each file are parameters of the run.
- A run either ends in a `Failure` or yields the report path and its rows.

Python details the model keeps:
- The file-name pattern's `$` also matches before one trailing newline.
- `datetime.strptime(date, "%Y%m%d")` accepts only real Gregorian dates, with
  year 1 to 9999.
- `float()` ignores surrounding whitespace, which includes the line's own
  newline.
- `sorted(..., reverse=True)` is stable.
- `[:n]` counts from the end when `n` is negative.
- Dictionaries keep insertion order.

Decisions where the code leaves room for another reading; the model follows
the code:
- An empty URL token, such as from a line with a double space, is accepted as
  a URL: `values[7]` is not checked.
- Rows of equal time sum keep their first-seen order, which is Python's stable
  sort, not a URL order (but see `StatsReporter.RankRows` under "## Left out"
  for the rounded sort key).
- Among logs of the same date, the first in listing order wins, because the
  comparison is strict.
- `main` reads the threshold from `SUCSESSFUL_PERCENT`, which the built-in
  defaults do not define. With the defaults, a run on a non-empty log
  therefore ends in `float(None)` raising, modelled as `MissingThreshold`.
- The two defects under "## Findings" are modelled as written and as
  evidently intended. The rest of the model uses the intended versions.

## Model

| member | source | states |
|---|---|---|
| Text.SplitShape | log_analyzer.py:115 | `line.split(' ')` yields one more token than the line has spaces, and no token contains a space |
| Text.JoinSplit | log_analyzer.py:115 | joining the tokens with single spaces gives back the line |
| Text.SplitJoin | log_analyzer.py:115 | splitting space-joined space-free tokens gives back exactly those tokens |
| Text.ParseLatencyFormatMillis | log_analyzer.py:117 | `float()` of nginx's `$request_time` rendering `s.mmm` gives back exactly `ms/1000` |
| Text.ParseDecimalDigits | log_analyzer.py:117 | `float()` of a plain digit string is the number it denotes |
| Text.StripNewline | log_analyzer.py:117 | stripping a whitespace-free token followed by the line's newline gives back the token, so `float()` ignores the newline |
| LogLocator.MatchLogNameIff | log_analyzer.py:95-99 | an entry matches the pattern exactly when it is `nginx-access-ui.log-` plus 8 digits plus optional `.gz`, optionally followed by one newline, and the match captures those digits |
| LogLocator.DateKeyOrder | log_analyzer.py:101-105 | for real dates, comparing the `YYYYMMDD` numbers is the same as comparing the dates, for both `<` and `==` |
| LogLocator.DateKeyIsDigitsValue | log_analyzer.py:101-102 | the number a date's key gives is the 8-digit text read as a decimal number |
| LogLocator.Candidate | log_analyzer.py:95-102 | a kept entry's name is `nginx-access-ui.log-` plus its 8-digit date text plus `.gz` exactly when it is compressed, possibly followed by one newline; the date text names a real day, and the path joins the log directory and the name |
| LogLocator.CandidateIff | log_analyzer.py:95-102 | an entry is kept with a given date text and compression exactly when it is the log file name for them, optionally followed by a newline, and the date is real; every other entry is ignored |
| LogLocator.PathJoin | log_analyzer.py:106 | `os.path.join` ends in the name; an absolute name replaces the directory; an empty directory gives the name; otherwise the directory is kept and exactly one `/` precedes the name, added only when the directory does not already end in one |
| LogLocator.LastLogSearchSpec | log_analyzer.py:87-108 | the search finds nothing exactly when no entry is a dated log; otherwise it returns an entry whose date is at least every candidate's and greater than every earlier candidate's |
| LogLocator.ReportNameRoundTrip | log_analyzer.py:204-207 | the report name `report-YYYY.MM.DD.html` determines the 8-digit date and is determined by it |
| LogLocator.AsWrittenNeverFinds | log_analyzer.py:100-108 | as written, the search never returns a log: it returns None or raises |
| LogLocator.AsWrittenMissesLog | log_analyzer.py:100-108 | a directory holding one well-named log: the intended search selects it, the code as written returns None |
| LogLocator.SampleLogName | log_analyzer.py:95-102 | `nginx-access-ui.log-20170630` carries an 8-digit date naming a real day |
| LineParser.ProcessLine | log_analyzer.py:111-118 | a parsed request time is never negative |
| LineParser.ProcessLineOfFields | log_analyzer.py:115-118 | a line of space-free fields ending in a request time parses to its eighth field and its exact request time |
| LineParser.ProcessLineFewSpaces | log_analyzer.py:116 | a line with fewer than 7 spaces, so fewer than 8 tokens, fails to parse |
| LineParser.ProcessLineBadLatency | log_analyzer.py:117 | a line whose last token `float()` rejects fails to parse |
| LogStream.ScanLines | log_analyzer.py:128-135 | after the loop, the total count is the number of lines and the handled count is the number of records, never more than the total |
| LogStream.ScanIsParsed | log_analyzer.py:128-135 | the records yielded are exactly the records of the lines that parse, in line order, each once, so the handled count is the number of lines that parse |
| LogStream.ScanPrefix | log_analyzer.py:128-135 | reading more lines only appends to the records already yielded |
| LogStream.ScanOrder | log_analyzer.py:130-135 | the record of a line that parses follows the records of all earlier lines |
| LogStream.ScanRecordsFromLines | log_analyzer.py:130-135 | every record yielded is the parse of some input line |
| LogStream.GateSpec | log_analyzer.py:137-140 | the check fails on zero lines, and otherwise passes exactly when handled is at least threshold times total |
| LogStream.BaselogParserGate | log_analyzer.py:121-140 | the stream fails as empty exactly on an empty log; otherwise it passes exactly when the number of lines that parse meets the threshold; a pass gives the records of exactly those lines, in order; no other failure occurs |
| LogStream.BaselogParserMonotone | log_analyzer.py:137-140 | a log that passes a threshold passes every lower one, with the same records |
| LogStream.BaselogParserExtremes | log_analyzer.py:137-140 | a threshold above 1 rejects every log; a threshold of at most 0 accepts every non-empty log |
| LogStream.AsWrittenAbortsOnMalformed | log_analyzer.py:130-135 | as written, any line that does not parse aborts the run, whatever the threshold |
| LogStream.AsWrittenRejectsTolerableLog | log_analyzer.py:130-140 | a two-line log with one bad line meets a 0.5 threshold and yields the good record, yet the code as written raises on line 1 |
| LogStream.SampleLineParses | log_analyzer.py:5-8 | a complete `ui_short` line, with every field of the format through the user field and any request time, parses to its request path: the empty token after the double space and the user agent's inner spaces do not disturb token 7 or the last token |
| Numbers.SumAppend | log_analyzer.py:171 | adding one latency to a list adds it to the sum |
| Numbers.SumConcat | log_analyzer.py:171 | the sum of two concatenated lists is the sum of their sums |
| Numbers.MaxSpec | log_analyzer.py:176 | `max` is one of the samples and no sample exceeds it |
| Numbers.SortAscSpec | log_analyzer.py:177 | sorting yields an ascending permutation of the samples |
| Numbers.MedianMiddle | log_analyzer.py:177 | the median lies between the two middle elements of the sorted samples |
| Numbers.MedianSplitsHalves | log_analyzer.py:177 | at least half of the sorted samples lie on each side of the median |
| Numbers.MedianBounds | log_analyzer.py:176-177 | the median is at most the maximum and at least some sample |
| Aggregator.CollectTotals | log_analyzer.py:156-160 | `count` is the number of records and equals the sum of the per-URL list lengths; `total_time` is the sum of all latencies and of the per-URL sums |
| Aggregator.CollectKeys | log_analyzer.py:156-158 | the grouped URLs are exactly the URLs of the records |
| Aggregator.CollectLists | log_analyzer.py:156-158 | each URL's list holds exactly that URL's latencies in arrival order |
| Aggregator.CollectOrder | log_analyzer.py:156-158 | the URL order is first-occurrence order: each listed URL has a record, and a URL listed earlier has its first record earlier |
| Aggregator.CollectUrlDataSpec | log_analyzer.py:144-161 | all of the above together: the URLs listed once each, in the order of their first records |
| StatsReporter.RowOfShares | log_analyzer.py:170-175 | a row's count percentage times the record count is 100 times its count; its time percentage times the total time is 100 times its time sum; its average times its count is its time sum |
| StatsReporter.MakeRowMax | log_analyzer.py:175-177 | a row's maximum is one of its samples and bounds every sample, its average and its median |
| StatsReporter.MakeRowNonNegative | log_analyzer.py:175-177 | with non-negative latencies, the average and the median are non-negative |
| StatsReporter.RowsFor | log_analyzer.py:166-179 | one row per given key, in the keys' order, each being the row of that key's URL; applied to the aggregate's key order, which `Aggregator.CollectOrder` shows is first-seen order |
| StatsReporter.StatRowsPercentages | log_analyzer.py:166-174 | before rounding, the count percentages of all rows add up to exactly 100, and so do the time percentages |
| StatsReporter.InsertByTime | log_analyzer.py:181 | inserting a row into a ranking keeps it ordered by non-increasing time sum and adds exactly that row |
| StatsReporter.RankRows | log_analyzer.py:181 | the ranking is ordered by non-increasing time sum and is a permutation of the rows |
| StatsReporter.RankRowsStable | log_analyzer.py:181 | for every time sum, the rows having it keep their relative order |
| StatsReporter.RankRowsDistinct | log_analyzer.py:181 | ranking rows with distinct URLs gives rows with distinct URLs |
| StatsReporter.Take | log_analyzer.py:182 | `[:n]` is a prefix of length `min(n, len)` for `n >= 0`, and `max(len + n, 0)` for negative `n` |
| StatsReporter.PrefixIsTop | log_analyzer.py:181-182 | in a ranking, no row after the prefix has a greater time sum than a row in it |
| StatsReporter.RankTakeSpec | log_analyzer.py:181-182 | the kept rows are ordered, a sub-multiset of all rows, the rows of greatest time sum, and have no URL twice if the input has none |
| StatsReporter.StatRowsUrls | log_analyzer.py:166-168 | there are as many rows as URLs, in the aggregate's key order (first-seen order by `Aggregator.CollectOrder`), with no URL twice |
| StatsReporter.PrepareStatSpec | log_analyzer.py:163-183 | the step fails only on a zero total time; otherwise the rows are ordered by time sum, one per URL with no URL twice, the ones of greatest time sum, and `min(#URLs, size)` of them for a non-negative size |
| StatsReporter.RowScenario | log_analyzer.py:168-177 | for `/x` at 0.1 s and 0.3 s among 3 records totalling 0.6 s: count 2, both shares 200/3 %, sum 0.4, average 0.2, max 0.3, median 0.2 |
| Pipeline.NewestIsDated | log_analyzer.py:203-206 | the newest log's date text is 8 digits naming a real date, so the report name is defined |
| Pipeline.RunOutcomes | log_analyzer.py:199-211 | a run fails for want of a log exactly when no entry names one; then on an empty log exactly when it has no lines; then on a missing threshold whenever none is set; then below the threshold exactly when the parsed lines fall short |
| Pipeline.DefaultsNeverReport | log_analyzer.py:209 | with the built-in configuration no run produces a report, because no threshold is defined |
| Pipeline.RunReportName | log_analyzer.py:203-207 | a successful run's report path ends in a report name that gives back the newest log's date |
| Pipeline.RunPassedGate | log_analyzer.py:209-211 | a successful run read a non-empty log that met the configured threshold, and its rows are the statistics of that log's records |
| Pipeline.RowsOfLog | log_analyzer.py:209-211 | a log's report rows are ordered by time sum, have no URL twice, respect the size, and name URLs of lines that parse |
| Pipeline.RunRows | log_analyzer.py:203-211 | a successful run's rows are ordered by time sum, have no URL twice, are at most the report size, and each names the URL of some line of the newest log that parses |

## Left out

- Directory listing, file opening, gzip decompression, report-directory creation and `write_report` are not modelled: they are I/O. The listing and the lines of the chosen file are parameters.
- `process_args`, `config_read_values`, `set_logging` and the logging calls are not modelled: they are argument parsing, JSON reading and logging, with no effect on the computed values. `Config` stands for the merged configuration, and `Defaults` for the built-in values at lines 29-33.
- `round(..., 3)` and `json.dumps` in `prepare_stat` are not modelled: values are exact reals before rounding, and the rows are returned unserialised.
- Floating-point arithmetic is not modelled: sums, shares, averages and medians are exact.
- `Text.ParseDecimal` accepts only unsigned decimal literals (`d+`, `d+.d*`, `.d+`). Python's `float()` also takes a sign, an exponent, `inf`/`nan`, underscores, Unicode digits and Unicode whitespace. Lines using those forms are rejected here.
- `LogLocator.MatchLogName`: `\d` is taken as the ASCII digits only. In Python 3 it matches any Unicode decimal digit, and `strptime` and `int()` accept those too, so a name such as `nginx-access-ui.log-` followed by eight Arabic-Indic digits is a log for the code and not for the model.
- `StatsReporter.RankRows` ranks by the exact time sum. The code sorts on `time_sum` after line 171 has rounded it to 3 decimals, so sums that differ only below a millisecond tie there. The tie order and the `REPORT_SIZE` cut can then differ: `/a` seen first with 0.1231 s and `/b` with 0.1234 s tie at 0.123 in the code, which keeps `/a` first; the model ranks `/b` first. The shares and averages of lines 172 and 175 also use the rounded sum.
- `LogLocator.ReportName` builds the name from the 8-digit date text. `strftime('%Y')` prints years below 1000 without zero padding on common platforms, so for such dates the two can differ.
- Whether a text-mode `open` yields `str` lines and a gzip one `bytes` lines is not modelled. Both are taken as strings. In Python 3, `gzip.open(path, 'rb')` yields `bytes`, and `line.split(' ')` at line 115 raises `TypeError` on them, so as written every `.gz` log aborts at its first line; the model reads a `.gz` log like a plain one.
- The line number argument of `process_line` is unused by the code and is not modelled.

## Findings

| source | as written | input that shows it | evidently intended | confidence | as-written member | corrected member |
|---|---|---|---|---|---|---|
| log_analyzer.py:100-108 | the date comparison and the `return` sit inside the `except` branch, so a well-dated log is skipped and the loop ends with None; a badly dated one raises there | a directory holding only `nginx-access-ui.log-20170630` | return the matching log with the newest date | not executed | LogLocator.AsWrittenMissesLog | LogLocator.LastLogSearchSpec |
| log_analyzer.py:130-135 | `process_line` is called outside any `try`, so the first malformed line raises out of the stream; `if parsed_line` tests a non-empty dict and is always true | the lines `[<a valid line>, "-"]` with threshold 0.5 | skip and count malformed lines, then apply the threshold | not executed | LogStream.AsWrittenRejectsTolerableLog | LogStream.BaselogParserGate |
