# Boston 311 fetch job, modelled in Dafny

This project models the offline batch job `scripts/fetch_data.py` of the Boston 311 dashboard.
The job pages through the CKAN `datastore_search` API of data.boston.gov.
It retries each failed page request a bounded number of times.
It then writes every record as a CSV row keyed by a fixed list of columns, plus a small metadata JSON file.

The network is replaced by an oracle, `Api.Network`.
The oracle maps an offset and an attempt number (0 for the first try) to what that HTTP attempt yields.
An attempt yields either an exception from the transport, or a decoded reply with its `success` flag and its `result`.
The job never asks the same (offset, attempt) pair twice, so a function of that pair can stand for any network behaviour.

Modules, one per part of the script:

- `Api` (`api.dfy`): the constants `PAGE_SIZE` (1000), `MAX_RETRIES` (3) and `RESOURCE_ID`.
  It also holds JSON field values with Python truthiness, records, pages, replies and fetch errors.
- `Retry` (`retry.dfy`): `fetch_page`, a recursion on the retry counter, as the function `FetchPage`.
- `Pagination` (`pagination.dfy`): `fetch_all_records`, as the method `FetchAllRecords` with a `while` loop.
  It is proved against a declarative description of a run (`CompleteRun`, `FailedRun`).
- `CsvExport` (`csv_export.dfy`): the constant `FIELDS`, the row built for each record, and the `write_csv` loop.
- `FetchJob` (`fetch_job.dfy`): `main`, which has the empty-result guard and writes the CSV and the metadata.

The script has no record cap and no progress callback; it retries each page up to `MAX_RETRIES` times and stops after a short page or once the count reaches the first page's total.

## Model

| member | source | states |
|---|---|---|
| `Retry.FetchPage` | scripts/fetch_data.py:52-68 | A call whose first try succeeds returns that try's page, and a call that fails fails with the error of the last try it may make. The full description, first successful try or all tries failed, is given by `FetchPageOutcome`, `FetchPageOkIff` and `FetchPageErrIff`. |
| `Retry.FetchPageOutcome` | scripts/fetch_data.py:52-68 | For a call starting at try `retry`, a page result is the page of some attempt between `retry` and the last allowed attempt, and every earlier attempt failed. A failure means every allowed attempt failed, and the error is the last attempt's error. |
| `Retry.FetchPageOkIff` | scripts/fetch_data.py:55-67 | A call from the job returns page `p` if and only if, among the first `MAX_RETRIES + 1` attempts, the first successful one returned `p`. A reply with `success` false or without `result` counts as a failed attempt. |
| `Retry.FetchPageErrIff` | scripts/fetch_data.py:63-68 | A call from the job fails with `e` if and only if all `MAX_RETRIES + 1` attempts fail and the last one failed with `e`. |
| `Retry.FetchPageConsultsOnlyItsTries` | scripts/fetch_data.py:63-68 | Only attempts `retry` .. `LastAttempt(retry)` at this one offset are consulted, so at most `MAX_RETRIES + 1` requests are made. Two networks that agree on those attempts give the same result. |
| `Pagination.FetchAllRecords` | scripts/fetch_data.py:71-94 | On success the run is complete and the result is the in-order concatenation of the fetched pages' records, starting with the records of the page at offset 0. The page count is at most `MaxPages` of the first page's total. On an exception, every earlier page was fetched and let the loop go on, and the next page's error is returned. The offsets requested are the first n of `RequestedOffsets`, where n is the number of pages received, plus one when the run failed. |
| `Pagination.RequestedOffsetsIncrease` | scripts/fetch_data.py:74-91 | The i-th request is for offset i * `PAGE_SIZE`, starting at 0, and the offsets strictly increase, so no offset is requested twice. |
| `Pagination.PartialRunExtend` | scripts/fetch_data.py:78-91 | One loop step appends the page's records to the result and keeps the first page's total. The step ends the run exactly when the page is short or the count reaches that total; otherwise every page so far let the loop go on. |
| `Pagination.PagesBound` | scripts/fetch_data.py:77-92 | A complete run takes at most max(1, ceil(total / `PAGE_SIZE`)) pages, where total is the first page's total. |
| `Pagination.CompleteRunUnique` | scripts/fetch_data.py:77-94 | The description of a complete run admits at most one sequence of pages for a given network, so when the loop returns, its result is determined. |
| `Pagination.CompleteRunExcludesFailure` | scripts/fetch_data.py:77-94 | A run that returns records and a run that raises cannot both happen for one network. |
| `Pagination.FailedRunUnique` | scripts/fetch_data.py:77-79 | Two failed runs against one network have the same pages and the same error, so when the loop raises, which exception propagates is determined. |
| `Pagination.FailedRunRequestsBound` | scripts/fetch_data.py:77-92 | A run that raised after receiving pages made at most max(1, ceil(total / `PAGE_SIZE`)) requests, the failing one included, where total is the first page's total. |
| `Pagination.LaterTotalsIgnored` | scripts/fetch_data.py:81-82 | Page sequences with the same first page and the same records per page have the same result and the same stop decisions, whatever totals the later pages report. |
| `Pagination.EmptyIffFirstPageEmpty` | scripts/fetch_data.py:85-89 | In a complete run the first page is the reply for offset 0, and the result is empty exactly when that page had no records. |
| `Pagination.FailedRunFirstPageFull` | scripts/fetch_data.py:78-89 | If a run raised after fetching some pages, the page at offset 0 was full. |
| `CsvExport.FieldsDistinct` | scripts/fetch_data.py:22-49 | No column name appears twice in `FIELDS`, so a row with one cell per column has one cell per distinct key, as the dict built for each record does. |
| `CsvExport.Project` | scripts/fetch_data.py:102-106 | A row has one cell per given column, in column order. A missing or falsy value becomes `""` and any other value is kept unchanged. |
| `CsvExport.ProjectRow` | scripts/fetch_data.py:106 | The row for a record has exactly the keys in `FIELDS`, in `FIELDS` order. A missing or falsy value (None, "", 0, 0.0, False) becomes `""`, and any other value is passed through. |
| `CsvExport.WriteCsv` | scripts/fetch_data.py:101-107 | The header is `FIELDS`, and there is one row per record, in order, each the record's projected row. |
| `CsvExport.ProjectReadBack` | scripts/fetch_data.py:106 | Reading a projected row back (non-empty cells only) gives exactly the record's truthy entries under the given columns. |
| `CsvExport.ProjectRowRoundTrip` | scripts/fetch_data.py:106 | A record whose keys are all columns and whose values are all truthy is written losslessly: reading its row back gives the record. |
| `CsvExport.ProjectRowIgnoresExtraKeys` | scripts/fetch_data.py:102-106 | Record keys outside `FIELDS` are ignored: dropping them leaves the row unchanged. |
| `FetchJob.RunFetchJob` | scripts/fetch_data.py:112-140 | An uncaught fetch error ends the job with a failed run. The job stops with "no records", before writing anything, exactly when the page at offset 0 came back empty. Otherwise it writes `FIELDS` as the header and one projected row per fetched record, and the metadata holds the clock reading, the number of records written, the resource id and `data.boston.gov`. |

## Left out

- HTTP transport: the URL built from `API_BASE`, the `User-Agent` header, the 30-second timeout and JSON decoding. These are foreign calls; each attempt's outcome is given by the `Network` oracle.
- `time.sleep` (`RETRY_DELAY` between retries, half a second between pages) and all `print` logging: neither affects any computed value.
- File-system work: `os.makedirs`, `open`, `csv.DictWriter` quoting and escaping, and `json.dump`. The model stops at the header and the rows handed to the writer, and at the metadata value.
- The clock: `datetime.now` becomes the `now` parameter of `FetchJob.RunFetchJob`.
- `sys.exit(1)` and the process exit status: the empty-result exit is the `NoRecords` outcome, and an uncaught exception is the `Crashed` outcome.
- A `result` object without a `records` key raises `KeyError` outside the retry, in `fetch_all_records`. This is not modelled: every `Page` has a list of records.
- A first page whose `result` has no `total` key raises `KeyError`, and a first-page `total` that is null or not a number raises when it is formatted for the log. Neither is modelled: `Page.total` is always an integer. A later page's `total` is never read, so its absence raises nothing, and `LaterTotalsIgnored` covers that.
- A reply with `success` true and `"result": null` is not modelled. `fetch_page` returns `None` without retrying, and `fetch_all_records` then raises `TypeError` outside the retry. The model's `Replied(true, None)` stands only for a reply with no `result` key, which raises `KeyError` inside the retry and is retried as `MissingResult`.
- The `success` field is modelled as a boolean. A non-boolean truthy or falsy `success` value is not distinguished.
- Record field values are flat JSON values (null, booleans, integers, decimals, strings). Nested lists or objects in a record field are not modelled.
