# moonlite, modelled in Dafny

moonlite is a set of Steamworks scraping tools with a tkinter front end. It has five tools:
- the discount-history scraper;
- the CD-key checker;
- the analytics ("insights") CSV exporter;
- the remote-play exporter;
- the package granter.

Every tool follows the same pattern:
1. It reads the partner-dashboard cookies from a browser jar.
2. It discovers its jobs (apps, packages, keys, days or steamid/package pairs).
3. It runs the jobs on a thread pool.
4. It counts progress through a `Progress` object.
5. It writes CSV rows.

This project models the logic that remains once threads, HTTP, HTML parsing and tkinter are taken away:
- the pool-draining loop, and the queue drain that stops it (`Progress`);
- cookie filtering and validation with three attempts, app and package id extraction, and the package-to-app map (`Dashboard`);
- the `urlparse` and `unquote` steps a link goes through before its id is read (`Url`);
- each tool's job construction and record building:
  - `Keychecker`, `Discounts`, `Insights`, `GrantPackage` and `RemotePlay`;
  - the stop-checked retry loops and the header-written-once CSV writers;
- the string helpers:
  - `HtmlPreprocess` (`bs_preprocess`);
  - `TimeUtil` (`time_taken_seconds` and the two date formats);
- the window-side rules:
  - `DiscountsView` (titles, cell formats, save and table);
  - `KeycheckerView` (text-box keys, Start/Stop);
  - `InsightsView` (date check, per-app bars, cleanup at most once, Start/Stop);
  - `GrantPackageView` (the STEAMID64 check of the profile preview).

How the concurrency is modelled:
- The order in which futures complete is an input: a permutation of the job indices (`Progress.IsOrder`).
- Each reading of a stop flag is an input.
- Every `with lock:` block is one atomic method.
- The jobs of one pool therefore run one after the other, in completion order.

External results are inputs:
- the network responses, already parsed into the tables, rows and graphs the code reads;
- the browser jar, given as one snapshot per attempt.

Python's exceptions are the values of `Errors.Exc`. A function that may raise returns a `Result`.

`utils/dashboard.py` and `scrape/keychecker.py` are older copies of `moonlite/utils/dashboard.py` and `moonlite/scrape/keychecker.py`:
- `utils/dashboard.py` holds only `get_cookies` and `get_apps`, the same code as in the newer copy with line numbers three lower, so one model serves both copies of these two.
- `get_packages` and its threaded helpers exist only in `moonlite/utils/dashboard.py`.
- `scrape/keychecker.py` reads `headers[0] + headers[1]`, so it needs two tables. It is the `legacy` flag of `Keychecker.KeyRows`.

## Model

| member | source | states |
|---|---|---|
| Progress.HandlerFor | scrape/progress.py:60-64 | StopException maps to the silent handler, CookiesNotFound to its own dialog, and every other exception to the default error dialog, each in both directions |
| Progress.Drained | scrape/progress.py:40-58 | update() calls never exceed the number of futures, and equal it when none fails on a sink instance; a progress class receives no update(); an exception is reported exactly when some future failed, and it is one of the failures |
| Progress.DrainedStopsAtFirstFailure | scrape/progress.py:41-58 | exactly the successes before the first failure are counted, and the report is that first failure |
| Progress.DrainedIgnoresLaterCompletions | scrape/progress.py:46-58 | once a failure has been drained, later completions change nothing: the loop has ended |
| Progress.DrainedUpToFailure | scrape/progress.py:46-58 | draining up to and including a failure is the same as draining everything |
| Progress.FirstFailure | scrape/progress.py:46-58 | every completion before the returned position succeeded and the one at it, if any, failed |
| Progress.Processed | scrape/progress.py:46-58 | the drain loop reads at most all completions: every one when none fails, otherwise up to and including the first failure |
| Progress.DrainedProcessed | scrape/progress.py:46-58 | draining just the completions the loop reads gives the same updates and report as draining all of them |
| Progress.ProcessedAfterSuccesses | scrape/progress.py:46-58 | with no failure among the first `k` completions, the loop reads all of them when `k` is the end and exactly `k + 1` when completion `k` failed |
| Progress.QueuedFutures | scrape/progress.py:36-37 | a future is cancelled by the drain exactly when a non-None work item for it is on the queue |
| Progress.Executor.Shutdown | scrape/progress.py:28-38 | afterwards the executor is shut down and its queue is empty; the cancelled set grows by exactly the queued futures; it always ends by raising StopException |
| Progress.Sink.Update | scrape/progress.py:44-45 | one update() adds exactly one unit and reports nothing |
| Progress.Sink.Report | scrape/progress.py:50-55 | the exception call appends exactly that exception and counts no unit |
| Progress.GetExecResults | scrape/progress.py:40-58 | the sink gets the drain's updates; with no failure, nothing is reported and the executor is untouched; otherwise the first failure is reported once, the queue is drained and cancelled, and StopException ends the loop |
| Dashboard.CollectedLastWins | moonlite/utils/dashboard.py:28-30 | a name is collected iff some kept cookie (partner domain; `steam…` or `sessionid`) has it, and its value is that of the last such cookie; the copy at utils/dashboard.py:25-27 is the same |
| Dashboard.Kept | moonlite/utils/dashboard.py:29 | definition of the filter: a partner-dashboard cookie named `steam...` or `sessionid` |
| Dashboard.Collected | moonlite/utils/dashboard.py:27-30 | definition of one jar read's dictionary, later cookies overwriting earlier ones; its contents are stated by CollectedLastWins |
| Dashboard.HasRequired | moonlite/utils/dashboard.py:32 | definition of the acceptance test: every required prefix starts some cookie name |
| Dashboard.AcceptedHasSessionId | moonlite/utils/dashboard.py:29-32 | an accepted dictionary holds the exact name `sessionid`, because only that kept name can start with the prefix |
| Dashboard.CollectCookies | moonlite/utils/dashboard.py:27-30 | the filter loop over one jar read builds exactly the collected dictionary |
| Dashboard.GetCookies | moonlite/utils/dashboard.py:23-42 | reads the jar 1 to 3 times and stops at the first snapshot that passes the prefix check; every earlier snapshot failed it; the result is that snapshot's dictionary, or CookiesNotFound after three failing reads (utils/dashboard.py:20-39 alike) |
| Dashboard.NumericParts | moonlite/utils/dashboard.py:74 | every kept path segment is all digits |
| Dashboard.IdFromPathOfNumericTail | moonlite/utils/dashboard.py:74 | a link path ending in an all-digit segment has that segment's value as its id |
| Dashboard.IdFromPathSkipsText | moonlite/utils/dashboard.py:74 | a trailing segment that is not all digits does not change the id: it is the LAST numeric segment |
| Dashboard.IdFromPath | moonlite/utils/dashboard.py:74 | definition: `int` of the last all-digit part of a path, IndexError when there is none; stated by IdFromPathOfNumericTail and IdFromPathSkipsText |
| Dashboard.IdFromHref | moonlite/utils/dashboard.py:74 | definition: the id is read from `unquote(urlparse(href).path)`, not from the raw href |
| Dashboard.IdFromHrefOfHttpsLink | moonlite/utils/dashboard.py:74 | a link `https://host/path/digits?query` yields the value of its digits: the query never reaches the path that is split |
| Dashboard.IdFromHrefOfPath | moonlite/utils/dashboard.py:106-107 | a site-relative link without query or fragment is its own path, and that path is unquoted before it is split |
| Dashboard.Listed | moonlite/utils/dashboard.py:62-65 | listed rows come from the page, and with store_pages_only each has at least two links |
| Dashboard.ListedAll | moonlite/utils/dashboard.py:62-65 | without store_pages_only every row is listed |
| Dashboard.ListedPrefix | moonlite/utils/dashboard.py:59-80 | listing keeps page order: a prefix of the page lists a prefix of the apps |
| Dashboard.GetApps | moonlite/utils/dashboard.py:44-81 | one app per listed row, in page order, whose id is the one read from `unquote(urlparse(href).path)` of its name link, with the stripped name and type; otherwise IndexError, from a listed row whose link path has no numeric part (utils/dashboard.py:41-78 alike) |
| Dashboard.PackageIds | moonlite/utils/dashboard.py:105-115 | an app job yields, in row order, the id that `unquote(urlparse(href).path)` gives for each released row's link; it yields nothing exactly when some link path has no numeric part |
| Dashboard.WrittenEntries | moonlite/utils/dashboard.py:117-119 | a locked write adds exactly the job's ids, all mapped to its app, and keeps every other entry |
| Dashboard.MergedKeys | moonlite/utils/dashboard.py:117-119 | a package id is in the shared map iff some job wrote it |
| Dashboard.MergedLastWriterWins | moonlite/utils/dashboard.py:117-119 | each entry maps to the app of the last job that wrote the id |
| Dashboard.Contributed | moonlite/utils/dashboard.py:103-119 | definition: the ids a job writes, none when its page or an id failed |
| Dashboard.Merged | moonlite/utils/dashboard.py:117-123 | definition of the shared map after the locked writes in completion order; stated by MergedKeys and MergedLastWriterWins |
| Dashboard.WritePackages | moonlite/utils/dashboard.py:117-119 | the lock block's loop performs exactly the job's write |
| Dashboard.WriteIds | moonlite/utils/dashboard.py:118-119 | the loop leaves the map as Written: each id of the job maps to its app and every other entry is kept (WrittenEntries) |
| Dashboard.GetPackages | moonlite/utils/dashboard.py:100-123 | the shared dict after all jobs is the merge of their writes in completion order; a job that raised contributes nothing |
| Url.FindFrom | moonlite/utils/dashboard.py:74 | `str.find` inside `urlparse`: the first index at or after the start that holds the character, or the end when none does |
| Url.FindLast | moonlite/utils/dashboard.py:74 | `str.rfind`: the last index holding the character, or -1 when none does |
| Url.SplitFirst | moonlite/utils/dashboard.py:74 | `split(c, 1)`: the first part has no `c`, and with a `c` the two parts joined by it give the text back; without one the text is the first part |
| Url.LStripC0 | moonlite/utils/dashboard.py:74 | stripping leading C0 controls and spaces leaves a suffix of the text that does not start with one |
| Url.RemoveUnsafe | moonlite/utils/dashboard.py:74 | no tab, carriage return or line feed is left, and nothing is added |
| Url.Sanitize | moonlite/utils/dashboard.py:74 | the first step of `urlsplit` leaves no tab, carriage return or line feed |
| Url.SanitizeClean | moonlite/utils/dashboard.py:74 | text that does not start with a control or space and has no tab, carriage return or line feed is left as it is |
| Url.SplitScheme | moonlite/utils/dashboard.py:74 | without a scheme, the rest is the whole text |
| Url.SplitNetloc | moonlite/utils/dashboard.py:74 | the authority has no `/`, `?` or `#`, and `//`, the authority and the rest rebuild the text |
| Url.UrlSplit | moonlite/utils/dashboard.py:74 | `urlsplit` leaves params empty and a path without `#` or `?` |
| Url.SplitParams | moonlite/utils/dashboard.py:74 | the path kept is a prefix of the path, and a path without `;` is kept whole with empty params |
| Url.UrlParse | moonlite/utils/dashboard.py:74 | `urlparse` has the scheme, authority, query and fragment of `urlsplit`, and a prefix of its path, the whole path when it has no `;` |
| Url.UrlParseOfPath | moonlite/utils/dashboard.py:106-107 | a plain absolute path without query, fragment or params parses as itself, every other part empty |
| Url.UrlParseOfHttps | moonlite/utils/dashboard.py:74 | `https://host/path?query` parses into exactly the scheme `https`, the host, the path and the query |
| Url.Unquote | moonlite/utils/dashboard.py:74 | unquoting never lengthens the text |
| Url.UnquoteAbsent | moonlite/utils/dashboard.py:74 | text without `%` is left as it is |
| Url.PercentEncode | moonlite/utils/dashboard.py:74 | every ASCII character becomes `%` and two hex digits |
| Url.UnquotePercentEncode | moonlite/utils/dashboard.py:74 | unquoting undoes percent-encoding of ASCII text |
| Keychecker.NormaliseKeys | moonlite/scrape/keychecker.py:46 | never more keys than given, and none holds a newline (scrape/keychecker.py:33 alike) |
| Keychecker.NormaliseKeysAppend | moonlite/scrape/keychecker.py:46 | normalisation distributes over concatenation, so the kept keys stay in input order |
| Keychecker.NormaliseKeysSingle | moonlite/scrape/keychecker.py:46 | a key is dropped iff it is empty; otherwise it is kept with its newlines removed |
| Keychecker.KeyRows | moonlite/scrape/keychecker.py:74-91 | definition of the header row and key row built from a page, or None where the source raises; stated by KeyRowsCases |
| Keychecker.KeyRowsCases | moonlite/scrape/keychecker.py:80-91 | rows exist iff the page was fetched and each of the first two tables has a second row (and, in the scrape/keychecker.py:56-62 copy, there are two tables); the header starts with `Key` and the row with the key |
| Keychecker.CsvWriter.constructor | moonlite/scrape/keychecker.py:57-63 | a fresh writer has written nothing and its headers_written event is clear |
| Keychecker.CsvWriter.WriteKey | moonlite/scrape/keychecker.py:85-91 | the header is written only if the event is clear, then the key row; the event is then set, and the header stays first and unique |
| Keychecker.QueryKey | moonlite/scrape/keychecker.py:67-95 | a set stop raises StopException before anything; a page without rows gives False and writes nothing; otherwise True and exactly the lock block's lines |
| Keychecker.KeyWrites | moonlite/scrape/keychecker.py:85-105 | definition: the rows of the jobs that saw no stop and built rows, in completion order |
| Keychecker.CsvOf | moonlite/scrape/keychecker.py:85-91 | definition of the file a sequence of locked writes produces |
| Keychecker.KeyCsv | moonlite/scrape/keychecker.py:57-105 | definition of the output file: the writes of the jobs the drain loop reads |
| Keychecker.CsvOfShape | moonlite/scrape/keychecker.py:85-91 | the header is written once, first, and only when some key row is; after it come the key rows of the writes, in order |
| Keychecker.CsvOfSnoc | moonlite/scrape/keychecker.py:85-91 | one more write adds the header only when nothing was written yet, then its key row |
| Keychecker.KeyWritesMembers | moonlite/scrape/keychecker.py:67-105 | a pair of rows is written exactly when one of the jobs that ran saw no stop and built those rows |
| Keychecker.KeyCsvHasRow | moonlite/scrape/keychecker.py:67-105 | every key whose job ran before the first stop and whose page yields rows has its row in the file |
| Keychecker.RunJob | moonlite/scrape/keychecker.py:67-95 | one job adds exactly its own write to the file, and raises exactly when it saw the stop |
| Keychecker.JobsEndAt | moonlite/scrape/keychecker.py:99-105 | when every job ran, or the last job that ran saw the stop, the drain loop reads exactly those jobs and the file holds their writes |
| Keychecker.RunJobs | moonlite/scrape/keychecker.py:99-105 | the file is exactly KeyCsv: the header once, then the key row of each job that built rows, in completion order, up to the first stop; the completions are those the drain loop reads |
| Keychecker.RunKeychecker | moonlite/scrape/keychecker.py:44-108 | on a cookie failure progress gets the exception once and no file is opened; with no keys nothing happens; otherwise the progress total is the number of keys and the file is exactly KeyCsv; when a job saw the stop, StopException is reported once and leaves the function before `p.close()` and `rows_written`, and otherwise `p.close()` runs and `rows_written` is the number of keys |
| Discounts.InsertPointRoundTrip | scrape/discounts.py:82 | inserting the point adds one character, and deleting it gives the amount text back |
| Discounts.AmountText | scrape/discounts.py:69 | the amount text has no point of its own |
| Discounts.MissingAmount | scrape/discounts.py:69-82 | a missing amount defaults to `000` and is written `0.00` |
| Discounts.AmountBelowTenMisread | scrape/discounts.py:69-82 | as written, 1 to 9 cents become `.n`, which reads as ten times the amount |
| Discounts.PaddedAmountText | scrape/discounts.py:82 | the corrected amount text has no point |
| Discounts.PaddedAmountReadsBack | scrape/discounts.py:82 | with zero-padding to three digits, the written amount puts the point before the last two digits and reads back as exactly the cents |
| Discounts.CentsOfDigits | scrape/discounts.py:82 | a digit string with the point put before its last two digits reads back as the same number of cents |
| Discounts.DecimalValueLastTwo | scrape/discounts.py:82 | the value of a digit string is its part before the last two digits times 100 plus the value of those two digits |
| Discounts.BuildRecord | scrape/discounts.py:66-85 | definition of the record of one row, as written; stated by BuildRecordCases |
| Discounts.BuildRecordCases | scrape/discounts.py:66-85 | a row fails (KeyError, or AttributeError without an `em`) iff a required field is missing; otherwise the record holds the job's package and app, the row's fields, percentage 0 and quantity 1 by default, and `str(amount)` with a point inserted before its last two characters |
| Discounts.RowsJob | scrape/discounts.py:63-88 | definition of the row loop as a value; stated by RowsJobPrefix |
| Discounts.RowsJobPrefix | scrape/discounts.py:62-88 | the records written are those of a prefix of the rows, in page order, each seen without a stop; the job completes iff every row was written, and otherwise raises StopException or the failing row's error |
| Discounts.PackageJob | scrape/discounts.py:57-88 | definition of package_thread as a value: the stop check, the request, then the row loop |
| Discounts.PackageJobRecords | scrape/discounts.py:70-72 | every record a package job writes carries its package id and its owning app |
| Discounts.RecordsFromMap | scrape/discounts.py:70-72 | definition: every line after the header is a record of a package of the map, under that package's app |
| Discounts.DictWriter.WriteHeader | scrape/discounts.py:53-55 | writeheader appends the CSV_HEADER fields, in order |
| Discounts.DictWriter.WriteRecord | scrape/discounts.py:87-88 | the lock block appends exactly one record line |
| Discounts.PackageThread | scrape/discounts.py:57-88 | the job appends exactly its records, in order, and ends as the job value says |
| Discounts.JobAt | scrape/discounts.py:94 | definition: the `k`-th job to run is package_thread for its package and that package's app |
| Discounts.Jobs | scrape/discounts.py:94 | one job per package, the `k`-th being the `k`-th to run |
| Discounts.CompletionsOf | scrape/discounts.py:95-99 | one completion per job, in the order the jobs ran |
| Discounts.RecordsOf | scrape/discounts.py:87-88 | definition: the records the jobs wrote, job after job |
| Discounts.DiscountsCsv | scrape/discounts.py:53-99 | definition of the output file: the header, then the records of each job the drain loop reads, in completion order |
| Discounts.RecordsOfMembers | scrape/discounts.py:87-88 | a record is in the file's records exactly when one of the jobs wrote it |
| Discounts.DiscountsCsvShape | scrape/discounts.py:53-94 | the file starts with the header, once, and every later line is a record of a package of the map under that package's app |
| Discounts.DiscountsCsvHasJob | scrape/discounts.py:57-99 | when no job up to the `k`-th raised, every record of the `k`-th job is in the file |
| Discounts.JobsEndAt | scrape/discounts.py:95-99 | when every job ran, or the last job that ran raised, the drain loop reads exactly those jobs |
| Discounts.RunPackageJob | scrape/discounts.py:94 | one job adds exactly its own records to the file and ends as its job value says |
| Discounts.RunPackageJobs | scrape/discounts.py:90-99 | the file gains exactly the records of the jobs the drain loop reads, in completion order; the completions are those it reads |
| Discounts.RunDiscounts | scrape/discounts.py:40-100 | a discovery failure is reported once and opens no file; otherwise the progress total is the number of packages in the map, the file is exactly DiscountsCsv, and when a job raised, that exception is reported once and StopException leaves the function before `p.close()` |
| Discounts.WriteDiscounts | scrape/discounts.py:53-100 | the file is exactly DiscountsCsv, the progress total is the number of packages, and `p.close()` runs exactly when no job raised |
| DiscountsView.Capitalize | discounts.py:43 | capitalisation keeps the length |
| DiscountsView.PrettyPart | discounts.py:43 | re-casing a part keeps its length |
| DiscountsView.PrettyPartCases | discounts.py:43 | `id` becomes `ID`; any other part keeps its letters, with the first upper-cased and the rest lower-cased |
| DiscountsView.HeaderPrettyPrettied | discounts.py:43 | the title keeps the length, has a space exactly where the name has `_`, and changes every other character only in case |
| DiscountsView.HeaderPrettySpaces | discounts.py:43 | for a name without spaces, the title has a space exactly at each `_` |
| DiscountsView.HeaderPrettyParts | discounts.py:43 | splitting the title on spaces gives the re-cased parts of the name |
| DiscountsView.HeaderPrettyRoundTrip | discounts.py:43-44 | lower-casing a lower-case snake name's title and turning its spaces back into `_` gives the name back |
| DiscountsView.DiscountIdTitle | discounts.py:43 | `discount_id` is titled `Discount ID` |
| DiscountsView.HeadersPretty | discounts.py:44 | one title per CSV_HEADER field |
| DiscountsView.CsvHeaderNames | scrape/discounts.py:20-31 | every CSV_HEADER name is lower-case snake case, and no two are alike |
| DiscountsView.HeadersPrettyOnePerField | discounts.py:44 | title i reads back as field i, and no two titles are alike |
| DiscountsView.FormatCell | discounts.py:30-41 | formatting succeeds iff the column is a CSV_HEADER field and a date column holds a datetime; otherwise KeyError or AttributeError |
| DiscountsView.DateCellFields | discounts.py:34-35 | a date cell is ten characters, split by `/` into a 4-digit year, a 2-digit month and a 2-digit day that read back as the date |
| DiscountsView.NumberCells | discounts.py:38-39 | a percentage is the value followed by `%`, an amount is `-$` followed by the value, and a non-negative percentage reads back |
| DiscountsView.Fields | discounts.py:121-122 | one raw value per CSV_HEADER field |
| DiscountsView.Cells | discounts.py:143 | one formatted cell per column |
| DiscountsView.TitledValuesLookup | discounts.py:122 | when the titles are distinct, the row dict holds every field's raw value under that field's title |
| DiscountsView.SavedLine | discounts.py:119-122 | the line written for a row is its raw values in CSV_HEADER field order, each under its own title |
| DiscountsView.DiscountsScraper.Save | discounts.py:111-124 | with no rows, nothing is written; otherwise the title line, then one line per row holding its raw values in field order |
| DiscountsView.DiscountsScraper.PopulateTable | discounts.py:139-143 | the table is rebuilt with item i, iid i, showing row i's formatted cells, in collected order |
| DiscountsView.DiscountsScraper.ScrapeEnded | discounts.py:216-221 | the scrape's result becomes the rows, with None counting as none; the table is refilled and the window is idle |
| KeycheckerView.NormaliseLines | keychecker.py:108 | on newline-free lines, normalisation keeps exactly the non-empty lines, in order |
| KeycheckerView.TextBoxKeysAreLines | keychecker.py:108 | the keys are the box's non-empty lines, in order; none is empty and none holds a newline |
| KeycheckerView.NonEmptyLinesKept | keychecker.py:108 | every kept line is non-empty and comes from the box |
| KeycheckerView.TextBoxKeysRoundTrip | keychecker.py:108 | keys typed one per line, with the trailing newline the widget adds, come back as typed, and a box holding only that newline gives no key |
| KeycheckerView.NoKeysIffOnlyNewlines | keychecker.py:108-109 | the box yields no key iff it holds nothing but newlines |
| KeycheckerView.NormaliseTextBoxKeys | keychecker.py:108 | the scraper's own normalisation leaves the box's keys unchanged |
| KeycheckerView.KeycheckerWindow.constructor | widgets/tool_frame.py:8-11 | a new window holds no thread and has a clear stop flag |
| KeycheckerView.KeycheckerWindow.Cleanup | widgets/tool_frame.py:24-26 | cleanup sets the stop flag and disables the buttons |
| KeycheckerView.KeycheckerWindow.ToggleScrape | keychecker.py:107-194 | an empty box shows the message and changes nothing; an idle window starts exactly one scrape with the box's keys; a running one only has its stop requested; in each branch every field it does not name keeps its value |
| KeycheckerView.KeycheckerWindow.ThreadEnded | keychecker.py:178-187 | the scrape thread ends and every other field of the window keeps its value |
| KeycheckerView.KeycheckerWindow.WatcherReset | keychecker.py:178-187 | the watcher lets go of the ended thread and enables the buttons, so the next toggle can start |
| Insights.FindDataScript | moonlite/scrape/insights.py:75-88 | exactly one data script succeeds after one look; otherwise the same page is examined three times and the job raises |
| Insights.MinDate | moonlite/scrape/insights.py:81 | min_date is the later of the app's earliest date and from_date |
| Insights.DayCount | moonlite/scrape/insights.py:123 | definition: `(max_date - min_date).days + 1`, negative when the range is inverted (DayCountNegative) |
| Insights.DayJobs | moonlite/scrape/insights.py:123-126 | one job per day of the range, and none for an empty range |
| Insights.DayJobsAreTheRange | moonlite/scrape/insights.py:123-126 | the jobs are max_date, max_date - 1, …, min_date, newest first, covering every day of the range; an inverted range submits nothing |
| Insights.DayJobsDistinct | moonlite/scrape/insights.py:126 | no day is submitted twice |
| Insights.DayCountNegative | moonlite/scrape/insights.py:123-124 | as written, an earliest date two days after to_date gives a progress total of -1 with no job submitted |
| Insights.ProgressTotal | moonlite/scrape/insights.py:123-124 | the corrected total is the number of submitted day jobs, which equals the day count whenever that is not negative |
| Insights.DayResultFirstDecisive | moonlite/scrape/insights.py:97-119 | a day job ends at its first decisive attempt (stop, save, or a non-transient error), having retried every timeout and connection error before it; it keeps retrying iff no attempt is decisive |
| Insights.DayResult | moonlite/scrape/insights.py:97-119 | definition of how a day job ends; stated by DayResultFirstDecisive |
| Insights.CsvThread | moonlite/scrape/insights.py:94-119 | the loop's outcome is the day result; it stops at the first decisive attempt and makes no attempt after it |
| Insights.FileDateDetermines | utils/time.py:4 | two four-digit-year dates with the same YYYYMMDD text are the same date |
| Insights.DayFileNamesDistinct | moonlite/scrape/insights.py:109 | different days of one app get different file names |
| Insights.DayFileName | moonlite/scrape/insights.py:109 | definition of the day's file name; DayFileNamesDistinct states that distinct days get distinct names |
| Insights.LookupKeys | moonlite/scrape/insights.py:56 | the lookup's keys are the app ids, each once |
| Insights.AppJobs | moonlite/scrape/insights.py:136 | app job i is the i-th lookup key, numbered i out of the number of apps |
| Insights.AppJobsOnePerApp | moonlite/scrape/insights.py:136 | every app gets exactly one job |
| Insights.AppThread | moonlite/scrape/insights.py:63-132 | a stop raises before anything; a missing script raises; otherwise the submitted days are the range from max_date down, the progress total is the raw day count (the number of days when not negative), the first failing day is reported once and ends the job with StopException before `p.close()`, and otherwise `p.close()` runs |
| Insights.InsightsScrape | moonlite/scrape/insights.py:41-142 | a failed discovery is reported once; otherwise one job per app, an app failure is passed to the progress class, and the scrape itself never raises |
| InsightsView.AppProgress.constructor | insights_scraper.py:158-179 | a new progress object counts for its app from day 0 |
| InsightsView.AppProgress.Update | insights_scraper.py:187-190 | update(n) increases the day counter by exactly n |
| InsightsView.InsightsScraperWindow.constructor | insights_scraper.py:20-26 | a new window is idle, with no bars and no dialog |
| InsightsView.InsightsScraperWindow.Cleanup | insights_scraper.py:105-107 | cleanup sets the stop flag and disables the buttons |
| InsightsView.InsightsScraperWindow.ToggleScrape | insights_scraper.py:114-224 | an inverted range starts nothing and moves to_date to from_date; an idle window clears the stop flag and the bars and starts exactly one scrape; a running one only has its stop requested; in each branch every field it does not name keeps its value |
| InsightsView.InsightsScraperWindow.NewProgress | insights_scraper.py:143-185 | the loading bar goes; a bar is added only for a new app id; an exception shows its dialog and cleans up only when no stop is set, so exception cleanups run at most once per scrape |
| InsightsView.InsightsScraperWindow.ThreadEnded | insights_scraper.py:210-219 | the scrape thread ends and every other field of the window keeps its value |
| InsightsView.InsightsScraperWindow.WatcherReset | insights_scraper.py:210-219 | scrape_thread is reset and the buttons are enabled, so the next toggle can start; every other field keeps its value |
| GrantPackage.RelationsFor | moonlite/scrape/grant_package.py:48 | one steamid's jobs, one per package id, in order |
| GrantPackage.Relations | moonlite/scrape/grant_package.py:48-49 | there are |steamids| × |packageids| relations, and that is the progress total |
| GrantPackage.RelationsPosition | moonlite/scrape/grant_package.py:48 | the pair (i, j) sits at position i·|packageids| + j: steamid-major order |
| GrantPackage.RelationsMembers | moonlite/scrape/grant_package.py:48 | a pair is a job iff both its steamid and its package id were given |
| GrantPackage.RelationsOnce | moonlite/scrape/grant_package.py:48 | without repeated inputs, every pair is granted exactly once |
| GrantPackage.NoRelationsWhenEmpty | moonlite/scrape/grant_package.py:48-51 | an empty steamid or package id list gives no job |
| GrantPackage.NumericPartsAppend | moonlite/scrape/grant_package.py:62 | each comma-separated part is judged on its own, and order is kept |
| GrantPackage.NumericPartsSkip | moonlite/scrape/grant_package.py:62 | a part that is not entirely numeric contributes nothing |
| GrantPackage.PackageIdsFromInput | moonlite/scrape/grant_package.py:62 | definition of the package-id filter; stated by PackageIdsRoundTrip |
| GrantPackage.IdTexts | moonlite/scrape/grant_package.py:62 | the decimal text of each id, in order |
| GrantPackage.PackageIdsRoundTrip | moonlite/scrape/grant_package.py:62 | ids typed with commas between them read back as exactly those ids, and an empty input reads back as no id |
| GrantPackage.GrantResultCases | moonlite/scrape/grant_package.py:26-44 | a grant job only stops or succeeds: no request error escapes it |
| GrantPackage.GrantResult | moonlite/scrape/grant_package.py:26-44 | definition of how a grant job ends; stated by GrantResultCases |
| GrantPackage.Grant | moonlite/scrape/grant_package.py:26-44 | the retry loop checks stop before every attempt and retries every failed POST; at most one POST succeeds, and one does iff the job ends Done |
| GrantPackage.GrantPackages | moonlite/scrape/grant_package.py:15-57 | the jobs are the relations, the progress total is their number, and the drain reports the first stopped job once and ends with StopException before `p.close()`, which runs exactly when no job raised |
| GrantPackageView.SteamId64OfNumber | moonlite/grant_package.py:91 | every number from 10^16 up to but excluding 10^20, written out, is accepted |
| GrantPackageView.NumberOfSteamId64 | moonlite/grant_package.py:91 | an accepted highlight without a leading zero is a number from 10^16 up to but excluding 10^20 |
| GrantPackageView.IsSteamId64 | moonlite/grant_package.py:91 | definition of the STEAMID64 check; stated by SteamId64OfNumber and NumberOfSteamId64 |
| GrantPackageView.FetchProfile | moonlite/grant_package.py:80-122 | a highlight is rejected iff it is empty, not all digits, or outside 17 to 20 characters, and a rejected highlight takes the error path with no request; an accepted one makes one or two requests; a profile needs both, and shows the downloaded avatar |
| GrantPackageView.ProfileShown | moonlite/grant_package.py:93-110 | a STEAMID64 whose summary names the player and whose avatar downloads shows that player |
| RemotePlay.DatasetMap | moonlite/scrape/remote_play.py:70-73 | a day is in a dataset's map iff some point has it |
| RemotePlay.DatasetMapLastPoint | moonlite/scrape/remote_play.py:71 | the map's value for a day is that of the day's last point |
| RemotePlay.PairCount | moonlite/scrape/remote_play.py:78 | zip stops at the shorter of labels and datasets |
| RemotePlay.GraphEntries | moonlite/scrape/remote_play.py:78 | the k-th pair joins the k-th label with the k-th dataset |
| RemotePlay.LastInAppend | moonlite/scrape/remote_play.py:80-85 | merging one more dataset overrides exactly its own (day, graph, label) values and adds its days |
| RemotePlay.Put | moonlite/scrape/remote_play.py:81-85 | definition of one write into `master`; stated by PutGet |
| RemotePlay.PutGet | moonlite/scrape/remote_play.py:81-85 | one write into master sets exactly its own (day, graph, label) and adds only its day |
| RemotePlay.MergeDataset | moonlite/scrape/remote_play.py:80-85 | the innermost loop keeps master equal to the merge of the entries seen |
| RemotePlay.MergeGraph | moonlite/scrape/remote_play.py:78-85 | the middle loop merges the graph's zipped pairs in order |
| RemotePlay.GraphHeaders | moonlite/scrape/remote_play.py:76 | a graph contributes `name.label` for every label, zipped or not |
| RemotePlay.Graphs | moonlite/scrape/remote_play.py:62-67 | the graphs of the h2s, in page order |
| RemotePlay.MergePage | moonlite/scrape/remote_play.py:57-85 | AssertionError iff the page lacks exactly three h2s each followed by a script; otherwise master holds, for each (day, graph, label), the value of the last matching point, and the headers are `Date` followed by every graph's headers |
| RemotePlay.MergeGraphs | moonlite/scrape/remote_play.py:62-85 | the h2 loop fails iff some h2 is not followed by a script, and otherwise merges every graph |
| RemotePlay.MergeNext | moonlite/scrape/remote_play.py:76-85 | one pass of the h2 loop extends the headers by the graph's headers and keeps master equal to the merge of every graph seen so far, this one included |
| RemotePlay.HeaderSplits | moonlite/scrape/remote_play.py:100 | a header splits on `.` back into its graph and label |
| RemotePlay.HeaderCellsCount | moonlite/scrape/remote_play.py:76 | every label of every graph gets a header |
| RemotePlay.HeaderCellsNamed | moonlite/scrape/remote_play.py:76 | every header after `Date` names a graph and one of its labels |
| RemotePlay.StrLessIrreflexive | moonlite/scrape/remote_play.py:98 | Python's string order is irreflexive |
| RemotePlay.StrLessTransitive | moonlite/scrape/remote_play.py:98 | Python's string order is transitive |
| RemotePlay.StrLessTotal | moonlite/scrape/remote_play.py:98 | Python's string order is total |
| RemotePlay.InsertAscending | moonlite/scrape/remote_play.py:98 | inserting a new day keeps the list ascending, adds exactly that day and grows it by one |
| RemotePlay.Sorted | moonlite/scrape/remote_play.py:98 | definition of `sorted(master.keys())`; stated by SortedDays |
| RemotePlay.SortedDays | moonlite/scrape/remote_play.py:98 | sorted(master.keys()) lists every day exactly once, in ascending order |
| RemotePlay.RowOfHeaders | moonlite/scrape/remote_play.py:99-103 | a row has one cell per header |
| RemotePlay.RowCell | moonlite/scrape/remote_play.py:100-101 | definition of one cell: the day under `Date`, otherwise the stored count or 0, IndexError for a header without a `.` |
| RemotePlay.Row | moonlite/scrape/remote_play.py:99-103 | definition of one day's row; stated by RowOfHeaders |
| RemotePlay.Rows | moonlite/scrape/remote_play.py:98-103 | definition of the rows, one per day; stated by RowsOfHeaders |
| RemotePlay.RowsOfHeaders | moonlite/scrape/remote_play.py:98-103 | one row per day, in the given order |
| RemotePlay.GraphCsv | moonlite/scrape/remote_play.py:95-103 | one row per distinct day, ascending, each holding every header: the day under `Date`, the last merged value for the header's (graph, label), or 0 |
| RemotePlay.CellOfPair | moonlite/scrape/remote_play.py:100 | the cell under `name.label` is master's value for it, or 0 |
| RemotePlay.HeadersDotted | moonlite/scrape/remote_play.py:18-19 | with names and labels free of `.`, every header is `Date` or splits into two parts |
| RemotePlay.BeforeMarker | moonlite/scrape/remote_play.py:114 | the text before the first `(?)`: a prefix holding no marker, followed by one when it is shorter |
| RemotePlay.CleanCell | moonlite/scrape/remote_play.py:114 | cleaning never lengthens a cell |
| RemotePlay.CleanCellTidy | moonlite/scrape/remote_play.py:114 | a tidy cell is kept as it is |
| RemotePlay.CleanRow | moonlite/scrape/remote_play.py:113-116 | a cleaned row is never longer than the row |
| RemotePlay.CleanRowOfFilled | moonlite/scrape/remote_play.py:113-116 | blank cells are skipped, and every other cell is kept, cleaned, in order |
| RemotePlay.MakeTable | moonlite/scrape/remote_play.py:107-118 | a missing period table or one without rows is an AttributeError; otherwise one output row per row after the first |
| RemotePlay.CleanRows | moonlite/scrape/remote_play.py:112-118 | one cleaned row per table row |
| RemotePlay.Filled | moonlite/scrape/remote_play.py:108 | the non-blank cells, each taken from the row |
| RemotePlay.ExportApp | moonlite/scrape/remote_play.py:35-118 | one app's export writes the graph CSV and then the table CSV, and stops at the first exception |
| RemotePlay.RemotePlayRun | moonlite/scrape/remote_play.py:22-118 | a discovery failure exports nothing and returns; otherwise the apps are exported in order, and the first exception ends the call |
| HtmlPreprocess.RunEnd | moonlite/utils/scrape.py:15 | a whitespace run extends to the first non-whitespace character |
| HtmlPreprocess.LastLineEnd | moonlite/utils/scrape.py:15 | the backtracking point of `\s+$` is the last line end in range |
| HtmlPreprocess.TrimLinesFrom | moonlite/utils/scrape.py:15-16 | step 1 never lengthens the text |
| HtmlPreprocess.TrimLinesKeepsText | moonlite/utils/scrape.py:15-16 | step 1 keeps non-whitespace characters, so its output is non-empty while one remains |
| HtmlPreprocess.TrimLinesEnd | moonlite/utils/scrape.py:15-16 | after step 1 the text does not end with whitespace |
| HtmlPreprocess.TrimLinesStart | moonlite/utils/scrape.py:15-16 | after step 1 the text does not start with whitespace |
| HtmlPreprocess.NewlinesToSpaces | moonlite/utils/scrape.py:17 | step 2 turns each newline into a space and changes nothing else |
| HtmlPreprocess.TrimBeforeOpenFrom | moonlite/utils/scrape.py:19 | step 3 never lengthens the text and keeps the last character |
| HtmlPreprocess.TrimAfterCloseFrom | moonlite/utils/scrape.py:20 | step 4 never lengthens the text and keeps the first character |
| HtmlPreprocess.TrimBeforeOpenOnlyDeletes | moonlite/utils/scrape.py:19 | step 3 only deletes: it adds no character |
| HtmlPreprocess.TrimAfterCloseOnlyDeletes | moonlite/utils/scrape.py:20 | step 4 only deletes: it adds no character |
| HtmlPreprocess.TrimBeforeOpenClean | moonlite/utils/scrape.py:19 | after step 3 no whitespace precedes a `<` |
| HtmlPreprocess.TrimAfterCloseClean | moonlite/utils/scrape.py:20 | after step 4 no whitespace follows a `>`, and none has been put before a `<` |
| HtmlPreprocess.PreprocessClean | moonlite/utils/scrape.py:4-21 | the output has no newline, no whitespace before `<` or after `>`, and none at either end, and it is never longer than the input |
| HtmlPreprocess.Preprocess | moonlite/utils/scrape.py:4-21 | definition of bs_preprocess as its four passes; stated by PreprocessClean |
| TimeUtil.BeforeIffOrdinalLess | moonlite/scrape/insights.py:81 | Python's date order is the order of the day numbers |
| TimeUtil.Later | moonlite/scrape/insights.py:81 | max of two dates is one of them and is not before either |
| TimeUtil.PrevDayOrdinal | moonlite/scrape/insights.py:126 | the previous day is one day number earlier |
| TimeUtil.MinusOrdinal | moonlite/scrape/insights.py:126 | subtracting x days takes exactly x off the day number |
| TimeUtil.Minus | moonlite/scrape/insights.py:126 | `d - timedelta(days=x)` is a valid date; MinusOrdinal states it is exactly `x` days earlier |
| TimeUtil.FormatDate | utils/time.py:3 | definition of `MM/DD/YYYY`; stated by FormatDateFields |
| TimeUtil.FormatFileDate | utils/time.py:4 | definition of `YYYYMMDD`; stated by FormatFileDateDigits |
| TimeUtil.FormatFileDateDigits | utils/time.py:4 | DATE_FORMAT_FILE prints a four-digit-year date as eight digits worth year·10000 + month·100 + day |
| TimeUtil.FormatDateFields | utils/time.py:3 | DATE_FORMAT prints a two-digit month, a two-digit day and the year, separated by `/`, each reading back |
| TimeUtil.WholeSecondsText | utils/time.py:17 | the whole-seconds text has no point |
| TimeUtil.TimeTakenWholeSeconds | utils/time.py:6-17 | the result has no point and is the text of the whole seconds: the sub-second part is dropped |
| TimeUtil.TimeTakenIgnoresMicroseconds | utils/time.py:17 | two durations with the same whole seconds print the same |
| TimeUtil.TimeTakenBelowOneDay | utils/time.py:6-17 | below one day the result is H:MM:SS with unpadded hours and two-digit minutes and seconds, and it reads back as the whole seconds |
| TimeUtil.ClockParts | utils/time.py:17 | the clock part has three digit fields, the last two of two digits, reading back as the seconds |
| TimeUtil.TimeTakenDays | utils/time.py:17 | from one day on, the result is the day count, `day, ` or `days, `, and then the clock of the remaining seconds |
| TimeUtil.TimedeltaText | utils/time.py:17 | definition of `str(timedelta)`: whole-seconds text, then `.ffffff` when there are microseconds |
| TimeUtil.TimeTaken | utils/time.py:6-17 | definition of time_taken_seconds; stated by TimeTakenWholeSeconds and TimeTakenIgnoresMicroseconds |
| TimeUtil.FiveSeconds | utils/time.py:6-17 | five seconds print as `0:00:05`, not the HH:MM:SS the docstring announces |

## Left out

- Threads and executors are not modelled as such. Completion order and stop-flag readings are inputs, and each lock block is one atomic step:
  - `as_completed` ordering;
  - the pools' worker threads;
  - `ThreadWithReturn`;
  - the windows' watcher polling, which is split into `ThreadEnded` and `WatcherReset`.
- Network requests, BeautifulSoup traversal, and the regex and JSON extraction from page scripts are left out. They are foreign libraries, so parsed tables, rows, graphs and player summaries are inputs.
- RemotePlay.MergePage: an h2 is either followed by a script or not. An h2 with no next sibling at all makes moonlite/scrape/remote_play.py:63-64 raise AttributeError, because `.name` is read on None. The model folds that case into the AssertionError of a sibling that is not a script.
- The browser cookie library is left out. The jar is one snapshot per attempt.
- File system access is left out. `open`, `mkdir`, CSV quoting and save dialogs are replaced by the sequence of lines written.
- Timezone conversion of the discount dates is left out because it needs a timezone database. The dates arrive already rendered.
- Floating-point progress is left out. Bar percentages and download ratios are not modelled, and `time_taken_seconds` takes a whole number of microseconds.
- The argument synthesis through `inspect.signature` in scrape/progress.py:51-55 is left out. It is one call that passes the exception.
- tkinter layout, message boxes and the highlight and placeholder widgets are left out. What a message box shows is the `Progress.Handler` it picks.
- The bar label texts are left out.
- The unicode-escaped error label of the grant window is left out. Only the fact that it is shown is kept.
- The start/stop toggle and cleanup of discounts.py are left out. They repeat the keychecker window's rules.
- The insights and discounts scrape threads' own calls into the scrapers are left out. The GUI's call to `discounts` does not match the scraper's signature. The package-to-app map and the app list are inputs.
- The interactive console input of every `__main__` block is left out, except the package-id filter of moonlite/scrape/grant_package.py:62. The same goes for the tqdm progress classes and the update wrapper.
- `time.sleep(1)` in the grant retry is left out.
- `str.isnumeric` is modelled on ASCII digits, and `capitalize`/`lower`/`upper` on ASCII letters.
- Cell values are integers, not floats.
- Remote play's `master` keeps its days in insertion order for `sorted`, because Python's dict order is not needed beyond that.
- Retries that never end are left out. The grant and day loops are given a finite list of attempts that ends with a decisive one.
- Dashboard.GetPackages: the `pool.map` results are never consumed, so a job that raises contributes nothing and its error is lost. The model keeps this; it does not model reuse of `get_app_results`, because the app list is an input.
- The keychecker's `rows_written` counts every submitted future (moonlite/scrape/keychecker.py:107), as the code does. It does not count the `True` results.
- In the insights scraper, the outer `except Exception as e: raise e` (moonlite/scrape/insights.py:141-142) cannot run. The drain only ever raises StopException, and that is swallowed.
- The discounts window is only given rows that have every field and a datetime in both date columns (`DiscountsView.Complete`), so the KeyError that `_save` and `_populate_table` would raise on an incomplete row is not modelled.
- GetApps: the ids come from `urlparse` and `unquote` as modelled in `Url`, on Python 3.12's rules, with three approximations. The ValueError checks `urlsplit` makes on a bracketed or non-ASCII netloc are not modelled. An escaped byte of 0x80 or more unquotes to U+FFFD instead of being decoded as UTF-8; this never changes a `/` or an ASCII digit, so under the ASCII-digit model of `isnumeric` (below) the ids are the same. `PurePosixPath`'s collapsing of empty and `.` parts is left out; those parts are never numeric.
- PackageIds: the same `Url` model and the same approximations as GetApps.
- Discounts.RunDiscounts: scrape/discounts.py:17 imports `get_packages` from `utils.dashboard`, which defines no such name. As written, importing the discounts scraper raises ImportError. The model instead takes the package-to-app map that `get_packages` in moonlite/utils/dashboard.py:83-123 builds as its `discovery` input.
- RemotePlay.RemotePlayRun: moonlite/scrape/remote_play.py:13 imports `Dashboards` from `moonlite.utils.dashboard`, which defines no such name. As written, importing the remote play scraper raises ImportError. The model's `apps` input stands in for the cookies and app list that `Dashboards.STEAMPOWERED.cookies` and `get_apps` would give (lines 25-27), with their failure as the discovery error.
- RunJobs: a job still running when the drain loop raises can finish and write its row before the pool's `with` block exits. The model serialises the jobs in completion order and stops at the first stop, so such late rows are not in the modelled file.
- RunPackageJobs: as for RunJobs, records written by package jobs still running after the drain loop raised are not in the modelled file.

## Findings

| source | as written | input that shows it | evidently intended | confidence | as-written member | corrected member |
|---|---|---|---|---|---|---|
| scrape/discounts.py:69-82 | the amount in cents is written as `s[:-2] + '.' + s[-2:]`, so an amount of 1 to 9 cents has a single digit after the point | amount 5 is written `.5`, which reads as 50 cents | zero-pad to at least three digits, so the point always has two cent digits and a whole part: `0.05` | not executed | Discounts.AmountBelowTenMisread | Discounts.PaddedAmountReadsBack |
| moonlite/scrape/insights.py:123-124 | the progress total is `(max_date - min_date).days + 1`, which is negative when the app's earliest date is after to_date | earliest date 2020-01-03 with to_date 2020-01-01 gives a total of -1, while `range(-1)` submits no day | a total equal to the number of submitted days, never negative | not executed | Insights.DayCountNegative | Insights.ProgressTotal |
