# Asteroid ETL pipeline and read layer: a Dafny model

This project models the core of a small ETL pipeline for NASA NeoWs
near-Earth-object data, and the read layer over its table.

- **Extract.** An hourly Airflow task downloads the NeoWs "browse" catalogue
  page by page. It resumes after the watermark kept in `progress.json`. It
  fetches at most `PAGES_PER_RUN` pages, stops at the first page it cannot
  download, and writes the new watermark back.
- **Transform.** This step reads the staged page files from the data
  directory. It flattens every near-earth object into a sixteen-column
  record and coerces the six orbital columns to numbers, with missing values
  staying missing. It then drops the records whose id is already stored.
- **Read.** The web API answers queries over the stored `asteroids` table:
  - by id;
  - hazardous objects;
  - the N largest by maximum diameter;
  - a multi-filter search.

  Each answer has its NULLs rendered as the string `'null'`.

The model has six modules.

- `Pipeline` (`pipeline.dfy`) models `extract_incremental`.
  - It is imperative: `ExtractIncremental` has the loop and its `break`.
  - Where the source appends each `filename` inside the loop
    (dags/pipeline_dag.py:62), the method collects the downloaded page
    numbers in `fetchedPages` and maps them to their paths with `PagePaths`
    after the loop. `PagePathsSnoc` states that this list is the one that
    appending each new page's path inside the loop would build.
  - The method keeps a third accumulator that the source does not have:
    `attempted`, the pages a download was tried for. The contract about
    halting on the first failure is stated on it.
  - The method is proved against the specification function `Plan`. The
    lemmas about `Plan` state the window bounds, the halt on first failure
    and the watermark rules.
  - The network is a parameter `fetchOk: int -> bool`, meaning "page p
    downloads". The progress file is an input `ProgressFile`, whose new
    contents the method returns.
- `Transform` (`transform.dfy`) models `extract_fields`, `create_df` and
  the dedup filter of `transform`.
  - JSON values are `Json.Value`. A Python `None` or JSON `null` is `JNull`.
  - The data directory is a sequence of entries in listing order, each with
    a name and its parsed contents.
  - The store's ids are an input that can fail.
- `Queries` (`queries.dfy`) models `get_by_id`, `get_hazardous_objs`,
  `get_top_n_largest`, `search_asteroids` and the `fillna('null')`
  rendering.
  - Each SQL query is a filter (`Where`), a sort and a limit over the
    table's rows.
  - A NULL column is `None`, and a comparison with NULL never selects a row.
  - `ILIKE` is a LIKE matcher (`%`, `_`) with case folding.
- `Handoff` (`handoff.dfy`) connects the two steps. Every file the
  extraction writes is staged for the transformation, and distinct pages
  never share a file name.
- `Wrappers` and `Json` hold the `Option`/`Result` types and the JSON value
  type.

## Edge cases kept as the code has them

- **An empty catalogue.** With `total_pages = 0` the code computes
  `start_page = -1` and `end_page = 0` (dags/pipeline_dag.py:47-52), so it
  tries to download page -1. The
  model keeps this as written: `Plan` attempts `[-1]` in that case when
  the cap is at least one page.
  `AttemptsStayInCatalogue` and `WatermarkBounds` require a catalogue of at
  least one page, as their preconditions show.
- **A watermark beyond the catalogue.** When the stored watermark is
  `total_pages` or more, the code re-downloads page `total_pages - 1`. If
  that download succeeds, it writes that page back, which *lowers* the
  stored watermark. If the download fails, the watermark stays `last_page`
  (dags/pipeline_dag.py:55, 65-67). `UpToDateRefetchesLastPage` states both
  cases. `WatermarkBounds` therefore requires `last_page <= total_pages - 1`.
- **Staged files that hold no objects.** When files are staged but none of
  them holds an object, `pd.concat` yields a frame without columns. The
  `astype(float)` assignment then raises `KeyError`
  (src/scripts/transform.py:47-53). The model returns
  `Err(MissingColumns)` (`EmptyFrameIffNoStagedFiles`). It does not return
  an empty frame.
- **Objects that are not mappings.** An `estimated_diameter`, `meters` or
  `orbital_data` value that is present but is not an object makes `.get`
  fail with `AttributeError` (src/scripts/transform.py:13-25). The model
  returns `Err(NotAnObject(key))`.
  `ExtractFields` succeeds exactly on the objects whose three nested
  sections are absent or objects (`WellShaped`).
- **What `near_earth_objects` holds.** The comprehension is plain Python
  iteration over that value (src/scripts/transform.py:42-44). An empty object or an empty string therefore
  gives a page with no records. A non-empty object or string yields keys or
  characters, and `.get` fails on them. The model returns
  `Err(EntryNotAnObject)` for that case. A missing key, a document that is
  not an object and a value that cannot be iterated give
  `Err(NoObjectList)`. A file that does not parse gives `Err(InvalidJson)`.

## Model

| member | source | states |
|---|---|---|
| Pipeline.LoadLastPage | dags/pipeline_dag.py:36-43 | a missing progress file, unparsable JSON or an object without "last_page" give -1; otherwise the stored value |
| Pipeline.StartPage | dags/pipeline_dag.py:47-50 | the first page is last_page + 1, or total_pages - 1 when the watermark has reached the end; it is always below total_pages |
| Pipeline.EndPage | dags/pipeline_dag.py:52 | the end of the window is start + PAGES_PER_RUN capped at total_pages, and is one of the two |
| Pipeline.LeadingSuccesses | dags/pipeline_dag.py:59-67 | the number of leading downloads that succeed: every page before it succeeded, and the page at it, if in the window, failed |
| Pipeline.LeadingSuccessesIs | dags/pipeline_dag.py:59-67 | any count with those two properties is the number of leading successes (uniqueness of the halt point) |
| Pipeline.SavedProgress | dags/pipeline_dag.py:69-70 | the progress file written is read back by the next run as the watermark written |
| Pipeline.PlanOfRun | dags/pipeline_dag.py:47-67 | a loop that stopped after n successes, where it had to stop, produced exactly the plan's attempted pages, downloads and watermark |
| Pipeline.Plan | dags/pipeline_dag.py:47-67 | the window never has negative length; the attempted pages are the downloads, or the downloads followed by the one page whose failure stopped the loop; with no download the watermark stays the loaded one |
| Pipeline.Pages | dags/pipeline_dag.py:59 | `range(start, start + n)` holds n pages |
| Pipeline.PagesSnoc | dags/pipeline_dag.py:59 | the pages of the range grow by one page at the end per iteration |
| Pipeline.PagePaths | dags/pipeline_dag.py:61-62 | one path per downloaded page |
| Pipeline.PagePathsSnoc | dags/pipeline_dag.py:61-62 | fetched_files grows by the path of the new page at the end |
| Pipeline.PagesAt | dags/pipeline_dag.py:59 | the i-th page of the range is start + i |
| Pipeline.NatToString | scripts/fetch_from_neows.py:11 | the decimal rendering of a page number is a non-empty string of digits |
| Pipeline.IntToString | scripts/fetch_from_neows.py:11 | the page number in a file name is non-empty and starts with '-' exactly for a negative page |
| Pipeline.PageFileName | scripts/fetch_from_neows.py:11 | a page's file name starts with "asteroids_page_" and ends in ".json" |
| Pipeline.PagePath | scripts/fetch_from_neows.py:11 | a page's file lies in the data directory |
| Pipeline.ExtractIncremental | dags/pipeline_dag.py:36-71 | the loop attempts exactly the plan's pages, returns the paths of the downloaded pages in page order, and writes the plan's watermark to the progress file on every exit |
| Pipeline.WindowBounds | dags/pipeline_dag.py:52-59 | every attempted page lies in [start, end); at most PAGES_PER_RUN pages are attempted; downloads are at most the attempts |
| Pipeline.AttemptsStayInCatalogue | dags/pipeline_dag.py:47-59 | for a catalogue of at least one page and a watermark of at least -1, no page outside [0, total_pages) is attempted |
| Pipeline.HaltsOnFirstFailure | dags/pipeline_dag.py:59-67 | the downloads are start, start+1, ...; each succeeded; at most one more page was attempted and it failed; when none failed, the window was exhausted |
| Pipeline.WatermarkIsLastDownloaded | dags/pipeline_dag.py:55-63 | the watermark is unchanged when nothing was downloaded, and is the last downloaded page otherwise |
| Pipeline.WatermarkBounds | dags/pipeline_dag.py:47-63 | for total_pages >= 1 and -1 <= last_page <= total_pages - 1, the new watermark lies in [last_page, total_pages - 1] |
| Pipeline.UpToDateRefetchesLastPage | dags/pipeline_dag.py:48-50 | once the watermark has reached the last page, only that page is downloaded again, and the watermark becomes that page if the download succeeds |
| Pipeline.NextRunResumes | dags/pipeline_dag.py:47-70 | the next run loads the watermark written and starts right after it unless it is the last page |
| Pipeline.FreshStartExample | dags/pipeline_dag.py:36-63 | no progress file, 5 pages, 3 per run, all succeed: pages 0, 1, 2 are downloaded and the watermark becomes 2 |
| Pipeline.LastPageExample | dags/pipeline_dag.py:47-63 | last_page 4 of 5 pages: only page 4 is attempted and the watermark stays 4 |
| Transform.LookupInEmpty | src/scripts/transform.py:13-25 | any key path into an empty object gives None |
| Transform.LookupAbsentKey | src/scripts/transform.py:13-25 | an absent first key gives None whatever keys follow, never an error |
| Transform.LookupDescends | src/scripts/transform.py:13-25 | a present object under the first key is descended into |
| Transform.Lookup | src/scripts/transform.py:13-25 | a one-key `.get` never fails; a failing chain fails at a key before its last one, on a value that is not an object |
| Transform.LookupOne | src/scripts/transform.py:10-15 | a one-key path is `obj.get(key)`, None when absent |
| Transform.LookupTwo | src/scripts/transform.py:16-25 | a two-key path reads the second key of the section `obj.get(key, {})` |
| Transform.LookupThree | src/scripts/transform.py:13-14 | a three-key path reads the last key of the nested section |
| Transform.Sub | src/scripts/transform.py:13-25 | `obj.get(key, {})` is usable unless the key holds a non-object; an absent key gives the empty object |
| Transform.ExtractFields | src/scripts/transform.py:8-26 | flattening succeeds exactly on objects whose diameter, meters and orbital sections are absent or objects |
| Transform.ExtractFieldsPaths | src/scripts/transform.py:8-26 | each of the sixteen columns is the value at its key path: min_d/max_d under estimated_diameter.meters, the ten orbital columns under orbital_data |
| Transform.AbsentSectionsGiveNone | src/scripts/transform.py:13-25 | an object without diameter and orbital sections flattens to a record whose nested columns are all None |
| Transform.StagingFiles | src/scripts/transform.py:30-33 | the files read are exactly those whose name ends in ".json" and is not "progress.json", none more often than it is listed |
| Transform.StagingFilesAppend | src/scripts/transform.py:30-33 | the filter keeps listing order: filtering two listings one after the other is filtering each |
| Transform.Collect | src/scripts/transform.py:44 | a successful comprehension holds one record per entry |
| Transform.CollectOk | src/scripts/transform.py:44 | the comprehension succeeds exactly when every entry is an object the flattening accepts |
| Transform.CollectAt | src/scripts/transform.py:44 | the record at position j is the flattening of entry j |
| Transform.ExtractAllSpec | src/scripts/transform.py:44 | a page flattens exactly when every entry is a well-shaped object, into one record per entry, each at its entry's position |
| Transform.PageEntries | src/scripts/transform.py:41-44 | a file that does not parse fails with InvalidJson; entries, when there are any, are the items of the list under near_earth_objects |
| Transform.FileRecords | src/scripts/transform.py:41-45 | a page's records are as many as its near_earth_objects entries |
| Transform.ConcatCount | src/scripts/transform.py:40-47 | the concatenated frame holds one record per entry of all files |
| Transform.ConcatPlacesFile | src/scripts/transform.py:40-47 | the records of file i follow those of files 0..i-1, in entry order |
| Transform.ConcatErrorPersists | src/scripts/transform.py:40-47 | the first file that fails makes the whole step fail with its error |
| Transform.Concat | src/scripts/transform.py:40-47 | a failing concatenation fails with the error of one of its files |
| Transform.ConcatStep | src/scripts/transform.py:40-47 | reading file i after files 0..i-1 either appends its records to the frame or fails the whole step with that file's error |
| Transform.CoerceValue | src/scripts/transform.py:49-53 | a coerced value is a number or missing; it is missing exactly when it was missing; numbers are kept |
| Transform.CoerceRecord | src/scripts/transform.py:49-53 | a coerced record has each orbital column missing or a number; a record already in that form is kept as it is |
| Transform.CoerceColumns | src/scripts/transform.py:49-53 | coercion fails only with NotCoercible; on success it keeps the number of records and leaves every orbital column missing or a number |
| Transform.CoerceRecordPreserves | src/scripts/transform.py:49-53 | coercing one record keeps its missing orbital values missing and changes none of its other ten columns |
| Transform.CoerceColumnsPreserves | src/scripts/transform.py:49-53 | coercion keeps the number and order of records, keeps missing orbital values missing, and changes no other column |
| Transform.MissingOrbitStaysMissing | src/scripts/transform.py:49-53 | a record without any orbital data is kept unchanged: missing does not become 0 |
| Transform.CreateDf | src/scripts/transform.py:29-55 | the loop over the staged files builds the frame the specification function describes, including its error cases |
| Transform.StagedRecords | src/scripts/transform.py:29-55 | every record of a frame that was built has each orbital column missing or a number |
| Transform.StagedCount | src/scripts/transform.py:40-47 | the frame holds one record per entry of the staged pages |
| Transform.EmptyFrameIffNoStagedFiles | src/scripts/transform.py:35-53 | the frame is empty exactly when no file is staged |
| Transform.Dedup | src/scripts/transform.py:70 | a record survives exactly when it was in the frame and its id is not stored; the count never grows |
| Transform.DedupDisjoint | src/scripts/transform.py:68-70 | no surviving record carries a stored id |
| Transform.DedupAppend | src/scripts/transform.py:70 | the filter keeps the original order (it distributes over concatenation) |
| Transform.DedupIdempotent | src/scripts/transform.py:70 | filtering again with the same ids removes nothing |
| Transform.DedupPartition | src/scripts/transform.py:69-73 | kept and removed records together are the input; before - after is the number removed |
| Transform.DedupKeepsNew | src/scripts/transform.py:70 | records with no stored id all survive, even two sharing one id |
| Transform.RerunKeepsNothingWithId | src/scripts/transform.py:68-70 | after the kept ids are stored, a rerun keeps only records without a string id |
| Transform.DedupExample | src/scripts/transform.py:68-70 | stored ids {A, B} and records [A, C, D] give [C, D] |
| Transform.TransformResult | src/scripts/transform.py:58-70 | a frame error is returned as it is; an empty frame gives no records whatever the store; a non-empty frame with an unreadable store fails with StoreUnavailable; every record returned comes from the frame |
| Transform.Transform | src/scripts/transform.py:58-74 | the step returns the empty frame without reading the store, and otherwise the frame filtered against the stored ids |
| Transform.NoStagedFilesIgnoresStore | src/scripts/transform.py:58-64 | with no staged file the step succeeds with no records even when the store cannot be read |
| Transform.TransformOutputIsNew | src/scripts/transform.py:68-74 | the records handed to the loader carry no stored id |
| Queries.Where | src/fastapi_app/utils/db_operations.py:32-33 | a WHERE clause keeps exactly the rows that satisfy it |
| Queries.WhereAgree | src/fastapi_app/utils/db_operations.py:129-131 | two conditions that agree on every row select the same rows in the same order |
| Queries.WhereAll | src/fastapi_app/utils/db_operations.py:129-131 | a condition every row meets selects the whole table |
| Queries.WhereMonotone | src/fastapi_app/utils/db_operations.py:129-131 | a stronger condition selects a sub-multiset of the rows |
| Queries.GetById | src/fastapi_app/utils/db_operations.py:32-33 | the rows returned are exactly those whose id is obj_id |
| Queries.GetByIdAtMostOne | src/fastapi_app/utils/db_operations.py:32-38 | with id the primary key, at most one row is returned, and none exactly when no row has the id |
| Queries.WhereUniqueKey | src/classes/db_tables.py:10 | selecting on the primary key yields at most one row |
| Queries.WhereNone | src/fastapi_app/utils/db_operations.py:32-38 | a condition no row meets selects nothing |
| Queries.GetHazardousObjs | src/fastapi_app/utils/db_operations.py:64 | the rows returned are exactly those whose hazard is true; a NULL hazard is not returned |
| Queries.InsertBySize | src/fastapi_app/utils/db_operations.py:85 | inserting a row into the ranking lengthens it by one |
| Queries.SortBySizeDesc | src/fastapi_app/utils/db_operations.py:85 | ordering keeps the number of rows |
| Queries.InsertPermutes | src/fastapi_app/utils/db_operations.py:85 | inserting into the ranking adds exactly that row |
| Queries.SortedCons | src/fastapi_app/utils/db_operations.py:85 | a row at least as large as a sorted ranking can lead it |
| Queries.InsertKeepsSorted | src/fastapi_app/utils/db_operations.py:85 | inserting keeps the ranking ordered by max_d, largest first |
| Queries.SortSortsAndPermutes | src/fastapi_app/utils/db_operations.py:85 | ORDER BY max_d DESC orders by max_d, largest first, and is a permutation |
| Queries.GetTopNLargest | src/fastapi_app/utils/db_operations.py:83-86 | the query fails exactly when the limit is negative |
| Queries.TopNLargest | src/fastapi_app/utils/db_operations.py:83-86 | every row has max_d > 0; rows are ordered by max_d, largest first; the length is min(top_n, qualifying rows), or all of them without a limit; no qualifying row left out is larger than a row returned |
| Queries.DefaultLimit | src/classes/query_classes.py:30 | a request without top_n gets the ten largest qualifying rows, or all of them when fewer qualify |
| Queries.SortedPrefix | src/fastapi_app/utils/db_operations.py:85-86 | a LIMIT of a sorted ranking is sorted and dominates the rows it drops |
| Queries.SuffixIsRest | src/fastapi_app/utils/db_operations.py:86 | the rows a LIMIT drops are the rest of the ranking |
| Queries.PrefixDominates | src/fastapi_app/utils/db_operations.py:85-86 | every row kept by the LIMIT is at least as large as every row after it |
| Queries.ILikeAnyRest | src/fastapi_app/utils/db_operations.py:109 | the wildcard '%' matches any name |
| Queries.ILikeLiteralPrefix | src/fastapi_app/utils/db_operations.py:109 | a literal followed by '%' matches exactly the names starting with it, ignoring case |
| Queries.ILikeLeadingPercent | src/fastapi_app/utils/db_operations.py:109 | a leading '%' lets the rest match at any position |
| Queries.ILikeIsSubstring | src/fastapi_app/utils/db_operations.py:109 | for a name without wildcards, `ILIKE '%name%'` holds exactly when the name occurs in the column, ignoring case |
| Queries.ILike | src/fastapi_app/utils/db_operations.py:109 | every string matches itself used as a pattern |
| Queries.BuildConditions | src/fastapi_app/utils/db_operations.py:106-127 | a row satisfies all collected conditions exactly when it matches every filter set; none is collected exactly when no filter is set |
| Queries.Matches | src/fastapi_app/utils/db_operations.py:106-127 | with no filter set every row matches; a name filter never matches a row whose name is NULL |
| Queries.CollectedMeans | src/fastapi_app/utils/db_operations.py:106-131 | the seven collection steps, each adding its condition exactly when its filter is set, give conditions whose conjunction is the search predicate |
| Queries.CollectedEmpty | src/fastapi_app/utils/db_operations.py:106-130 | the seven collection steps collect nothing exactly when no filter is set, so no WHERE clause is added |
| Queries.StepHolds | src/fastapi_app/utils/db_operations.py:108-127 | a collection step conjoins its condition exactly when its filter is set |
| Queries.AllHoldSnoc | src/fastapi_app/utils/db_operations.py:106-131 | appending a condition conjoins it |
| Queries.SearchAsteroids | src/fastapi_app/utils/db_operations.py:106-131 | the search returns the rows that match every filter set, in table order, also when no WHERE clause is added |
| Queries.Search | src/fastapi_app/utils/db_operations.py:106-131 | a row is returned exactly when it is in the table and satisfies every filter set |
| Queries.NoFiltersReturnsAll | src/fastapi_app/utils/db_operations.py:129-131 | with no filter set every row is returned |
| Queries.AddingFiltersNarrows | src/fastapi_app/utils/db_operations.py:129-131 | setting more filters never enlarges the result |
| Queries.EmptyNameIsNoFilter | src/fastapi_app/utils/db_operations.py:108 | an empty name imposes no constraint |
| Queries.ZeroBoundApplies | src/fastapi_app/utils/db_operations.py:111-112 | a bound of 0.0 is applied: rows below it or with NULL are excluded |
| Queries.RealCell | src/fastapi_app/utils/db_operations.py:36 | a numeric cell renders as 'null' exactly when it is NULL |
| Queries.StrCell | src/fastapi_app/utils/db_operations.py:36 | a NULL text cell renders as 'null', any other as itself |
| Queries.BoolCell | src/fastapi_app/utils/db_operations.py:36 | a flag cell renders as 'null' exactly when it is NULL |
| Queries.ToRecord | src/fastapi_app/utils/db_operations.py:36 | the id is kept as text, and every numeric and flag column reads back as the row's value, a NULL as missing |
| Queries.ToRecords | src/fastapi_app/utils/db_operations.py:36-38 | one record per row, in row order, each column rendered with NULL as 'null' |
| Queries.NullsBecomeNullString | src/fastapi_app/utils/db_operations.py:36 | in a returned record (of every read: lines 36, 52, 68, 90, 135) every numeric and flag column reads 'null' exactly when NULL; a name reads 'null' when NULL or when it is literally "null" |
| Handoff.PageFilesAreStaged | scripts/fetch_from_neows.py:11 | every page file the extraction writes is one the transformation reads |
| Handoff.NatToStringInjective | scripts/fetch_from_neows.py:11 | the decimal rendering of a page number is one-to-one on naturals |
| Handoff.IntToStringInjective | scripts/fetch_from_neows.py:11 | the decimal rendering of a page number is one-to-one |
| Handoff.PageFileNameInjective | scripts/fetch_from_neows.py:11 | two pages share a file name only when they are the same page |
| Handoff.PagePathInjective | scripts/fetch_from_neows.py:11 | distinct pages are written to distinct paths, so no download overwrites another page's file |

## Left out

- **The network.** The NeoWs requests are left out: the total-page probe
  (dags/pipeline_dag.py:25-34) and `fetch_asteroids`. `total_pages` is a
  parameter, and each page's download outcome is the input `fetchOk`. A
  failure of the probe aborts the run before any state changes, so it is
  not modelled.
- **File contents.** Writing a page's JSON and `os.makedirs` are left out.
  Only the file's path is modelled.
- **Airflow.** The DAG, its operators, the XCom push and the CSV export of
  `transform_task` are left out. They are orchestration only.
- **Database I/O.** The SQLAlchemy session, the engine and `.env` setup,
  `get_existing_ids` and the `load_to_db` append (scripts/db_utils.py) are
  left out. The table is a `seq<Asteroid>`. The stored ids are an
  `Option<set<string>>`, where `None` means the read failed; the step then
  fails with `StoreUnavailable`.
- **The web layer.** FastAPI routing, request validation and the mapping
  from exceptions to status 500 are left out.
- **`retrieve_all_data`.** It is not modelled as its own function. It is
  `Where` with a condition every row meets (`WhereAll`), followed by
  `ToRecords`.
- **`asteroids_stats`.** It is floating-point mean, standard deviation and
  rounding, and is left out. It divides by zero on an empty table
  (src/fastapi_app/utils/db_operations.py:161). Its `min_eccentricity` and
  `max_eccentricity` labels are swapped (lines 184-185).
- **Float parsing.** `float()` of `astype(float)` is the parameter
  `parse: string -> Option<real>`. Only "missing stays missing" and "a
  number is kept" are stated about coercion. A boolean becomes 1 or 0, and a
  list or an object cannot be coerced. NaN and float precision are not
  modelled: numbers are `real`.
- **Directory order.** The `os.listdir` order is an input (the sequence
  order of the directory). The record count is proved whatever that order is.
- Transform.PageEntries: for a non-empty object or string under
  `near_earth_objects` the model returns `Err(EntryNotAnObject)` directly.
  It does not list the keys or characters that Python iterates. The outcome
  is the same, since the first of them already fails.
- Pipeline.LoadLastPage: a `"last_page"` that is not an integer, and a
  progress file whose JSON is not an object, are not modelled. The
  `ProgressFile` input holds an integer or nothing.
- Queries.ILike: the backslash escape of SQL `LIKE` and locale-aware case
  folding are not modelled. Folding covers the ASCII letters only.
  `ILikeIsSubstring` states the substring meaning only for names without
  `%` or `_`.
- Queries.GetTopNLargest: SQL does not fix the order of rows with equal
  `max_d`. The model uses a stable insertion sort, and its properties state
  only what any order by `max_d` descending satisfies.
- **Row order.** `get_by_id`, `get_hazardous_objs` and `search_asteroids`
  have no `ORDER BY` (src/fastapi_app/utils/db_operations.py:32, 64,
  129-131), so the database fixes no order for their rows. `Where` returns
  the rows in table order, which stands in for that unspecified order. What
  is stated about membership and counts holds whatever the order.
- **Logging.** The `print` calls and log messages are left out. They change
  no state of the model.
- **The packaging of rows.** The query functions return table rows. Turning
  them into the returned records is the separate `ToRecords`, which every
  endpoint applies. The pandas dtype change that `fillna` causes is
  represented by the `Cell` variants.
- **Unstored columns.** `extract_fields` produces four keys that the
  `Asteroid` table does not have: `perihelion_argument`, `mean_anomaly`,
  `mean_motion` and `epoch_osculation`. The loader's handling of them is not
  modelled.
