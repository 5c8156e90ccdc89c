# Market-data archive and ticker universe, modelled in Dafny

The repository keeps an archive of daily adjusted closing prices and builds the list of tickers that feeds it.

- `src/fetch_partitioned.py` downloads the S&P 500 index and up to 1000 equities. It stores them in one CSV file per `(kind, year, month)` under `data/prices` and `data/indices`. Each run resumes the day after the latest archived date.
- `src/fetch_prices.py` keeps the index alone in one flat file, `data/prices.csv`.
- `src/generate_universe.py` writes `config/equity_universe.txt`. It picks tickers from index-constituent tables, one quota per region, then tops the list up to 1000 and renders it with a comment block per region.

The model treats every download, every table read and every file as a value. The rest of the logic is stated as Dafny functions, methods and classes, and its properties are proved.

Modules, one per concern:

- `Wrappers`: `Option`, and `Outcome`, which is a value or the `MissingColumn` error a missing symbol column raises.
- `Seqs`: subsequence, distinctness, flattening, `Take` (Python's `s[:n]`).
- `Text`: `strip()`, line splitting and joining, zero-padded integer formatting, the lexicographic order on strings.
- `Rows`: a row `(date, ticker, adj_close)`, its key `(date, ticker)`, and the merge the two fetchers share: concatenate, `drop_duplicates(keep="last")`, `sort_values`.
- `Resumption`: `latest_date_in_folder`, the combined high-water mark, the start date of a run, `get_start_date`.
- `Shaping`: the provider's answer (`Empty | Single | Multi`), and `fetch_adj_close_long` and `fetch_new_data` after the download.
- `Tables`: a downloaded table, and the column probe both universe builders use.
- `FlatStore`: the flat archive of `src/fetch_prices.py` as a class with its `main` as a method.
- `PartitionedStore`: `month_path`, the routing of rows to months, and `append_to_month_files` as a class over a map of partitions.
- `Ingestion`: `main` of `src/fetch_partitioned.py` (universe parsing, batching, both appends) and `load_equity_universe_1000`.
- `Universe`: `read_symbols`, `take_unique`, and the group, fill and truncate stages of `main` in `src/generate_universe.py`. These exist both as functions and as a class holding the shared `used` set and `final` list.
- `UniverseFile`: rendering the universe file, and reading it back with the parser of `src/fetch_partitioned.py`.

Dates are integer day ordinals, numbered as Python's `date.toordinal()` numbers them, and `today` is a parameter. The `(year, month)` of a date follows CPython's ordinal-to-date algorithm. Prices form an opaque type: the code only carries them, tests them for presence and overwrites them.

## Model

| member | source | states |
|---|---|---|
| Rows.KeyLessTransitive | src/fetch_partitioned.py:66 | the `(date, ticker)` sort order is transitive |
| Rows.KeyLessTotal | src/fetch_partitioned.py:66 | any two distinct keys are ordered one way or the other |
| Text.LexTotal | src/fetch_partitioned.py:66 | tickers compare lexicographically, and distinct tickers are always ordered |
| Rows.KeyMapAppend | src/fetch_partitioned.py:64-65 | the key-to-price view of a concatenation is the first part's view overridden by the second's |
| Rows.KeyMapAtLast | src/fetch_partitioned.py:65 | the key-to-price view holds the price of the last row with each key |
| Rows.KeepLast | src/fetch_partitioned.py:65 | `drop_duplicates(keep="last")`: keys become distinct, the last price of every key is kept, only input rows remain, input order is kept |
| Rows.SortRows | src/fetch_partitioned.py:66 | `sort_values`: ascending by `(date, ticker)` and a permutation of its input |
| Rows.MergeCanonical | src/fetch_partitioned.py:64-66 | the merged partition is strictly ascending (so keys are unique), and each key maps to the chunk's last price if the chunk has the key, else to the existing price |
| Rows.MergeKeys | src/fetch_partitioned.py:64-66 | the merged key set is exactly the existing keys plus the chunk keys |
| Rows.MergeRowsFrom | src/fetch_partitioned.py:64-66 | every merged row comes from the existing partition or from the chunk |
| Rows.MergeChunkWins | src/fetch_partitioned.py:64-65 | last write wins: the chunk's last row for a key is in the merge |
| Rows.MergeExistingKept | src/fetch_partitioned.py:64-65 | an existing row whose key the chunk lacks survives the merge |
| Rows.CanonicalUnique | src/fetch_partitioned.py:66 | two strictly sorted partitions with the same key-to-price view are equal |
| Rows.MergeIdempotent | src/fetch_partitioned.py:63-67 | merging the same chunk a second time changes nothing |
| Rows.MergeEmptyChunk | src/fetch_partitioned.py:64-66 | merging an empty chunk into a sorted partition leaves it as it was |
| Text.StripShape | src/fetch_partitioned.py:134 | `strip()` leaves no blank space at either end, and it returns an empty string only for an all-blank line |
| Text.StripIdempotent | src/fetch_partitioned.py:134 | stripping twice equals stripping once |
| Text.ReplaceChar | src/fetch_partitioned.py:32 | `replace(".", "-")` rewrites exactly the dots, keeps the length, and leaves no dot behind |
| Text.SplitLines | src/fetch_partitioned.py:133 | the lines of a text contain no line break, and there is at least one line |
| Text.SplitJoin | src/generate_universe.py:130 | splitting `"\n".join(lines) + "\n"` gives back the lines plus one final empty line |
| Text.FormatIntRoundTrip | src/fetch_partitioned.py:45-46 | parsing `f"{n:0wd}"` gives back `n` for every integer `n` and width `w` |
| Text.FormatIntInjective | src/fetch_partitioned.py:45-46 | distinct integers format to distinct strings |
| Text.ZeroPadExactWidth | src/fetch_partitioned.py:45-46 | a number below 10^w formats to exactly `w` digits |
| Tables.FirstPresent | src/fetch_partitioned.py:17-22 | the first candidate naming a column; none exactly when no candidate is present |
| Tables.IndexOf | src/fetch_partitioned.py:23 | `df[col]` is the first column with that name |
| Tables.StrippedColumn | src/fetch_partitioned.py:23 | `astype(str).str.strip().tolist()`: one stripped value per row, missing cells read `nan` |
| Tables.ProbeColumn | src/generate_universe.py:41-49 | fails exactly when no candidate column is present; otherwise it returns the stripped column of the first candidate present, every earlier candidate being absent |
| Resumption.SeqMax | src/fetch_prices.py:23 | the maximum of a date column is one of its dates and bounds them all |
| Resumption.FileMax | src/fetch_partitioned.py:102-108 | a file contributes a date exactly when it is a `.csv` that parses and is not empty |
| Resumption.Latest | src/fetch_partitioned.py:99-111 | none exactly when no file contributes; otherwise a date of a contributing file that bounds every contributing file's dates |
| Resumption.LatestDateInFolder | src/fetch_partitioned.py:96-111 | the walk's loop returns none for a missing folder, else the latest date of its contributing files |
| Resumption.MaxOpt | src/fetch_partitioned.py:118-121 | none exactly when both marks are none; otherwise one of them, at least as late as each |
| Resumption.CombineMarks | src/fetch_partitioned.py:118-121 | the loop over the two marks computes their maximum |
| Resumption.StartDate | src/fetch_partitioned.py:116-126 | the run starts the day after the combined mark, or 3650 days before today |
| Resumption.ResumeAfterArchive | src/fetch_partitioned.py:116-126 | the start date is later than every archived date in either folder |
| Resumption.ResumeNoGap | src/fetch_partitioned.py:123-126 | when something is archived, the day before the start date is archived, so no day is skipped |
| Resumption.ResumeFresh | src/fetch_partitioned.py:123-124 | with no contributing file the start date is today minus 3650 days |
| Resumption.GetStartDateAfterArchive | src/fetch_prices.py:19-25 | an empty archive starts 3650 days before today; otherwise every row is earlier than the start and the latest row is the day before it |
| Resumption.FlatMatchesFolder | src/fetch_prices.py:19-25 | the flat file resumes exactly as a folder holding that one file would |
| Shaping.Melt | src/fetch_partitioned.py:89-92 | `melt` gives one long row per `(date, ticker)` cell |
| Shaping.MeltCells | src/fetch_partitioned.py:92 | a long row is in the melt exactly when it is a cell of the table |
| Shaping.DropNaRows | src/fetch_partitioned.py:93 | `dropna`: a row survives exactly when its long row had a price |
| Shaping.ShapeEmpty | src/fetch_partitioned.py:78-79 | an empty download gives no rows |
| Shaping.ShapeSingle | src/fetch_partitioned.py:83-87 | a series gives exactly its priced points, each tagged with `tickers[0]` |
| Shaping.ShapeMulti | src/fetch_partitioned.py:89-94 | a table gives exactly one row per cell that holds a price |
| Shaping.MeltSize | src/fetch_partitioned.py:89-92 | before `dropna` a table gives tickers times dates rows |
| Shaping.OneColumnAsSeries | src/fetch_partitioned.py:81-94 | a one-column table gives the same rows as the equivalent series |
| Shaping.FetchNewData | src/fetch_prices.py:27-45 | an empty download gives no rows; otherwise exactly the priced points of the `Adj Close` column, each tagged `^GSPC` |
| Shaping.NewDataMatchesLong | src/fetch_prices.py:36-45 | for a download of the index alone, `fetch_new_data` and `fetch_adj_close_long(["^GSPC"])` agree |
| FlatStore.FlatArchive.Update | src/fetch_prices.py:47-63 | `main`: resume from `get_start_date`, download; an empty result leaves the archive unchanged, otherwise the archive becomes the merge of old and new rows |
| FlatStore.UpdatedArchive | src/fetch_prices.py:59-61 | the updated file is strictly ascending, keeps every old key, and holds every new row that is the last for its key |
| FlatStore.LatestNeverDecreases | src/fetch_prices.py:59-61 | the merged archive's latest date is at least the old one, so the next start date is no earlier |
| PartitionedStore.YearMonth | src/fetch_partitioned.py:60 | the month of a date is between 1 and 12 |
| PartitionedStore.SameKeySamePartition | src/fetch_partitioned.py:60 | rows with the same `(date, ticker)` go to the same partition |
| PartitionedStore.MonthPathInjective | src/fetch_partitioned.py:44-49 | distinct `(kind, year, month)` give distinct paths |
| PartitionedStore.MonthPathPadded | src/fetch_partitioned.py:44-49 | for a four-digit year the path is `data/{kind}/{YYYY}/{MM}.csv` with exactly four and two digits |
| PartitionedStore.ChunkOf | src/fetch_partitioned.py:60 | a `groupby` group holds exactly the incoming rows of its month, in input order |
| PartitionedStore.ChunkKeyMap | src/fetch_partitioned.py:60-65 | within its group a key keeps the last price the whole input gives it |
| PartitionedStore.AppendedEmpty | src/fetch_partitioned.py:57-58 | an empty input leaves the archive unchanged |
| PartitionedStore.AppendedUntouched | src/fetch_partitioned.py:60-67 | partitions no incoming row belongs to are unchanged, and no partition disappears |
| PartitionedStore.AppendedPartition | src/fetch_partitioned.py:60-66 | a rewritten partition is strictly ascending, holds the old keys plus its group's keys, and holds only old rows or rows of its month |
| PartitionedStore.AppendedLastWins | src/fetch_partitioned.py:60-65 | the last incoming row for a key ends up in its month's partition |
| PartitionedStore.AppendedIdempotent | src/fetch_partitioned.py:56-67 | appending the same rows twice changes nothing |
| PartitionedStore.AppendedConsistent | src/fetch_partitioned.py:56-67 | every partition stays strictly sorted and holds only rows of its own month |
| PartitionedStore.MonthArchive.MergeGroup | src/fetch_partitioned.py:63-67 | one month's file becomes the merge of its old rows (none if absent) and its group; other files are unchanged |
| PartitionedStore.MonthArchive.AppendToMonthFiles | src/fetch_partitioned.py:56-67 | the loop over month groups leaves the archive equal to the append function, and consistency is kept |
| Ingestion.UniverseTickersMembers | src/fetch_partitioned.py:133-136 | the parsed tickers are exactly the stripped lines that are neither blank nor `#` comments |
| Ingestion.UniverseTickersStripped | src/fetch_partitioned.py:134 | every parsed ticker is its own strip |
| Ingestion.EquityShape | src/fetch_partitioned.py:132-137 | at most 1000 tickers are kept, each stripped, not blank and not a comment |
| Ingestion.ReadEquityUniverse | src/fetch_partitioned.py:131-137 | the reading loop, then `[:1000]`: the first 1000 parsed tickers, each stripped, not blank and not a comment |
| Ingestion.Chunks | src/fetch_partitioned.py:144-145 | the batches are non-empty consecutive slices of at most 100 that concatenate back to the list, and all but the last hold exactly 100 |
| Ingestion.FetchInBatches | src/fetch_partitioned.py:142-146 | the batch loop produces exactly those batches and their downloads |
| Ingestion.RunIngestion | src/fetch_partitioned.py:113-149 | `main`: start date from both folders; the archive receives the index rows, then every batch's rows; consistency is kept; no partition and no stored `(date, ticker)` key is lost; when the folders show the archive, the start date is after every archived row |
| Ingestion.MirroredStartAfterRows | src/fetch_partitioned.py:96-125 | when the walked folders show the archive's partitions, every archived row is dated before the start date |
| Ingestion.MirroredMarkIsRow | src/fetch_partitioned.py:96-125 | when the folders show a non-empty archive, the day before the start date is the date of an archived row |
| Ingestion.NextStartNoEarlier | src/fetch_partitioned.py:56-67 | the high-water mark never moves back: once the archive holds a row and keeps every stored key, a later run starts no earlier |
| Ingestion.RunKeepsKeys | src/fetch_partitioned.py:139-149 | the two appends of a run keep every partition and every stored key |
| PartitionedStore.AppendedKeepsKeys | src/fetch_partitioned.py:56-67 | an append keeps every partition and every `(date, ticker)` key it held |
| Ingestion.PriceRowsInUniverse | src/fetch_partitioned.py:142-149 | when every column the provider returns is a requested ticker, every equity row is for a ticker of the universe |
| Ingestion.Normalized | src/fetch_partitioned.py:32 | one ticker per input ticker, same length, with no `.` left; a ticker without `.` is unchanged |
| Ingestion.Dedup | src/fetch_partitioned.py:29-35 | distinct, and holding exactly the non-empty input tickers |
| Ingestion.DedupOrder | src/fetch_partitioned.py:29-35 | kept tickers are in first-occurrence order |
| Ingestion.DedupPrefix | src/fetch_partitioned.py:36-37 | de-duplicating a prefix gives a prefix of the full result, so stopping early is a truncation |
| Ingestion.DedupCapped | src/fetch_partitioned.py:29-38 | the loop with `seen` and the early break gives the first 1000 de-duplicated normalised tickers |
| Ingestion.DedupCappedShape | src/fetch_partitioned.py:29-38 | at most 1000 tickers, pairwise distinct, none empty, none containing `.` |
| Ingestion.LoadEquityUniverse1000 | src/fetch_partitioned.py:9-38 | fails exactly when a table lacks every probed column; otherwise it returns at most 1000 distinct non-empty tickers without `.`, in first-occurrence order |
| Universe.KeepSymbols | src/generate_universe.py:51 | keeps exactly the non-empty symbols not starting with `^`, in order |
| Universe.KeepSymbolsCount | src/generate_universe.py:51 | every occurrence of a kept symbol is kept, so duplicates stay duplicates |
| Universe.ReadSymbols | src/generate_universe.py:38-52 | fails exactly when none of `Symbol`, `symbol`, `Ticker`, `ticker` is present; otherwise every symbol is stripped, non-empty and without `^`, and the symbols are exactly the kept values of a present column |
| Universe.ReadSymbolsFirstColumn | src/generate_universe.py:41-52 | the column read is the first of `Symbol`, `symbol`, `Ticker`, `ticker` present, and the symbols are its kept values in column order |
| Universe.PickShape | src/generate_universe.py:54-62 | picks are distinct, taken from the items, were unused, and number at most `n` (at most one when `n < 1`) |
| Universe.Unused | src/generate_universe.py:56-59 | the reference order: distinct, and holding exactly the items not in `used`, in first-occurrence order |
| Universe.PickFirstUnused | src/generate_universe.py:54-62 | `take_unique` returns the first `n` unused items; with `n < 1` it returns the first item when unused, else nothing |
| Universe.PickSubsequence | src/generate_universe.py:54-62 | the picks are a subsequence of the items |
| Universe.PickExhausted | src/generate_universe.py:55-61 | picking fewer than `n` means every item was used or has just been picked |
| Universe.PickNonPositive | src/generate_universe.py:56-61 | with `n <= 0` exactly the first item is picked, when it is unused |
| Universe.PickUnique | src/generate_universe.py:54-62 | the loop returns the picks, and `used` grows by exactly them |
| Universe.PoolSymbols | src/generate_universe.py:88-90 | a pool that does not fail is the tables' symbols concatenated in key order |
| Universe.PoolFails | src/generate_universe.py:88-90 | the pool fails exactly when one of its tables lacks a symbol column |
| Universe.SymbolsSnoc | src/generate_universe.py:88-90 | one more key appends that table's symbols at the end |
| Universe.PoolSourced | src/generate_universe.py:88-90 | every pool symbol was read from one of the tables |
| Universe.BuildPool | src/generate_universe.py:88-90 | the `extend` loop computes the pool or the first missing-column error |
| Universe.PoolMissingAt | src/generate_universe.py:88-90 | once a table lacks its column the pool fails |
| Universe.PoolSnoc | src/generate_universe.py:88-90 | one `extend` step appends the next table's symbols |
| Universe.AddPickedFresh | src/generate_universe.py:77-104 | one shared `used` set keeps every listed ticker distinct across all groups |
| Universe.AddPickedRanked | src/generate_universe.py:85-93 | groups appended in rank order keep the list in rank order |
| Universe.AddPickedCount | src/generate_universe.py:91-93 | a newly appended group holds exactly its picks; other groups keep their counts |
| Universe.RunTargetsUnrolled | src/generate_universe.py:69-93 | the targets loop is USA, EUROPA, HK, CINA in that order, with ITALIA skipped |
| Universe.RunTargetsMissing | src/generate_universe.py:85-93 | an error in one group ends the run with that error |
| Universe.GroupedStage | src/generate_universe.py:77-93 | after the groups: distinct tickers, group order, each group within its quota, at most 1000 entries |
| Universe.FillStage | src/generate_universe.py:97-110 | a fill keeps tickers distinct, keeps quotas and order, stays within 1000, and changes nothing once 1000 are listed |
| Universe.SelectUniverseShape | src/generate_universe.py:69-113 | the universe is distinct, at most 1000 long, ordered ITALIA, USA, EUROPA, HK, CINA, FILL, and within every quota, so the `[:1000]` cut removes nothing |
| Universe.SelectSourced | src/generate_universe.py:77-113 | every ticker comes from the Italian list or from a downloaded table |
| Universe.NoFillWhenFull | src/generate_universe.py:106-110 | when the groups reach 1000 tickers no fill happens |
| Universe.UniverseState.constructor | src/generate_universe.py:77-78 | starts with empty `used` and `final` |
| Universe.UniverseState.TakeUnique | src/generate_universe.py:54-62 | `take_unique` on the shared set: returns the picks and adds exactly them to `used` |
| Universe.UniverseState.AppendTagged | src/generate_universe.py:92-93 | appends the picks under the group name, leaving `used` alone |
| Universe.UniverseState.AddGroup | src/generate_universe.py:91-93 | one group's pick and append |
| Universe.UniverseState.FillFrom | src/generate_universe.py:97-104 | `fill_from`: fails exactly when the pool fails, else picks and appends under the label |
| Universe.UniverseState.RunGroups | src/generate_universe.py:85-93 | the targets loop on the state agrees with the selection functions, error included |
| Universe.UniverseState.FillStep | src/generate_universe.py:106-110 | a guarded fill agrees with the selection functions |
| Universe.UniverseState.Complete | src/generate_universe.py:85-113 | groups, both fills and the cut agree with the selection functions |
| Universe.UniverseState.Build | src/generate_universe.py:77-113 | `main` up to the cut computes the selected universe or its error |
| UniverseFile.RenderLines | src/generate_universe.py:116-127 | the rendering loop gives the two header lines, then a group block whenever the group changes, each ticker in order |
| UniverseFile.GenerateUniverse | src/generate_universe.py:64-130 | fails exactly when the selection fails; otherwise it returns the rendered text |
| UniverseFile.FixedLines | src/generate_universe.py:117-118 | the two header lines and the rule are one-line comments |
| UniverseFile.BlockLines | src/generate_universe.py:121-126 | a group block is blank lines and one-line comments only |
| UniverseFile.EntryReadsBack | src/generate_universe.py:120-127 | one entry's lines parse back to its ticker |
| UniverseFile.BodyReadsBack | src/generate_universe.py:119-127 | the rendered body parses back to the tickers in order |
| UniverseFile.StripKeepsText | src/generate_universe.py:130 | `strip()` removes nothing from the joined lines |
| UniverseFile.TextLines | src/generate_universe.py:130 | the written text splits back into the rendered lines plus one final empty line |
| UniverseFile.TextShape | src/generate_universe.py:130 | the file has no blank space at either end and ends with exactly one newline |
| UniverseFile.ReadBack | src/generate_universe.py:116-130 | parsing the written file recovers the tickers in order |
| UniverseFile.EquityReadBack | src/generate_universe.py:116-130 | the universe reader of `src/fetch_partitioned.py` recovers all of at most 1000 tickers |
| UniverseFile.GeneratedReadsBack | src/generate_universe.py:64-130 | the file `main` writes is read back as exactly its tickers, pairwise distinct |

## Left out

- Network calls are left out: `yf.download`, `pd.read_html` and `pd.read_csv(url)`. Their results are inputs: a `Response`, a `Frame`, a `Sources` function or a `Provider` function.
- The `threads=True` download option is left out. It is concurrency inside the download.
- Filesystem work is left out: `os.makedirs`, `ensure_dirs`, `os.walk`, `open`, `to_csv`, `read_csv` of a partition. Archives are in-memory maps or sequences of rows, and a walked folder is an optional list of files, each with its parsed date column or `None` when parsing raises.
- `print` output is left out.
- The walked folders are inputs and are not derived from the archive, because reading files back is not modelled. `Ingestion.Mirrors` states the link a real disk gives: the files that count read back as the archive's non-empty partitions. The start-date promises of `Ingestion.RunIngestion` and `Ingestion.NextStartNoEarlier` hold under that link.
- `load_month_file` is modelled only as `Existing` (no rows for a missing file). Reading the CSV back is not modelled.
- Writes are not atomic in the code, so crashes and partial writes are not modelled.
- `datetime.today()` is the parameter `today`. Time of day, time zones and `strftime` are left out: dates are day ordinals.
- `timedelta(days=365*10)` is modelled as 3650 days, as written.
- Prices are an opaque type: float values, NaN and float comparison are left out, and a missing price is `None`.
- The two branches at `src/fetch_partitioned.py:81` are identical, so the model has one.
- The `Date` to `date` column rename at `src/fetch_partitioned.py:90-91` changes no row and is not modelled.
- A column name listed twice in a table is not modelled: `IndexOf` takes the first.
- `append_to_month_files` visits month groups in `groupby` order. The model visits them as a set, because each group rewrites only its own file and the order is not observable.
- `sort_values` on the two columns `["date", "ticker"]` is modelled by a stable insertion sort. After de-duplication every `(date, ticker)` key is unique, so tie-breaking never shows and the sorted order is determined.
- The lexicographic order on tickers compares characters by code point, as Python's string comparison does.
- In `src/generate_universe.py` each source table is modelled as a fixed function of its key. A table downloaded twice is assumed to give the same content both times.
- `load_equity_universe_1000` is never called by `main`. It is modelled on its own.
- `PartitionedStore.YearMonth`: its contract states only that the month is between 1 and 12. Agreement with the calendar rests on the function following CPython's ordinal-to-date algorithm step by step.
- `Shaping.FetchNewData` requires a download with at most one column. `fetch_new_data` asks for `^GSPC` alone, and `df[["Adj Close"]]` with several tickers would keep several columns, which the code does not expect.
- `UniverseFile.ReadBack` requires every ticker to be non-empty, to have no blank space at either end, not to start with `#` and to contain no line break, and every group name to contain no line break. The code writes any other ticker as it is, and such a ticker does not read back the same.
- `Text.SplitLines` treats both `\n` and `\r` as line breaks, as reading in universal-newline mode does; an `\r\n` pair yields an extra blank line, which the universe parser drops.
