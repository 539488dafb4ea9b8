# tenhou2mjai archive tools — a Dafny model

This project models the logic at the core of two Python scripts:

- `down_mjai_app.py` downloads per-match, per-round MJAI game logs from a
  remote store. It probes whether a URL exists (`check_url_exists`), fetches
  and gzips one round with retries (`download_file`), and bounds the
  match-number key space with an expand-then-bisect search
  (`find_max_games`). It builds the task lists of `download_game` and
  `download_range`, and rebuilds the on-disk catalog (`generate_index`) and
  the file inventory (`check_existing_files`).
- `compress_json_by_date.py` reads the `YYYYMMDD` date prefix of a file name
  (`parse_date_from_filename`). It builds the dated output location
  (`compress_json_file`) and classifies and counts every walked file
  (`process_all_json_files`).

The network, the file system and gzip are not modelled as effects; they
appear as inputs:
- a HEAD oracle and a GET oracle, each giving the outcome of the i-th
  request for a URL;
- a directory listing in `os.listdir` order;
- a walk sequence in `os.walk` order;
- a compressor that either succeeds or raises.

Modules, in dependency order:

| file | module | contents |
|---|---|---|
| common.dfy | `Common` | `Option` with `IfNone`, counting `true`s, order-free counting |
| pyint.dfy | `PyInt` | `str(int)`, `int(str)` on ASCII digits, `:02d` padding |
| posix_path.dfy | `PosixPath` | `os.path.join`, `dirname`, `basename`, and the `.gz` artifact path |
| probe.dfy | `Probe` | `check_url_exists` |
| fetch.dfy | `Fetch` | `download_file` |
| range_finder.dfy | `RangeFinder` | `find_max_rounds`, `find_max_games` |
| orchestrator.dfy | `Orchestrator` | task building, `download_game`, `download_range` |
| sorting.dfy | `Sorting` | `sorted`, `min`, `max` on integer lists |
| index.dfy | `Index` | `generate_index`, `check_existing_files` |
| date_parse.dfy | `DateParse` | `strptime("%Y%m%d")`, `parse_date_from_filename` |
| compress_by_date.dfy | `CompressByDate` | suffix filter, output location, classification and counters |

Behaviours of the code worth noting:
- **`find_max_games` when match 1 is absent.** It returns 1:
  `last_valid` starts at `low == 1` and is only ever raised
  (down_mjai_app.py:84-96).
- **Duplicate rounds in an index record.** `rounds` may repeat a round,
  because `1_0_mjai.json` and `01_0_mjai.json` both give round 1
  (line 224). `total_rounds` counts both.
- **Filesystem errors in `download_file`.** They propagate to the caller:
  only `requests.RequestException` is caught (line 57).
- **Downloaded rounds never reach the index.** `download_file` keeps only
  the `.json.gz` artifact (lines 51-55), and both scans look only for names
  ending in `.json` (lines 221 and 263). See "Findings".

## Model

| member | source | states |
|---|---|---|
| Probe.CheckUrlExistsSpec | down_mjai_app.py:23-36 | The probe answers "exists" iff some attempt within `retry_times` returns 200 and no earlier attempt returned 404. It makes at least one request when `retry_times >= 1`. It stops before the budget runs out only on a 200 or a 404, and it stops at the first of them: no attempt before its last returned 200 or 404. It sleeps once for each request error before its last attempt, and not at all when it makes no request. |
| Probe.CheckUrlExists | down_mjai_app.py:23-36 | The probe makes at most `retry_times` HEAD requests, and none when `retry_times <= 0`. |
| Probe.CheckFromSpec | down_mjai_app.py:25-36 | The same, for the retry loop entered at attempt `i`, stated by `Probe.ProbeSpec`. Attempts are counted from `i`. A 200 ends it with "exists". Every attempt from `i` before the last one made returned neither 200 nor 404. Sleeps count only the request errors before the last attempt, so other status codes retry without sleeping. |
| Fetch.DownloadFileSpec | down_mjai_app.py:38-61 | The fetch succeeds iff some attempt within `retry_times` gets a response that `raise_for_status` accepts (status outside 400-599). On success, the last attempt made is the first success; there are no further attempts, and the message names `dirname/basename + ".gz"`. On exhaustion it makes exactly `retry_times` attempts and reports the last attempt's error. With `retry_times <= 0` it makes no attempt and reports the URL alone. Sleeps are one fewer than attempts. |
| Fetch.DownloadFile | down_mjai_app.py:38-61 | The fetch makes at most `retry_times` GET requests, and none when `retry_times <= 0`. |
| Fetch.DownloadFromSpec | down_mjai_app.py:40-60 | The same, for the retry loop entered at attempt `i`, stated by `Fetch.FetchSpec`. |
| PosixPath.JoinParts | down_mjai_app.py:51 | `os.path.join(a, b)` ends with `b`. An absolute `b` replaces `a`; otherwise the result starts with `a`. |
| PosixPath.DirNamePrefix | down_mjai_app.py:46 | `os.path.dirname(p)` is a prefix of `p` that ends at or before the last `/`. Only `/` characters lie between it and the base name. It ends in `/` only when it is made of nothing but `/`. |
| PosixPath.CompressedPathTail | down_mjai_app.py:51 | The compressed artifact path ends with the save path's base name followed by `.gz`, whatever the directory part is. |
| PosixPath.CompressedPathAppendsGz | down_mjai_app.py:51 | Joining `dirname(p)` with `basename(p) + ".gz"` gives `p + ".gz"` whenever the last `/` of `p` is not part of a run of slashes. |
| Orchestrator.ArtifactOfSavePath | down_mjai_app.py:109 | Every task's artifact path is its save path with `.gz` appended. |
| Orchestrator.SavePathInjective | down_mjai_app.py:109 | Two rounds of one match never share a save path. |
| RangeFinder.ExpandBracket | down_mjai_app.py:72-82 | On a key space where exactly `1..B` exist, expansion ends with `high` absent. Either `low == high == 1` (and then B is 0), or `low` exists and `high - low == 100`. |
| RangeFinder.NarrowBracket | down_mjai_app.py:84-96 | Bisection of `[low, high]` with `high` absent returns exactly B when `low` exists, and returns `low` otherwise. |
| RangeFinder.FindMaxGames | down_mjai_app.py:68-96 | `find_max_games` returns exactly B when B >= 1, and 1 when match 1 is absent. |
| Orchestrator.BuildTasks | down_mjai_app.py:105-111 | The task list has one task per round of `first..last`, in ascending round order. Each task has the URL `base/{match}/{round}_0_mjai.json` and the save path `join(save_dir, str(match), "{round}_0_mjai.json")`. Save paths are pairwise distinct, and each artifact is its save path plus `.gz`. |
| Orchestrator.DownloadGame | down_mjai_app.py:98-131 | With no explicit count the task count is 250 (the `find_max_rounds` stub); otherwise it is `max(max_rounds, 0)`. `success_count` is the number of rounds whose fetch succeeds, at most `len(tasks)`. It is zero iff no round was fetched, and equals `len(tasks)` iff every round was. |
| Orchestrator.TaskLoop | down_mjai_app.py:105-111 | The loop appends one task per round of `first..last`: as many tasks as the span holds, task `i` built for round `first + i`. |
| Common.CountTrueExtremes | down_mjai_app.py:129 | The success count of a batch is zero iff every task failed, and equals the batch size iff every task succeeded. |
| Common.CountTrueOrderFree | down_mjai_app.py:121-129 | Results taken in any completion order give the same success count. |
| Orchestrator.ScheduledRounds | down_mjai_app.py:159-168 | The ranged branch schedules rounds from `start_round` to `min(end_round or 250, 250)`, which is empty when `start_round` is past that bound. Otherwise all of `1..250` are scheduled. |
| Orchestrator.SweepMatch | down_mjai_app.py:158-192 | Both branches run a batch of exactly the scheduled rounds and return its success count and size. |
| Orchestrator.SweepGames | down_mjai_app.py:148-192 | The loop over matches `start_game..last_game` sweeps, in ascending order, exactly the matches whose gate passes. Files are the sweep size times the scheduled span. Downloads are the sum of the swept matches' successes and never exceed the files. |
| Orchestrator.KeptMembers | down_mjai_app.py:148-156 | A match is swept iff it lies in range and passes the gate; the swept list is strictly ascending. |
| Orchestrator.DownloadRange | down_mjai_app.py:133-192 | Without an end match, the sweep ends at `find_max_games`' answer. The swept matches are, in ascending order, exactly the matches in range whose round-1 probe succeeds; absent matches get no tasks. `total_files` is the number of swept matches times the scheduled span. `total_downloaded` is the sum of their successes and never exceeds `total_files`. |
| Sorting.Sort | down_mjai_app.py:234 | `sorted(rounds)` is ascending and a permutation of `rounds`. |
| Sorting.SortedEnds | down_mjai_app.py:231-234 | The first and last elements of `sorted(rounds)` are `min(rounds)` and `max(rounds)`. |
| Index.MakeRecord | down_mjai_app.py:229-236 | A record has `total_rounds == len(rounds)`. Its `rounds` is an ascending permutation of the collected rounds. `min_round` and `max_round` are its first and last elements and bound every collected round. `directory` is the directory's own name. |
| Index.LastWinsKeys | down_mjai_app.py:208-236 | A key is in the catalog iff some listing entry contributes it. |
| Index.LastWinsValue | down_mjai_app.py:208-236 | The stored value for a key comes from the last entry contributing that key. |
| Index.CollectRounds | down_mjai_app.py:218-227 | Each listed name adds at most one round. |
| Index.CollectRoundsMembers | down_mjai_app.py:218-227 | A value is in `rounds` iff some listed name ends in `.json`, contains `_0_mjai.json`, and has that value as the integer token before its first `_`. |
| Index.CollectRoundsAppend | down_mjai_app.py:220-225 | Names are taken one by one in listing order: the rounds of two listings placed end to end are the rounds of the first followed by the rounds of the second. |
| Index.GenerateIndex | down_mjai_app.py:204-236 | Every record is well formed: `total_rounds == len(rounds) > 0`, `rounds` ascending, `min_round` and `max_round` its first and last elements. It is stored under a directory name that parses back to its key. |
| Index.GenerateIndexKeys | down_mjai_app.py:208-230 | A match is indexed iff some entry is a directory whose name parses as that integer and holds a name that ends in `.json`, contains `_0_mjai.json`, and has an integer token before its first `_`. |
| Index.IndexValueAt | down_mjai_app.py:208-236 | A record is built from the last directory that parses to its key and yields rounds. |
| Index.IndexIgnoresPlainFiles | down_mjai_app.py:210 | Plain files in the storage root, `index.json` among them, do not change the rebuilt catalog. |
| Index.RoundFileNameIndexed | down_mjai_app.py:221-225 | A name `{r}_0_mjai.json` passes the filter and yields round `r`. |
| Index.CheckExistingFiles | down_mjai_app.py:246-269 | A missing root gives `{}`. Every count in the inventory is positive. |
| Index.CheckExistingFilesKeys | down_mjai_app.py:252-269 | A match is in the inventory iff some directory entry parses to it and holds at least one name passing the round-file filter. |
| Index.ScanExisting | down_mjai_app.py:252-269 | Every inventory count is positive. |
| Index.ExistingValueAt | down_mjai_app.py:252-267 | The inventory count of `g` is the number of names passing the round-file filter in the last directory entry that parses to `g` and holds such names; later entries parsing to `g` hold none. |
| Index.ExistingCoversIndexKeys | down_mjai_app.py:220-267 | Every indexed match is also in the inventory. |
| Index.ExistingBoundsIndexRounds | down_mjai_app.py:220-267 | When no two directory names parse to the same integer, `existing[g] >= total_rounds` for every indexed `g`. |
| Index.CollidingDirectoriesUndercount | down_mjai_app.py:213-267 | Directories `5` (two round files) and `05` (one token-less round file) give `total_rounds == 2` but `existing[5] == 1`. The bound needs distinct names. |
| Index.DownloadedMatchNotIndexed | down_mjai_app.py:221 | A directory holding the `.json.gz` artifacts the downloader leaves gives an empty index and an empty inventory. |
| Index.CompressedArtifactsIgnored | down_mjai_app.py:221-263 | Any root whose directories hold only `.gz` names gives an empty index and an empty inventory. |
| Index.DownloadedMatchIndexedWhenCorrected | down_mjai_app.py:221 | With `.json.gz` accepted, the downloader's directory for match `g` is indexed under `g` alone. Its record has exactly the saved rounds. |
| Index.GenerateIndexCorrected | down_mjai_app.py:221-236 | With `.json.gz` accepted by the filter, every record is still well formed and stored under a directory name that parses back to its key. |
| Index.DownloadedMatchCountedWhenCorrected | down_mjai_app.py:263 | With `.json.gz` accepted, the inventory counts every saved round of the match. |
| PyInt.ParseInt | down_mjai_app.py:213 | `int(s)` succeeds only on text that ends in a digit. A value read from text of digits alone is non-negative. |
| PyInt.ParseShowInt | down_mjai_app.py:213 | `int(str(n)) == n`, so a match directory written as `str(game_id)` reads back as `game_id`. |
| DateParse.StrptimeYmd | compress_json_by_date.py:31 | Every date `strptime` returns is a calendar date. |
| DateParse.StrptimeIsCalendarCheck | compress_json_by_date.py:31 | On eight ASCII digits, `strptime(..., "%Y%m%d")` is modelled through its alternation-ordered regex, the "unconverted data" check and `datetime`'s range checks. It succeeds iff the `YYYYMMDD` reading has year 1..9999, month 1..12 and a day within that month under Gregorian leap rules, and then returns that reading. |
| DateParse.ParseDateFromFilename | compress_json_by_date.py:19-35 | A name yields a date iff it has at least eight characters, the first eight are digits, and they spell a calendar date as `YYYYMMDD`. The date is that reading. |
| DateParse.DateDependsOnPrefixOnly | compress_json_by_date.py:26-28 | Characters after the eighth never change the result. |
| DateParse.SampleNameDate | compress_json_by_date.py:22 | Names starting `20190704`, such as the documented sample, are dated 4 July 2019. |
| CompressByDate.JsonSuffixIsLastFive | compress_json_by_date.py:88 | `suffix.lower() == ".json"` holds iff the name is longer than five characters and its last five read `.json` in any letter case. |
| CompressByDate.OutputTargetFor | compress_json_by_date.py:43-52 | The output goes under the output base and three directories. The year directory is all digits with no leading zero. The month and day directories are exactly two digits each. Each directory reads back as the date's field. The file name is the input name plus `.gz`. |
| CompressByDate.DateDirectoriesSpellPrefix | compress_json_by_date.py:43-47 | For years of four significant digits, year, month and day directories concatenated are the name's eight-digit prefix. |
| CompressByDate.Classify | compress_json_by_date.py:88-105 | Only a file that passes the `.json` test and carries a date reaches the copy, so only such a file is processed or failed. A file skipped as undated passed the `.json` test. |
| CompressByDate.ClassifyCases | compress_json_by_date.py:83-105 | A file is skipped as non-JSON iff its last five characters are not `.json` (any case) after at least one more character. It is skipped as undated iff it passes that but carries no calendar-date prefix. Only files passing both reach the compressor, whose result alone decides processed or failed. |
| CompressByDate.ProcessAllJsonFiles | compress_json_by_date.py:66-107 | `total == processed + skipped + failed == number of walked files`. Each counter is the number of files in its category. |
| CompressByDate.CountOutcomes | compress_json_by_date.py:80-105 | The counter updates of the walk loop give `total` equal to the number of outcomes and to the sum of the three counters, and the counters equal the per-category tally of the outcomes. |
| CompressByDate.TallyCountsCategories | compress_json_by_date.py:83-105 | The running counters equal the per-category counts of the outcomes. |
| CompressByDate.TallyOrderFree | compress_json_by_date.py:80-83 | Any walk order of the same files gives the same four counters. |
| CompressByDate.SkipsIgnoreCompressor | compress_json_by_date.py:88-99 | Which files are skipped depends on their names only, never on a copy's outcome. |

## Left out

- Network effects: HTTP sessions, headers, timeouts and `time.sleep` are left out. The retry sleeps of `check_url_exists` and `download_file` are counted, not performed. The 0.5-second pause after each swept match in `download_range` (down_mjai_app.py:195) is not counted; the `continue` at line 156 skips it for absent matches. The HEAD and GET oracles return the same outcome for the same URL and attempt number, so repeated probes of one URL agree.
- The worker pool (`ThreadPoolExecutor`, `as_completed`) is left out. A batch is the sequence of its per-task outcomes, and its success count is proved independent of completion order.
- Byte-level I/O is left out: response bodies, file writes, gzip, `os.remove`, `makedirs` and `mkdir`. The copy in `compress_json_file` is an oracle, and any exception it raises counts as "failed".
- Filesystem exceptions inside `download_file` are left out. They propagate out of the source rather than becoming reported failures.
- The `index.json` write and the JSON encoding of the catalog are left out. The model returns the catalog as a map.
- `main` and its argparse surface are left out, as are check-only and list-only printing. The skip-existing inventory is computed there but never passed to `download_range`, so no skip-existing behaviour exists to model.
- `main.rs` and `delete.py` are not part of this model. They are file-system walks around an external converter and a deletion pass.
- Python's `int()` is modelled on ASCII digits with one optional sign. Surrounding whitespace, underscores between digits and non-ASCII digits are left out.
- `\d` in regular expressions and `str.lower()` are modelled on ASCII only.
- `PurePath.suffix` uses the last-dot rule: the dot must be neither the first nor the last character. `pathlib` normalisation of `Path(out) / ...` is left out. The output location is kept as its components.
- `os.walk` and `os.listdir` order is an input, not computed.
- `os.path` is modelled as `posixpath`; Windows path rules (`ntpath`: `\` separators, drive letters) are left out, so `CompressedPath` and `SavePath` are stated for POSIX paths only.
- RangeFinder.FindMaxGames: the answer is only specified on key spaces where exactly `1..B` exist for a finite B. The source's expansion loop does not terminate if every probe succeeds.
- Index.GenerateIndex: takes the listing of a root that exists. On a missing root, `os.listdir` raises `FileNotFoundError` (down_mjai_app.py:208); that error is not modelled.
- Orchestrator.DownloadRange: leaves out the `generate_index(save_dir)` call that ends `download_range` (down_mjai_app.py:202). That call is unconditional, and `save_dir` is created only after a successful GET (`makedirs` at line 46). So a range that fetched nothing into a fresh `save_dir` ends in the `FileNotFoundError` above; the model does not show this.
- Orchestrator.DownloadRange: without an end match, the same finite-boundary condition is required of the round-1 probes.
- RangeFinder.FindMaxRounds is the constant 250. Its effect is stated through `Orchestrator.DownloadGame` and `Orchestrator.ScheduledRounds`.

## Findings

| source | as written | input that shows it | evidently intended | confidence | as-written member | corrected member |
|---|---|---|---|---|---|---|
| down_mjai_app.py:221 | `generate_index` (and `check_existing_files` at line 263) keeps only names ending in `.json`. `download_file` deletes the `.json` and keeps only `{round}_0_mjai.json.gz` (lines 51-55). | a storage root whose match directory `7` holds `1_0_mjai.json.gz` and `2_0_mjai.json.gz`, as the downloader leaves it | match 7 indexed with rounds `[1, 2]`, and counted twice in the inventory | high; not executed | Index.DownloadedMatchNotIndexed | Index.DownloadedMatchIndexedWhenCorrected |
