# NeonCRMLinkedIn extraction pipeline in Dafny

This project models the extraction-and-normalisation pipeline of
NeonCRMLinkedIn. The pipeline reads saved LinkedIn search pages, takes the
JSON payload out of one of the page's `<code>` blocks, and turns each entity
record of the payload's `included` array into a flat row.

There are three variants:

- **`extract_html_to_csv.py`** (module `CsvExtract`):
  - persons are read from code block 16, into `name`, `subtitle` and `linkedinurl`;
  - a recursive directory listing supplies the files;
  - every row with a missing cell is dropped;
  - the surviving rows are appended file by file.
- **`src/extract_companies_html_to_json.py`** (module `Companies`):
  - companies are read from code block 20, into twelve fields;
  - per file, the single most complete row is kept.
- **`src/extract_persons_html_to_json.py`** (module `Persons`):
  - persons are read from the first of code blocks 14 and 16 that decodes, into four fields;
  - per file, the rows with at most two missing cells are kept.

The shared row selectors of `src/utils.py` are in module `RowSelect`. The
supporting modules are:

- `Results`: `Option`, `Result`, and the ways a run ends.
- `JsonValues`: parsed JSON values and the `.get` chains.
- `Frames`: data frames as column names plus rows; counting, filtering, record-to-row extraction, and appending.

Modelling choices:

- A cell is `Option<Json>`, where `None` is the missing value pandas reports as NaN.
- A frame is `Frame(columns, rows)`. A frame built onto `pd.DataFrame()` has no columns until its first row is appended.
- An exception nobody catches, and an explicit `sys.exit(1)`, are both returned as an `Err` carrying a `Failure`.
- `json.loads` is the parameter `parse: string -> Option<Json>`, where `None` stands for a decode error.
- The text of a page's code blocks, with their tags already removed, is given as a `seq<string>`.

Points of the code that the model keeps as written:

- **A `.get` chain can raise.** The `{}` defaults cover only absent keys. An intermediate key that is present but holds `null`, a string or a number makes the next `.get` raise an AttributeError (for example `extract_html_to_csv.py:92-93`). `JsonValues.LookupMeaning` states exactly when this happens.
- **Not every decode failure ends in the diagnostic exit.** `extract_html_to_csv.py:74` does not catch the decode error (`DecodeError`). The company variant prints a message and calls `sys.exit(1)`, and so does the persons variant once every candidate has failed to decode.
- **Too few code blocks is an uncaught IndexError.** In every variant, a page with fewer code blocks than the index needs raises an IndexError (`IndexError`) that nothing catches. In the persons variant this can happen even after candidate 14 failed to decode.

## Model

| member | source | states |
|---|---|---|
| JsonValues.LookupMeaning | extract_html_to_csv.py:92-94 | a `.get` chain on a dict raises exactly when some key on the path is present but not a dict; otherwise it yields the nested field, missing as soon as a key is absent or holds null |
| JsonValues.LookupNotObject | extract_html_to_csv.py:92 | a chain applied to something that is not a dict raises at its first `.get` |
| JsonValues.LookupOne | extract_html_to_csv.py:94 | `rec.get(key)` is the field under `key` (missing when absent or null), and raises on a non-dict |
| JsonValues.Included | src/extract_companies_html_to_json.py:52 | `js["included"]` fails only on a payload that is not a dict with an `included` key or whose `included` is a non-empty non-list; a list gives its elements, an empty string or dict gives no records, and any records given are those of a list |
| JsonValues.LookupTwo | extract_html_to_csv.py:92-93 | `rec.get(p, {}).get(leaf)` is `p.leaf` when `p` is absent or a dict, and raises otherwise |
| JsonValues.LookupThree | src/extract_companies_html_to_json.py:58-64 | `rec.get(a, {}).get(b, {}).get(leaf)` is `a.b.leaf` when both parents are absent or dicts, and raises otherwise |
| JsonValues.ReadCells | src/extract_companies_html_to_json.py:54-69 | reading the chains of a record one after another succeeds exactly when every chain does, with their cells in order; a failure is the failure of one of the chains |
| JsonValues.ReadCellsAllOk | src/extract_companies_html_to_json.py:54-69 | chains that all succeed are read into exactly their cells, in order |
| JsonValues.ReadCellsFirstError | src/extract_companies_html_to_json.py:54-69 | the first chain that raises gives the row its error, whatever the chains after it would do |
| Frames.NonNullCount | src/utils.py:47 | a row's non-null count never exceeds its length |
| Frames.CountsPartition | src/utils.py:69 | every cell is counted once, as null or as non-null |
| Frames.FullRowHasNoNulls | extract_html_to_csv.py:163 | a row's non-null count equals its length exactly when no cell is missing |
| Frames.Filter | src/utils.py:69 | every kept row passes the test, and the kept rows are a subsequence of the input |
| Frames.FilterMultiplicity | src/utils.py:69 | a row that passes is kept as many times as it occurs, and a row that fails is never kept |
| Frames.FilterFrom | src/utils.py:69 | every kept row is one of the input rows |
| Frames.FilterIdempotent | src/utils.py:69 | filtering twice with the same test is filtering once |
| Frames.FilterKeepsAll | src/utils.py:69 | a test that every row passes keeps the input unchanged |
| Frames.FilterCongruent | src/utils.py:69 | two tests that agree on every row select the same rows |
| Frames.Append | extract_html_to_csv.py:164 | the rows of the first frame come first, those of the second follow, unchanged and in order; the columns are the first frame's, or the second's when the first has none |
| Frames.AppendAssociative | extract_html_to_csv.py:164 | appending frames is associative |
| Frames.ExtractAll | extract_html_to_csv.py:87-104 | one row per record, in record order; succeeds exactly when every record extracts, and otherwise fails with the error of the first record that raises |
| Frames.RecordsToFrame | extract_html_to_csv.py:81-107 | the frame has one row per record, aligned with the records; it has no columns when there are no records and the given columns otherwise |
| Frames.CollectRows | extract_html_to_csv.py:84-104 | the counter loop builds the frame that `RecordsToFrame` specifies, including the early stop at the first record that raises |
| Frames.PayloadFrame | extract_html_to_csv.py:74-107 | a failure to locate the payload or to find its `included` records ends the read; otherwise the frame has one row per record, aligned with the records, the given columns (or none when there are no records), and it succeeds exactly when every record extracts |
| Frames.BuildFrame | extract_html_to_csv.py:74-107 | the imperative read of a located payload computes `PayloadFrame` |
| Frames.AppendAll | extract_html_to_csv.py:160-166 | appending per-file frames succeeds exactly when every file was read, and otherwise fails with the error of the first file that failed |
| Frames.AppendAllStep | extract_html_to_csv.py:161-164 | one more file either appends its frame or ends the run with its failure, and an earlier failure stands |
| Frames.AppendAllStopsAt | extract_html_to_csv.py:161-164 | a file that fails after a successful prefix ends the whole run with its error |
| Frames.AppendAllFirstError | extract_html_to_csv.py:161-164 | a file that fails after files that were all read fails the whole run with its error |
| Frames.AppendAllOne | extract_html_to_csv.py:160-164 | appending one file onto `pd.DataFrame()` gives that file's frame |
| Frames.AppendAllConcat | extract_html_to_csv.py:161-164 | the result for two runs of files is the appended results of each, and a failure in the first run wins |
| Frames.AppendShaped | extract_html_to_csv.py:164 | appending two frames that have the same columns and no missing cell gives such a frame |
| Frames.AppendAllShaped | extract_html_to_csv.py:160-166 | the shape and completeness shared by every file's frame carry over to the appended frame |
| RowSelect.IdxMax | src/utils.py:47-48 | the chosen index has the largest non-null count, and every earlier row has strictly fewer |
| RowSelect.RowWithMostNonNulls | src/utils.py:47-50 | succeeds exactly when the frame has rows, and otherwise fails with the error `idxmax` raises on an empty series; the result is a one-row frame holding, unchanged, the first row with the most non-null cells |
| RowSelect.FullestRecord | src/utils.py:47-50 | the row kept from a frame of extracted records is the row of one of the records, and no record yields a row with more non-null cells |
| RowSelect.FirstFullestUnique | src/utils.py:48 | only one row is the first fullest, so ties go to the earliest row |
| RowSelect.ExcludeRowsWithXNulls | src/utils.py:69 | columns unchanged; every kept row has at least `ncols - x` non-null cells; the kept rows are a subsequence of the input |
| RowSelect.ExcludeKeepsAtMostXNulls | src/utils.py:69 | in a rectangular frame, a row is kept, as often as it occurs, exactly when it has at most `x` null cells |
| RowSelect.ExcludeIdempotent | src/utils.py:69 | excluding twice with the same `x` is excluding once |
| RowSelect.ExcludeKeepsEverything | src/utils.py:69 | with `x` at least the number of columns, every row is kept |
| RowSelect.DropNulls | extract_html_to_csv.py:163 | columns unchanged; every kept row has no missing cell; the kept rows are a subsequence of the input |
| RowSelect.DropNullsKeepsComplete | extract_html_to_csv.py:163 | every copy of a row without a missing cell survives `dropna()`, and no other row does |
| RowSelect.DropNullsShaped | extract_html_to_csv.py:163 | dropping rows keeps the frame's columns and one cell per column |
| RowSelect.ExcludeZeroIsDropNulls | src/utils.py:69 | with `x == 0` the threshold drop keeps exactly the fully populated rows, as `dropna()` does |
| CsvExtract.LocatePayload | extract_html_to_csv.py:74 | the payload is the decoded block 16; a page with 16 or fewer blocks raises an IndexError and an undecodable block 16 a decode error, with no fallback |
| CsvExtract.LocateReadsOnlyBlock16 | extract_html_to_csv.py:74 | pages that agree on block 16 locate the same payload |
| CsvExtract.ExtractRow | extract_html_to_csv.py:92-97 | a record yields `[title.text, primarySubtitle.text, bserpEntityNavigationalUrl]` exactly when it is a dict whose `title` and `primarySubtitle` are absent or dicts |
| CsvExtract.ReadHtml | extract_html_to_csv.py:74-107 | a frame read from the page has the three columns (none when it has no rows) and every row holds exactly one cell per column; the row-per-record facts are those of `Frames.PayloadFrame` |
| CsvExtract.ReadHtmlFile | extract_html_to_csv.py:64-107 | the imperative read computes `ReadHtml` |
| CsvExtract.ListFilesAppend | extract_html_to_csv.py:127-132 | listing a concatenation of entries concatenates their listings |
| CsvExtract.JoinMeaning | extract_html_to_csv.py:128 | a joined path ends with the entry name; an absolute name replaces the directory path; otherwise the path comes first and a separator stands right before the name, at most one character added |
| CsvExtract.SubdirectorySpliced | extract_html_to_csv.py:127-132 | a subdirectory's files appear together, at the subdirectory's place in the listing |
| CsvExtract.ListFilesCount | extract_html_to_csv.py:127-134 | the listing has exactly one path per file in the tree |
| CsvExtract.ListFilesReachable | extract_html_to_csv.py:127-132 | a path is listed exactly when it is the joined path of a file reachable from the root; directories are never listed |
| CsvExtract.GetAllFilesInFolder | extract_html_to_csv.py:110-134 | the recursive loop returns the listing `ListFiles` specifies |
| CsvExtract.FileRows | extract_html_to_csv.py:162-163 | a file contributes exactly when it can be read; its columns are the file frame's, even when no row survives; its rows are a subsequence of the file's rows, with no missing cell |
| CsvExtract.FileRowsKeepComplete | extract_html_to_csv.py:162-163 | per file, every copy of a complete row of the file's frame is kept, and no other row |
| CsvExtract.FileResults | extract_html_to_csv.py:161-163 | one result per listed file, in listing order |
| CsvExtract.ReadFileRows | extract_html_to_csv.py:162-163 | the imperative loop body computes `FileRows` |
| CsvExtract.AllInformations | extract_html_to_csv.py:158-166 | the run succeeds exactly when every file can be read; the result has the three columns (or none) and no row with a missing cell |
| CsvExtract.AllInformationsConcat | extract_html_to_csv.py:160-164 | the rows of two runs of files come out in file order, and the first failure wins |
| CsvExtract.AllInformationsOne | extract_html_to_csv.py:160-164 | a run over a single file yields exactly that file's rows without missing cells, or its failure |
| CsvExtract.GetAllInformations | extract_html_to_csv.py:158-166 | the imperative loop computes `AllInformations`, stopping at the first file that fails |
| Companies.LocatePayload | src/extract_companies_html_to_json.py:44-48 | the payload is the decoded block 20; too few blocks raises an IndexError, and an undecodable block 20 ends the run with the diagnostic exit |
| Companies.LocateReadsOnlyBlock20 | src/extract_companies_html_to_json.py:45 | pages that agree on block 20 locate the same payload |
| Companies.ReadsFail | src/extract_companies_html_to_json.py:54-69 | a record that is not a dict, or whose `foundedOn`, `headquarter`, `headquarter.address`, `phone` or `employeeCountRange` holds something other than a dict, makes one of the twelve chains raise |
| Companies.ReadsSucceed | src/extract_companies_html_to_json.py:54-69 | on a readable record the twelve chains, in source order, yield the record's fields |
| Companies.ReadsMeaning | src/extract_companies_html_to_json.py:54-69 | the twelve chains, in source order, succeed exactly when `foundedOn`, `headquarter`, `headquarter.address`, `phone` and `employeeCountRange` are each absent or a dict, and then yield the record's fields |
| Companies.ExtractRow | src/extract_companies_html_to_json.py:54-85 | a record yields the twelve fields in the row's key order, as read from the dict, exactly when it is a readable dict |
| Companies.HeadquarterMissingTogether | src/extract_companies_html_to_json.py:58-64 | without `headquarter` or `headquarter.address`, the city, country and geographic area are all missing |
| Companies.ReadHtml | src/extract_companies_html_to_json.py:44-90 | a frame read from the page has the twelve columns (none when it has no rows) and every row holds exactly one cell per column; the row-per-record facts are those of `Frames.PayloadFrame` |
| Companies.ReadHtmlFile | src/extract_companies_html_to_json.py:37-90 | the imperative read computes `ReadHtml` |
| Companies.FileRow | src/extract_companies_html_to_json.py:120-121 | a read failure is passed on; a readable file yields a row exactly when its frame has rows, and otherwise fails with the empty-series error; the row kept is the file's first fullest row, in the twelve columns |
| Companies.FileRowIsRecord | src/extract_companies_html_to_json.py:120-121 | the file contributes exactly one row, and it is, unchanged, the extracted row of one of the file's records |
| Companies.FileRowIsFullest | src/extract_companies_html_to_json.py:120-121 | no record of the file yields a row with more non-null cells than the kept row |
| Companies.NoRecordsNoRow | src/extract_companies_html_to_json.py:120-121 | a payload without records yields no row, and the step raises |
| Companies.ReadFileRow | src/extract_companies_html_to_json.py:120-121 | the imperative per-file step computes `FileRow` |
| Persons.FirstParsable | src/extract_persons_html_to_json.py:46-56 | the payload is the first decoding candidate, after all earlier candidates failed to decode; the diagnostic exit happens exactly when every candidate fails to decode; otherwise the failure is the IndexError of the first candidate past the last block |
| Persons.CandidatesInOrder | src/extract_persons_html_to_json.py:46-56 | with candidates 14 and 16: block 14 when it decodes, else block 16 when it decodes, else the exit, with IndexErrors where blocks are missing |
| Persons.LaterCandidatesUnread | src/extract_persons_html_to_json.py:46-51 | once a candidate decodes, the candidates after it are never consulted |
| Persons.LocatePayload | src/extract_persons_html_to_json.py:46-56 | the imperative candidate loop computes `FirstParsable` over 14 and 16 |
| Persons.ExtractRow | src/extract_persons_html_to_json.py:61-74 | a record yields `[title.text, primarySubtitle.text, summary.text, bserpEntityNavigationalUrl]` exactly when it is a dict whose three parents are absent or dicts |
| Persons.JaneDoe | src/extract_persons_html_to_json.py:63-74 | a record with a name, subtitle and URL but no summary yields those three and a missing position |
| Persons.ReadHtml | src/extract_persons_html_to_json.py:54-80 | a frame read from the page has the four columns (none when it has no rows) and every row holds exactly one cell per column; the row-per-record facts are those of `Frames.PayloadFrame` |
| Persons.ReadHtmlFile | src/extract_persons_html_to_json.py:39-80 | the imperative read computes `ReadHtml` |
| Persons.FileRows | src/extract_persons_html_to_json.py:111-112 | the per-file step succeeds when the file can be read, keeps its columns, and keeps a subsequence of its rows |
| Persons.FileRowsAtMostTwoNulls | src/extract_persons_html_to_json.py:112 | a row survives, as often as it was read, exactly when it has at most two null cells |
| Persons.ReadFileRows | src/extract_persons_html_to_json.py:111-112 | the imperative per-file step computes `FileRows` |

## Left out

- `remove_html_tags` (lxml) and `BeautifulSoup.findAll("code")` are foreign calls. The stripped text of the code blocks is an input.
- `json.loads` is foreign code. It is the parameter `parse`, so the model says nothing about which strings decode.
- File reads are I/O and are not modelled:
  - `Path.read_text` is not modelled: each file is given as its code blocks.
  - The `'./' + file` prefix of the CSV run is not modelled. For an absolute directory path it makes the run read `.//abs/...`, a path relative to the working directory, so the run would read a different file than the one listed; the model reads the listed file.
  - The CSV run's pages are given in the order of the listing that `GetAllFilesInFolder` returns.
- `os.listdir` and `os.path.isdir` are I/O: the directory is an in-memory tree of `Entry` values. Access errors are not modelled.
- `Path.rglob("*.html")` in the company and persons runs is not modelled. Its order is unspecified, and it is I/O.
- Output is I/O and not modelled:
  - the `data.json` debug dump;
  - `to_csv` and `to_json`;
  - `print`, `time` and `argparse` (`parse_arguments`).
- The final `pd.concat([data, row], axis=1)` of both `get_all_information` functions is not modelled. It joins per-file frames column-wise and aligns them on the index, which is pandas index semantics. Only the per-file step before it is modelled (`Companies.FileRow`, `Persons.FileRows`).
- pandas NaN float semantics, index labels and dtypes are not modelled. A cell is missing exactly when the JSON value is absent or `null`, and numbers are opaque JSON leaves.
- JsonValues.Included: exceptions raised by `js["included"]` on a malformed payload are collapsed into `MalformedPayload`:
  - a KeyError on a missing key;
  - a TypeError from `len` or iteration over a non-container;
  - the AttributeError from reading a string key of a non-empty dict;
  - the AttributeError from `.get` on the first character of a non-empty `included` string;
  - in the CSV run, the KeyError from `js['included'][0]` on a non-empty dict.
  An empty string or dict there yields no records, as iteration does.
- CsvExtract.ListFilesReachable: "never a directory" is stated by what the listing contains (exactly the reachable files), not as a separate clause.

