# dashboard-export, modelled in Dafny

`dashboard-export.py` lists and exports the dashboards of a Grafana server. A
`GrafanaInstance` asks `api/search` once for its entries, keeps the `dash-db`
ones as sorted `(id, uid, title)` tuples, and then:
- lists them as a bordered table (`-l`);
- downloads the ones whose ids are given as a comma-separated list (`-d 1,3`);
- or downloads all of them (`-D`).

Each download fetches `api/dashboards/uid/<uid>` and stops the program at the
first non-200 answer. Otherwise it writes the dashboard to
`<output>/<name>.json`. The name comes from the fetched dashboard's title:
lower-cased, spaces turned into `-`, parentheses removed.

This project models that logic over plain data:

| module | file | models |
|---|---|---|
| `Results` | results.dfy | `Option` and `Result`, used in place of exceptions and `sys.exit` |
| `Api` | api.dfy | the decoded answers of the two endpoints, and `ApiError(status, content)` |
| `Text` | text.dfy | `str.lower` (ASCII), `str.replace` with a one-character pattern, and character stripping |
| `Numbers` | numbers.dfy | `str()` of an int, and `int()` of a token |
| `Filename` | filename.dfy | the file-name sanitisation loop as a method, with its reference definition `Sanitized` and its lemmas |
| `Comprehension` | comprehension.dfy | Python's list comprehensions, with and without a filter |
| `Sorting` | sorting.dfy | `sorted` over any total order, and the uniqueness of a sorted permutation |
| `Summaries` | summaries.dfy | the search filter, Python's tuple order, and the construction of the instance (`Connect`) |
| `Selection` | selection.dfy | `split(',')`, the `int` conversion of the id list, and which cached summaries a download takes |
| `Download` | download.dfy | the fetch / abort / write loop, and the two download operations built on it |
| `Listing` | listing.dfy | the `printDashboards` table, returned as its lines |

Effects are replaced by values:
- Each fetch's answer is an input. `responses[i]` answers the i-th fetch of a run.
- The output directory is a parameter.
- A download returns logs of what it did: the uids it fetched, the paths it
  wrote, and how it ended (`Completed`, `Aborted(ApiError)`, or `InvalidIdList`
  when `int()` rejects an id). `Aborted` stands for the `sys.exit(1)` of the source.
- The listing returns the lines it would print.

`GrafanaInstance.dashboards` is set once in `__init__` and only read afterwards.
So the instance is a value: `Connect` returns the sorted summary list, and the
other operations take that list as an argument.

The model follows the source as written:
- The list is sorted by the whole `(id, uid, title)` tuple, not by id alone.
- The `-d` argument is a comma-separated string parsed with `int()`, not a set
  of integers. An unparsable token ends the run before anything is fetched.
- The file name comes from the title in the fetched dashboard body, not from the
  title in the summary.

## Model

| member | source | states |
|---|---|---|
| `Filename.Sanitized` | dashboard-export.py:55-58 | the reference definition of the file name, character by character: a parenthesis is dropped, a space becomes `-`, a letter is lower-cased; the loop is tied to it by `SanitiseFilename` and `PipelineIsSanitized` |
| `Filename.SanitiseFilename` | dashboard-export.py:55-58 | lower-casing, replacing spaces and then deleting `(` and `)` one after the other (the `charToRemove` loop) yields exactly `Sanitized(title)` |
| `Filename.PipelineIsSanitized` | dashboard-export.py:55-58 | Python's order of operations (lower, replace `' '` by `-`, strip the parentheses) equals the character-by-character reference definition |
| `Filename.SanitizedIsSafe` | dashboard-export.py:55-58 | a sanitised name contains no `(`, no `)`, no space and no ASCII capital letter |
| `Filename.SanitizedLength` | dashboard-export.py:55-58 | a sanitised name is as long as the title less its number of `(` and `)` |
| `Filename.SanitizedAppend` | dashboard-export.py:55-58 | sanitising a concatenation concatenates the sanitised parts, so the kept characters stay in order |
| `Filename.SanitizedIsStripThenClean` | dashboard-export.py:55-58 | sanitising equals deleting the parentheses first and then lowering and replacing spaces: the kept characters are exactly the non-parentheses, in order |
| `Filename.SanitizedKeepsSafe` | dashboard-export.py:55-58 | a string made only of safe characters is its own sanitised form |
| `Filename.SanitizedIdempotent` | dashboard-export.py:55-58 | sanitising a sanitised name changes nothing |
| `Filename.SanitizedWithoutParens` | dashboard-export.py:55-58 | a title without parentheses keeps its length, and each character is lower-cased, or turned into `-` if it is a space |
| `Filename.SanitizedExample` | dashboard-export.py:55-58 | the title `CPU (Node) Usage` becomes `cpu-node-usage` |
| `Filename.OutputPath` | dashboard-export.py:60 | the written path; its meaning is stated by `OutputPathSameFile` |
| `Filename.OutputPathSameFile` | dashboard-export.py:55-60 | two titles are written to the same file exactly when they sanitise alike, so titles differing only in case, parentheses or space versus `-` overwrite each other |
| `Filename.SameFileExample` | dashboard-export.py:55-60 | `AB` and `(ab)` are written to the same file |
| `Text.Lower` | dashboard-export.py:55 | ASCII `lower()` keeps the length; the whole rename is stated by `Filename.PipelineIsSanitized` |
| `Text.Replace` | dashboard-export.py:55-58 | `str.replace` with a one-character pattern; it distributes over concatenation (`ReplaceAppend`), and replacing by nothing deletes that character (`ReplaceByEmptyStrips`) |
| `Text.ReplaceAppend` | dashboard-export.py:55-58 | replacing in a concatenation replaces in each part |
| `Text.ReplaceByEmptyStrips` | dashboard-export.py:57-58 | replacing a character by the empty string after deleting some characters deletes that one as well |
| `Numbers.ShowInt` | dashboard-export.py:101 | `str()` of an int starts with `-` exactly when it is negative; its width is stated by `IntFitsSeven` |
| `Numbers.ParseInt` | dashboard-export.py:46 | `int()` accepts a token exactly when it is a non-empty run of decimal digits, and the value is non-negative |
| `Numbers.ParseShowNat` | dashboard-export.py:46 | `int(str(n)) == n` for every n >= 0 |
| `Numbers.ShowNatLength` | dashboard-export.py:101 | `str(n)` has at most k characters exactly when n < 10^k |
| `Numbers.IntFitsSeven` | dashboard-export.py:101 | `str(id)` fits the 7-column id field exactly when -10^6 < id < 10^7 |
| `Summaries.Gather` | dashboard-export.py:34 | the `dash-db` comprehension; its contract is stated by `GatherMembers`, `GatherMultiplicity` and `GatherAppend` |
| `Summaries.GatherMembers` | dashboard-export.py:34 | a tuple is in the summary list exactly when some entry of type `dash-db` projects to it; entries of other types contribute nothing |
| `Summaries.GatherMultiplicity` | dashboard-export.py:34 | each tuple occurs as often as the `dash-db` entries that project to it (`CountMapped`) |
| `Summaries.GatherAppend` | dashboard-export.py:34 | entries are taken in the order of the answer: gathering two parts gathers each in turn |
| `Summaries.StrLt` | dashboard-export.py:18 | Python's `<` on strings, lexicographic by code point with a proper prefix first; its order laws are the three lemmas below |
| `Summaries.StrLtIrreflexive` | dashboard-export.py:18 | no string is below itself in Python's string order |
| `Summaries.StrLtTransitive` | dashboard-export.py:18 | Python's string order is transitive |
| `Summaries.StrLtTrichotomy` | dashboard-export.py:18 | any two strings are equal or one is below the other |
| `Summaries.SummaryLt` | dashboard-export.py:18 | Python's `<` on `(id, uid, title)` tuples: the first differing component decides |
| `Summaries.SummaryLe` | dashboard-export.py:18 | the order `sorted` uses, equal or below; total, antisymmetric and transitive by the lemmas below |
| `Summaries.SummaryLeTotal` | dashboard-export.py:18 | any two tuples are comparable in lexicographic `(id, uid, title)` order |
| `Summaries.SummaryLeAntisymmetric` | dashboard-export.py:18 | two tuples each at most the other are equal |
| `Summaries.SummaryLeTransitive` | dashboard-export.py:18 | tuple order is transitive |
| `Summaries.SummaryOrderIsTotal` | dashboard-export.py:18 | tuple comparison on summaries is a total order, the condition `sorted` needs to give one well-defined result |
| `Sorting.Insert` | dashboard-export.py:18 | inserting into an ascending list keeps it ascending and adds exactly that element |
| `Sorting.Sort` | dashboard-export.py:18 | `sorted` returns an ascending list with the same elements and multiplicities as its argument |
| `Sorting.SortedHeadIsLeast` | dashboard-export.py:18 | the first element of an ascending list is at most each of its elements |
| `Sorting.SortedUnique` | dashboard-export.py:18 | two ascending lists with the same elements are equal, so the result does not depend on the sorting algorithm |
| `Summaries.Connect` | dashboard-export.py:14-34 | a non-200 search answer is the error (status and body); otherwise the cached list is sorted and is a permutation of the `dash-db` tuples |
| `Summaries.CachedListIsDetermined` | dashboard-export.py:18 | any ascending permutation of the `dash-db` tuples is exactly the list `Connect` caches |
| `Selection.Split` | dashboard-export.py:46 | `split(',')` gives at least one piece, and no piece contains a comma |
| `Selection.JoinSplit` | dashboard-export.py:46 | joining the pieces with commas gives the string back |
| `Selection.SplitJoin` | dashboard-export.py:46 | comma-free pieces come back unchanged from splitting their join |
| `Selection.ParseAll` | dashboard-export.py:46 | `int()` over every token; its contract is stated by `ParseAllMeaning` |
| `Selection.ParseIdList` | dashboard-export.py:46 | the `wanted` list; its contract is stated by `ParseAllMeaning` over `Split`, `ParseIdListRoundTrip` and `ParseIdListExample` |
| `Selection.ParseAllMeaning` | dashboard-export.py:46 | the int conversion of the list succeeds exactly when every token is decimal, giving their values in order; otherwise the error is the first bad token |
| `Selection.ParseIdListRoundTrip` | dashboard-export.py:46 | a list of ids written as comma-separated decimals parses back to the same list |
| `Selection.ParseIdListExample` | dashboard-export.py:46 | `"1,3"` parses to `[1, 3]` |
| `Selection.Uids` | dashboard-export.py:73 | the uid list has one uid per cached summary, in cached order |
| `Selection.Selected` | dashboard-export.py:47 | the cached summaries whose id is wanted; its contract is stated by `SelectedMembers`, `SelectedMultiplicity`, `SelectedInCachedOrder` and `SelectedDependsOnCachedIdsOnly` |
| `Selection.SelectUids` | dashboard-export.py:47 | the uids the download loop visits; its contract is stated by `RepeatedIdFetchedOnce`, `UnknownIdIgnored` and `AllUidsIsFullSelection` |
| `Selection.SelectedMembers` | dashboard-export.py:47 | a summary is selected exactly when it is cached and its id is in the requested list |
| `Selection.SelectedMultiplicity` | dashboard-export.py:47 | a selected summary keeps all its cached copies, and an unselected one has none |
| `Selection.SelectedInCachedOrder` | dashboard-export.py:47 | the selection is a subsequence of the cached list (cached order, not request order) |
| `Selection.SelectedDependsOnCachedIdsOnly` | dashboard-export.py:47 | two id lists that agree on which cached ids they contain select the same summaries: their order and repetitions do not matter |
| `Selection.RepeatedIdFetchedOnce` | dashboard-export.py:47 | repeating a requested id does not fetch anything again |
| `Selection.UnknownIdIgnored` | dashboard-export.py:47 | an id that no cached summary has adds nothing to the fetches |
| `Selection.SelectedEverything` | dashboard-export.py:73 | when every cached id is requested, the selection is the whole cached list |
| `Selection.AllUidsIsFullSelection` | dashboard-export.py:73 | downloading everything is the selection with every cached id requested |
| `Download.SaveDashboards` | dashboard-export.py:47-61 | the loop writes `OutputPath(dir, title)` for each 200 answer in order; at the first non-200 answer it stops with that status and body; every uid up to that one is fetched once, in order |
| `Download.DownloadDashboards` | dashboard-export.py:42-61 | an id list that `int()` rejects ends the run with no fetch and no write; otherwise the loop runs over the selected uids |
| `Download.DownloadAllDashboards` | dashboard-export.py:69-88 | the loop runs over every cached uid, in cached order |
| `Download.AllAnswersOk` | dashboard-export.py:47-61 | when every answer is 200, the run completes, fetches each uid once, and writes one file per uid named after its fetched title |
| `Download.FirstBadAnswerStops` | dashboard-export.py:47-52 | when the first non-200 answer is the k-th, exactly k files are written, the first k+1 uids are fetched, and the error carries that answer's status and body |
| `Download.DownloadAllVisitsEach` | dashboard-export.py:73-88 | with 200 answers throughout, download-all fetches every cached summary exactly once, in cached order, and writes one file for each |
| `Listing.Center` | dashboard-export.py:97 | Python's `^w`; its contract is stated by `CenterLayout` and `CenterExample` |
| `Listing.LeftAlign` | dashboard-export.py:97-101 | Python's `<w`; its contract is stated by `LeftAlignLayout` |
| `Listing.Border` | dashboard-export.py:96 | the border line; its contract is stated by `BorderLayout` |
| `Listing.Row` | dashboard-export.py:97-101 | a table row; its contract is stated by `RowLayout` |
| `Listing.Header` | dashboard-export.py:97 | the heading row; `TableWidth` states it is 64 wide |
| `Listing.SummaryRow` | dashboard-export.py:101 | one summary's row; its width is stated by `SummaryRowFits` |
| `Listing.Table` | dashboard-export.py:95-103 | the printed lines; their contract is stated by `TableLayout` and `TableWidth` |
| `Listing.CenterLayout` | dashboard-export.py:97 | `^w` centres a string: floor(padding/2) spaces on the left, the rest on the right, w columns in all; a longer string is unchanged |
| `Listing.LeftAlignLayout` | dashboard-export.py:101 | `<w` puts the string first, then spaces up to w columns; a longer string is unchanged |
| `Listing.BorderLayout` | dashboard-export.py:96 | a border is `+`, 9 dashes, `+`, 52 dashes, `+`: 64 characters |
| `Listing.RowLayout` | dashboard-export.py:97-101 | a row is 7 + max(7, id length) + max(50, title length) characters; when both fit it is 64 wide, its vertical bars line up with the border's `+`, and the title starts at column 12 |
| `Listing.PrintDashboards` | dashboard-export.py:95-103 | the loop prints exactly the lines of `Table`: three heading lines, one row per summary, the closing border |
| `Listing.TableLayout` | dashboard-export.py:95-103 | the output has (number of summaries + 4) lines: border, heading, border, one row per summary in cached order, border |
| `Listing.TableWidth` | dashboard-export.py:95-103 | when every `str(id)` has at most 7 characters and every title at most 50, every line is 64 wide |
| `Listing.SummaryRowFits` | dashboard-export.py:101 | a summary with -10^6 < id < 10^7 and a title of at most 50 characters has a row as wide as the border |
| `Listing.CenterExample` | dashboard-export.py:97 | `"ID"` centred in 7 columns is two spaces, `ID`, three spaces |

## Left out

- HTTP requests, headers and the bearer token: each answer is an input value (status, raw body, and the dashboard title).
- JSON decoding and `json.dumps(..., indent=4)`: entries arrive as decoded records. The file content is not modelled; only the path of each write is recorded.
- Opening and writing files, and the global `OUTPUTDIR`: the directory is a parameter and writes are a log of paths.
- Failing writes: every write is taken to succeed. In the source, `open(..., 'w')` raises and ends the run when the directory the path names does not exist. That is always so for a missing output directory, which the script never creates. For a title holding `/`, which sanitising keeps, it happens only when the part before its last `/` is not an existing subdirectory; a title starting with `../` is written outside the output directory.
- Argument parsing, the `main` dispatch, `print` and the exit codes: outcomes are values. The "Working on <uid>..." messages show up only as the log of fetched uids.
- Answers that lack expected fields (`id`, `type`, `dashboard`, `title`): these would crash the source, and the model assumes well-formed records.
- `Text.LowerChar`: `str.lower()` is modelled for ASCII letters only; other characters are left unchanged, whereas Python also folds non-ASCII letters and can change the length (`'İ'.lower()` has two characters), so `Filename.SanitizedLength` holds for the model, not for every Python title.
- `Numbers.ParseInt`: accepts only non-empty runs of ASCII digits. Python's `int()` also accepts surrounding whitespace, a sign, underscores between digits and non-ASCII digits.
- `Download.SaveDashboards`, `Download.DownloadDashboards`, `Download.DownloadAllDashboards`: `requires |uids| <= |responses|` (for the two downloads, `|dashboards| <= |responses|`, which also asks for answers for summaries that are not selected), meaning a scripted answer exists for every fetch the loop may make. The real server always answers; network errors, which raise in `requests`, are not modelled.
