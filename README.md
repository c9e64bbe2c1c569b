# Weekly coding statistics, modelled in Dafny

`uv-scripts/weekly-coding-stats.py` adds up the lines one author changed in
2025 across every git repository under `~/Work`, week by week, and prints a
table with one row per week, then a TOTAL and an AVG row. This project models
its core:

- the extension filter (`SKIP_EXTENSIONS`, `should_skip_file`).
- the scan of one repository's `git log --numstat` output.
  - Date lines `YYYY-WW` set the current week.
  - A numstat line `added<TAB>deleted<TAB>file` adds both counts to that week.
  - It adds nothing when it is a binary change, when its file has an excluded extension, when it belongs to the excluded repository and week, or when a count does not parse.
- `format_number`, which puts a dot between groups of three digits.
- the part of `main` that merges the per-repository tallies by adding per week, sorts the weeks and builds the rows: one per week, a separator, TOTAL, and AVG (the average of every week but the last).

Files, one module each:

- `strings.dfy` (`Strings`): what the script uses of Python's strings: `isdigit`, `endswith`, substring `in`, `strip`, `split` and string ordering.
- `numbers.dfy` (`Numbers`): `str`, `int` on digit strings and `format_number`.
- `filefilter.dfy` (`FileFilter`): the extension filter.
- `tallies.dfy` (`Tallies`): the `defaultdict(int)` week tallies and their sums.
- `logscan.dfy` (`LogScan`): the per-repository scan.
- `summary.dfy` (`Summary`): the merge and the table.

The scan is a fold. `Step` is one turn of the loop and `Run`/`Scan` fold it over the lines. The methods `ScanLine` and `ScanLog` are the loop body and the loop, proved equal to `Step` and `Scan`. The lemmas about `Step` and `Run` state what each kind of line does.

Python's sets and dictionaries are iterated in an order the code does not control. `ShouldSkipFile` and `AddRepo` therefore pick the next element with a `:|` choice, and their contracts hold for every order. `sorted` is modelled by a selection sort (`SortWeeks`). Its contract is the one `sorted` gives: strictly ascending, with exactly the keys of the tally.

When a statement in the second `try` of `get_repo_statistics` raises, the `except` at `uv-scripts/weekly-coding-stats.py:119-120` keeps `week_stats` as it stands and `:122` returns it. The only statement there that can raise is the `git log` call, and it runs before any line is counted. The `ValueError` of `int()` is caught inside the loop. So a failure of the git commands always yields the empty tally, and `RepoLog.log == None` stands for every such failure.

Two definitions carry no contract of their own. `Tallies.Get` reads a `defaultdict(int)`: the stored count of a week, or 0 when the week is missing (`:65`, `:115`). `Summary.Rule` is the separator cell `'─' * n` (`:177`).

## Model

| member | source | states |
|---|---|---|
| Strings.Strip | uv-scripts/weekly-coding-stats.py:94 | `line.strip()` is the slice of the line left when its leading and trailing whitespace is cut off: everything cut off either end is whitespace, and the result neither starts nor ends with whitespace |
| Strings.StripUnchanged | uv-scripts/weekly-coding-stats.py:94 | a line with no whitespace at either end is its own `strip()`, so stripping twice changes nothing |
| Strings.Split | uv-scripts/weekly-coding-stats.py:101 | `split('\t')` gives at least one part, at least two when the line holds a tab, and no part holds a tab |
| Strings.IndexOfFirst | uv-scripts/weekly-coding-stats.py:101 | the first separator of a line is at any position holding it with none before |
| Strings.JoinSplit | uv-scripts/weekly-coding-stats.py:101 | joining the parts of a split with the separator gives the line back |
| Strings.SplitJoin | uv-scripts/weekly-coding-stats.py:101 | splitting a join of separator-free parts gives the parts back |
| Strings.EndsWith | uv-scripts/weekly-coding-stats.py:58 | defines `filename.endswith(suffix)`: the suffix is no longer than the name and equals its last characters (no contract) |
| Strings.DigitsPrefix | uv-scripts/weekly-coding-stats.py:97 | proof helper for the date-line test: when the first four characters form a digit string, each of the first four positions holds a digit |
| Strings.ContainsAt | uv-scripts/weekly-coding-stats.py:106 | `"uptimetea.com" in repo_path` holds whenever the name occurs at some offset of the path |
| Strings.ContainsOffset | uv-scripts/weekly-coding-stats.py:106 | conversely, when `"uptimetea.com" in repo_path` holds the name occurs at some offset, so `Contains` is exactly substring `in` |
| Strings.Contains | uv-scripts/weekly-coding-stats.py:106 | defines substring `in`: the string starts with the name, or its tail after the first character contains it (no contract; `ContainsAt` and `ContainsOffset` tie it to offsets both ways) |
| Strings.StrLessIrreflexive | uv-scripts/weekly-coding-stats.py:156 | no week key sorts before itself |
| Strings.StrLessTransitive | uv-scripts/weekly-coding-stats.py:156 | the order `sorted` uses on week keys is transitive |
| Strings.StrLessTotal | uv-scripts/weekly-coding-stats.py:156 | of two different keys one sorts first |
| Strings.StrLess | uv-scripts/weekly-coding-stats.py:156 | defines the string `<` that `sorted` applies to week keys: the empty string is below every other, otherwise the first characters decide, and on a tie the rest (no contract; its order properties are the three `StrLess…` lemmas) |
| Numbers.NatToString | uv-scripts/weekly-coding-stats.py:131 | `str(num)` is a non-empty digit string without a leading zero that denotes `num` |
| Numbers.IntToString | uv-scripts/weekly-coding-stats.py:128 | defines `str(num)` for any integer: `-` followed by the digits of `-num` for a negative number, the digits of `num` otherwise (no contract) |
| Numbers.ParseCount | uv-scripts/weekly-coding-stats.py:114 | `int(field)` succeeds exactly when the field is a non-empty digit string |
| Numbers.ParseCountNatToString | uv-scripts/weekly-coding-stats.py:114 | `int(str(n)) == n` |
| Numbers.NatToStringDigitsValue | uv-scripts/weekly-coding-stats.py:114 | `str(int(s)) == s` for every digit string without a leading zero |
| Numbers.NatToStringShort | uv-scripts/weekly-coding-stats.py:127 | `str(num)` has at most three digits exactly when `num < 1000` |
| Numbers.GroupThousandsRemoveDots | uv-scripts/weekly-coding-stats.py:131-138 | taking the dots out of the grouped digits gives `str(num)` back |
| Numbers.GroupThousandsShape | uv-scripts/weekly-coding-stats.py:133-136 | the grouping adds one dot per three digits beyond the first group, and dots sit exactly every fourth position from the right |
| Numbers.GroupThousandsNoEdgeDots | uv-scripts/weekly-coding-stats.py:134 | the grouped form neither starts nor ends with a dot |
| Numbers.GroupThousandsConsDot | uv-scripts/weekly-coding-stats.py:133-136 | a digit put in front of a positive multiple of three characters extends the grouping by that digit and a dot |
| Numbers.GroupThousandsConsPlain | uv-scripts/weekly-coding-stats.py:133-136 | a digit put in front of any other string extends the grouping by that digit alone |
| Numbers.FormattedSmall | uv-scripts/weekly-coding-stats.py:127-128 | the early return for `num < 1000` agrees with what the grouping would produce |
| Numbers.GroupStepDot | uv-scripts/weekly-coding-stats.py:133-136 | a turn of the loop that appends `'.'` then the digit keeps the reversed `parts` equal to the grouping of the digits read so far |
| Numbers.GroupStepDigit | uv-scripts/weekly-coding-stats.py:133-136 | a turn that appends only the digit keeps the same relation |
| Numbers.FormattedLarge | uv-scripts/weekly-coding-stats.py:130-138 | for `num >= 1000` the result loses its dots to become `str(num)`, has a dot every fourth place from the right, and no dot at either end |
| Numbers.FormatNumber | uv-scripts/weekly-coding-stats.py:125-138 | the loop returns `Formatted(num)`: `str(num)` below 1000, otherwise the digits with dots as above |
| Numbers.FormattedExamples | uv-scripts/weekly-coding-stats.py:125-138 | 999 becomes `"999"` and 1000 becomes `"1.000"` |
| Numbers.FormattedMillion | uv-scripts/weekly-coding-stats.py:125-138 | 1234567 becomes `"1.234.567"` |
| Numbers.GroupThousands | uv-scripts/weekly-coding-stats.py:130-138 | defines the grouping: the last three digits, preceded by a dot and the grouping of the rest, for strings longer than three (no contract; its properties are the `GroupThousands…` lemmas) |
| Numbers.Formatted | uv-scripts/weekly-coding-stats.py:125-138 | defines `format_number(num)`: `str(num)` below 1000, otherwise `GroupThousands(str(num))` (no contract; see `FormattedSmall`, `FormattedLarge` and `FormatNumber`) |
| FileFilter.ShouldSkipFile | uv-scripts/weekly-coding-stats.py:55-60 | true exactly when the name ends with `.` and one of the 14 extensions, whatever order the set is walked in |
| FileFilter.SkipExtensions | uv-scripts/weekly-coding-stats.py:23-38 | the 14 excluded extensions, without their leading dot (a constant) |
| FileFilter.Skipped | uv-scripts/weekly-coding-stats.py:55-60 | defines the filter: the name ends with `.` and some excluded extension (no contract; `ShouldSkipFile` is proved equal to it) |
| FileFilter.SkippedExamples | uv-scripts/weekly-coding-stats.py:23-38 | `yarn.lock`, `assets/app.min.js` and `fonts/a.woff2` are skipped |
| FileFilter.SkipExtensionEnds | uv-scripts/weekly-coding-stats.py:23-38 | every excluded extension ends in one of `k g p o f 2 t`, or ends in `s` and has at least six characters |
| FileFilter.KeptByEnding | uv-scripts/weekly-coding-stats.py:55-60 | a name is kept when its last character ends no extension, or when it ends in `s` and is too short to end in `.min.js` |
| FileFilter.KeptExamples | uv-scripts/weekly-coding-stats.py:55-60 | `app.js` is counted although `min.js` is excluded, and `LOGO.PNG` is counted because the match is case-sensitive |
| Tallies.SumOverRemove | uv-scripts/weekly-coding-stats.py:151-152 | a sum over the weeks of a tally may take any week out first, so dictionary order does not matter |
| Tallies.SumOverAbsent | uv-scripts/weekly-coding-stats.py:151-152 | weeks missing from a tally add nothing to a sum over them |
| Tallies.SumOverAdd | uv-scripts/weekly-coding-stats.py:151-152 | summing a week-by-week sum of two tallies gives the sum of the two sums |
| Tallies.MergedTotal | uv-scripts/weekly-coding-stats.py:151-152 | a tally holding exactly the weeks of two tallies, with each count the sum of theirs, has as its total the sum of their totals |
| Tallies.SumSeqIsSumOver | uv-scripts/weekly-coding-stats.py:169 | adding along a list of distinct weeks equals the order-free sum over the set of them |
| Tallies.SumSeqTotal | uv-scripts/weekly-coding-stats.py:164-169 | `total_lines`, summed along a list that holds every week once, is the total of the tally |
| Tallies.SumSeqAllButLast | uv-scripts/weekly-coding-stats.py:172-173 | `total_for_avg` over all weeks but the last is the total minus the last week's count |
| Tallies.SumSeq | uv-scripts/weekly-coding-stats.py:164-173 | defines the sum of the counts along a list of weeks, the last week added last, a missing week counting 0: `total_lines` after the loop and `total_for_avg` (no contract; see `SumSeqIsSumOver`, `SumSeqTotal` and `SumSeqAllButLast`) |
| Tallies.Total | uv-scripts/weekly-coding-stats.py:178 | defines the total of a tally: the sum of the counts over all its weeks, in no particular order (no contract; `SumSeqTotal` equates it with `total_lines`) |
| LogScan.RunAppend | uv-scripts/weekly-coding-stats.py:93-117 | scanning a log in two pieces is scanning it whole |
| LogScan.IsWeekKey | uv-scripts/weekly-coding-stats.py:97 | defines the date-line test: seven characters, four digits, then a dash (no contract) |
| LogScan.ExcludedRepo | uv-scripts/weekly-coding-stats.py:106 | the repository name whose week `2025-01` is not counted (a constant) |
| LogScan.ExcludedWeek | uv-scripts/weekly-coding-stats.py:106 | the week not counted for that repository (a constant) |
| LogScan.Contribution | uv-scripts/weekly-coding-stats.py:101-117 | defines what a tab line adds to the current week: nothing with fewer than three fields, in the excluded repository and week, for a binary change, for an excluded file or for a count that does not parse, otherwise the sum of the counts (no contract; see the `Step…` lemmas) |
| LogScan.Step | uv-scripts/weekly-coding-stats.py:94-117 | defines one turn of the loop on the stripped line: a date line becomes the current week; a tab line under a non-empty current week adds its contribution; anything else changes nothing (no contract; `ScanLine` is proved equal to it) |
| LogScan.Run | uv-scripts/weekly-coding-stats.py:93-117 | defines the loop as `Step` folded over the lines (no contract; see `RunAppend`) |
| LogScan.Scan | uv-scripts/weekly-coding-stats.py:90-117 | defines the tally of one log: the fold from no current week and an empty tally (no contract; `ScanLog` is proved equal to it) |
| LogScan.NumstatIsNotWeekKey | uv-scripts/weekly-coding-stats.py:97-102 | a stripped line with three tab-separated fields never passes the date-line test |
| LogScan.StepWeekLine | uv-scripts/weekly-coding-stats.py:97-98 | a date line becomes the current week and leaves the tally alone |
| LogScan.TabInNumstat | uv-scripts/weekly-coding-stats.py:100-102 | proof helper for the numstat branch: a line whose split has three fields holds a tab |
| LogScan.ContributionCounts | uv-scripts/weekly-coding-stats.py:102-117 | a qualifying numstat line contributes `int(added) + int(deleted)` |
| LogScan.StepContributing | uv-scripts/weekly-coding-stats.py:100-115 | a numstat line that contributes `n` under a current week adds `n` to that week's entry, creating it when missing |
| LogScan.StepQualifyingLine | uv-scripts/weekly-coding-stats.py:100-117 | a qualifying line adds exactly the sum of its counts to the current week, adds that week to the keys if needed, and changes no other week |
| LogScan.StepBinaryLine | uv-scripts/weekly-coding-stats.py:109-110 | a binary change (`-` as either count) changes nothing |
| LogScan.StepSkippedLine | uv-scripts/weekly-coding-stats.py:111-112 | a change to a file with an excluded extension changes nothing |
| LogScan.StepUnparsableLine | uv-scripts/weekly-coding-stats.py:113-117 | a line whose counts do not both parse changes nothing |
| LogScan.StepExcludedWeek | uv-scripts/weekly-coding-stats.py:105-107 | in the excluded repository, no line read under the week `2025-01` changes the tally |
| LogScan.BinaryLineIrrelevant | uv-scripts/weekly-coding-stats.py:109-110 | dropping a binary change anywhere in the log leaves the repository's tally unchanged |
| LogScan.RunWithoutWeek | uv-scripts/weekly-coding-stats.py:91-100 | with no date line yet there is no current week, so nothing is counted |
| LogScan.PreambleIgnored | uv-scripts/weekly-coding-stats.py:91-100 | lines before the first date line do not change the tally |
| LogScan.RunWellFormed | uv-scripts/weekly-coding-stats.py:97-115 | every key of a tally, and the current week, has the shape of a date line |
| LogScan.StepKeys | uv-scripts/weekly-coding-stats.py:97-115 | one line moves the current week only to that stripped line, and adds to the tally no week but the current one |
| LogScan.RunKeysSeen | uv-scripts/weekly-coding-stats.py:93-115 | the current week and the keys of the tally stay within any set holding every stripped line read |
| LogScan.ScanWeeksAreLines | uv-scripts/weekly-coding-stats.py:90-117 | every key of a repository's tally is one of the stripped lines of its log |
| LogScan.RunExcludedWeek | uv-scripts/weekly-coding-stats.py:105-107 | in the excluded repository the week `2025-01` never gets an entry |
| LogScan.StepNumstatLine | uv-scripts/weekly-coding-stats.py:100-117 | a line splitting into two counts and a kept file, under a current week, adds both counts to that week |
| LogScan.ScanExample | uv-scripts/weekly-coding-stats.py:90-117 | the log `2025-03`, `10\t5\tfoo.py`, `3\t2\tbar.svg` gives the tally `{2025-03: 15}` in any repository: the image is skipped |
| LogScan.ScanLine | uv-scripts/weekly-coding-stats.py:94-117 | the loop body takes the current week and tally to exactly what `Step` gives for the line |
| LogScan.ScanLog | uv-scripts/weekly-coding-stats.py:90-117 | the loop returns `Scan` of the lines; every key has the shape of a date line and is one of the stripped lines; the excluded repository has no `2025-01` entry |
| LogScan.RepoStats | uv-scripts/weekly-coding-stats.py:63-122 | defines a repository's tally: empty when the git commands fail, the scan of its log otherwise (no contract; `GetRepoStatistics` is proved equal to it) |
| LogScan.GetRepoStatistics | uv-scripts/weekly-coding-stats.py:63-122 | an empty tally when git is unavailable or fails, the scan of the log otherwise; every key has the shape of a date line |
| Summary.MergeOne | uv-scripts/weekly-coding-stats.py:151-152 | adding one more entry keeps the merge invariant, with that week now merged |
| Summary.AddRepo | uv-scripts/weekly-coding-stats.py:151-152 | after one repository's entries are added, in any order, the keys are the union and each count is the sum |
| Summary.WeekSum | uv-scripts/weekly-coding-stats.py:147-152 | defines the merged count of a week: the sum of its count over all repositories (no contract) |
| Summary.Merged | uv-scripts/weekly-coding-stats.py:147-152 | defines `total_stats`: every week some repository has, mapped to its `WeekSum` (no contract; `AggregateRepos` is proved equal to it) |
| Summary.WeekSumUnseen | uv-scripts/weekly-coding-stats.py:147-152 | a week no repository has sums to zero |
| Summary.MergedStep | uv-scripts/weekly-coding-stats.py:149-152 | merging one more repository adds its tally, week by week, to the merge of the others |
| Summary.RepoStatsWeeks | uv-scripts/weekly-coding-stats.py:63-122 | every key of a repository's tally has the shape of a date line |
| Summary.MergedWeeks | uv-scripts/weekly-coding-stats.py:147-152 | every key of the merge has the shape of a date line |
| Summary.MergedKeepsTotal | uv-scripts/weekly-coding-stats.py:147-152 | the merge loses no line: its total is the sum of the repositories' totals |
| Summary.MergedEmpty | uv-scripts/weekly-coding-stats.py:155 | the merge is empty exactly when every repository's tally is |
| Summary.SameTally | uv-scripts/weekly-coding-stats.py:147 | two tallies with the same weeks and counts are equal |
| Summary.MergeNext | uv-scripts/weekly-coding-stats.py:149-152 | one turn of the repository loop takes the merge of the first `i` repositories to the merge of the first `i + 1` |
| Summary.AggregateRepos | uv-scripts/weekly-coding-stats.py:147-152 | `total_stats` is the week-by-week sum over all repositories; its keys have the shape of date lines; its total is the sum of the repositories' totals |
| Summary.AscendingDistinct | uv-scripts/weekly-coding-stats.py:156 | a strictly ascending list of weeks holds no week twice |
| Summary.Least | uv-scripts/weekly-coding-stats.py:156 | the chosen week is in the set and sorts before every other week of it |
| Summary.SortWeeks | uv-scripts/weekly-coding-stats.py:156 | the weeks come out strictly ascending, each key exactly once |
| Summary.WeekLabel | uv-scripts/weekly-coding-stats.py:166 | defines the week cell: `2025 W` followed by the second dash-separated part of the key, for a key holding a dash (no contract) |
| Summary.Separator | uv-scripts/weekly-coding-stats.py:177 | the separator row: ten `─` in the week column and fifteen in the lines column (a constant) |
| Summary.NoCommitsMessage | uv-scripts/weekly-coding-stats.py:183 | the text printed when no repository has a week (a constant) |
| Summary.WeekLabelOfKey | uv-scripts/weekly-coding-stats.py:166 | for a date key with no second dash after position 4 (`'-' !in week[5..]`) the label is `2025 W` followed by the part after the dash |
| Summary.Rows | uv-scripts/weekly-coding-stats.py:165-168 | one row per sorted week |
| Summary.RowsAt | uv-scripts/weekly-coding-stats.py:165-168 | row `k` carries week `k`'s label and its formatted count |
| Summary.WeekRows | uv-scripts/weekly-coding-stats.py:164-169 | the loop builds those rows, and `total_lines` is the sum along the sorted weeks |
| Summary.AverageLines | uv-scripts/weekly-coding-stats.py:171-174 | `avg_lines` is 0 with no weeks, the only week's count with one, and otherwise the floor of the mean over all weeks but the last |
| Summary.SummaryTable | uv-scripts/weekly-coding-stats.py:163-179 | one row per week in order, then the separator, TOTAL as the formatted total of the tally, and AVG as the formatted mean of all weeks but the last (of the only week, when there is one) |
| Summary.Summarize | uv-scripts/weekly-coding-stats.py:155-183 | the "no commits" message exactly when the tally is empty; otherwise the table above over the ascending weeks |
| Summary.WeeklyCodingStats | uv-scripts/weekly-coding-stats.py:141-183 | the message exactly when no repository has a week; otherwise every seen week once, ascending, with its count summed over all repositories, then the separator row, TOTAL as the sum of all repositories' totals, and AVG: the only week's summed count when there is one week, else the sum of all totals minus the last week's summed count, divided by the number of weeks but one and rounded down |
| Summary.MergedAt | uv-scripts/weekly-coding-stats.py:147-152 | every week of the merged tally maps to its count summed over all repositories |
| Summary.MergedAverage | uv-scripts/weekly-coding-stats.py:172-179 | proof step for `WeeklyCodingStats`: the AVG row of the merge, written over the merged tally, is the same row written over the repositories |

## Left out

- `find_git_repos` (`uv-scripts/weekly-coding-stats.py:41-52`) runs `find` in a shell. The list of repositories, each with its git output, is an input (`seq<RepoLog>`).
- The git commands are inputs, not modelled: `git rev-parse` with its 1-second timeout and `git log` with its author and date filters. Their output arrives as `RepoLog.log`: None when the directory is not a repository or a command fails, otherwise the lines of the log.
- Git, not the script, derives the week keys (`%Y-%U`). The model only relies on the shape the scan checks: four digits and a dash.
- `splitlines()` (`:90`): the log comes already split into lines.
- Printing and PrettyTable's layout and alignment (`:159-161`, `:181`, `:183`) are not modelled. The model stops at the rows (`Report.Table`) or the message (`Report.NoCommits`).
- Numbers.ParseCount: accepts only non-empty ASCII digit strings. Python's `int()` also accepts a sign, surrounding whitespace, underscores between digits and non-ASCII digits. Git prints unsigned ASCII counts in these fields.
- Strings.IsDigit: ASCII digits only. `str.isdigit` also accepts other Unicode digits.
- Strings.Strip: the whitespace set is written out as the characters `str.isspace` accepts. It is not derived from the Unicode database.
- Summary.WeekLabel: requires a dash in the week key. On a key without one, the source would raise `IndexError`. Every key is a date line with a dash (`AggregateRepos` proves it), so that path cannot occur.
- Summary.Summarize: requires every key to be a date line, which `AggregateRepos` guarantees. The real `main` never calls the summary on anything else.
- Summary.SortWeeks: a selection sort stands in for `sorted`. Keys are distinct, so the `(week, lines)` tuples compare by week alone, and the contract is exactly `sorted`'s: strictly ascending, each key once.
- LogScan.ScanLine: the loop body is a method of its own. The `continue` for the excluded repository and week becomes an early return.
- `uv-scripts/text-to-voice.py` is a different program and is not part of this model.
