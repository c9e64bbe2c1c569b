/** The per-repository scan of the statistics script: the text that
    `git log --numstat --pretty=format:%ad --date=format:%Y-%U` prints, already
    split into lines, becomes a tally of changed lines per week. */
module LogScan {
  import opened Strings
  import opened Numbers
  import opened FileFilter
  import opened Tallies

  /** A date line as the log prints it, `<year>-<week>`: seven characters,
      four digits and a dash. Every week key of a tally is one. */
  predicate IsWeekKey(line: string) {
    |line| == 7 && AllDigits(line[..4]) && line[4] == '-'
  }

  /** The one repository and week whose changes are ignored altogether. */
  const ExcludedRepo: string := "uptimetea.com"
  const ExcludedWeek: string := "2025-01"

  /** What the scan carries from line to line: `current_week` (None before
      the first date line) and `week_stats`. */
  datatype ScanState = ScanState(week: Option<string>, stats: WeekTally)

  const Start := ScanState(None, map[])

  /** The number of lines a tab-separated numstat line adds to `week`, or
      None when it adds nothing: fewer than three fields, the excluded
      repository and week, a binary change (`-` as a count), an excluded
      extension, or a count that is not a number. */
  function Contribution(repoPath: string, week: string, line: string): Option<nat> {
    var parts := Split(line, '\t');
    if |parts| < 3 then None
    else if Contains(repoPath, ExcludedRepo) && week == ExcludedWeek then None
    else if parts[0] == "-" || parts[1] == "-" then None
    else if Skipped(parts[2]) then None
    else
      var added, deleted := ParseCount(parts[0]), ParseCount(parts[1]);
      if added.Some? && deleted.Some? then Some(added.value + deleted.value) else None
  }

  /** One pass of the scan loop over one raw line of the log. */
  function Step(repoPath: string, st: ScanState, raw: string): ScanState {
    var line := Strip(raw);
    if IsWeekKey(line) then ScanState(Some(line), st.stats)
    else if '\t' in line && st.week.Some? && st.week.value != "" then
      var week := st.week.value;
      var n := Contribution(repoPath, week, line);
      if n.Some? then ScanState(st.week, st.stats[week := Get(st.stats, week) + n.value]) else st
    else st
  }

  /** The scan loop run over `lines` from the state `st`. */
  function Run(repoPath: string, st: ScanState, lines: seq<string>): ScanState
    decreases |lines|
  {
    if lines == [] then st else Run(repoPath, Step(repoPath, st, lines[0]), lines[1..])
  }

  /** The week tally of one repository's log. */
  function Scan(repoPath: string, lines: seq<string>): WeekTally {
    Run(repoPath, Start, lines).stats
  }

  /** The lines of a log can be scanned in two pieces. */
  lemma {:induction false} RunAppend(repoPath: string, st: ScanState, a: seq<string>, b: seq<string>)
    ensures Run(repoPath, st, a + b) == Run(repoPath, Run(repoPath, st, a), b)
    decreases |a|
  {
    if a == [] {
      assert a + b == b;
    } else {
      assert (a + b)[0] == a[0] && (a + b)[1..] == a[1..] + b;
      RunAppend(repoPath, Step(repoPath, st, a[0]), a[1..], b);
    }
  }

  /** A stripped line with three tab-separated fields is never a date line:
      its tabs would have to sit at the last two positions, and a stripped
      line does not end in whitespace. */
  lemma NumstatIsNotWeekKey(raw: string)
    requires |Split(Strip(raw), '\t')| >= 3
    ensures !IsWeekKey(Strip(raw))
  {
    var line := Strip(raw);
    var i := IndexOf(line, '\t');
    var j := i + 1 + IndexOf(line[i + 1..], '\t');
    assert line[j] == '\t';
    if |line| >= 4 && AllDigits(line[..4]) {
      DigitsPrefix(line);
    }
  }

  /** A date line becomes the current week and leaves the tally alone. */
  lemma StepWeekLine(repoPath: string, st: ScanState, raw: string)
    requires IsWeekKey(Strip(raw))
    ensures Step(repoPath, st, raw) == ScanState(Some(Strip(raw)), st.stats)
  {
  }

  /** A line with three tab-separated fields holds a tab. */
  lemma TabInNumstat(line: string)
    requires |Split(line, '\t')| >= 3
    ensures '\t' in line
  {
  }

  /** What a qualifying numstat line contributes: the sum of its counts. */
  lemma ContributionCounts(repoPath: string, week: string, line: string)
    requires var parts := Split(line, '\t');
      && |parts| >= 3
      && !(Contains(repoPath, ExcludedRepo) && week == ExcludedWeek)
      && parts[0] != "-" && parts[1] != "-"
      && !Skipped(parts[2])
      && ParseCount(parts[0]).Some? && ParseCount(parts[1]).Some?
    ensures var parts := Split(line, '\t');
      Contribution(repoPath, week, line) == Some(DigitsValue(parts[0]) + DigitsValue(parts[1]))
  {
  }

  /** A numstat line that contributes `n` adds `n` to the current week. */
  lemma StepContributing(repoPath: string, st: ScanState, raw: string, week: string, n: nat)
    requires st.week == Some(week) && week != ""
    requires |Split(Strip(raw), '\t')| >= 3
    requires Contribution(repoPath, week, Strip(raw)) == Some(n)
    ensures Step(repoPath, st, raw) == ScanState(st.week, st.stats[week := Get(st.stats, week) + n])
  {
    NumstatIsNotWeekKey(raw);
    TabInNumstat(Strip(raw));
  }

  /** A line that qualifies adds exactly the sum of its two counts to the
      current week and changes no other week. */
  lemma StepQualifyingLine(repoPath: string, st: ScanState, raw: string, week: string)
    requires st.week == Some(week) && week != ""
    requires var parts := Split(Strip(raw), '\t');
      && |parts| >= 3
      && !(Contains(repoPath, ExcludedRepo) && week == ExcludedWeek)
      && parts[0] != "-" && parts[1] != "-"
      && !Skipped(parts[2])
      && ParseCount(parts[0]).Some? && ParseCount(parts[1]).Some?
    ensures var parts := Split(Strip(raw), '\t');
      Step(repoPath, st, raw)
        == ScanState(st.week, st.stats[week := Get(st.stats, week) + DigitsValue(parts[0]) + DigitsValue(parts[1])])
    ensures var after := Step(repoPath, st, raw).stats;
      && after.Keys == st.stats.Keys + {week}
      && forall other :: other != week ==> Get(after, other) == Get(st.stats, other)
  {
    var line := Strip(raw);
    var parts := Split(line, '\t');
    ContributionCounts(repoPath, week, line);
    StepContributing(repoPath, st, raw, week, DigitsValue(parts[0]) + DigitsValue(parts[1]));
  }

  /** A binary change, shown with `-` as a count, changes nothing. */
  lemma StepBinaryLine(repoPath: string, st: ScanState, raw: string)
    requires var parts := Split(Strip(raw), '\t');
      |parts| >= 3 && (parts[0] == "-" || parts[1] == "-")
    ensures Step(repoPath, st, raw) == st
  {
    NumstatIsNotWeekKey(raw);
  }

  /** A change to a file with an excluded extension changes nothing. */
  lemma StepSkippedLine(repoPath: string, st: ScanState, raw: string)
    requires var parts := Split(Strip(raw), '\t');
      |parts| >= 3 && Skipped(parts[2])
    ensures Step(repoPath, st, raw) == st
  {
    NumstatIsNotWeekKey(raw);
  }

  /** A numstat line whose counts do not both parse changes nothing. */
  lemma StepUnparsableLine(repoPath: string, st: ScanState, raw: string)
    requires var parts := Split(Strip(raw), '\t');
      |parts| >= 3 && (ParseCount(parts[0]).None? || ParseCount(parts[1]).None?)
    ensures Step(repoPath, st, raw) == st
  {
    NumstatIsNotWeekKey(raw);
  }

  /** In the excluded repository, no line read while the current week is
      the excluded week counts, whatever its file or its counts. */
  lemma StepExcludedWeek(repoPath: string, st: ScanState, raw: string)
    requires Contains(repoPath, ExcludedRepo) && st.week == Some(ExcludedWeek)
    ensures Step(repoPath, st, raw).stats == st.stats
  {
  }

  /** A binary change can be dropped from the log without changing the
      tally: it never contributes to any week. */
  lemma BinaryLineIrrelevant(repoPath: string, before: seq<string>, raw: string, after: seq<string>)
    requires var parts := Split(Strip(raw), '\t');
      |parts| >= 3 && (parts[0] == "-" || parts[1] == "-")
    ensures Scan(repoPath, before + [raw] + after) == Scan(repoPath, before + after)
  {
    RunAppend(repoPath, Start, before + [raw], after);
    RunAppend(repoPath, Start, before, [raw]);
    RunAppend(repoPath, Start, before, after);
    StepBinaryLine(repoPath, Run(repoPath, Start, before), raw);
  }

  /** Before the first date line there is no current week and nothing
      changes. */
  lemma {:induction false} RunWithoutWeek(repoPath: string, lines: seq<string>)
    requires forall i :: 0 <= i < |lines| ==> !IsWeekKey(Strip(lines[i]))
    ensures Run(repoPath, Start, lines) == Start
    decreases |lines|
  {
    if lines != [] {
      RunWithoutWeek(repoPath, lines[1..]);
    }
  }

  /** Numstat lines that come before any date line contribute nothing: the
      tally is that of the log without them. */
  lemma PreambleIgnored(repoPath: string, preamble: seq<string>, rest: seq<string>)
    requires forall i :: 0 <= i < |preamble| ==> !IsWeekKey(Strip(preamble[i]))
    ensures Scan(repoPath, preamble + rest) == Scan(repoPath, rest)
  {
    RunAppend(repoPath, Start, preamble, rest);
    RunWithoutWeek(repoPath, preamble);
  }

  /** The current week and every week in the tally have the shape of a
      date line. */
  ghost predicate WellFormed(st: ScanState) {
    && (st.week.Some? ==> IsWeekKey(st.week.value))
    && forall w :: w in st.stats ==> IsWeekKey(w)
  }

  lemma {:induction false} RunWellFormed(repoPath: string, st: ScanState, lines: seq<string>)
    requires WellFormed(st)
    ensures WellFormed(Run(repoPath, st, lines))
    decreases |lines|
  {
    if lines != [] {
      RunWellFormed(repoPath, Step(repoPath, st, lines[0]), lines[1..]);
    }
  }

  /** One line moves the current week only to that line, and adds to the
      tally only the current week. */
  lemma StepKeys(repoPath: string, st: ScanState, raw: string)
    ensures var next := Step(repoPath, st, raw);
      && (next.week == st.week || next.week == Some(Strip(raw)))
      && forall w :: w in next.stats ==> w in st.stats || st.week == Some(w)
  {
  }

  /** When every line read is in `seen`, and so are the current week and the
      weeks of the tally, they stay in `seen` to the end of the log. */
  lemma {:induction false} RunKeysSeen(repoPath: string, st: ScanState, lines: seq<string>, seen: set<string>)
    requires forall i :: 0 <= i < |lines| ==> Strip(lines[i]) in seen
    requires st.week.Some? ==> st.week.value in seen
    requires forall w :: w in st.stats ==> w in seen
    ensures var last := Run(repoPath, st, lines);
      && (last.week.Some? ==> last.week.value in seen)
      && forall w :: w in last.stats ==> w in seen
    decreases |lines|
  {
    if lines != [] {
      assert Strip(lines[0]) in seen;
      StepKeys(repoPath, st, lines[0]);
      assert forall i :: 0 <= i < |lines| - 1 ==> lines[1..][i] == lines[i + 1];
      RunKeysSeen(repoPath, Step(repoPath, st, lines[0]), lines[1..], seen);
    }
  }

  /** Every week of a repository's tally is one of the stripped lines of its
      log: a date line that was read, never a key made up by the scan. */
  lemma ScanWeeksAreLines(repoPath: string, lines: seq<string>)
    ensures forall w :: w in Scan(repoPath, lines) ==> exists i :: 0 <= i < |lines| && Strip(lines[i]) == w
  {
    var seen := set i | 0 <= i < |lines| :: Strip(lines[i]);
    RunKeysSeen(repoPath, Start, lines, seen);
  }

  /** In the excluded repository the excluded week never gets an entry. */
  lemma {:induction false} RunExcludedWeek(repoPath: string, st: ScanState, lines: seq<string>)
    requires Contains(repoPath, ExcludedRepo) && ExcludedWeek !in st.stats
    ensures ExcludedWeek !in Run(repoPath, st, lines).stats
    decreases |lines|
  {
    if lines != [] {
      RunExcludedWeek(repoPath, Step(repoPath, st, lines[0]), lines[1..]);
    }
  }

  /** The date line of the worked log below opens its week. */
  lemma ExampleWeekLine(repoPath: string)
    ensures Step(repoPath, Start, "2025-03") == ScanState(Some("2025-03"), map[])
  {
    StripUnchanged("2025-03");
    assert "2025-03"[..4] == "2025";
    StepWeekLine(repoPath, Start, "2025-03");
  }

  /** Three tab-free fields joined by tabs split back into those fields. */
  lemma SplitNumstat(added: string, deleted: string, filename: string)
    requires '\t' !in added && '\t' !in deleted && '\t' !in filename
    ensures Split(added + "\t" + deleted + "\t" + filename, '\t') == [added, deleted, filename]
  {
    var parts := [added, deleted, filename];
    SplitJoin(parts, '\t');
    var front, middle := added + "\t", deleted + "\t";
    assert Join(parts[1..], '\t') == middle + filename by {
      assert parts[1..][0] == deleted && parts[1..][1..] == [filename];
    }
    calc {
      Join(parts, '\t');
      front + (middle + filename);
      { AppendAssoc(front, middle, filename); }
      (front + middle) + filename;
      { AppendAssoc(front, deleted, "\t"); }
      added + "\t" + deleted + "\t" + filename;
    }
  }

  /** A numstat line of a kept file whose counts parse as `added` and
      `deleted` contributes their sum. */
  lemma NumstatContribution(repoPath: string, week: string, line: string, a: string, d: string, added: nat, deleted: nat, filename: string)
    requires Split(line, '\t') == [a, d, filename]
    requires ParseCount(a) == Some(added) && ParseCount(d) == Some(deleted)
    requires !(Contains(repoPath, ExcludedRepo) && week == ExcludedWeek)
    requires !Skipped(filename)
    ensures Contribution(repoPath, week, line) == Some(added + deleted)
  {
    assert a != "-" && d != "-" by {
      assert IsDigit(a[0]) && IsDigit(d[0]);
    }
  }

  /** A numstat line of a kept file whose counts parse as `added` and
      `deleted` adds both to the current week. */
  lemma StepNumstatLine(repoPath: string, st: ScanState, week: string, raw: string, a: string, d: string, added: nat, deleted: nat, filename: string)
    requires Split(Strip(raw), '\t') == [a, d, filename]
    requires ParseCount(a) == Some(added) && ParseCount(d) == Some(deleted)
    requires st.week == Some(week) && week != ""
    requires !(Contains(repoPath, ExcludedRepo) && week == ExcludedWeek)
    requires !Skipped(filename)
    ensures Step(repoPath, st, raw) == ScanState(st.week, st.stats[week := Get(st.stats, week) + added + deleted])
  {
    NumstatContribution(repoPath, week, Strip(raw), a, d, added, deleted, filename);
    StepContributing(repoPath, st, raw, week, added + deleted);
    assert Get(st.stats, week) + added + deleted == Get(st.stats, week) + (added + deleted);
  }

  /** The source-file line of the worked log has no surrounding blanks. */
  lemma ExampleSourceStripped()
    ensures Strip("10\t5\tfoo.py") == "10\t5\tfoo.py"
  {
    StripUnchanged("10\t5\tfoo.py");
  }

  /** The fields of the source-file line of the worked log. */
  lemma ExampleSourceSplit()
    ensures Split("10\t5\tfoo.py", '\t') == ["10", "5", "foo.py"]
  {
    assert "10\t5\tfoo.py" == "10" + "\t" + "5" + "\t" + "foo.py";
    SplitNumstat("10", "5", "foo.py");
  }

  /** The counts of the source-file line of the worked log. */
  lemma ExampleSourceCounts()
    ensures ParseCount("10") == Some(10) && ParseCount("5") == Some(5)
  {
    ParseCountNatToString(10);
    ParseCountNatToString(5);
    assert NatToString(10) == "10";
  }

  /** The file of the source-file line of the worked log is kept. */
  lemma ExampleSourceKept()
    ensures !Skipped("foo.py")
  {
    KeptByEnding("foo.py");
  }

  /** The source-file line of the worked log adds 10 + 5 to its week. */
  lemma ExampleSourceLine(repoPath: string)
    ensures Step(repoPath, ScanState(Some("2025-03"), map[]), "10\t5\tfoo.py")
      == ScanState(Some("2025-03"), map["2025-03" := 15])
  {
    ExampleSourceStripped();
    ExampleSourceSplit();
    ExampleSourceCounts();
    ExampleSourceKept();
    var st: ScanState := ScanState(Some("2025-03"), map[]);
    StepNumstatLine(repoPath, st, "2025-03", "10\t5\tfoo.py", "10", "5", 10, 5, "foo.py");
    assert Get(st.stats, "2025-03") + 10 + 5 == 15;
  }

  /** The image line of the worked log has no surrounding blanks. */
  lemma ExampleImageStripped()
    ensures Strip("3\t2\tbar.svg") == "3\t2\tbar.svg"
  {
    StripUnchanged("3\t2\tbar.svg");
  }

  /** The fields of the image line of the worked log. */
  lemma ExampleImageSplit()
    ensures Split("3\t2\tbar.svg", '\t') == ["3", "2", "bar.svg"]
  {
    assert "3\t2\tbar.svg" == "3" + "\t" + "2" + "\t" + "bar.svg";
    SplitNumstat("3", "2", "bar.svg");
  }

  /** The file of the image line of the worked log is excluded. */
  lemma ExampleImageSkipped()
    ensures Skipped("bar.svg")
  {
    assert EndsWith("bar.svg", "." + "svg");
  }

  /** The image line of the worked log changes nothing. */
  lemma ExampleImageLine(repoPath: string, st: ScanState)
    ensures Step(repoPath, st, "3\t2\tbar.svg") == st
  {
    ExampleImageStripped();
    ExampleImageSplit();
    ExampleImageSkipped();
    StepSkippedLine(repoPath, st, "3\t2\tbar.svg");
  }

  /** A worked log: a date line, a source file with 10 added and 5 deleted
      lines, and an excluded image; the week gets 15. */
  lemma ScanExample(repoPath: string)
    ensures Scan(repoPath, ["2025-03", "10\t5\tfoo.py", "3\t2\tbar.svg"]) == map["2025-03" := 15]
  {
    var week, source, image := "2025-03", "10\t5\tfoo.py", "3\t2\tbar.svg";
    var afterSource := ScanState(Some(week), map[week := 15]);
    assert Run(repoPath, afterSource, [image]) == afterSource by {
      ExampleImageLine(repoPath, afterSource);
      assert [image][1..] == [];
    }
    assert Run(repoPath, ScanState(Some(week), map[]), [source, image]) == afterSource by {
      ExampleSourceLine(repoPath);
      assert [source, image][1..] == [image];
    }
    assert Run(repoPath, Start, [week, source, image]) == afterSource by {
      ExampleWeekLine(repoPath);
      assert [week, source, image][1..] == [source, image];
    }
  }

  /** The body of the loop of `get_repo_statistics`: one stripped log line
      either becomes the current week or, as a numstat line, may add its
      two counts to the current week's entry. */
  method ScanLine(repoPath: string, currentWeek: Option<string>, weekStats: WeekTally, raw: string)
    returns (newWeek: Option<string>, newStats: WeekTally)
    ensures ScanState(newWeek, newStats) == Step(repoPath, ScanState(currentWeek, weekStats), raw)
  {
    newWeek, newStats := currentWeek, weekStats;
    var line := Strip(raw);
    if IsWeekKey(line) {
      newWeek := Some(line);
    } else if '\t' in line && currentWeek.Some? && currentWeek.value != "" {
      var parts := Split(line, '\t');
      if |parts| >= 3 {
        var added, deleted, filename := parts[0], parts[1], parts[2];
        if Contains(repoPath, ExcludedRepo) && currentWeek.value == ExcludedWeek {
          return;
        }
        if added != "-" && deleted != "-" {
          var skip := ShouldSkipFile(filename);
          if !skip {
            var a, d := ParseCount(added), ParseCount(deleted);
            if a.Some? && d.Some? {
              var week := currentWeek.value;
              newStats := weekStats[week := Get(weekStats, week) + (a.value + d.value)];
            }
          }
        }
      }
    }
  }

  /** The loop of `get_repo_statistics` over the lines of the log. */
  method ScanLog(repoPath: string, lines: seq<string>) returns (weekStats: WeekTally)
    ensures weekStats == Scan(repoPath, lines)
    ensures forall w :: w in weekStats ==> IsWeekKey(w)
    ensures Contains(repoPath, ExcludedRepo) ==> ExcludedWeek !in weekStats
    ensures forall w :: w in weekStats ==> exists i :: 0 <= i < |lines| && Strip(lines[i]) == w
  {
    var currentWeek: Option<string> := None;
    weekStats := map[];
    for i := 0 to |lines|
      invariant Run(repoPath, ScanState(currentWeek, weekStats), lines[i..]) == Run(repoPath, Start, lines)
    {
      assert lines[i..][0] == lines[i] && lines[i..][1..] == lines[i + 1..];
      currentWeek, weekStats := ScanLine(repoPath, currentWeek, weekStats, lines[i]);
    }
    assert lines[|lines|..] == [];
    RunWellFormed(repoPath, Start, lines);
    ScanWeeksAreLines(repoPath, lines);
    if Contains(repoPath, ExcludedRepo) {
      RunExcludedWeek(repoPath, Start, lines);
    }
  }

  /** What the two git commands give for one directory: the lines of the
      log, or None when `git rev-parse` fails, times out or raises, or the
      log command raises. */
  datatype RepoLog = RepoLog(path: string, log: Option<seq<string>>)

  /** The tally `get_repo_statistics` returns for a directory. */
  function RepoStats(repo: RepoLog): WeekTally {
    if repo.log.None? then map[] else Scan(repo.path, repo.log.value)
  }

  /** `get_repo_statistics`: an empty tally when the directory is not a
      repository or git fails, the scan of its log otherwise. */
  method GetRepoStatistics(repo: RepoLog) returns (weekStats: WeekTally)
    ensures repo.log.None? ==> weekStats == map[]
    ensures repo.log.Some? ==> weekStats == Scan(repo.path, repo.log.value)
    ensures forall w :: w in weekStats ==> IsWeekKey(w)
  {
    if repo.log.None? {
      return map[];
    }
    weekStats := ScanLog(repo.path, repo.log.value);
  }
}
