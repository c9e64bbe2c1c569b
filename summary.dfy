/** The aggregation and summary of `main`: the per-repository tallies are
    merged by adding per week, the weeks are listed in ascending order with
    their formatted counts, and a TOTAL and an AVG row follow. */
module Summary {
  import opened Strings
  import opened Numbers
  import opened Tallies
  import opened LogScan

  /** `merged` is `total` with the entries of `repoStats` added in at
      every week not in `remaining`. */
  ghost predicate MergedSoFar(merged: WeekTally, total: WeekTally, repoStats: WeekTally, remaining: set<string>) {
    && (forall w :: w in merged <==> w in total || (w in repoStats && w !in remaining))
    && forall w :: Get(merged, w) == Get(total, w) + (if w in remaining then 0 else Get(repoStats, w))
  }

  /** Adding one more entry of `repoStats` extends the merged weeks by it. */
  lemma MergeOne(merged: WeekTally, total: WeekTally, repoStats: WeekTally, remaining: set<string>, week: string)
    requires MergedSoFar(merged, total, repoStats, remaining)
    requires remaining <= repoStats.Keys && week in remaining
    ensures MergedSoFar(merged[week := Get(merged, week) + repoStats[week]], total, repoStats, remaining - {week})
  {
  }

  /** One round of the merge loop of `main`: every entry of `repoStats` is
      added to `total`, in whatever order the dictionary yields them. */
  method AddRepo(total: WeekTally, repoStats: WeekTally) returns (merged: WeekTally)
    ensures forall w :: w in merged <==> w in total || w in repoStats
    ensures forall w :: Get(merged, w) == Get(total, w) + Get(repoStats, w)
  {
    merged := total;
    var remaining := repoStats.Keys;
    while remaining != {}
      invariant remaining <= repoStats.Keys
      invariant MergedSoFar(merged, total, repoStats, remaining)
      decreases |remaining|
    {
      var week :| week in remaining;
      MergeOne(merged, total, repoStats, remaining, week);
      merged := merged[week := Get(merged, week) + repoStats[week]];
      remaining := remaining - {week};
    }
  }

  /** The weeks that occur in the tally of some repository. */
  function SeenWeeks(repos: seq<RepoLog>): set<string> {
    if repos == [] then {} else SeenWeeks(repos[..|repos| - 1]) + RepoStats(repos[|repos| - 1]).Keys
  }

  /** The count of `week` added up over the tallies of all repositories. */
  function WeekSum(repos: seq<RepoLog>, week: string): nat {
    if repos == [] then 0 else WeekSum(repos[..|repos| - 1], week) + Get(RepoStats(repos[|repos| - 1]), week)
  }

  /** `total_stats` once every repository has been merged in. */
  function Merged(repos: seq<RepoLog>): WeekTally {
    map w | w in SeenWeeks(repos) :: WeekSum(repos, w)
  }

  /** The totals of the repositories' tallies, added up. */
  ghost function SumOfTotals(repos: seq<RepoLog>): nat {
    if repos == [] then 0 else SumOfTotals(repos[..|repos| - 1]) + Total(RepoStats(repos[|repos| - 1]))
  }

  /** A week no repository has contributes nothing to the sum. */
  lemma {:induction false} WeekSumUnseen(repos: seq<RepoLog>, week: string)
    requires week !in SeenWeeks(repos)
    ensures WeekSum(repos, week) == 0
  {
    if repos != [] {
      WeekSumUnseen(repos[..|repos| - 1], week);
    }
  }

  /** Merging one more repository adds its tally to the merge of the
      others, week by week. */
  lemma MergedStep(repos: seq<RepoLog>)
    requires repos != []
    ensures var front, last := Merged(repos[..|repos| - 1]), RepoStats(repos[|repos| - 1]);
      && (forall w :: w in Merged(repos) <==> w in front || w in last)
      && forall w :: Get(Merged(repos), w) == Get(front, w) + Get(last, w)
  {
    var front := repos[..|repos| - 1];
    forall w
      ensures Get(Merged(repos), w) == Get(Merged(front), w) + Get(RepoStats(repos[|repos| - 1]), w)
    {
      if w !in SeenWeeks(front) {
        WeekSumUnseen(front, w);
      }
    }
  }

  /** Every week of a repository's tally has the shape of a date line. */
  lemma RepoStatsWeeks(repo: RepoLog)
    ensures forall w :: w in RepoStats(repo) ==> IsWeekKey(w)
  {
    if repo.log.Some? {
      RunWellFormed(repo.path, Start, repo.log.value);
    }
  }

  /** Every week of the merge has the shape of a date line. */
  lemma {:induction false} MergedWeeks(repos: seq<RepoLog>)
    ensures forall w :: w in Merged(repos) ==> IsWeekKey(w)
  {
    if repos != [] {
      MergedWeeks(repos[..|repos| - 1]);
      RepoStatsWeeks(repos[|repos| - 1]);
    }
  }

  /** The merge keeps every line: its total is the sum of the totals of all
      repositories' tallies. */
  lemma {:induction false} MergedKeepsTotal(repos: seq<RepoLog>)
    ensures Total(Merged(repos)) == SumOfTotals(repos)
  {
    if repos == [] {
      assert Merged(repos) == map[];
    } else {
      var front := repos[..|repos| - 1];
      MergedKeepsTotal(front);
      MergedStep(repos);
      MergedTotal(Merged(front), RepoStats(repos[|repos| - 1]), Merged(repos));
    }
  }

  /** The merge is empty exactly when every repository's tally is. */
  lemma {:induction false} MergedEmpty(repos: seq<RepoLog>)
    ensures Merged(repos) == map[] <==> forall i :: 0 <= i < |repos| ==> RepoStats(repos[i]) == map[]
  {
    if repos != [] {
      var front := repos[..|repos| - 1];
      MergedEmpty(front);
      assert forall i :: 0 <= i < |front| ==> front[i] == repos[i];
      if Merged(repos) == map[] {
        assert Merged(repos).Keys == SeenWeeks(repos);
        assert SeenWeeks(repos) == {};
      } else {
        var w :| w in SeenWeeks(repos);
      }
    }
  }

  /** Two tallies with the same weeks and the same counts are equal. */
  lemma SameTally(a: WeekTally, b: WeekTally)
    requires forall w :: w in a <==> w in b
    requires forall w :: Get(a, w) == Get(b, w)
    ensures a == b
  {
    assert forall w :: w in a ==> a[w] == Get(a, w);
  }

  /** Adding the tally of repository `i` to the merge of the ones before
      it gives the merge of the first `i + 1`. */
  lemma MergeNext(repos: seq<RepoLog>, i: nat, total: WeekTally, merged: WeekTally)
    requires i < |repos| && total == Merged(repos[..i])
    requires forall w :: w in merged <==> w in total || w in RepoStats(repos[i])
    requires forall w :: Get(merged, w) == Get(total, w) + Get(RepoStats(repos[i]), w)
    ensures merged == Merged(repos[..i + 1])
  {
    var prefix := repos[..i + 1];
    assert prefix[..|prefix| - 1] == repos[..i];
    assert prefix[|prefix| - 1] == repos[i];
    MergedStep(prefix);
    SameTally(merged, Merged(prefix));
  }

  /** The merge loop of `main` over the repositories found. */
  method AggregateRepos(repos: seq<RepoLog>) returns (total: WeekTally)
    ensures total == Merged(repos)
    ensures forall w :: w in total ==> IsWeekKey(w)
    ensures Total(total) == SumOfTotals(repos)
  {
    total := map[];
    for i := 0 to |repos|
      invariant total == Merged(repos[..i])
    {
      var repoStats := GetRepoStatistics(repos[i]);
      var merged := AddRepo(total, repoStats);
      MergeNext(repos, i, total, merged);
      total := merged;
    }
    assert repos[..|repos|] == repos;
    MergedWeeks(repos);
    MergedKeepsTotal(repos);
  }

  /** Strictly ascending in Python's order on strings. */
  predicate Ascending(weeks: seq<string>) {
    forall i, j :: 0 <= i < j < |weeks| ==> StrLess(weeks[i], weeks[j])
  }

  /** An ascending list holds no week twice. */
  lemma AscendingDistinct(weeks: seq<string>)
    requires Ascending(weeks)
    ensures Distinct(weeks)
  {
    forall i, j | 0 <= i < j < |weeks|
      ensures weeks[i] != weeks[j]
    {
      StrLessIrreflexive(weeks[i]);
    }
  }

  /** The least of a non-empty set of weeks. */
  method Least(weeks: set<string>) returns (least: string)
    requires weeks != {}
    ensures least in weeks
    ensures forall w :: w in weeks && w != least ==> StrLess(least, w)
  {
    least :| least in weeks;
    var remaining := weeks - {least};
    while remaining != {}
      invariant remaining <= weeks && least in weeks && least !in remaining
      invariant forall w :: w in weeks - remaining && w != least ==> StrLess(least, w)
      decreases |remaining|
    {
      var w :| w in remaining;
      if StrLess(w, least) {
        forall x | x in weeks - remaining && x != least
          ensures StrLess(w, x)
        {
          StrLessTransitive(w, least, x);
        }
        least := w;
      } else {
        StrLessTotal(w, least);
      }
      remaining := remaining - {w};
    }
  }

  /** `sorted(total_stats.items())`: the weeks in ascending order. The keys
      are distinct, so the tuples compare by their week alone. */
  method SortWeeks(m: WeekTally) returns (weeks: seq<string>)
    ensures Ascending(weeks)
    ensures forall w :: w in weeks <==> w in m
    ensures |weeks| == |m|
  {
    weeks := [];
    var remaining := m.Keys;
    while remaining != {}
      invariant remaining <= m.Keys
      invariant forall w :: w in m ==> (w in weeks <==> w !in remaining)
      invariant forall w :: w in weeks ==> w in m
      invariant Ascending(weeks)
      invariant forall i, w :: 0 <= i < |weeks| && w in remaining ==> StrLess(weeks[i], w)
      invariant |weeks| + |remaining| == |m|
      decreases |remaining|
    {
      var least := Least(remaining);
      weeks := weeks + [least];
      remaining := remaining - {least};
    }
  }

  /** One row of the table: the week column and the lines column. */
  datatype Row = Row(week: string, lines: string)

  /** What `main` prints: the table, or the message for no commits. */
  datatype Report = NoCommits(message: string) | Table(rows: seq<Row>)

  const NoCommitsMessage: string := "No commits found for Remigijus in 2025"

  /** `'─' * n` */
  function Rule(n: nat): string {
    seq(n, _ => '\U{2500}')
  }

  /** The row between the weeks and the totals. */
  const Separator: Row := Row(Rule(10), Rule(15))

  /** The week column: `f"2025 W{week_key.split('-')[1]}"`. */
  function WeekLabel(week: string): string
    requires '-' in week
  {
    "2025 W" + Split(week, '-')[1]
  }

  /** The table row of a week with `count` changed lines. */
  predicate WeekRow(row: Row, week: string, count: nat) {
    '-' in week && row == Row(WeekLabel(week), Formatted(count))
  }

  /** For a date line the label is the part after the dash, when that part
      holds no further dash. */
  lemma WeekLabelOfKey(week: string)
    requires IsWeekKey(week) && '-' !in week[5..]
    ensures '-' in week && WeekLabel(week) == "2025 W" + week[5..]
  {
    assert week[4] == '-';
    DigitsPrefix(week);
    assert IndexOf(week, '-') == 4;
    assert Split(week[5..], '-') == [week[5..]];
    assert Split(week, '-') == [week[..4]] + Split(week[5..], '-');
  }

  /** Every week of the list has a count in `stats` and a dash to split
      its label at. */
  ghost predicate Listed(weeks: seq<string>, stats: WeekTally) {
    forall k :: 0 <= k < |weeks| ==> weeks[k] in stats && '-' in weeks[k]
  }

  /** The week rows of the table for the weeks of `weeks`, in that order. */
  function Rows(weeks: seq<string>, stats: WeekTally): (rows: seq<Row>)
    requires Listed(weeks, stats)
    ensures |rows| == |weeks|
  {
    if weeks == [] then []
    else
      var week := weeks[|weeks| - 1];
      assert Listed(weeks[..|weeks| - 1], stats) by {
        forall k | 0 <= k < |weeks| - 1 ensures weeks[..|weeks| - 1][k] == weeks[k] { }
      }
      Rows(weeks[..|weeks| - 1], stats) + [Row(WeekLabel(week), Formatted(stats[week]))]
  }

  /** Row `k` is the row of week `k`. */
  lemma {:induction false} RowsAt(weeks: seq<string>, stats: WeekTally, k: nat)
    requires Listed(weeks, stats) && k < |weeks|
    ensures '-' in weeks[k] && weeks[k] in stats
    ensures WeekRow(Rows(weeks, stats)[k], weeks[k], stats[weeks[k]])
    decreases |weeks|
  {
    var front := weeks[..|weeks| - 1];
    if k < |weeks| - 1 {
      assert front[k] == weeks[k];
      assert Listed(front, stats) by {
        forall j | 0 <= j < |front| ensures front[j] == weeks[j] { }
      }
      RowsAt(front, stats, k);
    }
  }

  /** The loop of `main` over the sorted weeks: one row per week, and the
      running `total_lines`. */
  method WeekRows(stats: WeekTally, sortedWeeks: seq<string>) returns (rows: seq<Row>, totalLines: nat)
    requires Listed(sortedWeeks, stats)
    ensures rows == Rows(sortedWeeks, stats)
    ensures totalLines == SumSeq(sortedWeeks, stats)
  {
    rows := [];
    totalLines := 0;
    for i := 0 to |sortedWeeks|
      invariant Listed(sortedWeeks[..i], stats)
      invariant rows == Rows(sortedWeeks[..i], stats)
      invariant totalLines == SumSeq(sortedWeeks[..i], stats)
    {
      var weekKey := sortedWeeks[i];
      var lines := stats[weekKey];
      var formattedLines := FormatNumber(lines);
      rows := rows + [Row(WeekLabel(weekKey), formattedLines)];
      totalLines := totalLines + lines;
      assert sortedWeeks[..i + 1][..i] == sortedWeeks[..i];
      assert Listed(sortedWeeks[..i + 1], stats) by {
        forall k | 0 <= k < i + 1 ensures sortedWeeks[..i + 1][k] == sortedWeeks[k] { }
      }
    }
    assert sortedWeeks[..|sortedWeeks|] == sortedWeeks;
  }

  /** `avg_lines`: the mean, rounded down, of all weeks but the last, or
      the only week's count when there is just one. */
  method AverageLines(stats: WeekTally, sortedWeeks: seq<string>) returns (avgLines: nat)
    requires forall k :: 0 <= k < |sortedWeeks| ==> sortedWeeks[k] in stats
    ensures |sortedWeeks| == 0 ==> avgLines == 0
    ensures |sortedWeeks| == 1 ==> avgLines == stats[sortedWeeks[0]]
    ensures |sortedWeeks| > 1 ==>
      avgLines == SumSeq(sortedWeeks[..|sortedWeeks| - 1], stats) / (|sortedWeeks| - 1)
  {
    var weeksForAvg := if |sortedWeeks| > 1 then sortedWeeks[..|sortedWeeks| - 1] else sortedWeeks;
    var totalForAvg := SumSeq(weeksForAvg, stats);
    avgLines := if |weeksForAvg| > 0 then totalForAvg / |weeksForAvg| else 0;
    if |sortedWeeks| == 1 {
      assert weeksForAvg[..0] == [];
      assert totalForAvg == SumSeq(weeksForAvg[..0], stats) + Get(stats, weeksForAvg[0]);
      assert avgLines == totalForAvg;
    }
  }

  /** The table `main` prints for the sorted weeks `sortedWeeks` of a
      non-empty tally: one row per week in that order, then the separator,
      the total of all weeks and the average of all weeks but the last (of
      the only week, when there is one), each count formatted. */
  method SummaryTable(stats: WeekTally, sortedWeeks: seq<string>) returns (rows: seq<Row>)
    requires Listed(sortedWeeks, stats) && Distinct(sortedWeeks) && sortedWeeks != []
    requires forall w :: w in sortedWeeks <==> w in stats
    ensures |rows| == |sortedWeeks| + 3
    ensures forall i :: 0 <= i < |sortedWeeks| ==>
      WeekRow(rows[i], sortedWeeks[i], stats[sortedWeeks[i]])
    ensures rows[|sortedWeeks|] == Separator
    ensures rows[|sortedWeeks| + 1] == Row("TOTAL", Formatted(Total(stats)))
    ensures |sortedWeeks| == 1 ==> rows[3] == Row("AVG", Formatted(stats[sortedWeeks[0]]))
    ensures |sortedWeeks| > 1 ==> var n := |sortedWeeks|;
      rows[n + 2] == Row("AVG", Formatted((Total(stats) - stats[sortedWeeks[n - 1]]) / (n - 1)))
  {
    var weekRows, totalLines := WeekRows(stats, sortedWeeks);
    forall k | 0 <= k < |sortedWeeks|
      ensures WeekRow(weekRows[k], sortedWeeks[k], stats[sortedWeeks[k]])
    {
      RowsAt(sortedWeeks, stats, k);
    }
    var avgLines := AverageLines(stats, sortedWeeks);
    var totalText := FormatNumber(totalLines);
    var avgText := FormatNumber(avgLines);
    rows := weekRows + [Separator, Row("TOTAL", totalText), Row("AVG", avgText)];
    SumSeqTotal(sortedWeeks, stats);
    SumSeqAllButLast(sortedWeeks, stats);
  }

  /** The summary part of `main` for the merged tally `stats`: the message
      when there is no week, the table of the sorted weeks otherwise. */
  method Summarize(stats: WeekTally) returns (sortedWeeks: seq<string>, report: Report)
    requires forall w :: w in stats ==> IsWeekKey(w)
    ensures stats == map[] <==> report.NoCommits?
    ensures report.NoCommits? ==> report.message == NoCommitsMessage
    ensures Ascending(sortedWeeks) && forall w :: w in sortedWeeks <==> w in stats
    ensures report.Table? ==> |report.rows| == |sortedWeeks| + 3
    ensures report.Table? ==> forall i :: 0 <= i < |sortedWeeks| ==>
      WeekRow(report.rows[i], sortedWeeks[i], stats[sortedWeeks[i]])
    ensures report.Table? ==> report.rows[|sortedWeeks|] == Separator
    ensures report.Table? ==> report.rows[|sortedWeeks| + 1] == Row("TOTAL", Formatted(Total(stats)))
    ensures report.Table? && |sortedWeeks| == 1 ==>
      report.rows[3] == Row("AVG", Formatted(stats[sortedWeeks[0]]))
    ensures report.Table? && |sortedWeeks| > 1 ==> var n := |sortedWeeks|;
      report.rows[n + 2] == Row("AVG", Formatted((Total(stats) - stats[sortedWeeks[n - 1]]) / (n - 1)))
  {
    sortedWeeks := SortWeeks(stats);
    if stats == map[] {
      return sortedWeeks, NoCommits(NoCommitsMessage);
    }
    forall k | 0 <= k < |sortedWeeks|
      ensures sortedWeeks[k] in stats && '-' in sortedWeeks[k]
    {
      assert sortedWeeks[k] in sortedWeeks;
      assert sortedWeeks[k][4] == '-';
    }
    AscendingDistinct(sortedWeeks);
    var w :| w in stats;
    assert w in sortedWeeks;
    var rows := SummaryTable(stats, sortedWeeks);
    report := Table(rows);
  }

  /** The merged count of a week of the merge is its sum over all
      repositories. */
  lemma MergedAt(repos: seq<RepoLog>, total: WeekTally)
    requires total == Merged(repos)
    ensures forall w :: w in total ==> total[w] == WeekSum(repos, w)
  {
  }

  /** The AVG row of the table of the merge of more than one week,
      restated over the repositories: the count of the last week is its sum
      over all repositories and the total of the merge is the sum of their
      totals. */
  lemma MergedAverage(repos: seq<RepoLog>, total: WeekTally, sortedWeeks: seq<string>, rows: seq<Row>)
    requires |sortedWeeks| > 1 && |rows| == |sortedWeeks| + 3
    requires sortedWeeks[|sortedWeeks| - 1] in total
    requires total[sortedWeeks[|sortedWeeks| - 1]] == WeekSum(repos, sortedWeeks[|sortedWeeks| - 1])
    requires Total(total) == SumOfTotals(repos)
    requires var n := |sortedWeeks|;
      rows[n + 2] == Row("AVG", Formatted((Total(total) - total[sortedWeeks[n - 1]]) / (n - 1)))
    ensures var n := |sortedWeeks|;
      rows[n + 2] == Row("AVG", Formatted((SumOfTotals(repos) - WeekSum(repos, sortedWeeks[n - 1])) / (n - 1)))
  {
  }

  /** `main` once the repositories have been found and their logs read:
      the merged tally summarized. */
  method WeeklyCodingStats(repos: seq<RepoLog>) returns (sortedWeeks: seq<string>, report: Report)
    ensures report.NoCommits? <==> forall i :: 0 <= i < |repos| ==> RepoStats(repos[i]) == map[]
    ensures report.NoCommits? ==> report.message == NoCommitsMessage
    ensures Ascending(sortedWeeks) && forall w :: w in sortedWeeks <==> w in SeenWeeks(repos)
    ensures report.Table? ==> |report.rows| == |sortedWeeks| + 3
    ensures report.Table? ==> forall i :: 0 <= i < |sortedWeeks| ==>
      WeekRow(report.rows[i], sortedWeeks[i], WeekSum(repos, sortedWeeks[i]))
    ensures report.Table? ==> report.rows[|sortedWeeks|] == Separator
    ensures report.Table? ==> report.rows[|sortedWeeks| + 1] == Row("TOTAL", Formatted(SumOfTotals(repos)))
    ensures report.Table? && |sortedWeeks| == 1 ==>
      report.rows[3] == Row("AVG", Formatted(WeekSum(repos, sortedWeeks[0])))
    ensures report.Table? && |sortedWeeks| > 1 ==> var n := |sortedWeeks|;
      report.rows[n + 2] == Row("AVG", Formatted((SumOfTotals(repos) - WeekSum(repos, sortedWeeks[n - 1])) / (n - 1)))
  {
    var total := AggregateRepos(repos);
    sortedWeeks, report := Summarize(total);
    MergedEmpty(repos);
    if report.Table? && |sortedWeeks| > 0 {
      forall i | 0 <= i < |sortedWeeks|
        ensures sortedWeeks[i] in total
      {
        assert sortedWeeks[i] in sortedWeeks;
      }
      MergedAt(repos, total);
      if |sortedWeeks| > 1 {
        MergedAverage(repos, total, sortedWeeks, report.rows);
      }
    }
  }
}
