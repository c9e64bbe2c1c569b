/** Week tallies: the `defaultdict(int)` maps from a week key to a number of
    changed lines, and the sum of all their entries. */
module Tallies {

  type WeekTally = map<string, nat>

  /** Reading a `defaultdict(int)`: a missing week counts as zero. */
  function Get(m: WeekTally, week: string): nat {
    if week in m then m[week] else 0
  }

  /** The sum of the entries of `m` over the weeks in `weeks`, in no
      particular order. */
  ghost function SumOver(m: WeekTally, weeks: set<string>): nat
    decreases |weeks|
  {
    if weeks == {} then 0
    else
      var w :| w in weeks;
      Get(m, w) + SumOver(m, weeks - {w})
  }

  /** The sum of all entries of `m`. */
  ghost function Total(m: WeekTally): nat {
    SumOver(m, m.Keys)
  }

  /** Any week may be taken out of the sum first. */
  lemma {:induction false} SumOverRemove(m: WeekTally, weeks: set<string>, w: string)
    requires w in weeks
    ensures SumOver(m, weeks) == Get(m, w) + SumOver(m, weeks - {w})
    decreases |weeks|
  {
    var v :| v in weeks && SumOver(m, weeks) == Get(m, v) + SumOver(m, weeks - {v});
    if v != w {
      SumOverRemove(m, weeks - {v}, w);
      SumOverRemove(m, weeks - {w}, v);
      assert weeks - {v} - {w} == weeks - {w} - {v};
    }
  }

  /** Weeks absent from `m` add nothing to the sum. */
  lemma {:induction false} SumOverAbsent(m: WeekTally, weeks: set<string>)
    requires m.Keys <= weeks
    ensures SumOver(m, weeks) == Total(m)
    decreases |weeks|
  {
    if weeks - m.Keys == {} {
      assert weeks == m.Keys;
    } else {
      var w :| w in weeks - m.Keys;
      SumOverRemove(m, weeks, w);
      SumOverAbsent(m, weeks - {w});
    }
  }

  /** A sum over a tally that adds two tallies entry by entry is the sum of
      the two sums. */
  lemma {:induction false} SumOverAdd(a: WeekTally, b: WeekTally, c: WeekTally, weeks: set<string>)
    requires forall w :: w in weeks ==> Get(c, w) == Get(a, w) + Get(b, w)
    ensures SumOver(c, weeks) == SumOver(a, weeks) + SumOver(b, weeks)
    decreases |weeks|
  {
    if weeks != {} {
      var w :| w in weeks;
      SumOverRemove(a, weeks, w);
      SumOverRemove(b, weeks, w);
      SumOverRemove(c, weeks, w);
      SumOverAdd(a, b, c, weeks - {w});
    }
  }

  /** Merging two tallies by adding per week keeps every line: the total of
      the merge is the sum of the totals. */
  lemma MergedTotal(a: WeekTally, b: WeekTally, c: WeekTally)
    requires forall w :: w in c <==> w in a || w in b
    requires forall w :: Get(c, w) == Get(a, w) + Get(b, w)
    ensures Total(c) == Total(a) + Total(b)
  {
    SumOverAdd(a, b, c, c.Keys);
    SumOverAbsent(a, c.Keys);
    SumOverAbsent(b, c.Keys);
  }

  /** The entries of `m` at the weeks of `weeks`, added in that order:
      `sum(lines for _, lines in ...)`. */
  function SumSeq(weeks: seq<string>, m: WeekTally): nat {
    if weeks == [] then 0 else SumSeq(weeks[..|weeks| - 1], m) + Get(m, weeks[|weeks| - 1])
  }

  predicate Distinct(weeks: seq<string>) {
    forall i, j :: 0 <= i < j < |weeks| ==> weeks[i] != weeks[j]
  }

  /** Adding along a list of distinct weeks is adding over the set of them,
      whatever the order. */
  lemma {:induction false} SumSeqIsSumOver(weeks: seq<string>, m: WeekTally)
    requires Distinct(weeks)
    ensures SumSeq(weeks, m) == SumOver(m, set w | w in weeks)
    decreases |weeks|
  {
    if weeks != [] {
      var front, last := weeks[..|weeks| - 1], weeks[|weeks| - 1];
      var all := set w | w in weeks;
      SumSeqIsSumOver(front, m);
      SumOverRemove(m, all, last);
      assert all - {last} == set w | w in front by {
        forall w | w in all - {last} ensures w in front {
          var i :| 0 <= i < |weeks| && weeks[i] == w;
          assert i < |weeks| - 1;
          assert front[i] == w;
        }
        forall w | w in front ensures w in all - {last} {
          var i :| 0 <= i < |front| && front[i] == w;
          assert weeks[i] == w;
        }
      }
    }
  }

  /** Adding along a list that holds every week of `m` exactly once gives
      the total of `m`. */
  lemma SumSeqTotal(weeks: seq<string>, m: WeekTally)
    requires Distinct(weeks)
    requires forall w :: w in weeks <==> w in m
    ensures SumSeq(weeks, m) == Total(m)
  {
    SumSeqIsSumOver(weeks, m);
    assert (set w | w in weeks) == m.Keys;
  }

  /** The same sum without the last week of the list. */
  lemma SumSeqAllButLast(weeks: seq<string>, m: WeekTally)
    requires Distinct(weeks) && weeks != []
    requires forall w :: w in weeks <==> w in m
    ensures SumSeq(weeks[..|weeks| - 1], m) == Total(m) - m[weeks[|weeks| - 1]]
  {
    SumSeqTotal(weeks, m);
  }
}
