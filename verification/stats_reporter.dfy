/** Turning the aggregate into ranked report rows (`prepare_stat`), before
    rounding and JSON encoding. */
module StatsReporter {
  import opened Wrappers
  import opened Failures
  import opened Numbers
  import opened Aggregator

  /** One report row. Percentages are of all records and of all time. */
  datatype StatRow = StatRow(url: string, count: nat, countPerc: real, timeSum: real,
                             timePerc: real, timeAvg: real, timeMax: real, timeMed: real)

  /** The row of one URL, given its latencies and the run's totals. */
  function MakeRow(url: string, samples: seq<real>, total: nat, totalTime: real): StatRow
    requires |samples| > 0 && total > 0 && totalTime != 0.0
  {
    RowOf(url, |samples|, Sum(samples), Max(samples), Median(samples), total, totalTime)
  }

  /** The arithmetic of one row, from its count, total, maximum and median. */
  function RowOf(url: string, count: nat, timeSum: real, timeMax: real, timeMed: real,
                 total: nat, totalTime: real): StatRow
    requires count > 0 && total > 0 && totalTime != 0.0
  {
    StatRow(url, count, 100.0 * (count as real / total as real), timeSum,
            100.0 * (timeSum / totalTime), timeSum / count as real, timeMax, timeMed)
  }

  lemma DivAtMost(a: real, c: real, m: real)
    requires c > 0.0 && a <= c * m
    ensures a / c <= m
  {
    assert a / c <= (c * m) / c;
    assert (c * m) / c == m;
  }

  /** A row's percentages are its shares of the run's totals and its average
      times its count is its total. */
  lemma RowOfShares(url: string, count: nat, timeSum: real, timeMax: real, timeMed: real,
                    total: nat, totalTime: real)
    requires count > 0 && total > 0 && totalTime != 0.0
    ensures var row := RowOf(url, count, timeSum, timeMax, timeMed, total, totalTime);
            && row.countPerc * total as real == 100.0 * count as real
            && row.timePerc * totalTime == 100.0 * timeSum
            && row.timeAvg * count as real == timeSum
  {
    PercentTimes(count as real, total as real);
    PercentTimes(timeSum, totalTime);
    DivTimes(timeSum, count as real);
  }

  lemma PercentTimes(part: real, whole: real)
    requires whole != 0.0
    ensures (100.0 * (part / whole)) * whole == 100.0 * part
  {
  }

  lemma DivTimes(a: real, b: real)
    requires b != 0.0
    ensures (a / b) * b == a
  {
  }

  /** A row's maximum is one of its samples and bounds every sample, and so
      it bounds the average and the median. */
  lemma MakeRowMax(url: string, samples: seq<real>, total: nat, totalTime: real)
    requires |samples| > 0 && total > 0 && totalTime != 0.0
    ensures var row := MakeRow(url, samples, total, totalTime);
            && row.timeMax in samples
            && (forall i :: 0 <= i < |samples| ==> samples[i] <= row.timeMax)
            && row.timeAvg <= row.timeMax
            && row.timeMed <= row.timeMax
  {
    MaxSpec(samples);
    SumAtMostCountTimesMax(samples, Max(samples));
    DivAtMost(Sum(samples), |samples| as real, Max(samples));
    MedianBounds(samples);
  }

  /** With non-negative latencies, as the parser produces, the average and
      the median are non-negative. */
  lemma MakeRowNonNegative(url: string, samples: seq<real>, total: nat, totalTime: real)
    requires |samples| > 0 && total > 0 && totalTime != 0.0
    requires forall i :: 0 <= i < |samples| ==> samples[i] >= 0.0
    ensures MakeRow(url, samples, total, totalTime).timeAvg >= 0.0
    ensures MakeRow(url, samples, total, totalTime).timeMed >= 0.0
  {
    SumNonNegative(samples);
    MedianBounds(samples);
    var i :| 0 <= i < |samples| && samples[i] <= Median(samples);
  }

  // ---------------------------------------------------------------------
  // One row per URL
  // ---------------------------------------------------------------------

  /** Rows for the given URLs, in the given order. */
  function RowsFor(keys: seq<string>, m: map<string, seq<real>>, total: nat, totalTime: real): (rows: seq<StatRow>)
    requires forall i :: 0 <= i < |keys| ==> keys[i] in m && |m[keys[i]]| > 0
    requires |keys| > 0 ==> total > 0 && totalTime != 0.0
    ensures |rows| == |keys|
    ensures forall i :: 0 <= i < |keys| ==> rows[i] == MakeRow(keys[i], m[keys[i]], total, totalTime)
    ensures forall i :: 0 <= i < |keys| ==> rows[i].url == keys[i]
  {
    if |keys| == 0 then []
    else [MakeRow(keys[0], m[keys[0]], total, totalTime)] + RowsFor(keys[1..], m, total, totalTime)
  }

  lemma SumLengthsPositive(keys: seq<string>, m: map<string, seq<real>>)
    requires forall i :: 0 <= i < |keys| ==> keys[i] in m && |m[keys[i]]| > 0
    ensures |keys| > 0 ==> SumLengths(keys, m) >= |m[keys[0]]| > 0
  {
  }

  /** The precondition of the row computation: a well-formed aggregate whose
      total time is non-zero as soon as it holds a URL. */
  predicate Reportable(u: Urls)
  {
    WellFormed(u) && (|u.order| > 0 ==> u.totalTime != 0.0)
  }

  /** The rows of every URL, in first-seen order (the loop at line 166). */
  function StatRows(u: Urls): seq<StatRow>
    requires Reportable(u)
  {
    SumLengthsPositive(u.order, u.samples);
    RowsFor(u.order, u.samples, u.count, u.totalTime)
  }

  function SumCountPerc(rows: seq<StatRow>): real
  {
    if |rows| == 0 then 0.0 else rows[0].countPerc + SumCountPerc(rows[1..])
  }

  function SumTimePerc(rows: seq<StatRow>): real
  {
    if |rows| == 0 then 0.0 else rows[0].timePerc + SumTimePerc(rows[1..])
  }

  lemma DivAdd(a: real, b: real, n: real)
    requires n != 0.0
    ensures a / n + b / n == (a + b) / n
  {
  }

  lemma {:induction false} CountPercentSum(keys: seq<string>, m: map<string, seq<real>>, total: nat, totalTime: real)
    requires forall i :: 0 <= i < |keys| ==> keys[i] in m && |m[keys[i]]| > 0
    requires total > 0 && totalTime != 0.0
    ensures SumCountPerc(RowsFor(keys, m, total, totalTime)) == 100.0 * (SumLengths(keys, m) as real / total as real)
  {
    if |keys| > 0 {
      var rows := RowsFor(keys, m, total, totalTime);
      assert rows[1..] == RowsFor(keys[1..], m, total, totalTime);
      CountPercentSum(keys[1..], m, total, totalTime);
      var a, b, n := |m[keys[0]]| as real, SumLengths(keys[1..], m) as real, total as real;
      assert rows[0].countPerc == 100.0 * (a / n);
      DivAdd(a, b, n);
      assert SumLengths(keys, m) as real == a + b;
    }
  }

  lemma {:induction false} TimePercentSum(keys: seq<string>, m: map<string, seq<real>>, total: nat, totalTime: real)
    requires forall i :: 0 <= i < |keys| ==> keys[i] in m && |m[keys[i]]| > 0
    requires total > 0 && totalTime != 0.0
    ensures SumTimePerc(RowsFor(keys, m, total, totalTime)) == 100.0 * (SumTotals(keys, m) / totalTime)
  {
    if |keys| > 0 {
      var rows := RowsFor(keys, m, total, totalTime);
      assert rows[1..] == RowsFor(keys[1..], m, total, totalTime);
      TimePercentSum(keys[1..], m, total, totalTime);
      var a, b := Sum(m[keys[0]]), SumTotals(keys[1..], m);
      assert rows[0].timePerc == 100.0 * (a / totalTime);
      DivAdd(a, b, totalTime);
    }
  }

  /** Before rounding, the count percentages of all rows add up to exactly
      100, and so do the time percentages. */
  lemma StatRowsPercentages(u: Urls)
    requires Reportable(u) && |u.order| > 0
    ensures SumCountPerc(StatRows(u)) == 100.0
    ensures SumTimePerc(StatRows(u)) == 100.0
  {
    SumLengthsPositive(u.order, u.samples);
    CountPercentSum(u.order, u.samples, u.count, u.totalTime);
    TimePercentSum(u.order, u.samples, u.count, u.totalTime);
    SelfDiv(u.count as real);
    SelfDiv(u.totalTime);
  }

  lemma SelfDiv(a: real)
    requires a != 0.0
    ensures a / a == 1.0
  {
  }

  // ---------------------------------------------------------------------
  // Ranking by total time (`sorted(..., key=time_sum, reverse=True)`)
  // ---------------------------------------------------------------------

  predicate SortedByTimeDesc(rows: seq<StatRow>)
  {
    forall i, j :: 0 <= i < j < |rows| ==> rows[i].timeSum >= rows[j].timeSum
  }

  /** Inserts a row before the first row whose total time is not greater, so
      it precedes every row of equal total time. */
  function InsertByTime(x: StatRow, s: seq<StatRow>): (r: seq<StatRow>)
    requires SortedByTimeDesc(s)
    ensures SortedByTimeDesc(r)
    ensures multiset(r) == multiset(s) + multiset{x}
    ensures |r| == |s| + 1
  {
    if |s| == 0 then [x]
    else if s[0].timeSum > x.timeSum then
      var rest := InsertByTime(x, s[1..]);
      assert s == [s[0]] + s[1..];
      HeadStaysFirst(s[0], x, s[1..], rest);
      [s[0]] + rest
    else [x] + s
  }

  lemma HeadStaysFirst(h: StatRow, x: StatRow, t: seq<StatRow>, r: seq<StatRow>)
    requires h.timeSum > x.timeSum
    requires forall k :: 0 <= k < |t| ==> h.timeSum >= t[k].timeSum
    requires multiset(r) == multiset(t) + multiset{x}
    ensures forall k :: 0 <= k < |r| ==> h.timeSum >= r[k].timeSum
  {
    forall k | 0 <= k < |r| ensures h.timeSum >= r[k].timeSum {
      assert r[k] in multiset(r);
      if r[k] != x {
        assert r[k] in multiset(t);
        var j :| 0 <= j < |t| && t[j] == r[k];
      }
    }
  }

  /** Python's sort is stable: rows of equal total time keep their order. */
  function RankRows(rows: seq<StatRow>): (r: seq<StatRow>)
    ensures SortedByTimeDesc(r)
    ensures multiset(r) == multiset(rows)
    ensures |r| == |rows|
  {
    if |rows| == 0 then []
    else
      assert rows == [rows[0]] + rows[1..];
      InsertByTime(rows[0], RankRows(rows[1..]))
  }

  /** The rows of a given total time, in order. */
  function WithTimeSum(rows: seq<StatRow>, v: real): seq<StatRow>
  {
    if |rows| == 0 then [] else (if rows[0].timeSum == v then [rows[0]] else []) + WithTimeSum(rows[1..], v)
  }

  lemma WithTimeSumCons(h: StatRow, t: seq<StatRow>, v: real)
    ensures WithTimeSum([h] + t, v) == (if h.timeSum == v then [h] else []) + WithTimeSum(t, v)
  {
    assert ([h] + t)[0] == h;
    assert ([h] + t)[1..] == t;
  }

  lemma {:induction false} InsertByTimeStable(x: StatRow, s: seq<StatRow>, v: real)
    requires SortedByTimeDesc(s)
    ensures WithTimeSum(InsertByTime(x, s), v) == (if x.timeSum == v then [x] else []) + WithTimeSum(s, v)
    decreases |s|, 1
  {
    if |s| == 0 {
      WithTimeSumCons(x, s, v);
    } else if s[0].timeSum > x.timeSum {
      InsertByTimeDeeper(x, s, v);
    } else {
      assert InsertByTime(x, s) == [x] + s;
      WithTimeSumCons(x, s, v);
    }
  }

  lemma {:induction false} InsertByTimeDeeper(x: StatRow, s: seq<StatRow>, v: real)
    requires SortedByTimeDesc(s) && |s| > 0 && s[0].timeSum > x.timeSum
    ensures WithTimeSum(InsertByTime(x, s), v) == (if x.timeSum == v then [x] else []) + WithTimeSum(s, v)
    decreases |s|, 0
  {
    var t := s[1..];
    var rest := InsertByTime(x, t);
    assert InsertByTime(x, s) == [s[0]] + rest;
    InsertByTimeStable(x, t, v);
    WithTimeSumCons(s[0], rest, v);
    assert s == [s[0]] + t;
    WithTimeSumCons(s[0], t, v);
    var ph: seq<StatRow> := if s[0].timeSum == v then [s[0]] else [];
    var px: seq<StatRow> := if x.timeSum == v then [x] else [];
    assert ph == [] || px == [];
    assert ph + (px + WithTimeSum(t, v)) == px + (ph + WithTimeSum(t, v));
  }

  /** Ranking is stable: for every total time, the rows having it appear in
      the same order before and after. With the sortedness and permutation
      guaranteed by `RankRows`, this fixes the ranking completely. */
  lemma {:induction false} RankRowsStable(rows: seq<StatRow>, v: real)
    ensures WithTimeSum(RankRows(rows), v) == WithTimeSum(rows, v)
  {
    if |rows| > 0 {
      RankRowsStable(rows[1..], v);
      InsertByTimeStable(rows[0], RankRows(rows[1..]), v);
    }
  }

  // ---------------------------------------------------------------------
  // Truncation (`[:cfg['REPORT_SIZE']]`)
  // ---------------------------------------------------------------------

  /** Python's `rows[:n]`, where a negative `n` counts from the end. */
  function Take(rows: seq<StatRow>, n: int): (r: seq<StatRow>)
    ensures r <= rows
    ensures n >= 0 ==> |r| == if n < |rows| then n else |rows|
    ensures n < 0 ==> |r| == if |rows| + n > 0 then |rows| + n else 0
  {
    if n >= 0 then (if n < |rows| then rows[..n] else rows)
    else (if |rows| + n > 0 then rows[..|rows| + n] else [])
  }

  predicate DistinctUrls(rows: seq<StatRow>)
  {
    forall i, j :: 0 <= i < j < |rows| ==> rows[i].url != rows[j].url
  }

  lemma {:induction false} InsertByTimeDistinct(x: StatRow, s: seq<StatRow>)
    requires SortedByTimeDesc(s) && DistinctUrls(s)
    requires forall k :: 0 <= k < |s| ==> s[k].url != x.url
    ensures DistinctUrls(InsertByTime(x, s))
  {
    if |s| > 0 && s[0].timeSum > x.timeSum {
      var t := s[1..];
      InsertByTimeDistinct(x, t);
      var rest := InsertByTime(x, t);
      forall k | 0 <= k < |rest| ensures rest[k].url != s[0].url {
        assert rest[k] in multiset(t) + multiset{x};
        if rest[k] != x {
          assert rest[k] in t;
          var j :| 0 <= j < |t| && t[j] == rest[k];
          assert s[j + 1] == t[j];
        }
      }
      assert InsertByTime(x, s) == [s[0]] + rest;
    }
  }

  lemma {:induction false} RankRowsDistinct(rows: seq<StatRow>)
    requires DistinctUrls(rows)
    ensures DistinctUrls(RankRows(rows))
  {
    if |rows| > 0 {
      var t := rows[1..];
      assert DistinctUrls(t) by {
        forall i, j | 0 <= i < j < |t| ensures t[i].url != t[j].url { assert t[i] == rows[i + 1] && t[j] == rows[j + 1]; }
      }
      RankRowsDistinct(t);
      var r := RankRows(t);
      forall k | 0 <= k < |r| ensures r[k].url != rows[0].url {
        assert r[k] in multiset(t);
        var j :| 0 <= j < |t| && t[j] == r[k];
        assert rows[j + 1] == t[j];
      }
      InsertByTimeDistinct(rows[0], r);
    }
  }

  // ---------------------------------------------------------------------
  // The whole of `prepare_stat`
  // ---------------------------------------------------------------------

  /** A prefix of a ranking, as `[:n]` takes it: as many rows as asked for
      or available when `n` is not negative, in non-increasing total time, a
      sub-multiset of the input, none of them of smaller total time than a
      row left out, and with no URL twice if the input has none twice. */
  lemma RankTakeSpec(all: seq<StatRow>, n: int)
    ensures var out := Take(RankRows(all), n);
            && (n >= 0 ==> |out| == if n < |all| then n else |all|)
            && SortedByTimeDesc(out)
            && multiset(out) <= multiset(all)
            && (forall x, y :: x in multiset(out) && y in multiset(all) - multiset(out) ==> x.timeSum >= y.timeSum)
            && (DistinctUrls(all) ==> DistinctUrls(out))
  {
    var ranked := RankRows(all);
    var out := Take(ranked, n);
    PrefixIsTop(ranked, |out|);
    assert out == ranked[..|out|];
    if DistinctUrls(all) {
      RankRowsDistinct(all);
    }
  }

  /** In a sequence sorted by non-increasing total time, no row after the
      first `k` has a greater total time than a row among them. */
  lemma PrefixIsTop(ranked: seq<StatRow>, k: nat)
    requires SortedByTimeDesc(ranked) && k <= |ranked|
    ensures multiset(ranked[..k]) <= multiset(ranked)
    ensures forall x, y :: x in multiset(ranked[..k]) && y in multiset(ranked) - multiset(ranked[..k]) ==> x.timeSum >= y.timeSum
  {
    var out, rest := ranked[..k], ranked[k..];
    assert ranked == out + rest;
    assert multiset(ranked) == multiset(out) + multiset(rest);
    forall x: StatRow, y: StatRow | x in multiset(out) && y in multiset(ranked) - multiset(out)
      ensures x.timeSum >= y.timeSum
    {
      var i :| 0 <= i < |out| && out[i] == x;
      assert y in multiset(rest);
      var j :| 0 <= j < |rest| && rest[j] == y;
      assert ranked[i] == x && ranked[k + j] == y;
    }
  }

  /** Every URL of a ranking's prefix is one of the input's. */
  lemma TakeUrls(all: seq<StatRow>, n: int, i: nat)
    requires i < |Take(RankRows(all), n)|
    ensures exists j :: 0 <= j < |all| && all[j].url == Take(RankRows(all), n)[i].url
  {
    var ranked := RankRows(all);
    assert Take(ranked, n)[i] == ranked[i];
    assert ranked[i] in multiset(all);
    var j :| 0 <= j < |all| && all[j] == ranked[i];
  }

  /** The rows of an aggregate are one per URL, in first-seen order. */
  lemma StatRowsUrls(u: Urls)
    requires Reportable(u)
    ensures |StatRows(u)| == |u.order|
    ensures forall i :: 0 <= i < |u.order| ==> StatRows(u)[i].url == u.order[i]
    ensures DistinctUrls(StatRows(u))
  {
    var all := StatRows(u);
    forall i, j | 0 <= i < j < |all| ensures all[i].url != all[j].url {
      assert all[i].url == u.order[i] && all[j].url == u.order[j];
    }
  }

  /** The ranked, truncated rows, or the division by a zero total time that
      the first row's time percentage hits. */
  function PrepareStat(u: Urls, reportSize: int): Result<seq<StatRow>, Failure>
    requires WellFormed(u)
  {
    if |u.order| > 0 && u.totalTime == 0.0 then Err(ZeroTotalTime)
    else Ok(Take(RankRows(StatRows(u)), reportSize))
  }

  /** The report fails only on a zero total time. Otherwise its rows are
      ordered by non-increasing total time, name no URL twice and only URLs
      of the aggregate, and are the rows of greatest total time: no row left
      out has a greater total time than a row kept. For a non-negative size
      there are min(#URLs, size) of them. */
  lemma PrepareStatSpec(u: Urls, reportSize: int)
    requires WellFormed(u)
    ensures PrepareStat(u, reportSize).Err? <==> |u.order| > 0 && u.totalTime == 0.0
    ensures PrepareStat(u, reportSize).Ok? ==>
              var out := PrepareStat(u, reportSize).value;
              var all := StatRows(u);
              && (reportSize >= 0 ==> |out| == if reportSize < |u.order| then reportSize else |u.order|)
              && SortedByTimeDesc(out)
              && DistinctUrls(out)
              && (forall i :: 0 <= i < |out| ==> out[i].url in u.samples)
              && multiset(out) <= multiset(all)
              && (forall x, y :: x in multiset(out) && y in multiset(all) - multiset(out) ==> x.timeSum >= y.timeSum)
  {
    if PrepareStat(u, reportSize).Ok? {
      StatRowsUrls(u);
      TopRows(StatRows(u), u.order, u.samples, reportSize);
    }
  }

  /** `RankTakeSpec` for rows that carry the URLs of `order`, one each. */
  lemma TopRows(all: seq<StatRow>, order: seq<string>, samples: map<string, seq<real>>, n: int)
    requires |all| == |order| && DistinctUrls(all)
    requires forall i :: 0 <= i < |all| ==> all[i].url == order[i] && order[i] in samples
    ensures var out := Take(RankRows(all), n);
            && (n >= 0 ==> |out| == if n < |order| then n else |order|)
            && SortedByTimeDesc(out)
            && DistinctUrls(out)
            && (forall i :: 0 <= i < |out| ==> out[i].url in samples)
            && multiset(out) <= multiset(all)
            && (forall x, y :: x in multiset(out) && y in multiset(all) - multiset(out) ==> x.timeSum >= y.timeSum)
  {
    var out := Take(RankRows(all), n);
    RankTakeSpec(all, n);
    forall i | 0 <= i < |out| ensures out[i].url in samples {
      TakeUrls(all, n, i);
    }
  }

  /** The scenario of a log with `/x` at 0.1 s and 0.3 s and `/y` at 0.2 s. */
  lemma RowScenario()
    ensures MakeRow("/x", [0.1, 0.3], 3, 0.6) == StatRow("/x", 2, 200.0 / 3.0, 0.4, 200.0 / 3.0, 0.2, 0.3, 0.2)
  {
    var s: seq<real> := [0.1, 0.3];
    assert s[1..] == [0.3];
    assert Sum(s) == 0.4;
    assert Max(s) == 0.3;
    assert SortAsc([0.3]) == [0.3];
    assert SortAsc(s) == [0.1, 0.3];
  }
}
