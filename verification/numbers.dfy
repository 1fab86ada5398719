/** The arithmetic `prepare_stat` applies to a URL's latencies: `sum`, `max`
    and `statistics.median`, on exact reals. */
module Numbers {

  function Sum(s: seq<real>): real
  {
    if |s| == 0 then 0.0 else s[0] + Sum(s[1..])
  }

  /** Adding one latency to a list adds it to the sum. */
  lemma {:induction false} SumAppend(s: seq<real>, x: real)
    ensures Sum(s + [x]) == Sum(s) + x
  {
    if |s| > 0 {
      assert (s + [x])[1..] == s[1..] + [x];
      SumAppend(s[1..], x);
    } else {
      assert s + [x] == [x];
    }
  }

  /** The sum of two concatenated lists is the sum of their sums. */
  lemma {:induction false} SumConcat(a: seq<real>, b: seq<real>)
    ensures Sum(a + b) == Sum(a) + Sum(b)
    decreases |a|
  {
    if |a| > 0 {
      assert (a + b)[1..] == a[1..] + b;
      SumConcat(a[1..], b);
    } else {
      assert a + b == b;
    }
  }

  lemma {:induction false} SumNonNegative(s: seq<real>)
    requires forall i :: 0 <= i < |s| ==> s[i] >= 0.0
    ensures Sum(s) >= 0.0
  {
    if |s| > 0 {
      SumNonNegative(s[1..]);
    }
  }

  /** The largest element, as Python's `max`. */
  function Max(s: seq<real>): real
    requires |s| > 0
  {
    if |s| == 1 then s[0]
    else
      var rest := Max(s[1..]);
      if s[0] >= rest then s[0] else rest
  }

  /** The maximum is one of the elements and no element exceeds it. */
  lemma {:induction false} MaxSpec(s: seq<real>)
    requires |s| > 0
    ensures Max(s) in s
    ensures forall i :: 0 <= i < |s| ==> s[i] <= Max(s)
  {
    if |s| > 1 {
      MaxSpec(s[1..]);
      assert forall i :: 1 <= i < |s| ==> s[i] == s[1..][i - 1];
    }
  }

  /** No element exceeds the maximum, so neither does the mean. */
  lemma {:induction false} SumAtMostCountTimesMax(s: seq<real>, m: real)
    requires forall i :: 0 <= i < |s| ==> s[i] <= m
    ensures Sum(s) <= |s| as real * m
  {
    if |s| > 0 {
      SumAtMostCountTimesMax(s[1..], m);
    }
  }

  // ---------------------------------------------------------------------
  // Sorting and the median
  // ---------------------------------------------------------------------

  predicate SortedAsc(s: seq<real>)
  {
    forall i, j :: 0 <= i < j < |s| ==> s[i] <= s[j]
  }

  /** Inserts `x` before the first element that is not smaller. */
  function InsertAsc(x: real, s: seq<real>): (r: seq<real>)
    ensures |r| == |s| + 1
  {
    if |s| == 0 then [x]
    else if x <= s[0] then [x] + s
    else [s[0]] + InsertAsc(x, s[1..])
  }

  /** `sorted(s)`, by insertion. */
  function SortAsc(s: seq<real>): (r: seq<real>)
    ensures |r| == |s|
  {
    if |s| == 0 then [] else InsertAsc(s[0], SortAsc(s[1..]))
  }

  lemma {:induction false} InsertAscSpec(x: real, s: seq<real>)
    requires SortedAsc(s)
    ensures SortedAsc(InsertAsc(x, s))
    ensures multiset(InsertAsc(x, s)) == multiset(s) + multiset{x}
  {
    if |s| > 0 && x > s[0] {
      InsertAscSpec(x, s[1..]);
      var rest := InsertAsc(x, s[1..]);
      assert s == [s[0]] + s[1..];
      forall k | 0 <= k < |rest| ensures s[0] <= rest[k] {
        assert rest[k] in multiset(rest);
        if rest[k] != x {
          assert rest[k] in multiset(s[1..]);
          var j :| 0 <= j < |s[1..]| && s[1..][j] == rest[k];
          assert s[j + 1] == rest[k];
        }
      }
    }
  }

  /** Sorting yields an ascending permutation. */
  lemma {:induction false} SortAscSpec(s: seq<real>)
    ensures SortedAsc(SortAsc(s))
    ensures multiset(SortAsc(s)) == multiset(s)
  {
    if |s| > 0 {
      SortAscSpec(s[1..]);
      InsertAscSpec(s[0], SortAsc(s[1..]));
      assert s == [s[0]] + s[1..];
    }
  }

  /** `statistics.median`: the middle element of the sorted samples, or the
      mean of the two middle ones when there is an even number of them. */
  function Median(s: seq<real>): real
    requires |s| > 0
  {
    MiddleOf(SortAsc(s))
  }

  /** The middle element of `t`, or the mean of its two middle elements. */
  function MiddleOf(t: seq<real>): real
    requires |t| > 0
  {
    var n := |t|;
    if n % 2 == 1 then t[n / 2] else (t[n / 2 - 1] + t[n / 2]) / 2.0
  }

  /** In a sorted sequence the middle value lies between the two middle
      elements. */
  lemma MiddleBetween(t: seq<real>)
    requires |t| > 0 && SortedAsc(t)
    ensures t[(|t| - 1) / 2] <= MiddleOf(t) <= t[|t| / 2]
  {
    var n := |t|;
    if n % 2 == 1 {
      assert (n - 1) / 2 == n / 2;
    } else {
      assert (n - 1) / 2 == n / 2 - 1;
      assert t[n / 2 - 1] <= t[n / 2];
    }
  }

  /** The median lies between the two middle elements of the sorted samples. */
  lemma {:induction false} MedianMiddle(s: seq<real>)
    requires |s| > 0
    ensures SortAsc(s)[(|s| - 1) / 2] <= Median(s) <= SortAsc(s)[|s| / 2]
  {
    SortAscSpec(s);
    MiddleBetween(SortAsc(s));
  }

  /** Every element of the sorted sequence is an element of the input. */
  lemma {:induction false} SortedFromInput(s: seq<real>, k: int)
    requires 0 <= k < |s|
    ensures SortAsc(s)[k] in s
  {
    var t := SortAsc(s);
    SortAscSpec(s);
    assert t[k] in multiset(t);
  }

  lemma SortedBelow(t: seq<real>, i: int, m: real)
    requires SortedAsc(t) && 0 <= i < |t| && t[i] <= m
    ensures forall k :: 0 <= k <= i ==> t[k] <= m
  {
  }

  lemma SortedAbove(t: seq<real>, i: int, m: real)
    requires SortedAsc(t) && 0 <= i < |t| && m <= t[i]
    ensures forall k :: i <= k < |t| ==> m <= t[k]
  {
  }

  /** At least half of the samples, in sorted order, lie on each side of the
      median. */
  lemma MedianSplitsHalves(s: seq<real>)
    requires |s| > 0
    ensures forall k :: 0 <= k < (|s| + 1) / 2 ==> SortAsc(s)[k] <= Median(s)
    ensures forall k :: |s| / 2 <= k < |s| ==> Median(s) <= SortAsc(s)[k]
  {
    var n := |s|;
    SortAscSpec(s);
    MedianMiddle(s);
    SortedBelow(SortAsc(s), (n - 1) / 2, Median(s));
    SortedAbove(SortAsc(s), n / 2, Median(s));
  }

  /** The median lies between the smallest and the largest sample. */
  lemma {:induction false} MedianBounds(s: seq<real>)
    requires |s| > 0
    ensures Median(s) <= Max(s)
    ensures exists i :: 0 <= i < |s| && s[i] <= Median(s)
  {
    var n := |s|;
    MedianMiddle(s);
    MedianSplitsHalves(s);
    MaxSpec(s);
    SortedFromInput(s, n / 2);
    SortedFromInput(s, 0);
  }
}
