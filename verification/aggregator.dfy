/** Grouping the parsed records by URL (`collect_url_data`). */
module Aggregator {
  import opened LineParser
  import opened Numbers

  /** The aggregate: each URL's latencies in arrival order, the URLs in the
      order they were first seen (the order a Python dict iterates its keys),
      the number of records and their total time. */
  datatype Urls = Urls(order: seq<string>, samples: map<string, seq<real>>, count: nat, totalTime: real)

  /** One loop step: append the latency to its URL's list, creating the list
      on the URL's first occurrence, and bump the totals. */
  function AddRecord(u: Urls, r: Record): Urls
  {
    if r.url in u.samples then
      Urls(u.order, u.samples[r.url := u.samples[r.url] + [r.requestTime]], u.count + 1, u.totalTime + r.requestTime)
    else
      Urls(u.order + [r.url], u.samples[r.url := [r.requestTime]], u.count + 1, u.totalTime + r.requestTime)
  }

  function CollectUrlData(records: seq<Record>): Urls
    decreases |records|
  {
    if |records| == 0 then Urls([], map[], 0, 0.0)
    else AddRecord(CollectUrlData(records[..|records| - 1]), records[|records| - 1])
  }

  // ---------------------------------------------------------------------
  // Reference definitions
  // ---------------------------------------------------------------------

  /** The latencies of all records, in order. */
  function Times(records: seq<Record>): (ts: seq<real>)
    ensures |ts| == |records|
  {
    if |records| == 0 then [] else [records[0].requestTime] + Times(records[1..])
  }

  /** The latencies of the records for `url`, in order. */
  function LatenciesOf(records: seq<Record>, url: string): seq<real>
  {
    if |records| == 0 then []
    else (if records[0].url == url then [records[0].requestTime] else []) + LatenciesOf(records[1..], url)
  }

  /** Position of the first record for `url`, or the number of records when
      no record is for it. */
  function FirstIndex(records: seq<Record>, url: string): (i: nat)
    ensures i <= |records|
    ensures i < |records| ==> records[i].url == url
    ensures forall j :: 0 <= j < i ==> records[j].url != url
    decreases |records|
  {
    if |records| == 0 then 0
    else if records[0].url == url then 0
    else
      var i := 1 + FirstIndex(records[1..], url);
      assert forall j :: 1 <= j < i ==> records[j] == records[1..][j - 1];
      i
  }

  predicate Distinct(keys: seq<string>)
  {
    forall i, j :: 0 <= i < j < |keys| ==> keys[i] != keys[j]
  }

  /** Sum of the list lengths of the given URLs. */
  function SumLengths(keys: seq<string>, m: map<string, seq<real>>): nat
    requires forall i :: 0 <= i < |keys| ==> keys[i] in m
  {
    if |keys| == 0 then 0 else |m[keys[0]]| + SumLengths(keys[1..], m)
  }

  /** Sum of the list totals of the given URLs. */
  function SumTotals(keys: seq<string>, m: map<string, seq<real>>): real
    requires forall i :: 0 <= i < |keys| ==> keys[i] in m
  {
    if |keys| == 0 then 0.0 else Sum(m[keys[0]]) + SumTotals(keys[1..], m)
  }

  /** The shape every aggregate built by the loop has: the key order lists
      each URL of the map once, every list is non-empty, and the totals are
      the sums over the lists. */
  predicate WellFormed(u: Urls)
  {
    && Distinct(u.order)
    && (forall i :: 0 <= i < |u.order| ==> u.order[i] in u.samples)
    && (forall k :: k in u.samples ==> k in u.order)
    && (forall k :: k in u.samples ==> |u.samples[k]| > 0)
    && u.count == SumLengths(u.order, u.samples)
    && u.totalTime == SumTotals(u.order, u.samples)
  }

  // ---------------------------------------------------------------------
  // Lemmas about the sums over keys
  // ---------------------------------------------------------------------

  lemma {:induction false} SumsFrame(keys: seq<string>, m1: map<string, seq<real>>, m2: map<string, seq<real>>)
    requires forall i :: 0 <= i < |keys| ==> keys[i] in m1 && keys[i] in m2 && m1[keys[i]] == m2[keys[i]]
    ensures SumLengths(keys, m1) == SumLengths(keys, m2)
    ensures SumTotals(keys, m1) == SumTotals(keys, m2)
  {
    if |keys| > 0 {
      SumsFrame(keys[1..], m1, m2);
    }
  }

  lemma {:induction false} SumsAppendKey(keys: seq<string>, k: string, m: map<string, seq<real>>)
    requires forall i :: 0 <= i < |keys| ==> keys[i] in m
    requires k in m
    ensures SumLengths(keys + [k], m) == SumLengths(keys, m) + |m[k]|
    ensures SumTotals(keys + [k], m) == SumTotals(keys, m) + Sum(m[k])
  {
    if |keys| > 0 {
      assert (keys + [k])[1..] == keys[1..] + [k];
      SumsAppendKey(keys[1..], k, m);
    } else {
      assert keys + [k] == [k];
    }
  }

  /** Appending one latency to the list of a key that occurs once. */
  lemma {:induction false} SumsExtendList(keys: seq<string>, k: string, t: real, m: map<string, seq<real>>)
    requires forall i :: 0 <= i < |keys| ==> keys[i] in m
    requires Distinct(keys)
    requires k in keys && k in m
    ensures SumLengths(keys, m[k := m[k] + [t]]) == SumLengths(keys, m) + 1
    ensures SumTotals(keys, m[k := m[k] + [t]]) == SumTotals(keys, m) + t
  {
    var m' := m[k := m[k] + [t]];
    SumAppend(m[k], t);
    if keys[0] == k {
      assert k !in keys[1..];
      SumsFrame(keys[1..], m, m');
    } else {
      SumsExtendList(keys[1..], k, t, m);
    }
  }

  lemma {:induction false} LatenciesSnoc(records: seq<Record>, r: Record, url: string)
    ensures LatenciesOf(records + [r], url) == LatenciesOf(records, url) + (if r.url == url then [r.requestTime] else [])
    ensures Times(records + [r]) == Times(records) + [r.requestTime]
  {
    if |records| > 0 {
      assert (records + [r])[1..] == records[1..] + [r];
      LatenciesSnoc(records[1..], r, url);
    } else {
      assert records + [r] == [r];
    }
  }

  lemma {:induction false} NoLatenciesWithoutRecord(records: seq<Record>, url: string)
    requires forall i :: 0 <= i < |records| ==> records[i].url != url
    ensures LatenciesOf(records, url) == []
  {
    if |records| > 0 {
      NoLatenciesWithoutRecord(records[1..], url);
    }
  }

  // ---------------------------------------------------------------------
  // What the aggregation computes
  // ---------------------------------------------------------------------

  /** The loop keeps the aggregate well formed, counts every record and adds
      up every latency. */
  lemma {:induction false} CollectTotals(records: seq<Record>)
    ensures WellFormed(CollectUrlData(records))
    ensures CollectUrlData(records).count == |records|
    ensures CollectUrlData(records).totalTime == Sum(Times(records))
    decreases |records|
  {
    if |records| == 0 {
      return;
    }
    var n := |records| - 1;
    var prefix, r := records[..n], records[n];
    assert records == prefix + [r];
    CollectTotals(prefix);
    LatenciesSnoc(prefix, r, r.url);
    SumAppend(Times(prefix), r.requestTime);
    AddRecordWellFormed(CollectUrlData(prefix), r);
  }

  /** One step of the loop keeps the aggregate well formed. */
  lemma AddRecordWellFormed(u: Urls, r: Record)
    requires WellFormed(u)
    ensures WellFormed(AddRecord(u, r))
  {
    var u' := AddRecord(u, r);
    if r.url in u.samples {
      SumsExtendList(u.order, r.url, r.requestTime, u.samples);
    } else {
      SumsFrame(u.order, u.samples, u'.samples);
      SumsAppendKey(u.order, r.url, u'.samples);
    }
  }

  /** The aggregate's URLs are exactly the records' URLs. */
  lemma {:induction false} CollectKeys(records: seq<Record>)
    ensures forall url :: url in CollectUrlData(records).samples <==> exists i :: 0 <= i < |records| && records[i].url == url
    decreases |records|
  {
    if |records| == 0 {
      return;
    }
    var n := |records| - 1;
    var prefix, r := records[..n], records[n];
    CollectKeys(prefix);
    var u' := CollectUrlData(records);
    forall url | url in u'.samples
      ensures exists i :: 0 <= i < |records| && records[i].url == url
    {
      if url != r.url {
        var i :| 0 <= i < n && prefix[i].url == url;
        assert records[i] == prefix[i];
      } else {
        assert records[n].url == url;
      }
    }
    forall url | exists i :: 0 <= i < |records| && records[i].url == url
      ensures url in u'.samples
    {
      var i :| 0 <= i < |records| && records[i].url == url;
      if i < n {
        assert prefix[i] == records[i];
      }
    }
  }

  /** Each URL's list holds exactly that URL's latencies, in arrival order. */
  lemma {:induction false} CollectLists(records: seq<Record>)
    ensures forall url :: url in CollectUrlData(records).samples ==> CollectUrlData(records).samples[url] == LatenciesOf(records, url)
    decreases |records|
  {
    if |records| == 0 {
      return;
    }
    var n := |records| - 1;
    var prefix, r := records[..n], records[n];
    assert records == prefix + [r];
    CollectLists(prefix);
    CollectKeys(prefix);
    var u := CollectUrlData(prefix);
    forall url | url in CollectUrlData(records).samples
      ensures CollectUrlData(records).samples[url] == LatenciesOf(records, url)
    {
      LatenciesSnoc(prefix, r, url);
      if url == r.url && r.url !in u.samples {
        assert forall i :: 0 <= i < n ==> prefix[i].url != r.url;
        NoLatenciesWithoutRecord(prefix, r.url);
      }
    }
  }

  /** A URL that already has a record keeps its first position when one more
      record arrives; a URL that had none first occurs at the new record. */
  lemma FirstIndexSnoc(records: seq<Record>, r: Record, url: string)
    ensures FirstIndex(records, url) < |records| ==> FirstIndex(records + [r], url) == FirstIndex(records, url)
    ensures FirstIndex(records, url) == |records| && r.url == url ==> FirstIndex(records + [r], url) == |records|
  {
    var rs := records + [r];
    var i0, i := FirstIndex(records, url), FirstIndex(rs, url);
    if i0 < |records| {
      assert rs[i0] == records[i0];
    } else if r.url == url {
      assert rs[|records|].url == url;
    }
  }

  /** The key order is first-occurrence order: every listed URL has a record,
      and a URL listed earlier has its first record earlier. */
  lemma {:induction false} CollectOrder(records: seq<Record>)
    ensures forall i :: 0 <= i < |CollectUrlData(records).order| ==>
              FirstIndex(records, CollectUrlData(records).order[i]) < |records|
    ensures forall i, j :: 0 <= i < j < |CollectUrlData(records).order| ==>
              FirstIndex(records, CollectUrlData(records).order[i]) < FirstIndex(records, CollectUrlData(records).order[j])
    decreases |records|
  {
    if |records| == 0 {
      return;
    }
    var n := |records| - 1;
    var prefix, r := records[..n], records[n];
    assert records == prefix + [r];
    CollectOrder(prefix);
    var o := CollectUrlData(prefix).order;
    forall i | 0 <= i < |o|
      ensures FirstIndex(records, o[i]) == FirstIndex(prefix, o[i]) < n
    {
      FirstIndexSnoc(prefix, r, o[i]);
    }
    if r.url !in CollectUrlData(prefix).samples {
      CollectKeys(prefix);
      FirstIndexSnoc(prefix, r, r.url);
      var o' := CollectUrlData(records).order;
      assert o' == o + [r.url];
      assert FirstIndex(records, o'[|o|]) == n;
    }
  }

  /** Everything the aggregation promises, together. */
  lemma {:induction false} CollectUrlDataSpec(records: seq<Record>)
    ensures WellFormed(CollectUrlData(records))
    ensures forall url :: url in CollectUrlData(records).samples <==> exists i :: 0 <= i < |records| && records[i].url == url
    ensures forall url :: url in CollectUrlData(records).samples ==> CollectUrlData(records).samples[url] == LatenciesOf(records, url)
    ensures CollectUrlData(records).count == |records|
    ensures CollectUrlData(records).totalTime == Sum(Times(records))
    ensures forall i, j :: 0 <= i < j < |CollectUrlData(records).order| ==>
              FirstIndex(records, CollectUrlData(records).order[i]) < FirstIndex(records, CollectUrlData(records).order[j])
  {
    CollectTotals(records);
    CollectKeys(records);
    CollectLists(records);
    CollectOrder(records);
  }
}
