/** Streaming the lines of the selected log through the line parser, counting
    them, and rejecting the log when too few lines parse (`baselog_parser`).
    The file is given as the sequence of its decoded lines. */
module LogStream {
  import opened Wrappers
  import opened Text
  import opened Failures
  import opened LineParser

  /** State of the stream after some lines: the records yielded so far, in
      order, the lines read and the lines that parsed. */
  datatype Scan = Scan(records: seq<Record>, total: nat, handled: nat)

  /** The counting loop over the lines, one step per line. */
  function ScanLines(lines: seq<string>): (s: Scan)
    ensures s.total == |lines|
    ensures s.handled == |s.records| <= s.total
    decreases |lines|
  {
    if |lines| == 0 then Scan([], 0, 0)
    else
      var s := ScanLines(lines[..|lines| - 1]);
      match ProcessLine(lines[|lines| - 1])
      case None => Scan(s.records, s.total + 1, s.handled)
      case Some(r) => Scan(s.records + [r], s.total + 1, s.handled + 1)
  }

  /** The records of the lines that parse, in line order, each once. */
  function Parsed(lines: seq<string>): seq<Record>
    decreases |lines|
  {
    if |lines| == 0 then []
    else (if ProcessLine(lines[0]).Some? then [ProcessLine(lines[0]).value] else []) + Parsed(lines[1..])
  }

  lemma {:induction false} ParsedSnoc(lines: seq<string>, line: string)
    ensures Parsed(lines + [line]) == Parsed(lines) + (if ProcessLine(line).Some? then [ProcessLine(line).value] else [])
    decreases |lines|
  {
    if |lines| > 0 {
      assert (lines + [line])[1..] == lines[1..] + [line];
      ParsedSnoc(lines[1..], line);
    } else {
      assert lines + [line] == [line];
    }
  }

  /** The scan yields exactly the records of the lines that parse, so the
      handled count is the number of lines that parse. */
  lemma {:induction false} ScanIsParsed(lines: seq<string>)
    ensures ScanLines(lines).records == Parsed(lines)
    ensures ScanLines(lines).handled == |Parsed(lines)|
    decreases |lines|
  {
    if |lines| > 0 {
      var n := |lines| - 1;
      ScanIsParsed(lines[..n]);
      ParsedSnoc(lines[..n], lines[n]);
      assert lines[..n] + [lines[n]] == lines;
    }
  }

  /** One more line appends its record, if it parses, and nothing else. */
  lemma ScanStep(lines: seq<string>)
    requires |lines| > 0
    ensures var before := ScanLines(lines[..|lines| - 1]).records;
            var last := lines[|lines| - 1];
            ScanLines(lines).records == if ProcessLine(last).Some? then before + [ProcessLine(last).value] else before
  {
  }

  /** Reading more lines only appends records. */
  lemma {:induction false} ScanPrefix(lines: seq<string>, i: nat)
    requires i <= |lines|
    ensures ScanLines(lines[..i]).records <= ScanLines(lines).records
    decreases |lines| - i
  {
    if i == |lines| {
      assert lines[..i] == lines;
    } else {
      var n := |lines| - 1;
      ScanPrefix(lines[..n], i);
      assert lines[..n][..i] == lines[..i];
      ScanStep(lines);
    }
  }

  /** Records come out in input order: the record of line `i`, if it parses,
      sits right after the records of the lines before it. */
  lemma ScanOrder(lines: seq<string>, i: nat)
    requires i < |lines| && ProcessLine(lines[i]).Some?
    ensures ScanLines(lines[..i]).handled < ScanLines(lines).handled
    ensures ScanLines(lines).records[ScanLines(lines[..i]).handled] == ProcessLine(lines[i]).value
  {
    ScanPrefix(lines, i + 1);
    ScanThrough(lines, i);
    var before := ScanLines(lines[..i]).records;
    assert ScanLines(lines[..i + 1]).records[|before|] == ProcessLine(lines[i]).value;
  }

  lemma ScanThrough(lines: seq<string>, i: nat)
    requires i < |lines| && ProcessLine(lines[i]).Some?
    ensures ScanLines(lines[..i + 1]).records == ScanLines(lines[..i]).records + [ProcessLine(lines[i]).value]
  {
    var upto := lines[..i + 1];
    assert upto[..i] == lines[..i] && upto[i] == lines[i];
    ScanStep(upto);
  }

  /** Every record is the parse of some input line. */
  lemma {:induction false} ScanRecordsFromLines(lines: seq<string>, k: nat)
    requires k < ScanLines(lines).handled
    ensures exists i :: 0 <= i < |lines| && ProcessLine(lines[i]) == Some(ScanLines(lines).records[k])
    decreases |lines|
  {
    var n := |lines| - 1;
    var s := ScanLines(lines[..n]);
    if k < s.handled {
      ScanRecordsFromLines(lines[..n], k);
      var i :| 0 <= i < n && ProcessLine(lines[..n][i]) == Some(s.records[k]);
      assert lines[..n][i] == lines[i];
    } else {
      assert ProcessLine(lines[n]) == Some(ScanLines(lines).records[k]);
    }
  }

  /** The quality check made once the stream is exhausted. The success ratio
      divides by the number of lines, so an empty log is an error; a ratio
      below `referPercent` (a fraction, despite the name) is an error. */
  function Gate(s: Scan, referPercent: real): Result<seq<Record>, Failure>
  {
    if s.total == 0 then Err(NoLines)
    else if (s.handled as real) / (s.total as real) < referPercent then Err(BelowThreshold(s.handled, s.total))
    else Ok(s.records)
  }

  /** The stream followed by its quality gate: the records in order, or the
      failure that aborts the run. */
  function BaselogParser(lines: seq<string>, referPercent: real): Result<seq<Record>, Failure>
  {
    Gate(ScanLines(lines), referPercent)
  }

  /** The ratio test without division: parsed lines at least the required
      fraction of all lines. */
  predicate MeetsThreshold(handled: nat, total: nat, referPercent: real)
  {
    handled as real >= referPercent * total as real
  }

  lemma GateSpec(s: Scan, referPercent: real)
    ensures Gate(s, referPercent) == Err(NoLines) <==> s.total == 0
    ensures s.total > 0 ==> (Gate(s, referPercent).Ok? <==> MeetsThreshold(s.handled, s.total, referPercent))
    ensures Gate(s, referPercent).Ok? ==> Gate(s, referPercent).value == s.records
    ensures Gate(s, referPercent).Err? ==> Gate(s, referPercent).error.NoLines? || Gate(s, referPercent).error.BelowThreshold?
  {
    if s.total > 0 {
      RatioBelow(s.handled as real, s.total as real, referPercent);
    }
  }

  /** The gate fails on an empty log, and otherwise passes exactly when the
      parsed lines are at least the required fraction of all lines; what it
      passes on is every record the stream yielded, which are the records of
      the lines that parse. */
  lemma {:induction false} BaselogParserGate(lines: seq<string>, referPercent: real)
    ensures BaselogParser(lines, referPercent) == Err(NoLines) <==> |lines| == 0
    ensures |lines| > 0 ==>
              (BaselogParser(lines, referPercent).Ok? <==> MeetsThreshold(ScanLines(lines).handled, |lines|, referPercent))
    ensures BaselogParser(lines, referPercent).Ok? ==> BaselogParser(lines, referPercent).value == ScanLines(lines).records
    ensures BaselogParser(lines, referPercent).Err? ==>
              BaselogParser(lines, referPercent).error.NoLines? || BaselogParser(lines, referPercent).error.BelowThreshold?
    ensures |lines| > 0 ==>
              (BaselogParser(lines, referPercent).Ok? <==> MeetsThreshold(|Parsed(lines)|, |lines|, referPercent))
    ensures BaselogParser(lines, referPercent).Ok? ==> BaselogParser(lines, referPercent).value == Parsed(lines)
  {
    GateSpec(ScanLines(lines), referPercent);
    ScanIsParsed(lines);
  }

  /** Comparing a ratio with a threshold without dividing. */
  lemma RatioBelow(h: real, t: real, p: real)
    requires t > 0.0
    ensures h / t < p <==> h < p * t
  {
    var q := h / t;
    assert q * t == h;
    if q < p {
      MulStrict(q, p, t);
    } else {
      MulWeak(p, q, t);
    }
  }

  lemma MulStrict(a: real, b: real, t: real)
    requires a < b && t > 0.0
    ensures a * t < b * t
  {
  }

  lemma MulWeak(a: real, b: real, t: real)
    requires a <= b && t > 0.0
    ensures a * t <= b * t
  {
  }

  /** A stricter threshold never accepts a log that a looser one rejects. */
  lemma BaselogParserMonotone(lines: seq<string>, lo: real, hi: real)
    requires lo <= hi
    requires BaselogParser(lines, hi).Ok?
    ensures BaselogParser(lines, lo) == BaselogParser(lines, hi)
  {
    var s := ScanLines(lines);
    GateSpec(s, lo);
    GateSpec(s, hi);
    MulWeak(lo, hi, s.total as real);
  }

  /** A threshold above 1 rejects every log, and a non-positive one accepts
      every non-empty log. */
  lemma BaselogParserExtremes(lines: seq<string>, referPercent: real)
    ensures referPercent > 1.0 ==> BaselogParser(lines, referPercent).Err?
    ensures referPercent <= 0.0 && |lines| > 0 ==> BaselogParser(lines, referPercent).Ok?
  {
    var s := ScanLines(lines);
    GateSpec(s, referPercent);
    if |lines| > 0 {
      if referPercent > 1.0 {
        MulStrict(1.0, referPercent, s.total as real);
      } else if referPercent <= 0.0 {
        MulWeak(referPercent, 0.0, s.total as real);
      }
    }
  }

  // ---------------------------------------------------------------------
  // The stream as the source writes it
  // ---------------------------------------------------------------------

  /** Index of the first line that does not parse, if any. */
  function FirstMalformed(lines: seq<string>): (r: Option<nat>)
    ensures r.Some? ==> r.value < |lines| && ProcessLine(lines[r.value]).None?
                        && forall j :: 0 <= j < r.value ==> ProcessLine(lines[j]).Some?
    ensures r.None? ==> forall j :: 0 <= j < |lines| ==> ProcessLine(lines[j]).Some?
    decreases |lines|
  {
    if |lines| == 0 then None
    else if ProcessLine(lines[0]).None? then Some(0)
    else
      match FirstMalformed(lines[1..])
      case None => None
      case Some(k) => Some(k + 1)
  }

  /** Lines 130-135 as written: `process_line` is called outside any `try`, so
      the first malformed line's exception leaves the generator and aborts
      the run; `if parsed_line` tests a non-empty dict and is always true. */
  function BaselogParserAsWritten(lines: seq<string>, referPercent: real): Result<seq<Record>, Failure>
  {
    match FirstMalformed(lines)
    case Some(i) => Err(LineRaised(i))
    case None => BaselogParser(lines, referPercent)
  }

  /** As written, any malformed line aborts the run, whatever the threshold;
      on logs where every line parses, the code agrees with the intended gate. */
  lemma AsWrittenAbortsOnMalformed(lines: seq<string>, referPercent: real, i: nat)
    requires i < |lines| && ProcessLine(lines[i]).None?
    ensures BaselogParserAsWritten(lines, referPercent).Err?
    ensures BaselogParserAsWritten(lines, referPercent).error.LineRaised?
  {
  }

  /** A two-line log whose second line is garbage: half the lines parse, which
      meets a 0.5 threshold, yet the code as written raises on line 1. */
  lemma AsWrittenRejectsTolerableLog(good: string)
    requires ProcessLine(good).Some?
    ensures BaselogParser([good, "-"], 0.5) == Ok([ProcessLine(good).value])
    ensures BaselogParserAsWritten([good, "-"], 0.5) == Err(LineRaised(1))
  {
    var lines := [good, "-"];
    assert Occurrences("-", ' ') == 0 by { assert "-"[1..] == ""; }
    ProcessLineFewSpaces("-");
    assert lines[..1] == [good];
    assert lines[..1][..0] == [];
    assert lines[1..] == ["-"];
    assert ["-"][1..] == [];
    var r := ProcessLine(good).value;
    assert ScanLines(lines[..1]) == Scan([r], 1, 1) by {
      assert ScanLines(lines[..1][..0]) == Scan([], 0, 0);
    }
    var s := ScanLines(lines);
    assert s == Scan([r], 2, 1);
    GateSpec(s, 0.5);
    assert FirstMalformed(lines[1..]) == Some(0);
  }

  /** The fields of a complete `ui_short` line before its request time, as
      splitting on single spaces gives them: the empty field comes from the
      double space after the client address, and the user agent, which holds
      spaces itself, spans four fields. */
  function SampleFields(): seq<string>
  {
    ["1.196.116.32", "", "-", "-", "[29/Jun/2017:03:50:22", "+0300]", "\"GET",
     "/api/v2/banner/25019354", "HTTP/1.1\"", "200", "927", "\"-\"",
     "\"Lynx/2.8.8dev.9", "libwww-FM/2.14", "SSL-MM/1.4.1", "GNUTLS/2.10.5\"",
     "\"-\"", "\"1498697422-2190034393-4708-9752759\"", "\"dc7161be3\""]
  }

  /** Such a line parses to its request path, whatever its request time. */
  lemma SampleLineParses(ms: nat)
    ensures ProcessLine(LogLine(SampleFields(), ms)) == Some(Record("/api/v2/banner/25019354", ms as real / 1000.0))
  {
    var fields := SampleFields();
    assert forall i :: 0 <= i < |fields| ==> ' ' !in fields[i];
    ProcessLineOfFields(fields, ms);
  }
}
