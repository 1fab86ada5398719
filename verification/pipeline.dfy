/** One run of the analyzer (`main`): find the newest log, name its report,
    parse and gate its lines, aggregate them and rank the rows. Reading the
    directory and the log file are parameters; writing the report is not
    modelled. */
module Pipeline {
  import opened Wrappers
  import opened Failures
  import opened LineParser
  import opened LogLocator
  import opened LogStream
  import opened Aggregator
  import opened StatsReporter

  /** The settings `main` reads. The threshold is optional: the built-in
      defaults do not define it. */
  datatype Config = Config(reportSize: int, reportDir: string, logDir: string, referPercent: Option<real>)

  /** The built-in configuration (lines 29-33). */
  const Defaults: Config := Config(1000, "./reports", "./log", None)

  /** What a successful run writes: the report's path and its rows. */
  datatype Report = Report(path: string, rows: seq<StatRow>)

  /** The stream and its gate with an optional threshold. An empty log
      divides by zero before the threshold is read; a missing threshold
      makes `float(None)` raise. */
  function GateLines(lines: seq<string>, referPercent: Option<real>): Result<seq<Record>, Failure>
  {
    if |lines| == 0 then Err(NoLines)
    else match referPercent
      case None => Err(MissingThreshold)
      case Some(p) => BaselogParser(lines, p)
  }

  /** `main`, given the log directory's listing and the lines of each file. */
  function Run(cfg: Config, listing: seq<string>, readLog: string -> seq<string>): Result<Report, Failure>
  {
    match LastLogSearch(cfg.logDir, listing)
    case None => Err(NoLogFound)
    case Some(log) =>
      NewestIsDated(cfg.logDir, listing);
      var path := PathJoin(cfg.reportDir, ReportName(log.dateText));
      var records :- GateLines(readLog(log.path), cfg.referPercent);
      CollectUrlDataSpec(records);
      var rows :- PrepareStat(CollectUrlData(records), cfg.reportSize);
      Ok(Report(path, rows))
  }

  /** The newest log's date text is eight digits of a real date. */
  lemma NewestIsDated(logDir: string, listing: seq<string>)
    ensures LastLogSearch(logDir, listing).Some? ==>
              IsDateText(LastLogSearch(logDir, listing).value.dateText)
              && ValidDate(LastLogSearch(logDir, listing).value.date)
  {
    var i := LastLogSearchSpec(logDir, listing);
  }

  /** How a run ends before the rows: for want of a log exactly when no
      entry names one; then on an empty log exactly when it has no lines; then
      on a missing threshold whenever none is configured; and below the
      threshold exactly when the parsed lines fall short of it. */
  lemma RunOutcomes(cfg: Config, listing: seq<string>, readLog: string -> seq<string>)
    ensures Run(cfg, listing, readLog) == Err(NoLogFound) <==> LastLogSearch(cfg.logDir, listing).None?
    ensures LastLogSearch(cfg.logDir, listing).Some? ==>
              var lines := readLog(LastLogSearch(cfg.logDir, listing).value.path);
              var r := Run(cfg, listing, readLog);
              && (r == Err(NoLines) <==> |lines| == 0)
              && (|lines| > 0 && cfg.referPercent.None? ==> r == Err(MissingThreshold))
              && (|lines| > 0 && cfg.referPercent.Some? ==>
                    (r.Err? && r.error.BelowThreshold? <==>
                       !MeetsThreshold(ScanLines(lines).handled, |lines|, cfg.referPercent.value)))
  {
    if LastLogSearch(cfg.logDir, listing).Some? {
      var lines := readLog(LastLogSearch(cfg.logDir, listing).value.path);
      if |lines| > 0 && cfg.referPercent.Some? {
        BaselogParserGate(lines, cfg.referPercent.value);
      }
    }
  }

  /** The built-in configuration defines no threshold, so no run with it
      writes a report. */
  lemma DefaultsNeverReport(listing: seq<string>, readLog: string -> seq<string>)
    ensures !Run(Defaults, listing, readLog).Ok?
  {
    RunRows(Defaults, listing, readLog);
  }

  /** A successful run writes to a file in the report directory whose name
      is the report name of the newest log's date, and that name gives the
      date back. */
  lemma RunReportName(cfg: Config, listing: seq<string>, readLog: string -> seq<string>)
    ensures Run(cfg, listing, readLog).Ok? ==>
              && LastLogSearch(cfg.logDir, listing).Some?
              && var path := Run(cfg, listing, readLog).value.path;
              && |path| >= 22
              && ParseReportName(path[|path| - 22..]) == Some(LastLogSearch(cfg.logDir, listing).value.dateText)
  {
    if Run(cfg, listing, readLog).Ok? {
      NewestIsDated(cfg.logDir, listing);
      var d := LastLogSearch(cfg.logDir, listing).value.dateText;
      ReportNameRoundTrip(d, "");
      assert |ReportName(d)| == 22;
    }
  }

  /** A successful run found a log that is not empty and met the configured
      threshold, and its rows are ranked by total time, name no URL twice,
      are at most as many as the report size asks for, and each names the
      URL of some line of that log that parses. */
  lemma RunRows(cfg: Config, listing: seq<string>, readLog: string -> seq<string>)
    ensures Run(cfg, listing, readLog).Ok? ==>
              && LastLogSearch(cfg.logDir, listing).Some?
              && var lines := readLog(LastLogSearch(cfg.logDir, listing).value.path);
              && var rows := Run(cfg, listing, readLog).value.rows;
              && |lines| > 0
              && cfg.referPercent.Some?
              && MeetsThreshold(ScanLines(lines).handled, |lines|, cfg.referPercent.value)
              && SortedByTimeDesc(rows)
              && DistinctUrls(rows)
              && (cfg.reportSize >= 0 ==> |rows| <= cfg.reportSize)
              && (forall k :: 0 <= k < |rows| ==>
                    UrlOfLine(lines, rows[k].url))
  {
    if Run(cfg, listing, readLog).Ok? {
      RunPassedGate(cfg, listing, readLog);
      var lines := readLog(LastLogSearch(cfg.logDir, listing).value.path);
      RowsOfLog(lines, cfg.reportSize);
    }
  }

  /** The aggregate behind a successful run: the records of a non-empty log
      that met the configured threshold. */
  lemma RunPassedGate(cfg: Config, listing: seq<string>, readLog: string -> seq<string>)
    ensures Run(cfg, listing, readLog).Ok? ==>
              && LastLogSearch(cfg.logDir, listing).Some?
              && var lines := readLog(LastLogSearch(cfg.logDir, listing).value.path);
              && |lines| > 0
              && cfg.referPercent.Some?
              && MeetsThreshold(ScanLines(lines).handled, |lines|, cfg.referPercent.value)
              && WellFormed(CollectUrlData(ScanLines(lines).records))
              && PrepareStat(CollectUrlData(ScanLines(lines).records), cfg.reportSize)
                   == Ok(Run(cfg, listing, readLog).value.rows)
  {
    if Run(cfg, listing, readLog).Ok? {
      var lines := readLog(LastLogSearch(cfg.logDir, listing).value.path);
      BaselogParserGate(lines, cfg.referPercent.value);
      CollectUrlDataSpec(ScanLines(lines).records);
    }
  }

  /** The rows of a log's report are ranked, name no URL twice, respect the
      size, and name URLs of its lines. */
  lemma {:induction false} RowsOfLog(lines: seq<string>, reportSize: int)
    ensures WellFormed(CollectUrlData(ScanLines(lines).records))
    ensures PrepareStat(CollectUrlData(ScanLines(lines).records), reportSize).Ok? ==>
              var rows := PrepareStat(CollectUrlData(ScanLines(lines).records), reportSize).value;
              && SortedByTimeDesc(rows)
              && DistinctUrls(rows)
              && (reportSize >= 0 ==> |rows| <= reportSize)
              && (forall k :: 0 <= k < |rows| ==>
                    UrlOfLine(lines, rows[k].url))
  {
    var u := CollectUrlData(ScanLines(lines).records);
    CollectTotals(ScanLines(lines).records);
    if PrepareStat(u, reportSize).Ok? {
      PrepareStatSpec(u, reportSize);
      RowUrlsFromLines(lines, PrepareStat(u, reportSize).value);
    }
  }

  /** Rows naming URLs of a log's aggregate name URLs of lines that parse. */
  lemma RowUrlsFromLines(lines: seq<string>, rows: seq<StatRow>)
    requires forall k :: 0 <= k < |rows| ==> rows[k].url in CollectUrlData(ScanLines(lines).records).samples
    ensures forall k :: 0 <= k < |rows| ==>
              UrlOfLine(lines, rows[k].url)
  {
    forall k | 0 <= k < |rows|
      ensures UrlOfLine(lines, rows[k].url)
    {
      UrlFromLine(lines, rows[k].url);
    }
  }

  /** `url` is the URL of some line of the log that parses. */
  predicate UrlOfLine(lines: seq<string>, url: string)
  {
    exists i :: 0 <= i < |lines| && ProcessLine(lines[i]).Some? && ProcessLine(lines[i]).value.url == url
  }

  /** Every URL of the aggregate of a log is the URL of one of its lines. */
  lemma UrlFromLine(lines: seq<string>, url: string)
    ensures url in CollectUrlData(ScanLines(lines).records).samples ==>
              UrlOfLine(lines, url)
  {
    var records := ScanLines(lines).records;
    if url in CollectUrlData(records).samples {
      CollectKeys(records);
      var k :| 0 <= k < |records| && records[k].url == url;
      ScanRecordsFromLines(lines, k);
      var i :| 0 <= i < |lines| && ProcessLine(lines[i]) == Some(records[k]);
      assert ProcessLine(lines[i]).value.url == url;
    }
  }
}
