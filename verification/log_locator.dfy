/** Locating the newest access log in a directory listing (`last_log_search`)
    and naming the report after its date (`main`). */
module LogLocator {
  import opened Wrappers
  import opened Text

  const Prefix: string := "nginx-access-ui.log-"

  // ---------------------------------------------------------------------
  // File-name pattern `^nginx-access-ui\.log-(?P<date>\d{8})(\.gz)?$`
  // ---------------------------------------------------------------------

  /** What the pattern captures from a matching name. */
  datatype LogName = LogName(date: string, gz: bool)

  predicate IsDateText(d: string)
  {
    |d| == 8 && AllDigits(d)
  }

  /** The name a log file with this date and compression carries. */
  function LogFileName(n: LogName): string
  {
    Prefix + n.date + (if n.gz then ".gz" else "")
  }

  /** The pattern matched against the whole of `s` (no trailing newline). */
  function MatchExact(s: string): Option<LogName>
  {
    var p := |Prefix|;
    if |s| >= p + 8 && s[..p] == Prefix && IsDateText(s[p..p + 8]) then
      var rest := s[p + 8..];
      if rest == "" then Some(LogName(s[p..p + 8], false))
      else if rest == ".gz" then Some(LogName(s[p..p + 8], true))
      else None
    else None
  }

  /** Python's `re.match` with this pattern: `$` also matches just before a
      final newline, so a name may carry one trailing `\n`. */
  function MatchLogName(name: string): Option<LogName>
  {
    match MatchExact(name)
    case Some(n) => Some(n)
    case None =>
      if |name| > 0 && name[|name| - 1] == '\n' then MatchExact(name[..|name| - 1]) else None
  }

  lemma MatchExactIff(s: string, n: LogName)
    ensures MatchExact(s) == Some(n) <==> IsDateText(n.date) && s == LogFileName(n)
  {
    var p := |Prefix|;
    if IsDateText(n.date) && s == LogFileName(n) {
      assert s[..p] == Prefix;
      assert s[p..p + 8] == n.date;
      assert s[p + 8..] == (if n.gz then ".gz" else "");
    }
    if MatchExact(s) == Some(n) {
      assert s == s[..p] + s[p..p + 8] + s[p + 8..];
    }
  }

  lemma LogFileNameNoNewline(n: LogName)
    requires IsDateText(n.date)
    ensures LogFileName(n)[|LogFileName(n)| - 1] != '\n'
  {
    var s := LogFileName(n);
    if !n.gz {
      assert s[|s| - 1] == n.date[7];
      assert IsDigit(n.date[7]);
    }
  }

  /** A name is selected by the pattern exactly when it is a log file name,
      optionally followed by one newline. */
  lemma MatchLogNameIff(name: string, n: LogName)
    ensures MatchLogName(name) == Some(n) <==>
              IsDateText(n.date) && (name == LogFileName(n) || name == LogFileName(n) + "\n")
  {
    MatchExactIff(name, n);
    if |name| > 0 {
      MatchExactIff(name[..|name| - 1], n);
    }
    if name == LogFileName(n) + "\n" {
      assert name[..|name| - 1] == LogFileName(n);
      var m := MatchExact(name);
      if m.Some? {
        MatchExactIff(name, m.value);
        LogFileNameNoNewline(m.value);
      }
    }
    if name == LogFileName(n) && IsDateText(n.date) {
      LogFileNameNoNewline(n);
    }
  }

  // ---------------------------------------------------------------------
  // Dates (`datetime.strptime(date_str, "%Y%m%d")`)
  // ---------------------------------------------------------------------

  datatype Date = Date(year: nat, month: nat, day: nat)

  /** The `YYYYMMDD` fields of an eight-digit date text. */
  function DateOf(d: string): Date
    requires IsDateText(d)
  {
    Date(DigitsValue(d[..4]), DigitsValue(d[4..6]), DigitsValue(d[6..]))
  }

  predicate IsLeapYear(y: nat)
  {
    y % 4 == 0 && (y % 100 != 0 || y % 400 == 0)
  }

  function DaysInMonth(y: nat, m: nat): nat
    requires 1 <= m <= 12
  {
    if m == 2 then (if IsLeapYear(y) then 29 else 28)
    else if m == 4 || m == 6 || m == 9 || m == 11 then 30
    else 31
  }

  /** The dates `datetime` accepts; `strptime` raises on any other. */
  predicate ValidDate(d: Date)
  {
    1 <= d.year <= 9999 && 1 <= d.month <= 12 && 1 <= d.day <= DaysInMonth(d.year, d.month)
  }

  /** Calendar order: earlier year, then earlier month, then earlier day. */
  predicate Before(a: Date, b: Date)
  {
    a.year < b.year || (a.year == b.year && (a.month < b.month || (a.month == b.month && a.day < b.day)))
  }

  /** The number `YYYYMMDD` a date is written as. */
  function DateKey(d: Date): nat
  {
    d.year * 10000 + d.month * 100 + d.day
  }

  /** The eight digits of a date text, read as one number, are its key. */
  lemma DateKeyIsDigitsValue(d: string)
    requires IsDateText(d)
    ensures DigitsValue(d) == DateKey(DateOf(d))
  {
    var y, m, dd := d[..4], d[4..6], d[6..];
    assert AllDigits(y) && AllDigits(m) && AllDigits(dd) by {
      forall i | 0 <= i < 4 ensures IsDigit(y[i]) { assert y[i] == d[i]; }
      forall i | 0 <= i < 2 ensures IsDigit(m[i]) && IsDigit(dd[i]) {
        assert m[i] == d[4 + i];
        assert dd[i] == d[6 + i];
      }
    }
    DigitsValueConcat(y, m);
    DigitsValueConcat(y + m, dd);
    assert y + m + dd == d;
    assert Pow10(2) == 100;
  }

  /** For valid dates the numeric order of the keys is calendar order. */
  lemma DateKeyOrder(a: Date, b: Date)
    requires ValidDate(a) && ValidDate(b)
    ensures DateKey(a) < DateKey(b) <==> Before(a, b)
    ensures DateKey(a) == DateKey(b) <==> a == b
  {
    var ma, mb := a.month * 100 + a.day, b.month * 100 + b.day;
    assert ma < 10000 && mb < 10000;
    assert DateKey(a) == a.year * 10000 + ma;
    assert DateKey(b) == b.year * 10000 + mb;
    if a.year < b.year {
      assert a.year * 10000 + 10000 <= b.year * 10000;
    } else if a.year > b.year {
      assert b.year * 10000 + 10000 <= a.year * 10000;
    }
  }

  // ---------------------------------------------------------------------
  // Candidate logs and the newest one
  // ---------------------------------------------------------------------

  /** A located log: where it is, the date text from its name, and its date. */
  datatype LogFile = LogFile(path: string, dateText: string, date: Date, gz: bool)

  /** Python's `os.path.join(dir, name)` for two components. */
  function PathJoin(dir: string, name: string): (r: string)
    ensures |r| >= |name| && r[|r| - |name|..] == name
    ensures |name| > 0 && name[0] == '/' ==> r == name
    ensures (|name| == 0 || name[0] != '/') && dir == "" ==> r == name
    ensures (|name| == 0 || name[0] != '/') && dir != "" ==>
              && |r| == |dir| + |name| + (if dir[|dir| - 1] == '/' then 0 else 1)
              && r[..|dir|] == dir
              && r[|r| - |name| - 1] == '/'
  {
    if |name| > 0 && name[0] == '/' then name
    else if dir == "" || dir[|dir| - 1] == '/' then dir + name
    else dir + "/" + name
  }

  /** The log a directory entry stands for: its name matches the pattern and
      the captured date is a real calendar date; other entries are skipped.
      A kept entry's name is the log file name for its date text and
      compression, possibly followed by one newline; `CandidateIff` gives the
      converse. */
  function Candidate(logDir: string, name: string): (r: Option<LogFile>)
    ensures r.Some? ==> && IsDateText(r.value.dateText) && ValidDate(r.value.date)
                        && r.value.date == DateOf(r.value.dateText)
                        && var file := LogFileName(LogName(r.value.dateText, r.value.gz));
                           name == file || name == file + "\n"
    ensures r.Some? ==> r.value.path == PathJoin(logDir, name)
  {
    match MatchLogName(name)
    case None => None
    case Some(n) =>
      MatchLogNameIff(name, n);
      var d := DateOf(n.date);
      if ValidDate(d) then Some(LogFile(PathJoin(logDir, name), n.date, d, n.gz)) else None
  }

  /** An entry is kept, with a given date text and compression, exactly when
      it is the log file name for them (optionally followed by one newline)
      and the date text names a real day; every other entry is ignored. */
  lemma CandidateIff(logDir: string, name: string, n: LogName)
    ensures (&& Candidate(logDir, name).Some?
             && Candidate(logDir, name).value.dateText == n.date
             && Candidate(logDir, name).value.gz == n.gz)
            <==> (&& IsDateText(n.date) && ValidDate(DateOf(n.date))
                  && (name == LogFileName(n) || name == LogFileName(n) + "\n"))
  {
    MatchLogNameIff(name, n);
  }

  /** The newer of the best log so far and the next candidate; a later entry
      replaces the best only when its date is strictly greater. */
  function Newer(best: Option<LogFile>, next: Option<LogFile>): Option<LogFile>
  {
    match next
    case None => best
    case Some(f) =>
      if best.None? || DateKey(f.date) > DateKey(best.value.date) then next else best
  }

  /** The best of a sequence of scanned entries, taken in order. */
  function Newest(cs: seq<Option<LogFile>>): Option<LogFile>
    decreases |cs|
  {
    if |cs| == 0 then None else Newer(Newest(cs[..|cs| - 1]), cs[|cs| - 1])
  }

  /** What each directory entry stands for, in listing order. */
  function Candidates(logDir: string, listing: seq<string>): (cs: seq<Option<LogFile>>)
    ensures |cs| == |listing|
    ensures forall j :: 0 <= j < |listing| ==> cs[j] == Candidate(logDir, listing[j])
  {
    seq(|listing|, j requires 0 <= j < |listing| => Candidate(logDir, listing[j]))
  }

  /** The newest log of a directory listing, scanning it in order. */
  function LastLogSearch(logDir: string, listing: seq<string>): Option<LogFile>
  {
    Newest(Candidates(logDir, listing))
  }

  /** Date key of a candidate, and -1 for an entry that is not one. */
  function KeyOf(c: Option<LogFile>): int
  {
    if c.Some? then DateKey(c.value.date) else -1
  }

  /** Position `i` holds a candidate whose date is at least every candidate's
      date and strictly greater than that of every earlier candidate. */
  predicate FirstNewestAt(cs: seq<Option<LogFile>>, i: int)
  {
    && 0 <= i < |cs|
    && cs[i].Some?
    && (forall j :: 0 <= j < |cs| ==> KeyOf(cs[j]) <= KeyOf(cs[i]))
    && (forall j :: 0 <= j < i ==> KeyOf(cs[j]) < KeyOf(cs[i]))
  }

  lemma {:induction false} NewestSpec(cs: seq<Option<LogFile>>) returns (i: int)
    ensures Newest(cs).None? <==> forall j :: 0 <= j < |cs| ==> cs[j].None?
    ensures Newest(cs).Some? ==> FirstNewestAt(cs, i) && Newest(cs) == cs[i]
    decreases |cs|
  {
    if |cs| == 0 {
      return 0;
    }
    var n := |cs| - 1;
    var prefix := cs[..n];
    var i' := NewestSpec(prefix);
    assert forall j :: 0 <= j < n ==> cs[j] == prefix[j];
    var best := Newest(prefix);
    var next := cs[n];
    if best.Some? && next.Some? && DateKey(next.value.date) > DateKey(best.value.date) {
      i := n;
    } else if best.Some? {
      i := i';
    } else if next.Some? {
      i := n;
    } else {
      i := 0;
    }
  }

  /** The search finds nothing exactly when no entry is a candidate; otherwise
      it returns the candidate at the position `i` it reports, whose date is
      the newest, and among logs sharing the newest date the first in listing
      order wins. */
  lemma LastLogSearchSpec(logDir: string, listing: seq<string>) returns (i: int)
    ensures LastLogSearch(logDir, listing).None? <==>
              forall j :: 0 <= j < |listing| ==> Candidate(logDir, listing[j]).None?
    ensures LastLogSearch(logDir, listing).Some? ==>
              && 0 <= i < |listing|
              && LastLogSearch(logDir, listing) == Candidate(logDir, listing[i])
              && (forall j :: 0 <= j < |listing| ==> KeyOf(Candidate(logDir, listing[j])) <= KeyOf(Candidate(logDir, listing[i])))
              && (forall j :: 0 <= j < i ==> KeyOf(Candidate(logDir, listing[j])) < KeyOf(Candidate(logDir, listing[i])))
  {
    i := NewestSpec(Candidates(logDir, listing));
  }

  // ---------------------------------------------------------------------
  // Report name (`'report-{0}.html'.format(strftime(date, '%Y.%m.%d'))`)
  // ---------------------------------------------------------------------

  /** `report-YYYY.MM.DD.html` for an eight-digit date text. */
  function ReportName(d: string): string
    requires IsDateText(d)
  {
    "report-" + d[..4] + "." + d[4..6] + "." + d[6..] + ".html"
  }

  /** Recovers the date text from a report name, or None if `s` is not one. */
  function ParseReportName(s: string): Option<string>
  {
    if |s| == 22 && s[..7] == "report-" && s[11] == '.' && s[14] == '.' && s[17..] == ".html" then
      var d := s[7..11] + s[12..14] + s[15..17];
      if IsDateText(d) then Some(d) else None
    else None
  }

  /** The report name determines the date and vice versa. */
  lemma ReportNameRoundTrip(d: string, s: string)
    ensures IsDateText(d) ==> ParseReportName(ReportName(d)) == Some(d)
    ensures ParseReportName(s) == Some(d) ==> IsDateText(d) && ReportName(d) == s
  {
    if IsDateText(d) {
      var r := ReportName(d);
      assert r[7..11] == d[..4] && r[12..14] == d[4..6] && r[15..17] == d[6..];
      assert d[..4] + d[4..6] + d[6..] == d;
      assert r[..7] == "report-" && r[17..] == ".html";
    }
    if ParseReportName(s) == Some(d) {
      assert d[..4] == s[7..11] && d[4..6] == s[12..14] && d[6..] == s[15..17];
      assert s == s[..7] + s[7..11] + [s[11]] + s[12..14] + [s[14]] + s[15..17] + s[17..];
    }
  }

  // ---------------------------------------------------------------------
  // `last_log_search` as the source writes it
  // ---------------------------------------------------------------------

  /** Outcome of the loop at lines 96-108 as written: a matching entry whose
      date parses does nothing, because the comparison and the `return` sit in
      the `except` branch; a matching entry whose date does not parse reaches
      that branch and fails there (`parsed_date` unbound, or a `datetime`
      compared with a namedtuple field descriptor). The loop returns None
      otherwise. */
  function LastLogSearchAsWritten(listing: seq<string>): Result<Option<LogFile>, string>
    decreases |listing|
  {
    if |listing| == 0 then Ok(None)
    else
      match MatchLogName(listing[0])
      case None => LastLogSearchAsWritten(listing[1..])
      case Some(n) =>
        if ValidDate(DateOf(n.date)) then LastLogSearchAsWritten(listing[1..])
        else Err("exception raised in the except branch")
  }

  /** As written, the search never finds a log: it returns None or raises. */
  lemma {:induction false} AsWrittenNeverFinds(listing: seq<string>)
    ensures LastLogSearchAsWritten(listing).Ok? ==> LastLogSearchAsWritten(listing).value.None?
    decreases |listing|
  {
    if |listing| > 0 {
      AsWrittenNeverFinds(listing[1..]);
    }
  }

  /** A directory holding one well-named log with a real date: the intended
      search selects it, the code as written returns None. */
  lemma AsWrittenMissesLog(logDir: string, n: LogName)
    requires IsDateText(n.date) && ValidDate(DateOf(n.date))
    ensures LastLogSearchAsWritten([LogFileName(n)]) == Ok(None)
    ensures LastLogSearch(logDir, [LogFileName(n)]).Some?
  {
    var name := LogFileName(n);
    MatchLogNameIff(name, n);
    assert [name][1..] == [];
    assert [name][..0] == [];
    assert Candidates(logDir, [name])[0].Some?;
  }

  /** `nginx-access-ui.log-20170630` names a log of 30 June 2017. */
  lemma SampleLogName()
    ensures IsDateText(SampleLog().date) && ValidDate(DateOf(SampleLog().date))
  {
    var text := SampleLog().date;
    assert text[..4] == "2017";
    assert text[4..6] == "06";
    assert text[6..] == "30" by { assert |text| == 8 && text[6] == '3' && text[7] == '0'; }
    assert DigitsValue("2017") == 2017 by {
      assert "2017"[..3] == "201" && "201"[..2] == "20" && "20"[..1] == "2" && "2"[..0] == "";
    }
    assert DigitsValue("06") == 6 by { assert "06"[..1] == "0" && "0"[..0] == ""; }
    assert DigitsValue("30") == 30 by { assert "30"[..1] == "3" && "3"[..0] == ""; }
  }

  function SampleLog(): LogName
  {
    LogName("20170630", false)
  }
}
