/** One access-log line to a (url, request time) record (`process_line`). */
module LineParser {
  import opened Wrappers
  import opened Text

  /** A successfully parsed line: the requested URL and its latency in seconds. */
  datatype Record = Record(url: string, requestTime: real)

  /** Position of the URL among the space-separated tokens of a line. With the
      `ui_short` format, the double space after `$remote_addr` yields an empty
      token, which puts the request path at this index. */
  const UrlIndex: nat := 7

  /** Splits on single spaces, takes token 7 as the URL and reads the last
      token as the request time; None where Python raises (too few tokens, or a
      last token `float()` rejects). */
  function ProcessLine(line: string): (r: Option<Record>)
    ensures r.Some? ==> r.value.requestTime >= 0.0
  {
    var values := Split(line, ' ');
    if |values| <= UrlIndex then None
    else
      match ParseLatency(values[|values| - 1])
      case None => None
      case Some(t) => Some(Record(values[UrlIndex], t))
  }

  /** A line as nginx writes it and the file iterator returns it: space-free
      fields, then the request time of `ms` milliseconds, then a newline. */
  function LogLine(fields: seq<string>, ms: nat): string
  {
    Join(fields + [FormatMillis(ms) + "\n"], ' ')
  }

  /** Such a line parses to its eighth field and its exact request time. */
  lemma ProcessLineOfFields(fields: seq<string>, ms: nat)
    requires |fields| > UrlIndex
    requires forall i :: 0 <= i < |fields| ==> ' ' !in fields[i]
    ensures ProcessLine(LogLine(fields, ms)) == Some(Record(fields[UrlIndex], ms as real / 1000.0))
  {
    var f := FormatMillis(ms);
    var last := f + "\n";
    var tokens := fields + [last];
    FormatMillisNoSpace(ms);
    assert ' ' !in last by {
      forall i | 0 <= i < |last| ensures last[i] != ' ' {
        if i < |f| { assert last[i] == f[i] && !IsSpace(f[i]); }
      }
    }
    var line := LogLine(fields, ms);
    SplitJoin(tokens, ' ');
    assert Split(line, ' ') == tokens;
    StripNewline(f);
    StripNoSpace(f);
    ParseLatencyFormatMillis(ms);
    assert ParseLatency(tokens[|tokens| - 1]) == Some(ms as real / 1000.0);
    assert tokens[UrlIndex] == fields[UrlIndex];
    ProcessLineOfTokens(line, tokens, ms as real / 1000.0);
  }

  lemma ProcessLineOfTokens(line: string, tokens: seq<string>, t: real)
    requires Split(line, ' ') == tokens && |tokens| > UrlIndex
    requires ParseLatency(tokens[|tokens| - 1]) == Some(t)
    ensures ProcessLine(line) == Some(Record(tokens[UrlIndex], t))
  {
  }

  /** A line with fewer than seven spaces has fewer than eight tokens and
      never parses. */
  lemma ProcessLineFewSpaces(line: string)
    requires Occurrences(line, ' ') < UrlIndex
    ensures ProcessLine(line).None?
  {
    SplitShape(line, ' ');
  }

  /** A line with enough tokens whose last token `float()` rejects never
      parses. */
  lemma {:induction false} ProcessLineBadLatency(tokens: seq<string>)
    requires |tokens| > UrlIndex
    requires forall i :: 0 <= i < |tokens| ==> ' ' !in tokens[i]
    requires ParseLatency(tokens[|tokens| - 1]).None?
    ensures ProcessLine(Join(tokens, ' ')).None?
  {
    var line := Join(tokens, ' ');
    SplitJoin(tokens, ' ');
    RejectsLastToken(line, tokens);
  }

  lemma RejectsLastToken(line: string, tokens: seq<string>)
    requires Split(line, ' ') == tokens && |tokens| > 0
    requires ParseLatency(tokens[|tokens| - 1]).None?
    ensures ProcessLine(line).None?
  {
  }
}
