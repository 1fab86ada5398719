/** String helpers the analyzer relies on: Python's `str.split(' ')`, ASCII
    digit strings, whitespace stripping as `float()` does it, and a parser for
    the unsigned decimal literals nginx writes for `$request_time`. */
module Text {
  import opened Wrappers

  // ---------------------------------------------------------------------
  // Splitting on one separator character (Python `s.split(sep)`)
  // ---------------------------------------------------------------------

  /** The pieces of `s` between occurrences of `sep`; consecutive separators
      give empty pieces and the empty string gives one empty piece. */
  function Split(s: string, sep: char): (parts: seq<string>)
    ensures |parts| > 0
    decreases |s|
  {
    if |s| == 0 then [""]
    else
      var rest := Split(s[1..], sep);
      if s[0] == sep then [""] + rest
      else [[s[0]] + rest[0]] + rest[1..]
  }

  /** Python `sep.join(parts)`. */
  function Join(parts: seq<string>, sep: char): string
    requires |parts| > 0
    decreases |parts|
  {
    if |parts| == 1 then parts[0] else parts[0] + [sep] + Join(parts[1..], sep)
  }

  /** Number of occurrences of `c` in `s`. */
  function Occurrences(s: string, c: char): nat
  {
    if |s| == 0 then 0 else (if s[0] == c then 1 else 0) + Occurrences(s[1..], c)
  }

  /** No piece of a split contains the separator, and there is one piece more
      than there are separators. */
  lemma {:induction false} SplitShape(s: string, sep: char)
    ensures forall i :: 0 <= i < |Split(s, sep)| ==> sep !in Split(s, sep)[i]
    ensures |Split(s, sep)| == Occurrences(s, sep) + 1
    decreases |s|
  {
    if |s| > 0 {
      SplitShape(s[1..], sep);
    }
  }

  /** Joining the pieces of a split gives the original string back. */
  lemma {:induction false} JoinSplit(s: string, sep: char)
    ensures Join(Split(s, sep), sep) == s
    decreases |s|
  {
    if |s| > 0 {
      JoinSplit(s[1..], sep);
      var rest := Split(s[1..], sep);
      if s[0] != sep {
        if |rest| == 1 {
          assert Join(rest, sep) == rest[0];
        } else {
          assert Join(rest, sep) == rest[0] + [sep] + Join(rest[1..], sep);
          var parts := Split(s, sep);
          assert parts[1..] == rest[1..];
          assert Join(parts, sep) == ([s[0]] + rest[0]) + [sep] + Join(rest[1..], sep);
        }
      }
    }
  }

  /** Splitting a join of separator-free pieces recovers the pieces. */
  lemma {:induction false} SplitJoin(parts: seq<string>, sep: char)
    requires |parts| > 0
    requires forall i :: 0 <= i < |parts| ==> sep !in parts[i]
    ensures Split(Join(parts, sep), sep) == parts
    decreases |parts|, |parts[0]|
  {
    if |parts[0]| > 0 {
      var p0 := parts[0];
      var tail := [p0[1..]] + parts[1..];
      assert sep !in p0[1..] by {
        forall k | 0 <= k < |p0[1..]| ensures p0[1..][k] != sep {
          assert p0[1..][k] == p0[k + 1];
        }
      }
      SplitJoin(tail, sep);
      assert tail[1..] == parts[1..];
      var j := Join(parts, sep);
      if |parts| == 1 {
        assert j == p0;
        assert Join(tail, sep) == p0[1..];
      } else {
        assert Join(tail, sep) == p0[1..] + [sep] + Join(parts[1..], sep);
      }
      assert j[1..] == Join(tail, sep);
      assert j[0] == p0[0] && p0[0] != sep;
      assert [p0[0]] + p0[1..] == p0;
    } else if |parts| > 1 {
      SplitJoin(parts[1..], sep);
      var j := Join(parts, sep);
      assert j == [sep] + Join(parts[1..], sep);
      assert j[1..] == Join(parts[1..], sep);
    }
  }

  // ---------------------------------------------------------------------
  // ASCII digit strings
  // ---------------------------------------------------------------------

  predicate IsDigit(c: char)
  {
    '0' <= c <= '9'
  }

  predicate AllDigits(s: string)
  {
    forall i :: 0 <= i < |s| ==> IsDigit(s[i])
  }

  function DigitValue(c: char): (d: nat)
    requires IsDigit(c)
    ensures d < 10
  {
    c as int - '0' as int
  }

  function DigitChar(d: nat): (c: char)
    requires d < 10
    ensures IsDigit(c) && DigitValue(c) == d
  {
    ('0' as int + d) as char
  }

  /** The natural number a string of decimal digits denotes, most significant first. */
  function DigitsValue(s: string): nat
    requires AllDigits(s)
    decreases |s|
  {
    if |s| == 0 then 0 else DigitsValue(s[..|s| - 1]) * 10 + DigitValue(s[|s| - 1])
  }

  function Pow10(k: nat): (p: nat)
    ensures p >= 1
  {
    if k == 0 then 1 else 10 * Pow10(k - 1)
  }

  /** Decimal representation of `n` without leading zeros. */
  function NatToDigits(n: nat): (s: string)
    ensures |s| > 0 && AllDigits(s)
  {
    if n < 10 then [DigitChar(n)] else NatToDigits(n / 10) + [DigitChar(n % 10)]
  }

  lemma {:induction false} DigitsRoundTrip(n: nat)
    ensures DigitsValue(NatToDigits(n)) == n
  {
    if n >= 10 {
      DigitsRoundTrip(n / 10);
      var s := NatToDigits(n);
      assert s[..|s| - 1] == NatToDigits(n / 10);
    }
  }

  /** A digit string is worth its first part shifted left by the length of
      the second, plus the second. */
  lemma {:induction false} DigitsValueConcat(a: string, b: string)
    requires AllDigits(a) && AllDigits(b)
    ensures AllDigits(a + b)
    ensures DigitsValue(a + b) == DigitsValue(a) * Pow10(|b|) + DigitsValue(b)
    decreases |b|
  {
    assert AllDigits(a + b) by {
      forall i | 0 <= i < |a + b| ensures IsDigit((a + b)[i]) {
        if i < |a| { assert (a + b)[i] == a[i]; } else { assert (a + b)[i] == b[i - |a|]; }
      }
    }
    if |b| > 0 {
      var b' := b[..|b| - 1];
      assert AllDigits(b') by {
        forall i | 0 <= i < |b'| ensures IsDigit(b'[i]) { assert b'[i] == b[i]; }
      }
      DigitsValueConcat(a, b');
      assert (a + b)[..|a + b| - 1] == a + b';
      assert (a + b)[|a + b| - 1] == b[|b| - 1];
      assert b[..|b| - 1] == b';
      var x, p, y, d := DigitsValue(a), Pow10(|b'|), DigitsValue(b'), DigitValue(b[|b| - 1]);
      assert DigitsValue(a + b) == DigitsValue(a + b') * 10 + d;
      assert DigitsValue(a + b') == x * p + y;
      assert DigitsValue(b) == y * 10 + d;
      assert Pow10(|b|) == 10 * p;
      ShiftDigit(x, p, y, d);
    } else {
      assert a + b == a;
    }
  }

  lemma ShiftDigit(x: int, p: int, y: int, d: int)
    ensures (x * p + y) * 10 + d == x * (10 * p) + (y * 10 + d)
  {
  }

  // ---------------------------------------------------------------------
  // Whitespace stripping and decimal literals (the part of Python `float()`
  // that request times use)
  // ---------------------------------------------------------------------

  /** The six ASCII whitespace characters: space, tab, newline, carriage
      return, vertical tab and form feed. */
  predicate IsSpace(c: char)
  {
    c == ' ' || c == '\t' || c == '\n' || c == '\r' || c == '\U{000B}' || c == '\U{000C}'
  }

  /** Number of whitespace characters at the start of `s`. */
  function LeadingSpaces(s: string): (k: nat)
    ensures k <= |s|
    ensures forall i :: 0 <= i < k ==> IsSpace(s[i])
    ensures k == |s| || !IsSpace(s[k])
    decreases |s|
  {
    if |s| > 0 && IsSpace(s[0]) then 1 + LeadingSpaces(s[1..]) else 0
  }

  /** Number of whitespace characters at the end of `s`. */
  function TrailingSpaces(s: string): (k: nat)
    ensures k <= |s|
    ensures forall i :: |s| - k <= i < |s| ==> IsSpace(s[i])
    ensures k == |s| || !IsSpace(s[|s| - k - 1])
    decreases |s|
  {
    if |s| > 0 && IsSpace(s[|s| - 1]) then 1 + TrailingSpaces(s[..|s| - 1]) else 0
  }

  /** Python `s.strip()` restricted to the six ASCII whitespace characters. */
  function Strip(s: string): string
  {
    var l := s[LeadingSpaces(s)..];
    l[..|l| - TrailingSpaces(l)]
  }

  /** A string with no whitespace at either end is its own strip. */
  lemma StripNoSpace(s: string)
    requires forall i :: 0 <= i < |s| ==> !IsSpace(s[i])
    ensures Strip(s) == s
  {
  }

  /** The value of an unsigned decimal literal `d+`, `d+.d*` or `.d+`, or
      None for anything else. */
  function ParseDecimal(s: string): (r: Option<real>)
    ensures r.Some? ==> r.value >= 0.0
  {
    var parts := Split(s, '.');
    if |parts| == 1 then
      if |s| > 0 && AllDigits(s) then Some(DigitsValue(s) as real) else None
    else if |parts| == 2 then
      var whole, frac := parts[0], parts[1];
      if |whole| + |frac| > 0 && AllDigits(whole) && AllDigits(frac) then
        Some(DigitsValue(whole) as real + DigitsValue(frac) as real / Pow10(|frac|) as real)
      else None
    else None
  }

  /** The request-time token as `float()` reads it: surrounding whitespace
      (including the line's own newline) is ignored. */
  function ParseLatency(token: string): (r: Option<real>)
    ensures r.Some? ==> r.value >= 0.0
  {
    ParseDecimal(Strip(token))
  }

  // ---------------------------------------------------------------------
  // nginx's rendering of `$request_time` (seconds with millisecond resolution)
  // ---------------------------------------------------------------------

  /** Three-digit, zero-padded rendering of a number below 1000. */
  function ThreeDigits(f: nat): (s: string)
    requires f < 1000
    ensures |s| == 3 && AllDigits(s)
  {
    [DigitChar(f / 100), DigitChar(f / 10 % 10), DigitChar(f % 10)]
  }

  /** `ms` milliseconds written as seconds the way nginx prints them, e.g. `0.390`. */
  function FormatMillis(ms: nat): string
  {
    Join([NatToDigits(ms / 1000), ThreeDigits(ms % 1000)], '.')
  }

  lemma ThreeDigitsValue(f: nat)
    requires f < 1000
    ensures DigitsValue(ThreeDigits(f)) == f
  {
    var s := ThreeDigits(f);
    var s1, s2 := s[..1], s[..2];
    assert s1[..0] == [];
    assert s2[..1] == s1;
    assert s[..|s| - 1] == s2;
    assert DigitsValue(s1) == f / 100;
    assert DigitsValue(s2) == (f / 100) * 10 + f / 10 % 10;
    assert DigitsValue(s) == DigitsValue(s2) * 10 + f % 10;
  }

  /** Every digit string is free of dots and whitespace. */
  lemma DigitsHaveNoDot(s: string)
    requires AllDigits(s)
    ensures '.' !in s
    ensures forall i :: 0 <= i < |s| ==> !IsSpace(s[i])
  {
    forall i | 0 <= i < |s| ensures s[i] != '.' && !IsSpace(s[i]) {
      assert IsDigit(s[i]);
    }
  }

  /** Reading back what nginx writes gives the exact latency. */
  lemma ParseLatencyFormatMillis(ms: nat)
    ensures ParseLatency(FormatMillis(ms)) == Some(ms as real / 1000.0)
  {
    FormatMillisNoSpace(ms);
    StripNoSpace(FormatMillis(ms));
    ParseFormatMillis(ms);
  }

  /** The decimal reading of `w.fff` is `w + fff/1000`. */
  lemma ParseFormatMillis(ms: nat)
    ensures ParseDecimal(FormatMillis(ms)) == Some(ms as real / 1000.0)
  {
    var whole, frac := NatToDigits(ms / 1000), ThreeDigits(ms % 1000);
    DigitsHaveNoDot(whole);
    DigitsHaveNoDot(frac);
    SplitJoin([whole, frac], '.');
    DigitsRoundTrip(ms / 1000);
    ThreeDigitsValue(ms % 1000);
    assert Pow10(3) == 1000;
    MillisAsReal(ms);
  }

  lemma MillisAsReal(ms: nat)
    ensures (ms / 1000) as real + (ms % 1000) as real / 1000.0 == ms as real / 1000.0
  {
    var w, f := ms / 1000, ms % 1000;
    assert w * 1000 + f == ms;
    assert (w as real) + (f as real) / 1000.0 == ((w * 1000 + f) as real) / 1000.0;
  }

  /** nginx's rendering of a latency holds no whitespace at all. */
  lemma FormatMillisNoSpace(ms: nat)
    ensures |FormatMillis(ms)| > 0
    ensures forall i :: 0 <= i < |FormatMillis(ms)| ==> !IsSpace(FormatMillis(ms)[i])
  {
    var whole, frac := NatToDigits(ms / 1000), ThreeDigits(ms % 1000);
    DigitsHaveNoDot(whole);
    DigitsHaveNoDot(frac);
    var f := FormatMillis(ms);
    assert Join([whole, frac], '.') == whole + ['.'] + frac by {
      assert [whole, frac][1..] == [frac];
    }
    forall i | 0 <= i < |f| ensures !IsSpace(f[i]) {
      if i < |whole| { assert f[i] == whole[i]; }
      else if i > |whole| { assert f[i] == frac[i - |whole| - 1]; }
    }
  }

  /** Stripping drops the newline after a token with no whitespace of its own. */
  lemma StripNewline(f: string)
    requires |f| > 0
    requires forall i :: 0 <= i < |f| ==> !IsSpace(f[i])
    ensures Strip(f + "\n") == f
  {
    var last := f + "\n";
    assert last[0] == f[0];
    assert LeadingSpaces(last) == 0;
    assert last[..|last| - 1] == f;
    assert TrailingSpaces(f) == 0;
    assert TrailingSpaces(last) == 1;
  }

  /** A bare digit string is read as the integer it denotes. */
  lemma ParseDecimalDigits(n: nat)
    ensures ParseDecimal(NatToDigits(n)) == Some(n as real)
  {
    var s := NatToDigits(n);
    DigitsHaveNoDot(s);
    SplitShape(s, '.');
    assert Occurrences(s, '.') == 0 by { OccurrencesAbsent(s, '.'); }
    DigitsRoundTrip(n);
  }

  lemma {:induction false} OccurrencesAbsent(s: string, c: char)
    requires c !in s
    ensures Occurrences(s, c) == 0
    decreases |s|
  {
    if |s| > 0 {
      assert c !in s[1..] by {
        forall i | 0 <= i < |s[1..]| ensures s[1..][i] != c { assert s[1..][i] == s[i + 1]; }
      }
      OccurrencesAbsent(s[1..], c);
    }
  }
}
