/**
 * The parts of C++ stream I/O the Matrix Market reader and writer rely on:
 * `getline` splitting a file into lines, formatted extraction (`>>`) of a
 * `char`, an `int` and a whitespace-delimited `string` from a string
 * stream, and the decimal text `<<` writes for an `int`.
 *
 * Extraction follows the C++11 rules: the sentry skips white space and
 * fails at the end of the text or once the stream has failed, leaving the
 * target unchanged; an integer whose digits are missing stores 0 and
 * fails the stream. The `int` range (overflow stores the limit and fails)
 * is not modelled.
 */
module Streams {
  import opened Results
  import opened FileNames

  /** The characters `isspace` accepts in the "C" locale. */
  predicate IsSpace(c: char) {
    c == ' ' || c == '\t' || c == '\n' || c == '\U{B}' || c == '\U{C}' || c == '\r'
  }

  predicate IsDigit(c: char) { '0' <= c <= '9' }

  /** Every character from `lo` up to `hi` is a digit. */
  predicate DigitsIn(text: string, lo: nat, hi: nat)
    requires lo <= hi <= |text|
  {
    forall k :: lo <= k < hi ==> IsDigit(text[k])
  }

  // ---------------------------------------------------------------------
  // getline
  // ---------------------------------------------------------------------

  /**
   * The lines successive `getline` calls return: the text between line
   * breaks, the last line without a break included; a final break does not
   * start another line.
   */
  function GetLines(text: string): (lines: seq<string>)
    ensures forall k :: 0 <= k < |lines| ==> '\n' !in lines[k]
    ensures text == [] <==> lines == []
    decreases |text|
  {
    if text == [] then []
    else match FirstIndexOf(text, '\n')
      case None => [text]
      case Some(p) => [text[..p]] + GetLines(text[p + 1..])
  }

  /** A line without a break, followed by a break, is the first line `getline` returns. */
  lemma GetLinesCons(line: string, rest: string)
    requires '\n' !in line
    ensures GetLines(line + "\n" + rest) == [line] + GetLines(rest)
  {
    var text := line + "\n" + rest;
    assert text[|line|] == '\n';
    assert FirstIndexOf(text, '\n') == Some(|line|);
    assert text[..|line|] == line;
    assert text[|line| + 1..] == rest;
  }

  /** What writing each line followed by `std::endl` puts in a file. */
  function JoinLines(lines: seq<string>): (text: string)
    ensures lines == [] <==> text == []
  {
    if lines == [] then "" else JoinLines(lines[..|lines| - 1]) + lines[|lines| - 1] + "\n"
  }

  /** Writing one more line appends it and its break. */
  lemma JoinLinesSnoc(lines: seq<string>, line: string)
    ensures JoinLines(lines + [line]) == JoinLines(lines) + line + "\n"
  {
    assert (lines + [line])[..|lines|] == lines;
  }

  lemma {:induction false} JoinLinesCons(lines: seq<string>)
    requires |lines| > 0
    ensures JoinLines(lines) == lines[0] + "\n" + JoinLines(lines[1..])
    decreases |lines|
  {
    var n := |lines|;
    if n == 1 {
      assert lines[..0] == [] && lines[1..] == [];
    } else {
      var init := lines[..n - 1];
      JoinLinesCons(init);
      assert init[0] == lines[0];
      assert lines[1..][..n - 2] == init[1..];
      assert lines[1..][n - 2] == lines[n - 1];
      calc {
        JoinLines(lines);
        JoinLines(init) + lines[n - 1] + "\n";
        lines[0] + "\n" + JoinLines(init[1..]) + lines[n - 1] + "\n";
        lines[0] + "\n" + (JoinLines(lines[1..][..n - 2]) + lines[1..][n - 2] + "\n");
        lines[0] + "\n" + JoinLines(lines[1..]);
      }
    }
  }

  /** `getline` reads back, one by one, the lines written with `std::endl` after each. */
  lemma {:induction false} GetLinesJoinLines(lines: seq<string>)
    requires forall k :: 0 <= k < |lines| ==> '\n' !in lines[k]
    ensures GetLines(JoinLines(lines)) == lines
    decreases |lines|
  {
    if lines != [] {
      JoinLinesCons(lines);
      GetLinesCons(lines[0], JoinLines(lines[1..]));
      GetLinesJoinLines(lines[1..]);
    }
  }

  // ---------------------------------------------------------------------
  // Formatted extraction from a string stream
  // ---------------------------------------------------------------------

  /** A string stream: its text, the read position, and whether it has failed. */
  datatype Stream = Stream(text: string, pos: nat, failed: bool) {
    ghost predicate Valid() { pos <= |text| }
  }

  /** A fresh string stream over `text` (`std::stringstream iss(text)`, or `clear` then `str(text)`). */
  function Open(text: string): (s: Stream)
    ensures s.Valid() && !s.failed && s.text == text && s.pos == 0
  {
    Stream(text, 0, false)
  }

  /** The first position at or after `pos` that does not hold white space. */
  function SkipSpace(text: string, pos: nat): (r: nat)
    requires pos <= |text|
    ensures pos <= r <= |text|
    ensures forall k :: pos <= k < r ==> IsSpace(text[k])
    ensures r == |text| || !IsSpace(text[r])
    decreases |text| - pos
  {
    if pos == |text| || !IsSpace(text[pos]) then pos else SkipSpace(text, pos + 1)
  }

  /** The end of the run of digits that starts at `pos`. */
  function DigitsEnd(text: string, pos: nat): (r: nat)
    requires pos <= |text|
    ensures pos <= r <= |text|
    ensures DigitsIn(text, pos, r)
    ensures r == |text| || !IsDigit(text[r])
    decreases |text| - pos
  {
    if pos == |text| || !IsDigit(text[pos]) then pos else DigitsEnd(text, pos + 1)
  }

  /** The end of the run of non-space characters that starts at `pos`. */
  function TokenEnd(text: string, pos: nat): (r: nat)
    requires pos <= |text|
    ensures pos <= r <= |text|
    ensures forall k :: pos <= k < r ==> !IsSpace(text[k])
    ensures r == |text| || IsSpace(text[r])
    decreases |text| - pos
  {
    if pos == |text| || IsSpace(text[pos]) then pos else TokenEnd(text, pos + 1)
  }

  function DigitValue(c: char): (d: nat)
    requires IsDigit(c)
    ensures d < 10
  {
    (c as int) - ('0' as int)
  }

  /** The number the decimal digits from `lo` up to `hi` denote. */
  function ValueOf(text: string, lo: nat, hi: nat): nat
    requires lo <= hi <= |text| && DigitsIn(text, lo, hi)
    decreases hi
  {
    if hi == lo then 0 else ValueOf(text, lo, hi - 1) * 10 + DigitValue(text[hi - 1])
  }

  /** Equal digits denote equal numbers, wherever they sit. */
  lemma {:induction false} ValueOfShift(a: string, i: nat, b: string, j: nat, len: nat)
    requires i + len <= |a| && j + len <= |b| && DigitsIn(a, i, i + len)
    requires forall k :: i <= k < i + len ==> a[k] == b[k - i + j]
    ensures DigitsIn(b, j, j + len) && ValueOf(a, i, i + len) == ValueOf(b, j, j + len)
  {
    forall k | j <= k < j + len ensures IsDigit(b[k]) {
      assert a[k - j + i] == b[k];
    }
    if len > 0 {
      ValueOfShift(a, i, b, j, len - 1);
      assert a[i + len - 1] == b[j + len - 1];
    }
  }

  /** `in >> c` for a `char`: the next character that is not white space. */
  function ExtractChar(s: Stream, current: char): (r: (Stream, char))
    requires s.Valid()
    ensures r.0.Valid() && r.0.text == s.text
    ensures s.failed ==> r == (s, current)
    ensures !r.0.failed ==> r.0.pos > s.pos && !IsSpace(r.1) && r.1 == s.text[r.0.pos - 1]
    ensures r.0.failed ==> r.1 == current
  {
    if s.failed then (s, current)
    else
      var p := SkipSpace(s.text, s.pos);
      if p == |s.text| then (Stream(s.text, p, true), current)
      else (Stream(s.text, p + 1, false), s.text[p])
  }

  /** `in >> n` for an `int`: an optional sign and a run of digits; no digits stores 0 and fails. */
  function ExtractInt(s: Stream, current: int): (r: (Stream, int))
    requires s.Valid()
    ensures r.0.Valid() && r.0.text == s.text
    ensures s.failed ==> r == (s, current)
    ensures !r.0.failed ==> r.0.pos > s.pos && (r.0.pos == |s.text| || !IsDigit(s.text[r.0.pos]))
  {
    if s.failed then (s, current)
    else
      var p := SkipSpace(s.text, s.pos);
      if p == |s.text| then (Stream(s.text, p, true), current)
      else
        var negative := s.text[p] == '-';
        var q := if s.text[p] == '-' || s.text[p] == '+' then p + 1 else p;
        var e := DigitsEnd(s.text, q);
        if e == q then (Stream(s.text, q, true), 0)
        else
          var v: int := ValueOf(s.text, q, e);
          (Stream(s.text, e, false), if negative then -v else v)
  }

  /** `in >> str` for a `string`: the next run of non-space characters. */
  function ExtractToken(s: Stream, current: string): (r: (Stream, string))
    requires s.Valid()
    ensures r.0.Valid() && r.0.text == s.text
    ensures s.failed ==> r == (s, current)
    ensures !r.0.failed ==> |r.1| > 0 && (forall k :: 0 <= k < |r.1| ==> !IsSpace(r.1[k]))
    ensures r.0.failed ==> r.1 == current
  {
    if s.failed then (s, current)
    else
      var p := SkipSpace(s.text, s.pos);
      if p == |s.text| then (Stream(s.text, p, true), current)
      else
        var e := TokenEnd(s.text, p);
        (Stream(s.text, e, false), s.text[p..e])
  }

  // ---------------------------------------------------------------------
  // Decimal output
  // ---------------------------------------------------------------------

  function DigitChar(d: nat): (c: char)
    requires d < 10
    ensures IsDigit(c) && DigitValue(c) == d
  {
    ('0' as int + d) as char
  }

  /** The digits `<<` writes for a natural number. */
  function NatToString(n: nat): (s: string)
    ensures |s| >= 1 && DigitsIn(s, 0, |s|)
    ensures ValueOf(s, 0, |s|) == n
  {
    if n < 10 then [DigitChar(n)]
    else
      var t := NatToString(n / 10);
      var s := t + [DigitChar(n % 10)];
      ValueOfShift(t, 0, s, 0, |t|);
      s
  }

  /** `s` is the decimal text of `n`: a minus sign exactly when `n` is negative, then at least one digit, denoting `|n|`. */
  predicate Numeral(s: string, n: int) {
    var start := if n < 0 then 1 else 0;
    start < |s| && (n < 0 <==> s[0] == '-') &&
    DigitsIn(s, start, |s|) && ValueOf(s, start, |s|) == if n < 0 then -n else n
  }

  /** What `out << n` writes for an `int`: a minus sign for a negative number, then its digits. */
  function IntToString(n: int): (s: string)
    ensures Numeral(s, n)
  {
    if n < 0 then
      var t := NatToString(-n);
      var s := "-" + t;
      ValueOfShift(t, 0, s, 1, |t|);
      s
    else NatToString(n)
  }

  /**
   * Extraction reads back what output wrote: from `start`, across white
   * space, the text `s` of `n` at `p` followed by white space or the end
   * of the text extracts as `n`.
   */
  lemma ExtractIntReadsNumeral(text: string, start: nat, p: nat, s: string, n: int, current: int)
    requires Numeral(s, n)
    requires start <= p && p + |s| <= |text|
    requires forall k :: start <= k < p ==> IsSpace(text[k])
    requires text[p..p + |s|] == s
    requires p + |s| == |text| || IsSpace(text[p + |s|])
    ensures ExtractInt(Stream(text, start, false), current) == (Stream(text, p + |s|, false), n)
  {
    var d := if n < 0 then 1 else 0;
    var e := p + |s|;
    assert text[p] == s[0];
    assert !IsSpace(text[p]) by {
      if n >= 0 { assert IsDigit(s[0]); }
    }
    SkipSpacePast(text, start, p);
    var q := p + d;
    forall k | d <= k < |s| ensures s[k] == text[k - d + q] {
      assert text[p..e][k] == text[k - d + q];
    }
    ValueOfShift(s, d, text, q, |s| - d);
    DigitsEndOfRun(text, q, e);
    ExtractIntAt(text, start, p, q, e, n, current);
  }

  /** Extraction of a string reads back a token: across white space from `start`, a run of non-space characters at `p` ending at white space or at the end of the text. */
  lemma ExtractTokenReadsToken(text: string, start: nat, p: nat, token: string, current: string)
    requires start <= p && p + |token| <= |text|
    requires forall k :: start <= k < p ==> IsSpace(text[k])
    requires |token| > 0 && forall k :: 0 <= k < |token| ==> !IsSpace(token[k])
    requires text[p..p + |token|] == token
    requires p + |token| == |text| || IsSpace(text[p + |token|])
    ensures ExtractToken(Stream(text, start, false), current) == (Stream(text, p + |token|, false), token)
  {
    var e := p + |token|;
    assert text[p] == token[0];
    SkipSpacePast(text, start, p);
    forall k | p <= k < e ensures !IsSpace(text[k]) {
      assert text[k] == text[p..e][k - p];
    }
    TokenEndOfRun(text, p, e);
  }

  /** One extraction, unfolded: the sign, the digits and the value they denote. */
  lemma ExtractIntAt(text: string, start: nat, p: nat, q: nat, e: nat, n: int, current: int)
    requires start <= p < |text| && SkipSpace(text, start) == p
    requires n < 0 ==> text[p] == '-' && q == p + 1
    requires n >= 0 ==> IsDigit(text[p]) && q == p
    requires q < e <= |text| && DigitsEnd(text, q) == e
    requires DigitsIn(text, q, e) && ValueOf(text, q, e) == if n < 0 then -n else n
    ensures ExtractInt(Stream(text, start, false), current) == (Stream(text, e, false), n)
  {
  }

  lemma {:induction false} SkipSpacePast(text: string, pos: nat, r: nat)
    requires pos <= r < |text| && !IsSpace(text[r])
    requires forall k :: pos <= k < r ==> IsSpace(text[k])
    ensures SkipSpace(text, pos) == r
    decreases r - pos
  {
    if pos < r {
      SkipSpacePast(text, pos + 1, r);
    }
  }

  lemma {:induction false} DigitsEndOfRun(text: string, pos: nat, e: nat)
    requires pos <= e <= |text| && DigitsIn(text, pos, e)
    requires e == |text| || !IsDigit(text[e])
    ensures DigitsEnd(text, pos) == e
    decreases e - pos
  {
    if pos < e {
      DigitsEndOfRun(text, pos + 1, e);
    }
  }

  lemma {:induction false} TokenEndOfRun(text: string, pos: nat, e: nat)
    requires pos <= e <= |text| && forall k :: pos <= k < e ==> !IsSpace(text[k])
    requires e == |text| || IsSpace(text[e])
    ensures TokenEnd(text, pos) == e
    decreases e - pos
  {
    if pos < e {
      TokenEndOfRun(text, pos + 1, e);
    }
  }
}
