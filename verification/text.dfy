/** The handful of Python string operations the reconciliation workflow relies on:
    substring membership (`needle in hay`), `str.split(sep)`, `str.splitlines()`
    and `str.lower()`, each with a specification independent of its definition. */
module Text {

  // ---------------------------------------------------------------------------
  // Substring membership
  // ---------------------------------------------------------------------------

  /** `needle` occurs in `hay` starting at index `i`. */
  ghost predicate OccursAt(hay: string, needle: string, i: int) {
    0 <= i && i + |needle| <= |hay| && hay[i..i + |needle|] == needle
  }

  /** Python's `needle in hay` for strings. */
  function Contains(hay: string, needle: string): (found: bool)
    ensures found <==> exists i :: OccursAt(hay, needle, i)
    decreases |hay|
  {
    if |hay| < |needle| then false
    else if hay[..|needle|] == needle then
      assert OccursAt(hay, needle, 0);
      true
    else
      ShiftOccurrence(hay, needle);
      Contains(hay[1..], needle)
  }

  /** Dropping the first character shifts every occurrence after index 0 one place left. */
  lemma ShiftOccurrence(hay: string, needle: string)
    requires |needle| <= |hay| && hay[..|needle|] != needle
    ensures (exists i :: OccursAt(hay, needle, i)) <==> (exists i :: OccursAt(hay[1..], needle, i))
  {
    if exists i :: OccursAt(hay, needle, i) {
      var i :| OccursAt(hay, needle, i);
      assert i != 0;
      assert hay[1..][i - 1..i - 1 + |needle|] == hay[i..i + |needle|];
      assert OccursAt(hay[1..], needle, i - 1);
    }
    if exists i :: OccursAt(hay[1..], needle, i) {
      var i :| OccursAt(hay[1..], needle, i);
      assert hay[1..][i..i + |needle|] == hay[i + 1..i + 1 + |needle|];
      assert OccursAt(hay, needle, i + 1);
    }
  }

  // ---------------------------------------------------------------------------
  // str.split(sep) and its inverse sep.join(parts)
  // ---------------------------------------------------------------------------

  /** Python's `sep.join(parts)` for a one-character separator. */
  function Join(parts: seq<string>, sep: char): string
  {
    if |parts| == 0 then []
    else if |parts| == 1 then parts[0]
    else parts[0] + [sep] + Join(parts[1..], sep)
  }

  /** Python's `s.split(sep)`: every occurrence of `sep` ends a part, so the
      result always has one more part than `s` has separators. */
  function Split(s: string, sep: char): (parts: seq<string>)
    ensures |parts| >= 1
    ensures forall k :: 0 <= k < |parts| ==> sep !in parts[k]
    ensures Join(parts, sep) == s
  {
    if s == [] then [[]]
    else
      var tail := Split(s[1..], sep);
      if s[0] == sep then
        assert ([[]] + tail)[1..] == tail;
        [[]] + tail
      else
        var parts := [[s[0]] + tail[0]] + tail[1..];
        assert parts[1..] == tail[1..];
        assert |tail| > 1 ==> Join(tail, sep) == tail[0] + [sep] + Join(tail[1..], sep);
        assert s == [s[0]] + s[1..];
        parts
  }

  /** A separator-free string is a single part. */
  lemma {:induction false} SplitWithoutSeparator(s: string, sep: char)
    requires sep !in s
    ensures Split(s, sep) == [s]
    decreases |s|
  {
    if s != [] {
      SplitWithoutSeparator(s[1..], sep);
      assert [s[0]] + s[1..] == s;
    }
  }

  /** A separator splits the string into the parts before it and the parts after it. */
  lemma {:induction false} SplitAround(a: string, sep: char, b: string)
    ensures Split(a + [sep] + b, sep) == Split(a, sep) + Split(b, sep)
    decreases |a|
  {
    var s := a + [sep] + b;
    if a == [] {
      assert s[1..] == b;
    } else {
      assert s[1..] == a[1..] + [sep] + b;
      SplitAround(a[1..], sep, b);
      var pa, pb := Split(a[1..], sep), Split(b, sep);
      SplitCons(s, sep, Split(s, sep), Split(s[1..], sep));
      SplitCons(a, sep, Split(a, sep), pa);
      ConsParts(a[0], sep, Split(s, sep), Split(a, sep), pa, pb);
    }
  }

  /** Prefixing a character to `pa + pb` affects only the parts of `pa`. */
  lemma ConsParts(c: char, sep: char, whole: seq<string>, aParts: seq<string>, pa: seq<string>, pb: seq<string>)
    requires |pa| >= 1
    requires whole == if c == sep then [[]] + (pa + pb) else [[c] + (pa + pb)[0]] + (pa + pb)[1..]
    requires aParts == if c == sep then [[]] + pa else [[c] + pa[0]] + pa[1..]
    ensures whole == aParts + pb
  {
    if c != sep {
      assert (pa + pb)[0] == pa[0] && (pa + pb)[1..] == pa[1..] + pb;
    }
  }

  /** One step of splitting: the first character either ends an empty first
      part or starts the first part of the rest. */
  lemma SplitCons(s: string, sep: char, parts: seq<string>, tail: seq<string>)
    requires s != [] && parts == Split(s, sep) && tail == Split(s[1..], sep)
    ensures parts == if s[0] == sep then [[]] + tail else [[s[0]] + tail[0]] + tail[1..]
  {
  }

  /** Splitting undoes joining separator-free parts. */
  lemma {:induction false} SplitJoin(parts: seq<string>, sep: char)
    requires |parts| >= 1
    requires forall k :: 0 <= k < |parts| ==> sep !in parts[k]
    ensures Split(Join(parts, sep), sep) == parts
    decreases |parts|
  {
    SplitWithoutSeparator(parts[0], sep);
    if |parts| > 1 {
      SplitJoin(parts[1..], sep);
      SplitAround(parts[0], sep, Join(parts[1..], sep));
      assert [parts[0]] + parts[1..] == parts;
    }
  }

  /** Python's `s.split('/')[-1]`: the text after the last slash. */
  function LastSegment(s: string): string
  {
    var parts := Split(s, '/');
    parts[|parts| - 1]
  }

  /** The joined string ends with its last part, preceded by the separator when
      there is more than one part. */
  lemma {:induction false} JoinEndsWithLast(parts: seq<string>, sep: char)
    requires |parts| >= 1
    ensures var last := parts[|parts| - 1]; var s := Join(parts, sep);
      |last| <= |s| && s[|s| - |last|..] == last
      && (|parts| > 1 ==> |last| < |s| && s[|s| - |last| - 1] == sep)
    decreases |parts|
  {
    if |parts| > 1 {
      JoinEndsWithLast(parts[1..], sep);
    }
  }

  /** `LastSegment` is the slash-free suffix of `s` that is either all of `s` or
      directly preceded by a slash. */
  lemma LastSegmentIsFinalComponent(s: string)
    ensures var r := LastSegment(s);
      '/' !in r && |r| <= |s| && s[|s| - |r|..] == r
      && (|r| < |s| ==> s[|s| - |r| - 1] == '/')
  {
    var parts := Split(s, '/');
    JoinEndsWithLast(parts, '/');
    if |parts| == 1 {
      assert LastSegment(s) == s;
    }
  }

  /** For a resource path `prefix/leaf` with a slash-free `leaf`, the last segment is `leaf`. */
  lemma LastSegmentOfPath(prefix: string, leaf: string)
    requires '/' !in leaf
    ensures LastSegment(prefix + "/" + leaf) == leaf
  {
    SplitAround(prefix, '/', leaf);
    SplitWithoutSeparator(leaf, '/');
  }

  // ---------------------------------------------------------------------------
  // str.splitlines()
  // ---------------------------------------------------------------------------

  /** The characters Python's `str.splitlines` treats as line boundaries. */
  predicate IsLineBoundary(c: char) {
    c == '\n' || c == '\r' || c == '\U{B}' || c == '\U{C}' || c == '\U{1C}' || c == '\U{1D}'
    || c == '\U{1E}' || c == '\U{85}' || c == '\U{2028}' || c == '\U{2029}'
  }

  /** A string holding no line boundary: one line of text. */
  predicate IsLine(s: string) {
    forall k :: 0 <= k < |s| ==> !IsLineBoundary(s[k])
  }

  /** Length of the first line of `s`: the index of its first boundary, or `|s|`. */
  function LineLength(s: string): (n: nat)
    ensures n <= |s| && IsLine(s[..n])
    ensures n < |s| ==> IsLineBoundary(s[n])
  {
    if s == [] || IsLineBoundary(s[0]) then 0
    else
      var n := 1 + LineLength(s[1..]);
      assert s[..n] == [s[0]] + s[1..][..n - 1];
      n
  }

  /** Index just past the boundary at `n`; `\r\n` counts as a single boundary. */
  function BreakEnd(s: string, n: nat): (e: nat)
    requires n < |s|
    ensures n < e <= |s|
  {
    if s[n] == '\r' && n + 1 < |s| && s[n + 1] == '\n' then n + 2 else n + 1
  }

  /** Python's `s.splitlines()`: the lines of `s` without their boundaries; a final
      boundary does not open an empty last line. */
  function SplitLines(s: string): (lines: seq<string>)
    ensures forall k :: 0 <= k < |lines| ==> IsLine(lines[k])
    decreases |s|
  {
    if s == [] then []
    else
      var n := LineLength(s);
      if n == |s| then [s]
      else [s[..n]] + SplitLines(s[BreakEnd(s, n)..])
  }

  /** Each line followed by a newline: what a line-per-record command prints. */
  function Unlines(lines: seq<string>): string
  {
    if lines == [] then [] else lines[0] + "\n" + Unlines(lines[1..])
  }

  /** The first line of `line + rest` is `line` when `rest` starts with a boundary. */
  lemma {:induction false} LineLengthAtBoundary(line: string, rest: string)
    requires IsLine(line) && rest != [] && IsLineBoundary(rest[0])
    ensures LineLength(line + rest) == |line|
    decreases |line|
  {
    var s := line + rest;
    if line != [] {
      assert s[1..] == line[1..] + rest;
      LineLengthAtBoundary(line[1..], rest);
    } else {
      assert s[0] == rest[0];
    }
  }

  /** One line boundary as `splitlines` consumes it: a single boundary
      character, or `\r\n` taken together. */
  predicate IsBreak(b: string) {
    b == "\r\n" || (|b| == 1 && IsLineBoundary(b[0]))
  }

  /** A line, one boundary and the rest split into that line followed by the
      lines of the rest. A lone `\r` directly before `\n` is the `\r\n` case. */
  lemma SplitLinesBreak(line: string, brk: string, rest: string)
    requires IsLine(line) && IsBreak(brk)
    requires brk == "\r" ==> rest == [] || rest[0] != '\n'
    ensures SplitLines(line + brk + rest) == [line] + SplitLines(rest)
  {
    var s := line + brk + rest;
    var n := |line|;
    assert s == line + (brk + rest);
    LineLengthAtBoundary(line, brk + rest);
    assert s[..n] == line;
    assert s[n] == brk[0];
    if brk == "\r\n" {
      assert s[n + 1] == '\n';
    } else if n + 1 < |s| {
      assert s[n + 1] == rest[0];
    }
    assert BreakEnd(s, n) == n + |brk|;
    assert s[n + |brk|..] == rest;
  }

  /** A non-empty text without boundaries is a single line, and an empty text has no lines. */
  lemma SplitLinesOfLine(s: string)
    requires IsLine(s)
    ensures SplitLines(s) == if s == [] then [] else [s]
  {
  }

  /** `splitlines` recovers the records of a newline-terminated listing. */
  lemma {:induction false} SplitLinesUnlines(lines: seq<string>)
    requires forall k :: 0 <= k < |lines| ==> IsLine(lines[k])
    ensures SplitLines(Unlines(lines)) == lines
    decreases |lines|
  {
    if lines != [] {
      var rest := Unlines(lines[1..]);
      var s := Unlines(lines);
      assert s == lines[0] + "\n" + rest;
      assert s == lines[0] + ("\n" + rest);
      LineLengthAtBoundary(lines[0], "\n" + rest);
      var n := |lines[0]|;
      assert s[n] == '\n';
      assert s[..n] == lines[0];
      assert s[n + 1..] == rest;
      SplitLinesUnlines(lines[1..]);
      assert [lines[0]] + lines[1..] == lines;
    }
  }

  // ---------------------------------------------------------------------------
  // str.lower()
  // ---------------------------------------------------------------------------

  /** Lower-case of one character (ASCII letters only). */
  function LowerChar(c: char): char {
    if 'A' <= c <= 'Z' then (c as int - 'A' as int + 'a' as int) as char else c
  }

  /** `s.lower()` restricted to ASCII letters. */
  function Lower(s: string): (r: string)
    ensures |r| == |s|
    ensures forall k :: 0 <= k < |s| ==> r[k] == LowerChar(s[k])
  {
    if s == [] then [] else [LowerChar(s[0])] + Lower(s[1..])
  }

  /** Exactly "y" and "Y" lower-case to "y". */
  lemma LowerIsY(s: string)
    ensures Lower(s) == "y" <==> s == "y" || s == "Y"
  {
    if Lower(s) == "y" {
      assert |s| == 1 && LowerChar(s[0]) == 'y';
    }
  }
}
