/** The `chunk` command's own logic: how many lines each chunk spans, the
    1-based inclusive line range attributed to each chunk, and the name and
    header of the file each chunk is written to. The chunk boundaries
    themselves come from an external text splitter and are an input here. */
module Chunking {

  // ---------------------------------------------------------------------
  // Line counting (Rust's `str::lines().count()`)
  // ---------------------------------------------------------------------

  /** Number of '\n' characters in `s`: at most one per character, and at
      least one when `s` ends in '\n'. */
  function NewlineCount(s: string): (n: nat)
    ensures n <= |s|
    ensures s != [] && s[|s| - 1] == '\n' ==> n > 0
    ensures s != [] && s[|s| - 1] != '\n' ==> n < |s|
  {
    if s == [] then 0
    else
      assert |s| > 1 ==> s[1..][|s| - 2] == s[|s| - 1];
      (if s[0] == '\n' then 1 else 0) + NewlineCount(s[1..])
  }

  /** The number of lines `str::lines()` yields: every '\n' ends a line, and a
      non-empty tail after the last '\n' is one more line. A trailing line
      ending adds no empty line, and the empty string has no lines. */
  function LineCount(s: string): (n: nat)
    ensures n <= |s|
    ensures n == 0 <==> s == []
  {
    NewlineCount(s) + (if s != [] && s[|s| - 1] != '\n' then 1 else 0)
  }

  /** Reference definition of the lines themselves: `s` cut after every '\n'
      (the pieces keep their line endings, as `split_inclusive('\n')`, on
      which `str::lines` is built, does). */
  function SplitLines(s: string): seq<string>
  {
    if s == [] then []
    else
      var rest := SplitLines(s[1..]);
      if s[0] == '\n' || rest == [] then [[s[0]]] + rest
      else [[s[0]] + rest[0]] + rest[1..]
  }

  function Concat(pieces: seq<string>): string
  {
    if pieces == [] then [] else pieces[0] + Concat(pieces[1..])
  }

  /** A well-formed line: non-empty, with a '\n' at most at its very end. */
  predicate IsLine(l: string)
  {
    |l| > 0 && forall k :: 0 <= k < |l| - 1 ==> l[k] != '\n'
  }

  predicate EndsWithNewline(l: string)
  {
    |l| > 0 && l[|l| - 1] == '\n'
  }

  /** Splitting into lines loses nothing: the lines put back together give `s`. */
  lemma {:induction false} SplitLinesConcat(s: string)
    ensures Concat(SplitLines(s)) == s
  {
    if s != [] {
      var rest := SplitLines(s[1..]);
      SplitLinesConcat(s[1..]);
      if s[0] == '\n' || rest == [] {
        assert Concat(SplitLines(s)) == [s[0]] + Concat(rest);
      } else {
        assert Concat(rest) == rest[0] + Concat(rest[1..]);
        assert Concat(SplitLines(s)) == ([s[0]] + rest[0]) + Concat(rest[1..]);
      }
      assert [s[0]] + s[1..] == s;
    }
  }

  /** Every piece is a line, and every piece but the last ends in '\n'. */
  lemma {:induction false} SplitLinesShape(s: string)
    ensures forall i :: 0 <= i < |SplitLines(s)| ==> IsLine(SplitLines(s)[i])
    ensures forall i :: 0 <= i < |SplitLines(s)| - 1 ==> EndsWithNewline(SplitLines(s)[i])
  {
    if s != [] {
      var rest := SplitLines(s[1..]);
      SplitLinesShape(s[1..]);
      if !(s[0] == '\n' || rest == []) {
        var first := [s[0]] + rest[0];
        assert IsLine(rest[0]);
        assert forall k :: 1 <= k < |first| ==> first[k] == rest[0][k - 1];
        assert IsLine(first);
        if |rest| > 1 {
          assert first[|first| - 1] == rest[0][|rest[0]| - 1];
        }
      }
    }
  }

  /** `LineCount` counts exactly the lines of the reference split. */
  lemma {:induction false} LineCountIsNumberOfLines(s: string)
    ensures LineCount(s) == |SplitLines(s)|
  {
    if s != [] {
      var t := s[1..];
      LineCountIsNumberOfLines(t);
      if t != [] {
        assert s[|s| - 1] == t[|t| - 1];
      }
    }
  }

  // ---------------------------------------------------------------------
  // Line ranges (the `scan` over the chunks)
  // ---------------------------------------------------------------------

  /** A 1-based inclusive line range. A chunk without lines gets
      `end == start - 1`. */
  datatype LineRange = LineRange(start: nat, end: nat)

  /** Total number of lines of the first `i` chunks. */
  function LinesBefore(chunks: seq<string>, i: nat): nat
    requires i <= |chunks|
  {
    if i == 0 then 0 else LinesBefore(chunks, i - 1) + LineCount(chunks[i - 1])
  }

  /** The range attributed to chunk `i`: it starts one line past the lines of
      all earlier chunks and ends after the chunk's own lines. */
  function RangeOf(chunks: seq<string>, i: nat): LineRange
    requires i < |chunks|
  {
    LineRange(LinesBefore(chunks, i) + 1, LinesBefore(chunks, i + 1))
  }

  /** The running-accumulator scan that attributes line ranges to chunks. */
  method LineRanges(chunks: seq<string>) returns (ranges: seq<LineRange>)
    ensures |ranges| == |chunks|
    ensures forall i :: 0 <= i < |chunks| ==> ranges[i] == RangeOf(chunks, i)
    ensures |chunks| > 0 ==> ranges[0].start == 1
    ensures forall i :: 0 <= i < |chunks| ==> ranges[i].end == LinesBefore(chunks, i + 1)
    ensures forall i :: 0 <= i < |chunks| ==>
              ranges[i].end + 1 - ranges[i].start == LineCount(chunks[i])
    ensures forall i, j :: 0 <= i < |chunks| && j == i + 1 < |chunks| ==> ranges[j].start == ranges[i].end + 1
  {
    var acc := 0;
    ranges := [];
    for i := 0 to |chunks|
      invariant |ranges| == i
      invariant acc == LinesBefore(chunks, i)
      invariant forall k :: 0 <= k < i ==> ranges[k] == RangeOf(chunks, k)
    {
      var lines := LineCount(chunks[i]);
      var start := acc + 1;
      acc := acc + lines;
      ranges := ranges + [LineRange(start, acc)];
    }
    assert |chunks| > 0 ==> LinesBefore(chunks, 0) == 0;
  }

  // ---------------------------------------------------------------------
  // Decimal formatting of `usize` (the `{}` of `format!`)
  // ---------------------------------------------------------------------

  predicate IsDigit(c: char)
  {
    '0' as int <= c as int <= '9' as int
  }

  function DigitChar(d: nat): (c: char)
    requires d < 10
    ensures IsDigit(c) && c as int - '0' as int == d
  {
    ('0' as int + d) as char
  }

  /** `n` in decimal, without leading zeros. */
  function Decimal(n: nat): (s: string)
    ensures |s| > 0 && forall k :: 0 <= k < |s| ==> IsDigit(s[k])
    ensures s[0] == '0' ==> n == 0
  {
    if n < 10 then [DigitChar(n)] else Decimal(n / 10) + [DigitChar(n % 10)]
  }

  /** Reads a string of decimal digits back into a number. */
  function ParseDecimal(s: string): nat
    requires forall k :: 0 <= k < |s| ==> IsDigit(s[k])
  {
    if s == [] then 0
    else
      assert IsDigit(s[|s| - 1]);
      10 * ParseDecimal(s[..|s| - 1]) + (s[|s| - 1] as int - '0' as int)
  }

  lemma {:induction false} DecimalRoundTrip(n: nat)
    ensures ParseDecimal(Decimal(n)) == n
  {
    if n >= 10 {
      var s := Decimal(n);
      assert s[..|s| - 1] == Decimal(n / 10);
      DecimalRoundTrip(n / 10);
    }
  }

  lemma DecimalInjective(m: nat, n: nat)
    requires Decimal(m) == Decimal(n)
    ensures m == n
  {
    DecimalRoundTrip(m);
    DecimalRoundTrip(n);
  }

  // ---------------------------------------------------------------------
  // Chunk files
  // ---------------------------------------------------------------------

  datatype ChunkFile = ChunkFile(name: string, content: string)

  /** `<base>-<ordinal>.<ext>` */
  function ChunkFileName(base: string, ext: string, ordinal: nat): string
  {
    base + "-" + Decimal(ordinal) + "." + ext
  }

  /** A chunk file name is the base name and a dash, then the ordinal in
      decimal, which reads back, then a dot and the extension. */
  lemma ChunkFileNameShape(base: string, ext: string, ordinal: nat)
    ensures var name := ChunkFileName(base, ext, ordinal);
            |name| > |base| + 1 + |ext| + 1
            && name[..|base| + 1] == base + "-"
            && name[|name| - |ext| - 1..] == "." + ext
            && var digits := name[|base| + 1..|name| - |ext| - 1];
               (forall k :: 0 <= k < |digits| ==> IsDigit(digits[k])) && ParseDecimal(digits) == ordinal
  {
    var digits := Decimal(ordinal);
    var name := base + "-" + digits + "." + ext;
    assert name[|base| + 1..|name| - |ext| - 1] == digits;
    DecimalRoundTrip(ordinal);
  }

  /** `From <base>, lines <start> - <end>` followed by a blank line. */
  function ChunkHeader(base: string, range: LineRange): string
  {
    "From " + base + ", lines " + RangeText(range) + "\n\n"
  }

  /** A header starts with `From <base>, lines ` and ends with a blank line. */
  lemma ChunkHeaderShape(base: string, range: LineRange)
    ensures var h := ChunkHeader(base, range);
            |h| > 5 + |base| + 8 + 2
            && h[..5 + |base| + 8] == "From " + base + ", lines "
            && h[|h| - 2..] == "\n\n"
  {
  }

  /** `<start> - <end>` */
  function RangeText(range: LineRange): string
  {
    Decimal(range.start) + " - " + Decimal(range.end)
  }

  /** Where two digit strings differ in length, the texts made of each
      followed by a non-digit differ at the end of the shorter one. */
  lemma DigitRunLength(d1: string, x: string, d2: string, y: string)
    requires forall k :: 0 <= k < |d1| ==> IsDigit(d1[k])
    requires forall k :: 0 <= k < |d2| ==> IsDigit(d2[k])
    requires x != [] && !IsDigit(x[0]) && y != [] && !IsDigit(y[0])
    ensures d1 + x == d2 + y ==> |d1| == |d2|
  {
    if |d1| < |d2| {
      assert (d1 + x)[|d1|] != (d2 + y)[|d1|];
    } else if |d2| < |d1| {
      assert (d1 + x)[|d2|] != (d2 + y)[|d2|];
    }
  }

  /** A decimal number followed by text that does not start with a digit
      can be read off unambiguously: the number and the text are determined. */
  lemma DecimalPrefixInjective(m: nat, x: string, n: nat, y: string)
    requires x != [] && !IsDigit(x[0]) && y != [] && !IsDigit(y[0])
    requires Decimal(m) + x == Decimal(n) + y
    ensures m == n && x == y
  {
    var d1, d2 := Decimal(m), Decimal(n);
    DigitRunLength(d1, x, d2, y);
    assert d1 == (d1 + x)[..|d1|] && d2 == (d2 + y)[..|d2|];
    assert x == (d1 + x)[|d1|..] && y == (d2 + y)[|d2|..];
    DecimalInjective(m, n);
  }

  lemma RangeTextSplit(r: LineRange)
    ensures RangeText(r) + "\n\n" == Decimal(r.start) + (" - " + (Decimal(r.end) + "\n\n"))
  {
  }

  /** The text of a range, followed by a line ending, determines the range. */
  lemma RangeTextInjective(r1: LineRange, r2: LineRange)
    requires RangeText(r1) + "\n\n" == RangeText(r2) + "\n\n"
    ensures r1 == r2
  {
    var y1, y2 := Decimal(r1.end) + "\n\n", Decimal(r2.end) + "\n\n";
    var x1, x2 := " - " + y1, " - " + y2;
    RangeTextSplit(r1);
    RangeTextSplit(r2);
    DecimalPrefixInjective(r1.start, x1, r2.start, x2);
    assert y1 == x1[3..] && y2 == x2[3..];
    DecimalPrefixInjective(r1.end, "\n\n", r2.end, "\n\n");
  }

  /** The header of a chunk file determines the line range it announces. */
  lemma ChunkHeaderInjective(base: string, r1: LineRange, r2: LineRange)
    requires ChunkHeader(base, r1) == ChunkHeader(base, r2)
    ensures r1 == r2
  {
    var p := "From " + base + ", lines ";
    var t1, t2 := RangeText(r1) + "\n\n", RangeText(r2) + "\n\n";
    assert ChunkHeader(base, r1) == p + t1 && ChunkHeader(base, r2) == p + t2;
    assert t1 == (p + t1)[|p|..] && t2 == (p + t2)[|p|..];
    RangeTextInjective(r1, r2);
  }

  /** Two chunks of the same document never get the same file name, so no
      chunk file overwrites another. */
  lemma ChunkFileNamesDistinct(base: string, ext: string, i: nat, j: nat)
    requires ChunkFileName(base, ext, i) == ChunkFileName(base, ext, j)
    ensures i == j
  {
    var p := base + "-";
    var a, b := ChunkFileName(base, ext, i), ChunkFileName(base, ext, j);
    assert a == p + Decimal(i) + ("." + ext);
    assert b == p + Decimal(j) + ("." + ext);
    assert |Decimal(i)| == |Decimal(j)|;
    assert Decimal(i) == a[|p|..|p| + |Decimal(i)|];
    assert Decimal(j) == b[|p|..|p| + |Decimal(j)|];
    DecimalInjective(i, j);
  }

  /** The file written for a chunk: its name, and its content, the header
      followed by the chunk text unchanged. */
  function ChunkFileFor(base: string, ext: string, ordinal: nat, range: LineRange, chunk: string): ChunkFile
  {
    ChunkFile(ChunkFileName(base, ext, ordinal), ChunkHeader(base, range) + chunk)
  }

  /** The files the `chunk` command writes for one document: chunk `i` goes to
      `<base>-<i+1>.<ext>`, its header gives the range the scan attributed to
      it, and the chunk text follows the header unchanged. */
  method ChunkDocument(base: string, ext: string, chunks: seq<string>) returns (files: seq<ChunkFile>)
    ensures |files| == |chunks|
    ensures forall i :: 0 <= i < |chunks| ==>
              files[i] == ChunkFileFor(base, ext, i + 1, RangeOf(chunks, i), chunks[i])
  {
    var ranges := LineRanges(chunks);
    files := [];
    for i := 0 to |chunks|
      invariant |files| == i
      invariant forall k :: 0 <= k < i ==> files[k] == ChunkFileFor(base, ext, k + 1, ranges[k], chunks[k])
    {
      var header := ChunkHeader(base, ranges[i]);
      files := files + [ChunkFile(ChunkFileName(base, ext, i + 1), header + chunks[i])];
    }
  }
}
