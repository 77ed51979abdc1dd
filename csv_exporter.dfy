/** The CSV serialiser: per-field quoting after section 2 (rules 6 and 7) of
    RFC 4180, with a configurable delimiter and LF line ends, lines built by
    appending to a caller-owned buffer, a bracketed buffer-size heuristic, and an
    export loop that hands the buffer to the output stream periodically. The
    output stream is modelled as the sequence of strings written to it. */
module CsvExport {
  import opened QtText
  import opened CInt

  // ---------------------------------------------------------------------------
  // Field escaping

  /** A field must be quoted when it contains the delimiter, a double quote or a
      line break (CR or LF). */
  predicate NeedsQuoting(field: string, delimiter: string)
  {
    Contains(field, delimiter) || '"' in field || '\n' in field || '\r' in field
  }

  /** The text written for one character inside a quoted field. */
  function QuotedChar(c: char): string
  {
    if c == '"' then "\"\"" else [c]
  }

  /** Every double quote of `s` doubled, every other character kept. */
  function DoubleQuotes(s: string): string
    decreases |s|
  {
    if |s| == 0 then "" else QuotedChar(s[0]) + DoubleQuotes(s[1..])
  }

  /** The escaped form of a field: the field itself when it needs no quoting,
      otherwise the field with doubled quotes between two double quotes. */
  function Escaped(field: string, delimiter: string): string
  {
    if NeedsQuoting(field, delimiter) then "\"" + DoubleQuotes(field) + "\"" else field
  }

  lemma {:induction false} DoubleQuotesAppend(a: string, b: string)
    ensures DoubleQuotes(a + b) == DoubleQuotes(a) + DoubleQuotes(b)
    decreases |a|
  {
    if |a| > 0 {
      assert (a + b)[1..] == a[1..] + b;
      DoubleQuotesAppend(a[1..], b);
    } else {
      assert a + b == b;
    }
  }

  /** Doubling adds exactly one character per double quote. */
  lemma {:induction false} DoubleQuotesLength(s: string)
    ensures |DoubleQuotes(s)| == |s| + multiset(s)['"']
    decreases |s|
  {
    if |s| > 0 {
      DoubleQuotesLength(s[1..]);
      assert s == [s[0]] + s[1..];
      assert multiset(s) == multiset{s[0]} + multiset(s[1..]);
    }
  }

  /** Undoes the doubling: `""` becomes `"`, every other character is kept. */
  function CollapseQuotes(s: string): string
    decreases |s|
  {
    if |s| == 0 then ""
    else if |s| >= 2 && s[0] == '"' && s[1] == '"' then "\"" + CollapseQuotes(s[2..])
    else [s[0]] + CollapseQuotes(s[1..])
  }

  /** Decoding of one escaped field: strip the outer quotes and collapse doubled
      quotes when the text is quoted, otherwise take it as it is. */
  function Unescaped(text: string): string
  {
    if |text| >= 2 && text[0] == '"' && text[|text| - 1] == '"'
    then CollapseQuotes(text[1..|text| - 1])
    else text
  }

  lemma {:induction false} CollapseDoubleQuotes(s: string)
    ensures CollapseQuotes(DoubleQuotes(s)) == s
    decreases |s|
  {
    if |s| > 0 {
      CollapseDoubleQuotes(s[1..]);
      var d := DoubleQuotes(s);
      if s[0] == '"' {
        assert d == "\"\"" + DoubleQuotes(s[1..]);
        assert d[2..] == DoubleQuotes(s[1..]);
      } else {
        assert d == [s[0]] + DoubleQuotes(s[1..]);
        assert d[1..] == DoubleQuotes(s[1..]);
        assert d[0] != '"';
      }
      assert s == [s[0]] + s[1..];
    }
  }

  /** A field that needs no quoting is written unchanged. */
  lemma EscapedUnchanged(field: string, delimiter: string)
    requires !Contains(field, delimiter) && '"' !in field && '\n' !in field && '\r' !in field
    ensures Escaped(field, delimiter) == field
  {
  }

  /** A field that needs quoting is written as `"` + the field with every quote
      doubled + `"`, which is |field| + 2 + (number of quotes) characters long. */
  lemma EscapedQuoted(field: string, delimiter: string)
    requires NeedsQuoting(field, delimiter)
    ensures Escaped(field, delimiter) == "\"" + DoubleQuotes(field) + "\""
    ensures |Escaped(field, delimiter)| == |field| + 2 + multiset(field)['"']
  {
    DoubleQuotesLength(field);
  }

  /** Round trip: decoding an escaped field gives back the field, for every
      field and every delimiter. */
  lemma EscapeRoundTrip(field: string, delimiter: string)
    ensures Unescaped(Escaped(field, delimiter)) == field
  {
    var e := Escaped(field, delimiter);
    if NeedsQuoting(field, delimiter) {
      assert e[1..|e| - 1] == DoubleQuotes(field);
      CollapseDoubleQuotes(field);
    } else {
      assert |field| >= 2 ==> field[0] != '"';
    }
  }

  /** escapeField: the quick check, then a loop that copies the field into a
      local buffer doubling every quote. */
  method EscapeField(field: string, delimiter: string) returns (escaped: string)
    ensures escaped == Escaped(field, delimiter)
  {
    if !Contains(field, delimiter) && !('"' in field) && !('\n' in field) && !('\r' in field) {
      return field;
    }
    escaped := "\"";
    var i := 0;
    while i < |field|
      invariant 0 <= i <= |field|
      invariant escaped == "\"" + DoubleQuotes(field[..i])
    {
      var ch := field[i];
      if ch == '"' {
        escaped := escaped + "\"\"";
      } else {
        escaped := escaped + [ch];
      }
      DoubleQuotesAppend(field[..i], [ch]);
      assert field[..i + 1] == field[..i] + [ch];
      i := i + 1;
    }
    assert field[..i] == field;
    escaped := escaped + "\"";
  }

  // ---------------------------------------------------------------------------
  // Lines

  /** The escaped fields of a row, in order. */
  function EscapedFields(row: seq<string>, delimiter: string): (r: seq<string>)
    ensures |r| == |row|
    ensures forall i :: 0 <= i < |row| ==> r[i] == Escaped(row[i], delimiter)
  {
    seq(|row|, i requires 0 <= i < |row| => Escaped(row[i], delimiter))
  }

  /** One CSV line: the escaped fields joined by the delimiter, then LF. */
  function Line(row: seq<string>, delimiter: string): string
  {
    Join(EscapedFields(row, delimiter), delimiter) + "\n"
  }

  /** An empty row is written as a lone line feed. */
  lemma EmptyRowLine(delimiter: string)
    ensures Line([], delimiter) == "\n"
  {
  }

  /** The lines of a sequence of rows. */
  function Lines(rows: seq<seq<string>>, delimiter: string): (r: seq<string>)
    ensures |r| == |rows|
    ensures forall i :: 0 <= i < |rows| ==> r[i] == Line(rows[i], delimiter)
  {
    seq(|rows|, i requires 0 <= i < |rows| => Line(rows[i], delimiter))
  }

  /** The whole CSV text of a sequence of rows. */
  function CsvText(rows: seq<seq<string>>, delimiter: string): string
  {
    Concat(Lines(rows, delimiter))
  }

  /** buildCsvLine: appends one line to the caller's buffer. The old buffer is
      kept as a prefix; what is appended is exactly the line of the row. */
  method BuildCsvLine(row: seq<string>, delimiter: string, output: string) returns (result: string)
    ensures result == output + Line(row, delimiter)
    ensures result[..|output|] == output
  {
    result := output;
    if |row| == 0 {
      result := result + "\n";
      return;
    }
    ghost var fields := EscapedFields(row, delimiter);
    var first := EscapeField(row[0], delimiter);
    result := result + first;
    assert fields[..1] == [first];
    var i := 1;
    while i < |row|
      invariant 1 <= i <= |row|
      invariant result == output + Join(fields[..i], delimiter)
    {
      var next := EscapeField(row[i], delimiter);
      JoinStep(output, fields, i, delimiter);
      result := result + delimiter + next;
      i := i + 1;
    }
    assert fields[..i] == fields;
    result := result + "\n";
    StartsWithAppend(output, Line(row, delimiter));
  }

  // ---------------------------------------------------------------------------
  // Reading a line back

  /** The rest of a quoted field after its opening quote: `""` stands for one
      quote and a lone `"` closes the field. Gives the field and the text
      after the closing quote. */
  function QuotedTail(s: string): (r: (string, string))
    ensures |r.1| <= |s|
    decreases |s|
  {
    if |s| == 0 then ("", "")
    else if s[0] == '"' then
      if |s| >= 2 && s[1] == '"' then
        var t := QuotedTail(s[2..]);
        ("\"" + t.0, t.1)
      else ("", s[1..])
    else
      var t := QuotedTail(s[1..]);
      ([s[0]] + t.0, t.1)
  }

  /** An unquoted field: everything up to the delimiter character. */
  function PlainField(s: string, d: char): (r: (string, string))
    ensures |r.1| <= |s|
    decreases |s|
  {
    if |s| == 0 || s[0] == d then ("", s)
    else
      var t := PlainField(s[1..], d);
      ([s[0]] + t.0, t.1)
  }

  /** One field read from the front of `s`, and the text after it. */
  function ReadField(s: string, d: char): (r: (string, string))
    ensures |r.1| <= |s|
  {
    if |s| > 0 && s[0] == '"' then QuotedTail(s[1..]) else PlainField(s, d)
  }

  /** The fields of a text: one field, then, when text is left, the fields
      after the delimiter that follows it. */
  function SplitFields(s: string, d: char): (r: seq<string>)
    ensures |r| > 0
    decreases |s|
  {
    var t := ReadField(s, d);
    if t.1 == "" then [t.0] else [t.0] + SplitFields(t.1[1..], d)
  }

  /** Decoding of one CSV line with a one-character delimiter, after
      section 2 of RFC 4180: the final LF is dropped, and an empty line is the
      row without fields. */
  function DecodeLine(line: string, d: char): seq<string>
  {
    var text := if |line| > 0 && line[|line| - 1] == '\n' then line[..|line| - 1] else line;
    if text == "" then [] else SplitFields(text, d)
  }

  /** Reading an unquoted field stops at the delimiter. */
  lemma {:induction false} PlainFieldRead(f: string, rest: string, d: char)
    requires d !in f
    requires rest == "" || rest[0] == d
    ensures PlainField(f + rest, d) == (f, rest)
    decreases |f|
  {
    if |f| == 0 {
      assert f + rest == rest;
    } else {
      assert (f + rest)[1..] == f[1..] + rest;
      PlainFieldRead(f[1..], rest, d);
      assert f == [f[0]] + f[1..];
    }
  }

  /** Reading a quoted field collapses the doubled quotes and stops at the
      closing quote. */
  lemma {:induction false} QuotedTailRead(f: string, rest: string)
    requires rest == "" || rest[0] != '"'
    ensures QuotedTail(DoubleQuotes(f) + "\"" + rest) == (f, rest)
    decreases |f|
  {
    var s := DoubleQuotes(f) + "\"" + rest;
    if |f| == 0 {
      assert s == "\"" + rest;
      assert s[1..] == rest;
    } else {
      QuotedTailRead(f[1..], rest);
      var s' := DoubleQuotes(f[1..]) + "\"" + rest;
      if f[0] == '"' {
        assert s == "\"\"" + s';
        assert s[2..] == s';
      } else {
        assert s == [f[0]] + s';
        assert s[1..] == s';
      }
      assert f == [f[0]] + f[1..];
    }
  }

  /** An escaped field followed by the end of the line or the delimiter
      reads back as the field, leaving what follows it. */
  lemma ReadEscapedField(f: string, rest: string, d: char)
    requires d != '"'
    requires rest == "" || rest[0] == d
    ensures ReadField(Escaped(f, [d]) + rest, d) == (f, rest)
  {
    if NeedsQuoting(f, [d]) {
      var s := Escaped(f, [d]) + rest;
      assert s == "\"" + (DoubleQuotes(f) + "\"" + rest);
      assert s[1..] == DoubleQuotes(f) + "\"" + rest;
      QuotedTailRead(f, rest);
    } else {
      ContainsChar(f, d);
      PlainFieldRead(f, rest, d);
      assert |f| > 0 ==> (f + rest)[0] == f[0];
    }
  }

  /** The joined escaped fields of a non-empty row split back into the row. */
  lemma {:induction false} SplitJoinedFields(row: seq<string>, d: char)
    requires |row| > 0 && d != '"'
    ensures SplitFields(Join(EscapedFields(row, [d]), [d]), d) == row
    decreases |row|
  {
    var e := EscapedFields(row, [d]);
    if |row| == 1 {
      assert Join(e, [d]) == e[0] + "";
      ReadEscapedField(row[0], "", d);
    } else {
      assert e[1..] == EscapedFields(row[1..], [d]);
      var tail := Join(e[1..], [d]);
      assert Join(e, [d]) == e[0] + ([d] + tail);
      ReadEscapedField(row[0], [d] + tail, d);
      assert ([d] + tail)[1..] == tail;
      SplitJoinedFields(row[1..], d);
      assert row == [row[0]] + row[1..];
    }
  }

  /** Round trip of a whole line: with a one-character delimiter other than
      the double quote, decoding the line written for a row gives back the
      row, for every row except the row of one empty field. */
  lemma LineRoundTrip(row: seq<string>, d: char)
    requires d != '"'
    requires row != [""]
    ensures DecodeLine(Line(row, [d]), d) == row
  {
    var line := Line(row, [d]);
    var text := Join(EscapedFields(row, [d]), [d]);
    assert line[..|line| - 1] == text;
    if |row| > 0 {
      SplitJoinedFields(row, d);
      JoinedRowNonEmpty(row, d);
    }
  }

  /** Every row other than the row of one empty field has a non-empty
      joined text. */
  lemma JoinedRowNonEmpty(row: seq<string>, d: char)
    requires |row| > 0 && row != [""]
    ensures Join(EscapedFields(row, [d]), [d]) != ""
  {
    var e := EscapedFields(row, [d]);
    if |row| > 1 {
      assert Join(e, [d]) == e[0] + [d] + Join(e[1..], [d]);
    } else {
      assert row == [row[0]];
      assert Join(e, [d]) == Escaped(row[0], [d]);
    }
  }

  /** The row without fields and the row of one empty field are written as
      the same lone LF, so no reader can tell them apart. */
  lemma EmptyFieldRowLine(delimiter: string)
    requires delimiter != ""
    ensures Line([""], delimiter) == Line([], delimiter) == "\n"
  {
    assert !Contains("", delimiter);
    assert Join(EscapedFields([""], delimiter), delimiter) == "";
  }

  /** With the two-character delimiter "aa" the rows ["a", ""] and ["", "a"]
      are both written as "aaa", so the line does not determine the row. */
  lemma LongDelimiterAmbiguous()
    ensures Line(["a", ""], "aa") == Line(["", "a"], "aa") == "aaa\n"
  {
    assert !Contains("", "aa");
    assert !Contains("a", "aa") by {
      assert !StartsWith("a", "aa");
      assert "a"[1..] == "";
    }
    assert EscapedFields(["a", ""], "aa") == ["a", ""];
    assert EscapedFields(["", "a"], "aa") == ["", "a"];
    assert Join(["a", ""], "aa") == "a" + "aa" + Join([""], "aa");
    assert Join(["", "a"], "aa") == "" + "aa" + Join(["a"], "aa");
  }

  /** With the empty delimiter every field is quoted, and the rows ["a", "b"]
      and ["a\"b"] are both written as "a""b" in quotes. */
  lemma EmptyDelimiterAmbiguous()
    ensures Line(["a", "b"], "") == Line(["a\"b"], "")
  {
    assert Contains("a", "") && Contains("b", "") && Contains("a\"b", "");
    assert DoubleQuotes("a") == "a" + DoubleQuotes("");
    assert DoubleQuotes("b") == "b" + DoubleQuotes("");
    assert DoubleQuotes("a\"b") == "a" + DoubleQuotes("\"b");
    assert DoubleQuotes("\"b") == "\"\"" + DoubleQuotes("b");
    assert Escaped("a", "") == "\"a\"";
    assert Escaped("b", "") == "\"b\"";
    assert Escaped("a\"b", "") == "\"a\"\"b\"";
    assert EscapedFields(["a", "b"], "") == ["\"a\"", "\"b\""];
    assert EscapedFields(["a\"b"], "") == ["\"a\"\"b\""];
    assert Join(["\"a\"", "\"b\""], "") == "\"a\"" + "" + Join(["\"b\""], "");
  }

  // ---------------------------------------------------------------------------
  // Buffer sizing

  const MinBufferSize := 8192
  const MaxBufferSize := 1048576
  const SampleRows := 10

  /** Estimated size of a row's fields: each field's QString length (in
      UTF-16 code units) plus 3 for its delimiter and potential quotes. */
  function FieldsEstimate(row: seq<string>): (r: nat)
    ensures r >= 3 * |row|
    decreases |row|
  {
    if |row| == 0 then 0 else FieldsEstimate(row[..|row| - 1]) + Utf16Length(row[|row| - 1]) + 3
  }

  /** Estimated size of the first `k` rows, each with 1 added for its newline. */
  function SampleTotal(data: seq<seq<string>>, k: nat): (r: nat)
    requires k <= |data|
    ensures r >= k
  {
    if k == 0 then 0 else SampleTotal(data, k - 1) + FieldsEstimate(data[k - 1]) + 1
  }

  /** Average estimated row size over the first min(10, n) rows; every row
      counts at least its newline, so the average is at least 1. */
  function AverageRowSize(data: seq<seq<string>>): (r: nat)
    requires |data| > 0
    ensures r >= 1
  {
    var samples := if |data| < SampleRows then |data| else SampleRows;
    SampleTotal(data, samples) / samples
  }

  function Max(a: int, b: int): int { if a < b then b else a }
  function Min(a: int, b: int): int { if a < b then a else b }

  /** calculateOptimalBufferSize, with mathematical integers: 8192 for no data,
      otherwise a size picked by the bracket of the row count, capped at 1 MiB.
      It never falls below 8 KiB. */
  function OptimalBufferSize(data: seq<seq<string>>): (size: int)
    ensures MinBufferSize <= size <= MaxBufferSize
  {
    if |data| == 0 then MinBufferSize
    else
      var avg := AverageRowSize(data);
      var n := |data|;
      var bracket :=
        if n < 100 then Max(8192, avg * n)
        else if n < 1000 then Min(65536, Max(32768, avg * 100))
        else if n < 10000 then 131072
        else if n < 100000 then 262144
        else 524288;
      Min(bracket, MaxBufferSize)
  }

  /** The size bracket of a row count: 0 below 100 rows, then one step per
      factor of ten up to 4 from 100000 rows on. */
  function Bracket(n: nat): nat
  {
    if n < 100 then 0 else if n < 1000 then 1 else if n < 10000 then 2
    else if n < 100000 then 3 else 4
  }

  /** From 100 rows on, a higher bracket always gets a strictly larger buffer,
      and from 1000 rows on the size depends on the bracket alone. Below 100
      rows no such order holds: a few very long rows can ask for up to 1 MiB. */
  lemma BufferSizeMonotone(d1: seq<seq<string>>, d2: seq<seq<string>>)
    requires 100 <= |d1| <= |d2|
    ensures Bracket(|d1|) < Bracket(|d2|) ==> OptimalBufferSize(d1) < OptimalBufferSize(d2)
    ensures Bracket(|d1|) == Bracket(|d2|) >= 2 ==> OptimalBufferSize(d1) == OptimalBufferSize(d2)
    ensures Bracket(|d1|) == 1 ==> 32768 <= OptimalBufferSize(d1) <= 65536
  {
  }

  /** Below 100 rows the buffer holds the whole estimated export unless that
      exceeds the 1 MiB cap. */
  lemma SmallExportFitsBuffer(data: seq<seq<string>>)
    requires 0 < |data| < 100
    ensures OptimalBufferSize(data) >= Min(AverageRowSize(data) * |data|, MaxBufferSize)
  {
  }

  /** The brackets are not ordered across the 100-row boundary: an export
      of fewer than 100 rows whose estimate exceeds 512 KiB gets a larger
      buffer than any export of 100 rows or more. */
  lemma SmallExportCanOutsizeLarge(small: seq<seq<string>>, large: seq<seq<string>>)
    requires 0 < |small| < 100 <= |large|
    requires AverageRowSize(small) * |small| > 524288
    ensures OptimalBufferSize(small) > OptimalBufferSize(large)
  {
  }

  /** calculateOptimalBufferSize: two nested sampling loops, then the brackets. */
  method CalculateOptimalBufferSize(data: seq<seq<string>>) returns (size: int)
    ensures size == OptimalBufferSize(data)
  {
    if |data| == 0 {
      return 8192;
    }
    var samplesToCheck := if SampleRows < |data| then SampleRows else |data|;
    var totalEstimatedSize := 0;
    var i := 0;
    while i < samplesToCheck
      invariant 0 <= i <= samplesToCheck
      invariant totalEstimatedSize == SampleTotal(data, i)
    {
      var row := data[i];
      var rowSize := 0;
      var j := 0;
      while j < |row|
        invariant 0 <= j <= |row|
        invariant rowSize == FieldsEstimate(row[..j])
      {
        assert row[..j + 1][..j] == row[..j];
        rowSize := rowSize + Utf16Length(row[j]) + 3;
        j := j + 1;
      }
      assert row[..j] == row;
      rowSize := rowSize + 1;
      totalEstimatedSize := totalEstimatedSize + rowSize;
      i := i + 1;
    }
    var avgRowSize := totalEstimatedSize / samplesToCheck;
    var totalRows := |data|;
    var bufferSize;
    if totalRows < 100 {
      bufferSize := Max(8192, avgRowSize * totalRows);
    } else if totalRows < 1000 {
      bufferSize := Min(65536, Max(32768, avgRowSize * 100));
    } else if totalRows < 10000 {
      bufferSize := 131072;
    } else if totalRows < 100000 {
      bufferSize := 262144;
    } else {
      bufferSize := 524288;
    }
    size := Min(bufferSize, 1048576);
  }

  /** Dividing by a larger divisor never gives more. */
  lemma DivByLarger(a: int, b: int, c: int)
    requires b >= c > 0
    ensures a >= 0 ==> a / b <= a / c
  {
    if a < 0 { return; }
    var q := a / b;
    assert q * b + a % b == a;
    MulLess(c, b, q);
    assert q * c <= a;
    var p := a / c;
    assert p * c + a % c == a;
    LessMul(p, q, c);
    LessMul(q, p + 1, c);
  }

  /** Rows appended between two flushes of the export buffer, derived from the
      buffer size and the row count as the export does it. It is always at least
      one, and never more than the rows of 50 characters the buffer can hold. */
  function RowsPerFlush(bufferSize: int, rowCount: int): (rows: int)
    ensures rows >= 1
    ensures rows <= Max(1, bufferSize / 50)
  {
    var estimatedLineLength := Max(50, CDiv(bufferSize, Max(1, rowCount)));
    DivByLarger(bufferSize, estimatedLineLength, 50);
    Max(1, CDiv(bufferSize, estimatedLineLength))
  }

  // ---------------------------------------------------------------------------
  // The periodic flush loop

  /** Number of strings the export loop writes for `n` rows: one for a single
      row, otherwise ceil((n - 1) / rowsPerFlush). */
  function WriteCount(n: nat, rowsPerFlush: nat): nat
    requires rowsPerFlush >= 1
  {
    if n <= 1 then n else (n - 2) / rowsPerFlush + 1
  }

  /** Index of the first row after the j-th flush (the flush at row
      j * rowsPerFlush). */
  function CutAfterFlush(j: nat, rowsPerFlush: nat): nat
  {
    j * rowsPerFlush + 1
  }

  /** Between two consecutive multiples of r, only the upper one is a flush point. */
  lemma FlushPoint(i: nat, k: nat, r: nat)
    requires r >= 1
    requires k * r < i <= (k + 1) * r
    ensures (i % r == 0) <==> i == (k + 1) * r
  {
    if i == (k + 1) * r {
      DivUnique(i, r, k + 1);
    } else {
      DivUnique(i, r, k);
    }
  }

  lemma WriteCountStep(n: nat, k: nat, r: nat)
    requires r >= 1 && n >= 2
    requires k * r < n - 1 <= (k + 1) * r
    ensures WriteCount(n, r) == k + 1
  {
    DivUnique(n - 2, r, k);
  }

  /** Appending a row to a block of rows appends its line to their text. */
  lemma CsvTextSnoc(rows: seq<seq<string>>, row: seq<string>, delimiter: string)
    ensures CsvText(rows + [row], delimiter) == CsvText(rows, delimiter) + Line(row, delimiter)
  {
    assert Lines(rows + [row], delimiter) == Lines(rows, delimiter) + [Line(row, delimiter)];
    ConcatSnoc(Lines(rows, delimiter), Line(row, delimiter));
  }

  /** The text of at least one row is never empty: every line ends with LF. */
  lemma CsvTextNonEmpty(rows: seq<seq<string>>, delimiter: string)
    requires |rows| > 0
    ensures CsvText(rows, delimiter) != ""
  {
    assert Lines(rows, delimiter)[0] == Line(rows[0], delimiter);
  }

  /** One step of the flush loop's bookkeeping on row counts. */
  lemma StreamStep(i: nat, k: nat, r: nat, flush: bool)
    requires r >= 1
    requires i > 0 ==> k * r < i <= (k + 1) * r
    requires i == 0 ==> k == 0
    requires flush <==> (i > 0 && i % r == 0)
    ensures flush ==> i == (k + 1) * r && CutAfterFlush(k + 1, r) == i + 1
    ensures var k' := if flush then k + 1 else k; k' * r < i + 1 <= (k' + 1) * r
  {
    if i > 0 {
      FlushPoint(i, k, r);
    }
    if flush {
      assert (k + 2) * r == (k + 1) * r + r;
    }
  }

  /** Text of consecutive blocks of rows is the text of their union. */
  lemma CsvTextAppend(a: seq<seq<string>>, b: seq<seq<string>>, delimiter: string)
    ensures CsvText(a + b, delimiter) == CsvText(a, delimiter) + CsvText(b, delimiter)
  {
    assert Lines(a + b, delimiter) == Lines(a, delimiter) + Lines(b, delimiter);
    ConcatAppend(Lines(a, delimiter), Lines(b, delimiter));
  }

  /** The state of the flush loop before row `i`: rows 0 .. start-1 have been
      written, as |writes| non-empty strings, the last flush having happened
      after row |writes| * r; rows start .. i-1 wait in the buffer. */
  ghost predicate StreamInv(data: seq<seq<string>>, delimiter: string, r: nat, i: nat,
                            writes: seq<string>, buffer: string, start: nat)
  {
    && r >= 1
    && start <= i <= |data|
    && Concat(writes) == CsvText(data[..start], delimiter)
    && buffer == CsvText(data[start..i], delimiter)
    && (forall j :: 0 <= j < |writes| ==> writes[j] != "")
    && start == (if |writes| == 0 then 0 else CutAfterFlush(|writes|, r))
    && (i == 0 ==> |writes| == 0)
    && (i > 0 ==> |writes| * r < i <= (|writes| + 1) * r)
  }

  /** Appending the line of row `i` to a buffer holding rows start .. i-1. */
  lemma BufferStep(data: seq<seq<string>>, delimiter: string, i: nat, start: nat, buffer: string)
    requires start <= i < |data|
    requires buffer == CsvText(data[start..i], delimiter)
    ensures buffer + Line(data[i], delimiter) == CsvText(data[start..i + 1], delimiter)
    ensures buffer + Line(data[i], delimiter) != ""
  {
    assert data[start..i + 1] == data[start..i] + [data[i]];
    CsvTextSnoc(data[start..i], data[i], delimiter);
    CsvTextNonEmpty(data[start..i + 1], delimiter);
  }

  /** Writing out the buffer moves its rows to the written prefix. */
  lemma WriteStep(data: seq<seq<string>>, delimiter: string, writes: seq<string>,
                  start: nat, end: nat, buffer: string)
    requires start <= end <= |data|
    requires Concat(writes) == CsvText(data[..start], delimiter)
    requires buffer == CsvText(data[start..end], delimiter)
    ensures Concat(writes + [buffer]) == CsvText(data[..end], delimiter)
  {
    ConcatSnoc(writes, buffer);
    assert data[..end] == data[..start] + data[start..end];
    CsvTextAppend(data[..start], data[start..end], delimiter);
  }

  /** An iteration at a flush point: the buffer, now holding row `i` too,
      becomes the next write and the loop goes on with an empty buffer. */
  lemma StreamAdvanceFlush(data: seq<seq<string>>, delimiter: string, r: nat, i: nat,
                           writes: seq<string>, buffer: string, start: nat)
    requires StreamInv(data, delimiter, r, i, writes, buffer, start)
    requires i < |data| && i > 0 && i % r == 0
    ensures var buffer' := buffer + Line(data[i], delimiter);
            buffer' != "" &&
            StreamInv(data, delimiter, r, i + 1, writes + [buffer'], "", i + 1)
  {
    BufferStep(data, delimiter, i, start, buffer);
    WriteStep(data, delimiter, writes, start, i + 1, buffer + Line(data[i], delimiter));
    StreamStep(i, |writes|, r, true);
    assert data[i + 1..i + 1] == [];
  }

  /** An iteration elsewhere: row `i` only joins the buffer. */
  lemma StreamAdvanceKeep(data: seq<seq<string>>, delimiter: string, r: nat, i: nat,
                          writes: seq<string>, buffer: string, start: nat)
    requires StreamInv(data, delimiter, r, i, writes, buffer, start)
    requires i < |data| && !(i > 0 && i % r == 0)
    ensures var buffer' := buffer + Line(data[i], delimiter);
            buffer' != "" &&
            StreamInv(data, delimiter, r, i + 1, writes, buffer', start)
  {
    BufferStep(data, delimiter, i, start, buffer);
    StreamStep(i, |writes|, r, false);
  }

  /** One iteration of the flush loop, flushing or not. */
  lemma StreamAdvance(data: seq<seq<string>>, delimiter: string, r: nat, i: nat,
                      writes: seq<string>, buffer: string, start: nat, flush: bool)
    requires i < |data|
    ensures StreamInv(data, delimiter, r, i, writes, buffer, start) && (flush <==> i > 0 && i % r == 0) ==>
            var buffer' := buffer + Line(data[i], delimiter);
            buffer' != "" &&
            if flush then StreamInv(data, delimiter, r, i + 1, writes + [buffer'], "", i + 1)
            else StreamInv(data, delimiter, r, i + 1, writes, buffer', start)
  {
    if !StreamInv(data, delimiter, r, i, writes, buffer, start) || !(flush <==> i > 0 && i % r == 0) {
    } else if flush {
      StreamAdvanceFlush(data, delimiter, r, i, writes, buffer, start);
    } else {
      StreamAdvanceKeep(data, delimiter, r, i, writes, buffer, start);
    }
  }

  /** Row-count bookkeeping at the end of the loop: k blocks written, the
      remainder (if any) starts at `start`. */
  lemma FinishCount(n: nat, k: nat, r: nat, start: nat)
    requires r >= 1 && start <= n
    requires start == (if k == 0 then 0 else CutAfterFlush(k, r))
    requires n == 0 ==> k == 0
    requires n > 0 ==> k * r < n <= (k + 1) * r
    ensures (if start < n then k + 1 else k) == WriteCount(n, r)
  {
    if start < n {
      if n >= 2 {
        WriteCountStep(n, k, r);
      } else if k > 0 {
        MulLess(1, k, r);
      }
    } else if n > 0 {
      assert k > 0;
      if n >= 2 {
        assert (k - 1) * r == k * r - r;
        WriteCountStep(n, k - 1, r);
      }
    }
  }

  /** The whole export written out: the writes, in order, are the CSV text
      of all rows; there are WriteCount of them and none is empty. */
  ghost predicate Streamed(data: seq<seq<string>>, delimiter: string, r: nat, writes: seq<string>)
    requires r >= 1
  {
    && Concat(writes) == CsvText(data, delimiter)
    && |writes| == WriteCount(|data|, r)
    && forall j :: 0 <= j < |writes| ==> writes[j] != ""
  }

  /** After the last row, a non-empty remainder is written as the last block. */
  lemma FinishTail(data: seq<seq<string>>, delimiter: string, r: nat,
                   writes: seq<string>, buffer: string, start: nat)
    requires StreamInv(data, delimiter, r, |data|, writes, buffer, start)
    requires buffer != ""
    ensures Streamed(data, delimiter, r, writes + [buffer])
  {
    FinishCount(|data|, |writes|, r, start);
    WriteStep(data, delimiter, writes, start, |data|, buffer);
    assert data[..|data|] == data;
  }

  /** After the last row, an empty buffer means every row has been written. */
  lemma FinishFlushed(data: seq<seq<string>>, delimiter: string, r: nat,
                      writes: seq<string>, start: nat)
    requires StreamInv(data, delimiter, r, |data|, writes, "", start)
    ensures Streamed(data, delimiter, r, writes)
  {
    FinishCount(|data|, |writes|, r, start);
    assert data[..start] == data;
  }

  /** After the last row, what is left in the buffer, if anything, is
      written as the last block. */
  lemma StreamFinish(data: seq<seq<string>>, delimiter: string, r: nat,
                     writes: seq<string>, buffer: string, start: nat)
    ensures StreamInv(data, delimiter, r, |data|, writes, buffer, start) ==>
            Streamed(data, delimiter, r, if buffer != "" then writes + [buffer] else writes)
  {
    if !StreamInv(data, delimiter, r, |data|, writes, buffer, start) {
    } else if buffer != "" {
      FinishTail(data, delimiter, r, writes, buffer, start);
    } else {
      FinishFlushed(data, delimiter, r, writes, start);
    }
  }

  /** The export loop of exportData: each row's line is appended to the
      buffer; after the row at every positive multiple of rowsPerFlush the
      buffer is written out and cleared; what remains is written at the end.
      The text written, in order, is exactly the CSV text of all rows, in
      WriteCount(|data|, rowsPerFlush) non-empty writes. */
  method StreamRows(data: seq<seq<string>>, delimiter: string, rowsPerFlush: int)
    returns (writes: seq<string>)
    requires rowsPerFlush >= 1
    ensures Concat(writes) == CsvText(data, delimiter)
    ensures |writes| == WriteCount(|data|, rowsPerFlush)
    ensures forall j :: 0 <= j < |writes| ==> writes[j] != ""
  {
    writes := [];
    var buffer := "";
    ghost var start: nat := 0;
    var i := 0;
    while i < |data|
      invariant StreamInv(data, delimiter, rowsPerFlush, i, writes, buffer, start)
    {
      var flush := i > 0 && i % rowsPerFlush == 0;
      StreamAdvance(data, delimiter, rowsPerFlush, i, writes, buffer, start, flush);
      buffer := BuildCsvLine(data[i], delimiter, buffer);
      if flush && buffer != "" {
        writes := writes + [buffer];
        buffer := "";
        start := i + 1;
      }
      i := i + 1;
    }
    StreamFinish(data, delimiter, rowsPerFlush, writes, buffer, start);
    if buffer != "" {
      writes := writes + [buffer];
    }
  }

  // ---------------------------------------------------------------------------
  // The exporter object

  /** A header row followed by data rows is written as the header's line
      followed by the text of the data rows. */
  lemma HeaderedText(headers: seq<string>, data: seq<seq<string>>, delimiter: string)
    ensures CsvText([headers] + data, delimiter) == Line(headers, delimiter) + CsvText(data, delimiter)
  {
    CsvTextAppend([headers], data, delimiter);
    assert Lines([headers], delimiter) == [Line(headers, delimiter)];
    assert Concat([Line(headers, delimiter)]) == Line(headers, delimiter) + Concat([]);
  }

  /** Outcome of opening the target file for writing; `reason` is the error
      text the file system reports. */
  datatype OpenResult = Opened | OpenFailed(reason: string)

  const NoPathError := "File path is not set"
  const NoDataError := "No data to export"
  const OpenErrorPrefix := "Cannot open file for writing: "

  /** The CSV exporter: delimiter, target path, last error and buffer-size
      settings, updated in place by its setters and by each export. */
  class CsvExporter {
    var delimiter: string
    var filePath: string
    var lastError: string
    var bufferSize: int
    var autoBufferSize: bool

    /** A new exporter writes comma-separated text and sizes its buffer
        automatically. */
    constructor()
      ensures delimiter == "," && filePath == "" && lastError == ""
      ensures bufferSize == 0 && autoBufferSize
    {
      delimiter := ",";
      filePath := "";
      lastError := "";
      bufferSize := 0;
      autoBufferSize := true;
    }

    method SetDelimiter(d: string)
      modifies this
      ensures delimiter == d
      ensures filePath == old(filePath) && lastError == old(lastError)
      ensures bufferSize == old(bufferSize) && autoBufferSize == old(autoBufferSize)
    {
      delimiter := d;
    }

    method SetFilePath(path: string)
      modifies this
      ensures filePath == path
      ensures delimiter == old(delimiter) && lastError == old(lastError)
      ensures bufferSize == old(bufferSize) && autoBufferSize == old(autoBufferSize)
    {
      filePath := path;
    }

    /** A size of 0 switches automatic sizing on; any other size switches it
        off and is used as given. */
    method SetBufferSize(size: int)
      modifies this
      ensures bufferSize == size && (autoBufferSize <==> size == 0)
      ensures delimiter == old(delimiter) && filePath == old(filePath) && lastError == old(lastError)
    {
      bufferSize := size;
      autoBufferSize := size == 0;
    }

    /** Switching automatic sizing on resets the size to 0; switching it off
        keeps the size last set. */
    method SetAutoBufferSize(enable: bool)
      modifies this
      ensures autoBufferSize == enable
      ensures bufferSize == if enable then 0 else old(bufferSize)
      ensures delimiter == old(delimiter) && filePath == old(filePath) && lastError == old(lastError)
    {
      autoBufferSize := enable;
      if enable {
        bufferSize := 0;
      }
    }

    /** The message of the last failed export, empty after a success. */
    function GetLastError(): (e: string)
      reads this
      ensures e == lastError
    {
      lastError
    }

    /** The buffer size an export of `data` uses: the size set by the caller,
        or with automatic sizing the computed size, which is always between
        8 KiB and 1 MiB. */
    function EffectiveBufferSize(data: seq<seq<string>>): (size: int)
      reads this
      ensures !autoBufferSize ==> size == bufferSize
      ensures autoBufferSize ==> MinBufferSize <= size <= MaxBufferSize
    {
      if autoBufferSize then OptimalBufferSize(data) else bufferSize
    }

    /** exportData: checks the path, then the data, then opens the file; on
        success the file receives, in WriteCount(|data|, rowsPerFlush) writes,
        exactly the CSV text of all rows, and the last error is cleared. On
        failure nothing is written and the last error names the first check
        that failed. Only the last error changes. */
    method ExportData(data: seq<seq<string>>, open: OpenResult) returns (ok: bool, written: seq<string>)
      modifies this`lastError
      ensures ok <==> filePath != "" && |data| > 0 && open.Opened?
      ensures filePath == "" ==> lastError == NoPathError
      ensures filePath != "" && |data| == 0 ==> lastError == NoDataError
      ensures filePath != "" && |data| > 0 && open.OpenFailed? ==> lastError == OpenErrorPrefix + open.reason
      ensures !ok ==> written == []
      ensures ok ==> lastError == ""
                     && Concat(written) == CsvText(data, delimiter)
                     && |written| == WriteCount(|data|, RowsPerFlush(EffectiveBufferSize(data), |data|))
                     && forall j :: 0 <= j < |written| ==> written[j] != ""
    {
      written := [];
      if filePath == "" {
        lastError := NoPathError;
        return false, written;
      }
      if |data| == 0 {
        lastError := NoDataError;
        return false, written;
      }
      if open.OpenFailed? {
        lastError := OpenErrorPrefix + open.reason;
        return false, written;
      }
      var size := bufferSize;
      if autoBufferSize {
        size := CalculateOptimalBufferSize(data);
      }
      var rowsPerFlush := RowsPerFlush(size, |data|);
      written := StreamRows(data, delimiter, rowsPerFlush);
      lastError := "";
      ok := true;
    }

    /** exportDataWithHeaders: exportData of the header row followed by the
        data rows. There is always at least one row, so the "no data" error
        cannot occur; a successful export writes the header line first. */
    method ExportDataWithHeaders(headers: seq<string>, data: seq<seq<string>>, open: OpenResult)
      returns (ok: bool, written: seq<string>)
      modifies this`lastError
      ensures ok <==> filePath != "" && open.Opened?
      ensures lastError != NoDataError
      ensures filePath == "" ==> lastError == NoPathError
      ensures filePath != "" && open.OpenFailed? ==> lastError == OpenErrorPrefix + open.reason
      ensures !ok ==> written == []
      ensures ok ==> lastError == ""
                     && Concat(written) == Line(headers, delimiter) + CsvText(data, delimiter)
                     && Concat(written) == CsvText([headers] + data, delimiter)
                     && |written| == WriteCount(|data| + 1, RowsPerFlush(EffectiveBufferSize([headers] + data), |data| + 1))
                     && forall j :: 0 <= j < |written| ==> written[j] != ""
    {
      ok, written := ExportData([headers] + data, open);
      if ok {
        HeaderedText(headers, data, delimiter);
      }
    }
  }
}
