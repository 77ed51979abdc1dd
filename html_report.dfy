/** The HTML report generator behind the PDF export: HTML escaping, a table
    with a header row and zebra-striped data rows, the report page around it,
    and the exporter object holding the report's settings. Rendering the page
    to a PDF file is modelled as a print job record. */
module HtmlReport {
  import opened QtText

  datatype Option<T> = None | Some(value: T)

  // ---------------------------------------------------------------------------
  // HTML escaping

  /** QString::replace with a one-character needle: every occurrence of `c`
      is replaced by `after`, scanning left to right without rescanning the
      inserted text. */
  function ReplaceChar(s: string, c: char, after: string): string
    decreases |s|
  {
    if |s| == 0 then ""
    else (if s[0] == c then after else [s[0]]) + ReplaceChar(s[1..], c, after)
  }

  /** Replacing distributes over concatenation. */
  lemma {:induction false} ReplaceCharAppend(a: string, b: string, c: char, after: string)
    ensures ReplaceChar(a + b, c, after) == ReplaceChar(a, c, after) + ReplaceChar(b, c, after)
    decreases |a|
  {
    if |a| > 0 {
      assert (a + b)[1..] == a[1..] + b;
      ReplaceCharAppend(a[1..], b, c, after);
    } else {
      assert a + b == b;
    }
  }

  /** Replacing a character that does not occur changes nothing. */
  lemma {:induction false} ReplaceCharAbsent(s: string, c: char, after: string)
    requires c !in s
    ensures ReplaceChar(s, c, after) == s
    decreases |s|
  {
    if |s| > 0 {
      ReplaceCharAbsent(s[1..], c, after);
      assert s == [s[0]] + s[1..];
    }
  }

  /** The escaping of the page text: `&` first, then `<`, `>`, `"` and `'`.
      Text holding none of the five is left as it is. */
  function EscapeHtml(text: string): (r: string)
    ensures '&' !in text && '<' !in text && '>' !in text && '"' !in text && '\'' !in text ==> r == text
  {
    var amp := ReplaceChar(text, '&', "&amp;");
    var lt := ReplaceChar(amp, '<', "&lt;");
    var gt := ReplaceChar(lt, '>', "&gt;");
    var quot := ReplaceChar(gt, '"', "&quot;");
    PlainTextKept(text, amp, lt, gt, quot);
    ReplaceChar(quot, '\'', "&#39;")
  }

  /** Each step of the replacement chain leaves text without its character
      as it is, so plain text passes the whole chain unchanged. */
  lemma PlainTextKept(text: string, amp: string, lt: string, gt: string, quot: string)
    requires amp == ReplaceChar(text, '&', "&amp;") && lt == ReplaceChar(amp, '<', "&lt;")
    requires gt == ReplaceChar(lt, '>', "&gt;") && quot == ReplaceChar(gt, '"', "&quot;")
    ensures '&' !in text && '<' !in text && '>' !in text && '"' !in text && '\'' !in text ==>
              ReplaceChar(quot, '\'', "&#39;") == text
  {
    if '&' !in text && '<' !in text && '>' !in text && '"' !in text && '\'' !in text {
      ReplaceCharAbsent(text, '&', "&amp;");
      ReplaceCharAbsent(amp, '<', "&lt;");
      ReplaceCharAbsent(lt, '>', "&gt;");
      ReplaceCharAbsent(gt, '"', "&quot;");
      ReplaceCharAbsent(quot, '\'', "&#39;");
    }
  }

  /** The characters that escaping rewrites. */
  predicate IsSpecial(c: char)
  {
    c == '&' || c == '<' || c == '>' || c == '"' || c == '\''
  }

  /** The text that stands for one character in escaped output. */
  function EntityOf(c: char): string
  {
    match c
    case '&' => "&amp;"
    case '<' => "&lt;"
    case '>' => "&gt;"
    case '"' => "&quot;"
    case '\'' => "&#39;"
    case _ => [c]
  }

  /** Character-by-character escaping: the reference the replacement chain
      is proved equal to. */
  function EscapedChars(text: string): string
    decreases |text|
  {
    if |text| == 0 then "" else EntityOf(text[0]) + EscapedChars(text[1..])
  }

  /** Escaping distributes over concatenation. */
  lemma EscapeHtmlAppend(a: string, b: string)
    ensures EscapeHtml(a + b) == EscapeHtml(a) + EscapeHtml(b)
  {
    var amp, amp' := ReplaceChar(a, '&', "&amp;"), ReplaceChar(b, '&', "&amp;");
    ReplaceCharAppend(a, b, '&', "&amp;");
    var lt, lt' := ReplaceChar(amp, '<', "&lt;"), ReplaceChar(amp', '<', "&lt;");
    ReplaceCharAppend(amp, amp', '<', "&lt;");
    var gt, gt' := ReplaceChar(lt, '>', "&gt;"), ReplaceChar(lt', '>', "&gt;");
    ReplaceCharAppend(lt, lt', '>', "&gt;");
    var quot, quot' := ReplaceChar(gt, '"', "&quot;"), ReplaceChar(gt', '"', "&quot;");
    ReplaceCharAppend(gt, gt', '"', "&quot;");
    ReplaceCharAppend(quot, quot', '\'', "&#39;");
  }

  /** Replacing in a one-character text. */
  lemma ReplaceCharSingle(d: char, c: char, after: string)
    ensures ReplaceChar([d], c, after) == if d == c then after else [d]
  {
    assert [d][1..] == [];
    AppendEmpty(if d == c then after else [d]);
  }

  /** The later replacements of the chain leave an entity inserted by an
      earlier one unchanged. */
  lemma EntityStable(e: string, from: nat)
    requires from <= 4
    requires forall i :: 0 <= i < |e| ==> e[i] != '<' && e[i] != '>' && e[i] != '"' && e[i] != '\''
    ensures from < 1 ==> ReplaceChar(e, '<', "&lt;") == e
    ensures from < 2 ==> ReplaceChar(e, '>', "&gt;") == e
    ensures from < 3 ==> ReplaceChar(e, '"', "&quot;") == e
    ensures ReplaceChar(e, '\'', "&#39;") == e
  {
    ReplaceCharAbsent(e, '<', "&lt;");
    ReplaceCharAbsent(e, '>', "&gt;");
    ReplaceCharAbsent(e, '"', "&quot;");
    ReplaceCharAbsent(e, '\'', "&#39;");
  }

  /** Escaping one character gives its entity: the entities inserted by the
      first replacement contain none of the later needles. */
  lemma EscapeHtmlChar(c: char)
    ensures EscapeHtml([c]) == EntityOf(c)
  {
    ReplaceCharSingle(c, '&', "&amp;");
    if c == '&' {
      EntityStable("&amp;", 0);
      return;
    }
    ReplaceCharSingle(c, '<', "&lt;");
    if c == '<' {
      EntityStable("&lt;", 1);
      return;
    }
    ReplaceCharSingle(c, '>', "&gt;");
    if c == '>' {
      EntityStable("&gt;", 2);
      return;
    }
    ReplaceCharSingle(c, '"', "&quot;");
    if c == '"' {
      EntityStable("&quot;", 3);
      return;
    }
    ReplaceCharSingle(c, '\'', "&#39;");
  }

  /** The replacement chain escapes each character independently. */
  lemma {:induction false} EscapeHtmlPerChar(text: string)
    ensures EscapeHtml(text) == EscapedChars(text)
    decreases |text|
  {
    if |text| == 0 {
      assert EscapeHtml(text) == "";
    } else {
      assert text == [text[0]] + text[1..];
      EscapeHtmlAppend([text[0]], text[1..]);
      EscapeHtmlChar(text[0]);
      EscapeHtmlPerChar(text[1..]);
    }
  }

  /** The text standing for one character contains no markup character. */
  lemma EntityClean(c: char)
    ensures var e := EntityOf(c); '<' !in e && '>' !in e && '"' !in e && '\'' !in e
  {
  }

  /** Escaped text contains no markup characters: no `<`, `>`, `"` or `'`. */
  lemma {:induction false} EscapedCharsClean(text: string)
    ensures var r := EscapedChars(text); '<' !in r && '>' !in r && '"' !in r && '\'' !in r
    decreases |text|
  {
    if |text| > 0 {
      EntityClean(text[0]);
      EscapedCharsClean(text[1..]);
    }
  }

  /** Text without any of the five special characters is left as it is. */
  lemma {:induction false} EscapedCharsPlain(text: string)
    requires forall i :: 0 <= i < |text| ==> !IsSpecial(text[i])
    ensures EscapedChars(text) == text
    decreases |text|
  {
    if |text| > 0 {
      EscapedCharsPlain(text[1..]);
      assert text == [text[0]] + text[1..];
    }
  }

  /** Reading the five entities back as characters. */
  function UnescapeHtml(s: string): string
    decreases |s|
  {
    if |s| == 0 then ""
    else if StartsWith(s, "&amp;") then "&" + UnescapeHtml(s[5..])
    else if StartsWith(s, "&lt;") then "<" + UnescapeHtml(s[4..])
    else if StartsWith(s, "&gt;") then ">" + UnescapeHtml(s[4..])
    else if StartsWith(s, "&quot;") then "\"" + UnescapeHtml(s[6..])
    else if StartsWith(s, "&#39;") then "'" + UnescapeHtml(s[5..])
    else [s[0]] + UnescapeHtml(s[1..])
  }

  /** Un-escaping text that starts with one of the five entities. */
  lemma UnescapeSpecial(c: char, rest: string)
    requires IsSpecial(c)
    ensures UnescapeHtml(EntityOf(c) + rest) == [c] + UnescapeHtml(rest)
  {
    var e := EntityOf(c);
    var s := e + rest;
    assert s[..|e|] == e && s[|e|..] == rest;
    assert s[0] == '&';
    if c != '&' {
      assert s[1] != 'a';
      assert !StartsWith(s, "&amp;");
      if c != '<' {
        assert s[1] != 'l';
        assert !StartsWith(s, "&lt;");
        if c != '>' {
          assert s[1] != 'g';
          assert !StartsWith(s, "&gt;");
          if c != '"' {
            assert s[1] != 'q';
            assert !StartsWith(s, "&quot;");
          }
        }
      }
    }
  }

  /** A text does not start with a prefix whose first character differs. */
  lemma FirstCharMismatch(s: string, p: string)
    requires |s| > 0 && |p| > 0 && s[0] != p[0]
    ensures !StartsWith(s, p)
  {
  }

  /** Un-escaping text that starts with a character other than `&`. */
  lemma UnescapeOther(c: char, rest: string)
    requires c != '&'
    ensures UnescapeHtml([c] + rest) == [c] + UnescapeHtml(rest)
  {
    var s := [c] + rest;
    assert s[0] == c && s[1..] == rest;
    FirstCharMismatch(s, "&amp;");
    FirstCharMismatch(s, "&lt;");
    FirstCharMismatch(s, "&gt;");
    FirstCharMismatch(s, "&quot;");
    FirstCharMismatch(s, "&#39;");
  }

  /** Un-escaping an entity followed by more text gives back its character. */
  lemma UnescapeEntity(c: char, rest: string)
    ensures UnescapeHtml(EntityOf(c) + rest) == [c] + UnescapeHtml(rest)
  {
    if IsSpecial(c) {
      UnescapeSpecial(c, rest);
    } else {
      UnescapeOther(c, rest);
    }
  }

  /** Un-escaping character-by-character escaped text restores it. */
  lemma {:induction false} UnescapeEscapedChars(text: string)
    ensures UnescapeHtml(EscapedChars(text)) == text
    decreases |text|
  {
    if |text| > 0 {
      UnescapeEntity(text[0], EscapedChars(text[1..]));
      UnescapeEscapedChars(text[1..]);
      assert text == [text[0]] + text[1..];
    }
  }

  /** What escaping promises: no markup characters in the result, text free
      of the special characters unchanged, and un-escaping restores the input. */
  lemma EscapeHtmlProperties(text: string)
    ensures var r := EscapeHtml(text); '<' !in r && '>' !in r && '"' !in r && '\'' !in r
    ensures (forall i :: 0 <= i < |text| ==> !IsSpecial(text[i])) ==> EscapeHtml(text) == text
    ensures UnescapeHtml(EscapeHtml(text)) == text
  {
    EscapeHtmlPerChar(text);
    EscapedCharsClean(text);
    if forall i :: 0 <= i < |text| ==> !IsSpecial(text[i]) {
      EscapedCharsPlain(text);
    }
    UnescapeEscapedChars(text);
  }

  // ---------------------------------------------------------------------------
  // The table

  /** Opening tag of a table row with the given background colour. */
  function RowOpen(color: string): string
  {
    "<tr style='background-color: " + color + ";'>"
  }

  /** The header cells: one `<th>` per header, in order, upper-cased then escaped. */
  function HeaderCells(headers: seq<string>, toUpper: string -> string): (r: seq<string>)
    ensures |r| == |headers|
    ensures forall i :: 0 <= i < |headers| ==> r[i] == "<th>" + EscapeHtml(toUpper(headers[i])) + "</th>"
  {
    seq(|headers|, i requires 0 <= i < |headers| => "<th>" + EscapeHtml(toUpper(headers[i])) + "</th>")
  }

  /** A data cell holding an escaped value. */
  function DataCell(value: string): string
  {
    "<td>" + EscapeHtml(value) + "</td>"
  }

  /** An empty data cell. */
  const EmptyCell: string := "<td></td>"

  /** The cells of a data row under `n` headers: the first min(|row|, n) are
      the escaped values, the rest are empty and surplus values are dropped. */
  function RowCells(row: seq<string>, n: nat): (r: seq<string>)
    ensures |r| == n
    ensures forall i :: 0 <= i < n && i < |row| ==> r[i] == DataCell(row[i])
    ensures forall i :: |row| <= i < n ==> r[i] == EmptyCell
  {
    seq(n, i requires 0 <= i < n => if i < |row| then DataCell(row[i]) else EmptyCell)
  }

  /** A data row of the table. */
  function RowHtml(color: string, row: seq<string>, n: nat): string
  {
    RowOpen(color) + Concat(RowCells(row, n)) + "</tr>"
  }

  /** The zebra colour of data row `k`, counting from zero. */
  function StripeColor(k: int, evenColor: string, oddColor: string): string
  {
    if k % 2 == 0 then evenColor else oddColor
  }

  /** The data rows, striped. */
  function DataRows(data: seq<seq<string>>, n: nat, evenColor: string, oddColor: string): (r: seq<string>)
    ensures |r| == |data|
  {
    seq(|data|, k requires 0 <= k < |data| => RowHtml(StripeColor(k, evenColor, oddColor), data[k], n))
  }

  /** The table: header row (when there are headers), then the data rows. */
  function TableHtml(headers: seq<string>, data: seq<seq<string>>, headerColor: string,
                     evenColor: string, oddColor: string, toUpper: string -> string): (t: string)
    ensures StartsWith(t, "<table width='100%'>") && EndsWith(t, "</table>")
  {
    var top := "<table width='100%'>";
    var headerRow := if |headers| > 0 then RowOpen(headerColor) + Concat(HeaderCells(headers, toUpper)) + "</tr>" else "";
    var rows := Concat(DataRows(data, |headers|, evenColor, oddColor));
    var t := top + headerRow + rows + "</table>";
    StartsWithAppend(top, headerRow + rows + "</table>");
    AppendAssoc(top, headerRow, rows, "</table>");
    assert t[|t| - 8..] == "</table>";
    t
  }

  /** Every data row appears in the table, striped by its position, and the
      table is wrapped in its opening and closing tags. */
  lemma TableRows(headers: seq<string>, data: seq<seq<string>>, headerColor: string,
                  evenColor: string, oddColor: string, toUpper: string -> string, k: nat)
    requires k < |data|
    ensures var t := TableHtml(headers, data, headerColor, evenColor, oddColor, toUpper);
      && StartsWith(t, "<table width='100%'>")
      && Contains(t, RowHtml(StripeColor(k, evenColor, oddColor), data[k], |headers|))
  {
    var rows := DataRows(data, |headers|, evenColor, oddColor);
    var top := "<table width='100%'>";
    var headerRow := if |headers| > 0 then RowOpen(headerColor) + Concat(HeaderCells(headers, toUpper)) + "</tr>" else "";
    ConcatMember(rows, k);
    ContainsWithin(top + headerRow, Concat(rows), "</table>", rows[k]);
    StartsWithAppend(top, headerRow + Concat(rows) + "</table>");
    AppendAssoc(top, headerRow, Concat(rows), "</table>");
  }

  /** Values beyond the header count are dropped. */
  lemma SurplusFieldsDropped(color: string, row: seq<string>, n: nat)
    requires |row| > n
    ensures RowHtml(color, row, n) == RowHtml(color, row[..n], n)
  {
    assert RowCells(row, n) == RowCells(row[..n], n);
  }

  /** Missing values are rendered exactly like empty values. */
  lemma MissingFieldsEmpty(color: string, row: seq<string>, n: nat)
    requires |row| < n
    ensures RowHtml(color, row, n) == RowHtml(color, row + seq(n - |row|, _ => ""), n)
  {
    var padded := row + seq(n - |row|, _ => "");
    forall i | 0 <= i < n
      ensures RowCells(row, n)[i] == RowCells(padded, n)[i]
    {
      if i >= |row| {
        assert padded[i] == "";
        assert EscapeHtml("") == "";
      }
    }
    assert RowCells(row, n) == RowCells(padded, n);
  }

  /** Stripes alternate: neighbouring data rows take different zebra colours,
      and every second row takes the same one. */
  lemma StripesAlternate(k: nat, evenColor: string, oddColor: string)
    ensures StripeColor(k, evenColor, oddColor) == StripeColor(k + 2, evenColor, oddColor)
    ensures {StripeColor(k, evenColor, oddColor), StripeColor(k + 1, evenColor, oddColor)} == {evenColor, oddColor}
  {
  }

  // ---------------------------------------------------------------------------
  // The report page

  /** The page head with its fixed style sheet, up to the opening body tag. */
  const StyleHead: string :=
    "<html><head><style>"
    + "body { font-family: Arial, sans-serif; }"
    + "h1 { color: #333333; margin-bottom: 10px; }"
    + "p { color: #333333; margin: 5px 0; }"
    + "table { width: 100%; border-collapse: collapse; margin-top: 15px; table-layout: fixed; }"
    + "th, td { border: 1px solid #000000; padding: 8px; text-align: left; word-wrap: break-word; }"
    + "th { font-weight: bold; }"
    + "hr { border: 1px solid #CCCCCC; margin: 15px 0; }"
    + "</style></head><body>"

  /** Everything the page is generated from. */
  datatype Content = Content(
    title: string, showDate: bool, headers: seq<string>, data: seq<seq<string>>,
    headerColor: string, evenColor: string, oddColor: string,
    customHtml: string, prefixHtml: string, suffixHtml: string)

  /** The title heading, escaped. */
  function TitleBlock(title: string): string
  {
    "<h1>" + EscapeHtml(title) + "</h1>"
  }

  /** The creation-date line. */
  function DateBlock(dateText: string): string
  {
    "<p>Tanggal Dibuat: " + dateText + "</p>"
  }

  /** The main content: custom HTML when set, else the table when there are
      both headers and data, else nothing. */
  function MainContent(c: Content, toUpper: string -> string): string
  {
    if c.customHtml != "" then c.customHtml
    else if c.headers != [] && c.data != [] then TableHtml(c.headers, c.data, c.headerColor, c.evenColor, c.oddColor, toUpper)
    else ""
  }

  /** The page after `head`: title, date, rule, prefix, main content, suffix
      and the closing tags; each optional part is appended only when present. */
  function PageHtml(head: string, c: Content, dateText: string, toUpper: string -> string): string
  {
    var withTitle := if c.title != "" then head + TitleBlock(c.title) else head;
    var withDate := if c.showDate then withTitle + DateBlock(dateText) else withTitle;
    var ruled := withDate + "<hr/>";
    var withPrefix := if c.prefixHtml != "" then ruled + c.prefixHtml else ruled;
    var withMain := if c.customHtml != "" then withPrefix + c.customHtml
                    else if c.headers != [] && c.data != [] then withPrefix + TableHtml(c.headers, c.data, c.headerColor, c.evenColor, c.oddColor, toUpper)
                    else withPrefix;
    var withSuffix := if c.suffixHtml != "" then withMain + c.suffixHtml else withMain;
    withSuffix + "</body></html>"
  }

  /** The report page, opening with the fixed style sheet. */
  function ReportHtml(c: Content, dateText: string, toUpper: string -> string): string
  {
    PageHtml(StyleHead, c, dateText, toUpper)
  }

  /** The opening of the page: the head, the title heading exactly when the
      title is set, the date line exactly when it is shown, then the rule. */
  function Opening(head: string, c: Content, dateText: string): string
  {
    head + (if c.title != "" then TitleBlock(c.title) else "") + (if c.showDate then DateBlock(dateText) else "") + "<hr/>"
  }

  /** The page is its opening, the prefix, the main content, the suffix and
      the closing tags, in that order. */
  lemma PageLayout(head: string, c: Content, dateText: string, toUpper: string -> string)
    ensures PageHtml(head, c, dateText, toUpper)
         == Opening(head, c, dateText) + (c.prefixHtml + MainContent(c, toUpper) + c.suffixHtml) + "</body></html>"
  {
    AppendEmpty(head);
    var withTitle := head + (if c.title != "" then TitleBlock(c.title) else "");
    AppendEmpty(withTitle);
    var ruled := Opening(head, c, dateText);
    AppendEmpty(ruled);
    var withPrefix := ruled + c.prefixHtml;
    AppendEmpty(withPrefix);
    var withMain := withPrefix + MainContent(c, toUpper);
    AppendEmpty(withMain);
    AppendAssoc(ruled, c.prefixHtml, MainContent(c, toUpper), c.suffixHtml);
  }

  /** The page starts with its opening, whose parts appear exactly when
      enabled, and ends with the closing tags. */
  lemma PageFrame(head: string, c: Content, dateText: string, toUpper: string -> string)
    ensures var html := PageHtml(head, c, dateText, toUpper);
      && StartsWith(html, Opening(head, c, dateText))
      && |html| >= 14 && html[|html| - 14..] == "</body></html>"
    ensures c.title != "" && c.showDate ==> Opening(head, c, dateText) == head + TitleBlock(c.title) + DateBlock(dateText) + "<hr/>"
    ensures c.title != "" && !c.showDate ==> Opening(head, c, dateText) == head + TitleBlock(c.title) + "<hr/>"
    ensures c.title == "" && c.showDate ==> Opening(head, c, dateText) == head + DateBlock(dateText) + "<hr/>"
    ensures c.title == "" && !c.showDate ==> Opening(head, c, dateText) == head + "<hr/>"
  {
    PageLayout(head, c, dateText, toUpper);
    var rest := c.prefixHtml + MainContent(c, toUpper) + c.suffixHtml;
    var html := PageHtml(head, c, dateText, toUpper);
    assert html[..|Opening(head, c, dateText)|] == Opening(head, c, dateText);
    assert html == (Opening(head, c, dateText) + rest) + "</body></html>";
    AppendEmpty(head);
    AppendEmpty(head + (if c.title != "" then TitleBlock(c.title) else ""));
  }

  /** Prefix and suffix surround the main content verbatim: the prefix comes
      right before it and the suffix right after it; custom HTML, when set, is
      the main content, else the table when there are headers and data. */
  lemma PageMainContent(head: string, c: Content, dateText: string, toUpper: string -> string)
    ensures var html := PageHtml(head, c, dateText, toUpper);
      && Contains(html, c.prefixHtml + MainContent(c, toUpper) + c.suffixHtml)
      && (c.customHtml != "" ==> Contains(html, c.prefixHtml + c.customHtml + c.suffixHtml))
      && (c.customHtml == "" && c.headers != [] && c.data != [] ==>
            Contains(html, c.prefixHtml + TableHtml(c.headers, c.data, c.headerColor, c.evenColor, c.oddColor, toUpper) + c.suffixHtml))
  {
    PageLayout(head, c, dateText, toUpper);
    ContainsMiddle(Opening(head, c, dateText), c.prefixHtml + MainContent(c, toUpper) + c.suffixHtml, "</body></html>");
  }

  /** Without custom HTML and without a table, the suffix follows the prefix
      right after the rule and is followed by the closing tags. */
  lemma PageWithoutContent(head: string, c: Content, dateText: string, toUpper: string -> string)
    requires c.customHtml == "" && (c.headers == [] || c.data == [])
    ensures Contains(PageHtml(head, c, dateText, toUpper), "<hr/>" + c.prefixHtml + c.suffixHtml + "</body></html>")
  {
    PageLayout(head, c, dateText, toUpper);
    var before := head + (if c.title != "" then TitleBlock(c.title) else "") + (if c.showDate then DateBlock(dateText) else "");
    var middle := c.prefixHtml + c.suffixHtml;
    assert MainContent(c, toUpper) == "";
    AppendEmpty(c.prefixHtml);
    assert c.prefixHtml + MainContent(c, toUpper) + c.suffixHtml == middle;
    AppendAssoc(before, "<hr/>", middle, "</body></html>");
    assert "<hr/>" + middle == "<hr/>" + c.prefixHtml + c.suffixHtml;
    ContainsMiddle(before, "<hr/>" + middle + "</body></html>", "");
    AppendEmpty(before + ("<hr/>" + middle + "</body></html>"));
  }

  /** Custom HTML replaces the table: with custom HTML set, the page does not
      depend on the headers, the data, the colours or the upper-casing. */
  lemma CustomHtmlOverridesTable(head: string, c: Content, c': Content, dateText: string,
                                 toUpper: string -> string, toUpper': string -> string)
    requires c.customHtml != ""
    requires c' == c.(headers := c'.headers, data := c'.data, headerColor := c'.headerColor,
                      evenColor := c'.evenColor, oddColor := c'.oddColor)
    ensures PageHtml(head, c, dateText, toUpper) == PageHtml(head, c', dateText, toUpper')
  {
  }

  /** A table needs both headers and data: without either, the page does not
      depend on the other, on the colours or on the upper-casing. */
  lemma NoTableWithoutHeadersAndData(head: string, c: Content, c': Content, dateText: string,
                                     toUpper: string -> string, toUpper': string -> string)
    requires c.customHtml == "" && (c.headers == [] || c.data == [])
    requires c'.customHtml == "" && (c'.headers == [] || c'.data == [])
    requires c' == c.(headers := c'.headers, data := c'.data, headerColor := c'.headerColor,
                      evenColor := c'.evenColor, oddColor := c'.oddColor)
    ensures PageHtml(head, c, dateText, toUpper) == PageHtml(head, c', dateText, toUpper')
  {
  }

  // ---------------------------------------------------------------------------
  // The exporter object

  datatype PageSize = A4 | OtherPageSize(id: int)
  datatype Orientation = Portrait | Landscape

  /** One rendering of the page into a PDF file. */
  datatype PdfJob = PdfJob(filePath: string, html: string, pageSize: PageSize, orientation: Orientation)

  class PdfExporter {
    var title: string
    var showDate: bool
    var dateFormat: string
    var pageSize: PageSize
    var orientation: Orientation
    var headers: seq<string>
    var data: seq<seq<string>>
    var headerColor: string
    var zebraEvenColor: string
    var zebraOddColor: string
    var customHtml: string
    var prefixHtml: string
    var suffixHtml: string
    var lastGeneratedHtml: string

    constructor()
      ensures showDate && dateFormat == "dd MMMM yyyy, hh:mm:ss"
      ensures pageSize == A4 && orientation == Portrait
      ensures headerColor == "#D3D3D3" && zebraEvenColor == "#FFFFFF" && zebraOddColor == "#F0F0F0"
      ensures title == "" && headers == [] && data == []
      ensures customHtml == "" && prefixHtml == "" && suffixHtml == "" && lastGeneratedHtml == ""
    {
      title := "";
      showDate := true;
      dateFormat := "dd MMMM yyyy, hh:mm:ss";
      pageSize := A4;
      orientation := Portrait;
      headers := [];
      data := [];
      headerColor := "#D3D3D3";
      zebraEvenColor := "#FFFFFF";
      zebraOddColor := "#F0F0F0";
      customHtml := "";
      prefixHtml := "";
      suffixHtml := "";
      lastGeneratedHtml := "";
    }

    /** The settings the page is generated from. */
    function PageContent(): Content
      reads this`title, this`showDate, this`headers, this`data, this`headerColor, this`zebraEvenColor,
            this`zebraOddColor, this`customHtml, this`prefixHtml, this`suffixHtml
    {
      Content(title, showDate, headers, data, headerColor, zebraEvenColor, zebraOddColor,
              customHtml, prefixHtml, suffixHtml)
    }

    method SetTitle(t: string)
      modifies this`title
      ensures title == t
    {
      title := t;
    }

    method SetShowDate(show: bool)
      modifies this`showDate
      ensures showDate == show
    {
      showDate := show;
    }

    method SetDateFormat(format: string)
      modifies this`dateFormat
      ensures dateFormat == format
    {
      dateFormat := format;
    }

    method SetPageSize(size: PageSize)
      modifies this`pageSize
      ensures pageSize == size
    {
      pageSize := size;
    }

    method SetPageOrientation(o: Orientation)
      modifies this`orientation
      ensures orientation == o
    {
      orientation := o;
    }

    method SetTableHeaders(h: seq<string>)
      modifies this`headers
      ensures headers == h
    {
      headers := h;
    }

    method SetTableData(d: seq<seq<string>>)
      modifies this`data
      ensures data == d
    {
      data := d;
    }

    method SetHeaderColor(color: string)
      modifies this`headerColor
      ensures headerColor == color
    {
      headerColor := color;
    }

    method SetZebraColors(evenColor: string, oddColor: string)
      modifies this`zebraEvenColor, this`zebraOddColor
      ensures zebraEvenColor == evenColor && zebraOddColor == oddColor
    {
      zebraEvenColor := evenColor;
      zebraOddColor := oddColor;
    }

    method SetCustomHtml(html: string)
      modifies this`customHtml
      ensures customHtml == html
    {
      customHtml := html;
    }

    method SetPrefixHtml(html: string)
      modifies this`prefixHtml
      ensures prefixHtml == html
    {
      prefixHtml := html;
    }

    method SetSuffixHtml(html: string)
      modifies this`suffixHtml
      ensures suffixHtml == html
    {
      suffixHtml := html;
    }

    /** Builds the table row by row, striping rows by a running row counter. */
    method GenerateTableHtml(toUpper: string -> string) returns (tableHtml: string)
      ensures tableHtml == TableHtml(headers, data, headerColor, zebraEvenColor, zebraOddColor, toUpper)
    {
      tableHtml := "<table width='100%'>";
      if |headers| > 0 {
        var open := tableHtml + RowOpen(headerColor);
        tableHtml := open;
        ghost var cells := HeaderCells(headers, toUpper);
        for j := 0 to |headers|
          invariant tableHtml == open + Concat(cells[..j])
        {
          ConcatStep(open, cells, j);
          tableHtml := tableHtml + ("<th>" + EscapeHtml(toUpper(headers[j])) + "</th>");
        }
        assert cells[..|headers|] == cells;
        tableHtml := tableHtml + "</tr>";
        AppendAssoc("<table width='100%'>", RowOpen(headerColor), Concat(cells), "</tr>");
      }
      var head := tableHtml;
      ghost var rows := DataRows(data, |headers|, zebraEvenColor, zebraOddColor);
      var rowCount := 0;
      for r := 0 to |data|
        invariant rowCount == r
        invariant tableHtml == head + Concat(rows[..r])
      {
        var row := data[r];
        var rowColor := if rowCount % 2 == 0 then zebraEvenColor else zebraOddColor;
        tableHtml := AppendDataRow(tableHtml, row, rowColor);
        assert rows[r] == RowHtml(rowColor, row, |headers|);
        ConcatStep(head, rows, r);
        rowCount := rowCount + 1;
      }
      assert rows[..|data|] == rows;
      tableHtml := tableHtml + "</table>";
    }

    /** Appends one data row: its opening tag in the row's colour, the
        escaped values of the first min(|row|, |headers|) fields, empty cells
        up to the header count, and the closing tag. */
    method AppendDataRow(tableHtml: string, row: seq<string>, rowColor: string) returns (out: string)
      ensures out == tableHtml + RowHtml(rowColor, row, |headers|)
    {
      out := tableHtml + RowOpen(rowColor);
      var open := out;
      ghost var cells := RowCells(row, |headers|);
      var colCount := if |row| <= |headers| then |row| else |headers|;
      for i := 0 to colCount
        invariant out == open + Concat(cells[..i])
      {
        ConcatStep(open, cells, i);
        out := out + DataCell(row[i]);
      }
      for i := colCount to |headers|
        invariant out == open + Concat(cells[..i])
      {
        ConcatStep(open, cells, i);
        out := out + EmptyCell;
      }
      assert cells[..|headers|] == cells;
      out := out + "</tr>";
      AppendAssoc(tableHtml, RowOpen(rowColor), Concat(cells), "</tr>");
    }

    /** Builds the page and remembers it; `formatNow` renders the current time
        in the given date format. */
    method GenerateHtml(toUpper: string -> string, formatNow: string -> string) returns (html: string)
      modifies this`lastGeneratedHtml
      ensures html == ReportHtml(PageContent(), formatNow(dateFormat), toUpper)
      ensures lastGeneratedHtml == html
    {
      html := StyleHead;
      if title != "" {
        html := html + TitleBlock(title);
      }
      if showDate {
        var currentDate := formatNow(dateFormat);
        html := html + DateBlock(currentDate);
      }
      html := html + "<hr/>";
      if prefixHtml != "" {
        html := html + prefixHtml;
      }
      if customHtml != "" {
        html := html + customHtml;
      } else if headers != [] && data != [] {
        var table := GenerateTableHtml(toUpper);
        html := html + table;
      }
      if suffixHtml != "" {
        html := html + suffixHtml;
      }
      html := html + "</body></html>";
      lastGeneratedHtml := html;
    }

    /** The page produced by the last generation. */
    function GetGeneratedHtml(): (html: string)
      reads this
      ensures html == lastGeneratedHtml
    {
      lastGeneratedHtml
    }

    /** Renders the page to `filePath`; an empty path is refused before any
        page is generated. */
    method ExportToPdf(filePath: string, toUpper: string -> string, formatNow: string -> string)
      returns (ok: bool, job: Option<PdfJob>)
      modifies this`lastGeneratedHtml
      ensures ok <==> filePath != ""
      ensures !ok ==> job.None? && lastGeneratedHtml == old(lastGeneratedHtml)
      ensures ok ==> lastGeneratedHtml == ReportHtml(PageContent(), formatNow(dateFormat), toUpper)
      ensures ok ==> job == Some(PdfJob(filePath, lastGeneratedHtml, pageSize, orientation))
    {
      if filePath == "" {
        return false, None;
      }
      var html := GenerateHtml(toUpper, formatNow);
      job := Some(PdfJob(filePath, html, pageSize, orientation));
      ok := true;
    }

    /** Empties the report content; the date, page and colour settings stay. */
    method ClearData()
      modifies this`title, this`headers, this`data, this`customHtml, this`prefixHtml,
               this`suffixHtml, this`lastGeneratedHtml
      ensures title == "" && headers == [] && data == []
      ensures customHtml == "" && prefixHtml == "" && suffixHtml == "" && lastGeneratedHtml == ""
    {
      title := "";
      headers := [];
      data := [];
      customHtml := "";
      prefixHtml := "";
      suffixHtml := "";
      lastGeneratedHtml := "";
    }
  }
}
