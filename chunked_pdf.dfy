/** The legacy chunked PDF exporter: rows are laid out in an in-memory text
    document holding one four-column table, and every `chunkSize` rows the
    document is printed and replaced by a fresh one. The printer is modelled
    as the sequence of documents handed to it since it was pointed at the
    current file; a document is modelled by its optional title block and its
    table (header row plus data rows). */
module ChunkedPdf {
  import opened CInt

  /** Rows held in memory before a flush when no positive size is given. */
  const RowsPerChunk: int := 500
  /** Columns of the table laid out in every document. */
  const NumColumns: int := 4

  datatype Option<T> = None | Some(value: T)

  /** The title line and the label line written above the first table. */
  datatype Preamble = Preamble(titleLine: string, labelLine: string)

  /** A table: its header row and its data rows, each of `NumColumns` cells. */
  datatype Table = Table(header: seq<string>, rows: seq<seq<string>>)

  /** An in-memory text document: an optional title block and an optional table. */
  datatype Doc = Doc(preamble: Option<Preamble>, table: Option<Table>)

  /** A freshly created document. */
  const EmptyDoc: Doc := Doc(None, None)

  function Min(a: int, b: int): int
  {
    if a <= b then a else b
  }

  /** The cells of one table row: the first min(|values|, 4) cells carry the
      values, the remaining cells stay empty, surplus values are dropped. */
  function Cells(values: seq<string>): (r: seq<string>)
    ensures |r| == NumColumns
    ensures r[..Min(|values|, NumColumns)] == values[..Min(|values|, NumColumns)]
    ensures forall c :: Min(|values|, NumColumns) <= c < NumColumns ==> r[c] == ""
  {
    seq(NumColumns, c requires 0 <= c < NumColumns => if c < |values| then values[c] else "")
  }

  /** The title block: the title on its own line, then the label with the
      generation time and a blank line. */
  function PreambleOf(title: string, labelText: string, now: string): Preamble
  {
    Preamble(title + "\n", labelText + " (Generated: " + now + ")\n\n")
  }

  /** The layout written into a fresh document: the title block when asked
      for, then a table with the column headers and no data rows yet. */
  function Layout(withPreamble: bool, title: string, labelText: string, headers: seq<string>, now: string): (d: Doc)
    ensures d.preamble.Some? <==> withPreamble
    ensures d.table == Some(Table(Cells(headers), []))
  {
    Doc(if withPreamble then Some(PreambleOf(title, labelText, now)) else None,
        Some(Table(Cells(headers), [])))
  }

  // ---------------------------------------------------------------------------
  // What an export prints

  /** Consecutive rows cut into blocks of `size`, the last block possibly shorter. */
  function Chunks(rows: seq<seq<string>>, size: int): seq<seq<seq<string>>>
    requires size >= 1
    decreases |rows|
  {
    if |rows| == 0 then []
    else if |rows| <= size then [rows]
    else [rows[..size]] + Chunks(rows[size..], size)
  }

  /** The document printed for block `i`: only the first carries the title block. */
  function Section(i: int, preamble: Preamble, headers: seq<string>, rows: seq<seq<string>>): Doc
  {
    Doc(if i == 0 then Some(preamble) else None, Some(Table(Cells(headers), rows)))
  }

  /** The documents printed for `rows` written in blocks of `size`. */
  function Sections(preamble: Preamble, headers: seq<string>, rows: seq<seq<string>>, size: int): (r: seq<Doc>)
    requires size >= 1
  {
    var blocks := Chunks(rows, size);
    seq(|blocks|, i requires 0 <= i < |blocks| => Section(i, preamble, headers, blocks[i]))
  }

  /** Concatenation of the data rows of printed documents. */
  function PrintedRows(docs: seq<Doc>): seq<seq<string>>
    decreases |docs|
  {
    if |docs| == 0 then []
    else (if docs[0].table.Some? then docs[0].table.value.rows else []) + PrintedRows(docs[1..])
  }

  /** Completing one more block after whole blocks adds exactly that block. */
  lemma {:induction false} ChunksSnoc(rows: seq<seq<string>>, k: nat, size: int, extra: seq<seq<string>>)
    requires size >= 1 && |rows| == k * size && 0 < |extra| <= size
    ensures Chunks(rows + extra, size) == Chunks(rows, size) + [extra]
    decreases k
  {
    if k == 0 {
      assert rows + extra == extra;
    } else {
      assert k * size == (k - 1) * size + size;
      MulLess(0, k - 1, size);
      var rest := rows[size..];
      assert (rows + extra)[..size] == rows[..size];
      assert (rows + extra)[size..] == rest + extra;
      ChunksSnoc(rest, k - 1, size, extra);
      if k == 1 {
        assert rows[..size] == rows && rest == [];
      }
    }
  }

  /** The printed documents grow by one section per completed block. */
  lemma SectionsSnoc(preamble: Preamble, headers: seq<string>, rows: seq<seq<string>>, k: nat, size: int, extra: seq<seq<string>>)
    requires size >= 1 && |rows| == k * size && 0 < |extra| <= size
    ensures Sections(preamble, headers, rows + extra, size)
         == Sections(preamble, headers, rows, size) + [Section(|Sections(preamble, headers, rows, size)|, preamble, headers, extra)]
  {
    ChunksSnoc(rows, k, size, extra);
  }

  /** `n` rows give ⌈n / size⌉ blocks. */
  lemma {:induction false} ChunksCount(rows: seq<seq<string>>, size: int)
    requires size >= 1
    ensures |Chunks(rows, size)| == (|rows| + size - 1) / size
    decreases |rows|
  {
    var n := |rows|;
    if n == 0 {
      DivUnique(size - 1, size, 0);
    } else if n <= size {
      DivUnique(n + size - 1, size, 1);
    } else {
      ChunksCount(rows[size..], size);
      var q := (n - 1) / size;
      DivUnique(n - 1, size, q);
      DivUnique(n + size - 1, size, q + 1);
    }
  }

  /** Every block but the last is full, the last holds between 1 and `size`
      rows, and the blocks together are the rows in order. */
  lemma {:induction false} ChunksShape(rows: seq<seq<string>>, size: int)
    requires size >= 1
    ensures forall i :: 0 <= i < |Chunks(rows, size)| - 1 ==> |Chunks(rows, size)[i]| == size
    ensures |Chunks(rows, size)| > 0 ==> 0 < |Chunks(rows, size)[|Chunks(rows, size)| - 1]| <= size
    ensures Flatten(Chunks(rows, size)) == rows
    decreases |rows|
  {
    if |rows| > size {
      ChunksShape(rows[size..], size);
      assert rows == rows[..size] + rows[size..];
    } else if |rows| > 0 {
      assert Flatten([rows]) == rows + Flatten([]);
    }
  }

  /** Concatenation of blocks of rows. */
  function Flatten(blocks: seq<seq<seq<string>>>): seq<seq<string>>
    decreases |blocks|
  {
    if |blocks| == 0 then [] else blocks[0] + Flatten(blocks[1..])
  }

  /** Documents whose tables hold the given blocks carry exactly those rows, in order. */
  lemma {:induction false} PrintedBlocks(docs: seq<Doc>, blocks: seq<seq<seq<string>>>)
    requires |docs| == |blocks|
    requires forall i :: 0 <= i < |docs| ==> docs[i].table.Some? && docs[i].table.value.rows == blocks[i]
    ensures PrintedRows(docs) == Flatten(blocks)
    decreases |docs|
  {
    if |docs| > 0 {
      PrintedBlocks(docs[1..], blocks[1..]);
    }
  }

  /** An export of `n` rows prints ⌈n / size⌉ documents: all are full but the
      last, only the first carries the title block, every one repeats the
      header row, and together they hold every row in order. */
  lemma SectionsShape(preamble: Preamble, headers: seq<string>, rows: seq<seq<string>>, size: int)
    requires size >= 1
    ensures var docs := Sections(preamble, headers, rows, size);
      && |docs| == (|rows| + size - 1) / size
      && (forall i :: 0 <= i < |docs| ==> docs[i].table.Some? && docs[i].table.value.header == Cells(headers))
      && (forall i :: 0 <= i < |docs| ==> (docs[i].preamble == Some(preamble) <==> i == 0))
      && (forall i :: 0 <= i < |docs| ==> (docs[i].preamble.None? <==> i > 0))
      && (forall i :: 0 <= i < |docs| - 1 ==> |docs[i].table.value.rows| == size)
      && (|docs| > 0 ==> 0 < |docs[|docs| - 1].table.value.rows| <= size)
      && PrintedRows(docs) == rows
  {
    ChunksCount(rows, size);
    ChunksShape(rows, size);
    PrintedBlocks(Sections(preamble, headers, rows, size), Chunks(rows, size));
  }

  // ---------------------------------------------------------------------------
  // Counter arithmetic

  /** With `k` blocks printed and the counter inside block `k`, the next row
      ends block `k` exactly when the counter then is a multiple of `size`. */
  lemma CounterStep(total: int, k: int, size: int)
    requires size >= 1 && k * size <= total < (k + 1) * size
    ensures (total + 1) % size == 0 <==> total + 1 == (k + 1) * size
    ensures total + 1 == (k + 1) * size ==> total + 1 < (k + 2) * size
  {
    if total + 1 < (k + 1) * size {
      DivUnique(total + 1, size, k);
    } else {
      DivUnique(total + 1, size, k + 1);
    }
  }

  // ---------------------------------------------------------------------------
  // Progress of an open export

  /** An open export past its first row: `k` documents printed, each a full
      block of `written`, and the rest of the rows in the current document. */
  ghost predicate ProgressOf(preamble: Preamble, headers: seq<string>, size: int,
                             written: seq<seq<string>>, printed: seq<Doc>, document: Option<Doc>)
    requires size >= 1
  {
    var k := |printed|;
    && k * size <= |written| < (k + 1) * size
    && printed == Sections(preamble, headers, written[..k * size], size)
    && document == Some(Section(k, preamble, headers, written[k * size..]))
  }

  /** One more row keeps the progress invariant: it lands in the current
      document, which is printed and replaced by an empty table exactly when
      the row count becomes a multiple of `size`. */
  lemma WriteStep(preamble: Preamble, headers: seq<string>, size: int, written: seq<seq<string>>,
                  printed: seq<Doc>, pending: seq<seq<string>>, cells: seq<string>)
    requires size >= 1
    ensures var k := |printed|;
      var doc' := Section(k, preamble, headers, pending + [cells]);
      ProgressOf(preamble, headers, size, written, printed, Some(Section(k, preamble, headers, pending))) ==>
        && ((|written| + 1) % size == 0 ==>
              ProgressOf(preamble, headers, size, written + [cells], printed + [doc'], Some(Section(k + 1, preamble, headers, []))))
        && ((|written| + 1) % size != 0 ==>
              ProgressOf(preamble, headers, size, written + [cells], printed, Some(doc')))
  {
    var k := |printed|;
    if ProgressOf(preamble, headers, size, written, printed, Some(Section(k, preamble, headers, pending))) {
      var w := written + [cells];
      assert pending == written[k * size..];
      assert w[k * size..] == pending + [cells];
      assert w[..k * size] == written[..k * size];
      CounterStep(|written|, k, size);
      if (|written| + 1) % size == 0 {
        assert w[..(k + 1) * size] == written[..k * size] + w[k * size..];
        SectionsSnoc(preamble, headers, written[..k * size], k, size, w[k * size..]);
        assert w[(k + 1) * size..] == [];
      }
    }
  }

  /** Closing prints the current document exactly when it holds rows, and
      then the printed documents are all the sections of the export. */
  lemma CloseStep(preamble: Preamble, headers: seq<string>, size: int, written: seq<seq<string>>,
                  printed: seq<Doc>, document: Option<Doc>)
    requires size >= 1
    ensures ProgressOf(preamble, headers, size, written, printed, document) ==>
      && document.Some?
      && (|written| % size == 0 ==> printed == Sections(preamble, headers, written, size))
      && (|written| % size != 0 ==> printed + [document.value] == Sections(preamble, headers, written, size))
  {
    var k := |printed|;
    if ProgressOf(preamble, headers, size, written, printed, document) {
      DivUnique(|written|, size, k);
      if |written| % size != 0 {
        assert written == written[..k * size] + written[k * size..];
        SectionsSnoc(preamble, headers, written[..k * size], k, size, written[k * size..]);
      } else {
        assert written[..k * size] == written;
      }
    }
  }

  // ---------------------------------------------------------------------------
  // The exporter object

  class ChunkedPdfExporter {
    const title: string
    const labelText: string
    const columnHeaders: seq<string>
    var chunkSize: int
    var totalRowsWritten: int
    var isOpen: bool
    var isFirstChunk: bool
    /** The in-memory document; `None` once released. */
    var document: Option<Doc>
    /** Documents printed to the current output file, in order. */
    var printed: seq<Doc>
    /** The output file name given to the printer. */
    var outputPath: string
    /** Cells of every row counted since the export was opened. */
    ghost var written: seq<seq<string>>
    /** The title block laid out on the first chunk. */
    ghost var preamble: Preamble

    /** The progress invariant on this object's fields. */
    ghost predicate Progress()
      reads this
      requires chunkSize >= 1
    {
      ProgressOf(preamble, columnHeaders, chunkSize, written, printed, document)
    }

    ghost predicate Valid()
      reads this
    {
      && chunkSize >= 1
      && totalRowsWritten == |written|
      && (!isOpen ==> document.None? && printed == Sections(preamble, columnHeaders, written, chunkSize))
      && (isOpen && isFirstChunk ==> document == Some(EmptyDoc) && written == [] && printed == [])
      && (isOpen && !isFirstChunk ==> Progress())
    }

    /** A chunk size of zero or less falls back to `RowsPerChunk`. */
    constructor(title: string, labelText: string, columnHeaders: seq<string>, bufferSize: int)
      ensures Valid()
      ensures this.title == title && this.labelText == labelText && this.columnHeaders == columnHeaders
      ensures chunkSize == (if bufferSize <= 0 then RowsPerChunk else bufferSize)
      ensures totalRowsWritten == 0 && !isOpen && isFirstChunk
      ensures document.None? && printed == [] && outputPath == ""
    {
      this.title := title;
      this.labelText := labelText;
      this.columnHeaders := columnHeaders;
      chunkSize := if bufferSize <= 0 then RowsPerChunk else bufferSize;
      totalRowsWritten := 0;
      isOpen := false;
      isFirstChunk := true;
      document := None;
      printed := [];
      outputPath := "";
      written := [];
      preamble := Preamble("", "");
    }

    /** Points the printer at `filePath` and starts over with a fresh document. */
    method OpenExport(filePath: string) returns (ok: bool)
      requires Valid()
      modifies this
      ensures Valid()
      ensures ok
      ensures outputPath == filePath && printed == []
      ensures document == Some(EmptyDoc) && totalRowsWritten == 0 && isFirstChunk && isOpen
      ensures written == [] && preamble == old(preamble)
      ensures chunkSize == old(chunkSize)
    {
      outputPath := filePath;
      printed := [];
      document := Some(EmptyDoc);
      totalRowsWritten := 0;
      isFirstChunk := true;
      isOpen := true;
      written := [];
      ok := true;
    }

    /** Prints the current document and replaces it by a fresh one. */
    method FlushBuffer()
      modifies this`printed, this`document
      ensures old(document).None? ==> printed == old(printed) && document.None?
      ensures old(document).Some? ==> printed == old(printed) + [old(document).value] && document == Some(EmptyDoc)
    {
      if document.None? {
        return;
      }
      printed := printed + [document.value];
      document := Some(EmptyDoc);
    }

    /** Writes the title block (when asked for) and the table with its header
        row into the fresh document. */
    method InitializeDocumentLayout(includeHeaderContent: bool, now: string)
      requires document == Some(EmptyDoc)
      modifies this`document
      ensures document == Some(Layout(includeHeaderContent, title, labelText, columnHeaders, now))
    {
      document := Some(Layout(includeHeaderContent, title, labelText, columnHeaders, now));
    }

    /** Appends one row to the table; `now` is the time shown in the title
        block when this row starts the export. */
    method WriteRow(rowData: seq<string>, now: string)
      requires Valid()
      modifies this
      ensures Valid()
      ensures !old(isOpen) || old(document).None? ==>
        && isOpen == old(isOpen) && document == old(document) && printed == old(printed)
        && totalRowsWritten == old(totalRowsWritten) && written == old(written)
        && isFirstChunk == old(isFirstChunk) && preamble == old(preamble)
      ensures old(isOpen) && old(document).Some? ==>
        && isOpen && !isFirstChunk
        && totalRowsWritten == old(totalRowsWritten) + 1
        && written == old(written) + [Cells(rowData)]
        && (old(isFirstChunk) ==> preamble == PreambleOf(title, labelText, now))
        && (totalRowsWritten % chunkSize == 0 <==> |printed| == |old(printed)| + 1)
        && (totalRowsWritten % chunkSize != 0 ==> printed == old(printed))
      ensures !old(isFirstChunk) ==> preamble == old(preamble)
      ensures old(printed) <= printed
      ensures chunkSize == old(chunkSize) && outputPath == old(outputPath)
    {
      if !isOpen || document.None? {
        return;
      }
      if isFirstChunk {
        InitializeDocumentLayout(true, now);
        isFirstChunk := false;
        preamble := PreambleOf(title, labelText, now);
      }
      // A document without a table closes the export and drops the row.
      var doc := document.value;
      isOpen := doc.table.Some?;
      if doc.table.None? {
        return;
      }
      var table := doc.table.value;
      WriteStep(preamble, columnHeaders, chunkSize, written, printed, table.rows, Cells(rowData));
      document := Some(doc.(table := Some(table.(rows := table.rows + [Cells(rowData)]))));
      totalRowsWritten := totalRowsWritten + 1;
      written := written + [Cells(rowData)];
      if totalRowsWritten % chunkSize == 0 && totalRowsWritten > 0 {
        FlushBuffer();
        InitializeDocumentLayout(false, now);
      }
    }

    /** Prints what is left and releases the document. */
    method CloseExport()
      requires Valid()
      modifies this
      ensures Valid()
      ensures !isOpen && document.None?
      ensures old(isOpen) ==> printed == Sections(preamble, columnHeaders, written, chunkSize)
      ensures !old(isOpen) ==> printed == old(printed)
      ensures preamble == old(preamble) && old(printed) <= printed
      ensures isFirstChunk == old(isFirstChunk)
      ensures written == old(written) && totalRowsWritten == old(totalRowsWritten)
      ensures chunkSize == old(chunkSize) && outputPath == old(outputPath)
    {
      if !isOpen {
        return;
      }
      CloseStep(preamble, columnHeaders, chunkSize, written, printed, document);
      if totalRowsWritten % chunkSize != 0 {
        FlushBuffer();
      }
      isOpen := false;
      document := None;
    }
  }

  /** While an export is open, the automatic flushes so far number
      totalRowsWritten / chunkSize. */
  lemma AutomaticFlushes(e: ChunkedPdfExporter)
    requires e.Valid() && e.isOpen
    ensures |e.printed| == e.totalRowsWritten / e.chunkSize
  {
    if e.isFirstChunk {
      DivUnique(0, e.chunkSize, 0);
    } else {
      DivUnique(e.totalRowsWritten, e.chunkSize, |e.printed|);
    }
  }

  /** After closing, ⌈n / chunkSize⌉ documents have been printed and together
      they hold every counted row in order. */
  lemma ClosedExport(e: ChunkedPdfExporter)
    requires e.Valid() && !e.isOpen
    ensures |e.printed| == (e.totalRowsWritten + e.chunkSize - 1) / e.chunkSize
    ensures PrintedRows(e.printed) == e.written
  {
    SectionsShape(e.preamble, e.columnHeaders, e.written, e.chunkSize);
  }
}
