# CRUDMahasiswaQt core, modelled in Dafny

CRUDMahasiswaQt is a Qt desktop application that keeps a table of students
(`id`, `nama`, `npm`, `kelas`) in SQLite and exports them as CSV and PDF.
This project models the parts of it that carry logic, and proves what they
promise:

- `csv_exporter.dfy` (module `CsvExport`) covers the CSV exporter:
  - per-field quoting (`escapeField`) and line building (`buildCsvLine`);
  - the buffer-size heuristic (`calculateOptimalBufferSize`);
  - the periodic flush loop of `exportData`, with its error checks;
  - `exportDataWithHeaders` and the setters.
- `database_manager.dfy` (module `RecordStore`) covers the generic record layer:
  - SQL text and parameter bindings for INSERT, SELECT (with its COUNT query), UPDATE and DELETE;
  - the guards that refuse a statement;
  - the mapping of result fields to the student record by substring match on the field name.
- `chunked_pdf.dfy` (module `ChunkedPdf`) covers the older chunked PDF exporter.
  - Rows go into an in-memory document that is printed and replaced every `chunkSize` rows.
  - The title and label appear only in the first section.
- `html_report.dfy` (module `HtmlReport`) covers the HTML-based PDF exporter:
  - HTML escaping;
  - the zebra-striped table;
  - the report page with title, date, prefix, custom content and suffix;
  - the exporter object's settings and its `exportToPdf` path guard.
- `table_model.dfy` (module `StudentTable`) covers the item model behind the student list view.
- `qt_text.dfy` (module `QtText`) holds the few QString/QStringList operations the core uses:
  - substring containment;
  - `join`;
  - `length`, counted in UTF-16 code units as QString does;
  - decimal rendering.
- `c_int.dfy` (module `CInt`) holds C++ truncating integer division.

The database engine, the file system, the printer, the clock and Unicode
upper-casing are outside the model. They enter as parameters:
- `OpenResult` for opening the CSV file;
- `CountAnswer`, `QueryAnswer` and `ExecAnswer` for what SQLite answers;
- `now`/`formatNow` for the current time;
- `toUpper` for `QString::toUpper`;
- `junk` for the uninitialised `id` of a default-constructed `StudentsDataStruct`.

Each statement the record layer would execute is returned as a `Statement` value (SQL text plus bindings). Each CSV write is returned as a string in a sequence. Each PDF section printed is appended to a `printed` list.

Where the code behaves differently from what a caller would expect, the model follows the code:
- `selectRecords` and `selectRecordsToVector` run the data query even when the COUNT answer is 0. Only the rows are then dropped (helpers/databasemanager.cpp:142-154). The model sends both statements.
- `openExport` of the chunked exporter always reports success (pdfexporter_old.cpp:25).
- The rows between flushes are `bufferSize / max(50, bufferSize / n)`, not buffer size over average row size (modules/CSVExporter/csvexporter.cpp:68-69).
- Below 100 rows the buffer size is not bounded by the 100–999 bracket. The code is therefore not monotone in the row count across that boundary (`CsvExport.SmallExportCanOutsizeLarge`).
- `insertRecord` returns the same `-1` for a closed connection, an empty map and a failed statement.
- A CSV line does not always decode back to its row:
  - The empty row and the row of one empty field are both written as a lone LF (`CsvExport.EmptyFieldRowLine`).
  - With the delimiter `aa`, the rows `["a", ""]` and `["", "a"]` are both written as `aaa` (`CsvExport.LongDelimiterAmbiguous`).
  - With the empty delimiter, `["a", "b"]` and `["a\"b"]` are written alike (`CsvExport.EmptyDelimiterAmbiguous`).
  - With a one-character delimiter other than `"`, every other row decodes back exactly (`CsvExport.LineRoundTrip`).

## Model

| member | source | states |
|---|---|---|
| CsvExport.DoubleQuotesAppend | modules/CSVExporter/csvexporter.cpp:131-137 | Doubling the quotes of a concatenation is the concatenation of the doubled parts. |
| CsvExport.DoubleQuotesLength | modules/CSVExporter/csvexporter.cpp:131-137 | Doubling quotes adds exactly one character per `"` of the field. |
| CsvExport.CollapseDoubleQuotes | modules/CSVExporter/csvexporter.cpp:131-137 | Collapsing `""` to `"` undoes the doubling. |
| CsvExport.EscapedUnchanged | modules/CSVExporter/csvexporter.cpp:116-123 | A field containing none of the delimiter, `"`, LF and CR is written unchanged. |
| CsvExport.EscapedQuoted | modules/CSVExporter/csvexporter.cpp:125-140 | A field needing quotes is written as `"`, the field with quotes doubled, then `"`. Its length is the field's length + 2 + its number of quotes. |
| CsvExport.EscapeRoundTrip | modules/CSVExporter/csvexporter.cpp:114-141 | Stripping the outer quotes and collapsing doubled quotes recovers every field, for every delimiter. |
| CsvExport.EscapeField | modules/CSVExporter/csvexporter.cpp:114-141 | The quick check and the copy loop compute the escaped form of the field. |
| CsvExport.EscapedFields | modules/CSVExporter/csvexporter.cpp:152-159 | One escaped field per field of the row, in order. |
| CsvExport.EmptyRowLine | modules/CSVExporter/csvexporter.cpp:145-149 | An empty row is written as a lone line feed. |
| CsvExport.Lines | modules/CSVExporter/csvexporter.cpp:71-74 | One line per row, in row order. |
| CsvExport.BuildCsvLine | modules/CSVExporter/csvexporter.cpp:143-162 | Only appends to the caller's text. The old text stays a prefix, followed by the escaped fields joined by the delimiter and one LF. |
| CsvExport.PlainFieldRead | modules/CSVExporter/csvexporter.cpp:116-123 | A field written unquoted reads back up to the next delimiter. |
| CsvExport.QuotedTailRead | modules/CSVExporter/csvexporter.cpp:125-140 | A quoted field reads back with its doubled quotes collapsed, up to its closing quote. |
| CsvExport.ReadEscapedField | modules/CSVExporter/csvexporter.cpp:114-141 | With a one-character delimiter other than `"`, an escaped field followed by the delimiter or the line end reads back as the field. |
| CsvExport.SplitJoinedFields | modules/CSVExporter/csvexporter.cpp:143-162 | The escaped fields of a non-empty row, joined by such a delimiter, split back into the row. |
| CsvExport.JoinedRowNonEmpty | modules/CSVExporter/csvexporter.cpp:143-162 | Only the row of one empty field joins to the empty text. |
| CsvExport.LineRoundTrip | modules/CSVExporter/csvexporter.cpp:143-162 | With a one-character delimiter other than `"`, decoding a written line gives back its row, for every row except the row of one empty field. |
| CsvExport.EmptyFieldRowLine | modules/CSVExporter/csvexporter.cpp:143-162 | With a non-empty delimiter, the row of one empty field is written as a lone LF, exactly like the empty row. |
| CsvExport.LongDelimiterAmbiguous | modules/CSVExporter/csvexporter.cpp:143-162 | With the delimiter `aa`, two different rows are written as the same line. |
| CsvExport.EmptyDelimiterAmbiguous | modules/CSVExporter/csvexporter.cpp:114-162 | With the empty delimiter, every field is quoted and two different rows are written as the same line. |
| QtText.Utf16Length | modules/CSVExporter/csvexporter.cpp:178 | `QString::length` counts UTF-16 code units: between one and two per character, and exactly one per character when none lies above U+FFFF. |
| QtText.SupplementaryCharLength | modules/CSVExporter/csvexporter.cpp:178 | An emoji is one character but has length 2. |
| CsvExport.FieldsEstimate | modules/CSVExporter/csvexporter.cpp:175-179 | A row's estimate is the UTF-16 length of each field plus 3, so at least 3 per field. |
| CsvExport.SampleTotal | modules/CSVExporter/csvexporter.cpp:170-182 | The estimate of the first k rows adds 1 per row for its newline, so it is at least k. |
| CsvExport.AverageRowSize | modules/CSVExporter/csvexporter.cpp:170-184 | The average over the first min(10, n) rows, truncated, is at least 1. |
| CsvExport.OptimalBufferSize | modules/CSVExporter/csvexporter.cpp:164-217 | The chosen buffer size is always between 8192 and 1048576. |
| CsvExport.BufferSizeMonotone | modules/CSVExporter/csvexporter.cpp:190-214 | From 100 rows on, a higher size bracket gives a strictly larger buffer. From 1000 rows on, the size depends on the bracket alone. The 100–999 bracket stays within 32768..65536. |
| CsvExport.SmallExportFitsBuffer | modules/CSVExporter/csvexporter.cpp:190-194 | Below 100 rows the buffer holds the whole estimated export, up to the 1 MiB cap. |
| CsvExport.SmallExportCanOutsizeLarge | modules/CSVExporter/csvexporter.cpp:190-217 | An export of fewer than 100 long rows can get a larger buffer than any export of 100 rows or more. |
| CsvExport.CalculateOptimalBufferSize | modules/CSVExporter/csvexporter.cpp:164-217 | The two sampling loops and the brackets compute `OptimalBufferSize`. |
| CsvExport.RowsPerFlush | modules/CSVExporter/csvexporter.cpp:68-69 | At least one row is appended per flush, and never more than max(1, bufferSize / 50). |
| CsvExport.FlushPoint | modules/CSVExporter/csvexporter.cpp:76 | Between two consecutive multiples of the flush interval, only the upper one is a flush point. |
| CsvExport.WriteCountStep | modules/CSVExporter/csvexporter.cpp:71-88 | The number of writes for n rows, counted by flush points. |
| CsvExport.CsvTextSnoc | modules/CSVExporter/csvexporter.cpp:71-74 | Appending a row appends its line to the CSV text. |
| CsvExport.CsvTextNonEmpty | modules/CSVExporter/csvexporter.cpp:85 | The text of at least one row is never empty, so the final write happens exactly when rows are left in the buffer. |
| CsvExport.StreamStep | modules/CSVExporter/csvexporter.cpp:71-82 | Row-count bookkeeping of one loop iteration, flushing or not. |
| CsvExport.CsvTextAppend | modules/CSVExporter/csvexporter.cpp:71-88 | The text of consecutive blocks of rows is the text of their union. |
| CsvExport.BufferStep | modules/CSVExporter/csvexporter.cpp:73 | Appending a row's line to the buffer extends the buffered block by that row. |
| CsvExport.WriteStep | modules/CSVExporter/csvexporter.cpp:78-79 | Writing out the buffer moves its rows to the written prefix. |
| CsvExport.StreamAdvanceFlush | modules/CSVExporter/csvexporter.cpp:73-81 | An iteration at a flush point writes the buffer, including the current row, then empties it. |
| CsvExport.StreamAdvanceKeep | modules/CSVExporter/csvexporter.cpp:73 | An iteration elsewhere only adds the row's line to the buffer. |
| CsvExport.StreamAdvance | modules/CSVExporter/csvexporter.cpp:71-82 | One iteration keeps the loop invariant: writes plus buffer are the text of the rows seen so far. |
| CsvExport.FinishCount | modules/CSVExporter/csvexporter.cpp:84-88 | The number of writes at the end of the loop. |
| CsvExport.FinishTail | modules/CSVExporter/csvexporter.cpp:85-88 | A non-empty remainder is written as the last block, completing the text. |
| CsvExport.FinishFlushed | modules/CSVExporter/csvexporter.cpp:85 | An empty remainder means everything is already written. |
| CsvExport.StreamFinish | modules/CSVExporter/csvexporter.cpp:84-88 | After the loop, the writes (plus a non-empty remainder) are exactly the CSV text. |
| CsvExport.StreamRows | modules/CSVExporter/csvexporter.cpp:71-88 | Whatever the flush interval, the written strings concatenate to the CSV text of all rows in order. Their number is `WriteCount`, and none is empty. |
| CsvExport.HeaderedText | modules/CSVExporter/csvexporter.cpp:95-102 | The text of header plus data is the header line followed by the data's text. |
| CsvExport.CsvExporter.constructor | modules/CSVExporter/csvexporter.cpp:3-8 | Comma delimiter, size 0, automatic sizing on. |
| CsvExport.CsvExporter.SetDelimiter | modules/CSVExporter/csvexporter.cpp:12-15 | Sets the delimiter; nothing else changes. |
| CsvExport.CsvExporter.SetFilePath | modules/CSVExporter/csvexporter.cpp:17-20 | Sets the path; nothing else changes. |
| CsvExport.CsvExporter.SetBufferSize | modules/CSVExporter/csvexporter.cpp:22-26 | Sets the size. Automatic sizing is on exactly when the size is 0. |
| CsvExport.CsvExporter.SetAutoBufferSize | modules/CSVExporter/csvexporter.cpp:28-33 | Sets the flag. Turning it on resets the size to 0. |
| CsvExport.CsvExporter.ExportData | modules/CSVExporter/csvexporter.cpp:35-93 | Checks in order: path, then data, then opening the file, each with its error text. A failure writes nothing. Success clears the error and writes exactly the CSV text of all rows in `WriteCount` non-empty pieces. |
| CsvExport.CsvExporter.ExportDataWithHeaders | modules/CSVExporter/csvexporter.cpp:95-102 | Behaves as `ExportData` of the header row followed by the data. Success exactly when the path is set and the file opens. "No data to export" is never reported; the path and open errors carry their texts, and a failure writes nothing. Success clears the error and writes the header line, then the data's text, in `WriteCount` non-empty pieces for one row more than the data. |
| CsvExport.CsvExporter.GetLastError | modules/CSVExporter/csvexporter.cpp:104-107 | The message left by the last export. |
| CsvExport.CsvExporter.EffectiveBufferSize | modules/CSVExporter/csvexporter.cpp:60 | The size set by the caller, or with automatic sizing the computed one, which lies between 8192 and 1048576. |
| CInt.CDiv | modules/CSVExporter/csvexporter.cpp:68-69 | C++ `/` truncates toward zero: the remainder takes the sign of the dividend and is smaller than the divisor. |
| RecordStore.Keys | helpers/databasemanager.cpp:75 | The map's keys, one per entry, in the map's order. |
| RecordStore.ConditionBindings | helpers/databasemanager.cpp:144-147 | One binding per condition parameter, under its own name, in key order. |
| RecordStore.InsertPlaceholders | helpers/databasemanager.cpp:78-80 | One `:key` placeholder per key, in key order. |
| RecordStore.InsertSql | helpers/databasemanager.cpp:82 | The INSERT text names the table, every key and every key's placeholder. |
| RecordStore.InsertBindings | helpers/databasemanager.cpp:87-90 | Every value is bound to its key's placeholder, in key order. |
| RecordStore.BuildPlaceholders | helpers/databasemanager.cpp:77-80 | The loop builds the placeholders joined by ", ". |
| RecordStore.InsertPlaceholdersDistinct | helpers/databasemanager.cpp:75-90 | Distinct keys give distinct placeholders, so no binding overwrites another. |
| RecordStore.SetClauses | helpers/databasemanager.cpp:263-266 | One `key = :upd_key` clause per key, in key order. |
| RecordStore.UpdateSql | helpers/databasemanager.cpp:268 | The UPDATE text names the table, holds one SET clause per key, and holds the condition verbatim. |
| RecordStore.DeleteSql | helpers/databasemanager.cpp:299 | The DELETE text names the table and holds the condition verbatim. |
| RecordStore.UpdateBindings | helpers/databasemanager.cpp:274-282 | SET values bound to `:upd_` placeholders, followed by the condition parameters under their own names. |
| RecordStore.BuildSetClauses | helpers/databasemanager.cpp:263-266 | The loop builds exactly the SET clauses. |
| RecordStore.SetPlaceholdersApart | helpers/databasemanager.cpp:263-282 | When no condition parameter starts with `:upd_`, SET-side and WHERE-side placeholders never collide. |
| RecordStore.StatementTextIgnoresValues | helpers/databasemanager.cpp:71-291 | INSERT and UPDATE text depends only on the table, the keys and the condition, never on the values. |
| RecordStore.ColumnList | helpers/databasemanager.cpp:110-113 | An empty column list selects `*`. |
| RecordStore.CountSql | helpers/databasemanager.cpp:118 | The COUNT text names the table. |
| RecordStore.SelectSql | helpers/databasemanager.cpp:134-138 | The SELECT text names the table and every requested column. |
| RecordStore.ColumnListStar | helpers/databasemanager.cpp:110-113 | The projection is `*` exactly when no columns are given, or the only column is `*`. |
| RecordStore.SelectWhere | helpers/databasemanager.cpp:135-138 | ` WHERE <condition>` is appended exactly when the condition is non-empty. |
| RecordStore.CanonicalSlots | helpers/databasemanager.cpp:164-172 | `id`, `nama`, `npm`, `kelas` go to their own slots. `kelas_id` goes to `id`, because `id` is tested first. `alamat` is dropped. |
| RecordStore.IdSlotOf | helpers/databasemanager.cpp:164-165 | A field named `id` fills the id slot. |
| RecordStore.NamaSlotOf | helpers/databasemanager.cpp:166-167 | A field named `nama` fills the name slot. |
| RecordStore.NpmSlotOf | helpers/databasemanager.cpp:168-169 | A field named `npm` fills the student-number slot. |
| RecordStore.KelasSlotOf | helpers/databasemanager.cpp:170-171 | A field named `kelas` fills the class slot. |
| RecordStore.KelasIdSlotOf | helpers/databasemanager.cpp:164-171 | A field named `kelas_id` is routed to the id slot. |
| RecordStore.AlamatSlotOf | helpers/databasemanager.cpp:164-172 | A field named `alamat` goes to no slot. |
| RecordStore.UnroutedFieldDropped | helpers/databasemanager.cpp:162-173 | A field goes to no slot exactly when its name contains none of `id`, `nama`, `npm` and `kelas`. Such a field leaves the record unchanged and can be dropped from the end of any row. |
| RecordStore.SlotOf | helpers/databasemanager.cpp:164-172 | The slot of a field: the first of `id`, `nama`, `npm`, `kelas` its name contains, tested in that order. |
| RecordStore.FoldSnoc | helpers/databasemanager.cpp:162-173 | Reading one more field applies it to the record built so far. |
| RecordStore.LastOf | helpers/databasemanager.cpp:162-173 | The last field routed to a slot is one of the row's fields, routed to that slot. |
| RecordStore.MapRecordSlots | helpers/databasemanager.cpp:162-173 | Each slot holds the value of the last field routed to it, or keeps its default. |
| RecordStore.CanonicalRecord | helpers/databasemanager.cpp:158-174 | A row with id, nama, npm and kelas fields becomes exactly that student. |
| RecordStore.ReadStudent | helpers/databasemanager.cpp:158-173 | The field loop computes `MapRecord`. |
| RecordStore.RowStrings | helpers/databasemanager.cpp:234-248 | The vector row is never longer than the result row. |
| RecordStore.RowStringsLength | helpers/databasemanager.cpp:237-248 | The vector row has exactly one entry per column whose name matches a slot. |
| RecordStore.RowStringsSnoc | helpers/databasemanager.cpp:237-248 | One more field appends its text when it matches a slot. |
| RecordStore.RowStringsComplete | helpers/databasemanager.cpp:237-248 | The vector row has one entry per field exactly when every field name matches a slot. |
| RecordStore.VectorRowMatchesRecord | helpers/databasemanager.cpp:156-250 | For a canonical row, the vector variant yields the decimal id, name, number and class of the record variant. |
| RecordStore.ReadRowStrings | helpers/databasemanager.cpp:234-249 | The field loop computes `RowStrings`. |
| RecordStore.CollectStudents | helpers/databasemanager.cpp:156-175 | One student per result row, in order. |
| RecordStore.CollectRowStrings | helpers/databasemanager.cpp:230-250 | One string list per result row, in order. |
| RecordStore.DatabaseManager.constructor | helpers/databasemanager.cpp:5-11 | The connection is open exactly when opening the database succeeded. |
| RecordStore.DatabaseManager.IsDatabaseOpen | helpers/databasemanager.cpp:64-67 | Whether the connection is open. |
| RecordStore.DatabaseManager.InsertRecord | helpers/databasemanager.cpp:71-98 | -1 and no statement when the connection is closed or the map is empty. Otherwise the INSERT statement is sent, and the result is -1 on failure or the new id. |
| RecordStore.DatabaseManager.SelectRecords | helpers/databasemanager.cpp:100-179 | Nothing when closed. A failed COUNT sends only the COUNT query. A failed query or a count of 0 gives no rows. Otherwise one mapped student per result row. |
| RecordStore.DatabaseManager.SelectRecordsToVector | helpers/databasemanager.cpp:181-254 | The same guards, with the semicolon-free COUNT. One string list per result row. |
| RecordStore.DatabaseManager.UpdateRecord | helpers/databasemanager.cpp:256-291 | Refused without a statement when closed, or with an empty map or condition. Otherwise success means at least one row was affected. |
| RecordStore.DatabaseManager.DeleteRecord | helpers/databasemanager.cpp:293-315 | Refused without a statement when closed or with an empty condition. Otherwise success means at least one row was affected. |
| QtText.DecimalString | helpers/databasemanager.cpp:240 | `QString::number` gives a non-empty text with a leading minus exactly for negative numbers. |
| ChunkedPdf.Cells | pdfexporter_old.cpp:62-66 | A row fills the first min(|row|, 4) cells in order. The remaining cells stay empty, and surplus values are dropped. |
| ChunkedPdf.Layout | pdfexporter_old.cpp:123-181 | The title and label block exist exactly when requested. The table starts with its header row and no data. |
| ChunkedPdf.ChunksSnoc | pdfexporter_old.cpp:76-80 | Rows completing a new chunk add one block at the end. |
| ChunkedPdf.SectionsSnoc | pdfexporter_old.cpp:75-93 | A new block adds one section at the end. |
| ChunkedPdf.ChunksCount | pdfexporter_old.cpp:75-93 | n rows make ceil(n / chunkSize) blocks. |
| ChunkedPdf.ChunksShape | pdfexporter_old.cpp:75-93 | Every block but the last is full. The last holds 1..chunkSize rows. Together they are the rows in order. |
| ChunkedPdf.PrintedBlocks | pdfexporter_old.cpp:115 | The rows printed by a list of sections are their blocks in order. |
| ChunkedPdf.SectionsShape | pdfexporter_old.cpp:28-102 | ceil(n / size) sections, each with the header row. Only the first has the title and label. Full blocks come before the last. The printed rows are exactly the rows written. |
| ChunkedPdf.CounterStep | pdfexporter_old.cpp:67-76 | The row counter hits a multiple of the chunk size exactly when the current chunk fills up. |
| ChunkedPdf.WriteStep | pdfexporter_old.cpp:58-80 | A write keeps the progress invariant. At a chunk boundary the full section is printed and a fresh one begins; otherwise the row joins the current section. |
| ChunkedPdf.CloseStep | pdfexporter_old.cpp:91-93 | On close, the printed sections (plus the partial one, if any rows are pending) are the sections of all rows written. |
| ChunkedPdf.ChunkedPdfExporter.constructor | pdfexporter_old.cpp:3-8 | A chunk size of 0 or less becomes 500. The exporter starts closed, in its first chunk, with nothing printed. |
| ChunkedPdf.ChunkedPdfExporter.OpenExport | pdfexporter_old.cpp:10-26 | Always succeeds. It resets the document, the counter and the first-chunk flag, and opens the export. |
| ChunkedPdf.ChunkedPdfExporter.FlushBuffer | pdfexporter_old.cpp:105-121 | Without a document nothing happens. Otherwise the document is printed as the next section and replaced by an empty one. |
| ChunkedPdf.ChunkedPdfExporter.InitializeDocumentLayout | pdfexporter_old.cpp:123-181 | The empty document gets the layout, with or without the title and label. |
| ChunkedPdf.ChunkedPdfExporter.WriteRow | pdfexporter_old.cpp:28-81 | Ignored when closed: the counter, the document, the first-chunk flag, the title block and the printed sections stay as they were. Otherwise it lays out the first chunk, appends the row's cells and counts it. A section is printed exactly when the count reaches a multiple of the chunk size. The title block is set only by the first row and kept afterwards, and sections already printed are kept. |
| ChunkedPdf.ChunkedPdfExporter.CloseExport | pdfexporter_old.cpp:83-102 | Ignored when closed, and the first-chunk flag is never touched. Otherwise the printed sections become exactly the sections of all rows written, and the export is closed without a document. The title block and the sections printed before close are kept. |
| ChunkedPdf.AutomaticFlushes | pdfexporter_old.cpp:76-80 | While open, exactly floor(total / chunkSize) sections have been printed. |
| ChunkedPdf.ClosedExport | pdfexporter_old.cpp:75-93 | After close, exactly ceil(total / chunkSize) sections have been printed: k automatic flushes plus one on close iff rows remain. Their rows are exactly the rows written, in order. |
| HtmlReport.ReplaceCharAppend | modules/PDFExporter/pdfexporter.cpp:83-87 | Replacing a character distributes over concatenation. |
| HtmlReport.ReplaceCharAbsent | modules/PDFExporter/pdfexporter.cpp:83-87 | Replacing a character that does not occur changes nothing. |
| HtmlReport.EscapeHtml | modules/PDFExporter/pdfexporter.cpp:80-89 | Text holding none of `&`, `<`, `>`, `"` and `'` is left as it is. |
| HtmlReport.EscapeHtmlAppend | modules/PDFExporter/pdfexporter.cpp:80-89 | Escaping distributes over concatenation. |
| HtmlReport.EscapeHtmlChar | modules/PDFExporter/pdfexporter.cpp:80-89 | One character escapes to its entity. The `&` of an inserted entity is not escaped again. |
| HtmlReport.EscapeHtmlPerChar | modules/PDFExporter/pdfexporter.cpp:80-89 | The replacement chain equals character-by-character escaping. |
| HtmlReport.EscapedCharsClean | modules/PDFExporter/pdfexporter.cpp:80-89 | Escaped text contains no `<`, `>`, `"` or `'`. |
| HtmlReport.EscapedCharsPlain | modules/PDFExporter/pdfexporter.cpp:80-89 | Text without special characters is left as it is. |
| HtmlReport.UnescapeEntity | modules/PDFExporter/pdfexporter.cpp:83-87 | Reading back an entity gives its character. |
| HtmlReport.UnescapeEscapedChars | modules/PDFExporter/pdfexporter.cpp:80-89 | Un-escaping escaped text restores it. |
| HtmlReport.EscapeHtmlProperties | modules/PDFExporter/pdfexporter.cpp:80-89 | Escaping removes markup characters, keeps plain text unchanged, and is undone by un-escaping. |
| HtmlReport.HeaderCells | modules/PDFExporter/pdfexporter.cpp:151-153 | One `<th>` cell per header, in order, holding the header upper-cased and then escaped. |
| HtmlReport.TableHtml | modules/PDFExporter/pdfexporter.cpp:142-181 | The table opens with its table tag and ends with `</table>`. |
| HtmlReport.RowCells | modules/PDFExporter/pdfexporter.cpp:163-172 | A row has as many cells as there are headers. The first min(|row|, n) hold the escaped values, the rest are empty, and surplus values are dropped. |
| HtmlReport.DataRows | modules/PDFExporter/pdfexporter.cpp:158-176 | One table row per data row. |
| HtmlReport.TableRows | modules/PDFExporter/pdfexporter.cpp:142-181 | The table opens with its table tag, and every data row appears in it in the colour of its position. |
| HtmlReport.SurplusFieldsDropped | modules/PDFExporter/pdfexporter.cpp:164-167 | Values beyond the header count do not change the row. |
| HtmlReport.MissingFieldsEmpty | modules/PDFExporter/pdfexporter.cpp:169-172 | Missing values render exactly like empty values. |
| HtmlReport.StripesAlternate | modules/PDFExporter/pdfexporter.cpp:158-176 | Neighbouring rows take the two different zebra colours, and the colour repeats every second row. |
| HtmlReport.PageLayout | modules/PDFExporter/pdfexporter.cpp:91-140 | The page is opening, prefix, main content, suffix and closing tags, in that order. |
| HtmlReport.PageFrame | modules/PDFExporter/pdfexporter.cpp:95-136 | The page starts with the style head, the title heading iff a title is set, the date line iff the date is shown, and the rule. It ends with `</body></html>`. |
| HtmlReport.PageMainContent | modules/PDFExporter/pdfexporter.cpp:119-134 | The prefix and suffix surround the main content verbatim. Custom HTML, when set, is the content. Otherwise the table is, when there are headers and data. |
| HtmlReport.PageWithoutContent | modules/PDFExporter/pdfexporter.cpp:117-136 | Without custom HTML and without a table, the rule is followed directly by the prefix, the suffix and the closing tags. |
| HtmlReport.CustomHtmlOverridesTable | modules/PDFExporter/pdfexporter.cpp:125-129 | With custom HTML set, the page depends on neither the table settings nor the upper-casing. |
| HtmlReport.NoTableWithoutHeadersAndData | modules/PDFExporter/pdfexporter.cpp:127-129 | Without headers or without data, no table is generated. |
| HtmlReport.PageHtml | modules/PDFExporter/pdfexporter.cpp:91-140 | The page text, step by step as the source appends it. Its layout is proved by `PageLayout`, `PageFrame` and `PageMainContent`. |
| HtmlReport.PdfExporter.constructor | modules/PDFExporter/pdfexporter.cpp:3-13 | The date is shown in "dd MMMM yyyy, hh:mm:ss", on A4 portrait, with the default header and zebra colours and no content. |
| HtmlReport.PdfExporter.SetTitle | modules/PDFExporter/pdfexporter.cpp:19-22 | Sets the title. |
| HtmlReport.PdfExporter.SetShowDate | modules/PDFExporter/pdfexporter.cpp:24-27 | Sets whether the date is shown. |
| HtmlReport.PdfExporter.SetDateFormat | modules/PDFExporter/pdfexporter.cpp:29-32 | Sets the date format. |
| HtmlReport.PdfExporter.SetPageSize | modules/PDFExporter/pdfexporter.cpp:34-37 | Sets the page size. |
| HtmlReport.PdfExporter.SetPageOrientation | modules/PDFExporter/pdfexporter.cpp:39-42 | Sets the orientation. |
| HtmlReport.PdfExporter.SetTableHeaders | modules/PDFExporter/pdfexporter.cpp:44-47 | Sets the headers. |
| HtmlReport.PdfExporter.SetTableData | modules/PDFExporter/pdfexporter.cpp:49-52 | Sets the data. |
| HtmlReport.PdfExporter.SetHeaderColor | modules/PDFExporter/pdfexporter.cpp:54-57 | Sets the header colour. |
| HtmlReport.PdfExporter.SetZebraColors | modules/PDFExporter/pdfexporter.cpp:59-63 | Sets both zebra colours. |
| HtmlReport.PdfExporter.SetCustomHtml | modules/PDFExporter/pdfexporter.cpp:65-68 | Sets the custom HTML. |
| HtmlReport.PdfExporter.SetPrefixHtml | modules/PDFExporter/pdfexporter.cpp:70-73 | Sets the prefix HTML. |
| HtmlReport.PdfExporter.SetSuffixHtml | modules/PDFExporter/pdfexporter.cpp:75-78 | Sets the suffix HTML. |
| HtmlReport.PdfExporter.GenerateTableHtml | modules/PDFExporter/pdfexporter.cpp:142-181 | The header loop and the striped row loop with its row counter compute `TableHtml`. |
| HtmlReport.PdfExporter.AppendDataRow | modules/PDFExporter/pdfexporter.cpp:160-174 | The two cell loops append exactly one data row. |
| HtmlReport.PdfExporter.GenerateHtml | modules/PDFExporter/pdfexporter.cpp:91-140 | The page built and remembered is `ReportHtml` of the current settings and the formatted current date. |
| HtmlReport.PdfExporter.GetGeneratedHtml | modules/PDFExporter/pdfexporter.cpp:298-301 | The page kept from the last generation. |
| HtmlReport.PdfExporter.ExportToPdf | modules/PDFExporter/pdfexporter.cpp:217-248 | An empty path is refused, with no page generated. Otherwise the page is generated and printed to that path with the page size and orientation. |
| HtmlReport.PdfExporter.ClearData | modules/PDFExporter/pdfexporter.cpp:303-312 | Empties the title, table, custom, prefix, suffix and last page. The date, page and colour settings are kept. |
| StudentTable.TableModel.constructor | models/tablemodel.cpp:3-6 | No rows and no columns. |
| StudentTable.TableModel.SetColumns | models/tablemodel.cpp:8-11 | Replaces all headers and leaves the rows. |
| StudentTable.TableModel.SetTableData | models/tablemodel.cpp:13-22 | Replaces all rows and leaves the headers. |
| StudentTable.TableModel.RowCount | models/tablemodel.cpp:24-28 | The number of stored records. |
| StudentTable.TableModel.ColumnCount | models/tablemodel.cpp:30-34 | The number of headers. |
| StudentTable.TableModel.Data | models/tablemodel.cpp:36-63 | Text exactly for the display role and columns 0..2: name, number, class. Everything else is empty. An existing row is needed only where a field is read. |
| StudentTable.TableModel.HeaderData | models/tablemodel.cpp:65-81 | A non-display role is empty. A horizontal section gives its header iff it is in range. A vertical section gives section + 1. |
| StudentTable.TableModel.GetCurrentData | models/tablemodel.cpp:83-92 | A negative index gives a default record. Otherwise it gives that row. |
| StudentTable.IdNeverDisplayed | models/tablemodel.cpp:56-62 | Rows differing only in their ids display identically. |
| StudentTable.SameDisplayIffSameFields | models/tablemodel.cpp:56-62 | Two rows display the same three cells exactly when they agree on name, number and class. |
| StudentTable.HeadersRoundTrip | models/tablemodel.cpp:30-74 | Reading the horizontal labels of every column gives back the header list, and there is no label past the last column. |
| StudentTable.RowLabelsDistinct | models/tablemodel.cpp:75-77 | Different rows get different vertical labels. |

## Left out

- I/O is left out: QFile, QTextStream and UTF-8 encoding, QSqlDatabase/QSqlQuery execution, QTextDocument rendering, QPrinter, and the preview dialogs (`preview`, `previewAndExport`). Outcomes of the outside world are parameters, and effects are recorded values.
- Qt signals (`exportStarted`, `exportFinished`, `previewClosed`), `qDebug`/`qWarning` output and `DatabaseManager::logError` have no observable effect on the modelled state.
- Opening the database and creating its tables (`openDatabase`, `createTablesIfNotExist`, the destructor) are left out. The connection is a flag given to the constructor.
- Fonts, colours, margins and column widths of the chunked layout are left out. Only its content is kept: the title line, the label line with the time, and a 4-column table with its header row.
- Repeated `QTextDocument::print` calls on one QPrinter are modelled as appending one section per call. The pages Qt actually produces are not modelled.
- `QString::toUpper` and `QDateTime` formatting are parameters, so Unicode case mapping and date formats are not modelled.
- The style sheet at the head of the report is one fixed string, `StyleHead`. The page lemmas are stated for any head text.
- `HtmlReport.PdfExporter.AppendDataRow` is the body of the data-row loop of `generateTableHtml` as its own method. The row counter and the loop itself stay in `GenerateTableHtml`.
- `ChunkedPdf.ChunkedPdfExporter.WriteRow`: the "table not found" branch (pdfexporter_old.cpp:68-71) cannot be reached while the exporter is consistent. Every document the exporter holds has a table. The model closes the export on a table-less document, as the code does, but only states what happens for consistent exporters.
- `RecordStore` does not model the re-substitution of the chained `QString::arg` calls: any substituted text that itself contains a place marker (`%` followed by digits) may be rewritten by a later `arg` call. Examples are a table name holding `%1`, `%2` or `%3`, a column list holding `%2` in SELECT, column names holding `%3` in INSERT and SET clauses holding `%3` in UPDATE.
- `CsvExport.OptimalBufferSize`, `CsvExport.RowsPerFlush` and `ChunkedPdf.ChunkedPdfExporter.WriteRow` use unbounded integers, so `int` overflow of `avgRowSize * totalRows` and of the row counters is not modelled.
- `StudentTable.TableModel.Data` and `StudentTable.TableModel.GetCurrentData` require an existing row where the code reads one unchecked, since `QList::at` out of range is undefined behaviour.
- `QVariantMap` is a list of entries in the order `keys()` returns them. The list itself carries no order or distinctness constraint, and the contracts hold for any key order; Qt's sorting of keys is not modelled. Only `RecordStore.InsertPlaceholdersDistinct` needs distinct keys.
