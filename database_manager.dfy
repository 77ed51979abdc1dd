/** The generic CRUD layer over the student database: the SQL text it
    prepares, the values it binds, the guards that stop a call before any
    statement is sent, and the mapping of result columns onto the student
    record. The database itself is an oracle: its answer to each statement is
    a parameter of the call that sends it. */
module RecordStore {
  import opened QtText

  datatype Option<T> = None | Some(value: T)

  // ---------------------------------------------------------------------------
  // Values, maps and statements

  /** A QVariant as it reaches the database. */
  datatype Variant = NullValue | IntValue(n: int) | TextValue(text: string)

  /** One entry of a QVariantMap. */
  datatype Entry = Entry(key: string, value: Variant)

  /** A QVariantMap: its entries in the order keys() lists them. QMap keeps
      them sorted by key without repetition; the contracts here hold for any
      order, and only where repetition matters is it excluded explicitly. */
  type VariantMap = seq<Entry>

  /** One bindValue call: the placeholder name and the value bound to it. */
  datatype Binding = Binding(placeholder: string, value: Variant)

  /** A prepared statement as sent to the database: its text and the values
      bound to its placeholders, in binding order. */
  datatype Statement = Statement(sql: string, bindings: seq<Binding>)

  /** QVariantMap::keys(). */
  function Keys(m: VariantMap): (keys: seq<string>)
    ensures |keys| == |m|
    ensures forall i :: 0 <= i < |m| ==> keys[i] == m[i].key
  {
    seq(|m|, i requires 0 <= i < |m| => m[i].key)
  }

  /** Keys of a QVariantMap are unique. */
  predicate DistinctKeys(m: VariantMap)
  {
    forall i, j :: 0 <= i < j < |m| ==> m[i].key != m[j].key
  }

  /** The bindings of a condition's QVariantMap: each key is used verbatim
      as the placeholder name. */
  function ConditionBindings(bindValues: VariantMap): (b: seq<Binding>)
    ensures |b| == |bindValues|
    ensures forall i :: 0 <= i < |b| ==> b[i] == Binding(bindValues[i].key, bindValues[i].value)
  {
    seq(|bindValues|, i requires 0 <= i < |bindValues| => Binding(bindValues[i].key, bindValues[i].value))
  }

  // ---------------------------------------------------------------------------
  // INSERT

  /** The named placeholder of a column in an INSERT statement. */
  function InsertPlaceholder(key: string): string
  {
    ":" + key
  }

  function InsertPlaceholders(keys: seq<string>): (p: seq<string>)
    ensures |p| == |keys|
    ensures forall i :: 0 <= i < |keys| ==> p[i] == InsertPlaceholder(keys[i])
  {
    seq(|keys|, i requires 0 <= i < |keys| => InsertPlaceholder(keys[i]))
  }

  /** INSERT INTO t (k1, ..., kn) VALUES (:k1, ..., :kn): the table, every
      key and every key's placeholder appear in the text. */
  function InsertSql(tableName: string, keys: seq<string>): (sql: string)
    ensures Contains(sql, tableName)
    ensures forall i :: 0 <= i < |keys| ==> Contains(sql, keys[i]) && Contains(sql, InsertPlaceholder(keys[i]))
  {
    var head := "INSERT INTO " + tableName + " (";
    var values := ") VALUES (" + Join(InsertPlaceholders(keys), ", ") + ")";
    var sql := head + Join(keys, ", ") + values;
    JoinWithin(sql, head, keys, ", ", values);
    ContainsPart(head, "INSERT INTO ", tableName, " (");
    ContainsHead(sql, head, Join(keys, ", ") + values, tableName);
    JoinWithin(values, ") VALUES (", InsertPlaceholders(keys), ", ", ")");
    InsertValuesWithin(sql, head + Join(keys, ", "), values, InsertPlaceholders(keys));
    sql
  }

  /** What the VALUES part of an INSERT contains, the whole text contains. */
  lemma InsertValuesWithin(sql: string, front: string, values: string, placeholders: seq<string>)
    requires sql == front + values
    requires forall k :: 0 <= k < |placeholders| ==> Contains(values, placeholders[k])
    ensures forall k :: 0 <= k < |placeholders| ==> Contains(sql, placeholders[k])
  {
    forall k | 0 <= k < |placeholders|
      ensures Contains(sql, placeholders[k])
    {
      ContainsWithin(front, values, "", placeholders[k]);
      assert front + values + "" == sql;
    }
  }

  /** Each key's value bound to that key's placeholder, in key order. */
  function InsertBindings(data: VariantMap): (b: seq<Binding>)
    ensures |b| == |data|
    ensures forall i :: 0 <= i < |data| ==> b[i] == Binding(InsertPlaceholder(data[i].key), data[i].value)
  {
    seq(|data|, i requires 0 <= i < |data| => Binding(InsertPlaceholder(data[i].key), data[i].value))
  }

  function InsertStatement(tableName: string, data: VariantMap): Statement
  {
    Statement(InsertSql(tableName, Keys(data)), InsertBindings(data))
  }

  /** The placeholder loop of insertRecord: ", " before every placeholder
      but the first. */
  method BuildPlaceholders(keys: seq<string>) returns (placeholders: string)
    ensures placeholders == Join(InsertPlaceholders(keys), ", ")
  {
    ghost var all := InsertPlaceholders(keys);
    placeholders := "";
    var i := 0;
    while i < |keys|
      invariant 0 <= i <= |keys|
      invariant placeholders == Join(all[..i], ", ")
    {
      var p := ":" + keys[i];
      if i == 0 {
        assert all[..1] == [p];
        placeholders := placeholders + p;
      } else {
        JoinSnoc(all[..i], p, ", ");
        placeholders := placeholders + ", " + p;
      }
      assert all[..i + 1] == all[..i] + [p];
      i := i + 1;
    }
    assert all[..i] == all;
  }

  /** Distinct keys get distinct placeholders, so no value is bound twice. */
  lemma InsertPlaceholdersDistinct(data: VariantMap)
    requires DistinctKeys(data)
    ensures forall i, j :: 0 <= i < j < |data| ==>
              InsertBindings(data)[i].placeholder != InsertBindings(data)[j].placeholder
  {
    forall i, j | 0 <= i < j < |data|
      ensures InsertBindings(data)[i].placeholder != InsertBindings(data)[j].placeholder
    {
      assert InsertPlaceholder(data[i].key)[1..] == data[i].key;
      assert InsertPlaceholder(data[j].key)[1..] == data[j].key;
    }
  }

  // ---------------------------------------------------------------------------
  // UPDATE and DELETE

  /** The placeholder of a SET value: the key with the `upd_` prefix. */
  function SetPlaceholder(key: string): string
  {
    ":upd_" + key
  }

  /** One SET clause: `k = :upd_k`. */
  function SetClause(key: string): string
  {
    key + " = " + SetPlaceholder(key)
  }

  function SetClauses(keys: seq<string>): (c: seq<string>)
    ensures |c| == |keys|
    ensures forall i :: 0 <= i < |keys| ==> c[i] == SetClause(keys[i])
  {
    seq(|keys|, i requires 0 <= i < |keys| => SetClause(keys[i]))
  }

  /** UPDATE t SET k1 = :upd_k1, ... WHERE cond: the table, one SET clause
      per key and the condition, verbatim, appear in the text. */
  function UpdateSql(tableName: string, keys: seq<string>, condition: string): (sql: string)
    ensures Contains(sql, tableName) && Contains(sql, condition)
    ensures forall i :: 0 <= i < |keys| ==> Contains(sql, SetClause(keys[i]))
  {
    var sets := Join(SetClauses(keys), ", ");
    var sql := "UPDATE " + tableName + " SET " + sets + " WHERE " + condition;
    JoinWithin(sql, "UPDATE " + tableName + " SET ", SetClauses(keys), ", ", " WHERE " + condition);
    ContainsPart(sql, "UPDATE ", tableName, " SET " + sets + " WHERE " + condition);
    ContainsPart(sql, "UPDATE " + tableName + " SET " + sets + " WHERE ", condition, "");
    sql
  }

  /** The SET values under their `upd_` placeholders, then the condition's
      values under their own names. */
  function UpdateBindings(data: VariantMap, bindValues: VariantMap): (b: seq<Binding>)
    ensures |b| == |data| + |bindValues|
    ensures forall i :: 0 <= i < |data| ==> b[i] == Binding(SetPlaceholder(data[i].key), data[i].value)
    ensures forall i :: 0 <= i < |bindValues| ==> b[|data| + i] == Binding(bindValues[i].key, bindValues[i].value)
  {
    seq(|data|, i requires 0 <= i < |data| => Binding(SetPlaceholder(data[i].key), data[i].value))
      + ConditionBindings(bindValues)
  }

  function UpdateStatement(tableName: string, data: VariantMap, condition: string, bindValues: VariantMap): Statement
  {
    Statement(UpdateSql(tableName, Keys(data), condition), UpdateBindings(data, bindValues))
  }

  /** The setClauses loop of updateRecord. */
  method BuildSetClauses(keys: seq<string>) returns (clauses: seq<string>)
    ensures clauses == SetClauses(keys)
  {
    clauses := [];
    var i := 0;
    while i < |keys|
      invariant 0 <= i <= |keys|
      invariant clauses == SetClauses(keys)[..i]
    {
      var clause := keys[i] + " = :upd_" + keys[i];
      assert clause == SetClause(keys[i]);
      clauses := clauses + [clause];
      assert SetClauses(keys)[..i + 1] == SetClauses(keys)[..i] + [SetClause(keys[i])];
      i := i + 1;
    }
  }

  /** A SET placeholder can only clash with a condition placeholder that
      itself starts with ":upd_"; otherwise no binding overwrites another. */
  lemma SetPlaceholdersApart(data: VariantMap, bindValues: VariantMap)
    requires forall j :: 0 <= j < |bindValues| ==> !StartsWith(bindValues[j].key, ":upd_")
    ensures forall i, j :: 0 <= i < |data| && 0 <= j < |bindValues| ==>
              SetPlaceholder(data[i].key) != bindValues[j].key
  {
    forall i, j | 0 <= i < |data| && 0 <= j < |bindValues|
      ensures SetPlaceholder(data[i].key) != bindValues[j].key
    {
      var p := SetPlaceholder(data[i].key);
      assert p[..5] == ":upd_";
    }
  }

  /** DELETE FROM t WHERE cond: the table and the condition, verbatim,
      appear in the text. */
  function DeleteSql(tableName: string, condition: string): (sql: string)
    ensures Contains(sql, tableName) && Contains(sql, condition)
  {
    var sql := "DELETE FROM " + tableName + " WHERE " + condition;
    ContainsPart(sql, "DELETE FROM ", tableName, " WHERE " + condition);
    ContainsPart(sql, "DELETE FROM " + tableName + " WHERE ", condition, "");
    sql
  }

  /** The text of INSERT and UPDATE statements depends on the table, the keys
      and the condition only: two calls whose maps have the same keys send
      the same text, whatever the values; values travel only as bindings. */
  lemma StatementTextIgnoresValues(tableName: string, condition: string,
                                   data1: VariantMap, data2: VariantMap, bind1: VariantMap, bind2: VariantMap)
    requires Keys(data1) == Keys(data2)
    ensures InsertStatement(tableName, data1).sql == InsertStatement(tableName, data2).sql
    ensures UpdateStatement(tableName, data1, condition, bind1).sql
            == UpdateStatement(tableName, data2, condition, bind2).sql
  {
  }

  // ---------------------------------------------------------------------------
  // SELECT

  /** The projection: `*` for no columns, else the columns joined by ", ". */
  function ColumnList(columns: seq<string>): (list: string)
    ensures |columns| == 0 ==> list == "*"
  {
    if |columns| == 0 then "*" else Join(columns, ", ")
  }

  /** The row-count statement; selectRecords ends it with a semicolon,
      selectRecordsToVector does not. */
  function CountSql(tableName: string, semicolon: bool): (sql: string)
    ensures Contains(sql, tableName)
  {
    var sql := "SELECT COUNT(id) FROM " + tableName + (if semicolon then ";" else "");
    ContainsPart(sql, "SELECT COUNT(id) FROM ", tableName, if semicolon then ";" else "");
    sql
  }

  /** SELECT cols FROM t, followed by ` WHERE cond` only for a non-empty
      condition. */
  function SelectSql(columns: seq<string>, tableName: string, condition: string): (sql: string)
    ensures Contains(sql, tableName)
    ensures forall i :: 0 <= i < |columns| ==> Contains(sql, columns[i])
  {
    var projection := ColumnList(columns);
    var filter := if condition != "" then " WHERE " + condition else "";
    var sql := "SELECT " + projection + " FROM " + tableName + filter;
    ContainsPart(sql, "SELECT " + projection + " FROM ", tableName, filter);
    if |columns| == 0 then sql
    else
      JoinWithin(sql, "SELECT ", columns, ", ", " FROM " + tableName + filter);
      sql
  }

  /** The projection is `*` exactly when no column is named (a named column
      list is never the text `*` unless that is the only column named). */
  lemma ColumnListStar(columns: seq<string>)
    ensures ColumnList(columns) == "*" <==> |columns| == 0 || columns == ["*"]
  {
    if |columns| > 1 {
      var rest := Join(columns[1..], ", ");
      assert ColumnList(columns) == columns[0] + ", " + rest;
      assert |ColumnList(columns)| >= 2;
    }
  }

  /** The WHERE clause is present exactly when a condition is given. */
  lemma SelectWhere(columns: seq<string>, tableName: string, condition: string)
    ensures var base := "SELECT " + ColumnList(columns) + " FROM " + tableName;
            && (condition == "" ==> SelectSql(columns, tableName, condition) == base)
            && (condition != "" ==> SelectSql(columns, tableName, condition) == base + " WHERE " + condition)
            && |SelectSql(columns, tableName, condition)| == |base| + (if condition == "" then 0 else 7 + |condition|)
  {
  }

  // ---------------------------------------------------------------------------
  // Result rows and the student record

  /** One column of a result row: its name, and its value as toInt() and as
      toString() read it. */
  datatype Field = Field(name: string, asInt: int, asText: string)

  /** StudentsDataStruct. */
  datatype Student = Student(id: int, nama: string, npm: string, kelas: string)

  /** A default-constructed record: the texts are empty and the id is
      whatever the uninitialised int holds, here `junk`. */
  function DefaultStudent(junk: int): Student
  {
    Student(junk, "", "", "")
  }

  /** The record slot a column goes to. */
  datatype Slot = IdSlot | NamaSlot | NpmSlot | KelasSlot | NoSlot

  /** The first of "id", "nama", "npm", "kelas" contained in the column name
      decides its slot; a name containing none of them has no slot. */
  function SlotOf(name: string): Slot
  {
    if Contains(name, "id") then IdSlot
    else if Contains(name, "nama") then NamaSlot
    else if Contains(name, "npm") then NpmSlot
    else if Contains(name, "kelas") then KelasSlot
    else NoSlot
  }

  /** A needle that is longer than the text, or whose first character does
      not occur in it, is not contained. */
  lemma NotContained(s: string, sub: string)
    requires |sub| > |s| || (|sub| > 0 && sub[0] !in s)
    ensures !Contains(s, sub)
  {
    if Contains(s, sub) {
      ContainsBounds(s, sub);
    }
  }

  lemma IdSlotOf()
    ensures SlotOf("id") == IdSlot
  {
    ContainsAt("id", "id", 0);
  }

  lemma NamaSlotOf()
    ensures SlotOf("nama") == NamaSlot
  {
    NotContained("nama", "id");
    ContainsAt("nama", "nama", 0);
  }

  lemma NpmSlotOf()
    ensures SlotOf("npm") == NpmSlot
  {
    NotContained("npm", "id");
    NotContained("npm", "nama");
    ContainsAt("npm", "npm", 0);
  }

  lemma KelasSlotOf()
    ensures SlotOf("kelas") == KelasSlot
  {
    NotContained("kelas", "id");
    NotContained("kelas", "nama");
    NotContained("kelas", "npm");
    ContainsAt("kelas", "kelas", 0);
  }

  lemma KelasIdSlotOf()
    ensures SlotOf("kelas_id") == IdSlot
  {
    assert "kelas_id"[6..8] == "id";
    ContainsAt("kelas_id", "id", 6);
  }

  lemma AlamatSlotOf()
    ensures SlotOf("alamat") == NoSlot
  {
    NotContained("alamat", "id");
    NotContained("alamat", "nama");
    NotContained("alamat", "npm");
    NotContained("alamat", "kelas");
  }

  /** The plain column names go to their own slots; a name containing "id"
      anywhere, such as "kelas_id", goes to the id slot, and a name holding
      none of the four has no slot. */
  lemma CanonicalSlots()
    ensures SlotOf("id") == IdSlot
    ensures SlotOf("nama") == NamaSlot
    ensures SlotOf("npm") == NpmSlot
    ensures SlotOf("kelas") == KelasSlot
    ensures SlotOf("kelas_id") == IdSlot
    ensures SlotOf("alamat") == NoSlot
  {
    IdSlotOf();
    NamaSlotOf();
    NpmSlotOf();
    KelasSlotOf();
    KelasIdSlotOf();
    AlamatSlotOf();
  }

  /** One step of the field loop of selectRecords. */
  function ApplyField(s: Student, f: Field): Student
  {
    match SlotOf(f.name)
    case IdSlot => s.(id := f.asInt)
    case NamaSlot => s.(nama := f.asText)
    case NpmSlot => s.(npm := f.asText)
    case KelasSlot => s.(kelas := f.asText)
    case NoSlot => s
  }

  /** A field whose name contains none of "id", "nama", "npm" and "kelas"
      has no slot, and only such a field has none; reading it leaves the
      record as it is, so it may be dropped from the end of any row. */
  lemma UnroutedFieldDropped(s: Student, fields: seq<Field>, f: Field)
    ensures SlotOf(f.name) == NoSlot <==>
              !Contains(f.name, "id") && !Contains(f.name, "nama")
              && !Contains(f.name, "npm") && !Contains(f.name, "kelas")
    ensures SlotOf(f.name) == NoSlot ==> ApplyField(s, f) == s
    ensures SlotOf(f.name) == NoSlot ==> FoldFields(s, fields + [f]) == FoldFields(s, fields)
  {
    FoldSnoc(s, fields, f);
  }

  /** The fields of a row applied in order to a default record. */
  function FoldFields(s: Student, fields: seq<Field>): Student
    decreases |fields|
  {
    if |fields| == 0 then s
    else ApplyField(FoldFields(s, fields[..|fields| - 1]), fields[|fields| - 1])
  }

  /** Folding one more field applies it to the record so far. */
  lemma FoldSnoc(s: Student, fields: seq<Field>, f: Field)
    ensures FoldFields(s, fields + [f]) == ApplyField(FoldFields(s, fields), f)
  {
    assert (fields + [f])[..|fields|] == fields;
  }

  function MapRecord(fields: seq<Field>, junk: int): Student
  {
    FoldFields(DefaultStudent(junk), fields)
  }

  /** The last field of a row that goes to `slot`, if any. */
  function LastOf(fields: seq<Field>, slot: Slot): (r: Option<Field>)
    ensures r.Some? ==> r.value in fields && SlotOf(r.value.name) == slot
    decreases |fields|
  {
    if |fields| == 0 then None
    else if SlotOf(fields[|fields| - 1].name) == slot then Some(fields[|fields| - 1])
    else LastOf(fields[..|fields| - 1], slot)
  }

  function IntOr(o: Option<Field>, default: int): int
  {
    if o.Some? then o.value.asInt else default
  }

  function TextOr(o: Option<Field>, default: string): string
  {
    if o.Some? then o.value.asText else default
  }

  /** Each slot of a mapped record holds the value of the last column that
      goes to it, and keeps its default when no column does. */
  lemma {:induction false} MapRecordSlots(s: Student, fields: seq<Field>)
    ensures FoldFields(s, fields).id == IntOr(LastOf(fields, IdSlot), s.id)
    ensures FoldFields(s, fields).nama == TextOr(LastOf(fields, NamaSlot), s.nama)
    ensures FoldFields(s, fields).npm == TextOr(LastOf(fields, NpmSlot), s.npm)
    ensures FoldFields(s, fields).kelas == TextOr(LastOf(fields, KelasSlot), s.kelas)
    decreases |fields|
  {
    if |fields| > 0 {
      MapRecordSlots(s, fields[..|fields| - 1]);
    }
  }

  /** A row whose columns go, in order, to the id, nama, npm and kelas slots
      (as the columns id, nama, npm and kelas do) maps to the record holding
      their values. */
  lemma CanonicalRecord(id: Field, nama: Field, npm: Field, kelas: Field, junk: int)
    requires SlotOf(id.name) == IdSlot && SlotOf(nama.name) == NamaSlot
    requires SlotOf(npm.name) == NpmSlot && SlotOf(kelas.name) == KelasSlot
    ensures MapRecord([id, nama, npm, kelas], junk) == Student(id.asInt, nama.asText, npm.asText, kelas.asText)
  {
    var s0 := DefaultStudent(junk);
    assert [] + [id] == [id] && [id] + [nama] == [id, nama];
    assert [id, nama] + [npm] == [id, nama, npm] && [id, nama, npm] + [kelas] == [id, nama, npm, kelas];
    FoldSnoc(s0, [], id);
    FoldSnoc(s0, [id], nama);
    FoldSnoc(s0, [id, nama], npm);
    FoldSnoc(s0, [id, nama, npm], kelas);
  }

  /** The field loop of selectRecords: every column of the row is matched
      against the four names, starting from a default record. */
  method ReadStudent(fields: seq<Field>, junk: int) returns (student: Student)
    ensures student == MapRecord(fields, junk)
  {
    student := DefaultStudent(junk);
    var i := 0;
    while i < |fields|
      invariant 0 <= i <= |fields|
      invariant student == FoldFields(DefaultStudent(junk), fields[..i])
    {
      var f := fields[i];
      if Contains(f.name, "id") {
        student := student.(id := f.asInt);
      } else if Contains(f.name, "nama") {
        student := student.(nama := f.asText);
      } else if Contains(f.name, "npm") {
        student := student.(npm := f.asText);
      } else if Contains(f.name, "kelas") {
        student := student.(kelas := f.asText);
      }
      assert fields[..i + 1][..i] == fields[..i];
      i := i + 1;
    }
    assert fields[..i] == fields;
  }

  /** The text one column contributes to a row of selectRecordsToVector: the
      id as a decimal number, the other slots as text, nothing for a column
      with no slot. */
  function CellText(f: Field): seq<string>
  {
    match SlotOf(f.name)
    case IdSlot => [DecimalString(f.asInt)]
    case NoSlot => []
    case _ => [f.asText]
  }

  /** A row of selectRecordsToVector. */
  function RowStrings(fields: seq<Field>): (row: seq<string>)
    ensures |row| <= |fields|
    decreases |fields|
  {
    if |fields| == 0 then []
    else RowStrings(fields[..|fields| - 1]) + CellText(fields[|fields| - 1])
  }

  /** One more column adds its text to the row. */
  lemma RowStringsSnoc(fields: seq<Field>, f: Field)
    ensures RowStrings(fields + [f]) == RowStrings(fields) + CellText(f)
  {
    assert (fields + [f])[..|fields|] == fields;
  }

  /** A vector row has one entry per column exactly when every column has a
      slot. */
  lemma {:induction false} RowStringsComplete(fields: seq<Field>)
    ensures |RowStrings(fields)| == |fields| <==> forall i :: 0 <= i < |fields| ==> SlotOf(fields[i].name) != NoSlot
    decreases |fields|
  {
    if |fields| > 0 {
      var init := fields[..|fields| - 1];
      RowStringsComplete(init);
      assert forall i :: 0 <= i < |init| ==> init[i] == fields[i];
    }
  }

  /** The positions of the columns that have a slot. */
  function RoutedColumns(fields: seq<Field>): set<int>
  {
    set i | 0 <= i < |fields| && SlotOf(fields[i].name) != NoSlot
  }

  /** A vector row has exactly one entry per column with a slot. */
  lemma {:induction false} RowStringsLength(fields: seq<Field>)
    ensures |RowStrings(fields)| == |RoutedColumns(fields)|
    decreases |fields|
  {
    if |fields| > 0 {
      var n := |fields| - 1;
      var init := fields[..n];
      RowStringsLength(init);
      RowStringsSnoc(init, fields[n]);
      assert init + [fields[n]] == fields;
      var last: set<int> := if SlotOf(fields[n].name) != NoSlot then {n} else {};
      forall i | 0 <= i < n
        ensures i in RoutedColumns(fields) <==> i in RoutedColumns(init)
      {
        assert init[i] == fields[i];
      }
      assert RoutedColumns(fields) == RoutedColumns(init) + last;
      assert n !in RoutedColumns(init);
    }
  }

  /** For the canonical columns both select variants agree: the vector row
      lists the record's id in decimal, then its nama, npm and kelas. */
  lemma VectorRowMatchesRecord(id: Field, nama: Field, npm: Field, kelas: Field, junk: int)
    requires SlotOf(id.name) == IdSlot && SlotOf(nama.name) == NamaSlot
    requires SlotOf(npm.name) == NpmSlot && SlotOf(kelas.name) == KelasSlot
    ensures var s := MapRecord([id, nama, npm, kelas], junk);
            RowStrings([id, nama, npm, kelas]) == [DecimalString(s.id), s.nama, s.npm, s.kelas]
  {
    CanonicalRecord(id, nama, npm, kelas, junk);
    var row1, row2, row3 := [id], [id, nama], [id, nama, npm];
    assert [] + [id] == row1 && row1 + [nama] == row2;
    assert row2 + [npm] == row3 && row3 + [kelas] == [id, nama, npm, kelas];
    RowStringsSnoc([], id);
    RowStringsSnoc(row1, nama);
    RowStringsSnoc(row2, npm);
    RowStringsSnoc(row3, kelas);
  }

  /** The field loop of selectRecordsToVector. */
  method ReadRowStrings(fields: seq<Field>) returns (row: seq<string>)
    ensures row == RowStrings(fields)
  {
    row := [];
    var i := 0;
    while i < |fields|
      invariant 0 <= i <= |fields|
      invariant row == RowStrings(fields[..i])
    {
      var f := fields[i];
      if Contains(f.name, "id") {
        row := row + [DecimalString(f.asInt)];
      } else if Contains(f.name, "nama") {
        row := row + [f.asText];
      } else if Contains(f.name, "npm") {
        row := row + [f.asText];
      } else if Contains(f.name, "kelas") {
        row := row + [f.asText];
      }
      assert fields[..i + 1][..i] == fields[..i];
      i := i + 1;
    }
    assert fields[..i] == fields;
  }

  // ---------------------------------------------------------------------------
  // The database's answers

  /** The answer to the COUNT statement: failure, or success with the first
      result row's value as toInt() reads it (None when there is no row). */
  datatype CountAnswer = CountFailed | Counted(first: Option<int>)

  /** The answer to a data query: failure, or the result rows. */
  datatype QueryAnswer = QueryFailed | Rows(rows: seq<seq<Field>>)

  /** The answer to an INSERT, UPDATE or DELETE: failure, or success with
      lastInsertId and numRowsAffected. */
  datatype ExecAnswer = ExecFailed | Executed(lastInsertId: int, rowsAffected: int)

  /** jmlRecord: the counted value, 0 when the count has no row. */
  function RecordCount(count: CountAnswer): int
    requires count.Counted?
  {
    if count.first.Some? then count.first.value else 0
  }

  /** The cursor loop of selectRecords: one record per result row, in order;
      row k starts from a default record whose id is junk(k). */
  method CollectStudents(rows: seq<seq<Field>>, junk: nat -> int) returns (students: seq<Student>)
    ensures |students| == |rows|
    ensures forall k :: 0 <= k < |rows| ==> students[k] == MapRecord(rows[k], junk(k))
  {
    students := [];
    var k := 0;
    while k < |rows|
      invariant 0 <= k <= |rows|
      invariant |students| == k
      invariant forall j :: 0 <= j < k ==> students[j] == MapRecord(rows[j], junk(j))
    {
      var s := ReadStudent(rows[k], junk(k));
      students := students + [s];
      k := k + 1;
    }
  }

  /** The cursor loop of selectRecordsToVector. */
  method CollectRowStrings(rows: seq<seq<Field>>) returns (table: seq<seq<string>>)
    ensures |table| == |rows|
    ensures forall k :: 0 <= k < |rows| ==> table[k] == RowStrings(rows[k])
  {
    table := [];
    var k := 0;
    while k < |rows|
      invariant 0 <= k <= |rows|
      invariant |table| == k
      invariant forall j :: 0 <= j < k ==> table[j] == RowStrings(rows[j])
    {
      var r := ReadRowStrings(rows[k]);
      table := table + [r];
      k := k + 1;
    }
  }

  // ---------------------------------------------------------------------------
  // The manager

  /** DatabaseManager: the connection state and the CRUD calls. Each call
      returns its result together with the statements it sent, in order. */
  class DatabaseManager {
    var connectionOpen: bool

    /** Opening the connection may fail; `connected` is its outcome. */
    constructor(connected: bool)
      ensures connectionOpen == connected
    {
      connectionOpen := connected;
    }

    /** Whether the connection opened by the constructor is usable. */
    function IsDatabaseOpen(): (open: bool)
      reads this
      ensures open == connectionOpen
    {
      connectionOpen
    }

    /** insertRecord: -1 with nothing sent when the connection is closed or
        the map is empty; otherwise one INSERT naming every key and binding
        each value to its key's placeholder, and the new row's id, or -1 when
        execution fails. */
    method InsertRecord(tableName: string, data: VariantMap, answer: ExecAnswer)
      returns (newId: int, sent: seq<Statement>)
      ensures !connectionOpen || |data| == 0 ==> newId == -1 && sent == []
      ensures connectionOpen && |data| > 0 ==>
                sent == [InsertStatement(tableName, data)]
                && newId == (if answer.ExecFailed? then -1 else answer.lastInsertId)
    {
      if !connectionOpen || |data| == 0 {
        return -1, [];
      }
      var keys := Keys(data);
      var placeholders := BuildPlaceholders(keys);
      var sql := "INSERT INTO " + tableName + " (" + Join(keys, ", ") + (") VALUES (" + placeholders + ")");
      sent := [Statement(sql, InsertBindings(data))];
      if answer.ExecFailed? {
        return -1, sent;
      }
      newId := answer.lastInsertId;
    }

    /** selectRecords: nothing when the connection is closed. Otherwise the
        COUNT statement is sent first; if it fails the data query is not
        sent and the result is empty. The data query is then sent with the
        condition's bindings; the result is empty if it fails or the count
        was not positive, and otherwise holds one record per result row. */
    method SelectRecords(tableName: string, columns: seq<string>, condition: string, bindValues: VariantMap,
                         count: CountAnswer, query: QueryAnswer, junk: nat -> int)
      returns (result: seq<Student>, sent: seq<Statement>)
      ensures !connectionOpen ==> result == [] && sent == []
      ensures connectionOpen && count.CountFailed? ==>
                result == [] && sent == [Statement(CountSql(tableName, true), [])]
      ensures connectionOpen && count.Counted? ==>
                sent == [Statement(CountSql(tableName, true), []),
                         Statement(SelectSql(columns, tableName, condition), ConditionBindings(bindValues))]
      ensures connectionOpen && count.Counted? && (query.QueryFailed? || RecordCount(count) <= 0) ==> result == []
      ensures connectionOpen && count.Counted? && query.Rows? && RecordCount(count) > 0 ==>
                |result| == |query.rows|
                && forall k :: 0 <= k < |result| ==> result[k] == MapRecord(query.rows[k], junk(k))
    {
      result, sent := [], [];
      if !connectionOpen {
        return;
      }
      sent := [Statement("SELECT COUNT(id) FROM " + tableName + ";", [])];
      if count.CountFailed? {
        return;
      }
      var jmlRecord := 0;
      if count.first.Some? {
        jmlRecord := count.first.value;
      }
      var columnList := "*";
      if |columns| > 0 {
        columnList := Join(columns, ", ");
      }
      var sql := "SELECT " + columnList + " FROM " + tableName;
      if condition != "" {
        sql := sql + " WHERE " + condition;
      }
      assert sql == SelectSql(columns, tableName, condition);
      sent := sent + [Statement(sql, ConditionBindings(bindValues))];
      if query.QueryFailed? {
        return;
      }
      if jmlRecord > 0 {
        result := CollectStudents(query.rows, junk);
      }
    }

    /** selectRecordsToVector: as selectRecords, with a COUNT statement
        without the semicolon, and each row as the list of its mapped
        columns' texts. */
    method SelectRecordsToVector(tableName: string, columns: seq<string>, condition: string, bindValues: VariantMap,
                                 count: CountAnswer, query: QueryAnswer)
      returns (result: seq<seq<string>>, sent: seq<Statement>)
      ensures !connectionOpen ==> result == [] && sent == []
      ensures connectionOpen && count.CountFailed? ==>
                result == [] && sent == [Statement(CountSql(tableName, false), [])]
      ensures connectionOpen && count.Counted? ==>
                sent == [Statement(CountSql(tableName, false), []),
                         Statement(SelectSql(columns, tableName, condition), ConditionBindings(bindValues))]
      ensures connectionOpen && count.Counted? && (query.QueryFailed? || RecordCount(count) <= 0) ==> result == []
      ensures connectionOpen && count.Counted? && query.Rows? && RecordCount(count) > 0 ==>
                |result| == |query.rows|
                && forall k :: 0 <= k < |result| ==> result[k] == RowStrings(query.rows[k])
    {
      result, sent := [], [];
      if !connectionOpen {
        return;
      }
      var sqlCount := "SELECT COUNT(id) FROM " + tableName;
      assert sqlCount == CountSql(tableName, false);
      sent := [Statement(sqlCount, [])];
      if count.CountFailed? {
        return;
      }
      var jmlRecord := 0;
      if count.first.Some? {
        jmlRecord := count.first.value;
      }
      var columnList := "*";
      if |columns| > 0 {
        columnList := Join(columns, ", ");
      }
      var sql := "SELECT " + columnList + " FROM " + tableName;
      if condition != "" {
        sql := sql + " WHERE " + condition;
      }
      assert sql == SelectSql(columns, tableName, condition);
      sent := sent + [Statement(sql, ConditionBindings(bindValues))];
      if query.QueryFailed? {
        return;
      }
      if jmlRecord > 0 {
        result := CollectRowStrings(query.rows);
      }
    }

    /** updateRecord: false with nothing sent when the connection is closed,
        the map is empty or the condition is empty; otherwise one UPDATE
        statement, and true exactly when it ran and changed at least one
        row. */
    method UpdateRecord(tableName: string, data: VariantMap, condition: string, bindValues: VariantMap,
                        answer: ExecAnswer)
      returns (ok: bool, sent: seq<Statement>)
      ensures !connectionOpen || |data| == 0 || condition == "" ==> !ok && sent == []
      ensures connectionOpen && |data| > 0 && condition != "" ==>
                sent == [UpdateStatement(tableName, data, condition, bindValues)]
                && (ok <==> answer.Executed? && answer.rowsAffected > 0)
    {
      if !connectionOpen || |data| == 0 || condition == "" {
        return false, [];
      }
      var setClauses := BuildSetClauses(Keys(data));
      var sql := "UPDATE " + tableName + " SET " + Join(setClauses, ", ") + " WHERE " + condition;
      sent := [Statement(sql, UpdateBindings(data, bindValues))];
      if answer.ExecFailed? {
        return false, sent;
      }
      ok := answer.rowsAffected > 0;
    }

    /** deleteRecord: false with nothing sent when the connection is closed
        or the condition is empty; otherwise one DELETE statement, and true
        exactly when it ran and removed at least one row. */
    method DeleteRecord(tableName: string, condition: string, bindValues: VariantMap, answer: ExecAnswer)
      returns (ok: bool, sent: seq<Statement>)
      ensures !connectionOpen || condition == "" ==> !ok && sent == []
      ensures connectionOpen && condition != "" ==>
                sent == [Statement(DeleteSql(tableName, condition), ConditionBindings(bindValues))]
                && (ok <==> answer.Executed? && answer.rowsAffected > 0)
    {
      if !connectionOpen || condition == "" {
        return false, [];
      }
      sent := [Statement("DELETE FROM " + tableName + " WHERE " + condition, ConditionBindings(bindValues))];
      if answer.ExecFailed? {
        return false, sent;
      }
      ok := answer.rowsAffected > 0;
    }
  }
}
