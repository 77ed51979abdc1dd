/** The table model behind the student list view: the rows are student
    records, the columns are the header names set from outside, and the view
    asks for cells and header labels by position and role. */
module StudentTable {
  import opened RecordStore

  /** Qt::DisplayRole; every other role number is answered with an empty value. */
  const DisplayRole: int := 0

  /** What a cell or header lookup returns (a QVariant): empty, text or a number. */
  datatype Cell = Empty | Text(text: string) | Number(n: int)

  datatype Orientation = Horizontal | Vertical

  /** The displayed field of a student for column 0, 1 or 2. */
  function ColumnField(s: Student, col: int): string
    requires 0 <= col < 3
  {
    if col == 0 then s.nama else if col == 1 then s.npm else s.kelas
  }

  class TableModel {
    var tableData: seq<Student>
    var headers: seq<string>

    constructor()
      ensures tableData == [] && headers == []
    {
      tableData := [];
      headers := [];
    }

    /** Replaces all column headers. */
    method SetColumns(cols: seq<string>)
      modifies this`headers
      ensures headers == cols && tableData == old(tableData)
    {
      headers := cols;
    }

    /** Replaces all rows. */
    method SetTableData(data: seq<Student>)
      modifies this`tableData
      ensures tableData == data && headers == old(headers)
    {
      tableData := data;
    }

    /** The number of rows is the number of stored records. */
    function RowCount(): (n: nat)
      reads this`tableData
      ensures n == |tableData|
    {
      |tableData|
    }

    /** The number of columns is the number of headers. */
    function ColumnCount(): (n: nat)
      reads this`headers
      ensures n == |headers|
    {
      |headers|
    }

    /** The cell at (`row`, `col`): with the display role, columns 0, 1 and 2
        show the name, the student number and the class of the record; every
        other column and every other role gives an empty value. The row is
        not bounds-checked, so a displayed column needs an existing row. */
    function Data(row: int, col: int, role: int): (r: Cell)
      requires role == DisplayRole && 0 <= col < 3 ==> 0 <= row < |tableData|
      reads this`tableData
      ensures r.Text? <==> role == DisplayRole && 0 <= col < 3
      ensures !r.Text? ==> r == Empty
      ensures r.Text? ==> r.text == ColumnField(tableData[row], col)
    {
      if role == DisplayRole then
        if col == 0 then Text(tableData[row].nama)
        else if col == 1 then Text(tableData[row].npm)
        else if col == 2 then Text(tableData[row].kelas)
        else Empty
      else Empty
    }

    /** The header label: with the display role, a horizontal section inside
        the header list gives that header and one outside gives an empty
        value, and a vertical section gives its one-based row number. */
    function HeaderData(section: int, orientation: Orientation, role: int): (r: Cell)
      reads this`headers
      ensures role != DisplayRole ==> r == Empty
      ensures role == DisplayRole && orientation == Horizontal ==>
                (r != Empty <==> 0 <= section < |headers|)
      ensures r.Text? ==> 0 <= section < |headers| && r.text == headers[section]
      ensures role == DisplayRole && orientation == Horizontal && 0 <= section < |headers| ==>
                r == Text(headers[section])
      ensures role == DisplayRole && orientation == Vertical ==> r == Number(section + 1)
    {
      if role != DisplayRole then Empty
      else if orientation == Horizontal then
        if 0 <= section < |headers| then Text(headers[section]) else Empty
      else Number(section + 1)
    }

    /** The record at `index`. A negative index gives a default record with
        empty texts and an uninitialised id, passed in as `junk`; an index
        past the last row is not checked by the model's owner and is not
        allowed here. */
    method GetCurrentData(index: int, junk: int) returns (d: Student)
      requires index < |tableData|
      ensures index < 0 ==> d == Student(junk, "", "", "")
      ensures 0 <= index ==> d == tableData[index]
    {
      if index < 0 {
        d := Student(junk, "", "", "");
        return;
      }
      d := tableData[index];
    }
  }

  /** The id is never displayed: two tables whose rows differ only in their
      ids show the same cells everywhere. */
  lemma IdNeverDisplayed(m: TableModel, m': TableModel, row: int, col: int, role: int)
    requires |m.tableData| == |m'.tableData|
    requires forall i :: 0 <= i < |m.tableData| ==> m.tableData[i].(id := 0) == m'.tableData[i].(id := 0)
    requires role == DisplayRole && 0 <= col < 3 ==> 0 <= row < |m.tableData|
    ensures m.Data(row, col, role) == m'.Data(row, col, role)
  {
    if role == DisplayRole && 0 <= col < 3 {
      var s, s' := m.tableData[row], m'.tableData[row];
      assert s.(id := 0) == s'.(id := 0);
      assert s.nama == s'.nama && s.npm == s'.npm && s.kelas == s'.kelas;
    }
  }

  /** Two rows show the same three display cells exactly when their records
      agree on everything but the id. */
  lemma SameDisplayIffSameFields(m: TableModel, i: int, j: int)
    requires 0 <= i < |m.tableData| && 0 <= j < |m.tableData|
    ensures (forall col :: 0 <= col < 3 ==> m.Data(i, col, DisplayRole) == m.Data(j, col, DisplayRole))
        <==> m.tableData[i].(id := 0) == m.tableData[j].(id := 0)
  {
    var s, t := m.tableData[i], m.tableData[j];
    if forall col :: 0 <= col < 3 ==> m.Data(i, col, DisplayRole) == m.Data(j, col, DisplayRole) {
      assert m.Data(i, 0, DisplayRole) == m.Data(j, 0, DisplayRole);
      assert m.Data(i, 1, DisplayRole) == m.Data(j, 1, DisplayRole);
      assert m.Data(i, 2, DisplayRole) == m.Data(j, 2, DisplayRole);
      assert s.nama == t.nama && s.npm == t.npm && s.kelas == t.kelas;
    }
  }

  /** Reading the horizontal header labels for every column gives back the
      header list, and the view asks for exactly as many as there are. */
  lemma HeadersRoundTrip(m: TableModel)
    ensures seq(m.ColumnCount(), k requires 0 <= k < |m.headers| reads m`headers =>
              m.HeaderData(k, Horizontal, DisplayRole).text) == m.headers
    ensures !m.HeaderData(m.ColumnCount(), Horizontal, DisplayRole).Text?
  {
  }

  /** Rows are labelled one-based, so different rows get different labels. */
  lemma RowLabelsDistinct(m: TableModel, a: int, b: int)
    requires a != b
    ensures m.HeaderData(a, Vertical, DisplayRole) != m.HeaderData(b, Vertical, DisplayRole)
  {
  }
}
