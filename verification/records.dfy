/** Rows of the editable grid, its static column tree, and the pure row
    update that `updateMyData` hands to `setData`. */
module Records {

  /** A cell value. The seed rows hold strings and integers; a committed
      edit holds whatever the editor's draft holds (text after typing). */
  datatype Value = Text(s: string) | Number(n: int)

  /** A record: a flat set of named primitive fields. Identity is positional. */
  type Row = map<string, Value>

  /** Column descriptor: a leaf carries a header label and a field accessor;
      a group puts its sub-columns under a shared header label. */
  datatype Column = Leaf(header: string, accessor: string) | Group(header: string, columns: seq<Column>)

  /** The static two-level column tree of the page. */
  function Columns(): seq<Column>
  {
    [ Group("Name", [Leaf("First Name", "firstName"), Leaf("Last Name", "lastName")]),
      Group("Info", [Leaf("Age", "age"), Leaf("Visits", "visits"),
                     Leaf("Status", "status"), Leaf("Profile Progress", "progress")]) ]
  }

  /** The accessors of the leaves of a column forest, left to right. */
  function LeafAccessors(cols: seq<Column>): seq<string>
    decreases cols
  {
    if cols == [] then []
    else
      match cols[0]
      case Leaf(_, a) => [a] + LeafAccessors(cols[1..])
      case Group(_, sub) =>
        LeafAccessors(sub) + LeafAccessors(cols[1..])
  }

  /** The field names every record carries. */
  const FieldNames: set<string> := {"firstName", "lastName", "age", "visits", "status", "progress"}

  /** A column id the table can hand to a cell editor. */
  predicate IsField(k: string)
  {
    k in FieldNames
  }

  /** A seeded record: exactly one value per column accessor. */
  predicate WellFormedRow(row: Row)
  {
    row.Keys == FieldNames
  }

  predicate AllWellFormed(rows: seq<Row>)
  {
    forall i :: 0 <= i < |rows| ==> WellFormedRow(rows[i])
  }

  /** The column tree has six leaves, their accessors are pairwise distinct,
      and they are exactly the field names of a record. */
  lemma ColumnAccessors()
    ensures LeafAccessors(Columns()) == ["firstName", "lastName", "age", "visits", "status", "progress"]
    ensures forall i, j :: 0 <= i < j < |LeafAccessors(Columns())| ==> LeafAccessors(Columns())[i] != LeafAccessors(Columns())[j]
    ensures forall k :: IsField(k) <==> k in LeafAccessors(Columns())
  {
  }

  /** The object spread `{...row, [columnId]: value}`: a fresh record in which
      `columnId` holds `value` and every other field keeps its value. */
  function SetField(row: Row, columnId: string, value: Value): (r: Row)
    ensures r.Keys == row.Keys + {columnId}
    ensures r[columnId] == value
    ensures forall k :: k in row && k != columnId ==> r[k] == row[k]
  {
    row[columnId := value]
  }

  /** The new row list `updateMyData` builds with `map`: only the row whose
      position equals `rowIndex` is replaced, by a copy with `columnId` set to
      `value`. A `rowIndex` outside the list matches no position. */
  function UpdateRows(rows: seq<Row>, rowIndex: int, columnId: string, value: Value): (r: seq<Row>)
    ensures |r| == |rows|
    ensures forall i :: 0 <= i < |rows| && i != rowIndex ==> r[i] == rows[i]
    ensures 0 <= rowIndex < |rows| ==>
              && r[rowIndex].Keys == rows[rowIndex].Keys + {columnId}
              && r[rowIndex][columnId] == value
              && forall k :: k in rows[rowIndex] && k != columnId ==> r[rowIndex][k] == rows[rowIndex][k]
    ensures !(0 <= rowIndex < |rows|) ==> r == rows
  {
    seq(|rows|, index requires 0 <= index < |rows| =>
      if index == rowIndex then SetField(rows[rowIndex], columnId, value) else rows[index])
  }

  /** Editing a column of the tree keeps every record well formed. */
  lemma UpdateKeepsWellFormed(rows: seq<Row>, rowIndex: int, columnId: string, value: Value)
    requires AllWellFormed(rows) && IsField(columnId)
    ensures AllWellFormed(UpdateRows(rows, rowIndex, columnId, value))
  {
  }

  /** Committing the value a cell already holds gives back equal contents. */
  lemma UpdateWithSameValue(rows: seq<Row>, rowIndex: int, columnId: string)
    requires 0 <= rowIndex < |rows| && columnId in rows[rowIndex]
    ensures UpdateRows(rows, rowIndex, columnId, rows[rowIndex][columnId]) == rows
  {
    assert UpdateRows(rows, rowIndex, columnId, rows[rowIndex][columnId])[rowIndex] == rows[rowIndex];
  }

  /** Two commits to the same cell: the later one wins. */
  lemma UpdateSameCellTwice(rows: seq<Row>, rowIndex: int, columnId: string, first: Value, second: Value)
    ensures UpdateRows(UpdateRows(rows, rowIndex, columnId, first), rowIndex, columnId, second)
            == UpdateRows(rows, rowIndex, columnId, second)
  {
    var a := UpdateRows(UpdateRows(rows, rowIndex, columnId, first), rowIndex, columnId, second);
    var b := UpdateRows(rows, rowIndex, columnId, second);
    if 0 <= rowIndex < |rows| {
      assert a[rowIndex] == b[rowIndex];
    }
  }

  /** Commits to two different cells give the same rows in either order. */
  lemma UpdatesCommute(rows: seq<Row>, i: int, k: string, v: Value, j: int, l: string, w: Value)
    requires i != j || k != l
    ensures UpdateRows(UpdateRows(rows, i, k, v), j, l, w) == UpdateRows(UpdateRows(rows, j, l, w), i, k, v)
  {
    var a := UpdateRows(UpdateRows(rows, i, k, v), j, l, w);
    var b := UpdateRows(UpdateRows(rows, j, l, w), i, k, v);
    forall n | 0 <= n < |rows| ensures a[n] == b[n] {
      if n == i && n == j {
        assert a[n] == rows[n][k := v][l := w];
        assert b[n] == rows[n][l := w][k := v];
      }
    }
  }
}
