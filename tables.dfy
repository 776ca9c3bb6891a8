/**
 * The loaded table as the reader sees it: ordered column names, rows of cells
 * addressed by position (pandas' default RangeIndex), the equality filter that
 * `search` runs over one column, and the rendering of one row into display fields.
 */
module Tables {
  import opened Wrappers

  /** A cell as `.loc[row, column]` hands it back. */
  datatype Cell =
    | Null               // Python None
    | Num(repr: string)  // a Python int (bool included) or float; repr is its f-string form
    | Str(s: string)     // a Python str
    | Obj(repr: string)  // any other object (numpy integer, numpy bool, timestamp, ...); repr is str() of it

  /** Python's `str()` (equivalently `f'{dat}'`) of a cell. */
  function StrForm(c: Cell): string {
    match c
    case Null => "None"
    case Num(r) => r
    case Str(s) => s
    case Obj(r) => r
  }

  datatype Table = Table(columns: seq<string>, rows: seq<seq<Cell>>) {
    /** Column names are distinct and every row has one cell per column. */
    predicate Valid() {
      (forall i, j :: 0 <= i < j < |columns| ==> columns[i] != columns[j]) &&
      (forall r :: 0 <= r < |rows| ==> |rows[r]| == |columns|)
    }
  }

  type ValidTable = t: Table | t.Valid() witness Table([], [])

  /** Position of `name` among the columns, or None when `data[name]` would raise KeyError. */
  function ColumnIndex(columns: seq<string>, name: string): (r: Option<nat>)
    ensures r.Some? ==> r.value < |columns| && columns[r.value] == name
    ensures r.None? <==> name !in columns
  {
    if |columns| == 0 then None
    else if columns[0] == name then Some(0)
    else
      match ColumnIndex(columns[1..], name)
      case None => None
      case Some(k) => Some(k + 1)
  }

  /** The cells of column `j`, top to bottom. */
  function Column(t: ValidTable, j: nat): seq<Cell>
    requires j < |t.columns|
  {
    seq(|t.rows|, r requires 0 <= r < |t.rows| => t.rows[r][j])
  }

  /**
   * `list(data[data[label] == value].index)`: the positions whose cell equals the
   * query string, in ascending order. In the model only a `Str` cell equals a
   * string query (pandas' date-column parsing is not modelled).
   */
  function Matches(cells: seq<Cell>, value: string): (r: seq<int>)
    ensures forall i :: 0 <= i < |r| ==> 0 <= r[i] < |cells| && cells[r[i]] == Str(value)
    ensures forall i, j :: 0 <= i < j < |r| ==> r[i] < r[j]
    ensures forall k :: 0 <= k < |cells| && cells[k] == Str(value) ==> k in r
  {
    if |cells| == 0 then []
    else
      var n := |cells| - 1;
      Matches(cells[..n], value) + (if cells[n] == Str(value) then [n] else [])
  }

  /** The two display widgets a row field can ask for. */
  datatype Label = Text | Textarea

  /** One entry of `get_form_data_for_row`'s result: `{column, label, value}`. */
  datatype Field = Field(column: string, kind: Label, value: string)

  /** A string form longer than this asks for a textarea. */
  const LONG_TEXT := 20

  /** How one cell is shown: None and numbers as text, other values by the length of their string form. */
  function RenderCell(column: string, cell: Cell): (f: Field)
    ensures f.column == column && f.value == StrForm(cell)
    ensures f.kind == Textarea <==> (cell.Str? || cell.Obj?) && |StrForm(cell)| > LONG_TEXT
  {
    match cell
    case Null => Field(column, Text, "None")
    case Num(r) => Field(column, Text, r)
    case _ =>
      if |StrForm(cell)| > LONG_TEXT then Field(column, Textarea, StrForm(cell))
      else Field(column, Text, StrForm(cell))
  }

  /** The rendering of row `row`: one field per column, in column order. */
  function RenderRow(t: ValidTable, row: int): (r: seq<Field>)
    requires 0 <= row < |t.rows|
    ensures |r| == |t.columns|
    ensures forall i :: 0 <= i < |r| ==> r[i] == RenderCell(t.columns[i], t.rows[row][i])
  {
    seq(|t.columns|, i requires 0 <= i < |t.columns| => RenderCell(t.columns[i], t.rows[row][i]))
  }

  /** A query never matches in a column that holds no equal string (numbers and None included). */
  lemma NoStringNoMatch(cells: seq<Cell>, value: string)
    requires forall k :: 0 <= k < |cells| ==> cells[k] != Str(value)
    ensures Matches(cells, value) == []
  {
  }

  /** The first match is the smallest matching row. */
  lemma FirstMatchIsLeast(cells: seq<Cell>, value: string, k: nat)
    requires k < |cells| && cells[k] == Str(value)
    ensures |Matches(cells, value)| > 0 && Matches(cells, value)[0] <= k
  {
    var r := Matches(cells, value);
    assert k in r;
    var i :| 0 <= i < |r| && r[i] == k;
    if i > 0 {
      assert r[0] < r[i];
    }
  }
}
