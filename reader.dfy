/**
 * The FileReader object: a loaded table and the browsing state it updates in
 * place. Each method performs the source's steps on the fields and is proved to
 * leave the state, and to render the row, that the matching function of module
 * Browsing or Loading prescribes.
 */
module Reader {
  import opened Wrappers
  import opened Tables
  import opened Loading
  import Browsing

  /** What a move or a search hands back: the rendered row, or the exception it raised. */
  datatype Outcome = Rendered(fields: seq<Field>) | Raised(fault: Browsing.Fault)

  /** The outcome a browsing step stands for over table `t`. */
  function Render(t: ValidTable, v: Browsing.View): Outcome
    requires v.Show? ==> 0 <= v.row < |t.rows|
  {
    match v
    case Show(row) => Rendered(RenderRow(t, row))
    case Raise(fault) => Raised(fault)
  }

  class FileReader {
    const data: ValidTable
    const size: nat
    const columns: seq<string>
    var index: int
    var subqueryIndices: Option<seq<int>>
    var subqueryIndex: int
    var pendingError: string  // `_error`; "" stands for None (the getter treats the two alike)
    var level: string         // `_level`

    /** The browsing fields as one value. */
    function State(): Browsing.State
      reads this
    {
      Browsing.State(index, subqueryIndices, subqueryIndex, pendingError, level)
    }

    ghost predicate Valid()
      reads this
    {
      size == |data.rows| && columns == data.columns && Browsing.WF(State(), size)
    }

    /** The field initialisation of `__init__`, once the table is loaded. */
    constructor (t: ValidTable)
      ensures Valid() && data == t && State() == Browsing.INITIAL
    {
      data := t;
      size := |t.rows|;
      columns := t.columns;
      index := -1;
      subqueryIndices := None;
      subqueryIndex := 0;
      pendingError := "";
      level := Browsing.DEFAULT_LEVEL;
    }

    /**
     * `FileReader(filename, data)`: strip quotes, pick a loader, and build the
     * reader; a failed load raises, so no reader comes out.
     */
    static method Open(filename: string, source: Source, env: Env) returns (r: Result<FileReader, LoadError>)
      ensures r.Failure? <==> Load(filename, source, env).Failure?
      ensures r.Failure? ==> r.error == Load(filename, source, env).error
      ensures r.Success? ==>
        fresh(r.value) && r.value.Valid() &&
        r.value.data == Load(filename, source, env).value && r.value.State() == Browsing.INITIAL
    {
      var name := StripQuotes(filename);
      var src := source;
      if src.Path? {
        src := Path(StripQuotes(src.path));
      }
      assert src == StripSource(source);
      var loaded: Result<ValidTable, LoadError>;
      if EndsWith(name, CSV) {
        var p := env.readCsv(src, Utf8);
        if p.DecodeFailed? {
          p := env.readCsv(src, Cp1252);
        }
        loaded := FromParse(p);
      } else if EndsWith(name, SAS) {
        loaded := FromParse(env.readSas(src, Cp1252));
      } else if env.isDir(src) {
        loaded := ReadDirectory(src, env.listDir(src));
      } else {
        loaded := Failure(UnsupportedSource(src));
      }
      assert loaded == Dispatch(name, src, env);
      if loaded.Failure? {
        return Failure(loaded.error);
      }
      var reader := new FileReader(loaded.value);
      return Success(reader);
    }

    /** `_read_directory`: reads the entries in listing order and stops at the first one it cannot read. */
    static method ReadDirectory(dir: Source, entries: seq<Entry>) returns (r: Result<ValidTable, LoadError>)
      ensures r == DirectoryLoad(dir, entries)
    {
      var records: seq<Record> := [];
      for i := 0 to |entries|
        invariant records == Records(entries[..i])
        invariant forall k :: 0 <= k < i ==> EndsWith(entries[k].name, TXT)
        invariant i > 0 ==> dir.Path?
      {
        var record := ReadFile(dir, entries[i]);
        if record.Failure? {
          return Failure(record.error);
        }
        records := records + [record.value];
      }
      assert entries[..|entries|] == entries;
      return Success(RecordsTable(records));
    }

    /** Reading the `error` property: returns the pending message and clears it; the level stays. */
    method TakeError() returns (m: Browsing.Message)
      requires Valid()
      modifies this
      ensures Valid()
      ensures Browsing.ReadError(old(State())) == Browsing.Read(m, State())
    {
      var val := "";
      if pendingError != "" {
        val := pendingError;
        pendingError := "";
      }
      m := Browsing.Message(level, val);
    }

    /** Assigning the `error` property. */
    method SetError(v: Browsing.ErrorValue)
      requires Valid()
      modifies this
      ensures Valid()
      ensures State() == Browsing.SetError(old(State()), v)
    {
      match v
      case Tagged(text, lvl) =>
        pendingError := text;
        level := lvl;
        if level !in Browsing.LEVELS {
          level := Browsing.DEFAULT_LEVEL;
        }
      case Plain(text) =>
        pendingError := text;
        level := Browsing.DEFAULT_LEVEL;
    }

    /** `_move(d)`. */
    method Move(d: int) returns (out: Outcome)
      requires Valid()
      modifies this
      ensures Valid()
      ensures var step := Browsing.Move(old(State()), size, d);
        State() == step.state && out == Render(data, step.view)
    {
      if subqueryIndex != 0 {
        if subqueryIndices.None? {
          return Raised(Browsing.LenOfNone);
        }
        var q := subqueryIndices.value;
        if |q| == 0 {
          return Raised(Browsing.ZeroDivision);
        }
        subqueryIndex := (subqueryIndex + d) % |q|;
        var fields := GetFormDataForRow(q[subqueryIndex]);
        return Rendered(fields);
      }
      if size == 0 {
        return Raised(Browsing.ZeroDivision);
      }
      index := (index + d) % size;
      var fields := GetFormDataForRow(index);
      return Rendered(fields);
    }

    method Reset() returns (out: Outcome)
      requires Valid()
      modifies this
      ensures Valid()
      ensures var step := Browsing.Reset(old(State()), size);
        State() == step.state && out == Render(data, step.view)
    {
      subqueryIndices := None;
      out := Move(0);
    }

    method Next() returns (out: Outcome)
      requires Valid()
      modifies this
      ensures Valid()
      ensures var step := Browsing.Next(old(State()), size);
        State() == step.state && out == Render(data, step.view)
    {
      out := Move(1);
    }

    method Prev() returns (out: Outcome)
      requires Valid()
      modifies this
      ensures Valid()
      ensures var step := Browsing.Prev(old(State()), size);
        State() == step.state && out == Render(data, step.view)
    {
      out := Move(-1);
    }

    /** `search(column, value)`. */
    method Search(column: string, value: string) returns (out: Outcome)
      requires Valid()
      modifies this
      ensures Valid()
      ensures var step := Browsing.Search(old(State()), data, column, value);
        State() == step.state && out == Render(data, step.view)
    {
      var j := ColumnIndex(data.columns, column);
      if j.None? {
        SetError(Browsing.Plain(Browsing.SEARCH_FAILURE + Browsing.KeyErrorText(column)));
      } else {
        subqueryIndices := Some(Matches(Column(data, j.value), value));
      }
      if subqueryIndices.None? {
        return Raised(Browsing.LenOfNone);
      }
      if |subqueryIndices.value| == 0 {
        SetError(Browsing.Plain(Browsing.NO_MATCHES));
        out := Move(0);
        return;
      }
      subqueryIndex := 0;
      var fields := GetFormDataForRow(subqueryIndices.value[subqueryIndex]);
      return Rendered(fields);
    }

    /**
     * `get_form_data_for_row(idx)`: one field per column in column order, each
     * classified by `RenderCell`; it changes nothing.
     */
    method GetFormDataForRow(idx: int) returns (results: seq<Field>)
      requires 0 <= idx < |data.rows|
      ensures results == RenderRow(data, idx)
    {
      results := [];
      for i := 0 to |data.columns|
        invariant |results| == i
        invariant forall k :: 0 <= k < i ==> results[k] == RenderCell(data.columns[k], data.rows[idx][k])
      {
        var col := data.columns[i];
        var dat := data.rows[idx][i];
        if dat.Null? {
          results := results + [Field(col, Text, "None")];
        } else if dat.Num? {
          results := results + [Field(col, Text, dat.repr)];
        } else if |StrForm(dat)| > LONG_TEXT {
          results := results + [Field(col, Textarea, StrForm(dat))];
        } else {
          results := results + [Field(col, Text, StrForm(dat))];
        }
      }
    }
  }
}
