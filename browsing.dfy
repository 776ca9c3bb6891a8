/**
 * The FileReader's browsing state as a value, and each operation on it as a
 * function from the old state to the new state and what gets shown. The class in
 * module Reader performs these steps in place; the lemmas here state what the
 * steps guarantee.
 *
 * The state is `index` (the direct cursor, -1 before the first move),
 * `subqueryIndices` (the last search's matches, None when cleared),
 * `subqueryIndex` (the cursor into those matches), `pending` (the one-shot
 * message, "" when nothing is pending) and `level` (its severity).
 */
module Browsing {
  import opened Wrappers
  import opened Tables

  const LEVELS: set<string> := {"success", "info", "warning", "danger"}
  const DEFAULT_LEVEL := "warning"
  const NO_MATCHES := "No matches"
  const SEARCH_FAILURE := "Fatal error in search: "

  /** What is assigned to the `error` property: a bare message or a `(message, level)` pair. */
  datatype ErrorValue = Plain(text: string) | Tagged(text: string, level: string)

  /** What reading the `error` property returns: `{level, message}`. */
  datatype Message = Message(level: string, message: string)

  /** An exception that escapes a move or a search. */
  datatype Fault =
    | ZeroDivision  // `% 0`: an empty table, or an empty match list in the filtered branch
    | LenOfNone     // `len(None)`: no match list to take the length of

  /** What an operation ends with: the row it renders, or the exception it raises. */
  datatype View = Show(row: int) | Raise(fault: Fault)

  datatype State = State(
    index: int,
    subqueryIndices: Option<seq<int>>,
    subqueryIndex: int,
    pending: string,
    level: string)

  datatype Step = Step(state: State, view: View)

  datatype Read = Read(message: Message, state: State)

  /** The state the constructor leaves behind. */
  const INITIAL := State(-1, None, 0, "", DEFAULT_LEVEL)

  predicate Ascending(q: seq<int>) {
    forall i, j :: 0 <= i < j < |q| ==> q[i] < q[j]
  }

  predicate RowsOf(q: seq<int>, size: nat) {
    forall i :: 0 <= i < |q| ==> 0 <= q[i] < size
  }

  /**
   * The invariant every reachable state keeps over a table of `size` rows: the
   * direct cursor is -1 or a row, the match list holds rows in ascending order,
   * and the level is one of the four severities.
   */
  predicate WF(s: State, size: nat) {
    (s.index == -1 || 0 <= s.index < size) &&
    (s.subqueryIndices.Some? ==> Ascending(s.subqueryIndices.value) && RowsOf(s.subqueryIndices.value, size)) &&
    s.level in LEVELS
  }

  // ---------------------------------------------------------------- message channel

  /** The `error` setter: a bare message, or a pair whose level is outside the four, gets "warning". */
  function SetError(s: State, v: ErrorValue): (r: State)
    ensures r.pending == v.text && r.level in LEVELS
    ensures r.level == (if v.Tagged? && v.level in LEVELS then v.level else DEFAULT_LEVEL)
    ensures r == s.(pending := r.pending, level := r.level)
  {
    match v
    case Plain(text) => s.(pending := text, level := DEFAULT_LEVEL)
    case Tagged(text, level) =>
      var t := s.(pending := text, level := level);
      if level !in LEVELS then t.(level := DEFAULT_LEVEL) else t
  }

  /** The `error` getter: hands out the pending message with the current level and clears the message. */
  function ReadError(s: State): (r: Read)
    ensures r.message == Message(s.level, s.pending)
    ensures r.state == s.(pending := "")
  {
    if s.pending != "" then Read(Message(s.level, s.pending), s.(pending := ""))
    else Read(Message(s.level, ""), s)
  }

  // ---------------------------------------------------------------- cursor

  /**
   * `_move(d)`. A nonzero `subqueryIndex` moves within the match list; otherwise
   * the direct cursor moves. Both wrap around with a non-negative remainder. A
   * fault leaves the state as it was.
   */
  function Move(s: State, size: nat, d: int): (r: Step)
    ensures WF(s, size) ==> WF(r.state, size) && (r.view.Show? ==> 0 <= r.view.row < size)
    ensures r.state.subqueryIndices == s.subqueryIndices && r.state.pending == s.pending && r.state.level == s.level
    ensures r.view.Raise? ==> r.state == s
  {
    if s.subqueryIndex != 0 then
      match s.subqueryIndices
      case None => Step(s, Raise(LenOfNone))
      case Some(q) =>
        if |q| == 0 then Step(s, Raise(ZeroDivision))
        else
          var k := (s.subqueryIndex + d) % |q|;
          Step(s.(subqueryIndex := k), Show(q[k]))
    else if size == 0 then Step(s, Raise(ZeroDivision))
    else
      var k := (s.index + d) % size;
      Step(s.(index := k), Show(k))
  }

  /** `reset`: drop the match list, then show the row under the cursor. */
  function Reset(s: State, size: nat): (r: Step)
    ensures WF(s, size) ==> WF(r.state, size) && (r.view.Show? ==> 0 <= r.view.row < size)
    ensures r.state.subqueryIndices.None? && r.state.pending == s.pending && r.state.level == s.level
    ensures s.subqueryIndex == 0 && size > 0 ==> r.view == Show(r.state.index) && 0 <= r.state.index < size
  {
    Move(s.(subqueryIndices := None), size, 0)
  }

  /** `next`: from a row in direct mode, the following row, and row 0 after the last. */
  function Next(s: State, size: nat): (r: Step)
    ensures WF(s, size) ==> WF(r.state, size) && (r.view.Show? ==> 0 <= r.view.row < size)
    ensures s.subqueryIndex == 0 && 0 <= s.index < size ==>
      var k := if s.index == size - 1 then 0 else s.index + 1;
      r == Step(s.(index := k), Show(k))
  {
    Move(s, size, 1)
  }

  /** `prev`: from a row in direct mode, the preceding row, and the last row before row 0. */
  function Prev(s: State, size: nat): (r: Step)
    ensures WF(s, size) ==> WF(r.state, size) && (r.view.Show? ==> 0 <= r.view.row < size)
    ensures s.subqueryIndex == 0 && 0 <= s.index < size ==>
      var k := if s.index == 0 then size - 1 else s.index - 1;
      r == Step(s.(index := k), Show(k))
  {
    Move(s, size, -1)
  }

  // ---------------------------------------------------------------- search

  /** `str(KeyError(name))`, the detail the failure message carries. */
  function KeyErrorText(name: string): string {
    "'" + name + "'"
  }

  /**
   * `search(column, value)`. A known column replaces the match list with the rows
   * whose cell equals `value`; an unknown one only posts the failure message and
   * leaves whatever list there was. Then: no list raises, an empty list posts
   * "No matches" and shows the direct cursor's row, and a non-empty list sets
   * `subqueryIndex` to 0 and shows its first row.
   */
  function Search(s: State, t: ValidTable, column: string, value: string): (r: Step)
    ensures WF(s, |t.rows|) ==> WF(r.state, |t.rows|) && (r.view.Show? ==> 0 <= r.view.row < |t.rows|)
  {
    var s1 :=
      match ColumnIndex(t.columns, column)
      case None => SetError(s, Plain(SEARCH_FAILURE + KeyErrorText(column)))
      case Some(j) => s.(subqueryIndices := Some(Matches(Column(t, j), value)));
    match s1.subqueryIndices
    case None => Step(s1, Raise(LenOfNone))
    case Some(q) =>
      if |q| == 0 then Move(SetError(s1, Plain(NO_MATCHES)), |t.rows|, 0)
      else Step(s1.(subqueryIndex := 0), Show(q[0]))
  }

  // ---------------------------------------------------------------- runs

  /** One call a client can make on the reader. */
  datatype Op =
    | DoReset
    | DoNext
    | DoPrev
    | DoSearch(column: string, value: string)
    | DoRead
    | DoSet(v: ErrorValue)

  function Apply(s: State, t: ValidTable, op: Op): State {
    match op
    case DoReset => Reset(s, |t.rows|).state
    case DoNext => Next(s, |t.rows|).state
    case DoPrev => Prev(s, |t.rows|).state
    case DoSearch(column, value) => Search(s, t, column, value).state
    case DoRead => ReadError(s).state
    case DoSet(v) => SetError(s, v)
  }

  /** The state after a sequence of calls, faults included (a fault ends the request, not the reader). */
  function Run(s: State, t: ValidTable, ops: seq<Op>): State
    decreases |ops|
  {
    if ops == [] then s else Run(Apply(s, t, ops[0]), t, ops[1..])
  }

  // ---------------------------------------------------------------- arithmetic

  lemma {:induction false} MulAtLeast(k: int, m: int)
    requires k >= 1 && m > 0
    ensures k * m >= m
    decreases k
  {
    if k > 1 {
      MulAtLeast(k - 1, m);
      assert k * m == (k - 1) * m + m;
    }
  }

  /** The remainder by a positive divisor is the unique value in range congruent to x. */
  lemma ModUnique(x: int, m: int, q: int, r: int)
    requires m > 0 && 0 <= r < m && x == q * m + r
    ensures x % m == r
  {
    var q', r' := x / m, x % m;
    assert x == q' * m + r';
    var k := q - q';
    assert k * m == q * m - q' * m;
    assert k * m == r' - r;
    if k >= 1 {
      MulAtLeast(k, m);
      assert false;
    } else if k <= -1 {
      MulAtLeast(-k, m);
      assert false;
    }
  }

  /** Adding after reducing is the same as reducing after adding. */
  lemma ModAdd(x: int, d: int, m: int)
    requires m > 0
    ensures (x % m + d) % m == (x + d) % m
  {
    var r := (x % m + d) % m;
    var a := (x % m + d) / m;
    assert x % m + d == a * m + r;
    assert x == (x / m) * m + x % m;
    assert x + d == (x / m + a) * m + r;
    ModUnique(x + d, m, x / m + a, r);
  }

  // ---------------------------------------------------------------- cursor properties

  /** A direct-mode move puts the cursor on `(index + d) % size`, a row, and shows it. */
  lemma DirectMove(s: State, size: nat, d: int)
    requires s.subqueryIndex == 0 && size > 0
    ensures var r := Move(s, size, d);
      0 <= r.state.index < size && r.state.index == (s.index + d) % size &&
      r.state == s.(index := r.state.index) && r.view == Show(r.state.index)
  {
  }

  /** The cursor starts at -1, so the first `reset` shows the last row. */
  lemma FirstResetShowsLastRow(size: nat)
    requires size > 0
    ensures Reset(INITIAL, size).view == Show(size - 1)
    ensures Reset(INITIAL, size).state == INITIAL.(index := size - 1)
  {
    ModUnique(-1, size, -1, size - 1);
  }

  /** On a row, `reset` clears the match list and shows that row without moving. */
  lemma ResetKeepsRow(s: State, size: nat)
    requires s.subqueryIndex == 0 && 0 <= s.index < size
    ensures Reset(s, size) == Step(s.(subqueryIndices := None), Show(s.index))
  {
    ModUnique(s.index, size, 0, s.index);
  }

  /** `next` then `prev` puts the cursor back. */
  lemma NextThenPrev(s: State, size: nat)
    requires s.subqueryIndex == 0 && 0 <= s.index < size
    ensures Prev(Next(s, size).state, size).state == s
  {
    ModAdd(s.index + 1, -1, size);
    ModUnique(s.index, size, 0, s.index);
  }

  /** `prev` then `next` puts the cursor back. */
  lemma PrevThenNext(s: State, size: nat)
    requires s.subqueryIndex == 0 && 0 <= s.index < size
    ensures Next(Prev(s, size).state, size).state == s
  {
    ModAdd(s.index - 1, 1, size);
    ModUnique(s.index, size, 0, s.index);
  }

  /** `n` moves by `d` in a row. */
  function Repeat(s: State, size: nat, d: int, n: nat): State
    decreases n
  {
    if n == 0 then s else Move(Repeat(s, size, d, n - 1), size, d).state
  }

  /** After `n` direct moves by `d` from a row the cursor is at `(index + n * d) % size`; nothing else changes. */
  lemma {:induction false} RepeatIndex(s: State, size: nat, d: int, n: nat)
    requires s.subqueryIndex == 0 && 0 <= s.index < size
    ensures Repeat(s, size, d, n) == s.(index := (s.index + n * d) % size)
    decreases n
  {
    if n == 0 {
      ModUnique(s.index, size, 0, s.index);
    } else {
      RepeatIndex(s, size, d, n - 1);
      ModAdd(s.index + (n - 1) * d, d, size);
      assert s.index + (n - 1) * d + d == s.index + n * d;
    }
  }

  /** `size` calls of `next`, or of `prev`, from a row come back to it. */
  lemma FullCycle(s: State, size: nat)
    requires s.subqueryIndex == 0 && 0 <= s.index < size
    ensures Repeat(s, size, 1, size) == s
    ensures Repeat(s, size, -1, size) == s
  {
    RepeatIndex(s, size, 1, size);
    ModUnique(s.index + size, size, 1, s.index);
    RepeatIndex(s, size, -1, size);
    ModUnique(s.index - size, size, -1, s.index);
  }

  /** A move in the filtered branch shows a row of the match list, wrapping within it. */
  lemma FilteredMove(s: State, size: nat, d: int)
    requires s.subqueryIndex != 0 && s.subqueryIndices.Some? && |s.subqueryIndices.value| > 0
    ensures var q, r := s.subqueryIndices.value, Move(s, size, d);
      r.state.subqueryIndex == (s.subqueryIndex + d) % |q| &&
      0 <= r.state.subqueryIndex < |q| && r.view == Show(q[r.state.subqueryIndex]) &&
      r.state == s.(subqueryIndex := r.state.subqueryIndex)
  {
  }

  // ---------------------------------------------------------------- search properties

  /**
   * A search on a known column with at least one match: the match list becomes
   * every row whose cell equals `value`, ascending; `subqueryIndex` becomes 0; the
   * first match is shown; the direct cursor and the message do not change.
   */
  lemma SearchFound(s: State, t: ValidTable, column: string, value: string)
    requires column in t.columns
    requires exists k :: 0 <= k < |t.rows| && t.rows[k][ColumnIndex(t.columns, column).value] == Str(value)
    ensures var j := ColumnIndex(t.columns, column).value;
      var r := Search(s, t, column, value);
      var q := r.state.subqueryIndices.value;
      r.state.subqueryIndices.Some? && |q| > 0 &&
      (forall k :: 0 <= k < |t.rows| ==> (k in q <==> t.rows[k][j] == Str(value))) &&
      Ascending(q) && RowsOf(q, |t.rows|) &&
      r.state == s.(subqueryIndices := Some(q), subqueryIndex := 0) &&
      r.view == Show(q[0])
  {
    var j := ColumnIndex(t.columns, column).value;
    var k :| 0 <= k < |t.rows| && t.rows[k][j] == Str(value);
    var cells := Column(t, j);
    assert cells[k] == Str(value);
    FirstMatchIsLeast(cells, value, k);
    var q := Matches(cells, value);
    forall k' | 0 <= k' < |t.rows|
      ensures k' in q <==> t.rows[k'][j] == Str(value)
    {
      assert cells[k'] == t.rows[k'][j];
    }
  }

  /**
   * A search on a known column with no match posts "No matches" at level
   * "warning", leaves an empty match list (not None) and shows the direct
   * cursor's row; it does not fault when the table has rows.
   */
  lemma SearchNotFound(s: State, t: ValidTable, column: string, value: string)
    requires s.subqueryIndex == 0 && 0 < |t.rows|
    requires column in t.columns
    requires forall k :: 0 <= k < |t.rows| ==> t.rows[k][ColumnIndex(t.columns, column).value] != Str(value)
    ensures var r := Search(s, t, column, value);
      r.state == s.(subqueryIndices := Some([]), pending := NO_MATCHES, level := DEFAULT_LEVEL,
                    index := (s.index + 0) % |t.rows|) &&
      r.view == Show(r.state.index)
  {
    var j := ColumnIndex(t.columns, column).value;
    var cells := Column(t, j);
    assert forall k :: 0 <= k < |cells| ==> cells[k] != Str(value);
    NoStringNoMatch(cells, value);
  }

  /**
   * On a table without rows a search on a known column finds nothing, posts
   * "No matches" at level "warning", leaves an empty match list and then faults
   * in `_move(0)`, which divides by the table's size.
   */
  lemma SearchEmptyTable(s: State, t: ValidTable, column: string, value: string)
    requires s.subqueryIndex == 0 && |t.rows| == 0
    requires column in t.columns
    ensures var r := Search(s, t, column, value);
      r.state == s.(subqueryIndices := Some([]), pending := NO_MATCHES, level := DEFAULT_LEVEL) &&
      r.view == Raise(ZeroDivision)
  {
    NoStringNoMatch(Column(t, ColumnIndex(t.columns, column).value), value);
  }

  /**
   * A search on an unknown column posts the failure message and then goes on with
   * the match list left from before: none raises, an empty one is reported as
   * "No matches" (overwriting the failure), a non-empty one shows its first row
   * again.
   */
  lemma SearchUnknownColumn(s: State, t: ValidTable, column: string, value: string)
    requires column !in t.columns
    ensures var r := Search(s, t, column, value);
      var failed := s.(pending := SEARCH_FAILURE + KeyErrorText(column), level := DEFAULT_LEVEL);
      (s.subqueryIndices.None? ==> r == Step(failed, Raise(LenOfNone))) &&
      (s.subqueryIndices == Some([]) ==> r == Move(failed.(pending := NO_MATCHES), |t.rows|, 0)) &&
      (s.subqueryIndices.Some? && |s.subqueryIndices.value| > 0 ==>
         r == Step(failed.(subqueryIndex := 0), Show(s.subqueryIndices.value[0])))
  {
  }

  /**
   * `search`, then `reset`, then `next` continues from the direct cursor held
   * before the search; likewise `next` straight after a successful search moves
   * the direct cursor, not through the matches.
   */
  lemma SearchResetNext(s: State, t: ValidTable, column: string, value: string)
    requires s.subqueryIndex == 0 && 0 <= s.index < |t.rows|
    ensures var after := Search(s, t, column, value).state;
      after.index == s.index && after.subqueryIndex == 0 &&
      Next(Reset(after, |t.rows|).state, |t.rows|).view == Show((s.index + 1) % |t.rows|) &&
      Next(after, |t.rows|).view == Show((s.index + 1) % |t.rows|)
  {
    var size := |t.rows|;
    var after := Search(s, t, column, value).state;
    ModUnique(s.index, size, 0, s.index);
    assert after.index == s.index;
    ResetKeepsRow(after, size);
  }

  // ---------------------------------------------------------------- message properties

  /** A second read straight after a first returns no message, at the same level. */
  lemma ReadTwice(s: State)
    ensures var first := ReadError(s);
      ReadError(first.state).message == Message(s.level, "") &&
      ReadError(first.state).state == first.state
  {
  }

  /** A message posted by the setter is read back once, with its normalised level; the next read is empty. */
  lemma SetThenRead(s: State, v: ErrorValue)
    ensures var first := ReadError(SetError(s, v));
      first.message.message == v.text &&
      first.message.level in LEVELS &&
      (v.Plain? ==> first.message.level == DEFAULT_LEVEL) &&
      ReadError(first.state).message.message == ""
  {
  }

  /** After a search with no match the next read returns "No matches" at "warning", and the one after it nothing. */
  lemma NoMatchesDeliveredOnce(s: State, t: ValidTable, column: string, value: string)
    requires s.subqueryIndex == 0 && 0 < |t.rows|
    requires column in t.columns
    requires forall k :: 0 <= k < |t.rows| ==> t.rows[k][ColumnIndex(t.columns, column).value] != Str(value)
    ensures var first := ReadError(Search(s, t, column, value).state);
      first.message == Message(DEFAULT_LEVEL, NO_MATCHES) &&
      ReadError(first.state).message == Message(DEFAULT_LEVEL, "")
  {
    SearchNotFound(s, t, column, value);
  }

  // ---------------------------------------------------------------- reachability

  /** Every operation keeps the invariant and keeps `subqueryIndex` at 0. */
  lemma ApplyKeeps(s: State, t: ValidTable, op: Op)
    requires WF(s, |t.rows|) && s.subqueryIndex == 0
    ensures WF(Apply(s, t, op), |t.rows|) && Apply(s, t, op).subqueryIndex == 0
  {
  }

  /**
   * From the constructor's state, whatever sequence of calls is made,
   * `subqueryIndex` stays 0: the filtered branch of `_move` is never taken, and
   * `next`/`prev` always move the direct cursor.
   */
  lemma {:induction false} RunKeeps(s: State, t: ValidTable, ops: seq<Op>)
    requires WF(s, |t.rows|) && s.subqueryIndex == 0
    ensures WF(Run(s, t, ops), |t.rows|) && Run(s, t, ops).subqueryIndex == 0
    decreases |ops|
  {
    if ops != [] {
      ApplyKeeps(s, t, ops[0]);
      RunKeeps(Apply(s, t, ops[0]), t, ops[1..]);
    }
  }

  /** In every reachable state over a non-empty table, `next` moves the direct cursor one row on. */
  lemma ReachableNextIsDirect(t: ValidTable, ops: seq<Op>)
    requires |t.rows| > 0
    ensures var s := Run(INITIAL, t, ops);
      Next(s, |t.rows|) == Step(s.(index := (s.index + 1) % |t.rows|), Show((s.index + 1) % |t.rows|))
  {
    RunKeeps(INITIAL, t, ops);
  }
}
