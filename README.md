# pydataviewer's FileReader, modelled in Dafny

pydataviewer is a small web tool that loads a table (a CSV file, a `.sas7bdat`
file, or a directory of `.txt` files) and lets a user browse it one row at a
time, optionally narrowed by an equality search on one column. All of its logic
sits in one class, `FileReader`. This project models that class and proves
properties of it:

- **Loading** (module `Loading`): the constructor strips `"` and `'` from both
  ends of the file name, and from the data when it is a string. It then picks
  one loader. A stripped name ending in `.csv` is read as CSV (retried once with
  cp1252 when the text cannot be decoded). A name ending in `.sas7bdat` goes to
  the SAS reader. Otherwise, stripped data that is a directory is listed.
  Otherwise the load fails. A parser's failure ends the load; no other loader is
  tried. A directory becomes one `{filename, text}` record per entry in listing
  order. The first entry that is not `.txt` fails the whole load. Uploaded bytes
  that name a directory with entries fail with a `TypeError` on the first entry,
  because the joined bytes path cannot be tested against the str suffix `.txt`.
  The parsers and the filesystem are oracles in an `Env` value.
- **Table and rendering** (module `Tables`): cells are `Null`, `Num` (a Python
  int, bool included, or float), `Str` or `Obj` (any other object, such as a
  numpy integer or numpy bool). Rows are addressed by
  position. `Matches` is the equality filter behind `search`. `RenderCell` and
  `RenderRow` give the `{column, label, value}` fields of
  `get_form_data_for_row`. The Python key `label` is the field `kind` here,
  because `label` is a keyword in Dafny.
- **Browsing state machine** (module `Browsing`): the fields `index`,
  `subquery_indices`, `subquery_index`, `_error` and `_level` as one `State`
  value. `_move`, `reset`, `next`, `prev`, `search` and the `error`
  getter and setter are functions over it. The lemmas state wrap-around, the
  search results, the read-once message channel, and the fact that
  `subquery_index` stays 0 in every reachable state.
- **The object** (module `Reader`): class `FileReader` has the source's fields
  and updates them in place. Each method is proved to produce the state and the
  rendered row that the matching `Browsing` or `Loading` function prescribes.
  `GetFormDataForRow` and `ReadDirectory` keep the source's loops.

Behaviour modelled as the code has it, including where it differs from what
one might expect:

- `index` starts at -1, so the first `reset` shows the last row.
- `_move` tests `subquery_index`, not `subquery_indices`. `search` always sets
  `subquery_index` to 0, so the filtered branch is never taken. `next` and
  `prev` after a search move the direct cursor (`RunKeeps`,
  `ReachableNextIsDirect`).
- A search with no match leaves `subquery_indices == []`, not `None`.
- A search on an unknown column only posts the failure message and goes on
  with the old match list. With no list it raises `TypeError` (`len(None)`).
  With an empty list the failure message is overwritten by "No matches". With a
  non-empty list the first old match is shown again.
- Search equality is the stored cell against the query string. In the model
  only a `Str` cell equal to the query matches. A search for `"2"` in an integer
  `id` column finds nothing, because pandas treats a number compared with a
  string as unequal (`NoStringNoMatch`).
- The no-match path calls `_move(0)`. That takes the direct branch, so it
  divides by the table size, not by the empty list's length. It raises only
  when the table has no rows (`SearchNotFound`, `SearchEmptyTable`).
- An exception is modelled as a `Raise` outcome, never as a precondition. A move
  on an empty table raises `ZeroDivisionError` and changes nothing.
- Reading `error` clears the message but not `_level`. `_error` is a string
  here, with `""` meaning nothing pending. The getter treats `None` and `""`
  alike, so the two cannot be told apart.

## Model

| member | source | states |
|---|---|---|
| `Tables.ColumnIndex` | src/app.py:139 | the column's position when `data[label]` finds it; None exactly when the label is not a column (the KeyError case) |
| `Tables.Matches` | src/app.py:139 | the result holds exactly the rows whose cell equals `Str(value)`, in strictly ascending order, each a valid row |
| `Tables.FirstMatchIsLeast` | src/app.py:145-146 | when some row matches, the first entry of the match list is the smallest matching row |
| `Tables.NoStringNoMatch` | src/app.py:139 | a column with no cell equal to the query string (numbers and None included) gives an empty match list |
| `Tables.RenderCell` | src/app.py:152-159 | the field carries the column and the cell's string form (`'None'` for None); it is a textarea exactly for a non-None, non-numeric value whose string form exceeds 20 characters |
| `Tables.RenderRow` | src/app.py:148-160 | one field per column, in column order, each the `RenderCell` classification (text or textarea) of that column's cell, carrying its string form |
| `Loading.StripLeading` | src/app.py:64-66 | the result is a suffix of the input, everything dropped is a quote character, and it does not start with one |
| `Loading.StripTrailing` | src/app.py:64-66 | the result is a prefix of the input, everything dropped is a quote character, and it does not end with one |
| `Loading.StripQuotes` | src/app.py:64 | the result is no longer than the input and neither starts nor ends with a quote character |
| `Loading.StripQuotesSlice` | src/app.py:64 | the stripped result is one slice of the input, and everything cut before and after it is a quote character |
| `Loading.StripSource` | src/app.py:65-66 | bytes are left alone; a string path is quote-stripped |
| `Loading.StripQuotesUnquoted` | src/app.py:64-66 | a string with no quote character at either end is unchanged by stripping |
| `Loading.QuotedRoundTrip` | src/app.py:64-66 | any run of quotes wrapped around such a string is removed again by stripping |
| `Loading.StripQuotesIdempotent` | src/app.py:64-66 | stripping twice is the same as stripping once |
| `Loading.QuotedArgumentsLoadAlike` | src/app.py:64-77 | a quoted file name with a quoted path loads exactly as the unquoted pair |
| `Loading.Load` | src/app.py:64-77 | a load succeeds only through `.csv`, `.sas7bdat` or a directory, judged on the stripped name and data; an unsupported-source failure names the stripped data |
| `Loading.Dispatch` | src/app.py:67-77 | success only through one of the three loaders; the unsupported-source failure happens exactly when none applies, and names the source |
| `Loading.LoadStripsOnce` | src/app.py:64-66 | loading already-stripped arguments gives the same result as loading the originals |
| `Loading.DispatchOrder` | src/app.py:67-77 | `.csv` wins over `.sas7bdat`, which wins over a directory; otherwise the load fails naming the stripped data |
| `Loading.ReadCsv` | src/app.py:68-71 | succeeds exactly when the default read parses, or it cannot decode and the cp1252 read parses, giving that table; failures are decode or parse errors |
| `Loading.CsvRetry` | src/app.py:68-71 | a CSV read is retried with cp1252 exactly when the first read cannot decode; any other failure propagates |
| `Loading.ReadFile` | src/app.py:89-95 | an entry of a string directory reads as `{filename, text}` exactly when its name ends in `.txt`, otherwise it fails naming the entry; under a bytes directory it always raises the `TypeError` |
| `Loading.FirstUnsupported` | src/app.py:85-86 | the position of the first entry that is not `.txt`: every earlier entry is `.txt` |
| `Loading.RecordsTable` | src/app.py:87 | one row `[filename, text]` per record, in order; columns `filename`, `text`, or no columns at all when there are no records |
| `Loading.DirectoryLoad` | src/app.py:83-95 | a bytes directory with entries fails with the `TypeError`; a loaded table has one row per entry; the only failures are that `TypeError` and an unsupported entry |
| `Loading.DirectoryLoadCases` | src/app.py:83-95 | a string directory loads iff every entry is `.txt`, giving rows `[filename, text]` in listing order; otherwise it fails naming the first other entry |
| `Loading.BytesDirectoryLoad` | src/app.py:74-90 | uploaded bytes naming a directory load as an empty table when the listing is empty, and fail with the `TypeError` when it has any entry |
| `Browsing.SetError` | src/app.py:105-114 | the message is stored; the level is the given one only for a pair whose level is one of the four, else `'warning'`; nothing else changes |
| `Browsing.ReadError` | src/app.py:97-103 | returns `{level, pending message}` and clears the message, keeping the level |
| `Browsing.Move` | src/app.py:119-125 | keeps the invariant and shows a valid row; never touches the match list or the message; a fault leaves the state unchanged |
| `Browsing.Search` | src/app.py:137-146 | keeps the invariant (ascending, in-range match list; index -1 or a row; level one of four) and shows a valid row |
| `Browsing.Reset` | src/app.py:127-129 | clears the match list, keeps the invariant and the message; in direct mode over rows it shows the row the cursor lands on |
| `Browsing.Next` | src/app.py:131-132 | from a row in direct mode, moves to and shows the following row, or row 0 after the last; keeps the invariant |
| `Browsing.Prev` | src/app.py:134-135 | from a row in direct mode, moves to and shows the preceding row, or the last row before row 0; keeps the invariant |
| `Browsing.DirectMove` | src/app.py:123-125 | with `subquery_index == 0` and rows present, the cursor becomes `(index + d) % size`, a row in `[0, size)`, which is shown; nothing else changes |
| `Browsing.FirstResetShowsLastRow` | src/app.py:127-129 | from the constructor's index -1, the first reset moves to and shows row `size - 1` |
| `Browsing.ResetKeepsRow` | src/app.py:127-129 | on a valid row, reset clears the match list and shows that row without moving |
| `Browsing.NextThenPrev` | src/app.py:131-135 | `next` followed by `prev` restores the state |
| `Browsing.PrevThenNext` | src/app.py:131-135 | `prev` followed by `next` restores the state |
| `Browsing.RepeatIndex` | src/app.py:124 | `n` direct moves by `d` land on `(index + n*d) % size`, nothing else changing |
| `Browsing.FullCycle` | src/app.py:131-135 | `size` calls of `next`, or of `prev`, return to the starting row |
| `Browsing.FilteredMove` | src/app.py:120-122 | the filtered branch sets the match cursor to `(subquery_index + idx) % len(subquery_indices)`, shows that entry of the match list, and changes nothing else |
| `Browsing.SearchFound` | src/app.py:137-146 | with a match: the list is exactly the matching rows ascending, `subquery_index` is 0, the first match is shown, index and message unchanged |
| `Browsing.SearchNotFound` | src/app.py:142-144 | with no match: message "No matches" at "warning", match list `[]`, the direct row is shown and nothing raises |
| `Browsing.SearchEmptyTable` | src/app.py:137-144 | on a table without rows a search posts "No matches" at "warning", leaves `[]` and then raises `ZeroDivisionError` in `_move(0)` |
| `Browsing.SearchUnknownColumn` | src/app.py:140-146 | an unknown column posts the failure message, then raises on no list, reports "No matches" on an empty list, or re-shows a stale list's first row |
| `Browsing.SearchResetNext` | src/app.py:127-146 | search, on a known or an unknown column, keeps the direct index; `next` after search, or after search and reset, shows the row after the pre-search position |
| `Browsing.ReadTwice` | src/app.py:97-103 | a second read returns an empty message with the same level and changes nothing |
| `Browsing.SetThenRead` | src/app.py:97-114 | a posted message is read back once with a normalised level (`'warning'` for a bare string); the next read is empty |
| `Browsing.NoMatchesDeliveredOnce` | src/app.py:142-144 | after a no-match search the next read gives "No matches"/"warning" and the one after gives `''` |
| `Browsing.ApplyKeeps` | src/app.py:119-146 | every operation keeps the invariant and keeps `subquery_index` at 0 |
| `Browsing.RunKeeps` | src/app.py:119-146 | any sequence of operations keeps the invariant and `subquery_index == 0`, so the filtered branch is dead |
| `Browsing.ReachableNextIsDirect` | src/app.py:131-132 | in every state reachable from the constructor's, `next` advances the direct index by one with wrap-around |
| `Reader.FileReader.constructor` | src/app.py:60-81 | index -1, no match list, `subquery_index` 0, no message, level `'warning'`, and the invariant holds |
| `Reader.FileReader.Open` | src/app.py:59-79 | fails exactly when `Load` fails, with its error; otherwise gives a fresh reader over `Load`'s table in the initial state. A reader exists, and so `__bool__` (src/app.py:116-117) is true, exactly when the load succeeds |
| `Reader.FileReader.ReadDirectory` | src/app.py:83-95 | the loop's result is `DirectoryLoad` of the directory and its entries, stopping at the first entry `_read_file` refuses |
| `Reader.FileReader.TakeError` | src/app.py:97-103 | returns and clears the message as `ReadError` prescribes |
| `Reader.FileReader.SetError` | src/app.py:105-114 | the fields become `SetError` of the old state |
| `Reader.FileReader.Move` | src/app.py:119-125 | fields and outcome are `Move`'s step, rendered |
| `Reader.FileReader.Reset` | src/app.py:127-129 | fields and outcome are `Reset`'s step, rendered |
| `Reader.FileReader.Next` | src/app.py:131-132 | fields and outcome are `Next`'s step, rendered |
| `Reader.FileReader.Prev` | src/app.py:134-135 | fields and outcome are `Prev`'s step, rendered |
| `Reader.FileReader.Search` | src/app.py:137-146 | fields and outcome are `Search`'s step, rendered |
| `Reader.FileReader.GetFormDataForRow` | src/app.py:148-160 | one `RenderCell` field per column in column order; reads the table and changes nothing |

## Left out

- The Flask routes `index` and `viewer`, the form classes, the global `fr`, Bootstrap and `app.run` (src/app.py:10-54, 163-165) are web plumbing. The only thing taken from them is that `viewer` calls `search` or `reset` and then reads `error`.
- `pd.read_csv`, `pd.read_sas`, `os.path.isdir`, `os.listdir` and file reads are oracles in `Env`. A directory is a sequence of (name, contents) entries. A `.txt` entry that cannot be opened or decoded is not modelled.
- `_read_file` tests `os.path.join(directory, filename).endswith('.txt')`. The model tests the entry name, which has the same suffix.
- `pd.DataFrame(records)` is modelled only for records from `_read_directory`. Column names are assumed distinct, as pandas' CSV reader makes them. Row labels are positions (pandas' default RangeIndex), so `.loc` and `.index` are positional.
- Number formatting (`f'{dat}'` of floats and numpy scalars, NaN) is opaque: a `Num` or `Obj` cell carries its string form.
- `Tables.Matches`: pandas' equality of a datetime column (which `read_sas` makes of SAS date columns) with a string parses the string as a timestamp and can match; the model treats such cells as `Obj`, which never match a query. Parsed-string equality on date columns is not modelled.
- `Browsing.Search`: the only exception modelled inside `search`'s `try` is the KeyError of an unknown column. Its detail text is the column name in single quotes. Python's choice of double quotes for names containing `'` is not modelled. A comparison that raises for some other reason is not modelled.
- `Loading.LoadError`: an unsupported source keeps the stripped data itself, not the formatted `NotImplementedError` text. The exact text of exception messages is not modelled.
- `__init__`'s unused `is_file` parameter carries no behaviour and is not modelled.
- Sharing one reader among concurrent requests is not modelled: operations run one at a time.
