/**
 * What the FileReader constructor does before it has a table: strip quote
 * characters, pick a loader by extension or by "is a directory", and turn a
 * directory of `.txt` files into one `{filename, text}` record per entry.
 * The parsers and the filesystem are an environment `Env` of oracles.
 */
module Loading {
  import opened Wrappers
  import opened Tables

  /** `data` as handed to the constructor: uploaded bytes, or a typed path. */
  datatype Source = Bytes(bytes: seq<bv8>) | Path(path: string)

  /** The text encoding a parser is asked to use. */
  datatype Encoding = Utf8 | Cp1252

  /** What a parser call gives back: a table, a UnicodeDecodeError, or any other exception. */
  datatype Parse = Parsed(table: ValidTable) | DecodeFailed | Failed(reason: string)

  /** One directory entry in listing order; `contents` is what reading it as text gives. */
  datatype Entry = Entry(name: string, contents: string)

  /** The record `_read_file` builds for a `.txt` entry. */
  datatype Record = Record(filename: string, text: string)

  /** The foreign calls the loader makes: `read_csv`, `read_sas`, `os.path.isdir`, `os.listdir` with reads. */
  datatype Env = Env(
    readCsv: (Source, Encoding) -> Parse,
    readSas: (Source, Encoding) -> Parse,
    isDir: Source -> bool,
    listDir: Source -> seq<Entry>)

  /** Why a load fails; each is an exception raised out of the constructor. */
  datatype LoadError =
    | UnsupportedSource(source: Source)  // NotImplementedError naming the data
    | UnsupportedEntry(filename: string) // NotImplementedError naming a directory entry
    | EntryTypeError                     // TypeError: a bytes entry path tested against the str suffix
    | DecodeError                        // UnicodeDecodeError that the retry did not cure
    | ParseError(reason: string)         // anything else a parser raised

  const CSV := ".csv"
  const SAS := ".sas7bdat"
  const TXT := ".txt"

  predicate IsQuote(c: char) {
    c == '"' || c == '\''
  }

  predicate AllQuotes(s: string) {
    forall i :: 0 <= i < |s| ==> IsQuote(s[i])
  }

  /** `str.endswith`. */
  predicate EndsWith(s: string, suffix: string) {
    |suffix| <= |s| && s[|s| - |suffix|..] == suffix
  }

  /** The leading half of `str.strip('"\'')`: drops every quote character at the front. */
  function StripLeading(s: string): (r: string)
    ensures |r| <= |s| && r == s[|s| - |r|..]
    ensures AllQuotes(s[..|s| - |r|])
    ensures r == [] || !IsQuote(r[0])
    decreases |s|
  {
    if |s| > 0 && IsQuote(s[0]) then
      var r := StripLeading(s[1..]);
      LeadingStep(s, r);
      r
    else s
  }

  /** One more leading quote in front of a stripped suffix is part of the cut. */
  lemma LeadingStep(s: string, r: string)
    requires |s| > 0 && IsQuote(s[0])
    requires |r| <= |s| - 1 && r == s[1..][|s| - 1 - |r|..] && AllQuotes(s[1..][..|s| - 1 - |r|])
    ensures r == s[|s| - |r|..] && AllQuotes(s[..|s| - |r|])
  {
    var k := |s| - |r|;
    forall i | 0 <= i < k
      ensures IsQuote(s[i])
    {
      if i > 0 {
        assert s[i] == s[1..][..k - 1][i - 1];
      }
    }
  }

  /** The trailing half of `str.strip('"\'')`: drops every quote character at the back. */
  function StripTrailing(s: string): (r: string)
    ensures |r| <= |s| && r == s[..|r|]
    ensures AllQuotes(s[|r|..])
    ensures r == [] || !IsQuote(r[|r| - 1])
    decreases |s|
  {
    if |s| > 0 && IsQuote(s[|s| - 1]) then
      var r := StripTrailing(s[..|s| - 1]);
      TrailingStep(s, r);
      r
    else s
  }

  /** One more trailing quote behind a stripped prefix is part of the cut. */
  lemma TrailingStep(s: string, r: string)
    requires |s| > 0 && IsQuote(s[|s| - 1])
    requires |r| <= |s| - 1 && r == s[..|s| - 1][..|r|] && AllQuotes(s[..|s| - 1][|r|..])
    ensures r == s[..|r|] && AllQuotes(s[|r|..])
  {
    forall i | |r| <= i < |s|
      ensures IsQuote(s[i])
    {
      if i < |s| - 1 {
        assert s[i] == s[..|s| - 1][|r|..][i - |r|];
      }
    }
  }

  /** `s.strip('"\'')`: no quote character is left at either end. */
  function StripQuotes(s: string): (r: string)
    ensures |r| <= |s|
    ensures r == [] || (!IsQuote(r[0]) && !IsQuote(r[|r| - 1]))
  {
    var l := StripLeading(s);
    var r := StripTrailing(l);
    assert r != [] ==> r[0] == l[0];
    r
  }

  /**
   * What stripping keeps is one slice `r` of the input, starting at `k`, where
   * the leading quotes end: everything cut before and after it is a quote character.
   */
  lemma StripQuotesSlice(s: string)
    ensures var k, r := |s| - |StripLeading(s)|, StripQuotes(s);
      k + |r| <= |s| && r == s[k..k + |r|] && AllQuotes(s[..k]) && AllQuotes(s[k + |r|..])
  {
    var l := StripLeading(s);
    var k, r := |s| - |l|, StripQuotes(s);
    assert r == StripTrailing(l);
    KeptSlice(s, k, l, r);
    TrailingCut(s, k, l, r);
  }

  /** The part stripping keeps sits at offset `k`, where `l` starts in the input. */
  lemma KeptSlice(s: string, k: nat, l: string, r: string)
    requires k + |l| == |s| && l == s[k..]
    requires |r| <= |l| && r == l[..|r|]
    ensures k + |r| <= |s| && r == s[k..k + |r|]
  {
    forall i | 0 <= i < |r|
      ensures r[i] == s[k + i]
    {
      assert r[i] == l[i] == s[k + i];
    }
  }

  /** What the trailing cut drops from `l` is the tail of the input. */
  lemma TrailingCut(s: string, k: nat, l: string, r: string)
    requires k + |l| == |s| && l == s[k..]
    requires |r| <= |l| && AllQuotes(l[|r|..])
    ensures AllQuotes(s[k + |r|..])
  {
    forall i | k + |r| <= i < |s|
      ensures IsQuote(s[i])
    {
      assert s[i] == l[i - k] == l[|r|..][i - k - |r|];
    }
  }

  /** The constructor strips `data` only when it is a string. */
  function StripSource(data: Source): (r: Source)
    ensures data.Bytes? ==> r == data
    ensures data.Path? ==> r.Path? && r.path == StripQuotes(data.path)
  {
    match data
    case Bytes(_) => data
    case Path(p) => Path(StripQuotes(p))
  }

  function FromParse(p: Parse): Result<ValidTable, LoadError> {
    match p
    case Parsed(t) => Success(t)
    case DecodeFailed => Failure(DecodeError)
    case Failed(reason) => Failure(ParseError(reason))
  }

  /** `read_csv`, retried once with cp1252 when the first attempt cannot decode. */
  function ReadCsv(env: Env, data: Source): (r: Result<ValidTable, LoadError>)
    ensures r.Success? <==>
      env.readCsv(data, Utf8).Parsed? ||
      (env.readCsv(data, Utf8).DecodeFailed? && env.readCsv(data, Cp1252).Parsed?)
    ensures r.Success? ==>
      r.value == (if env.readCsv(data, Utf8).Parsed? then env.readCsv(data, Utf8) else env.readCsv(data, Cp1252)).table
    ensures r.Failure? ==> r.error.DecodeError? || r.error.ParseError?
  {
    var first := env.readCsv(data, Utf8);
    if first.DecodeFailed? then FromParse(env.readCsv(data, Cp1252)) else FromParse(first)
  }

  /**
   * `_read_file` on an entry of directory `dir`: only `.txt` entries are supported.
   * Under a bytes directory the joined path is bytes, and testing it against the
   * str suffix raises a TypeError whatever the entry is called.
   */
  function ReadFile(dir: Source, e: Entry): (r: Result<Record, LoadError>)
    ensures r.Success? <==> dir.Path? && EndsWith(e.name, TXT)
    ensures r.Success? ==> r.value == Record(e.name, e.contents)
    ensures dir.Bytes? ==> r == Failure(EntryTypeError)
    ensures dir.Path? && r.Failure? ==> r.error == UnsupportedEntry(e.name)
  {
    if dir.Bytes? then Failure(EntryTypeError)
    else if EndsWith(e.name, TXT) then Success(Record(e.name, e.contents))
    else Failure(UnsupportedEntry(e.name))
  }

  /** Position of the first entry `_read_file` refuses, or `|entries|` when there is none. */
  function FirstUnsupported(entries: seq<Entry>): (k: nat)
    ensures k <= |entries|
    ensures forall i :: 0 <= i < k ==> EndsWith(entries[i].name, TXT)
    ensures k < |entries| ==> !EndsWith(entries[k].name, TXT)
  {
    if |entries| == 0 then 0
    else if !EndsWith(entries[0].name, TXT) then 0
    else 1 + FirstUnsupported(entries[1..])
  }

  /** The records of a directory whose entries are all `.txt`, in listing order. */
  function Records(entries: seq<Entry>): seq<Record> {
    seq(|entries|, i requires 0 <= i < |entries| => Record(entries[i].name, entries[i].contents))
  }

  /** `pd.DataFrame(records)`: columns `filename`, `text`; no columns at all when there are no records. */
  function RecordsTable(records: seq<Record>): (t: ValidTable)
    ensures |t.rows| == |records|
    ensures |records| == 0 ==> t.columns == []
    ensures |records| > 0 ==> t.columns == ["filename", "text"]
    ensures forall i :: 0 <= i < |records| ==> t.rows[i] == [Str(records[i].filename), Str(records[i].text)]
  {
    if |records| == 0 then Table([], [])
    else
      Table(["filename", "text"],
            seq(|records|, i requires 0 <= i < |records| => [Str(records[i].filename), Str(records[i].text)]))
  }

  /**
   * `_read_directory` of `dir`: one record per entry in listing order, or the
   * failure of the first entry `_read_file` refuses (the whole load fails; nothing
   * is skipped). Under a bytes directory that is the very first entry.
   */
  function DirectoryLoad(dir: Source, entries: seq<Entry>): (r: Result<ValidTable, LoadError>)
    ensures dir.Bytes? && |entries| > 0 ==> r == Failure(EntryTypeError)
    ensures r.Success? ==> |r.value.rows| == |entries|
    ensures r.Failure? ==> r.error == EntryTypeError || r.error.UnsupportedEntry?
  {
    if dir.Bytes? && |entries| > 0 then Failure(EntryTypeError)
    else
      var k := FirstUnsupported(entries);
      if k < |entries| then Failure(UnsupportedEntry(entries[k].name))
      else Success(RecordsTable(Records(entries)))
  }

  /** The loading half of the FileReader constructor. */
  function Load(filename: string, data: Source, env: Env): (r: Result<ValidTable, LoadError>)
    ensures r.Success? ==>
      EndsWith(StripQuotes(filename), CSV) || EndsWith(StripQuotes(filename), SAS) || env.isDir(StripSource(data))
    ensures r.Failure? && r.error.UnsupportedSource? ==> r.error.source == StripSource(data)
  {
    Dispatch(StripQuotes(filename), StripSource(data), env)
  }

  /** The choice of loader once the quotes are gone. */
  function Dispatch(name: string, source: Source, env: Env): (r: Result<ValidTable, LoadError>)
    ensures r.Success? ==> EndsWith(name, CSV) || EndsWith(name, SAS) || env.isDir(source)
    ensures r.Failure? && r.error.UnsupportedSource? <==>
      !EndsWith(name, CSV) && !EndsWith(name, SAS) && !env.isDir(source)
    ensures r.Failure? && r.error.UnsupportedSource? ==> r.error.source == source
  {
    if EndsWith(name, CSV) then ReadCsv(env, source)
    else if EndsWith(name, SAS) then FromParse(env.readSas(source, Cp1252))
    else if env.isDir(source) then DirectoryLoad(source, env.listDir(source))
    else Failure(UnsupportedSource(source))
  }

  // ---------------------------------------------------------------- quote stripping

  /** Leading quote characters in front of anything are dropped. */
  lemma {:induction false} StripLeadingSkips(q: string, s: string)
    requires AllQuotes(q)
    ensures StripLeading(q + s) == StripLeading(s)
    decreases |q|
  {
    if |q| == 0 {
      assert q + s == s;
    } else {
      assert (q + s)[0] == q[0];
      assert (q + s)[1..] == q[1..] + s;
      StripLeadingSkips(q[1..], s);
    }
  }

  /** Trailing quote characters behind anything are dropped. */
  lemma {:induction false} StripTrailingSkips(s: string, q: string)
    requires AllQuotes(q)
    ensures StripTrailing(s + q) == StripTrailing(s)
    decreases |q|
  {
    if |q| == 0 {
      assert s + q == s;
    } else {
      assert (s + q)[|s + q| - 1] == q[|q| - 1];
      assert (s + q)[..|s + q| - 1] == s + q[..|q| - 1];
      StripTrailingSkips(s, q[..|q| - 1]);
    }
  }

  /** A string with no quote character at either end is left as it is. */
  lemma StripQuotesUnquoted(s: string)
    requires s == [] || (!IsQuote(s[0]) && !IsQuote(s[|s| - 1]))
    ensures StripQuotes(s) == s
  {
  }

  /** Wrapping a path in any run of quote characters and stripping gives the path back. */
  lemma QuotedRoundTrip(open: string, s: string, close: string)
    requires AllQuotes(open) && AllQuotes(close)
    requires s == [] || (!IsQuote(s[0]) && !IsQuote(s[|s| - 1]))
    ensures StripQuotes(open + s + close) == s
  {
    var rest := s + close;
    assert open + s + close == open + rest;
    StripLeadingSkips(open, rest);
    if s == [] {
      assert rest == close + [];
      StripLeadingSkips(close, []);
      assert StripLeading(rest) == [];
    } else {
      assert rest[0] == s[0];
      assert StripLeading(rest) == rest;
      StripTrailingSkips(s, close);
    }
  }

  /** Stripping twice is stripping once. */
  lemma StripQuotesIdempotent(s: string)
    ensures StripQuotes(StripQuotes(s)) == StripQuotes(s)
  {
    var l := StripLeading(s);
    var r := StripTrailing(l);
    if r != [] {
      assert r[0] == l[0];
    }
    StripQuotesUnquoted(r);
  }

  // ---------------------------------------------------------------- dispatch

  /** Arguments that were already stripped load as the originals: stripping happens once, up front. */
  lemma LoadStripsOnce(filename: string, data: Source, env: Env)
    ensures Load(StripQuotes(filename), StripSource(data), env) == Load(filename, data, env)
  {
    StripQuotesIdempotent(filename);
    if data.Path? {
      StripQuotesIdempotent(data.path);
    }
  }

  /** A quoted file name and a quoted path load exactly as their unquoted forms. */
  lemma QuotedArgumentsLoadAlike(filename: string, path: string, env: Env)
    requires filename == [] || (!IsQuote(filename[0]) && !IsQuote(filename[|filename| - 1]))
    requires path == [] || (!IsQuote(path[0]) && !IsQuote(path[|path| - 1]))
    ensures Load("\"" + filename + "\"", Path("'" + path + "'"), env) == Load(filename, Path(path), env)
  {
    QuotedRoundTrip("\"", filename, "\"");
    QuotedRoundTrip("'", path, "'");
    StripQuotesUnquoted(filename);
    StripQuotesUnquoted(path);
    assert StripSource(Path("'" + path + "'")) == StripSource(Path(path));
  }

  /**
   * The loaders are tried in a fixed order: `.csv`, then `.sas7bdat`, then a
   * directory; a load that matches none of them fails naming the stripped data,
   * and a load can only succeed through one of them.
   */
  lemma DispatchOrder(filename: string, data: Source, env: Env)
    ensures var name, source := StripQuotes(filename), StripSource(data);
      (EndsWith(name, CSV) ==> Load(filename, data, env) == ReadCsv(env, source)) &&
      (!EndsWith(name, CSV) && EndsWith(name, SAS) ==>
         Load(filename, data, env) == FromParse(env.readSas(source, Cp1252))) &&
      (!EndsWith(name, CSV) && !EndsWith(name, SAS) && env.isDir(source) ==>
         Load(filename, data, env) == DirectoryLoad(source, env.listDir(source))) &&
      (!EndsWith(name, CSV) && !EndsWith(name, SAS) && !env.isDir(source) ==>
         Load(filename, data, env) == Failure(UnsupportedSource(source)))
  {
  }

  /** The cp1252 retry happens exactly when the default read cannot decode. */
  lemma CsvRetry(env: Env, data: Source)
    ensures env.readCsv(data, Utf8).Parsed? ==> ReadCsv(env, data) == Success(env.readCsv(data, Utf8).table)
    ensures env.readCsv(data, Utf8).Failed? ==> ReadCsv(env, data) == Failure(ParseError(env.readCsv(data, Utf8).reason))
    ensures env.readCsv(data, Utf8).DecodeFailed? ==> ReadCsv(env, data) == FromParse(env.readCsv(data, Cp1252))
  {
  }

  /**
   * A directory path loads iff every entry is `.txt`; then its table has one
   * `[filename, text]` row per entry in listing order. Otherwise the load fails
   * naming the first entry that is not `.txt`.
   */
  lemma DirectoryLoadCases(path: string, entries: seq<Entry>)
    ensures DirectoryLoad(Path(path), entries).Success? <==>
      forall i :: 0 <= i < |entries| ==> EndsWith(entries[i].name, TXT)
    ensures DirectoryLoad(Path(path), entries).Success? ==>
      var t := DirectoryLoad(Path(path), entries).value;
      |t.rows| == |entries| &&
      (|entries| > 0 ==> t.columns == ["filename", "text"]) &&
      forall i :: 0 <= i < |entries| ==> t.rows[i] == [Str(entries[i].name), Str(entries[i].contents)]
    ensures DirectoryLoad(Path(path), entries).Failure? ==>
      exists k :: 0 <= k < |entries| && !EndsWith(entries[k].name, TXT) &&
        (forall i :: 0 <= i < k ==> EndsWith(entries[i].name, TXT)) &&
        DirectoryLoad(Path(path), entries).error == UnsupportedEntry(entries[k].name)
  {
    var k := FirstUnsupported(entries);
    if k < |entries| {
      assert !EndsWith(entries[k].name, TXT);
    }
  }

  /**
   * Uploaded bytes that name a directory: an empty listing loads as an empty
   * table, and any entry at all makes the load fail with the `TypeError`.
   */
  lemma BytesDirectoryLoad(filename: string, b: seq<bv8>, env: Env)
    requires !EndsWith(StripQuotes(filename), CSV) && !EndsWith(StripQuotes(filename), SAS)
    requires env.isDir(Bytes(b))
    ensures |env.listDir(Bytes(b))| > 0 ==> Load(filename, Bytes(b), env) == Failure(EntryTypeError)
    ensures |env.listDir(Bytes(b))| == 0 ==>
      Load(filename, Bytes(b), env).Success? && Load(filename, Bytes(b), env).value.rows == []
  {
  }
}
