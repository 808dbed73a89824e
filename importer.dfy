/**
 * The import pass of `main`: every CSV file not yet listed in the 'Processed' worksheet is
 * converted row by row (`process_download`) and each record validated and assigned; the file's
 * path is recorded once all its rows are handled. An exception stops the whole pass.
 *
 * The filesystem walk is abstracted as the ordered list of files it yields, each with the file
 * format and account name taken from its directory, and its rows as the CSV reader splits them.
 */
module Importer {
  import opened PyCore
  import C = Conversions
  import R = Registry
  import opened Aggregation
  import Calendar

  /** A CSV file of the walk: its path, the format and account directories it lies in, and its rows. */
  datatype SourceFile = SourceFile(path: string, format: string, account: string, rows: seq<seq<string>>)

  /** The environment `main` runs with: the sheet's ids, the cut-off, and `get_worksheet_name`. */
  function RunEnv(load: string -> set<Value>, cutOff: int): Env {
    Env(load, cutOff, WorksheetOf)
  }

  // ----- the specification -----

  /**
   * The state reached by converting, validating and assigning `rows` in order, and the first
   * exception raised, at which processing stops with the state as it was before that row.
   */
  function RowsOutcome(lib: C.Library, cats: R.Tables, env: Env, s: Agg, convs: seq<R.Converter>, rows: seq<seq<string>>)
    : (Agg, Option<PyError>)
    requires |convs| > R.ID
    decreases |rows|
  {
    if rows == [] then (s, Nothing)
    else
      match R.ConvertRow(lib, cats, convs, rows[0])
      case Err(e) => (s, Some(e))
      case Ok(rec) =>
        match Step(env, s, rec)
        case Err(e) => (s, Some(e))
        case Ok(t) => RowsOutcome(lib, cats, env, t, convs, rows[1..])
  }

  /**
   * `process_download` on one file: a (format, account) pair without a table raises `KeyError`,
   * a file without a header row raises `StopIteration`, and the rows after the header are run
   * through the account constant followed by the table's converters.
   */
  function DownloadOutcome(lib: C.Library, cats: R.Tables, env: Env, s: Agg, f: SourceFile): (Agg, Option<PyError>) {
    var key := (f.format, f.account);
    if key !in R.ConversionTable then (s, Some(KeyError))
    else if f.rows == [] then (s, Some(StopIteration))
    else
      R.TablesWellShaped(key);
      RowsOutcome(lib, cats, env, s, R.RecordConverters(f.account, R.ConversionTable[key]), f.rows[1..])
  }

  /**
   * The file loop of `main`: files whose path is in `existing` are skipped, every other file is
   * processed and its path appended to the new files afterwards. On an exception the pass stops;
   * the state and the new files are those reached before it.
   */
  function ImportOutcome(lib: C.Library, cats: R.Tables, env: Env, s: Agg, existing: set<string>, files: seq<SourceFile>)
    : (Agg, seq<string>, Option<PyError>)
    decreases |files|
  {
    if files == [] then (s, [], Nothing)
    else if files[0].path in existing then ImportOutcome(lib, cats, env, s, existing, files[1..])
    else
      var (t, e) := DownloadOutcome(lib, cats, env, s, files[0]);
      if e.Some? then (t, [], e)
      else
        var (u, newFiles, e2) := ImportOutcome(lib, cats, env, t, existing, files[1..]);
        (u, [files[0].path] + newFiles, e2)
  }

  /** The paths of the files not in `existing`, in order: what a pass without exceptions records. */
  function Unprocessed(existing: set<string>, files: seq<SourceFile>): (ps: seq<string>)
    ensures forall p :: p in ps <==> exists k :: 0 <= k < |files| && files[k].path == p && p !in existing
  {
    if files == [] then []
    else if files[0].path in existing then Unprocessed(existing, files[1..])
    else [files[0].path] + Unprocessed(existing, files[1..])
  }

  // ----- the imperative loops -----

  /** `process_download(file_type, account_name, file_name)` over the aggregator's dictionaries. */
  method ProcessDownload(lib: C.Library, cats: R.Tables, agg: Aggregator, f: SourceFile) returns (err: Option<PyError>)
    requires agg.Valid()
    modifies agg
    ensures agg.Valid()
    ensures (agg.State(), err) == DownloadOutcome(lib, cats, agg.env, old(agg.State()), f)
  {
    var key := (f.format, f.account);
    if key !in R.ConversionTable {
      return Some(KeyError);
    }
    R.TablesWellShaped(key);
    var convs := R.RecordConverters(f.account, R.ConversionTable[key]);
    if f.rows == [] {
      return Some(StopIteration);
    }
    var rows := f.rows[1..];
    var i := 0;
    while i < |rows|
      invariant 0 <= i <= |rows|
      invariant agg.Valid()
      invariant RowsOutcome(lib, cats, agg.env, old(agg.State()), convs, rows)
             == RowsOutcome(lib, cats, agg.env, agg.State(), convs, rows[i..])
    {
      assert rows[i..][0] == rows[i] && rows[i..][1..] == rows[i + 1..];
      var converted := R.ConvertRow(lib, cats, convs, rows[i]);
      if converted.Err? {
        return Some(converted.error);
      }
      err := agg.ValidateAndAssign(converted.value);
      if err.Some? {
        return;
      }
      i := i + 1;
    }
    return Nothing;
  }

  /** The walk loop of `main`: returns `new_files`, or stops at the first exception. */
  method ImportFiles(lib: C.Library, cats: R.Tables, agg: Aggregator, existing: set<string>, files: seq<SourceFile>)
    returns (newFiles: seq<string>, err: Option<PyError>)
    requires agg.Valid()
    modifies agg
    ensures agg.Valid()
    ensures (agg.State(), newFiles, err) == ImportOutcome(lib, cats, agg.env, old(agg.State()), existing, files)
  {
    newFiles := [];
    var i := 0;
    assert files[i..] == files;
    ghost var whole := ImportOutcome(lib, cats, agg.env, agg.State(), existing, files);
    assert newFiles + whole.1 == whole.1;
    while i < |files|
      invariant 0 <= i <= |files|
      invariant agg.Valid()
      invariant var rest := ImportOutcome(lib, cats, agg.env, agg.State(), existing, files[i..]);
        ImportOutcome(lib, cats, agg.env, old(agg.State()), existing, files) == (rest.0, newFiles + rest.1, rest.2)
    {
      ghost var s0 := agg.State();
      assert files[i..][0] == files[i] && files[i..][1..] == files[i + 1..];
      if files[i].path !in existing {
        err := ProcessDownload(lib, cats, agg, files[i]);
        if err.Some? {
          assert ImportOutcome(lib, cats, agg.env, s0, existing, files[i..]) == (agg.State(), [], err);
          assert newFiles + [] == newFiles;
          return;
        }
        ghost var rest := ImportOutcome(lib, cats, agg.env, agg.State(), existing, files[i + 1..]);
        assert ImportOutcome(lib, cats, agg.env, s0, existing, files[i..]) == (rest.0, [files[i].path] + rest.1, rest.2);
        assert newFiles + ([files[i].path] + rest.1) == (newFiles + [files[i].path]) + rest.1;
        newFiles := newFiles + [files[i].path];
      }
      i := i + 1;
    }
    assert files[i..] == [];
    assert newFiles + [] == newFiles;
    return newFiles, Nothing;
  }

  // ----- lemmas: the dictionaries -----

  /** Converting and assigning rows keeps the invariant of the two dictionaries. */
  lemma {:induction false} RowsPreserveInv(lib: C.Library, cats: R.Tables, env: Env, s: Agg, convs: seq<R.Converter>, rows: seq<seq<string>>)
    requires |convs| > R.ID && Inv(env, s)
    ensures Inv(env, RowsOutcome(lib, cats, env, s, convs, rows).0)
    decreases |rows|
  {
    if rows != [] {
      var converted := R.ConvertRow(lib, cats, convs, rows[0]);
      if converted.Ok? && Step(env, s, converted.value).Ok? {
        StepPreservesInv(env, s, converted.value);
        RowsPreserveInv(lib, cats, env, Step(env, s, converted.value).value, convs, rows[1..]);
      }
    }
  }

  lemma DownloadPreservesInv(lib: C.Library, cats: R.Tables, env: Env, s: Agg, f: SourceFile)
    requires Inv(env, s)
    ensures Inv(env, DownloadOutcome(lib, cats, env, s, f).0)
  {
    var key := (f.format, f.account);
    if key in R.ConversionTable && f.rows != [] {
      R.TablesWellShaped(key);
      RowsPreserveInv(lib, cats, env, s, R.RecordConverters(f.account, R.ConversionTable[key]), f.rows[1..]);
    }
  }

  /** The whole pass keeps the invariant, whether or not it stops at an exception. */
  lemma {:induction false} ImportPreservesInv(lib: C.Library, cats: R.Tables, env: Env, s: Agg, existing: set<string>, files: seq<SourceFile>)
    requires Inv(env, s)
    ensures Inv(env, ImportOutcome(lib, cats, env, s, existing, files).0)
    decreases |files|
  {
    if files != [] {
      if files[0].path in existing {
        ImportPreservesInv(lib, cats, env, s, existing, files[1..]);
      } else {
        DownloadPreservesInv(lib, cats, env, s, files[0]);
        var (t, e) := DownloadOutcome(lib, cats, env, s, files[0]);
        if e.Nothing? {
          ImportPreservesInv(lib, cats, env, t, existing, files[1..]);
        }
      }
    }
  }

  /**
   * Rows are only ever appended: every worksheet's pending rows before a download are a prefix of
   * those after it, and its ids only grow.
   */
  lemma {:induction false} RowsOnlyAppend(lib: C.Library, cats: R.Tables, env: Env, s: Agg, convs: seq<R.Converter>,
                                          rows: seq<seq<string>>, w: string)
    requires |convs| > R.ID && KeysAgree(s)
    ensures var t := RowsOutcome(lib, cats, env, s, convs, rows).0;
      KeysAgree(t) && RowsOf(s, w) <= RowsOf(t, w) && IdsOf(env.load, s, w) <= IdsOf(env.load, t, w)
    decreases |rows|
  {
    if rows != [] {
      var converted := R.ConvertRow(lib, cats, convs, rows[0]);
      if converted.Ok? && Step(env, s, converted.value).Ok? {
        StepEffect(env, s, converted.value, w);
        RowsOnlyAppend(lib, cats, env, Step(env, s, converted.value).value, convs, rows[1..], w);
      }
    }
  }

  // ----- lemmas: the processed files -----

  ghost predicate DistinctPaths(files: seq<SourceFile>) {
    forall i, j :: 0 <= i < j < |files| ==> files[i].path != files[j].path
  }

  predicate NoDuplicates(ps: seq<string>) {
    forall i, j :: 0 <= i < j < |ps| ==> ps[i] != ps[j]
  }

  /**
   * The new files are the unprocessed paths in walk order: all of them after a pass without
   * exceptions, and a prefix of them, the files finished before the exception, otherwise.
   */
  lemma {:induction false} NewFilesAreUnprocessed(lib: C.Library, cats: R.Tables, env: Env, s: Agg, existing: set<string>,
                                                  files: seq<SourceFile>)
    ensures ImportOutcome(lib, cats, env, s, existing, files).1 <= Unprocessed(existing, files)
    ensures ImportOutcome(lib, cats, env, s, existing, files).2 == Nothing ==>
      ImportOutcome(lib, cats, env, s, existing, files).1 == Unprocessed(existing, files)
    decreases |files|
  {
    if files != [] {
      if files[0].path in existing {
        NewFilesAreUnprocessed(lib, cats, env, s, existing, files[1..]);
      } else {
        var (t, e) := DownloadOutcome(lib, cats, env, s, files[0]);
        if e.Nothing? {
          NewFilesAreUnprocessed(lib, cats, env, t, existing, files[1..]);
        }
      }
    }
  }

  /** With distinct paths no unprocessed path is listed twice. */
  lemma {:induction false} UnprocessedOnce(existing: set<string>, files: seq<SourceFile>)
    requires DistinctPaths(files)
    ensures NoDuplicates(Unprocessed(existing, files))
    decreases |files|
  {
    if files != [] {
      var rest := files[1..];
      assert DistinctPaths(rest) by {
        forall i, j | 0 <= i < j < |rest| ensures rest[i].path != rest[j].path {
          assert rest[i] == files[i + 1] && rest[j] == files[j + 1];
        }
      }
      UnprocessedOnce(existing, rest);
      if files[0].path !in existing {
        var ps := Unprocessed(existing, files);
        var tail := Unprocessed(existing, rest);
        assert files[0].path !in tail by {
          forall k | 0 <= k < |rest| ensures rest[k].path != files[0].path {
            assert rest[k] == files[k + 1];
          }
        }
        forall i, j | 0 <= i < j < |ps| ensures ps[i] != ps[j] {
          assert ps[j] == tail[j - 1];
          if i > 0 {
            assert ps[i] == tail[i - 1];
          }
        }
      }
    }
  }

  /**
   * Files in `existing` are skipped, and, when the walk yields distinct paths, every other file
   * is recorded exactly once by a pass without exceptions; no path is ever recorded twice.
   */
  lemma NewFilesRecordedOnce(lib: C.Library, cats: R.Tables, env: Env, s: Agg, existing: set<string>, files: seq<SourceFile>)
    requires DistinctPaths(files)
    ensures var newFiles := ImportOutcome(lib, cats, env, s, existing, files).1;
      NoDuplicates(newFiles) && forall p :: p in newFiles ==> p !in existing
    ensures ImportOutcome(lib, cats, env, s, existing, files).2 == Nothing ==>
      forall k :: 0 <= k < |files| ==>
        (files[k].path in ImportOutcome(lib, cats, env, s, existing, files).1 <==> files[k].path !in existing)
  {
    NewFilesAreUnprocessed(lib, cats, env, s, existing, files);
    UnprocessedOnce(existing, files);
    var newFiles := ImportOutcome(lib, cats, env, s, existing, files).1;
    var ps := Unprocessed(existing, files);
    forall p | p in newFiles ensures p in ps {
      var k :| 0 <= k < |newFiles| && newFiles[k] == p;
      assert ps[k] == p;
    }
  }

  /** A pass over files that are all recorded already does nothing. */
  lemma {:induction false} AllSkipped(lib: C.Library, cats: R.Tables, env: Env, s: Agg, existing: set<string>, files: seq<SourceFile>)
    requires forall k :: 0 <= k < |files| ==> files[k].path in existing
    ensures ImportOutcome(lib, cats, env, s, existing, files) == (s, [], Nothing)
    decreases |files|
  {
    if files != [] {
      assert forall k :: 0 <= k < |files| - 1 ==> files[1..][k] == files[k + 1];
      AllSkipped(lib, cats, env, s, existing, files[1..]);
    }
  }

  /** Once the new files of a pass without exceptions are recorded, a second pass over the same walk does nothing. */
  lemma RerunSkipsAll(lib: C.Library, cats: R.Tables, env: Env, s: Agg, existing: set<string>, files: seq<SourceFile>, later: Agg)
    requires ImportOutcome(lib, cats, env, s, existing, files).2 == Nothing
    ensures var recorded := existing + set p | p in ImportOutcome(lib, cats, env, s, existing, files).1;
      ImportOutcome(lib, cats, env, later, recorded, files) == (later, [], Nothing)
  {
    NewFilesAreUnprocessed(lib, cats, env, s, existing, files);
    var recorded := existing + set p | p in ImportOutcome(lib, cats, env, s, existing, files).1;
    forall k | 0 <= k < |files| ensures files[k].path in recorded {
      if files[k].path !in existing {
        assert files[k].path in Unprocessed(existing, files);
      }
    }
    AllSkipped(lib, cats, env, later, recorded, files);
  }

  // ----- lemmas: processing a download again -----

  /** A record the state accounts for stays accounted for while further rows are processed. */
  lemma {:induction false} StaysAbsorbed(lib: C.Library, cats: R.Tables, env: Env, s: Agg, convs: seq<R.Converter>,
                                         rows: seq<seq<string>>, rec: Record)
    requires |convs| > R.ID && |rec| > R.ID && Absorbed(env, s, rec)
    ensures Absorbed(env, RowsOutcome(lib, cats, env, s, convs, rows).0, rec)
    decreases |rows|
  {
    if rows != [] {
      var converted := R.ConvertRow(lib, cats, convs, rows[0]);
      if converted.Ok? && Step(env, s, converted.value).Ok? {
        AbsorbedStable(env, s, rec, converted.value);
        StaysAbsorbed(lib, cats, env, Step(env, s, converted.value).value, convs, rows[1..], rec);
      }
    }
  }

  /** The row converts, and the state accounts for its record. */
  predicate RowAbsorbed(lib: C.Library, cats: R.Tables, env: Env, t: Agg, convs: seq<R.Converter>, row: seq<string>)
    requires |convs| > R.ID
  {
    R.ConvertRow(lib, cats, convs, row).Ok? && Absorbed(env, t, R.ConvertRow(lib, cats, convs, row).value)
  }

  /** After rows are processed without an exception, the final state accounts for every one of them. */
  lemma {:induction false} RowsAbsorbed(lib: C.Library, cats: R.Tables, env: Env, s: Agg, convs: seq<R.Converter>,
                                        rows: seq<seq<string>>)
    requires |convs| > R.ID
    requires RowsOutcome(lib, cats, env, s, convs, rows).1 == Nothing
    ensures forall k :: 0 <= k < |rows| ==>
      RowAbsorbed(lib, cats, env, RowsOutcome(lib, cats, env, s, convs, rows).0, convs, rows[k])
    decreases |rows|
  {
    if rows != [] {
      var rec := R.ConvertRow(lib, cats, convs, rows[0]).value;
      var t := Step(env, s, rec).value;
      var final := RowsOutcome(lib, cats, env, t, convs, rows[1..]).0;
      assert RowsOutcome(lib, cats, env, s, convs, rows) == RowsOutcome(lib, cats, env, t, convs, rows[1..]);
      RowsAbsorbed(lib, cats, env, t, convs, rows[1..]);
      StepIdempotent(env, s, rec);
      StaysAbsorbed(lib, cats, env, t, convs, rows[1..], rec);
      assert RowAbsorbed(lib, cats, env, final, convs, rows[0]);
      forall k | 1 <= k < |rows| ensures RowAbsorbed(lib, cats, env, final, convs, rows[k]) {
        assert rows[1..][k - 1] == rows[k];
      }
    }
  }

  /** Rows whose records the state already accounts for change nothing. */
  lemma {:induction false} AbsorbedRowsChangeNothing(lib: C.Library, cats: R.Tables, env: Env, t: Agg, convs: seq<R.Converter>,
                                                     rows: seq<seq<string>>)
    requires |convs| > R.ID
    requires forall k :: 0 <= k < |rows| ==> RowAbsorbed(lib, cats, env, t, convs, rows[k])
    ensures RowsOutcome(lib, cats, env, t, convs, rows) == (t, Nothing)
    decreases |rows|
  {
    if rows != [] {
      assert RowAbsorbed(lib, cats, env, t, convs, rows[0]);
      assert forall k :: 0 <= k < |rows| - 1 ==> rows[1..][k] == rows[k + 1];
      AbsorbedRowsChangeNothing(lib, cats, env, t, convs, rows[1..]);
    }
  }

  /**
   * Processing a download a second time, or a copy of it under another path, adds nothing: every
   * one of its transactions is caught as a duplicate of itself.
   */
  lemma DownloadTwice(lib: C.Library, cats: R.Tables, env: Env, s: Agg, f: SourceFile, copy: SourceFile)
    requires copy.format == f.format && copy.account == f.account && copy.rows == f.rows
    requires DownloadOutcome(lib, cats, env, s, f).1 == Nothing
    ensures var t := DownloadOutcome(lib, cats, env, s, f).0;
      DownloadOutcome(lib, cats, env, t, copy) == (t, Nothing)
  {
    var key := (f.format, f.account);
    R.TablesWellShaped(key);
    var convs := R.RecordConverters(f.account, R.ConversionTable[key]);
    RowsAbsorbed(lib, cats, env, s, convs, f.rows[1..]);
    AbsorbedRowsChangeNothing(lib, cats, env, DownloadOutcome(lib, cats, env, s, f).0, convs, f.rows[1..]);
  }

  // ----- an end-to-end run -----

  /** The converters of a Monzo account, position by position. */
  ghost predicate MonzoLayout(convs: seq<R.Converter>) {
    |convs| == 9 && convs[0].Constant? && convs[1] == R.ConvertDate(1, R.MonzoDateFormat)
    && convs[2] == R.Identity(8) && convs[3] == R.Identity(6) && convs[4] == R.SignedAmount(2, false)
    && convs[5] == R.SignedAmount(2, true) && convs[6] == R.Identity(0) && convs[7].Constant?
    && convs[8] == R.MonzoCategory(10, 6)
  }

  lemma MonzoConvertersLayout()
    ensures MonzoLayout(R.RecordConverters("Monzo", R.Monzo))
  {
  }

  /** A Monzo row with a parsable date and amount converts, keeping the transaction id and splitting the amount. */
  lemma MonzoRecord(lib: C.Library, cats: R.Tables, convs: seq<R.Converter>, row: seq<string>)
    requires MonzoLayout(convs) && |row| >= 11
    requires lib.parseDate(row[1], R.MonzoDateFormat).Some? && lib.parseFloat(row[2]).Some?
    ensures var r := R.ConvertRow(lib, cats, convs, row);
      var a := lib.parseFloat(row[2]).value;
      r.Ok? && |r.value| == 9 && r.value[R.ID] == Str(row[0])
      && r.value[R.MONEY_IN] == C.Split(a, false) && r.value[R.MONEY_OUT] == C.Split(a, true)
      && r.value[R.DATE] == Day(Calendar.Ordinal(lib.parseDate(row[1], R.MonzoDateFormat).value) - Calendar.EpochOrdinal)
  {
    forall k | 0 <= k < |convs| ensures R.Apply(lib, cats, convs[k], row).Ok? {
      if k == 8 {
        assert Index(row, 10).Ok? && Index(row, 6).Ok?;
      }
    }
    var r := R.ConvertRow(lib, cats, convs, row);
    assert R.Apply(lib, cats, convs[R.ID], row) == Ok(r.value[R.ID]);
    assert R.Apply(lib, cats, convs[R.MONEY_IN], row) == Ok(r.value[R.MONEY_IN]);
    assert R.Apply(lib, cats, convs[R.MONEY_OUT], row) == Ok(r.value[R.MONEY_OUT]);
    assert R.Apply(lib, cats, convs[R.DATE], row) == Ok(r.value[R.DATE]);
  }

  /** A pass over one unrecorded file that raises nothing records it and ends in the file's state. */
  lemma ImportOneFile(lib: C.Library, cats: R.Tables, env: Env, s: Agg, f: SourceFile)
    requires DownloadOutcome(lib, cats, env, s, f).1 == Nothing
    ensures ImportOutcome(lib, cats, env, s, {}, [f]) == (DownloadOutcome(lib, cats, env, s, f).0, [f.path], Nothing)
  {
    assert [f][1..] == [];
    assert [f.path] + [] == [f.path];
  }

  /** Two rows that convert and step without an exception. */
  lemma TwoRows(lib: C.Library, cats: R.Tables, env: Env, s: Agg, convs: seq<R.Converter>, row1: seq<string>, row2: seq<string>, t: Agg, u: Agg)
    requires |convs| > R.ID
    requires R.ConvertRow(lib, cats, convs, row1).Ok? && Step(env, s, R.ConvertRow(lib, cats, convs, row1).value) == Ok(t)
    requires R.ConvertRow(lib, cats, convs, row2).Ok? && Step(env, t, R.ConvertRow(lib, cats, convs, row2).value) == Ok(u)
    ensures RowsOutcome(lib, cats, env, s, convs, [row1, row2]) == (u, Nothing)
  {
    var rows := [row1, row2];
    assert rows[0] == row1 && rows[1..] == [row2] && [row2][0] == row2 && [row2][1..] == [];
    assert RowsOutcome(lib, cats, env, u, convs, []) == (u, Nothing);
    assert RowsOutcome(lib, cats, env, t, convs, [row2]) == (u, Nothing);
  }

  /** A Monzo file with a header runs the rows after it through the Monzo converters. */
  lemma MonzoDownload(lib: C.Library, cats: R.Tables, env: Env, s: Agg, f: SourceFile)
    requires f.format == "Monzo" && f.account == "Monzo" && f.rows != []
    ensures DownloadOutcome(lib, cats, env, s, f) == RowsOutcome(lib, cats, env, s, R.RecordConverters("Monzo", R.Monzo), f.rows[1..])
  {
    assert R.ConversionTable[("Monzo", "Monzo")] == R.Monzo;
  }

  /**
   * In a run with a cut-off of 0 and a spreadsheet without transactions, a record paying in on
   * or after the epoch opens its worksheet with itself as the one pending row.
   */
  lemma PaidRecord(env: Env, rec: Record)
    requires env.cutOff == 0 && (forall w :: env.load(w) == {}) && forall v :: env.sheetOf(v) == WorksheetOf(v)
    requires |rec| > R.ID && rec[R.MONEY_IN].Amt?
    requires rec[R.DATE].Day? && 0 <= rec[R.DATE].day && rec[R.DATE].day + Calendar.EpochOrdinal <= Calendar.MaxOrdinal
    ensures env.sheetOf(rec[R.DATE]).Ok?
    ensures var w := env.sheetOf(rec[R.DATE]).value;
      Step(env, Agg(map[], map[]), rec) == Ok(Agg(map[w := {rec[R.ID]}], map[w := [rec]]))
  {
    var w := env.sheetOf(rec[R.DATE]).value;
    FirstRecord(env, rec);
    assert env.load(w) + {rec[R.ID]} == {rec[R.ID]};
  }

  /** Into a state without worksheets, an admitted record with a day and a new id opens its worksheet. */
  lemma FirstRecord(env: Env, rec: Record)
    requires |rec| > R.ID && Admit(rec, env.cutOff) == Ok(true) && env.sheetOf(rec[R.DATE]).Ok?
    requires rec[R.ID] !in env.load(env.sheetOf(rec[R.DATE]).value)
    ensures var w := env.sheetOf(rec[R.DATE]).value;
      Step(env, Agg(map[], map[]), rec) == Ok(Agg(map[w := env.load(w) + {rec[R.ID]}], map[w := [rec]]))
  {
    var w := env.sheetOf(rec[R.DATE]).value;
    var t := Touch(env.load, Agg(map[], map[]), w);
    assert t == Agg(map[w := env.load(w)], map[w := []]);
    assert t.rows[w] + [rec] == [rec];
    assert t.ids[w := t.ids[w] + {rec[R.ID]}] == map[w := env.load(w) + {rec[R.ID]}];
    assert t.rows[w := [rec]] == map[w := [rec]];
  }

  /** The outcome of the run of `EndToEnd`, in terms of the paying row's record. */
  lemma EndToEndOutcome(lib: C.Library, cats: R.Tables, load: string -> set<Value>, path: string,
                        header: seq<string>, paid: seq<string>, zero: seq<string>)
    requires forall w :: load(w) == {}
    requires |paid| >= 11 && |zero| >= 11
    requires lib.parseFloat(paid[2]).Some? && lib.parseFloat(paid[2]).value > 0.0
    requires lib.parseFloat(zero[2]) == Some(0.0)
    requires lib.parseDate(paid[1], R.MonzoDateFormat).Some? && lib.parseDate(zero[1], R.MonzoDateFormat).Some?
    requires Calendar.Ordinal(lib.parseDate(paid[1], R.MonzoDateFormat).value) >= Calendar.EpochOrdinal
    ensures var r := R.ConvertRow(lib, cats, R.RecordConverters("Monzo", R.Monzo), paid);
      r.Ok? && |r.value| > R.ID && WorksheetOf(r.value[R.DATE]).Ok?
      && var w := WorksheetOf(r.value[R.DATE]).value;
      var f := SourceFile(path, "Monzo", "Monzo", [header, paid, zero]);
      ImportOutcome(lib, cats, RunEnv(load, 0), Agg(map[], map[]), {}, [f])
        == (Agg(map[w := {r.value[R.ID]}], map[w := [r.value]]), [path], Nothing)
  {
    var f := SourceFile(path, "Monzo", "Monzo", [header, paid, zero]);
    var env := RunEnv(load, 0);
    var s0 := Agg(map[], map[]);
    var convs := R.RecordConverters("Monzo", R.Monzo);
    MonzoConvertersLayout();
    MonzoRecord(lib, cats, convs, paid);
    MonzoRecord(lib, cats, convs, zero);
    var rec := R.ConvertRow(lib, cats, convs, paid).value;
    C.SplitSides(lib.parseFloat(paid[2]).value);
    C.SplitSides(0.0);
    Calendar.FromOrdinalOfOrdinal(lib.parseDate(paid[1], R.MonzoDateFormat).value);
    PaidRecord(env, rec);
    var w := env.sheetOf(rec[R.DATE]).value;
    var t := Agg(map[w := {rec[R.ID]}], map[w := [rec]]);
    TwoRows(lib, cats, env, s0, convs, paid, zero, t, t);
    MonzoDownload(lib, cats, env, s0, f);
    assert f.rows[1..] == [paid, zero];
    ImportOneFile(lib, cats, env, s0, f);
  }

  /**
   * A Monzo file with a header and two rows, one paying in a positive amount on or after the
   * epoch and one of zero, imported with a cut-off of 0 into a spreadsheet without transactions:
   * exactly one record is pending, the paying one, and the file is recorded as processed.
   */
  lemma EndToEnd(lib: C.Library, cats: R.Tables, load: string -> set<Value>, path: string,
                 header: seq<string>, paid: seq<string>, zero: seq<string>)
    requires forall w :: load(w) == {}
    requires |paid| >= 11 && |zero| >= 11
    requires lib.parseFloat(paid[2]).Some? && lib.parseFloat(paid[2]).value > 0.0
    requires lib.parseFloat(zero[2]) == Some(0.0)
    requires lib.parseDate(paid[1], R.MonzoDateFormat).Some? && lib.parseDate(zero[1], R.MonzoDateFormat).Some?
    requires Calendar.Ordinal(lib.parseDate(paid[1], R.MonzoDateFormat).value) >= Calendar.EpochOrdinal
    ensures var f := SourceFile(path, "Monzo", "Monzo", [header, paid, zero]);
      var outcome := ImportOutcome(lib, cats, RunEnv(load, 0), Agg(map[], map[]), {}, [f]);
      outcome.2 == Nothing && outcome.1 == [path] && |outcome.0.rows| == 1
      && forall w :: w in outcome.0.rows ==>
        |outcome.0.rows[w]| == 1 && |outcome.0.rows[w][0]| == 9 && outcome.0.rows[w][0][R.ID] == Str(paid[0])
        && outcome.0.rows[w][0][R.MONEY_IN] == Amt(lib.parseFloat(paid[2]).value)
        && outcome.0.rows[w][0][R.MONEY_OUT] == None
  {
    var convs := R.RecordConverters("Monzo", R.Monzo);
    MonzoConvertersLayout();
    MonzoRecord(lib, cats, convs, paid);
    C.SplitSides(lib.parseFloat(paid[2]).value);
    EndToEndOutcome(lib, cats, load, path, header, paid, zero);
    var rec := R.ConvertRow(lib, cats, convs, paid).value;
    SingleWorksheet(WorksheetOf(rec[R.DATE]).value, rec);
  }

  lemma SingleWorksheet(w: string, rec: Record)
    ensures |map[w := [rec]]| == 1 && forall v :: v in map[w := [rec]] ==> map[w := [rec]][v] == [rec]
  {
    assert map[w := [rec]].Keys == {w};
  }
}
