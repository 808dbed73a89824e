/**
 * The field converters of conversions.py (and their copies in bankdownload.py): each takes a CSV
 * row and yields one value of the canonical transaction record, or the exception the Python
 * lambda would raise.
 */
module Conversions {
  import opened PyCore
  import opened Calendar

  predicate IsHexDigit(c: char) {
    '0' <= c <= '9' || 'a' <= c <= 'f'
  }

  /** What `hexdigest()` returns for SHA-256: 64 lower-case hexadecimal digits. */
  type HexDigest = s: string | |s| == 64 && forall k :: 0 <= k < |s| ==> IsHexDigit(s[k])
    witness seq(64, k => '0')

  type ValidDate = d: Date | Valid(d) witness Date(1, 1, 1)

  /**
   * The library calls the converters rely on, left uninterpreted: `float(s)` (`Nothing` where it
   * raises `ValueError`), `datetime.strptime(s, format)` (likewise) and SHA-256.
   */
  datatype Library = Library(
    parseFloat: string -> Option<real>,
    parseDate: (string, string) -> Option<ValidDate>,
    sha256: seq<byte> -> HexDigest)

  // ----- single-cell converters -----

  /** `create_identity(index)`: the cell itself. */
  function Identity(row: seq<string>, index: int): (r: Result<Value>)
    ensures r.Ok? <==> -|row| <= index < |row|
    ensures r.Err? ==> r.error == IndexError
    ensures 0 <= index < |row| ==> r == Ok(Str(row[index]))
    ensures -|row| <= index < 0 ==> r == Ok(Str(row[|row| + index]))
  {
    var cell :- Index(row, index);
    Ok(Str(cell))
  }

  /** `create_constant(constant)`: the constant, whatever the row. */
  function Constant(constant: Value, row: seq<string>): (r: Result<Value>)
    ensures r == Ok(constant)
  {
    Ok(constant)
  }

  /** `create_convert_date(index, format)`: the days from the epoch to the parsed date. */
  function ConvertDate(lib: Library, row: seq<string>, index: int, format: string): (r: Result<Value>)
    ensures r.Err? ==> r.error == IndexError || r.error == ValueError
    ensures r.Ok? ==> r.value.Day? && 1 <= r.value.day + EpochOrdinal <= MaxOrdinal
    ensures r.Ok? <==> Index(row, index).Ok? && lib.parseDate(Index(row, index).value, format).Some?
    ensures r.Ok? ==> r.value == Day(Ordinal(lib.parseDate(Index(row, index).value, format).value) - EpochOrdinal)
  {
    var cell :- Index(row, index);
    match lib.parseDate(cell, format)
    case Nothing => Err(ValueError)
    case Some(d) =>
      FromOrdinalOfOrdinal(d);
      Ok(Day(Ordinal(d) - EpochOrdinal))
  }

  function Abs(x: real): real {
    if x < 0.0 then -x else x
  }

  /** `amount if amount > 0 else None` after taking one sign of `a`. */
  function Split(a: real, isOut: bool): (v: Value)
    ensures v.None? || (v.Amt? && v.amount > 0.0)
  {
    var amount := Abs(if isOut then (if a < 0.0 then a else 0.0) else (if a > 0.0 then a else 0.0));
    if amount > 0.0 then Amt(amount) else None
  }

  /** `create_convert_amount(index, is_out)`: one side of a signed amount. */
  function SignedAmount(lib: Library, row: seq<string>, index: int, isOut: bool): (r: Result<Value>)
    ensures r.Err? ==> r.error == IndexError || r.error == ValueError
    ensures r.Ok? ==> r.value.None? || (r.value.Amt? && r.value.amount > 0.0)
    ensures r.Ok? <==> Index(row, index).Ok? && lib.parseFloat(Index(row, index).value).Some?
    ensures r.Ok? ==> r.value == Split(lib.parseFloat(Index(row, index).value).value, isOut)
  {
    var cell :- Index(row, index);
    match lib.parseFloat(cell)
    case Nothing => Err(ValueError)
    case Some(a) => Ok(Split(a, isOut))
  }

  /** `create_convert_amount_simple(index)`: `None` for an empty cell, else the absolute value. */
  function SimpleAmount(lib: Library, row: seq<string>, index: int): (r: Result<Value>)
    ensures r.Err? ==> r.error == IndexError || r.error == ValueError
    ensures r.Ok? <==> Index(row, index).Ok? && (Index(row, index).value == "" || lib.parseFloat(Index(row, index).value).Some?)
    ensures r.Ok? ==> r.value.None? || r.value.Amt?
    ensures r.Ok? ==> (r.value.None? <==> Index(row, index).value == "")
    ensures r.Ok? && r.value.Amt? ==>
      r.value.amount >= 0.0
      && (lib.parseFloat(Index(row, index).value) == Some(r.value.amount)
          || lib.parseFloat(Index(row, index).value) == Some(-r.value.amount))
  {
    var cell :- Index(row, index);
    if cell == "" then Ok(None)
    else match lib.parseFloat(cell)
      case Nothing => Err(ValueError)
      case Some(a) => Ok(Amt(Abs(a)))
  }

  /** The amount a converted money cell stands for: `None` counts as zero. */
  function AmountOf(v: Value): real {
    if v.Amt? then v.amount else 0.0
  }

  // ----- the content-derived id -----

  /** The cells at `indices`, in order; the first index out of range raises. */
  function Cells(row: seq<string>, indices: seq<int>): (r: Result<seq<string>>)
    ensures r.Ok? <==> forall k :: 0 <= k < |indices| ==> -|row| <= indices[k] < |row|
    ensures r.Err? ==> r.error == IndexError
    ensures r.Ok? ==>
      |r.value| == |indices|
      && forall k :: 0 <= k < |indices| ==> Index(row, indices[k]) == Ok(r.value[k])
  {
    if indices == [] then Ok([])
    else
      var init :- Cells(row, indices[..|indices| - 1]);
      var cell :- Index(row, indices[|indices| - 1]);
      Ok(init + [cell])
  }

  /** The id of `create_generate_id(indices)`: the first 16 hex digits of SHA-256 over the cells. */
  function GenerateId(lib: Library, row: seq<string>, indices: seq<int>): (r: Result<Value>)
    ensures r.Ok? <==> Cells(row, indices).Ok?
    ensures r.Err? ==> r.error == IndexError
    ensures r.Ok? ==>
      r.value.Str? && |r.value.s| == 16
      && r.value.s == lib.sha256(Utf8(Concat(Cells(row, indices).value)))[..16]
      && forall k :: 0 <= k < 16 ==> IsHexDigit(r.value.s[k])
  {
    var cells :- Cells(row, indices);
    var digest := lib.sha256(Utf8(Concat(cells)));
    Ok(Str(digest[..16]))
  }

  /** `convert_id(row)`: feeds the encoded cells to the hasher one by one. */
  method ConvertId(lib: Library, row: seq<string>, indices: seq<int>) returns (r: Result<Value>)
    ensures r == GenerateId(lib, row, indices)
  {
    var fed: seq<byte> := [];
    var cells: seq<string> := [];
    var i := 0;
    while i < |indices|
      invariant 0 <= i <= |indices|
      invariant Cells(row, indices[..i]) == Ok(cells)
      invariant fed == Utf8(Concat(cells))
    {
      assert indices[..i + 1][..i] == indices[..i];
      var cell := Index(row, indices[i]);
      if cell.Err? {
        return Err(cell.error);
      }
      Utf8Append(Concat(cells), cell.value);
      ConcatSnoc(cells, cell.value);
      fed := fed + Utf8(cell.value);
      cells := cells + [cell.value];
      i := i + 1;
    }
    assert indices[..i] == indices;
    var digest := lib.sha256(fed);
    r := Ok(Str(digest[..16]));
  }

  // ----- the config-driven category converter -----

  /** The configuration `create_convert_category` reads: the category list and the named extra maps. */
  datatype Config = Config(categories: Option<seq<string>>, maps: map<string, map<string, string>>)

  /** `{c: c for c in categories}` updated with `extra`. */
  function CategoryMap(categories: seq<string>, extra: map<string, string>): (m: map<string, string>)
    ensures m.Keys == (set c | c in categories) + extra.Keys
    ensures forall k :: k in extra ==> m[k] == extra[k]
    ensures forall k :: k in categories && k !in extra ==> m[k] == k
  {
    (map c | c in categories :: c) + extra
  }

  /** The map built by `create_convert_category(..., category_map_name, config)`; a missing key raises. */
  function CreateCategoryMap(config: Config, mapName: string): (r: Result<map<string, string>>)
    ensures r.Ok? <==> config.categories.Some? && mapName in config.maps
    ensures r.Err? ==> r.error == KeyError
    ensures r.Ok? ==> r.value == CategoryMap(config.categories.value, config.maps[mapName])
  {
    if config.categories.Nothing? then Err(KeyError)
    else if mapName !in config.maps then Err(KeyError)
    else Ok(CategoryMap(config.categories.value, config.maps[mapName]))
  }

  /** The notes words that start with `#`, lower-cased, in order. */
  function TagWords(words: seq<string>): (ts: seq<string>)
    ensures forall k :: 0 <= k < |ts| ==> StartsWith(ts[k], "#")
    ensures |ts| <= |words|
  {
    if words == [] then []
    else if StartsWith(words[0], "#") then [Lower(words[0])] + TagWords(words[1..])
    else TagWords(words[1..])
  }

  /** The candidates `convert_category` tries: the notes tags, then the raw category cell. */
  function Candidates(notes: string, cell: string): seq<string> {
    TagWords(Words(notes)) + [cell]
  }

  /** The mapped category of the first candidate the map knows, else `None`. */
  function FirstMapped(m: map<string, string>, candidates: seq<string>): (v: Value)
    ensures v.None? || (v.Str? && v.s in m.Values)
  {
    if candidates == [] then None
    else if candidates[0] in m then Str(m[candidates[0]])
    else FirstMapped(m, candidates[1..])
  }

  /**
   * `convert_category(row)`: both cells are read before any lookup, so a missing category cell
   * raises even when a tag matches.
   */
  function ConfigCategory(m: map<string, string>, row: seq<string>, notesIndex: int, categoryIndex: int): (r: Result<Value>)
    ensures r.Ok? <==> Index(row, notesIndex).Ok? && Index(row, categoryIndex).Ok?
    ensures r.Err? ==> r.error == IndexError
    ensures r.Ok? ==> r.value.None? || (r.value.Str? && r.value.s in m.Values)
  {
    var notes :- Index(row, notesIndex);
    var cell :- Index(row, categoryIndex);
    Ok(FirstMapped(m, Candidates(notes, cell)))
  }

  /** The loop of `convert_category`, returning on the first candidate found in the map. */
  method ConvertCategory(m: map<string, string>, row: seq<string>, notesIndex: int, categoryIndex: int)
    returns (r: Result<Value>)
    ensures r == ConfigCategory(m, row, notesIndex, categoryIndex)
  {
    var notes := Index(row, notesIndex);
    if notes.Err? {
      return Err(notes.error);
    }
    var candidates := TagWords(Words(notes.value));
    var cell := Index(row, categoryIndex);
    if cell.Err? {
      return Err(cell.error);
    }
    candidates := candidates + [cell.value];
    var i := 0;
    while i < |candidates|
      invariant 0 <= i <= |candidates|
      invariant FirstMapped(m, candidates[i..]) == FirstMapped(m, candidates)
    {
      if candidates[i] in m {
        return Ok(Str(m[candidates[i]]));
      }
      assert candidates[i..][1..] == candidates[i + 1..];
      i := i + 1;
    }
    return Ok(None);
  }

  // ----- lemmas -----

  /** The in side is the amount exactly when it is positive, the out side its negation exactly when it is negative. */
  lemma SplitSides(a: real)
    ensures Split(a, false) == Amt(a) <==> a > 0.0
    ensures Split(a, true) == Amt(-a) <==> a < 0.0
    ensures Split(a, false).None? <==> a <= 0.0
    ensures Split(a, true).None? <==> a >= 0.0
    ensures Split(a, false).None? || Split(a, true).None?
    ensures Split(a, false).None? && Split(a, true).None? <==> a == 0.0
    ensures AmountOf(Split(a, false)) - AmountOf(Split(a, true)) == a
  {
  }

  /** An empty cell is `None`, any other parsed cell its absolute value, zero included. */
  lemma SimpleAmountCases(lib: Library, row: seq<string>, index: int)
    requires Index(row, index).Ok?
    ensures Index(row, index).value == "" ==> SimpleAmount(lib, row, index) == Ok(None)
    ensures Index(row, index).value != "" && lib.parseFloat(Index(row, index).value).Some? ==>
      SimpleAmount(lib, row, index) == Ok(Amt(Abs(lib.parseFloat(Index(row, index).value).value)))
  {
  }

  /** A date converts to the serial day that maps back to it. */
  lemma ConvertDateRoundTrip(lib: Library, row: seq<string>, index: int, format: string)
    requires ConvertDate(lib, row, index, format).Ok?
    ensures FromOrdinal(ConvertDate(lib, row, index, format).value.day + EpochOrdinal)
         == lib.parseDate(Index(row, index).value, format).value
  {
    FromOrdinalOfOrdinal(lib.parseDate(Index(row, index).value, format).value);
  }

  /** The id depends on the selected cells only through their concatenation. */
  lemma IdByConcatenation(lib: Library, row1: seq<string>, indices1: seq<int>, row2: seq<string>, indices2: seq<int>)
    requires Cells(row1, indices1).Ok? && Cells(row2, indices2).Ok?
    requires Concat(Cells(row1, indices1).value) == Concat(Cells(row2, indices2).value)
    ensures GenerateId(lib, row1, indices1) == GenerateId(lib, row2, indices2)
  {
  }

  /** Rows agreeing on the selected cells get the same id, whatever their other cells hold. */
  lemma {:induction false} IdOfSameCells(lib: Library, row1: seq<string>, row2: seq<string>, indices: seq<int>)
    requires forall k :: 0 <= k < |indices| ==> Index(row1, indices[k]) == Index(row2, indices[k])
    ensures GenerateId(lib, row1, indices) == GenerateId(lib, row2, indices)
  {
    assert Cells(row1, indices) == Cells(row2, indices) by {
      CellsAgree(row1, row2, indices);
    }
  }

  lemma {:induction false} CellsAgree(row1: seq<string>, row2: seq<string>, indices: seq<int>)
    requires forall k :: 0 <= k < |indices| ==> Index(row1, indices[k]) == Index(row2, indices[k])
    ensures Cells(row1, indices) == Cells(row2, indices)
  {
    if indices != [] {
      var init := indices[..|indices| - 1];
      assert forall k :: 0 <= k < |init| ==> init[k] == indices[k];
      CellsAgree(row1, row2, init);
    }
  }

  /** The cells ("ab", "c") and ("a", "bc") give the same id. */
  lemma SplitCellsSameId(lib: Library)
    ensures GenerateId(lib, ["ab", "c"], [0, 1]) == GenerateId(lib, ["a", "bc"], [0, 1])
  {
    var r1: seq<string>, r2: seq<string> := ["ab", "c"], ["a", "bc"];
    assert Cells(r1, [0, 1]).value == r1 by {
      assert [0, 1][..1] == [0];
      assert [0][..0] == [];
    }
    assert Cells(r2, [0, 1]).value == r2 by {
      assert [0, 1][..1] == [0];
      assert [0][..0] == [];
    }
    assert r1[1..] == ["c"] && r2[1..] == ["bc"];
    assert Concat(r1) == "ab" + "c" == "abc";
    assert Concat(r2) == "a" + "bc" == "abc";
  }

  /** The mapped value of the first known candidate decides; `None` exactly when no candidate is known. */
  lemma {:induction false} FirstMappedIs(m: map<string, string>, candidates: seq<string>, i: nat)
    requires i < |candidates| && candidates[i] in m
    requires forall j :: 0 <= j < i ==> candidates[j] !in m
    ensures FirstMapped(m, candidates) == Str(m[candidates[i]])
  {
    if i > 0 {
      FirstMappedIs(m, candidates[1..], i - 1);
    }
  }

  lemma {:induction false} FirstMappedNone(m: map<string, string>, candidates: seq<string>)
    ensures FirstMapped(m, candidates).None? <==> forall j :: 0 <= j < |candidates| ==> candidates[j] !in m
  {
    if candidates != [] {
      FirstMappedNone(m, candidates[1..]);
      assert forall j :: 1 <= j < |candidates| ==> candidates[j] == candidates[1..][j - 1];
    }
  }

  /** A notes tag known to the map wins over the category cell, whatever that cell holds. */
  lemma ConfigTagWins(m: map<string, string>, row: seq<string>, notesIndex: int, categoryIndex: int, i: nat)
    requires Index(row, notesIndex).Ok? && Index(row, categoryIndex).Ok?
    requires var tags := TagWords(Words(Index(row, notesIndex).value));
      i < |tags| && tags[i] in m && forall j :: 0 <= j < i ==> tags[j] !in m
    ensures ConfigCategory(m, row, notesIndex, categoryIndex)
         == Ok(Str(m[TagWords(Words(Index(row, notesIndex).value))[i]]))
  {
    var tags := TagWords(Words(Index(row, notesIndex).value));
    var cands := tags + [Index(row, categoryIndex).value];
    assert forall j :: 0 <= j <= i ==> cands[j] == tags[j];
    FirstMappedIs(m, cands, i);
  }

  /** Without a known tag the raw category cell, not lower-cased, is looked up; otherwise `None`. */
  lemma ConfigFallback(m: map<string, string>, row: seq<string>, notesIndex: int, categoryIndex: int)
    requires Index(row, notesIndex).Ok? && Index(row, categoryIndex).Ok?
    requires forall j :: 0 <= j < |TagWords(Words(Index(row, notesIndex).value))| ==>
      TagWords(Words(Index(row, notesIndex).value))[j] !in m
    ensures ConfigCategory(m, row, notesIndex, categoryIndex)
         == Ok(if Index(row, categoryIndex).value in m then Str(m[Index(row, categoryIndex).value]) else None)
  {
    var tags := TagWords(Words(Index(row, notesIndex).value));
    var cell := Index(row, categoryIndex).value;
    var cands := tags + [cell];
    assert forall j :: 0 <= j < |tags| ==> cands[j] == tags[j];
    if cell in m {
      FirstMappedIs(m, cands, |tags|);
    } else {
      FirstMappedNone(m, cands);
    }
  }

  /** Only `#` words are candidates: the tags of a notes text are its `#` words, lower-cased, in order. */
  lemma {:induction false} TagWordsAre(words: seq<string>)
    ensures TagWords(words) == Lowered(Hashed(words))
  {
    if words != [] {
      TagWordsAre(words[1..]);
    }
  }

  function Hashed(words: seq<string>): (hs: seq<string>)
    ensures forall k :: 0 <= k < |hs| ==> hs[k] in words && StartsWith(hs[k], "#")
  {
    if words == [] then []
    else if StartsWith(words[0], "#") then [words[0]] + Hashed(words[1..])
    else Hashed(words[1..])
  }

  function Lowered(words: seq<string>): (ls: seq<string>)
    ensures |ls| == |words| && forall k :: 0 <= k < |words| ==> ls[k] == Lower(words[k])
  {
    seq(|words|, k requires 0 <= k < |words| => Lower(words[k]))
  }
}
