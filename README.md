# bank-download, modelled in Dafny

bank-download imports bank CSV exports into a Google spreadsheet. It walks a directory tree of
`{format}/{account}/{file}.csv`. For each file not yet listed in the spreadsheet's 'Processed'
worksheet it does three things:

- it converts every row after the header into a canonical transaction record, using the
  converter list registered for the (format, account) pair;
- it keeps any record that has an amount and is not before the cut-off date;
- it queues each kept record for its tax-year worksheet (`Transactions Y/Y+1`, from April 1 to
  March 31), unless that worksheet already holds the record's id.

This project models that engine and proves what it promises:

- the field converters of `bankdownload.py` and `conversions.py`;
- the two category resolvers;
- the conversion tables and record layout;
- the tax-year naming, over proleptic Gregorian calendar arithmetic;
- the stateful validate-and-assign step;
- the row loop of `process_download`;
- the file-skip loop of `main`.

Modules, one per file:

- `PyCore` (`pycore.dfy`) holds the Python behaviour the code relies on:
  - exceptions, as a `Result` whose errors are `PyError`;
  - negative indexing;
  - `str.split()`, `str.lower()`, `"".join` and UTF-8 encoding;
  - the cell `Value` type: a string, a serial day, an amount or `None`.
- `Calendar` (`calendar.dfy`) holds `datetime`'s proleptic Gregorian calendar: `toordinal` in
  closed form and `fromordinal` by search, proved mutually inverse.
- `Conversions` (`conversions.py` and the copies of the same factories in `bankdownload.py`)
  holds:
  - the identity, constant, date, signed-amount, simple-amount and id converters;
  - the config-driven category converter, including the imperative hashing loop (`ConvertId`)
    and the candidate scan (`ConvertCategory`).
- `Categories` holds `CATEGORIES_BY_TAG`, `CATEGORIES` and the Monzo category converter.
- `Registry` holds the converter variants as one datatype, the four tables, `CONVERSIONS`,
  `COLUMNS` and the column positions.
- `Worksheets` holds `get_worksheet_name`.
- `Aggregation` holds:
  - `validate_and_assign_row`, as a pure `Step` on the two dictionaries;
  - the class `Aggregator`, whose fields are those dictionaries and whose method
    `ValidateAndAssign` is proved equal to `Step`;
  - the invariant the dictionaries keep.
- `Importer` holds `process_download` and the walk loop of `main`. Both are imperative methods
  over the `Aggregator`, proved equal to recursive specification functions. It also holds the
  lemmas about re-runs, skipped files and one end-to-end import.

External calls are parameters:

- `float()`, `datetime.strptime` and SHA-256 are the fields of a `Conversions.Library` value.
  The SHA-256 result is typed as 64 lower-case hex digits.
- The ids each worksheet already holds are a function `load` fixed for the run. Loading on
  first touch therefore equals the code's lazy `col_values` call.
- The cut-off date and the worksheet naming belong to the run environment `Aggregation.Env`.
  `Importer.RunEnv` plugs in `get_worksheet_name`.
- The Monzo category tables are passed as a `Registry.Tables` value. `Registry.SourceTables` is
  the one `bankdownload.py` builds.

## Model

| member | source | states |
|---|---|---|
| PyCore.Index | conversions.py:15 | `row[i]` succeeds exactly for `-len <= i < len`; a negative index counts from the end |
| PyCore.Words | bankdownload.py:115 | `str.split()` yields only non-empty words without whitespace; `WordsOfWord` and `WordsAtSpace` pin it down on every string, and `ConcatWords` shows that joining the words drops exactly the whitespace |
| PyCore.WordsOfWord | bankdownload.py:115 | a non-empty text without whitespace splits into itself alone |
| PyCore.WordsAtSpace | bankdownload.py:115 | `split()` cuts at every whitespace character: the words of `a + c + b`, for a whitespace `c`, are the words of `a` followed by those of `b`; with the empty case and `WordsOfWord`, this determines the result on every string |
| PyCore.Lower | bankdownload.py:115 | `str.lower()` keeps the length and lowers each character in place |
| PyCore.Concat | bankdownload.py:71 | `"".join`; it has no contract of its own, and `ConcatSnoc` and `ConcatWords` state its properties |
| PyCore.ConcatSnoc | conversions.py:58-61 | joining a list with one more piece appends that piece, as each hasher update does |
| PyCore.Utf8 | conversions.py:60 | `str.encode('utf-8')` gives between one and four times as many bytes as characters; `Utf8Append` shows that it distributes over concatenation |
| PyCore.Utf8Append | conversions.py:58-61 | encoding distributes over concatenation, so updating the hasher cell by cell equals hashing the joined text |
| PyCore.ConcatWords | bankdownload.py:71 | `"".join(s.split())` is `s` with every whitespace character removed |
| Calendar.EpochAndMaxOrdinals | bankdownload.py:27 | 1899-12-30 (the epoch) and 9999-12-31 are valid dates with ordinals 693594 and 3652059 |
| Calendar.Ordinal | bankdownload.py:35 | `toordinal`, whose difference from the epoch is `.days`; it has no contract of its own, and `OrdinalWithinYear`, `OrdinalMonotone` and `FromOrdinalOfOrdinal` state its properties |
| Calendar.OrdinalWithinYear | bankdownload.py:233-235 | the ordinals of a year's dates lie after all earlier years' days and no further than the year's own last day |
| Calendar.OrdinalMonotone | bankdownload.py:235 | the date order `datetime` compares by is the order of the ordinals |
| Calendar.FromOrdinal | bankdownload.py:233 | every ordinal in range maps to a valid date with exactly that ordinal |
| Calendar.FromOrdinalOfOrdinal | bankdownload.py:233 | every valid date has an ordinal in range, and `fromordinal` maps that ordinal back to the date |
| Conversions.Identity | conversions.py:11-15 | the cell itself, unchanged, for every index Python accepts (negative ones from the end); `IndexError` otherwise |
| Conversions.Constant | conversions.py:18-22 | the constant, whatever the row |
| Conversions.ConvertDate | conversions.py:25-30 | succeeds exactly when the cell exists and `strptime` parses it, and then gives the parsed date's ordinal less the epoch's, a serial day whose date `datetime` can represent; `IndexError` or `ValueError` otherwise |
| Conversions.ConvertDateRoundTrip | bankdownload.py:30-35 | adding the converted serial day to the epoch gives back the parsed date |
| Conversions.SignedAmount | conversions.py:40-48 | it succeeds exactly when the cell exists and parses; a present value is strictly positive |
| Conversions.Split | bankdownload.py:51-52 | one side of a signed amount is `None` or a strictly positive amount; `SplitSides` says which side gets it |
| Conversions.SplitSides | bankdownload.py:45-53 | the in side returns `a` exactly when `a > 0` and the out side `-a` exactly when `a < 0`; at most one side is present; both are `None` exactly when `a == 0`; in minus out is `a` |
| Conversions.SimpleAmount | conversions.py:33-37 | succeeds exactly when the cell exists and is empty or parses; the value is `None` or an amount, `None` exactly when the cell is empty; otherwise a non-negative amount that is the parsed value or its negation |
| Conversions.SimpleAmountCases | bankdownload.py:38-42 | an empty cell gives `None`; any other parsed cell gives its absolute value, and "0" gives the amount 0 rather than `None` |
| Conversions.Cells | conversions.py:59-60 | the cells at the indices, in index order; `IndexError` exactly when some index is out of range |
| Conversions.GenerateId | conversions.py:51-62 | the id is 16 hex characters, the first 16 of the SHA-256 digest of the UTF-8 bytes of the selected cells joined in index order |
| Conversions.ConvertId | bankdownload.py:56-67 | the hashing loop returns exactly the id `GenerateId` specifies, or the first `IndexError` |
| Conversions.IdByConcatenation | conversions.py:57-61 | two rows whose selected cells have the same concatenation get the same id |
| Conversions.IdOfSameCells | bankdownload.py:62-66 | rows agreeing on the selected cells get the same id, whatever their other cells hold |
| Conversions.SplitCellsSameId | conversions.py:57-61 | the cells ("ab", "c") and ("a", "bc") give the same id |
| Conversions.CategoryMap | conversions.py:72-75 | the keys are the categories plus the extra keys; an extra entry wins; any other category maps to itself |
| Conversions.CreateCategoryMap | conversions.py:65-75 | a missing `categories` or map-name key raises `KeyError`; otherwise the map is the overlay of the extra map on the identity map of the categories |
| Conversions.TagWords | conversions.py:78 | every candidate taken from the notes starts with `#`, and there are no more of them than words |
| Conversions.TagWordsAre | conversions.py:78 | the notes candidates are exactly the `#` words, lower-cased, in order; other words are never consulted |
| Conversions.FirstMappedIs | conversions.py:80-82 | the first candidate present in the map decides the result |
| Conversions.FirstMappedNone | conversions.py:83 | the result is `None` exactly when no candidate is in the map |
| Conversions.ConfigCategory | conversions.py:77-83 | both cells are read before any lookup, and a missing one raises `IndexError`; the result is `None` or a value of the map |
| Conversions.ConfigTagWins | conversions.py:78-82 | the first notes tag known to the map decides, whatever the category cell holds |
| Conversions.ConfigFallback | conversions.py:79-83 | with no known tag, the category cell is looked up as it is, not lower-cased, and an unknown one gives `None` |
| Conversions.ConvertCategory | conversions.py:77-83 | the loop with early return gives exactly the value of `ConfigCategory`, including its errors |
| Categories.TagTable | bankdownload.py:71-100 | the keys are the tags of the categories, and every key maps to a category whose tag is that key |
| Categories.Tag | bankdownload.py:71 | every tag starts with `#`; `TagWithoutSpaces` gives the rest |
| Categories.CategoriesByTag | bankdownload.py:71-100 | `CATEGORIES_BY_TAG`; it has no contract of its own, and `TagTable`, `CategoryListLayout` and `EatingOutCategory` state its properties |
| Categories.Aliases | bankdownload.py:102-105 | `CATEGORIES`; it has no contract of its own, and `AliasTable` and `AliasesOfCategories` state its properties |
| Categories.EatingOutTag | bankdownload.py:71 | the tag of "Eating Out" is `#eatingout` |
| Categories.TagTableLastWins | bankdownload.py:71-100 | a category whose tag no later name shares is the value of its tag, whatever came before it |
| Categories.TagStart | bankdownload.py:71 | a tag's second and third characters are the lowered first two characters of a name that does not begin with whitespace |
| Categories.NotEaTag | bankdownload.py:71 | a name whose first two characters are not "ea" once lowered does not get the tag `#eatingout` |
| Categories.EatingOutCategory | bankdownload.py:71-100 | in any order of a list where only "Eating Out" begins with "ea", `#eatingout` maps to "Eating Out" and no other name has that tag |
| Categories.CategoryListLayout | bankdownload.py:71-100 | the category set has 28 names, "Eating Out" among them, and no other name begins with "ea"; with `EatingOutCategory` this gives `CATEGORIES_BY_TAG["#eatingout"] == "Eating Out"` |
| Categories.TagWithoutSpaces | bankdownload.py:71 | a category's tag is `#` followed by the lower-cased name with its whitespace removed |
| Categories.TagTableMapsBack | bankdownload.py:71-100 | when the tags are distinct, every category's tag maps back to that category, whatever order the set is iterated in |
| Categories.AliasTable | bankdownload.py:102-105 | `CATEGORIES` is the identity on every category of the tag table, plus "Eating out" mapped to "Eating Out" |
| Categories.AliasesOfCategories | bankdownload.py:102-105 | when the tags are distinct, every listed category is a key of `CATEGORIES`, and every one except "Eating out" maps to itself |
| Categories.TaggedCategories | bankdownload.py:114-117 | the comprehension yields only categories of the tag table |
| Categories.FirstTaggedCategory | bankdownload.py:114-120 | the first notes word, left to right, that starts with `#` and is a known tag once lower-cased gives the first category |
| Categories.MonzoCategory | bankdownload.py:108-123 | it succeeds exactly when the notes cell exists and either a known tag is in the notes or the category cell exists; a missing notes cell raises `IndexError`, the only error; the result is `None` or a category of one of the two tables |
| Categories.MonzoTagWins | bankdownload.py:113-120 | a known tag in the notes decides the category, whatever the category cell holds and even when it does not exist |
| Categories.MonzoFallback | bankdownload.py:119-122 | with no known tag, the category cell is looked up case-sensitively in `CATEGORIES`; a miss gives `None` and a missing cell raises |
| Registry.ConvertRow | bankdownload.py:362 | a converted record has one value per converter, each that converter's result; an error is the first converter's error in list order |
| Registry.Apply | bankdownload.py:139-180 | a converter raises only `IndexError` or `ValueError`, and a constant converter returns its constant whatever the row |
| Registry.IndexOf | bankdownload.py:133-136 | `list.index` returns the first position of the title, and `ValueError` when the title is absent |
| Registry.ColumnPositions | bankdownload.py:127-136 | `DATE`, `MONEY_IN`, `MONEY_OUT` and `ID` are positions 1, 4, 5 and 6 of `COLUMNS` |
| Registry.RecordConverters | bankdownload.py:355 | the account constant comes first, then the table's converters in order |
| Registry.TablesWellShaped | bankdownload.py:139-192 | every `CONVERSIONS` entry has at least six converters, a date converter at `DATE` and amount converters at both money columns, so the four columns are in bounds |
| Registry.RecordStartsWithAccount | bankdownload.py:355 | every converted record has the account name at index 0 and one value per converter |
| Registry.RecordShape | bankdownload.py:139-180 | a record from a well-shaped entry holds a serial day with a representable date, and amounts or `None` in both money columns |
| Registry.MonzoSidesShareColumn | bankdownload.py:143-144 | both Monzo tables take money in and money out from the two sides of the same signed column (columns 2 and 7) |
| Registry.SmileLayout | bankdownload.py:162-180 | both Smile tables read the date from column 0 as `%Y-%m-%d`, take the money columns from two adjacent simple-amount cells, and hash every cell from the date through money out |
| Registry.JointAccountsShareTables | bankdownload.py:183-192 | every format has a personal and a joint account, and both use the same table |
| Registry.SignedPairAmounts | bankdownload.py:143-156 | a record whose money columns split one signed cell has at most one amount, has none exactly when the cell is 0, and in minus out equals the cell |
| Worksheets.TaxYear | bankdownload.py:233-236 | the tax year of an ordinal is the year `y` with April 1 of `y` <= ordinal < April 1 of `y + 1` |
| Worksheets.TaxYearInterval | bankdownload.py:233-236 | an ordinal lies in tax year `y` if and only if it lies between April 1 of `y` and April 1 of `y + 1` |
| Worksheets.NatStr | bankdownload.py:237 | the f-string text of a year is non-empty, all decimal digits, and has no leading zero unless the year is 0; `DecimalValueOfNatStr` reads it back |
| Worksheets.Label | bankdownload.py:237 | `Transactions Y/Y+1`; it has no contract of its own, and `WorksheetNameOfDate` and `LabelInjective` state its properties |
| Worksheets.WorksheetName | bankdownload.py:228-237 | days outside the years 1 to 9999 raise `OverflowError`; any other name starts with "Transactions " |
| Worksheets.WorksheetNameOfDate | bankdownload.py:233-237 | a date's name is `Transactions Y/Y+1` for its calendar year less one before April 1, and for its own year otherwise |
| Worksheets.AprilFirstOpensYear | bankdownload.py:235-237 | April 1 of `y` gives `Transactions y/y+1` |
| Worksheets.MarchLastClosesYear | bankdownload.py:235-237 | March 31 of `y` is the day before April 1 and gives `Transactions y-1/y` |
| Worksheets.DecimalValueOfNatStr | bankdownload.py:237 | the f-string digits of a year read back as that year |
| Worksheets.Label2023 | bankdownload.py:237 | the tax year starting in 2023 is named exactly `Transactions 2023/2024` |
| Worksheets.LabelInjective | bankdownload.py:237 | different tax years get different worksheet names |
| Worksheets.SameWorksheetIff | bankdownload.py:228-237 | two serial days share a worksheet if and only if they share a tax year |
| Aggregation.AtOrAfter | bankdownload.py:327 | `date >= cut_off_date` compares a day or a fractional day with the cut-off; any other value raises `TypeError` |
| Aggregation.Admit | bankdownload.py:325-328 | a record is valid exactly when some amount is present and the date is not before the cut-off; the date is compared only when an amount is present, and an incomparable date raises `TypeError` |
| Aggregation.CutOffSetting | bankdownload.py:309 | the cut-off is the variable's text when `CUT_OFF_DATE` is set and the integer 0 otherwise |
| Aggregation.AdmitAsWritten | bankdownload.py:325-328 | a record without an amount is rejected without comparing; only a record with an amount can raise, and then only `TypeError` |
| Aggregation.CompareAsWritten | bankdownload.py:309-327 | Python's `>=` raises `TypeError` whenever a number is compared with a string |
| Aggregation.CutOffFromEnvironmentRaises | bankdownload.py:309-328 | with `CUT_OFF_DATE` set, every record with an amount and a serial day raises `TypeError` |
| Aggregation.NumericCutOffIsAdmit | bankdownload.py:309-328 | a numeric cut-off, or the unset default 0, gives exactly `Admit` |
| Aggregation.WorksheetOf | bankdownload.py:333 | the worksheet of a whole or fractional serial day is `get_worksheet_name` of the day it falls in; anything else raises `TypeError` |
| Aggregation.Touch | bankdownload.py:334-341 | on first touch, the worksheet's id set is loaded and its pending list starts empty; a later touch changes nothing |
| Aggregation.Place | bankdownload.py:334-346 | placing raises `KeyError` exactly when the worksheet has an id set without the record's id but no pending list; otherwise the record's id ends in the worksheet's set |
| Aggregation.PlaceEffect | bankdownload.py:334-346 | placing a record appends it to its worksheet, and adds its id, exactly when the id is new there; no other worksheet changes |
| Aggregation.StepEffect | bankdownload.py:318-346 | a step appends the record to worksheet `w` exactly when it is valid, belongs to `w` and has an id new in `w`; rejected and duplicate rows change no pending list or id set |
| Aggregation.Step | bankdownload.py:318-346 | a rejected record leaves the dictionaries unchanged; an error is `TypeError`, `KeyError` or the naming's error; an admitted record's id ends in its worksheet's set |
| Aggregation.StepGrows | bankdownload.py:334-346 | a step never drops a worksheet or an id |
| Aggregation.StepErrors | bankdownload.py:325-333 | a step raises exactly when the date cannot be compared (`TypeError`), or when a valid record's worksheet cannot be named (the naming's error) |
| Aggregation.StepRecordsId | bankdownload.py:343-346 | after a valid record, its id is in its worksheet's set, whether it was new or a duplicate |
| Aggregation.StepPreservesInv | bankdownload.py:318-346 | each id set is the loaded ids plus the pending rows' ids; no pending list holds a duplicate id or an id the sheet already had; every pending row is valid and in its own worksheet |
| Aggregation.StepIdempotent | bankdownload.py:343-346 | the same record processed again changes nothing |
| Aggregation.SameIdTwoWorksheets | bankdownload.py:334-343 | deduplication is per worksheet: one id is accepted into two different worksheets |
| Aggregation.AbsorbedMeans | bankdownload.py:343 | a valid record changes nothing exactly when its worksheet has been touched and holds its id |
| Aggregation.AbsorbedStable | bankdownload.py:334-346 | a record that changes nothing keeps changing nothing whatever is processed after it |
| Aggregation.Aggregator.constructor | bankdownload.py:311-316 | both dictionaries start empty, and the invariant holds |
| Aggregation.Aggregator.ValidateAndAssign | bankdownload.py:318-346 | the method updates the two dictionaries exactly as `Step`, keeps the invariant, and leaves them unchanged when it raises |
| Importer.Unprocessed | bankdownload.py:367-370 | a path is unprocessed exactly when some file of the walk has it and it is not in `existing_files` |
| Importer.RowsOutcome | bankdownload.py:361-362 | the row loop as a function; it has no contract of its own, and `RowsPreserveInv`, `RowsOnlyAppend`, `RowsAbsorbed` and `ProcessDownload` state its properties |
| Importer.DownloadOutcome | bankdownload.py:348-362 | `process_download` as a function; it has no contract of its own, and `DownloadPreservesInv`, `DownloadTwice` and `ProcessDownload` state its properties |
| Importer.ImportOutcome | bankdownload.py:365-376 | the walk loop as a function; it has no contract of its own, and `ImportPreservesInv`, `NewFilesAreUnprocessed`, `RerunSkipsAll` and `ImportFiles` state its properties |
| Importer.ProcessDownload | bankdownload.py:348-362 | the row loop ends in the state and error of `DownloadOutcome`: an unknown (format, account) raises `KeyError`, a file without a header raises `StopIteration`, and the first converter or step exception stops the loop |
| Importer.ImportFiles | bankdownload.py:365-376 | the walk loop returns the state, `new_files` and error of `ImportOutcome`, skipping recorded files and recording each file after its rows |
| Importer.RowsPreserveInv | bankdownload.py:361-362 | the row loop keeps the invariant of the two dictionaries |
| Importer.DownloadPreservesInv | bankdownload.py:348-362 | processing one download keeps the invariant |
| Importer.ImportPreservesInv | bankdownload.py:365-376 | the whole pass keeps the invariant, whether or not it stops at an exception |
| Importer.RowsOnlyAppend | bankdownload.py:343-362 | rows are only appended: every worksheet's earlier pending rows are a prefix of the later ones, and id sets only grow |
| Importer.NewFilesAreUnprocessed | bankdownload.py:365-376 | `new_files` is the unprocessed paths in walk order, and a prefix of them when the pass stops at an exception |
| Importer.UnprocessedOnce | bankdownload.py:367-376 | with distinct paths, no unprocessed path is listed twice |
| Importer.NewFilesRecordedOnce | bankdownload.py:365-376 | files already recorded are skipped and no path is recorded twice; without an exception, every other file is recorded |
| Importer.AllSkipped | bankdownload.py:370 | a pass over files that are all recorded changes nothing and records nothing |
| Importer.RerunSkipsAll | bankdownload.py:298-376 | once a pass's new files are recorded, a second pass over the same walk does nothing |
| Importer.StaysAbsorbed | bankdownload.py:361-362 | a record that changes nothing keeps changing nothing while further rows are processed |
| Importer.RowsAbsorbed | bankdownload.py:361-362 | after rows are processed without an exception, every one of them is accounted for by the final state |
| Importer.AbsorbedRowsChangeNothing | bankdownload.py:361-362 | rows whose records are all accounted for leave the state unchanged and raise nothing |
| Importer.DownloadTwice | bankdownload.py:343-362 | processing a download again, or a copy of it under another path, adds nothing |
| Importer.MonzoRecord | bankdownload.py:139-148 | a Monzo row with a parsable date and amount converts to 9 values: the id is column 0, the money columns are the two sides of column 2, and the date is its serial day |
| Importer.MonzoDownload | bankdownload.py:355-362 | a Monzo file runs the rows after its header through the account constant and `CONVERSION_MONZO` |
| Importer.EndToEndOutcome | bankdownload.py:318-376 | the run of `EndToEnd` ends with one worksheet holding the converted paying record and its id, with the file recorded |
| Importer.EndToEnd | bankdownload.py:318-376 | importing a Monzo file with one paying row and one zero row, at cut-off 0 into an empty spreadsheet, leaves exactly one pending record, the paying row's (the amount in money in, none out), and records the file |

## Findings

| source | as written | input that shows it | evidently intended | confidence | as-written member | corrected member |
|---|---|---|---|---|---|---|
| bankdownload.py:309 | `os.environ.get('CUT_OFF_DATE', 0)` keeps the variable's text, and line 327 then compares an integer serial day against that string | `CUT_OFF_DATE=43000`, with any row that has an amount: `43500 >= "43000"` raises `TypeError` and the run stops | the cut-off read as a number of serial days, as the default 0 is | not executed | Aggregation.CutOffFromEnvironmentRaises | Aggregation.Admit |

The rest of the model uses the corrected, numeric cut-off. `Aggregation.NumericCutOffIsAdmit`
shows that the as-written comparison agrees with `Admit` whenever the cut-off is a number.

## Left out

- The spreadsheet I/O is not modelled:
  - Google authentication;
  - `get_or_create_processed` and `get_or_create_transactions`;
  - `append_new_rows`, `sort` and `time.sleep`;
  - the write loop of `main` (bankdownload.py:378-407).

  These are external calls. The model ends with the two dictionaries and `new_files` the write
  loop would consume. The ids a worksheet already holds are the parameter `load`.
- `open_fs`, `walk`, the CSV reader and the path split are external too. Files are an ordered
  list of `Importer.SourceFile` values (path, format directory, account directory, rows). A
  `SourceFile` always has both directories, so the model cannot represent an unrecorded CSV file
  fewer than two directories below the root. For such a file, `path[2]` raises `IndexError`
  (bankdownload.py:366, 372-373) and ends the run; the model does not capture that case.
- Logging and the environment reads are external. The cut-off is an `int` parameter; see
  Findings.
- `float()` and `datetime.strptime` are uninterpreted parameters that may fail (`ValueError`).
  Floats are modelled as `real`, so `nan`, infinities and rounding are not captured.
- The time of day a format may carry is not kept. `.days` of a non-negative time of day would
  not change the day count.
- SHA-256 is an uninterpreted function returning 64 hex digits.
- The `datetime_sheet` module imported by conversions.py:8 is not part of this model. Its
  `EPOCH` is taken to be bankdownload.py:27's 1899-12-30.
- The config-reading glue that turns `["convert_date", 0, "%Y-%m-%d"]` into a factory call is not
  part of the named operations. Config-driven converters appear as `Registry.Converter`
  variants.
- `Lower` and `Categories.MonzoCategory`'s tag test fold ASCII letters only. They do not model
  Unicode case mapping.
- `Categories.TagTableMapsBack` and `Categories.AliasesOfCategories` assume the 28 tags are
  distinct rather than proving it for the literal list. Because the source's table is built
  from a set literal, iteration order matters only when two tags coincide. For "Eating Out",
  `Categories.EatingOutCategory` and `Categories.CategoryListLayout` prove its entry without
  that assumption and for any iteration order.
- `Aggregation.Aggregator.ValidateAndAssign`: the `KeyError` that `new_rows_by_worksheet[worksheet_name]`
  could raise cannot arise, because both dictionaries gain a worksheet at the same time. The
  method is therefore proved only from states where that holds (its invariant).
- `Importer.ImportFiles` does not add new files to `existing_files` during a pass, as the source
  does not. A path the walk yields twice would be processed twice: `Importer.NewFilesRecordedOnce`
  assumes distinct paths.
- `Importer.EndToEnd` is stated for any rows and category tables meeting its preconditions. It
  does not compute the category cell of the pending record.
- The model follows the code, which:
  - stops the pass at a converter exception rather than skipping the row;
  - drops only whitespace from the lower-cased name to form a category's tag, not punctuation;
  - keeps a record carrying both a money-in and a money-out amount.
- Any exception raised by a converter or by `validate_and_assign_row` aborts the whole pass.
  The model returns the exception with the state reached, and claims nothing about skipping the
  row. No transaction rows and no processed paths are written, because the write loop comes
  after the walk. A worksheet first touched before the exception may already have been created
  with its header row and date format (bankdownload.py:205-225, called at line 335), and
  'Processed' may have been created before the walk (bankdownload.py:295). Those creations are
  spreadsheet I/O and are not modelled.
