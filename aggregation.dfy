/**
 * `validate_and_assign_row`: a converted record is kept when it has an amount and is not before
 * the cut-off date, and is then appended to the pending rows of its tax-year worksheet unless
 * that worksheet already holds its id. Each worksheet's existing ids are loaded on first touch.
 *
 * The pure specification (`Step` over an `Agg` value) comes first, then the `Aggregator` class
 * whose fields are the two dictionaries of `main`.
 */
module Aggregation {
  import opened PyCore
  import opened Worksheets
  import R = Registry

  /** A canonical transaction record: one value per worksheet column. */
  type Record = seq<Value>

  /** `value >= cut_off_date` for the value of the date column: numbers compare, anything else raises. */
  function AtOrAfter(v: Value, cutOff: int): (r: Result<bool>)
    ensures r.Err? <==> !(v.Day? || v.Amt?)
    ensures r.Err? ==> r.error == TypeError
    ensures v.Day? ==> r == Ok(v.day >= cutOff)
    ensures v.Amt? ==> r == Ok(v.amount >= cutOff as real)
  {
    match v
    case Day(d) => Ok(d >= cutOff)
    case Amt(a) => Ok(a >= cutOff as real)
    case _ => Err(TypeError)
  }

  /**
   * `valid_so_far`: a record is kept when some amount is present and its date is not before the
   * cut-off; the date is only compared when some amount is present.
   */
  function Admit(rec: Record, cutOff: int): (r: Result<bool>)
    requires |rec| > R.ID
    ensures r == Ok(true) <==>
      !(rec[R.MONEY_IN].None? && rec[R.MONEY_OUT].None?)
      && ((rec[R.DATE].Day? && rec[R.DATE].day >= cutOff) || (rec[R.DATE].Amt? && rec[R.DATE].amount >= cutOff as real))
    ensures r.Err? <==> !(rec[R.MONEY_IN].None? && rec[R.MONEY_OUT].None?) && !(rec[R.DATE].Day? || rec[R.DATE].Amt?)
    ensures r.Err? ==> r.error == TypeError
  {
    if rec[R.MONEY_IN].None? && rec[R.MONEY_OUT].None? then Ok(false)
    else AtOrAfter(rec[R.DATE], cutOff)
  }

  /** `get_worksheet_name(sheet_row[DATE])`: a fractional day count lands on the day it falls in. */
  function WorksheetOf(v: Value): (r: Result<string>)
    ensures v.Day? ==> r == WorksheetName(v.day)
    ensures v.Amt? ==> r == WorksheetName(v.amount.Floor)
    ensures !(v.Day? || v.Amt?) ==> r == Err(TypeError)
    ensures r.Err? ==> r.error == TypeError || r.error == OverflowError
  {
    match v
    case Day(d) => WorksheetName(d)
    case Amt(a) => WorksheetName(a.Floor)
    case _ => Err(TypeError)
  }

  // ----- the cut-off as `main` reads it -----

  /** `os.environ.get('CUT_OFF_DATE', 0)`: the variable's text when it is set, else the number 0. */
  function CutOffSetting(variable: Option<string>): (v: Value)
    ensures v.Str? <==> variable.Some?
    ensures variable.Nothing? ==> v == Day(0)
  {
    match variable
    case Nothing => Day(0)
    case Some(text) => Str(text)
  }

  /** Python's `a >= b` on two strings: code point by code point, a prefix being the smaller. */
  predicate StrAtLeast(a: string, b: string) {
    if b == [] then true
    else if a == [] then false
    else if a[0] != b[0] then a[0] > b[0]
    else StrAtLeast(a[1..], b[1..])
  }

  /** Python's `v >= cutOff` between two cell values: numbers with numbers, strings with strings. */
  function CompareAsWritten(v: Value, cutOff: Value): (r: Result<bool>)
    ensures r.Err? <==> !((v.Day? || v.Amt?) && (cutOff.Day? || cutOff.Amt?)) && !(v.Str? && cutOff.Str?)
    ensures r.Err? ==> r.error == TypeError
  {
    match (v, cutOff)
    case (Day(d), Day(c)) => Ok(d >= c)
    case (Day(d), Amt(c)) => Ok(d as real >= c)
    case (Amt(a), Day(c)) => Ok(a >= c as real)
    case (Amt(a), Amt(c)) => Ok(a >= c)
    case (Str(a), Str(c)) => Ok(StrAtLeast(a, c))
    case _ => Err(TypeError)
  }

  /** `valid_so_far` with the cut-off exactly as `main` holds it. */
  function AdmitAsWritten(rec: Record, cutOff: Value): (r: Result<bool>)
    requires |rec| > R.ID
    ensures rec[R.MONEY_IN].None? && rec[R.MONEY_OUT].None? ==> r == Ok(false)
    ensures r.Err? ==> r.error == TypeError && !(rec[R.MONEY_IN].None? && rec[R.MONEY_OUT].None?)
  {
    if rec[R.MONEY_IN].None? && rec[R.MONEY_OUT].None? then Ok(false)
    else CompareAsWritten(rec[R.DATE], cutOff)
  }

  /**
   * With `CUT_OFF_DATE` set, whatever its text, every record that carries an amount and a serial
   * day raises `TypeError`: the run cannot get past its first such row.
   */
  lemma CutOffFromEnvironmentRaises(rec: Record, text: string)
    requires |rec| > R.ID && !(rec[R.MONEY_IN].None? && rec[R.MONEY_OUT].None?) && rec[R.DATE].Day?
    ensures AdmitAsWritten(rec, CutOffSetting(Some(text))) == Err(TypeError)
    ensures Admit(rec, 0) == Ok(rec[R.DATE].day >= 0)
  {
  }

  /** The cut-off read as a number, as intended, is exactly `Admit`; unset, it is `Admit` with 0. */
  lemma NumericCutOffIsAdmit(rec: Record, cutOff: int)
    requires |rec| > R.ID
    ensures AdmitAsWritten(rec, Day(cutOff)) == Admit(rec, cutOff)
    ensures AdmitAsWritten(rec, CutOffSetting(Nothing)) == Admit(rec, 0)
  {
  }

  /**
   * What a run fixes before the first row: `load(w)` is the set of ids worksheet `w` holds in the
   * spreadsheet, `cutOff` is `cut_off_date`, and `sheetOf` names the worksheet of a date value
   * (`WorksheetOf` in the importer; the lemmas below hold for any naming).
   */
  datatype Env = Env(load: string -> set<Value>, cutOff: int, sheetOf: Value -> Result<string>)

  /** `existing_ids_by_worksheet` and `new_rows_by_worksheet`. */
  datatype Agg = Agg(ids: map<string, set<Value>>, rows: map<string, seq<Record>>)

  /** The state after the first touch of worksheet `w` (nothing changes on a later touch). */
  function Touch(load: string -> set<Value>, s: Agg, w: string): (t: Agg)
    ensures w in t.ids
    ensures w in s.ids ==> t == s
    ensures w !in s.ids ==> t == Agg(s.ids[w := load(w)], s.rows[w := []])
  {
    if w in s.ids then s else Agg(s.ids[w := load(w)], s.rows[w := []])
  }

  /** One call of `validate_and_assign_row(rec)` on state `s`. */
  function Step(env: Env, s: Agg, rec: Record): (r: Result<Agg>)
    requires |rec| > R.ID
    ensures Admit(rec, env.cutOff) == Ok(false) ==> r == Ok(s)
    ensures r.Err? ==> r.error == TypeError || r.error == KeyError || env.sheetOf(rec[R.DATE]) == Err(r.error)
    ensures r.Ok? && Admit(rec, env.cutOff) == Ok(true) ==>
      env.sheetOf(rec[R.DATE]).Ok? && env.sheetOf(rec[R.DATE]).value in r.value.ids
      && rec[R.ID] in r.value.ids[env.sheetOf(rec[R.DATE]).value]
  {
    var valid :- Admit(rec, env.cutOff);
    if !valid then Ok(s)
    else
      var w :- env.sheetOf(rec[R.DATE]);
      Place(env.load, s, rec, w)
  }

  /** The second half of `validate_and_assign_row`, once the record is valid and its worksheet `w` known. */
  function Place(load: string -> set<Value>, s: Agg, rec: Record, w: string): (r: Result<Agg>)
    requires |rec| > R.ID
    ensures r.Err? <==> w in s.ids && w !in s.rows && rec[R.ID] !in s.ids[w]
    ensures r.Err? ==> r.error == KeyError
    ensures r.Ok? ==> w in r.value.ids && rec[R.ID] in r.value.ids[w]
  {
    var t := Touch(load, s, w);
    if rec[R.ID] in t.ids[w] then Ok(t)
    else if w !in t.rows then Err(KeyError)
    else Ok(Agg(t.ids[w := t.ids[w] + {rec[R.ID]}], t.rows[w := t.rows[w] + [rec]]))
  }

  // ----- the state as the rest of the program sees it -----

  /** The ids worksheet `w` counts as holding: those loaded and added so far, or the sheet's own. */
  function IdsOf(load: string -> set<Value>, s: Agg, w: string): set<Value> {
    if w in s.ids then s.ids[w] else load(w)
  }

  /** The rows pending for worksheet `w`. */
  function RowsOf(s: Agg, w: string): seq<Record> {
    if w in s.rows then s.rows[w] else []
  }

  predicate KeysAgree(s: Agg) {
    s.ids.Keys == s.rows.Keys
  }

  /** The record is admitted, belongs to worksheet `w` and its id is new there. */
  predicate Accepted(env: Env, s: Agg, rec: Record, w: string)
    requires |rec| > R.ID
  {
    Admit(rec, env.cutOff) == Ok(true) && env.sheetOf(rec[R.DATE]) == Ok(w) && rec[R.ID] !in IdsOf(env.load, s, w)
  }

  /** The ids of some pending rows. */
  function IdSet(rows: seq<Record>): set<Value> {
    set k | 0 <= k < |rows| && |rows[k]| > R.ID :: rows[k][R.ID]
  }

  /**
   * What the importer keeps true of its two dictionaries: every touched worksheet's id set is
   * the loaded ids plus those of its pending rows; pending rows have distinct ids, none of them
   * already in the sheet; and every pending row was admitted and belongs to its worksheet.
   */
  ghost predicate Inv(env: Env, s: Agg) {
    KeysAgree(s)
    && forall w :: w in s.rows ==> RowsInv(env, w, s.rows[w]) && s.ids[w] == env.load(w) + IdSet(s.rows[w])
  }

  ghost predicate RowsInv(env: Env, w: string, rows: seq<Record>) {
    (forall k :: 0 <= k < |rows| ==>
      |rows[k]| > R.ID && Admit(rows[k], env.cutOff) == Ok(true) && env.sheetOf(rows[k][R.DATE]) == Ok(w)
      && rows[k][R.ID] !in env.load(w))
    && forall i, j :: 0 <= i < j < |rows| ==> rows[i][R.ID] != rows[j][R.ID]
  }

  // ----- lemmas about one step -----

  /** Placing into `w0` appends the record there when its id is new there, and touches nothing else. */
  lemma PlaceEffect(load: string -> set<Value>, s: Agg, rec: Record, w0: string, w: string)
    requires |rec| > R.ID && KeysAgree(s)
    ensures Place(load, s, rec, w0).Ok?
    ensures var t := Place(load, s, rec, w0).value;
      var isNew := w == w0 && rec[R.ID] !in IdsOf(load, s, w0);
      KeysAgree(t) && w0 in t.ids
      && RowsOf(t, w) == (if isNew then RowsOf(s, w) + [rec] else RowsOf(s, w))
      && IdsOf(load, t, w) == IdsOf(load, s, w) + (if isNew then {rec[R.ID]} else {})
  {
    var t1 := Touch(load, s, w0);
    assert IdsOf(load, t1, w) == IdsOf(load, s, w) && RowsOf(t1, w) == RowsOf(s, w) && KeysAgree(t1);
  }

  /** An admitted record of worksheet `w` is appended there exactly when its id is new there. */
  lemma StepEffect(env: Env, s: Agg, rec: Record, w: string)
    requires |rec| > R.ID && KeysAgree(s)
    requires Step(env, s, rec).Ok?
    ensures var t := Step(env, s, rec).value;
      KeysAgree(t)
      && RowsOf(t, w) == (if Accepted(env, s, rec, w) then RowsOf(s, w) + [rec] else RowsOf(s, w))
      && IdsOf(env.load, t, w) == IdsOf(env.load, s, w) + (if Accepted(env, s, rec, w) then {rec[R.ID]} else {})
  {
    if Admit(rec, env.cutOff) == Ok(true) {
      PlaceEffect(env.load, s, rec, env.sheetOf(rec[R.DATE]).value, w);
    }
  }

  /** A step only adds worksheets and ids. */
  lemma StepGrows(env: Env, s: Agg, rec: Record)
    requires |rec| > R.ID
    requires Step(env, s, rec).Ok?
    ensures var t := Step(env, s, rec).value;
      s.ids.Keys <= t.ids.Keys && forall w :: w in s.ids ==> s.ids[w] <= t.ids[w]
  {
    if Admit(rec, env.cutOff) == Ok(true) {
      var w0 := env.sheetOf(rec[R.DATE]).value;
      var t1 := Touch(env.load, s, w0);
      if rec[R.ID] !in t1.ids[w0] {
        assert Place(env.load, s, rec, w0)
            == Ok(Agg(t1.ids[w0 := t1.ids[w0] + {rec[R.ID]}], t1.rows[w0 := t1.rows[w0] + [rec]]));
      }
    }
  }

  /**
   * Whether a step raises depends on the record alone: a date that cannot be compared raises
   * `TypeError`, and otherwise the error is the worksheet naming's.
   */
  lemma StepErrors(env: Env, s: Agg, rec: Record)
    requires |rec| > R.ID && KeysAgree(s)
    ensures Step(env, s, rec).Err? <==>
      Admit(rec, env.cutOff).Err? || (Admit(rec, env.cutOff) == Ok(true) && env.sheetOf(rec[R.DATE]).Err?)
    ensures Step(env, s, rec).Err? ==>
      Step(env, s, rec).error == (if Admit(rec, env.cutOff).Err? then TypeError else env.sheetOf(rec[R.DATE]).error)
  {
  }

  /** After an accepted or duplicate record, its id is in its worksheet's set. */
  lemma StepRecordsId(env: Env, s: Agg, rec: Record)
    requires |rec| > R.ID && KeysAgree(s)
    requires Step(env, s, rec).Ok? && Admit(rec, env.cutOff) == Ok(true)
    ensures env.sheetOf(rec[R.DATE]).Ok?
    ensures var t := Step(env, s, rec).value;
      var w := env.sheetOf(rec[R.DATE]).value;
      w in t.ids && rec[R.ID] in t.ids[w]
  {
  }

  lemma IdSetSnoc(rows: seq<Record>, rec: Record)
    requires |rec| > R.ID
    ensures IdSet(rows + [rec]) == IdSet(rows) + {rec[R.ID]}
  {
    var xs := rows + [rec];
    assert xs[|rows|] == rec;
    forall v | v in IdSet(xs) ensures v in IdSet(rows) + {rec[R.ID]} {
      var k :| 0 <= k < |xs| && |xs[k]| > R.ID && xs[k][R.ID] == v;
      if k < |rows| {
        assert xs[k] == rows[k];
      }
    }
    forall v | v in IdSet(rows) ensures v in IdSet(xs) {
      var k :| 0 <= k < |rows| && |rows[k]| > R.ID && rows[k][R.ID] == v;
      assert xs[k] == rows[k];
    }
  }

  lemma RowsInvSnoc(env: Env, w: string, rows: seq<Record>, rec: Record)
    requires RowsInv(env, w, rows)
    requires |rec| > R.ID && Admit(rec, env.cutOff) == Ok(true) && env.sheetOf(rec[R.DATE]) == Ok(w)
    requires rec[R.ID] !in env.load(w) + IdSet(rows)
    ensures RowsInv(env, w, rows + [rec])
  {
    var xs := rows + [rec];
    forall i, j | 0 <= i < j < |xs| ensures xs[i][R.ID] != xs[j][R.ID] {
      assert xs[i] == rows[i];
      if j < |rows| {
        assert xs[j] == rows[j];
      } else {
        assert rows[i][R.ID] in IdSet(rows);
      }
    }
  }

  lemma TouchPreservesInv(env: Env, s: Agg, w: string)
    requires Inv(env, s)
    ensures Inv(env, Touch(env.load, s, w))
  {
    var t := Touch(env.load, s, w);
    if w !in s.ids {
      forall v | v in t.rows
        ensures RowsInv(env, v, t.rows[v]) && t.ids[v] == env.load(v) + IdSet(t.rows[v])
      {
        if v == w {
          assert IdSet([]) == {};
        } else {
          assert t.rows[v] == s.rows[v] && t.ids[v] == s.ids[v];
        }
      }
    }
  }

  lemma AppendPreservesInv(env: Env, t: Agg, rec: Record, w: string)
    requires |rec| > R.ID && Inv(env, t)
    requires Admit(rec, env.cutOff) == Ok(true) && env.sheetOf(rec[R.DATE]) == Ok(w)
    requires w in t.rows && rec[R.ID] !in t.ids[w]
    ensures Inv(env, Agg(t.ids[w := t.ids[w] + {rec[R.ID]}], t.rows[w := t.rows[w] + [rec]]))
  {
    var u := Agg(t.ids[w := t.ids[w] + {rec[R.ID]}], t.rows[w := t.rows[w] + [rec]]);
    forall v | v in u.rows
      ensures RowsInv(env, v, u.rows[v]) && u.ids[v] == env.load(v) + IdSet(u.rows[v])
    {
      if v == w {
        IdSetSnoc(t.rows[w], rec);
        RowsInvSnoc(env, w, t.rows[w], rec);
      } else {
        assert u.rows[v] == t.rows[v] && u.ids[v] == t.ids[v];
      }
    }
  }

  /** Placing an admitted record into its own worksheet keeps the invariant. */
  lemma PlacePreservesInv(env: Env, s: Agg, rec: Record, w: string)
    requires |rec| > R.ID && Inv(env, s)
    requires Admit(rec, env.cutOff) == Ok(true) && env.sheetOf(rec[R.DATE]) == Ok(w)
    ensures Place(env.load, s, rec, w).Ok?
    ensures Inv(env, Place(env.load, s, rec, w).value)
  {
    var t := Touch(env.load, s, w);
    TouchPreservesInv(env, s, w);
    if rec[R.ID] !in t.ids[w] {
      AppendPreservesInv(env, t, rec, w);
    }
  }

  /** Every step keeps the invariant of the two dictionaries. */
  lemma StepPreservesInv(env: Env, s: Agg, rec: Record)
    requires |rec| > R.ID && Inv(env, s)
    requires Step(env, s, rec).Ok?
    ensures Inv(env, Step(env, s, rec).value)
  {
    if Admit(rec, env.cutOff) == Ok(true) {
      PlacePreservesInv(env, s, rec, env.sheetOf(rec[R.DATE]).value);
    }
  }

  /** Processing the same record again changes nothing: duplicates within one run are caught. */
  lemma StepIdempotent(env: Env, s: Agg, rec: Record)
    requires |rec| > R.ID
    requires Step(env, s, rec).Ok?
    ensures Step(env, Step(env, s, rec).value, rec) == Step(env, s, rec)
  {
  }

  /** The same id is accepted into two different worksheets: deduplication is per worksheet. */
  lemma SameIdTwoWorksheets(env: Env, s: Agg, r1: Record, r2: Record, w1: string, w2: string)
    requires |r1| > R.ID && |r2| > R.ID && KeysAgree(s)
    requires r1[R.ID] == r2[R.ID] && w1 != w2
    requires Accepted(env, s, r1, w1) && Accepted(env, s, r2, w2)
    requires Step(env, s, r1).Ok?
    ensures var t := Step(env, s, r1).value;
      Step(env, t, r2).Ok?
      && RowsOf(t, w1) == RowsOf(s, w1) + [r1]
      && RowsOf(Step(env, t, r2).value, w2) == RowsOf(s, w2) + [r2]
  {
    var t := Step(env, s, r1).value;
    StepEffect(env, s, r1, w1);
    StepEffect(env, s, r1, w2);
    assert Accepted(env, t, r2, w2);
    StepEffect(env, t, r2, w2);
  }

  // ----- absorbed records, for re-runs -----

  /** A record the state already accounts for: processing it again changes nothing. */
  predicate Absorbed(env: Env, s: Agg, rec: Record)
    requires |rec| > R.ID
  {
    Step(env, s, rec) == Ok(s)
  }

  /** An admitted record is absorbed exactly when its worksheet was touched and holds its id. */
  lemma AbsorbedMeans(env: Env, s: Agg, rec: Record)
    requires |rec| > R.ID && Admit(rec, env.cutOff) == Ok(true) && env.sheetOf(rec[R.DATE]).Ok?
    ensures var w := env.sheetOf(rec[R.DATE]).value;
      Absorbed(env, s, rec) <==> w in s.ids && rec[R.ID] in s.ids[w]
  {
    var w := env.sheetOf(rec[R.DATE]).value;
    if w !in s.ids {
      assert Touch(env.load, s, w).ids.Keys != s.ids.Keys;
    } else if rec[R.ID] !in s.ids[w] && w in s.rows {
      assert Place(env.load, s, rec, w).value.rows[w] == s.rows[w] + [rec];
    }
  }

  /** A record stays absorbed whatever other records are processed afterwards. */
  lemma AbsorbedStable(env: Env, s: Agg, rec: Record, other: Record)
    requires |rec| > R.ID && |other| > R.ID
    requires Absorbed(env, s, rec) && Step(env, s, other).Ok?
    ensures Absorbed(env, Step(env, s, other).value, rec)
  {
    var t := Step(env, s, other).value;
    if Admit(rec, env.cutOff) == Ok(true) {
      AbsorbedMeans(env, s, rec);
      StepGrows(env, s, other);
      AbsorbedMeans(env, t, rec);
    }
  }

  // ----- the class -----

  /** The state `main` keeps across files while validating and assigning rows. */
  class Aggregator {
    /** The sheet's ids, the cut-off date and the worksheet naming of this run. */
    const env: Env
    /** `existing_ids_by_worksheet` */
    var existingIds: map<string, set<Value>>
    /** `new_rows_by_worksheet` */
    var newRows: map<string, seq<Record>>

    function State(): Agg
      reads this
    {
      Agg(existingIds, newRows)
    }

    ghost predicate Valid()
      reads this
    {
      Inv(env, State())
    }

    constructor(env: Env)
      ensures this.env == env
      ensures State() == Agg(map[], map[]) && Valid()
    {
      this.env := env;
      existingIds := map[];
      newRows := map[];
    }

    /** `validate_and_assign_row(rec)`; on an exception the dictionaries are as they were. */
    method ValidateAndAssign(rec: Record) returns (err: Option<PyError>)
      requires |rec| > R.ID && Valid()
      modifies this
      ensures Valid()
      ensures match Step(env, old(State()), rec)
        case Ok(t) => err == Nothing && State() == t
        case Err(e) => err == Some(e) && State() == old(State())
    {
      var valid := false;
      if !(rec[R.MONEY_IN].None? && rec[R.MONEY_OUT].None?) {
        var atOrAfter := AtOrAfter(rec[R.DATE], env.cutOff);
        if atOrAfter.Err? {
          return Some(atOrAfter.error);
        }
        valid := atOrAfter.value;
      }
      if valid {
        var name := env.sheetOf(rec[R.DATE]);
        if name.Err? {
          return Some(name.error);
        }
        var w := name.value;
        if w !in existingIds {
          existingIds := existingIds[w := env.load(w)];
          newRows := newRows[w := []];
        }
        if rec[R.ID] !in existingIds[w] {
          if w !in newRows {
            return Some(KeyError);
          }
          newRows := newRows[w := newRows[w] + [rec]];
          existingIds := existingIds[w := existingIds[w] + {rec[R.ID]}];
        }
      }
      StepPreservesInv(env, old(State()), rec);
      return Nothing;
    }
  }
}
