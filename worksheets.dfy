/**
 * `get_worksheet_name`: the transactions worksheet of a spreadsheet serial day, one worksheet
 * per tax year running from April 1 to March 31.
 */
module Worksheets {
  import opened PyCore
  import opened Calendar

  function DigitChar(d: int): (c: char)
    requires 0 <= d < 10
    ensures '0' <= c <= '9'
  {
    ('0' as int + d) as char
  }

  /** The decimal text of `n`, as an f-string formats a non-negative `int`. */
  function NatStr(n: nat): (s: string)
    ensures s != []
    ensures forall k :: 0 <= k < |s| ==> '0' <= s[k] <= '9'
    ensures s[0] == '0' ==> n == 0
  {
    if n < 10 then [DigitChar(n)] else NatStr(n / 10) + [DigitChar(n % 10)]
  }

  /** The value of a string of decimal digits. */
  function DecimalValue(s: string): nat
    requires forall k :: 0 <= k < |s| ==> '0' <= s[k] <= '9'
  {
    if s == [] then 0
    else DecimalValue(s[..|s| - 1]) * 10 + (s[|s| - 1] as int - '0' as int)
  }

  /** The name of the worksheet of the tax year starting in `year`. */
  function Label(year: nat): string {
    "Transactions " + NatStr(year) + "/" + NatStr(year + 1)
  }

  /**
   * The tax year of ordinal `n`: the calendar year of its date, less one when the date falls
   * before April 1 of that year.
   */
  function TaxYear(n: int): (y: nat)
    requires 1 <= n <= MaxOrdinal
    ensures Ordinal(Date(y, 4, 1)) <= n < Ordinal(Date(y + 1, 4, 1))
  {
    var d := FromOrdinal(n);
    if Before(d, Date(d.year, 4, 1)) then
      BeforeAprilBounds(d);
      d.year - 1
    else
      FromAprilBounds(d);
      d.year
  }

  /**
   * `get_worksheet_name(sheet_date)`: adding the serial day to the epoch overflows outside the
   * years 1 to 9999; otherwise the name of the worksheet of that day's tax year.
   */
  function WorksheetName(serial: int): (r: Result<string>)
    ensures r.Err? <==> !(1 <= serial + EpochOrdinal <= MaxOrdinal)
    ensures r.Err? ==> r.error == OverflowError
    ensures r.Ok? ==> StartsWith(r.value, "Transactions ")
  {
    var n := serial + EpochOrdinal;
    if 1 <= n <= MaxOrdinal then Ok(Label(TaxYear(n))) else Err(OverflowError)
  }

  // ----- lemmas -----

  /** A date before April 1 lies in the tax year that started on April 1 of the year before. */
  lemma BeforeAprilBounds(d: Date)
    requires Valid(d) && Before(d, Date(d.year, 4, 1))
    ensures Ordinal(Date(d.year - 1, 4, 1)) <= Ordinal(d) < Ordinal(Date(d.year, 4, 1))
  {
    OrdinalMonotone(d, Date(d.year, 4, 1));
    DaysBeforeYearStep(d.year - 1);
    assert Ordinal(d) > DaysBeforeYear(d.year);
  }

  /** A date from April 1 on lies in the tax year that started on April 1 of its own year. */
  lemma FromAprilBounds(d: Date)
    requires Valid(d) && !Before(d, Date(d.year, 4, 1))
    ensures Ordinal(Date(d.year, 4, 1)) <= Ordinal(d) < Ordinal(Date(d.year + 1, 4, 1))
  {
    if d != Date(d.year, 4, 1) {
      OrdinalMonotone(Date(d.year, 4, 1), d);
    }
    OrdinalWithinYear(d);
  }

  /** Later years start their tax year later. */
  lemma AprilFirstMonotone(a: int, b: int)
    requires a < b
    ensures Ordinal(Date(a + 1, 4, 1)) <= Ordinal(Date(b, 4, 1))
  {
    if a + 1 < b {
      DaysBeforeYearMonotone(a + 1, b);
    }
  }

  /** Ordinal `n` lies in tax year `y` exactly when it falls between April 1 of `y` and April 1 of `y + 1`. */
  lemma TaxYearInterval(n: int, y: int)
    requires 1 <= n <= MaxOrdinal
    ensures TaxYear(n) == y <==> Ordinal(Date(y, 4, 1)) <= n < Ordinal(Date(y + 1, 4, 1))
  {
    var t := TaxYear(n);
    if y < t {
      AprilFirstMonotone(y, t);
    } else if t < y {
      AprilFirstMonotone(t, y);
    }
  }

  /** The worksheet of a date's serial day is named for the date's tax year. */
  lemma WorksheetNameOfDate(d: Date)
    requires Valid(d)
    ensures WorksheetName(Ordinal(d) - EpochOrdinal)
         == Ok(Label(if Before(d, Date(d.year, 4, 1)) then d.year - 1 else d.year))
  {
    FromOrdinalOfOrdinal(d);
  }

  /** April 1 of `y` opens the worksheet of `y`. */
  lemma AprilFirstOpensYear(y: int)
    requires 1 <= y <= 9999
    ensures WorksheetName(Ordinal(Date(y, 4, 1)) - EpochOrdinal) == Ok(Label(y))
  {
    var d := Date(y, 4, 1);
    assert Valid(d) && !Before(d, d);
    WorksheetNameOfDate(d);
  }

  /** March 31 of `y`, the day before April 1, still belongs to the worksheet of `y - 1`. */
  lemma MarchLastClosesYear(y: int)
    requires 1 <= y <= 9999
    ensures Ordinal(Date(y, 3, 31)) + 1 == Ordinal(Date(y, 4, 1))
    ensures WorksheetName(Ordinal(Date(y, 3, 31)) - EpochOrdinal) == Ok(Label(y - 1))
  {
    var d := Date(y, 3, 31);
    assert Valid(d) && Before(d, Date(y, 4, 1));
    WorksheetNameOfDate(d);
  }

  lemma {:induction false} DecimalValueOfNatStr(n: nat)
    ensures DecimalValue(NatStr(n)) == n
  {
    if n >= 10 {
      var s := NatStr(n / 10) + [DigitChar(n % 10)];
      assert s[..|s| - 1] == NatStr(n / 10);
      DecimalValueOfNatStr(n / 10);
    }
  }

  lemma NatStrInjective(a: nat, b: nat)
    requires NatStr(a) == NatStr(b)
    ensures a == b
  {
    DecimalValueOfNatStr(a);
    DecimalValueOfNatStr(b);
  }

  /** The first slash after a string of digits is the one that ends it. */
  lemma FirstSlash(x: string, u: string)
    requires forall k :: 0 <= k < |x| ==> '0' <= x[k] <= '9'
    ensures (x + "/" + u)[|x|] == '/'
    ensures forall k :: 0 <= k < |x| ==> (x + "/" + u)[k] != '/'
  {
  }

  /** Two digit strings followed by a slash agree when the texts agree. */
  lemma DigitsBeforeSlash(x: string, u: string, y: string, v: string)
    requires forall k :: 0 <= k < |x| ==> '0' <= x[k] <= '9'
    requires forall k :: 0 <= k < |y| ==> '0' <= y[k] <= '9'
    requires x + "/" + u == y + "/" + v
    ensures x == y
  {
    var t := x + "/" + u;
    FirstSlash(x, u);
    FirstSlash(y, v);
    if |x| != |y| {
      assert false;
    }
    assert x == t[..|x|] == y;
  }

  /** Different tax years get different worksheet names. */
  lemma LabelInjective(a: nat, b: nat)
    requires Label(a) == Label(b)
    ensures a == b
  {
    var p := "Transactions ";
    var ta := NatStr(a) + "/" + NatStr(a + 1);
    var tb := NatStr(b) + "/" + NatStr(b + 1);
    assert Label(a) == p + ta && Label(b) == p + tb;
    assert ta == Label(a)[|p|..] == Label(b)[|p|..] == tb;
    DigitsBeforeSlash(NatStr(a), NatStr(a + 1), NatStr(b), NatStr(b + 1));
    NatStrInjective(a, b);
  }

  /** The tax year starting in April 2023 is kept on the worksheet "Transactions 2023/2024". */
  lemma Label2023()
    ensures Label(2023) == "Transactions 2023/2024"
  {
    assert NatStr(2) == "2";
    assert NatStr(20) == "20";
    assert NatStr(202) == "202";
    assert NatStr(2023) == "2023";
    assert NatStr(2024) == "2024";
  }

  /** Two serial days share a worksheet exactly when they share a tax year. */
  lemma SameWorksheetIff(s: int, t: int)
    requires 1 <= s + EpochOrdinal <= MaxOrdinal && 1 <= t + EpochOrdinal <= MaxOrdinal
    ensures WorksheetName(s) == WorksheetName(t) <==> TaxYear(s + EpochOrdinal) == TaxYear(t + EpochOrdinal)
  {
    if WorksheetName(s) == WorksheetName(t) {
      LabelInjective(TaxYear(s + EpochOrdinal), TaxYear(t + EpochOrdinal));
    }
  }
}
