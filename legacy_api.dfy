/** The earlier persistence service (src/api.rs): habits carry a label and a question label,
    `create_habit` and `update_habit` return the number of rows changed, and entry requests
    carry the habit id as a string. The `HabitType` codec is the same as the later one and
    is shared with `HabitTrackerApi`. */
module LegacyApi {
  import opened Wrappers
  import opened LocalTime
  import opened Seqs
  import opened HabitTrackerApi

  datatype LegacyHabitRow = LegacyHabitRow(id: int, habitType: SqlValue, labelText: string, questionLabel: string)

  /** A `habitEntry` row; `habitId` is the value SQLite stored for the bound string. */
  datatype LegacyEntryRow = LegacyEntryRow(id: int, completed: bool, date: Instant, habitId: SqlValue)

  datatype LegacyHabit = LegacyHabit(id: int, habitType: HabitType, labelText: string, questionLabel: string)

  /** The entry record as src/api.rs declares it: the habit id is a `String`. */
  datatype LegacyHabitEntry = LegacyHabitEntry(id: int, habitId: string, completed: bool, date: Instant)

  /** The entry record with the habit id read as an integer, as the later service does. */
  datatype HabitEntryRecord = HabitEntryRecord(id: int, habitId: int, completed: bool, date: Instant)

  datatype LegacyCreateHabitRequest = LegacyCreateHabitRequest(habitType: HabitType, labelText: string, questionLabel: string)

  datatype LegacyUpdateHabitRequest = LegacyUpdateHabitRequest(habitId: string, habitType: HabitType, labelText: string, questionLabel: string)

  datatype UpsertHabitEntryItem = UpsertHabitEntryItem(habitId: string, completed: bool)

  // ---------------------------------------------------------------- SQLite's numeric affinity

  predicate IsDigit(c: char)
  {
    '0' <= c <= '9'
  }

  predicate AllDigits(s: string)
  {
    forall i :: 0 <= i < |s| ==> IsDigit(s[i])
  }

  /** The value of a string of decimal digits. */
  function DecimalValue(s: string): nat
    requires AllDigits(s)
  {
    if s == [] then 0
    else
      assert IsDigit(s[|s| - 1]);
      10 * DecimalValue(s[..|s| - 1]) + (s[|s| - 1] as int - '0' as int)
  }

  function Pow10(n: nat): (r: nat)
    ensures r >= 1
  {
    if n == 0 then 1 else 10 * Pow10(n - 1)
  }

  /** The white space SQLite skips before and after a number. */
  predicate IsSqlSpace(c: char)
  {
    c == ' ' || c == '\t' || c == '\n' || c == '\U{000B}' || c == '\U{000C}' || c == '\r'
  }

  /** `s` without its leading and trailing white space. */
  function TrimSpaces(s: string): (r: string)
    ensures |r| <= |s|
    ensures r != [] ==> !IsSqlSpace(r[0]) && !IsSqlSpace(r[|r| - 1])
    decreases |s|
  {
    if s != [] && IsSqlSpace(s[0]) then TrimSpaces(s[1..])
    else if s != [] && IsSqlSpace(s[|s| - 1]) then TrimSpaces(s[..|s| - 1])
    else s
  }

  /** The end of the run of decimal digits that starts at `i`. */
  function DigitsEnd(s: string, i: nat): (j: nat)
    requires i <= |s|
    ensures i <= j <= |s| && AllDigits(s[i..j]) && (j < |s| ==> !IsDigit(s[j]))
    decreases |s| - i
  {
    if i < |s| && IsDigit(s[i]) then
      var j := DigitsEnd(s, i + 1);
      assert forall k :: 0 < k < j - i ==> s[i..j][k] == s[i + 1..j][k - 1];
      j
    else i
  }

  /** A decimal number as SQLite reads it from text: its sign, the value of the digits of
      its mantissa with the decimal point removed, the power of ten that scales them, and whether it was
      written as a plain integer (no point, no exponent). */
  datatype NumericLiteral = NumericLiteral(negative: bool, mantissa: nat, exponent: int, plainInteger: bool)

  /** The exact value a literal denotes. */
  function LiteralValue(l: NumericLiteral): real
  {
    var magnitude := if l.exponent >= 0 then (l.mantissa * Pow10(l.exponent)) as real
                     else l.mantissa as real / Pow10(-l.exponent) as real;
    if l.negative then -magnitude else magnitude
  }

  /** The text as a number when the whole of it, white space around it aside, is one: an
      optional sign, digits with at most one decimal point and at least one digit, and an
      optional exponent. */
  function ParseNumericLiteral(s: string): Option<NumericLiteral>
  {
    ParseTrimmed(TrimSpaces(s))
  }

  function ParseTrimmed(t: string): Option<NumericLiteral>
  {
    var a := SignEnd(t);
    var b := DigitsEnd(t, a);
    var c := FractionStart(t, b);
    var d := DigitsEnd(t, c);
    if b - a + (d - c) == 0 then None
    else match ExponentSuffix(t, d)
      case None => None
      case Some(e) => Some(NumericLiteral(Negative(t), Mantissa(t, a, b, c, d), e - (d - c), c == b && d == |t|))
  }

  function SignEnd(t: string): (a: nat)
    ensures a <= |t|
  {
    if |t| > 0 && (t[0] == '+' || t[0] == '-') then 1 else 0
  }

  predicate Negative(t: string)
  {
    |t| > 0 && t[0] == '-'
  }

  function FractionStart(t: string, b: nat): (c: nat)
    requires b <= |t|
    ensures b <= c <= |t|
  {
    if b < |t| && t[b] == '.' then b + 1 else b
  }

  function Mantissa(t: string, a: nat, b: nat, c: nat, d: nat): nat
    requires a <= b <= c <= d <= |t| && AllDigits(t[a..b]) && AllDigits(t[c..d])
  {
    DecimalValue(t[a..b]) * Pow10(d - c) + DecimalValue(t[c..d])
  }

  /** The exponent `t[d..]` writes: none (zero) when it is empty, otherwise `e` or `E`, an
      optional sign and at least one digit up to the end. */
  function ExponentSuffix(t: string, d: nat): Option<int>
    requires d <= |t|
  {
    if d == |t| then Some(0)
    else if t[d] == 'e' || t[d] == 'E' then
      var signed := d + 1 < |t| && (t[d + 1] == '+' || t[d + 1] == '-');
      var f := if signed then d + 2 else d + 1;
      var g := DigitsEnd(t, f);
      if f < g == |t| then
        var e: int := DecimalValue(t[f..g]);
        Some(if signed && t[d + 1] == '-' then -e else e)
      else None
    else None
  }

  const MinInt64: int := -0x8000_0000_0000_0000
  const MaxInt64: int := 0x7FFF_FFFF_FFFF_FFFF

  /** The value SQLite stores when text is bound to a column of INTEGER affinity. */
  function IntegerAffinity(s: string): SqlValue
  {
    match ParseNumericLiteral(s)
    case None => SqlText(s)
    case Some(l) =>
      var v := LiteralValue(l);
      var n := v.Floor;
      if n as real == v && (if l.plainInteger then MinInt64 <= n <= MaxInt64 else MinInt64 < n < MaxInt64) then SqlInteger(n)
      else SqlReal(v)
  }

  /** Text that is not a number stays text; a number keeps its value, stored as an integer
      when that value is one that fits 64 bits (a plain integer may use the whole range, a
      number written with a point or an exponent converts only strictly inside it) and as a
      real otherwise. */
  lemma IntegerAffinitySpec(s: string)
    ensures IntegerAffinity(s).SqlText? <==> ParseNumericLiteral(s).None?
    ensures IntegerAffinity(s).SqlText? ==> IntegerAffinity(s).text == s
    ensures IntegerAffinity(s).SqlInteger? ==>
      IntegerAffinity(s).i as real == LiteralValue(ParseNumericLiteral(s).value) && MinInt64 <= IntegerAffinity(s).i <= MaxInt64
    ensures IntegerAffinity(s).SqlReal? ==> IntegerAffinity(s).r == LiteralValue(ParseNumericLiteral(s).value)
    ensures !IntegerAffinity(s).SqlNull? && !IntegerAffinity(s).SqlBlob?
    ensures ParseNumericLiteral(s).Some? ==>
      var v := LiteralValue(ParseNumericLiteral(s).value);
      v.Floor as real == v && MinInt64 < v.Floor < MaxInt64 ==> IntegerAffinity(s) == SqlInteger(v.Floor)
  {
  }

  /** A run of decimal digits reads as a plain integer with that value. */
  lemma ParseDigitText(s: string)
    requires |s| > 0 && AllDigits(s)
    ensures ParseNumericLiteral(s) == Some(NumericLiteral(false, DecimalValue(s), 0, true))
  {
    TrimUnpadded(s);
    ParseTrimmedDigitText(s);
  }

  lemma TrimUnpadded(s: string)
    requires |s| > 0 && !IsSqlSpace(s[0]) && !IsSqlSpace(s[|s| - 1])
    ensures TrimSpaces(s) == s
  {
  }

  lemma ParseTrimmedDigitText(s: string)
    requires |s| > 0 && AllDigits(s)
    ensures ParseTrimmed(s) == Some(NumericLiteral(false, DecimalValue(s), 0, true))
  {
    assert SignEnd(s) == 0 && !Negative(s) by { assert IsDigit(s[0]); }
    assert DigitsEnd(s, 0) == |s|;
    assert ExponentSuffix(s, |s|) == Some(0);
    assert Mantissa(s, 0, |s|, |s|, |s|) == DecimalValue(s) by {
      assert s[0..|s|] == s && s[|s|..|s|] == [];
    }
    assert ParseTrimmed(s).value.exponent == 0;
  }

  /** A run of decimal digits whose value fits 64 bits is stored as that integer. */
  lemma DigitTextAffinity(s: string)
    requires |s| > 0 && AllDigits(s) && DecimalValue(s) <= MaxInt64
    ensures IntegerAffinity(s) == SqlInteger(DecimalValue(s))
  {
    ParseDigitText(s);
    assert LiteralValue(NumericLiteral(false, DecimalValue(s), 0, true)) == DecimalValue(s) as real;
  }

  /** Signs, white space, points and exponents take part; a number that is not an integer
      is stored as a real, and text that is not a whole number stays text. */
  lemma IntegerAffinitySamples()
    ensures IntegerAffinity("-1") == SqlInteger(-1)
    ensures IntegerAffinity(" +7 ") == SqlInteger(7)
    ensures IntegerAffinity("1.0") == SqlInteger(1)
    ensures IntegerAffinity("3e2") == SqlInteger(300)
    ensures IntegerAffinity("3.0e+5") == SqlInteger(300000)
    ensures IntegerAffinity("1.5") == SqlReal(1.5)
    ensures IntegerAffinity("1e") == SqlText("1e")
    ensures IntegerAffinity("abc") == SqlText("abc")
  {
    AffinityOfNegativeOne();
    AffinityOfSignedSevenInSpaces();
    AffinityOfOnePointZero();
    AffinityOfThreeE2();
    AffinityOfSignedExponent();
    AffinityOfOnePointFive();
    AffinityOfMissingExponent();
    AffinityOfWord();
  }

  lemma DigitValues()
    ensures DecimalValue("1") == 1 && DecimalValue("3") == 3 && DecimalValue("7") == 7
    ensures DecimalValue("10") == 10 && DecimalValue("15") == 15 && DecimalValue("2") == 2
  {
    assert "1"[..0] == [] && "3"[..0] == [] && "7"[..0] == [] && "2"[..0] == [];
    assert "10"[..1] == "1" && "15"[..1] == "1";
  }

  /** A sign followed by a run of decimal digits reads as a plain integer. */
  lemma ParseSignedDigitText(s: string)
    requires |s| > 1 && (s[0] == '+' || s[0] == '-') && AllDigits(s[1..])
    ensures ParseNumericLiteral(s) == Some(NumericLiteral(s[0] == '-', DecimalValue(s[1..]), 0, true))
  {
    assert TrimSpaces(s) == s by { assert IsDigit(s[1..][|s| - 2]); }
    assert SignEnd(s) == 1;
    assert DigitsEnd(s, 1) == |s| by { assert forall k :: 1 <= k < |s| ==> s[k] == s[1..][k - 1]; }
    assert ExponentSuffix(s, |s|) == Some(0);
    assert Mantissa(s, 1, |s|, |s|, |s|) == DecimalValue(s[1..]) by {
      assert s[1..|s|] == s[1..] && s[|s|..|s|] == [];
    }
    var l := ParseTrimmed(s).value;
    assert l.exponent == 0 && l.mantissa == DecimalValue(s[1..]) && l.plainInteger && l.negative == (s[0] == '-');
  }

  /** A number whose value is an integer strictly inside the 64-bit range is stored as that
      integer, however it is written. */
  lemma IntegralLiteralAffinity(s: string, l: NumericLiteral, n: int)
    requires ParseNumericLiteral(s) == Some(l) && LiteralValue(l) == n as real
    requires MinInt64 < n < MaxInt64
    ensures IntegerAffinity(s) == SqlInteger(n)
  {
    IntegerAffinitySpec(s);
  }

  /** A number whose value is not an integer is stored as a real. */
  lemma FractionalLiteralAffinity(s: string, l: NumericLiteral)
    requires ParseNumericLiteral(s) == Some(l) && LiteralValue(l).Floor as real != LiteralValue(l)
    ensures IntegerAffinity(s) == SqlReal(LiteralValue(l))
  {
    IntegerAffinitySpec(s);
  }

  /** Text that is not a number is stored as that text. */
  lemma NonNumericAffinity(s: string)
    requires ParseNumericLiteral(s).None?
    ensures IntegerAffinity(s) == SqlText(s)
  {
    IntegerAffinitySpec(s);
  }

  /** The values of the numbers the samples write. */
  lemma SampleValues()
    ensures LiteralValue(NumericLiteral(true, 1, 0, true)) == -1.0
    ensures LiteralValue(NumericLiteral(false, 7, 0, true)) == 7.0
    ensures LiteralValue(NumericLiteral(false, 10, -1, false)) == 1.0
    ensures LiteralValue(NumericLiteral(false, 3, 2, false)) == 300.0
    ensures LiteralValue(NumericLiteral(false, 30, 4, false)) == 300000.0
    ensures LiteralValue(NumericLiteral(false, 15, -1, false)) == 1.5
  {
    assert Pow10(1) == 10 && Pow10(2) == 100 && Pow10(4) == 10000;
  }

  lemma AffinityOfNegativeOne()
    ensures IntegerAffinity("-1") == SqlInteger(-1)
  {
    ParseNegativeOne();
    SampleValues();
    IntegralLiteralAffinity("-1", NumericLiteral(true, 1, 0, true), -1);
  }

  lemma ParseNegativeOne()
    ensures ParseNumericLiteral("-1") == Some(NumericLiteral(true, 1, 0, true))
  {
    var t := "-1";
    assert t[1..] == "1";
    DigitValues();
    ParseSignedDigitText(t);
  }

  lemma AffinityOfSignedSevenInSpaces()
    ensures IntegerAffinity(" +7 ") == SqlInteger(7)
  {
    ParseSignedSevenInSpaces();
    SampleValues();
    IntegralLiteralAffinity(" +7 ", NumericLiteral(false, 7, 0, true), 7);
  }

  lemma ParseSignedSevenInSpaces()
    ensures ParseNumericLiteral(" +7 ") == Some(NumericLiteral(false, 7, 0, true))
  {
    var t := "+7";
    assert TrimSpaces(" +7 ") == t by {
      assert " +7 "[1..] == "+7 " && "+7 "[..2] == t;
    }
    assert t[1..] == "7";
    DigitValues();
    ParseSignedDigitText(t);
  }

  lemma AffinityOfOnePointZero()
    ensures IntegerAffinity("1.0") == SqlInteger(1)
  {
    ParseOnePointZero();
    SampleValues();
    IntegralLiteralAffinity("1.0", NumericLiteral(false, 10, -1, false), 1);
  }

  lemma ParseOnePointZero()
    ensures ParseNumericLiteral("1.0") == Some(NumericLiteral(false, 10, -1, false))
  {
    var t := "1.0";
    TrimUnpadded(t);
    assert SignEnd(t) == 0;
    assert DigitsEnd(t, 0) == 1 by { assert DigitsEnd(t, 1) == 1; }
    assert FractionStart(t, 1) == 2;
    assert DigitsEnd(t, 2) == 3 by { assert DigitsEnd(t, 3) == 3; }
    assert ExponentSuffix(t, 3) == Some(0);
    assert Mantissa(t, 0, 1, 2, 3) == 10 by { assert t[0..1] == "1" && t[2..3] == "0"; DigitValues(); assert DecimalValue("0") == 0; }
  }

  lemma AffinityOfThreeE2()
    ensures IntegerAffinity("3e2") == SqlInteger(300)
  {
    ParseThreeE2();
    SampleValues();
    IntegralLiteralAffinity("3e2", NumericLiteral(false, 3, 2, false), 300);
  }

  lemma ParseThreeE2()
    ensures ParseNumericLiteral("3e2") == Some(NumericLiteral(false, 3, 2, false))
  {
    var t := "3e2";
    TrimUnpadded(t);
    assert SignEnd(t) == 0;
    assert DigitsEnd(t, 0) == 1 by { assert DigitsEnd(t, 1) == 1; }
    assert FractionStart(t, 1) == 1;
    assert ExponentSuffix(t, 1) == Some(2) by {
      assert DigitsEnd(t, 2) == 3 by { assert DigitsEnd(t, 3) == 3; }
      assert t[2..3] == "2";
      DigitValues();
    }
    assert Mantissa(t, 0, 1, 1, 1) == 3 by { assert t[0..1] == "3" && t[1..1] == []; DigitValues(); }
  }

  lemma AffinityOfSignedExponent()
    ensures IntegerAffinity("3.0e+5") == SqlInteger(300000)
  {
    ParseSignedExponent();
    SampleValues();
    IntegralLiteralAffinity("3.0e+5", NumericLiteral(false, 30, 4, false), 300000);
  }

  lemma ParseSignedExponent()
    ensures ParseNumericLiteral("3.0e+5") == Some(NumericLiteral(false, 30, 4, false))
  {
    var t := "3.0e+5";
    TrimUnpadded(t);
    assert SignEnd(t) == 0;
    assert DigitsEnd(t, 0) == 1 by { assert DigitsEnd(t, 1) == 1; }
    assert FractionStart(t, 1) == 2;
    assert DigitsEnd(t, 2) == 3 by { assert DigitsEnd(t, 3) == 3; }
    SignedExponentSuffix();
    assert Mantissa(t, 0, 1, 2, 3) == 30 by {
      assert t[0..1] == "3" && t[2..3] == "0";
      DigitValues();
      assert DecimalValue("0") == 0 by { assert "0"[..0] == []; }
    }
  }

  lemma SignedExponentSuffix()
    ensures ExponentSuffix("3.0e+5", 3) == Some(5)
  {
    var t := "3.0e+5";
    assert t[3] == 'e' && t[4] == '+';
    assert DigitsEnd(t, 5) == 6 by { assert DigitsEnd(t, 6) == 6; }
    assert t[5..6] == "5";
    assert DecimalValue("5") == 5 by { assert "5"[..0] == []; }
  }

  lemma AffinityOfOnePointFive()
    ensures IntegerAffinity("1.5") == SqlReal(1.5)
  {
    ParseOnePointFive();
    SampleValues();
    assert (1.5).Floor == 1;
    FractionalLiteralAffinity("1.5", NumericLiteral(false, 15, -1, false));
  }

  lemma ParseOnePointFive()
    ensures ParseNumericLiteral("1.5") == Some(NumericLiteral(false, 15, -1, false))
  {
    var t := "1.5";
    TrimUnpadded(t);
    assert SignEnd(t) == 0;
    assert DigitsEnd(t, 0) == 1 by { assert DigitsEnd(t, 1) == 1; }
    assert FractionStart(t, 1) == 2;
    assert DigitsEnd(t, 2) == 3 by { assert DigitsEnd(t, 3) == 3; }
    assert ExponentSuffix(t, 3) == Some(0);
    assert Mantissa(t, 0, 1, 2, 3) == 15 by { assert t[0..1] == "1" && t[2..3] == "5"; DigitValues(); assert DecimalValue("5") == 5; }
  }

  lemma AffinityOfMissingExponent()
    ensures IntegerAffinity("1e") == SqlText("1e")
  {
    ParseMissingExponent();
    NonNumericAffinity("1e");
  }

  lemma ParseMissingExponent()
    ensures ParseNumericLiteral("1e") == None
  {
    var t := "1e";
    TrimUnpadded(t);
    assert SignEnd(t) == 0;
    assert DigitsEnd(t, 0) == 1 by { assert DigitsEnd(t, 1) == 1; }
    assert FractionStart(t, 1) == 1;
    assert ExponentSuffix(t, 1) == None by { assert DigitsEnd(t, 2) == 2; }
  }

  lemma AffinityOfWord()
    ensures IntegerAffinity("abc") == SqlText("abc")
  {
    ParseWord();
    NonNumericAffinity("abc");
  }

  lemma ParseWord()
    ensures ParseNumericLiteral("abc") == None
  {
    var t := "abc";
    TrimUnpadded(t);
    assert t[0] == 'a' && !IsDigit(t[0]);
    assert SignEnd(t) == 0;
    assert DigitsEnd(t, 0) == 0;
    assert FractionStart(t, 0) == 0;
    assert ExponentSuffix(t, 0) == None;
  }

  /** `WHERE id = ?` with a text parameter: the integer column's affinity applies to the
      text, so it matches exactly when the text is stored as the integer equal to the id;
      a real or a text never equals an integer id. */
  predicate IdMatches(id: int, key: string)
  {
    IntegerAffinity(key) == SqlInteger(id)
  }

  // ---------------------------------------------------------------- table creation

  /** A column of a `CREATE TABLE` statement with the names its `CHECK` constraint uses. */
  datatype ColumnDef = ColumnDef(name: string, checkNames: seq<string>)

  function ColumnNames(columns: seq<ColumnDef>): (r: seq<string>)
    ensures |r| == |columns| && forall i :: 0 <= i < |columns| ==> r[i] == columns[i].name
  {
    seq(|columns|, i requires 0 <= i < |columns| => columns[i].name)
  }

  function CheckNames(columns: seq<ColumnDef>): (r: seq<string>)
    ensures forall n :: n in r <==> exists i :: 0 <= i < |columns| && n in columns[i].checkNames
  {
    if columns == [] then []
    else
      assert forall i :: 1 <= i < |columns| ==> columns[i] == columns[1..][i - 1];
      columns[0].checkNames + CheckNames(columns[1..])
  }

  /** `CREATE TABLE` on a database without the table: SQLite resolves the names in CHECK
      constraints against the new table's own columns, and a name that is none of them fails
      the statement ("no such column"); the error carries that name. */
  function CreateTable(columns: seq<ColumnDef>): (r: Result<(), string>)
    ensures r.Ok? <==> forall i, n :: 0 <= i < |columns| && n in columns[i].checkNames ==> n in ColumnNames(columns)
    ensures r.Err? ==> r.error !in ColumnNames(columns) && exists i :: 0 <= i < |columns| && r.error in columns[i].checkNames
  {
    var names := ColumnNames(columns);
    var unknown := (n: string) => n !in names;
    match Find(CheckNames(columns), unknown)
    case None =>
      assert forall n :: n in CheckNames(columns) ==> !unknown(n) && n in names;
      assert forall i, n :: 0 <= i < |columns| && n in columns[i].checkNames ==> n in CheckNames(columns);
      Ok(())
    case Some(n) => Err(n)
  }

  /** The `habit` table of `build` as written: the CHECK on `habitType` names `type`. */
  const LegacyHabitColumnsAsWritten: seq<ColumnDef> :=
    [ColumnDef("id", []), ColumnDef("habitType", ["type"]), ColumnDef("label", []), ColumnDef("questionLabel", [])]

  /** The `habit` table with the CHECK naming its own column, as the later service has it. */
  const LegacyHabitColumns: seq<ColumnDef> := LegacyHabitColumnsAsWritten[1 := ColumnDef("habitType", ["habitType"])]

  const LegacyEntryColumns: seq<ColumnDef> :=
    [ColumnDef("id", []), ColumnDef("completed", ["completed"]), ColumnDef("date", []), ColumnDef("habitId", [])]

  /** The transaction of `build`: `CREATE TABLE IF NOT EXISTS` for `habit`, then for
      `habitEntry`; on a file that has both tables nothing is created, otherwise the first
      failing statement is the result and nothing is committed. */
  function BuildSchema(habitColumns: seq<ColumnDef>, tablesExist: bool): Result<(), string>
  {
    if tablesExist then Ok(())
    else match CreateTable(habitColumns)
      case Err(e) => Err(e)
      case Ok(_) => CreateTable(LegacyEntryColumns)
  }

  /** A table whose CHECK constraints name only `n`, which is not one of its columns,
      fails with `n`. */
  lemma CreateTableRejects(columns: seq<ColumnDef>, n: string)
    requires n !in ColumnNames(columns)
    requires exists i :: 0 <= i < |columns| && n in columns[i].checkNames
    requires forall i, m :: 0 <= i < |columns| && m in columns[i].checkNames ==> m == n
    ensures CreateTable(columns) == Err(n)
  {
  }

  /** As written, `build` fails on every new database file: `habit`'s CHECK names the
      column `type`, which the table does not have. Only a file whose tables already exist
      opens. */
  lemma LegacyBuildFailsOnNewFile()
    ensures BuildSchema(LegacyHabitColumnsAsWritten, false) == Err("type")
    ensures BuildSchema(LegacyHabitColumnsAsWritten, true) == Ok(())
  {
    var cs := LegacyHabitColumnsAsWritten;
    assert "type" !in ColumnNames(cs) by {
      assert ColumnNames(cs) == ["id", "habitType", "label", "questionLabel"];
    }
    assert "type" in cs[1].checkNames;
    assert forall i, m :: 0 <= i < |cs| && m in cs[i].checkNames ==> m == "type";
    CreateTableRejects(cs, "type");
  }

  /** A table whose CHECK constraints name only its own column `n` is created. */
  lemma CreateTableAccepts(columns: seq<ColumnDef>, n: string)
    requires n in ColumnNames(columns)
    requires forall i, m :: 0 <= i < |columns| && m in columns[i].checkNames ==> m == n
    ensures CreateTable(columns) == Ok(())
  {
  }

  /** With the CHECK naming `habitType`, the only change, `build` creates both tables on a
      new file. */
  lemma LegacyBuildSucceeds()
    ensures LegacyHabitColumns == LegacyHabitColumnsAsWritten[1 := ColumnDef("habitType", ["habitType"])]
    ensures BuildSchema(LegacyHabitColumns, false) == Ok(())
  {
    HabitTableCreated();
    EntryTableCreated();
  }

  lemma HabitTableCreated()
    ensures CreateTable(LegacyHabitColumns) == Ok(())
  {
    var cs := LegacyHabitColumns;
    assert "habitType" in ColumnNames(cs) by { assert ColumnNames(cs)[1] == "habitType"; }
    assert forall i, n :: 0 <= i < |cs| && n in cs[i].checkNames ==> n == "habitType";
    CreateTableAccepts(cs, "habitType");
  }

  lemma EntryTableCreated()
    ensures CreateTable(LegacyEntryColumns) == Ok(())
  {
    var es := LegacyEntryColumns;
    assert "completed" in ColumnNames(es) by { assert ColumnNames(es)[1] == "completed"; }
    assert forall i, n :: 0 <= i < |es| && n in es[i].checkNames ==> n == "completed";
    CreateTableAccepts(es, "completed");
  }

  // ---------------------------------------------------------------- rows

  /** `Habit::from_row` of src/api.rs. */
  function LegacyHabitFromRow(row: LegacyHabitRow): Result<LegacyHabit, FromSqlError>
  {
    match HabitTypeFromSql(row.habitType)
    case Err(e) => Err(e)
    case Ok(t) => Ok(LegacyHabit(row.id, t, row.labelText, row.questionLabel))
  }

  function EncodeLegacyHabitRow(id: int, t: HabitType, labelText: string, questionLabel: string): LegacyHabitRow
  {
    LegacyHabitRow(id, SqlText(HabitTypeToSql(t)), labelText, questionLabel)
  }

  /** A written habit row reads back as exactly the fields written. */
  lemma LegacyHabitRowRoundTrip(id: int, t: HabitType, labelText: string, questionLabel: string)
    ensures LegacyHabitFromRow(EncodeLegacyHabitRow(id, t, labelText, questionLabel)) == Ok(LegacyHabit(id, t, labelText, questionLabel))
  {
    HabitTypeRoundTrip(t);
  }

  /** The row `INSERT INTO habitEntry (completed, habitId)` stores for one item. */
  function InsertedEntryRow(id: int, item: UpsertHabitEntryItem, now: Instant): LegacyEntryRow
  {
    LegacyEntryRow(id, item.completed, now, IntegerAffinity(item.habitId))
  }

  /** `HabitEntry::from_row` as written: `habit_id` is read as a `String`, which only a
      text value satisfies. */
  function LegacyEntryFromRow(row: LegacyEntryRow): (r: Result<LegacyHabitEntry, FromSqlError>)
    ensures r.Ok? <==> row.habitId.SqlText?
  {
    match row.habitId
    case SqlText(s) => Ok(LegacyHabitEntry(row.id, s, row.completed, row.date))
    case _ => Err(InvalidType)
  }

  /** `HabitEntry::from_row` with `habit_id` read as an `i64`. */
  function EntryFromRow(row: LegacyEntryRow): (r: Result<HabitEntryRecord, FromSqlError>)
    ensures r.Ok? <==> row.habitId.SqlInteger?
  {
    match row.habitId
    case SqlInteger(n) => Ok(HabitEntryRecord(row.id, n, row.completed, row.date))
    case _ => Err(InvalidType)
  }

  /** As written, an entry reads back exactly when its habit id was not a number: SQLite
      stores a numeric id as an integer or a real, and reading either as a `String` fails. */
  lemma LegacyEntryUnreadable(id: int, item: UpsertHabitEntryItem, now: Instant)
    ensures LegacyEntryFromRow(InsertedEntryRow(id, item, now)).Ok? <==> ParseNumericLiteral(item.habitId).None?
    ensures ParseNumericLiteral(item.habitId).Some? ==> LegacyEntryFromRow(InsertedEntryRow(id, item, now)) == Err(InvalidType)
  {
    IntegerAffinitySpec(item.habitId);
  }

  /** The concrete case: the entry for habit "1" does not read back. */
  lemma LegacyEntryUnreadableSample()
    ensures LegacyEntryFromRow(InsertedEntryRow(1, UpsertHabitEntryItem("1", true), 0)) == Err(InvalidType)
  {
    assert DecimalValue("1") == 1 by { assert "1"[..0] == []; }
    DigitTextAffinity("1");
  }

  /** Reading the habit id as an integer, an entry reads back exactly when SQLite stored its
      habit id as an integer, and then with that integer and the item's completion flag. */
  lemma EntryReadable(id: int, item: UpsertHabitEntryItem, now: Instant)
    ensures EntryFromRow(InsertedEntryRow(id, item, now)).Ok? <==> IntegerAffinity(item.habitId).SqlInteger?
    ensures IntegerAffinity(item.habitId).SqlInteger? ==>
      EntryFromRow(InsertedEntryRow(id, item, now)) == Ok(HabitEntryRecord(id, IntegerAffinity(item.habitId).i, item.completed, now))
  {
  }

  function NextLegacyHabitId(rows: seq<LegacyHabitRow>): int
  {
    if rows == [] then 1 else rows[|rows| - 1].id + 1
  }

  function NextLegacyEntryId(rows: seq<LegacyEntryRow>): int
  {
    if rows == [] then 1 else rows[|rows| - 1].id + 1
  }

  ghost predicate LegacyHabitIdsIncreasing(rows: seq<LegacyHabitRow>)
  {
    (forall i :: 0 <= i < |rows| ==> rows[i].id >= 1) &&
    forall i, j :: 0 <= i < j < |rows| ==> rows[i].id < rows[j].id
  }

  ghost predicate LegacyEntryIdsIncreasing(rows: seq<LegacyEntryRow>)
  {
    (forall i :: 0 <= i < |rows| ==> rows[i].id >= 1) &&
    forall i, j :: 0 <= i < j < |rows| ==> rows[i].id < rows[j].id
  }

  /** Appending a row under the next id keeps the ids increasing. */
  lemma AppendLegacyEntryKeepsIncreasing(rows: seq<LegacyEntryRow>, row: LegacyEntryRow)
    requires LegacyEntryIdsIncreasing(rows) && row.id == NextLegacyEntryId(rows)
    ensures LegacyEntryIdsIncreasing(rows + [row]) && NextLegacyEntryId(rows + [row]) == row.id + 1
  {
  }

  /** The number of rows `UPDATE habit ... WHERE id = ?4` touches. */
  function MatchCount(rows: seq<LegacyHabitRow>, key: string): (r: nat)
    ensures r <= |rows|
    ensures r == 0 <==> forall i :: 0 <= i < |rows| ==> !IdMatches(rows[i].id, key)
  {
    if rows == [] then 0
    else (if IdMatches(rows[0].id, key) then 1 else 0) + MatchCount(rows[1..], key)
  }

  /** With increasing ids at most one row matches a key. */
  lemma {:induction false} MatchCountAtMostOne(rows: seq<LegacyHabitRow>, key: string)
    requires LegacyHabitIdsIncreasing(rows)
    ensures MatchCount(rows, key) <= 1
  {
    if rows != [] {
      assert LegacyHabitIdsIncreasing(rows[1..]);
      MatchCountAtMostOne(rows[1..], key);
      if IdMatches(rows[0].id, key) {
        forall i | 0 <= i < |rows[1..]|
          ensures !IdMatches(rows[1..][i].id, key)
        {
          assert rows[1..][i] == rows[i + 1];
          assert rows[0].id < rows[i + 1].id;
        }
      }
    }
  }

  function UpdateLegacyRows(rows: seq<LegacyHabitRow>, key: string, t: HabitType, labelText: string, questionLabel: string): (r: seq<LegacyHabitRow>)
    ensures |r| == |rows|
    ensures forall i :: 0 <= i < |rows| ==>
      r[i] == if IdMatches(rows[i].id, key) then EncodeLegacyHabitRow(rows[i].id, t, labelText, questionLabel) else rows[i]
  {
    if rows == [] then []
    else
      var head := if IdMatches(rows[0].id, key) then EncodeLegacyHabitRow(rows[0].id, t, labelText, questionLabel) else rows[0];
      [head] + UpdateLegacyRows(rows[1..], key, t, labelText, questionLabel)
  }

  class LegacyHabitTrackerService {
    var habits: seq<LegacyHabitRow>
    var entries: seq<LegacyEntryRow>

    ghost predicate Valid()
      reads this
    {
      LegacyHabitIdsIncreasing(habits) && LegacyEntryIdsIncreasing(entries)
    }

    /** `HabitTrackerService::build` on a new database file, with the `habit` table's CHECK
        naming `habitType`: both tables are created, and they are empty. */
    constructor Build()
      ensures BuildSchema(LegacyHabitColumns, false) == Ok(())
      ensures Valid() && habits == [] && entries == []
    {
      LegacyBuildSucceeds();
      habits, entries := [], [];
    }

    /** `create_habit`: inserts one row with the request's type, label and question label
        under a fresh id and reports one row changed. */
    method CreateHabit(request: LegacyCreateHabitRequest) returns (changed: nat)
      requires Valid()
      modifies this
      ensures Valid()
      ensures habits == old(habits) + [EncodeLegacyHabitRow(NextLegacyHabitId(old(habits)), request.habitType, request.labelText, request.questionLabel)]
      ensures changed == 1
      ensures entries == old(entries)
    {
      var row := EncodeLegacyHabitRow(NextLegacyHabitId(habits), request.habitType, request.labelText, request.questionLabel);
      habits := habits + [row];
      changed := 1;
    }

    /** `update_habit`: sets type, label and question label on the row whose id the
        request's `habit_id` text denotes, and reports how many rows changed: one when
        there is such a row, none otherwise (and then nothing changes). */
    method UpdateHabit(request: LegacyUpdateHabitRequest) returns (changed: nat)
      requires Valid()
      modifies this
      ensures Valid()
      ensures habits == UpdateLegacyRows(old(habits), request.habitId, request.habitType, request.labelText, request.questionLabel)
      ensures changed == MatchCount(old(habits), request.habitId) && changed <= 1
      ensures changed == 0 ==> habits == old(habits)
      ensures changed == 1 <==> exists i :: 0 <= i < |old(habits)| && IdMatches(old(habits)[i].id, request.habitId)
      ensures entries == old(entries)
    {
      MatchCountAtMostOne(habits, request.habitId);
      changed := MatchCount(habits, request.habitId);
      var before := habits;
      habits := UpdateLegacyRows(habits, request.habitId, request.habitType, request.labelText, request.questionLabel);
      assert forall i :: 0 <= i < |habits| ==> habits[i].id == before[i].id;
      if changed == 0 {
        assert forall i :: 0 <= i < |habits| ==> habits[i] == before[i];
      }
    }

    /** `get_habits`: every row decoded, in rowid order, or the first decoding error. */
    method GetHabits() returns (r: Result<seq<LegacyHabit>, FromSqlError>)
      ensures r == MapResults(habits, LegacyHabitFromRow)
    {
      var decoded: seq<LegacyHabit> := [];
      var i := 0;
      while i < |habits|
        invariant 0 <= i <= |habits|
        invariant MapResults(habits[..i], LegacyHabitFromRow) == Ok(decoded)
      {
        match LegacyHabitFromRow(habits[i])
        case Err(e) =>
          MapResultsPrefixError(habits, i, LegacyHabitFromRow, decoded);
          return Err(e);
        case Ok(h) =>
          MapResultsPrefixStep(habits, i, LegacyHabitFromRow, decoded, h);
          decoded := decoded + [h];
        i := i + 1;
      }
      assert habits[..i] == habits;
      r := Ok(decoded);
    }

    /** `get_habit_entries`, reading the habit id as an integer: every entry decoded, in
        rowid order, or the first decoding error. */
    method GetHabitEntries() returns (r: Result<seq<HabitEntryRecord>, FromSqlError>)
      ensures r == MapResults(entries, EntryFromRow)
    {
      var decoded: seq<HabitEntryRecord> := [];
      var i := 0;
      while i < |entries|
        invariant 0 <= i <= |entries|
        invariant MapResults(entries[..i], EntryFromRow) == Ok(decoded)
      {
        match EntryFromRow(entries[i])
        case Err(e) =>
          MapResultsPrefixError(entries, i, EntryFromRow, decoded);
          return Err(e);
        case Ok(h) =>
          MapResultsPrefixStep(entries, i, EntryFromRow, decoded, h);
          decoded := decoded + [h];
        i := i + 1;
      }
      assert entries[..i] == entries;
      r := Ok(decoded);
    }

    /** `insert_habit_entries`: one insert per item, in request order, inside one
        transaction committed at the end; each row gets the next id, the item's flag, the
        insertion time and the item's habit id as SQLite stores it. */
    method InsertHabitEntries(request: seq<UpsertHabitEntryItem>, now: Instant)
      requires Valid()
      modifies this
      ensures Valid()
      ensures |entries| == |old(entries)| + |request|
      ensures entries[..|old(entries)|] == old(entries)
      ensures forall k :: 0 <= k < |request| ==>
        entries[|old(entries)| + k] == InsertedEntryRow(NextLegacyEntryId(old(entries)) + k, request[k], now)
      ensures habits == old(habits)
    {
      var first := NextLegacyEntryId(entries);
      var i := 0;
      while i < |request|
        invariant 0 <= i <= |request|
        invariant |entries| == |old(entries)| + i
        invariant entries[..|old(entries)|] == old(entries)
        invariant forall k :: 0 <= k < i ==> entries[|old(entries)| + k] == InsertedEntryRow(first + k, request[k], now)
        invariant LegacyEntryIdsIncreasing(entries)
        invariant NextLegacyEntryId(entries) == first + i
        invariant habits == old(habits)
      {
        var row := LegacyEntryRow(first + i, request[i].completed, now, IntegerAffinity(request[i].habitId));
        assert row == InsertedEntryRow(first + i, request[i], now);
        AppendLegacyEntryKeepsIncreasing(entries, row);
        entries := entries + [row];
        i := i + 1;
      }
    }
  }

  /** Entries inserted into new tables are read back, in order, with their habit ids as
      integers when every habit id was stored as an integer; otherwise reading fails. */
  method InsertThenReadEntries(request: seq<UpsertHabitEntryItem>, now: Instant)
    returns (r: Result<seq<HabitEntryRecord>, FromSqlError>)
    ensures r.Ok? <==> forall k :: 0 <= k < |request| ==> IntegerAffinity(request[k].habitId).SqlInteger?
    ensures r.Ok? ==> |r.value| == |request| && forall k :: 0 <= k < |request| ==>
      r.value[k] == HabitEntryRecord(k + 1, IntegerAffinity(request[k].habitId).i, request[k].completed, now)
    ensures r.Err? ==> r.error == InvalidType
  {
    var service := new LegacyHabitTrackerService.Build();
    service.InsertHabitEntries(request, now);
    // the table was empty, so the k-th new row sits at index 0 + k
    assert |service.entries| == |request|;
    assert forall k :: 0 <= k < |request| ==> service.entries[k] == service.entries[0 + k];
    ReadInsertedRows(service.entries, request, now);
    r := service.GetHabitEntries();
  }

  /** Rows inserted from id 1 on decode when every habit id was stored as an integer, with
      those integers; otherwise decoding fails with `InvalidType`. */
  lemma ReadInsertedRows(rows: seq<LegacyEntryRow>, request: seq<UpsertHabitEntryItem>, now: Instant)
    requires |rows| == |request|
    requires forall k :: 0 <= k < |request| ==> rows[k] == InsertedEntryRow(1 + k, request[k], now)
    ensures MapResults(rows, EntryFromRow).Ok? <==> forall k :: 0 <= k < |request| ==> IntegerAffinity(request[k].habitId).SqlInteger?
    ensures MapResults(rows, EntryFromRow).Ok? ==> forall k :: 0 <= k < |request| ==>
      MapResults(rows, EntryFromRow).value[k] == HabitEntryRecord(k + 1, IntegerAffinity(request[k].habitId).i, request[k].completed, now)
    ensures MapResults(rows, EntryFromRow).Err? ==> MapResults(rows, EntryFromRow).error == InvalidType
  {
  }
}
