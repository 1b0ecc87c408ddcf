/**
 * The affiliates editor: five student-count inputs whose year fields keep the
 * total in step, and a table of year-wise spreadsheets where uploading a file
 * for an academic year replaces that year's sheet. The upload date and the
 * download URL come from the browser and are parameters here.
 */
module AffiliatesManagement {
  import opened Wrappers
  import opened EntityList

  // ---------------------------------------------------------------------------
  // parseInt(value) || 0

  /** The white space and line terminators `parseInt` skips before the number. */
  predicate IsJsSpace(c: char)
  {
    c == '\t' || c == '\n' || c == '\U{000B}' || c == '\U{000C}' || c == '\r' || c == ' '
    || c == '\U{00A0}' || c == '\U{1680}' || ('\U{2000}' <= c <= '\U{200A}')
    || c == '\U{2028}' || c == '\U{2029}' || c == '\U{202F}' || c == '\U{205F}'
    || c == '\U{3000}' || c == '\U{FEFF}'
  }

  /** The input without its leading white space. */
  function TrimStart(s: string): (r: string)
    ensures |r| <= |s| && r == s[|s| - |r|..]
    ensures r != [] ==> !IsJsSpace(r[0])
  {
    if s != [] && IsJsSpace(s[0]) then TrimStart(s[1..]) else s
  }

  /** The value of a letter-or-digit in radices up to 36; 36 for anything else. */
  function DigitOf(c: char): nat
  {
    if '0' <= c <= '9' then c as nat - '0' as nat
    else if 'a' <= c <= 'z' then c as nat - 'a' as nat + 10
    else if 'A' <= c <= 'Z' then c as nat - 'A' as nat + 10
    else 36
  }

  predicate IsDigit(c: char, radix: nat)
  {
    DigitOf(c) < radix
  }

  /** The longest prefix of `s` made of digits of `radix`. */
  function DigitPrefix(s: string, radix: nat): (r: string)
    ensures |r| <= |s| && r == s[..|r|]
    ensures forall k :: 0 <= k < |r| ==> IsDigit(r[k], radix)
    ensures |r| < |s| ==> !IsDigit(s[|r|], radix)
  {
    if s != [] && IsDigit(s[0], radix) then [s[0]] + DigitPrefix(s[1..], radix) else []
  }

  /** The number a digit string denotes in `radix`, most significant digit first. */
  function Value(digits: string, radix: nat): nat
  {
    if digits == [] then 0
    else Value(digits[..|digits| - 1], radix) * radix + DigitOf(digits[|digits| - 1])
  }

  /**
   * The unsigned part of `parseInt`: "0x"/"0X" selects radix 16, anything else
   * radix 10, and the longest run of digits that follows is converted; `None`
   * when there is no digit at all.
   */
  function Magnitude(u: string): (r: Option<int>)
    ensures r.Some? ==> r.value >= 0
    ensures r.Some? ==> u != [] && IsDigit(u[0], 10)
    ensures u == [] || !IsDigit(u[0], 16) ==> r.None?
  {
    var hex := |u| >= 2 && u[0] == '0' && (u[1] == 'x' || u[1] == 'X');
    var radix := if hex then 16 else 10;
    var digits := DigitPrefix(if hex then u[2..] else u, radix);
    if digits == [] then None else Some(Value(digits, radix))
  }

  /** `parseInt` after the leading white space: an optional sign, then the magnitude. */
  function ParseSigned(t: string): (r: Option<int>)
    ensures r.Some? && r.value < 0 ==> t != [] && t[0] == '-'
    ensures r.Some? ==> exists k :: 0 <= k < |t| && IsDigit(t[k], 10)
  {
    assert t != [] && (t[0] == '-' || t[0] == '+') && Magnitude(t[1..]).Some? ==> IsDigit(t[1], 10);
    if t != [] && t[0] == '-' then
      match Magnitude(t[1..])
      case None => None
      case Some(m) => Some(-m)
    else if t != [] && t[0] == '+' then Magnitude(t[1..])
    else Magnitude(t)
  }

  /** `parseInt(s)` without a radix; `None` stands for NaN. */
  function ParseInt(s: string): (r: Option<int>)
    ensures r.Some? && r.value < 0 ==> '-' in s
    ensures r.Some? ==> exists k :: 0 <= k < |s| && IsDigit(s[k], 10)
  {
    var t := TrimStart(s);
    assert forall k :: 0 <= k < |t| ==> t[k] == s[|s| - |t| + k];
    ParseSigned(t)
  }

  /** `parseInt(value) || 0`: NaN, and also -0, become 0. */
  function ParseIntOrZero(s: string): (n: int)
    ensures n < 0 ==> '-' in s
    ensures n != 0 ==> exists k :: 0 <= k < |s| && IsDigit(s[k], 10)
  {
    match ParseInt(s)
    case None => 0
    case Some(n) => n
  }

  /** The decimal digits of `n`, without leading zeros. */
  function Digits(n: nat): (r: string)
    ensures r != []
    ensures forall k :: 0 <= k < |r| ==> IsDigit(r[k], 10)
    ensures r[0] == '0' ==> n == 0
  {
    var last := ['0' + ((n % 10) as char)];
    if n < 10 then last else Digits(n / 10) + last
  }

  /** How an integer is written in the number input. */
  function Decimal(n: int): string
  {
    if n < 0 then "-" + Digits(-n) else Digits(n)
  }

  lemma {:induction false} ValueOfDigits(n: nat)
    ensures Value(Digits(n), 10) == n
  {
    var d := Digits(n);
    if n >= 10 {
      ValueOfDigits(n / 10);
      assert d[..|d| - 1] == Digits(n / 10);
    }
  }

  lemma {:induction false} TrimStartSpaces(pad: string, t: string)
    requires forall k :: 0 <= k < |pad| ==> IsJsSpace(pad[k])
    requires t == [] || !IsJsSpace(t[0])
    ensures TrimStart(pad + t) == t
  {
    if pad != [] {
      assert (pad + t)[1..] == pad[1..] + t;
      TrimStartSpaces(pad[1..], t);
    } else {
      assert pad + t == t;
    }
  }

  lemma {:induction false} DigitPrefixStops(ds: string, rest: string, radix: nat)
    requires forall k :: 0 <= k < |ds| ==> IsDigit(ds[k], radix)
    requires rest == [] || !IsDigit(rest[0], radix)
    ensures DigitPrefix(ds + rest, radix) == ds
  {
    if ds != [] {
      assert (ds + rest)[1..] == ds[1..] + rest;
      DigitPrefixStops(ds[1..], rest, radix);
    } else {
      assert ds + rest == rest;
    }
  }

  /** The digits of `m`, followed by anything that does not continue them, have magnitude `m`. */
  lemma MagnitudeOfDigits(m: nat, rest: string)
    requires rest == [] || (!IsDigit(rest[0], 10) && (m == 0 ==> rest[0] != 'x' && rest[0] != 'X'))
    ensures Magnitude(Digits(m) + rest) == Some(m)
  {
    var ds := Digits(m);
    var u := ds + rest;
    ValueOfDigits(m);
    DigitPrefixStops(ds, rest, 10);
    if |u| >= 2 && u[0] == '0' {
      assert |ds| == 1;
      assert u[1] == rest[0];
    }
  }

  /** Leading white space does not change what `parseInt` reads. */
  lemma ParseIntSkipsSpaces(pad: string, t: string)
    requires forall k :: 0 <= k < |pad| ==> IsJsSpace(pad[k])
    requires t == [] || !IsJsSpace(t[0])
    ensures ParseInt(pad + t) == ParseInt(t)
  {
    TrimStartSpaces(pad, t);
    assert TrimStart(t) == t;
  }

  /** The decimal form of `n`, followed by anything that does not continue it, reads as `n`. */
  lemma SignedDecimal(n: int, rest: string)
    requires rest == [] || (!IsDigit(rest[0], 10) && (n == 0 ==> rest[0] != 'x' && rest[0] != 'X'))
    ensures ParseSigned(Decimal(n) + rest) == Some(n)
  {
    if n < 0 {
      NegativeDecimal(-n, rest);
    } else {
      UnsignedDecimal(n, rest);
    }
  }

  lemma NegativeDecimal(m: nat, rest: string)
    requires m > 0
    requires rest == [] || !IsDigit(rest[0], 10)
    ensures ParseSigned(['-'] + Digits(m) + rest) == Some(-(m as int))
  {
    var u := Digits(m) + rest;
    MagnitudeOfDigits(m, rest);
    assert ['-'] + Digits(m) + rest == ['-'] + u;
    assert (['-'] + u)[1..] == u;
  }

  lemma UnsignedDecimal(m: nat, rest: string)
    requires rest == [] || (!IsDigit(rest[0], 10) && (m == 0 ==> rest[0] != 'x' && rest[0] != 'X'))
    ensures ParseSigned(Digits(m) + rest) == Some(m)
  {
    var u := Digits(m) + rest;
    MagnitudeOfDigits(m, rest);
    assert u[0] == Digits(m)[0];
    assert DigitOf(u[0]) < 10;
  }

  /**
   * Reading back what was written: white space, then the decimal form of `n`,
   * then anything that does not continue the number, parses to `n`.
   */
  lemma ParseDecimal(pad: string, n: int, rest: string)
    requires forall k :: 0 <= k < |pad| ==> IsJsSpace(pad[k])
    requires rest == [] || (!IsDigit(rest[0], 10) && (n == 0 ==> rest[0] != 'x' && rest[0] != 'X'))
    ensures ParseInt(pad + Decimal(n) + rest) == Some(n)
    ensures ParseIntOrZero(pad + Decimal(n) + rest) == n
  {
    var t := Decimal(n) + rest;
    assert pad + Decimal(n) + rest == pad + t;
    assert t[0] == Decimal(n)[0];
    assert !IsJsSpace(t[0]) by {
      if n >= 0 {
        assert IsDigit(Digits(n)[0], 10);
      }
    }
    SignedDecimal(n, rest);
    ParseIntSkipsSpaces(pad, t);
  }

  /** An input without any decimal digit (empty, blank, "abc", "-") gives 0. */
  lemma NoDigitsGivesZero(s: string)
    requires forall k :: 0 <= k < |s| ==> !IsDigit(s[k], 10)
    ensures ParseInt(s) == None
    ensures ParseIntOrZero(s) == 0
  {
  }

  // ---------------------------------------------------------------------------
  // Student counts

  datatype AffiliateStats = AffiliateStats(
    firstYear: int,
    secondYear: int,
    thirdYear: int,
    fourthYear: int,
    totalStudents: int)

  /** The keys of `AffiliateStats`, one per input. */
  datatype StatField = FirstYear | SecondYear | ThirdYear | FourthYear | TotalStudents

  function Get(s: AffiliateStats, f: StatField): int
  {
    match f
    case FirstYear => s.firstYear
    case SecondYear => s.secondYear
    case ThirdYear => s.thirdYear
    case FourthYear => s.fourthYear
    case TotalStudents => s.totalStudents
  }

  function YearSum(s: AffiliateStats): int
  {
    s.firstYear + s.secondYear + s.thirdYear + s.fourthYear
  }

  /** The total card agrees with the four year cards. */
  predicate Consistent(s: AffiliateStats)
  {
    s.totalStudents == YearSum(s)
  }

  /** `{ ...prev, [field]: n }`: one field replaced, every other field copied. */
  function WithField(s: AffiliateStats, f: StatField, n: int): (r: AffiliateStats)
    ensures Get(r, f) == n
    ensures forall g :: g != f ==> Get(r, g) == Get(s, g)
  {
    match f
    case FirstYear => s.(firstYear := n)
    case SecondYear => s.(secondYear := n)
    case ThirdYear => s.(thirdYear := n)
    case FourthYear => s.(fourthYear := n)
    case TotalStudents => s.(totalStudents := n)
  }

  /**
   * The counts after `handleStatsUpdate(field, ...)` with parsed value `n`:
   * editing a year sets it and recomputes the total from the four years;
   * editing the total sets only the total, which may then disagree with them.
   */
  function Updated(prev: AffiliateStats, field: StatField, n: int): (r: AffiliateStats)
    ensures Get(r, field) == n
    ensures forall g :: g != field && g != TotalStudents ==> Get(r, g) == Get(prev, g)
    ensures field != TotalStudents ==> Consistent(r)
    ensures field == TotalStudents ==> (Consistent(r) <==> n == YearSum(prev))
  {
    var updated := WithField(prev, field, n);
    if field != TotalStudents then updated.(totalStudents := YearSum(updated)) else updated
  }

  /** Repeating the same edit changes nothing more. */
  lemma UpdateIdempotent(prev: AffiliateStats, field: StatField, n: int)
    ensures Updated(Updated(prev, field, n), field, n) == Updated(prev, field, n)
  {
  }

  /** After a year edit, the total no longer depends on what it was before. */
  lemma YearEditOverridesTotal(a: AffiliateStats, b: AffiliateStats, field: StatField, n: int)
    requires field != TotalStudents
    requires a.(totalStudents := 0) == b.(totalStudents := 0)
    ensures Updated(a, field, n) == Updated(b, field, n)
  {
  }

  // ---------------------------------------------------------------------------
  // Year-wise sheets

  datatype XlsSheet = XlsSheet(year: string, fileName: string, uploadDate: string, downloadUrl: string)

  /** The part of a selected file the editor reads. */
  datatype FileInfo = FileInfo(name: string)

  /** `sheet => sheet.year !== year`. */
  function OtherYear(year: string): (r: XlsSheet -> bool)
    ensures forall sheet :: r(sheet) <==> sheet.year != year
  {
    (sheet: XlsSheet) => sheet.year != year
  }

  /**
   * `[...prev.filter(sheet => sheet.year !== year), newSheet]`: every sheet of
   * the new sheet's year is dropped, the others keep their order, and the new
   * sheet is appended.
   */
  function Upserted(sheets: seq<XlsSheet>, newSheet: XlsSheet): (r: seq<XlsSheet>)
    ensures r != [] && r[|r| - 1] == newSheet
    ensures forall k :: 0 <= k < |r| - 1 ==> r[k].year != newSheet.year
    ensures forall x :: x in r <==> x == newSheet || (x in sheets && x.year != newSheet.year)
    ensures IsSubsequence(r[..|r| - 1], sheets)
    ensures |r| <= |sheets| + 1
  {
    var kept := Keep(sheets, OtherYear(newSheet.year));
    KeepIsSubsequence(sheets, OtherYear(newSheet.year));
    assert forall k :: 0 <= k < |kept| ==> kept[k] in kept;
    assert (kept + [newSheet])[..|kept|] == kept;
    kept + [newSheet]
  }

  /** No two sheets share a year. */
  predicate UniqueYears(sheets: seq<XlsSheet>)
  {
    forall i, j :: 0 <= i < j < |sheets| ==> sheets[i].year != sheets[j].year
  }

  /** `xlsSheets.find(sheet => sheet.year === year)`: the first sheet of that year. */
  function FindByYear(sheets: seq<XlsSheet>, year: string): (r: Option<XlsSheet>)
    ensures r.Some? <==> exists k :: 0 <= k < |sheets| && sheets[k].year == year
    ensures r.Some? ==> r.value in sheets && r.value.year == year
    ensures r.Some? ==> exists k :: 0 <= k < |sheets| && sheets[k] == r.value
                                   && forall j :: 0 <= j < k ==> sheets[j].year != year
  {
    if sheets == [] then None
    else if sheets[0].year == year then Some(sheets[0])
    else
      var r := FindByYear(sheets[1..], year);
      assert forall k :: 1 <= k < |sheets| ==> sheets[k] == sheets[1..][k - 1];
      if r.Some? then
        var k :| 0 <= k < |sheets[1..]| && sheets[1..][k] == r.value
                 && forall j :: 0 <= j < k ==> sheets[1..][j].year != year;
        assert sheets[k + 1] == r.value && forall j :: 0 <= j < k + 1 ==> sheets[j].year != year;
        r
      else r
  }

  /** With unique years, finding a year returns the one sheet that has it. */
  lemma FindUnique(sheets: seq<XlsSheet>, k: nat)
    requires UniqueYears(sheets) && k < |sheets|
    ensures FindByYear(sheets, sheets[k].year) == Some(sheets[k])
  {
  }

  /** Unique years stay unique after an upload. */
  lemma UpsertKeepsYearsUnique(sheets: seq<XlsSheet>, newSheet: XlsSheet)
    requires UniqueYears(sheets)
    ensures UniqueYears(Upserted(sheets, newSheet))
  {
  }

  /** After an upload, the lookup for its year finds the new sheet, whatever was there before. */
  lemma FindUploaded(sheets: seq<XlsSheet>, newSheet: XlsSheet)
    ensures FindByYear(Upserted(sheets, newSheet), newSheet.year) == Some(newSheet)
  {
  }

  lemma FindLast(sheets: seq<XlsSheet>, year: string)
    requires sheets != [] && sheets[|sheets| - 1].year == year
    requires forall k :: 0 <= k < |sheets| - 1 ==> sheets[k].year != year
    ensures FindByYear(sheets, year) == Some(sheets[|sheets| - 1])
  {
  }

  /** Appending a sheet of another year does not change a lookup. */
  lemma {:induction false} FindAppend(sheets: seq<XlsSheet>, last: XlsSheet, year: string)
    requires last.year != year
    ensures FindByYear(sheets + [last], year) == FindByYear(sheets, year)
  {
    if sheets != [] {
      assert (sheets + [last])[1..] == sheets[1..] + [last];
      FindAppend(sheets[1..], last, year);
    } else {
      assert sheets + [last] == [last];
    }
  }

  /** Dropping the sheets of one year does not change the lookup of another. */
  lemma {:induction false} FindInOtherYears(sheets: seq<XlsSheet>, dropped: string, year: string)
    requires year != dropped
    ensures FindByYear(Keep(sheets, OtherYear(dropped)), year) == FindByYear(sheets, year)
  {
    if sheets != [] {
      FindInOtherYears(sheets[1..], dropped, year);
      KeepUnfold(sheets, OtherYear(dropped));
    }
  }

  /** An upload leaves the lookup of every other year as it was. */
  lemma FindOtherYear(sheets: seq<XlsSheet>, newSheet: XlsSheet, year: string)
    requires year != newSheet.year
    ensures FindByYear(Upserted(sheets, newSheet), year) == FindByYear(sheets, year)
  {
    FindAppend(Keep(sheets, OtherYear(newSheet.year)), newSheet, year);
    FindInOtherYears(sheets, newSheet.year, year);
  }

  /** The editor's state: the five counts and the sheet table. */
  class AffiliatesBoard {
    var stats: AffiliateStats
    var sheets: seq<XlsSheet>

    /** No two sheets of the table share a year, so a year's lookup is its one sheet. */
    ghost predicate Valid()
      reads this
    {
      UniqueYears(sheets)
    }

    /** The counts and the two sheets the editor starts with. */
    constructor ()
      ensures stats == AffiliateStats(150, 120, 100, 80, 450)
      ensures Consistent(stats)
      ensures Valid()
      ensures |sheets| == 2 && sheets[0].year == "2024-25" && sheets[1].year == "2023-24"
    {
      stats := AffiliateStats(150, 120, 100, 80, 450);
      sheets := [
        XlsSheet("2024-25", "students_2024_25.xlsx", "2024-01-15", "#"),
        XlsSheet("2023-24", "students_2023_24.xlsx", "2023-12-20", "#")];
    }

    /**
     * `handleStatsUpdate`: parse the input (0 when it is not a number), copy
     * the counts with the edited field replaced, and recompute the total on
     * the copy unless the total itself was edited. The sheets are untouched.
     */
    method UpdateStat(field: StatField, value: string)
      requires Valid()
      modifies this
      ensures Valid()
      ensures stats == Updated(old(stats), field, ParseIntOrZero(value))
      ensures sheets == old(sheets)
    {
      var numValue := ParseIntOrZero(value);
      var updated := WithField(stats, field, numValue);
      if field != TotalStudents {
        updated := updated.(totalStudents := updated.firstYear + updated.secondYear + updated.thirdYear + updated.fourthYear);
      }
      stats := updated;
    }

    /**
     * `handleFileUpload`: with no file selected nothing changes; otherwise a
     * sheet for `year` named after the first file replaces every sheet of that
     * year, at the end of the table. The counts are untouched.
     */
    method UploadSheet(files: seq<FileInfo>, year: string, uploadDate: string, downloadUrl: string)
      requires Valid()
      modifies this
      ensures Valid()
      ensures files == [] ==> sheets == old(sheets)
      ensures files != [] ==> sheets == Upserted(old(sheets), XlsSheet(year, files[0].name, uploadDate, downloadUrl))
      ensures files != [] ==> FindByYear(sheets, year) == Some(sheets[|sheets| - 1])
      ensures forall y :: y != year ==> FindByYear(sheets, y) == FindByYear(old(sheets), y)
      ensures forall k :: 0 <= k < |sheets| ==> FindByYear(sheets, sheets[k].year) == Some(sheets[k])
      ensures stats == old(stats)
    {
      if files != [] {
        var file := files[0];
        var newSheet := XlsSheet(year, file.name, uploadDate, downloadUrl);
        UpsertKeepsYearsUnique(sheets, newSheet);
        FindUploaded(sheets, newSheet);
        forall y | y != year
          ensures FindByYear(Upserted(sheets, newSheet), y) == FindByYear(sheets, y)
        {
          FindOtherYear(sheets, newSheet, y);
        }
        sheets := Keep(sheets, OtherYear(year)) + [newSheet];
      }
      forall k | 0 <= k < |sheets|
        ensures FindByYear(sheets, sheets[k].year) == Some(sheets[k])
      {
        FindUnique(sheets, k);
      }
    }
  }
}
