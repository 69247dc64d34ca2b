/**
 * The value normalisers and shape predicates of the purchases parser:
 * each raw cell text is recognised by its shape and rewritten into the
 * fixed-width text the AFIP purchases ledger (RG 3685) expects.
 * Python's exception-guarded `is_*` checks become total predicates and
 * the normalisers that can raise return `Option` or `Result`.
 */
module Normalizers {
  import opened Wrappers
  import opened Text

  /** The exceptions that escape `parse` or `correct_comp_tipo` and abort the run. */
  datatype Fatal =
    | UnknownVoucherType(cell: string)    // `raise Exception("No existe comprobante de tipo ...")`
    | DateBefore1900(cell: string)        // Python 2 `strftime` refuses years before 1900
    | NoVoucherNumber(cell: string)       // `re.search(...)` found nothing and `.group(0)` fails on None
    | NotAnInteger(text: string)          // `int()` of an amount that is not an integer literal

  // ---------------------------------------------------------------------
  // Dates: strptime(value, "%d/%m/%Y") and strftime("%Y%m%d")

  datatype Date = Date(year: nat, month: nat, day: nat)

  predicate IsLeapYear(y: nat) {
    y % 4 == 0 && (y % 100 != 0 || y % 400 == 0)
  }

  function DaysInMonth(month: nat, year: nat): nat {
    if month == 2 then (if IsLeapYear(year) then 29 else 28)
    else if month == 4 || month == 6 || month == 9 || month == 11 then 30
    else 31
  }

  /** A calendar date of the proleptic Gregorian calendar that Python's `datetime` accepts. */
  predicate ValidDate(dt: Date) {
    1 <= dt.year <= 9999 && 1 <= dt.month <= 12 && 1 <= dt.day <= DaysInMonth(dt.month, dt.year)
  }

  /** The `%d` directive: `3[01]|[12]\d|0[1-9]|[1-9]| [1-9]`. */
  function DayField(d: string): Option<nat> {
    if |d| == 1 && '1' <= d[0] <= '9' then Some(DigitValue(d[0]))
    else if |d| == 2 && d[0] == ' ' && '1' <= d[1] <= '9' then Some(DigitValue(d[1]))
    else if |d| == 2 && AllDigits(d) && 1 <= DigitsValue(d) <= 31 then Some(DigitsValue(d))
    else None
  }

  /** The `%m` directive: `1[0-2]|0[1-9]|[1-9]`. */
  function MonthField(m: string): Option<nat> {
    if |m| == 1 && '1' <= m[0] <= '9' then Some(DigitValue(m[0]))
    else if |m| == 2 && AllDigits(m) && 1 <= DigitsValue(m) <= 12 then Some(DigitsValue(m))
    else None
  }

  /** The `%Y` directive: four digits. */
  function YearField(y: string): Option<nat> {
    if |y| == 4 && AllDigits(y) then Some(DigitsValue(y)) else None
  }

  /**
   * What `datetime.strptime(s, "%d/%m/%Y")` reads from s: the whole text
   * must be day, '/', month, '/', year, and the date must exist.
   */
  function DateParts(s: string): (r: Option<Date>)
    ensures r.Some? ==> ValidDate(r.value)
  {
    var p := SplitOn(s, '/');
    if |p| != 3 then None
    else
      match (DayField(p[0]), MonthField(p[1]), YearField(p[2]))
      case (Some(d), Some(m), Some(y)) =>
        DigitsValueBound(p[2]);
        if 1 <= y && d <= DaysInMonth(m, y) then Some(Date(y, m, d)) else None
      case _ => None
  }

  /** `is_date`: strptime succeeds. */
  predicate IsDate(s: string) {
    DateParts(s).Some?
  }

  /**
   * `parse_fecha_cpa`: the date as YYYYMMDD. Python 2's `strftime` raises
   * for a year before 1900, which `is_date` lets through.
   */
  function ParseDate(s: string): Result<string, Fatal>
    requires IsDate(s)
  {
    var dt := DateParts(s).value;
    if dt.year < 1900 then Err(DateBefore1900(s))
    else Ok(CompactDate(dt))
  }

  /** `strftime("%Y%m%d")`: year, month and day zero-padded to 4, 2 and 2 digits. */
  function CompactDate(dt: Date): string {
    DigitsOf(dt.year, 4) + DigitsOf(dt.month, 2) + DigitsOf(dt.day, 2)
  }

  lemma DateDigitsCut(y: string, m: string, d: string)
    requires |y| == 4 && |m| == 2 && |d| == 2 && AllDigits(y) && AllDigits(m) && AllDigits(d)
    ensures var r := y + m + d;
      |r| == 8 && AllDigits(r) && r[..4] == y && r[4..6] == m && r[6..] == d
  {
    var r := y + m + d;
    assert forall i :: 0 <= i < 8 ==> r[i] == (if i < 4 then y[i] else if i < 6 then m[i - 4] else d[i - 6]);
  }

  /** The compact form of a valid date is eight digits that read back as its year, month and day. */
  lemma CompactDateDigits(dt: Date)
    requires ValidDate(dt)
    ensures var r := CompactDate(dt);
      |r| == 8 && AllDigits(r) &&
      DigitsValue(r[..4]) == dt.year && DigitsValue(r[4..6]) == dt.month && DigitsValue(r[6..]) == dt.day
  {
    var y, m, d := DigitsOf(dt.year, 4), DigitsOf(dt.month, 2), DigitsOf(dt.day, 2);
    DateDigitsCut(y, m, d);
    DigitsOfValue(dt.year, 4);
    DigitsOfValue(dt.month, 2);
    DigitsOfValue(dt.day, 2);
  }

  /** The date as D/M/YYYY text with two-digit day and month. */
  function SlashDate(dt: Date): string {
    DigitsOf(dt.day, 2) + "/" + DigitsOf(dt.month, 2) + "/" + DigitsOf(dt.year, 4)
  }

  /**
   * The normalised date is eight digits that read back as the year, the
   * month and the day of the cell, and it fails only for years before 1900.
   */
  lemma ParseDateMeaning(s: string)
    requires IsDate(s)
    ensures var dt := DateParts(s).value;
      (ParseDate(s).Err? <==> dt.year < 1900) &&
      (ParseDate(s).Ok? ==>
        var r := ParseDate(s).value;
        |r| == 8 && AllDigits(r) &&
        DigitsValue(r[..4]) == dt.year && DigitsValue(r[4..6]) == dt.month && DigitsValue(r[6..]) == dt.day)
  {
    CompactDateDigits(DateParts(s).value);
  }

  lemma DigitsHaveNoSlash(s: string)
    requires AllDigits(s)
    ensures forall i :: 0 <= i < |s| ==> s[i] != '/'
  {
  }

  /** Three digit groups joined by '/' split back into those groups. */
  lemma SplitSlashed(d: string, m: string, y: string)
    requires AllDigits(d) && AllDigits(m) && AllDigits(y)
    ensures SplitOn(d + "/" + m + "/" + y, '/') == [d, m, y]
  {
    DigitsHaveNoSlash(d);
    DigitsHaveNoSlash(m);
    DigitsHaveNoSlash(y);
    assert d + "/" + m + "/" + y == d + ['/'] + (m + ['/'] + y);
    SplitOnAfterPiece(d, '/', m + ['/'] + y);
    SplitOnAfterPiece(m, '/', y);
    SplitOnNoSeparator(y, '/');
  }

  /** The day, month and year fields of a valid date, zero-padded, are read back by their directives. */
  lemma FieldsOfDate(dt: Date)
    requires ValidDate(dt)
    ensures DayField(DigitsOf(dt.day, 2)) == Some(dt.day)
    ensures MonthField(DigitsOf(dt.month, 2)) == Some(dt.month)
    ensures YearField(DigitsOf(dt.year, 4)) == Some(dt.year)
  {
    DigitsOfValue(dt.day, 2);
    DigitsOfValue(dt.month, 2);
    DigitsOfValue(dt.year, 4);
  }

  /** Every valid date written as DD/MM/YYYY is recognised, and read back as that same date. */
  lemma SlashDateRoundTrip(dt: Date)
    requires ValidDate(dt)
    ensures DateParts(SlashDate(dt)) == Some(dt)
  {
    SplitSlashed(DigitsOf(dt.day, 2), DigitsOf(dt.month, 2), DigitsOf(dt.year, 4));
    FieldsOfDate(dt);
  }

  lemma ExampleDateDigits()
    ensures DigitsOf(1, 2) == "01" && DigitsOf(3, 2) == "03" && DigitsOf(2021, 4) == "2021"
  {
    assert DigitsOf(0, 0) == "";
    assert DigitsOf(0, 1) == "0";
    assert DigitsOf(2, 1) == "2";
    assert DigitsOf(20, 2) == "20";
    assert DigitsOf(202, 3) == "202";
  }

  /** `01/03/2021` is a date and becomes `20210301`. */
  lemma ParseDateExample(dt: Date)
    requires dt == Date(2021, 3, 1)
    ensures SlashDate(dt) == "01/03/2021"
    ensures IsDate(SlashDate(dt)) && ParseDate(SlashDate(dt)) == Ok("20210301")
  {
    ExampleDateDigits();
    SlashDateRoundTrip(dt);
    assert ParseDate(SlashDate(dt)) == Ok(CompactDate(dt));
    assert CompactDate(dt) == "2021" + "03" + "01" == "20210301";
  }

  // ---------------------------------------------------------------------
  // Voucher type: re.search("FAC[ ]*A", s) and the other six patterns

  /** From position j, zero or more ' ' and then `letter`. */
  function SpacesThenLetter(s: string, j: nat, letter: char): bool
    decreases |s| - j
  {
    j < |s| && (s[j] == letter || (s[j] == ' ' && SpacesThenLetter(s, j + 1, letter)))
  }

  /** `re.search(code + "[ ]*" + letter, s)` finds a match starting at i or later. */
  function SearchFrom(s: string, code: string, letter: char, i: nat): bool
    decreases |s| - i
  {
    i + |code| <= |s| &&
    ((s[i..i + |code|] == code && SpacesThenLetter(s, i + |code|, letter)) || SearchFrom(s, code, letter, i + 1))
  }

  function SearchPattern(s: string, code: string, letter: char): bool {
    SearchFrom(s, code, letter, 0)
  }

  /** s holds `code`, then spaces, then `letter`, from position i to position k. */
  ghost predicate PatternAt(s: string, code: string, letter: char, i: int, k: int) {
    0 <= i && i + |code| <= k < |s| && s[i..i + |code|] == code &&
    (forall m :: i + |code| <= m < k ==> s[m] == ' ') && s[k] == letter
  }

  ghost predicate LetterAfterSpaces(s: string, j: int, k: int, letter: char) {
    0 <= j <= k < |s| && (forall m :: j <= m < k ==> s[m] == ' ') && s[k] == letter
  }

  lemma {:induction false} SpacesThenLetterIff(s: string, j: nat, letter: char)
    ensures SpacesThenLetter(s, j, letter) <==> exists k :: LetterAfterSpaces(s, j, k, letter)
    decreases |s| - j
  {
    if j < |s| {
      SpacesThenLetterIff(s, j + 1, letter);
      if SpacesThenLetter(s, j, letter) {
        if s[j] == letter {
          assert LetterAfterSpaces(s, j, j, letter);
        } else {
          var k :| LetterAfterSpaces(s, j + 1, k, letter);
          assert LetterAfterSpaces(s, j, k, letter);
        }
      }
      if exists k :: LetterAfterSpaces(s, j, k, letter) {
        var k :| LetterAfterSpaces(s, j, k, letter);
        if k > j && s[j] != letter {
          assert s[j] == ' ';
          assert LetterAfterSpaces(s, j + 1, k, letter);
        }
      }
    }
  }

  lemma {:induction false} SearchFromIff(s: string, code: string, letter: char, i: nat)
    ensures SearchFrom(s, code, letter, i) <==> exists i', k :: i <= i' && PatternAt(s, code, letter, i', k)
    decreases |s| - i
  {
    if i + |code| <= |s| {
      SearchFromIff(s, code, letter, i + 1);
      SpacesThenLetterIff(s, i + |code|, letter);
      if s[i..i + |code|] == code && SpacesThenLetter(s, i + |code|, letter) {
        var k :| LetterAfterSpaces(s, i + |code|, k, letter);
        assert PatternAt(s, code, letter, i, k);
      }
      if exists i', k :: i <= i' && PatternAt(s, code, letter, i', k) {
        var i', k :| i <= i' && PatternAt(s, code, letter, i', k);
        if i' == i {
          assert LetterAfterSpaces(s, i + |code|, k, letter);
        } else {
          assert i + 1 <= i';
        }
      }
    } else {
      assert forall i', k :: i <= i' ==> !PatternAt(s, code, letter, i', k);
    }
  }

  /** The search succeeds exactly when the pattern occurs somewhere in s. */
  lemma SearchPatternIff(s: string, code: string, letter: char)
    ensures SearchPattern(s, code, letter) <==> exists i, k :: PatternAt(s, code, letter, i, k)
  {
    SearchFromIff(s, code, letter, 0);
  }

  /** One row of the voucher-type lookup: text code, class letter, AFIP code. */
  datatype VoucherClass = VoucherClass(code: string, letter: char, afip: string)

  /** The lookup in the order `parse_comp_tipo` tries it. */
  const VoucherTable: seq<VoucherClass> := [
    VoucherClass("FAC", 'A', "001"),
    VoucherClass("FAC", 'B', "006"),
    VoucherClass("FAC", 'C', "011"),
    VoucherClass("NCR", 'A', "003"),
    VoucherClass("NCR", 'B', "008"),
    VoucherClass("NDE", 'A', "002"),
    VoucherClass("NDE", 'B', "007")
  ]

  predicate MatchesClass(s: string, v: VoucherClass) {
    SearchPattern(s, v.code, v.letter)
  }

  /** `parse_comp_tipo`: the first of the seven patterns that occurs; None where Python raises. */
  function ParseVoucherType(s: string): Option<string> {
    if SearchPattern(s, "FAC", 'A') then Some("001")
    else if SearchPattern(s, "FAC", 'B') then Some("006")
    else if SearchPattern(s, "FAC", 'C') then Some("011")
    else if SearchPattern(s, "NCR", 'A') then Some("003")
    else if SearchPattern(s, "NCR", 'B') then Some("008")
    else if SearchPattern(s, "NDE", 'A') then Some("002")
    else if SearchPattern(s, "NDE", 'B') then Some("007")
    else None
  }

  /** Entry k is the first entry of the table whose pattern occurs in s. */
  predicate FirstClassIs(s: string, k: int) {
    0 <= k < |VoucherTable| && MatchesClass(s, VoucherTable[k]) &&
    forall j :: 0 <= j < k ==> !MatchesClass(s, VoucherTable[j])
  }

  /**
   * The lookup is the table read top to bottom: it yields the AFIP code of
   * the first entry whose pattern occurs, and fails exactly when none does.
   */
  lemma ParseVoucherTypeIsFirstMatch(s: string)
    ensures ParseVoucherType(s).None? <==> forall k :: 0 <= k < |VoucherTable| ==> !MatchesClass(s, VoucherTable[k])
    ensures ParseVoucherType(s).Some? ==> exists k :: FirstClassIs(s, k) && ParseVoucherType(s).value == VoucherTable[k].afip
  {
    var t := VoucherTable;
    if MatchesClass(s, t[0]) {
      assert FirstClassIs(s, 0);
    } else if MatchesClass(s, t[1]) {
      assert FirstClassIs(s, 1);
    } else if MatchesClass(s, t[2]) {
      assert FirstClassIs(s, 2);
    } else if MatchesClass(s, t[3]) {
      assert FirstClassIs(s, 3);
    } else if MatchesClass(s, t[4]) {
      assert FirstClassIs(s, 4);
    } else if MatchesClass(s, t[5]) {
      assert FirstClassIs(s, 5);
    } else if MatchesClass(s, t[6]) {
      assert FirstClassIs(s, 6);
    } else {
      forall k | 0 <= k < |t| ensures !MatchesClass(s, t[k]) {
      }
    }
  }

  /** The AFIP voucher-type codes the parser can produce, after correction included. */
  predicate IsVoucherCode(c: string) {
    c == "001" || c == "006" || c == "011" || c == "003" || c == "008" || c == "002" || c == "007"
  }

  lemma ParseVoucherTypeCodes(s: string)
    ensures ParseVoucherType(s).Some? ==> IsVoucherCode(ParseVoucherType(s).value) && |ParseVoucherType(s).value| == 3
  {
  }

  /** The canonical token `<code><n spaces><letter>` of a table entry. */
  function VoucherToken(v: VoucherClass, n: nat): string {
    v.code + Repeat(' ', n) + [v.letter]
  }

  /** What makes the canonical tokens of the table unambiguous: codes start with 'F' or 'N', which appear nowhere else. */
  predicate DistinctLead(v: VoucherClass) {
    |v.code| == 3 && (v.code[0] == 'F' || v.code[0] == 'N') &&
    v.code[1] !in "FN " && v.code[2] !in "FN " && v.letter !in "FN "
  }

  /** The pattern of an entry occurs in the canonical token of another entry only when both have the same code and letter. */
  lemma TokenMatchesOnlyItsClass(v: VoucherClass, n: nat, e: VoucherClass)
    requires DistinctLead(v) && DistinctLead(e)
    ensures MatchesClass(VoucherToken(v, n), e) <==> v.code == e.code && v.letter == e.letter
  {
    var s := VoucherToken(v, n);
    assert |s| == 4 + n;
    assert s[..3] == v.code;
    assert forall m :: 3 <= m < 3 + n ==> s[m] == ' ';
    assert s[3 + n] == v.letter;
    SearchPatternIff(s, e.code, e.letter);
    if v.code == e.code && v.letter == e.letter {
      assert PatternAt(s, e.code, e.letter, 0, 3 + n);
    }
    if exists i, k :: PatternAt(s, e.code, e.letter, i, k) {
      var i, k :| PatternAt(s, e.code, e.letter, i, k);
      assert s[i] == e.code[0];
      assert i == 0;
      assert e.code == v.code;
      assert k == 3 + n;
    }
  }

  lemma TableLeads()
    ensures forall j :: 0 <= j < |VoucherTable| ==> DistinctLead(VoucherTable[j])
  {
    forall j | 0 <= j < |VoucherTable| ensures DistinctLead(VoucherTable[j]) {
    }
  }

  /** No two entries of the table have the same code and letter. */
  lemma TableEntriesDistinct()
    ensures forall i, j ::
      (0 <= i < |VoucherTable| && 0 <= j < |VoucherTable| &&
       VoucherTable[i].code == VoucherTable[j].code && VoucherTable[i].letter == VoucherTable[j].letter) ==> i == j
  {
  }

  /** The lookup is total over its seven entries: each canonical token yields its own AFIP code. */
  lemma ParseVoucherTypeOfToken(k: nat, n: nat)
    requires k < |VoucherTable|
    ensures ParseVoucherType(VoucherToken(VoucherTable[k], n)) == Some(VoucherTable[k].afip)
  {
    var t := VoucherTable;
    var s := VoucherToken(t[k], n);
    TableLeads();
    TableEntriesDistinct();
    forall j | 0 <= j < |t| ensures MatchesClass(s, t[j]) <==> j == k {
      TokenMatchesOnlyItsClass(t[k], n, t[j]);
    }
    ParseVoucherTypeIsFirstMatch(s);
    var k' :| FirstClassIs(s, k') && ParseVoucherType(s).value == t[k'].afip;
    assert k' == k;
  }

  // ---------------------------------------------------------------------
  // Point of sale and voucher number: "[0-9]{4}-" and "-[0-9]{8}"

  /** `re.match("[0-9]{4}-", s)`: four digits and a dash at the start. */
  predicate StartsWithPointOfSale(s: string) {
    |s| >= 5 && AllDigits(s[..4]) && s[4] == '-'
  }

  /** `parse_pto_venta`: '0' and the four digits, with point of sale 0000 read as 0001. */
  function ParsePointOfSale(s: string): (r: string)
    requires StartsWithPointOfSale(s)
    ensures |r| == 5 && AllDigits(r) && r[0] == '0'
    ensures DigitsValue(r) == if DigitsValue(s[..4]) == 0 then 1 else DigitsValue(s[..4])
  {
    var p := s[..4];
    var digits := if p != "0000" then p else "0001";
    DigitsValueZero(p);
    DigitsValueLeadingZeros("0", digits);
    assert DigitsValue("0001") == 1 by {
      DigitsValueLeadingZeros("000", "1");
      assert "000" + "1" == "0001";
    }
    "0" + digits
  }

  lemma PointOfSaleExample()
    ensures ParsePointOfSale("0000-00000001") == "00001"
  {
  }

  /** A dash followed by eight digits at position i: `-[0-9]{8}`. */
  predicate VoucherDigitsAt(s: string, i: int) {
    0 <= i && i + 9 <= |s| && s[i] == '-' && AllDigits(s[i + 1..i + 9])
  }

  /** The leftmost match of `-[0-9]{8}` at position `from` or later. */
  function FindVoucherDigits(s: string, from: nat): (r: Option<nat>)
    ensures r.Some? ==> (from <= r.value && VoucherDigitsAt(s, r.value) &&
      forall j :: from <= j < r.value ==> !VoucherDigitsAt(s, j))
    ensures r.None? ==> forall j :: from <= j ==> !VoucherDigitsAt(s, j)
    decreases |s| - from
  {
    if from + 9 > |s| then None
    else if VoucherDigitsAt(s, from) then Some(from)
    else FindVoucherDigits(s, from + 1)
  }

  /**
   * `parse_nro_comprobante`: twelve zeros and the eight digits after the
   * leftmost dash that eight digits follow; None where Python fails.
   */
  function ParseVoucherNumber(s: string): (r: Option<string>)
    ensures r.None? <==> forall i :: !VoucherDigitsAt(s, i)
    ensures r.Some? ==> (|r.value| == 20 && AllDigits(r.value) &&
      exists i :: VoucherDigitsAt(s, i) && (forall j :: 0 <= j < i ==> !VoucherDigitsAt(s, j)) &&
        r.value == Repeat('0', 12) + s[i + 1..i + 9])
  {
    match FindVoucherDigits(s, 0)
    case None => None
    case Some(i) => Some(Repeat('0', 12) + s[i + 1..i + 9])
  }

  /**
   * On a voucher id `PPPP-NNNNNNNN` the number is twelve zeros and the
   * eight digits after the dash: the point-of-sale digits hold no dash, so
   * no earlier match exists.
   */
  lemma VoucherNumberOfId(pv: string, n: string)
    requires |pv| == 4 && AllDigits(pv) && |n| == 8 && AllDigits(n)
    ensures ParseVoucherNumber(pv + "-" + n) == Some(Repeat('0', 12) + n)
  {
    var s := pv + "-" + n;
    assert s[5..13] == n;
    assert VoucherDigitsAt(s, 4);
    forall j | 0 <= j < 4 ensures !VoucherDigitsAt(s, j) {
      assert s[j] == pv[j];
    }
    var i := FindVoucherDigits(s, 0).value;
    assert i == 4;
  }


  // ---------------------------------------------------------------------
  // CUIT: "[0-9]{2}-[0-9]{8}-[0-9]"

  predicate CuitAt(s: string, i: int) {
    0 <= i && i + 13 <= |s| && AllDigits(s[i..i + 2]) && s[i + 2] == '-' &&
    AllDigits(s[i + 3..i + 11]) && s[i + 11] == '-' && IsDigit(s[i + 12])
  }

  /** `is_cuit`: the pattern at the start of the cell (`re.match`). */
  predicate IsCuit(s: string) {
    CuitAt(s, 0)
  }

  function FindCuit(s: string, from: nat): (r: Option<nat>)
    ensures r.Some? ==> from <= r.value && CuitAt(s, r.value) && forall j :: from <= j < r.value ==> !CuitAt(s, j)
    ensures r.None? ==> forall j :: from <= j ==> !CuitAt(s, j)
    decreases |s| - from
  {
    if from + 13 > |s| then None
    else if CuitAt(s, from) then Some(from)
    else FindCuit(s, from + 1)
  }

  /** `parse_id_vendedor`: nine zeros and the leftmost CUIT found anywhere (`re.search`), dashes removed. */
  function ParseSellerId(s: string): Option<string> {
    match FindCuit(s, 0)
    case None => None
    case Some(i) => Some(Repeat('0', 9) + RemoveChar(s[i..i + 13], '-'))
  }

  /**
   * On a cell that starts with a CUIT the seller id is twenty digits: nine
   * zeros, then the eleven digits of that CUIT without its dashes.
   */
  lemma SellerIdOfCuit(s: string)
    requires IsCuit(s)
    ensures ParseSellerId(s).Some?
    ensures var r := ParseSellerId(s).value;
      |r| == 20 && AllDigits(r) && r == Repeat('0', 9) + s[0..2] + s[3..11] + s[12..13]
  {
    var a, b, c := s[0..2], s[3..11], s[12..13];
    assert AllDigits(c);
    assert s[0..13] == a + "-" + b + "-" + c;
    DashedDigits(a, b, c);
    var zeros := Repeat('0', 9);
    assert AllDigits(zeros);
    assert zeros + (a + b + c) == zeros + a + b + c;
  }

  /** Removing the dashes of digit groups joined by dashes leaves the digits. */
  lemma DashedDigits(a: string, b: string, c: string)
    requires AllDigits(a) && AllDigits(b) && AllDigits(c)
    ensures RemoveChar(a + "-" + b + "-" + c, '-') == a + b + c
  {
    var x := a + "-";
    var y := x + b;
    var z := y + "-";
    RemoveCharAbsent(a, '-');
    RemoveCharAbsent(b, '-');
    RemoveCharAbsent(c, '-');
    assert RemoveChar("-", '-') == "";
    RemoveCharAppend(a, "-", '-');
    assert RemoveChar(x, '-') == a;
    RemoveCharAppend(x, b, '-');
    assert RemoveChar(y, '-') == a + b;
    RemoveCharAppend(y, "-", '-');
    assert RemoveChar(z, '-') == a + b;
    RemoveCharAppend(z, c, '-');
  }

  // ---------------------------------------------------------------------
  // Legal name

  const LegalNameWidth: nat := 30

  /** 'Ñ', which the fixed-width ledger does not accept. */
  const EnieUpper: char := '\U{00D1}'

  /** The name before padding: "RI" deleted when the header names IVA, 'Ñ' made 'N', whitespace collapsed. */
  function CleanLegalName(value: string, feature: string): string {
    var parsed := if Contains(feature, "IVA") then ReplaceAll(value, "RI", "") else value;
    Collapse(ReplaceChar(parsed, EnieUpper, 'N'))
  }

  /** `parse_razon_social`: the cleaned name right-padded with spaces to 30, never cut. */
  function ParseLegalName(value: string, feature: string): string {
    var t := CleanLegalName(value, feature);
    t + Repeat(' ', LegalNameWidth - |t|)
  }

  /**
   * The legal-name field starts with the cleaned name, in full, followed by
   * spaces up to width 30; the cleaned name has single inner spaces and no
   * blank ends, holds no 'Ñ', and has the words of the cell (after the "RI"
   * deletion and the 'Ñ' replacement), in order.
   */
  lemma LegalNameMeaning(value: string, feature: string)
    ensures var t := CleanLegalName(value, feature);
      var r := ParseLegalName(value, feature);
      var parsed := if Contains(feature, "IVA") then ReplaceAll(value, "RI", "") else value;
      |r| == (if |t| > LegalNameWidth then |t| else LegalNameWidth) &&
      r[..|t|] == t && (forall i :: |t| <= i < |r| ==> r[i] == ' ') &&
      Collapsed(t) && EnieUpper !in t &&
      Words(t) == Words(ReplaceChar(parsed, EnieUpper, 'N')) &&
      NonSpace(t) == NonSpace(ReplaceChar(parsed, EnieUpper, 'N'))
  {
    var parsed := if Contains(feature, "IVA") then ReplaceAll(value, "RI", "") else value;
    var x := ReplaceChar(parsed, EnieUpper, 'N');
    assert EnieUpper !in x;
    CollapsedWithout(x, EnieUpper);
    PadRight(CleanLegalName(value, feature));
  }

  /** Collapsing whitespace adds no non-whitespace character. */
  lemma CollapsedWithout(x: string, c: char)
    requires c !in x && !IsSpace(c)
    ensures var t := Collapse(x); Collapsed(t) && c !in t && Words(t) == Words(x) && NonSpace(t) == NonSpace(x)
  {
    var t := Collapse(x);
    CollapseMeaning(x);
    NonSpaceMembers(t, c);
    NonSpaceMembers(x, c);
  }

  /** A name right-padded with spaces to the field width. */
  lemma PadRight(t: string)
    ensures var r := t + Repeat(' ', LegalNameWidth - |t|);
      |r| == (if |t| > LegalNameWidth then |t| else LegalNameWidth) &&
      r[..|t|] == t && (forall i :: |t| <= i < |r| ==> r[i] == ' ')
  {
  }

  /** Without "IVA" in the header no text is deleted: only whitespace and 'Ñ' change. */
  lemma LegalNameKeepsRIWithoutIVA(value: string, feature: string)
    requires !Contains(feature, "IVA")
    ensures Words(CleanLegalName(value, feature)) == Words(ReplaceChar(value, EnieUpper, 'N'))
    ensures NonSpace(CleanLegalName(value, feature)) == NonSpace(ReplaceChar(value, EnieUpper, 'N'))
  {
    LegalNameMeaning(value, feature);
  }

  // ---------------------------------------------------------------------
  // Amounts

  const AmountWidth: nat := 15

  /** `split_number`: the text must hold exactly one '.'; every '-' is dropped from the integer part. */
  function SplitNumber(value: string): Option<(string, string)> {
    var p := SplitOn(value, '.');
    if |p| == 2 then Some((RemoveChar(p[0], '-'), p[1])) else None
  }

  /** The digits an amount is written with: the integer part, then the fraction padded to two places when it has one. */
  function AmountDigits(integer: string, decimal: string): string {
    integer + (if |decimal| == 1 then decimal + "0" else decimal)
  }

  /** `parse_decimal_number`: the digits left-padded with '0' to 15, never cut. */
  function ParseAmount(value: string): Option<string> {
    match SplitNumber(value)
    case None => None
    case Some((integer, decimal)) =>
      var digits := AmountDigits(integer, decimal);
      Some(Repeat('0', AmountWidth - |digits|) + digits)
  }

  /**
   * A number splits exactly when it holds one '.': it is then the two
   * parts joined by that '.', the integer part without its '-' signs.
   */
  lemma SplitNumberMeaning(value: string)
    ensures SplitNumber(value).Some? <==> Count(value, '.') == 1
    ensures SplitNumber(value).Some? ==> exists a, b ::
      value == a + "." + b && '.' !in a && '.' !in b &&
      SplitNumber(value).value == (RemoveChar(a, '-'), b)
  {
    SplitOnShape(value, '.');
    var p := SplitOn(value, '.');
    if |p| == 2 {
      assert JoinWith(p, ".") == p[0] + "." + JoinWith(p[1..], ".");
      assert p[1..] == [p[1]];
      assert forall i :: 0 <= i < |p[0]| ==> p[0][i] != '.';
      assert forall i :: 0 <= i < |p[1]| ==> p[1][i] != '.';
      assert value == p[0] + "." + p[1];
      assert '.' !in p[0] && '.' !in p[1];
      assert SplitNumber(value).value == (RemoveChar(p[0], '-'), p[1]);
    }
  }

  /**
   * The amount field is max(15, n) characters for the n digits it is
   * written with: zeros, then those digits, which are never cut.
   */
  lemma AmountShape(value: string)
    requires SplitNumber(value).Some?
    ensures var (integer, decimal) := SplitNumber(value).value;
      var digits := AmountDigits(integer, decimal);
      var r := ParseAmount(value).value;
      |r| == (if |digits| > AmountWidth then |digits| else AmountWidth) &&
      r[|r| - |digits|..] == digits && (forall i :: 0 <= i < |r| - |digits| ==> r[i] == '0') &&
      '-' !in integer
  {
  }

  /**
   * For a number written with digits and one or two decimals, the field
   * holds the amount in hundredths: `12.5` and `12.50` both become 1250.
   */
  lemma AmountInHundredths(a: string, b: string)
    requires AllDigits(a) && AllDigits(b) && 1 <= |b| <= 2
    ensures ParseAmount(a + "." + b).Some?
    ensures var r := ParseAmount(a + "." + b).value;
      AllDigits(r) && DigitsValue(r) == DigitsValue(a) * 100 + DigitsValue(b) * (if |b| == 1 then 10 else 1)
  {
    AmountOfDigits(a, b);
    AmountDigitsValue(a, b);
    var digits := AmountDigits(a, b);
    var zeros := Repeat('0', AmountWidth - |digits|);
    DigitsValueLeadingZeros(zeros, digits);
    var r := ParseAmount(a + "." + b).value;
    assert r == zeros + digits;
    assert DigitsValue(r) == DigitsValue(digits);
  }

  /** A number made of digits and one '.' splits at that '.' and keeps its digits. */
  lemma AmountOfDigits(a: string, b: string)
    requires AllDigits(a) && AllDigits(b)
    ensures SplitNumber(a + "." + b) == Some((a, b))
    ensures var digits := AmountDigits(a, b);
      ParseAmount(a + "." + b) == Some(Repeat('0', AmountWidth - |digits|) + digits)
  {
    var value := a + "." + b;
    assert value == a + ['.'] + b;
    SplitOnAfterPiece(a, '.', b);
    SplitOnNoSeparator(b, '.');
    RemoveCharAbsent(a, '-');
  }

  /** The digits of an amount with one or two decimals denote its value in hundredths. */
  lemma AmountDigitsValue(a: string, b: string)
    requires AllDigits(a) && AllDigits(b) && 1 <= |b| <= 2
    ensures AllDigits(AmountDigits(a, b))
    ensures DigitsValue(AmountDigits(a, b)) == DigitsValue(a) * 100 + DigitsValue(b) * (if |b| == 1 then 10 else 1)
  {
    var d := if |b| == 1 then b + "0" else b;
    assert AmountDigits(a, b) == a + d;
    DigitsValueAppend(a, d);
    assert Pow10(|d|) == 100;
    if |b| == 1 {
      DigitsValueAppend(b, "0");
      assert DigitsValue("0") == 0;
      assert DigitsValue(d) == DigitsValue(b) * 10;
    }
  }

  /** `extract_neto` and `extract_rs_rni`: the second piece of `raw.split(" ")`, or the whole cell without a space. */
  function SecondToken(raw: string): string {
    var p := SplitOn(raw, ' ');
    if |p| > 1 then p[1] else p[0]
  }

  /** `extract_ex_int_ot`: the first piece of `raw.split(" ")`. */
  function FirstToken(raw: string): string {
    SplitOn(raw, ' ')[0]
  }

  /**
   * The first token is the text before the first space; the second is the
   * text between the first and the second space (or the end), and the
   * whole cell when it has no space.
   */
  lemma TokensMeaning(raw: string)
    ensures var f := FirstToken(raw);
      |f| <= |raw| && raw[..|f|] == f && ' ' !in f && (|f| < |raw| ==> raw[|f|] == ' ')
    ensures ' ' !in raw ==> SecondToken(raw) == raw
    ensures ' ' in raw ==> var f := FirstToken(raw); var t := SecondToken(raw);
      |f| + 1 + |t| <= |raw| && raw[|f| + 1..|f| + 1 + |t|] == t && ' ' !in t &&
      (|f| + 1 + |t| < |raw| ==> raw[|f| + 1 + |t|] == ' ')
  {
    FirstPiece(raw, ' ');
    var f := FirstToken(raw);
    if |f| < |raw| {
      SecondTokenAfterFirst(raw, f);
      assert raw[|f|] == ' ';
    } else {
      assert f == raw && SplitOn(raw, ' ') == [raw];
    }
  }

  lemma SecondTokenAfterFirst(raw: string, f: string)
    requires |f| < |raw| && raw[..|f|] == f && raw[|f|] == ' '
    requires SplitOn(raw, ' ') == [f] + SplitOn(raw[|f| + 1..], ' ')
    ensures var t := SecondToken(raw);
      |f| + 1 + |t| <= |raw| && raw[|f| + 1..|f| + 1 + |t|] == t && ' ' !in t &&
      (|f| + 1 + |t| < |raw| ==> raw[|f| + 1 + |t|] == ' ')
  {
    var k := |f| + 1;
    var rest := raw[k..];
    FirstPiece(rest, ' ');
    var t := SplitOn(rest, ' ')[0];
    assert SecondToken(raw) == t;
    assert raw[k..k + |t|] == rest[..|t|];
    if k + |t| < |raw| {
      assert raw[k + |t|] == rest[|t|];
    }
  }


  // ---------------------------------------------------------------------
  // Shape predicates of the classifier

  /** `is_comp_tipo`: the header names the voucher column and the cell names a voucher kind. */
  predicate IsVoucherTypeCell(cell: string, feature: string) {
    Contains(feature, "Comp") && (Contains(cell, "FAC") || Contains(cell, "NCR") || Contains(cell, "NDE"))
  }

  /** `is_nro_comprobante`. */
  predicate IsVoucherIdCell(cell: string, feature: string) {
    Contains(feature, "comprobante") && StartsWithPointOfSale(cell)
  }

  /** `is_neto_gravado`. */
  predicate IsNetoGravado(feature: string, cell: string) {
    SplitNumber(SecondToken(cell)).Some? && Contains(feature, "Neto Gravado")
  }

  /** `is_ex_int_ot`. */
  predicate IsExIntOt(feature: string, cell: string) {
    SplitNumber(FirstToken(cell)).Some? && Contains(feature, "Ex/Int/Ot")
  }

  /** `is_rs_rni`. */
  predicate IsRsRni(feature: string, cell: string) {
    SplitNumber(SecondToken(cell)).Some? && Contains(feature, "RS/Rni")
  }

  /** `is_percepcion`. */
  predicate IsPercepcion(feature: string, cell: string) {
    SplitNumber(cell).Some? && Contains(feature, "Percepci")
  }

  /** `is_razon_social`: decided by the header alone. */
  predicate IsLegalNameColumn(feature: string) {
    Contains(feature, "social")
  }

  /** `is_total`. */
  predicate IsTotal(feature: string, cell: string) {
    SplitNumber(cell).Some? && Contains(feature, "Total")
  }

  /** `is_iva`. */
  predicate IsIva(feature: string, cell: string) {
    SplitNumber(cell).Some? && Contains(feature, "IVA")
  }
}
