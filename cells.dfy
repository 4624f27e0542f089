/** Cell interpreters of the statistics extractor (scripts/fetch-data.js):
    raw worksheet cells, `toNumber`, `toDate` and the small helpers the
    extractor builds on (`toDateString`, `maxDate`, `round`, `rowHasNumber`,
    `calculateDrawsSince`). */
module Cells {
  import opened Support

  /** A raw cell as the workbook reader hands it over (raw values, empty
      cells as null). Numbers are finite; a date cell holds its UTC time in
      milliseconds. */
  datatype Cell = Num(n: real) | Str(s: string) | Bool(b: bool) | DateV(ms: int) | Null

  type Row = seq<Cell>

  const MsPerDay: int := 86400000

  /** Numbers below this are never read as spreadsheet date serials. */
  const MinSerialDate: real := 20000.0

  /** JavaScript truthiness of a cell: null, 0, '' and false are falsy. */
  predicate IsFalsy(c: Cell)
  {
    c == Null || c == Num(0.0) || c == Str("") || c == Bool(false)
  }

  /** Number.isInteger on a cell. */
  predicate IsIntegerCell(c: Cell)
  {
    c.Num? && c.n == c.n.Floor as real
  }

  /** The cell at column i, or null past the end of the row (JavaScript
      reads `row[i]` as undefined there, which every interpreter treats
      like null). */
  function CellAt(row: Row, i: nat): Cell
  {
    if i < |row| then row[i] else Null
  }

  /** `String(cell || '').toLowerCase()` as far as header keywords can tell:
      a number, a boolean or a date renders with digits, signs, 'true' or a
      date text and holds none of the keywords the column classifier looks
      for, so only text cells are kept. */
  function HeaderText(c: Cell): string
  {
    if c.Str? then Lower(c.s) else ""
  }

  // ----- toNumber -----

  /** `value.replace(',', '.')`: only the first comma becomes a point. */
  function ReplaceFirstComma(s: string): (r: string)
    ensures |r| == |s|
    ensures forall i :: 0 <= i < |s| ==> (IsDigit(r[i]) <==> IsDigit(s[i]))
  {
    if s == [] then []
    else if s[0] == ',' then ['.'] + s[1..]
    else [s[0]] + ReplaceFirstComma(s[1..])
  }

  /** `.replace(/[^\d.]/g, '')`: keeps ASCII digits and points only. */
  function KeepNumeric(s: string): (r: string)
    ensures forall i :: 0 <= i < |r| ==> IsDigit(r[i]) || r[i] == '.'
    ensures (forall i :: 0 <= i < |s| ==> !IsDigit(s[i])) ==> forall i :: 0 <= i < |r| ==> r[i] == '.'
  {
    if s == [] then []
    else (if IsDigit(s[0]) || s[0] == '.' then [s[0]] else []) + KeepNumeric(s[1..])
  }

  /** Length of the run of digits at the front of s. */
  function DigitRun(s: string): (k: nat)
    ensures k <= |s| && AllDigits(s[..k])
    ensures k == |s| || !IsDigit(s[k])
  {
    if s != [] && IsDigit(s[0]) then
      var k := 1 + DigitRun(s[1..]);
      assert s[..k] == [s[0]] + s[1..][..k - 1];
      k
    else 0
  }

  function Pow10(n: nat): (p: nat)
    ensures p >= 1
  {
    if n == 0 then 1 else 10 * Pow10(n - 1)
  }

  /** The value 0.d1d2... of the digits after a decimal point. */
  function FractionValue(ds: string): (f: real)
    requires AllDigits(ds)
    ensures 0.0 <= f < 1.0
  {
    if ds == [] then 0.0
    else (DigitValue(ds[0]) as real + FractionValue(ds[1..])) / 10.0
  }

  /** `parseFloat` on a text made of digits and points only: the longest
      prefix of the form `digits[.digits]` or `.digits`, else NaN (None). */
  function ParseFloat(c: string): (r: Option<real>)
    ensures r.Some? ==> r.value >= 0.0
  {
    var k := DigitRun(c);
    if k > 0 then
      var whole := DigitsValue(c[..k]) as real;
      if k < |c| && c[k] == '.' then
        var f := c[k + 1..];
        Some(whole + FractionValue(f[..DigitRun(f)]))
      else Some(whole)
    else if |c| >= 2 && c[0] == '.' && IsDigit(c[1]) then
      var f := c[1..];
      Some(FractionValue(f[..DigitRun(f)]))
    else None
  }

  /** `toNumber`: a number cell as it is, a text cell through the decimal
      comma fix, the strip of everything but digits and points, and
      parseFloat; anything else gives null. */
  function ToNumber(c: Cell): (r: Option<real>)
    ensures c.Num? ==> r == Some(c.n)
    ensures c.Str? && r.Some? ==> r.value >= 0.0
    ensures c.Str? && (forall i :: 0 <= i < |c.s| ==> !IsDigit(c.s[i])) ==> r == None
    ensures c.Null? || c.Bool? || c.DateV? ==> r == None
  {
    match c
    case Num(x) => Some(x)
    case Str(s) =>
      var t := KeepNumeric(ReplaceFirstComma(s));
      assert (forall i :: 0 <= i < |s| ==> !IsDigit(s[i])) ==> DigitRun(t) == 0;
      ParseFloat(t)
    case _ => None
  }

  lemma {:induction false} ReplaceFirstCommaNoComma(s: string)
    requires forall i :: 0 <= i < |s| ==> s[i] != ','
    ensures ReplaceFirstComma(s) == s
  {
    if s != [] {
      ReplaceFirstCommaNoComma(s[1..]);
    }
  }

  lemma {:induction false} KeepNumericKeeps(s: string)
    requires forall i :: 0 <= i < |s| ==> IsDigit(s[i]) || s[i] == '.'
    ensures KeepNumeric(s) == s
  {
    if s != [] {
      KeepNumericKeeps(s[1..]);
    }
  }

  lemma {:induction false} DigitRunOfDigits(s: string, t: string)
    requires AllDigits(s)
    requires t == [] || !IsDigit(t[0])
    ensures DigitRun(s + t) == |s|
  {
    if s != [] {
      assert (s + t)[1..] == s[1..] + t;
      DigitRunOfDigits(s[1..], t);
    } else {
      assert s + t == t;
    }
  }

  /** The text String(n) writes for a whole number reads back as that
      number. */
  lemma NumberTextRoundTrip(n: nat)
    ensures ToNumber(Str(NatToString(n))) == Some(n as real)
  {
    var s := NatToString(n);
    ReplaceFirstCommaNoComma(s);
    KeepNumericKeeps(s);
    DigitRunOfDigits(s, []);
    assert s + [] == s;
    assert s[..|s|] == s;
  }

  /** A decimal comma is read as a decimal point: "12,5" gives 12.5. */
  lemma DecimalComma(s: string, w: string, f: string)
    requires |w| > 0 && AllDigits(w) && AllDigits(f)
    requires s == w + ("," + f)
    ensures ToNumber(Str(s)) == Some(DigitsValue(w) as real + FractionValue(f))
  {
    var t := CleanDecimal(s, w, f);
    ParseFloatOfDecimal(t, w, f);
  }

  lemma CleanDecimal(s: string, w: string, f: string) returns (t: string)
    requires AllDigits(w) && AllDigits(f)
    requires s == w + ("," + f)
    ensures t == KeepNumeric(ReplaceFirstComma(s)) && t == w + ("." + f)
  {
    t := w + ("." + f);
    assert ReplaceFirstComma(s) == t by {
      ReplaceFirstCommaSkips(w, "," + f);
      assert ("," + f)[1..] == f;
    }
    forall i | 0 <= i < |t| ensures IsDigit(t[i]) || t[i] == '.' {
      if i < |w| { assert t[i] == w[i]; }
      else if i > |w| { assert t[i] == f[i - |w| - 1]; }
    }
    KeepNumericKeeps(t);
  }

  lemma ParseFloatOfDecimal(t: string, w: string, f: string)
    requires |w| > 0 && AllDigits(w) && AllDigits(f)
    requires t == w + ("." + f)
    ensures ParseFloat(t) == Some(DigitsValue(w) as real + FractionValue(f))
  {
    var x, y := DecimalParts(t, w, f);
  }

  /** The digit runs ParseFloat reads in `w.f`, named so that the caller
      can substitute them without unfolding ParseFloat again. */
  lemma DecimalParts(t: string, w: string, f: string) returns (x: string, y: string)
    requires |w| > 0 && AllDigits(w) && AllDigits(f)
    requires t == w + ("." + f)
    ensures x == w && y == f
    ensures ParseFloat(t) == Some(DigitsValue(x) as real + FractionValue(y))
  {
    DigitRunOfDigits(w, "." + f);
    var k := DigitRun(t);
    assert k == |w|;
    assert k < |t| && t[k] == '.';
    var g := t[k + 1..];
    assert ParseFloat(t) == Some(DigitsValue(t[..k]) as real + FractionValue(g[..DigitRun(g)]));
    assert g == f;
    DigitRunOfDigits(f, []);
    assert f + [] == f;
    assert f[..|f|] == f;
    x := t[..k];
    y := g[..DigitRun(g)];
  }

  lemma {:induction false} ReplaceFirstCommaSkips(w: string, rest: string)
    requires forall i :: 0 <= i < |w| ==> w[i] != ','
    requires |rest| > 0 && rest[0] == ','
    ensures ReplaceFirstComma(w + rest) == w + ("." + rest[1..])
  {
    if w == [] {
      assert w + rest == rest;
    } else {
      var t := w[1..] + rest;
      assert w + rest == [w[0]] + t;
      ReplaceFirstCommaCons(w[0], t);
      ReplaceFirstCommaSkips(w[1..], rest);
      assert [w[0]] + w[1..] == w;
    }
  }

  lemma ReplaceFirstCommaCons(c: char, t: string)
    requires c != ','
    ensures ReplaceFirstComma([c] + t) == [c] + ReplaceFirstComma(t)
  {
    assert ([c] + t)[1..] == t;
  }

  // ----- calendar arithmetic (proleptic Gregorian, UTC) -----

  /** Days since 1970-01-01 of a civil date with month in 1..12. */
  function DaysFromCivil(y: int, m: int, d: int): int
    requires 1 <= m <= 12
  {
    var y1 := if m <= 2 then y - 1 else y;
    var era := y1 / 400;
    var yoe := y1 - era * 400;
    var mp := if m > 2 then m - 3 else m + 9;
    var doy := (153 * mp + 2) / 5 + d - 1;
    var doe := yoe * 365 + yoe / 4 - yoe / 100 + doy;
    era * 146097 + doe - 719468
  }

  datatype CivilDate = CivilDate(year: int, month: int, day: int)

  /** The civil date of a day number (inverse of DaysFromCivil). */
  function CivilFromDays(z: int): (c: CivilDate)
    ensures 1 <= c.month <= 12 && 1 <= c.day <= 31
  {
    var z1 := z + 719468;
    var era := z1 / 146097;
    var doe := z1 - era * 146097;
    var yoe := (doe - doe / 1460 + doe / 36524 - doe / 146096) / 365;
    var doy := doe - (365 * yoe + yoe / 4 - yoe / 100);
    var mp := (5 * doy + 2) / 153;
    var d := doy - (153 * mp + 2) / 5 + 1;
    var m := if mp < 10 then mp + 3 else mp - 9;
    CivilDate(if m <= 2 then yoe + era * 400 + 1 else yoe + era * 400, m, d)
  }

  /** `Date.UTC(year, month, day)` with a zero-based month: months outside
      0..11 carry into the year, days outside the month carry into the next
      ones, and a year 0..99 means 1900..1999. */
  function UtcDate(year: int, month: int, day: int): (ms: int)
    ensures ms % MsPerDay == 0
  {
    var y := if 0 <= year <= 99 then 1900 + year else year;
    var ym := y + month / 12;
    var mn := month % 12;
    (DaysFromCivil(ym, mn + 1, 1) + day - 1) * MsPerDay
  }

  /** The UTC calendar date of a timestamp. */
  function DateOf(ms: int): CivilDate
  {
    CivilFromDays(ms / MsPerDay)
  }

  /** `date.getUTCFullYear()`. */
  function YearOf(ms: int): int
  {
    DateOf(ms).year
  }

  // ----- toDate -----

  /** What `toDate` asks of outside code: the host's `new Date(text)`
      (None when it is an invalid date) and the workbook library's
      `SSF.parse_date_code` for a serial number (None when it gives null). */
  datatype DateOracles = DateOracles(
    parseText: string -> Option<int>,
    serialDateCode: real -> Option<CivilDate>)

  predicate IsDateSeparator(c: char) { c == '/' || c == '.' || c == '-' }

  /** Number of digits at s[i..], at most `max` of them. */
  function DigitsAt(s: string, i: nat, max: nat): (n: nat)
    requires i <= |s|
    ensures n <= max && i + n <= |s|
    ensures AllDigits(s[i..i + n])
    ensures n == max || i + n == |s| || !IsDigit(s[i + n])
    decreases max
  {
    if max == 0 || i == |s| || !IsDigit(s[i]) then 0
    else
      var n := 1 + DigitsAt(s, i + 1, max - 1);
      assert s[i..i + n] == [s[i]] + s[i + 1..i + n];
      n
  }

  /** The three groups of `/(\d{1,2})[\/.-](\d{1,2})[\/.-](\d{2,4})/`. */
  datatype DmyMatch = DmyMatch(day: string, month: string, year: string)

  predicate ValidMatch(m: DmyMatch)
  {
    AllDigits(m.day) && AllDigits(m.month) && AllDigits(m.year)
  }

  /** The regular expression tried at position i. Each group takes as many
      digits as it may; backtracking to a shorter group never helps, since
      the character after it would then be a digit, not a separator. */
  function MatchDmyAt(s: string, i: nat): (r: Option<DmyMatch>)
    requires i <= |s|
    ensures r.Some? ==> ValidMatch(r.value)
    ensures r.Some? ==> 1 <= |r.value.day| <= 2 && 1 <= |r.value.month| <= 2 && 2 <= |r.value.year| <= 4
  {
    var n1 := DigitsAt(s, i, 2);
    if n1 == 0 || !SeparatorAt(s, i + n1) then None
    else MatchMonthYear(s, i, n1)
  }

  /** A date separator at position p. */
  predicate SeparatorAt(s: string, p: nat)
  {
    p < |s| && IsDateSeparator(s[p])
  }

  /** The month and the year groups, after a day group of n1 digits at i
      and its separator. */
  function MatchMonthYear(s: string, i: nat, n1: nat): (r: Option<DmyMatch>)
    requires 1 <= n1 <= 2 && i + n1 < |s| && AllDigits(s[i..i + n1])
    ensures r.Some? ==> ValidMatch(r.value)
    ensures r.Some? ==> 1 <= |r.value.day| <= 2 && 1 <= |r.value.month| <= 2 && 2 <= |r.value.year| <= 4
  {
    var j := i + n1 + 1;
    var n2 := DigitsAt(s, j, 2);
    if n2 == 0 || !SeparatorAt(s, j + n2) then None
    else MatchYearGroup(s[i..i + n1], s[j..j + n2], s, j + n2 + 1)
  }

  /** The year group at k, after the day and month groups. */
  function MatchYearGroup(day: string, month: string, s: string, k: nat): (r: Option<DmyMatch>)
    requires 1 <= |day| <= 2 && 1 <= |month| <= 2 && AllDigits(day) && AllDigits(month) && k <= |s|
    ensures r.Some? ==> ValidMatch(r.value) && r.value.day == day && r.value.month == month
    ensures r.Some? ==> 2 <= |r.value.year| <= 4
  {
    var n3 := DigitsAt(s, k, 4);
    if n3 < 2 then None else Some(DmyMatch(day, month, s[k..k + n3]))
  }


  /** `text.match(re)`: the match at the leftmost position where there is one. */
  function FindDmy(s: string, from: nat): (r: Option<DmyMatch>)
    requires from <= |s|
    ensures r.Some? ==> ValidMatch(r.value)
    decreases |s| - from
  {
    if from == |s| then None
    else match MatchDmyAt(s, from)
      case Some(m) => Some(m)
      case None => FindDmy(s, from + 1)
  }

  /** A two-digit year is read as 20yy; otherwise the digits are the year. */
  function MatchYear(m: DmyMatch): int
    requires ValidMatch(m)
  {
    if |m.year| == 2 then 2000 + DigitsValue(m.year) else DigitsValue(m.year)
  }

  /** `Date.UTC(year, month - 1, day)` for a D/M/Y match. */
  function MatchDate(m: DmyMatch): int
    requires ValidMatch(m)
  {
    UtcDate(MatchYear(m), DigitsValue(m.month) - 1, DigitsValue(m.day))
  }

  /** `toDate`: falsy cells and numbers below 20000 give null; a date cell is
      kept; a larger number is a spreadsheet serial; a text is parsed by the
      host, and failing that matched as D/M/Y. */
  function ToDate(o: DateOracles, c: Cell): (r: Option<int>)
    ensures IsFalsy(c) ==> r == None
    ensures c.Num? && c.n < MinSerialDate ==> r == None
    ensures c.Bool? || c.Null? ==> r == None
    ensures c.DateV? ==> r == Some(c.ms)
    ensures c.Num? && c.n >= MinSerialDate && o.serialDateCode(c.n).Some? ==>
      var d := o.serialDateCode(c.n).value;
      r == Some(UtcDate(d.year, d.month - 1, d.day))
    ensures c.Num? && o.serialDateCode(c.n).None? ==> r == None
    ensures c.Str? && c.s != "" && o.parseText(Trim(c.s)).Some? ==> r == o.parseText(Trim(c.s))
  {
    if IsFalsy(c) then None
    else match c
      case DateV(ms) => Some(ms)
      case Num(x) =>
        if x < MinSerialDate then None
        else (match o.serialDateCode(x)
          case None => None
          case Some(d) => Some(UtcDate(d.year, d.month - 1, d.day)))
      case Str(s) =>
        var t := Trim(s);
        (match o.parseText(t)
          case Some(ms) => Some(ms)
          case None =>
            match FindDmy(t, 0)
            case Some(m) => Some(MatchDate(m))
            case None => None)
      case _ => None
  }

  /** A text the host cannot parse and that holds no digit is not a date. */
  lemma TextWithoutDigitsIsNoDate(o: DateOracles, s: string)
    requires forall i :: 0 <= i < |s| ==> !IsDigit(s[i])
    requires o.parseText(Trim(s)).None?
    ensures ToDate(o, Str(s)) == None
  {
    var t := Trim(s);
    assert forall i :: 0 <= i < |t| ==> !IsDigit(t[i]) by {
      assert TrimStart(s) == s[|s| - |TrimStart(s)|..];
    }
    NoDmyWithoutDigits(t, 0);
  }

  lemma {:induction false} NoDmyWithoutDigits(t: string, from: nat)
    requires from <= |t|
    requires forall i :: 0 <= i < |t| ==> !IsDigit(t[i])
    ensures FindDmy(t, from) == None
    decreases |t| - from
  {
    if from < |t| {
      assert DigitsAt(t, from, 2) == 0;
      NoDmyWithoutDigits(t, from + 1);
    }
  }

  lemma TwoDigitsAt(s: string, i: nat, max: nat)
    requires 2 <= max && i + 2 <= |s| && IsDigit(s[i]) && IsDigit(s[i + 1])
    requires i + 2 == |s| || !IsDigit(s[i + 2])
    ensures DigitsAt(s, i, max) == 2
  {
    assert DigitsAt(s, i + 1, max - 1) == 1 + DigitsAt(s, i + 2, max - 2);
  }

  /** "dd/mm/yy" with any of the separators '/', '.', '-' that the host does
      not parse is the UTC midnight of day dd, month mm, year 20yy. */
  lemma TwoDigitYearIsThisCentury(o: DateOracles, s: string)
    requires |s| == 8 && IsDateSeparator(s[2]) && IsDateSeparator(s[5])
    requires forall i :: 0 <= i < 8 && i != 2 && i != 5 ==> IsDigit(s[i])
    requires o.parseText(s).None?
    ensures ToDate(o, Str(s))
         == Some(UtcDate(2000 + DigitsValue(s[6..8]), DigitsValue(s[3..5]) - 1, DigitsValue(s[0..2])))
  {
    var m := DmyMatch(s[0..2], s[3..5], s[6..8]);
    TrimNoSpaceEnds(s);
    TwoDigitMatch(s);
    assert !IsFalsy(Str(s));
    assert ToDate(o, Str(s)) == Some(MatchDate(m));
    assert MatchYear(m) == 2000 + DigitsValue(s[6..8]);
  }

  /** A text that neither starts nor ends with white space trims to itself. */
  lemma TrimNoSpaceEnds(s: string)
    requires s != [] && !IsSpace(s[0]) && !IsSpace(s[|s| - 1])
    ensures Trim(s) == s
  {
    assert TrimStart(s) == s;
  }

  /** Such a text matches at its start, with the three two-digit groups. */
  lemma TwoDigitMatch(s: string)
    requires |s| == 8 && IsDateSeparator(s[2]) && IsDateSeparator(s[5])
    requires forall i :: 0 <= i < 8 && i != 2 && i != 5 ==> IsDigit(s[i])
    ensures FindDmy(s, 0) == Some(DmyMatch(s[0..2], s[3..5], s[6..8]))
  {
    TwoDigitsAt(s, 0, 2);
    TwoDigitsAt(s, 3, 2);
    TwoDigitsAt(s, 6, 4);
    assert SeparatorAt(s, 2) && SeparatorAt(s, 5);
    assert MatchMonthYear(s, 0, 2) == Some(DmyMatch(s[0..2], s[3..5], s[6..8]));
  }

  /** The regular expression `/(\d{1,2})[\/.-](\d{1,2})[\/.-](\d{2,4})/`
      matches t at position i with groups of a, b and c digits. The year
      group is greedy: it stops at four digits or at a non-digit. The day and
      month groups need no such clause, as a separator follows each. */
  ghost predicate DmyShape(t: string, i: nat, a: nat, b: nat, c: nat)
  {
    && 1 <= a <= 2 && 1 <= b <= 2 && 2 <= c <= 4
    && i + a + b + c + 2 <= |t|
    && AllDigits(t[i..i + a]) && IsDateSeparator(t[i + a])
    && AllDigits(t[i + a + 1..i + a + 1 + b]) && IsDateSeparator(t[i + a + 1 + b])
    && AllDigits(t[i + a + b + 2..i + a + b + 2 + c])
    && (c == 4 || i + a + b + 2 + c == |t| || !IsDigit(t[i + a + b + 2 + c]))
  }

  /** The three groups of such a match. */
  function DmyGroups(t: string, i: nat, a: nat, b: nat, c: nat): DmyMatch
    requires i + a + b + c + 2 <= |t|
  {
    DmyMatch(t[i..i + a], t[i + a + 1..i + a + 1 + b], t[i + a + b + 2..i + a + b + 2 + c])
  }

  /** A run of exactly a digits at i, ending at max digits or a non-digit,
      is what DigitsAt counts. */
  lemma DigitsAtIs(s: string, i: nat, max: nat, a: nat)
    requires i + a <= |s| && a <= max && AllDigits(s[i..i + a])
    requires a == max || i + a == |s| || !IsDigit(s[i + a])
    ensures DigitsAt(s, i, max) == a
  {
  }

  /** Where the expression matches, MatchDmyAt finds those groups. */
  lemma ShapeMatches(t: string, i: nat, a: nat, b: nat, c: nat)
    requires DmyShape(t, i, a, b, c)
    ensures MatchDmyAt(t, i) == Some(DmyGroups(t, i, a, b, c))
  {
    DigitsAtIs(t, i, 2, a);
    assert SeparatorAt(t, i + a);
    MonthYearMatches(t, i, a, b, c);
  }

  lemma MonthYearMatches(t: string, i: nat, a: nat, b: nat, c: nat)
    requires DmyShape(t, i, a, b, c)
    ensures MatchMonthYear(t, i, a) == Some(DmyGroups(t, i, a, b, c))
  {
    DigitsAtIs(t, i + a + 1, 2, b);
    assert SeparatorAt(t, i + a + 1 + b);
    var m := DmyGroups(t, i, a, b, c);
    YearMatches(m.day, m.month, t, i + a + b + 2, c);
  }

  lemma YearMatches(day: string, month: string, t: string, k: nat, c: nat)
    requires 1 <= |day| <= 2 && 1 <= |month| <= 2 && AllDigits(day) && AllDigits(month)
    requires 2 <= c <= 4 && k + c <= |t| && AllDigits(t[k..k + c])
    requires c == 4 || k + c == |t| || !IsDigit(t[k + c])
    ensures MatchYearGroup(day, month, t, k) == Some(DmyMatch(day, month, t[k..k + c]))
  {
    DigitsAtIs(t, k, 4, c);
  }

  /** Where MatchDmyAt finds groups, the expression matches. */
  lemma MatchHasShape(t: string, i: nat)
    requires i <= |t| && MatchDmyAt(t, i).Some?
    ensures exists a, b, c :: DmyShape(t, i, a, b, c)
  {
    var a := DigitsAt(t, i, 2);
    var b := DigitsAt(t, i + a + 1, 2);
    var c := DigitsAt(t, i + a + b + 2, 4);
    assert MatchMonthYear(t, i, a).Some?;
    assert DmyShape(t, i, a, b, c);
  }

  /** `text.match` finds the leftmost match. */
  lemma {:induction false} FindDmyLeftmost(t: string, from: nat, i: nat, a: nat, b: nat, c: nat)
    requires from <= i && DmyShape(t, i, a, b, c)
    requires forall j, a', b', c' :: from <= j < i ==> !DmyShape(t, j, a', b', c')
    ensures FindDmy(t, from) == Some(DmyGroups(t, i, a, b, c))
    decreases i - from
  {
    if from == i {
      ShapeMatches(t, i, a, b, c);
    } else {
      if MatchDmyAt(t, from).Some? {
        MatchHasShape(t, from);
      }
      FindDmyLeftmost(t, from + 1, i, a, b, c);
    }
  }

  /** Without a match anywhere from `from` on, `text.match` finds none. */
  lemma {:induction false} FindDmyNone(t: string, from: nat)
    requires from <= |t|
    requires forall j, a, b, c :: from <= j ==> !DmyShape(t, j, a, b, c)
    ensures FindDmy(t, from) == None
    decreases |t| - from
  {
    if from < |t| {
      if MatchDmyAt(t, from).Some? {
        MatchHasShape(t, from);
      }
      FindDmyNone(t, from + 1);
    }
  }

  /** A text the host rejects, whose trimmed form first matches D/M/Y at
      position i, is `Date.UTC(year, month - 1, day)` of that match's
      groups (MatchDate), where a two-digit year is read as 20yy. */
  lemma DmyTextIsDate(o: DateOracles, s: string, i: nat, a: nat, b: nat, c: nat)
    requires o.parseText(Trim(s)).None?
    requires DmyShape(Trim(s), i, a, b, c)
    requires forall j, a', b', c' :: 0 <= j < i ==> !DmyShape(Trim(s), j, a', b', c')
    ensures var m := DmyGroups(Trim(s), i, a, b, c);
      && ValidMatch(m)
      && ToDate(o, Str(s)) == Some(MatchDate(m))
      && MatchYear(m) == if c == 2 then 2000 + DigitsValue(m.year) else DigitsValue(m.year)
  {
    FindDmyLeftmost(Trim(s), 0, i, a, b, c);
    assert s != "";
  }

  /** A text the host rejects and without any D/M/Y match is not a date. */
  lemma NoDmyIsNoDate(o: DateOracles, s: string)
    requires o.parseText(Trim(s)).None?
    requires forall j, a, b, c :: !DmyShape(Trim(s), j, a, b, c)
    ensures ToDate(o, Str(s)) == None
  {
    FindDmyNone(Trim(s), 0);
  }

  // ----- toDateString, maxDate, round, rowHasNumber, calculateDrawsSince -----

  /** `String(n).padStart(2, '0')`. */
  function PadTwo(s: string): (r: string)
    ensures |r| == if |s| < 2 then 2 else |s|
  {
    if |s| == 0 then "00" else if |s| == 1 then "0" + s else s
  }

  /** A month or a day padded to two digits reads back as itself. */
  lemma PadTwoValue(n: nat)
    requires 1 <= n <= 99
    ensures var t := PadTwo(NatToString(n));
      |t| == 2 && AllDigits(t) && DigitsValue(t) == n
  {
    var s := NatToString(n);
    if n >= 10 {
      assert NatToString(n / 10) == [DigitChar(n / 10)];
    } else {
      assert ("0" + s)[..1] == "0";
    }
  }

  /** A year of four digits is written with four characters. */
  lemma FourDigitYear(n: nat)
    requires 1000 <= n <= 9999
    ensures |NatToString(n)| == 4
  {
    assert |NatToString(n / 1000)| == 1;
    assert |NatToString(n / 100)| == 2;
    assert |NatToString(n / 10)| == 3;
  }

  /** `toDateString`: the UTC date as year-MM-DD. */
  function ToDateString(ms: int): string
  {
    DateText(DateOf(ms))
  }

  /** `YYYY-MM-DD` of a civil date, month and day padded to two digits. */
  function DateText(d: CivilDate): string
  {
    IntToString(d.year) + "-" + PadTwo(IntToString(d.month)) + "-" + PadTwo(IntToString(d.day))
  }

  /** The fields of the text of a date with a four-digit year. */
  lemma DateTextFields(d: CivilDate)
    requires 1000 <= d.year <= 9999 && 1 <= d.month <= 12 && 1 <= d.day <= 31
    ensures var r := DateText(d);
      && |r| == 10 && r[4] == '-' && r[7] == '-'
      && AllDigits(r[..4]) && AllDigits(r[5..7]) && AllDigits(r[8..])
      && DigitsValue(r[..4]) == d.year
      && DigitsValue(r[5..7]) == d.month
      && DigitsValue(r[8..]) == d.day
  {
    FourDigitYear(d.year);
    PadTwoValue(d.month);
    PadTwoValue(d.day);
    var y, m, dd := IntToString(d.year), PadTwo(IntToString(d.month)), PadTwo(IntToString(d.day));
    var r := DateText(d);
    assert r == y + "-" + m + "-" + dd;
    assert r[..4] == y && r[5..7] == m && r[8..] == dd;
  }

  /** For a year of four digits the date text is ten characters long and
      its three fields read back as the year, the month and the day. */
  lemma DateTextReadsBack(ms: int)
    requires 1000 <= YearOf(ms) <= 9999
    ensures var d, r := DateOf(ms), ToDateString(ms);
      && |r| == 10 && r[4] == '-' && r[7] == '-'
      && AllDigits(r[..4]) && AllDigits(r[5..7]) && AllDigits(r[8..])
      && DigitsValue(r[..4]) == d.year
      && DigitsValue(r[5..7]) == d.month
      && DigitsValue(r[8..]) == d.day
  {
    DateTextFields(DateOf(ms));
  }

  /** `maxDate`: the latest of the dates present, or null when there is none. */
  function MaxDate(ds: seq<Option<int>>): (r: Option<int>)
    ensures r.None? <==> forall i :: 0 <= i < |ds| ==> ds[i].None?
    ensures r.Some? ==> (exists i :: 0 <= i < |ds| && ds[i] == r)
    ensures r.Some? ==> forall i :: 0 <= i < |ds| && ds[i].Some? ==> ds[i].value <= r.value
  {
    if ds == [] then None
    else
      var m := MaxDate(ds[..|ds| - 1]);
      var last := ds[|ds| - 1];
      assert forall i :: 0 <= i < |ds| - 1 ==> ds[..|ds| - 1][i] == ds[i];
      if last.None? then m
      else if m.None? || last.value > m.value then last
      else m
  }

  /** Math.round: the integer nearest x, a half rounded up. */
  function MathRound(x: real): (n: int)
    ensures x - 0.5 < n as real <= x + 0.5
  {
    (x + 0.5).Floor
  }

  /** Math.round leaves a whole number as it is. */
  lemma MathRoundWhole(n: int)
    ensures MathRound(n as real) == n
  {
  }

  lemma ScaledBack(x: real, p: real)
    requires p != 0.0
    ensures (x / p) * p == x
  {
  }

  /** n / p for a whole n: multiplying back by p gives n. */
  function Unscale(n: int, p: real): (r: real)
    requires p >= 1.0
    ensures r * p == n as real
  {
    ScaledBack(n as real, p);
    n as real / p
  }

  /** The factor 10^digits as a real. */
  function Scale(digits: nat): (p: real)
    ensures p >= 1.0
  {
    Pow10(digits) as real
  }

  /** `round(value, digits)` on a finite value: scaled by 10^digits, the
      result is the whole number Math.round gives for the scaled value. */
  function Round(v: real, digits: nat): (r: real)
    ensures r * Scale(digits) == MathRound(v * Scale(digits)) as real
  {
    Unscale(MathRound(v * Scale(digits)), Scale(digits))
  }

  /** A value already written with two decimals is kept by round(_, 2). */
  lemma RoundCents(k: int)
    ensures Round(k as real / 100.0, 2) == k as real / 100.0
  {
    assert Scale(2) == 100.0;
    var v := k as real / 100.0;
    assert v * 100.0 == k as real;
    MathRoundWhole(k);
    var r := Round(v, 2);
    assert r * 100.0 == k as real;
  }

  /** Rounding to two decimals twice is rounding once. */
  lemma RoundCentsIdempotent(v: real)
    ensures Round(Round(v, 2), 2) == Round(v, 2)
  {
    assert Scale(2) == 100.0;
    var r := Round(v, 2);
    var n := MathRound(v * 100.0);
    assert r * 100.0 == n as real;
    MathRoundWhole(n);
    var r2 := Round(r, 2);
    assert r2 * 100.0 == n as real;
  }

  /** `rowHasNumber`: some row's first cell is the number target. */
  predicate RowHasNumber(rows: seq<Row>, target: int)
  {
    exists i :: 0 <= i < |rows| && |rows[i]| > 0 && rows[i][0] == Num(target as real)
  }

  /** Draws held per week in both games. */
  const DrawsPerWeek: int := 2

  /** `calculateDrawsSince`: whole days between two timestamps, turned into
      draws at two per week, never below zero. The source divides by 7 and
      then doubles in floating point; 2 * days / 7 is an integer exactly when
      days / 7 is, and otherwise lies at least 1/7 from one, so the floor is
      that of the exact quotient. */
  function CalculateDrawsSince(last: int, current: int): (r: nat)
    ensures var days := (current - last) / MsPerDay;
      days >= 0 ==> 7 * r <= DrawsPerWeek * days < 7 * (r + 1)
    ensures current <= last ==> r == 0
  {
    var days := (current - last) / MsPerDay;
    var draws := (DrawsPerWeek * days) / 7;
    if draws < 0 then 0 else draws
  }
}
