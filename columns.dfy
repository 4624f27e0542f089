/** The column classifier of the statistics extractor (scripts/fetch-data.js):
    the numeric range of every column, and the rules that decide which column
    holds the times drawn, the frequency, the last draw date and the gap.
    Each picker tries the header row first and falls back to value ranges. */
module Columns {
  import opened Support
  import opened Cells
  import opened Sorting

  /** The range of the numbers read in one column. */
  datatype ColStat = ColStat(max: real, min: real)

  /** One entry per column index; None where no cell held a number (a hole
      of the source's sparse array). */
  type ColStats = seq<Option<ColStat>>

  function MaxR(a: real, b: real): real { if a >= b then a else b }

  function MinR(a: real, b: real): real { if a <= b then a else b }

  /** A column's range after one more value. */
  function Widen(s: Option<ColStat>, x: real): (r: ColStat)
    ensures r.min <= x <= r.max
    ensures s.Some? ==> r.min <= s.value.min && s.value.max <= r.max
  {
    match s
    case None => ColStat(x, x)
    case Some(st) => ColStat(MaxR(st.max, x), MinR(st.min, x))
  }

  /** toNumber of the cell of row r at column i. */
  function ValueAt(rows: seq<Row>, r: nat, i: nat): Option<real>
    requires r < |rows|
  {
    ToNumber(CellAt(rows[r], i))
  }

  /** The range of column i over the rows, read top to bottom. */
  function ColumnSummary(rows: seq<Row>, i: nat): Option<ColStat>
  {
    if rows == [] then None
    else
      var prev := ColumnSummary(rows[..|rows| - 1], i);
      match ToNumber(CellAt(rows[|rows| - 1], i))
      case None => prev
      case Some(x) => Some(Widen(prev, x))
  }

  /** A column has a range exactly when one of its cells holds a number. */
  lemma {:induction false} SummaryWhenNumber(rows: seq<Row>, i: nat)
    ensures ColumnSummary(rows, i).Some? <==> HasNumberAt(rows, i)
  {
    if rows != [] {
      var n := |rows| - 1;
      var init := rows[..n];
      SummaryWhenNumber(init, i);
      if ValueAt(rows, n, i).Some? {
        assert ColumnSummary(rows, i).Some?;
      } else {
        assert ColumnSummary(rows, i) == ColumnSummary(init, i);
        if HasNumberAt(init, i) {
          var r :| 0 <= r < n && ValueAt(init, r, i).Some?;
          assert ValueAt(rows, r, i) == ValueAt(init, r, i);
        }
        if HasNumberAt(rows, i) {
          var r :| 0 <= r < |rows| && ValueAt(rows, r, i).Some?;
          assert ValueAt(init, r, i) == ValueAt(rows, r, i);
        }
      }
    }
  }

  /** Every number of the column lies within its range. */
  lemma {:induction false} SummaryBounds(rows: seq<Row>, i: nat)
    ensures ColumnSummary(rows, i).Some? ==>
      var st := ColumnSummary(rows, i).value;
      && st.min <= st.max
      && forall r :: 0 <= r < |rows| && ValueAt(rows, r, i).Some? ==> st.min <= ValueAt(rows, r, i).value <= st.max
  {
    if rows != [] {
      var n := |rows| - 1;
      var init := rows[..n];
      SummaryBounds(init, i);
      SummaryWhenNumber(init, i);
      assert forall r :: 0 <= r < n ==> ValueAt(init, r, i) == ValueAt(rows, r, i);
      var last := ValueAt(rows, n, i);
      if last.Some? {
        assert ColumnSummary(rows, i) == Some(Widen(ColumnSummary(init, i), last.value));
      } else {
        assert ColumnSummary(rows, i) == ColumnSummary(init, i);
      }
    }
  }

  /** The range's ends are numbers of the column. */
  lemma {:induction false} SummaryAttained(rows: seq<Row>, i: nat)
    ensures ColumnSummary(rows, i).Some? ==>
      var st := ColumnSummary(rows, i).value;
      && (exists r :: 0 <= r < |rows| && ValueAt(rows, r, i) == Some(st.max))
      && (exists r :: 0 <= r < |rows| && ValueAt(rows, r, i) == Some(st.min))
  {
    if rows != [] {
      var n := |rows| - 1;
      var init := rows[..n];
      SummaryAttained(init, i);
      var prev := ColumnSummary(init, i);
      var last := ValueAt(rows, n, i);
      if prev.Some? {
        var st := prev.value;
        var a :| 0 <= a < n && ValueAt(init, a, i) == Some(st.max);
        var b :| 0 <= b < n && ValueAt(init, b, i) == Some(st.min);
        assert ValueAt(rows, a, i) == Some(st.max);
        assert ValueAt(rows, b, i) == Some(st.min);
      }
    }
  }

  /** So the range is the least and the greatest number of the column. */
  lemma ColumnSummaryIsRange(rows: seq<Row>, i: nat)
    ensures ColumnSummary(rows, i).Some? <==> HasNumberAt(rows, i)
    ensures ColumnSummary(rows, i).Some? ==>
      var st := ColumnSummary(rows, i).value;
      && st.min <= st.max
      && (forall r :: 0 <= r < |rows| && ValueAt(rows, r, i).Some? ==> st.min <= ValueAt(rows, r, i).value <= st.max)
      && (exists r :: 0 <= r < |rows| && ValueAt(rows, r, i) == Some(st.max))
      && (exists r :: 0 <= r < |rows| && ValueAt(rows, r, i) == Some(st.min))
  {
    SummaryWhenNumber(rows, i);
    SummaryBounds(rows, i);
    SummaryAttained(rows, i);
  }


  /** One past the last cell of the row that holds a number, or 0. */
  function RowWidth(row: Row): (w: nat)
    ensures w <= |row|
    ensures forall j :: w <= j < |row| ==> ToNumber(row[j]).None?
    ensures w > 0 ==> ToNumber(row[w - 1]).Some?
  {
    if row == [] then 0
    else if ToNumber(row[|row| - 1]).Some? then |row|
    else RowWidth(row[..|row| - 1])
  }

  /** Some row holds a number in column i. */
  predicate HasNumberAt(rows: seq<Row>, i: nat)
  {
    exists r :: 0 <= r < |rows| && ValueAt(rows, r, i).Some?
  }

  /** One past the last column of any row that holds a number, or 0: the
      length of the array `buildColumnStats` returns. */
  function StatsWidth(rows: seq<Row>): nat
  {
    if rows == [] then 0
    else
      var init := StatsWidth(rows[..|rows| - 1]);
      var last := RowWidth(rows[|rows| - 1]);
      if init >= last then init else last
  }

  /** No row holds a number at or past the width, and some row holds one in
      the column just before it. */
  lemma {:induction false} StatsWidthIsLastColumn(rows: seq<Row>)
    ensures forall r, j :: 0 <= r < |rows| && j >= StatsWidth(rows) ==> ValueAt(rows, r, j).None?
    ensures StatsWidth(rows) > 0 ==> HasNumberAt(rows, StatsWidth(rows) - 1)
  {
    NothingPastWidth(rows);
    LastColumnHasNumber(rows);
  }

  /** A row holds no number at or past its width. */
  lemma RowNothingPast(row: Row, j: nat)
    requires j >= RowWidth(row)
    ensures ToNumber(CellAt(row, j)).None?
  {
    if j < |row| {
      assert ToNumber(row[j]).None?;
    }
  }

  /** A row of positive width holds a number in its last column. */
  lemma RowLastNumber(row: Row)
    requires RowWidth(row) > 0
    ensures ToNumber(CellAt(row, RowWidth(row) - 1)).Some?
  {
  }

  /** No row holds a number at or past the width. */
  lemma {:induction false} NothingPastWidth(rows: seq<Row>)
    ensures forall r, j :: 0 <= r < |rows| && j >= StatsWidth(rows) ==> ValueAt(rows, r, j).None?
  {
    if rows != [] {
      var n := |rows| - 1;
      NothingPastWidth(rows[..n]);
      forall r, j | 0 <= r < |rows| && j >= StatsWidth(rows) ensures ValueAt(rows, r, j).None? {
        if r < n {
          assert rows[r] == rows[..n][r];
          assert ValueAt(rows, r, j) == ValueAt(rows[..n], r, j);
        } else {
          RowNothingPast(rows[n], j);
        }
      }
    }
  }

  /** Some row holds a number in the column just before the width. */
  lemma {:induction false} LastColumnHasNumber(rows: seq<Row>)
    ensures StatsWidth(rows) > 0 ==> HasNumberAt(rows, StatsWidth(rows) - 1)
  {
    if rows != [] {
      var n := |rows| - 1;
      var w := StatsWidth(rows);
      if w > 0 {
        if StatsWidth(rows[..n]) >= RowWidth(rows[n]) {
          LastColumnHasNumber(rows[..n]);
          var r :| 0 <= r < n && ValueAt(rows[..n], r, w - 1).Some?;
          assert rows[r] == rows[..n][r];
          assert ValueAt(rows, r, w - 1) == ValueAt(rows[..n], r, w - 1);
        } else {
          RowLastNumber(rows[n]);
          assert ValueAt(rows, n, w - 1).Some?;
        }
      }
    }
  }



  /** The column ranges as the array `buildColumnStats` returns. */
  function ColumnStats(rows: seq<Row>): (s: ColStats)
    ensures |s| == StatsWidth(rows)
    ensures forall i :: 0 <= i < |s| ==> s[i] == ColumnSummary(rows, i)
  {
    seq(StatsWidth(rows), i requires 0 <= i => ColumnSummary(rows, i))
  }

  /** The ranges and the place of the last column with a number fix the
      array. */
  lemma ColumnStatsDetermined(rows: seq<Row>, s: ColStats)
    requires forall i :: 0 <= i < |s| ==> s[i] == ColumnSummary(rows, i)
    requires forall i: nat :: i >= |s| ==> ColumnSummary(rows, i) == None
    requires |s| > 0 ==> s[|s| - 1].Some?
    ensures s == ColumnStats(rows)
  {
    var w := StatsWidth(rows);
    StatsWidthIsLastColumn(rows);
    if |s| < w {
      SummaryWhenNumber(rows, w - 1);
    }
    if |s| > w {
      SummaryWhenNumber(rows, |s| - 1);
    }
  }

  /** `n` holes of a sparse array. */
  function Holes(n: nat): (r: ColStats)
    ensures |r| == n && forall i :: 0 <= i < n ==> r[i] == None
  {
    seq(n, _ => None)
  }

  /** `buildColumnStats`: every row, every cell, widening the range of the
      cell's column when toNumber reads a number there. The array ends at the
      last column that holds a number. */
  /** stats holds the range of every column of rows and ends at the last
      column that has one. */
  ghost predicate Summarises(stats: ColStats, rows: seq<Row>)
  {
    && (forall i :: 0 <= i < |stats| ==> stats[i] == ColumnSummary(rows, i))
    && (forall i: nat :: i >= |stats| ==> ColumnSummary(rows, i) == None)
    && (|stats| > 0 ==> stats[|stats| - 1].Some?)
  }

  /** One more row widens each column's range by the number it holds there. */
  lemma SummaryStep(rows: seq<Row>, k: nat, j: nat)
    requires k < |rows|
    ensures ColumnSummary(rows[..k + 1], j) ==
      match ToNumber(CellAt(rows[k], j))
      case None => ColumnSummary(rows[..k], j)
      case Some(x) => Some(Widen(ColumnSummary(rows[..k], j), x))
  {
    assert rows[..k + 1][..k] == rows[..k];
  }

  /** The inner loop of `buildColumnStats`: the cells of row k. */
  method AddRow(rows: seq<Row>, k: nat, stats: ColStats) returns (stats': ColStats)
    requires k < |rows| && Summarises(stats, rows[..k])
    ensures Summarises(stats', rows[..k + 1])
  {
    var row := rows[k];
    ghost var prev, next := rows[..k], rows[..k + 1];
    stats' := stats;
    var j := 0;
    while j < |row|
      invariant 0 <= j <= |row|
      invariant forall i :: 0 <= i < j && i < |stats'| ==> stats'[i] == ColumnSummary(next, i)
      invariant forall i :: j <= i < |stats'| ==> stats'[i] == ColumnSummary(prev, i)
      invariant forall i: nat :: i < j && i >= |stats'| ==> ColumnSummary(next, i) == None
      invariant forall i: nat :: i >= j && i >= |stats'| ==> ColumnSummary(prev, i) == None
      invariant |stats'| > 0 ==> stats'[|stats'| - 1].Some?
    {
      SummaryStep(rows, k, j);
      match ToNumber(row[j]) {
        case None =>
        case Some(x) =>
          if j < |stats'| {
            stats' := stats'[j := Some(Widen(stats'[j], x))];
          } else {
            stats' := stats' + Holes(j - |stats'|) + [Some(ColStat(x, x))];
          }
      }
      j := j + 1;
    }
    forall i: nat | i >= |row|
      ensures ColumnSummary(next, i) == ColumnSummary(prev, i)
    {
      SummaryStep(rows, k, i);
    }
  }

  method BuildColumnStats(rows: seq<Row>) returns (stats: ColStats)
    ensures forall i :: 0 <= i < |stats| ==> stats[i] == ColumnSummary(rows, i)
    ensures forall i: nat :: i >= |stats| ==> ColumnSummary(rows, i) == None
    ensures |stats| > 0 ==> stats[|stats| - 1].Some?
    ensures stats == ColumnStats(rows)
  {
    stats := [];
    var k := 0;
    while k < |rows|
      invariant 0 <= k <= |rows|
      invariant Summarises(stats, rows[..k])
    {
      stats := AddRow(rows, k, stats);
      k := k + 1;
    }
    assert rows[..|rows|] == rows;
    ColumnStatsDetermined(rows, stats);
  }


  // ----- header keywords -----

  /** Some keyword occurs in the text: a chain of `includes` tests joined by ||. */
  predicate AnyContains(t: string, keys: seq<string>)
  {
    exists k :: 0 <= k < |keys| && Contains(t, keys[k])
  }

  const TimesKeys: seq<string> := ["nombre d'apparitions", "apparitions", "times drawn", "drawn"]
  const FreqKeys: seq<string> := ["freq", "%", "pourcent"]
  const DateKeys: seq<string> := ["date", "dernier", "derniere", "tirage", "last", "draw"]
  /** The first keyword is the UTF-8 bytes of 'écart' read as Latin-1. */
  const GapKeys: seq<string> := ["Ã©cart", "ecart", "retard", "gap", "sorti depuis", "plus sorti"]

  /** The column indices a picker must not return; null ones exclude nothing. */
  function Known(cols: seq<Option<nat>>): (s: set<int>)
    ensures forall t :: 0 <= t < |cols| && cols[t].Some? ==> cols[t].value in s
    ensures forall j :: j in s ==> exists t :: 0 <= t < |cols| && cols[t] == Some(j)
  {
    set t | 0 <= t < |cols| && cols[t].Some? :: cols[t].value as int
  }

  /** The first column from `from` on, outside skip, whose header text holds
      one of the keywords. */
  function FirstHeaderFrom(header: Row, keys: seq<string>, skip: set<int>, from: nat): (r: Option<nat>)
    ensures r.Some? ==> from <= r.value < |header| && r.value !in skip
    ensures r.Some? ==> AnyContains(HeaderText(header[r.value]), keys)
    ensures forall j :: from <= j < |header| && j !in skip && (r.None? || j < r.value) ==>
      !AnyContains(HeaderText(header[j]), keys)
    decreases |header| - from
  {
    if from >= |header| then None
    else if from !in skip && AnyContains(HeaderText(header[from]), keys) then Some(from)
    else FirstHeaderFrom(header, keys, skip, from + 1)
  }

  /** The header scan: `findIndex` over the header texts, or the index loop
      that `continue`s past skipped columns and returns the first match. */
  method FindHeader(header: Row, keys: seq<string>, skip: set<int>) returns (r: Option<nat>)
    ensures r == FirstHeaderFrom(header, keys, skip, 0)
  {
    var i := 0;
    while i < |header|
      invariant 0 <= i <= |header|
      invariant FirstHeaderFrom(header, keys, skip, 0) == FirstHeaderFrom(header, keys, skip, i)
    {
      if i !in skip && AnyContains(HeaderText(header[i]), keys) {
        return Some(i);
      }
      i := i + 1;
    }
    return None;
  }

  /** The mis-encoded accented keyword can never match: lower-casing turns
      every 'Ã' of a header into 'ã'. */
  lemma AccentedGapKeyIsDead(c: Cell)
    ensures !Contains(HeaderText(c), GapKeys[0])
  {
    var t := HeaderText(c);
    assert GapKeys[0][0] == 'Ã';
    NoCharNoContains(t, GapKeys[0], 0);
  }

  /** Hence the gap header test matches exactly when one of the other
      keywords does. */
  lemma GapKeysWithoutAccent(c: Cell)
    ensures AnyContains(HeaderText(c), GapKeys) <==> AnyContains(HeaderText(c), GapKeys[1..])
  {
    AccentedGapKeyIsDead(c);
    var t := HeaderText(c);
    if AnyContains(t, GapKeys) {
      var k :| 0 <= k < |GapKeys| && Contains(t, GapKeys[k]);
      assert k > 0;
      assert GapKeys[1..][k - 1] == GapKeys[k];
    }
    if AnyContains(t, GapKeys[1..]) {
      var k :| 0 <= k < |GapKeys[1..]| && Contains(t, GapKeys[1..][k]);
      assert GapKeys[k + 1] == GapKeys[1..][k];
    }
  }

  // ----- pickTimesColumn -----

  /** Columns the range fallback of `pickTimesColumn` may take. */
  predicate TimesCandidate(stats: ColStats, numCol: nat, i: nat)
  {
    i < |stats| && i != numCol && stats[i].Some? && stats[i].value.max <= 30000.0
  }

  /** Among the first k columns, the earliest whose largest value is the
      greatest among the candidates. */
  function BestTimes(stats: ColStats, numCol: nat, k: nat): (r: Option<nat>)
    requires k <= |stats|
    ensures r.Some? ==> r.value < k && TimesCandidate(stats, numCol, r.value)
    ensures r.Some? ==> forall j :: 0 <= j < k && TimesCandidate(stats, numCol, j) ==>
      stats[j].value.max <= stats[r.value].value.max
    ensures r.Some? ==> forall j :: 0 <= j < r.value && TimesCandidate(stats, numCol, j) ==>
      stats[j].value.max < stats[r.value].value.max
    ensures r.None? ==> forall j :: 0 <= j < k ==> !TimesCandidate(stats, numCol, j)
  {
    if k == 0 then None
    else
      var b := BestTimes(stats, numCol, k - 1);
      if TimesCandidate(stats, numCol, k - 1) && (b.None? || stats[k - 1].value.max > stats[b.value].value.max)
      then Some(k - 1)
      else b
  }

  /** `pickTimesColumn`: the first header naming the times drawn, unless that
      is the number column; otherwise the range fallback. */
  function TimesColumn(stats: ColStats, numCol: nat, header: Row): Option<nat>
  {
    var h := FirstHeaderFrom(header, TimesKeys, {}, 0);
    if h.Some? && h.value != numCol then h else BestTimes(stats, numCol, |stats|)
  }

  /** One more column: it becomes the best when it is a candidate with a
      larger max than the best so far. */
  lemma BestTimesStep(stats: ColStats, numCol: nat, idx: nat, best: Option<nat>)
    requires idx < |stats| && best == BestTimes(stats, numCol, idx)
    ensures BestTimes(stats, numCol, idx + 1)
      == if TimesCandidate(stats, numCol, idx) && (best.None? || stats[idx].value.max > stats[best.value].value.max)
         then Some(idx) else best
  {
  }

  /** The range loop of `pickTimesColumn`. */
  method ScanTimes(stats: ColStats, numCol: nat) returns (bestIdx: Option<nat>)
    ensures bestIdx == BestTimes(stats, numCol, |stats|)
  {
    bestIdx := None;
    var idx := 0;
    while idx < |stats|
      invariant 0 <= idx <= |stats|
      invariant bestIdx == BestTimes(stats, numCol, idx)
    {
      BestTimesStep(stats, numCol, idx, bestIdx);
      var stat := stats[idx];
      if stat.Some? && idx != numCol && stat.value.max <= 30000.0 {
        if bestIdx.None? || stat.value.max > stats[bestIdx.value].value.max {
          bestIdx := Some(idx);
        }
      }
      idx := idx + 1;
    }
  }

  method PickTimesColumn(stats: ColStats, numCol: nat, header: Row) returns (r: Option<nat>)
    ensures r == TimesColumn(stats, numCol, header)
  {
    var h := FindHeader(header, TimesKeys, {});
    if h.Some? && h.value != numCol {
      return h;
    }
    r := ScanTimes(stats, numCol);
  }


  /** The times column is never the number column; the header choice wins
      when it is allowed, and otherwise the choice is a column of at most
      30000 whose maximum no other candidate exceeds, the earliest such. */
  lemma TimesColumnChoice(stats: ColStats, numCol: nat, header: Row)
    ensures TimesColumn(stats, numCol, header) != Some(numCol)
    ensures var h := FirstHeaderFrom(header, TimesKeys, {}, 0);
      h.Some? && h.value != numCol ==> TimesColumn(stats, numCol, header) == h
    ensures var h := FirstHeaderFrom(header, TimesKeys, {}, 0);
      var r := TimesColumn(stats, numCol, header);
      (h.None? || h.value == numCol) && r.Some? ==>
        && TimesCandidate(stats, numCol, r.value)
        && (forall j :: 0 <= j < |stats| && TimesCandidate(stats, numCol, j) ==> stats[j].value.max <= stats[r.value].value.max)
        && (forall j :: 0 <= j < r.value && TimesCandidate(stats, numCol, j) ==> stats[j].value.max < stats[r.value].value.max)
  {
  }

  // ----- pickFrequencyColumn and pickGapColumn -----

  /** A column whose values all lie in [0, hi]. */
  predicate InRange(s: Option<ColStat>, hi: real)
  {
    s.Some? && s.value.max <= hi && s.value.min >= 0.0
  }

  /** The first column from `from` on, outside skip, whose values lie in [0, hi]. */
  function FirstInRangeFrom(stats: ColStats, skip: set<int>, hi: real, from: nat): (r: Option<nat>)
    ensures r.Some? ==> from <= r.value < |stats| && r.value !in skip && InRange(stats[r.value], hi)
    ensures forall j :: from <= j < |stats| && j !in skip && (r.None? || j < r.value) ==> !InRange(stats[j], hi)
    decreases |stats| - from
  {
    if from >= |stats| then None
    else if from !in skip && InRange(stats[from], hi) then Some(from)
    else FirstInRangeFrom(stats, skip, hi, from + 1)
  }

  /** The range loop of `pickFrequencyColumn` and `pickGapColumn`. */
  method FindInRange(stats: ColStats, skip: set<int>, hi: real) returns (r: Option<nat>)
    ensures r == FirstInRangeFrom(stats, skip, hi, 0)
  {
    var i := 0;
    while i < |stats|
      invariant 0 <= i <= |stats|
      invariant FirstInRangeFrom(stats, skip, hi, 0) == FirstInRangeFrom(stats, skip, hi, i)
    {
      if i !in skip && InRange(stats[i], hi) {
        return Some(i);
      }
      i := i + 1;
    }
    return None;
  }

  /** `pickFrequencyColumn`: a header naming a frequency, else the first
      column within [0, 100], never the number or the times column. */
  function FrequencyColumn(stats: ColStats, header: Row, numCol: nat, timesCol: Option<nat>): Option<nat>
  {
    var skip := Known([Some(numCol), timesCol]);
    var h := FirstHeaderFrom(header, FreqKeys, skip, 0);
    if h.Some? then h else FirstInRangeFrom(stats, skip, 100.0, 0)
  }

  method PickFrequencyColumn(stats: ColStats, header: Row, numCol: nat, timesCol: Option<nat>) returns (r: Option<nat>)
    ensures r == FrequencyColumn(stats, header, numCol, timesCol)
  {
    var skip := Known([Some(numCol), timesCol]);
    r := FindHeader(header, FreqKeys, skip);
    if r.None? {
      r := FindInRange(stats, skip, 100.0);
    }
  }

  /** `pickGapColumn`: a header naming a gap, else the first column within
      [0, 200], never one of the columns already chosen. */
  function GapColumn(stats: ColStats, header: Row, numCol: nat, timesCol: Option<nat>,
                     freqCol: Option<nat>, dateCol: Option<nat>): Option<nat>
  {
    var skip := Known([Some(numCol), timesCol, freqCol, dateCol]);
    var h := FirstHeaderFrom(header, GapKeys, skip, 0);
    if h.Some? then h else FirstInRangeFrom(stats, skip, 200.0, 0)
  }

  method PickGapColumn(stats: ColStats, header: Row, numCol: nat, timesCol: Option<nat>,
                       freqCol: Option<nat>, dateCol: Option<nat>) returns (r: Option<nat>)
    ensures r == GapColumn(stats, header, numCol, timesCol, freqCol, dateCol)
  {
    var skip := Known([Some(numCol), timesCol, freqCol, dateCol]);
    r := FindHeader(header, GapKeys, skip);
    if r.None? {
      r := FindInRange(stats, skip, 200.0);
    }
  }

  /** The frequency column is neither the number nor the times column; a
      header match wins, and a column chosen by range lies within [0, 100]
      and is the first such. */
  lemma FrequencyColumnChoice(stats: ColStats, header: Row, numCol: nat, timesCol: Option<nat>)
    ensures var r := FrequencyColumn(stats, header, numCol, timesCol);
      r.Some? ==> r.value != numCol && Some(r.value) != timesCol
    ensures var r := FrequencyColumn(stats, header, numCol, timesCol);
      var skip := Known([Some(numCol), timesCol]);
      FirstHeaderFrom(header, FreqKeys, skip, 0).None? && r.Some? ==>
        && InRange(stats[r.value], 100.0)
        && forall j :: 0 <= j < r.value && j != numCol && Some(j) != timesCol ==> !InRange(stats[j], 100.0)
  {
    var cols := [Some(numCol), timesCol];
    var skip := Known(cols);
    assert cols[0] == Some(numCol);
    assert timesCol.Some? ==> cols[1] == timesCol;
  }

  /** The gap column is none of the columns already chosen; a column chosen
      by range lies within [0, 200] and is the first such. */
  lemma GapColumnChoice(stats: ColStats, header: Row, numCol: nat, timesCol: Option<nat>,
                        freqCol: Option<nat>, dateCol: Option<nat>)
    ensures var r := GapColumn(stats, header, numCol, timesCol, freqCol, dateCol);
      r.Some? ==> r.value != numCol && Some(r.value) != timesCol && Some(r.value) != freqCol && Some(r.value) != dateCol
    ensures var r := GapColumn(stats, header, numCol, timesCol, freqCol, dateCol);
      var skip := Known([Some(numCol), timesCol, freqCol, dateCol]);
      FirstHeaderFrom(header, GapKeys, skip, 0).None? && r.Some? ==>
        && InRange(stats[r.value], 200.0)
        && forall j :: 0 <= j < r.value && j !in skip ==> !InRange(stats[j], 200.0)
  {
    var cols := [Some(numCol), timesCol, freqCol, dateCol];
    var skip := Known(cols);
    assert cols[0] == Some(numCol);
    assert timesCol.Some? ==> cols[1] == timesCol;
    assert freqCol.Some? ==> cols[2] == freqCol;
    assert dateCol.Some? ==> cols[3] == dateCol;
  }

  // ----- scoreDateColumn and pickDateColumn -----

  /** The UTC year of the date toDate reads in one cell, if any. */
  function YearIn(o: DateOracles, row: Row, idx: nat): (ys: seq<int>)
    ensures |ys| <= 1
  {
    match ToDate(o, CellAt(row, idx))
    case Some(ms) => [YearOf(ms)]
    case None => []
  }

  /** The UTC years of the dates toDate reads in column idx, top to bottom. */
  function DateYears(o: DateOracles, rows: seq<Row>, idx: nat): (ys: seq<int>)
    ensures |ys| <= |rows|
  {
    if rows == [] then []
    else DateYears(o, rows[..|rows| - 1], idx) + YearIn(o, rows[|rows| - 1], idx)
  }

  /** One more row adds that row's year, if any. */
  lemma DateYearsStep(o: DateOracles, rows: seq<Row>, idx: nat, k: nat)
    requires k < |rows|
    ensures DateYears(o, rows[..k + 1], idx) == DateYears(o, rows[..k], idx) + YearIn(o, rows[k], idx)
  {
    assert rows[..k + 1][..k] == rows[..k];
  }

  /** How many dates a column holds and its median year. */
  datatype DateScore = DateScore(count: nat, medianYear: int)

  /** The count of the years and the year at index floor(count / 2) of
      them in ascending order, or 0 when there is none. */
  function ScoreYears(ys: seq<int>): (s: DateScore)
    ensures s.count == |ys|
    ensures s.count == 0 ==> s.medianYear == 0
    ensures s.count > 0 ==> s.medianYear in ys
  {
    var sorted := SortAsc(ys);
    if |sorted| == 0 then DateScore(0, 0)
    else
      assert sorted[|sorted| / 2] in multiset(sorted);
      DateScore(|sorted|, sorted[|sorted| / 2])
  }

  /** `scoreDateColumn`: how many dates the column holds and their median
      year, 0 when there is none. */
  function ScoreOf(o: DateOracles, rows: seq<Row>, idx: nat): (s: DateScore)
    ensures s.count == |DateYears(o, rows, idx)|
    ensures s.count == 0 ==> s.medianYear == 0
    ensures s.count > 0 ==> s.medianYear in DateYears(o, rows, idx)
  {
    ScoreYears(DateYears(o, rows, idx))
  }

  /** The median of a list of years splits it once sorted: the years
      before it are not later, those after it not earlier. */
  lemma MedianSplits(ys: seq<int>)
    ensures var s, sorted := ScoreYears(ys), SortAsc(ys);
      s.count > 0 ==>
        && (forall j :: 0 <= j <= s.count / 2 ==> sorted[j] <= s.medianYear)
        && (forall j :: s.count / 2 <= j < s.count ==> s.medianYear <= sorted[j])
  {
    var sorted := SortAsc(ys);
    if |sorted| > 0 {
      assert ScoreYears(ys).medianYear == sorted[|sorted| / 2];
    }
  }

  /** The same for the years of a column. */
  lemma MedianSplitsYears(o: DateOracles, rows: seq<Row>, idx: nat)
    ensures var s := ScoreOf(o, rows, idx);
      var ys := SortAsc(DateYears(o, rows, idx));
      s.count > 0 ==>
        && (forall j :: 0 <= j <= s.count / 2 ==> ys[j] <= s.medianYear)
        && (forall j :: s.count / 2 <= j < s.count ==> s.medianYear <= ys[j])
  {
    MedianSplits(DateYears(o, rows, idx));
  }

  /** The loop of `scoreDateColumn`: the year of every date in the column. */
  method ColumnYears(o: DateOracles, rows: seq<Row>, idx: nat) returns (years: seq<int>)
    ensures years == DateYears(o, rows, idx)
  {
    years := [];
    var k := 0;
    while k < |rows|
      invariant 0 <= k <= |rows|
      invariant years == DateYears(o, rows[..k], idx)
    {
      DateYearsStep(o, rows, idx, k);
      var date := ToDate(o, CellAt(rows[k], idx));
      if date.Some? {
        years := years + [YearOf(date.value)];
      }
      k := k + 1;
    }
    assert rows[..|rows|] == rows;
  }

  method ScoreDateColumn(o: DateOracles, rows: seq<Row>, idx: nat) returns (s: DateScore)
    ensures s == ScoreOf(o, rows, idx)
  {
    var years := ColumnYears(o, rows, idx);
    var sorted := SortAsc(years);
    var count := |sorted|;
    var median := if count > 0 then sorted[count / 2] else 0;
    s := DateScore(count, median);
    assert s == ScoreYears(years);
  }

  /** The test a date column must pass: at least 10 dates, median year 2000
      or later. */
  predicate Passes(s: DateScore)
  {
    s.count >= 10 && s.medianYear >= 2000
  }

  /** A candidate column with its score. */
  datatype Scored = Scored(idx: nat, score: DateScore)

  /** The replacement test of the fallback: no best yet, more dates, or a
      later median year. Either alone is enough. */
  predicate Better(s: DateScore, best: Option<Scored>)
  {
    best.None? || s.count > best.value.score.count || s.medianYear > best.value.score.medianYear
  }

  /** The fallback walk over the scored candidates, in order. */
  function SelectDate(cands: seq<Scored>): (r: Option<Scored>)
    ensures r.Some? ==> r.value in cands && Passes(r.value.score)
    ensures r.None? ==> forall c :: c in cands ==> !Passes(c.score)
  {
    if cands == [] then None
    else
      var best := SelectDate(cands[..|cands| - 1]);
      var c := cands[|cands| - 1];
      assert forall x :: x in cands[..|cands| - 1] ==> x in cands;
      assert forall x :: x in cands ==> x in cands[..|cands| - 1] || x == c;
      Consider(best, c)
  }

  /** One step of the walk: a passing candidate replaces a worse best. */
  function Consider(best: Option<Scored>, c: Scored): Option<Scored>
  {
    if !Passes(c.score) then best
    else if Better(c.score, best) then Some(c)
    else best
  }

  /** The choice is not the column with the most dates nor the one with the
      latest median: a later candidate with a later median displaces one
      with more dates, and is displaced in turn by one with more dates. */
  lemma DateChoiceIsNotLexicographic()
    ensures var a := Scored(1, DateScore(20, 2005));
      var b := Scored(2, DateScore(15, 2010));
      var c := Scored(3, DateScore(18, 2008));
      SelectDate([a, b, c]) == Some(c)
  {
    var a := Scored(1, DateScore(20, 2005));
    var b := Scored(2, DateScore(15, 2010));
    var c := Scored(3, DateScore(18, 2008));
    assert [a, b, c][..2] == [a, b];
    assert [a, b][..1] == [a];
    assert [a][..0] == [];
  }

  /** The chosen candidate is the last replacement of the walk: it passes,
      it beats the best of the candidates before it, and no later passing
      candidate beats it. */
  lemma {:induction false} SelectDateLast(cands: seq<Scored>)
    ensures var r := SelectDate(cands);
      r.Some? ==> exists k :: 0 <= k < |cands| && cands[k] == r.value && LastReplacement(cands, k)
  {
    if cands != [] {
      var n := |cands| - 1;
      var c := cands[n];
      var best := SelectDate(cands[..n]);
      assert SelectDate(cands) == Consider(best, c);
      if Passes(c.score) && Better(c.score, best) {
        assert LastReplacement(cands, n);
      } else if best.Some? {
        SelectDateLast(cands[..n]);
        var k :| 0 <= k < n && cands[..n][k] == best.value && LastReplacement(cands[..n], k);
        StillLast(cands, k);
      }
    }
  }

  /** A last replacement among the first n candidates stays the last when
      the next candidate does not beat it. */
  lemma StillLast(cands: seq<Scored>, k: nat)
    requires k < |cands| - 1 && LastReplacement(cands[..|cands| - 1], k)
    requires var c := cands[|cands| - 1]; !(Passes(c.score) && Better(c.score, Some(cands[k])))
    ensures LastReplacement(cands, k)
  {
    var n := |cands| - 1;
    assert cands[..n][k] == cands[k];
    assert cands[..n][..k] == cands[..k];
    assert forall j :: k < j < n ==> cands[..n][j] == cands[j];
  }

  /** Candidate k passes, beats the best of those before it, and no later
      passing candidate beats it. */
  predicate LastReplacement(cands: seq<Scored>, k: nat)
    requires k < |cands|
  {
    && Passes(cands[k].score)
    && Better(cands[k].score, SelectDate(cands[..k]))
    && forall j :: k < j < |cands| ==> !(Passes(cands[j].score) && Better(cands[j].score, Some(cands[k])))
  }

  /** Among candidates with the same score the first is not always the one
      kept: b displaces a by its count, and c, scored exactly as a, displaces
      b by its median year. */
  lemma DateChoiceTieNotFirst()
    ensures var a := Scored(1, DateScore(12, 2005));
      var b := Scored(2, DateScore(14, 2003));
      var c := Scored(3, DateScore(12, 2005));
      a.score == c.score && SelectDate([a, b, c]) == Some(c)
  {
    var a := Scored(1, DateScore(12, 2005));
    var b := Scored(2, DateScore(14, 2003));
    var c := Scored(3, DateScore(12, 2005));
    assert [a, b, c][..2] == [a, b];
    assert [a, b][..1] == [a];
    assert [a][..0] == [];
  }

  /** The indices of the cells among the first j of a row that toDate reads
      as a date, left to right. */
  function RowDateColumns(o: DateOracles, row: Row, j: nat): seq<nat>
    requires j <= |row|
  {
    if j == 0 then []
    else RowDateColumns(o, row, j - 1) + (if ToDate(o, row[j - 1]).Some? then [j - 1] else [])
  }

  /** The same over every row, top to bottom. */
  function DateColumnsSeen(o: DateOracles, rows: seq<Row>): seq<nat>
  {
    if rows == [] then []
    else
      var last := rows[|rows| - 1];
      DateColumnsSeen(o, rows[..|rows| - 1]) + RowDateColumns(o, last, |last|)
  }

  /** The distinct values of s in the order they first occur: the key order
      of a Map filled by `set`. */
  function FirstSeen(s: seq<nat>): (r: seq<nat>)
    ensures forall x :: x in r <==> x in s
    ensures Distinct(r)
  {
    if s == [] then []
    else
      var d := FirstSeen(s[..|s| - 1]);
      var x := s[|s| - 1];
      assert forall y :: y in s ==> y in s[..|s| - 1] || y == x;
      if x in d then d else d + [x]
  }

  /** The candidates with their scores. */
  function ScoreAll(o: DateOracles, rows: seq<Row>, cols: seq<nat>): (r: seq<Scored>)
    ensures |r| == |cols|
    ensures forall c :: c in r ==> c.score == ScoreOf(o, rows, c.idx)
  {
    if cols == [] then []
    else
      var init := ScoreAll(o, rows, cols[..|cols| - 1]);
      var c := Scored(cols[|cols| - 1], ScoreOf(o, rows, cols[|cols| - 1]));
      assert forall x :: x in init + [c] ==> x in init || x == c;
      init + [c]
  }

  /** `pickDateColumn`: the first header naming a date when that column
      passes, else the fallback over the columns that hold a date, in the
      order their first date was met. */
  function DateColumn(o: DateOracles, rows: seq<Row>, header: Row): Option<nat>
  {
    var h := FirstHeaderFrom(header, DateKeys, {}, 0);
    if h.Some? && Passes(ScoreOf(o, rows, h.value)) then h
    else
      match SelectDate(ScoreAll(o, rows, FirstSeen(DateColumnsSeen(o, rows))))
      case None => None
      case Some(best) => Some(best.idx)
  }

  /** A chosen date column passes the test, and the header column is taken
      whenever it passes. */
  lemma DateColumnChoice(o: DateOracles, rows: seq<Row>, header: Row)
    ensures var r := DateColumn(o, rows, header);
      r.Some? ==> Passes(ScoreOf(o, rows, r.value))
    ensures var h := FirstHeaderFrom(header, DateKeys, {}, 0);
      h.Some? && Passes(ScoreOf(o, rows, h.value)) ==> DateColumn(o, rows, header) == h
  {
    var h := FirstHeaderFrom(header, DateKeys, {}, 0);
    if !(h.Some? && Passes(ScoreOf(o, rows, h.value))) {
      var sc := ScoreAll(o, rows, FirstSeen(DateColumnsSeen(o, rows)));
      var best := SelectDate(sc);
    }
  }

  /** The first date of a later cell: the keys of the `counts` Map grow by
      the cell's column unless it is already there. */
  lemma FirstSeenStep(s: seq<nat>, x: nat)
    ensures FirstSeen(s + [x]) == if x in FirstSeen(s) then FirstSeen(s) else FirstSeen(s) + [x]
  {
    assert (s + [x])[..|s|] == s;
  }

  /** One more row adds that row's date columns, left to right. */
  lemma SeenStep(o: DateOracles, rows: seq<Row>, k: nat)
    requires k < |rows|
    ensures DateColumnsSeen(o, rows[..k + 1]) == DateColumnsSeen(o, rows[..k]) + RowDateColumns(o, rows[k], |rows[k]|)
  {
    assert rows[..k + 1][..k] == rows[..k];
  }

  /** One more cell of a row adds its column to the keys, unless it is
      already there, when toDate reads it as a date. */
  lemma {:induction false} SeenCellStep(o: DateOracles, prefix: seq<nat>, row: Row, j: nat, order: seq<nat>)
    requires j < |row|
    requires order == FirstSeen(prefix + RowDateColumns(o, row, j))
    ensures FirstSeen(prefix + RowDateColumns(o, row, j + 1))
      == if ToDate(o, row[j]).Some? && j !in order then order + [j] else order
  {
    if ToDate(o, row[j]).Some? {
      assert prefix + RowDateColumns(o, row, j + 1) == (prefix + RowDateColumns(o, row, j)) + [j];
      FirstSeenStep(prefix + RowDateColumns(o, row, j), j);
    } else {
      assert RowDateColumns(o, row, j + 1) == RowDateColumns(o, row, j);
    }
  }

  /** The inner loop of `pickDateColumn`: the cells of one row. */
  method CollectRow(o: DateOracles, row: Row, order: seq<nat>, ghost prefix: seq<nat>) returns (order': seq<nat>)
    requires order == FirstSeen(prefix)
    ensures order' == FirstSeen(prefix + RowDateColumns(o, row, |row|))
  {
    order' := order;
    assert prefix + RowDateColumns(o, row, 0) == prefix;
    var j := 0;
    while j < |row|
      invariant 0 <= j <= |row|
      invariant order' == FirstSeen(prefix + RowDateColumns(o, row, j))
    {
      SeenCellStep(o, prefix, row, j, order');
      if ToDate(o, row[j]).Some? && j !in order' {
        order' := order' + [j];
      }
      j := j + 1;
    }
  }

  /** The keys of the `counts` Map of `pickDateColumn`, in insertion order:
      every cell of every row that toDate reads as a date adds its column. */
  method CollectDateColumns(o: DateOracles, rows: seq<Row>) returns (order: seq<nat>)
    ensures order == FirstSeen(DateColumnsSeen(o, rows))
  {
    order := [];
    var k := 0;
    while k < |rows|
      invariant 0 <= k <= |rows|
      invariant order == FirstSeen(DateColumnsSeen(o, rows[..k]))
    {
      SeenStep(o, rows, k);
      order := CollectRow(o, rows[k], order, DateColumnsSeen(o, rows[..k]));
      k := k + 1;
    }
    assert rows[..|rows|] == rows;
  }

  /** The columns come in the order of their first occurrence: wherever
      a later column occurs in s, every earlier one has occurred before. */
  lemma {:induction false} FirstSeenOrder(s: seq<nat>)
    ensures var r := FirstSeen(s);
      forall i, j, q :: 0 <= i < j < |r| && 0 <= q < |s| && s[q] == r[j] ==> r[i] in s[..q]
  {
    if s != [] {
      var n := |s| - 1;
      var init, x := s[..n], s[n];
      var d := FirstSeen(init);
      var r := FirstSeen(s);
      FirstSeenOrder(init);
      FirstSeenStep(init, x);
      assert init + [x] == s;
      forall i, j, q | 0 <= i < j < |r| && 0 <= q < |s| && s[q] == r[j]
        ensures r[i] in s[..q]
      {
        assert r[i] == d[i] && d[i] in init;
        if q < n {
          assert s[q] == init[q] && s[..q] == init[..q];
        } else {
          assert s[..q] == init;
        }
      }
    }
  }

  /** One more candidate: it replaces the best so far when it passes and is
      better. */
  lemma SelectDateStep(cs: seq<Scored>, t: nat, best: Option<Scored>, c: Scored)
    requires t < |cs| && cs[t] == c && best == SelectDate(cs[..t])
    ensures SelectDate(cs[..t + 1]) == if Passes(c.score) && Better(c.score, best) then Some(c) else best
  {
    assert cs[..t + 1][..t] == cs[..t];
  }

  /** One more column adds its scored candidate. */
  lemma ScoreAllStep(o: DateOracles, rows: seq<Row>, order: seq<nat>, t: nat, s: DateScore)
    requires t < |order| && s == ScoreOf(o, rows, order[t])
    ensures ScoreAll(o, rows, order[..t + 1]) == ScoreAll(o, rows, order[..t]) + [Scored(order[t], s)]
  {
    assert order[..t + 1][..t] == order[..t];
  }


  /** The scores `pickDateColumn` computes for the columns of the `counts`
      Map, in its key order. */
  method ScoreCandidates(o: DateOracles, rows: seq<Row>, order: seq<nat>) returns (cands: seq<Scored>)
    ensures cands == ScoreAll(o, rows, order)
  {
    cands := [];
    var t := 0;
    while t < |order|
      invariant 0 <= t <= |order|
      invariant cands == ScoreAll(o, rows, order[..t])
    {
      var score := ScoreDateColumn(o, rows, order[t]);
      ScoreAllStep(o, rows, order, t, score);
      cands := cands + [Scored(order[t], score)];
      t := t + 1;
    }
    assert order[..|order|] == order;
  }

  /** The `counts.forEach` walk of `pickDateColumn` over the scored
      candidates. */
  method SelectDateColumn(cands: seq<Scored>) returns (best: Option<Scored>)
    ensures best == SelectDate(cands)
  {
    best := None;
    var t := 0;
    while t < |cands|
      invariant 0 <= t <= |cands|
      invariant best == SelectDate(cands[..t])
    {
      var c := cands[t];
      SelectDateStep(cands, t, best, c);
      if Passes(c.score) && Better(c.score, best) {
        best := Some(c);
      }
      t := t + 1;
    }
    assert cands[..|cands|] == cands;
  }

  method PickDateColumn(o: DateOracles, rows: seq<Row>, header: Row) returns (r: Option<nat>)
    ensures r == DateColumn(o, rows, header)
  {
    var h := FindHeader(header, DateKeys, {});
    if h.Some? {
      var headerScore := ScoreDateColumn(o, rows, h.value);
      if Passes(headerScore) {
        return h;
      }
    }
    var order := CollectDateColumns(o, rows);
    var cands := ScoreCandidates(o, rows, order);
    var best := SelectDateColumn(cands);
    if best.None? {
      return None;
    }
    return Some(best.value.idx);
  }
}
