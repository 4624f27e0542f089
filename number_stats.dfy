/** The per-number builder of the statistics extractor (scripts/fetch-data.js,
    `extractNumberStats`): the sheet whose first column lists every number of
    the game, the columns the classifier picks in it, and one statistics
    record per number row. */
module NumberStats {
  import opened Support
  import opened Cells
  import opened Sorting
  import opened Columns

  /** A worksheet: its name and its rows. */
  datatype Sheet = Sheet(name: string, rows: seq<Row>)

  /** One number's record. The times drawn is null when no column gives it;
      the draw id is '' (None) when the draw count is 0. */
  datatype NumberStat = NumberStat(
    result: string,
    frequency: real,
    numberOfTimesDrawn: Option<real>,
    notDrawnSince: real,
    lastWinningDrawId: Option<real>,
    lastWinningDrawDate: Option<int>)

  /** What `extractNumberStats` returns. */
  datatype Extracted = Extracted(
    statistics: seq<NumberStat>,
    drawCount: int,
    lastDraw: Option<int>,
    mostDrawnResults: seq<string>,
    leastDrawnResults: seq<string>)

  /** The number column. */
  const NumCol: nat := 0

  /** The statistics list is cut to this many numbers at each end. */
  const ListSize: nat := 5

  const NoStatisticsMessage: string := "Could not extract statistics from file"

  /** A row whose first cell is an integer in [min, max]. */
  predicate IsNumberRow(row: Row, min: int, max: int)
  {
    IsIntegerCell(CellAt(row, 0)) && min as real <= CellAt(row, 0).n <= max as real
  }

  /** The number a number row lists: `parseInt` of the integer cell. */
  function NumberOf(row: Row, min: int, max: int): (n: int)
    requires IsNumberRow(row, min, max)
    ensures min <= n <= max && CellAt(row, 0) == Num(n as real)
  {
    CellAt(row, 0).n.Floor
  }

  /** The indices of the number rows, top to bottom. */
  function NumberRows(rows: seq<Row>, min: int, max: int): (ix: seq<nat>)
    ensures forall t :: 0 <= t < |ix| ==> ix[t] < |rows| && IsNumberRow(rows[ix[t]], min, max)
    ensures forall t, u :: 0 <= t < u < |ix| ==> ix[t] < ix[u]
    ensures forall r :: 0 <= r < |rows| && IsNumberRow(rows[r], min, max) ==> r in ix
  {
    if rows == [] then []
    else
      var n := |rows| - 1;
      NumberRows(rows[..n], min, max) + (if IsNumberRow(rows[n], min, max) then [n] else [])
  }

  /** A sheet qualifies when it has at least one number row per number of
      the game. */
  predicate Qualifies(sheet: Sheet, min: int, max: int)
  {
    |NumberRows(sheet.rows, min, max)| >= max - min + 1
  }

  /** The rows at the given indices. */
  function Pick(rows: seq<Row>, ix: seq<nat>): (p: seq<Row>)
    requires forall t :: 0 <= t < |ix| ==> ix[t] < |rows|
    ensures |p| == |ix| && forall t :: 0 <= t < |ix| ==> p[t] == rows[ix[t]]
  {
    seq(|ix|, t requires 0 <= t < |ix| => rows[ix[t]])
  }

  /** The row above the first number row, or none when that is the first
      row. */
  function HeaderRow(rows: seq<Row>, first: nat): Row
    requires first < |rows|
  {
    if first == 0 then [] else rows[first - 1]
  }

  /** The columns the classifier picks in a sheet. */
  datatype Layout = Layout(timesCol: Option<nat>, freqCol: Option<nat>, dateCol: Option<nat>, gapCol: Option<nat>)

  function LayoutOf(o: DateOracles, numberRows: seq<Row>, header: Row): Layout
  {
    var stats := ColumnStats(numberRows);
    var times := TimesColumn(stats, NumCol, header);
    var freq := FrequencyColumn(stats, header, NumCol, times);
    var date := DateColumn(o, numberRows, header);
    Layout(times, freq, date, GapColumn(stats, header, NumCol, times, freq, date))
  }

  /** What one number row gives before normalisation. */
  datatype Raw = Raw(num: int, timesDrawn: Option<real>, lastDrawDate: Option<int>, gap: Option<real>)

  /** toNumber of the cell at an optional column: `row[null]` is undefined
      and reads as null. */
  function NumberIn(row: Row, col: Option<nat>): Option<real>
  {
    if col.Some? then ToNumber(CellAt(row, col.value)) else None
  }

  function RawOf(o: DateOracles, row: Row, lay: Layout, min: int, max: int): Raw
    requires IsNumberRow(row, min, max)
  {
    Raw(NumberOf(row, min, max),
        NumberIn(row, lay.timesCol),
        if lay.dateCol.Some? then ToDate(o, CellAt(row, lay.dateCol.value)) else None,
        NumberIn(row, lay.gapCol))
  }

  function Raws(o: DateOracles, numberRows: seq<Row>, lay: Layout, min: int, max: int): (rs: seq<Raw>)
    requires forall t :: 0 <= t < |numberRows| ==> IsNumberRow(numberRows[t], min, max)
    ensures |rs| == |numberRows|
    ensures forall t :: 0 <= t < |rs| ==> rs[t] == RawOf(o, numberRows[t], lay, min, max)
  {
    seq(|numberRows|, t requires 0 <= t < |numberRows| => RawOf(o, numberRows[t], lay, min, max))
  }

  /** `timesDrawn || 0`. */
  function TimesOrZero(r: Raw): real
  {
    if r.timesDrawn.Some? then r.timesDrawn.value else 0.0
  }

  /** The sum of the times drawn, null counted as 0, left to right. */
  function SumTimes(rs: seq<Raw>): real
  {
    if rs == [] then 0.0 else SumTimes(rs[..|rs| - 1]) + TimesOrZero(rs[|rs| - 1])
  }

  /** `drawCount`: the sum of the times drawn over the numbers per draw,
      rounded to the nearest integer. */
  function DrawCount(rs: seq<Raw>, numbersPerDraw: nat): (d: int)
    requires numbersPerDraw > 0
    ensures var q := SumTimes(rs) / numbersPerDraw as real;
      q - 0.5 < d as real <= q + 0.5
  {
    MathRound(SumTimes(rs) / numbersPerDraw as real)
  }

  /** The last draw dates of the records. */
  function Dates(rs: seq<Raw>): (ds: seq<Option<int>>)
    ensures |ds| == |rs| && forall t :: 0 <= t < |rs| ==> ds[t] == rs[t].lastDrawDate
  {
    seq(|rs|, t requires 0 <= t < |rs| => rs[t].lastDrawDate)
  }

  /** The position of the first occurrence of n. */
  function FirstIndexOf(nums: seq<int>, n: int): (t: nat)
    requires n in nums
    ensures t < |nums| && nums[t] == n && n !in nums[..t]
  {
    if nums[0] == n then 0
    else
      var t := 1 + FirstIndexOf(nums[1..], n);
      assert nums[..t] == [nums[0]] + nums[1..][..t - 1];
      t
  }

  /** The frequency before rounding, or null: the frequency column of the
      first number row listing the same number; otherwise the share of the
      draws the number was drawn in, when both are non-zero; otherwise 0. */
  function RawFrequency(rows: seq<Row>, numberRows: seq<Row>, rs: seq<Raw>, t: nat, lay: Layout, drawCount: int): Option<real>
    requires |rs| == |numberRows| && t < |rs|
  {
    var s := rs[t];
    var nums := seq(|rs|, u requires 0 <= u < |rs| => rs[u].num);
    assert nums[t] == s.num;
    if lay.freqCol.Some? && RowHasNumber(rows, s.num) then
      NumberIn(numberRows[FirstIndexOf(nums, s.num)], lay.freqCol)
    else if s.timesDrawn.Some? && s.timesDrawn.value != 0.0 && drawCount != 0 then
      Some((s.timesDrawn.value / drawCount as real) * 100.0)
    else Some(0.0)
  }

  /** `notDrawnSince`: the gap when the gap column gives a number; otherwise
      the draws between this number's last date and the latest last date;
      otherwise 0. */
  function NotDrawnSince(s: Raw, lastDraw: Option<int>): (r: real)
    ensures s.gap.Some? ==> r == s.gap.value
    ensures s.gap.None? ==> r >= 0.0
  {
    if s.gap.Some? then s.gap.value
    else if s.lastDrawDate.Some? && lastDraw.Some? then CalculateDrawsSince(s.lastDrawDate.value, lastDraw.value) as real
    else 0.0
  }

  function Normalize(rows: seq<Row>, numberRows: seq<Row>, rs: seq<Raw>, t: nat, lay: Layout,
                     drawCount: int, lastDraw: Option<int>): NumberStat
    requires |rs| == |numberRows| && t < |rs|
  {
    var s := rs[t];
    var freq := RawFrequency(rows, numberRows, rs, t, lay, drawCount);
    var notDrawn := NotDrawnSince(s, lastDraw);
    NumberStat(
      IntToString(s.num),
      if freq.Some? then Round(freq.value, 2) else 0.0,
      s.timesDrawn,
      notDrawn,
      if drawCount != 0 then Some(drawCount as real - notDrawn) else None,
      s.lastDrawDate)
  }

  function Results(ss: seq<NumberStat>): (r: seq<string>)
    ensures |r| == |ss| && forall t :: 0 <= t < |ss| ==> r[t] == ss[t].result
  {
    seq(|ss|, t requires 0 <= t < |ss| => ss[t].result)
  }

  function Reverse<T>(s: seq<T>): (r: seq<T>)
    ensures |r| == |s| && forall t :: 0 <= t < |s| ==> r[t] == s[|s| - 1 - t]
  {
    seq(|s|, t requires 0 <= t < |s| => s[|s| - 1 - t])
  }

  /** The records sorted by frequency, largest first, keeping the sheet
      order among equal frequencies. */
  function ByFrequency(ss: seq<NumberStat>): seq<NumberStat>
  {
    SortDesc(ss, (s: NumberStat) => s.frequency)
  }

  /** The most and the least drawn lists. */
  datatype Ranking = Ranking(most: seq<string>, least: seq<string>)

  /** The first five of the records by frequency, and the last five with
      the lowest first. */
  function Rank(ss: seq<NumberStat>): (r: Ranking)
    ensures var k := Min(ListSize, |ss|);
      var sorted := ByFrequency(ss);
      && |sorted| == |ss| && multiset(sorted) == multiset(ss)
      && |r.most| == k && |r.least| == k
      && (forall i :: 0 <= i < k ==> r.most[i] == sorted[i].result)
      && (forall i :: 0 <= i < k ==> r.least[i] == sorted[|sorted| - 1 - i].result)
      && (forall i, j :: 0 <= i < k <= j < |sorted| ==> sorted[i].frequency >= sorted[j].frequency)
      && (forall i, j :: 0 <= j < |sorted| - k <= i < |sorted| ==> sorted[i].frequency <= sorted[j].frequency)
  {
    var sorted := ByFrequency(ss);
    var k := Min(ListSize, |sorted|);
    Ranking(Results(sorted[..k]), Results(Reverse(sorted[|sorted| - k..])))
  }

  /** The normalised records, one per raw record. */
  function Records(rows: seq<Row>, numberRows: seq<Row>, rs: seq<Raw>, lay: Layout,
                   drawCount: int, lastDraw: Option<int>): (ss: seq<NumberStat>)
    requires |rs| == |numberRows|
    ensures |ss| == |rs|
    ensures forall t :: 0 <= t < |rs| ==> ss[t] == Normalize(rows, numberRows, rs, t, lay, drawCount, lastDraw)
  {
    seq(|rs|, t requires 0 <= t < |rs| => Normalize(rows, numberRows, rs, t, lay, drawCount, lastDraw))
  }

  /** The statistics of a qualifying sheet. */
  function SheetStats(o: DateOracles, rows: seq<Row>, min: int, max: int, numbersPerDraw: nat): Extracted
    requires numbersPerDraw > 0
    requires |NumberRows(rows, min, max)| > 0
  {
    var ix := NumberRows(rows, min, max);
    var numberRows := Pick(rows, ix);
    var lay := LayoutOf(o, numberRows, HeaderRow(rows, ix[0]));
    var rs := Raws(o, numberRows, lay, min, max);
    var drawCount := DrawCount(rs, numbersPerDraw);
    var lastDraw := MaxDate(Dates(rs));
    var stats := Records(rows, numberRows, rs, lay, drawCount, lastDraw);
    var ranking := Rank(stats);
    Extracted(stats, drawCount, lastDraw, ranking.most, ranking.least)
  }

  /** The first qualifying sheet from index i on, or none. */
  function FirstQualifying(sheets: seq<Sheet>, min: int, max: int, i: nat): (r: Option<nat>)
    ensures r.Some? ==> i <= r.value < |sheets| && Qualifies(sheets[r.value], min, max)
    ensures forall j :: i <= j < |sheets| && (r.None? || j < r.value) ==> !Qualifies(sheets[j], min, max)
    decreases |sheets| - i
  {
    if i >= |sheets| then None
    else if Qualifies(sheets[i], min, max) then Some(i)
    else FirstQualifying(sheets, min, max, i + 1)
  }

  /** `extractNumberStats`: the statistics of the first qualifying sheet, or
      the error the source throws when no sheet qualifies. */
  function Extract(o: DateOracles, sheets: seq<Sheet>, min: int, max: int, numbersPerDraw: nat): (r: Result<Extracted>)
    requires min <= max && numbersPerDraw > 0
    ensures r.Err? <==> forall j :: 0 <= j < |sheets| ==> !Qualifies(sheets[j], min, max)
    ensures r.Err? ==> r.message == NoStatisticsMessage
  {
    match FirstQualifying(sheets, min, max, 0)
    case None => Err(NoStatisticsMessage)
    case Some(i) => Ok(SheetStats(o, sheets[i].rows, min, max, numbersPerDraw))
  }

  method ExtractNumberStats(o: DateOracles, sheets: seq<Sheet>, min: int, max: int, numbersPerDraw: nat)
    returns (r: Result<Extracted>)
    requires min <= max && numbersPerDraw > 0
    ensures r == Extract(o, sheets, min, max, numbersPerDraw)
  {
    var i := 0;
    while i < |sheets|
      invariant 0 <= i <= |sheets|
      invariant FirstQualifying(sheets, min, max, 0) == FirstQualifying(sheets, min, max, i)
    {
      var rows := sheets[i].rows;
      var ix := NumberRows(rows, min, max);
      if |ix| < max - min + 1 {
        i := i + 1;
        continue;
      }
      var numberRows := Pick(rows, ix);
      var header := HeaderRow(rows, ix[0]);
      var colStats := BuildColumnStats(numberRows);
      var timesCol := PickTimesColumn(colStats, NumCol, header);
      var freqCol := PickFrequencyColumn(colStats, header, NumCol, timesCol);
      var dateCol := PickDateColumn(o, numberRows, header);
      var gapCol := PickGapColumn(colStats, header, NumCol, timesCol, freqCol, dateCol);
      var lay := Layout(timesCol, freqCol, dateCol, gapCol);
      assert lay == LayoutOf(o, numberRows, header);
      var rs := Raws(o, numberRows, lay, min, max);
      var drawCount := DrawCount(rs, numbersPerDraw);
      var lastDraw := MaxDate(Dates(rs));
      var stats := Records(rows, numberRows, rs, lay, drawCount, lastDraw);
      var ranking := Rank(stats);
      return Ok(Extracted(stats, drawCount, lastDraw, ranking.most, ranking.least));
    }
    return Err(NoStatisticsMessage);
  }

  // ----- properties -----

  /** Every number row lists a number the sheet's rows hold in their first
      cell, so the frequency is always read from the frequency column when
      there is one. */
  lemma NumberRowIsListed(rows: seq<Row>, min: int, max: int, r: nat)
    requires r < |rows| && IsNumberRow(rows[r], min, max)
    ensures RowHasNumber(rows, NumberOf(rows[r], min, max))
  {
    assert |rows[r]| > 0 && rows[r][0] == Num(NumberOf(rows[r], min, max) as real);
  }

  /** Each record names its number; its draw id is '' exactly when the draw
      count is 0, and is the draw count less the draws since otherwise. */
  lemma RecordsFacts(rows: seq<Row>, numberRows: seq<Row>, rs: seq<Raw>, lay: Layout,
                     drawCount: int, lastDraw: Option<int>)
    requires |rs| == |numberRows|
    ensures var ss := Records(rows, numberRows, rs, lay, drawCount, lastDraw);
      && (forall t :: 0 <= t < |rs| ==> ss[t].result == IntToString(rs[t].num))
      && (forall t :: 0 <= t < |rs| ==> ss[t].numberOfTimesDrawn == rs[t].timesDrawn)
      && (forall t :: 0 <= t < |rs| ==> (ss[t].lastWinningDrawId.None? <==> drawCount == 0))
      && (forall t :: 0 <= t < |rs| && drawCount != 0 ==>
            ss[t].lastWinningDrawId == Some(drawCount as real - ss[t].notDrawnSince))
  {
    var ss := Records(rows, numberRows, rs, lay, drawCount, lastDraw);
    forall t | 0 <= t < |rs|
      ensures ss[t].result == IntToString(rs[t].num)
      ensures ss[t].numberOfTimesDrawn == rs[t].timesDrawn
      ensures ss[t].lastWinningDrawId == if drawCount != 0 then Some(drawCount as real - ss[t].notDrawnSince) else None
    {
      NormalizeFields(rows, numberRows, rs, t, lay, drawCount, lastDraw);
    }
  }

  lemma NormalizeFields(rows: seq<Row>, numberRows: seq<Row>, rs: seq<Raw>, t: nat, lay: Layout,
                        drawCount: int, lastDraw: Option<int>)
    requires |rs| == |numberRows| && t < |rs|
    ensures var r := Normalize(rows, numberRows, rs, t, lay, drawCount, lastDraw);
      && r.result == IntToString(rs[t].num)
      && r.numberOfTimesDrawn == rs[t].timesDrawn
      && r.notDrawnSince == NotDrawnSince(rs[t], lastDraw)
      && r.lastWinningDrawId == if drawCount != 0 then Some(drawCount as real - r.notDrawnSince) else None
  {
  }

  /** One record per number row, in sheet order, each naming its row's
      number, which lies in [min, max]. */
  lemma SheetStatsRecords(o: DateOracles, rows: seq<Row>, min: int, max: int, numbersPerDraw: nat)
    requires numbersPerDraw > 0 && |NumberRows(rows, min, max)| > 0
    ensures var e := SheetStats(o, rows, min, max, numbersPerDraw);
      var ix := NumberRows(rows, min, max);
      && |e.statistics| == |ix|
      && (forall t :: 0 <= t < |ix| ==> e.statistics[t].result == IntToString(NumberOf(rows[ix[t]], min, max)))
  {
    var ix := NumberRows(rows, min, max);
    var numberRows := Pick(rows, ix);
    var lay := LayoutOf(o, numberRows, HeaderRow(rows, ix[0]));
    var rs := Raws(o, numberRows, lay, min, max);
    var drawCount := DrawCount(rs, numbersPerDraw);
    var lastDraw := MaxDate(Dates(rs));
    RecordsFacts(rows, numberRows, rs, lay, drawCount, lastDraw);
    var stats := Records(rows, numberRows, rs, lay, drawCount, lastDraw);
    assert SheetStats(o, rows, min, max, numbersPerDraw).statistics == stats;
    forall t | 0 <= t < |ix|
      ensures stats[t].result == IntToString(NumberOf(rows[ix[t]], min, max))
    {
      assert rs[t].num == NumberOf(numberRows[t], min, max);
    }
  }

  /** Without a frequency column (or when no row lists the number) the
      frequency is the share of the draws, rounded to two decimals, or 0 when
      the times drawn or the draw count is 0 or missing. */
  lemma FrequencyWithoutColumn(rows: seq<Row>, numberRows: seq<Row>, rs: seq<Raw>, t: nat, lay: Layout,
                               drawCount: int, lastDraw: Option<int>)
    requires |rs| == |numberRows| && t < |rs|
    requires lay.freqCol.None? || !RowHasNumber(rows, rs[t].num)
    ensures var f := Normalize(rows, numberRows, rs, t, lay, drawCount, lastDraw).frequency;
      var s := rs[t];
      if s.timesDrawn.Some? && s.timesDrawn.value != 0.0 && drawCount != 0
      then f == Round((s.timesDrawn.value / drawCount as real) * 100.0, 2)
      else f == 0.0
  {
    var s := rs[t];
    if !(s.timesDrawn.Some? && s.timesDrawn.value != 0.0 && drawCount != 0) {
      RoundCents(0);
    }
  }

  /** With a frequency column, the frequency is that column's number in the
      first number row naming the same number, rounded to two decimals, or 0
      when that cell holds no number. */
  lemma FrequencyFromColumn(rows: seq<Row>, numberRows: seq<Row>, rs: seq<Raw>, t: nat, lay: Layout,
                            drawCount: int, lastDraw: Option<int>, u: nat)
    requires |rs| == |numberRows| && t < |rs| && lay.freqCol.Some? && RowHasNumber(rows, rs[t].num)
    requires u < |rs| && rs[u].num == rs[t].num && forall v :: 0 <= v < u ==> rs[v].num != rs[t].num
    ensures var f := Normalize(rows, numberRows, rs, t, lay, drawCount, lastDraw).frequency;
      match ToNumber(CellAt(numberRows[u], lay.freqCol.value))
      case Some(x) => f == Round(x, 2)
      case None => f == 0.0
  {
    var nums := seq(|rs|, v requires 0 <= v < |rs| => rs[v].num);
    assert nums[t] == rs[t].num;
    var first := FirstIndexOf(nums, rs[t].num);
    forall v | 0 <= v < first ensures rs[v].num != rs[t].num {
      assert nums[..first][v] == nums[v];
    }
    assert rs[first].num == rs[t].num;
    assert first == u;
    assert RawFrequency(rows, numberRows, rs, t, lay, drawCount) == NumberIn(numberRows[u], lay.freqCol);
  }
}
