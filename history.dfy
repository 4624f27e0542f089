/** The draw-history scanner of the statistics extractor (scripts/fetch-data.js,
    `extractDrawHistory` and `dedupeHistory`): every row with a date and
    enough numbers becomes a draw, duplicates are dropped, and the newest
    twenty draws are kept. */
module History {
  import opened Support
  import opened Cells
  import opened Sorting

  /** What a game's configuration tells the scanner. A game without stars
      has no star count (0 here). */
  datatype GameConfig = GameConfig(mainNumbers: nat, mainRange: nat, hasStars: bool, starNumbers: nat, starRange: nat)

  const Lotto: GameConfig := GameConfig(6, 45, false, 0, 0)
  const EuroMillions: GameConfig := GameConfig(5, 50, true, 2, 12)

  /** The third member of a draw: the bonus number of a game without stars
      (null when none is found) or the stars. */
  datatype Extra = Bonus(bonus: Option<int>) | Stars(stars: seq<int>)

  /** `[date text, main numbers, extra]`. */
  datatype DrawEntry = DrawEntry(date: string, main: seq<int>, extra: Extra)

  /** The most draws the history keeps. */
  const HistorySize: nat := 20

  // ----- one row -----

  /** The first cell of the row that toDate reads as a date. */
  function FirstDate(o: DateOracles, row: Row): (r: Option<int>)
    ensures r.Some? ==> exists i :: (0 <= i < |row| && ToDate(o, row[i]) == r &&
      forall j :: 0 <= j < i ==> ToDate(o, row[j]).None?)
    ensures r.None? ==> forall i :: 0 <= i < |row| ==> ToDate(o, row[i]).None?
  {
    if row == [] then None
    else match ToDate(o, row[0])
      case Some(ms) => Some(ms)
      case None =>
        var r := FirstDate(o, row[1..]);
        assert forall i :: 0 < i < |row| ==> row[1..][i - 1] == row[i];
        if r.None? then r
        else
          var i :| 0 <= i < |row[1..]| && ToDate(o, row[1..][i]) == r &&
            forall j :: 0 <= j < i ==> ToDate(o, row[1..][j]).None?;
          assert ToDate(o, row[i + 1]) == r;
          r
  }

  /** The integers toNumber reads in the row's cells, in row order. */
  function IntegersOf(row: Row): (ns: seq<int>)
    ensures |ns| <= |row|
  {
    if row == [] then []
    else
      var rest := IntegersOf(row[1..]);
      match ToNumber(row[0])
      case Some(x) => if x == x.Floor as real then [x.Floor] + rest else rest
      case None => rest
  }

  /** The numbers within [lo, hi], in order: each number in range as often
      as it occurs. */
  function Within(ns: seq<int>, lo: int, hi: int): (r: seq<int>)
    ensures |r| <= |ns|
    ensures forall x :: x in r <==> x in ns && lo <= x <= hi
    ensures forall x :: multiset(r)[x] == if lo <= x <= hi then multiset(ns)[x] else 0
  {
    if ns == [] then []
    else
      assert ns == [ns[0]] + ns[1..];
      (if lo <= ns[0] <= hi then [ns[0]] else []) + Within(ns[1..], lo, hi)
  }

  /** The filter keeps the order: the numbers of a + b within the range are
      those of a, then those of b. */
  lemma {:induction false} WithinConcat(a: seq<int>, b: seq<int>, lo: int, hi: int)
    ensures Within(a + b, lo, hi) == Within(a, lo, hi) + Within(b, lo, hi)
  {
    if a == [] {
      assert a + b == b;
    } else {
      assert (a + b)[0] == a[0] && (a + b)[1..] == a[1..] + b;
      WithinConcat(a[1..], b, lo, hi);
    }
  }

  /** The first number within [lo, hi] that is not among the main numbers. */
  function FirstOutside(ns: seq<int>, lo: int, hi: int, main: seq<int>): (r: Option<int>)
    ensures r.Some? ==> exists i :: (0 <= i < |ns| && ns[i] == r.value && lo <= r.value <= hi && r.value !in main &&
      forall j :: 0 <= j < i ==> !(lo <= ns[j] <= hi) || ns[j] in main)
    ensures r.None? ==> forall x :: x in ns && lo <= x <= hi ==> x in main
  {
    if ns == [] then None
    else if lo <= ns[0] <= hi && ns[0] !in main then Some(ns[0])
    else
      var r := FirstOutside(ns[1..], lo, hi, main);
      assert forall x :: x in ns ==> x == ns[0] || x in ns[1..];
      if r.None? then r
      else
        var i :| 0 <= i < |ns[1..]| && ns[1..][i] == r.value && lo <= r.value <= hi && r.value !in main &&
          forall j :: 0 <= j < i ==> !(lo <= ns[1..][j] <= hi) || ns[1..][j] in main;
        assert ns[i + 1] == r.value;
        assert forall j :: 0 < j < i + 1 ==> ns[j] == ns[1..][j - 1];
        r
  }

  /** The first mainNumbers integers within the main range: a prefix of
      those in range, as long as it can be. */
  function MainOf(numbers: seq<int>, cfg: GameConfig): (main: seq<int>)
    ensures main <= Within(numbers, 1, cfg.mainRange)
    ensures |main| == Min(cfg.mainNumbers, |Within(numbers, 1, cfg.mainRange)|)
    ensures forall x :: x in main ==> x in numbers && 1 <= x <= cfg.mainRange
  {
    var w := Within(numbers, 1, cfg.mainRange);
    var main := Take(w, cfg.mainNumbers);
    assert forall x :: x in main ==> x in w;
    main
  }

  /** The first starNumbers integers within the star range: a prefix of
      those in range, as long as it can be. */
  function StarsOf(numbers: seq<int>, cfg: GameConfig): (stars: seq<int>)
    ensures stars <= Within(numbers, 1, cfg.starRange)
    ensures |stars| == Min(cfg.starNumbers, |Within(numbers, 1, cfg.starRange)|)
    ensures forall x :: x in stars ==> x in numbers && 1 <= x <= cfg.starRange
  {
    var w := Within(numbers, 1, cfg.starRange);
    var stars := Take(w, cfg.starNumbers);
    assert forall x :: x in stars ==> x in w;
    stars
  }

  /** The draw a row holds, if any: its first date, the first mainNumbers
      integers within the main range, and the bonus or the stars. */
  function RowEntry(o: DateOracles, row: Row, cfg: GameConfig): Option<DrawEntry>
  {
    match FirstDate(o, row)
    case None => None
    case Some(ms) =>
      var numbers := IntegersOf(row);
      if |numbers| < cfg.mainNumbers then None
      else
        var main := MainOf(numbers, cfg);
        if |main| != cfg.mainNumbers then None
        else if !cfg.hasStars then
          Some(DrawEntry(ToDateString(ms), main, Bonus(FirstOutside(numbers, 1, cfg.mainRange, main))))
        else
          var stars := StarsOf(numbers, cfg);
          if |stars| != cfg.starNumbers then None
          else Some(DrawEntry(ToDateString(ms), main, Stars(stars)))
  }

  /** A row holds a draw exactly when it has a date, mainNumbers numbers in
      the main range and, in a game with stars, starNumbers in the star
      range; the early test on the count of integers never decides alone. */
  lemma RowEntryWhen(o: DateOracles, row: Row, cfg: GameConfig)
    ensures RowEntry(o, row, cfg).Some? <==>
      && FirstDate(o, row).Some?
      && |MainOf(IntegersOf(row), cfg)| == cfg.mainNumbers
      && (cfg.hasStars ==> |StarsOf(IntegersOf(row), cfg)| == cfg.starNumbers)
  {
    var numbers := IntegersOf(row);
    assert |Within(numbers, 1, cfg.mainRange)| <= |numbers|;
  }

  /** The draw a row holds: the first date as text, the main numbers, and
      the bonus outside them or the stars. */
  lemma RowEntryFields(o: DateOracles, row: Row, cfg: GameConfig)
    requires RowEntry(o, row, cfg).Some?
    ensures var e := RowEntry(o, row, cfg).value;
      && e.date == ToDateString(FirstDate(o, row).value)
      && e.main == MainOf(IntegersOf(row), cfg)
      && (!cfg.hasStars ==> e.extra == Bonus(FirstOutside(IntegersOf(row), 1, cfg.mainRange, e.main)))
      && (cfg.hasStars ==> e.extra == Stars(StarsOf(IntegersOf(row), cfg)))
  {
  }

  /** What each row of a list holds: a draw or nothing. */
  function RowOptions(o: DateOracles, rows: seq<Row>, cfg: GameConfig): (es: seq<Option<DrawEntry>>)
    ensures |es| == |rows| && forall k :: 0 <= k < |rows| ==> es[k] == RowEntry(o, rows[k], cfg)
  {
    seq(|rows|, k requires 0 <= k < |rows| => RowEntry(o, rows[k], cfg))
  }

  /** The values of the entries that are present, in order. */
  function Present<T>(es: seq<Option<T>>): seq<T>
  {
    if es == [] then []
    else
      var last := es[|es| - 1];
      Present(es[..|es| - 1]) + if last.Some? then [last.value] else []
  }

  /** Every present entry's value is kept. */
  lemma {:induction false} PresentComplete<T>(es: seq<Option<T>>, k: nat)
    requires k < |es| && es[k].Some?
    ensures es[k].value in Present(es)
  {
    var n := |es| - 1;
    if k < n {
      assert es[..n][k] == es[k];
      PresentComplete(es[..n], k);
    }
  }

  /** Every kept value is a present entry's. */
  lemma {:induction false} PresentSound<T>(es: seq<Option<T>>)
    ensures forall e :: e in Present(es) ==> exists k :: 0 <= k < |es| && es[k] == Some(e)
  {
    if es != [] {
      var n := |es| - 1;
      PresentSound(es[..n]);
      forall e | e in Present(es) ensures exists k :: 0 <= k < |es| && es[k] == Some(e) {
        if e in Present(es[..n]) {
          var k :| 0 <= k < n && es[..n][k] == Some(e);
          assert es[k] == Some(e);
        } else {
          assert es[n] == Some(e);
        }
      }
    }
  }

  /** The draws of one row list, in row order. */
  function RowsEntries(o: DateOracles, rows: seq<Row>, cfg: GameConfig): seq<DrawEntry>
  {
    Present(RowOptions(o, rows, cfg))
  }

  /** The draws of each sheet (each sheet given by its rows). */
  function SheetEntries(o: DateOracles, sheets: seq<seq<Row>>, cfg: GameConfig): (ds: seq<seq<DrawEntry>>)
    ensures |ds| == |sheets| && forall s :: 0 <= s < |sheets| ==> ds[s] == RowsEntries(o, sheets[s], cfg)
  {
    seq(|sheets|, s requires 0 <= s < |sheets| => RowsEntries(o, sheets[s], cfg))
  }

  /** The lists one after the other. */
  function Concat<T>(ss: seq<seq<T>>): seq<T>
  {
    if ss == [] then [] else Concat(ss[..|ss| - 1]) + ss[|ss| - 1]
  }

  /** Every element of every list is in the concatenation. */
  lemma {:induction false} ConcatComplete<T>(ss: seq<seq<T>>, s: nat, e: T)
    requires s < |ss| && e in ss[s]
    ensures e in Concat(ss)
  {
    var n := |ss| - 1;
    if s < n {
      assert ss[..n][s] == ss[s];
      ConcatComplete(ss[..n], s, e);
    }
  }

  /** Every element of the concatenation is in one of the lists. */
  lemma {:induction false} ConcatSound<T>(ss: seq<seq<T>>)
    ensures forall e :: e in Concat(ss) ==> exists s :: 0 <= s < |ss| && e in ss[s]
  {
    if ss != [] {
      var n := |ss| - 1;
      ConcatSound(ss[..n]);
      forall e | e in Concat(ss) ensures exists s :: 0 <= s < |ss| && e in ss[s] {
        if e in Concat(ss[..n]) {
          var s :| 0 <= s < n && e in ss[..n][s];
          assert ss[..n][s] == ss[s];
        } else {
          assert e in ss[n];
        }
      }
    }
  }

  /** The draws of every sheet, sheet after sheet. */
  function Scan(o: DateOracles, sheets: seq<seq<Row>>, cfg: GameConfig): seq<DrawEntry>
  {
    Concat(SheetEntries(o, sheets, cfg))
  }

  /** Every scanned draw comes from some row of some sheet. */
  lemma ScanFromRows(o: DateOracles, sheets: seq<seq<Row>>, cfg: GameConfig)
    ensures forall e :: e in Scan(o, sheets, cfg) ==>
      exists s, r :: 0 <= s < |sheets| && 0 <= r < |sheets[s]| && RowEntry(o, sheets[s][r], cfg) == Some(e)
  {
    ConcatSound(SheetEntries(o, sheets, cfg));
    forall e | e in Scan(o, sheets, cfg)
      ensures exists s, r :: 0 <= s < |sheets| && 0 <= r < |sheets[s]| && RowEntry(o, sheets[s][r], cfg) == Some(e)
    {
      var s :| 0 <= s < |sheets| && e in RowsEntries(o, sheets[s], cfg);
      RowsFromRows(o, sheets[s], cfg);
    }
  }

  /** Every draw of a row list is the draw of one of its rows. */
  lemma RowsFromRows(o: DateOracles, rows: seq<Row>, cfg: GameConfig)
    ensures forall e :: e in RowsEntries(o, rows, cfg) ==>
      exists r :: 0 <= r < |rows| && RowEntry(o, rows[r], cfg) == Some(e)
  {
    PresentSound(RowOptions(o, rows, cfg));
  }

  /** Every row's draw is scanned: the draws of a row list include the
      draw of each of its rows. */
  lemma RowScanned(o: DateOracles, rows: seq<Row>, cfg: GameConfig, k: nat, e: DrawEntry)
    requires k < |rows| && RowEntry(o, rows[k], cfg) == Some(e)
    ensures e in RowsEntries(o, rows, cfg)
  {
    PresentComplete(RowOptions(o, rows, cfg), k);
  }

  /** Every draw a row of a sheet holds is among the scanned draws. */
  lemma ScanComplete(o: DateOracles, sheets: seq<seq<Row>>, cfg: GameConfig, s: nat, k: nat)
    requires s < |sheets| && k < |sheets[s]| && RowEntry(o, sheets[s][k], cfg).Some?
    ensures RowEntry(o, sheets[s][k], cfg).value in Scan(o, sheets, cfg)
  {
    var e := RowEntry(o, sheets[s][k], cfg).value;
    RowScanned(o, sheets[s], cfg, k, e);
    ConcatComplete(SheetEntries(o, sheets, cfg), s, e);
  }

  /** A valid draw of any row keeps its key through deduplication: that
      draw or an earlier one with the same date and main numbers is kept. */
  lemma RowDrawKeyKept(o: DateOracles, sheets: seq<seq<Row>>, cfg: GameConfig, s: nat, k: nat)
    requires s < |sheets| && k < |sheets[s]| && RowEntry(o, sheets[s][k], cfg).Some?
    requires Valid(RowEntry(o, sheets[s][k], cfg).value, cfg)
    ensures HistoryKey(RowEntry(o, sheets[s][k], cfg).value) in Keys(Dedupe(Scan(o, sheets, cfg), cfg))
  {
    ScanComplete(o, sheets, cfg, s, k);
    DedupeKeys(Scan(o, sheets, cfg), cfg);
  }

  // ----- dedupeHistory -----

  /** `String(n)` of each number joined by ','. */
  function JoinInts(ns: seq<int>): string
  {
    if ns == [] then ""
    else if |ns| == 1 then IntToString(ns[0])
    else IntToString(ns[0]) + "," + JoinInts(ns[1..])
  }

  /** The key of a draw: its date text, '|', its main numbers in row order. */
  function HistoryKey(e: DrawEntry): string
  {
    e.date + "|" + JoinInts(e.main)
  }

  function Keys(es: seq<DrawEntry>): set<string>
  {
    set e | e in es :: HistoryKey(e)
  }

  /** A draw `dedupeHistory` may keep: a game without stars needs a bonus,
      a game with stars needs the right number of stars. */
  predicate Valid(e: DrawEntry, cfg: GameConfig)
  {
    if !cfg.hasStars then e.extra != Bonus(None)
    else e.extra.Stars? && |e.extra.stars| == cfg.starNumbers
  }

  /** The draws `dedupeHistory` keeps: each valid draw whose key no kept draw
      has yet. An invalid draw is dropped without taking its key. */
  function Dedupe(h: seq<DrawEntry>, cfg: GameConfig): seq<DrawEntry>
  {
    if h == [] then []
    else
      var d := Dedupe(h[..|h| - 1], cfg);
      var e := h[|h| - 1];
      if HistoryKey(e) in Keys(d) || !Valid(e, cfg) then d else d + [e]
  }

  method DedupeHistory(history: seq<DrawEntry>, cfg: GameConfig) returns (unique: seq<DrawEntry>)
    ensures unique == Dedupe(history, cfg)
  {
    var seen: set<string> := {};
    unique := [];
    for i := 0 to |history|
      invariant unique == Dedupe(history[..i], cfg)
      invariant seen == Keys(unique)
    {
      assert history[..i + 1][..i] == history[..i];
      var entry := history[i];
      var key := HistoryKey(entry);
      if key in seen {
        continue;
      }
      if !cfg.hasStars && entry.extra == Bonus(None) {
        continue;
      }
      if cfg.hasStars && (!entry.extra.Stars? || |entry.extra.stars| != cfg.starNumbers) {
        continue;
      }
      seen := seen + {key};
      unique := unique + [entry];
    }
    assert history[..|history|] == history;
  }

  /** The kept draws come from the history and are valid. */
  lemma {:induction false} DedupeFrom(h: seq<DrawEntry>, cfg: GameConfig)
    ensures forall e :: e in Dedupe(h, cfg) ==> e in h && Valid(e, cfg)
  {
    if h != [] {
      var init := h[..|h| - 1];
      DedupeFrom(init, cfg);
      assert forall x :: x in init ==> x in h;
    }
  }

  /** No two kept draws share a key. */
  lemma {:induction false} DedupeDistinct(h: seq<DrawEntry>, cfg: GameConfig)
    ensures DistinctBy(Dedupe(h, cfg), HistoryKey)
  {
    if h != [] {
      var init := h[..|h| - 1];
      var e := h[|h| - 1];
      var d := Dedupe(init, cfg);
      DedupeDistinct(init, cfg);
      if HistoryKey(e) !in Keys(d) && Valid(e, cfg) {
        var r := d + [e];
        forall i, j | 0 <= i < j < |r| ensures HistoryKey(r[i]) != HistoryKey(r[j]) {
          assert r[i] == d[i] && d[i] in d;
          if j < |d| {
            assert r[j] == d[j];
          }
        }
      }
    }
  }


  /** Every valid draw's key is kept. */
  lemma {:induction false} DedupeKeys(h: seq<DrawEntry>, cfg: GameConfig)
    ensures forall e :: e in h && Valid(e, cfg) ==> HistoryKey(e) in Keys(Dedupe(h, cfg))
  {
    if h != [] {
      var init := h[..|h| - 1];
      DedupeKeys(init, cfg);
      assert forall x :: x in h ==> x in init || x == h[|h| - 1];
    }
  }

  /** The first valid draw of each key is the one kept. */
  lemma {:induction false} DedupeKeepsFirst(h: seq<DrawEntry>, cfg: GameConfig)
    ensures forall i :: 0 <= i < |h| ==>
      (Valid(h[i], cfg) && (forall j :: 0 <= j < i && Valid(h[j], cfg) ==> HistoryKey(h[j]) != HistoryKey(h[i])))
      ==> h[i] in Dedupe(h, cfg)
  {
    if h != [] {
      var n := |h| - 1;
      var init := h[..n];
      DedupeKeepsFirst(init, cfg);
      DedupeFrom(init, cfg);
      var d := Dedupe(init, cfg);
      var e := h[n];
      forall i | 0 <= i < |h| && Valid(h[i], cfg) &&
        (forall j :: 0 <= j < i && Valid(h[j], cfg) ==> HistoryKey(h[j]) != HistoryKey(h[i]))
        ensures h[i] in Dedupe(h, cfg)
      {
        if i < n {
          assert init[i] == h[i];
          assert forall j :: 0 <= j < i ==> init[j] == h[j];
        } else {
          forall x | x in d ensures HistoryKey(x) != HistoryKey(e) {
            var j :| 0 <= j < n && init[j] == x;
            assert h[j] == x && Valid(h[j], cfg);
          }
        }
      }
    }
  }


  /** A draw dropped as invalid leaves its key free for a later valid draw. */
  lemma InvalidDrawKeepsKeyFree(h: seq<DrawEntry>, bad: DrawEntry, good: DrawEntry, cfg: GameConfig)
    requires !Valid(bad, cfg) && Valid(good, cfg) && HistoryKey(bad) == HistoryKey(good)
    requires HistoryKey(good) !in Keys(Dedupe(h, cfg))
    ensures Dedupe(h + [bad, good], cfg) == Dedupe(h, cfg) + [good]
  {
    assert (h + [bad, good])[..|h| + 1] == h + [bad];
    assert (h + [bad])[..|h|] == h;
  }

  // ----- extractDrawHistory -----

  /** The sort key: the time of `new Date(date text)`, by the host's parser. */
  function DateKey(o: DateOracles, e: DrawEntry): real
  {
    match o.parseText(e.date)
    case Some(ms) => ms as real
    case None => 0.0
  }

  /** `extractDrawHistory`: the deduplicated draws, newest first, at most
      twenty. */
  function DrawHistory(o: DateOracles, sheets: seq<seq<Row>>, cfg: GameConfig): seq<DrawEntry>
  {
    var sorted := SortDesc(Dedupe(Scan(o, sheets, cfg), cfg), (e: DrawEntry) => DateKey(o, e));
    Take(sorted, HistorySize)
  }

  /** One more row adds its draw, if it has one. */
  lemma RowsEntriesStep(o: DateOracles, rows: seq<Row>, cfg: GameConfig, k: nat, entry: Option<DrawEntry>)
    requires k < |rows| && entry == RowEntry(o, rows[k], cfg)
    ensures RowsEntries(o, rows[..k + 1], cfg)
         == RowsEntries(o, rows[..k], cfg) + (if entry.Some? then [entry.value] else [])
  {
    var es := RowOptions(o, rows[..k + 1], cfg);
    assert es[..k] == RowOptions(o, rows[..k], cfg);
  }

  /** The draws of one sheet's rows, pushed in row order. */
  method ScanRows(o: DateOracles, rows: seq<Row>, cfg: GameConfig) returns (found: seq<DrawEntry>)
    ensures found == RowsEntries(o, rows, cfg)
  {
    found := [];
    for k := 0 to |rows|
      invariant found == RowsEntries(o, rows[..k], cfg)
    {
      var entry := RowEntry(o, rows[k], cfg);
      RowsEntriesStep(o, rows, cfg, k, entry);
      if entry.Some? {
        found := found + [entry.value];
      }
    }
    assert rows[..|rows|] == rows;
  }

  /** One more sheet adds its draws. */
  lemma ScanStep(o: DateOracles, sheets: seq<seq<Row>>, cfg: GameConfig, s: nat)
    requires s < |sheets|
    ensures Scan(o, sheets[..s + 1], cfg) == Scan(o, sheets[..s], cfg) + RowsEntries(o, sheets[s], cfg)
  {
    var ds := SheetEntries(o, sheets[..s + 1], cfg);
    assert ds[..s] == SheetEntries(o, sheets[..s], cfg);
  }

  method ExtractDrawHistory(o: DateOracles, sheets: seq<seq<Row>>, cfg: GameConfig) returns (r: seq<DrawEntry>)
    ensures r == DrawHistory(o, sheets, cfg)
  {
    var history: seq<DrawEntry> := [];
    for s := 0 to |sheets|
      invariant history == Scan(o, sheets[..s], cfg)
    {
      ScanStep(o, sheets, cfg, s);
      var found := ScanRows(o, sheets[s], cfg);
      history := history + found;
    }
    assert sheets[..|sheets|] == sheets;
    var deduped := DedupeHistory(history, cfg);
    var sorted := SortDesc(deduped, (e: DrawEntry) => DateKey(o, e));
    r := Take(sorted, HistorySize);
  }

  /** The history holds at most twenty draws, newest first, no two with
      the same key. */
  lemma DrawHistoryOrdered(o: DateOracles, sheets: seq<seq<Row>>, cfg: GameConfig)
    ensures var r := DrawHistory(o, sheets, cfg);
      && |r| <= HistorySize
      && (forall i, j :: 0 <= i < j < |r| ==> DateKey(o, r[i]) >= DateKey(o, r[j]))
      && (forall i, j :: 0 <= i < j < |r| ==> HistoryKey(r[i]) != HistoryKey(r[j]))
  {
    var d := Dedupe(Scan(o, sheets, cfg), cfg);
    DedupeDistinct(Scan(o, sheets, cfg), cfg);
    SortKeepsDistinct(d, (e: DrawEntry) => DateKey(o, e), HistoryKey);
  }

  /** The history holds twenty draws, or every deduplicated draw when there
      are fewer. */
  lemma DrawHistoryLength(o: DateOracles, sheets: seq<seq<Row>>, cfg: GameConfig)
    ensures |DrawHistory(o, sheets, cfg)| == Min(HistorySize, |Dedupe(Scan(o, sheets, cfg), cfg)|)
  {
    var d := Dedupe(Scan(o, sheets, cfg), cfg);
    TopCount(d, (e: DrawEntry) => DateKey(o, e), HistorySize);
  }

  /** The newest draws are kept: a deduplicated draw is left out only when
      the history is full of draws at least as recent. */
  lemma DrawHistoryNewest(o: DateOracles, sheets: seq<seq<Row>>, cfg: GameConfig)
    ensures var r := DrawHistory(o, sheets, cfg);
      forall e :: e in Dedupe(Scan(o, sheets, cfg), cfg) ==>
        e in r || (|r| == HistorySize && forall t :: t in r ==> DateKey(o, t) >= DateKey(o, e))
  {
    var d := Dedupe(Scan(o, sheets, cfg), cfg);
    forall e | e in d
      ensures var r := DrawHistory(o, sheets, cfg);
        e in r || (|r| == HistorySize && forall t :: t in r ==> DateKey(o, t) >= DateKey(o, e))
    {
      TakenOrOutranked(d, (e: DrawEntry) => DateKey(o, e), HistorySize, e);
    }
  }

  /** Every draw of the history is valid and comes from a row of the sheets. */
  lemma DrawHistoryFromRows(o: DateOracles, sheets: seq<seq<Row>>, cfg: GameConfig)
    ensures forall e :: e in DrawHistory(o, sheets, cfg) ==>
      && Valid(e, cfg)
      && exists s, k :: 0 <= s < |sheets| && 0 <= k < |sheets[s]| && RowEntry(o, sheets[s][k], cfg) == Some(e)
  {
    var h := Scan(o, sheets, cfg);
    var d := Dedupe(h, cfg);
    var sorted := SortDesc(d, (e: DrawEntry) => DateKey(o, e));
    var r := DrawHistory(o, sheets, cfg);
    DedupeFrom(h, cfg);
    ScanFromRows(o, sheets, cfg);
    forall e | e in r ensures e in h && Valid(e, cfg) {
      assert e in sorted;
      assert e in multiset(d);
    }
  }
}
