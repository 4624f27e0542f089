/** The deterministic suggestion strategies of the web app (app.js,
    `getColdNumbers`, `getHotNumbers`, `getBalancedNumbers` and
    `getDueNumbers`): each copies the statistics records the extractor
    wrote, sorts the copy by one key, filters and slices it. The copy leaves
    the caller's records in their order; on values that is automatic. */
module Strategies {
  import opened Support
  import opened Cells
  import opened Sorting
  import opened NumberStats

  // ----- parseInt -----

  /** The longest run of digits at the front of s, read onto acc; None when
      there is no digit at all (seen says whether one was read already). */
  function ReadDigits(s: string, acc: nat, seen: bool): Option<nat>
  {
    if s != [] && IsDigit(s[0]) then ReadDigits(s[1..], 10 * acc + DigitValue(s[0]), true)
    else if seen then Some(acc)
    else None
  }

  function Negate(r: Option<nat>): Option<int>
  {
    match r
    case Some(v) => Some(-(v as int))
    case None => None
  }

  /** `parseInt(text)` on decimal text: leading white space is skipped, an
      optional sign is read, then the longest run of digits; NaN (None) when
      there is no digit. */
  function ParseInt(s: string): Option<int>
  {
    if s != [] && IsSpace(s[0]) then ParseInt(s[1..])
    else if s != [] && s[0] == '-' then Negate(ReadDigits(s[1..], 0, false))
    else if s != [] && s[0] == '+' then
      match ReadDigits(s[1..], 0, false)
      case Some(v) => Some(v)
      case None => None
    else
      match ReadDigits(s, 0, false)
      case Some(v) => Some(v)
      case None => None
  }

  /** The value of a digit text, read from its first digit. */
  lemma {:induction false} DigitsValueFront(d: string)
    requires AllDigits(d) && |d| > 0
    ensures DigitsValue(d) == DigitValue(d[0]) * Pow10(|d| - 1) + DigitsValue(d[1..])
  {
    var n := |d|;
    if n > 1 {
      var init := d[..n - 1];
      var tail := d[1..];
      DigitsValueFront(init);
      assert init[0] == d[0];
      assert tail[..n - 2] == init[1..];
      assert tail[n - 2] == d[n - 1];
      ShiftDigit(DigitValue(d[0]), Pow10(n - 2), DigitsValue(init[1..]), DigitValue(d[n - 1]),
                 DigitsValue(init), DigitsValue(d), DigitsValue(tail), Pow10(n - 1));
    }
  }

  /** Appending a digit l to a text whose value is a * p + t. */
  lemma ShiftDigit(a: int, p: int, t: int, l: int, vInit: int, v: int, vTail: int, p1: int)
    requires vInit == a * p + t && v == 10 * vInit + l && vTail == 10 * t + l && p1 == 10 * p
    ensures v == a * p1 + vTail
  {
  }

  /** Reading a whole digit text onto acc shifts acc past it. */
  lemma {:induction false} ReadDigitsValue(d: string, acc: nat, seen: bool)
    requires AllDigits(d) && (|d| > 0 || seen)
    ensures ReadDigits(d, acc, seen) == Some(acc * Pow10(|d|) + DigitsValue(d))
  {
    if d != [] {
      var v, p, rest := DigitValue(d[0]), Pow10(|d| - 1), DigitsValue(d[1..]);
      assert ReadDigits(d, acc, seen) == ReadDigits(d[1..], 10 * acc + v, true);
      ReadDigitsValue(d[1..], 10 * acc + v, true);
      DigitsValueFront(d);
      assert Pow10(|d|) == 10 * p;
      ShiftAcc(acc, v, p, rest);
    }
  }

  lemma ShiftAcc(acc: int, v: int, p: int, rest: int)
    ensures (10 * acc + v) * p + rest == acc * (10 * p) + (v * p + rest)
  {
  }

  /** parseInt reads back what String(n) writes. */
  lemma ParseIntOfString(n: int)
    ensures ParseInt(IntToString(n)) == Some(n)
  {
    var m := if n < 0 then -n else n;
    var digits := NatToString(m);
    ReadDigitsValue(digits, 0, false);
    if n < 0 {
      assert IntToString(n)[1..] == digits;
    }
  }

  /** The number a record names, as the app reads it. */
  function ParsedNumber(s: NumberStat): Option<int>
  {
    ParseInt(s.result)
  }

  // ----- top records by a key -----

  /** `[...records].sort((a, b) => key(b) - key(a)).slice(0, count)`. */
  function Top(records: seq<NumberStat>, key: NumberStat -> real, count: nat): seq<NumberStat>
  {
    Take(SortDesc(records, key), count)
  }

  /** The top records of distinct numbers have distinct numbers. */
  lemma TopDistinct(records: seq<NumberStat>, key: NumberStat -> real, count: nat)
    requires DistinctBy(records, ParsedNumber)
    ensures DistinctBy(Top(records, key, count), ParsedNumber)
  {
    SortKeepsDistinct(records, key, ParsedNumber);
  }

  // ----- cold and hot -----

  /** Which reason text a pick carries: "Not drawn in … draws" (cold),
      "Drawn …% of the time" (hot), and their "Cold: " and "Hot: " forms in
      the balanced strategy. */
  datatype Reason = NotDrawnFor | DrawnShare | ColdShare | HotShare

  /** `{ number: parseInt(result), notDrawnSince, frequency, reason }`. */
  datatype Pick = Pick(number: Option<int>, notDrawnSince: real, frequency: real, reason: Reason)

  function PickOf(s: NumberStat, reason: Reason): Pick
  {
    Pick(ParsedNumber(s), s.notDrawnSince, s.frequency, reason)
  }

  function Picks(records: seq<NumberStat>, reason: Reason): (ps: seq<Pick>)
    ensures |ps| == |records|
  {
    seq(|records|, i requires 0 <= i < |records| => PickOf(records[i], reason))
  }

  function ColdKey(s: NumberStat): real { s.notDrawnSince }

  function HotKey(s: NumberStat): real { s.frequency }

  /** `getColdNumbers`: the count records not drawn for longest. */
  function Cold(statistics: seq<NumberStat>, count: nat): seq<Pick>
  {
    Picks(Top(statistics, ColdKey, count), NotDrawnFor)
  }

  /** `getHotNumbers`: the count records with the largest frequency. */
  function Hot(statistics: seq<NumberStat>, count: nat): seq<Pick>
  {
    Picks(Top(statistics, HotKey, count), DrawnShare)
  }

  /** The cold picks are min(count, n) records of the input, longest gap
      first, and no record left out has a longer gap than one picked; each
      pick reads its record. */
  lemma ColdFacts(statistics: seq<NumberStat>, count: nat)
    ensures var taken := Top(statistics, ColdKey, count);
      var r := Cold(statistics, count);
      && |r| == |taken| == Min(count, |statistics|)
      && multiset(taken) <= multiset(statistics)
      && (forall i :: 0 <= i < |r| ==> r[i] == PickOf(taken[i], NotDrawnFor))
      && (forall i, j :: 0 <= i < j < |taken| ==> taken[i].notDrawnSince >= taken[j].notDrawnSince)
      && (forall s, t :: s in multiset(statistics) - multiset(taken) && t in taken ==> t.notDrawnSince >= s.notDrawnSince)
  {
    TopCount(statistics, ColdKey, count);
  }

  /** The hot picks are min(count, n) records of the input, most frequent
      first, and no record left out is more frequent than one picked; each
      pick reads its record. */
  lemma HotFacts(statistics: seq<NumberStat>, count: nat)
    ensures var taken := Top(statistics, HotKey, count);
      var r := Hot(statistics, count);
      && |r| == |taken| == Min(count, |statistics|)
      && multiset(taken) <= multiset(statistics)
      && (forall i :: 0 <= i < |r| ==> r[i] == PickOf(taken[i], DrawnShare))
      && (forall i, j :: 0 <= i < j < |taken| ==> taken[i].frequency >= taken[j].frequency)
      && (forall s, t :: s in multiset(statistics) - multiset(taken) && t in taken ==> t.frequency >= s.frequency)
  {
    TopCount(statistics, HotKey, count);
  }

  // ----- balanced -----

  /** `Math.ceil(count / 2)`. */
  function Half(count: nat): (h: nat)
    ensures h <= count && (2 * h == count || 2 * h == count + 1)
  {
    (count + 1) / 2
  }

  /** The set of numbers of some picks. */
  function Numbers(ps: seq<Pick>): set<Option<int>>
  {
    set p | p in ps :: p.number
  }

  /** `statistics.filter(s => !numbers.has(parseInt(s.result)))`. The app's
      Set finds NaN as well, so NaN (None) is filtered like any number. */
  function Without(statistics: seq<NumberStat>, numbers: set<Option<int>>): (r: seq<NumberStat>)
    ensures |r| <= |statistics|
    ensures forall s :: s in r <==> s in statistics && ParsedNumber(s) !in numbers
  {
    if statistics == [] then []
    else
      var init := statistics[..|statistics| - 1];
      var last := statistics[|statistics| - 1];
      assert statistics == init + [last];
      Without(init, numbers) + if ParsedNumber(last) in numbers then [] else [last]
  }

  /** Filtering records of distinct numbers keeps them distinct. */
  lemma {:induction false} WithoutDistinct(statistics: seq<NumberStat>, numbers: set<Option<int>>)
    requires DistinctBy(statistics, ParsedNumber)
    ensures DistinctBy(Without(statistics, numbers), ParsedNumber)
  {
    if statistics != [] {
      var n := |statistics| - 1;
      var init := statistics[..n];
      var last := statistics[n];
      assert DistinctBy(init, ParsedNumber) by {
        forall i, j | 0 <= i < j < |init| ensures ParsedNumber(init[i]) != ParsedNumber(init[j]) {
          assert init[i] == statistics[i] && init[j] == statistics[j];
        }
      }
      WithoutDistinct(init, numbers);
      var w := Without(init, numbers);
      if ParsedNumber(last) !in numbers {
        var r := w + [last];
        forall i, j | 0 <= i < j < |r| ensures ParsedNumber(r[i]) != ParsedNumber(r[j]) {
          assert r[i] == w[i] && w[i] in w;
          if j < |w| {
            assert r[j] == w[j];
          } else {
            var k :| 0 <= k < n && init[k] == w[i];
            assert statistics[k] == w[i];
          }
        }
      }
    }
  }


  /** Relabels each pick Cold or Hot by whether its number is a cold one. */
  function Relabel(ps: seq<Pick>, coldNumbers: set<Option<int>>): (r: seq<Pick>)
    ensures |r| == |ps|
  {
    seq(|ps|, i requires 0 <= i < |ps| =>
      ps[i].(reason := if ps[i].number in coldNumbers then ColdShare else HotShare))
  }

  /** Every pick given the same reason. */
  function Labelled(ps: seq<Pick>, reason: Reason): (r: seq<Pick>)
    ensures |r| == |ps|
  {
    seq(|ps|, i requires 0 <= i < |ps| => ps[i].(reason := reason))
  }

  /** Relabelling a run of picks followed by a run avoiding its numbers
      marks the first run Cold and the second Hot. */
  lemma RelabelSplit(cold: seq<Pick>, hot: seq<Pick>, coldNumbers: set<Option<int>>)
    requires coldNumbers == Numbers(cold)
    requires forall p :: p in hot ==> p.number !in coldNumbers
    ensures Relabel(cold + hot, coldNumbers) == Labelled(cold, ColdShare) + Labelled(hot, HotShare)
  {
    var r := Relabel(cold + hot, coldNumbers);
    var l := Labelled(cold, ColdShare) + Labelled(hot, HotShare);
    forall i | 0 <= i < |r| ensures r[i] == l[i] {
      if i < |cold| {
        assert (cold + hot)[i] == cold[i];
        assert cold[i] in cold;
      } else {
        assert (cold + hot)[i] == hot[i - |cold|];
        assert hot[i - |cold|] in hot;
      }
    }
  }


  /** The cold half of the balanced picks: ceil(count/2) cold picks. */
  function ColdHalf(statistics: seq<NumberStat>, count: nat): seq<Pick>
  {
    Cold(statistics, Half(count))
  }

  /** The records the hot half chooses from: those whose number is not a
      cold pick's. */
  function Remaining(statistics: seq<NumberStat>, count: nat): seq<NumberStat>
  {
    Without(statistics, Numbers(ColdHalf(statistics, count)))
  }

  /** The hot half of the balanced picks: the rest of count, hot among the
      remaining records. */
  function HotHalf(statistics: seq<NumberStat>, count: nat): seq<Pick>
  {
    Hot(Remaining(statistics, count), count - Half(count))
  }

  /** `getBalancedNumbers`: the cold half then the hot half, each pick
      relabelled by whether its number is a cold one. */
  function Balanced(statistics: seq<NumberStat>, count: nat): seq<Pick>
  {
    var cold := ColdHalf(statistics, count);
    Relabel(cold + HotHalf(statistics, count), Numbers(cold))
  }

  /** No hot pick has the number of a cold pick. */
  lemma HotAvoidsCold(statistics: seq<NumberStat>, count: nat)
    ensures var cold := ColdHalf(statistics, count);
      forall p :: p in HotHalf(statistics, count) ==> p.number !in Numbers(cold)
  {
    var remaining := Remaining(statistics, count);
    var hot := HotHalf(statistics, count);
    var taken := Top(remaining, HotKey, count - Half(count));
    TakenFromInput(remaining, HotKey, count - Half(count));
    forall p | p in hot ensures p.number !in Numbers(ColdHalf(statistics, count)) {
      var j :| 0 <= j < |hot| && hot[j] == p;
      assert taken[j] in taken;
    }
  }

  /** ceil(count/2) cold picks when there are that many records, and at
      most count picks in both halves. */
  lemma HalvesLength(statistics: seq<NumberStat>, count: nat)
    ensures |ColdHalf(statistics, count)| == Min(Half(count), |statistics|)
    ensures |ColdHalf(statistics, count)| + |HotHalf(statistics, count)| <= count
  {
    var cold := Top(statistics, ColdKey, Half(count));
    var hot := Top(Remaining(statistics, count), HotKey, count - Half(count));
    assert |ColdHalf(statistics, count)| == |cold| <= Half(count);
    assert |HotHalf(statistics, count)| == |hot| <= count - Half(count);
  }

  /** The balanced picks are the cold half, labelled Cold, followed by the
      hot half, labelled Hot. */
  lemma BalancedLabels(statistics: seq<NumberStat>, count: nat)
    ensures Balanced(statistics, count)
         == Labelled(ColdHalf(statistics, count), ColdShare) + Labelled(HotHalf(statistics, count), HotShare)
  {
    var cold := ColdHalf(statistics, count);
    HotAvoidsCold(statistics, count);
    RelabelSplit(cold, HotHalf(statistics, count), Numbers(cold));
  }


  /** Relabelling a run of picks followed by a run avoiding its numbers
      never pairs a number of the first run with one of the second. */
  lemma RelabelNoOverlap(cold: seq<Pick>, hot: seq<Pick>, coldNumbers: set<Option<int>>)
    requires coldNumbers == Numbers(cold)
    requires forall p :: p in hot ==> p.number !in coldNumbers
    ensures var r := Relabel(cold + hot, coldNumbers);
      forall i, j :: 0 <= i < |cold| <= j < |r| ==> r[i].number != r[j].number
  {
    var r := Relabel(cold + hot, coldNumbers);
    forall i, j | 0 <= i < |cold| <= j < |r| ensures r[i].number != r[j].number {
      assert r[i].number == cold[i].number && cold[i] in cold;
      assert r[j].number == hot[j - |cold|].number && hot[j - |cold|] in hot;
    }
  }

  /** No number is both a cold and a hot suggestion. */
  lemma BalancedNoOverlap(statistics: seq<NumberStat>, count: nat)
    ensures var r := Balanced(statistics, count);
      var k := |ColdHalf(statistics, count)|;
      forall i, j :: 0 <= i < k <= j < |r| ==> r[i].number != r[j].number
  {
    var cold := ColdHalf(statistics, count);
    HotAvoidsCold(statistics, count);
    RelabelNoOverlap(cold, HotHalf(statistics, count), Numbers(cold));
  }

  /** Picks of records with distinct numbers have distinct numbers. */
  lemma PicksDistinct(records: seq<NumberStat>, reason: Reason)
    requires DistinctBy(records, ParsedNumber)
    ensures var ps := Picks(records, reason);
      forall i, j :: 0 <= i < j < |ps| ==> ps[i].number != ps[j].number
  {
  }

  /** The cold half of the balanced picks of records with distinct numbers
      has distinct numbers. */
  lemma ColdHalfDistinct(statistics: seq<NumberStat>, count: nat)
    requires DistinctBy(statistics, ParsedNumber)
    ensures var cold := ColdHalf(statistics, count);
      forall i, j :: 0 <= i < j < |cold| ==> cold[i].number != cold[j].number
  {
    TopDistinct(statistics, ColdKey, Half(count));
    PicksDistinct(Top(statistics, ColdKey, Half(count)), NotDrawnFor);
  }

  /** So does the hot half, chosen among the records the cold half left. */
  lemma HotHalfDistinct(statistics: seq<NumberStat>, count: nat)
    requires DistinctBy(statistics, ParsedNumber)
    ensures var hot := HotHalf(statistics, count);
      forall i, j :: 0 <= i < j < |hot| ==> hot[i].number != hot[j].number
  {
    var remaining := Remaining(statistics, count);
    WithoutDistinct(statistics, Numbers(ColdHalf(statistics, count)));
    TopDistinct(remaining, HotKey, count - Half(count));
    PicksDistinct(Top(remaining, HotKey, count - Half(count)), DrawnShare);
  }


  /** Two runs of picks, each with distinct numbers and the second avoiding
      the numbers of the first, relabel into a run with distinct numbers. */
  lemma RelabelDistinct(cold: seq<Pick>, hot: seq<Pick>, coldNumbers: set<Option<int>>)
    requires coldNumbers == Numbers(cold)
    requires forall p :: p in hot ==> p.number !in coldNumbers
    requires forall i, j :: 0 <= i < j < |cold| ==> cold[i].number != cold[j].number
    requires forall i, j :: 0 <= i < j < |hot| ==> hot[i].number != hot[j].number
    ensures var r := Relabel(cold + hot, coldNumbers);
      forall i, j :: 0 <= i < j < |r| ==> r[i].number != r[j].number
  {
    var r := Relabel(cold + hot, coldNumbers);
    RelabelNoOverlap(cold, hot, coldNumbers);
    forall i, j | 0 <= i < j < |r| ensures r[i].number != r[j].number {
      if j < |cold| {
        assert r[i].number == cold[i].number && r[j].number == cold[j].number;
      } else if |cold| <= i {
        assert r[i].number == hot[i - |cold|].number && r[j].number == hot[j - |cold|].number;
      }
    }
  }

  /** When the records name distinct numbers, no number is suggested twice. */
  lemma BalancedDistinct(statistics: seq<NumberStat>, count: nat)
    requires DistinctBy(statistics, ParsedNumber)
    ensures var r := Balanced(statistics, count);
      forall i, j :: 0 <= i < j < |r| ==> r[i].number != r[j].number
  {
    var cold := ColdHalf(statistics, count);
    HotAvoidsCold(statistics, count);
    ColdHalfDistinct(statistics, count);
    HotHalfDistinct(statistics, count);
    RelabelDistinct(cold, HotHalf(statistics, count), Numbers(cold));
  }


  // ----- due -----

  /** A due pick also carries the times drawn and the deficit. */
  datatype DuePick = DuePick(number: Option<int>, notDrawnSince: real, frequency: real,
                             numberOfTimesDrawn: Option<real>, deficit: real)

  /** `(drawCount * numbersPerDraw) / totalNumbers`: the draws each number
      would have if all were drawn equally often. */
  function Expected(drawCount: int, totalNumbers: int, numbersPerDraw: nat): real
    requires totalNumbers > 0
  {
    (drawCount * numbersPerDraw) as real / totalNumbers as real
  }

  /** `expected - numberOfTimesDrawn`: a null count reads as 0. */
  function Deficit(s: NumberStat, expected: real): real
  {
    match s.numberOfTimesDrawn
    case Some(t) => expected - t
    case None => expected
  }

  function DueOf(s: NumberStat, expected: real): DuePick
  {
    DuePick(ParsedNumber(s), s.notDrawnSince, s.frequency, s.numberOfTimesDrawn, Deficit(s, expected))
  }

  /** The records behind the expected count, in record order. */
  function Behind(statistics: seq<NumberStat>, expected: real): (r: seq<DuePick>)
    ensures |r| <= |statistics|
    ensures forall d :: d in r ==> d.deficit > 0.0 && exists s :: s in statistics && d == DueOf(s, expected)
    ensures forall s :: s in statistics && Deficit(s, expected) > 0.0 ==> DueOf(s, expected) in r
  {
    if statistics == [] then []
    else
      var init := statistics[..|statistics| - 1];
      var last := statistics[|statistics| - 1];
      assert statistics == init + [last];
      var d := DueOf(last, expected);
      Behind(init, expected) + if d.deficit > 0.0 then [d] else []
  }

  /** One more record adds its pick when it is behind. */
  lemma BehindSnoc(xs: seq<NumberStat>, x: NumberStat, expected: real)
    ensures Behind(xs + [x], expected)
         == Behind(xs, expected) + if Deficit(x, expected) > 0.0 then [DueOf(x, expected)] else []
  {
    assert (xs + [x])[..|xs|] == xs;
  }

  /** The filter keeps record order: the picks of a + b are those of a,
      then those of b. */
  lemma {:induction false} BehindConcat(a: seq<NumberStat>, b: seq<NumberStat>, expected: real)
    ensures Behind(a + b, expected) == Behind(a, expected) + Behind(b, expected)
  {
    if b == [] {
      assert a + b == a;
    } else {
      var n := |b| - 1;
      var x := b[n];
      assert a + b == (a + b[..n]) + [x];
      assert b == b[..n] + [x];
      BehindSnoc(a + b[..n], x, expected);
      BehindSnoc(b[..n], x, expected);
      BehindConcat(a, b[..n], expected);
      Regroup(Behind(a + b, expected), Behind(a, expected), Behind(b[..n], expected),
              if Deficit(x, expected) > 0.0 then [DueOf(x, expected)] else [], Behind(b, expected));
    }
  }

  lemma Regroup<T>(whole: seq<T>, front: seq<T>, mid: seq<T>, t: seq<T>, back: seq<T>)
    requires whole == (front + mid) + t && back == mid + t
    ensures whole == front + back
  {
  }

  function DeficitKey(d: DuePick): real { d.deficit }

  /** `getDueNumbers`: the count records furthest behind, largest deficit
      first. */
  function Due(statistics: seq<NumberStat>, count: nat, drawCount: int, totalNumbers: int, numbersPerDraw: nat): seq<DuePick>
    requires totalNumbers > 0
  {
    Take(SortDesc(Behind(statistics, Expected(drawCount, totalNumbers, numbersPerDraw)), DeficitKey), count)
  }

  /** At most count due picks, each a record whose deficit against the
      expected count is positive, largest deficit first. */
  lemma DueFacts(statistics: seq<NumberStat>, count: nat, drawCount: int, totalNumbers: int, numbersPerDraw: nat)
    requires totalNumbers > 0
    ensures var expected := Expected(drawCount, totalNumbers, numbersPerDraw);
      var r := Due(statistics, count, drawCount, totalNumbers, numbersPerDraw);
      && |r| <= count
      && (forall d :: d in r ==> d.deficit > 0.0 && exists s :: s in statistics && d == DueOf(s, expected))
      && (forall i, j :: 0 <= i < j < |r| ==> r[i].deficit >= r[j].deficit)
  {
    var behind := Behind(statistics, Expected(drawCount, totalNumbers, numbersPerDraw));
    var r := Due(statistics, count, drawCount, totalNumbers, numbersPerDraw);
    TopCount(behind, DeficitKey, count);
    forall d | d in r ensures d in behind {
      assert d in multiset(r);
    }
  }

  /** A record behind the expected count is left out only when count picks
      with deficits at least as large were made. */
  lemma DueComplete(statistics: seq<NumberStat>, count: nat, drawCount: int, totalNumbers: int, numbersPerDraw: nat)
    requires totalNumbers > 0
    ensures var expected := Expected(drawCount, totalNumbers, numbersPerDraw);
      var r := Due(statistics, count, drawCount, totalNumbers, numbersPerDraw);
      forall s :: s in statistics && Deficit(s, expected) > 0.0 ==>
        DueOf(s, expected) in r || (|r| == count && forall d :: d in r ==> d.deficit >= Deficit(s, expected))
  {
    var expected := Expected(drawCount, totalNumbers, numbersPerDraw);
    var behind := Behind(statistics, expected);
    var r := Due(statistics, count, drawCount, totalNumbers, numbersPerDraw);
    forall s | s in statistics && Deficit(s, expected) > 0.0
      ensures DueOf(s, expected) in r || (|r| == count && forall d :: d in r ==> d.deficit >= Deficit(s, expected))
    {
      TakenOrOutranked(behind, DeficitKey, count, DueOf(s, expected));
    }
  }
}
