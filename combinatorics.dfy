/** The combinatorics of the web app (app.js): the binomial coefficient
    `combinations`, the jackpot odds `getTotalCombinations`, the `combine`
    enumeration inside `generateWheelBoards`, and the wheel branch of
    `generateMultiBoards`. */
module Combinatorics {
  import opened Support
  import opened Cells
  import opened Sorting
  import opened History

  // ----- the binomial coefficient -----

  /** n choose k, by Pascal's rule. */
  function Binom(n: nat, k: nat): nat
  {
    if k == 0 then 1
    else if n == 0 then 0
    else Binom(n - 1, k - 1) + Binom(n - 1, k)
  }

  /** There is no way to choose more than n. */
  lemma {:induction false} BinomAbove(n: nat, k: nat)
    requires k > n
    ensures Binom(n, k) == 0
  {
    if n > 0 {
      BinomAbove(n - 1, k - 1);
      BinomAbove(n - 1, k);
    }
  }

  /** There is one way to choose all n. */
  lemma {:induction false} BinomAll(n: nat)
    ensures Binom(n, n) == 1
  {
    if n > 0 {
      BinomAll(n - 1);
      BinomAbove(n - 1, n);
    }
  }

  /** The absorption identity (k+1)·C(n+1, k+1) = (n+1)·C(n, k). */
  lemma {:induction false} BinomAbsorb(n: nat, k: nat)
    ensures (k + 1) * Binom(n + 1, k + 1) == (n + 1) * Binom(n, k)
  {
    if n == 0 {
      if k > 0 {
        BinomAbove(1, k + 1);
        BinomAbove(0, k);
      }
    } else if k == 0 {
      BinomAbsorb(n - 1, 0);
    } else {
      BinomAbsorb(n - 1, k);
      BinomAbsorb(n - 1, k - 1);
      AbsorbArithmetic(n, k, Binom(n, k), Binom(n, k + 1), Binom(n - 1, k - 1), Binom(n - 1, k));
    }
  }

  lemma AbsorbArithmetic(n: int, k: int, a: int, b: int, c1: int, c2: int)
    requires (k + 1) * b == n * c2 && k * a == n * c1 && a == c1 + c2
    ensures (k + 1) * (a + b) == (n + 1) * a
  {
    calc {
      (k + 1) * (a + b);
      k * a + a + (k + 1) * b;
      n * c1 + a + n * c2;
      { assert n * c1 + n * c2 == n * (c1 + c2); }
      n * a + a;
    }
  }

  /** One step of the multiplicative formula:
      C(n, i+1) = C(n, i) · (n - i) / (i + 1). */
  lemma BinomStep(n: nat, i: nat)
    requires i < n
    ensures (i + 1) * Binom(n, i + 1) == (n - i) * Binom(n, i)
  {
    BinomAbsorb(n, i);
    assert Binom(n + 1, i + 1) == Binom(n, i) + Binom(n, i + 1);
  }

  lemma DivideExact(y: real, b: real, c: real)
    requires b != 0.0 && y == b * c
    ensures y / b == c
  {
  }

  /** One step of the running product: from C(n, i) to C(n, i + 1). */
  lemma ProductStep(n: nat, i: nat, result: real)
    requires i < n && result == Binom(n, i) as real
    ensures result * (n - i) as real / (i + 1) as real == Binom(n, i + 1) as real
  {
    BinomStep(n, i);
    ScaleDivide(result, Binom(n, i), Binom(n, i + 1), n - i, i + 1);
  }

  /** On exact numbers, b * m / j is b1 when j * b1 == m * b. */
  lemma ScaleDivide(result: real, b: int, b1: int, m: int, j: int)
    requires j > 0 && result == b as real && j * b1 == m * b
    ensures result * m as real / j as real == b1 as real
  {
    var y := result * m as real;
    RealProduct(b, m);
    assert y == (b * m) as real;
    RealProduct(j, b1);
    DivideExact(y, j as real, b1 as real);
  }

  lemma RealProduct(x: int, y: int)
    ensures (x * y) as real == x as real * y as real
  {
  }

  /** `combinations(n, k)`: 0 when k > n, 1 when k is 0 or n, otherwise the
      running product `result * (n - i) / (i + 1)` rounded; on exact
      numbers every partial product is itself a binomial coefficient. */
  method Combinations(n: nat, k: nat) returns (r: nat)
    ensures r == Binom(n, k)
  {
    if k > n {
      BinomAbove(n, k);
      return 0;
    }
    if k == 0 || k == n {
      BinomAll(n);
      return 1;
    }
    var result: real := 1.0;
    for i := 0 to k
      invariant result == Binom(n, i) as real
    {
      ProductStep(n, i, result);
      result := result * (n - i) as real / (i + 1) as real;
    }
    MathRoundWhole(Binom(n, k));
    r := MathRound(result);
  }

  /** `getTotalCombinations`: the tickets a game has, the main choices times
      the star choices for a game with stars. */
  function TotalCombinations(cfg: GameConfig): nat
  {
    if cfg.hasStars then Binom(cfg.mainRange, cfg.mainNumbers) * Binom(cfg.starRange, cfg.starNumbers)
    else Binom(cfg.mainRange, cfg.mainNumbers)
  }

  // The sizes of the games come in as parameters so that the solver does
  // not expand Pascal's rule on literal arguments.

  /** C(n, i + 1) from C(n, i) by the multiplicative formula, for given
      numbers. */
  lemma BinomNext(n: nat, i: nat, b: nat, next: nat)
    requires i < n && Binom(n, i) == b && (i + 1) * next == (n - i) * b
    ensures Binom(n, i + 1) == next
  {
    BinomStep(n, i);
    Cancel(i + 1, Binom(n, i + 1), next);
  }

  lemma Cancel(c: int, x: int, y: int)
    requires c > 0 && c * x == c * y
    ensures x == y
  {
  }

  lemma Binom45Choose6(n: nat)
    requires n == 45
    ensures Binom(n, 6) == 8145060
  {
    BinomNext(n, 0, 1, 45);
    BinomNext(n, 1, 45, 990);
    BinomNext(n, 2, 990, 14190);
    BinomNext(n, 3, 14190, 148995);
    BinomNext(n, 4, 148995, 1221759);
    BinomNext(n, 5, 1221759, 8145060);
  }

  lemma Binom50Choose5(n: nat)
    requires n == 50
    ensures Binom(n, 5) == 2118760
  {
    BinomNext(n, 0, 1, 50);
    BinomNext(n, 1, 50, 1225);
    BinomNext(n, 2, 1225, 19600);
    BinomNext(n, 3, 19600, 230300);
    BinomNext(n, 4, 230300, 2118760);
  }

  lemma Binom12Choose2(n: nat)
    requires n == 12
    ensures Binom(n, 2) == 66
  {
    BinomNext(n, 0, 1, 12);
    BinomNext(n, 1, 12, 66);
  }


  /** A 6-of-45 game without stars, as Lotto is, has 8,145,060 tickets. */
  lemma LottoTickets(cfg: GameConfig)
    requires !cfg.hasStars && cfg.mainNumbers == 6 && cfg.mainRange == 45
    ensures TotalCombinations(cfg) == 8145060
  {
    Binom45Choose6(cfg.mainRange);
  }

  /** A 5-of-50 game with 2-of-12 stars, as EuroMillions is, has
      139,838,160 tickets. */
  lemma EuroMillionsTickets(cfg: GameConfig)
    requires cfg.hasStars && cfg.mainNumbers == 5 && cfg.mainRange == 50
    requires cfg.starNumbers == 2 && cfg.starRange == 12
    ensures TotalCombinations(cfg) == 139838160
  {
    Binom50Choose5(cfg.mainRange);
    Binom12Choose2(cfg.starRange);
  }

  // ----- k-subsets in lexicographic order -----

  predicate StrictlyAscending(s: seq<int>)
  {
    forall i, j :: 0 <= i < j < |s| ==> s[i] < s[j]
  }

  /** a comes before b in lexicographic order. */
  predicate LexLess(a: seq<int>, b: seq<int>)
  {
    a != [] && b != [] && (a[0] < b[0] || (a[0] == b[0] && LexLess(a[1..], b[1..])))
  }

  /** Each list comes lexicographically before every later one. */
  predicate LexSorted(cs: seq<seq<int>>)
  {
    forall i, j :: 0 <= i < j < |cs| ==> LexLess(cs[i], cs[j])
  }

  lemma {:induction false} LexLessIrreflexive(a: seq<int>)
    ensures !LexLess(a, a)
  {
    if a != [] {
      LexLessIrreflexive(a[1..]);
    }
  }

  /** p followed by each of ss. */
  function Prefix(p: seq<int>, ss: seq<seq<int>>): (r: seq<seq<int>>)
    ensures |r| == |ss|
  {
    seq(|ss|, i requires 0 <= i < |ss| => p + ss[i])
  }

  /** Every k-element subsequence of xs, those holding xs[0] first: for a
      strictly ascending xs, every k-subset in lexicographic order. */
  function Choose(xs: seq<int>, k: nat): seq<seq<int>>
    decreases |xs|
  {
    if k == 0 then [[]]
    else if xs == [] then []
    else Prefix([xs[0]], Choose(xs[1..], k - 1)) + Choose(xs[1..], k)
  }

  /** There are C(n, k) of them. */
  lemma {:induction false} ChooseCount(xs: seq<int>, k: nat)
    ensures |Choose(xs, k)| == Binom(|xs|, k)
    decreases |xs|
  {
    if k > 0 && xs != [] {
      ChooseCount(xs[1..], k - 1);
      ChooseCount(xs[1..], k);
    }
  }

  /** A number below all of an ascending list can go in front of it. */
  lemma ConsAscending(x: int, c: seq<int>)
    requires StrictlyAscending(c) && forall y :: y in c ==> x < y
    ensures StrictlyAscending([x] + c)
  {
    var d := [x] + c;
    forall i, j | 0 <= i < j < |d| ensures d[i] < d[j] {
      assert d[j] == c[j - 1];
      if i > 0 {
        assert d[i] == c[i - 1];
      } else {
        assert c[j - 1] in c;
      }
    }
  }

  /** The lists with the first number in front. */
  lemma {:induction false} PrefixShape(xs: seq<int>, k: nat, with: seq<seq<int>>)
    requires StrictlyAscending(xs) && xs != [] && k > 0
    requires forall c :: c in with ==>
      |c| == k - 1 && StrictlyAscending(c) && forall x :: x in c ==> x in xs[1..]
    ensures forall c :: c in Prefix([xs[0]], with) ==>
      |c| == k && StrictlyAscending(c) && forall x :: x in c ==> x in xs
  {
    var t := xs[1..];
    forall c | c in Prefix([xs[0]], with)
      ensures |c| == k && StrictlyAscending(c) && forall x :: x in c ==> x in xs
    {
      var i :| 0 <= i < |with| && Prefix([xs[0]], with)[i] == c;
      var w := with[i];
      assert c == [xs[0]] + w && w in with;
      forall x | x in w ensures xs[0] < x && x in xs {
        var j :| 0 <= j < |t| && t[j] == x;
        assert xs[j + 1] == x;
      }
      ConsAscending(xs[0], w);
    }
  }

  /** Each is a strictly ascending list of k numbers of xs. */
  lemma {:induction false} ChooseShape(xs: seq<int>, k: nat)
    requires StrictlyAscending(xs)
    ensures forall c :: c in Choose(xs, k) ==>
      |c| == k && StrictlyAscending(c) && forall x :: x in c ==> x in xs
    decreases |xs|
  {
    if k > 0 && xs != [] {
      var t := xs[1..];
      assert StrictlyAscending(t) by {
        forall i, j | 0 <= i < j < |t| ensures t[i] < t[j] {
          assert t[i] == xs[i + 1] && t[j] == xs[j + 1];
        }
      }
      ChooseShape(t, k - 1);
      ChooseShape(t, k);
      PrefixShape(xs, k, Choose(t, k - 1));
      forall c | c in Choose(t, k) ensures forall x :: x in c ==> x in xs {
        forall x | x in c ensures x in xs {
          var j :| 0 <= j < |t| && t[j] == x;
          assert xs[j + 1] == x;
        }
      }
    }
  }

  /** Putting the same number in front keeps the order. */
  lemma PrefixSorted(x: int, ss: seq<seq<int>>)
    requires LexSorted(ss)
    ensures LexSorted(Prefix([x], ss))
  {
    var ps := Prefix([x], ss);
    forall i, j | 0 <= i < j < |ps| ensures LexLess(ps[i], ps[j]) {
      assert ps[i] == [x] + ss[i] && ps[j] == [x] + ss[j];
      assert ps[i][1..] == ss[i] && ps[j][1..] == ss[j];
      assert LexLess(ss[i], ss[j]);
    }
  }

  /** Two ordered runs, every list of the first before every list of the
      second, make one ordered run. */
  lemma AppendSorted(a: seq<seq<int>>, b: seq<seq<int>>)
    requires LexSorted(a) && LexSorted(b)
    requires forall i, j :: 0 <= i < |a| && 0 <= j < |b| ==> LexLess(a[i], b[j])
    ensures LexSorted(a + b)
  {
    var cs := a + b;
    forall i, j | 0 <= i < j < |cs| ensures LexLess(cs[i], cs[j]) {
      if j < |a| {
        assert cs[i] == a[i] && cs[j] == a[j];
      } else if i < |a| {
        assert cs[i] == a[i] && cs[j] == b[j - |a|];
      } else {
        assert cs[i] == b[i - |a|] && cs[j] == b[j - |a|];
      }
    }
  }

  /** Lists starting with xs[0] come before those drawn from the rest. */
  lemma {:induction false} PrefixBeforeRest(xs: seq<int>, k: nat, with: seq<seq<int>>)
    requires StrictlyAscending(xs) && xs != [] && k > 0
    ensures forall i, j :: 0 <= i < |with| && 0 <= j < |Choose(xs[1..], k)| ==>
      LexLess(Prefix([xs[0]], with)[i], Choose(xs[1..], k)[j])
  {
    var t := xs[1..];
    var a := Prefix([xs[0]], with);
    var without := Choose(t, k);
    ChooseShape(t, k);
    forall i, j | 0 <= i < |with| && 0 <= j < |without| ensures LexLess(a[i], without[j]) {
      var c := without[j];
      assert c in without;
      assert c[0] in c;
      var m :| 0 <= m < |t| && t[m] == c[0];
      assert xs[m + 1] == c[0];
      assert a[i] == [xs[0]] + with[i];
    }
  }

  /** They come out in strictly increasing lexicographic order, so none
      twice. */
  lemma {:induction false} ChooseLexOrder(xs: seq<int>, k: nat)
    requires StrictlyAscending(xs)
    ensures LexSorted(Choose(xs, k))
    decreases |xs|
  {
    if k > 0 && xs != [] {
      var t := xs[1..];
      assert StrictlyAscending(t) by {
        forall i, j | 0 <= i < j < |t| ensures t[i] < t[j] {
          assert t[i] == xs[i + 1] && t[j] == xs[j + 1];
        }
      }
      ChooseLexOrder(t, k - 1);
      ChooseLexOrder(t, k);
      PrefixSorted(xs[0], Choose(t, k - 1));
      PrefixBeforeRest(xs, k, Choose(t, k - 1));
      AppendSorted(Prefix([xs[0]], Choose(t, k - 1)), Choose(t, k));
    }
  }


  /** Every strictly ascending list of k numbers of xs is among them. */
  lemma {:induction false} ChooseComplete(xs: seq<int>, k: nat, c: seq<int>)
    requires StrictlyAscending(xs) && StrictlyAscending(c) && |c| == k
    requires forall x :: x in c ==> x in xs
    ensures c in Choose(xs, k)
    decreases |xs|
  {
    if k > 0 {
      assert c[0] in c;
      var t := xs[1..];
      assert StrictlyAscending(t) by {
        forall i, j | 0 <= i < j < |t| ensures t[i] < t[j] {
          assert t[i] == xs[i + 1] && t[j] == xs[j + 1];
        }
      }
      if c[0] == xs[0] {
        var rest := c[1..];
        forall x | x in rest ensures x in t {
          var j :| 0 <= j < |rest| && rest[j] == x;
          assert c[j + 1] == x && c[0] < x;
          assert c[j + 1] in c;
          var m :| 0 <= m < |xs| && xs[m] == x;
          assert m > 0 && t[m - 1] == x;
        }
        ChooseComplete(t, k - 1, rest);
        var with := Choose(t, k - 1);
        var i :| 0 <= i < |with| && with[i] == rest;
        assert Prefix([xs[0]], with)[i] == c;
      } else {
        var m0 :| 0 <= m0 < |xs| && xs[m0] == c[0];
        forall x | x in c ensures x in t {
          var j :| 0 <= j < |c| && c[j] == x;
          var m :| 0 <= m < |xs| && xs[m] == x;
          assert m0 > 0;
          assert m > 0;
          assert t[m - 1] == x;
        }
        ChooseComplete(t, k, c);
      }
    }
  }

  // ----- the combine enumeration -----

  /** What `combine(start, combo)` appends: combo itself once it has k
      numbers, otherwise the extensions by each numbers[i] with i ≥ start. */
  function Combos(numbers: seq<int>, k: nat, start: nat, combo: seq<int>): seq<seq<int>>
    requires start <= |numbers|
    decreases |numbers| - start, 1
  {
    if |combo| == k then [combo] else Branches(numbers, k, start, combo)
  }

  /** The loop of `combine` from index i on. */
  function Branches(numbers: seq<int>, k: nat, i: nat, combo: seq<int>): seq<seq<int>>
    requires i <= |numbers|
    decreases |numbers| - i, 0
  {
    if i == |numbers| then []
    else Combos(numbers, k, i + 1, combo + [numbers[i]]) + Branches(numbers, k, i + 1, combo)
  }

  /** `combine`, pushing onto the list of combinations it is given. */
  method Combine(numbers: seq<int>, k: nat, start: nat, combo: seq<int>) returns (found: seq<seq<int>>)
    requires start <= |numbers|
    ensures found == Combos(numbers, k, start, combo)
    decreases |numbers| - start
  {
    if |combo| == k {
      return [combo];
    }
    found := [];
    for i := start to |numbers|
      invariant found + Branches(numbers, k, i, combo) == Branches(numbers, k, start, combo)
    {
      var sub := Combine(numbers, k, i + 1, combo + [numbers[i]]);
      found := found + sub;
    }
  }

  lemma PrefixSplit(p: seq<int>, a: seq<seq<int>>, b: seq<seq<int>>)
    ensures Prefix(p, a + b) == Prefix(p, a) + Prefix(p, b)
  {
  }

  lemma PrefixNest(p: seq<int>, x: int, ss: seq<seq<int>>)
    ensures Prefix(p + [x], ss) == Prefix(p, Prefix([x], ss))
  {
    forall i | 0 <= i < |ss| ensures (p + [x]) + ss[i] == p + ([x] + ss[i]) {
    }
  }

  /** The combine recursion with a partial combo of at most k numbers
      appends that combo followed by each (k - |combo|)-subset of the
      numbers from start on. */
  lemma {:induction false} CombosChoose(numbers: seq<int>, k: nat, start: nat, combo: seq<int>)
    requires start <= |numbers| && |combo| <= k
    ensures Combos(numbers, k, start, combo) == Prefix(combo, Choose(numbers[start..], k - |combo|))
    decreases |numbers| - start, 1
  {
    if |combo| < k {
      BranchesChoose(numbers, k, start, combo);
    } else {
      assert combo + [] == combo;
    }
  }

  lemma {:induction false} BranchesChoose(numbers: seq<int>, k: nat, i: nat, combo: seq<int>)
    requires i <= |numbers| && |combo| < k
    ensures Branches(numbers, k, i, combo) == Prefix(combo, Choose(numbers[i..], k - |combo|))
    decreases |numbers| - i, 0
  {
    if i < |numbers| {
      var x := numbers[i];
      var m := k - |combo|;
      CombosChoose(numbers, k, i + 1, combo + [x]);
      BranchesChoose(numbers, k, i + 1, combo);
      var t := numbers[i..];
      assert t[0] == x && t[1..] == numbers[i + 1..];
      PrefixSplit(combo, Prefix([x], Choose(t[1..], m - 1)), Choose(t[1..], m));
      PrefixNest(combo, x, Choose(t[1..], m - 1));
    }
  }

  /** `combine(0, [])` over the numbers sorted ascending. */
  function WheelCombos(selected: seq<int>, k: nat): seq<seq<int>>
  {
    Combos(SortAsc(selected), k, 0, [])
  }

  lemma PrefixEmpty(ss: seq<seq<int>>)
    ensures Prefix([], ss) == ss
  {
    assert forall i :: 0 <= i < |ss| ==> Prefix([], ss)[i] == [] + ss[i] == ss[i];
  }

  /** The wheel is Choose over the selection sorted. */
  lemma WheelIsChoose(selected: seq<int>, k: nat)
    ensures WheelCombos(selected, k) == Choose(SortAsc(selected), k)
  {
    CombineAll(SortAsc(selected), k);
  }

  /** `combine(0, [])` enumerates the k-subsequences of the numbers. */
  lemma CombineAll(numbers: seq<int>, k: nat)
    ensures Combos(numbers, k, 0, []) == Choose(numbers, k)
  {
    CombosChoose(numbers, k, 0, []);
    assert numbers[0..] == numbers;
    PrefixEmpty(Choose(numbers, k));
  }

  /** A selection without repeats sorts into a strictly ascending list of the
      same numbers. */
  lemma SortedSelection(selected: seq<int>)
    requires Distinct(selected)
    ensures StrictlyAscending(SortAsc(selected))
    ensures forall x :: x in SortAsc(selected) <==> x in selected
  {
    var numbers := SortAsc(selected);
    SortAscStrict(selected);
    forall x ensures x in numbers <==> x in selected {
      assert x in multiset(numbers) <==> x in multiset(selected);
    }
  }

  /** For a selection without repeats (a Set), the wheel emits exactly the
      k-subsets of the selection, each once, each strictly ascending, in
      lexicographic order, C(n, k) of them. */
  lemma WheelCombosFacts(selected: seq<int>, k: nat)
    requires Distinct(selected)
    ensures var cs := WheelCombos(selected, k);
      && |cs| == Binom(|selected|, k)
      && (forall c :: c in cs ==> |c| == k && StrictlyAscending(c) && forall x :: x in c ==> x in selected)
      && (forall c :: |c| == k && StrictlyAscending(c) && (forall x :: x in c ==> x in selected) ==> c in cs)
      && (forall i, j :: 0 <= i < j < |cs| ==> LexLess(cs[i], cs[j]) && cs[i] != cs[j])
  {
    var numbers := SortAsc(selected);
    var cs := WheelCombos(selected, k);
    WheelIsChoose(selected, k);
    SortedSelection(selected);
    ChooseCount(numbers, k);
    ChooseShape(numbers, k);
    ChooseLexOrder(numbers, k);
    forall c | |c| == k && StrictlyAscending(c) && (forall x :: x in c ==> x in selected)
      ensures c in cs
    {
      ChooseComplete(numbers, k, c);
    }
    forall i, j | 0 <= i < j < |cs| ensures cs[i] != cs[j] {
      LexLessIrreflexive(cs[i]);
    }
  }

  /** `generateWheelBoards` without its random stars: the main numbers of
      each board. */
  method GenerateWheelBoards(selected: seq<int>, mainCount: nat) returns (boards: seq<seq<int>>)
    ensures boards == WheelCombos(selected, mainCount)
  {
    var numbers := SortAsc(selected);
    boards := Combine(numbers, mainCount, 0, []);
  }

  // ----- the wheel branch of generateMultiBoards -----

  /** The most boards the wheel keeps. */
  const MaxWheelBoards: nat := 100

  /** The wheel branch: null (None) while fewer than mainNumbers numbers are
      selected, otherwise the first hundred wheel boards. */
  function WheelBranch(selected: seq<int>, cfg: GameConfig): Option<seq<seq<int>>>
  {
    if |selected| < cfg.mainNumbers then None
    else Some(Take(WheelCombos(selected, cfg.mainNumbers), MaxWheelBoards))
  }

  /** No boards exactly when too few numbers are selected; otherwise
      min(100, C(n, mainNumbers)) boards, the lexicographically first ones,
      each a strictly ascending choice of mainNumbers selected numbers. */
  lemma WheelBranchFacts(selected: seq<int>, cfg: GameConfig)
    requires Distinct(selected)
    ensures WheelBranch(selected, cfg).None? <==> |selected| < cfg.mainNumbers
    ensures var r := WheelBranch(selected, cfg);
      r.Some? ==>
        && |r.value| == Min(MaxWheelBoards, Binom(|selected|, cfg.mainNumbers))
        && r.value == WheelCombos(selected, cfg.mainNumbers)[..|r.value|]
        && (forall c :: c in r.value ==> |c| == cfg.mainNumbers && StrictlyAscending(c) && forall x :: x in c ==> x in selected)
  {
    var cs := WheelCombos(selected, cfg.mainNumbers);
    WheelCombosFacts(selected, cfg.mainNumbers);
    if |selected| >= cfg.mainNumbers {
      var r := Take(cs, MaxWheelBoards);
      forall c | c in r ensures c in cs {
        var i :| 0 <= i < |r| && r[i] == c;
        assert cs[i] == c;
      }
    }
  }
}
