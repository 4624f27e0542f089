/** The web app's settings and multi-board state (app.js): the stored
    settings `loadSettings` reads back and `saveSettings` writes,
    `toggleWheelNumber`, and the wheel branch of `generateMultiBoards`. */
module Settings {
  import opened Support
  import opened History
  import opened AppData
  import Strategies
  import Combinatorics

  // ----- the choices the app offers -----

  datatype Strategy = Cold | Hot | Balanced | Due | Smart | RandomPicks

  /** The keys of STRATEGY_INFO. */
  function StrategyKey(s: Strategy): string
  {
    match s
    case Cold => "cold"
    case Hot => "hot"
    case Balanced => "balanced"
    case Due => "due"
    case Smart => "smart"
    case RandomPicks => "random"
  }

  /** The lookup STRATEGY_INFO[key]: a strategy for its own key and no other. */
  function StrategyOfKey(key: string): (s: Option<Strategy>)
    ensures s.Some? ==> StrategyKey(s.value) == key
    ensures forall t: Strategy :: StrategyKey(t) == key ==> s == Some(t)
  {
    if key == "cold" then Some(Cold)
    else if key == "hot" then Some(Hot)
    else if key == "balanced" then Some(Balanced)
    else if key == "due" then Some(Due)
    else if key == "smart" then Some(Smart)
    else if key == "random" then Some(RandomPicks)
    else None
  }

  datatype Mode = SmartMode | CoverageMode | WheelMode

  function ModeKey(m: Mode): string
  {
    match m
    case SmartMode => "smart"
    case CoverageMode => "coverage"
    case WheelMode => "wheel"
  }

  /** ['smart', 'coverage', 'wheel'].includes(text). */
  function ModeOfKey(key: string): (m: Option<Mode>)
    ensures m.Some? ==> ModeKey(m.value) == key
    ensures forall n: Mode :: ModeKey(n) == key ==> m == Some(n)
  {
    if key == "smart" then Some(SmartMode)
    else if key == "coverage" then Some(CoverageMode)
    else if key == "wheel" then Some(WheelMode)
    else None
  }

  /** The board counts the app offers. */
  const BoardCounts: seq<int> := [2, 3, 5, 10]

  /** The most numbers a click can select for the wheel. */
  const MaxWheelNumbers: nat := 15

  // ----- the settings -----

  /** The settings the app keeps; the wheel numbers are a Set, kept here
      as a list without repeats in insertion order. */
  datatype AppSettings = AppSettings(game: Game, strategy: Strategy, count: int, mode: Mode, wheel: seq<int>)

  /** The state the app starts in. */
  const Initial: AppSettings := AppSettings(LottoGame, Cold, 5, SmartMode, [])

  /** Settings the app can be in: an offered board count, and wheel numbers
      without repeats on the current game's grid. */
  predicate Consistent(s: AppSettings)
  {
    && s.count in BoardCounts
    && Distinct(s.wheel)
    && forall x :: x in s.wheel ==> 1 <= x <= ConfigOf(s.game).mainRange
  }

  // ----- what the browser stores -----

  /** A stored wheel entry: an integer, or any JSON value that is not one. */
  datatype Entry = Integer(n: int) | NotInteger

  /** The stored `multiBoard` object. The count is the text parseInt reads
      (None when absent); the mode is None when absent or not a string; the
      wheel numbers are None when not an array. */
  datatype StoredBoard = StoredBoard(count: Option<string>, mode: Option<string>, wheelNumbers: Option<seq<Entry>>)

  /** The stored settings object; keys that are absent or not strings are None. */
  datatype Saved = Saved(currentGame: Option<string>, currentStrategy: Option<string>, multiBoard: Option<StoredBoard>)

  /** What localStorage holds: nothing (or the empty text), text on which
      the try block gives up (JSON.parse throws, or gives null so that
      reading its keys throws), or the parsed value. A parsed number,
      boolean or string has none of the keys: it is `Found` with every
      key None. */
  datatype Stored = Missing | Unreadable | Found(saved: Saved)

  /** `saveSettings`: the object it writes. */
  function Save(s: AppSettings): Saved
  {
    Saved(Some(GameKey(s.game)), Some(StrategyKey(s.strategy)),
      Some(StoredBoard(Some(IntToString(s.count)), Some(ModeKey(s.mode)), Some(Entries(s.wheel)))))
  }

  function Entries(ns: seq<int>): (es: seq<Entry>)
    ensures |es| == |ns| && forall i :: 0 <= i < |ns| ==> es[i] == Integer(ns[i])
  {
    seq(|ns|, i requires 0 <= i < |ns| => Integer(ns[i]))
  }

  /** The integers of a stored array, in order (Number.isInteger). */
  function Integers(es: seq<Entry>): (ns: seq<int>)
    ensures forall x :: x in ns <==> Integer(x) in es
  {
    if es == [] then []
    else
      var rest := Integers(es[1..]);
      assert forall e :: e in es <==> e == es[0] || e in es[1..];
      if es[0].Integer? then [es[0].n] + rest else rest
  }

  lemma {:induction false} IntegersOfEntries(ns: seq<int>)
    ensures Integers(Entries(ns)) == ns
  {
    if ns != [] {
      IntegersOfEntries(ns[1..]);
      assert Entries(ns)[1..] == Entries(ns[1..]);
    }
  }

  /** `new Set(ns)`: the first occurrence of each number, in order. */
  function Unique(ns: seq<int>): (r: seq<int>)
    ensures Distinct(r)
    ensures forall x :: x in r <==> x in ns
    ensures |r| <= |ns|
  {
    if ns == [] then []
    else
      var init := ns[..|ns| - 1];
      var last := ns[|ns| - 1];
      assert ns == init + [last];
      var r := Unique(init);
      if last in r then r else r + [last]
  }

  /** A list without repeats is its own Set. */
  lemma {:induction false} UniqueOfDistinct(ns: seq<int>)
    requires Distinct(ns)
    ensures Unique(ns) == ns
  {
    if ns != [] {
      var init := ns[..|ns| - 1];
      assert Distinct(init);
      UniqueOfDistinct(init);
      assert ns[|ns| - 1] !in init;
      assert init + [ns[|ns| - 1]] == ns;
    }
  }

  /** The numbers in [1, hi], in order. */
  function InRange(ns: seq<int>, hi: int): (r: seq<int>)
    ensures forall x :: x in r <==> x in ns && 1 <= x <= hi
    ensures Distinct(ns) ==> Distinct(r)
  {
    if ns == [] then []
    else
      var rest := InRange(ns[1..], hi);
      assert forall x :: x in ns <==> x == ns[0] || x in ns[1..];
      assert Distinct(ns) ==> Distinct(ns[1..]) && ns[0] !in ns[1..];
      if 1 <= ns[0] <= hi then [ns[0]] + rest else rest
  }

  lemma {:induction false} InRangeKeepsAll(ns: seq<int>, hi: int)
    requires forall x :: x in ns ==> 1 <= x <= hi
    ensures InRange(ns, hi) == ns
  {
    if ns != [] {
      assert ns[0] in ns;
      assert forall x :: x in ns[1..] ==> x in ns;
      InRangeKeepsAll(ns[1..], hi);
      assert [ns[0]] + ns[1..] == ns;
    }
  }

  /** The stored count when parseInt reads one of the offered counts from it. */
  function StoredCount(text: Option<string>): (c: Option<int>)
    ensures c.Some? ==> c.value in BoardCounts
  {
    if text.None? then None
    else
      var n := Strategies.ParseInt(text.value);
      if n.Some? && n.value in BoardCounts then n else None
  }

  /** The game, strategy or mode a stored key names, if any. */
  function StoredGame(key: Option<string>): Option<Game>
  {
    if key.Some? then GameOfKey(key.value) else None
  }

  function StoredStrategy(key: Option<string>): Option<Strategy>
  {
    if key.Some? then StrategyOfKey(key.value) else None
  }

  function StoredMode(key: Option<string>): Option<Mode>
  {
    if key.Some? then ModeOfKey(key.value) else None
  }

  function Or<T>(o: Option<T>, otherwise: T): T
  {
    if o.Some? then o.value else otherwise
  }

  /** `loadSettings`: the settings after reading what is stored. Nothing
      changes when nothing readable is stored; otherwise each valid stored
      choice replaces the current one, the stored integers (as a Set)
      replace the wheel numbers, and the wheel keeps only the numbers on the
      grid of the game now chosen. */
  function Loaded(cur: AppSettings, stored: Stored): AppSettings
  {
    match stored
    case Missing => cur
    case Unreadable => cur
    case Found(saved) =>
      var game := Or(StoredGame(saved.currentGame), cur.game);
      var strategy := Or(StoredStrategy(saved.currentStrategy), cur.strategy);
      var board := saved.multiBoard;
      var count := if board.Some? then Or(StoredCount(board.value.count), cur.count) else cur.count;
      var mode := if board.Some? then Or(StoredMode(board.value.mode), cur.mode) else cur.mode;
      var wheel :=
        if board.Some? && board.value.wheelNumbers.Some? then Unique(Integers(board.value.wheelNumbers.value))
        else cur.wheel;
      AppSettings(game, strategy, count, mode, InRange(wheel, ConfigOf(game).mainRange))
  }

  /** Loading keeps the settings consistent: the count stays an offered
      one, and the wheel numbers stay a Set on the chosen game's grid. */
  lemma LoadedConsistent(cur: AppSettings, stored: Stored)
    requires Consistent(cur)
    ensures Consistent(Loaded(cur, stored))
  {
  }

  /** What loading changes: nothing without readable settings; otherwise
      the game, strategy, count and mode are the stored ones when valid and
      the current ones when not, and a number is on the wheel exactly when
      it is on the new game's grid and stored as an integer (or, without a
      stored array, already on the wheel). */
  lemma LoadedFacts(cur: AppSettings, stored: Stored)
    ensures !stored.Found? ==> Loaded(cur, stored) == cur
    ensures stored.Found? ==>
      var saved, r := stored.saved, Loaded(cur, stored);
      && (r.game == cur.game || (saved.currentGame == Some(GameKey(r.game))))
      && (saved.currentGame.Some? && GameOfKey(saved.currentGame.value).Some? ==> saved.currentGame == Some(GameKey(r.game)))
      && (r.strategy == cur.strategy || saved.currentStrategy == Some(StrategyKey(r.strategy)))
      && (StoredStrategy(saved.currentStrategy).Some? ==> r.strategy == StoredStrategy(saved.currentStrategy).value)
      && (r.count == cur.count ||
          (saved.multiBoard.Some? && saved.multiBoard.value.count.Some?
           && Strategies.ParseInt(saved.multiBoard.value.count.value) == Some(r.count) && r.count in BoardCounts))
      && (saved.multiBoard.Some? && StoredCount(saved.multiBoard.value.count).Some? ==>
            r.count == StoredCount(saved.multiBoard.value.count).value)
      && (r.mode == cur.mode || (saved.multiBoard.Some? && saved.multiBoard.value.mode == Some(ModeKey(r.mode))))
      && (saved.multiBoard.Some? && StoredMode(saved.multiBoard.value.mode).Some? ==>
            r.mode == StoredMode(saved.multiBoard.value.mode).value)
      && (Distinct(cur.wheel) || (saved.multiBoard.Some? && saved.multiBoard.value.wheelNumbers.Some?) ==> Distinct(r.wheel))
      && forall x :: x in r.wheel <==>
        && 1 <= x <= ConfigOf(r.game).mainRange
        && if saved.multiBoard.Some? && saved.multiBoard.value.wheelNumbers.Some?
           then Integer(x) in saved.multiBoard.value.wheelNumbers.value
           else x in cur.wheel
  {
  }

  /** Reading back what `saveSettings` wrote restores consistent settings
      exactly, whatever the app held before. */
  lemma {:induction false} LoadSaved(before: AppSettings, s: AppSettings)
    requires Consistent(s)
    ensures Loaded(before, Found(Save(s))) == s
  {
    var board := Save(s).multiBoard.value;
    Strategies.ParseIntOfString(s.count);
    assert StoredCount(board.count) == Some(s.count);
    IntegersOfEntries(s.wheel);
    UniqueOfDistinct(s.wheel);
    assert Unique(Integers(board.wheelNumbers.value)) == s.wheel;
    InRangeKeepsAll(s.wheel, ConfigOf(s.game).mainRange);
  }

  // ----- toggling a wheel number -----

  /** Set.prototype.delete: the list without x, the rest in order. */
  function Remove(ns: seq<int>, x: int): (r: seq<int>)
    ensures forall y :: y in r <==> y in ns && y != x
    ensures Distinct(ns) ==> Distinct(r)
    ensures Distinct(ns) && x in ns ==> |r| == |ns| - 1
    ensures x !in ns ==> r == ns
  {
    if ns == [] then []
    else
      var rest := Remove(ns[1..], x);
      assert forall y :: y in ns <==> y == ns[0] || y in ns[1..];
      assert Distinct(ns) ==> Distinct(ns[1..]) && ns[0] !in ns[1..];
      assert x !in ns ==> [ns[0]] + ns[1..] == ns;
      if ns[0] == x then rest else [ns[0]] + rest
  }

  /** The filter keeps order: removing x from a + b removes it from a and
      from b. */
  lemma {:induction false} RemoveConcat(a: seq<int>, b: seq<int>, x: int)
    ensures Remove(a + b, x) == Remove(a, x) + Remove(b, x)
  {
    if a == [] {
      assert a + b == b;
    } else {
      var ab := a + b;
      assert ab != [] && ab[0] == a[0] && ab[1..] == a[1..] + b;
      var front, back := Remove(a[1..], x), Remove(b, x);
      RemoveConcat(a[1..], b, x);
      assert Remove(ab[1..], x) == front + back;
      if a[0] != x {
        assert [a[0]] + (front + back) == ([a[0]] + front) + back;
      }
    }
  }

  /** `toggleWheelNumber`: a selected number is removed; another is added
      only while fewer than fifteen are selected. */
  function Toggled(ws: seq<int>, num: int): seq<int>
  {
    if num in ws then Remove(ws, num)
    else if |ws| < MaxWheelNumbers then ws + [num]
    else ws
  }

  /** The selection stays a Set; the number ends up selected exactly when
      it was not and there was room, every other number keeps its state,
      and the size moves by one (or not at all when full). */
  lemma ToggledFacts(ws: seq<int>, num: int)
    requires Distinct(ws)
    ensures var r := Toggled(ws, num);
      && Distinct(r)
      && (num in r <==> num !in ws && |ws| < MaxWheelNumbers)
      && (forall y :: y != num ==> (y in r <==> y in ws))
      && |r| == (if num in ws then |ws| - 1 else if |ws| < MaxWheelNumbers then |ws| + 1 else |ws|)
      && (|ws| <= MaxWheelNumbers ==> |r| <= MaxWheelNumbers)
  {
  }

  /** A click on a number of the grid keeps the settings consistent: the
      selection stays a Set of numbers on the current game's grid. */
  lemma ToggledConsistent(s: AppSettings, num: int)
    requires Consistent(s) && 1 <= num <= ConfigOf(s.game).mainRange
    ensures Consistent(s.(wheel := Toggled(s.wheel, num)))
  {
    ToggledFacts(s.wheel, num);
  }

  /** Two clicks on the same number give back the same selection; when the
      number was not selected, the very same list. This needs at most
      fifteen selected: a wheel loaded with more cannot take a removed
      number back. */
  lemma ToggleTwice(ws: seq<int>, num: int)
    requires Distinct(ws) && |ws| <= MaxWheelNumbers
    ensures forall y :: y in Toggled(Toggled(ws, num), num) <==> y in ws
    ensures num !in ws ==> Toggled(Toggled(ws, num), num) == ws
  {
    ToggledFacts(ws, num);
    ToggledFacts(Toggled(ws, num), num);
    if num !in ws && |ws| < MaxWheelNumbers {
      RemoveLast(ws, num);
    }
  }

  lemma {:induction false} RemoveLast(ws: seq<int>, num: int)
    requires num !in ws
    ensures Remove(ws + [num], num) == ws
  {
    if ws != [] {
      RemoveLast(ws[1..], num);
      assert (ws + [num])[1..] == ws[1..] + [num];
      assert [ws[0]] + ws[1..] == ws;
    } else {
      assert Remove([num], num) == Remove([], num);
    }
  }

  // ----- the app's state -----

  /** The part of the app's `state` these operations touch; the boards
      hold the main numbers of each board. */
  class AppState {
    var currentGame: Game
    var currentStrategy: Strategy
    var count: int
    var mode: Mode
    var wheelNumbers: seq<int>
    var generatedBoards: seq<seq<int>>

    function Current(): AppSettings
      reads this
    {
      AppSettings(currentGame, currentStrategy, count, mode, wheelNumbers)
    }

    constructor ()
      ensures Current() == Initial && generatedBoards == []
      ensures Consistent(Current())
    {
      currentGame := LottoGame;
      currentStrategy := Cold;
      count := 5;
      mode := SmartMode;
      wheelNumbers := [];
      generatedBoards := [];
    }

    /** `loadSettings`, step by step as the app does it. */
    method LoadSettings(stored: Stored)
      modifies this
      ensures Current() == Loaded(old(Current()), stored)
      ensures generatedBoards == old(generatedBoards)
    {
      if !stored.Found? {
        return;
      }
      ghost var want := Loaded(Current(), stored);
      var saved := stored.saved;
      var game := StoredGame(saved.currentGame);
      var strategy := StoredStrategy(saved.currentStrategy);
      if game.Some? {
        currentGame := game.value;
      }
      if strategy.Some? {
        currentStrategy := strategy.value;
      }
      if saved.multiBoard.Some? {
        var board := saved.multiBoard.value;
        var c := StoredCount(board.count);
        if c.Some? {
          count := c.value;
        }
        var m := StoredMode(board.mode);
        if m.Some? {
          mode := m.value;
        }
        if board.wheelNumbers.Some? {
          wheelNumbers := Unique(Integers(board.wheelNumbers.value));
        }
      }
      assert currentGame == want.game && currentStrategy == want.strategy;
      assert count == want.count && mode == want.mode;
      wheelNumbers := InRange(wheelNumbers, ConfigOf(currentGame).mainRange);
    }

    /** `toggleWheelNumber` on the selection (the button and the saving
      that follow are not modelled). */
    method ToggleWheelNumber(num: int)
      modifies this
      ensures wheelNumbers == Toggled(old(wheelNumbers), num)
      ensures currentGame == old(currentGame) && currentStrategy == old(currentStrategy)
      ensures count == old(count) && mode == old(mode) && generatedBoards == old(generatedBoards)
    {
      if num in wheelNumbers {
        wheelNumbers := Remove(wheelNumbers, num);
      } else if |wheelNumbers| < MaxWheelNumbers {
        wheelNumbers := wheelNumbers + [num];
      }
    }

    /** The 'wheel' case of `generateMultiBoards`: null, with the boards
      left as they were, while too few numbers are selected; otherwise the
      first hundred wheel boards, which become the generated boards. */
    method GenerateWheelBoards() returns (boards: Option<seq<seq<int>>>)
      modifies this
      ensures boards == Combinatorics.WheelBranch(wheelNumbers, ConfigOf(currentGame))
      ensures generatedBoards == if boards.Some? then boards.value else old(generatedBoards)
      ensures Current() == old(Current())
    {
      var cfg := ConfigOf(currentGame);
      if |wheelNumbers| < cfg.mainNumbers {
        return None;
      }
      var all := Combinatorics.GenerateWheelBoards(wheelNumbers, cfg.mainNumbers);
      if |all| > Combinatorics.MaxWheelBoards {
        all := all[..Combinatorics.MaxWheelBoards];
      }
      generatedBoards := all;
      boards := Some(all);
    }
  }
}
