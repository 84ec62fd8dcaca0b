/** The additional line of a synergy's description: the wild chance for
    WILD and the (golden) egg chance for BABY. */
module Modifiers {
  import opened Types
  import opened Thresholds

  /** The additional description, as the translation key it selects and
      the number it interpolates; `Empty` is the empty string. */
  datatype AdditionalInfo =
    | Empty
    | WildAdditional(wildChance: int)
    | BabyEggChance(eggChance: int)
    | BabyGoldenEggChance(eggChance: int)

  // ---------------------------------------------------------------------
  // Wild chance

  /** `.filter((p) => p.types.has(WILD) && !isOnBench(p))`. */
  function ActiveWild(board: seq<BoardEntry>): (r: seq<BoardEntry>)
    ensures forall e :: e in r <==> e in board && WILD in e.types && !e.benched
    ensures forall e {:trigger multiset(r)[e]} :: multiset(r)[e] ==
              if WILD in e.types && !e.benched then multiset(board)[e] else 0
    ensures IsSubsequence(r, board)
  {
    if board == [] then []
    else
      var rest := ActiveWild(board[1..]);
      assert board == [board[0]] + board[1..];
      if WILD in board[0].types && !board[0].benched then
        assert ([board[0]] + rest)[1..] == rest;
        [board[0]] + rest
      else
        rest
  }

  /** `.reduce((total, p) => total + p.stars, 0)`. */
  function SumStars(entries: seq<BoardEntry>): int {
    if entries == [] then 0 else entries[0].stars + SumStars(entries[1..])
  }

  /** `stageLevel in PVEStages`. */
  predicate IsPVE(stageLevel: int, pveStages: set<int>) {
    stageLevel in pveStages
  }

  function WildChance(board: seq<BoardEntry>, stageLevel: int, pveStages: set<int>): int {
    SumStars(ActiveWild(board)) + (if IsPVE(stageLevel, pveStages) then 5 else 0)
  }

  /** The entries that are not on the bench. */
  function OnField(board: seq<BoardEntry>): (r: seq<BoardEntry>)
    ensures forall e :: e in r <==> e in board && !e.benched
    ensures forall e {:trigger multiset(r)[e]} :: multiset(r)[e] == if !e.benched then multiset(board)[e] else 0
    ensures IsSubsequence(r, board)
  {
    if board == [] then []
    else
      var rest := OnField(board[1..]);
      assert board == [board[0]] + board[1..];
      if !board[0].benched then
        assert ([board[0]] + rest)[1..] == rest;
        [board[0]] + rest
      else
        rest
  }

  lemma {:induction false} SumStarsAppend(a: seq<BoardEntry>, b: seq<BoardEntry>)
    ensures SumStars(a + b) == SumStars(a) + SumStars(b)
  {
    if a != [] {
      assert (a + b)[0] == a[0] && (a + b)[1..] == a[1..] + b;
      SumStarsAppend(a[1..], b);
    } else {
      assert a + b == b;
    }
  }

  lemma {:induction false} ActiveWildAppend(a: seq<BoardEntry>, b: seq<BoardEntry>)
    ensures ActiveWild(a + b) == ActiveWild(a) + ActiveWild(b)
  {
    if a != [] {
      assert (a + b)[0] == a[0] && (a + b)[1..] == a[1..] + b;
      ActiveWildAppend(a[1..], b);
    } else {
      assert a + b == b;
    }
  }

  /** Dropping the benched entries first selects the same WILD entries. */
  lemma {:induction false} ActiveWildOfOnField(board: seq<BoardEntry>)
    ensures ActiveWild(OnField(board)) == ActiveWild(board)
  {
    if board != [] {
      var rest := OnField(board[1..]);
      ActiveWildOfOnField(board[1..]);
      if !board[0].benched {
        assert OnField(board) == [board[0]] + rest;
        assert ([board[0]] + rest)[1..] == rest;
      } else {
        assert OnField(board) == rest;
      }
    }
  }

  /** Only the on-field part of the board matters: the wild chance of a
      board is that of its entries not on the bench. */
  lemma WildChanceOnFieldOnly(board: seq<BoardEntry>, stageLevel: int, pveStages: set<int>)
    ensures WildChance(board, stageLevel, pveStages) == WildChance(OnField(board), stageLevel, pveStages)
  {
    ActiveWildOfOnField(board);
  }

  /** Adding or removing a benched entry anywhere leaves the chance as it is. */
  lemma WildChanceIgnoresBenched(before: seq<BoardEntry>, e: BoardEntry, after: seq<BoardEntry>,
                                 stageLevel: int, pveStages: set<int>)
    requires e.benched
    ensures WildChance(before + [e] + after, stageLevel, pveStages)
         == WildChance(before + after, stageLevel, pveStages)
  {
    ActiveWildAppend(before + [e], after);
    ActiveWildAppend(before, [e]);
    ActiveWildAppend(before, after);
    assert [e][1..] == [];
    assert ActiveWild(before + [e]) == ActiveWild(before) + [];
    assert ActiveWild(before) + [] == ActiveWild(before);
  }

  /** What one board entry adds to the wild chance. */
  ghost function WildStarsOfEntry(e: BoardEntry): int {
    if WILD in e.types && !e.benched then e.stars else 0
  }

  /** An independent formulation of the sum: entry by entry, from the last
      entry backwards, without filtering. */
  ghost function WildStarsOf(board: seq<BoardEntry>): int {
    if board == [] then 0
    else WildStarsOf(board[..|board| - 1]) + WildStarsOfEntry(board[|board| - 1])
  }

  /** The chance is the sum of the stars of the on-field WILD entries, plus
      exactly 5 on a PVE stage. */
  lemma {:induction false} WildChanceIsActiveStarSum(board: seq<BoardEntry>, stageLevel: int, pveStages: set<int>)
    ensures WildChance(board, stageLevel, pveStages)
         == WildStarsOf(board) + (if stageLevel in pveStages then 5 else 0)
  {
    if board != [] {
      var n := |board| - 1;
      var x := board[n];
      assert board == board[..n] + [x];
      WildChanceIsActiveStarSum(board[..n], stageLevel, pveStages);
      ActiveWildAppend(board[..n], [x]);
      SumStarsAppend(ActiveWild(board[..n]), ActiveWild([x]));
      assert [x][1..] == [];
      if WILD in x.types && !x.benched {
        assert ActiveWild([x]) == [x] + [];
        assert SumStars([x]) == x.stars + SumStars([]);
      } else {
        assert ActiveWild([x]) == [];
      }
    }
  }

  /** Adding an on-field WILD entry raises the chance by its stars. */
  lemma WildChanceAddsStars(board: seq<BoardEntry>, e: BoardEntry, stageLevel: int, pveStages: set<int>)
    requires WILD in e.types && !e.benched
    ensures WildChance(board + [e], stageLevel, pveStages)
         == WildChance(board, stageLevel, pveStages) + e.stars
  {
    ActiveWildAppend(board, [e]);
    assert [e][1..] == [];
    assert ActiveWild([e]) == [e] + [] == [e];
    assert ActiveWild(board + [e]) == ActiveWild(board) + [e];
    SumStarsAppend(ActiveWild(board), [e]);
    assert SumStars([e]) == e.stars + SumStars([]);
  }

  /** Three on-field WILD entries of 1, 2 and 3 stars give 6, or 11 on a
      PVE stage; a benched one adds nothing. */
  lemma WildChanceExample(pveStages: set<int>, stageLevel: int)
    ensures var board := [BoardEntry("A", {WILD}, 1, false),
                          BoardEntry("B", {WILD, BABY}, 2, false),
                          BoardEntry("C", {WILD}, 3, false),
                          BoardEntry("D", {WILD}, 3, true)];
            WildChance(board, stageLevel, pveStages) == if stageLevel in pveStages then 11 else 6
  {
    WildChanceOfThreeAndBenched(BoardEntry("A", {WILD}, 1, false), BoardEntry("B", {WILD, BABY}, 2, false),
                                BoardEntry("C", {WILD}, 3, false), BoardEntry("D", {WILD}, 3, true),
                                stageLevel, pveStages);
  }

  lemma WildChanceOfThreeAndBenched(a: BoardEntry, b: BoardEntry, c: BoardEntry, d: BoardEntry,
                                    stageLevel: int, pveStages: set<int>)
    requires WILD in a.types && !a.benched && WILD in b.types && !b.benched
    requires WILD in c.types && !c.benched && d.benched
    ensures WildChance([a, b, c, d], stageLevel, pveStages)
         == a.stars + b.stars + c.stars + (if stageLevel in pveStages then 5 else 0)
  {
    WildChanceIsActiveStarSum([], stageLevel, pveStages);
    WildChanceAddsStars([], a, stageLevel, pveStages);
    assert [] + [a] == [a];
    WildChanceAddsStars([a], b, stageLevel, pveStages);
    assert [a] + [b] == [a, b];
    WildChanceAddsStars([a, b], c, stageLevel, pveStages);
    assert [a, b] + [c] == [a, b, c];
    WildChanceIgnoresBenched([a, b, c], d, [], stageLevel, pveStages);
    assert [a, b, c] + [d] + [] == [a, b, c, d] && [a, b, c] + [] == [a, b, c];
  }

  // ---------------------------------------------------------------------
  // Egg chance

  /** `history.at(-1)?.result ?? null`. */
  function LastResult(history: seq<HistoryItem>): (r: Option<BattleResult>)
    ensures r.None? <==> history == []
    ensures r.Some? ==> r.value == history[|history| - 1].result
  {
    if history == [] then None else Some(history[|history| - 1].result)
  }

  /** `max(100)(x)`: `x` capped at 100. */
  function Cap100(x: int): (r: int)
    ensures r <= 100 && r <= x
    ensures r == x || r == 100
  {
    if x > 100 then 100 else x
  }

  /** The defeat-streak formula shared by the first tier and the golden case. */
  function DefeatStreakChance(lastResult: Option<BattleResult>, streak: int): int {
    if lastResult == Some(Defeat) then Cap100(25 * (streak + 1)) else 0
  }

  /** The BABY branch of the additional description, selected by the
      level reached with the BABY trigger table `triggers`. */
  function EggInfo(triggers: seq<int>, value: int, history: seq<HistoryItem>, streak: int): AdditionalInfo {
    var levelReached := LevelReached(triggers, value);
    var lastResult := LastResult(history);
    if levelReached == TriggerAt(triggers, 0) then
      BabyEggChance(DefeatStreakChance(lastResult, streak))
    else if levelReached == TriggerAt(triggers, 1) then
      BabyEggChance(100)
    else if TriggerAt(triggers, 2).Some? && triggers[2] != 0 then
      BabyGoldenEggChance(DefeatStreakChance(lastResult, streak))
    else
      Empty
  }

  /** The description's additional line for `synergy`, or the empty string
      when there is no current player or the synergy is neither WILD nor BABY. */
  function Additional(synergy: Synergy, value: int, triggersOf: Synergy -> seq<int>,
                      player: Option<Player>, stageLevel: int, pveStages: set<int>): (r: AdditionalInfo)
    ensures player.None? ==> r == Empty
    ensures r.WildAdditional? <==> synergy == WILD && player.Some?
    ensures r.BabyEggChance? || r.BabyGoldenEggChance? ==> synergy == BABY && player.Some?
    ensures r.WildAdditional? ==> r.wildChance == WildChance(player.value.board, stageLevel, pveStages)
    ensures synergy == BABY && player.Some? ==>
              r == EggInfo(triggersOf(BABY), value, player.value.history, player.value.streak)
  {
    if synergy == WILD && player.Some? then
      WildAdditional(WildChance(player.value.board, stageLevel, pveStages))
    else if synergy == BABY && player.Some? then
      EggInfo(triggersOf(BABY), value, player.value.history, player.value.streak)
    else
      Empty
  }

  /** The formula never exceeds 100; after a defeat it is 25 at streak 0,
      grows by 25 per streak and reaches 100 from streak 3 on; without a
      last defeat (including an empty history) it is 0. */
  lemma DefeatStreakChanceValues(lastResult: Option<BattleResult>, streak: int)
    ensures DefeatStreakChance(lastResult, streak) <= 100
    ensures lastResult != Some(Defeat) ==> DefeatStreakChance(lastResult, streak) == 0
    ensures lastResult == Some(Defeat) && 0 <= streak ==>
              && 25 <= DefeatStreakChance(lastResult, streak)
              && (DefeatStreakChance(lastResult, streak) == 100 <==> streak >= 3)
              && (streak < 3 ==> DefeatStreakChance(lastResult, streak) == 25 * (streak + 1))
  {
  }

  /** At the first BABY tier the chance follows the defeat streak, and is 0
      when the last battle was not a defeat or there was none. */
  lemma EggAtFirstTier(triggers: seq<int>, value: int, history: seq<HistoryItem>, streak: int)
    requires |triggers| > 0 && LevelReached(triggers, value) == Some(triggers[0])
    ensures history == [] ==> EggInfo(triggers, value, history, streak) == BabyEggChance(0)
    ensures history != [] && history[|history| - 1].result == Defeat ==>
              EggInfo(triggers, value, history, streak) == BabyEggChance(Cap100(25 * (streak + 1)))
    ensures history != [] && history[|history| - 1].result != Defeat ==>
              EggInfo(triggers, value, history, streak) == BabyEggChance(0)
  {
  }

  /** At the second BABY tier the chance is 100 whatever the history. */
  lemma EggAtSecondTier(triggers: seq<int>, value: int, history: seq<HistoryItem>, streak: int)
    requires StrictlyAscending(triggers) && |triggers| > 1
    requires LevelReached(triggers, value) == Some(triggers[1])
    ensures EggInfo(triggers, value, history, streak) == BabyEggChance(100)
  {
    assert triggers[0] < triggers[1];
  }

  /** For a strictly ascending table of at least three triggers, the golden
      case is taken exactly when the third trigger is non-zero and the count
      is either below the first trigger or at least the third; it then uses
      the defeat-streak formula. */
  lemma GoldenEggIff(triggers: seq<int>, value: int, history: seq<HistoryItem>, streak: int)
    requires StrictlyAscending(triggers) && |triggers| >= 3
    ensures EggInfo(triggers, value, history, streak).BabyGoldenEggChance? <==>
              triggers[2] != 0 && (value < triggers[0] || triggers[2] <= value)
    ensures EggInfo(triggers, value, history, streak).BabyGoldenEggChance? ==>
              EggInfo(triggers, value, history, streak).eggChance
                == DefeatStreakChance(LastResult(history), streak)
  {
    assert Ascending(triggers);
    var level := LevelReached(triggers, value);
    if value < triggers[0] {
      LevelReachedAbsentBelowFirst(triggers, value);
    } else if value < triggers[1] {
      HighlightedIff(triggers, value, 0);
    } else if value < triggers[2] {
      HighlightedIff(triggers, value, 1);
      assert triggers[0] < triggers[1];
    } else {
      LevelReachedIsGreatest(triggers, value);
      assert triggers[0] < triggers[1] < triggers[2] <= level.value;
    }
  }

  /** With an empty trigger table no level is reached, and the absent level
      compares equal to the absent first trigger: the first-tier case is taken. */
  lemma EggWithEmptyTable(value: int, history: seq<HistoryItem>, streak: int)
    ensures EggInfo([], value, history, streak) == BabyEggChance(DefeatStreakChance(LastResult(history), streak))
  {
    LevelReachedIsLastAtMost([], value);
  }

  /** With a single trigger and a count below it, the absent level compares
      equal to the absent second trigger: the chance shown is 100. */
  lemma EggWithOneTriggerBelow(t: int, value: int, history: seq<HistoryItem>, streak: int)
    requires value < t
    ensures EggInfo([t], value, history, streak) == BabyEggChance(100)
  {
    LevelReachedAbsentBelowFirst([t], value);
  }

  /** The golden guard tests the third trigger, not the level reached: with
      a non-zero third trigger and a count below the first trigger, no tier
      is active and the golden chance is still produced. */
  lemma GoldenEggWithoutActiveTier(triggers: seq<int>, value: int, history: seq<HistoryItem>, streak: int)
    requires Ascending(triggers) && |triggers| > 2 && triggers[2] != 0
    requires value < triggers[0]
    ensures LevelReached(triggers, value).None?
    ensures EggInfo(triggers, value, history, streak)
         == BabyGoldenEggChance(DefeatStreakChance(LastResult(history), streak))
  {
    LevelReachedAbsentBelowFirst(triggers, value);
  }

  /** Reaching the third tier of a strictly ascending table with a positive
      third trigger selects the golden case. */
  lemma GoldenEggAtThirdTier(triggers: seq<int>, value: int, history: seq<HistoryItem>, streak: int)
    requires StrictlyAscending(triggers) && |triggers| > 2 && triggers[2] != 0
    requires LevelReached(triggers, value) == Some(triggers[2])
    ensures EggInfo(triggers, value, history, streak)
         == BabyGoldenEggChance(DefeatStreakChance(LastResult(history), streak))
  {
    assert triggers[0] < triggers[2] && triggers[1] < triggers[2];
  }

  /** With a non-negative streak every egg chance shown is within [0, 100]. */
  lemma EggChanceIsPercentage(triggers: seq<int>, value: int, history: seq<HistoryItem>, streak: int)
    requires streak >= 0
    ensures var info := EggInfo(triggers, value, history, streak);
            info.BabyEggChance? || info.BabyGoldenEggChance? ==> 0 <= info.eggChance <= 100
  {
    DefeatStreakChanceValues(LastResult(history), streak);
  }
}
