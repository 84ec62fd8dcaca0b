# Synergy detail computations

A Dafny model of the data computations in the synergy detail panel of
Pokemon Auto Chess (`SynergyDetailComponent`). The panel describes one
synergy type. It needs to know:

- which trigger level the player's count of distinct families for that type
  reaches (`levelReached`), and which tier of the effect list to highlight;
- the catalog units of the type in five categories (regular, additional,
  unique, legendary, special). Each list keeps one unit per family. The
  additional list is restricted to families unlocked in the game. The
  regular list is ordered by rarity cost;
- an extra line for two types. For WILD it is the wild chance: the stars of
  the on-field WILD units, plus 5 on a PVE stage. For BABY it is the egg or
  golden-egg chance, chosen by the BABY tier reached and computed from the
  last battle result and the streak;
- for each portrait, whether the unit is "acquired", that is, on the
  current player's team.

All of these are pure functions in the model. The store selectors, the
precomputed tables and `isOnBench` become explicit inputs:

- the unlocked additional families, the stage level, the PVE stage set and
  the current player (`Option<Player>`) are parameters;
- the family table, `getPokemonData`, the rarity cost table and the trigger
  tables are total functions passed as parameters;
- `isOnBench` is the `benched` flag of a board entry.

Modules:

- `Types` (types.dfy): units, synergies, catalog records, board entries,
  the player.
- `Thresholds` (thresholds.dfy): the level reached and the tier highlight.
- `Catalog` (catalog.dfy): family deduplication, the unlocked filter, the
  cost ordering and the five lists.
- `Modifiers` (modifiers.dfy): the wild chance, the egg chance and the
  additional description line.
- `Portrait` (portrait.dfy): `isOnTeam`.

In these places the code may not do what was meant; the model follows the
code as written:

- The golden-egg case is guarded by "the third BABY trigger is non-zero",
  not by "the third tier is reached". So it also fires when no BABY tier
  is reached at all (`GoldenEggWithoutActiveTier`).
- JavaScript compares `undefined === undefined` as true. So a tier index
  past the trigger table counts as highlighted when no level is reached
  (`NoHighlightWhenAbsent`). With an empty trigger table, the first-tier
  egg case is the one taken (`EggWithEmptyTable`); with a single trigger
  and a count below it, the second-tier case shows 100
  (`EggWithOneTriggerBelow`).
- The wild chance is not clamped to 100. The egg chance is capped at 100
  but not bounded below; it is non-negative for a non-negative streak.
- `isOnTeam` compares the family of each board entry with the portrait's
  unit itself, not with that unit's family. Bench entries count too.

## Model

| member | source | states |
|---|---|---|
| `Thresholds.AtMost` | app/public/src/pages/component/synergy/synergy-detail-component.tsx:39-40 | the filtered triggers are exactly the triggers not above the count, each kept as often as it occurs in the table |
| `Thresholds.AtMostAppend` | app/public/src/pages/component/synergy/synergy-detail-component.tsx:40 | the filter keeps the table order: filtering a concatenation concatenates the filtered parts |
| `Thresholds.Last` | app/public/src/pages/component/synergy/synergy-detail-component.tsx:41 | `.at(-1)` is absent exactly on an empty list, else it is the final element |
| `Thresholds.LevelReachedIsLastAtMost` | app/public/src/pages/component/synergy/synergy-detail-component.tsx:39-41 | for any trigger table, the level reached is absent iff every trigger exceeds the count; otherwise it is the trigger at a position not above the count after which every trigger exceeds it |
| `Thresholds.LevelReachedIsGreatest` | app/public/src/pages/component/synergy/synergy-detail-component.tsx:39-41 | with ascending triggers the level reached is the greatest trigger not above the count |
| `Thresholds.LevelReachedAbsentBelowFirst` | app/public/src/pages/component/synergy/synergy-detail-component.tsx:39-41 | with ascending non-empty triggers no level is reached iff the count is below the first trigger |
| `Thresholds.LevelReachedMonotone` | app/public/src/pages/component/synergy/synergy-detail-component.tsx:39-41 | with ascending triggers a larger count keeps a level and never resolves to a lower one |
| `Thresholds.HighlightedIff` | app/public/src/pages/component/synergy/synergy-detail-component.tsx:116-130 | with strictly ascending triggers tier i is highlighted iff its trigger is reached and the next trigger, if any, is not |
| `Thresholds.AtMostOneHighlighted` | app/public/src/pages/component/synergy/synergy-detail-component.tsx:122-130 | with strictly ascending triggers two highlighted tiers of the table are the same tier |
| `Thresholds.NoHighlightWhenAbsent` | app/public/src/pages/component/synergy/synergy-detail-component.tsx:122-130 | when no level is reached no tier of the table is highlighted, while an index past the table compares equal |
| `Catalog.FindIndexFrom` | app/public/src/pages/component/synergy/synergy-detail-component.tsx:47 | `findIndex` returns the first position of the family at or after the start, or -1 when the family does not occur there |
| `Catalog.FindIndexIsFirst` | app/public/src/pages/component/synergy/synergy-detail-component.tsx:47 | the family of any unit is found, at or before that unit's position |
| `Catalog.DedupFromMembers` | app/public/src/pages/component/synergy/synergy-detail-component.tsx:46-48 | a unit is kept iff it stands at a position that is the first of its family |
| `Catalog.DedupFromIsSubsequence` | app/public/src/pages/component/synergy/synergy-detail-component.tsx:46-48 | deduplication drops units without reordering the rest |
| `Catalog.DedupFromFamilyUnique` | app/public/src/pages/component/synergy/synergy-detail-component.tsx:46-48 | no two kept units share a family |
| `Catalog.DedupCoversFamilies` | app/public/src/pages/component/synergy/synergy-detail-component.tsx:46-48 | every family of the input is kept, by its first unit |
| `Catalog.DedupIsFamilyRepresentatives` | app/public/src/pages/component/synergy/synergy-detail-component.tsx:46-48 | the deduplicated list is a family-unique subsequence of the input that contains a unit of every input family |
| `Catalog.DedupFromOfUnique` | app/public/src/pages/component/synergy/synergy-detail-component.tsx:46-48 | a list with no two units of one family is left unchanged |
| `Catalog.DedupIdempotent` | app/public/src/pages/component/synergy/synergy-detail-component.tsx:46-48 | deduplicating twice equals deduplicating once |
| `Catalog.FilterUnlocked` | app/public/src/pages/component/synergy/synergy-detail-component.tsx:55 | keeps exactly the units whose family is unlocked, each as often as in the input, as a subsequence of the input |
| `Catalog.InsertByCost` | app/public/src/pages/component/synergy/synergy-detail-component.tsx:50 | insertion adds exactly the one record to the multiset of the list |
| `Catalog.InsertByCostSorted` | app/public/src/pages/component/synergy/synergy-detail-component.tsx:50 | inserting into a list ordered by rarity cost keeps it ordered |
| `Catalog.SortByCost` | app/public/src/pages/component/synergy/synergy-detail-component.tsx:50 | the sorted list is a permutation of its input, in non-decreasing rarity cost |
| `Catalog.Regulars` | app/public/src/pages/component/synergy/synergy-detail-component.tsx:43-50 | the regular list is ordered by non-decreasing rarity cost and is a permutation of the records of the deduplicated catalog list |
| `Catalog.RegularsArePermutedRepresentatives` | app/public/src/pages/component/synergy/synergy-detail-component.tsx:43-50 | the regular list is cost-ordered, has one record per kept unit, and shows only records of kept units |
| `Catalog.ListedShowsFirstOfEachFamily` | app/public/src/pages/component/synergy/synergy-detail-component.tsx:61-83 | the unique, legendary and special lists show the record of the first unit of every family and only records of catalog units |
| `Catalog.AdditionalsUnlockedAndUnique` | app/public/src/pages/component/synergy/synergy-detail-component.tsx:52-58 | after the unlocked filter and deduplication, every unit is an unlocked catalog unit, no family repeats, and every unlocked family of the catalog is present |
| `Catalog.AdditionalsShowUnlocked` | app/public/src/pages/component/synergy/synergy-detail-component.tsx:52-59 | every record of the additional list is that of a catalog unit of an unlocked family |
| `Modifiers.ActiveWild` | app/public/src/pages/component/synergy/synergy-detail-component.tsx:90 | keeps exactly the board entries that have the WILD type and are not on the bench, each as often as on the board, in board order |
| `Modifiers.OnField` | app/public/src/pages/component/synergy/synergy-detail-component.tsx:90 | keeps exactly the board entries not on the bench, each as often as on the board, in board order |
| `Modifiers.ActiveWildAppend` | app/public/src/pages/component/synergy/synergy-detail-component.tsx:90 | the WILD filter distributes over concatenation of boards |
| `Modifiers.SumStarsAppend` | app/public/src/pages/component/synergy/synergy-detail-component.tsx:91 | the star sum of a concatenation is the sum of the star sums |
| `Modifiers.ActiveWildOfOnField` | app/public/src/pages/component/synergy/synergy-detail-component.tsx:90 | dropping benched entries first selects the same WILD entries |
| `Modifiers.WildChanceOnFieldOnly` | app/public/src/pages/component/synergy/synergy-detail-component.tsx:87-91 | the wild chance of a board equals that of its on-field entries |
| `Modifiers.WildChanceIgnoresBenched` | app/public/src/pages/component/synergy/synergy-detail-component.tsx:87-91 | inserting or removing a benched entry anywhere leaves the wild chance unchanged |
| `Modifiers.WildChanceIsActiveStarSum` | app/public/src/pages/component/synergy/synergy-detail-component.tsx:88-91 | the wild chance equals the entry-by-entry sum of the stars of on-field WILD entries, plus exactly 5 iff the stage is a PVE stage |
| `Modifiers.WildChanceAddsStars` | app/public/src/pages/component/synergy/synergy-detail-component.tsx:89-91 | adding an on-field WILD entry raises the wild chance by its stars |
| `Modifiers.WildChanceExample` | app/public/src/pages/component/synergy/synergy-detail-component.tsx:87-91 | on-field WILD entries of 1, 2 and 3 stars give 6, or 11 on a PVE stage, a benched one adding nothing |
| `Modifiers.WildChanceOfThreeAndBenched` | app/public/src/pages/component/synergy/synergy-detail-component.tsx:87-91 | three on-field WILD entries and a benched one give the sum of the three entries' stars plus the PVE bonus |
| `Modifiers.LastResult` | app/public/src/pages/component/synergy/synergy-detail-component.tsx:96 | the last result is absent exactly for an empty history, and otherwise is the result of the last history item |
| `Modifiers.Cap100` | app/public/src/pages/component/synergy/synergy-detail-component.tsx:98 | the capped value is at most 100 and at most its input, and equals one of them |
| `Modifiers.DefeatStreakChanceValues` | app/public/src/pages/component/synergy/synergy-detail-component.tsx:98 | the defeat-streak chance never exceeds 100; it is 0 without a last defeat; after a defeat with a non-negative streak it is 25*(streak+1) below streak 3 and 100 from streak 3 on |
| `Modifiers.EggAtFirstTier` | app/public/src/pages/component/synergy/synergy-detail-component.tsx:95-99 | at the first BABY tier the egg chance is 0 for an empty history or a last result other than defeat, and the capped 25*(streak+1) after a defeat |
| `Modifiers.EggAtSecondTier` | app/public/src/pages/component/synergy/synergy-detail-component.tsx:100-101 | at the second BABY tier of a strictly ascending table the egg chance is 100 whatever the history and streak |
| `Modifiers.GoldenEggIff` | app/public/src/pages/component/synergy/synergy-detail-component.tsx:97-104 | for a strictly ascending table of at least three triggers, the golden case is taken iff the third trigger is non-zero and the count is below the first trigger or at least the third; it then uses the defeat-streak formula |
| `Modifiers.GoldenEggWithoutActiveTier` | app/public/src/pages/component/synergy/synergy-detail-component.tsx:97-104 | with a non-zero third trigger and a count below the first trigger, no tier is reached and yet the golden chance is produced |
| `Modifiers.GoldenEggAtThirdTier` | app/public/src/pages/component/synergy/synergy-detail-component.tsx:102-104 | reaching the third tier of a strictly ascending table with a non-zero third trigger selects the golden case |
| `Modifiers.EggWithEmptyTable` | app/public/src/pages/component/synergy/synergy-detail-component.tsx:96-99 | with an empty BABY trigger table the first-tier case is taken, with the defeat-streak formula |
| `Modifiers.EggWithOneTriggerBelow` | app/public/src/pages/component/synergy/synergy-detail-component.tsx:96-101 | with one BABY trigger and a count below it, the undefined second trigger equals the undefined level and the chance shown is 100 |
| `Modifiers.EggChanceIsPercentage` | app/public/src/pages/component/synergy/synergy-detail-component.tsx:95-105 | with a non-negative streak every egg or golden-egg chance lies in [0, 100] |
| `Modifiers.Additional` | app/public/src/pages/component/synergy/synergy-detail-component.tsx:85-106 | without a current player the line is empty; for WILD with a player it is the wild chance of the player's board at this stage; for BABY with a player it is the egg line of the BABY table, count, history and streak; no other type produces a line |
| `Portrait.SomeOfFamily` | app/public/src/pages/component/synergy/synergy-detail-component.tsx:174 | `some` holds iff some entry of the whole board, bench included, has the given family |
| `Portrait.IsOnTeam` | app/public/src/pages/component/synergy/synergy-detail-component.tsx:174 | false without a player; otherwise true iff some board entry's family is the portrait's unit |
| `Portrait.IsOnTeamAfterAdding` | app/public/src/pages/component/synergy/synergy-detail-component.tsx:174 | adding an entry of family p, benched or not, marks p acquired; adding an entry of another family changes nothing |
| `Portrait.IsOnTeamOnlyForRoots` | app/public/src/pages/component/synergy/synergy-detail-component.tsx:174 | when families are their own roots, a non-root unit is never marked acquired, and a root is marked iff a unit of its family is on the board |

## Left out

- Rendering: the JSX, styles, colours, portraits, icons and effect descriptions are UI only.
- Translation: `t` and `addIconsToDescription` are not modelled. The description line is modelled as its translation key (a constructor of `AdditionalInfo`) plus the interpolated number.
- Store access: `useAppSelector` and the Redux state are not modelled. The unlocked families, the stage level and the current player are parameters.
- Precomputed tables: `PRECOMPUTED_POKEMONS_PER_TYPE_AND_CATEGORY`, `getPokemonData`, `PkmFamily`, `SynergyTriggers`, `RarityCost` and `PVEStages` are not part of this model. They are given as parameters (sequences, total functions and a set). The enumerations `Pkm`, `Synergy` and `Rarity` are modelled as strings.
- `isOnBench` is not part of this model. Its answer is the `benched` flag of a board entry.
- `max` from utils/number is not part of this model. Its use at line 98 is taken to be a cap at 100 (`Cap100`).
- The `BattleResult` enumeration is not part of this model. It is modelled as `Win | Defeat | Draw`, and only `Defeat` is distinguished.
- The count of distinct families per type (`props.value`) is computed outside this component. It is an integer input. The aggregation over the board and the activation of effects are not modelled.
- Numbers are unbounded integers. JavaScript's floating-point numbers, `NaN` and fractional counts are not modelled.
- Catalog.SortByCost: modelled as a stable insertion sort, like `Array.prototype.sort`. The contract states ordering and permutation, but not stability.
- Catalog.Regulars: `.map(getPokemonData)` loses the unit, so family uniqueness is stated for the deduplicated unit list rather than for the records.

