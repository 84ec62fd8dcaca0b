/** Shared vocabulary of the synergy detail view: unit names, synergy
    types, catalog records, board entries and the player snapshot. */
module Types {

  datatype Option<T> = None | Some(value: T)

  /** `a` is `b` with some elements dropped and the rest in order. */
  ghost predicate IsSubsequence<T>(a: seq<T>, b: seq<T>)
    decreases |b|
  {
    if a == [] then true
    else if b == [] then false
    else (a[0] == b[0] && IsSubsequence(a[1..], b[1..])) || IsSubsequence(a, b[1..])
  }

  /** A unit identifier (the `Pkm` string enum). */
  type Pkm = string

  /** A synergy type (the `Synergy` string enum). */
  type Synergy = string

  const WILD: Synergy := "WILD"
  const BABY: Synergy := "BABY"

  /** A rarity tier; the cost of each tier is given by a `RarityCost` table. */
  type Rarity = string

  /** The `PkmFamily` table: the family (itself a unit) of every unit. */
  type FamilyTable = Pkm -> Pkm

  /** The catalog record returned by `getPokemonData`. */
  datatype PokemonData = PokemonData(
    name: Pkm,
    rarity: Rarity,
    index: string,
    additional: bool,
    regional: bool)

  /** A unit placed on a player's board; `benched` is what `isOnBench`
      says of the entry. */
  datatype BoardEntry = BoardEntry(
    name: Pkm,
    types: set<Synergy>,
    stars: int,
    benched: bool)

  datatype BattleResult = Win | Defeat | Draw

  datatype HistoryItem = HistoryItem(result: BattleResult)

  /** The part of a player the view reads: the board in `values(board)`
      order, the battle history (oldest first) and the current streak. */
  datatype Player = Player(
    board: seq<BoardEntry>,
    history: seq<HistoryItem>,
    streak: int)
}
