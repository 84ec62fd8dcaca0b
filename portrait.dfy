/** The "acquired" mark on a catalog portrait. */
module Portrait {
  import opened Types

  /** `board.some((x) => family[x.name] === p)`, over the whole board,
      bench included. */
  function SomeOfFamily(board: seq<BoardEntry>, family: FamilyTable, p: Pkm): (r: bool)
    ensures r <==> exists i | 0 <= i < |board| :: family(board[i].name) == p
  {
    if board == [] then false
    else family(board[0].name) == p || SomeOfFamily(board[1..], family, p)
  }

  /** `isOnTeam(p)`: false without a player; otherwise whether some board
      entry belongs to the family named `p`. The unit `p` itself is
      compared, not its family. */
  function IsOnTeam(player: Option<Player>, family: FamilyTable, p: Pkm): (r: bool)
    ensures player.None? ==> !r
    ensures player.Some? ==>
              (r <==> exists i | 0 <= i < |player.value.board| :: family(player.value.board[i].name) == p)
  {
    player.Some? && SomeOfFamily(player.value.board, family, p)
  }

  /** Benched entries count: adding an entry of family `p` marks `p`
      acquired whether or not the entry is on the bench, and adding an
      entry of another family changes nothing. */
  lemma IsOnTeamAfterAdding(pl: Player, e: BoardEntry, family: FamilyTable, p: Pkm)
    ensures family(e.name) == p ==>
              IsOnTeam(Some(pl.(board := pl.board + [e])), family, p)
    ensures family(e.name) != p ==>
              IsOnTeam(Some(pl.(board := pl.board + [e])), family, p) == IsOnTeam(Some(pl), family, p)
  {
    var b := pl.board + [e];
    assert b[|pl.board|] == e;
    if family(e.name) != p {
      assert forall i | 0 <= i < |pl.board| :: b[i] == pl.board[i];
    }
  }

  /** When families are their own roots, a portrait of a unit that is not
      a family root is never marked acquired, even with that very unit on
      the board; for a root it is marked exactly when a unit of its family
      is on the board. */
  lemma IsOnTeamOnlyForRoots(player: Option<Player>, family: FamilyTable, p: Pkm)
    requires forall u :: family(family(u)) == family(u)
    ensures family(p) != p ==> !IsOnTeam(player, family, p)
    ensures family(p) == p && player.Some? ==>
              (IsOnTeam(player, family, p) <==>
                 exists i | 0 <= i < |player.value.board| ::
                   family(player.value.board[i].name) == family(p))
  {
  }
}
