/** The colour rule of `afficherGrille`: each cell is shown as empty, as a
    given cell of the base board, or as a value the player entered. */
module Display {
  import opened Grid

  datatype CellClass =
    | Empty     // shown as "."
    | Given     // shown in red
    | Entered   // shown in blue

  /** The tests in their order: 0 first, then equality with the base cell. */
  function Classify(cell: int, baseCell: int): (k: CellClass)
    ensures k == Empty <==> cell == 0
    ensures k != Empty ==> (k == Given <==> cell == baseCell)
  {
    if cell == 0 then Empty
    else if cell == baseCell then Given
    else Entered
  }

  /** On a board that descends from its base board the colours mean what
      they are meant to: a cell is shown as given exactly when the base cell
      is nonzero, as entered exactly when the player filled an empty base
      cell, and as empty exactly when it holds 0. */
  lemma ClassifyDescendant(g: Board, base: Board, i: int, j: int)
    requires IsBoard(g) && IsBoard(base) && Descends(g, base) && InRange(i) && InRange(j)
    ensures Classify(g[i][j], base[i][j]) == Given <==> base[i][j] != 0
    ensures Classify(g[i][j], base[i][j]) == Entered <==> base[i][j] == 0 && g[i][j] != 0
    ensures Classify(g[i][j], base[i][j]) == Empty <==> g[i][j] == 0
  {
  }
}
