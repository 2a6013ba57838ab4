/** The grid store: `copieGrille` and `grilleEstPleine`, which work on the
    `tGrille` arrays in place. */
module GridStore {
  import opened Grid

  /** `copieGrille(grilleDeBase, grille)`: copies the base board into the
      working board cell by cell; the base board is left as it was. */
  method CopyGrid(grilleDeBase: array2<int>, grille: array2<int>)
    requires Dims(grilleDeBase) && Dims(grille)
    modifies grille
    ensures forall i, j :: InRange(i) && InRange(j) ==> grille[i, j] == grilleDeBase[i, j]
    ensures forall i, j :: InRange(i) && InRange(j) ==> grilleDeBase[i, j] == old(grilleDeBase[i, j])
    ensures Cells(grille) == Cells(grilleDeBase) == old(Cells(grilleDeBase))
  {
    for ligne := 0 to BLOC
      invariant forall i, j :: InRange(i) && InRange(j) ==> grilleDeBase[i, j] == old(grilleDeBase[i, j])
      invariant forall i, j :: 0 <= i < ligne && InRange(j) ==> grille[i, j] == grilleDeBase[i, j]
    {
      for colonne := 0 to BLOC
        invariant forall i, j :: InRange(i) && InRange(j) ==> grilleDeBase[i, j] == old(grilleDeBase[i, j])
        invariant forall i, j :: 0 <= i < ligne && InRange(j) ==> grille[i, j] == grilleDeBase[i, j]
        invariant forall j :: 0 <= j < colonne ==> grille[ligne, j] == grilleDeBase[ligne, j]
      {
        grille[ligne, colonne] := grilleDeBase[ligne, colonne];
      }
    }
    BoardExt(Cells(grille), Cells(grilleDeBase));
    BoardExt(Cells(grilleDeBase), old(Cells(grilleDeBase)));
  }

  /** `grilleEstPleine(grille)`: scans row by row and stops at the first
      empty cell; true exactly when no cell holds 0. */
  method IsFull(grille: array2<int>) returns (full: bool)
    requires Dims(grille)
    ensures full <==> forall i, j :: InRange(i) && InRange(j) ==> grille[i, j] != 0
    ensures full == Full(Cells(grille))
  {
    for ligne := 0 to BLOC
      invariant forall i, j :: 0 <= i < ligne && InRange(j) ==> grille[i, j] != 0
    {
      for colonne := 0 to BLOC
        invariant forall i, j :: 0 <= i < ligne && InRange(j) ==> grille[i, j] != 0
        invariant forall j :: 0 <= j < colonne ==> grille[ligne, j] != 0
      {
        if grille[ligne, colonne] == 0 {
          return false;
        }
      }
    }
    return true;
  }

  /** A single empty cell anywhere makes the board not full. */
  lemma OneEmptyCellNotFull(g: Board, r: int, c: int)
    requires IsBoard(g) && InRange(r) && InRange(c) && g[r][c] == 0
    ensures !Full(g)
  {
  }
}
