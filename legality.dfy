/** The legality checker `possible`: four checks in a fixed order, the first
    failure deciding the diagnosis. */
module Legality {
  import opened Grid

  /** The diagnosis `possible` hands to `erreurs` before returning false. */
  datatype Rejection =
    | DuplicateInRow      // VALEUR_EXISTE_LIGNE
    | DuplicateInColumn   // VALEUR_EXISTE_COLONNE
    | DuplicateInBlock    // VALEUR_EXISTE_BLOC
    | GivenCell           // CASE_DE_BASE

  datatype Verdict = Accept | Reject(reason: Rejection)

  /** `v` occurs somewhere in row `r`. */
  ghost predicate InRow(g: Board, r: int, v: int)
    requires IsBoard(g) && InRange(r)
  {
    exists j :: InRange(j) && g[r][j] == v
  }

  /** `v` occurs somewhere in column `c`. */
  ghost predicate InColumn(g: Board, c: int, v: int)
    requires IsBoard(g) && InRange(c)
  {
    exists i :: InRange(i) && g[i][c] == v
  }

  /** `v` occurs somewhere in the 3x3 block holding (r, c). */
  ghost predicate InBlock(g: Board, r: int, c: int, v: int)
    requires IsBoard(g) && InRange(r) && InRange(c)
  {
    exists i, j :: InRange(i) && InRange(j) && SameBlock(r, c, i, j) && g[i][j] == v
  }

  /** What `possible` decides for writing `v` at (r, c): a duplicate in the
      row, then in the column, then in the block, then a given cell of the
      base board; otherwise the move is accepted. */
  ghost function Ruling(g: Board, base: Board, r: int, c: int, v: int): Verdict
    requires IsBoard(g) && IsBoard(base) && InRange(r) && InRange(c)
  {
    if InRow(g, r, v) then Reject(DuplicateInRow)
    else if InColumn(g, c, v) then Reject(DuplicateInColumn)
    else if InBlock(g, r, c, v) then Reject(DuplicateInBlock)
    else if base[r][c] != 0 then Reject(GivenCell)
    else Accept
  }

  /** `possible(grille, numLigne, numColonne, valeur, grilleDefault)`. The
      block is scanned from `(numLigne / 3) * 3` and `(numColonne / 3) * 3`.
      Neither board is modified. */
  method Possible(grille: array2<int>, numLigne: int, numColonne: int, valeur: int,
                  grilleDefault: array2<int>) returns (ok: bool, verdict: Verdict)
    requires Dims(grille) && Dims(grilleDefault)
    requires InRange(numLigne) && InRange(numColonne)
    ensures verdict == Ruling(Cells(grille), Cells(grilleDefault), numLigne, numColonne, valeur)
    ensures ok <==> verdict == Accept
  {
    ghost var g := Cells(grille);

    // the row
    for colonne := 0 to BLOC
      invariant forall j :: 0 <= j < colonne ==> grille[numLigne, j] != valeur
    {
      if grille[numLigne, colonne] == valeur {
        assert g[numLigne][colonne] == valeur;
        return false, Reject(DuplicateInRow);
      }
    }
    assert !InRow(g, numLigne, valeur);

    // the column
    for ligne := 0 to BLOC
      invariant forall i :: 0 <= i < ligne ==> grille[i, numColonne] != valeur
    {
      if grille[ligne, numColonne] == valeur {
        assert g[ligne][numColonne] == valeur;
        return false, Reject(DuplicateInColumn);
      }
    }
    assert !InColumn(g, numColonne, valeur);

    // the 3x3 block
    var debutBlocLigne := (numLigne / TAILLE) * TAILLE;
    var debutBlocColonne := (numColonne / TAILLE) * TAILLE;
    BlockStartBounds(numLigne);
    BlockStartBounds(numColonne);
    for ligne := debutBlocLigne to debutBlocLigne + TAILLE
      invariant forall i, j :: (debutBlocLigne <= i < ligne && debutBlocColonne <= j < debutBlocColonne + TAILLE
                                ==> grille[i, j] != valeur)
    {
      for colonne := debutBlocColonne to debutBlocColonne + TAILLE
        invariant forall i, j :: (debutBlocLigne <= i < ligne && debutBlocColonne <= j < debutBlocColonne + TAILLE
                                  ==> grille[i, j] != valeur)
        invariant forall j :: debutBlocColonne <= j < colonne ==> grille[ligne, j] != valeur
      {
        if grille[ligne, colonne] == valeur {
          BlockMembership(numLigne, ligne);
          BlockMembership(numColonne, colonne);
          assert SameBlock(numLigne, numColonne, ligne, colonne) && g[ligne][colonne] == valeur;
          return false, Reject(DuplicateInBlock);
        }
      }
    }
    BlockScanCovers(g, numLigne, numColonne, valeur);
    assert !InBlock(g, numLigne, numColonne, valeur);

    // the given cell
    if grilleDefault[numLigne, numColonne] != 0 {
      return false, Reject(GivenCell);
    }
    return true, Accept;
  }

  /** Scanning rows and columns from the block starts covers the whole block
      of (r, c). */
  lemma BlockScanCovers(g: Board, r: int, c: int, v: int)
    requires IsBoard(g) && InRange(r) && InRange(c)
    requires forall i, j :: BlockStart(r) <= i < BlockStart(r) + TAILLE && BlockStart(c) <= j < BlockStart(c) + TAILLE
                            ==> g[i][j] != v
    ensures !InBlock(g, r, c, v)
  {
  }

  /** The four checks in their order, as an exact characterisation: each
      diagnosis is reported exactly when its own check fails and every
      earlier check passed; acceptance needs all four to pass. */
  lemma RulingOrder(g: Board, base: Board, r: int, c: int, v: int)
    requires IsBoard(g) && IsBoard(base) && InRange(r) && InRange(c)
    ensures Ruling(g, base, r, c, v) == Reject(DuplicateInRow) <==> InRow(g, r, v)
    ensures Ruling(g, base, r, c, v) == Reject(DuplicateInColumn) <==> !InRow(g, r, v) && InColumn(g, c, v)
    ensures Ruling(g, base, r, c, v) == Reject(DuplicateInBlock)
            <==> !InRow(g, r, v) && !InColumn(g, c, v) && InBlock(g, r, c, v)
    ensures Ruling(g, base, r, c, v) == Reject(GivenCell)
            <==> !InRow(g, r, v) && !InColumn(g, c, v) && !InBlock(g, r, c, v) && base[r][c] != 0
    ensures Ruling(g, base, r, c, v) == Accept
            <==> !InRow(g, r, v) && !InColumn(g, c, v) && !InBlock(g, r, c, v) && base[r][c] == 0
  {
  }

  /** A rejection for a duplicate names a cell that really holds `v`: in the
      row, in the column, or in the block of (r, c). */
  lemma DuplicateHasWitness(g: Board, base: Board, r: int, c: int, v: int)
    requires IsBoard(g) && IsBoard(base) && InRange(r) && InRange(c)
    ensures Ruling(g, base, r, c, v) == Reject(DuplicateInRow) ==>
      exists j :: InRange(j) && g[r][j] == v
    ensures Ruling(g, base, r, c, v) == Reject(DuplicateInColumn) ==>
      (forall j :: InRange(j) ==> g[r][j] != v) && exists i :: InRange(i) && g[i][c] == v
    ensures Ruling(g, base, r, c, v) == Reject(DuplicateInBlock) ==>
      (forall j :: InRange(j) ==> g[r][j] != v) && (forall i :: InRange(i) ==> g[i][c] != v) &&
      exists i, j :: BlockStart(r) <= i < BlockStart(r) + TAILLE &&
                     BlockStart(c) <= j < BlockStart(c) + TAILLE && g[i][j] == v
  {
  }

  /** Acceptance leaves room for `v` everywhere the rules look: no cell of
      the row, the column or the block holds it, and the base cell is empty. */
  lemma AcceptedMeansAbsent(g: Board, base: Board, r: int, c: int, v: int)
    requires IsBoard(g) && IsBoard(base) && InRange(r) && InRange(c)
    requires Ruling(g, base, r, c, v) == Accept
    ensures base[r][c] == 0 && g[r][c] != v
    ensures forall j :: InRange(j) ==> g[r][j] != v
    ensures forall i :: InRange(i) ==> g[i][c] != v
    ensures forall i, j :: InRange(i) && InRange(j) && SameBlock(r, c, i, j) ==> g[i][j] != v
  {
  }

  /** Writing the value a cell already holds is always a row duplicate, since
      the row scan includes the cell itself. */
  lemma SameValueIsRowDuplicate(g: Board, base: Board, r: int, c: int)
    requires IsBoard(g) && IsBoard(base) && InRange(r) && InRange(c)
    ensures Ruling(g, base, r, c, g[r][c]) == Reject(DuplicateInRow)
  {
  }

  /** Given-cell protection runs last: writing a given cell's own value back
      onto it is reported as a row duplicate, and `GivenCell` is only ever
      reported for a value that the row, column and block do not hold. */
  lemma GivenCheckIsLast(g: Board, base: Board, r: int, c: int, v: int)
    requires IsBoard(g) && IsBoard(base) && Descends(g, base) && InRange(r) && InRange(c)
    ensures base[r][c] != 0 ==> Ruling(g, base, r, c, base[r][c]) == Reject(DuplicateInRow)
    ensures Ruling(g, base, r, c, v) == Reject(GivenCell) ==>
      base[r][c] != 0 && v != base[r][c] && !InRow(g, r, v) && !InColumn(g, c, v) && !InBlock(g, r, c, v)
  {
  }
}
