/** The 9x9 Sudoku board (`tGrille`): its dimensions, the pure view of a
    board as a sequence of rows, and the predicates the game keeps. */
module Grid {

  /** Side of a block (`TAILLE`). */
  const TAILLE: int := 3
  /** Side of the board and largest cell value (`BLOC`). */
  const BLOC: int := TAILLE * TAILLE
  /** Smallest value a player may enter (`TAILLE_MIN`). */
  const TAILLE_MIN: int := 1

  /** A board as values: row-major, 0 stands for an empty cell. */
  type Board = seq<seq<int>>

  predicate IsBoard(g: Board) {
    |g| == BLOC && forall i :: 0 <= i < |g| ==> |g[i]| == BLOC
  }

  predicate InRange(i: int) {
    0 <= i < BLOC
  }

  /** The shape of a `tGrille` array. */
  predicate Dims(a: array2<int>) {
    a.Length0 == BLOC && a.Length1 == BLOC
  }

  /** The current contents of a `tGrille` array, as a value. */
  ghost function Cells(a: array2<int>): (g: Board)
    reads a
    requires Dims(a)
    ensures IsBoard(g)
    ensures forall i, j :: InRange(i) && InRange(j) ==> g[i][j] == a[i, j]
  {
    seq(BLOC, i requires 0 <= i < BLOC reads a =>
      seq(BLOC, j requires 0 <= j < BLOC reads a => a[i, j]))
  }

  /** Two boards are equal as soon as they agree on every cell. */
  lemma BoardExt(g: Board, h: Board)
    requires IsBoard(g) && IsBoard(h)
    requires forall i, j :: InRange(i) && InRange(j) ==> g[i][j] == h[i][j]
    ensures g == h
  {
    forall i | 0 <= i < BLOC
      ensures g[i] == h[i]
    {
      assert InRange(i) && |g[i]| == |h[i]| == BLOC;
      forall j | 0 <= j < BLOC
        ensures g[i][j] == h[i][j]
      {
        assert InRange(j);
      }
    }
  }

  /** `grilleEstPleine`'s specification: no cell holds 0. */
  ghost predicate Full(g: Board)
    requires IsBoard(g)
  {
    forall i, j :: InRange(i) && InRange(j) ==> g[i][j] != 0
  }

  /** The board after `grille[r][c] = v`. */
  function Place(g: Board, r: int, c: int, v: int): (h: Board)
    requires IsBoard(g) && InRange(r) && InRange(c)
    ensures IsBoard(h)
    ensures h[r][c] == v
    ensures forall i, j :: InRange(i) && InRange(j) && (i != r || j != c) ==> h[i][j] == g[i][j]
  {
    g[r := g[r][c := v]]
  }

  /** First row (or column) of the block holding row (or column) `i`:
      `(i / TAILLE) * TAILLE`. */
  function BlockStart(i: int): int {
    (i / TAILLE) * TAILLE
  }

  /** The block start is a multiple of 3 at most `i`, the block covers `i`,
      and it lies inside the board. */
  lemma BlockStartBounds(i: int)
    requires InRange(i)
    ensures BlockStart(i) % TAILLE == 0
    ensures BlockStart(i) <= i < BlockStart(i) + TAILLE
    ensures 0 <= BlockStart(i) && BlockStart(i) + TAILLE <= BLOC
  {
  }

  /** Index `k` lies in the block scanned for `i` exactly when both have the
      same block number. */
  lemma BlockMembership(i: int, k: int)
    requires InRange(i) && InRange(k)
    ensures (BlockStart(i) <= k < BlockStart(i) + TAILLE) <==> k / TAILLE == i / TAILLE
  {
  }

  predicate SameBlock(r1: int, c1: int, r2: int, c2: int) {
    r1 / TAILLE == r2 / TAILLE && c1 / TAILLE == c2 / TAILLE
  }

  /** No nonzero value repeats in any row. */
  ghost predicate RowsDistinct(g: Board)
    requires IsBoard(g)
  {
    forall r, c1, c2 :: InRange(r) && InRange(c1) && InRange(c2) && c1 != c2 && g[r][c1] != 0
      ==> g[r][c1] != g[r][c2]
  }

  /** No nonzero value repeats in any column. */
  ghost predicate ColumnsDistinct(g: Board)
    requires IsBoard(g)
  {
    forall c, r1, r2 :: InRange(c) && InRange(r1) && InRange(r2) && r1 != r2 && g[r1][c] != 0
      ==> g[r1][c] != g[r2][c]
  }

  /** No nonzero value repeats in any 3x3 block. */
  ghost predicate BlocksDistinct(g: Board)
    requires IsBoard(g)
  {
    forall r1, c1, r2, c2 ::
      InRange(r1) && InRange(c1) && InRange(r2) && InRange(c2) &&
      SameBlock(r1, c1, r2, c2) && (r1 != r2 || c1 != c2) && g[r1][c1] != 0
      ==> g[r1][c1] != g[r2][c2]
  }

  /** The Sudoku uniqueness rules hold for every value placed so far. */
  ghost predicate Consistent(g: Board)
    requires IsBoard(g)
  {
    RowsDistinct(g) && ColumnsDistinct(g) && BlocksDistinct(g)
  }

  /** The working board descends from the base board: every cell still holds
      its base value, or the base cell was empty and the player wrote a value
      in [TAILLE_MIN, BLOC] there. */
  ghost predicate Descends(g: Board, base: Board)
    requires IsBoard(g) && IsBoard(base)
  {
    forall i, j :: InRange(i) && InRange(j) ==>
      g[i][j] == base[i][j] || (base[i][j] == 0 && TAILLE_MIN <= g[i][j] <= BLOC)
  }

  /** Under `Descends`, a given cell (nonzero in the base) keeps its base value. */
  lemma DescendsKeepsGivens(g: Board, base: Board, i: int, j: int)
    requires IsBoard(g) && IsBoard(base) && Descends(g, base)
    requires InRange(i) && InRange(j) && base[i][j] != 0
    ensures g[i][j] == base[i][j]
  {
  }
}
