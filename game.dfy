/** The play loop of `main`: while the working board is not full, read a row,
    a column and a value with `saisir`, and write the value when `possible`
    accepts it. */
module Game {
  import opened Grid
  import opened GridStore
  import opened Legality
  import opened Input

  // ---------------------------------------------------------------------
  // One move

  /** The working board after a move: written at (r, c) exactly when the
      legality checker accepts, left as it was otherwise. */
  ghost function Step(g: Board, base: Board, r: int, c: int, v: int): (h: Board)
    requires IsBoard(g) && IsBoard(base) && InRange(r) && InRange(c)
    ensures IsBoard(h)
  {
    if Ruling(g, base, r, c, v) == Accept then Place(g, r, c, v) else g
  }

  /** `if (possible(...)) grille[numLigne][numColonne] = valeur;`. The base
      board is a different array and is not touched. */
  method ApplyMove(grille: array2<int>, grilleDeBase: array2<int>, numLigne: int, numColonne: int, valeur: int)
    requires Dims(grille) && Dims(grilleDeBase) && grille != grilleDeBase
    requires InRange(numLigne) && InRange(numColonne)
    modifies grille
    ensures Cells(grille) == Step(old(Cells(grille)), Cells(grilleDeBase), numLigne, numColonne, valeur)
  {
    ghost var g := Cells(grille);
    var ok, verdict := Possible(grille, numLigne, numColonne, valeur, grilleDeBase);
    if ok {
      grille[numLigne, numColonne] := valeur;
      BoardExt(Cells(grille), Place(g, numLigne, numColonne, valeur));
    }
  }

  /** A move changes cell (r, c) only, and that one only when accepted. */
  lemma StepFrame(g: Board, base: Board, r: int, c: int, v: int)
    requires IsBoard(g) && IsBoard(base) && InRange(r) && InRange(c)
    ensures forall i, j :: InRange(i) && InRange(j) && (i != r || j != c) ==> Step(g, base, r, c, v)[i][j] == g[i][j]
    ensures Step(g, base, r, c, v)[r][c] == if Ruling(g, base, r, c, v) == Accept then v else g[r][c]
    ensures Ruling(g, base, r, c, v) != Accept ==> Step(g, base, r, c, v) == g
  {
  }

  /** Given cells keep their base value, and the cells the player writes hold
      values in [TAILLE_MIN, BLOC], as long as the value read is in range. */
  lemma StepKeepsDescends(g: Board, base: Board, r: int, c: int, v: int)
    requires IsBoard(g) && IsBoard(base) && InRange(r) && InRange(c)
    requires Descends(g, base) && TAILLE_MIN <= v <= BLOC
    ensures Descends(Step(g, base, r, c, v), base)
  {
  }

  /** If no nonzero value repeats in any row, column or block before a move,
      none repeats after it. */
  lemma StepKeepsConsistent(g: Board, base: Board, r: int, c: int, v: int)
    requires IsBoard(g) && IsBoard(base) && InRange(r) && InRange(c)
    requires Consistent(g)
    ensures Consistent(Step(g, base, r, c, v))
  {
    if Ruling(g, base, r, c, v) == Accept {
      AcceptedMeansAbsent(g, base, r, c, v);
      PlaceKeepsRows(g, r, c, v);
      PlaceKeepsColumns(g, r, c, v);
      PlaceKeepsBlocks(g, r, c, v);
    }
  }

  lemma PlaceKeepsRows(g: Board, r: int, c: int, v: int)
    requires IsBoard(g) && InRange(r) && InRange(c) && RowsDistinct(g)
    requires forall j :: InRange(j) ==> g[r][j] != v
    ensures RowsDistinct(Place(g, r, c, v))
  {
  }

  lemma PlaceKeepsColumns(g: Board, r: int, c: int, v: int)
    requires IsBoard(g) && InRange(r) && InRange(c) && ColumnsDistinct(g)
    requires forall i :: InRange(i) ==> g[i][c] != v
    ensures ColumnsDistinct(Place(g, r, c, v))
  {
  }

  lemma PlaceKeepsBlocks(g: Board, r: int, c: int, v: int)
    requires IsBoard(g) && InRange(r) && InRange(c) && BlocksDistinct(g)
    requires forall i, j :: InRange(i) && InRange(j) && SameBlock(r, c, i, j) ==> g[i][j] != v
    ensures BlocksDistinct(Place(g, r, c, v))
  {
    var h := Place(g, r, c, v);
    forall r1, c1, r2, c2 |
      InRange(r1) && InRange(c1) && InRange(r2) && InRange(c2) &&
      SameBlock(r1, c1, r2, c2) && (r1 != r2 || c1 != c2) && h[r1][c1] != 0
      ensures h[r1][c1] != h[r2][c2]
    {
      if r1 == r && c1 == c {
        assert h[r2][c2] == g[r2][c2];
      } else if r2 == r && c2 == c {
        assert SameBlock(r, c, r1, c1);
        assert h[r1][c1] == g[r1][c1];
      }
    }
  }

  /** Once a value is accepted in a row, the same value anywhere else in that
      row is refused as a row duplicate. */
  lemma AcceptedValueBlocksRow(g: Board, base: Board, r: int, c: int, c': int, v: int)
    requires IsBoard(g) && IsBoard(base) && InRange(r) && InRange(c) && InRange(c')
    requires Ruling(g, base, r, c, v) == Accept
    ensures Ruling(Step(g, base, r, c, v), base, r, c', v) == Reject(DuplicateInRow)
  {
  }

  /** On an empty base board, 5 at (1, 1) is accepted and then 5 at (1, 4)
      is refused as a row duplicate. */
  lemma ScenarioRowDuplicate(base: Board)
    requires IsBoard(base) && forall i, j :: InRange(i) && InRange(j) ==> base[i][j] == 0
    ensures Ruling(base, base, 0, 0, 5) == Accept
    ensures Ruling(Step(base, base, 0, 0, 5), base, 0, 3, 5) == Reject(DuplicateInRow)
  {
    assert !InRow(base, 0, 5) && !InColumn(base, 0, 5) && !InBlock(base, 0, 0, 5);
    assert InRange(0) && base[0][0] == 0;
    RulingOrder(base, base, 0, 0, 5);
    AcceptedValueBlocksRow(base, base, 0, 0, 3, 5);
  }

  /** A board whose only empty cell is (r, c) is full after an accepted move
      there. */
  lemma LastMoveFills(g: Board, base: Board, r: int, c: int, v: int)
    requires IsBoard(g) && IsBoard(base) && InRange(r) && InRange(c)
    requires forall i, j :: InRange(i) && InRange(j) && (i != r || j != c) ==> g[i][j] != 0
    requires Ruling(g, base, r, c, v) == Accept && v != 0
    ensures Full(Step(g, base, r, c, v))
  {
  }

  // ---------------------------------------------------------------------
  // The play loop

  /** The three variables `numLigne`, `numColonne` and `valeur` of `main`.
      They keep their values from one turn to the next, and `saisir` tests
      the old value again when a line is blank. */
  datatype Registers = Registers(numLigne: int, numColonne: int, valeur: int)

  /** The three readings of one turn: the registers after them and the
      input left, or the registers as they stand when a `saisir` waits for
      input for ever. */
  datatype MoveRead = Read(regs: Registers, rest: seq<char>) | Stalled(regs: Registers)

  /** `saisir(&numLigne); numLigne--;`, the same for the column, then
      `saisir(&valeur)`. Each `saisir` starts from the register's old value. */
  function ReadMove(input: seq<char>, regs: Registers): (m: MoveRead)
    ensures m.Read? ==> |m.rest| < |input|
    ensures m.Read? ==> InRange(m.regs.numLigne) && InRange(m.regs.numColonne)
                        && TAILLE_MIN <= m.regs.valeur <= BLOC
  {
    var r1 := ReadBounded(input, regs.numLigne);
    if r1.value.None? then Stalled(regs)
    else
      var numLigne := r1.value.value - 1;
      var r2 := ReadBounded(r1.rest, regs.numColonne);
      if r2.value.None? then Stalled(regs.(numLigne := numLigne))
      else
        var numColonne := r2.value.value - 1;
        var r3 := ReadBounded(r2.rest, regs.valeur);
        if r3.value.None? then Stalled(Registers(numLigne, numColonne, regs.valeur))
        else Read(Registers(numLigne, numColonne, r3.value.value), r3.rest)
  }

  /** The three `saisir` calls of one turn, with the row and the column
      brought from [1, 9] down to [0, 8]. */
  method ReadTurn(input: seq<char>, regs: Registers) returns (m: MoveRead)
    ensures m == ReadMove(input, regs)
  {
    var numLigne, numColonne, valeur := regs.numLigne, regs.numColonne, regs.valeur;
    var v1, rest1, _ := Saisir(input, numLigne);
    if v1.None? {
      return Stalled(Registers(numLigne, numColonne, valeur));
    }
    numLigne := v1.value - 1;
    var v2, rest2, _ := Saisir(rest1, numColonne);
    if v2.None? {
      return Stalled(Registers(numLigne, numColonne, valeur));
    }
    numColonne := v2.value - 1;
    var v3, rest3, _ := Saisir(rest2, valeur);
    if v3.None? {
      return Stalled(Registers(numLigne, numColonne, valeur));
    }
    valeur := v3.value;
    return Read(Registers(numLigne, numColonne, valeur), rest3);
  }

  /** Where the play loop stands when it stops: the board, whether the loop
      ended because the board is full (otherwise a `saisir` waits for input
      for ever), the input left and the registers. */
  datatype Session = Session(board: Board, finished: bool, rest: seq<char>, regs: Registers)

  /** The `while (!grilleEstPleine(grille))` loop as a function of the board,
      the base board, the input and the registers: each turn reads a move and
      makes it. */
  ghost function Play(g: Board, base: Board, input: seq<char>, regs: Registers): (s: Session)
    requires IsBoard(g) && IsBoard(base)
    ensures IsBoard(s.board)
    ensures s.finished ==> Full(s.board)
    ensures !s.finished ==> s.rest == []
    decreases |input|
  {
    if Full(g) then Session(g, true, input, regs)
    else
      match ReadMove(input, regs)
      case Stalled(regs') => Session(g, false, [], regs')
      case Read(regs', rest) =>
        Play(Step(g, base, regs'.numLigne, regs'.numColonne, regs'.valeur), base, rest, regs')
  }

  /** `main`'s play loop on the two arrays: the board ends as `Play` says,
      and the base board is not modified. */
  method PlayLoop(grille: array2<int>, grilleDeBase: array2<int>, input: seq<char>, regs: Registers)
    returns (finished: bool, rest: seq<char>, regsOut: Registers)
    requires Dims(grille) && Dims(grilleDeBase) && grille != grilleDeBase
    modifies grille
    ensures Session(Cells(grille), finished, rest, regsOut) == Play(old(Cells(grille)), Cells(grilleDeBase), input, regs)
  {
    var numLigne, numColonne, valeur := regs.numLigne, regs.numColonne, regs.valeur;
    var cur := input;
    var full := IsFull(grille);
    while !full
      invariant Play(old(Cells(grille)), Cells(grilleDeBase), input, regs)
                == Play(Cells(grille), Cells(grilleDeBase), cur, Registers(numLigne, numColonne, valeur))
      invariant full == Full(Cells(grille))
      decreases |cur|
    {
      var m := ReadTurn(cur, Registers(numLigne, numColonne, valeur));
      if m.Stalled? {
        return false, [], m.regs;
      }
      numLigne, numColonne, valeur := m.regs.numLigne, m.regs.numColonne, m.regs.valeur;
      ApplyMove(grille, grilleDeBase, numLigne, numColonne, valeur);
      cur := m.rest;
      full := IsFull(grille);
    }
    return true, cur, Registers(numLigne, numColonne, valeur);
  }

  /** What the play loop keeps: given cells keep their base value, every cell
      the player filled holds a value in [TAILLE_MIN, BLOC], no nonzero value
      repeats if none did at the start, and the loop only ends on a full
      board. */
  lemma {:induction false} PlayInvariants(g: Board, base: Board, input: seq<char>, regs: Registers)
    requires IsBoard(g) && IsBoard(base) && Descends(g, base)
    ensures Descends(Play(g, base, input, regs).board, base)
    ensures Consistent(g) ==> Consistent(Play(g, base, input, regs).board)
    ensures Play(g, base, input, regs).finished ==> Full(Play(g, base, input, regs).board)
    decreases |input|
  {
    if !Full(g) && ReadMove(input, regs).Read? {
      var m := ReadMove(input, regs);
      var r := m.regs;
      StepKeepsDescends(g, base, r.numLigne, r.numColonne, r.valeur);
      if Consistent(g) {
        StepKeepsConsistent(g, base, r.numLigne, r.numColonne, r.valeur);
      }
      PlayInvariants(Step(g, base, r.numLigne, r.numColonne, r.valeur), base, m.rest, r);
    }
  }

  /** One round of `main`: the working board is copied from the base board,
      then the play loop runs. The registers start with whatever the caller
      passes, as the C variables are not initialised. */
  method Round(grilleDeBase: array2<int>, grille: array2<int>, input: seq<char>, regs: Registers)
    returns (finished: bool, rest: seq<char>, regsOut: Registers)
    requires Dims(grille) && Dims(grilleDeBase) && grille != grilleDeBase
    modifies grille
    ensures Session(Cells(grille), finished, rest, regsOut) == Play(Cells(grilleDeBase), Cells(grilleDeBase), input, regs)
    ensures Descends(Cells(grille), Cells(grilleDeBase))
    ensures finished ==> Full(Cells(grille))
  {
    CopyGrid(grilleDeBase, grille);
    ghost var base := Cells(grilleDeBase);
    PlayInvariants(base, base, input, regs);
    finished, rest, regsOut := PlayLoop(grille, grilleDeBase, input, regs);
  }

  // ---------------------------------------------------------------------
  // Replay

  /** The replay test `rejouer == 'O' || rejouer == 'o'`: a case-insensitive
      comparison with 'O'. */
  function WantsReplay(rejouer: char): (b: bool)
    ensures b <==> UpperAscii(rejouer) == 'O'
  {
    rejouer == 'O' || rejouer == 'o'
  }

  /** ASCII upper case. */
  function UpperAscii(ch: char): char {
    if 'a' <= ch <= 'z' then (ch as int - 'a' as int + 'A' as int) as char else ch
  }
}
