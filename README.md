# Sudoku game logic in Dafny

This project models the console Sudoku game of `Sudoku.c`. The model covers:

- the 9x9 integer board `tGrille`, with blocks of side `TAILLE` = 3 and side `BLOC` = 9, where 0 marks an empty cell;
- the working board, which the player fills from a base board;
- the operations the play loop runs on those boards;
- the input validator the loop reads its moves with.

The model has six modules.

- `Grid` holds the board.
  - It has the constants, and `Cells`, the pure view of a `tGrille` array as a sequence of rows.
  - It has the uniqueness rules (`Consistent`) and the relation between the working board and its base (`Descends`).
- `GridStore` holds `copieGrille` and `grilleEstPleine`. Both are methods with nested loops over `array2<int>`.
- `Legality` holds `possible`.
  - The method `Possible` is proved equal to the pure specification `Ruling`.
  - `Ruling` runs the four checks in the source's order: row, column, block, given cell. The first failure decides the diagnosis.
- `Input` holds `saisir`. Standard input is modelled as the sequence of characters still to be read, one character per input byte. The model includes:
  - `fgets` into a 30-byte buffer, which takes at most 29 bytes;
  - the newline test;
  - the `getchar` draining of an overlong line;
  - `sscanf("%d")` with its three outcomes: a conversion, a matching failure, and EOF on a line that is blank or holds only white space;
  - the range test.

  The method `Saisir` is proved equal to the function `ReadBounded`.
- `Game` holds the play loop of `main`.
  - `ApplyMove` writes the cell only when `Possible` accepts.
  - `ReadTurn` makes the three `saisir` calls of a turn and is proved equal to the function `ReadMove`.
  - `PlayLoop` is the `while (!grilleEstPleine(grille))` loop. It reads the row, the column and the value, decrements the row and the column, and makes the move. It is proved equal to the function `Play`.
  - `Round` copies the base board and then runs the loop.
  - `WantsReplay` is the replay test.
- `Display` holds the colour rule of `afficherGrille`.

The model follows two details of the code.

- Given-cell protection is the last of the four checks, and the row scan includes the cell itself. Writing a given cell's own value back onto it is therefore reported as a row duplicate, never as a protected cell. A player might expect a protected-cell refusal there; the code reports a row duplicate, and so does the model (`Legality.GivenCheckIsLast`).
- `sscanf` returns EOF on a blank line, and the test `!= 0` takes EOF for success. In that case the value already in `*valeur` is range-tested again.
  - For the row and the column, that old value is the register of the previous turn, already decremented.
  - The model therefore carries `numLigne`, `numColonne` and `valeur` from turn to turn (`Game.Registers`).
  - It takes their initial contents, which C leaves uninitialised, as a parameter.

On input without a further newline, the `getchar` loop never ends, because `getchar` keeps returning EOF. The model reports this as a reading with no value (`None`). The play loop then stops with `finished` false.

## Model

| member | source | states |
|---|---|---|
| Grid.BlockStartBounds | Sudoku.c:283-284 | the start of the block scanned for index i is a multiple of 3, at most i, with i below start + 3, and the block lies inside the board |
| Grid.BlockMembership | Sudoku.c:286-296 | an index lies in the block scanned for i exactly when it has the same block number `i / 3` |
| Grid.DescendsKeepsGivens | Sudoku.c:299-303 | on a board descended from its base, every nonzero base cell still holds its base value |
| GridStore.CopyGrid | Sudoku.c:194-203 | after the copy every cell of `grille` equals the same cell of `grilleDeBase`, and the base board is unchanged |
| GridStore.IsFull | Sudoku.c:314-327 | returns true exactly when no cell of the board holds 0 |
| GridStore.OneEmptyCellNotFull | Sudoku.c:320-323 | one cell holding 0 makes the board not full |
| Legality.Possible | Sudoku.c:260-306 | the verdict is the ordered ruling of row, column, block, then given cell, and the boolean is true exactly on acceptance; neither board is modified |
| Legality.RulingOrder | Sudoku.c:260-306 | each diagnosis is reported exactly when its own check fails and all earlier ones pass; acceptance holds exactly when the value is absent from the row, the column and the block and the base cell is 0 |
| Legality.DuplicateHasWitness | Sudoku.c:263-296 | a row, column or block rejection names a cell of that row, column or scanned block that holds the value; column and block rejections imply the earlier scans found nothing |
| Legality.AcceptedMeansAbsent | Sudoku.c:260-306 | an accepted value occurs nowhere in the row, column or block, and the base cell is empty |
| Legality.SameValueIsRowDuplicate | Sudoku.c:263-270 | writing the value a cell already holds is always a row duplicate |
| Legality.GivenCheckIsLast | Sudoku.c:263-303 | writing a given cell's own value back is a row duplicate; the given-cell refusal only occurs for a value absent from the row, column and block |
| Input.ChunkLength | Sudoku.c:342 | `fgets` takes at most 29 bytes, and at least one while input is left |
| Input.ChunkLengthStops | Sudoku.c:342 | the chunk `fgets` takes holds no newline before its last character, and ends without a newline only when the buffer is full or the input is exhausted |
| Input.Drain | Sudoku.c:354 | draining ends exactly when a newline is left in the input, and then consumes through it |
| Input.DigitRunIsRun | Sudoku.c:360 | the digits `%d` converts are all digits and form the longest such run |
| Input.ScanBlank | Sudoku.c:360 | `%d` returns EOF exactly when the line holds nothing but white space |
| Input.ScanNotANumber | Sudoku.c:360 | `%d` is a matching failure when no digit follows the white space and the optional sign |
| Input.ScanRoundTrip | Sudoku.c:360 | `%d` reads back the decimal rendering of any number after white space and an optional sign, ignoring trailing text that does not start with a digit |
| Input.Attempt | Sudoku.c:358-380 | one line only yields a value in [1, 9]; otherwise a diagnosis and the new `*valeur` |
| Input.AfterLine | Sudoku.c:358-381 | after a line read with its newline, a returned value is in [1, 9] and the unread input is no longer than what followed the line |
| Input.AfterOverflow | Sudoku.c:351-356 | after a chunk without a newline, a returned value is in [1, 9]; the draining consumes input, or nothing is returned and the input is exhausted |
| Input.ReadBounded | Sudoku.c:338-381 | the retry loop only returns a value in [1, 9]; when no value is returned, all input has been consumed |
| Input.Saisir | Sudoku.c:334-382 | the imperative `do ... while (!valide)` loop returns exactly the value, the unread input and the diagnoses of `ReadBounded`; the value is in [1, 9] |
| Input.OverlongBranchUnreachable | Sudoku.c:377-380 | after the newline is removed a line is never longer than 30 bytes, so the second too-long branch cannot be reached |
| Input.DrainLine | Sudoku.c:354 | draining a line consumes it and its newline, and nothing more |
| Input.ChunkOfLine | Sudoku.c:342 | `fgets` takes a whole short line with its newline, or exactly the buffer's worth of a long one |
| Input.ShortLine | Sudoku.c:345-376 | a terminated line of at most 28 bytes gets one attempt: a valid value ends the loop, otherwise its diagnosis is reported and the loop reads the next line |
| Input.LongLine | Sudoku.c:347-356 | a line of 29 bytes or more is reported as too long and skipped whole, newline included |
| Input.UnterminatedInputNeverReturns | Sudoku.c:351-356 | input with no newline at all gives one too-long diagnosis and no value |
| Input.BlankLineReusesValue | Sudoku.c:360-370 | a terminated line that is blank or holds only white space range-tests the old `*valeur`: it is returned again when in range, otherwise out-of-bounds is reported and the next line is read |
| Input.IntegerLine | Sudoku.c:358-370 | a terminated line of at most 28 bytes holding the integer m after white space and an optional sign returns m when m is in [1, 9]; otherwise it reports out-of-bounds and reads the next line with m in `*valeur` |
| Input.NonIntegerLine | Sudoku.c:358-375 | a terminated line of at most 28 bytes in which no digit follows the white space and the optional sign is reported as not an integer, and the next line is read with `*valeur` unchanged |
| Input.ScenarioNotAnInteger | Sudoku.c:372-375 | the line "abc" is a matching failure, reported as not an integer |
| Input.ScenarioDigit | Sudoku.c:360-370 | a one-digit line is accepted when the digit is 1 to 9, and "0" is out of bounds |
| Input.ThreeLines | Sudoku.c:338-381 | the lines "abc", "0", "5" report not an integer, then out of bounds, then return 5 with nothing left |
| Game.ApplyMove | Sudoku.c:133-137 | the board after the move is `Step` of the board before: written at (r, c) exactly when `possible` accepts |
| Game.StepFrame | Sudoku.c:133-137 | a move changes no cell other than (r, c), and that one only when accepted |
| Game.StepKeepsDescends | Sudoku.c:133-137 | with a value in [1, 9], a move keeps every given cell at its base value and every other cell at 0 or in [1, 9] |
| Game.StepKeepsConsistent | Sudoku.c:133-137 | if no nonzero value repeats in a row, column or block before a move, none repeats after it |
| Game.AcceptedValueBlocksRow | Sudoku.c:133-137 | once a value is accepted in a row, the same value anywhere else in that row is refused as a row duplicate |
| Game.ScenarioRowDuplicate | Sudoku.c:133-137 | on an empty board 5 at (1, 1) is accepted, then 5 at (1, 4) is a row duplicate |
| Game.LastMoveFills | Sudoku.c:116-137 | an accepted nonzero value in the only empty cell makes the board full |
| Game.ReadMove | Sudoku.c:120-129 | a turn that reads all three values yields a row and a column in [0, 8] and a value in [1, 9], and consumes input |
| Game.ReadTurn | Sudoku.c:120-129 | the three `saisir` calls of a turn return exactly the registers and the unread input of `ReadMove` |
| Game.Play | Sudoku.c:116-137 | the play loop only ends on a full board; otherwise it waits for input with all input consumed |
| Game.PlayLoop | Sudoku.c:116-137 | the imperative loop ends with the board, the outcome, the unread input and the registers of `Play` |
| Game.PlayInvariants | Sudoku.c:116-137 | the play loop keeps given cells at their base values and player cells in [1, 9], keeps the uniqueness rules when they held at the start, and only ends on a full board |
| Game.Round | Sudoku.c:108-137 | a round copies the base board and plays; the final board descends from the base and is full when the round ends |
| Game.WantsReplay | Sudoku.c:144 | the replay test is true exactly when the answer's ASCII upper case is 'O' |
| Display.Classify | Sudoku.c:232-243 | a cell is shown empty exactly when it holds 0, and a nonzero cell is shown as given exactly when it equals its base cell |
| Display.ClassifyDescendant | Sudoku.c:232-243 | on a board descended from its base, a cell is shown as given exactly when its base cell is nonzero, as entered exactly when the player filled an empty base cell, and as empty exactly when it holds 0 |

## Left out

- `chargerGrille`: file-system I/O (prompt, `fopen`, `fread` of raw ints, `fclose` on a NULL handle when opening fails). The base board is a parameter of `Game.Round`.
- Printing: the ANSI colour output of `afficherGrille`, the message texts of `erreurs` and the prompts of `main`. Only the diagnoses are kept, as `Legality.Rejection` and `Input.Diagnosis`. `Display.Classify` keeps the colour decision for one cell.
- `chargement`: a `sleep` animation with no effect on state.
- `fflush(stdin)`: undefined behaviour in C, modelled as doing nothing.
- The replay `scanf(" %c")` and the outer `do ... while` of `main`. Only the test on the answer is modelled (`Game.WantsReplay`), because each further round starts with `chargerGrille`, which is left out.
- Input.ScanInt: `%d` on a digit string too large for an `int` is undefined behaviour in C. The model converts it to the mathematical integer.
- Multi-byte characters: each element of the input stream stands for one byte, and the buffer limits of 28, 29 and 30 count bytes. A character that UTF-8 encodes in several bytes is not modelled as the several bytes `fgets` counts.
- Input.Attempt: its own contract only bounds an accepted value. Its result for each kind of line is stated by `Input.IntegerLine`, `Input.NonIntegerLine`, `Input.BlankLineReusesValue` and `Input.LongLine`. A digit string with leading zeros, such as "007", is converted but has no lemma of its own.
- NUL characters inside a line, which would make `strlen` stop early, are not modelled.
- Input.Saisir: a `saisir` that would wait for ever is modelled as returning no value. The diagnoses up to that point are still reported.
- Game.Play: the diagnoses that `saisir` and `possible` print are not part of the session it returns.
