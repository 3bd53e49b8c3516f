# Diagonal Sudoku solver, modelled and verified in Dafny

This project models the constraint-propagation solver in
`Projects/1_Sudoku/solution.py`. The puzzle is a 9x9 diagonal Sudoku.

- **The board.** The `values` dictionary maps each of the 81 box names (`A1` ... `I9`) to its string of candidate digits.
- **Units.** There are 29 units: 9 rows, 9 columns, 9 3x3 squares, the main diagonal `A1..I9` and the anti-diagonal `A9..I1`. A box's peers are the other boxes it shares a unit with.
- **Strategies.** Three strategies rewrite the dictionary in place:
  - `eliminate`: a solved box deletes its digit from its peers.
  - `only_choice`: a digit allowed in only one box of a unit is assigned to that box.
  - `naked_twins`: a two-digit value held by two boxes of a unit is deleted from the rest of the unit.
- **`reduce_puzzle`** runs rounds of the three strategies until the number of solved boxes stops changing. It fails after a round that leaves a box with no candidate.
- **`search`** reduces the puzzle. If boxes with several candidates remain, it branches on the first box with the fewest of them and tries each of its digits on a copy of the dictionary.

## How the model is built

- **Boxes.** A box is an index `0..80` in key order: `9 * row + column`, with `Name(b)` giving `"A1"` etc. The dictionary's iteration order is this key order. Candidate strings are `string` (`seq<char>`).
- **`Units`** builds the unit table the way lines 5–12 do, and derives the peer relation from it.
- **Pure specification functions.** One module per strategy (`EliminateStrategy`, `OnlyChoiceStrategy`, `NakedTwinsStrategy`), plus `Reduction` and `DepthFirstSearch`, defines the effect of each Python function on the 81-box sequence.
  - Local dictionaries are modelled in insertion order, since that order decides which key is processed first:
    - the frequency table's keys are `FirstOccurrences` of the unit's candidates;
    - `pair_dict`'s keys are `TwinValues`.
- **`Solver`** holds the code as it runs, on an `array<string>` that is modified in place:
  - nested loops;
  - the frequency table as a `map<char, nat>`;
  - the pair dictionary as a `map<string, seq<Box>>`;
  - the `break` of `only_choice`;
  - the copy made before each branch of the search.
  Each method is proved to leave the array equal to its specification function applied to the old contents. `Solve` states what a caller gets.
- **`Solutions`** defines a solution: every box holds one digit 1–9, and no two peers share a digit. It proves that, when every candidate is a digit 1–9, no strategy loses a solution consistent with the current candidates. So `search` on such a grid answers `False` only for a puzzle without a solution, which is the promise in the docstring of `solve` (line 259). It also proves that such a puzzle with exactly one solution is solved to that solution.
- **Termination.**
  - `reduce_puzzle`: each round that continues raises the solved count, which is at most 81.
  - `search`: each branch fixes a box with several candidates to one digit, which lowers the total number of candidates.

## Model

| member | source | states |
|---|---|---|
| Units.UnitListShape | Projects/1_Sudoku/solution.py:5-12 | the unit list has 29 units of 9 distinct boxes; its slices are the row, column and square units in order; units 27 and 28 are the boxes `rows[i]+cols[i]` and `rows[i]+reversed(cols)[i]` |
| Units.DiagonalNames | Projects/1_Sudoku/solution.py:11-12 | the diagonal zips the row letters with the column digits; the anti-diagonal zips them with the reversed column digits |
| Units.UnitSize | Projects/1_Sudoku/solution.py:5-12 | every unit holds nine boxes, none of them twice |
| Units.PeerCharacterisation | Projects/1_Sudoku/solution.py:15-17 | two boxes are peers exactly when they differ and share a row, a column, a 3x3 square or one of the two diagonals |
| Units.UnitPeers | Projects/1_Sudoku/solution.py:15-17 | any two different positions of a unit hold two peers |
| Candidates.Remove | Projects/1_Sudoku/solution.py:101 | `str.replace(d, '')` keeps exactly the characters other than `d`, and never lengthens the string |
| Candidates.FirstOccurrencesSpec | Projects/1_Sudoku/solution.py:130-141 | the keys of a table filled from a string, in insertion order, are the string's characters, each once |
| EliminateStrategy.EliminateShrinks | Projects/1_Sudoku/solution.py:97-105 | eliminate only deletes candidates: every box ends with a subsequence of its string, and the 81 keys stay |
| EliminateStrategy.EliminateClears | Projects/1_Sudoku/solution.py:97-101 | a box holding one digit when it is visited leaves that digit in none of its peers at the end |
| EliminateStrategy.EliminateDeletesSolved | Projects/1_Sudoku/solution.py:97-101 | every digit removed from a box is the digit of a peer that was solved when it was visited |
| EliminateStrategy.EliminateAllSolved | Projects/1_Sudoku/solution.py:97-101 | on a grid whose boxes are all solved, eliminate empties no box exactly when no two peers share a digit, and then changes nothing |
| OnlyChoiceStrategy.OnlyChoiceKeeps | Projects/1_Sudoku/solution.py:129-151 | every box ends with its old value or with a single digit taken from it; no digit is introduced; the number of solved boxes does not drop |
| OnlyChoiceStrategy.OnlyChoiceUnitAssigns | Projects/1_Sudoku/solution.py:141-146 | a digit the unit's table counts once leaves the box that allows it solved, with a digit from that box counted once |
| OnlyChoiceStrategy.ApplyChoicesSpec | Projects/1_Sudoku/solution.py:141-149 | after the table's keys are processed, each box is unchanged or holds one digit counted once, and each processed once-counted digit has solved its box |
| OnlyChoiceStrategy.CountedOnce | Projects/1_Sudoku/solution.py:131-140 | a digit counted once lies in the candidates of exactly one position of the unit |
| OnlyChoiceStrategy.AssignFromHits | Projects/1_Sudoku/solution.py:143-146 | when the boxes of the unit before position `k` lack the digit and the box at `k` holds it, the assignment loop sets the box at `k` to that digit |
| NakedTwinsStrategy.TwinValuesSpec | Projects/1_Sudoku/solution.py:56-65 | a string is a key of the pair dictionary exactly when it has two characters and some box of the unit holds it; no key is listed twice |
| NakedTwinsStrategy.TwinBoxesSpec | Projects/1_Sudoku/solution.py:56-65 | the dictionary's entry for a value lists exactly the boxes of the unit holding that value, each once |
| NakedTwinsStrategy.NakedTwinsShrinks | Projects/1_Sudoku/solution.py:53-77 | naked twins only deletes candidates, and the 81 keys stay |
| NakedTwinsStrategy.NakedTwinsUnitShrinks | Projects/1_Sudoku/solution.py:53-76 | processing one unit only deletes candidates, and only from boxes of that unit |
| NakedTwinsStrategy.NakedTwinsUnitClears | Projects/1_Sudoku/solution.py:66-72 | for a two-digit value held by two or more boxes, every box of the unit other than the first two holding it ends without either digit |
| NakedTwinsStrategy.NakedTwinsUnitReserved | Projects/1_Sudoku/solution.py:66-72 | a box kept for a pair loses a digit only to another acted-on pair of the same unit containing that digit |
| Reduction.RoundShrinks | Projects/1_Sudoku/solution.py:174-181 | a round of eliminate, only choice and naked twins only deletes candidates |
| Reduction.RoundProgress | Projects/1_Sudoku/solution.py:170-186 | a round leaving no box empty never lowers the solved count, which never exceeds 81, so the loop ends |
| Reduction.ReduceShrinks | Projects/1_Sudoku/solution.py:169-190 | `False` when a box is empty; otherwise no box is empty, every box keeps a subsequence of its input candidates and the solved count has not dropped |
| Reduction.ReduceSolvedIsValid | Projects/1_Sudoku/solution.py:169-190 | when reduction leaves at most one candidate per box, every box is solved and no two peers share a digit |
| DepthFirstSearch.ScanSpec | Projects/1_Sudoku/solution.py:219-229 | the scan keeps length 1 exactly when no box has several candidates; otherwise it picks the first box in key order with the fewest candidates above one |
| DepthFirstSearch.SearchSound | Projects/1_Sudoku/solution.py:213-243 | a search that succeeds solves every box with a digit from its input candidates, and no two peers share a digit |
| DepthFirstSearch.TryDigitsSound | Projects/1_Sudoku/solution.py:233-241 | a branch that succeeds returns a solved grid without repeated digits among peers, obtained by deleting candidates only |
| DepthFirstSearch.SolutionUnitsDistinct | Projects/1_Sudoku/solution.py:213-243 | in the grid search returns, the boxes of every unit hold different digits |
| Solutions.UnitCovers | Projects/1_Sudoku/solution.py:5-12 | in a solution every digit 1–9 occurs in every unit |
| Solutions.EliminateKeeps | Projects/1_Sudoku/solution.py:97-105 | eliminate keeps every solution that is consistent with the candidates |
| Solutions.OnlyChoiceKeepsSolution | Projects/1_Sudoku/solution.py:129-151 | only choice keeps every consistent solution when all candidates are digits 1–9 |
| Solutions.NakedTwinsKeeps | Projects/1_Sudoku/solution.py:53-77 | naked twins keeps every consistent solution |
| Solutions.ReduceKeeps | Projects/1_Sudoku/solution.py:169-190 | when every candidate is a digit 1–9 and a solution is consistent with the input, reduction does not fail, keeps the solution consistent and leaves only digits |
| Solutions.SearchComplete | Projects/1_Sudoku/solution.py:213-243 | when every candidate is a digit 1–9, search succeeds whenever some solution is consistent with its input |
| Solutions.SearchNoneUnsolvable | Projects/1_Sudoku/solution.py:258-259 | when every candidate is a digit 1–9, `False` from search means no solution is consistent with the input |
| Solutions.SearchSolves | Projects/1_Sudoku/solution.py:204-205 | when every candidate is a digit 1–9, what search returns is a solution consistent with its input |
| Solutions.SearchUnique | Projects/1_Sudoku/solution.py:246-263 | when every candidate is a digit 1–9, a puzzle with exactly one solution consistent with them is solved to that solution |
| Solver.DeleteFromPeers | Projects/1_Sudoku/solution.py:98-102 | the inner loop of eliminate leaves the array as the visit of the solved box |
| Solver.Eliminate | Projects/1_Sudoku/solution.py:80-105 | the in-place loop over the keys leaves the array equal to `EliminateStrategy.Eliminate` of its old contents |
| Solver.TallyAdd | Projects/1_Sudoku/solution.py:133-138 | counting one more digit raises its count by one, or adds it as a new key at the end of the insertion order |
| Solver.Tally | Projects/1_Sudoku/solution.py:132-139 | the frequency table after a box's digits are counted |
| Solver.CountDigits | Projects/1_Sudoku/solution.py:130-140 | the frequency table's keys are the unit's candidate digits, each with its number of occurrences, in insertion order |
| Solver.AssignFirst | Projects/1_Sudoku/solution.py:143-147 | the loop with `break` sets the first box of the unit that holds the digit |
| Solver.OnlyChoiceUnit | Projects/1_Sudoku/solution.py:130-149 | one unit of only choice, as the specification function |
| Solver.OnlyChoice | Projects/1_Sudoku/solution.py:108-151 | the array ends equal to `OnlyChoiceStrategy.OnlyChoice` of its old contents |
| Solver.GroupAdd | Projects/1_Sudoku/solution.py:57-63 | one more box seen appends it to its value's group, a new key going to the end of the order |
| Solver.GroupPairs | Projects/1_Sudoku/solution.py:54-65 | the pair dictionary maps each two-character value of the unit to its boxes in unit order, with keys in insertion order |
| Solver.StripPair | Projects/1_Sudoku/solution.py:69-73 | both digits are deleted from every box of the unit outside the reserved two |
| Solver.NakedTwinsUnit | Projects/1_Sudoku/solution.py:54-75 | one unit of naked twins, as the specification function |
| Solver.NakedTwins | Projects/1_Sudoku/solution.py:20-77 | the array ends equal to `NakedTwinsStrategy.NakedTwins` of its old contents |
| Solver.ReducePuzzle | Projects/1_Sudoku/solution.py:154-190 | returns false exactly when the reduction fails, and then leaves a box of the array empty; otherwise leaves the array as the reduced values |
| Solver.ChooseBox | Projects/1_Sudoku/solution.py:218-229 | the chosen box is the first with the fewest candidates above one, and the length stays 1 exactly when every box has at most one candidate |
| Solver.Copy | Projects/1_Sudoku/solution.py:235 | `values.copy()`: a fresh array with the same boxes |
| Solver.Search | Projects/1_Sudoku/solution.py:193-243 | succeeds exactly when `DepthFirstSearch.Search` does, with the same grid, held in the argument or a fresh copy; whenever reduction succeeds, the argument is left holding the reduced grid |
| Solver.TryDigits | Projects/1_Sudoku/solution.py:233-243 | succeeds exactly when `DepthFirstSearch.TryDigits` from the first digit does, with the same grid in a fresh array; the argument is not modified |
| Solver.Solve | Projects/1_Sudoku/solution.py:246-263 | the answer solves every box from its candidates without repeats in a unit; with digit candidates, it is a solution and `None` means there is none |

## Left out

- `utils.py` is not part of this model: `grid2values`, `display`, `cross`, `extract_units` and `extract_peers` are not shown. Rows `ABCDEFGHI`, columns `123456789`, the box order and the peer sets are rebuilt from lines 5–17. A peer is any other box that shares a unit.
- `solve` parses its grid string with `grid2values` first. `Solver.Solve` takes the parsed values instead. `Solutions.DigitsOnly` states what parsing guarantees: every candidate is a digit 1–9.
- The `__main__` block and the PySudoku visualisation (lines 266–279) are left out: console output and a GUI library.
- The two sets are iterated in box order here: `peers[key]` in `eliminate`, and `set(unit) - set(reserved_boxes)` in `naked_twins`. Python leaves their order unspecified. Each iteration deletes characters from distinct boxes, so the result does not depend on the order.
- NakedTwinsStrategy.NakedTwinsUnitReserved: the two boxes kept for a pair can still lose digits while the unit is processed, so the model does not claim they stay unchanged. A later pair of the same unit strips every box it does not keep, and that may include them. The lemma states exactly when they lose a digit.
- The `False` that `reduce_puzzle` and `search` return on failure, tested by `if not values` and `if temp`, is modelled on an `Option`: `False` becomes `None` and a dictionary becomes `Some`. `Solver.ReducePuzzle` returns a `bool` and leaves the values in the array.
