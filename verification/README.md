# Othello rules engine, modelled in Dafny

This project models the rules engine of a two-player Othello (Reversi) game:
- the square board of `Cell`s (Empty, White, Black) with the four-piece opening;
- the eight-direction capture search;
- the row-major list of possible moves for a colour;
- placing a piece, which flips every captured piece and hands the turn over;
- the score of a colour and the end-of-game test.

Board coordinates are `Pos` values, with `x` the row and `y` the column.

The project has three modules:
- `Wrappers` (`wrappers.dfy`) holds `Option`, `Result` and `Outcome`.
- `Position` (`position.dfy`) models `Pos` from `Position.py`.
- `OthelloGame` (`othello.dfy`) models `Cell` and the class `Othello` from
  `OthelloGame.py`.

The game object is a Dafny `class Othello`:
- `boardSize` and `board`, an `array2<Cell>`, are fixed at construction.
- `curPlayer` is a mutable field.
- The methods that change the board (`FlipPieces`, `PlayLandingMoves`, `PlacePiece`) update the array in place.
- `PossibleMoves` and `GetScore` only read the board and are loops; `IsGameEnd` runs `PossibleMoves` for both colours.

`Search`, the directional search, is a recursive function, as in the source. The code (`PossibleMoves`) and the specification share it.

Each method is proved against ghost specification functions of the same class:
- `Moves(c)` is the move list in row-major order, eight entries per piece of colour `c`, `None` entries included.
- `Score(c)` is the count of cells of colour `c`, and `CellsOf(c)` is the set of their positions.
- `Captures(moves, target)` is the union of the pieces of every candidate that lands on `target`.

The move list keeps the `None` result of every failed search, eight entries per piece, as the code at `OthelloGame.py:106-129` does. A placement flips the pieces of every candidate landing on the chosen cell. When several directions capture, the result is the union of their pieces.

## Model

| member | source | states |
|---|---|---|
| Position.GettersReturnCoordinates | Position.py:1-10 | a position's getters return exactly the row and column it was built from |
| Position.EqualsIffSameCoordinates | Position.py:12-13 | `Equals` holds iff both coordinates agree, that is, iff the two positions are the same value |
| Position.EqualsReflexive | Position.py:12-13 | every position equals itself |
| Position.EqualsSymmetric | Position.py:12-13 | `p.Equals(q)` iff `q.Equals(p)` |
| Position.EqualsTransitive | Position.py:12-13 | `Equals` chains: p = q and q = r give p = r |
| OthelloGame.Othello.New | OthelloGame.py:32-51 | fails with InvalidBoardSize exactly when the size is odd or below 4; otherwise a fresh game of that size in the opening layout with Black to move |
| OthelloGame.Othello.constructor | OthelloGame.py:37-51 | for a valid size: the board is size by size, the two cells of one central diagonal are White, the other two are Black, every other cell is Empty, and Black moves first |
| OthelloGame.Othello.OutOfBounds | OthelloGame.py:54-55 | a coordinate pair is out of bounds iff it is not inside the board on both axes |
| OthelloGame.AtOffsets | OthelloGame.py:158-173 | the k-th cell along a direction is k times that direction's row and column step away, which is the per-direction step of the recursive call |
| OthelloGame.Othello.Search | OthelloGame.py:137-173 | a search that finds something reports the direction searched and at least one captured piece |
| OthelloGame.Othello.SearchSound | OthelloGame.py:137-173 | whatever the search returns is a run of opposing pieces that starts at the first cell and ends just before an empty on-board cell; the result lands on that cell, and its count and piece list are extended by exactly that run |
| OthelloGame.Othello.SearchComplete | OthelloGame.py:137-173 | conversely, every run of opposing pieces followed by an empty on-board cell (with at least one piece collected in total) is found, landing there with that run |
| OthelloGame.Othello.SearchStops | OthelloGame.py:138-153 | the search returns None when a run of opposing pieces runs off the board, meets the searching colour, or starts on an empty cell with nothing collected |
| OthelloGame.Othello.SearchFromFindsCapture | OthelloGame.py:106-129 | a search started next to a piece returns a well-formed capture: the direction searched, the pieces at steps 1 .. n in order, each opposing the colour, and the empty landing cell at step n + 1 |
| OthelloGame.Othello.PossibleMoves | OthelloGame.py:101-131 | the list built by the row-major scan is exactly the specification list `Moves(c)` |
| OthelloGame.Othello.MovesLength | OthelloGame.py:101-131 | the move list holds eight entries per piece of the colour, None entries included |
| OthelloGame.Othello.MovesAreSearchesFromOwnedCells | OthelloGame.py:101-131 | an entry is in the move list iff it is the search in some direction from some piece of the colour |
| OthelloGame.Othello.MovesAreCandidates | OthelloGame.py:101-131 | every non-None entry of the move list is a well-formed capture for the colour |
| OthelloGame.Othello.MovePiecesInBounds | OthelloGame.py:137-156 | every piece a candidate lists lies on the board, so flipping it never indexes outside the board |
| OthelloGame.CapturesAreCandidatePieces | OthelloGame.py:71-76 | a cell is captured by playing a target iff some candidate landing on that target lists it |
| OthelloGame.Othello.CapturesOppose | OthelloGame.py:62-76 | what a placement flips are pieces of the other colour, never the landing cell; a cell some candidate lands on is empty |
| OthelloGame.Othello.FlipPieces | OthelloGame.py:91-93 | the listed cells take the given colour and every other cell keeps its value |
| OthelloGame.Othello.PlayLandingMoves | OthelloGame.py:69-76 | the scan reports a turn iff some candidate lands on the cell; the cell then holds the current player, every captured piece is set to the current player, and every other cell is unchanged |
| OthelloGame.Othello.PlacePiece | OthelloGame.py:62-84 | out of range gives OutOfRange and changes nothing; a cell that no candidate lands on changes nothing; otherwise the cell and the union of all captures take the mover's colour, the turn passes to the other colour, and the number of pieces on the board grows by exactly one |
| OthelloGame.Othello.GetScore | OthelloGame.py:197-205 | the counting loop returns the number of cells holding the colour, which is the size of the set of their positions |
| OthelloGame.Othello.ScoreCountsCells | OthelloGame.py:197-205 | the row-major count of a colour equals the number of positions holding it |
| OthelloGame.Othello.ScoresPartitionBoard | OthelloGame.py:197-205 | the White, Black and Empty scores add up to the number of cells |
| OthelloGame.Othello.OpeningScores | OthelloGame.py:42-49 | the opening has two White pieces, two Black pieces and size² - 4 empty cells |
| OthelloGame.Othello.OpeningBlackCapture | OthelloGame.py:42-51 | from the opening, Black's search upward from its lower-left centre piece captures the White piece above it; that cell is a target in Black's move list, and the White piece is among what playing it flips |
| OthelloGame.Othello.IsGameEnd | OthelloGame.py:191-192 | the end test as written holds iff neither colour has a piece on the board |
| OthelloGame.Othello.FullBoardIsNotEnded | OthelloGame.py:187-192 | on a board with no empty cell neither colour has a candidate, yet the test as written says the game goes on |
| OthelloGame.Othello.IsGameOver | OthelloGame.py:187-192 | the corrected end test holds iff neither colour's move list has a candidate, iff no cell is a target for either colour |

## Left out

- `main.py`: console input and output and the game loop; it is not part of this model.
- `__getCurPlayer__` (OthelloGame.py:181-185) reads `curMove`, a field no code ever assigns, so it can only fail; the model keeps the turn in `curPlayer`.
- `Pos.__str__` (Position.py:15-16) concatenates a string with integers, which fails for integer coordinates; text rendering is left out.
- Exception messages: the two raised errors are the values `InvalidBoardSize` and `OutOfRange`, without their text.
- The string-named directions and their eight-way dispatch (OthelloGame.py:158-173) become the `Direction` datatype. Its row and column steps are `DRow` and `DCol`, and `At` gives the k-th cell.
- `__search__` compares cells with `Cell.empty` read through its colour parameter, which shadows the `Cell` enumeration; the model reads this as the Empty state.
- The searches build one shared piece list by appending to it; the model passes a fresh sequence to each call, which gives the same list because each search starts from its own empty list.
- FlipPieces: requires every listed piece to lie on the board; Python would write through negative indices from the other end, but `MovePiecesInBounds` shows the placement never passes such a piece.
- New: board sizes are integers; non-integer sizes are not modelled.
- The `dir` field of a move descriptor is the `Direction` value rather than its name string.

## Findings

| source | as written | input that shows it | evidently intended | confidence | as-written member | corrected member |
|---|---|---|---|---|---|---|
| OthelloGame.py:191-192 | the game ends iff both move lists are empty; every piece contributes eight entries, None or not, so this holds only when the board has no White or Black piece | a full board (no Empty cell): no colour can move, yet the test says the game goes on | the game ends when neither colour has a legal move (a non-None entry) | not executed | OthelloGame.Othello.IsGameEnd and OthelloGame.Othello.FullBoardIsNotEnded | OthelloGame.Othello.IsGameOver |
