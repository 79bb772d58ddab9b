# 15 puzzle: the puzzle engine in Dafny

This project models the engine behind the 15 puzzle game in `game.py`. The
`Application` object keeps a 4×4 board of buttons in a dictionary keyed by
`(row, col)`. Fifteen buttons show the numbers 1..15 and one button is blank.
The object also keeps two flags, `swapped_once` and `scrambled`, and a status
message. A click on a button (`update`) swaps it with the blank when it lies
next to it. `scramble` lays out a random permutation, and `restart` puts back
the canonical arrangement. The win message appears once the canonical
arrangement is reached again after at least one swap.

The project has four modules:

- `Board` (board.dfy): the board as a value. It holds the cell datatypes, the
  canonical and scrambled layouts, the swap of two cells, and the win check.
  It also holds the board invariant. The sixteen values, read with the blank
  as 16, are a permutation of 1..16, and a cell has the blank colour exactly
  when it is blank. The module proves that this invariant makes the board a
  bijection onto the fifteen tiles and the blank.
- `Moves` (moves.dfy): the two checks `update` applies, `legal_move` and
  `get_distance`. It proves that passing both means orthogonal adjacency.
- `Session` (session.dfy): the engine state as a value, `GameState(cells,
  swappedOnce, scrambled, status)`. Each command is a function on it. The
  lemmas about clicks, restarts, scrambles and any sequence of them are here.
- `Game` (game.dfy): the `Application` class. It has a 16-cell `array` (key
  `(r, c)` at index `4r + c`, which is the order the dictionary enumerates
  its keys), the two flags and a status field. Its methods follow the
  source's loops and branches. Each state-changing method (the constructor,
  `Restart`, `Swap`, `Update`, `Scramble`) is proved to move the object's
  abstract state `State()` exactly as the matching `Session` function does.
  `InitiateBoard` is specified against `Board.Solved`, and the read-only
  loops `BlankLocation` and `Win` against the board they read.

A cell is `Button(text, colour)`. Its text is `Num(n)` with `n` in 1..15, or
`Empty` for the blank. Its colour is `TileColour` or `BlankColour`.

## Model

| member | source | states |
|---|---|---|
| `Game.Application.constructor` | game.py:42-65 | the program starts with the welcome message, both flags cleared and the canonical board, and the board invariant holds |
| `Game.Application.Restart` | game.py:69-74 | restart sets the restart message, clears `swapped_once` and `scrambled`, and lays out the canonical board again; the invariant is kept |
| `Game.Application.InitiateBoard` | game.py:76-90 | the nested loops leave 4i+j+1 at key (i, j) with the tile colour, and the blank with the blank colour at (3, 3) |
| `Game.Application.BlankLocation` | game.py:92-97 | returns the first key in enumeration order whose button shows no text; returns None exactly when no key is blank |
| `Game.Application.Swap` | game.py:112-128 | exchanges text and colour of exactly the two buttons, sets `swapped_once`, sets the encouragement only when not scrambled, and keeps the bijection invariant |
| `Game.Application.Win` | game.py:141-155 | the loop with early return yields true exactly when every key passes the check: a number at (r, c) equals 4r+c+1, and the blank is only accepted where that value is 16 |
| `Game.Application.Update` | game.py:157-169 | a click moves the object to `Session.Click` of its old state, so every property proved about `Click` holds of the class |
| `Game.Application.Scramble` | game.py:171-187 | writes the supplied permutation over the keys in enumeration order, with 16 as the blank in blank colour; sets `scrambled`, clears `swapped_once`, sets the warning message; the invariant holds afterwards |
| `Board.Solved` | game.py:79-90 | the canonical board reads back as the values 1, 2, ..., 16 in key order; its last key (3, 3) is the blank in blank colour and every other key k shows k + 1 in tile colour |
| `Board.Layout` | game.py:176-187 | the board laid out from sixteen values has each cell coloured according to its label, and reading its values back key by key gives the input sequence |
| `Board.SwapCells` | game.py:121-128 | the two cells exchange their buttons, text and colour together, and every other cell is unchanged |
| `Board.InPlace` | game.py:145-153 | the per-key test of the win check: a label at an on-board key passes exactly when it is the label of the canonical board at that key |
| `Board.IsWinning` | game.py:141-155 | the win check passes exactly when every key shows the label the canonical board has there |
| `Board.SolvedLayout` | game.py:79-90 | the canonical board holds 4r+c+1 at (r, c) for every cell but (3, 3), and the blank at (3, 3) |
| `Board.WinningIffSolved` | game.py:141-155 | the win check holds exactly on the canonical arrangement; any misplaced tile, or a blank anywhere but (3, 3), makes it fail |
| `Board.WellFormedIsBijection` | game.py:69-187 | under the board invariant no label occurs twice and every label (each of 1..15 and the blank) occurs |
| `Board.ExactlyOneBlank` | game.py:92-97 | under the invariant exactly one key is blank, so the blank lookup always finds the unique blank |
| `Board.EachTileOnce` | game.py:69-187 | under the invariant every tile number 1..15 sits on exactly one key |
| `Board.BlankIndex` | game.py:92-97 | the blank of a well-formed board is a cell with empty text and blank colour, and no other cell is blank |
| `Board.SwapPreservesWellFormed` | game.py:121-128 | exchanging two cells keeps the multiset of values, so the board stays a bijection with colours tied to blank-ness |
| `Board.SwapTwice` | game.py:121-128 | swapping the same two cells twice restores the board |
| `Board.SwapDistinctChanges` | game.py:121-128 | on a well-formed board a swap changes the board exactly when the two cells differ |
| `Board.LayoutWellFormed` | game.py:176-187 | laying out a permutation of 1..16 yields a well-formed board whose values, read back key by key, are that permutation |
| `Board.LayoutWinsIffIdentity` | game.py:171-187 | a scrambled board passes the win check exactly when the permutation is 1, 2, ..., 16 |
| `Board.PermutationInRange` | game.py:176 | a permutation of 1..16 has sixteen entries, each in 1..16 |
| `Moves.LegalMove` | game.py:99-110 | the axis test accepts the blank itself and every orthogonal neighbour of the blank |
| `Moves.Distance` | game.py:130-139 | the distance is the Euclidean distance truncated to an integer: its square is at most the squared distance, and the square of its successor exceeds it; a cell has distance 0 to itself |
| `Moves.LegalMoveExamples` | game.py:106-110 | the axis test rejects (0,0) against (3,3) and accepts aligned cells further away, such as (0,0) against (0,3) |
| `Moves.FloorSqrt` | game.py:139 | `int(math.sqrt(n))` as the integer r with r² ≤ n < (r+1)² |
| `Moves.DistanceAligned` | game.py:130-139 | for coordinates on a common row or column, the distance is the absolute difference along the other axis |
| `Moves.DistanceExample` | game.py:135-137 | the distance of (0,0) and (3,0) is 3 |
| `Moves.DistanceOfDiagonal` | game.py:139 | for any two diagonal neighbours the truncated distance is 1, and only the axis test rejects them |
| `Moves.MoveRuleIsAdjacency` | game.py:161-165 | the axis test and distance 1 hold together exactly when the cells are orthogonal neighbours (Manhattan distance 1) |
| `Session.Initial` | game.py:42-65 | the starting session holds the canonical board, which is a bijection and passes the win check, with both flags cleared and the welcome message |
| `Session.Restart` | game.py:69-74 | after restart the board is a bijection that passes the win check, both flags are cleared and the restart message is shown |
| `Session.Blank` | game.py:92-97 | the blank of a valid session is an on-board key with empty text, and no other key is blank |
| `Session.Swap` | game.py:112-128 | the swap transition keeps the session valid |
| `Session.Scramble` | game.py:171-187 | the scramble transition gives a valid session whose values, key by key, are the permutation |
| `Session.Click` | game.py:157-169 | the click transition keeps the session valid |
| `Session.ScrambleLayout` | game.py:171-187 | after a scramble, key k shows the blank when the k-th value is 16 and the number otherwise; `scrambled` is set and `swapped_once` cleared; the board wins only for the identity permutation |
| `Session.SwapFrame` | game.py:112-128 | a swap exchanges the two cells, leaves all others alone, and undoes itself when applied twice |
| `Session.ClickMovesIffAdjacent` | game.py:157-165 | a click swaps exactly when the clicked cell is orthogonally adjacent to the blank; otherwise the board and `swapped_once` stay as they were; `scrambled` never changes |
| `Session.ClickStatus` | game.py:157-169 | after a click the status is the win message exactly when the board wins and a swap has happened; otherwise it is the encouragement if this click swapped on an unscrambled board; otherwise it is unchanged |
| `Session.NoWinRightAfterRestart` | game.py:167-169 | the first click after a restart never sets the win message |
| `Session.ClickUndo` | game.py:157-165 | clicking a neighbour of the blank and then the cell the blank came from restores the board |
| `Session.FirstMoveExample` | game.py:157-169 | from the canonical board, clicking (3,2) moves 15 to (3,3) and the blank to (3,2); the board stops winning and the encouragement is shown |
| `Session.Run` | game.py:157-187 | any sequence of allowed clicks, scrambles and restarts keeps the session valid |
| `Session.AlwaysBijection` | game.py:69-187 | after any sequence of commands from the start, each of 1..15 and the blank occurs exactly once, and the blank colour sits exactly on the blank |

## Left out

- The tkinter user interface is not modelled: the window, frames, button creation, grid layout, the click bindings, `mainloop` and `main` (game.py:19-67, 190-193). The button binding is modelled only as a click on a coordinate `p` with `OnBoard(p)`.
- The message texts become the `Status` values `Welcome`, `Restarted`, `Encourage`, `Won` and `ScrambleWarning`.
- The two colour hex strings become the `Colour` values `TileColour` and `BlankColour`.
- `random.sample` (game.py:176) is not modelled. `Scramble` takes the permutation as a parameter and requires it to be a permutation of 1..16. Nothing about uniformity is claimed.
- `Moves.FloorSqrt`: `math.sqrt` is floating point and is modelled as the exact integer square root rounded down. For the small sums that arise here (at most 18) the correctly rounded square root truncates to the same integer.
- Labels are set as strings in `initiate_board` (game.py:86) and as integers in `scramble` (game.py:184). `win` converts both with `int()`. Both are modelled as `Num(n)`.
- Each `restart` builds sixteen new button widgets on top of the old ones. Only the dictionary of buttons is modelled, not the widgets.
- The session-level invariant is a precondition of `Update`, `Swap`, `Restart` and `Scramble`. When no blank exists, the source passes `None` on to `legal_move`, which would raise. That state is unreachable, as `Session.AlwaysBijection` shows, so it is not modelled.
- `legal_move` alone only tests that the two cells share a row or a column; `update` adds the distance check. The model keeps the two checks separate, and `Moves.MoveRuleIsAdjacency` proves that together they mean orthogonal adjacency.
