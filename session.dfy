/** The game session as a value: the board together with the two flags and
    the status message. Each command of the game (a click, scramble, restart)
    is a function from one session to the next; the `Application` class in
    module Game is proved to follow these functions. */
module Session {
  import opened Board
  import opened Moves

  /** The status message shown above the board. */
  datatype Status = Welcome | Restarted | Encourage | Won | ScrambleWarning

  datatype GameState = GameState(cells: seq<Button>, swappedOnce: bool, scrambled: bool, status: Status)

  predicate Valid(s: GameState) {
    WellFormed(s.cells)
  }

  /** The session as the program starts it: the canonical board, which is a
      bijection and passes the win check, with both flags cleared and the
      welcome message. */
  function Initial(): (r: GameState)
    ensures Valid(r) && IsWinning(r.cells)
    ensures !r.swappedOnce && !r.scrambled && r.status == Welcome
  {
    SolvedWellFormed();
    WinningIffSolved(Solved());
    GameState(Solved(), false, false, Welcome)
  }

  /** `restart`: the canonical board, which is a bijection and passes the win
      check, with both flags cleared and the restart message. */
  function Restart(): (r: GameState)
    ensures Valid(r) && IsWinning(r.cells)
    ensures !r.swappedOnce && !r.scrambled && r.status == Restarted
  {
    SolvedWellFormed();
    WinningIffSolved(Solved());
    GameState(Solved(), false, false, Restarted)
  }

  /** `scramble`: the board laid out from the permutation, key by key. */
  function Scramble(order: seq<int>): (r: GameState)
    requires IsPermutation16(order)
    ensures Valid(r) && Codes(r.cells) == order
  {
    LayoutWellFormed(order);
    GameState(Layout(order), false, true, ScrambleWarning)
  }

  /** `swap`: exchange two cells, note that a swap happened and, unless the
      board was scrambled, encourage the player. */
  function Swap(s: GameState, a: Coord, b: Coord): (r: GameState)
    requires Valid(s) && OnBoard(a) && OnBoard(b)
    ensures Valid(r)
  {
    SwapPreservesWellFormed(s.cells, Index(a), Index(b));
    GameState(SwapCells(s.cells, Index(a), Index(b)), true, s.scrambled,
            if s.scrambled then s.status else Encourage)
  }

  /** The coordinate of the blank cell. */
  function Blank(s: GameState): (p: Coord)
    requires Valid(s)
    ensures OnBoard(p) && s.cells[Index(p)].text == Empty
    ensures forall k :: 0 <= k < Size && s.cells[k].text == Empty ==> k == Index(p)
  {
    CoordOf(BlankIndex(s.cells))
  }

  /** `update`: a click on cell p swaps it with the blank when both checks of
      the move rule pass; then the win message is set if the board is in the
      winning arrangement and a swap has happened since the last restart or
      scramble. */
  function Click(s: GameState, p: Coord): (r: GameState)
    requires Valid(s) && OnBoard(p)
    ensures Valid(r)
  {
    var blank := Blank(s);
    var next := if LegalMove(p, blank) && Distance(p, blank) == 1 then Swap(s, p, blank) else s;
    if IsWinning(next.cells) && next.swappedOnce then next.(status := Won) else next
  }

  // ---------------------------------------------------------------------------
  // Properties of the commands

  /** A scramble puts the i-th value of the permutation at the i-th key, with
      16 as the blank; it is won only for the identity permutation. */
  lemma ScrambleLayout(order: seq<int>, k: int)
    requires IsPermutation16(order) && 0 <= k < Size
    ensures |order| == Size
    ensures Scramble(order).cells[k].text == (if order[k] == 16 then Empty else Num(order[k]))
    ensures IsWinning(Scramble(order).cells) <==> order == Iota(Size)
    ensures Scramble(order).scrambled && !Scramble(order).swappedOnce
  {
    LayoutWinsIffIdentity(order);
  }

  /** A swap touches exactly the two cells and applying it twice restores the
      board. */
  lemma SwapFrame(s: GameState, a: Coord, b: Coord)
    requires Valid(s) && OnBoard(a) && OnBoard(b)
    ensures Swap(s, a, b).cells[Index(a)] == s.cells[Index(b)]
    ensures Swap(s, a, b).cells[Index(b)] == s.cells[Index(a)]
    ensures forall k :: 0 <= k < Size && k != Index(a) && k != Index(b) ==> Swap(s, a, b).cells[k] == s.cells[k]
    ensures Swap(Swap(s, a, b), a, b).cells == s.cells
  {
    SwapTwice(s.cells, Index(a), Index(b));
  }

  /** A click swaps exactly when the clicked cell is an orthogonal neighbour
      of the blank; clicking the blank itself, a diagonal neighbour or an
      aligned cell further away leaves the board and the flags unchanged. */
  lemma ClickMovesIffAdjacent(s: GameState, p: Coord)
    requires Valid(s) && OnBoard(p)
    ensures Adjacent(p, Blank(s)) ==>
              Click(s, p).cells == SwapCells(s.cells, Index(p), Index(Blank(s))) && Click(s, p).swappedOnce
    ensures !Adjacent(p, Blank(s)) ==>
              Click(s, p).cells == s.cells && Click(s, p).swappedOnce == s.swappedOnce
    ensures Click(s, p).cells != s.cells <==> Adjacent(p, Blank(s))
    ensures Click(s, p).scrambled == s.scrambled
  {
    var blank := Blank(s);
    MoveRuleIsAdjacency(p, blank);
    SwapDistinctChanges(s.cells, Index(p), Index(blank));
  }

  /** The status after a click: the win message exactly when the board wins
      and some swap has happened; otherwise the encouragement if this click
      swapped on an unscrambled board; otherwise the status is kept. */
  lemma ClickStatus(s: GameState, p: Coord)
    requires Valid(s) && OnBoard(p)
    ensures var r := Click(s, p);
      r.status == (if IsWinning(r.cells) && r.swappedOnce then Won
                   else if Adjacent(p, Blank(s)) && !s.scrambled then Encourage
                   else s.status)
  {
    MoveRuleIsAdjacency(p, Blank(s));
  }

  /** Reaching the canonical board by restarting alone never reports a win:
      the first click after a restart either moves a tile away from its place
      or leaves the swap flag cleared. */
  lemma NoWinRightAfterRestart(p: Coord)
    requires OnBoard(p)
    ensures Valid(Restart()) && Click(Restart(), p).status != Won
  {
    var s := Restart();
    ClickMovesIffAdjacent(s, p);
    var r := Click(s, p);
    if Adjacent(p, Blank(s)) {
      WinningIffSolved(r.cells);
    }
  }

  /** Moving a tile into the blank and then clicking the cell the blank came
      from moves the tile back. */
  lemma ClickUndo(s: GameState, p: Coord)
    requires Valid(s) && OnBoard(p) && Adjacent(p, Blank(s))
    ensures Click(Click(s, p), Blank(s)).cells == s.cells
  {
    var blank := Blank(s);
    var t := Click(s, p);
    ClickMovesIffAdjacent(s, p);
    assert t.cells[Index(p)].text == Empty;
    assert Blank(t) == p;
    AdjacentSymmetric(p, blank);
    ClickMovesIffAdjacent(t, blank);
    SwapSymmetric(s.cells, Index(p), Index(blank));
    SwapTwice(s.cells, Index(blank), Index(p));
  }

  /** From the canonical board, clicking (3, 2) moves 15 into (3, 3) and the
      blank into (3, 2), and the board no longer wins. */
  lemma FirstMoveExample()
    ensures Valid(Restart()) && Click(Restart(), Coord(3, 2)).cells[15].text == Num(15)
    ensures Valid(Restart()) && Click(Restart(), Coord(3, 2)).cells[14].text == Empty
    ensures Valid(Restart()) && !IsWinning(Click(Restart(), Coord(3, 2)).cells)
    ensures Valid(Restart()) && Click(Restart(), Coord(3, 2)).status == Encourage
  {
    var s := Restart();
    assert Blank(s) == Coord(3, 3);
    ClickMovesIffAdjacent(s, Coord(3, 2));
    ClickStatus(s, Coord(3, 2));
    WinningIffSolved(Click(s, Coord(3, 2)).cells);
  }

  // ---------------------------------------------------------------------------
  // Any sequence of commands

  /** The three things the player can do. */
  datatype Command = ClickAt(p: Coord) | ScrambleWith(order: seq<int>) | RestartGame

  /** A click lands on one of the sixteen buttons, and a scramble draws a
      permutation of 1..16. */
  predicate Allowed(c: Command) {
    match c
    case ClickAt(p) => OnBoard(p)
    case ScrambleWith(order) => IsPermutation16(order)
    case RestartGame => true
  }

  function Step(s: GameState, c: Command): (r: GameState)
    requires Valid(s) && Allowed(c)
    ensures Valid(r)
  {
    match c
    case ClickAt(p) => Click(s, p)
    case ScrambleWith(order) => Scramble(order)
    case RestartGame => Restart()
  }

  /** The session after the commands, one after the other. */
  function Run(s: GameState, cmds: seq<Command>): (r: GameState)
    requires Valid(s) && forall i :: 0 <= i < |cmds| ==> Allowed(cmds[i])
    ensures Valid(r)
    decreases |cmds|
  {
    if cmds == [] then s else Run(Step(s, cmds[0]), cmds[1..])
  }

  /** Whatever the player does from the start, the board holds every tile
      1..15 exactly once and exactly one blank, and the blank colour is
      exactly on the blank cell. */
  lemma AlwaysBijection(cmds: seq<Command>)
    requires forall i :: 0 <= i < |cmds| ==> Allowed(cmds[i])
    ensures Valid(Initial())
    ensures var b := Run(Initial(), cmds).cells;
      |b| == Size &&
      (forall l: Label :: l in Texts(b)) &&
      (forall i, j :: 0 <= i < |b| && 0 <= j < |b| && b[i].text == b[j].text ==> i == j) &&
      (forall k :: 0 <= k < |b| ==> (b[k].colour == BlankColour <==> b[k].text == Empty))
  {
    SolvedWellFormed();
    WellFormedIsBijection(Run(Initial(), cmds).cells);
  }
}
