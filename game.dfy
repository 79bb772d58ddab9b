/** The puzzle engine of the `Application` object: the sixteen buttons it
    keeps (in the order its board dictionary enumerates the keys, row-major),
    the flags `swapped_once` and `scrambled`, and the status message. Every
    state-changing method is proved to take the object from one session value
    to the one the corresponding function of module Session gives. */
module Game {
  import opened Board
  import opened Moves
  import Session

  class Application {
    const board: array<Button>
    var swappedOnce: bool
    var scrambled: bool
    var status: Session.Status

    /** The object invariant: sixteen keys holding a bijection onto the
        tiles 1..15 and the blank. */
    ghost predicate Valid()
      reads this, board
    {
      board.Length == Size && WellFormed(board[..])
    }

    /** The abstract value of the object. */
    ghost function State(): Session.GameState
      reads this, board
    {
      Session.GameState(board[..], swappedOnce, scrambled, status)
    }

    /** The start of the program: welcome message, flags cleared, canonical
        board. */
    constructor ()
      ensures Valid() && fresh(board)
      ensures State() == Session.Initial()
    {
      board := new Button[Size];
      status := Session.Welcome;
      swappedOnce := false;
      scrambled := false;
      new;
      InitiateBoard();
      SolvedWellFormed();
    }

    /** `restart`. */
    method Restart()
      requires Valid()
      modifies this, board
      ensures Valid()
      ensures State() == Session.Restart()
    {
      status := Session.Restarted;
      swappedOnce := false;
      scrambled := false;
      InitiateBoard();
      SolvedWellFormed();
    }

    /** `initiate_board`: fill the keys row by row with 4i + j + 1, the key
        whose number would be 16 getting the blank. */
    method InitiateBoard()
      requires board.Length == Size
      modifies board
      ensures board[..] == Solved()
    {
      var i := 0;
      while i < 4
        invariant 0 <= i <= 4
        invariant forall k :: 0 <= k < 4 * i ==> board[k] == ButtonFor(k + 1)
      {
        var j := 0;
        while j < 4
          invariant 0 <= j <= 4
          invariant forall k :: 0 <= k < 4 * i + j ==> board[k] == ButtonFor(k + 1)
        {
          if 4 * i + j + 1 == 16 {
            board[4 * i + j] := Button(Empty, BlankColour);
          } else {
            board[4 * i + j] := Button(Num(4 * i + j + 1), TileColour);
          }
          j := j + 1;
        }
        i := i + 1;
      }
      assert forall k :: 0 <= k < Size ==> board[..][k] == Solved()[k];
    }

    /** `get_location_of_blank_tile`: the first key, in enumeration order,
        whose button shows no text; None when there is none. */
    method BlankLocation() returns (r: Option<Coord>)
      requires board.Length == Size
      ensures r.Some? ==> OnBoard(r.value) && board[Index(r.value)].text == Empty
      ensures r.Some? ==> forall k :: 0 <= k < Index(r.value) ==> board[k].text != Empty
      ensures r.None? <==> forall k :: 0 <= k < Size ==> board[k].text != Empty
    {
      var k := 0;
      while k < Size
        invariant 0 <= k <= Size
        invariant forall j :: 0 <= j < k ==> board[j].text != Empty
      {
        if board[k].text == Empty {
          return Some(CoordOf(k));
        }
        k := k + 1;
      }
      return None;
    }

    /** `swap`: note the swap, encourage the player unless the board is
        scrambled, and exchange text and colour of the two buttons. */
    method Swap(a: Coord, b: Coord)
      requires Valid() && OnBoard(a) && OnBoard(b)
      modifies this, board
      ensures Valid()
      ensures State() == Session.Swap(old(State()), a, b)
    {
      swappedOnce := true;
      if !scrambled {
        status := Session.Encourage;
      }
      var button := board[Index(a)];
      board[Index(a)] := board[Index(b)];
      board[Index(b)] := button;
      assert board[..] == SwapCells(old(board[..]), Index(a), Index(b));
      SwapPreservesWellFormed(old(board[..]), Index(a), Index(b));
    }

    /** `win`: walk the keys and fail at the first one whose button is not
        where the canonical arrangement puts it. */
    method Win() returns (w: bool)
      requires board.Length == Size
      ensures w == IsWinning(board[..])
    {
      var k := 0;
      while k < Size
        invariant 0 <= k <= Size
        invariant forall j :: 0 <= j < k ==> InPlace(CoordOf(j), board[j].text)
      {
        var key := CoordOf(k);
        match board[k].text {
          case Num(n) =>
            if 4 * key.row + key.col + 1 != n {
              return false;
            }
          case Empty =>
            if 4 * key.row + key.col + 1 != 16 {
              return false;
            }
        }
        k := k + 1;
      }
      return true;
    }

    /** `update`: the handler of a click on the button at p. */
    method Update(p: Coord)
      requires Valid() && OnBoard(p)
      modifies this, board
      ensures Valid()
      ensures State() == Session.Click(old(State()), p)
    {
      ghost var s := State();
      var found := BlankLocation();
      ExactlyOneBlank(board[..]);
      var blank := found.value;
      assert blank == Session.Blank(s);
      if LegalMove(p, blank) {
        var distance := Distance(p, blank);
        if distance == 1 {
          Swap(p, blank);
        }
      }
      var won := Win();
      if won {
        if swappedOnce {
          status := Session.Won;
        }
      }
    }

    /** `scramble`: flags and warning message, then the permutation written
        over the keys in enumeration order, 16 standing for the blank. */
    method Scramble(order: seq<int>)
      requires Valid() && IsPermutation16(order)
      modifies this, board
      ensures Valid()
      ensures State() == Session.Scramble(order)
    {
      scrambled := true;
      swappedOnce := false;
      status := Session.ScrambleWarning;
      PermutationInRange(order);
      var i := 0;
      while i < Size
        invariant 0 <= i <= Size
        invariant forall k :: 0 <= k < i ==> board[k] == ButtonFor(order[k])
        invariant scrambled && !swappedOnce && status == Session.ScrambleWarning
      {
        if order[i] == 16 {
          board[i] := Button(Empty, BlankColour);
        } else {
          board[i] := Button(Num(order[i]), TileColour);
        }
        i := i + 1;
      }
      assert board[..] == Layout(order);
      LayoutWellFormed(order);
    }
  }
}
