/** The 4x4 board of the 15 puzzle as a value: sixteen buttons in row-major
    order (the cell at row r, column c sits at index 4r + c), each showing a
    label and a background colour. */
module Board {

  datatype Option<T> = None | Some(value: T)

  /** The numbers a tile can show. */
  type TileNumber = n: int | 1 <= n <= 15 witness 1

  /** A button's label: a tile number, or the empty text of the blank cell. */
  datatype Label = Num(n: TileNumber) | Empty

  /** The two background colours: the tile colour and the blank colour. */
  datatype Colour = TileColour | BlankColour

  datatype Button = Button(text: Label, colour: Colour)

  /** A grid coordinate (row, column). */
  datatype Coord = Coord(row: int, col: int)

  const Size: nat := 16

  predicate OnBoard(p: Coord) {
    0 <= p.row < 4 && 0 <= p.col < 4
  }

  /** Position of a coordinate in the row-major enumeration of the keys. */
  function Index(p: Coord): (k: int)
    ensures OnBoard(p) ==> 0 <= k < Size
  {
    4 * p.row + p.col
  }

  /** Coordinate of the k-th key in row-major order. */
  function CoordOf(k: int): (p: Coord)
    requires 0 <= k < Size
    ensures OnBoard(p) && Index(p) == k
  {
    Coord(k / 4, k % 4)
  }

  /** The colour a button with this label is given. */
  function ColourOf(l: Label): Colour {
    if l.Empty? then BlankColour else TileColour
  }

  /** The button laid down for value v of 1..16, where 16 stands for the blank. */
  function ButtonFor(v: int): (b: Button)
    requires 1 <= v <= 16
    ensures b.colour == ColourOf(b.text)
    ensures b.text.Empty? <==> v == 16
  {
    if v == 16 then Button(Empty, BlankColour) else Button(Num(v), TileColour)
  }

  /** The value 1..16 a label stands for; the blank is 16. */
  function Code(l: Label): (v: int)
    ensures 1 <= v <= 16
    ensures ButtonFor(v).text == l
  {
    match l
    case Num(n) => n
    case Empty => 16
  }

  /** The labels of the cells, in key order. */
  function Texts(s: seq<Button>): seq<Label> {
    seq(|s|, k requires 0 <= k < |s| => s[k].text)
  }

  function Codes(s: seq<Button>): (c: seq<int>)
    ensures |c| == |s|
  {
    seq(|s|, k requires 0 <= k < |s| => Code(s[k].text))
  }

  /** The sequence 1, 2, ..., n. */
  function Iota(n: nat): (s: seq<int>)
    ensures |s| == n
  {
    seq(n, k => k + 1)
  }

  /** A permutation of 1..16, as produced by sampling 16 values out of 1..16. */
  predicate IsPermutation16(order: seq<int>) {
    multiset(order) == multiset(Iota(Size))
  }

  /** The board invariant: sixteen cells whose values are a permutation of
      1..15 and the blank, each coloured according to its label. */
  predicate WellFormed(s: seq<Button>) {
    |s| == Size &&
    (forall k :: 0 <= k < |s| ==> s[k].colour == ColourOf(s[k].text)) &&
    IsPermutation16(Codes(s))
  }

  /** The board laid out from a sequence of sixteen values, key by key. */
  function Layout(order: seq<int>): (s: seq<Button>)
    requires |order| == Size
    requires forall k :: 0 <= k < |order| ==> 1 <= order[k] <= 16
    ensures |s| == Size
    ensures forall k :: 0 <= k < Size ==> s[k].colour == ColourOf(s[k].text)
    ensures Codes(s) == order
  {
    seq(Size, k requires 0 <= k < Size => ButtonFor(order[k]))
  }

  /** The canonical arrangement: the cell at index k shows k + 1, and the
      last cell, (3, 3), is the blank. */
  function Solved(): (s: seq<Button>)
    ensures |s| == Size && Codes(s) == Iota(Size)
    ensures s[Size - 1] == Button(Empty, BlankColour)
    ensures forall k :: 0 <= k < Size - 1 ==> s[k] == Button(Num(k + 1), TileColour)
  {
    Layout(Iota(Size))
  }

  /** Exchange the buttons (label and colour together) at i and j. */
  function SwapCells(s: seq<Button>, i: int, j: int): (r: seq<Button>)
    requires 0 <= i < |s| && 0 <= j < |s|
    ensures |r| == |s|
    ensures r[i] == s[j] && r[j] == s[i]
    ensures forall k :: 0 <= k < |s| && k != i && k != j ==> r[k] == s[k]
  {
    s[i := s[j]][j := s[i]]
  }

  /** Whether the label at key p is where the win check expects it: a number
      must equal 4r + c + 1, and the blank is only accepted where that is 16. */
  predicate InPlace(p: Coord, l: Label)
    ensures OnBoard(p) ==> (InPlace(p, l) <==> l == ButtonFor(Index(p) + 1).text)
  {
    match l
    case Num(n) => 4 * p.row + p.col + 1 == n
    case Empty => 4 * p.row + p.col + 1 == 16
  }

  /** The win check over all sixteen keys. */
  predicate IsWinning(s: seq<Button>)
    requires |s| == Size
    ensures IsWinning(s) <==> forall k :: 0 <= k < Size ==> s[k].text == Solved()[k].text
  {
    forall k :: 0 <= k < Size ==> InPlace(CoordOf(k), s[k].text)
  }

  // ---------------------------------------------------------------------------
  // Counting lemmas behind the bijection invariant

  lemma {:induction false} CountIota(n: nat, v: int)
    ensures multiset(Iota(n))[v] == if 1 <= v <= n then 1 else 0
  {
    if n > 0 {
      assert Iota(n) == Iota(n - 1) + [n];
      CountIota(n - 1, v);
    }
  }

  /** A value that occurs at two different indices is counted at least twice. */
  lemma OccursTwice(c: seq<int>, i: int, j: int)
    requires 0 <= i < |c| && 0 <= j < |c| && i != j && c[i] == c[j]
    ensures multiset(c)[c[i]] >= 2
  {
    assert c == c[..i] + [c[i]] + c[i + 1..];
    if j < i {
      assert c[j] == c[..i][j];
      assert c[..i][j] in multiset(c[..i]);
    } else {
      assert c[j] == c[i + 1..][j - i - 1];
      assert c[i + 1..][j - i - 1] in multiset(c[i + 1..]);
    }
  }

  /** A well-formed board is a bijection from the sixteen cells onto the
      sixteen labels: no label occurs twice and every label occurs. */
  lemma WellFormedIsBijection(s: seq<Button>)
    requires WellFormed(s)
    ensures forall i, j :: 0 <= i < |s| && 0 <= j < |s| && s[i].text == s[j].text ==> i == j
    ensures forall l: Label :: l in Texts(s)
  {
    var c := Codes(s);
    forall i, j | 0 <= i < |s| && 0 <= j < |s| && s[i].text == s[j].text
      ensures i == j
    {
      if i != j {
        assert c[i] == c[j];
        OccursTwice(c, i, j);
        CountIota(Size, c[i]);
      }
    }
    forall l: Label
      ensures l in Texts(s)
    {
      CountIota(Size, Code(l));
      assert Code(l) in multiset(c);
      var k :| 0 <= k < |c| && c[k] == Code(l);
      assert s[k].text == ButtonFor(c[k]).text;
      assert Texts(s)[k] == l;
    }
  }

  /** Exactly one cell of a well-formed board is blank. */
  lemma ExactlyOneBlank(s: seq<Button>)
    requires WellFormed(s)
    ensures exists k :: 0 <= k < |s| && s[k].text == Empty
    ensures forall i, j :: 0 <= i < |s| && 0 <= j < |s| && s[i].text == Empty && s[j].text == Empty ==> i == j
  {
    WellFormedIsBijection(s);
    assert Empty in Texts(s);
  }

  /** Every tile number occurs exactly once on a well-formed board. */
  lemma EachTileOnce(s: seq<Button>, n: TileNumber)
    requires WellFormed(s)
    ensures exists k :: 0 <= k < |s| && s[k].text == Num(n)
    ensures forall i, j :: 0 <= i < |s| && 0 <= j < |s| && s[i].text == Num(n) && s[j].text == Num(n) ==> i == j
  {
    WellFormedIsBijection(s);
    assert Num(n) in Texts(s);
  }

  /** The index of the blank cell of a well-formed board. */
  function BlankIndex(s: seq<Button>): (k: int)
    requires WellFormed(s)
    ensures 0 <= k < |s| && s[k].text == Empty && s[k].colour == BlankColour
    ensures forall j :: 0 <= j < |s| && s[j].text == Empty ==> j == k
  {
    ExactlyOneBlank(s);
    var k :| 0 <= k < |s| && s[k].text == Empty;
    k
  }

  // ---------------------------------------------------------------------------
  // Swap

  /** Swapping keeps the board a bijection: the multiset of values is kept. */
  lemma SwapPreservesWellFormed(s: seq<Button>, i: int, j: int)
    requires WellFormed(s) && 0 <= i < |s| && 0 <= j < |s|
    ensures WellFormed(SwapCells(s, i, j))
  {
    var r := SwapCells(s, i, j);
    assert Codes(r) == Codes(s)[i := Codes(s)[j]][j := Codes(s)[i]];
  }

  /** Swapping the same two cells twice restores the board. */
  lemma SwapTwice(s: seq<Button>, i: int, j: int)
    requires 0 <= i < |s| && 0 <= j < |s|
    ensures SwapCells(SwapCells(s, i, j), i, j) == s
  {
  }

  /** The order of the two cells does not matter. */
  lemma SwapSymmetric(s: seq<Button>, i: int, j: int)
    requires 0 <= i < |s| && 0 <= j < |s|
    ensures SwapCells(s, i, j) == SwapCells(s, j, i)
  {
  }

  /** Swapping two different cells of a well-formed board changes it. */
  lemma SwapDistinctChanges(s: seq<Button>, i: int, j: int)
    requires WellFormed(s) && 0 <= i < |s| && 0 <= j < |s|
    ensures SwapCells(s, i, j) != s <==> i != j
  {
    WellFormedIsBijection(s);
    if i != j {
      assert SwapCells(s, i, j)[i] == s[j];
      assert s[j].text != s[i].text;
    }
  }

  // ---------------------------------------------------------------------------
  // Layouts: the canonical one and the scrambled ones

  /** The values of a permutation all lie in 1..16. */
  lemma PermutationInRange(order: seq<int>)
    requires IsPermutation16(order)
    ensures |order| == Size
    ensures forall k :: 0 <= k < |order| ==> 1 <= order[k] <= 16
  {
    assert |order| == |multiset(order)| == |multiset(Iota(Size))| == Size;
    forall k | 0 <= k < |order|
      ensures 1 <= order[k] <= 16
    {
      assert order[k] in multiset(order);
      CountIota(Size, order[k]);
    }
  }

  /** Laying out a permutation of 1..16 gives a well-formed board whose
      values, read back in key order, are that permutation. */
  lemma LayoutWellFormed(order: seq<int>)
    requires IsPermutation16(order)
    ensures |order| == Size && forall k :: 0 <= k < |order| ==> 1 <= order[k] <= 16
    ensures WellFormed(Layout(order)) && Codes(Layout(order)) == order
  {
    PermutationInRange(order);
    var s := Layout(order);
    forall k | 0 <= k < Size
      ensures Codes(s)[k] == order[k]
    {
      assert s[k] == ButtonFor(order[k]);
    }
    assert Codes(s) == order;
  }

  /** The canonical arrangement holds 4r + c + 1 at (r, c), the blank at (3, 3). */
  lemma SolvedLayout(r: int, c: int)
    requires 0 <= r < 4 && 0 <= c < 4
    ensures (r, c) == (3, 3) ==> Solved()[4 * r + c] == Button(Empty, BlankColour)
    ensures (r, c) != (3, 3) ==> Solved()[4 * r + c] == Button(Num(4 * r + c + 1), TileColour)
  {
  }

  lemma SolvedWellFormed()
    ensures WellFormed(Solved())
  {
    LayoutWellFormed(Iota(Size));
  }

  /** The win check accepts exactly the canonical arrangement: any misplaced
      tile, and a blank anywhere but (3, 3), makes it fail. */
  lemma WinningIffSolved(s: seq<Button>)
    requires |s| == Size
    requires forall k :: 0 <= k < |s| ==> s[k].colour == ColourOf(s[k].text)
    ensures IsWinning(s) <==> s == Solved()
  {
    if IsWinning(s) {
      forall k | 0 <= k < Size
        ensures s[k] == Solved()[k]
      {
        assert InPlace(CoordOf(k), s[k].text);
      }
    }
    if s == Solved() {
      forall k | 0 <= k < Size
        ensures InPlace(CoordOf(k), s[k].text)
      {
        assert s[k] == ButtonFor(k + 1);
      }
    }
  }

  /** A scrambled layout wins exactly when the permutation is the identity. */
  lemma LayoutWinsIffIdentity(order: seq<int>)
    requires IsPermutation16(order)
    ensures |order| == Size && forall k :: 0 <= k < |order| ==> 1 <= order[k] <= 16
    ensures IsWinning(Layout(order)) <==> order == Iota(Size)
  {
    LayoutWellFormed(order);
    LayoutWellFormed(Iota(Size));
    WinningIffSolved(Layout(order));
  }
}
