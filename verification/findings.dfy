/** Two places where the plugin's code does not do what it evidently means
    to, each modelled as written next to a lemma that exhibits the input on
    which it goes wrong. The corrected behaviour is the one the rest of the
    model uses: `Setup.CheckInput` and `Reveal.GameIsWon`. */
module Findings {
  import opened Grid
  import opened Setup

  const TwoTo31: int := 0x8000_0000
  const TwoTo32: int := 0x1_0000_0000

  /** A value a C++ `int` can hold. */
  predicate IsInt32(x: int) {
    -TwoTo31 <= x < TwoTo31
  }

  /** The value a 32-bit two's-complement product ends up holding. */
  function Wrap32(x: int): (r: int)
    ensures IsInt32(r)
    ensures (x - r) % TwoTo32 == 0
    ensures 0 <= x ==> r <= x
    ensures IsInt32(x) ==> r == x
  {
    var m := x % TwoTo32;
    if m < TwoTo31 then m else m - TwoTo32
  }

  /** The input guard as compiled: the cell count `m_GridWidth * m_GridHeight`
      is computed in 32-bit arithmetic before it is compared with the mine
      count. It never admits a mine count the exact guard refuses, and it
      agrees with the exact guard while the cell count fits in an `int`. */
  function CheckInputAsWritten(width: int, height: int, mines: int): (r: Option<Refusal>)
    requires IsInt32(width) && IsInt32(height) && IsInt32(mines)
    ensures r.None? ==> CheckInput(width, height, mines).None?
    ensures IsInt32(width * height) ==> r == CheckInput(width, height, mines)
  {
    if width < 0 then Some(InvalidWidth)
    else if height < 0 then Some(InvalidHeight)
    else if mines < 0 then Some(InvalidMineCount)
    else if mines > Wrap32(width * height) then Some(TooManyMines)
    else None
  }

  /** A 65536 × 65536 grid has 2^32 cells, but the 32-bit product is 0, so a
      single mine is refused as too many; a 46341 × 46341 grid's product wraps
      to a negative number, so even zero mines are refused. */
  lemma OverflowRefusesValidGrids()
    ensures CheckInput(65536, 65536, 1) == None
    ensures CheckInputAsWritten(65536, 65536, 1) == Some(TooManyMines)
    ensures CheckInput(46341, 46341, 0) == None
    ensures CheckInputAsWritten(46341, 46341, 0) == Some(TooManyMines)
  {
    assert Wrap32(65536 * 65536) == 0;
    assert Wrap32(46341 * 46341) == 46341 * 46341 - TwoTo32;
  }

  /** Every safe cell inside the first `width` columns and `height` rows has
      been revealed. */
  ghost predicate WonWithin(g: Game, width: int, height: int)
    requires Valid(g) && width <= g.width && height <= g.height
  {
    forall q: Pos :: 0 <= q.x < width && 0 <= q.y < height && !At(g, q).isBomb ==> At(g, q).revealed
  }

  /** The win test as written: it walks `m_GridHeight` rows of `m_GridWidth`
      cells, and those fields follow the text boxes keystroke by keystroke,
      not the size of the grid on screen. A larger value indexes past the
      grid, which this model excludes. */
  method GameIsWonAsWritten(g: Game, liveWidth: int, liveHeight: int) returns (won: bool)
    requires Valid(g) && liveWidth <= g.width && liveHeight <= g.height
    ensures won <==> WonWithin(g, liveWidth, liveHeight)
  {
    var i := 0;
    while i < liveHeight
      invariant 0 <= i <= g.height && (0 <= liveHeight ==> i <= liveHeight)
      invariant forall q: Pos :: 0 <= q.x < liveWidth && 0 <= q.y < i && !At(g, q).isBomb ==> At(g, q).revealed
    {
      var j := 0;
      while j < liveWidth
        invariant 0 <= j <= g.width && (0 <= liveWidth ==> j <= liveWidth)
        invariant i < liveHeight
        invariant forall q: Pos :: 0 <= q.x < liveWidth && 0 <= q.y < i && !At(g, q).isBomb ==> At(g, q).revealed
        invariant forall q: Pos :: 0 <= q.x < j && q.y == i && !At(g, q).isBomb ==> At(g, q).revealed
      {
        if !g.cells[i][j].isBomb && !g.cells[i][j].revealed {
          assert !At(g, Pos(j, i)).revealed;
          return false;
        }
        j := j + 1;
      }
      i := i + 1;
    }
    return true;
  }

  /** While the text boxes still hold the grid's size, the win test as written
      is the intended one. */
  lemma WonWithinGridSize(g: Game)
    requires Valid(g)
    ensures WonWithin(g, g.width, g.height) <==> Won(g)
  {
  }

  /** A 2 × 1 grid without mines, after non-numeric text in the height box
      (the field becomes -1) and a click on the left cell: the click disables
      that cell and then runs the win test, which sees the right cell still
      hidden. The game is not won, yet the win test as written reports a win. */
  lemma StaleHeightReportsWin()
    ensures var g := Update(EmptyGrid(2, 1), Pos(0, 0), FreshCell.(revealed := true));
            && Valid(g) && !Won(g) && WonWithin(g, 2, -1)
            && At(g, Pos(0, 0)).revealed && !At(g, Pos(1, 0)).revealed
  {
    var g := Update(EmptyGrid(2, 1), Pos(0, 0), FreshCell.(revealed := true));
    assert !At(g, Pos(1, 0)).isBomb && !At(g, Pos(1, 0)).revealed;
  }
}
