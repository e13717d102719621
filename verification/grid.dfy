/** The data of the Minesweeper engine: positions, cells, the row-major grid
    of cells, and the predicates the operations of the other modules keep.

    A cell's button in the plugin is reduced to two plain fields: `revealed`
    (the button has been disabled) and `shown` (the label the button shows). */
module Grid {

  datatype Option<+T> = None | Some(value: T)

  /** A grid coordinate: `x` is the column, `y` the row. */
  datatype Pos = Pos(x: int, y: int)

  /** What a cell's button shows: nothing, its surrounding-bomb count, or "X". */
  datatype Label = Blank | Number(n: nat) | Bomb

  /** One cell's data. `surrounding` counts the bombs of the cell's 3×3 block,
      the cell itself included. */
  datatype Cell = Cell(isBomb: bool, surrounding: nat, revealed: bool, shown: Label)

  /** A default-constructed cell under a freshly built button. */
  const FreshCell: Cell := Cell(false, 0, false, Blank)

  /** The grid, stored row first: `cells[y][x]` for `y < height`, `x < width`. */
  datatype Game = Game(width: nat, height: nat, cells: seq<seq<Cell>>)

  predicate Valid(g: Game) {
    && |g.cells| == g.height
    && forall y :: 0 <= y < g.height ==> |g.cells[y]| == g.width
  }

  predicate InGrid(g: Game, p: Pos) {
    0 <= p.x < g.width && 0 <= p.y < g.height
  }

  function At(g: Game, p: Pos): Cell
    requires Valid(g) && InGrid(g, p)
  {
    g.cells[p.y][p.x]
  }

  /** The grid with the cell at `p` replaced by `c`. */
  function Update(g: Game, p: Pos, c: Cell): (r: Game)
    requires Valid(g) && InGrid(g, p)
    ensures Valid(r) && r.width == g.width && r.height == g.height
    ensures At(r, p) == c
    ensures forall q {:trigger At(r, q)} :: InGrid(g, q) && q != p ==> At(r, q) == At(g, q)
  {
    Game(g.width, g.height, g.cells[p.y := g.cells[p.y][p.x := c]])
  }

  /** `q` lies in the 3×3 block centred on `p` (a cell lies in its own block). */
  predicate Adjacent(p: Pos, q: Pos) {
    -1 <= p.x - q.x <= 1 && -1 <= p.y - q.y <= 1
  }

  /** The coordinates of the bomb cells. */
  function Bombs(g: Game): (s: set<Pos>)
    requires Valid(g)
    ensures forall p {:trigger p in s} :: p in s <==> InGrid(g, p) && At(g, p).isBomb
  {
    set y, x | 0 <= y < g.height && 0 <= x < g.width && g.cells[y][x].isBomb :: Pos(x, y)
  }

  /** The coordinates of the cells still hidden (buttons still enabled). */
  ghost function Hidden(g: Game): (s: set<Pos>)
    requires Valid(g)
    ensures forall p {:trigger p in s} :: p in s <==> InGrid(g, p) && !At(g, p).revealed
  {
    set y, x | 0 <= y < g.height && 0 <= x < g.width && !g.cells[y][x].revealed :: Pos(x, y)
  }

  /** The number of positions of `s` in the 3×3 block around `p`. */
  function CountAdjacent(s: set<Pos>, p: Pos): nat {
    |set q | q in s && Adjacent(p, q)|
  }

  /** The number of bombs in the in-bounds part of the 3×3 block around `p`. */
  function BombsAround(g: Game, p: Pos): nat
    requires Valid(g)
  {
    CountAdjacent(Bombs(g), p)
  }

  /** Every cell's stored count agrees with the bomb layout. */
  ghost predicate CountsMatch(g: Game) {
    && Valid(g)
    && forall p :: InGrid(g, p) ==> At(g, p).surrounding == BombsAround(g, p)
  }

  /** `r` has the same size, bombs and counts as `g`. */
  ghost predicate SameLayout(g: Game, r: Game) {
    && Valid(g) && Valid(r)
    && r.width == g.width && r.height == g.height
    && forall p :: InGrid(g, p) ==>
         At(r, p).isBomb == At(g, p).isBomb && At(r, p).surrounding == At(g, p).surrounding
  }

  /** Every cell revealed in `g` is still revealed in `r`. */
  ghost predicate Grows(g: Game, r: Game) {
    && Valid(g) && Valid(r)
    && r.width == g.width && r.height == g.height
    && forall p :: InGrid(g, p) && At(g, p).revealed ==> At(r, p).revealed
  }

  /** Some bomb cell has been revealed. */
  ghost predicate Lost(g: Game)
    requires Valid(g)
  {
    exists p :: InGrid(g, p) && At(g, p).isBomb && At(g, p).revealed
  }

  /** Every cell that is not a bomb has been revealed. */
  ghost predicate Won(g: Game)
    requires Valid(g)
  {
    forall p :: InGrid(g, p) && !At(g, p).isBomb ==> At(g, p).revealed
  }

  /** The label a cell shows: "X" on every bomb once the game is lost, the count
      on a revealed cell with bombs around it, and nothing otherwise. */
  function Shows(c: Cell, lost: bool): Label {
    if c.isBomb then (if lost then Bomb else Blank)
    else if c.revealed && c.surrounding != 0 then Number(c.surrounding)
    else Blank
  }

  /** Every button shows what the state of its cell calls for. */
  ghost predicate LabelsAgree(g: Game) {
    && Valid(g)
    && forall p :: InGrid(g, p) ==> At(g, p).shown == Shows(At(g, p), Lost(g))
  }

  /** A safe cell with no bomb in its block: revealing it opens its neighbours. */
  predicate Empty(c: Cell) {
    !c.isBomb && c.surrounding == 0
  }

  /** Every in-bounds cell of the block around `q` is revealed. */
  ghost predicate OpenAround(g: Game, q: Pos)
    requires Valid(g)
  {
    forall d :: InGrid(g, d) && Adjacent(q, d) ==> At(g, d).revealed
  }

  /** Every revealed safe cell with no bomb around it has its whole block revealed:
      the state a completed flood fill leaves behind. */
  ghost predicate Closed(g: Game) {
    && Valid(g)
    && forall q :: InGrid(g, q) && At(g, q).revealed && Empty(At(g, q)) ==> OpenAround(g, q)
  }

  /** Two valid grids of one size that agree on every cell are the same grid. */
  lemma GameExt(a: Game, b: Game)
    requires Valid(a) && Valid(b) && a.width == b.width && a.height == b.height
    requires forall q :: InGrid(a, q) ==> At(a, q) == At(b, q)
    ensures a == b
  {
    forall y | 0 <= y < a.height
      ensures a.cells[y] == b.cells[y]
    {
      forall x | 0 <= x < a.width
        ensures a.cells[y][x] == b.cells[y][x]
      {
        assert At(a, Pos(x, y)) == At(b, Pos(x, y));
      }
    }
  }

  lemma SameLayoutBombs(g: Game, r: Game)
    requires SameLayout(g, r)
    ensures Bombs(r) == Bombs(g)
    ensures CountsMatch(g) ==> CountsMatch(r)
  {
    assert Bombs(r) == Bombs(g);
    if CountsMatch(g) {
      forall p | InGrid(r, p)
        ensures At(r, p).surrounding == BombsAround(r, p)
      {
        assert InGrid(g, p);
      }
    }
  }

  lemma GrowsHidden(g: Game, r: Game)
    requires Grows(g, r)
    ensures Hidden(r) <= Hidden(g)
  {
  }

  lemma SubsetCard<T>(a: set<T>, b: set<T>)
    requires a <= b
    ensures |a| <= |b|
  {
    if a != {} {
      var e :| e in a;
      SubsetCard(a - {e}, b - {e});
    }
  }
}
