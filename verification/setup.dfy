/** Building a new game: the input guard of the "Generate New Grid" button,
    the construction of the cell grid, and the random placement of bombs with
    the bump of the counts around each one. */
module Setup {
  import opened Grid

  /** Why a new grid is refused, one per warning the guard logs. */
  datatype Refusal = InvalidWidth | InvalidHeight | InvalidMineCount | TooManyMines

  /** The result of pressing "Generate New Grid". On `Refused` the grid on
      screen is left as it was; `DrawsExhausted` means the random positions
      supplied ran out before every bomb found a free cell. */
  datatype Generated = Refused(reason: Refusal) | Built(game: Game) | DrawsExhausted

  /** The guard run before a grid is built: the first failing test decides. */
  function CheckInput(width: int, height: int, mines: int): (r: Option<Refusal>)
    ensures r.None? <==> 0 <= width && 0 <= height && 0 <= mines <= width * height
    ensures r == Some(InvalidWidth) <==> width < 0
    ensures r == Some(InvalidHeight) <==> 0 <= width && height < 0
    ensures r == Some(InvalidMineCount) <==> 0 <= width && 0 <= height && mines < 0
    ensures r == Some(TooManyMines) <==> 0 <= width && 0 <= height && 0 <= mines && mines > width * height
  {
    if width < 0 then Some(InvalidWidth)
    else if height < 0 then Some(InvalidHeight)
    else if mines < 0 then Some(InvalidMineCount)
    else if mines > width * height then Some(TooManyMines)
    else None
  }

  /** `r` has the same size and the same revealed flags and labels as `g`. */
  ghost predicate SameView(g: Game, r: Game) {
    && Valid(g) && Valid(r)
    && r.width == g.width && r.height == g.height
    && forall q :: InGrid(g, q) ==> At(r, q).revealed == At(g, q).revealed && At(r, q).shown == At(g, q).shown
  }

  /** What a newly generated game looks like: the requested size, exactly
      `mines` bombs, counts that agree with them, nothing revealed, and every
      button blank. */
  ghost predicate NewGame(g: Game, width: int, height: int, mines: int) {
    && Valid(g)
    && g.width == width && g.height == height
    && |Bombs(g)| == mines
    && CountsMatch(g)
    && (forall q :: InGrid(g, q) ==> !At(g, q).revealed && At(g, q).shown == Blank)
    && !Lost(g)
    && LabelsAgree(g)
    && Closed(g)
  }

  /** A `width × height` grid of default cells. */
  function EmptyGrid(width: nat, height: nat): (g: Game)
    ensures Valid(g) && g.width == width && g.height == height
    ensures Bombs(g) == {}
    ensures CountsMatch(g)
    ensures forall q :: InGrid(g, q) ==> !At(g, q).revealed && At(g, q).shown == Blank && At(g, q).surrounding == 0
  {
    var g := Game(width, height, seq(height, _ => seq(width, _ => FreshCell)));
    assert forall q :: InGrid(g, q) ==> At(g, q) == FreshCell;
    g
  }

  /** The grid with the count of every cell adjacent to `p` one higher. */
  function Bumped(g: Game, p: Pos): (r: Game)
    requires Valid(g)
    ensures Valid(r) && r.width == g.width && r.height == g.height
    ensures forall q {:trigger At(r, q)} :: InGrid(g, q) ==>
              At(r, q) == At(g, q).(surrounding := At(g, q).surrounding + if Adjacent(p, q) then 1 else 0)
  {
    Game(g.width, g.height,
         seq(g.height, y requires 0 <= y < g.height =>
           seq(g.width, x requires 0 <= x < g.width =>
             g.cells[y][x].(surrounding := g.cells[y][x].surrounding + if Adjacent(p, Pos(x, y)) then 1 else 0))))
  }

  /** IncrementBombCountOfSurroundingCells: walks the 3×3 block around `p`
      row by row and bumps the count of each cell of it inside the grid. */
  method IncrementBombCountOfSurroundingCells(g: Game, p: Pos) returns (r: Game)
    requires Valid(g)
    ensures r == Bumped(g, p)
  {
    r := g;
    for i := p.y - 1 to p.y + 2
      invariant Valid(r) && r.width == g.width && r.height == g.height
      invariant forall q {:trigger At(r, q)} :: InGrid(g, q) ==>
                  At(r, q) == At(g, q).(surrounding := At(g, q).surrounding + if Adjacent(p, q) && q.y < i then 1 else 0)
    {
      for j := p.x - 1 to p.x + 2
        invariant Valid(r) && r.width == g.width && r.height == g.height
        invariant forall q {:trigger At(r, q)} :: InGrid(g, q) ==>
                    At(r, q) == At(g, q).(surrounding := At(g, q).surrounding +
                                            if Adjacent(p, q) && (q.y < i || (q.y == i && q.x < j)) then 1 else 0)
      {
        if 0 <= i < r.height && 0 <= j < r.width {
          var q := Pos(j, i);
          r := Update(r, q, At(r, q).(surrounding := At(r, q).surrounding + 1));
        }
      }
    }
    GameExt(r, Bumped(g, p));
  }

  /** Turns the cell at `p` into a bomb and bumps the counts around it. */
  function PlaceBomb(g: Game, p: Pos): (r: Game)
    requires Valid(g) && InGrid(g, p) && !At(g, p).isBomb
    ensures Valid(r) && r.width == g.width && r.height == g.height
  {
    Bumped(Update(g, p, At(g, p).(isBomb := true)), p)
  }

  /** The new bomb changes no button, adds exactly `p` to the bombs, and raises
      exactly the counts of its block. */
  lemma PlaceBombFacts(g: Game, p: Pos)
    requires Valid(g) && InGrid(g, p) && !At(g, p).isBomb
    ensures SameView(g, PlaceBomb(g, p))
    ensures Bombs(PlaceBomb(g, p)) == Bombs(g) + {p}
    ensures forall q :: InGrid(g, q) ==>
              At(PlaceBomb(g, p), q).surrounding == At(g, q).surrounding + if Adjacent(p, q) then 1 else 0
  {
    PlaceBombCells(g, p, PlaceBomb(g, p));
  }

  lemma PlaceBombCells(g: Game, p: Pos, r: Game)
    requires Valid(g) && InGrid(g, p)
    requires Valid(r) && r.width == g.width && r.height == g.height
    requires forall q {:trigger At(r, q)} :: InGrid(g, q) ==>
               At(r, q) == (if q == p then At(g, q).(isBomb := true) else At(g, q))
                             .(surrounding := At(g, q).surrounding + if Adjacent(p, q) then 1 else 0)
    ensures SameView(g, r)
    ensures Bombs(r) == Bombs(g) + {p}
    ensures forall q :: InGrid(g, q) ==>
              At(r, q).surrounding == At(g, q).surrounding + if Adjacent(p, q) then 1 else 0
  {
  }

  /** Adding `p` to a set of bombs raises the count around `q` by one exactly
      when `p` lies in the block around `q`. */
  lemma CountAfterAdding(s: set<Pos>, p: Pos, q: Pos)
    requires p !in s
    ensures CountAdjacent(s + {p}, q) == CountAdjacent(s, q) + if Adjacent(q, p) then 1 else 0
  {
    var before := set b | b in s && Adjacent(q, b);
    var after := set b | b in s + {p} && Adjacent(q, b);
    if Adjacent(q, p) {
      assert after == before + {p};
    } else {
      assert after == before;
    }
  }

  /** Placing a bomb keeps every count in agreement with the layout: the new
      bomb adds one to exactly the cells of its block. */
  lemma PlaceBombKeepsCounts(g: Game, p: Pos)
    requires Valid(g) && InGrid(g, p) && !At(g, p).isBomb
    ensures CountsMatch(g) ==> CountsMatch(PlaceBomb(g, p))
  {
    if CountsMatch(g) {
      PlaceBombFacts(g, p);
      CountsAfterNewBomb(g, p, PlaceBomb(g, p));
    }
  }

  lemma CountsAfterNewBomb(g: Game, p: Pos, r: Game)
    requires CountsMatch(g) && InGrid(g, p) && !At(g, p).isBomb
    requires Valid(r) && r.width == g.width && r.height == g.height
    requires Bombs(r) == Bombs(g) + {p}
    requires forall q :: InGrid(g, q) ==>
               At(r, q).surrounding == At(g, q).surrounding + if Adjacent(p, q) then 1 else 0
    ensures CountsMatch(r)
  {
    forall q | InGrid(r, q)
      ensures At(r, q).surrounding == BombsAround(r, q)
    {
      CountAfterAdding(Bombs(g), p, q);
    }
  }

  /** The distinct positions of a stream of draws. */
  function Drawn(draws: seq<Pos>): set<Pos> {
    set d | d in draws
  }

  /** Every draw names a cell of a `width × height` grid. */
  predicate DrawsFit(draws: seq<Pos>, width: nat, height: nat) {
    forall i :: 0 <= i < |draws| ==> 0 <= draws[i].x < width && 0 <= draws[i].y < height
  }

  /** The bomb-placing loop of InitGame, fed with the stream of positions the
      random generator draws: a draw that lands on a bomb is rejected and the
      next one is taken. `None` when the stream runs out before `mines` bombs
      are placed. */
  function PlaceDraws(g: Game, mines: nat, draws: seq<Pos>): (r: Option<Game>)
    requires Valid(g) && DrawsFit(draws, g.width, g.height)
    ensures r.Some? ==> Valid(r.value) && r.value.width == g.width && r.value.height == g.height
    decreases |draws|
  {
    if mines == 0 then Some(g)
    else if |draws| == 0 then None
    else if At(g, draws[0]).isBomb then PlaceDraws(g, mines, draws[1..])
    else PlaceDraws(PlaceBomb(g, draws[0]), mines - 1, draws[1..])
  }

  lemma DrawnCons(draws: seq<Pos>)
    requires |draws| > 0
    ensures Drawn(draws) == {draws[0]} + Drawn(draws[1..])
  {
  }

  /** Placing bombs leaves every button as it was. */
  lemma {:induction false} PlaceDrawsView(g: Game, mines: nat, draws: seq<Pos>, r: Game)
    requires Valid(g) && DrawsFit(draws, g.width, g.height)
    requires PlaceDraws(g, mines, draws) == Some(r)
    ensures SameView(g, r)
    decreases |draws|, 1
  {
    if mines != 0 && |draws| != 0 {
      if At(g, draws[0]).isBomb {
        PlaceDrawsView(g, mines, draws[1..], r);
      } else {
        ViewAfterTake(g, mines, draws, r);
      }
    }
  }

  lemma {:induction false} ViewAfterTake(g: Game, mines: nat, draws: seq<Pos>, r: Game)
    requires Valid(g) && DrawsFit(draws, g.width, g.height)
    requires mines > 0 && |draws| > 0 && !At(g, draws[0]).isBomb
    requires PlaceDraws(PlaceBomb(g, draws[0]), mines - 1, draws[1..]) == Some(r)
    ensures SameView(g, r)
    decreases |draws|, 0
  {
    PlaceBombFacts(g, draws[0]);
    PlaceDrawsView(PlaceBomb(g, draws[0]), mines - 1, draws[1..], r);
  }

  /** The bombs placed are `mines` new ones, all taken from the draws. */
  lemma {:induction false} PlaceDrawsBombs(g: Game, mines: nat, draws: seq<Pos>, r: Game)
    requires Valid(g) && DrawsFit(draws, g.width, g.height)
    requires PlaceDraws(g, mines, draws) == Some(r)
    ensures Bombs(g) <= Bombs(r) <= Bombs(g) + Drawn(draws)
    ensures |Bombs(r)| == |Bombs(g)| + mines
    decreases |draws|, 1
  {
    if mines != 0 && |draws| != 0 {
      if At(g, draws[0]).isBomb {
        DrawnCons(draws);
        PlaceDrawsBombs(g, mines, draws[1..], r);
      } else {
        BombsAfterTake(g, mines, draws, r);
      }
    }
  }

  lemma {:induction false} BombsAfterTake(g: Game, mines: nat, draws: seq<Pos>, r: Game)
    requires Valid(g) && DrawsFit(draws, g.width, g.height)
    requires mines > 0 && |draws| > 0 && !At(g, draws[0]).isBomb
    requires PlaceDraws(PlaceBomb(g, draws[0]), mines - 1, draws[1..]) == Some(r)
    ensures Bombs(g) <= Bombs(r) <= Bombs(g) + Drawn(draws)
    ensures |Bombs(r)| == |Bombs(g)| + mines
    decreases |draws|, 0
  {
    var d := draws[0];
    DrawnCons(draws);
    PlaceBombFacts(g, d);
    var g' := PlaceBomb(g, d);
    PlaceDrawsBombs(g', mines - 1, draws[1..], r);
    assert d !in Bombs(g);
    OneMoreBomb(Bombs(g), Bombs(g'), Bombs(r), Drawn(draws), Drawn(draws[1..]), d);
  }

  /** The set arithmetic of one placed bomb. */
  lemma OneMoreBomb(before: set<Pos>, after: set<Pos>, final: set<Pos>, drawn: set<Pos>, rest: set<Pos>, d: Pos)
    requires d !in before && after == before + {d}
    requires after <= final <= after + rest
    requires drawn == {d} + rest
    ensures before <= final <= before + drawn
    ensures |after| == |before| + 1
  {
  }

  /** Placing bombs keeps the counts in agreement with the layout. */
  lemma {:induction false} PlaceDrawsCounts(g: Game, mines: nat, draws: seq<Pos>, r: Game)
    requires CountsMatch(g) && DrawsFit(draws, g.width, g.height)
    requires PlaceDraws(g, mines, draws) == Some(r)
    ensures CountsMatch(r)
    decreases |draws|, 1
  {
    if mines != 0 && |draws| != 0 {
      if At(g, draws[0]).isBomb {
        PlaceDrawsCounts(g, mines, draws[1..], r);
      } else {
        CountsAfterTake(g, mines, draws, r);
      }
    }
  }

  lemma {:induction false} CountsAfterTake(g: Game, mines: nat, draws: seq<Pos>, r: Game)
    requires CountsMatch(g) && DrawsFit(draws, g.width, g.height)
    requires mines > 0 && |draws| > 0 && !At(g, draws[0]).isBomb
    requires PlaceDraws(PlaceBomb(g, draws[0]), mines - 1, draws[1..]) == Some(r)
    ensures CountsMatch(r)
    decreases |draws|, 0
  {
    PlaceBombKeepsCounts(g, draws[0]);
    PlaceDrawsCounts(PlaceBomb(g, draws[0]), mines - 1, draws[1..], r);
  }

  /** Rejection sampling runs out of draws only when the stream holds fewer
      than `mines` distinct cells that are not bombs yet. */
  lemma {:induction false} PlaceDrawsFails(g: Game, mines: nat, draws: seq<Pos>)
    requires Valid(g) && DrawsFit(draws, g.width, g.height)
    requires PlaceDraws(g, mines, draws) == None
    ensures |Drawn(draws) - Bombs(g)| < mines
    decreases |draws|, 1
  {
    if |draws| == 0 {
      assert Drawn(draws) == {};
    } else if At(g, draws[0]).isBomb {
      FailsAfterSkip(g, mines, draws);
    } else {
      FailsAfterTake(g, mines, draws);
    }
  }

  lemma {:induction false} FailsAfterSkip(g: Game, mines: nat, draws: seq<Pos>)
    requires Valid(g) && DrawsFit(draws, g.width, g.height)
    requires |draws| > 0 && At(g, draws[0]).isBomb
    requires PlaceDraws(g, mines, draws[1..]) == None
    ensures |Drawn(draws) - Bombs(g)| < mines
    decreases |draws|, 0
  {
    DrawnCons(draws);
    assert Drawn(draws) - Bombs(g) == Drawn(draws[1..]) - Bombs(g);
    PlaceDrawsFails(g, mines, draws[1..]);
  }

  lemma {:induction false} FailsAfterTake(g: Game, mines: nat, draws: seq<Pos>)
    requires Valid(g) && DrawsFit(draws, g.width, g.height)
    requires mines > 0 && |draws| > 0 && !At(g, draws[0]).isBomb
    requires PlaceDraws(PlaceBomb(g, draws[0]), mines - 1, draws[1..]) == None
    ensures |Drawn(draws) - Bombs(g)| < mines
    decreases |draws|, 0
  {
    var d := draws[0];
    DrawnCons(draws);
    PlaceBombFacts(g, d);
    var g' := PlaceBomb(g, d);
    PlaceDrawsFails(g', mines - 1, draws[1..]);
    DrawsLeft(Drawn(draws), Drawn(draws[1..]), Bombs(g), d);
    FewerLeft(Drawn(draws) - Bombs(g), Drawn(draws[1..]) - Bombs(g'), d);
  }

  /** Rejection sampling finishes exactly when the stream holds at least
      `mines` distinct cells that are not bombs yet. */
  lemma {:induction false} PlaceDrawsSucceeds(g: Game, mines: nat, draws: seq<Pos>)
    requires Valid(g) && DrawsFit(draws, g.width, g.height)
    ensures PlaceDraws(g, mines, draws).Some? <==> |Drawn(draws) - Bombs(g)| >= mines
  {
    var r := PlaceDraws(g, mines, draws);
    if r.Some? {
      PlaceDrawsBombs(g, mines, draws, r.value);
      SubsetCard(Bombs(r.value) - Bombs(g), Drawn(draws) - Bombs(g));
    } else {
      PlaceDrawsFails(g, mines, draws);
    }
  }

  lemma DrawsLeft(all: set<Pos>, rest: set<Pos>, bombs: set<Pos>, d: Pos)
    requires all == {d} + rest && d !in bombs
    ensures d in all - bombs
    ensures (all - bombs) - {d} <= rest - (bombs + {d})
  {
  }

  lemma FewerLeft(a: set<Pos>, b: set<Pos>, d: Pos)
    requires d in a && a - {d} <= b
    ensures |a| <= |b| + 1
  {
    SubsetCard(a - {d}, b);
  }

  /** A grid whose buttons look like those of a fresh grid is a game in
      progress: nothing revealed, every button blank, nobody has lost, the
      labels agree and the flood fills are complete. */
  lemma UntouchedGame(width: nat, height: nat, n: Game)
    requires SameView(EmptyGrid(width, height), n)
    ensures forall q :: InGrid(n, q) ==> !At(n, q).revealed && At(n, q).shown == Blank
    ensures !Lost(n) && LabelsAgree(n) && Closed(n)
  {
    assert forall q :: InGrid(n, q) ==> !At(n, q).revealed && At(n, q).shown == Blank;
  }

  /** Whatever the draws, a completed placement on a fresh grid is a new game. */
  lemma FreshGame(width: nat, height: nat, mines: nat, draws: seq<Pos>, r: Game)
    requires DrawsFit(draws, width, height)
    requires PlaceDraws(EmptyGrid(width, height), mines, draws) == Some(r)
    ensures NewGame(r, width, height, mines)
  {
    var g := EmptyGrid(width, height);
    PlaceDrawsView(g, mines, draws, r);
    PlaceDrawsBombs(g, mines, draws, r);
    PlaceDrawsCounts(g, mines, draws, r);
    UntouchedGame(width, height, r);
  }

  /** A fresh grid receives the requested bombs exactly when the draws hold
      that many distinct cells, and the result is then a new game. */
  lemma FreshPlacement(width: nat, height: nat, mines: nat, draws: seq<Pos>)
    requires DrawsFit(draws, width, height)
    ensures var r := PlaceDraws(EmptyGrid(width, height), mines, draws);
            && (r.Some? <==> |Drawn(draws)| >= mines)
            && (r.Some? ==> NewGame(r.value, width, height, mines))
  {
    var g := EmptyGrid(width, height);
    PlaceDrawsSucceeds(g, mines, draws);
    assert Drawn(draws) - Bombs(g) == Drawn(draws);
    var r := PlaceDraws(g, mines, draws);
    if r.Some? {
      FreshGame(width, height, mines, draws, r.value);
    }
  }

  /** A draw that lands on a bomb is skipped. */
  lemma PlaceDrawsSkip(g: Game, mines: nat, draws: seq<Pos>, next: nat)
    requires Valid(g) && DrawsFit(draws, g.width, g.height)
    requires mines > 0 && next < |draws| && At(g, draws[next]).isBomb
    ensures DrawsFit(draws[next + 1..], g.width, g.height)
    ensures PlaceDraws(g, mines, draws[next..]) == PlaceDraws(g, mines, draws[next + 1..])
  {
    assert draws[next..][1..] == draws[next + 1..];
  }

  /** A draw that lands on a free cell becomes the next bomb. */
  lemma PlaceDrawsTake(g: Game, mines: nat, draws: seq<Pos>, next: nat)
    requires Valid(g) && DrawsFit(draws, g.width, g.height)
    requires mines > 0 && next < |draws| && !At(g, draws[next]).isBomb
    ensures DrawsFit(draws[next + 1..], g.width, g.height)
    ensures PlaceDraws(g, mines, draws[next..]) ==
            PlaceDraws(PlaceBomb(g, draws[next]), mines - 1, draws[next + 1..])
  {
    assert draws[next..][1..] == draws[next + 1..];
  }

  /** A stream that runs out places nothing. */
  lemma PlaceDrawsOut(g: Game, mines: nat, draws: seq<Pos>)
    requires Valid(g) && mines > 0
    ensures DrawsFit(draws[|draws|..], g.width, g.height)
    ensures PlaceDraws(g, mines, draws[|draws|..]) == None
  {
    assert draws[|draws|..] == [];
  }

  /** One accepted draw: the cell becomes a bomb, then the counts of its
      block are bumped. */
  method SpawnBomb(g: Game, p: Pos) returns (r: Game)
    requires Valid(g) && InGrid(g, p) && !At(g, p).isBomb
    ensures r == PlaceBomb(g, p)
  {
    r := Update(g, p, At(g, p).(isBomb := true));
    r := IncrementBombCountOfSurroundingCells(r, p);
  }

  /** The rejection loop of one round: skips the draws from `next` on that
      land on bombs. `|draws|` when the stream runs out. */
  method SkipBombs(g: Game, left: nat, draws: seq<Pos>, next: nat) returns (n: nat)
    requires Valid(g) && DrawsFit(draws, g.width, g.height)
    requires left > 0 && next <= |draws|
    ensures next <= n <= |draws|
    ensures forall k :: next <= k < n ==> At(g, draws[k]).isBomb
    ensures n < |draws| ==> !At(g, draws[n]).isBomb
    ensures PlaceDraws(g, left, draws[n..]) == PlaceDraws(g, left, draws[next..])
  {
    n := next;
    while n < |draws| && At(g, draws[n]).isBomb
      invariant next <= n <= |draws|
      invariant forall k :: next <= k < n ==> At(g, draws[k]).isBomb
      invariant PlaceDraws(g, left, draws[n..]) == PlaceDraws(g, left, draws[next..])
    {
      PlaceDrawsSkip(g, left, draws, n);
      n := n + 1;
    }
  }

  /** The bomb-placing loop of InitGame: `mines` rounds, each drawing
      positions until one is not a bomb yet, making it a bomb and bumping the
      counts around it. `None` when the draws run out first. */
  method PlaceBombs(g0: Game, mines: nat, draws: seq<Pos>) returns (r: Option<Game>)
    requires Valid(g0) && DrawsFit(draws, g0.width, g0.height)
    ensures r == PlaceDraws(g0, mines, draws)
  {
    var g := g0;
    var next := 0;
    var left := mines;
    while left > 0
      invariant Valid(g) && g.width == g0.width && g.height == g0.height
      invariant next <= |draws|
      invariant PlaceDraws(g, left, draws[next..]) == PlaceDraws(g0, mines, draws)
    {
      next := SkipBombs(g, left, draws, next);
      if next == |draws| {
        PlaceDrawsOut(g, left, draws);
        return None;
      }
      var spawn := draws[next];
      PlaceDrawsTake(g, left, draws, next);
      next := next + 1;
      g := SpawnBomb(g, spawn);
      left := left - 1;
    }
    r := Some(g);
  }

  /** InitGame: a fresh `width × height` grid, then the bomb-placing loop.
      `None` when the draws run out before every bomb is placed. */
  method InitGame(width: nat, height: nat, mines: nat, draws: seq<Pos>) returns (r: Option<Game>)
    requires DrawsFit(draws, width, height)
    ensures r == PlaceDraws(EmptyGrid(width, height), mines, draws)
    ensures r.Some? <==> |Drawn(draws)| >= mines
    ensures r.Some? ==> NewGame(r.value, width, height, mines)
  {
    r := PlaceBombs(EmptyGrid(width, height), mines, draws);
    FreshPlacement(width, height, mines, draws);
  }

  /** The "Generate New Grid" button: the guard, then InitGame. */
  method GenerateNewGrid(width: int, height: int, mines: int, draws: seq<Pos>) returns (r: Generated)
    requires forall i :: 0 <= i < |draws| ==> 0 <= draws[i].x < width && 0 <= draws[i].y < height
    ensures r.Refused? <==> !(0 <= width && 0 <= height && 0 <= mines <= width * height)
    ensures r.Refused? ==> Some(r.reason) == CheckInput(width, height, mines)
    ensures r.Built? ==> NewGame(r.game, width, height, mines)
    ensures r.DrawsExhausted? <==> 0 <= width && 0 <= height && 0 <= mines <= width * height && |Drawn(draws)| < mines
  {
    var refusal := CheckInput(width, height, mines);
    if refusal.Some? {
      return Refused(refusal.value);
    }
    var built := InitGame(width, height, mines, draws);
    if built.Some? {
      r := Built(built.value);
    } else {
      r := DrawsExhausted;
    }
  }
}
