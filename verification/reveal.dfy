/** Playing a game: a click on a cell's button, the flood fill it starts on a
    cell with no bomb around it, the loss handler and the win test. */
module Reveal {
  import opened Grid

  /** `r` is a later state of the game `g`: same size, same bombs and counts,
      and every revealed cell still revealed. */
  ghost predicate Later(g: Game, r: Game) {
    SameLayout(g, r) && Grows(g, r)
  }

  /** `q` is hidden in `g` and revealed in `r`. */
  ghost predicate Newly(g: Game, r: Game, q: Pos) {
    && Valid(g) && Valid(r) && r.width == g.width && r.height == g.height
    && InGrid(g, q) && !At(g, q).revealed && At(r, q).revealed
  }

  /** Every empty cell revealed on the way from `g` to `r` has its whole block
      revealed in `r`. */
  ghost predicate Flooded(g: Game, r: Game) {
    forall q :: Newly(g, r, q) && Empty(At(g, q)) ==> OpenAround(r, q)
  }

  /** No bomb was revealed on the way from `g` to `r`, except perhaps at `p`. */
  ghost predicate SafeCascade(g: Game, r: Game, p: Pos) {
    forall q :: Newly(g, r, q) && q != p ==> !At(g, q).isBomb
  }

  /** `path` is a route the flood fill can take from its first cell on the
      way from `g` to `r`: each cell lies in the grid next to the one before
      it, every cell but the last is empty, and every cell strictly between
      the ends was revealed on the way. */
  ghost predicate Route(g: Game, r: Game, path: seq<Pos>) {
    && Valid(g) && Valid(r) && r.width == g.width && r.height == g.height
    && |path| > 0
    && (forall k :: 0 <= k < |path| ==> InGrid(g, path[k]))
    && (forall k :: 0 < k < |path| ==> Adjacent(path[k - 1], path[k]))
    && (forall k :: 0 <= k < |path| - 1 ==> Empty(At(g, path[k])))
    && (forall k :: 0 < k < |path| - 1 ==> Newly(g, r, path[k]))
  }

  /** Some route leads from `p` to `q`. */
  ghost predicate Reaches(g: Game, r: Game, p: Pos, q: Pos) {
    exists path :: Route(g, r, path) && path[0] == p && path[|path| - 1] == q
  }

  /** Every cell revealed on the way from `g` to `r` is reached from `p`: the
      cascade spreads only through empty cells it reveals itself. */
  ghost predicate Confined(g: Game, r: Game, p: Pos) {
    forall q :: Newly(g, r, q) ==> Reaches(g, r, p, q)
  }

  lemma LaterTrans(a: Game, b: Game, c: Game)
    requires Later(a, b) && Later(b, c)
    ensures Later(a, c)
  {
  }

  lemma OpenAroundKept(g: Game, r: Game, q: Pos)
    requires Grows(g, r) && OpenAround(g, q)
    ensures OpenAround(r, q)
  {
  }

  lemma FloodedTrans(a: Game, b: Game, c: Game)
    requires Later(a, b) && Later(b, c)
    requires Flooded(a, b) && Flooded(b, c)
    ensures Flooded(a, c)
  {
    forall q | Newly(a, c, q) && Empty(At(a, q))
      ensures OpenAround(c, q)
    {
      if At(b, q).revealed {
        OpenAroundKept(b, c, q);
      } else {
        assert Newly(b, c, q);
      }
    }
  }

  lemma SafeTrans(a: Game, b: Game, c: Game, p: Pos, q: Pos)
    requires Later(a, b) && Later(b, c)
    requires SafeCascade(a, b, p) && SafeCascade(b, c, q)
    requires InGrid(a, q) && !At(a, q).isBomb
    ensures SafeCascade(a, c, p)
  {
    forall d | Newly(a, c, d) && d != p
      ensures !At(a, d).isBomb
    {
      if !At(b, d).revealed {
        assert Newly(b, c, d);
      }
    }
  }

  /** When no cell but `p` changes its revealed flag, the cascade is
      confined to `p`. */
  lemma ConfinedToClick(g: Game, r: Game, p: Pos)
    requires Valid(g) && Valid(r) && r.width == g.width && r.height == g.height && InGrid(g, p)
    requires forall q :: InGrid(g, q) && q != p ==> At(r, q).revealed == At(g, q).revealed
    ensures Confined(g, r, p)
  {
    forall q | Newly(g, r, q)
      ensures Reaches(g, r, p, q)
    {
      assert Route(g, r, [p]);
    }
  }

  /** A route stays a route from an earlier state with the same layout to a
      later state. */
  lemma RouteWiden(g0: Game, g: Game, r: Game, r': Game, path: seq<Pos>)
    requires Later(g0, g) && Later(r, r') && Route(g, r, path)
    ensures Route(g0, r', path)
  {
  }

  /** An empty cell next to the start of a route, with that start revealed on
      the way, extends the route backwards. */
  lemma JoinRoute(g: Game, r: Game, p: Pos, path: seq<Pos>)
    requires Route(g, r, path) && Newly(g, r, path[0])
    requires InGrid(g, p) && Empty(At(g, p)) && Adjacent(p, path[0])
    ensures Route(g, r, [p] + path)
  {
  }

  /** One recursive call of the block loop on the neighbour `c` of the empty
      cell `p` keeps the cascade confined to `p`. */
  lemma ConfinedStep(g: Game, r: Game, r': Game, p: Pos, c: Pos)
    requires Later(g, r) && Later(r, r') && Confined(g, r, p) && Confined(r, r', c)
    requires InGrid(g, p) && Empty(At(g, p)) && InGrid(g, c) && Adjacent(p, c)
    requires At(r', c).revealed && (At(r, c).revealed ==> r' == r)
    ensures Confined(g, r', p)
  {
    forall q | Newly(g, r', q)
      ensures Reaches(g, r', p, q)
    {
      if At(r, q).revealed {
        assert Newly(g, r, q);
        var path :| Route(g, r, path) && path[0] == p && path[|path| - 1] == q;
        RouteWiden(g, g, r, r', path);
      } else {
        assert Newly(r, r', q);
        var path :| Route(r, r', path) && path[0] == c && path[|path| - 1] == q;
        assert Newly(g, r', c);
        RouteWiden(g, r, r', r', path);
        JoinRoute(g, r', p, path);
        assert ([p] + path)[0] == p && ([p] + path)[|[p] + path| - 1] == q;
      }
    }
  }

  /** Confinement of the cascade that follows the first reveal of `p` carries
      over to the whole click. */
  lemma ConfinedAfterClick(g: Game, g1: Game, r: Game, p: Pos)
    requires Valid(g) && InGrid(g, p) && !At(g, p).revealed
    requires g1 == Update(g, p, At(g, p).(revealed := true))
    requires Later(g1, r) && Confined(g1, r, p)
    ensures Confined(g, r, p)
  {
    assert Later(g, g1);
    forall q | Newly(g, r, q)
      ensures Reaches(g, r, p, q)
    {
      if q == p {
        assert Route(g, r, [p]);
      } else {
        assert Newly(g1, r, q);
        var path :| Route(g1, r, path) && path[0] == p && path[|path| - 1] == q;
        RouteWiden(g, g1, r, r, path);
      }
    }
  }

  /** With counts that match the layout, no bomb lies in the block of a cell
      whose count is zero. */
  lemma EmptyBlockHasNoBomb(g: Game, p: Pos, q: Pos)
    requires CountsMatch(g) && InGrid(g, p) && At(g, p).surrounding == 0
    requires InGrid(g, q) && Adjacent(p, q)
    ensures !At(g, q).isBomb
  {
    var around := set b | b in Bombs(g) && Adjacent(p, b);
    assert |around| == BombsAround(g, p) == 0;
    assert q !in around;
  }

  /** A game is lost in a later state if it was lost before, and only then
      when no bomb was revealed in between. */
  lemma LostKept(g: Game, r: Game, p: Pos)
    requires Later(g, r)
    ensures Lost(g) ==> Lost(r)
    ensures SafeCascade(g, r, p) && InGrid(g, p) && !At(g, p).isBomb ==> Lost(r) == Lost(g)
  {
    if Lost(g) {
      var b :| InGrid(g, b) && At(g, b).isBomb && At(g, b).revealed;
      assert At(r, b).isBomb && At(r, b).revealed;
    }
    if SafeCascade(g, r, p) && InGrid(g, p) && !At(g, p).isBomb && Lost(r) {
      var b :| InGrid(r, b) && At(r, b).isBomb && At(r, b).revealed;
      if !At(g, b).revealed {
        assert Newly(g, r, b);
      }
    }
  }

  /** Flood fills completed before a click stay completed after it. */
  lemma ClosedKept(g: Game, r: Game)
    requires Closed(g) && Later(g, r) && Flooded(g, r)
    ensures Closed(r)
  {
    forall q | InGrid(r, q) && At(r, q).revealed && Empty(At(r, q))
      ensures OpenAround(r, q)
    {
      if At(g, q).revealed {
        OpenAroundKept(g, r, q);
      } else {
        assert Newly(g, r, q);
      }
    }
  }

  /** GameLost: every bomb's button shows "X"; nothing else changes. */
  method GameLost(g: Game) returns (r: Game)
    requires Valid(g)
    ensures Valid(r) && r.width == g.width && r.height == g.height
    ensures forall q :: InGrid(g, q) ==>
              At(r, q) == At(g, q).(shown := if At(g, q).isBomb then Bomb else At(g, q).shown)
  {
    r := g;
    for i := 0 to g.height
      invariant Valid(r) && r.width == g.width && r.height == g.height
      invariant forall q {:trigger At(r, q)} :: InGrid(g, q) ==>
                  At(r, q) == At(g, q).(shown := if At(g, q).isBomb && q.y < i then Bomb else At(g, q).shown)
    {
      for j := 0 to g.width
        invariant Valid(r) && r.width == g.width && r.height == g.height
        invariant forall q {:trigger At(r, q)} :: InGrid(g, q) ==>
                    At(r, q) == At(g, q).(shown := if At(g, q).isBomb && (q.y < i || (q.y == i && q.x < j))
                                                   then Bomb else At(g, q).shown)
      {
        var q := Pos(j, i);
        if At(r, q).isBomb {
          r := Update(r, q, At(r, q).(shown := Bomb));
        }
      }
    }
  }

  /** After a loss, the labels agree with the state again: every bomb shows
      "X" and the other buttons keep the labels they had. */
  lemma LossLabelsAgree(g: Game, r: Game)
    requires Valid(g) && Lost(g)
    requires forall q :: InGrid(g, q) && !At(g, q).isBomb ==> At(g, q).shown == Shows(At(g, q), false)
    requires Valid(r) && r.width == g.width && r.height == g.height
    requires forall q :: InGrid(g, q) ==>
               At(r, q) == At(g, q).(shown := if At(g, q).isBomb then Bomb else At(g, q).shown)
    ensures Later(g, r) && Lost(r)
    ensures LabelsAgree(r)
  {
    var b :| InGrid(g, b) && At(g, b).isBomb && At(g, b).revealed;
    assert At(r, b).isBomb && At(r, b).revealed;
  }

  /** GameIsWon: true exactly when every cell that is not a bomb has been
      revealed. */
  method GameIsWon(g: Game) returns (won: bool)
    requires Valid(g)
    ensures won <==> Won(g)
  {
    for i := 0 to g.height
      invariant forall q :: InGrid(g, q) && q.y < i && !At(g, q).isBomb ==> At(g, q).revealed
    {
      for j := 0 to g.width
        invariant forall q :: InGrid(g, q) && (q.y < i || (q.y == i && q.x < j)) && !At(g, q).isBomb
                    ==> At(g, q).revealed
      {
        if !g.cells[i][j].isBomb && !g.cells[i][j].revealed {
          assert !At(g, Pos(j, i)).revealed;
          return false;
        }
      }
    }
    return true;
  }

  /** RevealCell: a click on the button at `p`. A revealed cell is left alone;
      otherwise the button is disabled, then a bomb shows "X" and loses the
      game, a cell with bombs around it shows its count, and an empty cell
      reveals every cell of its block in turn. */
  method RevealCell(g: Game, p: Pos) returns (r: Game)
    requires Valid(g) && InGrid(g, p)
    ensures Later(g, r)
    ensures At(r, p).revealed
    ensures At(g, p).revealed ==> r == g
    ensures !Empty(At(g, p)) ==> forall q :: InGrid(g, q) && q != p ==> At(r, q).revealed == At(g, q).revealed
    ensures Flooded(g, r)
    ensures CountsMatch(g) ==> SafeCascade(g, r, p)
    ensures At(g, p).isBomb && !At(g, p).revealed ==>
              Lost(r) && forall q :: InGrid(g, q) && At(g, q).isBomb ==> At(r, q).shown == Bomb
    ensures CountsMatch(g) && !At(g, p).isBomb ==> Lost(r) == Lost(g)
    ensures LabelsAgree(g) ==> LabelsAgree(r)
    ensures Closed(g) ==> Closed(r)
    ensures CountsMatch(g) && Bombs(g) == {} && Closed(g) ==> Won(r) && forall q :: InGrid(g, q) ==> At(r, q).revealed
    ensures Confined(g, r, p)
    decreases Hidden(g), 1
  {
    if At(g, p).revealed {
      r := g;
    } else {
      r := RevealHidden(g, p);
    }
    if CountsMatch(g) && Bombs(g) == {} && Closed(g) {
      SameLayoutBombs(g, r);
      MineFreeFieldOpens(r, p);
    }
  }

  /** RevealCell on a hidden cell. */
  method RevealHidden(g: Game, p: Pos) returns (r: Game)
    requires Valid(g) && InGrid(g, p) && !At(g, p).revealed
    ensures Later(g, r)
    ensures At(r, p).revealed
    ensures !Empty(At(g, p)) ==> forall q :: InGrid(g, q) && q != p ==> At(r, q).revealed == At(g, q).revealed
    ensures Flooded(g, r)
    ensures CountsMatch(g) ==> SafeCascade(g, r, p)
    ensures At(g, p).isBomb ==> Lost(r) && forall q :: InGrid(g, q) && At(g, q).isBomb ==> At(r, q).shown == Bomb
    ensures CountsMatch(g) && !At(g, p).isBomb ==> Lost(r) == Lost(g)
    ensures LabelsAgree(g) ==> LabelsAgree(r)
    ensures Closed(g) ==> Closed(r)
    ensures Confined(g, r, p)
    decreases Hidden(g), 0
  {
    var g1 := Update(g, p, At(g, p).(revealed := true));
    if At(g1, p).isBomb {
      var g2 := Update(g1, p, At(g1, p).(shown := Bomb));
      r := GameLost(g2);
      BombClick(g, p, g1, g2, r);
    } else if At(g1, p).surrounding != 0 {
      r := Update(g1, p, At(g1, p).(shown := Number(At(g1, p).surrounding)));
      NumberClick(g, p, g1, r);
    } else {
      assert Hidden(g1) < Hidden(g) by {
        assert p in Hidden(g) && p !in Hidden(g1);
      }
      r := RevealBlock(g1, p);
      EmptyClick(g, p, g1, r);
      EmptyClickKeeps(g, p, g1, r);
    }
  }

  /** The Chebyshev distance between two positions. */
  function Dist(p: Pos, q: Pos): nat {
    var dx := if p.x <= q.x then q.x - p.x else p.x - q.x;
    var dy := if p.y <= q.y then q.y - p.y else p.y - q.y;
    if dx <= dy then dy else dx
  }

  /** One step from `q` towards `p`. */
  function Toward(q: Pos, p: Pos): Pos {
    Pos(if q.x < p.x then q.x + 1 else if q.x > p.x then q.x - 1 else q.x,
        if q.y < p.y then q.y + 1 else if q.y > p.y then q.y - 1 else q.y)
  }

  /** On a grid with no bomb, every count is zero. */
  lemma NoBombsNoCounts(g: Game, q: Pos)
    requires CountsMatch(g) && Bombs(g) == {} && InGrid(g, q)
    ensures Empty(At(g, q))
  {
    assert q !in Bombs(g);
    assert At(g, q).surrounding == BombsAround(g, q);
    assert (set b | b in Bombs(g) && Adjacent(q, b)) == {};
  }

  /** On a finished flood fill over a grid with no bomb, every cell within
      distance `d` of a revealed cell is revealed. */
  lemma {:induction false} RevealedWithin(g: Game, p: Pos, d: nat)
    requires CountsMatch(g) && Bombs(g) == {} && Closed(g)
    requires InGrid(g, p) && At(g, p).revealed
    ensures forall q :: InGrid(g, q) && Dist(p, q) <= d ==> At(g, q).revealed
  {
    if d > 0 {
      RevealedWithin(g, p, d - 1);
      forall q | InGrid(g, q) && Dist(p, q) == d
        ensures At(g, q).revealed
      {
        var s := Toward(q, p);
        assert InGrid(g, s) && Dist(p, s) == d - 1 && Adjacent(s, q);
        NoBombsNoCounts(g, s);
      }
    } else {
      assert forall q :: Dist(p, q) <= 0 ==> q == p;
    }
  }

  /** One click on a grid with no bomb, all of whose flood fills were finished,
      reveals every cell and wins. */
  lemma MineFreeFieldOpens(g: Game, p: Pos)
    requires CountsMatch(g) && Bombs(g) == {} && Closed(g)
    requires InGrid(g, p) && At(g, p).revealed
    ensures forall q :: InGrid(g, q) ==> At(g, q).revealed
    ensures Won(g)
  {
    RevealedWithin(g, p, g.width + g.height);
  }

  /** A click on a hidden bomb: the bomb is revealed and every bomb shows "X". */
  lemma BombClick(g: Game, p: Pos, g1: Game, g2: Game, r: Game)
    requires Valid(g) && InGrid(g, p) && !At(g, p).revealed && At(g, p).isBomb
    requires g1 == Update(g, p, At(g, p).(revealed := true))
    requires g2 == Update(g1, p, At(g1, p).(shown := Bomb))
    requires Valid(r) && r.width == g2.width && r.height == g2.height
    requires forall q :: InGrid(g2, q) ==>
               At(r, q) == At(g2, q).(shown := if At(g2, q).isBomb then Bomb else At(g2, q).shown)
    ensures Later(g, r) && At(r, p).revealed
    ensures forall q :: InGrid(g, q) && q != p ==> At(r, q).revealed == At(g, q).revealed
    ensures Flooded(g, r) && SafeCascade(g, r, p)
    ensures Lost(r) && forall q :: InGrid(g, q) && At(g, q).isBomb ==> At(r, q).shown == Bomb
    ensures LabelsAgree(g) ==> LabelsAgree(r)
    ensures Closed(g) ==> Closed(r)
    ensures Confined(g, r, p)
  {
    assert At(r, p).isBomb && At(r, p).revealed;
    forall q | Newly(g, r, q)
      ensures q == p
    {
    }
    ConfinedToClick(g, r, p);
    if Closed(g) {
      ClosedKept(g, r);
    }
  }

  /** A click on a hidden safe cell with bombs around it: only that cell is
      revealed, and it shows its count. */
  lemma NumberClick(g: Game, p: Pos, g1: Game, r: Game)
    requires Valid(g) && InGrid(g, p) && !At(g, p).revealed && !At(g, p).isBomb && At(g, p).surrounding != 0
    requires g1 == Update(g, p, At(g, p).(revealed := true))
    requires r == Update(g1, p, At(g1, p).(shown := Number(At(g1, p).surrounding)))
    ensures Later(g, r) && At(r, p).revealed
    ensures forall q :: InGrid(g, q) && q != p ==> At(r, q).revealed == At(g, q).revealed
    ensures Flooded(g, r) && SafeCascade(g, r, p)
    ensures Lost(r) == Lost(g)
    ensures LabelsAgree(g) ==> LabelsAgree(r)
    ensures Closed(g) ==> Closed(r)
    ensures Confined(g, r, p)
  {
    forall q | Newly(g, r, q)
      ensures q == p
    {
    }
    ConfinedToClick(g, r, p);
    LostKept(g, r, p);
    if Closed(g) {
      ClosedKept(g, r);
    }
  }

  /** A click on a hidden empty cell: the cell and, through the flood fill,
      its whole block are revealed, and with counts that match the layout no
      bomb is among them. */
  lemma EmptyClick(g: Game, p: Pos, g1: Game, r: Game)
    requires Valid(g) && InGrid(g, p) && !At(g, p).revealed && Empty(At(g, p))
    requires g1 == Update(g, p, At(g, p).(revealed := true))
    requires Later(g1, r) && OpenAround(r, p) && Flooded(g1, r)
    requires CountsMatch(g1) ==> SafeCascade(g1, r, p)
    requires Confined(g1, r, p)
    ensures Later(g, r) && At(r, p).revealed
    ensures Flooded(g, r)
    ensures CountsMatch(g) ==> SafeCascade(g, r, p) && Lost(r) == Lost(g)
    ensures Confined(g, r, p)
  {
    assert Later(g, g1);
    LaterTrans(g, g1, r);
    EmptyClickFlood(g, p, g1, r);
    ConfinedAfterClick(g, g1, r, p);
    if CountsMatch(g) {
      EmptyClickSafe(g, p, g1, r);
      LostKept(g, r, p);
    }
  }

  /** The same click keeps the labels in agreement with the state and the
      completed flood fills complete. */
  lemma EmptyClickKeeps(g: Game, p: Pos, g1: Game, r: Game)
    requires Valid(g) && InGrid(g, p) && !At(g, p).revealed && Empty(At(g, p))
    requires g1 == Update(g, p, At(g, p).(revealed := true))
    requires Later(g, r) && Flooded(g, r)
    requires CountsMatch(g) ==> SafeCascade(g, r, p) && Lost(r) == Lost(g)
    requires LabelsAgree(g1) ==> LabelsAgree(r)
    ensures LabelsAgree(g) ==> LabelsAgree(r)
    ensures Closed(g) ==> Closed(r)
  {
    if LabelsAgree(g) {
      LostKept(g, g1, p);
      assert LabelsAgree(g1);
    }
    if Closed(g) {
      ClosedKept(g, r);
    }
  }

  lemma EmptyClickFlood(g: Game, p: Pos, g1: Game, r: Game)
    requires Valid(g) && InGrid(g, p) && !At(g, p).revealed
    requires g1 == Update(g, p, At(g, p).(revealed := true))
    requires Later(g, r) && Later(g1, r) && OpenAround(r, p) && Flooded(g1, r)
    ensures Flooded(g, r)
  {
    forall q | Newly(g, r, q) && Empty(At(g, q))
      ensures OpenAround(r, q)
    {
      if q != p {
        assert Newly(g1, r, q);
      }
    }
  }

  lemma EmptyClickSafe(g: Game, p: Pos, g1: Game, r: Game)
    requires CountsMatch(g) && InGrid(g, p) && !At(g, p).revealed
    requires g1 == Update(g, p, At(g, p).(revealed := true))
    requires Later(g, r) && Later(g1, r)
    requires CountsMatch(g1) ==> SafeCascade(g1, r, p)
    ensures SafeCascade(g, r, p)
  {
    SameLayoutBombs(g, g1);
    forall q | Newly(g, r, q) && q != p
      ensures !At(g, q).isBomb
    {
      assert Newly(g1, r, q);
    }
  }

  /** The loop of RevealCell on an empty cell `p`: every cell of the 3×3 block
      around `p` inside the grid is revealed, row by row. */
  method RevealBlock(g: Game, p: Pos) returns (r: Game)
    requires Valid(g) && InGrid(g, p) && At(g, p).revealed && Empty(At(g, p))
    ensures Later(g, r)
    ensures OpenAround(r, p)
    ensures Flooded(g, r)
    ensures CountsMatch(g) ==> SafeCascade(g, r, p)
    ensures LabelsAgree(g) ==> LabelsAgree(r)
    ensures Confined(g, r, p)
    decreases Hidden(g), 2
  {
    r := g;
    for i := p.y - 1 to p.y + 2
      invariant Later(g, r) && Flooded(g, r)
      invariant forall q :: InGrid(g, q) && Adjacent(p, q) && q.y < i ==> At(r, q).revealed
      invariant CountsMatch(g) ==> SafeCascade(g, r, p)
      invariant LabelsAgree(g) ==> LabelsAgree(r)
      invariant Confined(g, r, p)
    {
      for j := p.x - 1 to p.x + 2
        invariant Later(g, r) && Flooded(g, r)
        invariant forall q :: InGrid(g, q) && Adjacent(p, q) && (q.y < i || (q.y == i && q.x < j)) ==> At(r, q).revealed
        invariant CountsMatch(g) ==> SafeCascade(g, r, p)
        invariant LabelsAgree(g) ==> LabelsAgree(r)
        invariant Confined(g, r, p)
      {
        if 0 <= i < r.height && 0 <= j < r.width {
          GrowsHidden(g, r);
          var r' := RevealCell(r, Pos(j, i));
          Advance(g, r, r', p, i, j);
          ConfinedStep(g, r, r', p, Pos(j, i));
          r := r';
        }
      }
    }
  }

  /** One recursive call of the block loop keeps the loop's invariants. */
  lemma Advance(g: Game, r: Game, r': Game, p: Pos, i: int, j: int)
    requires Valid(g) && InGrid(g, p) && At(g, p).revealed && Empty(At(g, p))
    requires InGrid(g, Pos(j, i)) && Adjacent(p, Pos(j, i))
    requires Later(g, r) && Flooded(g, r)
    requires Later(r, r') && Flooded(r, r') && At(r', Pos(j, i)).revealed
    requires CountsMatch(r) ==> SafeCascade(r, r', Pos(j, i))
    requires forall q :: InGrid(g, q) && Adjacent(p, q) && (q.y < i || (q.y == i && q.x < j)) ==> At(r, q).revealed
    ensures Later(g, r') && Flooded(g, r')
    ensures CountsMatch(g) && SafeCascade(g, r, p) ==> SafeCascade(g, r', p)
    ensures forall q :: InGrid(g, q) && Adjacent(p, q) && (q.y < i || (q.y == i && q.x < j + 1)) ==> At(r', q).revealed
  {
    LaterTrans(g, r, r');
    FloodedTrans(g, r, r');
    if CountsMatch(g) && SafeCascade(g, r, p) {
      SameLayoutBombs(g, r);
      EmptyBlockHasNoBomb(g, p, Pos(j, i));
      SafeTrans(g, r, r', p, Pos(j, i));
    }
  }
}
