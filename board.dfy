/**
 * The Board class: the grid, the saved grids, the side to move, the pass
 * counter, the game-over flag and the two capture counters, updated in place
 * by its methods. Every method is proved to move the fields as the
 * transition of the same name in the rules module.
 */
module GoBoard {
  import opened GoGrid
  import opened Flood
  import opened Captures
  import opened GroupOps
  import opened Rules

  /** `for gr, gc in group: board[gr][gc] = 0` */
  method ClearCells(g: Grid, cells: set<Pos>) returns (r: Grid)
    requires Square(g)
    requires forall x :: x in cells ==> InBounds(g, x)
    ensures r == ClearSet(g, cells)
  {
    r := g;
    var todo := cells;
    assert cells - todo == {};
    SameGrid(r, ClearSet(g, {}));
    while todo != {}
      invariant todo <= cells
      invariant r == ClearSet(g, cells - todo)
      decreases |todo|
    {
      var x :| x in todo;
      ClearOneMore(g, cells - todo, x);
      r := SetCell(r, x, EMPTY);
      assert cells - (todo - {x}) == (cells - todo) + {x};
      todo := todo - {x};
    }
    assert cells - todo == cells;
  }

  /** Emptying one more cell of the board extends the set of emptied cells by it. */
  lemma ClearOneMore(g: Grid, done: set<Pos>, x: Pos)
    requires Square(g) && InBounds(g, x)
    ensures SetCell(ClearSet(g, done), x, EMPTY) == ClearSet(g, done + {x})
  {
    SameGrid(SetCell(ClearSet(g, done), x, EMPTY), ClearSet(g, done + {x}));
  }

  /** random.shuffle: some permutation; the choice of swap partner stands in for the random source. */
  method Shuffle(s: seq<Pos>) returns (r: seq<Pos>)
    ensures multiset(r) == multiset(s)
  {
    r := s;
    var i := |r|;
    while i > 1
      invariant 0 <= i <= |r|
      invariant multiset(r) == multiset(s)
    {
      i := i - 1;
      var j :| 0 <= j <= i;
      var ri, rj := r[i], r[j];
      r := r[i := rj][j := ri];
    }
  }

  /** The capture loop of place_stone, on the grid with the new stone. */
  method ResolveCaptures(t: Grid, p: Pos, player: Player) returns (g: Grid, count: nat)
    requires Square(t) && InBounds(t, p)
    ensures g == ClearSet(t, Captured(t, p, Opponent(player), 4))
    ensures count == |Captured(t, p, Opponent(player), 4)|
  {
    g := t;
    count := 0;
    var enemy := Opponent(player);
    SameGrid(g, ClearSet(t, {}));
    for d := 0 to 4
      invariant CountedSoFar(t, p, enemy, d, g, count)
    {
      g, count := CaptureAt(t, p, enemy, d, g, count);
    }
  }

  /** The state of place_stone's capture loop after d directions. */
  ghost predicate CountedSoFar(t: Grid, p: Pos, enemy: Player, d: nat, g: Grid, count: nat)
  {
    InBounds(t, p) && ClearedSoFar(t, p, enemy, d, g) && count == |Captured(t, p, enemy, d)|
  }

  /** One direction of the capture loop: the enemy group there goes when it has no liberty. */
  method CaptureAt(t: Grid, p: Pos, enemy: Player, d: nat, g: Grid, count: nat) returns (g': Grid, count': nat)
    requires d < 4 && CountedSoFar(t, p, enemy, d, g, count)
    ensures CountedSoFar(t, p, enemy, d + 1, g', count')
  {
    g', count' := g, count;
    NbrStep(p, d);
    var adj := (p.0 + DIRECTIONS[d].0, p.1 + DIRECTIONS[d].1);
    CaptureLoopStep(t, p, enemy, d);
    if InBounds(g, adj) && g[adj.0][adj.1] == enemy {
      var group := GetGroup(g, adj.0, adj.1);
      var liberty := HasLiberties(g, group);
      if !liberty {
        count' := count + |group|;
        GroupMonochrome(g, adj, enemy);
        g' := ClearCells(g, group);
      }
    }
  }

  /**
   * The grid work of place_stone: place the stone, capture around it, and
   * test the liberties of the placed stone's group.
   */
  method PlaceOnGrid(g: Grid, p: Pos, player: Player) returns (after: Grid, count: nat, liberty: bool)
    requires Square(g) && InBounds(g, p)
    ensures after == AfterCaptures(g, p, player)
    ensures count == |Captured(SetCell(g, p, player), p, Opponent(player), 4)|
    ensures liberty == HasLiberty(after, Group(after, p))
  {
    after := SetCell(g, p, player);
    after, count := ResolveCaptures(after, p, player);
    var group := GetGroup(after, p.0, p.1);
    liberty := HasLiberties(after, group);
  }

  /**
   * The body of remove_dead_groups for the stone at (row, col): its group,
   * emptied and credited to the other colour when it is not alive.
   */
  method JudgeAt(v: Variant, g: Grid, bc: nat, wc: nat, row: int, col: int)
    returns (g': Grid, bc': nat, wc': nat, group: set<Pos>)
    requires Square(g) && InBounds(g, (row, col)) && At(g, (row, col)) != EMPTY
    ensures group == Group(g, (row, col))
    ensures g' == Judge(v, g, bc, wc, (row, col)).0
    ensures bc' == Judge(v, g, bc, wc, (row, col)).1 && wc' == Judge(v, g, bc, wc, (row, col)).2
  {
    group := GetGroup(g, row, col);
    var colour: Player := g[row][col];
    GroupMonochrome(g, (row, col), colour);
    var alive := IsGroupAlive(v, g, group, colour);
    JudgeOutcome(v, g, bc, wc, (row, col), group, alive);
    g', bc', wc' := g, bc, wc;
    if !alive {
      var count := |group|;
      if colour == BLACK {
        wc' := wc' + count;
      } else if colour == WHITE {
        bc' := bc' + count;
      }
      g' := ClearCells(g', group);
    }
  }

  /** Judge's outcome once the group and its verdict are known. */
  lemma JudgeOutcome(v: Variant, g: Grid, bc: nat, wc: nat, q: Pos, group: set<Pos>, alive: bool)
    requires Square(g) && group == Group(g, q) && alive == Alive(v, g, group, At(g, q))
    ensures alive ==> Judge(v, g, bc, wc, q) == (g, bc, wc)
    ensures !alive ==> Judge(v, g, bc, wc, q).0 == ClearSet(g, group)
    ensures !alive ==> Judge(v, g, bc, wc, q).1 == if At(g, q) == WHITE then bc + |group| else bc
    ensures !alive ==> Judge(v, g, bc, wc, q).2 == if At(g, q) == BLACK then wc + |group| else wc
  {
  }

  /**
   * The neighbouring group in direction d that is_ko_violation tests. The
   * 19 by 19 copy takes it from the trial grid, the 9 by 9 copy from the real
   * grid; on an empty target cell both are the same group.
   */
  method TrialGroup(v: Variant, g: Grid, ghost t: Grid, temp: Grid, p: Pos, player: Player, ghost d: nat, adj: Pos)
    returns (group: set<Pos>)
    requires Square(g) && InBounds(g, p) && At(g, p) == EMPTY && d < 4
    requires t == SetCell(g, p, player) && temp == ClearSet(t, Captured(t, p, Opponent(player), d))
    requires adj == Nbrs(p)[d] && InBounds(temp, adj) && temp[adj.0][adj.1] == Opponent(player)
    ensures group == Group(temp, adj)
  {
    if v == Mini {
      KoGroupOnRealGrid(g, p, player, d);
      group := GetGroup(g, adj.0, adj.1);
    } else {
      group := GetGroup(temp, adj.0, adj.1);
    }
  }

  /**
   * The trial captures of is_ko_violation on a copy of the grid with the
   * stone placed.
   */
  method TrialCaptures(v: Variant, g: Grid, p: Pos, player: Player) returns (temp: Grid, captured: bool)
    requires Square(g) && InBounds(g, p) && At(g, p) == EMPTY
    ensures temp == AfterCaptures(g, p, player)
    ensures captured <==> Captured(SetCell(g, p, player), p, Opponent(player), 4) != {}
  {
    temp := SetCell(g, p, player);
    temp, captured := TrialLoop(v, g, temp, p, player);
  }

  /** The direction loop of TrialCaptures, from the grid t with the stone placed. */
  method TrialLoop(v: Variant, g: Grid, t: Grid, p: Pos, player: Player) returns (temp: Grid, captured: bool)
    requires PlacedOn(g, t, p, player)
    ensures temp == ClearSet(t, Captured(t, p, Opponent(player), 4))
    ensures captured <==> Captured(t, p, Opponent(player), 4) != {}
  {
    temp := t;
    SameGrid(t, ClearSet(t, {}));
    captured := false;
    for d := 0 to 4
      invariant TrialSoFar(g, t, p, player, d, temp, captured)
    {
      temp, captured := TrialAt(v, g, t, p, player, d, temp, captured);
    }
  }

  /** The state of is_ko_violation's direction loop after d directions. */
  ghost predicate TrialSoFar(g: Grid, t: Grid, p: Pos, player: Player, d: nat, temp: Grid, captured: bool)
  {
    PlacedOn(g, t, p, player) && ClearedSoFar(t, p, Opponent(player), d, temp)
    && (captured <==> Captured(t, p, Opponent(player), d) != {})
  }

  /** One direction of the trial captures of is_ko_violation. */
  method TrialAt(v: Variant, g: Grid, ghost t: Grid, p: Pos, player: Player, d: nat, temp: Grid, captured: bool)
    returns (temp': Grid, captured': bool)
    requires d < 4 && TrialSoFar(g, t, p, player, d, temp, captured)
    ensures TrialSoFar(g, t, p, player, d + 1, temp', captured')
  {
    temp', captured' := temp, captured;
    var enemy := Opponent(player);
    NbrStep(p, d);
    var adj := (p.0 + DIRECTIONS[d].0, p.1 + DIRECTIONS[d].1);
    CaptureLoopStep(t, p, enemy, d);
    if InBounds(temp, adj) && temp[adj.0][adj.1] == enemy {
      var group := TrialGroup(v, g, t, temp, p, player, d, adj);
      var liberty := HasLiberties(temp, group);
      if !liberty {
        captured' := true;
        GroupMonochrome(temp, adj, enemy);
        temp' := ClearCells(temp, group);
      }
    }
  }

  /**
   * Progress of get_territory's row-major scan at (row, col): `visited` holds
   * whole empty regions, among them every empty cell before (row, col), and
   * each colour's set is its territory within `visited`.
   */
  ghost predicate TerritoryScan(v: Variant, g: Grid, visited: set<Pos>, black: set<Pos>, white: set<Pos>, row: int, col: int)
  {
    && EmptyClosed(g, visited)
    && (forall x :: x in visited ==> InBounds(g, x) && At(g, x) == EMPTY)
    && (forall q :: InBounds(g, q) && At(g, q) == EMPTY && Before(q, (row, col)) ==> q in visited)
    && black == Territory(v, g, BLACK) * visited
    && white == Territory(v, g, WHITE) * visited
  }

  /** The cells of an empty region are all territory of c, or none of them is. */
  lemma RegionTerritory(v: Variant, g: Grid, q: Pos, c: int)
    requires Square(g) && InBounds(g, q) && At(g, q) == EMPTY
    ensures Territory(v, g, c) * Component(g, q) == if Credited(v, g, Component(g, q), c) then Component(g, q) else {}
  {
    EmptyComponent(g, q);
    forall y | y in Component(g, q)
      ensures y in Territory(v, g, c) <==> Credited(v, g, Component(g, q), c)
    {
      InAllCells(|g|, y);
    }
  }

  /** A scan step on an empty cell not yet visited: its region is added, and credited where it belongs. */
  lemma TerritoryScanRegion(v: Variant, g: Grid, visited: set<Pos>, black: set<Pos>, white: set<Pos>, row: int, col: int)
    requires Square(g) && InBounds(g, (row, col)) && At(g, (row, col)) == EMPTY && (row, col) !in visited
    requires TerritoryScan(v, g, visited, black, white, row, col)
    ensures var region := Component(g, (row, col));
            TerritoryScan(v, g, visited + region,
                          black + (if Credited(v, g, region, BLACK) then region else {}),
                          white + (if Credited(v, g, region, WHITE) then region else {}),
                          row, col + 1)
  {
    var q := (row, col);
    EmptyComponent(g, q);
    AddRegionClosed(g, visited, q);
    RegionTerritory(v, g, q, BLACK);
    RegionTerritory(v, g, q, WHITE);
  }

  /** The end of a row of the scan is the start of the next. */
  lemma TerritoryScanRow(v: Variant, g: Grid, visited: set<Pos>, black: set<Pos>, white: set<Pos>, row: int)
    requires TerritoryScan(v, g, visited, black, white, row, |g|)
    ensures TerritoryScan(v, g, visited, black, white, row + 1, 0)
  {
  }

  /** At the end of the scan every territory cell has been visited. */
  lemma TerritoryScanDone(v: Variant, g: Grid, visited: set<Pos>, black: set<Pos>, white: set<Pos>)
    requires Square(g) && TerritoryScan(v, g, visited, black, white, |g|, 0)
    ensures black == Territory(v, g, BLACK) && white == Territory(v, g, WHITE)
  {
    forall q, c | q in Territory(v, g, c)
      ensures q in visited
    {
      InAllCells(|g|, q);
    }
  }

  class Board {
    const variant: Variant
    var board: Grid
    var history: seq<Grid>
    var currentPlayer: Player
    var consecutivePasses: nat
    var gameOver: bool
    var blackCaptures: nat
    var whiteCaptures: nat

    /** The fields as a rules-module state. */
    function Snapshot(): State
      reads this
    {
      State(variant, board, history, currentPlayer, consecutivePasses, gameOver, blackCaptures, whiteCaptures)
    }

    predicate Valid()
      reads this
    {
      WellFormed(Snapshot())
    }

    constructor (v: Variant)
      ensures Valid() && Snapshot() == Initial(v)
    {
      variant := v;
      board := EmptyGrid(Size(v));
      history := [];
      currentPlayer := BLACK;
      consecutivePasses := 0;
      gameOver := false;
      blackCaptures := 0;
      whiteCaptures := 0;
    }

    /** copy.deepcopy of a board: a new object holding the same position. */
    constructor Copy(other: Board)
      requires other.Valid()
      ensures Valid() && Snapshot() == other.Snapshot()
    {
      variant := other.variant;
      board := other.board;
      history := other.history;
      currentPlayer := other.currentPlayer;
      consecutivePasses := other.consecutivePasses;
      gameOver := other.gameOver;
      blackCaptures := other.blackCaptures;
      whiteCaptures := other.whiteCaptures;
    }

    method IsValidPosition(row: int, col: int) returns (b: bool)
      requires Valid()
      ensures b <==> 0 <= row < Size(variant) && 0 <= col < Size(variant)
      ensures b <==> InBounds(board, (row, col))
    {
      b := 0 <= row < Size(variant) && 0 <= col < Size(variant);
    }

    method IsEmpty(row: int, col: int) returns (b: bool)
      requires Valid() && InBounds(board, (row, col))
      ensures b <==> At(board, (row, col)) == EMPTY
    {
      b := board[row][col] == EMPTY;
    }

    /** is_ko_violation, called by can_place_stone on an empty cell of the board. */
    method IsKoViolation(row: int, col: int, player: Player) returns (ko: bool)
      requires Valid() && InBounds(board, (row, col)) && At(board, (row, col)) == EMPTY
      ensures ko == KoViolation(board, history, (row, col), player)
    {
      if |history| == 0 {
        return false;
      }
      var temp, captured := TrialCaptures(variant, board, (row, col), player);
      ko := captured && temp == history[|history| - 1];
    }

    /** can_place_stone: on the board, empty, not a ko recapture, and the game not over. */
    method CanPlaceStone(row: int, col: int) returns (b: bool)
      requires Valid()
      ensures b == CanPlace(Snapshot(), (row, col))
    {
      b := IsValidPosition(row, col);
      if !b {
        return;
      }
      b := IsEmpty(row, col);
      if !b {
        return;
      }
      var ko := IsKoViolation(row, col, currentPlayer);
      b := !ko && !gameOver;
    }

    /**
     * place_stone: false without any change when the cell cannot be played;
     * otherwise save the grid, place, capture, and take the stone back when
     * its own group has no liberty.
     */
    method PlaceStone(row: int, col: int) returns (ok: bool)
      requires Valid()
      modifies this
      ensures Valid()
      ensures (ok, Snapshot()) == Place(old(Snapshot()), (row, col))
    {
      ghost var s := Snapshot();
      var can := CanPlaceStone(row, col);
      if !can {
        return false;
      }
      var p := (row, col);
      var grid, count, liberty := PlaceOnGrid(board, p, currentPlayer);
      assert Place(s, p) == Commit(s, p, grid, count, liberty);
      ok := Record(p, grid, count, liberty);
    }

    /**
     * The field updates of place_stone once the grid work is done: save the
     * grid, reset the pass counter, credit the captures, and either take the
     * stone back (no liberty) or hand over the turn.
     */
    method Record(p: Pos, grid: Grid, count: nat, liberty: bool) returns (ok: bool)
      requires Valid() && Square(grid) && |grid| == |board| && InBounds(grid, p)
      modifies this
      ensures Valid()
      ensures (ok, Snapshot()) == Commit(old(Snapshot()), p, grid, count, liberty)
    {
      history := history + [board];
      board := grid;
      consecutivePasses := 0;
      if currentPlayer == BLACK {
        blackCaptures := blackCaptures + count;
      } else {
        whiteCaptures := whiteCaptures + count;
      }
      if !liberty {
        board := SetCell(board, p, EMPTY);
        history := history[..|history| - 1];
        assert history == old(history);
        return false;
      }
      currentPlayer := Opponent(currentPlayer);
      ok := true;
    }

    /** remove_dead_groups: the row-major sweep, only once the game is over. */
    method RemoveDeadGroups()
      requires Valid()
      modifies this
      ensures Valid()
      ensures Snapshot() == RemoveDead(old(Snapshot()))
    {
      if !gameOver {
        return;
      }
      var visited: set<Pos> := {};
      var n := Size(variant);
      ghost var s0 := Snapshot();
      ghost var target := Sweep(variant, board, blackCaptures, whiteCaptures, {}, 0, 0);
      for row := 0 to n
        invariant Sweeping(s0, visited, row, 0, target)
      {
        for col := 0 to n
          invariant Sweeping(s0, visited, row, col, target)
        {
          visited := SweepCell(row, col, visited, s0, target);
        }
        SweepNextRow(variant, board, blackCaptures, whiteCaptures, visited, row);
      }
    }

    /**
     * Part way through remove_dead_groups: the fields other than the grid
     * and the counters are those of s0, and sweeping on from (row, col)
     * ends in target.
     */
    ghost predicate Sweeping(s0: State, visited: set<Pos>, row: nat, col: nat, target: (Grid, nat, nat))
      reads this
    {
      Valid() && gameOver && variant == s0.variant && history == s0.history && currentPlayer == s0.player
      && consecutivePasses == s0.passes
      && Sweep(variant, board, blackCaptures, whiteCaptures, visited, row, col) == target
    }

    /** The body of remove_dead_groups' inner loop at (row, col). */
    method SweepCell(row: nat, col: nat, visited: set<Pos>, ghost s0: State, ghost target: (Grid, nat, nat))
      returns (visited': set<Pos>)
      requires Sweeping(s0, visited, row, col, target) && row < |board| && col < |board|
      modifies this
      ensures Sweeping(s0, visited', row, col + 1, target)
    {
      visited' := visited;
      if (row, col) !in visited && board[row][col] != EMPTY {
        SweepJudges(variant, board, blackCaptures, whiteCaptures, visited, row, col);
        var group := JudgeGroup(row, col);
        visited' := visited + group;
      } else {
        SweepSkips(variant, board, blackCaptures, whiteCaptures, visited, row, col);
      }
    }

    method JudgeGroup(row: int, col: int) returns (group: set<Pos>)
      requires Valid() && InBounds(board, (row, col)) && At(board, (row, col)) != EMPTY
      modifies this
      ensures Valid()
      ensures group == Group(old(board), (row, col))
      ensures (board, blackCaptures, whiteCaptures)
              == Judge(variant, old(board), old(blackCaptures), old(whiteCaptures), (row, col))
      ensures history == old(history) && currentPlayer == old(currentPlayer)
      ensures consecutivePasses == old(consecutivePasses) && gameOver == old(gameOver)
    {
      var g, bc, wc;
      g, bc, wc, group := JudgeAt(variant, board, blackCaptures, whiteCaptures, row, col);
      board, blackCaptures, whiteCaptures := g, bc, wc;
    }

    /** undo: back to the last saved grid while the game is in progress. */
    method Undo()
      requires Valid()
      modifies this
      ensures Valid()
      ensures Snapshot() == Rules.Undo(old(Snapshot()))
    {
      if |history| > 0 && !gameOver {
        board := history[|history| - 1];
        history := history[..|history| - 1];
        currentPlayer := Opponent(currentPlayer);
        consecutivePasses := if consecutivePasses >= 1 then consecutivePasses - 1 else 0;
      }
    }

    /** pass_turn */
    method PassTurn()
      requires Valid()
      modifies this
      ensures Valid()
      ensures Snapshot() == Pass(old(Snapshot()))
    {
      if gameOver {
        return;
      }
      history := history + [board];
      consecutivePasses := consecutivePasses + 1;
      if consecutivePasses >= 2 {
        gameOver := true;
        RemoveDeadGroups();
      }
      currentPlayer := Opponent(currentPlayer);
    }

    /** reset */
    method Reset()
      requires Valid()
      modifies this
      ensures Valid()
      ensures Snapshot() == Initial(variant)
    {
      board := EmptyGrid(Size(variant));
      history := [];
      currentPlayer := BLACK;
      consecutivePasses := 0;
      gameOver := false;
      blackCaptures := 0;
      whiteCaptures := 0;
    }

    /**
     * get_territory: the empty regions surrounded by stones of one colour
     * only, and under the 9 by 9 rules not touching the edge.
     */
    method GetTerritory() returns (black: set<Pos>, white: set<Pos>)
      requires Valid()
      ensures black == Territory(variant, board, BLACK)
      ensures white == Territory(variant, board, WHITE)
    {
      var visited: set<Pos> := {};
      black, white := {}, {};
      var n := Size(variant);
      for row := 0 to n
        invariant TerritoryScan(variant, board, visited, black, white, row, 0)
      {
        visited, black, white := TerritoryInRow(row, visited, black, white);
      }
      TerritoryScanDone(variant, board, visited, black, white);
    }

    /** The inner loop of get_territory: the regions first met in one row. */
    method TerritoryInRow(row: nat, visited: set<Pos>, black: set<Pos>, white: set<Pos>)
      returns (visited': set<Pos>, black': set<Pos>, white': set<Pos>)
      requires Valid() && row < |board|
      requires TerritoryScan(variant, board, visited, black, white, row, 0)
      ensures TerritoryScan(variant, board, visited', black', white', row + 1, 0)
    {
      visited', black', white' := visited, black, white;
      for col := 0 to Size(variant)
        invariant TerritoryScan(variant, board, visited', black', white', row, col)
      {
        visited', black', white' := TerritoryCell(row, col, visited', black', white');
      }
      TerritoryScanRow(variant, board, visited', black', white', row);
    }

    /** The body of get_territory's inner loop at (row, col). */
    method TerritoryCell(row: nat, col: nat, visited: set<Pos>, black: set<Pos>, white: set<Pos>)
      returns (visited': set<Pos>, black': set<Pos>, white': set<Pos>)
      requires Valid() && row < |board| && col < |board|
      requires TerritoryScan(variant, board, visited, black, white, row, col)
      ensures TerritoryScan(variant, board, visited', black', white', row, col + 1)
    {
      visited', black', white' := visited, black, white;
      if (row, col) !in visited && board[row][col] == EMPTY {
        TerritoryScanRegion(variant, board, visited, black, white, row, col);
        FreshRegion(board, visited, (row, col));
        var region, credit := ScanRegion(row, col, visited);
        if credit == {BLACK} {
          black' := black + region;
        } else if credit == {WHITE} {
          white' := white + region;
        }
        visited' := visited + region;
      }
    }

    /**
     * One region of get_territory: the 19 by 19 copy fills it and then
     * collects the colours around it; the 9 by 9 copy does both in one fill
     * and also notes whether it reaches the edge, in which case it credits
     * no one. The second result is the colour set that decides the credit.
     */
    method ScanRegion(row: int, col: int, visited: set<Pos>) returns (region: set<Pos>, credit: set<int>)
      requires Valid() && EmptyClosed(board, visited)
      requires InBounds(board, (row, col)) && At(board, (row, col)) == EMPTY && (row, col) !in visited
      ensures region == Component(board, (row, col))
      ensures credit == {BLACK} <==> Credited(variant, board, region, BLACK)
      ensures credit == {WHITE} <==> Credited(variant, board, region, WHITE)
    {
      FreshRegion(board, visited, (row, col));
      if variant == Classic {
        var visitedOut;
        region, visitedOut := GetEmptyGroup(board, row, col, visited);
        credit := GetSurroundingPlayers(board, region);
      } else {
        var reachesEdge, surrounding, visitedOut;
        region, reachesEdge, surrounding, visitedOut := GetEmptyGroupStatus(board, row, col, visited);
        credit := if reachesEdge then {} else surrounding;
      }
    }

    /** calculate_score */
    method CalculateScore() returns (black: real, white: real)
      requires Valid()
      ensures (black, white) == Score(Snapshot())
    {
      var blackTerritory, whiteTerritory := GetTerritory();
      black := (blackCaptures + |blackTerritory|) as real;
      white := (whiteCaptures + |whiteTerritory|) as real + KOMI;
    }

    /** get_winner */
    method GetWinner() returns (o: Outcome)
      requires Valid()
      ensures o == Winner(Snapshot())
    {
      if !gameOver {
        return InProgress;
      }
      var black, white := CalculateScore();
      if black > white {
        o := BlackWins(black - white);
      } else if white > black {
        o := WhiteWins(white - black);
      } else {
        o := Draw;
      }
    }

    /** The inner loop of get_legal_moves: the placeable cells of one row, left to right. */
    method LegalInRow(row: nat) returns (found: seq<Pos>)
      requires Valid() && row < |board|
      ensures found + MovesFrom(Snapshot(), row + 1, 0) == MovesFrom(Snapshot(), row, 0)
    {
      found := [];
      ghost var s := Snapshot();
      for col := 0 to Size(variant)
        invariant found + MovesFrom(s, row, col) == MovesFrom(s, row, 0)
      {
        var can := CanPlaceStone(row, col);
        RowStep(s, row, col, found, can);
        found := if can then found + [(row, col)] else found;
      }
    }

    /**
     * get_legal_moves: the row-major filter of can_place_stone; the 9 by 9
     * copy shuffles the list.
     */
    method GetLegalMoves() returns (moves: seq<Pos>)
      requires Valid()
      ensures multiset(moves) == multiset(LegalMoves(Snapshot()))
      ensures variant == Classic ==> moves == LegalMoves(Snapshot())
    {
      moves := [];
      var n := Size(variant);
      ghost var s := Snapshot();
      for row := 0 to n
        invariant moves + MovesFrom(s, row, 0) == LegalMoves(s)
      {
        var found := LegalInRow(row);
        RowsStep(s, row, moves, found);
        moves := moves + found;
      }
      if variant == Mini {
        moves := Shuffle(moves);
      }
    }
  }
}
