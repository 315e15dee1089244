/**
 * The rules engine of the Board class as transitions on a value `State`:
 * placement with captures, ko and suicide, passing (two in a row end the game
 * and remove dead groups), undo, reset, territory, score, winner and the legal
 * moves. The Board class of the board module is proved to follow these.
 */
module Rules {
  import opened GoGrid
  import opened Flood
  import opened Captures
  import GroupOps

  /** The fields of a Board, with the variant that decides its size and rules. */
  datatype State = State(
    variant: Variant,
    grid: Grid,
    history: seq<Grid>,
    player: Player,
    passes: nat,
    gameOver: bool,
    blackCaptures: nat,
    whiteCaptures: nat)

  /** The grid and every saved grid are square and of the variant's size. */
  predicate WellFormed(s: State)
  {
    Square(s.grid) && |s.grid| == Size(s.variant)
    && forall i | 0 <= i < |s.history| :: Square(s.history[i]) && |s.history[i]| == |s.grid|
  }

  /** __init__ and reset: an empty board, Black to move, nothing recorded. */
  function Initial(v: Variant): (s: State)
    ensures WellFormed(s)
  {
    State(v, EmptyGrid(Size(v)), [], BLACK, 0, false, 0, 0)
  }

  /**
   * is_ko_violation: with a previous position on record, placing `player` at p
   * captures something and the grid after the captures equals the grid
   * saved last.
   */
  predicate KoViolation(g: Grid, history: seq<Grid>, p: Pos, player: Player)
    requires Square(g) && InBounds(g, p)
  {
    |history| > 0
    && Captured(SetCell(g, p, player), p, Opponent(player), 4) != {}
    && AfterCaptures(g, p, player) == history[|history| - 1]
  }

  /** can_place_stone: on the board, empty, not a ko recapture, game not over. Suicide is not checked here. */
  predicate CanPlace(s: State, p: Pos)
    requires WellFormed(s)
  {
    InBounds(s.grid, p) && At(s.grid, p) == EMPTY
    && !KoViolation(s.grid, s.history, p, s.player)
    && !s.gameOver
  }

  /**
   * The end of place_stone, given the grid after the captures, their size
   * and whether the placed stone's group has a liberty. Without a liberty the
   * placement is taken back: the stone is removed, the saved grid is dropped
   * and the turn stays, but the pass counter has already been reset and the
   * capture counters updated.
   */
  function Commit(s: State, p: Pos, after: Grid, count: nat, liberty: bool): (bool, State)
    requires Square(after) && InBounds(after, p)
  {
    var bc := if s.player == BLACK then s.blackCaptures + count else s.blackCaptures;
    var wc := if s.player == BLACK then s.whiteCaptures else s.whiteCaptures + count;
    if !liberty then
      (false, s.(grid := SetCell(after, p, EMPTY), passes := 0, blackCaptures := bc, whiteCaptures := wc))
    else
      (true, s.(grid := after, history := s.history + [s.grid], player := Opponent(s.player),
                passes := 0, blackCaptures := bc, whiteCaptures := wc))
  }

  /** place_stone: the outcome flag and the new state. */
  function Place(s: State, p: Pos): (r: (bool, State))
    requires WellFormed(s)
    ensures WellFormed(r.1) && r.1.variant == s.variant
  {
    if !CanPlace(s, p) then (false, s)
    else
      var after := AfterCaptures(s.grid, p, s.player);
      Commit(s, p, after, |Captured(SetCell(s.grid, p, s.player), p, Opponent(s.player), 4)|,
             HasLiberty(after, Group(after, p)))
  }

  /**
   * A placement that cannot be played changes nothing; a successful one saves
   * the grid, hands over the turn, resets the pass counter and leaves the
   * placed stone on the board with a liberty.
   */
  lemma PlaceSpec(s: State, p: Pos)
    requires WellFormed(s)
    ensures !CanPlace(s, p) ==> Place(s, p) == (false, s)
    ensures var r := Place(s, p);
            r.0 ==> CanPlace(s, p) && r.1.history == s.history + [s.grid]
                    && r.1.player == Opponent(s.player) && r.1.passes == 0 && !r.1.gameOver
                    && At(r.1.grid, p) == s.player && HasLiberty(r.1.grid, Group(r.1.grid, p))
  {
    if CanPlace(s, p) {
      PlacedStoneStays(s.grid, p, s.player);
    }
  }

  /** A suicide changes nothing but the pass counter: it captured nothing, and the grid is restored. */
  lemma SuicideChangesOnlyPasses(s: State, p: Pos)
    requires WellFormed(s) && CanPlace(s, p) && !Place(s, p).0
    ensures Place(s, p).1 == s.(passes := 0)
  {
    SuicideRestores(s.grid, p, s.player);
    SuicideCapturesNothing(s.grid, p, s.player);
  }

  /**
   * After a successful placement the mover's capture counter grew by exactly
   * the number of enemy stones that left the board, the other counter is
   * unchanged, and only the placed cell and captured enemy stones differ.
   */
  lemma PlaceCaptureCount(s: State, p: Pos)
    requires WellFormed(s) && Place(s, p).0
    ensures var r := Place(s, p).1;
            var enemy := Opponent(s.player);
            && (s.player == BLACK ==> r.blackCaptures == s.blackCaptures + (|Stones(s.grid, WHITE)| - |Stones(r.grid, WHITE)|)
                                      && r.whiteCaptures == s.whiteCaptures)
            && (s.player == WHITE ==> r.whiteCaptures == s.whiteCaptures + (|Stones(s.grid, BLACK)| - |Stones(r.grid, BLACK)|)
                                      && r.blackCaptures == s.blackCaptures)
            && (forall x :: x != p && At(r.grid, x) != At(s.grid, x) ==> At(s.grid, x) == enemy && At(r.grid, x) == EMPTY)
  {
    CaptureCount(s.grid, p, s.player);
    CapturesEffect(s.grid, p, s.player);
  }

  /**
   * A ko violation is a capture that would be legal as far as liberties go and
   * would recreate the position before the opponent's last move.
   */
  lemma KoIsRepetition(s: State, p: Pos)
    requires WellFormed(s) && InBounds(s.grid, p) && KoViolation(s.grid, s.history, p, s.player)
    ensures HasLiberty(AfterCaptures(s.grid, p, s.player), Group(AfterCaptures(s.grid, p, s.player), p))
    ensures AfterCaptures(s.grid, p, s.player) == s.history[|s.history| - 1]
  {
    CaptureGivesLiberty(s.grid, p, s.player);
  }

  /**
   * One judgement of remove_dead_groups: the group of the stone at q is
   * emptied when it is not alive, and its size is credited to the other colour.
   */
  function Judge(v: Variant, g: Grid, bc: nat, wc: nat, q: Pos): (res: (Grid, nat, nat))
    requires Square(g)
    ensures Square(res.0) && |res.0| == |g|
  {
    var group := Group(g, q);
    if !Alive(v, g, group, At(g, q)) then
      (ClearSet(g, group),
       if At(g, q) == WHITE then bc + |group| else bc,
       if At(g, q) == BLACK then wc + |group| else wc)
    else (g, bc, wc)
  }

  /**
   * remove_dead_groups, from cell (r, c) on in row-major order: every
   * not yet visited stone's group is judged on the grid as it stands.
   * Returns the grid and the Black and White capture counters.
   */
  function Sweep(v: Variant, g: Grid, bc: nat, wc: nat, visited: set<Pos>, r: nat, c: nat): (res: (Grid, nat, nat))
    requires Square(g)
    ensures Square(res.0) && |res.0| == |g|
    decreases |g| - r, |g| - c
  {
    if r >= |g| then (g, bc, wc)
    else if c >= |g| then Sweep(v, g, bc, wc, visited, r + 1, 0)
    else if (r, c) !in visited && At(g, (r, c)) != EMPTY then
      var j := Judge(v, g, bc, wc, (r, c));
      Sweep(v, j.0, j.1, j.2, visited + Group(g, (r, c)), r, c + 1)
    else
      Sweep(v, g, bc, wc, visited, r, c + 1)
  }

  /** g' differs from g only by cells of the board that became empty. */
  ghost predicate OnlyEmptied(g: Grid, g': Grid)
  {
    forall x {:trigger At(g', x)} :: At(g', x) == At(g, x) || (InBounds(g, x) && At(g', x) == EMPTY)
  }

  /** Each counter plus the stones of the colour it is credited for stays the same. */
  predicate Conserved(g: Grid, bc: nat, wc: nat, g': Grid, bc': nat, wc': nat)
  {
    bc' + |Stones(g', WHITE)| == bc + |Stones(g, WHITE)|
    && wc' + |Stones(g', BLACK)| == wc + |Stones(g, BLACK)|
  }

  /** Going from (g, bc, wc) to res only empties cells and credits exactly the stones removed. */
  ghost predicate Keeps(g: Grid, bc: nat, wc: nat, res: (Grid, nat, nat))
  {
    |res.0| == |g| && OnlyEmptied(g, res.0) && Conserved(g, bc, wc, res.0, res.1, res.2)
  }

  lemma KeepsTrans(g: Grid, bc: nat, wc: nat, j: (Grid, nat, nat), res: (Grid, nat, nat))
    requires Keeps(g, bc, wc, j) && Keeps(j.0, j.1, j.2, res)
    ensures Keeps(g, bc, wc, res)
  {
  }

  /** The cell (r, c) holds a stone that the sweep has not met yet. */
  ghost predicate Unjudged(g: Grid, visited: set<Pos>, r: nat, c: nat)
  {
    Square(g) && r < |g| && c < |g| && (r, c) !in visited && At(g, (r, c)) != EMPTY
  }

  /** A judgement only empties cells, and credits exactly the stones it removes. */
  lemma JudgeConserves(v: Variant, g: Grid, bc: nat, wc: nat, q: Pos)
    requires Square(g) && InBounds(g, q) && At(g, q) != EMPTY
    ensures Keeps(g, bc, wc, Judge(v, g, bc, wc, q))
  {
    GroupSpec(g, q);
    var colour: Player := At(g, q);
    StonesAfterClear(g, Group(g, q), colour);
  }

  /** The sweep at a stone not yet visited: judge its group, then go on from the next cell. */
  lemma SweepJudges(v: Variant, g: Grid, bc: nat, wc: nat, visited: set<Pos>, r: nat, c: nat)
    requires Unjudged(g, visited, r, c)
    ensures var j := Judge(v, g, bc, wc, (r, c));
            Sweep(v, g, bc, wc, visited, r, c) == Sweep(v, j.0, j.1, j.2, visited + Group(g, (r, c)), r, c + 1)
  {
  }

  /** The sweep passes over an empty or already visited cell. */
  lemma SweepSkips(v: Variant, g: Grid, bc: nat, wc: nat, visited: set<Pos>, r: nat, c: nat)
    requires Square(g) && r < |g| && c < |g| && ((r, c) in visited || At(g, (r, c)) == EMPTY)
    ensures Sweep(v, g, bc, wc, visited, r, c) == Sweep(v, g, bc, wc, visited, r, c + 1)
  {
  }

  /** The sweep goes from the end of one row to the start of the next. */
  lemma SweepNextRow(v: Variant, g: Grid, bc: nat, wc: nat, visited: set<Pos>, r: nat)
    requires Square(g)
    ensures Sweep(v, g, bc, wc, visited, r, |g|) == Sweep(v, g, bc, wc, visited, r + 1, 0)
  {
  }

  /** The judging step of the sweep, with the rest of the sweep by induction. */
  lemma {:induction false} SweepJudgeStep(v: Variant, g: Grid, bc: nat, wc: nat, visited: set<Pos>, r: nat, c: nat)
    requires Unjudged(g, visited, r, c)
    ensures Keeps(g, bc, wc, Sweep(v, g, bc, wc, visited, r, c))
    decreases |g| - r, |g| - c, 0
  {
    var j := Judge(v, g, bc, wc, (r, c));
    JudgeConserves(v, g, bc, wc, (r, c));
    SweepJudges(v, g, bc, wc, visited, r, c);
    SweepAfterJudge(v, g, bc, wc, j, visited + Group(g, (r, c)), r, c + 1);
  }

  /** After a judgement that keeps the stones' count, the rest of the sweep keeps it too. */
  lemma {:induction false} SweepAfterJudge(v: Variant, g: Grid, bc: nat, wc: nat, j: (Grid, nat, nat), visited: set<Pos>, r: nat, c: nat)
    requires Square(g) && Square(j.0) && Keeps(g, bc, wc, j)
    ensures Keeps(g, bc, wc, Sweep(v, j.0, j.1, j.2, visited, r, c))
    decreases |g| - r, |g| - c, 2
  {
    SweepConserves(v, j.0, j.1, j.2, visited, r, c);
    KeepsTrans(g, bc, wc, j, Sweep(v, j.0, j.1, j.2, visited, r, c));
  }

  /** The whole sweep only empties cells, and credits exactly the stones it removes. */
  lemma {:induction false} SweepConserves(v: Variant, g: Grid, bc: nat, wc: nat, visited: set<Pos>, r: nat, c: nat)
    requires Square(g)
    ensures Keeps(g, bc, wc, Sweep(v, g, bc, wc, visited, r, c))
    decreases |g| - r, |g| - c, 1
  {
    if r >= |g| {
    } else if c >= |g| {
      SweepConserves(v, g, bc, wc, visited, r + 1, 0);
      assert Sweep(v, g, bc, wc, visited, r, c) == Sweep(v, g, bc, wc, visited, r + 1, 0);
    } else if (r, c) !in visited && At(g, (r, c)) != EMPTY {
      SweepJudgeStep(v, g, bc, wc, visited, r, c);
    } else {
      SweepConserves(v, g, bc, wc, visited, r, c + 1);
      assert Sweep(v, g, bc, wc, visited, r, c) == Sweep(v, g, bc, wc, visited, r, c + 1);
    }
  }

  /** remove_dead_groups: only after the game is over. */
  function RemoveDead(s: State): (r: State)
    requires WellFormed(s)
    ensures WellFormed(r)
    ensures r.variant == s.variant && r.history == s.history && r.player == s.player
            && r.passes == s.passes && r.gameOver == s.gameOver
  {
    if !s.gameOver then s
    else
      var res := Sweep(s.variant, s.grid, s.blackCaptures, s.whiteCaptures, {}, 0, 0);
      s.(grid := res.0, blackCaptures := res.1, whiteCaptures := res.2)
  }

  /** Removing dead groups keeps every stone's count: each removed stone is credited once, to the other colour. */
  lemma RemoveDeadConserves(s: State)
    requires WellFormed(s)
    ensures var r := RemoveDead(s);
            && r.blackCaptures + |Stones(r.grid, WHITE)| == s.blackCaptures + |Stones(s.grid, WHITE)|
            && r.whiteCaptures + |Stones(r.grid, BLACK)| == s.whiteCaptures + |Stones(s.grid, BLACK)|
            && OnlyEmptied(s.grid, r.grid)
  {
    if s.gameOver {
      SweepConserves(s.variant, s.grid, s.blackCaptures, s.whiteCaptures, {}, 0, 0);
    }
  }

  /**
   * pass_turn: nothing once the game is over; otherwise save the grid, count
   * the pass, end the game and remove dead groups at the second pass in a
   * row, and hand the turn over.
   */
  function Pass(s: State): (r: State)
    requires WellFormed(s)
    ensures WellFormed(r) && r.variant == s.variant
  {
    if s.gameOver then s
    else
      var counted := s.(history := s.history + [s.grid], passes := s.passes + 1);
      var ended := if counted.passes >= 2 then RemoveDead(counted.(gameOver := true)) else counted;
      ended.(player := Opponent(s.player))
  }

  /** Two passes in a row end a game in progress, and the first of them does not when no pass preceded it. */
  lemma TwoPassesEndGame(s: State)
    requires WellFormed(s) && !s.gameOver
    ensures Pass(Pass(s)).gameOver
    ensures s.passes == 0 ==> !Pass(s).gameOver && Pass(s).passes == 1 && Pass(s).grid == s.grid
  {
  }

  /** Passing saves the position and ends the game exactly at the second consecutive pass. */
  lemma PassSpec(s: State)
    requires WellFormed(s) && !s.gameOver
    ensures Pass(s).history == s.history + [s.grid]
    ensures Pass(s).passes == s.passes + 1 && Pass(s).player == Opponent(s.player)
    ensures Pass(s).gameOver <==> s.passes >= 1
    ensures !Pass(s).gameOver ==> Pass(s).grid == s.grid
    ensures Pass(s).blackCaptures + |Stones(Pass(s).grid, WHITE)| == s.blackCaptures + |Stones(s.grid, WHITE)|
    ensures Pass(s).whiteCaptures + |Stones(Pass(s).grid, BLACK)| == s.whiteCaptures + |Stones(s.grid, BLACK)|
  {
    if s.passes >= 1 {
      RemoveDeadConserves(s.(history := s.history + [s.grid], passes := s.passes + 1, gameOver := true));
    }
  }

  /** undo: back to the saved grid, while the game is in progress. */
  function Undo(s: State): (r: State)
    requires WellFormed(s)
    ensures WellFormed(r) && r.variant == s.variant
  {
    if |s.history| > 0 && !s.gameOver then
      s.(grid := s.history[|s.history| - 1], history := s.history[..|s.history| - 1],
         player := Opponent(s.player), passes := if s.passes >= 1 then s.passes - 1 else 0)
    else s
  }

  /** Undoing a successful placement brings back the grid, the history and the side to move. */
  lemma PlaceThenUndo(s: State, p: Pos)
    requires WellFormed(s) && Place(s, p).0
    ensures var u := Undo(Place(s, p).1);
            u.grid == s.grid && u.history == s.history && u.player == s.player && u.passes == 0
  {
    assert (s.history + [s.grid])[..|s.history|] == s.history;
  }

  /** Undoing a pass that did not end the game brings back the state, except that a pass count of one drops to zero. */
  lemma PassThenUndo(s: State)
    requires WellFormed(s) && !s.gameOver && s.passes == 0
    ensures Undo(Pass(s)) == s
  {
    assert (s.history + [s.grid])[..|s.history|] == s.history;
  }

  /** Once the game is over, placing, passing and undoing change nothing. */
  lemma GameOverFreezes(s: State, p: Pos)
    requires WellFormed(s) && s.gameOver
    ensures Place(s, p) == (false, s) && Pass(s) == s && Undo(s) == s
  {
  }

  /** calculate_score: captures plus territory for Black; captures, territory and komi for White. */
  function Score(s: State): (r: (real, real))
    ensures r.1 - r.0 == (s.whiteCaptures + |Territory(s.variant, s.grid, WHITE)|) as real + KOMI
                         - (s.blackCaptures + |Territory(s.variant, s.grid, BLACK)|) as real
  {
    ((s.blackCaptures + |Territory(s.variant, s.grid, BLACK)|) as real,
     (s.whiteCaptures + |Territory(s.variant, s.grid, WHITE)|) as real + KOMI)
  }

  /** A whole number of points never equals another whole number plus the half-point komi. */
  lemma KomiBreaksTies(x: int, y: int)
    ensures x as real != y as real + KOMI
  {
    if x - y <= 6 {
      assert x as real <= y as real + 6.0;
    } else {
      assert x as real >= y as real + 7.0;
    }
  }

  /** The result of get_winner; the margin is the positive score difference. */
  datatype Outcome = InProgress | BlackWins(margin: real) | WhiteWins(margin: real) | Draw

  function Winner(s: State): (o: Outcome)
    ensures o == InProgress <==> !s.gameOver
    ensures o.BlackWins? ==> o.margin > 0.0 && o.margin == Score(s).0 - Score(s).1
    ensures o.WhiteWins? ==> o.margin > 0.0 && o.margin == Score(s).1 - Score(s).0
    // komi is a half point and every other score term is whole, so a finished game is never drawn
    ensures o != Draw
  {
    if !s.gameOver then InProgress
    else
      var (b, w) := Score(s);
      KomiBreaksTies(s.blackCaptures + |Territory(s.variant, s.grid, BLACK)|,
                     s.whiteCaptures + |Territory(s.variant, s.grid, WHITE)|);
      if b > w then BlackWins(b - w)
      else if w > b then WhiteWins(w - b)
      else Draw
  }

  /** Territory cells are empty cells of the board, and they come in whole empty regions. */
  lemma TerritoryRegions(v: Variant, g: Grid, c: int, q: Pos)
    requires Square(g) && q in Territory(v, g, c)
    ensures InBounds(g, q) && At(g, q) == EMPTY
    ensures Component(g, q) <= Territory(v, g, c)
  {
    InAllCells(|g|, q);
    GroupOps.EmptyComponent(g, q);
    forall y | y in Component(g, q)
      ensures y in Territory(v, g, c)
    {
      InAllCells(|g|, y);
    }
  }

  /** No cell is territory of both colours. */
  lemma TerritoryDisjoint(v: Variant, g: Grid)
    ensures Territory(v, g, BLACK) !! Territory(v, g, WHITE)
  {
  }

  /** The 9 by 9 rules count a subset of the 19 by 19 rules' territory, none of it on the edge. */
  lemma MiniTerritoryInterior(g: Grid, c: int, q: Pos)
    requires Square(g) && q in Territory(Mini, g, c)
    ensures q in Territory(Classic, g, c)
    ensures !OnEdge(|g|, q)
  {
    InAllCells(|g|, q);
    GroupOps.EmptyComponent(g, q);
    if OnEdge(|g|, q) {
      assert q in Component(g, q);
      assert TouchesEdge(g, Component(g, q));
    }
  }

  /** The legal moves from (r, c) on, in row-major order. */
  function MovesFrom(s: State, r: nat, c: nat): seq<Pos>
    requires WellFormed(s)
    decreases |s.grid| - r, |s.grid| - c
  {
    if r >= |s.grid| then []
    else if c >= |s.grid| then MovesFrom(s, r + 1, 0)
    else (if CanPlace(s, (r, c)) then [(r, c)] else []) + MovesFrom(s, r, c + 1)
  }

  /** One cell of the scan: the cell itself when placeable, then the rest of the scan. */
  lemma MovesFromCell(s: State, r: nat, c: nat)
    requires WellFormed(s) && r < |s.grid| && c < |s.grid|
    ensures MovesFrom(s, r, c) == (if CanPlace(s, (r, c)) then [(r, c)] else []) + MovesFrom(s, r, c + 1)
  {
  }

  /** One step of the scan of a row: the cell is kept exactly when it is placeable. */
  lemma RowStep(s: State, r: nat, c: nat, found: seq<Pos>, can: bool)
    requires WellFormed(s) && r < |s.grid| && c < |s.grid|
    requires found + MovesFrom(s, r, c) == MovesFrom(s, r, 0)
    requires can == CanPlace(s, (r, c))
    ensures (if can then found + [(r, c)] else found) + MovesFrom(s, r, c + 1) == MovesFrom(s, r, 0)
  {
    MovesFromCell(s, r, c);
    if can {
      assert (found + [(r, c)]) + MovesFrom(s, r, c + 1) == found + ([(r, c)] + MovesFrom(s, r, c + 1));
    }
  }

  /** Appending the cells found in row r to those of the rows before it. */
  lemma RowsStep(s: State, r: nat, moves: seq<Pos>, found: seq<Pos>)
    requires WellFormed(s)
    requires moves + MovesFrom(s, r, 0) == MovesFrom(s, 0, 0)
    requires found + MovesFrom(s, r + 1, 0) == MovesFrom(s, r, 0)
    ensures (moves + found) + MovesFrom(s, r + 1, 0) == MovesFrom(s, 0, 0)
  {
    assert (moves + found) + MovesFrom(s, r + 1, 0) == moves + (found + MovesFrom(s, r + 1, 0));
  }

  /** The row-major filter of can_place_stone over the whole board. */
  function LegalMoves(s: State): seq<Pos>
    requires WellFormed(s)
  {
    MovesFrom(s, 0, 0)
  }

  /** p comes at or after (r, c) in row-major order. */
  predicate FromRowMajor(p: Pos, r: int, c: int)
  {
    p.0 > r || (p.0 == r && p.1 >= c)
  }

  /** p comes strictly before q in row-major order. */
  predicate Before(p: Pos, q: Pos)
  {
    p.0 < q.0 || (p.0 == q.0 && p.1 < q.1)
  }

  /** The scan from (r, c) lists exactly the placeable cells from (r, c) on in row-major order. */
  lemma {:induction false} MovesFromMembers(s: State, r: nat, c: nat)
    requires WellFormed(s)
    ensures forall p :: p in MovesFrom(s, r, c) <==> CanPlace(s, p) && FromRowMajor(p, r, c)
    decreases |s.grid| - r, |s.grid| - c
  {
    if r >= |s.grid| {
    } else if c >= |s.grid| {
      MovesFromMembers(s, r + 1, 0);
    } else {
      MovesFromMembers(s, r, c + 1);
      MovesFromCell(s, r, c);
      forall p
        ensures p in MovesFrom(s, r, c) <==> CanPlace(s, p) && FromRowMajor(p, r, c)
      {
        if p == (r, c) {
        } else {
          assert FromRowMajor(p, r, c) <==> FromRowMajor(p, r, c + 1);
        }
      }
    }
  }

  /** Each cell of m comes strictly before every later one in row-major order. */
  predicate RowMajorSorted(m: seq<Pos>)
  {
    forall i, j :: 0 <= i < j < |m| ==> Before(m[i], m[j])
  }

  /** A cell that precedes every cell of a sorted list can go in front of it. */
  lemma ConsSorted(x: Pos, rest: seq<Pos>)
    requires RowMajorSorted(rest)
    requires forall q :: q in rest ==> Before(x, q)
    ensures RowMajorSorted([x] + rest)
  {
    var m := [x] + rest;
    forall i, j | 0 <= i < j < |m|
      ensures Before(m[i], m[j])
    {
      assert m[j] == rest[j - 1];
      if i > 0 {
        assert m[i] == rest[i - 1];
      }
    }
  }

  /** The scan from (r, c) lists cells from (r, c) on, in strictly increasing row-major order. */
  lemma {:induction false} MovesFromOrdered(s: State, r: nat, c: nat)
    requires WellFormed(s)
    ensures forall p :: p in MovesFrom(s, r, c) ==> FromRowMajor(p, r, c)
    ensures RowMajorSorted(MovesFrom(s, r, c))
    decreases |s.grid| - r, |s.grid| - c
  {
    if r >= |s.grid| {
    } else if c >= |s.grid| {
      MovesFromOrdered(s, r + 1, 0);
    } else {
      MovesFromOrdered(s, r, c + 1);
      MovesFromCell(s, r, c);
      var rest := MovesFrom(s, r, c + 1);
      if CanPlace(s, (r, c)) {
        ConsSorted((r, c), rest);
      }
    }
  }

  /** The legal moves are exactly the placeable cells, each once, in row-major order. */
  lemma LegalMovesSpec(s: State)
    requires WellFormed(s)
    ensures forall p :: p in LegalMoves(s) <==> CanPlace(s, p)
    ensures RowMajorSorted(LegalMoves(s))
    ensures s.gameOver ==> LegalMoves(s) == []
  {
    MovesFromMembers(s, 0, 0);
    MovesFromOrdered(s, 0, 0);
    if s.gameOver && LegalMoves(s) != [] {
      assert LegalMoves(s)[0] in LegalMoves(s);
    }
  }
}
