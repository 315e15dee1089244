/**
 * The 9 by 9 search engine: depth-limited minimax with alpha-beta pruning
 * and a transposition table keyed by the grid's contents, the random
 * player, and the controller that picks one of them by name.
 */
module Minimax {
  import opened GoGrid
  import opened Flood
  import opened Rules
  import opened Choice
  import opened GroupOps
  import opened GoBoard
  import opened Heuristics

  /** A score, or the float('-inf') and float('inf') that alpha, beta and the running best start from. */
  datatype Ext = NegInf | Fin(v: real) | PosInf

  /** a < b on scores extended with the two infinities. */
  predicate Below(a: Ext, b: Ext)
  {
    match a
    case NegInf => !b.NegInf?
    case PosInf => false
    case Fin(x) => b.PosInf? || (b.Fin? && x < b.v)
  }

  /** Python's max(a, b): a unless b is larger. */
  function ExtMax(a: Ext, b: Ext): (r: Ext)
    ensures !Below(r, a) && !Below(r, b) && (r == a || r == b)
  {
    if Below(a, b) then b else a
  }

  /** Python's min(a, b): a unless b is smaller. */
  function ExtMin(a: Ext, b: Ext): (r: Ext)
    ensures !Below(a, r) && !Below(b, r) && (r == a || r == b)
  {
    if Below(b, a) then b else a
  }

  /** The variables of minimax's loop over the children: the best value so far, its move, alpha and beta. */
  datatype Best = Best(value: Ext, move: Option<Pos>, alpha: Ext, beta: Ext)

  /**
   * One turn of the loop on a child worth e reached by m: a strictly better
   * value replaces the best value and move, then alpha (maximizing) or beta
   * (minimizing) takes the child's value into account.
   */
  function Step(maximizing: bool, r: Best, e: real, m: Pos): Best
  {
    if maximizing then
      var better := Below(r.value, Fin(e));
      Best(if better then Fin(e) else r.value, if better then Some(m) else r.move, ExtMax(r.alpha, Fin(e)), r.beta)
    else
      var better := Below(Fin(e), r.value);
      Best(if better then Fin(e) else r.value, if better then Some(m) else r.move, r.alpha, ExtMin(r.beta, Fin(e)))
  }

  /** The loop variables after the children moves[..|evals|], worth evals, have been explored. */
  function Scan(maximizing: bool, evals: seq<real>, moves: seq<Pos>, alpha: Ext, beta: Ext): Best
    requires |evals| <= |moves|
  {
    if evals == [] then Best(if maximizing then NegInf else PosInf, None, alpha, beta)
    else
      var k := |evals| - 1;
      Step(maximizing, Scan(maximizing, evals[..k], moves, alpha, beta), evals[k], moves[k])
  }

  /** Exploring one more child is one more Step, and leaves the earlier prefixes as they were. */
  lemma ScanSnoc(maximizing: bool, evals: seq<real>, e: real, moves: seq<Pos>, alpha: Ext, beta: Ext)
    requires |evals| < |moves|
    ensures Scan(maximizing, evals + [e], moves, alpha, beta)
            == Step(maximizing, Scan(maximizing, evals, moves, alpha, beta), e, moves[|evals|])
    ensures forall j :: 0 <= j <= |evals| ==> (evals + [e])[..j] == evals[..j]
  {
    assert (evals + [e])[..|evals|] == evals;
  }

  /** The cutoff test `beta <= alpha`. */
  predicate Cut(r: Best)
  {
    !Below(r.alpha, r.beta)
  }

  /** No prefix of the explored children, the whole included, reached a cutoff. */
  ghost predicate Uncut(maximizing: bool, evals: seq<real>, moves: seq<Pos>, alpha: Ext, beta: Ext)
    requires |evals| <= |moves|
  {
    forall j :: 0 < j <= |evals| ==> !Cut(Scan(maximizing, evals[..j], moves, alpha, beta))
  }

  /** A child after which there is no cutoff keeps the loop going. */
  lemma UncutSnoc(maximizing: bool, evals: seq<real>, e: real, moves: seq<Pos>, alpha: Ext, beta: Ext)
    requires |evals| < |moves| && Uncut(maximizing, evals, moves, alpha, beta)
    requires !Cut(Scan(maximizing, evals + [e], moves, alpha, beta))
    ensures Uncut(maximizing, evals + [e], moves, alpha, beta)
  {
    ScanSnoc(maximizing, evals, e, moves, alpha, beta);
    assert (evals + [e])[..|evals| + 1] == evals + [e];
  }

  /** x is at least as good as y for the side choosing. */
  predicate NoWorse(maximizing: bool, x: real, y: real)
  {
    if maximizing then x >= y else x <= y
  }

  /** The index behind ScanSpec: the first child holding the best value, found by induction on the children. */
  lemma {:induction false} ScanBest(maximizing: bool, evals: seq<real>, moves: seq<Pos>, alpha: Ext, beta: Ext)
      returns (k: nat)
    requires 0 < |evals| <= |moves|
    ensures k < |evals|
    ensures Scan(maximizing, evals, moves, alpha, beta).value == Fin(evals[k])
    ensures Scan(maximizing, evals, moves, alpha, beta).move == Some(moves[k])
    ensures forall j :: 0 <= j < |evals| ==> NoWorse(maximizing, evals[k], evals[j])
    ensures forall j :: 0 <= j < k ==> !NoWorse(maximizing, evals[j], evals[k])
  {
    var n := |evals| - 1;
    var init := evals[..n];
    var r := Scan(maximizing, evals, moves, alpha, beta);
    if n == 0 {
      assert init == [];
      k := 0;
    } else {
      var p := Scan(maximizing, init, moves, alpha, beta);
      assert r == Step(maximizing, p, evals[n], moves[n]);
      k := ScanBest(maximizing, init, moves, alpha, beta);
      assert forall j :: 0 <= j < n ==> init[j] == evals[j];
      if Below(if maximizing then p.value else Fin(evals[n]), if maximizing then Fin(evals[n]) else p.value) {
        k := n;
      }
    }
  }

  /**
   * After at least one child, the best value is the largest (maximizing) or
   * smallest (minimizing) child value, and the best move is the move of the
   * first child with that value.
   */
  lemma ScanSpec(maximizing: bool, evals: seq<real>, moves: seq<Pos>, alpha: Ext, beta: Ext)
    requires 0 < |evals| <= |moves|
    ensures var r := Scan(maximizing, evals, moves, alpha, beta);
            exists k :: 0 <= k < |evals| && r.value == Fin(evals[k]) && r.move == Some(moves[k])
              && (forall j :: 0 <= j < |evals| ==> NoWorse(maximizing, evals[k], evals[j]))
              && (forall j :: 0 <= j < k ==> !NoWorse(maximizing, evals[j], evals[k]))
  {
    var k := ScanBest(maximizing, evals, moves, alpha, beta);
  }

  /** Alpha (maximizing) or beta (minimizing) ends as the better of its start and the best child value. */
  lemma {:induction false} ScanBounds(maximizing: bool, evals: seq<real>, moves: seq<Pos>, alpha: Ext, beta: Ext)
    requires |evals| <= |moves|
    ensures var r := Scan(maximizing, evals, moves, alpha, beta);
            if maximizing then r.alpha == ExtMax(alpha, r.value) && r.beta == beta
            else r.beta == ExtMin(beta, r.value) && r.alpha == alpha
  {
    if evals != [] {
      var n := |evals| - 1;
      ScanBounds(maximizing, evals[..n], moves, alpha, beta);
    }
  }

  /** What the loop over the children explored: the first |evals| sorted moves, stopping at the first cutoff. */
  ghost predicate Explored(maximizing: bool, evals: seq<real>, order: seq<Pos>, alpha: Ext, beta: Ext)
  {
    0 < |evals| <= |order|
    && (forall j :: 0 < j < |evals| ==> !Cut(Scan(maximizing, evals[..j], order, alpha, beta)))
    && (|evals| < |order| ==> Cut(Scan(maximizing, evals, order, alpha, beta)))
  }

  /** Without a cutoff before the last child, every child is explored. */
  lemma ExploredAll(maximizing: bool, evals: seq<real>, order: seq<Pos>, alpha: Ext, beta: Ext)
    requires Explored(maximizing, evals, order, alpha, beta)
    requires !Cut(Scan(maximizing, evals, order, alpha, beta))
    ensures |evals| == |order|
  {
  }

  /** The liberties, weights or links summed over a group, by a loop over its points. */
  method SumTerm(g: Grid, t: Term, cells: set<Pos>) returns (total: real)
    ensures total == SumOver(g, t, cells)
  {
    total := 0.0;
    var left := cells;
    while left != {}
      invariant left <= cells
      invariant total + SumOver(g, t, left) == SumOver(g, t, cells)
      decreases |left|
    {
      var x :| x in left;
      SumOverRemove(g, t, left, x);
      total := total + TermAt(g, t, x);
      left := left - {x};
    }
  }

  /**
   * The connectivity loop of evaluate_board: the player factor times 0.4
   * for every same-colour neighbour of every stone; own says the factor is +1.
   */
  method Connectivity(g: Grid, group: set<Pos>, colour: int, own: bool) returns (bonus: real)
    requires Square(g)
    ensures bonus == Signed(own, 0.4 * SumOver(g, Links(colour), group))
  {
    bonus := 0.0;
    ghost var done := 0.0;
    var left := group;
    while left != {}
      invariant left <= group
      invariant done + SumOver(g, Links(colour), left) == SumOver(g, Links(colour), group)
      invariant bonus == Signed(own, 0.4 * done)
      decreases |left|
    {
      var x :| x in left;
      SumOverRemove(g, Links(colour), left, x);
      bonus := AddLinks(g, x, colour, own, bonus);
      done := done + TermAt(g, Links(colour), x);
      left := left - {x};
    }
  }

  /** The direction loop of the connectivity loop at stone x: the factor times 0.4 per same-colour neighbour. */
  method AddLinks(g: Grid, x: Pos, colour: int, own: bool, bonus: real) returns (bonus': real)
    requires Square(g)
    ensures bonus' == bonus + Signed(own, 0.4 * (CountDirs(g, x, colour, 4) as real))
  {
    var unit := if own then 0.4 else -0.4;
    bonus' := bonus;
    for d := 0 to 4
      invariant bonus' == bonus + Signed(own, 0.4 * (CountDirs(g, x, colour, d) as real))
    {
      NbrStep(x, d);
      var y := (x.0 + DIRECTIONS[d].0, x.1 + DIRECTIONS[d].1);
      if InBounds(g, y) && g[y.0][y.1] == colour {
        bonus' := bonus' + unit;
      }
    }
  }

  /** What evaluate_board adds for one group of the given colour. */
  method GroupBonusOf(g: Grid, group: set<Pos>, colour: int, current: Player) returns (b: Bonus)
    requires Square(g)
    ensures b == GroupBonus(g, group, colour, current)
  {
    var playerFactor := if colour == current then 1.0 else -1.0;
    var liberties := SumTerm(g, Liberties, group);
    var weights := SumTerm(g, Weight, group);
    var connectivity := Connectivity(g, group, colour, colour == current);
    var threat := if liberties <= 2.0 && colour != current then 2.0 * playerFactor else 0.0;
    b := Bonus(liberties * playerFactor * 0.5, weights * playerFactor * 0.3, connectivity, threat,
               |group| as real * playerFactor * 0.2);
  }

  /** One point of evaluate_board's scan: a stone not yet covered starts a new group. */
  lemma EvalScanCell(g: Grid, current: Player, covered: set<Pos>, r: nat, c: nat)
    requires Square(g) && r < |g| && c < |g|
    ensures EvalScan(g, current, covered, r, c)
            == if At(g, (r, c)) != EMPTY && (r, c) !in covered then
                 Add(GroupBonus(g, Group(g, (r, c)), At(g, (r, c)), current),
                     EvalScan(g, current, covered + Group(g, (r, c)), r, c + 1))
               else EvalScan(g, current, covered, r, c + 1)
  {
  }

  /** The five bonuses so far plus those of the rest of the scan from (r, c) are those of the whole scan. */
  ghost predicate Scanned(g: Grid, current: Player, groups: set<Pos>, r: nat, c: nat, bonuses: Bonus)
    requires Square(g)
  {
    Add(bonuses, EvalScan(g, current, groups, r, c)) == EvalScan(g, current, {}, 0, 0)
  }

  /** Scanned moves one point on: by the group's bonuses at a new stone, unchanged otherwise. */
  lemma ScannedStep(g: Grid, current: Player, groups: set<Pos>, row: nat, col: nat, bonuses: Bonus)
    requires Square(g) && row < |g| && col < |g|
    requires Scanned(g, current, groups, row, col, bonuses)
    ensures var p := (row, col);
            if At(g, p) != EMPTY && p !in groups then
              Scanned(g, current, groups + Group(g, p), row, col + 1,
                      Add(bonuses, GroupBonus(g, Group(g, p), At(g, p), current)))
            else Scanned(g, current, groups, row, col + 1, bonuses)
  {
    EvalScanCell(g, current, groups, row, col);
  }

  /**
   * The body of evaluate_board's scan at (row, col): a stone not in an
   * earlier group adds its group's bonuses, and its group is recorded.
   */
  method ScanCell(g: Grid, current: Player, row: nat, col: nat, groups: set<Pos>, bonuses: Bonus)
      returns (groups': set<Pos>, bonuses': Bonus)
    requires Square(g) && row < |g| && col < |g|
    requires Scanned(g, current, groups, row, col, bonuses)
    ensures Scanned(g, current, groups', row, col + 1, bonuses')
  {
    ScannedStep(g, current, groups, row, col, bonuses);
    groups', bonuses' := groups, bonuses;
    if g[row][col] != EMPTY && (row, col) !in groups {
      var group := GetGroup(g, row, col);
      var b := GroupBonusOf(g, group, g[row][col], current);
      bonuses' := Add(bonuses, b);
      groups' := groups + group;
    }
  }

  /** One row of evaluate_board's scan. */
  method ScanRow(g: Grid, current: Player, row: nat, groups: set<Pos>, bonuses: Bonus)
      returns (groups': set<Pos>, bonuses': Bonus)
    requires Square(g) && row < |g|
    requires Scanned(g, current, groups, row, 0, bonuses)
    ensures Scanned(g, current, groups', row + 1, 0, bonuses')
  {
    groups', bonuses' := groups, bonuses;
    for col := 0 to |g|
      invariant Scanned(g, current, groups', row, col, bonuses')
    {
      groups', bonuses' := ScanCell(g, current, row, col, groups', bonuses');
    }
    ScanRowEnd(g, current, groups', row, bonuses');
  }

  lemma ScanRowEnd(g: Grid, current: Player, groups: set<Pos>, row: nat, bonuses: Bonus)
    requires Square(g) && row < |g|
    requires Scanned(g, current, groups, row, |g|, bonuses)
    ensures Scanned(g, current, groups, row + 1, 0, bonuses)
  {
    assert EvalScan(g, current, groups, row, |g|) == EvalScan(g, current, groups, row + 1, 0);
  }

  /** After the last row the accumulated bonuses are those of the whole scan. */
  lemma ScanDone(g: Grid, current: Player, groups: set<Pos>, bonuses: Bonus)
    requires Square(g)
    requires Scanned(g, current, groups, |g|, 0, bonuses)
    ensures bonuses == EvalScan(g, current, {}, 0, 0)
  {
    assert EvalScan(g, current, groups, |g|, 0) == NoBonus;
  }

  /** The transposition table's key: the grid's contents. */
  function Key(s: State): Grid
  {
    s.grid
  }

  /** The table only grows: every entry of before is still there, with the same score. */
  ghost predicate TableExtends(before: map<Grid, real>, after: map<Grid, real>)
  {
    forall k :: k in before ==> k in after && after[k] == before[k]
  }

  /**
   * The pass minimax makes and undoes when there is no legal move: after no
   * earlier pass the board comes back unchanged; right after the opponent's
   * pass it ends the game, dead groups are removed, and the undo, which does
   * nothing once the game is over, leaves it ended.
   */
  lemma PassUndo(s: State)
    requires WellFormed(s) && !s.gameOver
    ensures Rules.Undo(Pass(s)).gameOver <==> s.passes >= 1
    ensures s.passes == 0 ==> Rules.Undo(Pass(s)) == s
    ensures s.passes >= 1 ==> Rules.Undo(Pass(s)) == Pass(s)
  {
    PassSpec(s);
    if s.passes == 0 {
      PassThenUndo(s);
    }
  }

  /**
   * What minimax promises about the score e of position c searched d levels
   * deep with table t: the stored score on a hit, otherwise the evaluation
   * at depth 0 or after the game ended, or the evaluation after a pass when
   * c has no legal move.
   */
  ghost predicate Valued(t: map<Grid, real>, c: State, d: nat, e: real)
    requires WellFormed(c)
  {
    && (Key(c) in t ==> e == t[Key(c)])
    && (Key(c) !in t && (d == 0 || c.gameOver) ==> e == Evaluate(c))
    && (Key(c) !in t && d > 0 && !c.gameOver && LegalMoves(c) == [] ==> e == Evaluate(Pass(c)))
  }

  /**
   * Each explored child of s, the position after order[j], is worth
   * evals[j] as Valued says, with tables[j] the table as it was before it.
   */
  ghost predicate ChildrenValued(tables: seq<map<Grid, real>>, s: State, order: seq<Pos>, d: nat, evals: seq<real>)
    requires WellFormed(s)
    decreases |evals|
  {
    && |tables| == |evals| <= |order|
    && (evals != [] ==>
          var k := |evals| - 1;
          ChildrenValued(tables[..k], s, order, d, evals[..k])
          && Valued(tables[k], Place(s, order[k]).1, d, evals[k]))
  }

  /** One more explored child, worth e with the table t before it. */
  lemma ChildrenValuedSnoc(tables: seq<map<Grid, real>>, s: State, order: seq<Pos>, d: nat, evals: seq<real>,
                           t: map<Grid, real>, e: real)
    requires WellFormed(s) && ChildrenValued(tables, s, order, d, evals) && |evals| < |order|
    requires Valued(t, Place(s, order[|evals|]).1, d, e)
    ensures ChildrenValued(tables + [t], s, order, d, evals + [e])
  {
    assert (tables + [t])[..|evals|] == tables && (evals + [e])[..|evals|] == evals;
  }

  /** The j-th explored child is worth evals[j] as Valued says. */
  lemma {:induction false} ChildValuedAt(tables: seq<map<Grid, real>>, s: State, order: seq<Pos>, d: nat, evals: seq<real>, j: nat)
    requires WellFormed(s) && ChildrenValued(tables, s, order, d, evals) && j < |evals|
    ensures Valued(tables[j], Place(s, order[j]).1, d, evals[j])
    decreases |evals|
  {
    var k := |evals| - 1;
    if j < k {
      ChildValuedAt(tables[..k], s, order, d, evals[..k], j);
      assert tables[..k][j] == tables[j] && evals[..k][j] == evals[j];
    }
  }

  /**
   * The search case of minimax from s: the shuffled legal moves, sorted by
   * weight, were explored until a cut-off, each child scored d levels deep
   * as Valued says, and the move is the loop's best, a legal move.
   */
  ghost predicate Searched(s: State, maximizing: bool, alpha: Ext, beta: Ext, d: nat,
                           shuffled: seq<Pos>, evals: seq<real>, tables: seq<map<Grid, real>>, move: Option<Pos>)
    requires WellFormed(s)
  {
    && multiset(shuffled) == multiset(LegalMoves(s))
    && Explored(maximizing, evals, SortByWeight(shuffled), alpha, beta)
    && Scan(maximizing, evals, SortByWeight(shuffled), alpha, beta).move == move
    && ChildrenValued(tables, s, SortByWeight(shuffled), d, evals)
    && move.Some? && move.value in LegalMoves(s)
  }

  class Engine {
    const depth: nat
    var table: map<Grid, real>

    /** Minimax(depth): an empty transposition table. */
    constructor (depth: nat)
      ensures this.depth == depth && table == map[]
    {
      this.depth := depth;
      table := map[];
    }

    /**
     * evaluate_board: the row-major scan over the 9 by 9 board accumulating
     * the five bonuses group by group, on top of the score difference for
     * the side to move.
     */
    method EvaluateBoard(board: Board) returns (score: real)
      requires board.Valid() && board.variant == Mini
      ensures score == Evaluate(board.Snapshot())
    {
      var black, white := board.CalculateScore();
      var baseScore := if board.currentPlayer == BLACK then black - white else white - black;
      var bonuses := NoBonus;
      var groups: set<Pos> := {};
      var g, current := board.board, board.currentPlayer;
      for row := 0 to SMALL_SIZE
        invariant Scanned(g, current, groups, row, 0, bonuses)
      {
        groups, bonuses := ScanRow(g, current, row, groups, bonuses);
      }
      ScanDone(g, current, groups, bonuses);
      score := baseScore + bonuses.liberties + bonuses.position + bonuses.connectivity + bonuses.threat + bonuses.size;
    }

    /**
     * minimax: a table hit returns the stored score and no move; at depth 0
     * or after the game ended the position is evaluated; without legal moves
     * the position after a pass is evaluated (the pass is then undone); else
     * the children are searched in the order SortByWeight gives to the
     * shuffled legal moves. Every case except the hit stores the score under
     * the grid.
     */
    method Minimax(board: Board, depth: nat, alpha: Ext, beta: Ext, maximizing: bool)
        returns (score: real, move: Option<Pos>, ghost shuffled: seq<Pos>, ghost evals: seq<real>,
                 ghost tables: seq<map<Grid, real>>)
      requires board.Valid() && board.variant == Mini
      modifies this, board
      ensures board.Valid()
      ensures var s := old(board.Snapshot());
              Key(s) in old(table) ==>
                score == old(table)[Key(s)] && move == None && table == old(table) && board.Snapshot() == s
      ensures var s := old(board.Snapshot());
              Key(s) !in old(table) && (depth == 0 || s.gameOver) ==>
                score == Evaluate(s) && move == None && table == old(table)[Key(s) := score]
                && board.Snapshot() == s
      ensures var s := old(board.Snapshot());
              Key(s) !in old(table) && depth > 0 && !s.gameOver && LegalMoves(s) == [] ==>
                score == Evaluate(Pass(s)) && move == None && table == old(table)[Key(s) := score]
                && board.Snapshot() == Rules.Undo(Pass(s))
      ensures var s := old(board.Snapshot());
              Key(s) !in old(table) && depth > 0 && !s.gameOver && LegalMoves(s) != [] ==>
                Searched(s, maximizing, alpha, beta, depth - 1, shuffled, evals, tables, move)
                && Scan(maximizing, evals, SortByWeight(shuffled), alpha, beta).value == Fin(score)
                && Key(s) in table && table[Key(s)] == score && board.Snapshot() == s
      ensures Key(old(board.Snapshot())) !in old(table) ==> TableExtends(old(table), table)
      decreases depth, 3
    {
      ghost var s := board.Snapshot();
      shuffled, evals, tables := [], [], [];
      var boardTuple := board.board;
      if boardTuple in table {
        return table[boardTuple], None, shuffled, evals, tables;
      }
      if depth == 0 || board.gameOver {
        score := EvaluateBoard(board);
        table := table[boardTuple := score];
        return score, None, shuffled, evals, tables;
      }
      var legalMoves := board.GetLegalMoves();
      if legalMoves == [] {
        assert |multiset(LegalMoves(s))| == 0;
        score := EvaluateAfterPass(board);
        table := table[boardTuple := score];
        return score, None, shuffled, evals, tables;
      }
      assert legalMoves[0] in multiset(LegalMoves(s));
      shuffled := legalMoves;
      score, move, evals, tables := SearchMoves(board, depth, alpha, beta, maximizing, legalMoves);
      assert move.value in multiset(legalMoves);
      table := table[boardTuple := score];
    }

    /** The no-legal-move case of minimax: pass, evaluate, and undo the pass. */
    method EvaluateAfterPass(board: Board) returns (score: real)
      requires board.Valid() && board.variant == Mini
      modifies board
      ensures board.Valid()
      ensures score == Evaluate(Pass(old(board.Snapshot())))
      ensures board.Snapshot() == Rules.Undo(Pass(old(board.Snapshot())))
    {
      board.PassTurn();
      score := EvaluateBoard(board);
      board.Undo();
    }

    /**
     * The search case of minimax: sort the legal moves by weight, explore
     * the children, and report the best value and the move that reached it.
     */
    method SearchMoves(board: Board, depth: nat, alpha: Ext, beta: Ext, maximizing: bool, legalMoves: seq<Pos>)
        returns (score: real, move: Option<Pos>, ghost evals: seq<real>, ghost tables: seq<map<Grid, real>>)
      requires board.Valid() && board.variant == Mini && depth > 0 && |legalMoves| > 0
      modifies this
      ensures Explored(maximizing, evals, SortByWeight(legalMoves), alpha, beta)
      ensures Scan(maximizing, evals, SortByWeight(legalMoves), alpha, beta).value == Fin(score)
      ensures Scan(maximizing, evals, SortByWeight(legalMoves), alpha, beta).move == move
      ensures move.Some? && move.value in legalMoves
      ensures ChildrenValued(tables, board.Snapshot(), SortByWeight(legalMoves), depth - 1, evals)
      ensures TableExtends(old(table), table)
      decreases depth, 2
    {
      var order := SortByWeight(legalMoves);
      SortPermutation(legalMoves);
      assert |order| > 0 by {
        assert |multiset(order)| == |multiset(legalMoves)|;
      }
      var r;
      r, evals, tables := SearchChildren(board, depth, alpha, beta, maximizing, order);
      ghost var k := ScanBest(maximizing, evals, order, alpha, beta);
      assert order[k] in multiset(legalMoves);
      score, move := r.value.v, r.move;
    }

    /**
     * The loop of minimax over the sorted moves: each child is a copy of the
     * board with the move played, searched one level less deep for the other
     * side with the current alpha and beta; the loop stops after the first
     * child that brings beta down to alpha or below.
     */
    method SearchChildren(board: Board, depth: nat, alpha: Ext, beta: Ext, maximizing: bool, order: seq<Pos>)
        returns (r: Best, ghost evals: seq<real>, ghost tables: seq<map<Grid, real>>)
      requires board.Valid() && board.variant == Mini && depth > 0 && |order| > 0
      modifies this
      ensures Explored(maximizing, evals, order, alpha, beta)
      ensures r == Scan(maximizing, evals, order, alpha, beta)
      ensures ChildrenValued(tables, board.Snapshot(), order, depth - 1, evals)
      ensures TableExtends(old(table), table)
      decreases depth, 1
    {
      var best := Best(if maximizing then NegInf else PosInf, None, alpha, beta);
      evals, tables := [], [];
      ghost var s := board.Snapshot();
      var i := 0;
      while i < |order|
        invariant 0 <= i <= |order| && |evals| == i
        invariant ChildrenValued(tables, s, order, depth - 1, evals)
        invariant best == Scan(maximizing, evals, order, alpha, beta)
        invariant Uncut(maximizing, evals, order, alpha, beta)
        invariant board.Valid()
        invariant TableExtends(old(table), table)
      {
        ghost var before := table;
        var evalScore;
        best, evalScore := Child(board, order[i], depth, best, maximizing);
        ScanSnoc(maximizing, evals, evalScore, order, alpha, beta);
        ChildrenValuedSnoc(tables, s, order, depth - 1, evals, before, evalScore);
        ghost var prev := evals;
        evals, tables := evals + [evalScore], tables + [before];
        i := i + 1;
        if Cut(best) {
          assert forall j :: 0 < j < |evals| ==> evals[..j] == prev[..j];
          break;
        }
        UncutSnoc(maximizing, prev, evalScore, order, alpha, beta);
      }
      r := best;
    }

    /**
     * One turn of the loop: a copy of the board with the move played,
     * searched one level less deep for the other side with the current alpha
     * and beta; a strictly better score replaces the best value and move,
     * then alpha (maximizing) or beta (minimizing) takes the score into account.
     */
    method Child(board: Board, move: Pos, depth: nat, r: Best, maximizing: bool) returns (r': Best, evalScore: real)
      requires board.Valid() && board.variant == Mini && depth > 0
      modifies this
      ensures Valued(old(table), Place(board.Snapshot(), move).1, depth - 1, evalScore)
      ensures r' == Step(maximizing, r, evalScore, move)
      ensures TableExtends(old(table), table)
      decreases depth, 0
    {
      var newBoard := new Board.Copy(board);
      var _ := newBoard.PlaceStone(move.0, move.1);
      ghost var shuffled, evals, tables;
      var childMove;
      evalScore, childMove, shuffled, evals, tables := Minimax(newBoard, depth - 1, r.alpha, r.beta, !maximizing);
      var value, bestMove, alpha, beta := r.value, r.move, r.alpha, r.beta;
      if maximizing {
        if Below(value, Fin(evalScore)) {
          value, bestMove := Fin(evalScore), Some(move);
        }
        alpha := ExtMax(alpha, Fin(evalScore));
      } else {
        if Below(Fin(evalScore), value) {
          value, bestMove := Fin(evalScore), Some(move);
        }
        beta := ExtMin(beta, Fin(evalScore));
      }
      r' := Best(value, bestMove, alpha, beta);
    }

    /**
     * get_best_move as written: the search from the board's position,
     * maximizing when White is to move, alpha and beta open, with the table
     * kept from earlier calls. When the position is already in the table
     * the search stops at the root and the answer is None.
     */
    method GetBestMove(board: Board)
        returns (move: Option<Pos>, ghost shuffled: seq<Pos>, ghost evals: seq<real>, ghost tables: seq<map<Grid, real>>)
      requires board.Valid() && board.variant == Mini
      modifies this, board
      ensures board.Valid()
      ensures var s := old(board.Snapshot());
              Key(s) in old(table) ==> move == None && table == old(table) && board.Snapshot() == s
      ensures Key(old(board.Snapshot())) in table
      ensures depth == 0 ==> move == None
      ensures var s := old(board.Snapshot());
              move.Some? ==> move.value in LegalMoves(s) && board.Snapshot() == s
      ensures var s := old(board.Snapshot());
              Key(s) !in old(table) && depth > 0 && LegalMoves(s) != [] ==>
                Searched(s, s.player == WHITE, NegInf, PosInf, depth - 1, shuffled, evals, tables, move)
      ensures var s := old(board.Snapshot());
              Key(s) !in old(table) && (depth == 0 || s.gameOver) ==> board.Snapshot() == s
      ensures var s := old(board.Snapshot());
              Key(s) !in old(table) && depth > 0 && !s.gameOver && LegalMoves(s) == [] ==>
                board.Snapshot() == Rules.Undo(Pass(s))
                && (board.Snapshot().gameOver <==> s.passes >= 1)
      ensures TableExtends(old(table), table)
    {
      ghost var s := board.Snapshot();
      LegalMovesSpec(s);
      if !s.gameOver {
        PassUndo(s);
      }
      var score;
      score, move, shuffled, evals, tables := Minimax(board, depth, NegInf, PosInf, board.currentPlayer == WHITE);
    }

    /**
     * Two get_best_move calls on the same position by an engine that has
     * not searched before: the first finds a move, the second is answered
     * from the table the first one filled and returns None.
     */
    method AskTwice(board: Board) returns (first: Option<Pos>, second: Option<Pos>)
      requires board.Valid() && board.variant == Mini
      requires table == map[] && depth > 0 && LegalMoves(board.Snapshot()) != []
      modifies this, board
      ensures first.Some? && first.value in LegalMoves(old(board.Snapshot()))
      ensures second == None
    {
      ghost var shuffled, evals, tables;
      first, shuffled, evals, tables := GetBestMove(board);
      second, shuffled, evals, tables := GetBestMove(board);
    }

    /**
     * get_best_move with the table emptied first, as a fresh engine would
     * have it: a search of depth at least one finds a legal move whenever
     * there is one.
     */
    method GetBestMoveFresh(board: Board)
        returns (move: Option<Pos>, ghost shuffled: seq<Pos>, ghost evals: seq<real>, ghost tables: seq<map<Grid, real>>)
      requires board.Valid() && board.variant == Mini
      modifies this, board
      ensures board.Valid()
      ensures var s := old(board.Snapshot());
              move.Some? ==> move.value in LegalMoves(s) && board.Snapshot() == s
      ensures var s := old(board.Snapshot());
              move.None? <==> depth == 0 || LegalMoves(s) == []
      ensures var s := old(board.Snapshot());
              depth > 0 && LegalMoves(s) != [] ==>
                Searched(s, s.player == WHITE, NegInf, PosInf, depth - 1, shuffled, evals, tables, move)
      ensures var s := old(board.Snapshot());
              depth == 0 || s.gameOver ==> board.Snapshot() == s
      ensures var s := old(board.Snapshot());
              depth > 0 && !s.gameOver && LegalMoves(s) == [] ==>
                board.Snapshot() == Rules.Undo(Pass(s)) && (board.Snapshot().gameOver <==> s.passes >= 1)
      ensures Key(old(board.Snapshot())) in table
    {
      table := map[];
      move, shuffled, evals, tables := GetBestMove(board);
    }
  }

  /** RandomAI: a random legal move, or None when there is none. */
  class RandomAI {
    constructor ()
    {
    }

    method GetBestMove(board: Board) returns (move: Option<Pos>)
      requires board.Valid()
      ensures move.None? <==> LegalMoves(board.Snapshot()) == []
      ensures move.Some? ==> move.value in LegalMoves(board.Snapshot())
    {
      var legalMoves := board.GetLegalMoves();
      if legalMoves == [] {
        assert |multiset(LegalMoves(board.Snapshot()))| == 0;
        return None;
      }
      assert legalMoves[0] in legalMoves;
      var m :| m in legalMoves;
      assert m in multiset(LegalMoves(board.Snapshot()));
      move := Some(m);
    }
  }

  /** The player an AIController holds. */
  datatype Ai = MinimaxAi(engine: Engine) | RandomAi(random: RandomAI)

  class AIController {
    const ai: Ai

    constructor (ai: Ai)
      ensures this.ai == ai
    {
      this.ai := ai;
    }

    /**
     * AIController(ai_type, depth): a minimax engine of that depth for
     * "minimax", a random player for "random", and for any other name the
     * ValueError, here None.
     */
    static method Create(aiType: string, depth: nat) returns (c: Option<AIController>)
      ensures c.Some? <==> aiType == "minimax" || aiType == "random"
      ensures c.Some? ==> fresh(c.value) && (c.value.ai.MinimaxAi? <==> aiType == "minimax")
      ensures c.Some? && c.value.ai.MinimaxAi? ==>
                fresh(c.value.ai.engine) && c.value.ai.engine.depth == depth && c.value.ai.engine.table == map[]
    {
      if aiType == "minimax" {
        var engine := new Engine(depth);
        var controller := new AIController(MinimaxAi(engine));
        c := Some(controller);
      } else if aiType == "random" {
        var random := new RandomAI();
        var controller := new AIController(RandomAi(random));
        c := Some(controller);
      } else {
        c := None;
      }
    }

    /**
     * get_best_move: the held player's answer. The engine keeps its table
     * from earlier calls, so a position it has already stored, as a root or
     * deeper in an earlier search, is answered None.
     */
    method GetBestMove(board: Board) returns (move: Option<Pos>)
      requires board.Valid() && board.variant == Mini
      modifies board, if ai.MinimaxAi? then {ai.engine} else {}
      ensures var s := old(board.Snapshot());
              move.Some? ==> move.value in LegalMoves(s)
      ensures var s := old(board.Snapshot());
              ai.RandomAi? ==> (move.None? <==> LegalMoves(s) == [])
      ensures var s := old(board.Snapshot());
              ai.MinimaxAi? && Key(s) in old(ai.engine.table) ==> move == None
      ensures var s := old(board.Snapshot());
              ai.MinimaxAi? && Key(s) !in old(ai.engine.table) && ai.engine.depth > 0 ==>
                (move.None? <==> LegalMoves(s) == [])
      ensures var s := old(board.Snapshot());
              move.Some? || ai.RandomAi? || (ai.MinimaxAi? && Key(s) in old(ai.engine.table)) ==> board.Snapshot() == s
      ensures var s := old(board.Snapshot());
              ai.MinimaxAi? && Key(s) !in old(ai.engine.table) && (ai.engine.depth == 0 || s.gameOver) ==>
                board.Snapshot() == s
      ensures var s := old(board.Snapshot());
              ai.MinimaxAi? && Key(s) !in old(ai.engine.table) && ai.engine.depth > 0 && !s.gameOver && LegalMoves(s) == [] ==>
                board.Snapshot() == Rules.Undo(Pass(s)) && (board.Snapshot().gameOver <==> s.passes >= 1)
      ensures ai.MinimaxAi? ==> TableExtends(old(ai.engine.table), ai.engine.table)
                                && Key(old(board.Snapshot())) in ai.engine.table
    {
      match ai
      case MinimaxAi(engine) =>
        ghost var shuffled, evals, tables;
        move, shuffled, evals, tables := engine.GetBestMove(board);
      case RandomAi(random) =>
        move := random.GetBestMove(board);
    }

    /**
     * get_best_move with the engine's table emptied first: for the random
     * player, or an engine of depth 1 or more, the move is missing exactly
     * when there is no legal move.
     */
    method GetBestMoveFresh(board: Board) returns (move: Option<Pos>)
      requires board.Valid() && board.variant == Mini
      modifies board, if ai.MinimaxAi? then {ai.engine} else {}
      ensures var s := old(board.Snapshot());
              move.Some? ==> move.value in LegalMoves(s)
      ensures var s := old(board.Snapshot());
              ai.RandomAi? || ai.engine.depth > 0 ==> (move.None? <==> LegalMoves(s) == [])
      ensures var s := old(board.Snapshot());
              move.Some? || ai.RandomAi? || ai.engine.depth == 0 || s.gameOver ==> board.Snapshot() == s
      ensures var s := old(board.Snapshot());
              ai.MinimaxAi? && ai.engine.depth > 0 && !s.gameOver && LegalMoves(s) == [] ==>
                board.Snapshot() == Rules.Undo(Pass(s)) && (board.Snapshot().gameOver <==> s.passes >= 1)
      ensures ai.MinimaxAi? ==> Key(old(board.Snapshot())) in ai.engine.table
    {
      match ai
      case MinimaxAi(engine) =>
        ghost var shuffled, evals, tables;
        move, shuffled, evals, tables := engine.GetBestMoveFresh(board);
      case RandomAi(random) =>
        move := random.GetBestMove(board);
    }
  }
}
