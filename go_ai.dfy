/**
 * The flat Monte-Carlo player: every valid move gets the same share of the
 * simulation budget, each share is a run of random games on copies of the
 * board, and the move that won most often is chosen. Random choices are
 * nondeterministic choices; a random game is bounded by a move budget,
 * since, as written, it never ends (RandomPlay.PlayoutNeverEnds).
 */
module GoAi {
  import opened GoGrid
  import opened Rules
  import opened Choice
  import opened GoBoard
  import opened RandomPlay

  /** simulate_random_game's verdict: 1 (Black) when Black's score is strictly higher, else 2. */
  function GameWinner(s: State): (w: Player)
    ensures w == BLACK <==> Score(s).0 > Score(s).1
  {
    var (b, w) := Score(s);
    if b > w then BLACK else WHITE
  }

  /**
   * On a finished game the verdict is the winner get_winner reports; since
   * a finished game is never drawn, the tie rule in favour of White never applies.
   */
  lemma GameWinnerSpec(s: State)
    requires s.gameOver
    ensures GameWinner(s) == BLACK <==> Winner(s).BlackWins?
    ensures GameWinner(s) == WHITE <==> Winner(s).WhiteWins?
  {
    assert Winner(s) != Draw;
  }

  /** The rollouts each move gets: the simulation budget split evenly, rounded down. */
  function Share(difficulty: int, count: nat): (n: int)
    requires count > 0
    ensures difficulty >= 0 ==> 0 <= n && n * count <= difficulty * 100 < (n + 1) * count
  {
    (difficulty * 100) / count
  }

  /** How many of the finished games fs the verdict gives to p. */
  function Wins(fs: seq<State>, p: Player): (n: nat)
    ensures n <= |fs|
  {
    if fs == [] then 0
    else Wins(fs[..|fs| - 1], p) + (if GameWinner(fs[|fs| - 1]) == p then 1 else 0)
  }

  /** Every game in finals was played out from start within the move budget. */
  ghost predicate AllPlayedOut(start: State, finals: seq<State>, fuel: nat)
  {
    forall i | 0 <= i < |finals| :: PlayedOut(start, finals[i], fuel)
  }

  /** One more game played out from start. */
  lemma AllPlayedOutSnoc(start: State, finals: seq<State>, final: State, fuel: nat)
    requires AllPlayedOut(start, finals, fuel) && PlayedOut(start, final, fuel)
    ensures AllPlayedOut(start, finals + [final], fuel)
  {
    forall i | 0 <= i < |finals| + 1
      ensures PlayedOut(start, (finals + [final])[i], fuel)
    {
      if i < |finals| {
        assert (finals + [final])[i] == finals[i];
      }
    }
  }

  /**
   * The loop of get_best_move after k moves: each of them has its share of
   * games, each game played out after the move, and its tally of the games
   * p won.
   */
  ghost predicate Scored(s: State, moves: seq<Pos>, share: int, fuel: nat, p: Player,
                         tally: seq<int>, games: seq<seq<State>>, k: nat)
    requires WellFormed(s)
  {
    |tally| == |moves| && |games| == |moves| && k <= |moves|
    && forall i | 0 <= i < k ::
         |games[i]| == share && tally[i] == Wins(games[i], p) && AllPlayedOut(Place(s, moves[i]).1, games[i], fuel)
  }

  /** Scoring one more move. */
  lemma ScoredStep(s: State, moves: seq<Pos>, share: int, fuel: nat, p: Player,
                   tally: seq<int>, games: seq<seq<State>>, k: nat, won: nat, finals: seq<State>)
    requires WellFormed(s) && Scored(s, moves, share, fuel, p, tally, games, k) && k < |moves|
    requires |finals| == share && won == Wins(finals, p) && AllPlayedOut(Place(s, moves[k]).1, finals, fuel)
    ensures Scored(s, moves, share, fuel, p, tally[k := won], games[k := finals], k + 1)
  {
  }

  class GoAI {
    const difficulty: int

    constructor (difficulty: int)
      ensures this.difficulty == difficulty
    {
      this.difficulty := difficulty;
    }

    /** get_valid_moves: the cells where a stone can be placed, row by row. */
    method GetValidMoves(board: Board) returns (moves: seq<Pos>)
      requires board.Valid()
      ensures moves == LegalMoves(board.Snapshot())
    {
      moves := [];
      ghost var s := board.Snapshot();
      var n := |board.board|;
      for row := 0 to n
        invariant moves + MovesFrom(s, row, 0) == LegalMoves(s)
      {
        var found := [];
        for col := 0 to n
          invariant found + MovesFrom(s, row, col) == MovesFrom(s, row, 0)
        {
          var can := board.CanPlaceStone(row, col);
          RowStep(s, row, col, found, can);
          if can {
            found := found + [(row, col)];
          }
        }
        RowsStep(s, row, moves, found);
        moves := moves + found;
      }
    }

    /**
     * simulate_random_game on a copy of the board with a move budget: random
     * valid moves, or a pass when there is none, until the game ends or fuel
     * turns are played.
     */
    method SimulateRandomGame(board: Board, fuel: nat) returns (winner: Player, ghost final: State)
      requires board.Valid()
      ensures PlayedOut(board.Snapshot(), final, fuel) && WellFormed(final) && final.variant == board.variant
      ensures winner == GameWinner(final)
    {
      var sim := new Board.Copy(board);
      var steps := fuel;
      ghost var trace := [sim.Snapshot()];
      while !sim.gameOver && steps > 0
        invariant fresh(sim) && sim.Valid() && sim.variant == board.variant
        invariant Playout(trace) && trace[0] == board.Snapshot() && trace[|trace| - 1] == sim.Snapshot()
        invariant |trace| + steps == fuel + 1
      {
        ghost var before := sim.Snapshot();
        var moves := GetValidMoves(sim);
        if moves != [] {
          assert moves[0] in moves;
          var move :| move in moves;
          var _ := sim.PlaceStone(move.0, move.1);
          assert PlayoutStep(before, sim.Snapshot());
        } else {
          sim.PassTurn();
        }
        PlayoutSnoc(trace, sim.Snapshot());
        trace := trace + [sim.Snapshot()];
        steps := steps - 1;
      }
      var black, white := sim.CalculateScore();
      winner := if black > white then BLACK else WHITE;
      final := sim.Snapshot();
    }

    /**
     * The inner loop of get_best_move for one move: `share` random games,
     * each on a fresh copy of the board with the move played first, and the
     * number of them the side to move won.
     */
    method Rollouts(board: Board, move: Pos, share: nat, fuel: nat) returns (won: nat, ghost finals: seq<State>)
      requires board.Valid()
      ensures |finals| == share
      ensures AllPlayedOut(Place(board.Snapshot(), move).1, finals, fuel)
      ensures won == Wins(finals, board.currentPlayer)
    {
      won, finals := 0, [];
      ghost var start := Place(board.Snapshot(), move).1;
      for t := 0 to share
        invariant |finals| == t && won == Wins(finals, board.currentPlayer)
        invariant AllPlayedOut(start, finals, fuel)
      {
        var sim := new Board.Copy(board);
        var _ := sim.PlaceStone(move.0, move.1);
        var winner, final := SimulateRandomGame(sim, fuel);
        AllPlayedOutSnoc(start, finals, final, fuel);
        assert (finals + [final])[..|finals|] == finals;
        if winner == board.currentPlayer {
          won := won + 1;
        }
        finals := finals + [final];
      }
    }

    /** The loop of get_best_move over the moves: share random games after each move, and the number the side to move won. */
    method ScoreMoves(board: Board, moves: seq<Pos>, share: nat, fuel: nat)
        returns (tally: seq<int>, ghost games: seq<seq<State>>)
      requires board.Valid()
      ensures Scored(board.Snapshot(), moves, share, fuel, board.currentPlayer, tally, games, |moves|)
    {
      tally := seq(|moves|, _ => 0);
      games := seq(|moves|, _ => []);
      ghost var s := board.Snapshot();
      for k := 0 to |moves|
        invariant Scored(s, moves, share, fuel, board.currentPlayer, tally, games, k)
      {
        var won, finals := Rollouts(board, moves[k], share, fuel);
        ScoredStep(s, moves, share, fuel, board.currentPlayer, tally, games, k, won, finals);
        tally := tally[k := won];
        games := games[k := finals];
      }
    }

    /**
     * get_best_move: None without valid moves; a random valid move at
     * difficulty 3 or less; otherwise each move gets Share(difficulty, n)
     * random games started by playing it, scores the games the side to move
     * won, and the first move with the highest score is returned. The board
     * is only read.
     */
    method GetBestMove(board: Board, fuel: nat) returns (move: Option<Pos>, ghost scores: seq<int>, ghost games: seq<seq<State>>)
      requires board.Valid()
      ensures var moves := LegalMoves(board.Snapshot());
              (move.None? <==> moves == []) && (move.Some? ==> move.value in moves)
      ensures var moves := LegalMoves(board.Snapshot());
              difficulty > 3 && moves != [] ==>
                |scores| == |moves| && |games| == |moves|
                && (forall i :: 0 <= i < |moves| ==> |games[i]| == Share(difficulty, |moves|))
                && (forall i :: 0 <= i < |moves| ==> scores[i] == Wins(games[i], board.currentPlayer))
                && (forall i | 0 <= i < |moves| :: AllPlayedOut(Place(board.Snapshot(), moves[i]).1, games[i], fuel))
                && (forall i :: 0 <= i < |moves| ==> 0 <= scores[i] <= Share(difficulty, |moves|))
                && exists k :: 0 <= k < |moves| && move == Some(moves[k])
                     && (forall i :: 0 <= i < |moves| ==> scores[i] <= scores[k])
                     && (forall i :: 0 <= i < k ==> scores[i] < scores[k])
    {
      var moves := GetValidMoves(board);
      scores, games := [], [];
      if moves == [] {
        return None, scores, games;
      }
      if difficulty <= 3 {
        assert moves[0] in moves;
        var m :| m in moves;
        return Some(m), scores, games;
      }
      var simulations := difficulty * 100;
      var share := simulations / |moves|;
      var tally;
      tally, games := ScoreMoves(board, moves, share, fuel);
      var best := FirstMax(tally);
      FirstMaxSpec(tally);
      move := Some(moves[best]);
      scores := tally;
    }
  }
}
