/**
 * The random playout both Monte-Carlo players run: while the game is not
 * over, a legal move when there is one, otherwise a pass. A playout is
 * recorded as the trace of the positions it passes through. Started from a
 * position in play, a playout never reaches the end of the game: two
 * passes in a row never happen.
 */
module RandomPlay {
  import opened GoGrid
  import opened Flood
  import opened Captures
  import opened Rules

  /** One turn of the playout loop: some legal move when there is one, else a pass. */
  ghost predicate PlayoutStep(s: State, t: State)
    requires WellFormed(s)
  {
    if LegalMoves(s) == [] then t == Pass(s)
    else exists m :: m in LegalMoves(s) && t == Place(s, m).1
  }

  /** A run of the playout loop: well-formed positions, each game still on and followed by one playout turn. */
  ghost predicate Playout(trace: seq<State>)
  {
    && |trace| > 0
    && (forall i | 0 <= i < |trace| :: WellFormed(trace[i]))
    && (forall i | 0 <= i < |trace| - 1 :: !trace[i].gameOver && PlayoutStep(trace[i], trace[i + 1]))
  }

  /**
   * The playout loop with a move budget: from start, at most fuel turns
   * reach final, and it stopped there because the game is over or the
   * budget is spent.
   */
  ghost predicate PlayedOut(start: State, final: State, fuel: nat)
  {
    exists trace :: Playout(trace) && trace[0] == start && trace[|trace| - 1] == final
                    && |trace| <= fuel + 1 && (final.gameOver || |trace| == fuel + 1)
  }

  /** One more turn extends a playout. */
  lemma PlayoutSnoc(trace: seq<State>, t: State)
    requires Playout(trace) && !trace[|trace| - 1].gameOver
    requires PlayoutStep(trace[|trace| - 1], t) && WellFormed(t)
    ensures Playout(trace + [t])
  {
    var trace' := trace + [t];
    forall i | 0 <= i < |trace'| - 1
      ensures !trace'[i].gameOver && PlayoutStep(trace'[i], trace'[i + 1])
    {
      if i < |trace| - 1 {
        assert trace'[i] == trace[i] && trace'[i + 1] == trace[i + 1];
      }
    }
  }

  /**
   * A position in play: the game is on, some point is empty, and either no
   * pass has just been made or the one pass just made saved the current grid.
   */
  ghost predicate Live(s: State)
  {
    && WellFormed(s) && !s.gameOver
    && (exists p :: InBounds(s.grid, p) && At(s.grid, p) == EMPTY)
    && (s.passes == 0 || (s.passes == 1 && |s.history| > 0 && s.history[|s.history| - 1] == s.grid))
  }

  /** The new game is in play. */
  lemma InitialLive(v: Variant)
    ensures Live(Initial(v))
  {
    var s := Initial(v);
    assert InBounds(s.grid, (0, 0)) && At(s.grid, (0, 0)) == EMPTY;
  }

  /**
   * Right after a pass the saved grid is the grid itself, so a placement,
   * which keeps its stone, cannot recreate it: no point is a ko, and every
   * empty point is a legal move.
   */
  lemma NoKoAfterPass(s: State, p: Pos)
    requires Live(s) && s.passes == 1 && InBounds(s.grid, p) && At(s.grid, p) == EMPTY
    ensures p in LegalMoves(s)
  {
    PlacedStoneStays(s.grid, p, s.player);
    assert AfterCaptures(s.grid, p, s.player) != s.history[|s.history| - 1];
    LegalMovesSpec(s);
  }

  /** A legal placement keeps the game in play: the pass counter is reset, and the placed group, or the grid a suicide restores, keeps an empty point. */
  lemma PlaceLive(s: State, m: Pos)
    requires Live(s) && m in LegalMoves(s)
    ensures Live(Place(s, m).1)
  {
    LegalMovesSpec(s);
    PlaceSpec(s, m);
    var r := Place(s, m);
    if r.0 {
      var x, y :| x in Group(r.1.grid, m) && y in Nbrs(x) && InBounds(r.1.grid, y) && At(r.1.grid, y) == EMPTY;
      assert InBounds(r.1.grid, y) && At(r.1.grid, y) == EMPTY;
    } else {
      SuicideChangesOnlyPasses(s, m);
    }
  }

  /** A pass happens only with no legal move, hence not right after another pass, and so does not end the game. */
  lemma PassLive(s: State)
    requires Live(s) && LegalMoves(s) == []
    ensures Live(Pass(s)) && Pass(s).passes == 1
  {
    if s.passes == 1 {
      var p :| InBounds(s.grid, p) && At(s.grid, p) == EMPTY;
      NoKoAfterPass(s, p);
      assert false;
    }
    PassSpec(s);
    var p :| InBounds(s.grid, p) && At(s.grid, p) == EMPTY;
    assert InBounds(Pass(s).grid, p) && At(Pass(s).grid, p) == EMPTY;
  }

  /** Every playout turn keeps the game in play. */
  lemma StepLive(s: State, t: State)
    requires Live(s) && PlayoutStep(s, t)
    ensures Live(t)
  {
    if LegalMoves(s) == [] {
      PassLive(s);
    } else {
      var m :| m in LegalMoves(s) && t == Place(s, m).1;
      PlaceLive(s, m);
    }
  }

  /** The i-th position of a playout from a position in play is in play. */
  lemma {:induction false} LiveAt(trace: seq<State>, i: nat)
    requires Playout(trace) && Live(trace[0]) && i < |trace|
    ensures Live(trace[i])
    decreases i
  {
    if i > 0 {
      LiveAt(trace, i - 1);
      StepLive(trace[i - 1], trace[i]);
    }
  }

  /**
   * The loop `while not game_over` of a random game, as written: however
   * many turns a playout from a position in play runs, the game is never
   * over, so the loop never exits.
   */
  lemma PlayoutNeverEnds(trace: seq<State>)
    requires Playout(trace) && Live(trace[0])
    ensures forall i | 0 <= i < |trace| :: !trace[i].gameOver && trace[i].passes <= 1
  {
    forall i | 0 <= i < |trace|
      ensures !trace[i].gameOver && trace[i].passes <= 1
    {
      LiveAt(trace, i);
    }
  }

  /** From a position in play, a playout with a move budget always spends all of it. */
  lemma PlayedOutSpendsFuel(start: State, final: State, fuel: nat)
    requires PlayedOut(start, final, fuel) && Live(start)
    ensures !final.gameOver
  {
    var trace :| Playout(trace) && trace[0] == start && trace[|trace| - 1] == final
                 && |trace| <= fuel + 1 && (final.gameOver || |trace| == fuel + 1);
    LiveAt(trace, |trace| - 1);
  }
}
