/**
 * Capture resolution around a freshly placed stone, shared by place_stone and
 * is_ko_violation: the four neighbours are examined in DIRECTIONS order and
 * every enemy group found there without a liberty is emptied. `Captured` is
 * the union of those groups, judged on the grid right after the placement;
 * CaptureStep shows that judging each direction on the partly cleared grid,
 * as the source does, finds the same groups, each once.
 */
module Captures {
  import opened GoGrid
  import opened Flood

  /** The enemy group next to p in direction k when it has no liberty, otherwise nothing. */
  function DeadAt(g: Grid, p: Pos, enemy: Player, k: nat): set<Pos>
    requires k < 4
  {
    var a := Nbrs(p)[k];
    if InBounds(g, a) && At(g, a) == enemy && !HasLiberty(g, Group(g, a)) then Group(g, a) else {}
  }

  /** The union of the dead enemy groups in the first k directions. */
  function Captured(g: Grid, p: Pos, enemy: Player, k: nat): set<Pos>
    requires k <= 4
  {
    if k == 0 then {} else Captured(g, p, enemy, k - 1) + DeadAt(g, p, enemy, k - 1)
  }

  /** Every group of a stone of one of its own cells is that same group. */
  lemma GroupOfMember(g: Grid, a: Pos, x: Pos)
    requires x in Group(g, a)
    ensures InBounds(g, x) && At(g, x) == At(g, a) && At(g, x) != EMPTY
    ensures Group(g, x) == Group(g, a)
  {
    GroupSpec(g, a);
    ReachSame(g, At(g, a), {}, a, x);
  }

  /** C is a union of whole groups of colour c. */
  ghost predicate WholeGroups(g: Grid, c: Player, cells: set<Pos>)
  {
    forall x :: x in cells ==> InBounds(g, x) && At(g, x) == c && Group(g, x) <= cells
  }

  lemma {:induction false} CapturedWhole(g: Grid, p: Pos, enemy: Player, k: nat)
    requires k <= 4
    ensures WholeGroups(g, enemy, Captured(g, p, enemy, k))
    ensures forall x :: x in Captured(g, p, enemy, k) ==> !HasLiberty(g, Group(g, x))
  {
    if k > 0 {
      CapturedWhole(g, p, enemy, k - 1);
      var a := Nbrs(p)[k - 1];
      forall x | x in DeadAt(g, p, enemy, k - 1)
        ensures InBounds(g, x) && At(g, x) == enemy && Group(g, x) == Group(g, a) && !HasLiberty(g, Group(g, x))
      {
        GroupOfMember(g, a, x);
      }
    }
  }

  /** Some direction contributes to a non-empty capture. */
  lemma {:induction false} CapturedSomeDirection(g: Grid, p: Pos, enemy: Player, k: nat)
    requires k <= 4 && Captured(g, p, enemy, k) != {}
    ensures exists d :: 0 <= d < k && DeadAt(g, p, enemy, d) != {}
  {
    if Captured(g, p, enemy, k - 1) != {} {
      CapturedSomeDirection(g, p, enemy, k - 1);
    }
  }

  /**
   * Emptying whole enemy groups C leaves every other enemy group of the grid
   * as it was: the same cells, and a liberty exactly when it had one.
   */
  lemma ClearedGroup(g: Grid, c: Player, cells: set<Pos>, a: Pos)
    requires Square(g) && WholeGroups(g, c, cells)
    requires InBounds(g, a) && At(g, a) == c && a !in cells
    ensures Group(g, a) !! cells
    ensures Group(ClearSet(g, cells), a) == Group(g, a)
    ensures HasLiberty(ClearSet(g, cells), Group(g, a)) <==> HasLiberty(g, Group(g, a))
  {
    var b := ClearSet(g, cells);
    var G := Group(g, a);
    GroupSpec(g, a);
    forall z | z in G
      ensures z !in cells
    {
      GroupOfMember(g, a, z);
    }
    // A neighbour of G holding colour c belongs to G, so it was not cleared.
    forall x, y | x in G && Adj(x, y) && InBounds(g, y) && At(g, y) == c
      ensures y in G && y !in cells
    {
    }
    GroupSpec(b, a);
    var H := Group(b, a);
    // H <= G: G is closed in b, which only has fewer stones of colour c.
    GroupLeast(b, a, G);
    // G <= H: H is closed in g, since no stone of H touches a cleared cell.
    forall x, y | x in H && Adj(x, y) && InBounds(g, y) && At(g, y) == At(g, a)
      ensures y in H
    {
      assert x in G;
    }
    GroupLeast(g, a, H);
    // Liberties: no neighbour of G was cleared, so G's neighbours look the same in b.
    if HasLiberty(b, G) {
      var x, y :| x in G && y in Nbrs(x) && InBounds(b, y) && At(b, y) == EMPTY;
      assert Adj(x, y);
    }
  }

  /**
   * One direction of the capture loop. On the grid with the first k
   * directions' captures already emptied, the source captures the group in
   * direction k exactly when DeadAt says so, and that group is new;
   * otherwise direction k adds nothing new.
   */
  lemma CaptureStep(g: Grid, p: Pos, enemy: Player, k: nat)
    requires Square(g) && k < 4
    ensures var cells := Captured(g, p, enemy, k);
            var b := ClearSet(g, cells);
            var a := Nbrs(p)[k];
            var hit := InBounds(b, a) && At(b, a) == enemy && !HasLiberty(b, Group(b, a));
            (hit ==> Group(b, a) == DeadAt(g, p, enemy, k) && Group(b, a) !! cells)
            && (!hit ==> DeadAt(g, p, enemy, k) <= cells)
  {
    var cells := Captured(g, p, enemy, k);
    var a := Nbrs(p)[k];
    CapturedWhole(g, p, enemy, k);
    if a in cells {
      assert Group(g, a) <= cells;
    } else if InBounds(g, a) && At(g, a) == enemy {
      ClearedGroup(g, enemy, cells, a);
    }
  }

  /** Emptying two sets one after the other is emptying their union. */
  lemma ClearTwice(g: Grid, first: set<Pos>, second: set<Pos>)
    requires Square(g)
    ensures ClearSet(ClearSet(g, first), second) == ClearSet(g, first + second)
  {
    SameGrid(ClearSet(ClearSet(g, first), second), ClearSet(g, first + second));
  }

  /** The stone of `player` put on the empty cell p of g gives t. */
  ghost predicate PlacedOn(g: Grid, t: Grid, p: Pos, player: Player)
  {
    Square(g) && InBounds(g, p) && At(g, p) == EMPTY && t == SetCell(g, p, player)
  }

  /** b is t with the groups captured in the first k directions around p removed. */
  ghost predicate ClearedSoFar(t: Grid, p: Pos, enemy: Player, k: nat, b: Grid)
  {
    Square(t) && k <= 4 && b == ClearSet(t, Captured(t, p, enemy, k))
  }

  /** The grid after the placement of `player` at p and its captures. */
  function AfterCaptures(g: Grid, p: Pos, player: Player): (r: Grid)
    requires Square(g) && InBounds(g, p)
    ensures Square(r) && |r| == |g|
  {
    var t := SetCell(g, p, player);
    ClearSet(t, Captured(t, p, Opponent(player), 4))
  }

  /**
   * What the captures do: the placed stone stays, every enemy group next to
   * it that had no liberty after the placement is emptied, and no other cell
   * changes.
   */
  lemma CapturesEffect(g: Grid, p: Pos, player: Player)
    requires Square(g) && InBounds(g, p)
    ensures var t := SetCell(g, p, player);
            var r := AfterCaptures(g, p, player);
            && At(r, p) == player
            && (forall d :: 0 <= d < 4 && InBounds(t, Nbrs(p)[d]) && At(t, Nbrs(p)[d]) == Opponent(player)
                  && !HasLiberty(t, Group(t, Nbrs(p)[d]))
                  ==> forall x :: x in Group(t, Nbrs(p)[d]) ==> At(r, x) == EMPTY)
            && (forall x :: At(r, x) != At(t, x) ==> x in Captured(t, p, Opponent(player), 4))
            && (forall x :: x in Captured(t, p, Opponent(player), 4) ==> At(t, x) == Opponent(player) && At(r, x) == EMPTY)
  {
    var t := SetCell(g, p, player);
    var enemy := Opponent(player);
    CapturedWhole(t, p, enemy, 4);
    forall d | 0 <= d < 4 && InBounds(t, Nbrs(p)[d]) && At(t, Nbrs(p)[d]) == enemy && !HasLiberty(t, Group(t, Nbrs(p)[d]))
      ensures Group(t, Nbrs(p)[d]) <= Captured(t, p, enemy, 4)
    {
      CapturedMono(t, p, enemy, d + 1, 4);
    }
  }

  lemma {:induction false} CapturedMono(g: Grid, p: Pos, enemy: Player, j: nat, k: nat)
    requires j <= k <= 4
    ensures Captured(g, p, enemy, j) <= Captured(g, p, enemy, k)
    decreases k - j
  {
    if j < k {
      CapturedMono(g, p, enemy, j, k - 1);
    }
  }

  /** The neighbour in a direction that captured is empty after the captures. */
  lemma CapturedNeighbourEmpty(g: Grid, p: Pos, player: Player, d: nat)
    requires Square(g) && InBounds(g, p) && d < 4
    requires DeadAt(SetCell(g, p, player), p, Opponent(player), d) != {}
    ensures InBounds(g, Nbrs(p)[d]) && At(AfterCaptures(g, p, player), Nbrs(p)[d]) == EMPTY
  {
    var t := SetCell(g, p, player);
    GroupSpec(t, Nbrs(p)[d]);
    CapturedMono(t, p, Opponent(player), d + 1, 4);
  }

  /** The placed stone survives its own captures. */
  lemma PlacedStoneStays(g: Grid, p: Pos, player: Player)
    requires Square(g) && InBounds(g, p)
    ensures At(AfterCaptures(g, p, player), p) == player
    ensures p in Group(AfterCaptures(g, p, player), p)
  {
    var t := SetCell(g, p, player);
    CapturedWhole(t, p, Opponent(player), 4);
    GroupSpec(AfterCaptures(g, p, player), p);
  }

  /** A capture opens a liberty next to the placed stone. */
  lemma CaptureGivesLiberty(g: Grid, p: Pos, player: Player)
    requires Square(g) && InBounds(g, p)
    ensures Captured(SetCell(g, p, player), p, Opponent(player), 4) != {}
            ==> HasLiberty(AfterCaptures(g, p, player), Group(AfterCaptures(g, p, player), p))
  {
    var t := SetCell(g, p, player);
    var r := AfterCaptures(g, p, player);
    if Captured(t, p, Opponent(player), 4) != {} {
      CapturedSomeDirection(t, p, Opponent(player), 4);
      var d :| 0 <= d < 4 && DeadAt(t, p, Opponent(player), d) != {};
      CapturedNeighbourEmpty(g, p, player, d);
      PlacedStoneStays(g, p, player);
      assert Nbrs(p)[d] in Nbrs(p);
    }
  }

  /** So a placement that leaves its own group without liberties captured nothing. */
  lemma SuicideCapturesNothing(g: Grid, p: Pos, player: Player)
    requires Square(g) && InBounds(g, p)
    requires !HasLiberty(AfterCaptures(g, p, player), Group(AfterCaptures(g, p, player), p))
    ensures Captured(SetCell(g, p, player), p, Opponent(player), 4) == {}
  {
    CaptureGivesLiberty(g, p, player);
  }

  /** A suicide captured nothing, so taking the stone back restores the grid exactly. */
  lemma SuicideRestores(g: Grid, p: Pos, player: Player)
    requires Square(g) && InBounds(g, p) && At(g, p) == EMPTY
    requires !HasLiberty(AfterCaptures(g, p, player), Group(AfterCaptures(g, p, player), p))
    ensures SetCell(AfterCaptures(g, p, player), p, EMPTY) == g
  {
    SuicideCapturesNothing(g, p, player);
    SameGrid(SetCell(AfterCaptures(g, p, player), p, EMPTY), g);
  }

  /** The stones of colour c left after emptying some of them. */
  lemma StonesAfterClear(g: Grid, cells: set<Pos>, c: Player)
    requires Square(g)
    requires forall x :: x in cells ==> InBounds(g, x) && At(g, x) == c
    ensures Stones(ClearSet(g, cells), c) == Stones(g, c) - cells
    ensures |Stones(ClearSet(g, cells), c)| == |Stones(g, c)| - |cells|
    ensures forall c' :: c' != c && c' != EMPTY ==> Stones(ClearSet(g, cells), c') == Stones(g, c')
  {
    var r := ClearSet(g, cells);
    forall x
      ensures x in Stones(r, c) <==> x in Stones(g, c) - cells
    {
      StonesMembers(r, c, x);
      StonesMembers(g, c, x);
    }
    forall c', x | c' != c && c' != EMPTY
      ensures x in Stones(r, c') <==> x in Stones(g, c')
    {
      StonesMembers(r, c', x);
      StonesMembers(g, c', x);
    }
    assert cells <= Stones(g, c) by {
      forall x | x in cells
        ensures x in Stones(g, c)
      {
        StonesMembers(g, c, x);
      }
    }
  }

  /** The mover's capture count is the number of enemy stones that left the board. */
  lemma CaptureCount(g: Grid, p: Pos, player: Player)
    requires Square(g) && InBounds(g, p) && At(g, p) == EMPTY
    ensures |Captured(SetCell(g, p, player), p, Opponent(player), 4)|
         == |Stones(g, Opponent(player))| - |Stones(AfterCaptures(g, p, player), Opponent(player))|
  {
    var t := SetCell(g, p, player);
    var enemy := Opponent(player);
    var cells := Captured(t, p, enemy, 4);
    CapturedWhole(t, p, enemy, 4);
    assert forall x :: x in cells ==> InBounds(t, x) && At(t, x) == enemy;
    StonesAfterClear(t, cells, enemy);
    StonesPlaceOther(g, p, player);
  }

  /** Placing a stone on an empty cell leaves the other colour's stones as they were. */
  lemma StonesPlaceOther(g: Grid, p: Pos, player: Player)
    requires Square(g) && InBounds(g, p) && At(g, p) == EMPTY
    ensures Stones(SetCell(g, p, player), Opponent(player)) == Stones(g, Opponent(player))
  {
    var t := SetCell(g, p, player);
    forall x
      ensures x in Stones(t, Opponent(player)) <==> x in Stones(g, Opponent(player))
    {
      StonesMembers(t, Opponent(player), x);
      StonesMembers(g, Opponent(player), x);
    }
  }


  /**
   * The bookkeeping of one direction of the capture loop: what is captured
   * after direction k, its size, and the grid with it emptied.
   */
  lemma CaptureLoopStep(g: Grid, p: Pos, enemy: Player, k: nat)
    requires Square(g) && k < 4
    ensures var cells := Captured(g, p, enemy, k);
            var b := ClearSet(g, cells);
            var a := Nbrs(p)[k];
            var hit := InBounds(b, a) && At(b, a) == enemy && !HasLiberty(b, Group(b, a));
            && (hit ==> Captured(g, p, enemy, k + 1) == cells + Group(b, a)
                        && |Captured(g, p, enemy, k + 1)| == |cells| + |Group(b, a)|
                        && ClearSet(b, Group(b, a)) == ClearSet(g, Captured(g, p, enemy, k + 1)))
            && (!hit ==> Captured(g, p, enemy, k + 1) == cells)
  {
    var cells := Captured(g, p, enemy, k);
    var b := ClearSet(g, cells);
    var a := Nbrs(p)[k];
    CaptureStep(g, p, enemy, k);
    if InBounds(b, a) && At(b, a) == enemy && !HasLiberty(b, Group(b, a)) {
      assert cells * Group(b, a) == {};
      ClearTwice(g, cells, Group(b, a));
    }
  }

  /** Changing a cell to neither the colour of a group nor from it leaves the group as it is. */
  lemma GroupIgnoresOtherCell(g: Grid, p: Pos, v: Cell, a: Pos)
    requires Square(g) && InBounds(g, p) && InBounds(g, a) && At(g, a) != EMPTY
    requires At(g, p) != At(g, a) && v != At(g, a)
    ensures Group(SetCell(g, p, v), a) == Group(g, a)
  {
    var g' := SetCell(g, p, v);
    GroupSpec(g, a);
    GroupSpec(g', a);
    GroupLeast(g', a, Group(g, a));
    GroupLeast(g, a, Group(g', a));
  }

  /**
   * The 9 by 9 copy of is_ko_violation takes each neighbouring group from the
   * real grid instead of the trial grid; on an empty target cell both are the
   * same group.
   */
  lemma KoGroupOnRealGrid(g: Grid, p: Pos, player: Player, k: nat)
    requires Square(g) && InBounds(g, p) && At(g, p) == EMPTY && k < 4
    requires var t := SetCell(g, p, player);
             var b := ClearSet(t, Captured(t, p, Opponent(player), k));
             InBounds(b, Nbrs(p)[k]) && At(b, Nbrs(p)[k]) == Opponent(player)
    ensures var t := SetCell(g, p, player);
            var b := ClearSet(t, Captured(t, p, Opponent(player), k));
            Group(g, Nbrs(p)[k]) == Group(b, Nbrs(p)[k])
  {
    var t := SetCell(g, p, player);
    var enemy := Opponent(player);
    var a := Nbrs(p)[k];
    CapturedWhole(t, p, enemy, k);
    ClearedGroup(t, enemy, Captured(t, p, enemy, k), a);
    GroupIgnoresOtherCell(g, p, player, a);
  }
}
