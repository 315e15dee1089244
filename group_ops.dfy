/**
 * The grid scans of the Board class written as the loops they are:
 * get_empty_group (an explicit stack over a caller-owned visited set), its
 * status variant from the Minimax module's board, has_liberties,
 * get_surrounding_players, get_eyes and both is_group_alive rules. Each
 * takes the grid it reads as a parameter and is proved against the
 * declarative definitions of module Flood.
 */
module GroupOps {
  import opened GoGrid
  import opened Flood

  /** Every empty cell in `visited` brings its whole empty region with it. */
  ghost predicate EmptyClosed(g: Grid, visited: set<Pos>)
  {
    forall x :: x in visited && InBounds(g, x) && At(g, x) == EMPTY ==> Component(g, x) <= visited
  }

  /** A region of an empty cell is made of empty cells, and is the region of each of its cells. */
  lemma EmptyComponent(g: Grid, q: Pos)
    requires InBounds(g, q) && At(g, q) == EMPTY
    ensures q in Component(g, q)
    ensures forall x :: x in Component(g, q) ==> InBounds(g, x) && At(g, x) == EMPTY && Component(g, x) == Component(g, q)
  {
    ReachSpec(g, EMPTY, {}, q);
    forall x | x in Component(g, q)
      ensures Component(g, x) == Component(g, q)
    {
      ReachSame(g, EMPTY, {}, q, x);
    }
  }

  /**
   * An empty cell outside a visited set that is closed under empty regions:
   * the fill that stops at visited cells finds its whole region.
   */
  lemma FreshRegion(g: Grid, visited: set<Pos>, q: Pos)
    requires EmptyClosed(g, visited)
    requires InBounds(g, q) && At(g, q) == EMPTY && q !in visited
    ensures Region(g, q, visited) == Component(g, q)
    ensures q in Component(g, q) && Component(g, q) !! visited
  {
    EmptyComponent(g, q);
    forall z | z in Component(g, q)
      ensures z !in visited
    {
      if z in visited {
        assert false;
      }
    }
    ReachIgnoresAvoidedBlock(g, EMPTY, visited, q);
  }

  /** Adding a whole empty region keeps `visited` closed under empty regions. */
  lemma AddRegionClosed(g: Grid, visited: set<Pos>, q: Pos)
    requires EmptyClosed(g, visited)
    requires InBounds(g, q) && At(g, q) == EMPTY
    ensures EmptyClosed(g, visited + Component(g, q))
  {
    EmptyComponent(g, q);
  }

  /** The colour a neighbour contributes: its own when it is a stone on the board. */
  function ColourOf(g: Grid, y: Pos): set<int>
  {
    if InBounds(g, y) && At(g, y) != EMPTY then {At(g, y)} else {}
  }

  /** The colours next to one cell, through its first d neighbours. */
  function NbrColours(g: Grid, x: Pos, d: nat): set<int>
    requires d <= 4
  {
    if d == 0 then {}
    else
      var y := Nbrs(x)[d - 1];
      NbrColours(g, x, d - 1) + ColourOf(g, y)
  }

  lemma NbrColoursAll(g: Grid, x: Pos)
    ensures NbrColours(g, x, 4)
         == ColourOf(g, Nbrs(x)[0]) + ColourOf(g, Nbrs(x)[1]) + ColourOf(g, Nbrs(x)[2]) + ColourOf(g, Nbrs(x)[3])
  {
    assert NbrColours(g, x, 1) == ColourOf(g, Nbrs(x)[0]);
    assert NbrColours(g, x, 2) == NbrColours(g, x, 1) + ColourOf(g, Nbrs(x)[1]);
    assert NbrColours(g, x, 3) == NbrColours(g, x, 2) + ColourOf(g, Nbrs(x)[2]);
  }

  lemma SurroundingAdd(g: Grid, done: set<Pos>, x: Pos)
    ensures Surrounding(g, done + {x}) == Surrounding(g, done) + NbrColours(g, x, 4)
  {
    NbrColoursAll(g, x);
    forall v | v in Surrounding(g, done + {x})
      ensures v in Surrounding(g, done) + NbrColours(g, x, 4)
    {
      var a, y :| a in done + {x} && y in Nbrs(a) && InBounds(g, y) && At(g, y) != EMPTY && v == At(g, y);
      if a != x {
        assert v in Surrounding(g, done);
      }
    }
  }

  /** The cell a neighbour contributes: itself when it is an empty cell on the board. */
  function EmptyOf(g: Grid, y: Pos): set<Pos>
  {
    if InBounds(g, y) && At(g, y) == EMPTY then {y} else {}
  }

  /** The empty cells next to one cell, through its first d neighbours. */
  function NbrEmpties(g: Grid, x: Pos, d: nat): set<Pos>
    requires d <= 4
  {
    if d == 0 then {}
    else
      var y := Nbrs(x)[d - 1];
      NbrEmpties(g, x, d - 1) + EmptyOf(g, y)
  }

  lemma NbrEmptiesAll(g: Grid, x: Pos)
    ensures NbrEmpties(g, x, 4)
         == EmptyOf(g, Nbrs(x)[0]) + EmptyOf(g, Nbrs(x)[1]) + EmptyOf(g, Nbrs(x)[2]) + EmptyOf(g, Nbrs(x)[3])
  {
    assert NbrEmpties(g, x, 1) == EmptyOf(g, Nbrs(x)[0]);
    assert NbrEmpties(g, x, 2) == NbrEmpties(g, x, 1) + EmptyOf(g, Nbrs(x)[1]);
    assert NbrEmpties(g, x, 3) == NbrEmpties(g, x, 2) + EmptyOf(g, Nbrs(x)[2]);
  }

  lemma EmptyAdjacentAdd(g: Grid, done: set<Pos>, x: Pos)
    ensures EmptyAdjacent(g, done + {x}) == EmptyAdjacent(g, done) + NbrEmpties(g, x, 4)
  {
    NbrEmptiesAll(g, x);
    forall y | y in EmptyAdjacent(g, done + {x})
      ensures y in EmptyAdjacent(g, done) + NbrEmpties(g, x, 4)
    {
      var a :| a in done + {x} && y in Nbrs(a) && InBounds(g, y) && At(g, y) == EMPTY;
      if a != x {
        assert y in EmptyAdjacent(g, done);
      }
    }
  }

  /** The fill of the empty region at start is under way: what is left of it is the fill from the stack. */
  ghost predicate Filling(g: Grid, visited: set<Pos>, start: Pos, stack: seq<Pos>, group: set<Pos>, visitedOut: set<Pos>)
  {
    StackOnBoard(g, stack) && visitedOut == visited + group
    && Dfs(g, EMPTY, visited, stack, group) == Region(g, start, visited)
  }

  /** Popping the top of the fill's stack: a visited cell is dropped, a fresh one is added and its pushable neighbours stacked. */
  lemma FillPop(g: Grid, visited: set<Pos>, start: Pos, stack: seq<Pos>, group: set<Pos>, visitedOut: set<Pos>)
    requires Filling(g, visited, start, stack, group, visitedOut) && stack != []
    ensures var p := stack[|stack| - 1];
            var rest := stack[..|stack| - 1];
            && InBounds(g, p)
            && (p in visitedOut ==> Filling(g, visited, start, rest, group, visitedOut))
            && (p !in visitedOut ==>
                  Filling(g, visited, start, rest + Pushable(g, EMPTY, visited, group + {p}, Nbrs(p)),
                          group + {p}, visitedOut + {p}))
  {
    var p := stack[|stack| - 1];
    var rest := stack[..|stack| - 1];
    DfsPop(g, EMPTY, visited, stack, group);
    var pushed := Pushable(g, EMPTY, visited, group + {p}, Nbrs(p));
    assert forall x :: x in rest + pushed ==> x in rest || x in pushed;
  }

  /**
   * get_empty_group: depth-first fill of the empty region of (row, col) with
   * an explicit stack, skipping and extending the caller's visited set.
   */
  method GetEmptyGroup(g: Grid, row: int, col: int, visited: set<Pos>) returns (group: set<Pos>, visitedOut: set<Pos>)
    requires Square(g)
    ensures group == Region(g, (row, col), visited)
    ensures visitedOut == visited + group
  {
    group := {};
    visitedOut := visited;
    var start := (row, col);
    if !InBounds(g, start) || g[row][col] != EMPTY || start in visitedOut {
      return;
    }
    var stack := [start];
    while stack != []
      invariant Filling(g, visited, start, stack, group, visitedOut)
      decreases |AllCells(|g|) - group|, |stack|
    {
      var p := stack[|stack| - 1];
      FillPop(g, visited, start, stack, group, visitedOut);
      stack := stack[..|stack| - 1];
      if p in visitedOut {
        continue;
      }
      FewerUnseen(|g|, group, p);
      group := group + {p};
      visitedOut := visitedOut + {p};
      stack := PushEmpty(g, p, visited, group, visitedOut, stack);
    }
  }

  /** The push loop of get_empty_group: the empty, unvisited neighbours of p in direction order. */
  method PushEmpty(g: Grid, p: Pos, visited: set<Pos>, group: set<Pos>, visitedOut: set<Pos>, stack0: seq<Pos>)
    returns (stack: seq<Pos>)
    requires Square(g) && visitedOut == visited + group
    ensures stack == stack0 + Pushable(g, EMPTY, visited, group, Nbrs(p))
  {
    stack := stack0;
    for d := 0 to 4
      invariant stack == stack0 + Pushable(g, EMPTY, visited, group, Nbrs(p)[..d])
    {
      var nb := (p.0 + DIRECTIONS[d].0, p.1 + DIRECTIONS[d].1);
      NbrStep(p, d);
      PushableStep(g, EMPTY, visited, group, Nbrs(p), d);
      if InBounds(g, nb) && g[nb.0][nb.1] == EMPTY && nb !in visitedOut {
        stack := stack + [nb];
      }
    }
    assert Nbrs(p)[..4] == Nbrs(p);
  }

  /**
   * The direction loop of get_empty_group_status for one popped cell p:
   * unvisited empty neighbours go on the stack, the colours of stone
   * neighbours go into the surrounding set.
   */
  method ScanNeighbours(g: Grid, p: Pos, visited: set<Pos>, group: set<Pos>, visitedOut: set<Pos>,
                        stack0: seq<Pos>, surrounding0: set<int>)
    returns (stack: seq<Pos>, surrounding: set<int>)
    requires Square(g)
    requires visitedOut == visited + group
    ensures stack == stack0 + Pushable(g, EMPTY, visited, group, Nbrs(p))
    ensures surrounding == surrounding0 + NbrColours(g, p, 4)
  {
    stack, surrounding := stack0, surrounding0;
    for d := 0 to 4
      invariant stack == stack0 + Pushable(g, EMPTY, visited, group, Nbrs(p)[..d])
      invariant surrounding == surrounding0 + NbrColours(g, p, d)
    {
      var nb := (p.0 + DIRECTIONS[d].0, p.1 + DIRECTIONS[d].1);
      NbrStep(p, d);
      PushableStep(g, EMPTY, visited, group, Nbrs(p), d);
      if InBounds(g, nb) {
        if g[nb.0][nb.1] == EMPTY && nb !in visitedOut {
          stack := stack + [nb];
        } else if g[nb.0][nb.1] != EMPTY {
          surrounding := surrounding + {g[nb.0][nb.1]};
        }
      }
    }
    assert Nbrs(p)[..4] == Nbrs(p);
  }

  /**
   * get_empty_group_status of the Minimax module's board: the same fill,
   * also reporting whether the region reaches the edge and which colours
   * border it.
   */
  method GetEmptyGroupStatus(g: Grid, row: int, col: int, visited: set<Pos>)
    returns (group: set<Pos>, reachesEdge: bool, surrounding: set<int>, visitedOut: set<Pos>)
    requires Square(g)
    ensures group == Region(g, (row, col), visited)
    ensures reachesEdge == TouchesEdge(g, group)
    ensures surrounding == Surrounding(g, group)
    ensures visitedOut == visited + group
  {
    group, reachesEdge, surrounding := {}, false, {};
    visitedOut := visited;
    var start := (row, col);
    if !InBounds(g, start) || g[row][col] != EMPTY || start in visitedOut {
      return;
    }
    var stack := [start];
    while stack != []
      invariant Filling(g, visited, start, stack, group, visitedOut)
      invariant reachesEdge == TouchesEdge(g, group) && surrounding == Surrounding(g, group)
      decreases |AllCells(|g|) - group|, |stack|
    {
      var p := stack[|stack| - 1];
      FillPop(g, visited, start, stack, group, visitedOut);
      stack := stack[..|stack| - 1];
      if p in visitedOut {
        continue;
      }
      FewerUnseen(|g|, group, p);
      stack, group, reachesEdge, surrounding := StatusVisit(g, visited, p, stack, group, reachesEdge, surrounding);
      visitedOut := visitedOut + {p};
    }
  }

  /** One newly visited cell of get_empty_group_status: its edge test, its stone colours and its pushes. */
  method StatusVisit(g: Grid, visited: set<Pos>, p: Pos, stack0: seq<Pos>, group0: set<Pos>, reachesEdge0: bool, surrounding0: set<int>)
    returns (stack: seq<Pos>, group: set<Pos>, reachesEdge: bool, surrounding: set<int>)
    requires Square(g) && InBounds(g, p)
    requires reachesEdge0 == TouchesEdge(g, group0) && surrounding0 == Surrounding(g, group0)
    ensures group == group0 + {p}
    ensures stack == stack0 + Pushable(g, EMPTY, visited, group, Nbrs(p))
    ensures reachesEdge == TouchesEdge(g, group) && surrounding == Surrounding(g, group)
  {
    SurroundingAdd(g, group0, p);
    TouchesEdgeAdd(g, group0, p);
    group := group0 + {p};
    reachesEdge := reachesEdge0;
    if p.0 == 0 || p.0 == |g| - 1 || p.1 == 0 || p.1 == |g| - 1 {
      reachesEdge := true;
    }
    stack, surrounding := ScanNeighbours(g, p, visited, group, visited + group, stack0, surrounding0);
  }

  lemma TouchesEdgeAdd(g: Grid, cells: set<Pos>, p: Pos)
    ensures TouchesEdge(g, cells + {p}) <==> TouchesEdge(g, cells) || OnEdge(|g|, p)
  {
    if TouchesEdge(g, cells + {p}) && !OnEdge(|g|, p) {
      var x :| x in cells + {p} && OnEdge(|g|, x);
      assert x in cells;
    }
    if OnEdge(|g|, p) {
      assert p in cells + {p};
    }
  }

  /** has_liberties: whether some member of the group has an empty neighbour on the board. */
  method HasLiberties(g: Grid, group: set<Pos>) returns (b: bool)
    requires Square(g)
    ensures b == HasLiberty(g, group)
  {
    var rest := group;
    while rest != {}
      invariant rest <= group
      invariant forall x, y :: x in group - rest && y in Nbrs(x) ==> !(InBounds(g, y) && At(g, y) == EMPTY)
      decreases |rest|
    {
      var x :| x in rest;
      for d := 0 to 4
        invariant forall e :: 0 <= e < d ==> !(InBounds(g, Nbrs(x)[e]) && At(g, Nbrs(x)[e]) == EMPTY)
      {
        var nb := (x.0 + DIRECTIONS[d].0, x.1 + DIRECTIONS[d].1);
        NbrStep(x, d);
        if InBounds(g, nb) && g[nb.0][nb.1] == EMPTY {
          assert nb in Nbrs(x);
          return true;
        }
      }
      rest := rest - {x};
    }
    return false;
  }

  /** get_surrounding_players: the colours of the stones next to the cells. */
  method GetSurroundingPlayers(g: Grid, cells: set<Pos>) returns (surrounding: set<int>)
    requires Square(g)
    ensures surrounding == Surrounding(g, cells)
  {
    surrounding := {};
    var rest := cells;
    while rest != {}
      invariant rest <= cells
      invariant surrounding == Surrounding(g, cells - rest)
      decreases |rest|
    {
      var x :| x in rest;
      ghost var done := cells - rest;
      for d := 0 to 4
        invariant surrounding == Surrounding(g, done) + NbrColours(g, x, d)
      {
        var nb := (x.0 + DIRECTIONS[d].0, x.1 + DIRECTIONS[d].1);
        NbrStep(x, d);
        if InBounds(g, nb) && g[nb.0][nb.1] != EMPTY {
          surrounding := surrounding + {g[nb.0][nb.1]};
        }
      }
      SurroundingAdd(g, done, x);
      rest := rest - {x};
      assert cells - rest == done + {x};
    }
  }

  /** The first loop of get_eyes and is_group_alive: the empty cells next to the group. */
  method EmptyNeighbours(g: Grid, group: set<Pos>) returns (adjacent: set<Pos>)
    requires Square(g)
    ensures adjacent == EmptyAdjacent(g, group)
  {
    adjacent := {};
    var rest := group;
    while rest != {}
      invariant rest <= group
      invariant adjacent == EmptyAdjacent(g, group - rest)
      decreases |rest|
    {
      var x :| x in rest;
      ghost var done := group - rest;
      for d := 0 to 4
        invariant adjacent == EmptyAdjacent(g, done) + NbrEmpties(g, x, d)
      {
        var nb := (x.0 + DIRECTIONS[d].0, x.1 + DIRECTIONS[d].1);
        NbrStep(x, d);
        if InBounds(g, nb) && g[nb.0][nb.1] == EMPTY && nb !in adjacent {
          adjacent := adjacent + {nb};
        }
      }
      EmptyAdjacentAdd(g, done, x);
      rest := rest - {x};
      assert group - rest == done + {x};
    }
  }

  /** The stones of one group: on the board, all of one colour. */
  predicate Monochrome(g: Grid, group: set<Pos>, colour: Player)
  {
    forall x :: x in group ==> InBounds(g, x) && At(g, x) == colour
  }

  /** A stone's group holds the stone and is all of the stone's colour. */
  lemma GroupMonochrome(g: Grid, p: Pos, colour: Player)
    requires InBounds(g, p) && At(g, p) == colour
    ensures p in Group(g, p) && Monochrome(g, Group(g, p), colour)
  {
    GroupSpec(g, p);
  }

  /** A sequence without repeated elements. */
  predicate Distinct<T(==)>(s: seq<T>)
  {
    forall i, j :: 0 <= i < j < |s| ==> s[i] != s[j]
  }

  lemma DistinctSnoc<T>(s: seq<T>, x: T)
    requires Distinct(s) && forall i :: 0 <= i < |s| ==> s[i] != x
    ensures Distinct(s + [x])
  {
  }

  lemma {:induction false} DistinctCard<T>(s: seq<T>)
    requires Distinct(s)
    ensures |set e | e in s| == |s|
  {
    if s != [] {
      var last := s[|s| - 1];
      var init := s[..|s| - 1];
      DistinctCard(init);
      assert (set e | e in s) == (set e | e in init) + {last};
      assert last !in (set e | e in init);
    }
  }

  /**
   * What get_eyes knows part way through its scan: `visited` holds the group
   * and whole empty regions, every visited region bordered only by `colour`
   * is listed in `eyes`, and each listed eye is the region of the
   * representative cell at the same index of `reps`.
   */
  ghost predicate EyeScan(g: Grid, group: set<Pos>, colour: Player, adjacent: set<Pos>,
                          visited: set<Pos>, eyes: seq<set<Pos>>, reps: seq<Pos>)
  {
    && EyeVisited(g, group, visited)
    && EyesCover(g, group, colour, visited, eyes)
    && EyesFrom(g, colour, adjacent, visited, eyes, reps)
    && Distinct(eyes)
  }

  /** `visited` is the group and whole empty regions. */
  ghost predicate EyeVisited(g: Grid, group: set<Pos>, visited: set<Pos>)
  {
    && group <= visited
    && EmptyClosed(g, visited)
    && (forall x :: x in visited && x !in group ==> InBounds(g, x) && At(g, x) == EMPTY)
  }

  /** Every visited region bordered only by `colour` is listed. */
  ghost predicate EyesCover(g: Grid, group: set<Pos>, colour: Player, visited: set<Pos>, eyes: seq<set<Pos>>)
  {
    forall x :: x in visited && x !in group && Surrounding(g, Component(g, x)) == {colour} ==> Component(g, x) in eyes
  }

  /** Each listed eye is the visited region of an adjacent cell, bordered only by `colour`. */
  ghost predicate EyesFrom(g: Grid, colour: Player, adjacent: set<Pos>, visited: set<Pos>, eyes: seq<set<Pos>>, reps: seq<Pos>)
  {
    && |reps| == |eyes|
    && (forall i :: 0 <= i < |eyes| ==>
          reps[i] in adjacent && eyes[i] == Component(g, reps[i]) && eyes[i] <= visited
          && Surrounding(g, eyes[i]) == {colour})
  }

  /** Visiting the region of a fresh empty cell, and listing it when it is an eye, keeps EyeScan. */
  lemma EyeScanStep(g: Grid, group: set<Pos>, colour: Player, adjacent: set<Pos>,
                    visited: set<Pos>, eyes: seq<set<Pos>>, reps: seq<Pos>, y: Pos)
    requires EyeScan(g, group, colour, adjacent, visited, eyes, reps)
    requires Monochrome(g, group, colour)
    requires y in adjacent && InBounds(g, y) && At(g, y) == EMPTY && y !in visited
    ensures var region := Component(g, y);
            var isEye := Surrounding(g, region) == {colour};
            EyeScan(g, group, colour, adjacent, visited + region,
                    if isEye then eyes + [region] else eyes,
                    if isEye then reps + [y] else reps)
  {
    var region := Component(g, y);
    var isEye := Surrounding(g, region) == {colour};
    var eyes' := if isEye then eyes + [region] else eyes;
    var reps' := if isEye then reps + [y] else reps;
    FreshRegion(g, visited, y);
    EmptyComponent(g, y);
    EyeVisitedStep(g, group, visited, y);
    EyesCoverStep(g, group, colour, visited, eyes, y);
    EyesFromStep(g, colour, adjacent, visited, eyes, reps, y);
    if isEye {
      assert forall i :: 0 <= i < |eyes| ==> y !in eyes[i];
      DistinctSnoc(eyes, region);
    }
  }

  lemma EyeVisitedStep(g: Grid, group: set<Pos>, visited: set<Pos>, y: Pos)
    requires EyeVisited(g, group, visited)
    requires InBounds(g, y) && At(g, y) == EMPTY
    ensures EyeVisited(g, group, visited + Component(g, y))
  {
    EmptyComponent(g, y);
    AddRegionClosed(g, visited, y);
  }

  lemma EyesCoverStep(g: Grid, group: set<Pos>, colour: Player, visited: set<Pos>, eyes: seq<set<Pos>>, y: Pos)
    requires EyesCover(g, group, colour, visited, eyes)
    requires InBounds(g, y) && At(g, y) == EMPTY
    ensures var region := Component(g, y);
            EyesCover(g, group, colour, visited + region,
                      if Surrounding(g, region) == {colour} then eyes + [region] else eyes)
  {
    var region := Component(g, y);
    var eyes' := if Surrounding(g, region) == {colour} then eyes + [region] else eyes;
    EmptyComponent(g, y);
    forall x | x in visited + region && x !in group && Surrounding(g, Component(g, x)) == {colour}
      ensures Component(g, x) in eyes'
    {
      if x in region {
        assert eyes'[|eyes|] == region;
      }
    }
  }

  lemma EyesFromStep(g: Grid, colour: Player, adjacent: set<Pos>, visited: set<Pos>, eyes: seq<set<Pos>>, reps: seq<Pos>, y: Pos)
    requires EyesFrom(g, colour, adjacent, visited, eyes, reps)
    requires y in adjacent
    ensures var region := Component(g, y);
            var isEye := Surrounding(g, region) == {colour};
            EyesFrom(g, colour, adjacent, visited + region,
                     if isEye then eyes + [region] else eyes,
                     if isEye then reps + [y] else reps)
  {
    var region := Component(g, y);
    var isEye := Surrounding(g, region) == {colour};
    var eyes' := if isEye then eyes + [region] else eyes;
    var reps' := if isEye then reps + [y] else reps;
    forall i | 0 <= i < |eyes'|
      ensures reps'[i] in adjacent && eyes'[i] == Component(g, reps'[i]) && eyes'[i] <= visited + region
              && Surrounding(g, eyes'[i]) == {colour}
    {
      if i < |eyes| {
        assert eyes'[i] == eyes[i] && reps'[i] == reps[i];
      }
    }
  }

  /** At the end of the scan the listed eyes are exactly Eyes, each once. */
  lemma EyeScanDone(g: Grid, group: set<Pos>, colour: Player, visited: set<Pos>, eyes: seq<set<Pos>>, reps: seq<Pos>)
    requires EyeScan(g, group, colour, EmptyAdjacent(g, group), visited, eyes, reps)
    requires Monochrome(g, group, colour)
    requires EmptyAdjacent(g, group) <= visited
    ensures forall e :: e in eyes <==> e in Eyes(g, group, colour)
    ensures |eyes| == |Eyes(g, group, colour)|
  {
    EyesListed(g, group, colour, visited, eyes, reps);
    EyesFound(g, group, colour, visited, eyes, reps);
    DistinctCard(eyes);
    assert (set e | e in eyes) == Eyes(g, group, colour);
  }

  /** Every eye of the group is on the list at the end of the scan. */
  lemma EyesListed(g: Grid, group: set<Pos>, colour: Player, visited: set<Pos>, eyes: seq<set<Pos>>, reps: seq<Pos>)
    requires EyeScan(g, group, colour, EmptyAdjacent(g, group), visited, eyes, reps)
    requires Monochrome(g, group, colour)
    requires EmptyAdjacent(g, group) <= visited
    ensures forall e :: e in Eyes(g, group, colour) ==> e in eyes
  {
    forall e | e in Eyes(g, group, colour)
      ensures e in eyes
    {
      var y :| y in EmptyAdjacent(g, group) && Surrounding(g, Component(g, y)) == {colour} && e == Component(g, y);
      assert y in visited && y !in group;
    }
  }

  /** Everything on the list at the end of the scan is an eye of the group. */
  lemma EyesFound(g: Grid, group: set<Pos>, colour: Player, visited: set<Pos>, eyes: seq<set<Pos>>, reps: seq<Pos>)
    requires EyeScan(g, group, colour, EmptyAdjacent(g, group), visited, eyes, reps)
    ensures forall e :: e in eyes ==> e in Eyes(g, group, colour)
  {
    forall e | e in eyes
      ensures e in Eyes(g, group, colour)
    {
      var i :| 0 <= i < |eyes| && eyes[i] == e;
      assert reps[i] in EmptyAdjacent(g, group);
    }
  }


  /**
   * get_eyes: the empty regions next to the group whose only bordering
   * colour is the group's, each listed once. The group's colour is read from
   * one of its stones; `colour` names it for the contract.
   */
  method GetEyes(g: Grid, group: set<Pos>, ghost colour: Player) returns (eyes: seq<set<Pos>>)
    requires Square(g) && Monochrome(g, group, colour)
    ensures Distinct(eyes)
    ensures forall e :: e in eyes <==> e in Eyes(g, group, colour)
    ensures |eyes| == |Eyes(g, group, colour)|
  {
    eyes := [];
    if group == {} {
      assert EmptyAdjacent(g, group) == {};
      assert Eyes(g, group, colour) == {};
      return;
    }
    var visited := group;
    var emptyAdjacent := EmptyNeighbours(g, group);
    var todo := emptyAdjacent;
    ghost var reps: seq<Pos> := [];
    while todo != {}
      invariant todo <= emptyAdjacent
      invariant forall x :: x in emptyAdjacent && x !in todo ==> x in visited
      invariant EyeScan(g, group, colour, emptyAdjacent, visited, eyes, reps)
      decreases |todo|
    {
      var y :| y in todo;
      todo := todo - {y};
      if y !in visited {
        ghost var visited0 := visited;
        EyeScanStep(g, group, colour, emptyAdjacent, visited, eyes, reps, y);
        FreshRegion(g, visited, y);
        var region;
        region, visited := GetEmptyGroup(g, y.0, y.1, visited);
        assert region == Component(g, y);
        var surroundedBy := GetSurroundingPlayers(g, region);
        var first :| first in group;
        assert g[first.0][first.1] == colour by {
          assert At(g, first) == colour;
        }
        if surroundedBy == {g[first.0][first.1]} {
          eyes := eyes + [region];
          reps := reps + [y];
        }
        visited := visited + region;
        assert visited == visited0 + Component(g, y);
        assert y in visited;
      }
    }
    assert emptyAdjacent <= visited;
    EyeScanDone(g, group, colour, visited, eyes, reps);
  }

  /**
   * What is_group_alive's own scan knows: `visited` holds the group and whole
   * empty regions, and each collected region is the region of the
   * representative cell at the same index of `reps`.
   */
  ghost predicate RegionScan(g: Grid, group: set<Pos>, adjacent: set<Pos>, visited: set<Pos>,
                             regions: seq<set<Pos>>, reps: seq<Pos>)
  {
    && group <= visited
    && EmptyClosed(g, visited)
    && |reps| == |regions|
    && (forall i :: 0 <= i < |regions| ==> reps[i] in adjacent && regions[i] == Component(g, reps[i]))
  }

  lemma RegionScanStep(g: Grid, group: set<Pos>, adjacent: set<Pos>, visited: set<Pos>,
                       regions: seq<set<Pos>>, reps: seq<Pos>, y: Pos)
    requires RegionScan(g, group, adjacent, visited, regions, reps)
    requires y in adjacent && InBounds(g, y) && At(g, y) == EMPTY && y !in visited
    ensures RegionScan(g, group, adjacent, visited + Component(g, y), regions + [Component(g, y)], reps + [y])
  {
    AddRegionClosed(g, visited, y);
  }

  /** Without eyes, no collected region is bordered by the group's colour alone. */
  lemma NoEyeRegion(g: Grid, group: set<Pos>, colour: Player, visited: set<Pos>, regions: seq<set<Pos>>, reps: seq<Pos>)
    requires RegionScan(g, group, EmptyAdjacent(g, group), visited, regions, reps)
    requires Eyes(g, group, colour) == {}
    ensures forall i :: 0 <= i < |regions| ==> Surrounding(g, regions[i]) != {colour}
  {
    forall i | 0 <= i < |regions|
      ensures Surrounding(g, regions[i]) != {colour}
    {
      var y := reps[i];
      assert y in EmptyAdjacent(g, group);
      assert Surrounding(g, Component(g, y)) == {colour} ==> Component(g, y) in Eyes(g, group, colour);
    }
  }

  /**
   * is_group_alive of board.py, loop for loop: alive on one eye; otherwise
   * the regions next to the group are collected and one of four or more
   * cells bordered only by the group's colour also counts. Every such region
   * is already an eye, so the rule is exactly "at least one eye".
   */
  method IsGroupAliveClassic(g: Grid, group: set<Pos>, ghost colour: Player) returns (alive: bool)
    requires Square(g) && Monochrome(g, group, colour)
    ensures alive == Alive(Classic, g, group, colour)
    ensures alive <==> Eyes(g, group, colour) != {}
  {
    var eyes := GetEyes(g, group, colour);
    if |eyes| >= 1 {
      return true;
    }
    assert Eyes(g, group, colour) == {};
    var emptyAdjacent := EmptyNeighbours(g, group);
    var visited := group;
    var emptyGroups: seq<set<Pos>> := [];
    ghost var reps: seq<Pos> := [];
    var todo := emptyAdjacent;
    while todo != {}
      invariant todo <= emptyAdjacent
      invariant RegionScan(g, group, emptyAdjacent, visited, emptyGroups, reps)
      decreases |todo|
    {
      var y :| y in todo;
      todo := todo - {y};
      if y !in visited {
        RegionScanStep(g, group, emptyAdjacent, visited, emptyGroups, reps, y);
        FreshRegion(g, visited, y);
        var region;
        region, visited := GetEmptyGroup(g, y.0, y.1, visited);
        emptyGroups := emptyGroups + [region];
        reps := reps + [y];
        visited := visited + region;
      }
    }
    NoEyeRegion(g, group, colour, visited, emptyGroups, reps);
    for i := 0 to |emptyGroups|
    {
      if |emptyGroups[i]| >= 4 {
        var surroundedBy := GetSurroundingPlayers(g, emptyGroups[i]);
        var first :| first in group;
        assert g[first.0][first.1] == colour by {
          assert At(g, first) == colour;
        }
        if surroundedBy == {g[first.0][first.1]} {
          assert false;
          return true;
        }
      }
    }
    return false;
  }

  /** is_group_alive of the Minimax module's board: two eyes, or one eye of at least four cells. */
  method IsGroupAliveMini(g: Grid, group: set<Pos>, ghost colour: Player) returns (alive: bool)
    requires Square(g) && Monochrome(g, group, colour)
    ensures alive == Alive(Mini, g, group, colour)
  {
    var eyes := GetEyes(g, group, colour);
    alive := |eyes| >= 2 || exists i :: 0 <= i < |eyes| && |eyes[i]| >= 4;
    if alive && |eyes| < 2 {
      var i :| 0 <= i < |eyes| && |eyes[i]| >= 4;
      assert eyes[i] in Eyes(g, group, colour);
    }
    if !alive {
      forall e | e in Eyes(g, group, colour)
        ensures |e| < 4
      {
        assert e in eyes;
      }
    }
  }

  /** is_group_alive under either rule. */
  method IsGroupAlive(v: Variant, g: Grid, group: set<Pos>, ghost colour: Player) returns (alive: bool)
    requires Square(g) && Monochrome(g, group, colour)
    ensures alive == Alive(v, g, group, colour)
  {
    match v
    case Classic => alive := IsGroupAliveClassic(g, group, colour);
    case Mini => alive := IsGroupAliveMini(g, group, colour);
  }

  lemma {:induction false} SubsetCard<T>(a: set<T>, b: set<T>)
    requires a <= b
    ensures |a| <= |b|
    decreases b
  {
    if a != {} {
      var x :| x in a;
      SubsetCard(a - {x}, b - {x});
    }
  }

  /**
   * The nested _recurse of get_group: a recursive depth-first visit of the
   * cells of colour c from p, in DIRECTIONS order, that adds to `visited`.
   * The cells it adds are the fill from p that avoids the cells visited before.
   */
  method Recurse(g: Grid, p: Pos, c: Cell, visited: set<Pos>) returns (out: set<Pos>)
    requires Square(g)
    ensures visited <= out
    ensures out - visited <= Reach(g, c, visited, p)
    ensures Open(g, c, visited, p) ==> p in out
    ensures forall x, y :: x in out - visited && Adj(x, y) && InBounds(g, y) && At(g, y) == c ==> y in out
    decreases |AllCells(|g|) - visited|, 1
  {
    if !InBounds(g, p) || p in visited || g[p.0][p.1] != c {
      return visited;
    }
    ReachSpec(g, c, visited, p);
    out := visited + {p};
    for d := 0 to 4
      invariant Spread(g, p, c, visited, d, out)
    {
      out := RecurseDir(g, p, c, visited, d, out);
    }
  }

  /** The cells the recursive fill from p has reached after its first d directions. */
  ghost predicate Spread(g: Grid, p: Pos, c: Cell, visited: set<Pos>, d: nat, out: set<Pos>)
  {
    && visited + {p} <= out
    && out - visited <= Reach(g, c, visited, p)
    && (forall x, y :: x in out - visited && x != p && Adj(x, y) && InBounds(g, y) && At(g, y) == c ==> y in out)
    && (forall e :: 0 <= e < d && e < 4 && InBounds(g, Nbrs(p)[e]) && At(g, Nbrs(p)[e]) == c ==> Nbrs(p)[e] in out)
  }

  /** One direction of the recursive fill: recurse into the neighbour of p there. */
  method RecurseDir(g: Grid, p: Pos, c: Cell, visited: set<Pos>, d: nat, out: set<Pos>) returns (out': set<Pos>)
    requires Square(g) && Open(g, c, visited, p) && d < 4
    requires Spread(g, p, c, visited, d, out)
    ensures Spread(g, p, c, visited, d + 1, out')
    decreases |AllCells(|g|) - visited|, 0
  {
    NbrStep(p, d);
    var n := (p.0 + DIRECTIONS[d].0, p.1 + DIRECTIONS[d].1);
    FewerUnseen(|g|, visited, p);
    SubsetCard(AllCells(|g|) - out, AllCells(|g|) - (visited + {p}));
    out' := Recurse(g, n, c, out);
    ReachMono(g, c, visited, out, n);
    ReachNeighbour(g, c, visited, p, n);
  }


  /** get_group: the group of the stone at (row, col), the empty set off the board or on an empty cell. */
  method GetGroup(g: Grid, row: int, col: int) returns (group: set<Pos>)
    requires Square(g)
    ensures group == Group(g, (row, col))
  {
    var p := (row, col);
    GroupSpec(g, p);
    if !InBounds(g, p) || g[row][col] == EMPTY {
      return {};
    }
    group := Recurse(g, p, g[row][col], {});
    ReachSpec(g, At(g, p), {}, p);
    ReachLeast(g, At(g, p), {}, p, group);
  }
}
