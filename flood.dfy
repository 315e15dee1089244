/**
 * Flood fills over a grid snapshot: same-colour groups (get_group) and empty
 * regions (get_empty_group), both as one explicit-stack fill whose termination
 * measure is the number of cells not yet seen. The fill is characterised as
 * the least set that contains the start and is closed under stepping to an
 * orthogonal neighbour of the same colour, i.e. the 4-connected component.
 */
module Flood {
  import opened GoGrid

  /** A cell the fill of colour c may enter: on the board, of colour c and not blocked. */
  predicate Open(g: Grid, c: int, blocked: set<Pos>, p: Pos)
  {
    InBounds(g, p) && At(g, p) == c && p !in blocked
  }

  /** The neighbours pushed on the stack: on the board, of colour c, not yet visited. */
  function Pushable(g: Grid, c: int, blocked: set<Pos>, seen: set<Pos>, ps: seq<Pos>): (r: seq<Pos>)
    ensures forall x {:trigger x in r} :: x in r ==> x in ps && Open(g, c, blocked, x) && x !in seen
    ensures forall x {:trigger x in ps} :: x in ps && Open(g, c, blocked, x) && x !in seen ==> x in r
  {
    if ps == [] then []
    else
      var x := ps[|ps| - 1];
      assert ps == ps[..|ps| - 1] + [x];
      Pushable(g, c, blocked, seen, ps[..|ps| - 1]) + (if Open(g, c, blocked, x) && x !in seen then [x] else [])
  }

  /** Pushable over one more candidate: the new candidate goes on top when it qualifies. */
  lemma PushableStep(g: Grid, c: int, blocked: set<Pos>, seen: set<Pos>, ps: seq<Pos>, d: nat)
    requires d < |ps|
    ensures Pushable(g, c, blocked, seen, ps[..d + 1])
         == Pushable(g, c, blocked, seen, ps[..d]) + (if Open(g, c, blocked, ps[d]) && ps[d] !in seen then [ps[d]] else [])
  {
    assert ps[..d + 1][..d] == ps[..d];
  }

  predicate StackOnBoard(g: Grid, stack: seq<Pos>)
  {
    forall x :: x in stack ==> InBounds(g, x)
  }

  /**
   * Depth-first fill from the cells on `stack`. A popped cell that is blocked
   * or already seen is skipped; otherwise it is marked seen and its pushable
   * neighbours go on the stack. The result is the final `seen` set.
   */
  function Dfs(g: Grid, c: int, blocked: set<Pos>, stack: seq<Pos>, seen: set<Pos>): set<Pos>
    requires StackOnBoard(g, stack)
    decreases |AllCells(|g|) - seen|, |stack|
  {
    if stack == [] then seen
    else
      var p := stack[|stack| - 1];
      var rest := stack[..|stack| - 1];
      assert p in stack;
      assert forall x :: x in rest ==> x in stack;
      if p in blocked || p in seen then Dfs(g, c, blocked, rest, seen)
      else
        FewerUnseen(|g|, seen, p);
        Dfs(g, c, blocked, rest + Pushable(g, c, blocked, seen + {p}, Nbrs(p)), seen + {p})
  }

  /** One step of the fill: pop the top cell, then skip it or mark it and push its neighbours. */
  lemma DfsPop(g: Grid, c: int, blocked: set<Pos>, stack: seq<Pos>, seen: set<Pos>)
    requires StackOnBoard(g, stack) && stack != []
    ensures var p := stack[|stack| - 1];
            var rest := stack[..|stack| - 1];
            StackOnBoard(g, rest) && InBounds(g, p)
            && Dfs(g, c, blocked, stack, seen)
               == if p in blocked || p in seen then Dfs(g, c, blocked, rest, seen)
                  else Dfs(g, c, blocked, rest + Pushable(g, c, blocked, seen + {p}, Nbrs(p)), seen + {p})
  {
    assert stack[|stack| - 1] in stack;
  }

  /** Every neighbour of S that the fill may enter is in S. */
  ghost predicate ClosedIn(g: Grid, c: int, blocked: set<Pos>, s: set<Pos>)
  {
    forall x, y :: x in s && Adj(x, y) && Open(g, c, blocked, y) ==> y in s
  }

  lemma {:induction false} DfsGrows(g: Grid, c: int, blocked: set<Pos>, stack: seq<Pos>, seen: set<Pos>)
    requires StackOnBoard(g, stack)
    ensures seen <= Dfs(g, c, blocked, stack, seen)
    decreases |AllCells(|g|) - seen|, |stack|
  {
    if stack != [] {
      var p := stack[|stack| - 1];
      var rest := stack[..|stack| - 1];
      assert p in stack;
      assert forall x :: x in rest ==> x in stack;
      if p in blocked || p in seen {
        DfsGrows(g, c, blocked, rest, seen);
      } else {
        FewerUnseen(|g|, seen, p);
        DfsGrows(g, c, blocked, rest + Pushable(g, c, blocked, seen + {p}, Nbrs(p)), seen + {p});
      }
    }
  }

  /** The fill only adds cells it may enter. */
  lemma {:induction false} DfsSound(g: Grid, c: int, blocked: set<Pos>, stack: seq<Pos>, seen: set<Pos>)
    requires StackOnBoard(g, stack)
    requires forall x :: x in stack ==> Open(g, c, blocked, x)
    ensures forall x :: x in Dfs(g, c, blocked, stack, seen) ==> x in seen || Open(g, c, blocked, x)
    decreases |AllCells(|g|) - seen|, |stack|
  {
    if stack != [] {
      var p := stack[|stack| - 1];
      var rest := stack[..|stack| - 1];
      assert p in stack;
      assert forall x :: x in rest ==> x in stack;
      if p in blocked || p in seen {
        DfsSound(g, c, blocked, rest, seen);
      } else {
        FewerUnseen(|g|, seen, p);
        DfsSound(g, c, blocked, rest + Pushable(g, c, blocked, seen + {p}, Nbrs(p)), seen + {p});
      }
    }
  }

  /**
   * If every enterable neighbour of a seen cell is seen or waiting on the
   * stack, the fill ends closed and contains every enterable stack cell.
   */
  lemma {:induction false} DfsClosed(g: Grid, c: int, blocked: set<Pos>, stack: seq<Pos>, seen: set<Pos>)
    requires StackOnBoard(g, stack)
    requires forall x, y :: x in seen && Adj(x, y) && Open(g, c, blocked, y) ==> y in seen || y in stack
    ensures ClosedIn(g, c, blocked, Dfs(g, c, blocked, stack, seen))
    ensures forall y :: y in stack && Open(g, c, blocked, y) ==> y in Dfs(g, c, blocked, stack, seen)
    decreases |AllCells(|g|) - seen|, |stack|
  {
    if stack == [] {
    } else {
      var p := stack[|stack| - 1];
      var rest := stack[..|stack| - 1];
      assert p in stack;
      assert forall x :: x in rest ==> x in stack;
      assert stack == rest + [p];
      if p in blocked || p in seen {
        DfsClosed(g, c, blocked, rest, seen);
        DfsGrows(g, c, blocked, rest, seen);
      } else {
        var seen' := seen + {p};
        var pushed := Pushable(g, c, blocked, seen', Nbrs(p));
        var stack' := rest + pushed;
        FewerUnseen(|g|, seen, p);
        forall x, y | x in seen' && Adj(x, y) && Open(g, c, blocked, y)
          ensures y in seen' || y in stack'
        {
          if x == p {
            if y !in seen' {
              assert y in pushed;
            }
          } else {
            assert y in seen || y in stack;
          }
        }
        DfsClosed(g, c, blocked, stack', seen');
        DfsGrows(g, c, blocked, stack', seen');
      }
    }
  }

  /** The fill stays inside any closed set that holds its seen cells and its stack. */
  lemma {:induction false} DfsLeast(g: Grid, c: int, blocked: set<Pos>, stack: seq<Pos>, seen: set<Pos>, s: set<Pos>)
    requires StackOnBoard(g, stack)
    requires forall x :: x in stack ==> Open(g, c, blocked, x) && x in s
    requires seen <= s && ClosedIn(g, c, blocked, s)
    ensures Dfs(g, c, blocked, stack, seen) <= s
    decreases |AllCells(|g|) - seen|, |stack|
  {
    if stack != [] {
      var p := stack[|stack| - 1];
      var rest := stack[..|stack| - 1];
      assert p in stack;
      assert forall x :: x in rest ==> x in stack;
      if p in blocked || p in seen {
        DfsLeast(g, c, blocked, rest, seen, s);
      } else {
        FewerUnseen(|g|, seen, p);
        var pushed := Pushable(g, c, blocked, seen + {p}, Nbrs(p));
        forall x | x in pushed
          ensures x in s
        {
          assert Adj(p, x);
        }
        DfsLeast(g, c, blocked, rest + pushed, seen + {p}, s);
      }
    }
  }

  /**
   * The cells reachable from p through cells of colour c that are not blocked:
   * empty when p itself cannot be entered.
   */
  function Reach(g: Grid, c: int, blocked: set<Pos>, p: Pos): set<Pos>
  {
    if Open(g, c, blocked, p) then Dfs(g, c, blocked, [p], {}) else {}
  }

  /** Reach is the least closed set of enterable cells containing p. */
  lemma ReachSpec(g: Grid, c: int, blocked: set<Pos>, p: Pos)
    ensures forall x :: x in Reach(g, c, blocked, p) ==> Open(g, c, blocked, x)
    ensures p in Reach(g, c, blocked, p) <==> Open(g, c, blocked, p)
    ensures ClosedIn(g, c, blocked, Reach(g, c, blocked, p))
  {
    if Open(g, c, blocked, p) {
      DfsSound(g, c, blocked, [p], {});
      DfsClosed(g, c, blocked, [p], {});
    }
  }

  lemma ReachLeast(g: Grid, c: int, blocked: set<Pos>, p: Pos, s: set<Pos>)
    requires p in s && ClosedIn(g, c, blocked, s)
    ensures Reach(g, c, blocked, p) <= s
  {
    if Open(g, c, blocked, p) {
      DfsLeast(g, c, blocked, [p], {}, s);
    }
  }

  /**
   * Reachability is symmetric: any cell of the fill from p has the same fill.
   * Hence two fills of one colour are equal or disjoint.
   */
  lemma ReachSame(g: Grid, c: int, blocked: set<Pos>, p: Pos, q: Pos)
    requires q in Reach(g, c, blocked, p)
    ensures Reach(g, c, blocked, q) == Reach(g, c, blocked, p)
  {
    var a := Reach(g, c, blocked, p);
    var b := Reach(g, c, blocked, q);
    ReachSpec(g, c, blocked, p);
    ReachSpec(g, c, blocked, q);
    ReachLeast(g, c, blocked, q, a);
    // a - b is closed as well: a step out of it lands in b only if it came from b.
    var d := a - b;
    forall x, y | x in d && Adj(x, y) && Open(g, c, blocked, y)
      ensures y in d
    {
      assert y in a;
      AdjSymmetric(x, y);
      assert Open(g, c, blocked, x);
      assert y in b ==> x in b;
    }
    assert ClosedIn(g, c, blocked, d);
    assert p in b by {
      if p !in b {
        ReachLeast(g, c, blocked, p, d);
        assert false;
      }
    }
    ReachLeast(g, c, blocked, p, b);
  }

  lemma ReachEqualOrDisjoint(g: Grid, c: int, blocked: set<Pos>, p: Pos, q: Pos)
    ensures Reach(g, c, blocked, p) == Reach(g, c, blocked, q)
         || Reach(g, c, blocked, p) !! Reach(g, c, blocked, q)
  {
    if !(Reach(g, c, blocked, p) !! Reach(g, c, blocked, q)) {
      var x :| x in Reach(g, c, blocked, p) && x in Reach(g, c, blocked, q);
      ReachSame(g, c, blocked, p, x);
      ReachSame(g, c, blocked, q, x);
    }
  }

  /**
   * A fill that starts outside the blocked cells and whose unblocked
   * component avoids them equals the unblocked component.
   */
  lemma ReachIgnoresAvoidedBlock(g: Grid, c: int, blocked: set<Pos>, p: Pos)
    requires Reach(g, c, {}, p) !! blocked
    ensures Reach(g, c, blocked, p) == Reach(g, c, {}, p)
  {
    var full := Reach(g, c, {}, p);
    var part := Reach(g, c, blocked, p);
    ReachSpec(g, c, {}, p);
    ReachSpec(g, c, blocked, p);
    if Open(g, c, {}, p) {
      assert p !in blocked;
      // full is closed for the blocked fill, so part <= full
      assert ClosedIn(g, c, blocked, full);
      ReachLeast(g, c, blocked, p, full);
      // part is closed for the unblocked fill, so full <= part
      forall x, y | x in part && Adj(x, y) && Open(g, c, {}, y)
        ensures y in part
      {
        assert x in full;
        assert y in full;
      }
      ReachLeast(g, c, {}, p, part);
    }
  }

  /** Blocking more cells can only shrink a fill. */
  lemma ReachMono(g: Grid, c: int, blocked: set<Pos>, more: set<Pos>, q: Pos)
    requires blocked <= more
    ensures Reach(g, c, more, q) <= Reach(g, c, blocked, q)
  {
    ReachSpec(g, c, blocked, q);
    if Open(g, c, more, q) {
      assert ClosedIn(g, c, more, Reach(g, c, blocked, q));
      ReachLeast(g, c, more, q, Reach(g, c, blocked, q));
    }
  }

  /** The fill from an enterable neighbour of an enterable cell lies inside that cell's fill. */
  lemma ReachNeighbour(g: Grid, c: int, blocked: set<Pos>, p: Pos, n: Pos)
    requires Open(g, c, blocked, p) && Adj(p, n)
    ensures Reach(g, c, blocked, n) <= Reach(g, c, blocked, p)
  {
    ReachSpec(g, c, blocked, p);
    if Open(g, c, blocked, n) {
      ReachSame(g, c, blocked, p, n);
    }
  }

  /** The component of p: every cell 4-connected to p through cells of p's colour. */
  function Component(g: Grid, p: Pos): set<Pos>
  {
    Reach(g, At(g, p), {}, p)
  }

  /** get_group: the empty set off the board or on an empty cell, otherwise p's component. */
  function Group(g: Grid, p: Pos): set<Pos>
  {
    if !InBounds(g, p) || At(g, p) == EMPTY then {} else Component(g, p)
  }

  /** Group is the maximal 4-connected set of stones of p's colour containing p. */
  lemma GroupSpec(g: Grid, p: Pos)
    ensures Group(g, p) == {} <==> !InBounds(g, p) || At(g, p) == EMPTY
    ensures Group(g, p) != {} ==> p in Group(g, p)
    ensures forall x :: x in Group(g, p) ==> InBounds(g, x) && At(g, x) == At(g, p)
    ensures forall x, y :: x in Group(g, p) && Adj(x, y) && InBounds(g, y) && At(g, y) == At(g, p)
              ==> y in Group(g, p)
  {
    ReachSpec(g, At(g, p), {}, p);
  }

  lemma GroupLeast(g: Grid, p: Pos, s: set<Pos>)
    requires p in s
    requires forall x, y :: x in s && Adj(x, y) && InBounds(g, y) && At(g, y) == At(g, p) ==> y in s
    ensures Group(g, p) <= s
  {
    ReachLeast(g, At(g, p), {}, p, s);
  }

  /** get_empty_group: the empty region of p, stopping at already visited cells. */
  function Region(g: Grid, p: Pos, visited: set<Pos>): set<Pos>
  {
    Reach(g, EMPTY, visited, p)
  }

  /** has_liberties: some member has an on-board orthogonal neighbour that is empty. */
  predicate HasLiberty(g: Grid, group: set<Pos>)
  {
    exists x, y :: x in group && y in Nbrs(x) && InBounds(g, y) && At(g, y) == EMPTY
  }

  /** get_surrounding_players: the colours of the stones next to a set of cells. */
  function Surrounding(g: Grid, cells: set<Pos>): set<int>
  {
    set x, y | x in cells && y in Nbrs(x) && InBounds(g, y) && At(g, y) != EMPTY :: At(g, y)
  }

  /** The empty cells next to a group. */
  function EmptyAdjacent(g: Grid, group: set<Pos>): set<Pos>
  {
    set x, y | x in group && y in Nbrs(x) && InBounds(g, y) && At(g, y) == EMPTY :: y
  }

  /** get_eyes: the empty regions next to the group that only stones of its colour border. */
  function Eyes(g: Grid, group: set<Pos>, colour: int): set<set<Pos>>
  {
    set y | y in EmptyAdjacent(g, group) && Surrounding(g, Component(g, y)) == {colour} :: Component(g, y)
  }

  /** is_group_alive of board.py (one eye), and of the Minimax module's board (two eyes, or an eye of four cells). */
  predicate Alive(v: Variant, g: Grid, group: set<Pos>, colour: int)
  {
    match v
    case Classic => |Eyes(g, group, colour)| >= 1
    case Mini => |Eyes(g, group, colour)| >= 2 || exists e :: e in Eyes(g, group, colour) && |e| >= 4
  }

  /** True when some cell of the region lies on the board's edge. */
  predicate TouchesEdge(g: Grid, cells: set<Pos>)
  {
    exists x {:trigger OnEdge(|g|, x)} :: x in cells && OnEdge(|g|, x)
  }

  /**
   * Whether get_territory credits an empty region to colour c: only stones of
   * colour c border it, and in the Minimax module's board it also stays off the edge.
   */
  predicate Credited(v: Variant, g: Grid, cells: set<Pos>, c: int)
  {
    Surrounding(g, cells) == {c} && (v == Mini ==> !TouchesEdge(g, cells))
  }

  /** The territory of colour c: every empty cell whose region is credited to c. */
  function Territory(v: Variant, g: Grid, c: int): set<Pos>
  {
    set q | q in AllCells(|g|) && At(g, q) == EMPTY && Credited(v, g, Component(g, q), c)
  }
}
