/**
 * The static knowledge of the 9 by 9 search engine: the weight of a point
 * (corner, edge or centre), the order in which candidate moves are tried,
 * and the evaluation of a position as a sum over its stone groups.
 */
module Heuristics {
  import opened GoGrid
  import opened Flood
  import opened Rules

  const CORNER_VALUE: real := 3.0
  const EDGE_VALUE: real := 2.0
  const CENTER_VALUE: real := 1.0

  /** evaluate_position on the 9 by 9 board: corners, then other border points, then the interior. */
  function EvaluatePosition(p: Pos): (w: real)
    ensures w == CORNER_VALUE || w == EDGE_VALUE || w == CENTER_VALUE
  {
    var last := SMALL_SIZE - 1;
    if (p.0 == 0 || p.0 == last) && (p.1 == 0 || p.1 == last) then CORNER_VALUE
    else if p.0 == 0 || p.0 == last || p.1 == 0 || p.1 == last then EDGE_VALUE
    else CENTER_VALUE
  }

  /**
   * On the board, a point weighs more than the centre value exactly when it
   * lies on the edge, and the corner value exactly at the four corners; the
   * weight is the same under the board's reflections.
   */
  lemma EvaluatePositionSpec(p: Pos)
    requires 0 <= p.0 < SMALL_SIZE && 0 <= p.1 < SMALL_SIZE
    ensures EvaluatePosition(p) > CENTER_VALUE <==> OnEdge(SMALL_SIZE, p)
    ensures EvaluatePosition(p) == CORNER_VALUE <==> p in {(0, 0), (0, 8), (8, 0), (8, 8)}
    ensures EvaluatePosition((p.1, p.0)) == EvaluatePosition(p)
    ensures EvaluatePosition((SMALL_SIZE - 1 - p.0, p.1)) == EvaluatePosition(p)
  {
  }

  /** The moves of m that weigh w, in their order in m. */
  function WithWeight(m: seq<Pos>, w: real): (r: seq<Pos>)
    ensures |r| <= |m|
  {
    if m == [] then []
    else (if EvaluatePosition(m[0]) == w then [m[0]] else []) + WithWeight(m[1..], w)
  }

  /**
   * legal_moves.sort(key=get_move_heuristic, reverse=True): Python's sort is
   * stable, so the corner moves come first, then the edge moves, then the
   * centre moves, each group in its original order.
   */
  function SortByWeight(m: seq<Pos>): seq<Pos>
  {
    WithWeight(m, CORNER_VALUE) + WithWeight(m, EDGE_VALUE) + WithWeight(m, CENTER_VALUE)
  }

  /** The moves kept for weight w are the moves of m that weigh w. */
  lemma {:induction false} WithWeightMembers(m: seq<Pos>, w: real)
    ensures forall q :: q in WithWeight(m, w) <==> q in m && EvaluatePosition(q) == w
  {
    if m != [] {
      WithWeightMembers(m[1..], w);
      assert forall q :: q in m <==> q == m[0] || q in m[1..];
    }
  }

  /** Filtering distributes over concatenation. */
  lemma {:induction false} WithWeightAppend(a: seq<Pos>, b: seq<Pos>, w: real)
    ensures WithWeight(a + b, w) == WithWeight(a, w) + WithWeight(b, w)
  {
    if a != [] {
      assert (a + b)[0] == a[0] && (a + b)[1..] == a[1..] + b;
      WithWeightAppend(a[1..], b, w);
      var head := if EvaluatePosition(a[0]) == w then [a[0]] else [];
      assert head + (WithWeight(a[1..], w) + WithWeight(b, w)) == (head + WithWeight(a[1..], w)) + WithWeight(b, w);
    } else {
      assert a + b == b;
    }
  }

  /** Filtering a filtered list again keeps it for the same weight and empties it for another. */
  lemma {:induction false} WithWeightTwice(m: seq<Pos>, w: real, v: real)
    ensures WithWeight(WithWeight(m, w), v) == if v == w then WithWeight(m, w) else []
  {
    if m != [] {
      WithWeightTwice(m[1..], w, v);
      var head := if EvaluatePosition(m[0]) == w then [m[0]] else [];
      WithWeightAppend(head, WithWeight(m[1..], w), v);
      if head != [] {
        assert head[1..] == [];
      }
    }
  }

  /** Sorting only reorders the moves. */
  lemma {:induction false} SortPermutation(m: seq<Pos>)
    ensures multiset(SortByWeight(m)) == multiset(m)
  {
    if m != [] {
      SortPermutation(m[1..]);
      assert m == [m[0]] + m[1..];
    }
  }

  /** Sorted moves come in non-increasing weight. */
  lemma SortNonIncreasing(m: seq<Pos>)
    ensures var r := SortByWeight(m);
            forall i, j :: 0 <= i < j < |r| ==> EvaluatePosition(r[i]) >= EvaluatePosition(r[j])
  {
    var a, b, c := WithWeight(m, CORNER_VALUE), WithWeight(m, EDGE_VALUE), WithWeight(m, CENTER_VALUE);
    WithWeightMembers(m, CORNER_VALUE);
    WithWeightMembers(m, EDGE_VALUE);
    WithWeightMembers(m, CENTER_VALUE);
    var r := SortByWeight(m);
    forall i, j | 0 <= i < j < |r|
      ensures EvaluatePosition(r[i]) >= EvaluatePosition(r[j])
    {
      if i >= |a| + |b| {
        assert r[i] == c[i - |a| - |b|] && r[j] == c[j - |a| - |b|];
      } else if i >= |a| {
        assert r[i] == b[i - |a|] && r[i] in b;
        if j >= |a| + |b| {
          assert r[j] == c[j - |a| - |b|];
        } else {
          assert r[j] == b[j - |a|];
        }
      } else {
        assert r[i] == a[i] && r[i] in a;
      }
    }
  }

  /** Moves of equal weight keep their relative order: the sort is stable. */
  lemma SortStable(m: seq<Pos>, w: real)
    ensures WithWeight(SortByWeight(m), w) == WithWeight(m, w)
  {
    var a, b, c := WithWeight(m, CORNER_VALUE), WithWeight(m, EDGE_VALUE), WithWeight(m, CENTER_VALUE);
    WithWeightAppend(a + b, c, w);
    WithWeightAppend(a, b, w);
    WithWeightTwice(m, CORNER_VALUE, w);
    WithWeightTwice(m, EDGE_VALUE, w);
    WithWeightTwice(m, CENTER_VALUE, w);
    if w != CORNER_VALUE && w != EDGE_VALUE && w != CENTER_VALUE {
      WithWeightMembers(m, w);
      if WithWeight(m, w) != [] {
        assert WithWeight(m, w)[0] in WithWeight(m, w);
      }
    }
  }

  /** Of the first d directions, how many lead from x to a point of the board holding c. */
  function CountDirs(g: Grid, x: Pos, c: int, d: nat): (n: nat)
    requires d <= 4
    ensures n <= d
  {
    if d == 0 then 0
    else
      var y := Nbrs(x)[d - 1];
      CountDirs(g, x, c, d - 1) + (if InBounds(g, y) && At(g, y) == c then 1 else 0)
  }

  /** The per-stone quantities evaluate_board adds up over a group. */
  datatype Term = Liberties | Weight | Links(colour: int)

  function TermAt(g: Grid, t: Term, x: Pos): real
  {
    match t
    case Liberties => CountDirs(g, x, EMPTY, 4) as real
    case Weight => EvaluatePosition(x)
    case Links(c) => CountDirs(g, x, c, 4) as real
  }

  /** The sum of a per-stone quantity over a set of points. */
  ghost function SumOver(g: Grid, t: Term, cells: set<Pos>): real
    decreases cells
  {
    if cells == {} then 0.0
    else
      var x :| x in cells;
      TermAt(g, t, x) + SumOver(g, t, cells - {x})
  }

  /** The sum does not depend on the order the points are taken in. */
  lemma {:induction false} SumOverRemove(g: Grid, t: Term, cells: set<Pos>, y: Pos)
    requires y in cells
    ensures SumOver(g, t, cells) == TermAt(g, t, y) + SumOver(g, t, cells - {y})
    decreases cells
  {
    var x :| x in cells && SumOver(g, t, cells) == TermAt(g, t, x) + SumOver(g, t, cells - {x});
    if x != y {
      SumOverRemove(g, t, cells - {x}, y);
      SumOverRemove(g, t, cells - {y}, x);
      assert cells - {x} - {y} == cells - {y} - {x};
    }
  }

  /** Every per-stone quantity is a count or a weight, so its sum is never negative. */
  lemma {:induction false} SumOverNonNegative(g: Grid, t: Term, cells: set<Pos>)
    ensures SumOver(g, t, cells) >= 0.0
    decreases cells
  {
    if cells != {} {
      var x :| x in cells;
      SumOverRemove(g, t, cells, x);
      SumOverNonNegative(g, t, cells - {x});
    }
  }

  /** The five bonuses of evaluate_board. */
  datatype Bonus = Bonus(liberties: real, position: real, connectivity: real, threat: real, size: real)

  const NoBonus := Bonus(0.0, 0.0, 0.0, 0.0, 0.0)

  function Add(a: Bonus, b: Bonus): Bonus
  {
    Bonus(a.liberties + b.liberties, a.position + b.position, a.connectivity + b.connectivity,
          a.threat + b.threat, a.size + b.size)
  }

  function Total(b: Bonus): real
  {
    b.liberties + b.position + b.connectivity + b.threat + b.size
  }

  /** A quantity multiplied by the player factor: +1 for the side to move, -1 for the other side. */
  function Signed(own: bool, x: real): real
  {
    if own then x else -x
  }

  /**
   * What one group adds to the bonuses: its liberties (counted once per
   * stone and direction), the weights of its points, its same-colour links,
   * a threat when it belongs to the side not to move and has at most two
   * liberties, and its size; each multiplied by the player factor.
   */
  ghost function GroupBonus(g: Grid, group: set<Pos>, colour: int, current: Player): Bonus
  {
    var own := colour == current;
    var libs := SumOver(g, Liberties, group);
    Bonus(Signed(own, libs * 0.5),
          Signed(own, SumOver(g, Weight, group) * 0.3),
          Signed(own, 0.4 * SumOver(g, Links(colour), group)),
          if libs <= 2.0 && !own then Signed(own, 2.0) else 0.0,
          Signed(own, |group| as real * 0.2))
  }

  /** A group of the side to move never lowers the evaluation, and a group of the other side never raises it. */
  lemma GroupBonusSign(g: Grid, group: set<Pos>, colour: int, current: Player)
    ensures colour == current ==> Total(GroupBonus(g, group, colour, current)) >= 0.0
    ensures colour != current ==> Total(GroupBonus(g, group, colour, current)) <= 0.0
  {
    SumOverNonNegative(g, Liberties, group);
    SumOverNonNegative(g, Weight, group);
    SumOverNonNegative(g, Links(colour), group);
  }

  /**
   * The row-major scan of evaluate_board from (r, c) on: each stone not yet
   * covered by an earlier group starts a group whose bonus is added, and the
   * whole group is covered from then on.
   */
  ghost function EvalScan(g: Grid, current: Player, covered: set<Pos>, r: nat, c: nat): Bonus
    requires Square(g)
    decreases |g| - r, |g| - c
  {
    if r >= |g| then NoBonus
    else if c >= |g| then EvalScan(g, current, covered, r + 1, 0)
    else if At(g, (r, c)) != EMPTY && (r, c) !in covered then
      var group := Group(g, (r, c));
      Add(GroupBonus(g, group, At(g, (r, c)), current), EvalScan(g, current, covered + group, r, c + 1))
    else EvalScan(g, current, covered, r, c + 1)
  }

  /** The score difference from the point of view of the side to move. */
  function BaseScore(s: State): real
  {
    var (b, w) := Score(s);
    if s.player == BLACK then b - w else w - b
  }

  /** evaluate_board: the score difference for the side to move plus the five bonuses. */
  ghost function Evaluate(s: State): real
    requires WellFormed(s)
  {
    BaseScore(s) + Total(EvalScan(s.grid, s.player, {}, 0, 0))
  }

  /** A scan over a board without stones adds nothing. */
  lemma {:induction false} EmptyScan(g: Grid, current: Player, covered: set<Pos>, r: nat, c: nat)
    requires Square(g) && forall p :: InBounds(g, p) ==> At(g, p) == EMPTY
    ensures EvalScan(g, current, covered, r, c) == NoBonus
    decreases |g| - r, |g| - c
  {
    if r >= |g| {
    } else if c >= |g| {
      EmptyScan(g, current, covered, r + 1, 0);
    } else {
      EmptyScan(g, current, covered, r, c + 1);
    }
  }

  /** A board without stones has no territory: no region is bordered by a colour. */
  lemma NoTerritory(v: Variant, g: Grid, c: int)
    requires Square(g) && forall p :: InBounds(g, p) ==> At(g, p) == EMPTY
    ensures Territory(v, g, c) == {}
  {
    forall cells: set<Pos>
      ensures Surrounding(g, cells) == {}
    {
    }
  }

  /** On the empty board with Black to move, the evaluation is White's komi against Black. */
  lemma EvaluateInitial(v: Variant)
    ensures Evaluate(Initial(v)) == -KOMI
  {
    var s := Initial(v);
    var g := s.grid;
    EmptyScan(g, BLACK, {}, 0, 0);
    NoTerritory(v, g, BLACK);
    NoTerritory(v, g, WHITE);
  }
}
