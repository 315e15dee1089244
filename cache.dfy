/**
 * The memo table in front of the 9 by 9 board's get_group. The table is
 * keyed by the board object and the coordinates only, so an entry made on
 * one position is handed back unchanged on every later position of the same
 * board. `CachedGroup` is that lookup; a table whose every entry is still the
 * group on the current grid answers exactly like `Group`, and a stale entry
 * lets place_stone remove a group that still has a liberty.
 */
module GroupCache {
  import opened GoGrid
  import opened Flood
  import opened Captures

  /** The memo table of one board: a group per looked-up point. */
  type Cache = map<Pos, set<Pos>>

  /** Every entry is the group of its point on g. */
  ghost predicate Coherent(cache: Cache, g: Grid)
  {
    forall q :: q in cache ==> cache[q] == Group(g, q)
  }

  /**
   * get_group through the table: a stored entry is returned as it is;
   * otherwise the group is computed on g and stored.
   */
  function CachedGroup(cache: Cache, g: Grid, p: Pos): (r: (set<Pos>, Cache))
    ensures p in r.1 && r.1[p] == r.0 && r.1.Keys == cache.Keys + {p}
    ensures forall q :: q in cache ==> r.1[q] == cache[q]
    ensures p !in cache ==> r.0 == Group(g, p)
  {
    if p in cache then (cache[p], cache) else (Group(g, p), cache[p := Group(g, p)])
  }

  /** While the grid has not changed the table answers like get_group itself and stays coherent. */
  lemma CachedGroupCoherent(cache: Cache, g: Grid, p: Pos)
    requires Coherent(cache, g)
    ensures CachedGroup(cache, g, p).0 == Group(g, p)
    ensures Coherent(CachedGroup(cache, g, p).1, g)
  {
  }

  /**
   * place_stone's test of the neighbour in direction k with the table in
   * front of get_group: the group the table returns, when it is an enemy
   * stone whose returned group has no liberty on g.
   */
  function DeadAtCached(cache: Cache, g: Grid, p: Pos, enemy: Player, k: nat): (r: (set<Pos>, Cache))
    requires k < 4
    ensures r.0 != {} ==> Nbrs(p)[k] in r.1 && r.0 == r.1[Nbrs(p)[k]] && !HasLiberty(g, r.0)
    ensures forall q :: q in cache ==> q in r.1 && r.1[q] == cache[q]
  {
    var a := Nbrs(p)[k];
    if InBounds(g, a) && At(g, a) == enemy then
      var (group, cache') := CachedGroup(cache, g, a);
      (if !HasLiberty(g, group) then group else {}, cache')
    else ({}, cache)
  }

  /** With a coherent table the cached test removes exactly the groups DeadAt removes. */
  lemma DeadAtCachedCoherent(cache: Cache, g: Grid, p: Pos, enemy: Player, k: nat)
    requires k < 4 && Coherent(cache, g)
    ensures DeadAtCached(cache, g, p, enemy, k).0 == DeadAt(g, p, enemy, k)
    ensures Coherent(DeadAtCached(cache, g, p, enemy, k).1, g)
  {
    var a := Nbrs(p)[k];
    if InBounds(g, a) && At(g, a) == enemy {
      CachedGroupCoherent(cache, g, a);
    }
  }

  /**
   * The game Black (0,0), White (8,8), Black (0,1), White (1,0) on the 9 by 9
   * board. place_stone looks up the group of each stone it places, so the
   * table keeps {(0,0)} for (0,0) after (0,1) joins it. When White plays
   * (1,0), the test of its upward neighbour (0,0) gets the stale {(0,0)},
   * which has no liberty, and removes the black stone; yet the real group of
   * (0,0) is {(0,0), (0,1)}, which has the liberty (0,2), and DeadAt removes
   * nothing.
   */
  lemma StaleGroupCapture()
    ensures var g1 := SetCell(EmptyGrid(SMALL_SIZE), (0, 0), BLACK);
            var c1 := CachedGroup(map[], g1, (0, 0)).1;
            var g2 := SetCell(g1, (8, 8), WHITE);
            var c2 := CachedGroup(c1, g2, (8, 8)).1;
            var g3 := SetCell(g2, (0, 1), BLACK);
            var c3 := CachedGroup(c2, g3, (0, 1)).1;
            var g4 := SetCell(g3, (1, 0), WHITE);
            DeadAtCached(c3, g4, (1, 0), BLACK, 3).0 == {(0, 0)}
            && (0, 1) in Group(g4, (0, 0)) && HasLiberty(g4, Group(g4, (0, 0)))
            && DeadAt(g4, (1, 0), BLACK, 3) == {}
  {
    var g1 := SetCell(EmptyGrid(SMALL_SIZE), (0, 0), BLACK);
    var c1 := CachedGroup(map[], g1, (0, 0)).1;
    var g2 := SetCell(g1, (8, 8), WHITE);
    var c2 := CachedGroup(c1, g2, (8, 8)).1;
    var g3 := SetCell(g2, (0, 1), BLACK);
    var c3 := CachedGroup(c2, g3, (0, 1)).1;
    var g4 := SetCell(g3, (1, 0), WHITE);
    GroupSpec(g1, (0, 0));
    assert Group(g1, (0, 0)) == {(0, 0)};
    assert c3[(0, 0)] == {(0, 0)};
    assert !HasLiberty(g4, {(0, 0)});
    GroupSpec(g4, (0, 0));
    assert Adj((0, 0), (0, 1));
    assert (0, 2) in Nbrs((0, 1)) && At(g4, (0, 2)) == EMPTY;
  }
}
