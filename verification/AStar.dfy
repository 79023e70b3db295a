/** Grid path search with a lazily cleaned open list, and its optimality. */
module AStar {
  import opened Division
  import opened Grid
  import opened Dungeon

  /** An open-list entry: a cell and its estimated total cost when it was pushed. */
  datatype Node = Node(cell: Coord, f: int)

  /** std::numeric_limits<float>::max(): the cost of a cell not reached yet. */
  const UNREACHED: int := 340282346638528859811704183484516925440

  /** Moves from `a` to `b` through floor cells; only the first cell may be anything. */
  ghost predicate Trail(floor: set<Coord>, q: seq<Coord>, a: Coord, b: Coord) {
    && q != [] && q[0] == a && q[|q| - 1] == b
    && (forall i :: 0 < i < |q| ==> q[i] in floor)
    && (forall i :: 0 < i < |q| ==> Adjacent(q[i - 1], q[i]))
  }

  // ---------------------------------------------------------------- the state of a search

  ghost predicate Queued(goal: Coord, cost: map<Coord, int>, open: multiset<Node>, c: Coord)
    requires c in cost
  {
    Node(c, cost[c] + Manhattan(c, goal)) in open
  }

  /** Every floor neighbour of `c` has been offered a move from `c`. */
  ghost predicate Expanded(floor: set<Coord>, cost: map<Coord, int>, c: Coord)
    requires c in cost
  {
    forall d :: d in floor && Adjacent(c, d) ==> d in cost && cost[d] <= cost[c] + 1
  }

  /** Costs are those of real moves: a cell's cost exceeds its parent's, and the parent is next to it. */
  ghost predicate CostsBacked(floor: set<Coord>, start: Coord, cost: map<Coord, int>, parent: map<Coord, Coord>) {
    && start in cost && cost[start] == 0
    && (forall c :: c in cost ==> 0 <= cost[c] < |cost| && (c == start || c in floor))
    && (forall c {:trigger HasParent(cost, parent, c)} :: c in cost && c != start ==> HasParent(cost, parent, c))
  }

  ghost predicate HasParent(cost: map<Coord, int>, parent: map<Coord, Coord>, c: Coord)
    requires c in cost
  {
    c in parent && parent[c] in cost && Adjacent(parent[c], c) && cost[c] >= cost[parent[c]] + 1
  }

  /** Open entries never undercut the current cost of their cell. */
  ghost predicate EntriesFair(goal: Coord, cost: map<Coord, int>, open: multiset<Node>) {
    forall n :: n in open ==> n.cell in cost && n.f >= cost[n.cell] + Manhattan(n.cell, goal)
  }

  /** Every reached cell other than `busy` was expanded at its current cost or waits in the open list with it. */
  ghost predicate Settled(floor: set<Coord>, goal: Coord, cost: map<Coord, int>, open: multiset<Node>,
                          busy: set<Coord>) {
    forall c {:trigger Expanded(floor, cost, c)} {:trigger Queued(goal, cost, open, c)} ::
      c in cost && c !in busy ==> Expanded(floor, cost, c) || Queued(goal, cost, open, c)
  }

  /** The search invariant. */
  ghost predicate Searching(floor: set<Coord>, start: Coord, goal: Coord, cost: map<Coord, int>,
                            parent: map<Coord, Coord>, open: multiset<Node>, busy: set<Coord>)
  {
    CostsBacked(floor, start, cost, parent) && EntriesFair(goal, cost, open) && Settled(floor, goal, cost, open, busy)
  }

  lemma RelaxCosts(floor: set<Coord>, start: Coord, cost: map<Coord, int>, parent: map<Coord, Coord>, c: Coord,
                   d: Coord)
    requires CostsBacked(floor, start, cost, parent)
    requires c in cost && d in floor && Adjacent(c, d) && (d in cost ==> cost[c] + 1 < cost[d])
    ensures CostsBacked(floor, start, cost[d := cost[c] + 1], parent[d := c])
  {
    var cost' := cost[d := cost[c] + 1];
    assert cost'.Keys == cost.Keys + {d};
    assert |cost'| == if d in cost then |cost| else |cost| + 1;
    forall e | e in cost' && e != start ensures HasParent(cost', parent[d := c], e) {
      if e != d {
        assert HasParent(cost, parent, e);
      }
    }
  }

  lemma RelaxExpanded(floor: set<Coord>, cost: map<Coord, int>, d: Coord, n: int, e: Coord)
    requires e in cost && e != d && Expanded(floor, cost, e) && (d in cost ==> n < cost[d])
    ensures Expanded(floor, cost[d := n], e)
  {
  }

  lemma RelaxSettled(floor: set<Coord>, goal: Coord, cost: map<Coord, int>, open: multiset<Node>, busy: set<Coord>,
                     d: Coord, n: int)
    requires Settled(floor, goal, cost, open, busy) && EntriesFair(goal, cost, open) && (d in cost ==> n < cost[d])
    ensures var open' := open + multiset{Node(d, n + Manhattan(d, goal))};
            Settled(floor, goal, cost[d := n], open', busy) && EntriesFair(goal, cost[d := n], open')
  {
    var cost', open' := cost[d := n], open + multiset{Node(d, n + Manhattan(d, goal))};
    forall e | e in cost' && e !in busy ensures Expanded(floor, cost', e) || Queued(goal, cost', open', e) {
      if e != d && Expanded(floor, cost, e) {
        RelaxExpanded(floor, cost, d, n, e);
      }
    }
  }

  /** A cheaper move from `c` to `d` is recorded and `d` is queued at its new cost. */
  lemma Relax(floor: set<Coord>, start: Coord, goal: Coord, cost: map<Coord, int>, parent: map<Coord, Coord>,
              open: multiset<Node>, c: Coord, d: Coord)
    requires Searching(floor, start, goal, cost, parent, open, {c})
    requires c in cost && d in floor && Adjacent(c, d) && (d in cost ==> cost[c] + 1 < cost[d])
    ensures var n := cost[c] + 1;
            Searching(floor, start, goal, cost[d := n], parent[d := c],
                      open + multiset{Node(d, n + Manhattan(d, goal))}, {c})
  {
    RelaxCosts(floor, start, cost, parent, c, d);
    RelaxSettled(floor, goal, cost, open, {c}, d, cost[c] + 1);
  }

  // ---------------------------------------------------------------- why the first goal entry is enough

  lemma {:induction false} EstimateAdmissible(floor: set<Coord>, q: seq<Coord>, a: Coord, b: Coord, i: nat)
    requires Trail(floor, q, a, b) && i < |q|
    ensures Manhattan(q[i], b) <= |q| - 1 - i
    decreases |q| - i
  {
    if i + 1 < |q| {
      EstimateAdmissible(floor, q, a, b, i + 1);
      assert Adjacent(q[i], q[i + 1]);
    }
  }

  /**
   * Along any trail, either all cells up to `i` are reached cheaply enough, or one of them still waits in the open
   * list.
   */
  lemma {:induction false} TrailFrontier(floor: set<Coord>, start: Coord, goal: Coord, cost: map<Coord, int>,
                                         parent: map<Coord, Coord>, open: multiset<Node>, q: seq<Coord>, i: nat)
    requires Searching(floor, start, goal, cost, parent, open, {}) && Trail(floor, q, start, goal) && i < |q|
    ensures (q[i] in cost && cost[q[i]] <= i) || exists n :: n in open && n.f <= |q| - 1
  {
    if i > 0 {
      TrailFrontier(floor, start, goal, cost, parent, open, q, i - 1);
      var c := q[i - 1];
      assert Adjacent(c, q[i]);
      if c in cost && cost[c] <= i - 1 && !Expanded(floor, cost, c) {
        EstimateAdmissible(floor, q, start, goal, i - 1);
        var waiting := Node(c, cost[c] + Manhattan(c, goal));
        assert waiting in open && waiting.f <= |q| - 1;
      }
    }
  }

  /** When the least open entry is the goal's, or none is left, the goal's cost is at most the length of any trail. */
  lemma GoalCostMinimal(floor: set<Coord>, start: Coord, goal: Coord, cost: map<Coord, int>,
                        parent: map<Coord, Coord>, open: multiset<Node>, q: seq<Coord>)
    requires Searching(floor, start, goal, cost, parent, open, {}) && Trail(floor, q, start, goal)
    requires || open == multiset{}
             || exists top :: top in open && top.cell == goal && forall n :: n in open ==> top.f <= n.f
    ensures goal in cost && cost[goal] <= |q| - 1
  {
    TrailFrontier(floor, start, goal, cost, parent, open, q, |q| - 1);
  }

  // ---------------------------------------------------------------- the tables of the search

  function Idx(w: nat, c: Coord): int {
    c.y * w + c.x
  }

  function CellAt(w: nat, i: int): Coord
    requires w > 0
  {
    Coord(i % w, i / w)
  }

  lemma IdxInRange(w: nat, h: nat, c: Coord)
    requires InRange(w, h, c)
    ensures 0 <= Idx(w, c) < w * h
  {
    assert c.y * w <= (h - 1) * w;
    assert (h - 1) * w == h * w - w;
  }

  lemma CellAtIdx(w: nat, h: nat, c: Coord)
    requires InRange(w, h, c)
    ensures CellAt(w, Idx(w, c)) == c
  {
    DivModUnique(Idx(w, c), w, c.y, c.x);
  }

  lemma IdxInjective(w: nat, h: nat, c: Coord, d: Coord)
    requires InRange(w, h, c) && InRange(w, h, d) && Idx(w, c) == Idx(w, d)
    ensures c == d
  {
    CellAtIdx(w, h, c);
    CellAtIdx(w, h, d);
  }

  /** The cost and parent tables, indexed by y * w + x, hold the maps the invariant speaks of. */
  ghost predicate Tables(w: nat, h: nat, g: seq<int>, parents: seq<int>, cost: map<Coord, int>,
                         parent: map<Coord, Coord>) {
    && |g| == |parents|
    && (forall c {:trigger CostEntry(w, g, cost, c)} :: InRange(w, h, c) ==> CostEntry(w, g, cost, c))
    && (forall c {:trigger ParentEntry(w, h, parents, parent, c)} :: InRange(w, h, c) && c in parent ==>
          ParentEntry(w, h, parents, parent, c))
    && (forall c :: c in cost ==> InRange(w, h, c))
  }

  ghost predicate CostEntry(w: nat, g: seq<int>, cost: map<Coord, int>, c: Coord) {
    0 <= Idx(w, c) < |g| && g[Idx(w, c)] == if c in cost then cost[c] else UNREACHED
  }

  ghost predicate ParentEntry(w: nat, h: nat, parents: seq<int>, parent: map<Coord, Coord>, c: Coord)
    requires c in parent
  {
    InRange(w, h, parent[c]) && 0 <= Idx(w, c) < |parents| && parents[Idx(w, c)] == Idx(w, parent[c])
  }

  lemma TablesUpdate(w: nat, h: nat, g: seq<int>, parents: seq<int>, cost: map<Coord, int>, parent: map<Coord, Coord>,
                     c: Coord, d: Coord, n: int)
    requires Tables(w, h, g, parents, cost, parent) && InRange(w, h, c) && InRange(w, h, d)
    ensures 0 <= Idx(w, d) < |g|
    ensures Tables(w, h, g[Idx(w, d) := n], parents[Idx(w, d) := Idx(w, c)], cost[d := n], parent[d := c])
  {
    assert CostEntry(w, g, cost, d);
    forall e | InRange(w, h, e) && Idx(w, e) == Idx(w, d) ensures e == d {
      IdxInjective(w, h, e, d);
    }
    forall e | InRange(w, h, e) ensures CostEntry(w, g[Idx(w, d) := n], cost[d := n], e) {
      assert CostEntry(w, g, cost, e);
    }
    forall e | InRange(w, h, e) && e in parent && e != d
      ensures ParentEntry(w, h, parents[Idx(w, d) := Idx(w, c)], parent[d := c], e)
    {
      assert ParentEntry(w, h, parents, parent, e);
    }
  }

  /** Sum of the non-negative entries: it falls whenever a cost is lowered. */
  ghost function Total(g: seq<int>): nat {
    if g == [] then 0 else Total(g[1..]) + if g[0] < 0 then 0 else g[0]
  }

  lemma {:induction false} TotalFalls(g: seq<int>, i: nat, n: int)
    requires i < |g| && 0 <= n < g[i]
    ensures Total(g[i := n]) < Total(g)
  {
    if i > 0 {
      assert g[i := n][1..] == g[1..][i - 1 := n];
      TotalFalls(g[1..], i - 1, n);
    } else {
      assert g[i := n][1..] == g[1..];
    }
  }

  ghost function Column(x: int, h: nat): (s: set<Coord>)
    ensures forall c: Coord :: c in s <==> c.x == x && 0 <= c.y < h
    ensures |s| == h
  {
    if h == 0 then {} else Column(x, h - 1) + {Coord(x, h - 1)}
  }

  lemma {:induction false} SubsetSize(a: set<Coord>, b: set<Coord>)
    requires a <= b
    ensures |a| <= |b|
  {
    if a != {} {
      var c :| c in a;
      SubsetSize(a - {c}, b - {c});
    }
  }

  /** A map of w by h cells holds at most w * h different cells. */
  lemma {:induction false} CellSetSize(w: nat, h: nat, cells: set<Coord>)
    requires forall c :: c in cells ==> InRange(w, h, c)
    ensures |cells| <= w * h
  {
    if w == 0 {
      assert cells == {};
    } else {
      var left := set c | c in cells && c.x < w - 1;
      CellSetSize(w - 1, h, left);
      SubsetSize(cells - left, Column(w - 1, h));
      assert cells == left + (cells - left);
      assert w * h == (w - 1) * h + h;
    }
  }

  /** Costs stay below the number of cells, hence far below the value that marks an unreached cell. */
  lemma CostsSmall(w: nat, h: nat, floor: set<Coord>, start: Coord, cost: map<Coord, int>, parent: map<Coord, Coord>)
    requires CostsBacked(floor, start, cost, parent) && forall c :: c in cost ==> InRange(w, h, c)
    ensures forall c :: c in cost ==> cost[c] < w * h
  {
    CellSetSize(w, h, cost.Keys);
    assert |cost.Keys| == |cost|;
  }

  lemma {:induction false} LeastEntryExists(open: multiset<Node>)
    requires open != multiset{}
    ensures exists top :: top in open && forall n :: n in open ==> top.f <= n.f
  {
    var top := LeastEntry(open);
  }

  lemma {:induction false} LeastEntry(open: multiset<Node>) returns (top: Node)
    requires open != multiset{}
    ensures top in open && forall n :: n in open ==> top.f <= n.f
    decreases |open|
  {
    var any :| any in open;
    var rest := open - multiset{any};
    assert forall n :: n in open ==> n == any || n in rest;
    top := any;
    if rest != multiset{} {
      var other := LeastEntry(rest);
      if other.f < any.f { top := other; }
    }
  }

  // ---------------------------------------------------------------- the search

  /** The four directions in the order they are tried. */
  function Neighbour(c: Coord, i: nat): Coord
    requires i < 4
  {
    if i == 0 then Coord(c.x, c.y + 1)
    else if i == 1 then Coord(c.x, c.y - 1)
    else if i == 2 then Coord(c.x + 1, c.y)
    else Coord(c.x - 1, c.y)
  }

  ghost predicate Offered(floor: set<Coord>, cost: map<Coord, int>, d: Coord, n: int) {
    d in floor ==> d in cost && cost[d] <= n
  }

  lemma NeighboursAreAdjacent(c: Coord)
    ensures forall i: nat :: i < 4 ==> Adjacent(c, Neighbour(c, i))
    ensures forall d :: Adjacent(c, d) ==>
      d == Neighbour(c, 0) || d == Neighbour(c, 1) || d == Neighbour(c, 2) || d == Neighbour(c, 3)
  {
  }

  /** `cost'` reaches all that `cost` reaches, no dearer. */
  ghost predicate Cheaper(cost: map<Coord, int>, cost': map<Coord, int>) {
    forall e :: e in cost ==> e in cost' && cost'[e] <= cost[e]
  }

  /** The tables and the maps they hold satisfy the search invariant. */
  ghost predicate SearchState(w: nat, h: nat, floor: set<Coord>, start: Coord, goal: Coord,
                              g: seq<int>, parents: seq<int>, open: multiset<Node>,
                              cost: map<Coord, int>, parent: map<Coord, Coord>, busy: set<Coord>)
  {
    && Tables(w, h, g, parents, cost, parent)
    && Searching(floor, start, goal, cost, parent, open, busy)
    && (forall c :: c in cost ==> cost[c] < w * h < UNREACHED)
  }

  /** The same, on the floor of a dungeon. */
  ghost predicate StateOf(dungeon: DungeonGenerator, start: Coord, goal: Coord, g: seq<int>, parents: seq<int>,
                          open: multiset<Node>, cost: map<Coord, int>, parent: map<Coord, Coord>, busy: set<Coord>)
    reads dungeon.grid
  {
    SearchState(dungeon.grid.Length0, dungeon.grid.Length1, dungeon.Floor(), start, goal,
                g, parents, open, cost, parent, busy)
  }

  lemma OfferTaken(w: nat, h: nat, floor: set<Coord>, start: Coord, goal: Coord, g: seq<int>, parents: seq<int>,
                   open: multiset<Node>, cost: map<Coord, int>, parent: map<Coord, Coord>, c: Coord, d: Coord, n: int,
                   g': seq<int>, parents': seq<int>, open': multiset<Node>)
    requires SearchState(w, h, floor, start, goal, g, parents, open, cost, parent, {c})
    requires c in cost && n == cost[c] + 1
    requires d in floor && InRange(w, h, d) && Adjacent(c, d) && (d in cost ==> n < cost[d])
    requires 0 <= Idx(w, d) < |g| && g' == g[Idx(w, d) := n]
    requires Idx(w, d) < |parents| && parents' == parents[Idx(w, d) := Idx(w, c)]
    requires open' == open + multiset{Node(d, n + Manhattan(d, goal))}
    ensures SearchState(w, h, floor, start, goal, g', parents', open', cost[d := n], parent[d := c], {c})
    ensures Cheaper(cost, cost[d := n]) && Total(g') < Total(g)
  {
    assert CostEntry(w, g, cost, d);
    Relax(floor, start, goal, cost, parent, open, c, d);
    TablesUpdate(w, h, g, parents, cost, parent, c, d, n);
    CostsSmall(w, h, floor, start, cost[d := n], parent[d := c]);
    TotalFalls(g, Idx(w, d), n);
  }

  /** Offers a move from `c` to one neighbour; records it when it is the cheapest so far. */
  method Offer(dungeon: DungeonGenerator, ghost start: Coord, goal: Coord, c: Coord, d: Coord,
               g: seq<int>, parents: seq<int>, open: multiset<Node>,
               ghost cost: map<Coord, int>, ghost parent: map<Coord, Coord>)
    returns (g': seq<int>, parents': seq<int>, open': multiset<Node>,
             ghost cost': map<Coord, int>, ghost parent': map<Coord, Coord>)
    requires StateOf(dungeon, start, goal, g, parents, open, cost, parent, {c})
    requires c in cost && Adjacent(c, d)
    ensures StateOf(dungeon, start, goal, g', parents', open', cost', parent', {c})
    ensures Offered(dungeon.Floor(), cost', d, cost[c] + 1)
    ensures Cheaper(cost, cost') && c in cost' && cost'[c] == cost[c]
    ensures Total(g') < Total(g) || (g' == g && open' == open)
  {
    var w, h := dungeon.grid.Length0, dungeon.grid.Length1;
    g', parents', open', cost', parent' := g, parents, open, cost, parent;
    if InRange(w, h, d) && dungeon.GetTile(d.x, d.y) == 0 {
      assert CostEntry(w, g, cost, c) && CostEntry(w, g, cost, d);
      var ng := g[Idx(w, c)] + 1;
      if ng < g[Idx(w, d)] {
        g' := g[Idx(w, d) := ng];
        parents' := parents[Idx(w, d) := Idx(w, c)];
        open' := open + multiset{Node(d, ng + Manhattan(d, goal))};
        OfferTaken(w, h, dungeon.Floor(), start, goal, g, parents, open, cost, parent, c, d, ng, g', parents', open');
        cost', parent' := cost[d := ng], parent[d := c];
      }
    }
  }

  lemma OfferedKept(floor: set<Coord>, cost: map<Coord, int>, cost': map<Coord, int>, c: Coord, n: int, i: nat)
    requires i < 4 && Cheaper(cost, cost') && Offered(floor, cost', Neighbour(c, i), n)
    requires forall k: nat {:trigger Neighbour(c, k)} :: k < i ==> Offered(floor, cost, Neighbour(c, k), n)
    ensures forall k: nat {:trigger Neighbour(c, k)} :: k < i + 1 ==> Offered(floor, cost', Neighbour(c, k), n)
  {
  }

  lemma AllOfferedExpands(floor: set<Coord>, cost: map<Coord, int>, c: Coord)
    requires c in cost
    requires forall k: nat {:trigger Neighbour(c, k)} :: k < 4 ==> Offered(floor, cost, Neighbour(c, k), cost[c] + 1)
    ensures Expanded(floor, cost, c)
  {
    NeighboursAreAdjacent(c);
  }

  /** Expands a cell taken from the open list: all four neighbours are offered a move. */
  method Expand(dungeon: DungeonGenerator, ghost start: Coord, goal: Coord, c: Coord, g: seq<int>, parents: seq<int>,
                open: multiset<Node>, ghost cost: map<Coord, int>, ghost parent: map<Coord, Coord>)
    returns (g': seq<int>, parents': seq<int>, open': multiset<Node>,
             ghost cost': map<Coord, int>, ghost parent': map<Coord, Coord>)
    requires StateOf(dungeon, start, goal, g, parents, open, cost, parent, {c})
    requires c in cost
    ensures StateOf(dungeon, start, goal, g', parents', open', cost', parent', {})
    ensures c in cost' && cost'[c] == cost[c] && Expanded(dungeon.Floor(), cost', c)
    ensures Total(g') < Total(g) || (g' == g && open' == open)
  {
    g', parents', open', cost', parent' := g, parents, open, cost, parent;
    for i := 0 to 4
      invariant StateOf(dungeon, start, goal, g', parents', open', cost', parent', {c})
      invariant c in cost' && cost'[c] == cost[c]
      invariant forall k: nat {:trigger Neighbour(c, k)} :: k < i ==>
                Offered(dungeon.Floor(), cost', Neighbour(c, k), cost[c] + 1)
      invariant Total(g') < Total(g) || (g' == g && open' == open)
    {
      ghost var before := cost';
      NeighboursAreAdjacent(c);
      g', parents', open', cost', parent' :=
        Offer(dungeon, start, goal, c, Neighbour(c, i), g', parents', open', cost', parent');
      OfferedKept(dungeon.Floor(), before, cost', c, cost[c] + 1, i);
    }
    AllOfferedExpands(dungeon.Floor(), cost', c);
  }

  // ---------------------------------------------------------------- reading the path back

  /** `path` leads backwards from the goal to a neighbour of `c`, each parent cheaper than its child. */
  ghost predicate BackTrail(floor: set<Coord>, goal: Coord, cost: map<Coord, int>, path: seq<Coord>, c: Coord) {
    && c in cost && goal in cost && |path| + cost[c] <= cost[goal]
    && (forall k :: 0 <= k < |path| ==> path[k] in floor)
    && (forall k :: 0 < k < |path| ==> Adjacent(path[k - 1], path[k]))
    && (if path == [] then c == goal else path[0] == goal && Adjacent(path[|path| - 1], c))
  }

  function Reversed(path: seq<Coord>): (r: seq<Coord>)
    ensures |r| == |path| && forall k :: 0 <= k < |r| ==> r[k] == path[|path| - 1 - k]
  {
    seq(|path|, k requires 0 <= k < |path| => path[|path| - 1 - k])
  }

  lemma BackTrailStep(floor: set<Coord>, start: Coord, goal: Coord, cost: map<Coord, int>, parent: map<Coord, Coord>,
                      path: seq<Coord>, c: Coord)
    requires CostsBacked(floor, start, cost, parent) && BackTrail(floor, goal, cost, path, c) && c != start
    ensures c in parent && parent[c] in cost && cost[parent[c]] < cost[c]
    ensures BackTrail(floor, goal, cost, path + [c], parent[c])
  {
    assert HasParent(cost, parent, c);
    var path' := path + [c];
    forall k | 0 < k < |path'| ensures Adjacent(path'[k - 1], path'[k]) {
      assert k < |path| ==> path'[k] == path[k];
    }
  }

  /** What was walked, turned around, is a trail; if the goal's cost is minimal, of exactly that length. */
  lemma BackTrailDone(floor: set<Coord>, start: Coord, goal: Coord, cost: map<Coord, int>, path: seq<Coord>)
    requires BackTrail(floor, goal, cost, path, start) && start != goal && start in cost && cost[start] == 0
    ensures path != [] && |path| <= cost[goal] && Trail(floor, [start] + Reversed(path), start, goal)
    ensures GoalMinimal(floor, start, goal, cost) ==> |path| == cost[goal]
  {
    var q := [start] + Reversed(path);
    assert Trail(floor, q, start, goal) && |q| == |path| + 1;
  }

  method WalkBack(w: nat, h: nat, ghost floor: set<Coord>, start: Coord, goal: Coord, g: seq<int>, parents: seq<int>,
                  ghost cost: map<Coord, int>, ghost parent: map<Coord, Coord>)
    returns (path: seq<Coord>)
    requires Tables(w, h, g, parents, cost, parent) && CostsBacked(floor, start, cost, parent)
    requires goal in cost && start != goal
    ensures path != [] && |path| <= cost[goal] && Trail(floor, [start] + path, start, goal)
    ensures GoalMinimal(floor, start, goal, cost) ==> |path| == cost[goal]
  {
    path := [];
    var cur := Idx(w, goal);
    ghost var c := goal;
    while cur != Idx(w, start)
      invariant c in cost && InRange(w, h, c) && cur == Idx(w, c)
      invariant BackTrail(floor, goal, cost, path, c)
      decreases cost[c]
    {
      // The parent of a reached cell other than the start is always set, so cur is never -1.
      CellAtIdx(w, h, c);
      assert HasParent(cost, parent, c) && ParentEntry(w, h, parents, parent, c);
      BackTrailStep(floor, start, goal, cost, parent, path, c);
      path := path + [CellAt(w, cur)];
      cur := parents[cur];
      c := parent[c];
    }
    IdxInjective(w, h, c, start);
    BackTrailDone(floor, start, goal, cost, path);
    path := Reversed(path);
  }

  // ---------------------------------------------------------------- AStarSearch

  /** No trail to the goal is shorter than the goal's cost, and a goal with a trail has been reached. */
  ghost predicate GoalMinimal(floor: set<Coord>, start: Coord, goal: Coord, cost: map<Coord, int>) {
    forall q :: Trail(floor, q, start, goal) ==> goal in cost && cost[goal] <= |q| - 1
  }

  lemma SearchStart(w: nat, h: nat, floor: set<Coord>, start: Coord, goal: Coord)
    requires InRange(w, h, start) && w * h < UNREACHED
    ensures 0 <= Idx(w, start) < w * h
    ensures SearchState(w, h, floor, start, goal, seq(w * h, i => UNREACHED)[Idx(w, start) := 0], seq(w * h, i => -1),
                        multiset{Node(start, Manhattan(start, goal))}, map[start := 0], map[], {})
  {
    IdxInRange(w, h, start);
    var g := seq(w * h, i => UNREACHED)[Idx(w, start) := 0];
    var cost := map[start := 0];
    forall c | InRange(w, h, c) ensures CostEntry(w, g, cost, c) {
      IdxInRange(w, h, c);
      if Idx(w, c) == Idx(w, start) { IdxInjective(w, h, c, start); }
    }
    var parent: map<Coord, Coord> := map[];
    assert CostsBacked(floor, start, cost, parent);
    assert Settled(floor, goal, cost, multiset{Node(start, Manhattan(start, goal))}, {});
  }

  /** Taking an out-of-date entry off the open list loses nothing. */
  lemma DropStale(floor: set<Coord>, start: Coord, goal: Coord, cost: map<Coord, int>, parent: map<Coord, Coord>,
                  open: multiset<Node>, top: Node)
    requires Searching(floor, start, goal, cost, parent, open, {}) && top in open
    requires top.f - Manhattan(top.cell, goal) > cost[top.cell]
    ensures Searching(floor, start, goal, cost, parent, open - multiset{top}, {})
  {
  }

  lemma TakeEntry(floor: set<Coord>, start: Coord, goal: Coord, cost: map<Coord, int>, parent: map<Coord, Coord>,
                  open: multiset<Node>, top: Node)
    requires Searching(floor, start, goal, cost, parent, open, {}) && top in open
    ensures top.cell in cost && Searching(floor, start, goal, cost, parent, open - multiset{top}, {top.cell})
  {
  }

  lemma SearchOver(floor: set<Coord>, start: Coord, goal: Coord, cost: map<Coord, int>, parent: map<Coord, Coord>,
                   open: multiset<Node>)
    requires Searching(floor, start, goal, cost, parent, open, {})
    requires || open == multiset{}
             || exists top :: top in open && top.cell == goal && forall n :: n in open ==> top.f <= n.f
    ensures GoalMinimal(floor, start, goal, cost)
  {
    forall q | Trail(floor, q, start, goal) ensures goal in cost && cost[goal] <= |q| - 1 {
      GoalCostMinimal(floor, start, goal, cost, parent, open, q);
    }
  }

  /** The search loop: ends because every round lowers a cost or shortens the open list. */
  method Search(dungeon: DungeonGenerator, start: Coord, goal: Coord)
    returns (g: seq<int>, parents: seq<int>, ghost cost: map<Coord, int>, ghost parent: map<Coord, Coord>)
    requires InRange(dungeon.grid.Length0, dungeon.grid.Length1, start)
    requires dungeon.grid.Length0 * dungeon.grid.Length1 <= 0x7fff_ffff
    ensures Tables(dungeon.grid.Length0, dungeon.grid.Length1, g, parents, cost, parent)
    ensures CostsBacked(dungeon.Floor(), start, cost, parent)
    ensures forall c :: c in cost ==> cost[c] < UNREACHED
    ensures GoalMinimal(dungeon.Floor(), start, goal, cost)
    ensures InRange(dungeon.grid.Length0, dungeon.grid.Length1, goal) ==>
              && 0 <= Idx(dungeon.grid.Length0, goal) < |g|
              && forall q :: Trail(dungeon.Floor(), q, start, goal) ==> g[Idx(dungeon.grid.Length0, goal)] <= |q| - 1
  {
    var w, h := dungeon.grid.Length0, dungeon.grid.Length1;
    ghost var floor := dungeon.Floor();
    SearchStart(w, h, floor, start, goal);
    g := seq(w * h, i => UNREACHED)[Idx(w, start) := 0];
    parents := seq(w * h, i => -1);
    var open := multiset{Node(start, Manhattan(start, goal))};
    cost, parent := map[start := 0], map[];
    while open != multiset{}
      invariant SearchState(w, h, floor, start, goal, g, parents, open, cost, parent, {})
      decreases Total(g), |open|
    {
      LeastEntryExists(open);
      var top :| top in open && forall n :: n in open ==> top.f <= n.f;
      if top.cell == goal {
        SearchOver(floor, start, goal, cost, parent, open);
        GoalEntry(w, h, g, parents, cost, parent, goal);
        return;
      }
      assert CostEntry(w, g, cost, top.cell);
      if top.f - Manhattan(top.cell, goal) > g[Idx(w, top.cell)] {
        DropStale(floor, start, goal, cost, parent, open, top);
        open := open - multiset{top};
      } else {
        TakeEntry(floor, start, goal, cost, parent, open, top);
        open := open - multiset{top};
        g, parents, open, cost, parent := Expand(dungeon, start, goal, top.cell, g, parents, open, cost, parent);
      }
    }
    SearchOver(floor, start, goal, cost, parent, open);
    GoalEntry(w, h, g, parents, cost, parent, goal);
  }

  lemma GoalEntry(w: nat, h: nat, g: seq<int>, parents: seq<int>, cost: map<Coord, int>, parent: map<Coord, Coord>,
                  goal: Coord)
    requires Tables(w, h, g, parents, cost, parent)
    ensures InRange(w, h, goal) ==> 0 <= Idx(w, goal) < |g| && (goal in cost ==> g[Idx(w, goal)] == cost[goal])
  {
    if InRange(w, h, goal) {
      IdxInRange(w, h, goal);
      assert CostEntry(w, g, cost, goal);
    }
  }

  /**
   * A shortest way through the floor from one cell to another, without the first cell. Empty for an end outside the
   * map, a goal that is not floor, equal ends, and exactly the goals that cannot be reached.
   */
  method AStarSearch(dungeon: DungeonGenerator, sx: int, sy: int, gx: int, gy: int) returns (path: seq<Coord>)
    requires dungeon.grid.Length0 * dungeon.grid.Length1 <= 0x7fff_ffff
    ensures var start, goal := Coord(sx, sy), Coord(gx, gy);
            if !InRange(dungeon.grid.Length0, dungeon.grid.Length1, start) || goal !in dungeon.Floor() ||
               start == goal then path == []
            else if path == [] then
              forall q :: !Trail(dungeon.Floor(), q, start, goal)
            else
              && Trail(dungeon.Floor(), [start] + path, start, goal)
              && forall q :: Trail(dungeon.Floor(), q, start, goal) ==> |path| <= |q| - 1
  {
    var w, h := dungeon.grid.Length0, dungeon.grid.Length1;
    var start, goal := Coord(sx, sy), Coord(gx, gy);
    path := [];
    if !InRange(w, h, start) || !InRange(w, h, goal) || dungeon.GetTile(gx, gy) != 0 || start == goal {
      return;
    }
    var g, parents; ghost var cost, parent;
    g, parents, cost, parent := Search(dungeon, start, goal);
    assert CostEntry(w, g, cost, goal);
    if g[Idx(w, goal)] == UNREACHED {
      return;
    }
    path := WalkBack(w, h, dungeon.Floor(), start, goal, g, parents, cost, parent);
  }

  // ---------------------------------------------------------------- on a processed dungeon

  /** Between two different cells of one piece of floor there is a trail. */
  lemma ConnectedGivesTrail(floor: set<Coord>, a: Coord, b: Coord)
    requires Connected(floor, a, b)
    ensures exists q :: Trail(floor, q, a, b)
  {
    var p :| WalkFromTo(floor, p, a, b);
    assert Trail(floor, p, a, b);
  }

  /** After ProcessMap every search between two different floor cells finds a path. */
  method SearchProcessed(dungeon: DungeonGenerator, sx: int, sy: int, gx: int, gy: int) returns (path: seq<Coord>)
    requires dungeon.grid.Length0 * dungeon.grid.Length1 <= 0x7fff_ffff
    modifies dungeon.grid, dungeon`rooms
    ensures Coord(sx, sy) in dungeon.Floor() && Coord(gx, gy) in dungeon.Floor() && Coord(sx, sy) != Coord(gx, gy) ==>
      path != [] && Trail(dungeon.Floor(), [Coord(sx, sy)] + path, Coord(sx, sy), Coord(gx, gy))
  {
    ghost var _ := dungeon.ProcessMap();
    path := AStarSearch(dungeon, sx, sy, gx, gy);
    if Coord(sx, sy) in dungeon.Floor() && Coord(gx, gy) in dungeon.Floor() {
      ConnectedGivesTrail(dungeon.Floor(), Coord(sx, sy), Coord(gx, gy));
    }
  }
}
