/** Cave maps: exact floor regions, pruning, and the passages that make the floor one piece. */
module Dungeon {
  import opened Grid
  import opened Passage
  import opened RoomGraph
  import opened Regions
  import opened ClosestRooms

  /** 0 is floor, 1 is wall. */
  type Tile = t: int | t == 0 || t == 1

  const PASSAGE_RADIUS: nat := 1

  ghost predicate Descending(rooms: seq<Room>) {
    forall i, j :: 0 <= i < j < |rooms| ==> rooms[i].roomSize >= rooms[j].roomSize
  }

  lemma InsertKeepsDescending(sorted: seq<Room>, room: Room, k: nat)
    requires Descending(sorted) && k <= |sorted|
    requires k > 0 ==> sorted[k - 1].roomSize >= room.roomSize
    requires k < |sorted| ==> sorted[k].roomSize <= room.roomSize
    ensures Descending(sorted[..k] + [room] + sorted[k..])
  {
  }

  method InsertBySize(sorted: seq<Room>, room: Room) returns (result: seq<Room>)
    requires Descending(sorted)
    ensures Descending(result) && multiset(result) == multiset(sorted) + multiset{room}
  {
    var k := |sorted|;
    while k > 0 && sorted[k - 1].roomSize < room.roomSize
      invariant 0 <= k <= |sorted|
      invariant k < |sorted| ==> sorted[k].roomSize <= room.roomSize
    {
      k := k - 1;
    }
    InsertKeepsDescending(sorted, room, k);
    assert sorted == sorted[..k] + sorted[k..];
    result := sorted[..k] + [room] + sorted[k..];
  }

  /** Largest rooms first. */
  method SortBySize(rooms: seq<Room>) returns (sorted: seq<Room>)
    ensures Descending(sorted) && multiset(sorted) == multiset(rooms)
  {
    sorted := [];
    for n := 0 to |rooms|
      invariant Descending(sorted) && multiset(sorted) == multiset(rooms[..n])
    {
      assert rooms[..n + 1] == rooms[..n] + [rooms[n]];
      sorted := InsertBySize(sorted, rooms[n]);
    }
    assert rooms[..|rooms|] == rooms;
  }

  ghost function DiscCells(w: nat, h: nat, c: Coord, r: nat): (s: set<Coord>)
    ensures forall d :: d in s <==> InRange(w, h, d) && InDisc(c, r, d)
  {
    set d | d in AllCells(w, h) && InDisc(c, r, d)
  }

  /** The cells a passage of radius 1 opens. */
  ghost function PassageCells(w: nat, h: nat, from: Coord, to: Coord, n: nat): (s: set<Coord>) {
    if n == 0 then {}
    else PassageCells(w, h, from, to, n - 1) + DiscCells(w, h, LinePoint(from, to, n - 1), PASSAGE_RADIUS)
  }

  lemma {:induction false} PassageCellsExact(w: nat, h: nat, from: Coord, to: Coord, n: nat, d: Coord)
    ensures d in PassageCells(w, h, from, to, n) <==>
      InRange(w, h, d) && exists i: nat :: i < n && InDisc(LinePoint(from, to, i), PASSAGE_RADIUS, d)
  {
    if n > 0 {
      PassageCellsExact(w, h, from, to, n - 1, d);
    }
  }

  /** A carved passage between tiles of two rooms keeps the floor behind the graph. */
  lemma PassageKeepsBacked(w: nat, h: nat, floor: set<Coord>, rooms: seq<Room>, a: nat, b: nat, tileA: Coord,
                           tileB: Coord)
    requires Backed(floor, rooms) && floor <= AllCells(w, h)
    requires a < |rooms| && b < |rooms| && a != b && tileA in rooms[a].tiles && tileB in rooms[b].tiles
    ensures Backed(floor + PassageCells(w, h, tileA, tileB, KingDistance(tileA, tileB)), Link(rooms, a, b))
  {
    var carved := PassageCells(w, h, tileA, tileB, KingDistance(tileA, tileB));
    var floor' := floor + carved;
    assert RoomBacked(floor, rooms[a]) && RoomBacked(floor, rooms[b]);
    ConnectedEnds(floor, rooms[a].tiles[0], tileA);
    ConnectedEnds(floor, rooms[b].tiles[0], tileB);
    forall d { PassageCellsExact(w, h, tileA, tileB, KingDistance(tileA, tileB), d); }
    assert Carved(w, h, floor', tileA, tileB);
    PassageJoins(w, h, floor', tileA, tileB);
    forall d | d in floor' && d !in floor ensures Connected(floor', tileA, d) {
      PassageCellsExact(w, h, tileA, tileB, KingDistance(tileA, tileB), d);
      var i: nat :| i < KingDistance(tileA, tileB) && InDisc(LinePoint(tileA, tileB, i), PASSAGE_RADIUS, d);
      CarvedCellJoined(w, h, floor', tileA, tileB, i, d);
    }
    LinkKeepsBacked(floor, floor', rooms, a, b, tileA, tileB);
  }

  // ---------------------------------------------------------------- before the first passage

  lemma SurveyedPermuted(w: nat, h: nat, s: set<Coord>, rooms: seq<Room>, sorted: seq<Room>)
    requires Surveyed(w, h, s, rooms) && multiset(sorted) == multiset(rooms)
    ensures Surveyed(w, h, s, sorted)
  {
    assert |multiset(sorted)| == |sorted| && |multiset(rooms)| == |rooms|;
    forall r ensures r in sorted <==> r in rooms {
      assert r in sorted <==> r in multiset(sorted);
      assert r in rooms <==> r in multiset(rooms);
    }
    forall c | c in LargeRegions(s) ensures Covered(sorted, c) {
      assert Covered(rooms, c);
      var r :| r in rooms && c in r.tiles;
      assert r in sorted;
    }
    forall i | 0 <= i < |rooms| ensures rooms[i].tiles != [] {
      assert rooms[i] in rooms;
    }
    ApartPermuted(rooms, sorted);
  }

  /** The room list with its first room made the main one. */
  function WithMain(rooms: seq<Room>): seq<Room>
    requires rooms != []
  {
    rooms[0 := rooms[0].(isMain := true, accessible := true)]
  }

  lemma RoomBackedByRegion(w: nat, h: nat, s: set<Coord>, room: Room)
    requires RoomOf(w, h, s, room)
    ensures RoomBacked(LargeRegions(s), room)
  {
    var t := room.tiles[0];
    forall c | c in room.tiles ensures c in LargeRegions(s) {
      RegionSize(s, room.tiles, c);
      assert c in ToSet(room.tiles);
    }
    forall c | c in room.tiles ensures Connected(LargeRegions(s), t, c) {
      assert c in ToSet(room.tiles);
      ComponentInternallyConnected(s, t, c);
      ConnectedMono(Component(s, t), LargeRegions(s), t, c);
    }
  }

  lemma UnlinkedFlagsExact(rooms: seq<Room>)
    requires rooms != []
    requires forall i :: 0 <= i < |rooms| ==> rooms[i].connected == [] && (rooms[i].accessible <==> i == 0)
    ensures LinksValid(rooms) && FlagsExact(rooms)
  {
    ReachesSelf(rooms, 0);
    ClosedFlagsExact(rooms);
  }

  lemma RoomsReady(w: nat, h: nat, s: set<Coord>, sorted: seq<Room>)
    requires Surveyed(w, h, s, sorted) && sorted != []
    ensures Backed(LargeRegions(s), WithMain(sorted))
    ensures forall i :: 0 <= i < |sorted| ==> WithMain(sorted)[i].connected == []
    ensures LinksValid(WithMain(sorted)) && FlagsExact(WithMain(sorted)) && EdgesReady(WithMain(sorted))
  {
    var rooms := WithMain(sorted);
    forall i | 0 <= i < |rooms| ensures RoomBacked(LargeRegions(s), rooms[i]) && rooms[i].connected == [] {
      assert sorted[i] in sorted;
      RoomBackedByRegion(w, h, s, sorted[i]);
    }
    forall i | 0 <= i < |rooms| ensures rooms[i].accessible <==> i == 0 {
      assert sorted[i] in sorted;
    }
    UnlinkedFlagsExact(rooms);
    forall c | c in LargeRegions(s) ensures JoinedToRoom(LargeRegions(s), rooms, c) {
      assert Covered(sorted, c);
      var r :| r in sorted && c in r.tiles;
      var i :| 0 <= i < |sorted| && sorted[i] == r;
      assert JoinedTo(LargeRegions(s), rooms[i], c);
    }
  }

  lemma NoRoomsNoFloor(s: set<Coord>, rooms: seq<Room>)
    requires rooms == [] && forall c :: c in LargeRegions(s) ==> Covered(rooms, c)
    ensures LargeRegions(s) == {} && FlagsExact(rooms)
  {
  }

  /** The final rooms are the surveyed ones with links and flags added. */
  lemma RoomsKept(w: nat, h: nat, s: set<Coord>, sorted: seq<Room>, rooms: seq<Room>)
    requires Surveyed(w, h, s, sorted) && sorted != [] && Descending(sorted) && Extends(WithMain(sorted), rooms)
    ensures Descending(rooms) && forall i :: 0 <= i < |rooms| ==> (rooms[i].isMain <==> i == 0)
    ensures forall r :: r in rooms ==> RegionOf(s, r.tiles) && r.roomSize == |r.tiles| >= ROOM_THRESHOLD_SIZE
    ensures forall r :: r in rooms ==> EdgesExact(w, h, s, r)
    ensures RoomsApart(rooms) && forall c :: c in LargeRegions(s) ==> Covered(rooms, c)
  {
    forall i | 0 <= i < |rooms|
      ensures rooms[i].tiles == sorted[i].tiles && RoomOf(w, h, s, sorted[i]) && rooms[i].roomSize == sorted[i].roomSize
      ensures EdgesExact(w, h, s, rooms[i])
      ensures rooms[i].isMain <==> i == 0
    {
      assert sorted[i] in sorted;
    }
    forall c | c in LargeRegions(s) ensures Covered(rooms, c) {
      assert Covered(sorted, c);
      var r :| r in sorted && c in r.tiles;
      var i :| 0 <= i < |sorted| && sorted[i] == r;
      assert rooms[i] in rooms && c in rooms[i].tiles;
    }
  }

  /** The cells carved for a list of links: one passage for each. */
  ghost function Passages(w: nat, h: nat, links: seq<Candidate>): set<Coord> {
    if links == [] then {} else PassageOf(w, h, links[0]) + Passages(w, h, links[1..])
  }

  ghost function PassageOf(w: nat, h: nat, link: Candidate): set<Coord> {
    if link.NoCandidate? then {}
    else PassageCells(w, h, link.tileA, link.tileB, KingDistance(link.tileA, link.tileB))
  }

  lemma {:induction false} PassagesConcat(w: nat, h: nat, a: seq<Candidate>, b: seq<Candidate>)
    ensures Passages(w, h, a + b) == Passages(w, h, a) + Passages(w, h, b)
  {
    if a == [] {
      assert a + b == b;
    } else {
      assert (a + b)[1..] == a[1..] + b;
      PassagesConcat(w, h, a[1..], b);
    }
  }

  /** Every link of the list was made: its rooms list each other, and its tiles lie on their edges. */
  ghost predicate Made(rooms: seq<Room>, links: seq<Candidate>) {
    forall l :: l in links ==> Joins(rooms, l) && Linked(rooms, l.roomA, l.roomB)
  }

  /** How far the map has come: rooms have only gained links, and exactly the passages of the links were carved. */
  ghost predicate Grown(w: nat, h: nat, from: seq<Room>, base: set<Coord>, links: seq<Candidate>, rooms: seq<Room>,
                        floor: set<Coord>) {
    Extends(from, rooms) && Made(rooms, links) && floor == base + Passages(w, h, links)
  }

  lemma GrowsByLink(w: nat, h: nat, from: seq<Room>, base: set<Coord>, links: seq<Candidate>, before: seq<Room>,
                    floor: set<Coord>, best: Candidate, after: seq<Room>)
    requires Grown(w, h, from, base, links, before, floor)
    requires Joins(before, best) && SameButFlags(Link(before, best.roomA, best.roomB), after)
    ensures Grown(w, h, from, base, links + [best], after, floor + PassageOf(w, h, best))
  {
    LinkExtends(before, best.roomA, best.roomB, after);
    ExtendsTrans(from, before, after);
    PassagesConcat(w, h, links, [best]);
    assert Passages(w, h, [best]) == PassageOf(w, h, best) + Passages(w, h, [best][1..]);
    forall l | l in links + [best] ensures Joins(after, l) && Linked(after, l.roomA, l.roomB) {
      assert l in links ==> Joins(before, l) && Linked(before, l.roomA, l.roomB);
    }
  }

  lemma NothingGrown(w: nat, h: nat, rooms: seq<Room>, floor: set<Coord>)
    ensures Grown(w, h, rooms, floor, [], rooms, floor)
  {
    assert Passages(w, h, []) == {};
  }

  lemma GrownTrans(w: nat, h: nat, from: seq<Room>, base: set<Coord>, links: seq<Candidate>, mid: seq<Room>,
                   floor: set<Coord>, more: seq<Candidate>, after: seq<Room>, floor': set<Coord>)
    requires Grown(w, h, from, base, links, mid, floor) && Grown(w, h, mid, floor, more, after, floor')
    ensures Grown(w, h, from, base, links + more, after, floor')
  {
    ExtendsTrans(from, mid, after);
    PassagesConcat(w, h, links, more);
    forall l | l in links + more ensures Joins(after, l) && Linked(after, l.roomA, l.roomB) {
      assert l in links ==> Joins(mid, l) && Linked(mid, l.roomA, l.roomB);
    }
  }

  lemma JoinStep(before: seq<Room>, a: nat, b: nat, after: seq<Room>)
    requires a < |before| && b < |before| && a != b && SameButFlags(Link(before, a, b), after)
    requires LinksValid(after) && FlagsExact(after) && EdgesReady(before)
    requires !before[a].accessible && before[b].accessible
    ensures EdgesReady(after) && Unmarked(after) < Unmarked(before)
  {
    LinkExtends(before, a, b, after);
    FewerUnmarked(before, after, a, b);
  }

  lemma ClosestLinkStep(before: seq<Room>, best: Candidate, after: seq<Room>)
    requires Joins(before, best) && BeatsOthers(before, best) && before[best.roomA].connected == []
    requires SameButFlags(Link(before, best.roomA, best.roomB), after) && EdgesReady(before)
    requires forall k :: 0 <= k < |before| ==> FirstLinkClosest(before, k)
    ensures |after| == |before| && EdgesReady(after) && after[best.roomA].connected != []
    ensures forall k :: 0 <= k < |after| ==> FirstLinkClosest(after, k)
    ensures forall k :: 0 <= k < |after| && before[k].connected != [] ==> after[k].connected != []
  {
    FirstLinksStep(before, best, after);
    LinkExtends(before, best.roomA, best.roomB, after);
  }

  /** With two or more rooms, each of the first `n` has a link. */
  ghost predicate LinkedUpTo(rooms: seq<Room>, n: nat) {
    |rooms| >= 2 ==> n <= |rooms| && forall k :: 0 <= k < n ==> rooms[k].connected != []
  }

  lemma NearestInCoordinates(rooms: seq<Room>, best: Candidate)
    requires Joins(rooms, best) && BeatsOthers(rooms, best)
    ensures NearestPair(rooms, best.roomA, best.tileA, best.tileB)
  {
    var i := best.roomA;
    forall k, s, t | 0 <= k < |rooms| && k != i && s in rooms[i].edgeTiles && t in rooms[k].edgeTiles
      ensures NoFarther(best.tileA, best.tileB, s, t)
    {
      BeatsInCoordinates(best, rooms[i], rooms[k], s, t);
    }
  }

  /** No edge tiles of a room out of reach and one in reach are nearer to each other. */
  ghost predicate ClosestAcross(rooms: seq<Room>, a: Coord, b: Coord) {
    forall i, j, s, t {:trigger NoFarther(a, b, s, t), rooms[i], rooms[j]} ::
      (&& 0 <= i < |rooms| && 0 <= j < |rooms| && !rooms[i].accessible && rooms[j].accessible
       && s in rooms[i].edgeTiles && t in rooms[j].edgeTiles) ==> NoFarther(a, b, s, t)
  }

  lemma AcrossInCoordinates(rooms: seq<Room>, best: Candidate)
    requires Joins(rooms, best)
    requires forall i, j :: 0 <= i < |rooms| && 0 <= j < |rooms| && !rooms[i].accessible && rooms[j].accessible ==>
               Beats(best, rooms[i], rooms[j])
    ensures ClosestAcross(rooms, best.tileA, best.tileB)
  {
    forall i, j, s, t |
      && 0 <= i < |rooms| && 0 <= j < |rooms| && !rooms[i].accessible && rooms[j].accessible
      && s in rooms[i].edgeTiles && t in rooms[j].edgeTiles
      ensures NoFarther(best.tileA, best.tileB, s, t)
    {
      BeatsInCoordinates(best, rooms[i], rooms[j], s, t);
    }
  }

  /** Linking a room out of reach to one in reach brings it into reach. */
  lemma FewerUnmarked(before: seq<Room>, after: seq<Room>, a: nat, b: nat)
    requires a < |before| && b < |before| && a != b && !before[a].accessible && before[b].accessible
    requires SameButFlags(Link(before, a, b), after) && Extends(before, after) && LinksValid(after) && FlagsExact(after)
    ensures Unmarked(after) < Unmarked(before)
  {
    assert Linked(after, b, a);
    ExactFlagsClosed(after);
    assert a in Unmarked(before) && a !in Unmarked(after);
  }

  class DungeonGenerator {
    const grid: array2<Tile>
    var rooms: seq<Room>

    constructor (w: nat, h: nat)
      ensures fresh(grid) && grid.Length0 == w && grid.Length1 == h && rooms == []
      ensures forall x, y :: 0 <= x < w && 0 <= y < h ==> grid[x, y] == 0
    {
      grid := new Tile[w, h]((i, j) => 0);
      rooms := [];
    }

    /** Tiles outside the map read as wall. */
    function GetTile(x: int, y: int): Tile
      reads grid
    {
      if InRange(grid.Length0, grid.Length1, Coord(x, y)) then grid[x, y] else 1
    }

    ghost function Cells(t: Tile): (s: set<Coord>)
      reads grid
      ensures forall c: Coord :: c in s <==> InRange(grid.Length0, grid.Length1, c) && grid[c.x, c.y] == t
    {
      set c | c in AllCells(grid.Length0, grid.Length1) && grid[c.x, c.y] == t
    }

    ghost function Floor(): set<Coord>
      reads grid
    {
      Cells(0)
    }

    // -------------------------------------------------------------- regions

    ghost predicate FlagsShow(mapFlags: array2<bool>, seen: set<Coord>)
      reads mapFlags
    {
      && mapFlags.Length0 == grid.Length0 && mapFlags.Length1 == grid.Length1
      && forall x, y :: 0 <= x < grid.Length0 && 0 <= y < grid.Length1 ==> (mapFlags[x, y] <==> Coord(x, y) in seen)
    }

    method Flag(mapFlags: array2<bool>, ghost seen: set<Coord>, c: Coord)
      requires FlagsShow(mapFlags, seen) && InRange(grid.Length0, grid.Length1, c)
      modifies mapFlags
      ensures FlagsShow(mapFlags, seen + {c})
    {
      mapFlags[c.x, c.y] := true;
    }

    /** What the scan around a tile has found so far: new cells of the type beside it, flagged, each once. */
    ghost predicate Found(tile: Coord, t: Tile, mapFlags: array2<bool>, seen: set<Coord>, added: seq<Coord>)
      reads mapFlags, grid
    {
      && NoDup(added) && FlagsShow(mapFlags, seen + ToSet(added))
      && forall c :: c in added ==> c in Cells(t) && c !in seen && Adjacent(tile, c)
    }

    /** One cell of the scan around `tile`. */
    method VisitCell(tile: Coord, t: Tile, mapFlags: array2<bool>, ghost seen: set<Coord>, added: seq<Coord>, c: Coord)
      returns (added': seq<Coord>)
      requires tile in seen && Found(tile, t, mapFlags, seen, added) && Abs(c.x - tile.x) <= 1 && Abs(c.y - tile.y) <= 1
      modifies mapFlags
      ensures Found(tile, t, mapFlags, seen, added') && added <= added'
      ensures c in Cells(t) && Adjacent(tile, c) ==> c in seen || c in added'
    {
      added' := added;
      if InRange(grid.Length0, grid.Length1, c) && (c.y == tile.y || c.x == tile.x) {
        if !mapFlags[c.x, c.y] && grid[c.x, c.y] == t {
          Flag(mapFlags, seen + ToSet(added), c);
          assert seen + ToSet(added) + {c} == seen + ToSet(added + [c]);
          added' := added + [c];
        }
      }
    }

    /** Flags the unvisited neighbours of `tile` that have type `t` and returns them in scan order. */
    method VisitNeighbours(tile: Coord, t: Tile, mapFlags: array2<bool>, ghost seen: set<Coord>)
      returns (added: seq<Coord>)
      requires tile in seen && FlagsShow(mapFlags, seen)
      modifies mapFlags
      ensures NoDup(added) && FlagsShow(mapFlags, seen + ToSet(added))
      ensures forall c :: c in added ==> c in Cells(t) && c !in seen && Adjacent(tile, c)
      ensures forall c :: c in Cells(t) && Adjacent(tile, c) ==> c in seen || c in added
    {
      added := [];
      assert seen + ToSet(added) == seen;
      var x := tile.x - 1;
      while x <= tile.x + 1
        invariant tile.x - 1 <= x <= tile.x + 2 && Found(tile, t, mapFlags, seen, added)
        invariant forall c :: c in Cells(t) && Adjacent(tile, c) && c.x < x ==> c in seen || c in added
      {
        var y := tile.y - 1;
        while y <= tile.y + 1
          invariant tile.y - 1 <= y <= tile.y + 2 && Found(tile, t, mapFlags, seen, added)
          invariant forall c :: c in Cells(t) && Adjacent(tile, c) && (c.x < x || (c.x == x && c.y < y)) ==>
            c in seen || c in added
        {
          added := VisitCell(tile, t, mapFlags, seen, added, Coord(x, y));
          y := y + 1;
        }
        x := x + 1;
      }
    }

    /** Breadth-first flood fill: the tiles returned are exactly the component of the start cell, each once. */
    method GetRegionTiles(startX: int, startY: int) returns (tiles: seq<Coord>)
      requires InRange(grid.Length0, grid.Length1, Coord(startX, startY))
      ensures RegionOf(Cells(grid[startX, startY]), tiles) && tiles[0] == Coord(startX, startY)
    {
      tiles := [];
      var mapFlags := new bool[grid.Length0, grid.Length1]((i, j) => false);
      var tileType := grid[startX, startY];
      var start := Coord(startX, startY);
      ghost var s := Cells(tileType);
      var q := [start];
      mapFlags[startX, startY] := true;
      ghost var all := q;
      ConnectedRefl(s, start);
      while q != []
        invariant fresh(mapFlags) && Cells(tileType) == s
        invariant |tiles| <= |all| && tiles == all[..|tiles|] && q == all[|tiles|..]
        invariant Flooding(s, start, all, |tiles|) && FlagsShow(mapFlags, ToSet(all))
        decreases s - ToSet(tiles)
      {
        var tile := q[0];
        ghost var k := |tiles|;
        assert tile == all[k] && tile in all;
        assert tile in s - ToSet(tiles);
        q := q[1..];
        tiles := tiles + [tile];
        var added := VisitNeighbours(tile, tileType, mapFlags, ToSet(all));
        FloodStep(s, start, all, k, added);
        assert ToSet(all + added) == ToSet(all) + ToSet(added);
        q := q + added;
        all := all + added;
      }
      assert tiles == all;
      FloodDone(s, start, all);
    }

    method MarkTiles(mapFlags: array2<bool>, region: seq<Coord>, ghost seen: set<Coord>)
      requires FlagsShow(mapFlags, seen)
      requires forall c :: c in region ==> InRange(grid.Length0, grid.Length1, c)
      modifies mapFlags
      ensures FlagsShow(mapFlags, seen + ToSet(region))
    {
      for i := 0 to |region|
        invariant FlagsShow(mapFlags, seen + ToSet(region[..i]))
      {
        assert region[i] in region;
        mapFlags[region[i].x, region[i].y] := true;
        assert region[..i + 1] == region[..i] + [region[i]];
      }
      assert region[..|region|] == region;
    }

    /** The regions of one tile type are exactly the components of its cells. */
    method GetRegions(tileType: Tile) returns (regions: seq<seq<Coord>>)
      ensures RegionsOf(Cells(tileType), regions)
    {
      regions := [];
      var mapFlags := new bool[grid.Length0, grid.Length1]((i, j) => false);
      ghost var s, seen := Cells(tileType), {};
      for x := 0 to grid.Length0
        invariant fresh(mapFlags) && FlagsShow(mapFlags, seen) && Cells(tileType) == s
        invariant Collected(s, regions, seen)
        invariant forall c :: c in s && c.x < x ==> c in seen
      {
        for y := 0 to grid.Length1
          invariant fresh(mapFlags) && FlagsShow(mapFlags, seen) && Cells(tileType) == s
          invariant Collected(s, regions, seen)
          invariant forall c :: c in s && (c.x < x || (c.x == x && c.y < y)) ==> c in seen
        {
          if !mapFlags[x, y] && grid[x, y] == tileType {
            var region := GetRegionTiles(x, y);
            MarkTiles(mapFlags, region, seen);
            CollectStep(s, regions, seen, region);
            ConnectedRefl(s, Coord(x, y));
            regions := regions + [region];
            seen := seen + ToSet(region);
          }
        }
      }
    }

    // -------------------------------------------------------------- pruning

    method FillTiles(tiles: seq<Coord>, t: Tile)
      requires forall c :: c in tiles ==> InRange(grid.Length0, grid.Length1, c)
      modifies grid
      ensures forall x, y :: 0 <= x < grid.Length0 && 0 <= y < grid.Length1 ==>
        grid[x, y] == if Coord(x, y) in tiles then t else old(grid[x, y])
      ensures Floor() == if t == 0 then old(Floor()) + ToSet(tiles) else old(Floor()) - ToSet(tiles)
    {
      for i := 0 to |tiles|
        invariant forall x, y :: 0 <= x < grid.Length0 && 0 <= y < grid.Length1 ==>
          grid[x, y] == if Coord(x, y) in tiles[..i] then t else old(grid[x, y])
      {
        assert tiles[i] in tiles;
        grid[tiles[i].x, tiles[i].y] := t;
        assert tiles[..i + 1] == tiles[..i] + [tiles[i]];
      }
      assert tiles[..|tiles|] == tiles;
    }

    /** First pass of ProcessMap: wall regions below the threshold become floor, everything else stays. */
    method PruneWallRegions()
      modifies grid
      ensures Floor() == OpenSmallWalls(grid.Length0, grid.Length1, old(Floor()))
      ensures forall c :: c in Floor() <==>
                c in old(Floor()) || (c in old(Cells(1)) && |Component(old(Cells(1)), c)| < 15)
    {
      var regions := GetRegions(1);
      ghost var walls := Cells(1);
      assert walls == AllCells(grid.Length0, grid.Length1) - Floor();
      for k := 0 to |regions|
        invariant Floor() == old(Floor()) + SmallCells(regions, k, WALL_THRESHOLD_SIZE)
      {
        assert RegionOf(walls, regions[k]);
        ghost var before := Floor();
        if |regions[k]| < WALL_THRESHOLD_SIZE {
          FillTiles(regions[k], 0);
        }
        assert Floor() == before + if |regions[k]| < WALL_THRESHOLD_SIZE then ToSet(regions[k]) else {};
      }
      SmallCellsAll(walls, regions, WALL_THRESHOLD_SIZE);
    }

    /** One entry of `tile` for every wall beside it. */
    method EdgeEntries(tile: Coord) returns (entries: seq<Coord>)
      requires tile in Floor()
      ensures forall e :: e in entries ==> e == tile
      ensures entries != [] <==> BesideWall(grid.Length0, grid.Length1, Floor(), tile)
    {
      entries := [];
      var x := tile.x - 1;
      while x <= tile.x + 1
        invariant tile.x - 1 <= x <= tile.x + 2
        invariant forall e :: e in entries ==> e == tile
        invariant entries != [] ==> BesideWall(grid.Length0, grid.Length1, Floor(), tile)
        invariant entries == [] ==>
                  forall d :: InRange(grid.Length0, grid.Length1, d) && Adjacent(tile, d) && d.x < x ==>
          d in Floor()
      {
        var y := tile.y - 1;
        while y <= tile.y + 1
          invariant tile.y - 1 <= y <= tile.y + 2
          invariant forall e :: e in entries ==> e == tile
          invariant entries != [] ==> BesideWall(grid.Length0, grid.Length1, Floor(), tile)
          invariant entries == [] ==> forall d ::
            InRange(grid.Length0, grid.Length1, d) && Adjacent(tile, d) && (d.x < x || (d.x == x && d.y < y)) ==>
              d in Floor()
        {
          if x == tile.x || y == tile.y {
            if InRange(grid.Length0, grid.Length1, Coord(x, y)) && grid[x, y] == 1 {
              assert Adjacent(tile, Coord(x, y));
              entries := entries + [tile];
            }
          }
          y := y + 1;
        }
        x := x + 1;
      }
    }

    method CollectEdges(region: seq<Coord>) returns (edgeTiles: seq<Coord>)
      requires forall c :: c in region ==> c in Floor()
      ensures forall c :: c in edgeTiles <==> c in region && BesideWall(grid.Length0, grid.Length1, Floor(), c)
    {
      edgeTiles := [];
      for i := 0 to |region|
        invariant forall c :: c in edgeTiles <==> c in region[..i] && BesideWall(grid.Length0, grid.Length1, Floor(), c)
      {
        var entries := EdgeEntries(region[i]);
        assert region[..i + 1] == region[..i] + [region[i]];
        edgeTiles := edgeTiles + entries;
        assert entries != [] ==> entries[0] in entries;
      }
      assert region[..|region|] == region;
    }

    /** Second pass of ProcessMap: small floor regions are filled in, each large one becomes a room. */
    method CollectRooms()
      modifies grid, this`rooms
      ensures Floor() == LargeRegions(old(Floor()))
      ensures forall c :: c in Floor() <==> c in old(Floor()) && |Component(old(Floor()), c)| >= 20
      ensures Surveyed(grid.Length0, grid.Length1, old(Floor()), rooms)
    {
      var regions := GetRegions(0);
      ghost var s := Floor();
      ghost var kept: seq<nat> := [];
      rooms := [];
      for k := 0 to |regions|
        invariant Floor() == s - SmallCells(regions, k, ROOM_THRESHOLD_SIZE)
        invariant KeptRooms(grid.Length0, grid.Length1, s, regions, k, rooms, kept)
      {
        assert RegionOf(s, regions[k]);
        if |regions[k]| < ROOM_THRESHOLD_SIZE {
          FillTiles(regions[k], 1);
          KeptRoomsSkip(grid.Length0, grid.Length1, s, regions, k, rooms, kept);
        } else {
          LargeRegionSpared(s, regions, k, k);
          var edgeTiles := CollectEdges(regions[k]);
          forall c | c in regions[k]
            ensures BesideWall(grid.Length0, grid.Length1, Floor(), c) <==> BesideWall(grid.Length0, grid.Length1, s, c)
          {
            EdgesUnmoved(grid.Length0, grid.Length1, s, Floor(), regions[k], c);
          }
          var room := Room(regions[k], edgeTiles, [], |regions[k]|, false, false);
          assert RoomOf(grid.Length0, grid.Length1, s, room);
          KeptRoomsAdd(grid.Length0, grid.Length1, s, regions, k, rooms, kept, room);
          rooms := rooms + [room];
          kept := kept + [k];
        }
      }
      SmallCellsAll(s, regions, ROOM_THRESHOLD_SIZE);
      assert s - SmallCells(regions, |regions|, ROOM_THRESHOLD_SIZE) == LargeRegions(s);
      KeptRoomsSurveyed(grid.Length0, grid.Length1, s, regions, rooms, kept);
    }

    // -------------------------------------------------------------- passages

    /** Recursive marking: flags exactly the rooms reached from `idx` through unflagged ones. */
    method SetAccessible(idx: nat)
      requires idx < |rooms| && LinksValid(rooms)
      modifies this`rooms
      ensures MarkedFrom(old(rooms), rooms, idx)
      ensures forall v: nat :: v < |rooms| ==>
                (rooms[v].accessible <==> old(rooms)[v].accessible || ReachesUnflagged(old(rooms), idx, v))
      decreases Unmarked(rooms)
    {
      if !rooms[idx].accessible {
        ghost var before := rooms;
        var links := rooms[idx].connected;
        rooms := rooms[idx := rooms[idx].(accessible := true)];
        MarkingStart(before, idx);
        assert idx in Unmarked(before) && idx !in Unmarked(rooms);
        for k := 0 to |links|
          invariant Marking(before, rooms, idx, k)
          invariant Unmarked(rooms) < Unmarked(before)
        {
          ghost var mid := rooms;
          FlagsKeepLinks(before, mid);
          assert links[k] in links;
          SetAccessible(links[k]);
          MarkingStep(before, mid, rooms, idx, k);
        }
        MarkingDone(before, rooms, idx);
      }
      forall v: nat | v < |rooms|
        ensures rooms[v].accessible <==> old(rooms)[v].accessible || ReachesUnflagged(old(rooms), idx, v)
      {
        MarkedExactly(old(rooms), rooms, idx, v);
      }
    }

    /** Opens every in-range cell of the disc and touches nothing else. */
    method DrawCircle(c: Coord, r: nat)
      modifies grid
      ensures Floor() == old(Floor()) + DiscCells(grid.Length0, grid.Length1, c, r)
    {
      forall d | InDisc(c, r, d) ensures Abs(d.x - c.x) <= r && Abs(d.y - c.y) <= r {
        DiscInSquare(c, r, d);
      }
      var x: int := 0 - r;
      while x <= r
        invariant 0 - r <= x <= r + 1
        invariant forall i, j :: 0 <= i < grid.Length0 && 0 <= j < grid.Length1 ==>
          grid[i, j] == if InDisc(c, r, Coord(i, j)) && i - c.x < x then 0 else old(grid[i, j])
      {
        var y: int := 0 - r;
        while y <= r
          invariant 0 - r <= y <= r + 1
          invariant forall i, j :: 0 <= i < grid.Length0 && 0 <= j < grid.Length1 ==>
            grid[i, j] == if InDisc(c, r, Coord(i, j)) && (i - c.x < x || (i - c.x == x && j - c.y < y)) then 0
                          else old(grid[i, j])
        {
          if x * x + y * y <= r * r {
            var drawX, drawY := c.x + x, c.y + y;
            if InRange(grid.Length0, grid.Length1, Coord(drawX, drawY)) {
              grid[drawX, drawY] := 0;
            }
          }
          y := y + 1;
        }
        x := x + 1;
      }
    }

    /**
     * What every CreatePassage keeps: floor and graph agree, and a flag is set exactly when the main room reaches the
     * room.
     */
    ghost predicate Consistent()
      reads this, grid
    {
      Backed(Floor(), rooms) && LinksValid(rooms) && FlagsExact(rooms)
    }

    /** Links two rooms and spreads accessibility over the new link. */
    method LinkRooms(a: nat, b: nat)
      requires LinksValid(rooms) && FlagsExact(rooms) && a < |rooms| && b < |rooms| && a != b
      modifies this`rooms
      ensures LinksValid(rooms) && FlagsExact(rooms)
      ensures SameButFlags(Link(old(rooms), a, b), rooms)
    {
      ghost var before := rooms;
      rooms := rooms[a := rooms[a].(connected := rooms[a].connected + [b])];
      rooms := rooms[b := rooms[b].(connected := rooms[b].connected + [a])];
      ghost var linked := rooms;
      assert linked == Link(before, a, b) == Link(before, b, a);
      LinkKeepsValid(before, a, b);
      if rooms[a].accessible {
        SetAccessible(b);
        LinkKeepsFlagsExact(before, a, b, rooms);
      } else if rooms[b].accessible {
        SetAccessible(a);
        LinkKeepsFlagsExact(before, b, a, rooms);
      } else {
        FarLinkKeepsFlagsExact(before, a, b);
      }
      FlagsKeepLinks(linked, rooms);
    }

    method CarveLine(tileA: Coord, tileB: Coord)
      modifies grid
      ensures Floor() ==
                old(Floor()) + PassageCells(grid.Length0, grid.Length1, tileA, tileB, KingDistance(tileA, tileB))
    {
      var line := GetLine(tileA, tileB);
      for i := 0 to |line|
        invariant Floor() == old(Floor()) + PassageCells(grid.Length0, grid.Length1, tileA, tileB, i)
      {
        DrawCircle(line[i], PASSAGE_RADIUS);
      }
    }

    /** Links two rooms, spreads accessibility and carves the passage between the two tiles. */
    method CreatePassage(a: nat, b: nat, tileA: Coord, tileB: Coord)
      requires Consistent() && a < |rooms| && b < |rooms| && a != b
      requires tileA in rooms[a].tiles && tileB in rooms[b].tiles
      modifies grid, this`rooms
      ensures Consistent()
      ensures SameButFlags(Link(old(rooms), a, b), rooms)
      ensures Floor() ==
                old(Floor()) + PassageCells(grid.Length0, grid.Length1, tileA, tileB, KingDistance(tileA, tileB))
    {
      LinkRooms(a, b);
      CarveLine(tileA, tileB);
      PassageKeepsBacked(grid.Length0, grid.Length1, old(Floor()), old(rooms), a, b, tileA, tileB);
      FlagsDoNotMatter(Floor(), Link(old(rooms), a, b), rooms);
    }

    /** The rooms of the candidate are linked now, and the passage between its tiles is all that was carved. */
    ghost predicate JoinedBy(floor: set<Coord>, before: seq<Room>, best: Candidate)
      requires best.Candidate?
      reads this, grid
    {
      && Joins(before, best) && SameButFlags(Link(before, best.roomA, best.roomB), rooms)
      && Floor() == floor + PassageCells(grid.Length0, grid.Length1, best.tileA, best.tileB,
                                         KingDistance(best.tileA, best.tileB))
    }

    /** Since the rooms were `from` and the floor `base`, exactly these links were made. */
    ghost predicate Grew(from: seq<Room>, base: set<Coord>, links: seq<Candidate>)
      reads this, grid
    {
      Grown(grid.Length0, grid.Length1, from, base, links, rooms, Floor())
    }

    /** The two innermost loops of ConnectClosestRooms: the closest edge tiles of two rooms. */
    method ScanPair(i: nat, j: nat, best: Candidate) returns (found: Candidate)
      requires i < |rooms| && j < |rooms| && i != j
      ensures found == best || (Joins(rooms, found) && found.roomA == i && found.roomB == j)
      ensures best.Candidate? ==> AtMost(found, best.distance)
      ensures Beats(found, rooms[i], rooms[j])
      ensures found != best ==> forall s, t :: s in rooms[i].edgeTiles && t in rooms[j].edgeTiles ==>
                NoFarther(found.tileA, found.tileB, s, t)
    {
      found := best;
      var tilesA, tilesB := rooms[i].edgeTiles, rooms[j].edgeTiles;
      for m := 0 to |tilesA|
        invariant found == best || (Joins(rooms, found) && found.roomA == i && found.roomB == j)
        invariant best.Candidate? ==> AtMost(found, best.distance)
        invariant forall k, t :: 0 <= k < m && t in tilesB ==> AtMost(found, Distance(tilesA[k], t))
      {
        for n := 0 to |tilesB|
          invariant found == best || (Joins(rooms, found) && found.roomA == i && found.roomB == j)
          invariant best.Candidate? ==> AtMost(found, best.distance)
          invariant forall k, t :: 0 <= k < m && t in tilesB ==> AtMost(found, Distance(tilesA[k], t))
          invariant forall k :: 0 <= k < n ==> AtMost(found, Distance(tilesA[m], tilesB[k]))
        {
          var dx, dy := tilesA[m].x - tilesB[n].x, tilesA[m].y - tilesB[n].y;
          var distance := dx * dx + dy * dy;
          assert distance == Distance(tilesA[m], tilesB[n]);
          if found.NoCandidate? || distance < found.distance {
            found := Candidate(distance, i, j, tilesA[m], tilesB[n]);
          }
        }
      }
      if found != best {
        forall s, t | s in rooms[i].edgeTiles && t in rooms[j].edgeTiles
          ensures NoFarther(found.tileA, found.tileB, s, t)
        {
          BeatsInCoordinates(found, rooms[i], rooms[j], s, t);
        }
      }
    }

    /** The loop over the second room list: the closest connection from room `i`, or the better one known before. */
    method ScanRoom(i: nat, others: seq<nat>, best: Candidate) returns (found: Candidate)
      requires i < |rooms| && forall k :: 0 <= k < |others| ==> others[k] < |rooms|
      ensures found == best || (Joins(rooms, found) && found.roomA == i && found.roomB in others)
      ensures best.Candidate? ==> AtMost(found, best.distance)
      ensures forall j :: j in others && j != i && j !in rooms[i].connected ==> Beats(found, rooms[i], rooms[j])
    {
      found := best;
      for k := 0 to |others|
        invariant found == best || (Joins(rooms, found) && found.roomA == i && found.roomB in others)
        invariant best.Candidate? ==> AtMost(found, best.distance)
        invariant forall n :: 0 <= n < k && others[n] != i && others[n] !in rooms[i].connected ==>
          Beats(found, rooms[i], rooms[others[n]])
      {
        assert others[k] in others;
        if others[k] != i && others[k] !in rooms[i].connected {
          ghost var before := found;
          found := ScanPair(i, others[k], found);
          forall n | 0 <= n < k && others[n] != i && others[n] !in rooms[i].connected
            ensures Beats(found, rooms[i], rooms[others[n]])
          {
            BetterBeats(before, found, rooms[i], rooms[others[n]]);
          }
        }
      }
    }

    /** Links a room that has no link yet to its closest room, by a passage between their closest edge tiles. */
    method LinkToClosest(i: nat, all: seq<nat>, ghost from: seq<Room>, ghost base: set<Coord>,
                         ghost links: seq<Candidate>)
      returns (best: Candidate)
      requires Consistent() && EdgesReady(rooms) && Grew(from, base, links)
      requires FirstLinksClosest(rooms)
      requires i < |rooms| && rooms[i].connected == [] && |all| == |rooms| && forall k :: 0 <= k < |all| ==> all[k] == k
      modifies grid, this`rooms
      ensures Consistent() && EdgesReady(rooms) && |rooms| == |old(rooms)|
      ensures FirstLinksClosest(rooms)
      ensures forall k :: 0 <= k < |rooms| && old(rooms)[k].connected != [] ==> rooms[k].connected != []
      ensures |rooms| >= 2 ==> best.Candidate? && rooms[i].connected != [] && Grew(from, base, links + [best])
      ensures |rooms| < 2 ==> best.NoCandidate? && Grew(from, base, links)
      ensures best.Candidate? ==> JoinedBy(old(Floor()), old(rooms), best)
      ensures best.Candidate? ==> best.roomA == i && NearestPair(old(rooms), i, best.tileA, best.tileB)
    {
      best := ScanRoom(i, all, NoCandidate);
      if best.Candidate? {
        ghost var before, floor := rooms, Floor();
        assert BeatsOthers(rooms, best) by {
          forall k | 0 <= k < |rooms| && k != i ensures Beats(best, rooms[i], rooms[k]) {
            assert all[k] in all;
          }
        }
        assert RoomBacked(Floor(), rooms[best.roomA]) && RoomBacked(Floor(), rooms[best.roomB]);
        CreatePassage(best.roomA, best.roomB, best.tileA, best.tileB);
        NearestInCoordinates(before, best);
        ClosestLinkStep(before, best, rooms);
        GrowsByLink(grid.Length0, grid.Length1, from, base, links, before, floor, best, rooms);
      } else if |rooms| >= 2 {
        var j := if i == 0 then 1 else 0;
        assert all[j] in all;
        NothingBeatsEdges(rooms[i], rooms[j]);
        assert false;
      }
    }

    /** ConnectClosestRooms(false), first half: every room without a link is linked to its closest room. */
    method LinkEachToClosest(ghost from: seq<Room>, ghost base: set<Coord>, ghost links: seq<Candidate>)
      returns (ghost links': seq<Candidate>)
      requires Linking(from, base, links) && (|rooms| < 2 ==> links == [])
      modifies grid, this`rooms
      ensures Linking(from, base, links') && LinkedUpTo(rooms, |rooms|)
      ensures |rooms| < 2 ==> links' == []
    {
      links' := links;
      var all: seq<nat> := seq(|rooms|, i => i);
      for i := 0 to |all|
        invariant |rooms| == |all| && Linking(from, base, links') && LinkedUpTo(rooms, i)
        invariant |rooms| < 2 ==> links' == []
      {
        links' := LinkRoom(i, all, from, base, links');
      }
    }

    /** Links were made as `links` says, and each room's first one is a closest one. */
    ghost predicate Linking(from: seq<Room>, base: set<Coord>, links: seq<Candidate>)
      reads this, grid
    {
      Consistent() && EdgesReady(rooms) && Grew(from, base, links) && FirstLinksClosest(rooms)
    }

    /** One room's turn: nothing if it has a link already. */
    method LinkRoom(i: nat, all: seq<nat>, ghost from: seq<Room>, ghost base: set<Coord>, ghost links: seq<Candidate>)
      returns (ghost links': seq<Candidate>)
      requires Linking(from, base, links) && LinkedUpTo(rooms, i)
      requires i < |rooms| && |all| == |rooms| && forall k :: 0 <= k < |all| ==> all[k] == k
      modifies grid, this`rooms
      ensures Linking(from, base, links') && |rooms| == |old(rooms)| && LinkedUpTo(rooms, i + 1)
      ensures |rooms| < 2 ==> links' == links
    {
      links' := links;
      if rooms[i].connected == [] {
        var best := LinkToClosest(i, all, from, base, links);
        links' := if best.Candidate? then links + [best] else links;
      }
    }

    /** Splits the rooms by flag, as the forced pass does. */
    method SplitByFlag() returns (listA: seq<nat>, listB: seq<nat>)
      ensures forall i :: i in listA <==> 0 <= i < |rooms| && !rooms[i].accessible
      ensures forall i :: i in listB <==> 0 <= i < |rooms| && rooms[i].accessible
      ensures forall n :: 0 <= n < |listA| ==> listA[n] < |rooms|
      ensures forall n :: 0 <= n < |listB| ==> listB[n] < |rooms|
    {
      listA, listB := [], [];
      for i := 0 to |rooms|
        invariant forall k :: k in listA <==> 0 <= k < i && !rooms[k].accessible
        invariant forall k :: k in listB <==> 0 <= k < i && rooms[k].accessible
        invariant forall n :: 0 <= n < |listA| ==> listA[n] < |rooms|
        invariant forall n :: 0 <= n < |listB| ==> listB[n] < |rooms|
      {
        if rooms[i].accessible { listB := listB + [i]; } else { listA := listA + [i]; }
      }
    }

    /** The closest connection from a room that is not accessible to one that is; there is one unless all are. */
    method ClosestToAccessible() returns (best: Candidate)
      requires LinksValid(rooms) && FlagsClosed(rooms) && EdgesReady(rooms) && rooms != [] && rooms[0].accessible
      ensures best.NoCandidate? ==> forall i :: 0 <= i < |rooms| ==> rooms[i].accessible
      ensures best.Candidate? ==> Joins(rooms, best) && !rooms[best.roomA].accessible && rooms[best.roomB].accessible
      ensures forall i, j :: 0 <= i < |rooms| && 0 <= j < |rooms| && !rooms[i].accessible && rooms[j].accessible ==>
        Beats(best, rooms[i], rooms[j])
      ensures best.Candidate? ==> ClosestAcross(rooms, best.tileA, best.tileB)
    {
      var listA, listB := SplitByFlag();
      best := NoCandidate;
      for k := 0 to |listA|
        invariant best.Candidate? ==>
                  Joins(rooms, best) && !rooms[best.roomA].accessible && rooms[best.roomB].accessible
        invariant forall n :: 0 <= n < k ==> BeatsAll(best, rooms, listA[n], listB)
      {
        assert listA[k] in listA;
        ghost var before := best;
        best := ScanRoom(listA[k], listB, best);
        forall n | 0 <= n < k ensures BeatsAll(best, rooms, listA[n], listB) {
          BetterBeatsAll(before, best, rooms, listA[n], listB);
        }
        forall j | j in listB ensures j !in rooms[listA[k]].connected {
          assert !Linked(rooms, j, listA[k]);
          assert !Linked(rooms, listA[k], j);
        }
        assert BeatsAll(best, rooms, listA[k], listB);
      }
      forall i, j | 0 <= i < |rooms| && 0 <= j < |rooms| && !rooms[i].accessible && rooms[j].accessible
        ensures Beats(best, rooms[i], rooms[j])
      {
        assert i in listA && j in listB;
        var n :| 0 <= n < |listA| && listA[n] == i;
        assert BeatsAll(best, rooms, listA[n], listB);
      }
      forall i | 0 <= i < |rooms| && !rooms[i].accessible ensures best.Candidate? {
        NothingBeatsEdges(rooms[i], rooms[0]);
      }
      if best.Candidate? {
        AcrossInCoordinates(rooms, best);
      }
    }

    /** One round of the forced pass: joins the closest room out of reach, or reports that there is none. */
    method JoinClosest(ghost from: seq<Room>, ghost base: set<Coord>, ghost links: seq<Candidate>)
      returns (done: bool, best: Candidate)
      requires Consistent() && EdgesReady(rooms) && rooms != [] && Grew(from, base, links)
      modifies grid, this`rooms
      ensures Consistent() && EdgesReady(rooms) && |rooms| == |old(rooms)|
      ensures done ==> rooms == old(rooms) && Grew(from, base, links)
      ensures done ==> forall i :: 0 <= i < |rooms| ==> rooms[i].accessible
      ensures !done ==> best.Candidate? && Grew(from, base, links + [best]) && Unmarked(rooms) < Unmarked(old(rooms))
      ensures !done ==> JoinedBy(old(Floor()), old(rooms), best)
      ensures !done ==> !old(rooms)[best.roomA].accessible && old(rooms)[best.roomB].accessible
      ensures !done ==> ClosestAcross(old(rooms), best.tileA, best.tileB)
    {
      ExactFlagsClosed(rooms);
      ReachesSelf(rooms, 0);
      best := ClosestToAccessible();
      done := best.NoCandidate?;
      if !done {
        ghost var before, floor := rooms, Floor();
        assert RoomBacked(Floor(), rooms[best.roomA]) && RoomBacked(Floor(), rooms[best.roomB]);
        CreatePassage(best.roomA, best.roomB, best.tileA, best.tileB);
        JoinStep(before, best.roomA, best.roomB, rooms);
        GrowsByLink(grid.Length0, grid.Length1, from, base, links, before, floor, best, rooms);
      }
    }

    /** The forced pass: one round, and then again while there was a room out of reach. */
    method JoinRemaining(ghost from: seq<Room>, ghost base: set<Coord>, ghost links: seq<Candidate>)
      returns (ghost links': seq<Candidate>)
      requires Consistent() && EdgesReady(rooms) && rooms != [] && Grew(from, base, links)
      requires |rooms| < 2 ==> links == []
      modifies grid, this`rooms
      ensures Consistent() && Grew(from, base, links')
      ensures forall i :: 0 <= i < |rooms| ==> rooms[i].accessible
      ensures |rooms| < 2 ==> links' == []
      decreases false, Unmarked(rooms), 0
    {
      var done, best := JoinClosest(from, base, links);
      links' := links;
      if !done {
        links' := ConnectClosestRooms(true, from, base, links + [best]);
      }
    }

    /**
     * First links every room to its closest, then, forced, links the closest room out of reach to one in reach
     * until none is left. Ends with every room accessible; exactly the passages of the links were carved.
     */
    method ConnectClosestRooms(force: bool, ghost from: seq<Room>, ghost base: set<Coord>, ghost links: seq<Candidate>)
      returns (ghost links': seq<Candidate>)
      requires Consistent() && EdgesReady(rooms) && rooms != [] && Grew(from, base, links)
      requires |rooms| < 2 ==> links == []
      requires !force ==> FirstLinksClosest(rooms)
      modifies grid, this`rooms
      ensures Consistent() && Grew(from, base, links')
      ensures forall i :: 0 <= i < |rooms| ==> rooms[i].accessible
      ensures |rooms| < 2 ==> links' == []
      ensures !force && |rooms| >= 2 ==>
        forall k :: 0 <= k < |rooms| ==> rooms[k].connected != [] && FirstLinkClosest(rooms, k)
      decreases !force, Unmarked(rooms), 1
    {
      if force {
        links' := JoinRemaining(from, base, links);
      } else {
        links' := LinkEachToClosest(from, base, links);
        ghost var mid, floor := rooms, Floor();
        NothingGrown(grid.Length0, grid.Length1, mid, floor);
        ghost var more := ConnectClosestRooms(true, mid, floor, []);
        if |rooms| >= 2 {
          forall k | 0 <= k < |rooms| ensures rooms[k].connected != [] && FirstLinkClosest(rooms, k) {
            FirstLinkStays(mid, rooms, k);
          }
        }
        GrownTrans(grid.Length0, grid.Length1, from, base, links', mid, floor, more, rooms, Floor());
        links' := links' + more;
      }
    }

    /** Sorts the collected rooms and makes the largest the main one, before any passage exists. */
    method ChooseMain(ghost s: set<Coord>) returns (ghost sorted: seq<Room>)
      requires Floor() == LargeRegions(s) && rooms != []
      requires Surveyed(grid.Length0, grid.Length1, s, rooms)
      modifies this`rooms
      ensures Surveyed(grid.Length0, grid.Length1, s, sorted) && Descending(sorted)
      ensures multiset(sorted) == multiset(old(rooms))
      ensures sorted != [] && rooms == WithMain(sorted)
      ensures Consistent() && EdgesReady(rooms)
      ensures FirstLinksClosest(rooms)
    {
      rooms := SortBySize(rooms);
      sorted := rooms;
      SurveyedPermuted(grid.Length0, grid.Length1, s, old(rooms), sorted);
      assert |multiset(sorted)| == |multiset(old(rooms))|;
      rooms := rooms[0 := rooms[0].(isMain := true, accessible := true)];
      RoomsReady(grid.Length0, grid.Length1, s, sorted);
    }

    /**
     * From any map: whatever region pruning leaves is kept, and the floor ends as one piece. The rooms are exactly
     * the large regions, largest first, all accessible.
     */
    method ProcessMap() returns (ghost links: seq<Candidate>)
      modifies grid, this`rooms
      ensures AllConnected(Floor())
      ensures var widened := OpenSmallWalls(grid.Length0, grid.Length1, old(Floor()));
              && LargeRegions(widened) <= Floor()
              && Floor() == LargeRegions(widened) + Passages(grid.Length0, grid.Length1, links) && Made(rooms, links)
              && (|rooms| < 2 ==> Floor() == LargeRegions(widened))
              && (forall r :: r in rooms ==>
                    && RegionOf(widened, r.tiles) && r.roomSize == |r.tiles| >= 20
                    && EdgesExact(grid.Length0, grid.Length1, widened, r))
              && (forall c :: c in LargeRegions(widened) ==> Covered(rooms, c)) && RoomsApart(rooms)
      ensures Descending(rooms) && LinksValid(rooms) && FlagsExact(rooms)
      ensures forall i :: 0 <= i < |rooms| ==> rooms[i].accessible && (rooms[i].isMain <==> i == 0)
      ensures |rooms| >= 2 ==> forall i {:trigger rooms[i]} :: 0 <= i < |rooms| ==>
                && rooms[i].connected != []
                && (Nearest(rooms, i, rooms[i].connected[0]) || Nearest(rooms, rooms[i].connected[0], i))
    {
      links := [];
      PruneWallRegions();
      ghost var s := Floor();
      CollectRooms();
      if rooms == [] {
        NoRoomsNoFloor(s, rooms);
        return;
      }
      ghost var sorted := ChooseMain(s);
      NothingGrown(grid.Length0, grid.Length1, rooms, Floor());
      links := ConnectClosestRooms(false, rooms, Floor(), []);
      AllReachedFloorConnected(Floor(), rooms);
      RoomsKept(grid.Length0, grid.Length1, s, sorted, rooms);
      if |rooms| >= 2 {
        forall i | 0 <= i < |rooms|
          ensures && rooms[i].connected != []
                  && (Nearest(rooms, i, rooms[i].connected[0]) || Nearest(rooms, rooms[i].connected[0], i))
        {
          FirstLinkNearest(rooms, i);
        }
      }
    }
  }
}
