/** Regions of a map: flood fills, exact components, and what pruning by size leaves. */
module Regions {
  import opened Grid
  import opened RoomGraph

  const WALL_THRESHOLD_SIZE := 15
  const ROOM_THRESHOLD_SIZE := 20

  ghost function ToSet(s: seq<Coord>): (r: set<Coord>)
    ensures forall c :: c in r <==> c in s
  {
    set c | c in s
  }

  ghost predicate NoDup(s: seq<Coord>) {
    forall i, j :: 0 <= i < j < |s| ==> s[i] != s[j]
  }

  lemma {:induction false} NoDupSize(s: seq<Coord>)
    requires NoDup(s)
    ensures |ToSet(s)| == |s|
  {
    if s == [] {
      assert ToSet(s) == {};
    } else {
      var last := |s| - 1;
      NoDupSize(s[..last]);
      assert s == s[..last] + [s[last]];
      assert ToSet(s) == ToSet(s[..last]) + {s[last]};
      assert s[last] !in ToSet(s[..last]);
    }
  }

  /** `regions` lists every component of `s` exactly once, each as a duplicate-free list of its cells. */
  ghost predicate RegionsOf(s: set<Coord>, regions: seq<seq<Coord>>) {
    && (forall k {:trigger RegionOf(s, regions[k])} :: 0 <= k < |regions| ==> RegionOf(s, regions[k]))
    && (forall j, k :: 0 <= j < k < |regions| ==> ToSet(regions[j]) !! ToSet(regions[k]))
    && (forall c {:trigger Listed(regions, |regions|, c)} :: c in s ==> Listed(regions, |regions|, c))
  }

  ghost predicate RegionOf(s: set<Coord>, region: seq<Coord>) {
    region != [] && region[0] in s && NoDup(region) && ToSet(region) == Component(s, region[0])
  }

  /** The cell is in one of the first `k` regions. */
  ghost predicate Listed(regions: seq<seq<Coord>>, k: nat, c: Coord) {
    exists j :: 0 <= j < k && j < |regions| && c in regions[j]
  }

  /**
   * A flood fill under way: `all` lists the cells met so far in the order they were queued, and the first `k`
   * of them have had their neighbours looked at.
   */
  ghost predicate Flooding(s: set<Coord>, start: Coord, all: seq<Coord>, k: nat) {
    && k <= |all| && all != [] && all[0] == start && NoDup(all)
    && (forall c :: c in all ==> c in s && Connected(s, start, c))
    && (forall i, d :: 0 <= i < k && d in s && Adjacent(all[i], d) ==> d in all)
  }

  lemma NoDupConcat(a: seq<Coord>, b: seq<Coord>)
    requires NoDup(a) && NoDup(b) && forall c :: c in b ==> c !in a
    ensures NoDup(a + b)
  {
    forall i, j | 0 <= i < j < |a + b| ensures (a + b)[i] != (a + b)[j] {
      if i < |a| <= j {
        assert b[j - |a|] in b && a[i] in a;
      }
    }
  }

  lemma FloodStep(s: set<Coord>, start: Coord, all: seq<Coord>, k: nat, added: seq<Coord>)
    requires Flooding(s, start, all, k) && k < |all|
    requires NoDup(added)
    requires forall c :: c in added ==> c in s && c !in all && Adjacent(all[k], c)
    requires forall c :: c in s && Adjacent(all[k], c) ==> c in all || c in added
    ensures Flooding(s, start, all + added, k + 1)
  {
    assert all[k] in all;
    NoDupConcat(all, added);
    forall c | c in added ensures Connected(s, start, c) {
      ConnectedAdjacent(s, all[k], c);
      ConnectedTrans(s, start, all[k], c);
    }
  }

  lemma FloodDone(s: set<Coord>, start: Coord, all: seq<Coord>)
    requires Flooding(s, start, all, |all|)
    ensures RegionOf(s, all)
  {
    assert start in all;
    forall u, v | u in ToSet(all) && v in s && Adjacent(u, v) ensures v in ToSet(all) {
      var i :| 0 <= i < |all| && all[i] == u;
    }
    forall c | c in s && Connected(s, start, c) ensures c in all {
      ClosedHoldsConnected(s, ToSet(all), start, c);
    }
  }

  /** `regions` lists some components of `s` without overlap, and `seen` is what they hold. */
  ghost predicate Collected(s: set<Coord>, regions: seq<seq<Coord>>, seen: set<Coord>) {
    && (forall k {:trigger RegionOf(s, regions[k])} :: 0 <= k < |regions| ==> RegionOf(s, regions[k]))
    && (forall j, k :: 0 <= j < k < |regions| ==> ToSet(regions[j]) !! ToSet(regions[k]))
    && (forall c :: c in seen <==> Listed(regions, |regions|, c))
  }

  lemma RegionsApart(s: set<Coord>, r: seq<Coord>, r': seq<Coord>)
    requires RegionOf(s, r) && RegionOf(s, r') && r'[0] !in r
    ensures ToSet(r) !! ToSet(r')
  {
    ConnectedRefl(s, r'[0]);
    if c :| c in ToSet(r) && c in ToSet(r') {
      ComponentsAgree(s, r[0], c);
      ComponentsAgree(s, r'[0], c);
    }
  }

  lemma CollectStep(s: set<Coord>, regions: seq<seq<Coord>>, seen: set<Coord>, region: seq<Coord>)
    requires Collected(s, regions, seen) && RegionOf(s, region) && region[0] !in seen
    ensures Collected(s, regions + [region], seen + ToSet(region))
  {
    forall k | 0 <= k < |regions| ensures ToSet(regions[k]) !! ToSet(region) {
      assert !Listed(regions, |regions|, region[0]);
      RegionsApart(s, regions[k], region);
    }
    var all := regions + [region];
    forall c | c in seen + ToSet(region) ensures Listed(all, |all|, c) {
      if c in seen {
        assert Listed(regions, |regions|, c);
        var k :| 0 <= k < |regions| && c in regions[k];
        assert c in all[k];
      } else {
        assert c in all[|regions|];
      }
    }
    forall c | Listed(all, |all|, c) ensures c in seen + ToSet(region) {
      var k :| 0 <= k < |all| && c in all[k];
      if k < |regions| {
        assert Listed(regions, |regions|, c);
      }
    }
  }

  // ---------------------------------------------------------------- pruning

  /** The floor after wall regions below the threshold have been opened up. */
  ghost function OpenSmallWalls(w: nat, h: nat, floor: set<Coord>): set<Coord> {
    var walls := AllCells(w, h) - floor;
    floor + set c | c in walls && |Component(walls, c)| < WALL_THRESHOLD_SIZE
  }

  /** The floor after floor regions below the threshold have been filled in. */
  ghost function LargeRegions(floor: set<Coord>): set<Coord> {
    set c | c in floor && |Component(floor, c)| >= ROOM_THRESHOLD_SIZE
  }

  /** A listed cell's component is its region, so their sizes agree. */
  lemma RegionSize(s: set<Coord>, region: seq<Coord>, c: Coord)
    requires RegionOf(s, region) && c in region
    ensures Component(s, c) == ToSet(region) && |Component(s, c)| == |region|
  {
    ComponentsAgree(s, region[0], c);
    NoDupSize(region);
  }

  /** All cells of those of the first `k` regions that are below the threshold. */
  ghost function SmallCells(regions: seq<seq<Coord>>, k: nat, threshold: nat): set<Coord>
    requires k <= |regions|
  {
    if k == 0 then {}
    else SmallCells(regions, k - 1, threshold) + if |regions[k - 1]| < threshold then ToSet(regions[k - 1]) else {}
  }

  lemma {:induction false} SmallCellsExact(s: set<Coord>, regions: seq<seq<Coord>>, k: nat, threshold: nat, c: Coord)
    requires RegionsOf(s, regions) && k <= |regions|
    ensures c in SmallCells(regions, k, threshold) <==> Listed(regions, k, c) && |Component(s, c)| < threshold
  {
    if k > 0 {
      SmallCellsExact(s, regions, k - 1, threshold, c);
      assert RegionOf(s, regions[k - 1]);
      if c in regions[k - 1] {
        RegionSize(s, regions[k - 1], c);
      }
    }
  }

  /** Taken over all regions, these are the cells whose component is below the threshold. */
  lemma SmallCellsAll(s: set<Coord>, regions: seq<seq<Coord>>, threshold: nat)
    requires RegionsOf(s, regions)
    ensures SmallCells(regions, |regions|, threshold) == set c | c in s && |Component(s, c)| < threshold
  {
    forall c ensures c in SmallCells(regions, |regions|, threshold) <==> c in s && |Component(s, c)| < threshold {
      SmallCellsExact(s, regions, |regions|, threshold, c);
      if Listed(regions, |regions|, c) {
        var j :| 0 <= j < |regions| && c in regions[j];
        assert RegionOf(s, regions[j]) && c in ToSet(regions[j]);
      }
    }
  }

  /** A surviving room: one large component, with its edge tiles, not yet linked. */
  ghost predicate RoomOf(w: nat, h: nat, s: set<Coord>, room: Room) {
    && RegionOf(s, room.tiles) && room.roomSize == |room.tiles| >= ROOM_THRESHOLD_SIZE
    && EdgesExact(w, h, s, room)
    && room.connected == [] && !room.accessible && !room.isMain
  }

  /** The edge tiles are the tiles beside a wall. */
  ghost predicate EdgesExact(w: nat, h: nat, s: set<Coord>, room: Room) {
    forall c :: c in room.edgeTiles <==> c in room.tiles && BesideWall(w, h, s, c)
  }

  ghost predicate BesideWall(w: nat, h: nat, floor: set<Coord>, c: Coord) {
    exists d :: InRange(w, h, d) && Adjacent(c, d) && d !in floor
  }

  ghost predicate Covered(rooms: seq<Room>, c: Coord) {
    exists r :: r in rooms && c in r.tiles
  }

  /** No cell is in two rooms. */
  ghost predicate RoomsApart(rooms: seq<Room>) {
    forall i, j :: 0 <= i < j < |rooms| ==> ToSet(rooms[i].tiles) !! ToSet(rooms[j].tiles)
  }

  /** What the region pass leaves behind: exactly the large components of `s`, each as one room. */
  ghost predicate Surveyed(w: nat, h: nat, s: set<Coord>, rooms: seq<Room>) {
    && (forall r :: r in rooms ==> RoomOf(w, h, s, r))
    && (forall c :: c in LargeRegions(s) ==> Covered(rooms, c)) && RoomsApart(rooms)
    && (|rooms| >= 2 ==> forall r :: r in rooms ==> r.edgeTiles != [])
  }

  /** With another room on the map, a room cannot fill the map and so has an edge tile. */
  lemma OtherRoomGivesEdge(w: nat, h: nat, s: set<Coord>, room: Room, other: Room)
    requires RoomOf(w, h, s, room) && RoomOf(w, h, s, other) && ToSet(room.tiles) !! ToSet(other.tiles)
    requires s <= AllCells(w, h)
    ensures room.edgeTiles != []
  {
    var a, b := room.tiles[0], other.tiles[0];
    assert b in other.tiles && b in ToSet(other.tiles);
    ConnectedRefl(s, a);
    assert a in ToSet(room.tiles);
    var u, v := PartHasBorder(w, h, ToSet(room.tiles), a, b);
    if v in s {
      ConnectedAdjacent(s, u, v);
      ConnectedTrans(s, a, u, v);
      assert false;
    }
    assert BesideWall(w, h, s, u);
  }

  /** Beside a tile of a region, what is missing from the floor is what was missing before the pruning. */
  lemma EdgesUnmoved(w: nat, h: nat, s: set<Coord>, floor: set<Coord>, region: seq<Coord>, c: Coord)
    requires RegionOf(s, region) && c in region && ToSet(region) <= floor <= s
    ensures BesideWall(w, h, floor, c) <==> BesideWall(w, h, s, c)
  {
    assert c in ToSet(region);
    forall d | Adjacent(c, d) && d in s ensures d in floor {
      ConnectedAdjacent(s, c, d);
      ConnectedTrans(s, region[0], c, d);
      assert d in ToSet(region);
    }
  }

  lemma LargeRegionSpared(s: set<Coord>, regions: seq<seq<Coord>>, k: nat, n: nat)
    requires RegionsOf(s, regions) && n < |regions| && k <= |regions|
    requires |regions[n]| >= ROOM_THRESHOLD_SIZE
    ensures ToSet(regions[n]) <= s - SmallCells(regions, k, ROOM_THRESHOLD_SIZE)
  {
    assert RegionOf(s, regions[n]);
    forall c | c in regions[n] ensures c in s && c !in SmallCells(regions, k, ROOM_THRESHOLD_SIZE) {
      assert c in ToSet(regions[n]);
      RegionSize(s, regions[n], c);
      SmallCellsExact(s, regions, k, ROOM_THRESHOLD_SIZE, c);
    }
  }

  /** The rooms collected from the first `k` regions: `kept` says which regions they are. */
  ghost predicate KeptRooms(w: nat, h: nat, s: set<Coord>, regions: seq<seq<Coord>>, k: nat,
                            rooms: seq<Room>, kept: seq<nat>)
  {
    && k <= |regions| && |kept| == |rooms|
    && (forall i {:trigger rooms[i]} :: 0 <= i < |rooms| ==>
          kept[i] < k && rooms[i].tiles == regions[kept[i]] && RoomOf(w, h, s, rooms[i]))
    && (forall i, j :: 0 <= i < j < |kept| ==> kept[i] != kept[j])
    && (forall n :: 0 <= n < k && |regions[n]| >= ROOM_THRESHOLD_SIZE ==> n in kept)
  }

  lemma KeptRoomsSurveyed(w: nat, h: nat, s: set<Coord>, regions: seq<seq<Coord>>, rooms: seq<Room>, kept: seq<nat>)
    requires RegionsOf(s, regions) && s <= AllCells(w, h)
    requires KeptRooms(w, h, s, regions, |regions|, rooms, kept)
    ensures Surveyed(w, h, s, rooms)
  {
    forall c | c in LargeRegions(s) ensures Covered(rooms, c) {
      assert Listed(regions, |regions|, c);
      var n :| 0 <= n < |regions| && c in regions[n];
      assert RegionOf(s, regions[n]);
      RegionSize(s, regions[n], c);
      var i :| 0 <= i < |kept| && kept[i] == n;
      assert rooms[i] in rooms && c in rooms[i].tiles;
    }
    forall i, j | 0 <= i < j < |rooms| ensures ToSet(rooms[i].tiles) !! ToSet(rooms[j].tiles) {
      assert rooms[i].tiles == regions[kept[i]] && rooms[j].tiles == regions[kept[j]];
      assert kept[i] != kept[j] && ToSet(regions[kept[i]]) !! ToSet(regions[kept[j]]);
    }
    if |rooms| >= 2 {
      forall r | r in rooms ensures r.edgeTiles != [] {
        var i :| 0 <= i < |rooms| && rooms[i] == r;
        var j := if i == 0 then 1 else 0;
        assert RoomOf(w, h, s, rooms[i]) && RoomOf(w, h, s, rooms[j]);
        OtherRoomGivesEdge(w, h, s, rooms[i], rooms[j]);
      }
    }
  }

  lemma KeptRoomsSkip(w: nat, h: nat, s: set<Coord>, regions: seq<seq<Coord>>, k: nat, rooms: seq<Room>, kept: seq<nat>)
    requires KeptRooms(w, h, s, regions, k, rooms, kept) && k < |regions| && |regions[k]| < ROOM_THRESHOLD_SIZE
    ensures KeptRooms(w, h, s, regions, k + 1, rooms, kept)
  {
    forall i | 0 <= i < |rooms|
      ensures kept[i] < k + 1 && rooms[i].tiles == regions[kept[i]] && RoomOf(w, h, s, rooms[i])
    {
      assert RoomOf(w, h, s, rooms[i]) && kept[i] < k;
    }
  }

  lemma KeptRoomsAdd(w: nat, h: nat, s: set<Coord>, regions: seq<seq<Coord>>, k: nat, rooms: seq<Room>, kept: seq<nat>,
                     room: Room)
    requires KeptRooms(w, h, s, regions, k, rooms, kept) && k < |regions|
    requires RoomOf(w, h, s, room) && room.tiles == regions[k]
    ensures KeptRooms(w, h, s, regions, k + 1, rooms + [room], kept + [k])
  {
    var rooms', kept' := rooms + [room], kept + [k];
    forall i | 0 <= i < |rooms'|
      ensures kept'[i] < k + 1 && rooms'[i].tiles == regions[kept'[i]] && RoomOf(w, h, s, rooms'[i])
    {
      assert i < |rooms| ==> rooms'[i] == rooms[i];
    }
    forall i, j | 0 <= i < j < |kept'| ensures kept'[i] != kept'[j] {
      assert rooms[i] == rooms'[i];
    }
    forall n | 0 <= n < k + 1 && |regions[n]| >= ROOM_THRESHOLD_SIZE ensures n in kept' {
      assert kept'[|kept|] == k;
    }
  }

  // ---------------------------------------------------------------- rooms in another order

  lemma {:induction false} ApartOnce(rooms: seq<Room>, r: Room)
    requires RoomsApart(rooms) && forall i :: 0 <= i < |rooms| ==> rooms[i].tiles != []
    ensures multiset(rooms)[r] <= 1 && (r !in rooms ==> multiset(rooms)[r] == 0)
  {
    if rooms != [] {
      ApartOnce(rooms[1..], r);
      assert rooms == [rooms[0]] + rooms[1..];
      assert rooms[0].tiles[0] in ToSet(rooms[0].tiles);
      assert rooms[0] !in rooms[1..];
    }
  }

  lemma Twice(rooms: seq<Room>, i: nat, j: nat)
    requires i < j < |rooms| && rooms[i] == rooms[j]
    ensures multiset(rooms)[rooms[i]] >= 2
  {
    assert rooms == rooms[..i] + [rooms[i]] + rooms[i + 1..j] + [rooms[j]] + rooms[j + 1..];
  }

  lemma ApartPermuted(rooms: seq<Room>, sorted: seq<Room>)
    requires RoomsApart(rooms) && multiset(sorted) == multiset(rooms)
    requires forall i :: 0 <= i < |rooms| ==> rooms[i].tiles != []
    ensures RoomsApart(sorted)
  {
    forall i, j | 0 <= i < j < |sorted| ensures ToSet(sorted[i].tiles) !! ToSet(sorted[j].tiles) {
      ApartOnce(rooms, sorted[i]);
      if sorted[i] == sorted[j] {
        Twice(sorted, i, j);
      } else {
        assert sorted[i] in multiset(sorted) && sorted[j] in multiset(sorted);
        var a :| 0 <= a < |rooms| && rooms[a] == sorted[i];
        var b :| 0 <= b < |rooms| && rooms[b] == sorted[j];
        assert ToSet(rooms[a].tiles) !! ToSet(rooms[b].tiles);
      }
    }
  }
}
