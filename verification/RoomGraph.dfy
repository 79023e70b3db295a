/** The graph of surviving rooms: links, reachability, accessibility flags, and what links mean on the floor. */
module RoomGraph {
  import opened Grid

  datatype Room = Room(tiles: seq<Coord>, edgeTiles: seq<Coord>, connected: seq<nat>, roomSize: nat,
                       accessible: bool, isMain: bool)

  ghost predicate Linked(rooms: seq<Room>, i: nat, j: nat) {
    i < |rooms| && j < |rooms| && j in rooms[i].connected
  }

  /** Links name other rooms of the list and are kept at both ends. */
  ghost predicate LinksValid(rooms: seq<Room>) {
    && (forall i, j :: 0 <= i < |rooms| && j in rooms[i].connected ==> j < |rooms| && j != i)
    && (forall i: nat, j: nat :: Linked(rooms, i, j) ==> Linked(rooms, j, i))
  }

  ghost predicate RoomPath(rooms: seq<Room>, p: seq<nat>) {
    && p != []
    && (forall k :: 0 <= k < |p| ==> p[k] < |rooms|)
    && (forall k :: 0 < k < |p| ==> Linked(rooms, p[k - 1], p[k]))
  }

  ghost predicate PathFromTo(rooms: seq<Room>, p: seq<nat>, i: nat, j: nat) {
    RoomPath(rooms, p) && p[0] == i && p[|p| - 1] == j
  }

  ghost predicate Reaches(rooms: seq<Room>, i: nat, j: nat) {
    exists p: seq<nat> :: PathFromTo(rooms, p, i, j)
  }

  /** No link leads from a flagged room to an unflagged one. */
  ghost predicate FlagsClosed(rooms: seq<Room>) {
    forall v: nat, u: nat :: Linked(rooms, v, u) && rooms[v].accessible ==> rooms[u].accessible
  }

  /** A room's flag is set exactly when the main room, room 0, reaches it. */
  ghost predicate FlagsExact(rooms: seq<Room>) {
    forall i :: 0 <= i < |rooms| ==> (rooms[i].accessible <==> Reaches(rooms, 0, i))
  }

  ghost function Unmarked(rooms: seq<Room>): (s: set<int>)
    ensures forall i :: i in s <==> 0 <= i < |rooms| && !rooms[i].accessible
  {
    set i: int | 0 <= i < |rooms| && !rooms[i].accessible
  }

  ghost predicate SameButFlags(before: seq<Room>, after: seq<Room>) {
    && |before| == |after|
    && (forall i :: 0 <= i < |before| ==> after[i] == before[i].(accessible := after[i].accessible))
    && (forall i :: 0 <= i < |before| && before[i].accessible ==> after[i].accessible)
  }

  /** Reached through rooms without a flag, the two ends included. */
  ghost predicate ReachesUnflagged(rooms: seq<Room>, i: nat, j: nat) {
    exists p: seq<nat> :: PathFromTo(rooms, p, i, j) && Unflagged(rooms, p)
  }

  ghost predicate Unflagged(rooms: seq<Room>, p: seq<nat>) {
    forall k :: 0 <= k < |p| ==> p[k] < |rooms| && !rooms[p[k]].accessible
  }

  /**
   * What marking from `start` achieves: only rooms reached through unflagged rooms are newly flagged, and no link
   * leaves them unflagged. MarkedExactly says that these are all of them.
   */
  ghost predicate MarkedFrom(before: seq<Room>, after: seq<Room>, start: nat) {
    && SameButFlags(before, after)
    && start < |before| && after[start].accessible
    && (forall v: nat, u: nat :: Linked(before, v, u) && !before[v].accessible && after[v].accessible ==>
          after[u].accessible)
    && (forall v: nat :: v < |before| && !before[v].accessible && after[v].accessible ==>
          ReachesUnflagged(before, start, v))
  }

  /** The room list after the two rooms have been linked to one another. */
  function Link(rooms: seq<Room>, a: nat, b: nat): (r: seq<Room>)
    requires a < |rooms| && b < |rooms| && a != b
    ensures |r| == |rooms|
    ensures forall i :: 0 <= i < |rooms| ==>
      r[i] == rooms[i].(connected := if i == a then rooms[i].connected + [b]
                                     else if i == b then rooms[i].connected + [a] else rooms[i].connected)
  {
    var linked := rooms[a := rooms[a].(connected := rooms[a].connected + [b])];
    linked[b := linked[b].(connected := linked[b].connected + [a])]
  }

  // ---------------------------------------------------------------- reachability

  lemma ReachesSelf(rooms: seq<Room>, i: nat)
    requires i < |rooms|
    ensures Reaches(rooms, i, i)
  {
    assert PathFromTo(rooms, [i], i, i);
  }

  lemma ReachesStep(rooms: seq<Room>, i: nat, j: nat, k: nat)
    requires Reaches(rooms, i, j) && Linked(rooms, j, k)
    ensures Reaches(rooms, i, k)
  {
    var p :| PathFromTo(rooms, p, i, j);
    assert PathFromTo(rooms, p + [k], i, k);
  }

  lemma ReachesTrans(rooms: seq<Room>, i: nat, j: nat, k: nat)
    requires Reaches(rooms, i, j) && Reaches(rooms, j, k)
    ensures Reaches(rooms, i, k)
  {
    var p :| PathFromTo(rooms, p, i, j);
    var q :| PathFromTo(rooms, q, j, k);
    var r := p + q[1..];
    forall n | 0 < n < |r| ensures Linked(rooms, r[n - 1], r[n]) {
      if n >= |p| {
        assert r[n - 1] == q[n - |p|] && r[n] == q[n - |p| + 1];
        assert Linked(rooms, q[n - |p|], q[n - |p| + 1]);
      }
    }
    assert PathFromTo(rooms, r, i, k);
  }

  /** Reachability looks at links only, and more links reach at least as much. */
  lemma ReachesMono(before: seq<Room>, after: seq<Room>, i: nat, j: nat)
    requires |before| == |after| && Reaches(before, i, j)
    requires forall n: nat, m: nat :: Linked(before, n, m) ==> Linked(after, n, m)
    ensures Reaches(after, i, j)
  {
    var p :| PathFromTo(before, p, i, j);
    assert PathFromTo(after, p, i, j);
  }

  lemma LinkAdds(rooms: seq<Room>, a: nat, b: nat)
    requires a < |rooms| && b < |rooms| && a != b
    ensures forall n: nat, m: nat :: Linked(Link(rooms, a, b), n, m) <==>
      Linked(rooms, n, m) || (n == a && m == b) || (n == b && m == a)
  {
  }

  lemma LinkKeepsValid(rooms: seq<Room>, a: nat, b: nat)
    requires a < |rooms| && b < |rooms| && a != b && LinksValid(rooms)
    ensures LinksValid(Link(rooms, a, b))
  {
    LinkAdds(rooms, a, b);
  }

  lemma FlagsKeepLinks(before: seq<Room>, after: seq<Room>)
    requires SameButFlags(before, after)
    ensures forall n: nat, m: nat :: Linked(before, n, m) <==> Linked(after, n, m)
    ensures LinksValid(before) ==> LinksValid(after)
  {
  }

  /** Closed flags hold every room that a flagged room reaches. */
  lemma {:induction false} FlagsClosedOnPath(rooms: seq<Room>, p: seq<nat>, n: nat)
    requires RoomPath(rooms, p) && n < |p| && rooms[p[0]].accessible && FlagsClosed(rooms)
    ensures rooms[p[n]].accessible
  {
    if n > 0 {
      FlagsClosedOnPath(rooms, p, n - 1);
      assert Linked(rooms, p[n - 1], p[n]);
    }
  }

  lemma ExactFlagsClosed(rooms: seq<Room>)
    requires FlagsExact(rooms)
    ensures FlagsClosed(rooms)
  {
    forall v: nat, u: nat | Linked(rooms, v, u) && rooms[v].accessible ensures rooms[u].accessible {
      ReachesStep(rooms, 0, v, u);
    }
  }

  lemma ClosedFlagsExact(rooms: seq<Room>)
    requires rooms != [] && rooms[0].accessible && FlagsClosed(rooms)
    requires forall i :: 0 <= i < |rooms| && rooms[i].accessible ==> Reaches(rooms, 0, i)
    ensures FlagsExact(rooms)
  {
    forall i | 0 <= i < |rooms| && Reaches(rooms, 0, i) ensures rooms[i].accessible {
      var p :| PathFromTo(rooms, p, 0, i);
      FlagsClosedOnPath(rooms, p, |p| - 1);
    }
  }

  lemma MarkingReaches(rooms: seq<Room>, a: nat, b: nat, after: seq<Room>, i: nat)
    requires a < |rooms| && b < |rooms| && a != b
    requires FlagsExact(rooms) && rooms[a].accessible
    requires MarkedFrom(Link(rooms, a, b), after, b)
    requires i < |after| && after[i].accessible
    ensures Reaches(after, 0, i)
  {
    var linked := Link(rooms, a, b);
    LinkAdds(rooms, a, b);
    if rooms[i].accessible {
      ReachesMono(rooms, linked, 0, i);
    } else {
      ReachesMono(rooms, linked, 0, a);
      ReachesStep(linked, 0, a, b);
      assert ReachesUnflagged(linked, b, i);
      ReachesTrans(linked, 0, b, i);
    }
    FlagsKeepLinks(linked, after);
    ReachesMono(linked, after, 0, i);
  }

  /** Marking from one end of a new link, when the other end is flagged, keeps the flags exact. */
  lemma LinkKeepsFlagsExact(rooms: seq<Room>, a: nat, b: nat, after: seq<Room>)
    requires a < |rooms| && b < |rooms| && a != b
    requires FlagsExact(rooms) && rooms[a].accessible
    requires MarkedFrom(Link(rooms, a, b), after, b)
    ensures FlagsExact(after)
  {
    var linked := Link(rooms, a, b);
    forall i | 0 <= i < |after| && after[i].accessible ensures Reaches(after, 0, i) {
      MarkingReaches(rooms, a, b, after, i);
    }
    ExactFlagsClosed(rooms);
    LinkAdds(rooms, a, b);
    FlagsKeepLinks(linked, after);
    ReachesSelf(rooms, 0);
    assert FlagsClosed(after);
    ClosedFlagsExact(after);
  }

  /** A new link between two rooms that are both out of reach changes no flag and keeps the flags exact. */
  lemma FarLinkKeepsFlagsExact(rooms: seq<Room>, a: nat, b: nat)
    requires a < |rooms| && b < |rooms| && a != b
    requires FlagsExact(rooms) && !rooms[a].accessible && !rooms[b].accessible
    ensures FlagsExact(Link(rooms, a, b))
  {
    var linked := Link(rooms, a, b);
    LinkAdds(rooms, a, b);
    forall i | 0 <= i < |linked| && linked[i].accessible ensures Reaches(linked, 0, i) {
      ReachesMono(rooms, linked, 0, i);
    }
    ReachesSelf(rooms, 0);
    ExactFlagsClosed(rooms);
    assert FlagsClosed(linked);
    ClosedFlagsExact(linked);
  }

  // ---------------------------------------------------------------- marking

  /** Marking from `start` under way: `start` and its first `k` neighbours are flagged. */
  ghost predicate Marking(before: seq<Room>, now: seq<Room>, start: nat, k: nat) {
    && SameButFlags(before, now)
    && start < |before| && !before[start].accessible && now[start].accessible && k <= |before[start].connected|
    && (forall n :: 0 <= n < k && before[start].connected[n] < |now| ==> now[before[start].connected[n]].accessible)
    && (forall v: nat, u: nat :: v != start && Linked(before, v, u) && !before[v].accessible && now[v].accessible ==>
          now[u].accessible)
    && (forall v: nat :: v < |before| && !before[v].accessible && now[v].accessible ==>
          ReachesUnflagged(before, start, v))
  }

  lemma MarkingStart(before: seq<Room>, start: nat)
    requires start < |before| && !before[start].accessible
    ensures Marking(before, before[start := before[start].(accessible := true)], start, 0)
  {
    assert PathFromTo(before, [start], start, start) && Unflagged(before, [start]);
  }

  lemma MarkingStep(before: seq<Room>, mid: seq<Room>, now: seq<Room>, start: nat, k: nat)
    requires LinksValid(before) && Marking(before, mid, start, k) && k < |before[start].connected|
    requires MarkedFrom(mid, now, before[start].connected[k])
    ensures Marking(before, now, start, k + 1)
  {
    FlagsKeepLinks(before, mid);
    var next := before[start].connected[k];
    assert next in before[start].connected;
    assert Linked(before, start, next);
    forall v: nat | v < |before| && !before[v].accessible && now[v].accessible
      ensures ReachesUnflagged(before, start, v)
    {
      if !mid[v].accessible {
        var p :| PathFromTo(mid, p, next, v) && Unflagged(mid, p);
        assert PathFromTo(before, [start] + p, start, v) && Unflagged(before, [start] + p);
      }
    }
  }

  /** Exactly the rooms reached through unflagged rooms are newly flagged. */
  lemma MarkedExactly(before: seq<Room>, after: seq<Room>, start: nat, v: nat)
    requires MarkedFrom(before, after, start) && v < |before|
    ensures after[v].accessible <==> before[v].accessible || ReachesUnflagged(before, start, v)
  {
    if ReachesUnflagged(before, start, v) {
      var p :| PathFromTo(before, p, start, v) && Unflagged(before, p);
      MarkedAlong(before, after, start, p, |p| - 1);
    }
  }

  lemma {:induction false} MarkedAlong(before: seq<Room>, after: seq<Room>, start: nat, p: seq<nat>, n: nat)
    requires MarkedFrom(before, after, start) && RoomPath(before, p) && p[0] == start && Unflagged(before, p) && n < |p|
    ensures after[p[n]].accessible
  {
    if n > 0 {
      MarkedAlong(before, after, start, p, n - 1);
      assert Linked(before, p[n - 1], p[n]);
    }
  }

  lemma MarkingDone(before: seq<Room>, now: seq<Room>, start: nat)
    requires start < |before| && Marking(before, now, start, |before[start].connected|)
    ensures MarkedFrom(before, now, start)
  {
  }

  // ---------------------------------------------------------------- rooms on the floor

  /**
   * The floor backs up the graph: a room's tiles are joined to its first tile, linked rooms are joined,
   * and every floor cell is joined to some room.
   */
  ghost predicate Backed(floor: set<Coord>, rooms: seq<Room>) {
    && (forall i :: 0 <= i < |rooms| ==> RoomBacked(floor, rooms[i]))
    && (forall i: nat, j: nat :: Linked(rooms, i, j) ==> Connected(floor, rooms[i].tiles[0], rooms[j].tiles[0]))
    && (forall c :: c in floor ==> JoinedToRoom(floor, rooms, c))
  }

  ghost predicate RoomBacked(floor: set<Coord>, room: Room) {
    && room.tiles != []
    && (forall c :: c in room.tiles ==> Connected(floor, room.tiles[0], c))
    && (forall c :: c in room.edgeTiles ==> c in room.tiles)
  }

  ghost predicate JoinedToRoom(floor: set<Coord>, rooms: seq<Room>, c: Coord) {
    exists i :: 0 <= i < |rooms| && JoinedTo(floor, rooms[i], c)
  }

  ghost predicate JoinedTo(floor: set<Coord>, room: Room, c: Coord) {
    room.tiles != [] && Connected(floor, room.tiles[0], c)
  }

  lemma {:induction false} PathJoins(floor: set<Coord>, rooms: seq<Room>, p: seq<nat>, n: nat)
    requires Backed(floor, rooms) && RoomPath(rooms, p) && n < |p|
    ensures Connected(floor, rooms[p[0]].tiles[0], rooms[p[n]].tiles[0])
  {
    if n == 0 {
      assert RoomBacked(floor, rooms[p[0]]);
      assert rooms[p[0]].tiles[0] in rooms[p[0]].tiles;
    } else {
      PathJoins(floor, rooms, p, n - 1);
      assert Linked(rooms, p[n - 1], p[n]);
      ConnectedTrans(floor, rooms[p[0]].tiles[0], rooms[p[n - 1]].tiles[0], rooms[p[n]].tiles[0]);
    }
  }

  /** A floor cell is joined to the main room when the main room reaches every room. */
  lemma JoinedToMain(floor: set<Coord>, rooms: seq<Room>, c: Coord)
    requires Backed(floor, rooms) && c in floor
    requires forall i :: 0 <= i < |rooms| ==> Reaches(rooms, 0, i)
    ensures |rooms| > 0 && rooms[0].tiles != [] && Connected(floor, rooms[0].tiles[0], c)
  {
    assert JoinedToRoom(floor, rooms, c);
    var i :| 0 <= i < |rooms| && JoinedTo(floor, rooms[i], c);
    assert RoomBacked(floor, rooms[0]);
    assert Reaches(rooms, 0, i);
    var p: seq<nat> :| PathFromTo(rooms, p, 0, i);
    PathJoins(floor, rooms, p, |p| - 1);
    ConnectedTrans(floor, rooms[0].tiles[0], rooms[i].tiles[0], c);
  }

  /** When the main room reaches every room, the floor is one piece. */
  lemma AllReachedFloorConnected(floor: set<Coord>, rooms: seq<Room>)
    requires Backed(floor, rooms)
    requires forall i :: 0 <= i < |rooms| ==> Reaches(rooms, 0, i)
    ensures AllConnected(floor)
  {
    forall a, b | a in floor && b in floor ensures Connected(floor, a, b) {
      JoinedToMain(floor, rooms, a);
      JoinedToMain(floor, rooms, b);
      ConnectedSym(floor, rooms[0].tiles[0], a);
      ConnectedTrans(floor, a, rooms[0].tiles[0], b);
    }
  }

  lemma RoomStaysBacked(floor: set<Coord>, floor': set<Coord>, room: Room)
    requires floor <= floor' && RoomBacked(floor, room)
    ensures RoomBacked(floor', room)
  {
    forall c | c in room.tiles ensures Connected(floor', room.tiles[0], c) {
      ConnectedMono(floor, floor', room.tiles[0], c);
    }
  }

  lemma CellStaysJoined(floor: set<Coord>, floor': set<Coord>, rooms: seq<Room>, rooms': seq<Room>, c: Coord)
    requires floor <= floor' && JoinedToRoom(floor, rooms, c) && |rooms| == |rooms'|
    requires forall i :: 0 <= i < |rooms| ==> rooms'[i].tiles == rooms[i].tiles
    ensures JoinedToRoom(floor', rooms', c)
  {
    var i :| 0 <= i < |rooms| && JoinedTo(floor, rooms[i], c);
    ConnectedMono(floor, floor', rooms[i].tiles[0], c);
    assert JoinedTo(floor', rooms'[i], c);
  }

  lemma PassageJoinsRooms(floor: set<Coord>, roomA: Room, roomB: Room, tileA: Coord, tileB: Coord)
    requires RoomBacked(floor, roomA) && RoomBacked(floor, roomB)
    requires tileA in roomA.tiles && tileB in roomB.tiles && Connected(floor, tileA, tileB)
    ensures Connected(floor, roomA.tiles[0], roomB.tiles[0])
    ensures Connected(floor, roomB.tiles[0], roomA.tiles[0])
  {
    var ra, rb := roomA.tiles[0], roomB.tiles[0];
    ConnectedTrans(floor, ra, tileA, tileB);
    ConnectedSym(floor, rb, tileB);
    ConnectedTrans(floor, ra, tileB, rb);
    ConnectedSym(floor, ra, rb);
  }

  /** Carving a passage between two rooms and linking them keeps the floor behind the graph. */
  lemma LinkKeepsBacked(floor: set<Coord>, floor': set<Coord>, rooms: seq<Room>, a: nat, b: nat,
                        tileA: Coord, tileB: Coord)
    requires Backed(floor, rooms) && floor <= floor'
    requires a < |rooms| && b < |rooms| && a != b
    requires tileA in rooms[a].tiles && tileB in rooms[b].tiles
    requires Connected(floor', tileA, tileB)
    requires forall c :: c in floor' && c !in floor ==> Connected(floor', tileA, c)
    ensures Backed(floor', Link(rooms, a, b))
  {
    var linked := Link(rooms, a, b);
    LinkAdds(rooms, a, b);
    forall i | 0 <= i < |rooms| ensures RoomBacked(floor', linked[i]) {
      RoomStaysBacked(floor, floor', rooms[i]);
    }
    PassageJoinsRooms(floor', linked[a], linked[b], tileA, tileB);
    forall i: nat, j: nat | Linked(linked, i, j) ensures Connected(floor', linked[i].tiles[0], linked[j].tiles[0]) {
      if Linked(rooms, i, j) {
        ConnectedMono(floor, floor', rooms[i].tiles[0], rooms[j].tiles[0]);
      }
    }
    forall c | c in floor' ensures JoinedToRoom(floor', linked, c) {
      if c in floor {
        CellStaysJoined(floor, floor', rooms, linked, c);
      } else {
        ConnectedTrans(floor', linked[a].tiles[0], tileA, c);
        assert JoinedTo(floor', linked[a], c);
      }
    }
  }

  lemma FlagsDoNotMatter(floor: set<Coord>, before: seq<Room>, after: seq<Room>)
    requires Backed(floor, before) && SameButFlags(before, after)
    ensures Backed(floor, after)
  {
    FlagsKeepLinks(before, after);
    forall c | c in floor ensures JoinedToRoom(floor, after, c) {
      CellStaysJoined(floor, floor, before, after, c);
    }
  }
}
