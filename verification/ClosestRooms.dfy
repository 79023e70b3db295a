/** Which rooms are linked to which: closest pairs of edge tiles, and how links accumulate. */
module ClosestRooms {
  import opened Grid
  import opened RoomGraph

  function Distance(a: Coord, b: Coord): int {
    (a.x - b.x) * (a.x - b.x) + (a.y - b.y) * (a.y - b.y)
  }

  /**
   * Tiles `a` and `b` are no farther apart than `s` and `t`, in squared Euclidean distance. Written out, so that what
   * is proved of closest rooms does not rest on the function that the loops compute with.
   */
  ghost predicate NoFarther(a: Coord, b: Coord, s: Coord, t: Coord) {
    (a.x - b.x) * (a.x - b.x) + (a.y - b.y) * (a.y - b.y) <= (s.x - t.x) * (s.x - t.x) + (s.y - t.y) * (s.y - t.y)
  }

  /** The best connection seen so far, if any. */
  datatype Candidate = NoCandidate | Candidate(distance: int, roomA: nat, roomB: nat, tileA: Coord, tileB: Coord)

  predicate AtMost(best: Candidate, distance: int) {
    best.Candidate? && best.distance <= distance
  }

  ghost predicate Joins(rooms: seq<Room>, best: Candidate) {
    && best.Candidate? && best.roomA < |rooms| && best.roomB < |rooms| && best.roomA != best.roomB
    && best.tileA in rooms[best.roomA].edgeTiles && best.tileB in rooms[best.roomB].edgeTiles
    && best.distance == Distance(best.tileA, best.tileB)
  }

  /** `best` is no further than any pair of edge tiles of the two rooms. */
  ghost predicate Beats(best: Candidate, roomA: Room, roomB: Room) {
    forall s, t {:trigger Distance(s, t)} ::
      s in roomA.edgeTiles && t in roomB.edgeTiles ==> AtMost(best, Distance(s, t))
  }

  lemma BetterBeats(best: Candidate, better: Candidate, roomA: Room, roomB: Room)
    requires Beats(best, roomA, roomB) && (best.Candidate? ==> AtMost(better, best.distance))
    ensures Beats(better, roomA, roomB)
  {
  }

  ghost predicate BeatsAll(best: Candidate, rooms: seq<Room>, i: nat, others: seq<nat>) {
    i < |rooms| && forall j {:trigger rooms[j]} :: j in others && j < |rooms| ==> Beats(best, rooms[i], rooms[j])
  }

  lemma BetterBeatsAll(best: Candidate, better: Candidate, rooms: seq<Room>, i: nat, others: seq<nat>)
    requires BeatsAll(best, rooms, i, others) && (best.Candidate? ==> AtMost(better, best.distance))
    ensures BeatsAll(better, rooms, i, others)
  {
  }

  lemma NothingBeatsEdges(roomA: Room, roomB: Room)
    requires roomA.edgeTiles != [] && roomB.edgeTiles != []
    ensures !Beats(NoCandidate, roomA, roomB)
  {
    var s, t := roomA.edgeTiles[0], roomB.edgeTiles[0];
    assert s in roomA.edgeTiles && t in roomB.edgeTiles && !AtMost(NoCandidate, Distance(s, t));
  }

  /** No room is nearer to room `i` than room `j`. */
  ghost predicate Closest(rooms: seq<Room>, i: nat, j: nat) {
    exists best :: Joins(rooms, best) && best.roomA == i && best.roomB == j && BeatsOthers(rooms, best)
  }

  ghost predicate BeatsOthers(rooms: seq<Room>, best: Candidate)
    requires Joins(rooms, best)
  {
    forall k :: 0 <= k < |rooms| && k != best.roomA ==> Beats(best, rooms[best.roomA], rooms[k])
  }

  /** A room's first link is to its closest room, or comes from a room whose closest it is. */
  ghost predicate FirstLinkClosest(rooms: seq<Room>, i: nat)
    requires i < |rooms|
  {
    rooms[i].connected != [] ==> Closest(rooms, i, rooms[i].connected[0]) || Closest(rooms, rooms[i].connected[0], i)
  }

  ghost predicate FirstLinksClosest(rooms: seq<Room>) {
    forall k :: 0 <= k < |rooms| ==> FirstLinkClosest(rooms, k)
  }

  /** Some pair of edge tiles of rooms `i` and `j` is no farther apart than any edge tiles of `i` and any other room. */
  ghost predicate Nearest(rooms: seq<Room>, i: nat, j: nat) {
    && i < |rooms| && j < |rooms| && i != j
    && exists a, b :: a in rooms[i].edgeTiles && b in rooms[j].edgeTiles && NearestPair(rooms, i, a, b)
  }

  ghost predicate NearestPair(rooms: seq<Room>, i: nat, a: Coord, b: Coord)
    requires i < |rooms|
  {
    forall k, s, t {:trigger NoFarther(a, b, s, t), rooms[k]} ::
      0 <= k < |rooms| && k != i && s in rooms[i].edgeTiles && t in rooms[k].edgeTiles ==> NoFarther(a, b, s, t)
  }

  /** A candidate that beats two rooms has tiles no farther apart than any edge tiles of theirs. */
  lemma BeatsInCoordinates(best: Candidate, roomA: Room, roomB: Room, s: Coord, t: Coord)
    requires best.Candidate? && best.distance == Distance(best.tileA, best.tileB) && Beats(best, roomA, roomB)
    requires s in roomA.edgeTiles && t in roomB.edgeTiles
    ensures NoFarther(best.tileA, best.tileB, s, t)
  {
    assert AtMost(best, Distance(s, t));
  }

  lemma ClosestIsNearest(rooms: seq<Room>, i: nat, j: nat)
    requires Closest(rooms, i, j)
    ensures Nearest(rooms, i, j)
  {
    var best :| Joins(rooms, best) && best.roomA == i && best.roomB == j && BeatsOthers(rooms, best);
    forall k, s, t | 0 <= k < |rooms| && k != i && s in rooms[i].edgeTiles && t in rooms[k].edgeTiles
      ensures NoFarther(best.tileA, best.tileB, s, t)
    {
      BeatsInCoordinates(best, rooms[i], rooms[k], s, t);
    }
    assert NearestPair(rooms, i, best.tileA, best.tileB);
  }

  /** In coordinates: a room's first link leads to a nearest room, or comes from a room whose nearest it is. */
  lemma FirstLinkNearest(rooms: seq<Room>, i: nat)
    requires i < |rooms| && FirstLinkClosest(rooms, i) && rooms[i].connected != []
    ensures var j := rooms[i].connected[0]; Nearest(rooms, i, j) || Nearest(rooms, j, i)
  {
    var j := rooms[i].connected[0];
    if Closest(rooms, i, j) { ClosestIsNearest(rooms, i, j); } else { ClosestIsNearest(rooms, j, i); }
  }

  /** Only links and flags differ, and links are only added at the end. */
  ghost predicate Extends(before: seq<Room>, after: seq<Room>) {
    && |before| == |after|
    && forall i :: 0 <= i < |before| ==>
         && after[i] == before[i].(connected := after[i].connected, accessible := after[i].accessible)
         && before[i].connected <= after[i].connected
         && (before[i].accessible ==> after[i].accessible)
  }

  lemma ClosestStays(before: seq<Room>, after: seq<Room>, i: nat, j: nat)
    requires Extends(before, after) && Closest(before, i, j)
    ensures Closest(after, i, j)
  {
    var best :| Joins(before, best) && best.roomA == i && best.roomB == j && BeatsOthers(before, best);
    assert Joins(after, best);
    forall k | 0 <= k < |after| && k != best.roomA ensures Beats(best, after[best.roomA], after[k]) {
      assert Beats(best, before[best.roomA], before[k]);
    }
    assert BeatsOthers(after, best);
  }

  lemma FirstLinkStays(before: seq<Room>, after: seq<Room>, i: nat)
    requires Extends(before, after) && i < |before| && FirstLinkClosest(before, i) && before[i].connected != []
    ensures FirstLinkClosest(after, i)
  {
    var j := before[i].connected[0];
    assert after[i].connected[0] == j;
    if Closest(before, i, j) { ClosestStays(before, after, i, j); } else { ClosestStays(before, after, j, i); }
  }

  lemma LinkExtends(before: seq<Room>, a: nat, b: nat, after: seq<Room>)
    requires a < |before| && b < |before| && a != b && SameButFlags(Link(before, a, b), after)
    ensures Extends(before, after)
  {
  }

  lemma ExtendsTrans(a: seq<Room>, b: seq<Room>, c: seq<Room>)
    requires Extends(a, b) && Extends(b, c)
    ensures Extends(a, c)
  {
  }

  /** With two or more rooms, every room has an edge tile. */
  ghost predicate EdgesReady(rooms: seq<Room>) {
    |rooms| >= 2 ==> forall i :: 0 <= i < |rooms| ==> rooms[i].edgeTiles != []
  }

  /** Linking a still unlinked room to its closest keeps every first link a closest one. */
  lemma FirstLinksStep(before: seq<Room>, best: Candidate, after: seq<Room>)
    requires Joins(before, best) && BeatsOthers(before, best) && before[best.roomA].connected == []
    requires SameButFlags(Link(before, best.roomA, best.roomB), after)
    requires forall k :: 0 <= k < |before| ==> FirstLinkClosest(before, k)
    ensures forall k :: 0 <= k < |after| ==> FirstLinkClosest(after, k)
  {
    LinkExtends(before, best.roomA, best.roomB, after);
    assert Closest(before, best.roomA, best.roomB);
    ClosestStays(before, after, best.roomA, best.roomB);
    forall k | 0 <= k < |after| ensures FirstLinkClosest(after, k) {
      if before[k].connected != [] {
        FirstLinkStays(before, after, k);
      }
    }
  }
}
