/** Cells of a rectangular map, walks between 4-adjacent cells, and connected components. */
module Grid {

  datatype Coord = Coord(x: int, y: int)

  function Abs(n: int): nat {
    if n < 0 then -n else n
  }

  function Manhattan(a: Coord, b: Coord): nat {
    Abs(a.x - b.x) + Abs(a.y - b.y)
  }

  predicate Adjacent(a: Coord, b: Coord) {
    Manhattan(a, b) == 1
  }

  predicate InRange(w: nat, h: nat, c: Coord) {
    0 <= c.x < w && 0 <= c.y < h
  }

  /** Every cell of a w by h map. */
  ghost function AllCells(w: nat, h: nat): (cells: set<Coord>)
    ensures forall c: Coord :: c in cells <==> InRange(w, h, c)
  {
    set x: int, y: int | 0 <= x < w && 0 <= y < h :: Coord(x, y)
  }

  // ---------------------------------------------------------------- walks

  /** A non-empty sequence of cells of `s`, each next to the one before it. */
  ghost predicate Walk(s: set<Coord>, p: seq<Coord>) {
    && p != []
    && (forall i :: 0 <= i < |p| ==> p[i] in s)
    && (forall i :: 0 < i < |p| ==> Adjacent(p[i - 1], p[i]))
  }

  ghost predicate WalkFromTo(s: set<Coord>, p: seq<Coord>, a: Coord, b: Coord) {
    Walk(s, p) && p[0] == a && p[|p| - 1] == b
  }

  ghost predicate Connected(s: set<Coord>, a: Coord, b: Coord) {
    exists p: seq<Coord> :: WalkFromTo(s, p, a, b)
  }

  /** Any two cells of `s` are joined by a walk inside `s`. */
  ghost predicate AllConnected(s: set<Coord>) {
    forall a, b :: a in s && b in s ==> Connected(s, a, b)
  }

  ghost function Component(s: set<Coord>, c: Coord): set<Coord> {
    set d | d in s && Connected(s, c, d)
  }

  lemma ConnectedEnds(s: set<Coord>, a: Coord, b: Coord)
    requires Connected(s, a, b)
    ensures a in s && b in s
  {
  }

  lemma ConnectedRefl(s: set<Coord>, a: Coord)
    requires a in s
    ensures Connected(s, a, a)
  {
    assert WalkFromTo(s, [a], a, a);
  }

  lemma ConnectedAdjacent(s: set<Coord>, a: Coord, b: Coord)
    requires a in s && b in s && Adjacent(a, b)
    ensures Connected(s, a, b)
  {
    assert WalkFromTo(s, [a, b], a, b);
  }

  lemma ConnectedMono(s: set<Coord>, t: set<Coord>, a: Coord, b: Coord)
    requires s <= t && Connected(s, a, b)
    ensures Connected(t, a, b)
  {
    var p :| WalkFromTo(s, p, a, b);
    assert WalkFromTo(t, p, a, b);
  }

  lemma ConnectedSym(s: set<Coord>, a: Coord, b: Coord)
    requires Connected(s, a, b)
    ensures Connected(s, b, a)
  {
    var p :| WalkFromTo(s, p, a, b);
    var q := seq(|p|, i requires 0 <= i < |p| => p[|p| - 1 - i]);
    forall i | 0 < i < |q| ensures Adjacent(q[i - 1], q[i]) {
      var k := |p| - i;
      assert Adjacent(p[k - 1], p[k]);
    }
    assert WalkFromTo(s, q, b, a);
  }

  lemma ConnectedTrans(s: set<Coord>, a: Coord, b: Coord, c: Coord)
    requires Connected(s, a, b) && Connected(s, b, c)
    ensures Connected(s, a, c)
  {
    var p :| WalkFromTo(s, p, a, b);
    var q :| WalkFromTo(s, q, b, c);
    var r := p + q[1..];
    forall i | 0 < i < |r| ensures Adjacent(r[i - 1], r[i]) {
      if i == |p| {
        assert r[i - 1] == q[0] && r[i] == q[1];
      } else if i > |p| {
        var k := i - |p| + 1;
        assert r[i - 1] == q[k - 1] && r[i] == q[k];
      }
    }
    assert WalkFromTo(s, r, a, c);
  }

  /** A set that is closed under steps inside `s` holds everything `s` connects to it. */
  lemma {:induction false} ClosedUnderSteps(s: set<Coord>, t: set<Coord>, p: seq<Coord>, i: nat)
    requires Walk(s, p) && i < |p| && p[0] in t
    requires forall u, v :: u in t && v in s && Adjacent(u, v) ==> v in t
    ensures p[i] in t
  {
    if i > 0 {
      ClosedUnderSteps(s, t, p, i - 1);
      assert Adjacent(p[i - 1], p[i]);
    }
  }

  lemma ClosedHoldsConnected(s: set<Coord>, t: set<Coord>, a: Coord, b: Coord)
    requires a in t && Connected(s, a, b)
    requires forall u, v :: u in t && v in s && Adjacent(u, v) ==> v in t
    ensures b in t
  {
    var p :| WalkFromTo(s, p, a, b);
    ClosedUnderSteps(s, t, p, |p| - 1);
  }

  /** Two cells with a common component member have the same component. */
  lemma ComponentsAgree(s: set<Coord>, a: Coord, b: Coord)
    requires Connected(s, a, b)
    ensures Component(s, a) == Component(s, b)
  {
    ConnectedSym(s, a, b);
    forall d | d in s ensures Connected(s, a, d) <==> Connected(s, b, d) {
      if Connected(s, a, d) { ConnectedTrans(s, b, a, d); }
      if Connected(s, b, d) { ConnectedTrans(s, a, b, d); }
    }
  }

  /** Walks inside a component: its members reach one another without leaving it. */
  lemma ComponentInternallyConnected(s: set<Coord>, a: Coord, b: Coord)
    requires Connected(s, a, b)
    ensures Connected(Component(s, a), a, b)
  {
    var p :| WalkFromTo(s, p, a, b);
    forall i | 0 <= i < |p| ensures p[i] in Component(s, a) {
      assert WalkFromTo(s, p[..i + 1], a, p[i]);
    }
    assert WalkFromTo(Component(s, a), p, a, b);
  }

  // ---------------------------------------------------------------- the whole map

  lemma {:induction false} RowConnected(w: nat, h: nat, a: Coord, n: nat)
    requires InRange(w, h, a) && a.x + n < w
    ensures Connected(AllCells(w, h), a, Coord(a.x + n, a.y))
  {
    var s := AllCells(w, h);
    if n == 0 {
      ConnectedRefl(s, a);
    } else {
      RowConnected(w, h, a, n - 1);
      var b := Coord(a.x + n - 1, a.y);
      ConnectedAdjacent(s, b, Coord(a.x + n, a.y));
      ConnectedTrans(s, a, b, Coord(a.x + n, a.y));
    }
  }

  lemma {:induction false} ColumnConnected(w: nat, h: nat, a: Coord, n: nat)
    requires InRange(w, h, a) && a.y + n < h
    ensures Connected(AllCells(w, h), a, Coord(a.x, a.y + n))
  {
    var s := AllCells(w, h);
    if n == 0 {
      ConnectedRefl(s, a);
    } else {
      ColumnConnected(w, h, a, n - 1);
      var b := Coord(a.x, a.y + n - 1);
      ConnectedAdjacent(s, b, Coord(a.x, a.y + n));
      ConnectedTrans(s, a, b, Coord(a.x, a.y + n));
    }
  }

  /** A rectangular map is one piece. */
  lemma MapConnected(w: nat, h: nat, a: Coord, b: Coord)
    requires InRange(w, h, a) && InRange(w, h, b)
    ensures Connected(AllCells(w, h), a, b)
  {
    var s := AllCells(w, h);
    var o := Coord(0, 0);
    forall c | c == a || c == b ensures Connected(s, o, c) {
      RowConnected(w, h, o, c.x);
      ColumnConnected(w, h, Coord(c.x, 0), c.y);
      ConnectedTrans(s, o, Coord(c.x, 0), c);
    }
    ConnectedSym(s, o, a);
    ConnectedTrans(s, a, o, b);
  }

  /** A part of the map that is neither empty nor all of it has a neighbour outside. */
  lemma PartHasBorder(w: nat, h: nat, t: set<Coord>, a: Coord, b: Coord) returns (u: Coord, v: Coord)
    requires a in t && InRange(w, h, a) && InRange(w, h, b) && b !in t
    ensures u in t && v !in t && InRange(w, h, v) && Adjacent(u, v)
  {
    if forall c, d :: c in t && d in AllCells(w, h) && Adjacent(c, d) ==> d in t {
      MapConnected(w, h, a, b);
      ClosedHoldsConnected(AllCells(w, h), t, a, b);
      assert false;
    }
    u, v :| u in t && v in AllCells(w, h) && Adjacent(u, v) && v !in t;
  }
}
