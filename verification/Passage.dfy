/** The geometry of a passage: the stepped line between two tiles and the discs drawn along it. */
module Passage {
  import opened Division
  import opened Grid

  function Sign(n: int): int {
    if n > 0 then 1 else if n < 0 then -1 else 0
  }

  /** One move of a chess king. */
  predicate KingStep(a: Coord, b: Coord) {
    a != b && Abs(a.x - b.x) <= 1 && Abs(a.y - b.y) <= 1
  }

  /** Number of king moves between two cells. */
  function KingDistance(a: Coord, b: Coord): nat {
    if Abs(b.x - a.x) < Abs(b.y - a.y) then Abs(b.y - a.y) else Abs(b.x - a.x)
  }

  predicate InBox(from: Coord, to: Coord, c: Coord) {
    && (from.x <= c.x <= to.x || to.x <= c.x <= from.x)
    && (from.y <= c.y <= to.y || to.y <= c.y <= from.y)
  }

  /** How far the short axis has moved after `i` moves along the long one. */
  function MinorSteps(longest: nat, shortest: nat, i: nat): int {
    if longest == 0 then 0 else (longest / 2 + i * shortest) / longest
  }

  /** The gradient accumulator after `i` moves. */
  function Accumulator(longest: nat, shortest: nat, i: nat): int {
    if longest == 0 then 0 else (longest / 2 + i * shortest) % longest
  }

  /** The `i`-th cell of the line: `i` whole steps on the long axis, the rounded share of the short one. */
  function LinePoint(from: Coord, to: Coord, i: nat): Coord {
    var dx, dy := to.x - from.x, to.y - from.y;
    if Abs(dx) < Abs(dy) then
      Coord(from.x + Sign(dx) * MinorSteps(Abs(dy), Abs(dx), i), from.y + Sign(dy) * i)
    else
      Coord(from.x + Sign(dx) * i, from.y + Sign(dy) * MinorSteps(Abs(dx), Abs(dy), i))
  }

  // ---------------------------------------------------------------- arithmetic of the short axis

  /** Adding the short side once moves the short axis by one exactly when the accumulator overflows. */
  lemma AccumulatorStep(longest: nat, shortest: nat, i: nat)
    requires 0 < longest && shortest <= longest
    ensures var acc := (longest / 2 + i * shortest) % longest;
            var next := longest / 2 + (i + 1) * shortest;
            if acc + shortest >= longest then
              next / longest == MinorSteps(longest, shortest, i) + 1 && next % longest == acc + shortest - longest
            else
              next / longest == MinorSteps(longest, shortest, i) && next % longest == acc + shortest
  {
    var n := longest / 2 + i * shortest;
    var q, acc := n / longest, n % longest;
    var next := longest / 2 + (i + 1) * shortest;
    assert n == q * longest + acc;
    assert next == n + shortest;
    if acc + shortest >= longest {
      assert next == (q + 1) * longest + (acc + shortest - longest);
      DivModUnique(next, longest, q + 1, acc + shortest - longest);
    } else {
      DivModUnique(next, longest, q, acc + shortest);
    }
  }

  /** The short axis starts at rest and has moved the whole short side at the end of the long one. */
  lemma MinorEnds(longest: nat, shortest: nat)
    requires shortest <= longest
    ensures MinorSteps(longest, shortest, 0) == 0
    ensures MinorSteps(longest, shortest, longest) == shortest
  {
    if longest > 0 {
      DivModUnique(longest / 2, longest, 0, longest / 2);
      DivModUnique(longest / 2 + longest * shortest, longest, shortest, longest / 2);
      assert longest / 2 + 0 * shortest == longest / 2;
    }
  }

  lemma {:induction false} MinorMonotone(longest: nat, shortest: nat, i: nat, j: nat)
    requires shortest <= longest && i <= j
    ensures MinorSteps(longest, shortest, i) <= MinorSteps(longest, shortest, j)
    decreases j - i
  {
    if i < j && longest > 0 {
      AccumulatorStep(longest, shortest, i);
      MinorMonotone(longest, shortest, i + 1, j);
    }
  }

  // ---------------------------------------------------------------- the line

  lemma LineStart(from: Coord, to: Coord)
    ensures LinePoint(from, to, 0) == from
  {
    var dx, dy := Abs(to.x - from.x), Abs(to.y - from.y);
    if dx < dy { MinorEnds(dy, dx); } else { MinorEnds(dx, dy); }
  }

  /** After as many moves as there are king moves between the ends, the line is exactly at its target. */
  lemma LineEnd(from: Coord, to: Coord)
    ensures LinePoint(from, to, KingDistance(from, to)) == to
  {
    var dx, dy := Abs(to.x - from.x), Abs(to.y - from.y);
    if dx < dy { MinorEnds(dy, dx); } else { MinorEnds(dx, dy); }
  }

  lemma LineKingStep(from: Coord, to: Coord, i: nat)
    requires i < KingDistance(from, to)
    ensures KingStep(LinePoint(from, to, i), LinePoint(from, to, i + 1))
  {
    var dx, dy := Abs(to.x - from.x), Abs(to.y - from.y);
    if dx < dy { AccumulatorStep(dy, dx, i); } else { AccumulatorStep(dx, dy, i); }
  }

  lemma LineInBox(from: Coord, to: Coord, i: nat)
    requires i <= KingDistance(from, to)
    ensures InBox(from, to, LinePoint(from, to, i))
  {
    var dx, dy := Abs(to.x - from.x), Abs(to.y - from.y);
    var longest, shortest := if dx < dy then dy else dx, if dx < dy then dx else dy;
    MinorEnds(longest, shortest);
    MinorMonotone(longest, shortest, 0, i);
    MinorMonotone(longest, shortest, i, longest);
  }

  /** One round of the accumulator loop: what it adds to the current cell and to the accumulator. */
  lemma LineAdvance(from: Coord, to: Coord, i: nat)
    requires i < KingDistance(from, to)
    ensures var dx, dy := to.x - from.x, to.y - from.y;
            var inverted := Abs(dx) < Abs(dy);
            var longest, shortest := if inverted then Abs(dy) else Abs(dx), if inverted then Abs(dx) else Abs(dy);
            var acc := Accumulator(longest, shortest, i) + shortest;
            var carry := acc >= longest;
            var c := LinePoint(from, to, i);
            && Accumulator(longest, shortest, i + 1) == (if carry then acc - longest else acc)
            && LinePoint(from, to, i + 1) ==
               if inverted then Coord(if carry then c.x + Sign(dx) else c.x, c.y + Sign(dy))
               else Coord(c.x + Sign(dx), if carry then c.y + Sign(dy) else c.y)
  {
    var dx, dy := Abs(to.x - from.x), Abs(to.y - from.y);
    if dx < dy { AccumulatorStep(dy, dx, i); } else { AccumulatorStep(dx, dy, i); }
  }

  /** GetLine: the accumulator loop produces exactly the closed-form line, stopping one move short of `to`. */
  method GetLine(from: Coord, to: Coord) returns (line: seq<Coord>)
    ensures |line| == KingDistance(from, to)
    ensures forall i :: 0 <= i < |line| ==> line[i] == LinePoint(from, to, i)
  {
    line := [];
    var x, y := from.x, from.y;
    var dx, dy := to.x - from.x, to.y - from.y;
    var inverted := false;
    var step, gradientStep := Sign(dx), Sign(dy);
    var longest, shortest := Abs(dx), Abs(dy);
    if longest < shortest {
      inverted := true;
      longest, shortest := Abs(dy), Abs(dx);
      step, gradientStep := Sign(dy), Sign(dx);
    }
    var gradientAccumulation := longest / 2;
    LineStart(from, to);
    if longest > 0 { DivModUnique(longest / 2, longest, 0, longest / 2); }
    for i := 0 to longest
      invariant |line| == i
      invariant forall k :: 0 <= k < i ==> line[k] == LinePoint(from, to, k)
      invariant Coord(x, y) == LinePoint(from, to, i)
      invariant gradientAccumulation == Accumulator(longest, shortest, i)
    {
      line := line + [Coord(x, y)];
      LineAdvance(from, to, i);
      if inverted { y := y + step; } else { x := x + step; }
      gradientAccumulation := gradientAccumulation + shortest;
      if gradientAccumulation >= longest {
        if inverted { x := x + gradientStep; } else { y := y + gradientStep; }
        gradientAccumulation := gradientAccumulation - longest;
      }
    }
  }

  // ---------------------------------------------------------------- discs along the line

  predicate InDisc(c: Coord, r: nat, d: Coord) {
    (d.x - c.x) * (d.x - c.x) + (d.y - c.y) * (d.y - c.y) <= r * r
  }

  lemma SquareBound(n: int, r: nat)
    ensures Abs(n) > r ==> n * n > r * r
  {
    assert n * n == Abs(n) * Abs(n);
    if Abs(n) > r {
      assert Abs(n) * Abs(n) > Abs(n) * r;
      assert Abs(n) * r >= r * r;
    }
  }

  /** A disc of radius `r` lies in the square of side 2r+1 that DrawCircle scans. */
  lemma DiscInSquare(c: Coord, r: nat, d: Coord)
    requires InDisc(c, r, d)
    ensures Abs(d.x - c.x) <= r && Abs(d.y - c.y) <= r
  {
    var dx, dy := d.x - c.x, d.y - c.y;
    assert dx * dx >= 0 && dy * dy >= 0;
    SquareBound(dx, r);
    SquareBound(dy, r);
  }

  /** A disc of radius 1 is the cell and its four neighbours. */
  lemma UnitDisc(c: Coord, d: Coord)
    ensures InDisc(c, 1, d) <==> d == c || Adjacent(c, d)
  {
  }

  /** Every in-range cell of the unit discs along the line from `from` to `to` belongs to `s`. */
  ghost predicate Carved(w: nat, h: nat, s: set<Coord>, from: Coord, to: Coord) {
    forall i: nat, d: Coord ::
      i < KingDistance(from, to) && InRange(w, h, d) && InDisc(LinePoint(from, to, i), 1, d) ==> d in s
  }

  /** A unit disc closes a king move: its centre reaches the far end without leaving the carved cells. */
  lemma KingStepBridged(w: nat, h: nat, s: set<Coord>, c: Coord, d: Coord)
    requires InRange(w, h, c) && InRange(w, h, d) && KingStep(c, d) && d in s
    requires forall e :: InRange(w, h, e) && InDisc(c, 1, e) ==> e in s
    ensures Connected(s, c, d)
  {
    UnitDisc(c, c);
    if c.x != d.x && c.y != d.y {
      var e := Coord(d.x, c.y);
      UnitDisc(c, e);
      ConnectedAdjacent(s, c, e);
      ConnectedAdjacent(s, e, d);
      ConnectedTrans(s, c, e, d);
    } else {
      ConnectedAdjacent(s, c, d);
    }
  }

  lemma LineCellCarved(w: nat, h: nat, s: set<Coord>, from: Coord, to: Coord, i: nat)
    requires InRange(w, h, from) && InRange(w, h, to) && to in s && Carved(w, h, s, from, to)
    requires i <= KingDistance(from, to)
    ensures InRange(w, h, LinePoint(from, to, i)) && LinePoint(from, to, i) in s
  {
    LineInBox(from, to, i);
    LineEnd(from, to);
    UnitDisc(LinePoint(from, to, i), LinePoint(from, to, i));
  }

  lemma {:induction false} LineConnected(w: nat, h: nat, s: set<Coord>, from: Coord, to: Coord, i: nat)
    requires InRange(w, h, from) && InRange(w, h, to) && from in s && to in s && Carved(w, h, s, from, to)
    requires i <= KingDistance(from, to)
    ensures Connected(s, from, LinePoint(from, to, i))
  {
    if i == 0 {
      LineStart(from, to);
      ConnectedRefl(s, from);
    } else {
      LineConnected(w, h, s, from, to, i - 1);
      LineKingStep(from, to, i - 1);
      LineCellCarved(w, h, s, from, to, i - 1);
      LineCellCarved(w, h, s, from, to, i);
      KingStepBridged(w, h, s, LinePoint(from, to, i - 1), LinePoint(from, to, i));
      ConnectedTrans(s, from, LinePoint(from, to, i - 1), LinePoint(from, to, i));
    }
  }

  /** A carved passage joins its two end tiles, although the line stops one move before the second. */
  lemma PassageJoins(w: nat, h: nat, s: set<Coord>, from: Coord, to: Coord)
    requires InRange(w, h, from) && InRange(w, h, to) && from in s && to in s && Carved(w, h, s, from, to)
    ensures Connected(s, from, to)
  {
    LineConnected(w, h, s, from, to, KingDistance(from, to));
    LineEnd(from, to);
  }

  /** Nothing carved is left apart: every cell drawn for the passage is joined to its first tile. */
  lemma CarvedCellJoined(w: nat, h: nat, s: set<Coord>, from: Coord, to: Coord, i: nat, d: Coord)
    requires InRange(w, h, from) && InRange(w, h, to) && from in s && to in s && Carved(w, h, s, from, to)
    requires i < KingDistance(from, to) && InRange(w, h, d) && InDisc(LinePoint(from, to, i), 1, d)
    ensures Connected(s, from, d)
  {
    var c := LinePoint(from, to, i);
    LineConnected(w, h, s, from, to, i);
    LineCellCarved(w, h, s, from, to, i);
    UnitDisc(c, d);
    if d != c {
      ConnectedAdjacent(s, c, d);
      ConnectedTrans(s, from, c, d);
    }
  }
}
