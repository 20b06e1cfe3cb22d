/** The enemies' path (`Enemigo.camino`) and the integer interpolation that
    `Enemigo.run` uses to walk from one waypoint to the next. */
module Path {
  import opened Common

  datatype Point = Point(x: int, y: int)

  /** The waypoints every enemy follows, in order. */
  const Camino: seq<Point> := [
    Point(0, 500), Point(800, 500),
    Point(800, 400),
    Point(0, 400),
    Point(0, 300),
    Point(800, 300),
    Point(800, 200),
    Point(0, 200),
    Point(0, 100),
    Point(800, 100)
  ]

  /** No two consecutive waypoints coincide, so no segment has zero steps. */
  lemma ConsecutiveWaypointsDiffer(i: nat)
    requires 1 <= i < |Camino|
    ensures Camino[i - 1] != Camino[i]
  {
    assert i == 1 || i == 2 || i == 3 || i == 4 || i == 5 || i == 6 || i == 7 || i == 8 || i == 9;
  }

  /** The number of moves on segment `i` (from waypoint `i - 1` to waypoint
      `i`): the larger of the two coordinate distances, so that each move
      changes each coordinate by at most one. */
  function Steps(i: nat): (n: nat)
    requires 1 <= i < |Camino|
    ensures n > 0
    ensures Abs(Camino[i].x - Camino[i - 1].x) <= n && Abs(Camino[i].y - Camino[i - 1].y) <= n
    ensures n == Abs(Camino[i].x - Camino[i - 1].x) || n == Abs(Camino[i].y - Camino[i - 1].y)
  {
    ConsecutiveWaypointsDiffer(i);
    Max(Abs(Camino[i].x - Camino[i - 1].x), Abs(Camino[i].y - Camino[i - 1].y))
  }

  /** One coordinate at move `s` of `n` from `a` to `b`:
      `a + (b - a) * s / n` with Java's truncating division. */
  function Lerp(a: int, b: int, s: nat, n: nat): int
    requires n > 0
  {
    a + TruncDiv((b - a) * s, n)
  }

  /** The position an enemy takes at move `s` of segment `i`. */
  function PathPoint(i: nat, s: nat): Point
    requires 1 <= i < |Camino|
  {
    var p, q, n := Camino[i - 1], Camino[i], Steps(i);
    Point(Lerp(p.x, q.x, s, n), Lerp(p.y, q.y, s, n))
  }

  // ---- arithmetic facts behind the interpolation lemmas ----

  lemma MulLess(x: int, y: int, n: int)
    requires n > 0 && x * n < y * n
    ensures x < y
  {
  }

  lemma TruncDivOdd(a: int, n: int)
    requires n > 0
    ensures TruncDiv(-a, n) == -TruncDiv(a, n)
  {
  }

  /** For a non-negative slope no larger than `n`, the quotient grows by zero
      or one from move `s` to move `s + 1`. */
  lemma {:induction false} QuotientStep(d: int, s: nat, n: int)
    requires 0 <= d <= n && n > 0
    ensures TruncDiv(d * s, n) <= TruncDiv(d * (s + 1), n) <= TruncDiv(d * s, n) + 1
  {
    var m0, m1 := d * s, d * (s + 1);
    assert m1 == m0 + d;
    assert 0 <= m0;
    var q0, q1 := TruncDiv(m0, n), TruncDiv(m1, n);
    assert q0 * n <= m0 < q0 * n + n;
    assert q1 * n <= m1 < q1 * n + n;
    assert (q1 + 1) * n == q1 * n + n;
    MulLess(q0, q1 + 1, n);
    assert (q0 + 2) * n == q0 * n + n + n;
    MulLess(q1, q0 + 2, n);
  }

  /** For a non-negative slope the quotient stays between 0 and the slope. */
  lemma {:induction false} QuotientBetween(d: int, s: nat, n: int)
    requires d >= 0 && n > 0 && s <= n
    ensures 0 <= TruncDiv(d * s, n) <= d
  {
    var q := TruncDiv(d * s, n);
    assert d * s <= d * n;
    assert q * n < (d + 1) * n;
    MulLess(q, d + 1, n);
  }

  lemma {:induction false} QuotientAtEnd(d: int, n: int)
    requires n > 0
    ensures TruncDiv(d * n, n) == d
    decreases if d < 0 then 1 else 0
  {
    if d >= 0 {
      var m := d * n;
      var q := TruncDiv(m, n);
      assert (d + 1) * n == m + n;
      assert (q + 1) * n == q * n + n;
      MulLess(q, d + 1, n);
      MulLess(d, q + 1, n);
    } else {
      var m := d * n;
      QuotientAtEnd(-d, n);
      assert (-d) * n == -m;
      TruncDivOdd(m, n);
    }
  }

  // ---- interpolation properties ----

  /** Move 0 is the segment's start and move `n` its end. */
  lemma {:induction false} LerpEnds(a: int, b: int, n: nat)
    requires n > 0
    ensures Lerp(a, b, 0, n) == a
    ensures Lerp(a, b, n, n) == b
  {
    QuotientAtEnd(b - a, n);
  }

  /** Consecutive moves change a coordinate by at most one, always in the
      direction from `a` toward `b`. */
  lemma {:induction false} LerpUnitMove(a: int, b: int, s: nat, n: nat)
    requires n > 0 && Abs(b - a) <= n
    ensures a <= b ==> Lerp(a, b, s, n) <= Lerp(a, b, s + 1, n) <= Lerp(a, b, s, n) + 1
    ensures b <= a ==> Lerp(a, b, s, n) - 1 <= Lerp(a, b, s + 1, n) <= Lerp(a, b, s, n)
  {
    var d := b - a;
    if d >= 0 {
      QuotientStep(d, s, n);
    } else {
      QuotientStep(-d, s, n);
      assert (-d) * s == -(d * s);
      assert (-d) * (s + 1) == -(d * (s + 1));
      TruncDivOdd(d * s, n);
      TruncDivOdd(d * (s + 1), n);
    }
  }

  /** Every move stays within the segment's span. */
  lemma {:induction false} LerpBetween(a: int, b: int, s: nat, n: nat)
    requires n > 0 && s <= n
    ensures a <= b ==> a <= Lerp(a, b, s, n) <= b
    ensures b <= a ==> b <= Lerp(a, b, s, n) <= a
  {
    var d := b - a;
    if d >= 0 {
      QuotientBetween(d, s, n);
    } else {
      QuotientBetween(-d, s, n);
      assert (-d) * s == -(d * s);
      TruncDivOdd(d * s, n);
    }
  }

  /** On segment `i`, move 0 is waypoint `i - 1` and the last move is
      waypoint `i`. */
  lemma PathPointEnds(i: nat)
    requires 1 <= i < |Camino|
    ensures PathPoint(i, 0) == Camino[i - 1]
    ensures PathPoint(i, Steps(i)) == Camino[i]
  {
    var p, q, n := Camino[i - 1], Camino[i], Steps(i);
    LerpEnds(p.x, q.x, n);
    LerpEnds(p.y, q.y, n);
  }

  /** Consecutive moves on a segment change each coordinate by at most one. */
  lemma PathPointUnitMove(i: nat, s: nat)
    requires 1 <= i < |Camino|
    ensures Abs(PathPoint(i, s + 1).x - PathPoint(i, s).x) <= 1
    ensures Abs(PathPoint(i, s + 1).y - PathPoint(i, s).y) <= 1
  {
    var p, q, n := Camino[i - 1], Camino[i], Steps(i);
    LerpUnitMove(p.x, q.x, s, n);
    LerpUnitMove(p.y, q.y, s, n);
  }

  /** Every position taken on segment `i` lies in the box spanned by its two
      waypoints (for this axis-parallel path: on the segment itself). */
  lemma PathPointOnSegment(i: nat, s: nat)
    requires 1 <= i < |Camino| && s <= Steps(i)
    ensures Camino[i - 1].x <= Camino[i].x ==> Camino[i - 1].x <= PathPoint(i, s).x <= Camino[i].x
    ensures Camino[i].x <= Camino[i - 1].x ==> Camino[i].x <= PathPoint(i, s).x <= Camino[i - 1].x
    ensures Camino[i - 1].y <= Camino[i].y ==> Camino[i - 1].y <= PathPoint(i, s).y <= Camino[i].y
    ensures Camino[i].y <= Camino[i - 1].y ==> Camino[i].y <= PathPoint(i, s).y <= Camino[i - 1].y
  {
    var p, q, n := Camino[i - 1], Camino[i], Steps(i);
    LerpBetween(p.x, q.x, s, n);
    LerpBetween(p.y, q.y, s, n);
  }

  /** On the axis whose distance sets the move count, the coordinate
      advances by exactly one per move: at move `s` it is `s` units from
      the start. */
  lemma {:induction false} LerpFullSlope(a: int, b: int, s: nat, n: nat)
    requires n > 0 && Abs(b - a) == n
    ensures Lerp(a, b, s, n) == if a <= b then a + s else a - s
  {
    var m := s * n;
    QuotientAtEnd(s, n);
    if a <= b {
      assert (b - a) * s == m;
    } else {
      assert (b - a) * s == -m;
      TruncDivOdd(m, n);
    }
  }

  /** On each segment the coordinate that changes most moves by exactly one
      unit per move, towards the segment's end. */
  lemma PathPointDominantAxis(i: nat, s: nat)
    requires 1 <= i < |Camino|
    ensures Abs(Camino[i].x - Camino[i - 1].x) == Steps(i) ==>
      PathPoint(i, s).x == if Camino[i - 1].x <= Camino[i].x then Camino[i - 1].x + s else Camino[i - 1].x - s
    ensures Abs(Camino[i].y - Camino[i - 1].y) == Steps(i) ==>
      PathPoint(i, s).y == if Camino[i - 1].y <= Camino[i].y then Camino[i - 1].y + s else Camino[i - 1].y - s
  {
    var p, q, n := Camino[i - 1], Camino[i], Steps(i);
    if Abs(q.x - p.x) == n {
      LerpFullSlope(p.x, q.x, s, n);
    }
    if Abs(q.y - p.y) == n {
      LerpFullSlope(p.y, q.y, s, n);
    }
  }
}
