/** Arc geometry bookkeeping (arcs_app.py, class Arc): the extent an arc is
    built with, moving its centre and rotating its start angle.

    Coordinates and angles are exact `real`s. Python's `x % 360` on floats
    is modelled as x - 360 * floor(x / 360), the remainder with the sign of
    the divisor; on exact reals it lies in [0, 360). Float rounding, which
    can make the remainder of a tiny negative x come out as 360.0, is not
    modelled. */
module Arcs {

  /** An arc as the application keeps it: centre, radius, the two angles it
      was read with, the angular extent it is drawn with, and its colour. */
  datatype Arc = Arc(
    cx: real,
    cy: real,
    radius: real,
    startAngle: real,
    endAngle: real,
    extent: real,
    color: string)

  // ---------------------------------------------------------------------
  // Angles modulo a full turn
  // ---------------------------------------------------------------------

  /** q full turns, in degrees. */
  function Turns(q: int): real {
    360.0 * q as real
  }

  /** d is a whole number of full turns. */
  ghost predicate WholeTurns(d: real) {
    exists q: int :: d == Turns(q)
  }

  /** a and b denote the same direction. */
  ghost predicate SameAngle(a: real, b: real) {
    WholeTurns(a - b)
  }

  lemma SameAngleRefl(a: real)
    ensures SameAngle(a, a)
  {
    assert a - a == Turns(0);
  }

  lemma SameAngleSym(a: real, b: real)
    requires SameAngle(a, b)
    ensures SameAngle(b, a)
  {
    var q: int :| a - b == Turns(q);
    assert b - a == Turns(-q);
  }

  lemma SameAngleTrans(a: real, b: real, c: real)
    requires SameAngle(a, b) && SameAngle(b, c)
    ensures SameAngle(a, c)
  {
    var p: int :| a - b == Turns(p);
    var q: int :| b - c == Turns(q);
    assert a - c == Turns(p + q);
  }

  /** Turning both directions by the same amount keeps them equal. */
  lemma SameAngleShift(a: real, b: real, d: real)
    requires SameAngle(a, b)
    ensures SameAngle(a + d, b + d)
  {
    var q: int :| a - b == Turns(q);
    assert (a + d) - (b + d) == Turns(q);
  }

  /** Two angles in [0, 360) that denote the same direction are equal. */
  lemma {:induction false} NormalAngleUnique(a: real, b: real)
    requires 0.0 <= a < 360.0 && 0.0 <= b < 360.0
    requires SameAngle(a, b)
    ensures a == b
  {
    var q: int :| a - b == Turns(q);
  }

  /** Python's `x % 360`, taken on exact reals: the direction of x, in
      [0, 360). */
  function Mod360(x: real): (m: real)
    ensures 0.0 <= m < 360.0
    ensures SameAngle(x, m)
  {
    assert x - (x - Turns((x / 360.0).Floor)) == Turns((x / 360.0).Floor);
    x - Turns((x / 360.0).Floor)
  }

  /** `x % 360` is the one value in [0, 360) with the direction of x. */
  lemma {:induction false} Mod360Characterised(x: real, m: real)
    ensures Mod360(x) == m <==> 0.0 <= m < 360.0 && SameAngle(x, m)
  {
    if 0.0 <= m < 360.0 && SameAngle(x, m) {
      SameAngleSym(x, Mod360(x));
      SameAngleTrans(Mod360(x), x, m);
      NormalAngleUnique(Mod360(x), m);
    }
  }

  /** The remainder only depends on the direction. */
  lemma {:induction false} Mod360Congruent(x: real, y: real)
    requires SameAngle(x, y)
    ensures Mod360(x) == Mod360(y)
  {
    SameAngleSym(x, y);
    SameAngleTrans(y, x, Mod360(x));
    Mod360Characterised(y, Mod360(x));
  }

  /** A remainder is its own remainder. */
  lemma {:induction false} Mod360Normal(x: real)
    requires 0.0 <= x < 360.0
    ensures Mod360(x) == x
  {
    SameAngleRefl(x);
    Mod360Characterised(x, x);
  }

  // ---------------------------------------------------------------------
  // Arc.__init__
  // ---------------------------------------------------------------------

  /** `(end - start) % 360 or 360`: a zero remainder, which Python treats as
      false, becomes a full circle. The extent is in (0, 360], has the
      direction of end - start, and is a full circle exactly when end and
      start denote the same direction. */
  function Extent(start: real, end: real): (e: real)
    ensures 0.0 < e <= 360.0
    ensures SameAngle(end - start, e)
    ensures e == 360.0 <==> SameAngle(end, start)
  {
    ExtentFacts(start, end);
    if Mod360(end - start) == 0.0 then 360.0 else Mod360(end - start)
  }

  lemma {:induction false} ExtentFacts(start: real, end: real)
    ensures Mod360(end - start) == 0.0 <==> SameAngle(end, start)
    ensures SameAngle(end - start, 360.0)
        <==> Mod360(end - start) == 0.0
  {
    var d := end - start;
    assert SameAngle(end, start) <==> SameAngle(d, 0.0) by {
      assert end - start == d - 0.0;
    }
    assert SameAngle(0.0, 360.0) by {
      assert 0.0 - 360.0 == Turns(-1);
    }
    assert SameAngle(360.0, 0.0) by {
      assert 360.0 - 0.0 == Turns(1);
    }
    Mod360Characterised(d, 0.0);
    if SameAngle(d, 360.0) {
      SameAngleTrans(d, 360.0, 0.0);
    }
    if SameAngle(d, 0.0) {
      SameAngleTrans(d, 0.0, 360.0);
    }
  }

  /** `Arc(canvas, x, y, radius, start_angle, end_angle, color)`: the given
      values are kept as they are and the extent is computed from the two
      angles. */
  function NewArc(x: real, y: real, radius: real, start: real, end: real,
                  color: string): (a: Arc)
    ensures a.cx == x && a.cy == y && a.radius == radius && a.color == color
    ensures a.startAngle == start && a.endAngle == end
    ensures 0.0 < a.extent <= 360.0
    ensures SameAngle(a.startAngle + a.extent, a.endAngle)
    ensures a.extent == 360.0 <==> SameAngle(end, start)
  {
    assert SameAngle(start + Extent(start, end), end) by {
      SameAngleShift(end - start, Extent(start, end), start);
      assert end - start + start == end;
      SameAngleSym(end, Extent(start, end) + start);
    }
    Arc(x, y, radius, start, end, Extent(start, end), color)
  }

  /** Two ways of writing the same pair of angles give the same extent. */
  lemma {:induction false} ExtentOfSameAngles(s1: real, e1: real, s2: real, e2: real)
    requires SameAngle(s1, s2) && SameAngle(e1, e2)
    ensures Extent(s1, e1) == Extent(s2, e2)
  {
    var p: int :| s1 - s2 == Turns(p);
    var q: int :| e1 - e2 == Turns(q);
    assert (e1 - s1) - (e2 - s2) == Turns(q - p);
    Mod360Congruent(e1 - s1, e2 - s2);
  }

  // ---------------------------------------------------------------------
  // Arc.move
  // ---------------------------------------------------------------------

  /** `move(dx, dy)`: the centre is shifted by (dx, dy); nothing else
      changes. */
  function Move(a: Arc, dx: real, dy: real): (b: Arc)
    ensures b.cx - a.cx == dx && b.cy - a.cy == dy
    ensures b.radius == a.radius && b.color == a.color
    ensures b.startAngle == a.startAngle && b.endAngle == a.endAngle
    ensures b.extent == a.extent
  {
    a.(cx := a.cx + dx, cy := a.cy + dy)
  }

  /** Moving back by the opposite offset restores the arc. */
  lemma {:induction false} MoveInverse(a: Arc, dx: real, dy: real)
    ensures Move(Move(a, dx, dy), -dx, -dy) == a
  {
  }

  /** Two moves are one move by the summed offset. */
  lemma {:induction false} MoveCompose(a: Arc, dx1: real, dy1: real, dx2: real, dy2: real)
    ensures Move(Move(a, dx1, dy1), dx2, dy2) == Move(a, dx1 + dx2, dy1 + dy2)
  {
  }

  // ---------------------------------------------------------------------
  // Arc.rotate
  // ---------------------------------------------------------------------

  /** `rotate(angle)`: the start angle becomes (start + angle) % 360, which
      lies in [0, 360) and has the direction of start + angle. The end angle
      and the extent are left as they were, so the drawn arc turns as a
      whole; centre, radius and colour do not change. */
  function Rotate(a: Arc, angle: real): (b: Arc)
    ensures 0.0 <= b.startAngle < 360.0
    ensures SameAngle(b.startAngle, a.startAngle + angle)
    ensures b.cx == a.cx && b.cy == a.cy && b.radius == a.radius
    ensures b.endAngle == a.endAngle && b.extent == a.extent
    ensures b.color == a.color
  {
    SameAngleSym(a.startAngle + angle, Mod360(a.startAngle + angle));
    a.(startAngle := Mod360(a.startAngle + angle))
  }

  /** Two rotations are one rotation by the summed angle. */
  lemma {:induction false} RotateCompose(a: Arc, p: real, q: real)
    ensures Rotate(Rotate(a, p), q) == Rotate(a, p + q)
  {
    var s1 := Rotate(a, p).startAngle;
    SameAngleShift(s1, a.startAngle + p, q);
    assert a.startAngle + p + q == a.startAngle + (p + q);
    Mod360Congruent(s1 + q, a.startAngle + (p + q));
  }

  /** Rotating back by the opposite angle restores an arc whose start angle
      is already in [0, 360), as it is after any rotation. */
  lemma {:induction false} RotateInverse(a: Arc, angle: real)
    requires 0.0 <= a.startAngle < 360.0
    ensures Rotate(Rotate(a, angle), -angle) == a
  {
    RotateCompose(a, angle, -angle);
    assert a.startAngle + (angle + -angle) == a.startAngle;
    Mod360Normal(a.startAngle);
  }

  /** A full turn has the same effect as no turn. */
  lemma {:induction false} RotateFullTurn(a: Arc)
    ensures Rotate(a, 360.0) == Rotate(a, 0.0)
  {
    assert (a.startAngle + 360.0) - (a.startAngle + 0.0) == Turns(1);
    Mod360Congruent(a.startAngle + 360.0, a.startAngle + 0.0);
  }
}
