/** Axis-aligned boxes described by their centre and full size, and the
    overlap test the game uses for ball-bat and ball-brick contact. */
module Geometry {

  /** A rectangle given by its centre (x, y), full width w and full height h. */
  datatype Box = Box(x: real, y: real, w: real, h: real)

  function Abs(r: real): real { if r < 0.0 then -r else r }

  /** The game's collision test: the boxes are apart when one lies strictly
      left of, above, right of or below the other; otherwise they collide.
      Because every separation test is strict, boxes whose edges touch collide. */
  predicate Collision(a: Box, b: Box)
  {
    !(a.x + a.w / 2.0 < b.x - b.w / 2.0 ||
      a.y + a.h / 2.0 < b.y - b.h / 2.0 ||
      a.x - a.w / 2.0 > b.x + b.w / 2.0 ||
      a.y - a.h / 2.0 > b.y + b.h / 2.0)
  }

  /** The closed region covered by a box contains the point (px, py). */
  predicate Contains(a: Box, px: real, py: real)
  {
    a.x - a.w / 2.0 <= px <= a.x + a.w / 2.0 &&
    a.y - a.h / 2.0 <= py <= a.y + a.h / 2.0
  }

  /** The test does not depend on which box is named first. */
  lemma CollisionSymmetric(a: Box, b: Box)
    ensures Collision(a, b) == Collision(b, a)
  {
  }

  /** The test is a bound on the distance between the centres on each axis:
      at most half the sum of the widths, and of the heights. */
  lemma CollisionByDistance(a: Box, b: Box)
    ensures Collision(a, b) <==>
              Abs(a.x - b.x) <= (a.w + b.w) / 2.0 &&
              Abs(a.y - b.y) <= (a.h + b.h) / 2.0
  {
  }

  /** Boxes whose edges meet exactly on one axis, and that overlap or touch
      on the other, collide: touching counts as contact. Any gap on the
      flush axis, however small, separates them. */
  lemma FlushEdgesCollide(a: Box, b: Box, gap: real)
    requires gap > 0.0
    requires (Abs(a.x - b.x) == (a.w + b.w) / 2.0 && Abs(a.y - b.y) <= (a.h + b.h) / 2.0) ||
             (Abs(a.y - b.y) == (a.h + b.h) / 2.0 && Abs(a.x - b.x) <= (a.w + b.w) / 2.0)
    ensures Collision(a, b)
    ensures Abs(a.x - b.x) == (a.w + b.w) / 2.0 ==>
      !Collision(a, b.(x := if b.x >= a.x then b.x + gap else b.x - gap))
    ensures Abs(a.y - b.y) == (a.h + b.h) / 2.0 ==>
      !Collision(a, b.(y := if b.y >= a.y then b.y + gap else b.y - gap))
  {
    CollisionByDistance(a, b);
    CollisionByDistance(a, b.(x := if b.x >= a.x then b.x + gap else b.x - gap));
    CollisionByDistance(a, b.(y := if b.y >= a.y then b.y + gap else b.y - gap));
  }

  /** For boxes of non-negative size, colliding means sharing at least one
      point of their closed regions. */
  lemma CollisionIsSharedPoint(a: Box, b: Box)
    requires a.w >= 0.0 && a.h >= 0.0 && b.w >= 0.0 && b.h >= 0.0
    ensures Collision(a, b) <==> exists px, py :: Contains(a, px, py) && Contains(b, px, py)
  {
    if Collision(a, b) {
      var px := if a.x - a.w / 2.0 < b.x - b.w / 2.0 then b.x - b.w / 2.0 else a.x - a.w / 2.0;
      var py := if a.y - a.h / 2.0 < b.y - b.h / 2.0 then b.y - b.h / 2.0 else a.y - a.h / 2.0;
      assert Contains(a, px, py) && Contains(b, px, py);
    }
  }
}
