/** The axis-aligned box-overlap test the game uses for every hit. */
module Collision {
  import opened Entities

  /** Box (x, y)-(r, b) against box (x2, y2)-(r2, b2), with the comparisons
      exactly as the game writes them: the first box must reach strictly past
      the second's left and top edges, but may merely touch its right and
      bottom edges. */
  function Collides(x: real, y: real, r: real, b: real,
                    x2: real, y2: real, r2: real, b2: real): bool
  {
    !(r <= x2 || x > r2 ||
      b <= y2 || y > b2)
  }

  /** Overlap of the box at `pos` of size `size` with the box at `pos2` of
      size `size2`. On each axis the second box's corner must lie in a window
      that is closed on the low side and open on the high side:
      x - w2 <= x2 < x + w, and likewise for y. */
  function BoxCollides(pos: Vec, size: Size, pos2: Vec, size2: Size): (hit: bool)
    ensures hit <==>
      (pos.x - size2.w as real <= pos2.x < pos.x + size.w as real) &&
      (pos.y - size2.h as real <= pos2.y < pos.y + size.h as real)
  {
    Collides(pos.x, pos.y, pos.x + size.w as real, pos.y + size.h as real,
             pos2.x, pos2.y, pos2.x + size2.w as real, pos2.y + size2.h as real)
  }

  /** The first box's right edge touching the second's left edge is a miss,
      and so is its bottom edge touching the second's top edge. */
  lemma TouchingFarEdgeMisses(x: real, y: real, r: real, b: real,
                              x2: real, y2: real, r2: real, b2: real)
    requires r == x2 || b == y2
    ensures !Collides(x, y, r, b, x2, y2, r2, b2)
  {
  }

  /** The first box's left edge touching the second's right edge is a hit
      when the other axis overlaps, and likewise for its top edge touching
      the second's bottom edge. */
  lemma TouchingNearEdgeHits(x: real, y: real, r: real, b: real,
                             x2: real, y2: real, r2: real, b2: real)
    requires x < r && y < b && x2 < r2 && y2 < b2
    requires (x == r2 && y2 < b && y <= b2) || (y == b2 && x2 < r && x <= r2)
    ensures Collides(x, y, r, b, x2, y2, r2, b2)
  {
  }

  /** The test is not symmetric: two equal boxes side by side, touching on
      one edge, hit one way round and miss the other. */
  lemma BoxCollidesAsymmetric(p: Vec, s: Size)
    requires s.w > 0 && s.h > 0
    ensures var q := Vec(p.x + s.w as real, p.y);
      !BoxCollides(p, s, q, s) && BoxCollides(q, s, p, s)
  {
  }
}
