/** Arena geometry of Echo Shadows: the fixed logical arena, clamping of a
    position into it, and the edge-exclusive axis-aligned box test. */
module Geometry {

  /** Logical arena size. */
  const VWIDTH: int := 1280
  const VHEIGHT: int := 720

  /** The player and every clone are squares of this side. */
  const PLAYER_SIZE: int := 28

  /** A top-left corner in arena pixels. */
  datatype Pos = Pos(x: int, y: int)

  /** An axis-aligned box. */
  datatype Rect = Rect(x: int, y: int, w: int, h: int)

  /** The top-left corner of a `w` by `h` box lies inside the arena. */
  predicate InArena(p: Pos, w: int, h: int) {
    0 <= p.x <= VWIDTH - w && 0 <= p.y <= VHEIGHT - h
  }

  /** An entity of the player's size lies inside the arena. */
  predicate InBounds(p: Pos) {
    InArena(p, PLAYER_SIZE, PLAYER_SIZE)
  }

  /** `clampRect`: the four checks run in the source's order, first pushing
      a negative coordinate up to 0, then pulling the far edge back inside. */
  function Clamp(p: Pos, w: int, h: int): (r: Pos)
    ensures 0 <= w <= VWIDTH && 0 <= h <= VHEIGHT ==> InArena(r, w, h)
  {
    var x := if p.x < 0 then 0 else p.x;
    var y := if p.y < 0 then 0 else p.y;
    var x' := if x + w > VWIDTH then VWIDTH - w else x;
    var y' := if y + h > VHEIGHT then VHEIGHT - h else y;
    Pos(x', y')
  }

  /** Clamping moves each coordinate to the nearest value of its allowed
      range: unchanged inside it, the lower end below it, the upper end above it. */
  lemma ClampNearest(p: Pos, w: int, h: int)
    requires 0 <= w <= VWIDTH && 0 <= h <= VHEIGHT
    ensures var r := Clamp(p, w, h);
      && (0 <= p.x <= VWIDTH - w ==> r.x == p.x)
      && (p.x < 0 ==> r.x == 0)
      && (p.x > VWIDTH - w ==> r.x == VWIDTH - w)
      && (0 <= p.y <= VHEIGHT - h ==> r.y == p.y)
      && (p.y < 0 ==> r.y == 0)
      && (p.y > VHEIGHT - h ==> r.y == VHEIGHT - h)
  {
  }

  /** A position already inside the arena is left exactly where it is, and
      only such positions are. */
  lemma ClampFixesExactlyInside(p: Pos, w: int, h: int)
    requires 0 <= w <= VWIDTH && 0 <= h <= VHEIGHT
    ensures Clamp(p, w, h) == p <==> InArena(p, w, h)
  {
  }

  /** Clamping twice is clamping once. */
  lemma ClampIdempotent(p: Pos, w: int, h: int)
    requires 0 <= w <= VWIDTH && 0 <= h <= VHEIGHT
    ensures Clamp(Clamp(p, w, h), w, h) == Clamp(p, w, h)
  {
    ClampFixesExactlyInside(Clamp(p, w, h), w, h);
  }

  /** `rectsIntersect`: strict inequalities on both axes, so boxes that only
      share an edge do not intersect. */
  predicate Intersects(a: Rect, b: Rect) {
    a.x < b.x + b.w && a.x + a.w > b.x && a.y < b.y + b.h && a.y + a.h > b.y
  }

  /** The pixel cell whose top-left corner is (px, py) lies in box `r`. */
  predicate CellIn(r: Rect, px: int, py: int) {
    r.x <= px < r.x + r.w && r.y <= py < r.y + r.h
  }

  /** Independent reading of the box test: two non-empty boxes intersect
      exactly when some pixel cell lies in both, that is when they overlap by
      at least one unit on each axis. */
  lemma IntersectsIffSharedCell(a: Rect, b: Rect)
    requires a.w > 0 && a.h > 0 && b.w > 0 && b.h > 0
    ensures Intersects(a, b) <==> exists px, py :: CellIn(a, px, py) && CellIn(b, px, py)
  {
    if Intersects(a, b) {
      var px := if a.x < b.x then b.x else a.x;
      var py := if a.y < b.y then b.y else a.y;
      assert CellIn(a, px, py) && CellIn(b, px, py);
    }
  }

  /** The test does not depend on the order of its arguments. */
  lemma IntersectsSymmetric(a: Rect, b: Rect)
    ensures Intersects(a, b) == Intersects(b, a)
  {
  }

  /** Boxes that meet only along a vertical or horizontal edge do not intersect. */
  lemma TouchingEdgesDoNotIntersect(a: Rect, b: Rect)
    requires a.x + a.w == b.x || b.x + b.w == a.x || a.y + a.h == b.y || b.y + b.h == a.y
    ensures !Intersects(a, b)
  {
  }
}
