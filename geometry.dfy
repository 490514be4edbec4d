/** Integer screen geometry: the subset of pygame's Rect that the game logic uses. */
module Geometry {

  datatype Point = Point(x: int, y: int)

  /** Division by two as C performs it (truncation toward zero), which pygame's
      Rect.inflate uses to split the growth between the two sides. */
  function HalfTowardZero(d: int): (h: int)
    ensures 2 * h == d || 2 * h == d - 1 || 2 * h == d + 1
    ensures d >= 0 ==> 0 <= h && 2 * h <= d
    ensures d <= 0 ==> h <= 0 && d <= 2 * h
  {
    if d >= 0 then d / 2 else -((-d) / 2)
  }

  datatype Rect = Rect(x: int, y: int, w: int, h: int) {

    function TopLeft(): Point { Point(x, y) }

    /** pygame's collidepoint: the left and top edges are inside, the right and
        bottom edges are outside. */
    predicate Contains(p: Point) {
      x <= p.x < x + w && y <= p.y < y + h
    }

    /** pygame's inflate: the size grows by (dx, dy) and the rect stays centred,
        its corner moving back by half the growth. */
    function Inflate(dx: int, dy: int): (r: Rect)
      ensures r.w == w + dx && r.h == h + dy
      ensures dx >= 0 && dy >= 0 ==> forall p: Point :: Contains(p) ==> r.Contains(p)
      ensures dx % 2 == 0 && dy % 2 == 0 ==>
                r.x + r.w - (x + w) == x - r.x && r.y + r.h - (y + h) == y - r.y
    {
      Rect(x - HalfTowardZero(dx), y - HalfTowardZero(dy), w + dx, h + dy)
    }
  }
}
