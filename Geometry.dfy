/** Integer plane geometry with the semantics of System.Drawing.Point and
    System.Drawing.Rectangle: the origin is the top-left corner, x grows to the
    right and y grows downwards; a rectangle covers columns [x, x + width) and
    rows [y, y + height). Nothing clips a rectangle to any canvas. */
module Geometry {

  datatype Point = Point(x: int, y: int)

  datatype Rectangle = Rectangle(x: int, y: int, width: int, height: int)

  /** Rectangle.Empty */
  const Empty := Rectangle(0, 0, 0, 0)

  /** First column to the right of the rectangle (Rectangle.Right). */
  function Right(r: Rectangle): int { r.x + r.width }

  /** First row below the rectangle (Rectangle.Bottom). */
  function Bottom(r: Rectangle): int { r.y + r.height }

  /** Pixel (col, row) lies inside the rectangle. */
  predicate Contains(r: Rectangle, col: int, row: int)
  {
    r.x <= col < Right(r) && r.y <= row < Bottom(r)
  }

  /** Rectangle.Offset(dx, dy): the same size, moved by (dx, dy). */
  function Offset(r: Rectangle, dx: int, dy: int): (q: Rectangle)
    ensures q.width == r.width && q.height == r.height
    ensures forall col, row :: Contains(q, col, row) <==> Contains(r, col - dx, row - dy)
  {
    r.(x := r.x + dx, y := r.y + dy)
  }

  /** Rectangle.Inflate(dx, dy): every side moves outwards, the left and top
      edges by dx and dy, the right and bottom edges by the same amounts. */
  function Inflate(r: Rectangle, dx: int, dy: int): (q: Rectangle)
    ensures q.x == r.x - dx && Right(q) == Right(r) + dx
    ensures q.y == r.y - dy && Bottom(q) == Bottom(r) + dy
  {
    Rectangle(r.x - dx, r.y - dy, r.width + 2 * dx, r.height + 2 * dy)
  }
}
