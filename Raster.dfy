/** 8-bit rasters: one-channel values, three-channel pixels and the
    row-major grid view of a one-channel buffer. A buffer is an array2 whose
    first dimension is the row (Length0 is the height) and whose second is the
    column (Length1 is the width). */
module Raster {

  /** One 8-bit unsigned channel value. */
  type Byte = x: int | 0 <= x < 256

  /** A colour pixel, channels in the order the decoder stores them. */
  datatype Pixel = Pixel(b: Byte, g: Byte, r: Byte)

  const Black := Pixel(0, 0, 0)

  /** The contents of a one-channel buffer as a sequence of rows. */
  type Grid = seq<seq<Byte>>

  ghost predicate IsGrid(g: Grid, width: int, height: int)
  {
    |g| == height && forall row :: 0 <= row < height ==> |g[row]| == width
  }

  /** The current contents of a one-channel buffer. */
  function Snapshot(a: array2<Byte>): (g: Grid)
    reads a
    ensures IsGrid(g, a.Length1, a.Length0)
    ensures forall row, col :: 0 <= row < a.Length0 && 0 <= col < a.Length1 ==> g[row][col] == a[row, col]
  {
    seq(a.Length0, row requires 0 <= row < a.Length0 reads a =>
      seq(a.Length1, col requires 0 <= col < a.Length1 reads a => a[row, col]))
  }
}
