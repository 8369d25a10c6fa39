/**
  The screen-capture capability the solver consumes. The screen is an
  arbitrary total colour function over absolute coordinates; grabbing a
  region yields a raster of that region's size whose pixel (x, y) is the
  screen pixel (left + x, top + y). Reading a pixel outside the raster is an
  error, so every sample the solver takes must be proved to lie inside.
*/
module Capture {

  /** An RGB colour triple. */
  datatype Rgb = Rgb(r: int, g: int, b: int)

  /** What is shown on screen, as a colour per absolute pixel coordinate. */
  type Screen = (int, int) -> Rgb

  /** A rectangular capture region (left, top, width, height). */
  datatype Region = Region(left: int, top: int, width: int, height: int)

  /** A captured image. */
  datatype Raster = Raster(width: int, height: int, at: (int, int) -> Rgb)

  /** Captures a region of the screen. */
  function Grab(screen: Screen, region: Region): (shot: Raster)
    ensures shot.width == region.width && shot.height == region.height
  {
    Raster(region.width, region.height, (x: int, y: int) => screen(region.left + x, region.top + y))
  }

  /** True when (x, y) is a pixel of the raster. */
  predicate Contains(shot: Raster, x: int, y: int)
  {
    0 <= x < shot.width && 0 <= y < shot.height
  }

  /** Reads one pixel of a raster. */
  function Pixel(shot: Raster, x: int, y: int): Rgb
    requires Contains(shot, x, y)
  {
    shot.at(x, y)
  }

  /** A pixel of a grabbed raster is the screen pixel offset by the region's corner. */
  lemma GrabPixel(screen: Screen, region: Region, x: int, y: int)
    requires Contains(Grab(screen, region), x, y)
    ensures Pixel(Grab(screen, region), x, y) == screen(region.left + x, region.top + y)
  {
  }
}
