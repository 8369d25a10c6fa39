/**
  The game-status detector: two fixed pixels of the captured smiley button
  decide between an ongoing game and the two terminal outcomes.
*/
module GameStatus {
  import opened Models
  import opened Capture
  import opened Geometry
  import opened Classifier

  /** Pixel inside the smiley image sampled first (the dead smiley's mouth corner). */
  const DEAD_SMILEY_MOUTH_CORNER_POS: Point := Point(8, 25)
  /** Pixel inside the smiley image sampled second (the cool smiley's glasses). */
  const COOL_SMILEY_GLASSES_CENTER_POS: Point := Point(16, 11)

  /** The lifecycle state the loop observes ('ongoing', 'win' or 'loss'). */
  datatype Status = Ongoing | Ended(outcome: Outcome)

  /** True when both status pixels lie inside the captured smiley image. */
  predicate StatusPixelsInside(smiley: Raster)
  {
    Contains(smiley, DEAD_SMILEY_MOUTH_CORNER_POS.x, DEAD_SMILEY_MOUTH_CORNER_POS.y)
    && Contains(smiley, COOL_SMILEY_GLASSES_CENTER_POS.x, COOL_SMILEY_GLASSES_CENTER_POS.y)
  }

  /** Both status pixels lie inside every capture of the smiley region. */
  lemma SmileyCaptureHoldsStatusPixels(screen: Screen, smiley: Point)
    ensures StatusPixelsInside(Grab(screen, SmileyRegion(smiley)))
  {
  }

  /**
    Classifies the game. As written, a black mouth-corner pixel (the dead
    smiley) is reported as a win and a black glasses pixel (the cool smiley)
    as a loss; the mouth corner is checked first, so it decides when both are
    black.
  */
  function CheckGameStatus(smiley: Raster): (s: Status)
    requires StatusPixelsInside(smiley)
    ensures s == Ended(Win) <==> Pixel(smiley, 8, 25) == BLACK
    ensures s == Ended(Loss) <==> Pixel(smiley, 8, 25) != BLACK && Pixel(smiley, 16, 11) == BLACK
    ensures s == Ongoing <==> Pixel(smiley, 8, 25) != BLACK && Pixel(smiley, 16, 11) != BLACK
  {
    if Pixel(smiley, DEAD_SMILEY_MOUTH_CORNER_POS.x, DEAD_SMILEY_MOUTH_CORNER_POS.y) == BLACK then Ended(Win)
    else if Pixel(smiley, COOL_SMILEY_GLASSES_CENTER_POS.x, COOL_SMILEY_GLASSES_CENTER_POS.y) == BLACK then Ended(Loss)
    else Ongoing
  }
  /** The status read off a capture of the smiley region around the smiley centre. */
  function ObservedStatus(screen: Screen, smiley: Point): Status
  {
    SmileyCaptureHoldsStatusPixels(screen, smiley);
    CheckGameStatus(Grab(screen, SmileyRegion(smiley)))
  }

  /**
    On the screen itself, relative to the smiley centre the detector finds:
    the mouth-corner pixel sits 9 left and 8 below it, the glasses pixel 1
    left and 6 above it; the status is decided by those two screen pixels
    and the three outcomes are exclusive and exhaustive.
  */
  lemma StatusFromScreen(screen: Screen, smiley: Point)
    ensures var s := ObservedStatus(screen, smiley);
            && (s == Ended(Win) <==> screen(smiley.x - 9, smiley.y + 8) == BLACK)
            && (s == Ended(Loss) <==> screen(smiley.x - 9, smiley.y + 8) != BLACK && screen(smiley.x - 1, smiley.y - 6) == BLACK)
            && (s == Ongoing <==> screen(smiley.x - 9, smiley.y + 8) != BLACK && screen(smiley.x - 1, smiley.y - 6) != BLACK)
  {
    var region := SmileyRegion(smiley);
    SmileyCaptureHoldsStatusPixels(screen, smiley);
    GrabPixel(screen, region, 8, 25);
    GrabPixel(screen, region, 16, 11);
  }
}
