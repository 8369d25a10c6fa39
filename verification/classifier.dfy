/**
  The state classifier: the fixed colour table and the two-stage decision
  (upper-edge sample first, then centre colour with an EMPTY fallback) that
  refreshes one undiscovered field from a captured board image.
*/
module Classifier {
  import opened Wrappers
  import opened Models
  import opened Capture
  import opened Geometry

  const WHITE: Rgb := Rgb(255, 255, 255)
  const BLACK: Rgb := Rgb(0, 0, 0)

  /** The colour table: white is the covered sentinel, eight colours are the numbers 1..8. */
  function ColorMap(c: Rgb): Option<FieldValue>
  {
    if c == Rgb(255, 255, 255) then Some(Undiscovered)
    else if c == Rgb(0, 0, 255) then Some(One)
    else if c == Rgb(0, 123, 0) then Some(Two)
    else if c == Rgb(255, 0, 0) then Some(Three)
    else if c == Rgb(0, 0, 123) then Some(Four)
    else if c == Rgb(128, 0, 0) then Some(Five)
    else if c == Rgb(19, 130, 130) then Some(Six)
    else if c == Rgb(0, 0, 0) then Some(Seven)
    else if c == Rgb(123, 123, 123) then Some(Eight)
    else None
  }

  /** The colour the table assigns to a value, if any (the table read backwards). */
  function PaletteColor(v: FieldValue): Option<Rgb>
  {
    match v
    case Undiscovered => Some(WHITE)
    case One => Some(Rgb(0, 0, 255))
    case Two => Some(Rgb(0, 123, 0))
    case Three => Some(Rgb(255, 0, 0))
    case Four => Some(Rgb(0, 0, 123))
    case Five => Some(Rgb(128, 0, 0))
    case Six => Some(Rgb(19, 130, 130))
    case Seven => Some(BLACK)
    case Eight => Some(Rgb(123, 123, 123))
    case Empty => None
    case Flagged => None
  }

  /**
    The table is a bijection between its nine colours and the values
    UNDISCOVERED, ONE..EIGHT: a colour maps to a value exactly when that value's
    palette colour is that colour. So no colour maps to EMPTY or FLAGGED, and
    only white maps to UNDISCOVERED.
  */
  lemma ColorMapIsPaletteInverse(c: Rgb, v: FieldValue)
    ensures ColorMap(c) == Some(v) <==> PaletteColor(v) == Some(c)
  {
  }

  /** The table reads a colour as UNDISCOVERED exactly when it is the covered sentinel. */
  lemma SentinelIsOnlyWhite(c: Rgb)
    ensures ColorMap(c) == Some(Undiscovered) <==> c == WHITE
  {
  }

  /** True when both samples of a field lie inside the captured image. */
  predicate SamplesInside(f: Field, shot: Raster)
  {
    Contains(shot, f.posToBoard.x, f.posToBoard.y)
    && Contains(shot, f.posToBoard.x, f.posToBoard.y - FIELD_BORDER_OFFSET)
  }

  /** The upper-edge sample of a field. */
  function BorderColor(f: Field, shot: Raster): Rgb
    requires SamplesInside(f, shot)
  {
    Pixel(shot, f.posToBoard.x, f.posToBoard.y - FIELD_BORDER_OFFSET)
  }

  /** The centre sample of a field. */
  function CenterColor(f: Field, shot: Raster): Rgb
    requires SamplesInside(f, shot)
  {
    Pixel(shot, f.posToBoard.x, f.posToBoard.y)
  }

  /**
    One field after a board refresh. Only an undiscovered field is examined;
    if its upper edge is still the covered sentinel it is left alone,
    otherwise its value becomes the table's value for its centre colour, or
    EMPTY for a colour the table does not list.
  */
  function Refreshed(f: Field, shot: Raster): (g: Field)
    requires SamplesInside(f, shot)
    ensures g.(value := f.value) == f
    ensures f.value != Undiscovered ==> g == f
    ensures f.value == Undiscovered && BorderColor(f, shot) == WHITE ==> g.value == Undiscovered
    ensures f.value == Undiscovered && BorderColor(f, shot) != WHITE ==>
              (g.value == Empty <==> ColorMap(CenterColor(f, shot)).None?)
              && (g.value != Empty ==> PaletteColor(g.value) == Some(CenterColor(f, shot)))
    ensures g.value != Flagged || f.value == Flagged
  {
    if f.value != Undiscovered then f
    else if ColorMap(BorderColor(f, shot)) == Some(Undiscovered) then f
    else
      match ColorMap(CenterColor(f, shot))
      case Some(v) => f.(value := v)
      case None => f.(value := Empty)
  }

  /** A field after a sequence of board refreshes, oldest first. */
  function RefreshedAll(f: Field, shots: seq<Raster>): (g: Field)
    requires forall k :: 0 <= k < |shots| ==> SamplesInside(f, shots[k])
    ensures g.(value := f.value) == f
    ensures f.value != Undiscovered ==> g == f
  {
    if shots == [] then f
    else
      var last := shots[|shots| - 1];
      assert SamplesInside(f, last);
      Refreshed(RefreshedAll(f, shots[..|shots| - 1]), last)
  }

  /**
    Revealed state is terminal within a game: once a field has left
    UNDISCOVERED, no later refresh before the next reset changes it.
  */
  lemma {:induction false} RevealedIsStable(f: Field, shots: seq<Raster>, i: nat, j: nat)
    requires i <= j <= |shots|
    requires forall k :: 0 <= k < |shots| ==> SamplesInside(f, shots[k])
    requires RefreshedAll(f, shots[..i]).value != Undiscovered
    ensures RefreshedAll(f, shots[..j]) == RefreshedAll(f, shots[..i])
  {
    if j > i {
      RevealedIsStable(f, shots, i, j - 1);
      assert shots[..j][..j - 1] == shots[..j - 1];
      assert shots[..j][j - 1] == shots[j - 1];
    }
  }
}
