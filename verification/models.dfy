/**
  The value types of models.py: Point, FieldValue and Field, together with
  the GameResult record that the solver imports from models.py but that the
  file does not define (it is reconstructed here from the one place that
  builds it, the solver's _log_game).
*/
module Models {
  import opened Wrappers

  /** An immutable integer pixel coordinate pair. */
  datatype Point = Point(x: int, y: int)

  /**
    The logical state of one board field. The first ten constructors are the
    members of the FieldValue enum; Flagged is an extension: toggle_flag
    assigns FieldValue.FLAGGED, which the enum does not declare.
  */
  datatype FieldValue =
    | Undiscovered | Empty
    | One | Two | Three | Four | Five | Six | Seven | Eight
    | Flagged

  /** True of exactly the ten members the enum declares. */
  predicate IsEnumMember(v: FieldValue)
  {
    !v.Flagged?
  }

  /** The integer code the enum gives a declared member. */
  function Code(v: FieldValue): (n: int)
    requires IsEnumMember(v)
    ensures -1 <= n <= 8
    ensures n == -1 <==> v == Undiscovered
    ensures n == 0 <==> v == Empty
  {
    match v
    case Undiscovered => -1
    case Empty => 0
    case One => 1
    case Two => 2
    case Three => 3
    case Four => 4
    case Five => 5
    case Six => 6
    case Seven => 7
    case Eight => 8
  }

  /** Looks a member up by its code, as the call FieldValue(n) does; None where that call raises. */
  function FromCode(n: int): Option<FieldValue>
  {
    if n == -1 then Some(Undiscovered)
    else if n == 0 then Some(Empty)
    else if n == 1 then Some(One)
    else if n == 2 then Some(Two)
    else if n == 3 then Some(Three)
    else if n == 4 then Some(Four)
    else if n == 5 then Some(Five)
    else if n == 6 then Some(Six)
    else if n == 7 then Some(Seven)
    else if n == 8 then Some(Eight)
    else None
  }

  /** Every declared member is found again from its code. */
  lemma CodeRoundTrip(v: FieldValue)
    requires IsEnumMember(v)
    ensures FromCode(Code(v)) == Some(v)
  {
  }

  /**
    The codes are exactly -1..8, and each code names a declared member whose
    code it is; with CodeRoundTrip this makes Code a bijection from the ten
    members onto -1..8, so the codes are pairwise distinct.
  */
  lemma FromCodeRoundTrip(n: int)
    ensures FromCode(n).Some? <==> -1 <= n <= 8
    ensures FromCode(n).Some? ==> IsEnumMember(FromCode(n).value) && Code(FromCode(n).value) == n
  {
  }

  /** Distinct declared members have distinct codes. */
  lemma CodesDistinct(v: FieldValue, w: FieldValue)
    requires IsEnumMember(v) && IsEnumMember(w) && v != w
    ensures Code(v) != Code(w)
  {
    CodeRoundTrip(v);
    CodeRoundTrip(w);
  }

  /**
    One board field: its absolute screen centre, its centre inside the
    captured board image, its row-major number, its value and the strategy's
    "logically safe" flag. The dataclass calls the number field_id; the
    solver passes it as id, which is resolved here in favour of field_id.
  */
  datatype Field = Field(posToScreen: Point, posToBoard: Point, fieldId: int, value: FieldValue, safe: bool)

  /** A field built with the dataclass defaults for value and safe. */
  function NewField(posToScreen: Point, posToBoard: Point, fieldId: int): (f: Field)
    ensures f.value == Undiscovered && !f.safe
    ensures f.posToScreen == posToScreen && f.posToBoard == posToBoard && f.fieldId == fieldId
  {
    Field(posToScreen, posToBoard, fieldId, Undiscovered, false)
  }

  /** The outcome of a completed game ('win' or 'loss'). */
  datatype Outcome = Win | Loss

  /** One entry of the game history, immutable once appended. */
  datatype GameResult = GameResult(id: int, result: Outcome, totalMoves: int, timePlayed: real)
}
