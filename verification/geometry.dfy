/**
  Board geometry and identity: the row-major numbering of fields, the screen
  centre of each field, its centre inside the captured board image, the
  capture regions, and the initial board built from them.
*/
module Geometry {
  import opened Wrappers
  import opened Models
  import opened Capture

  /** Side of one field in pixels. */
  const FIELD_DIAMETER: int := 32
  /** Half a field: the offset from a field's corner to its centre. */
  const FIELD_RADIUS: int := FIELD_DIAMETER / 2
  /** Vertical offset from a field's centre to the sample on its upper edge. */
  const FIELD_BORDER_OFFSET: int := 12
  /** Half the side of the smiley button. */
  const SMILEY_RAD: int := 17
  /** Side of the captured smiley image. */
  const SMILEY_SIZE: int := 34

  datatype Difficulty = Beginner | Intermediate | Expert

  /** Board configuration: columns, rows and mines. */
  datatype BoardSize = BoardSize(columns: int, rows: int, mines: int)

  /** The board configuration of each difficulty level. */
  function DifficultyToSize(d: Difficulty): (s: BoardSize)
    ensures s.columns > 0 && s.rows > 0 && 0 < s.mines < s.columns * s.rows
  {
    match d
    case Beginner => BoardSize(9, 9, 10)
    case Intermediate => BoardSize(16, 16, 40)
    case Expert => BoardSize(30, 16, 99)
  }

  /** A custom configuration overrides the difficulty level. */
  function SelectSize(d: Difficulty, custom: Option<BoardSize>): BoardSize
  {
    if custom.Some? then custom.value else DifficultyToSize(d)
  }

  /** The row-major number of the field in row `row`, column `col`. */
  function IdFromRC(columns: int, row: int, col: int): int
  {
    col + row * columns
  }

  /** The (row, column) a row-major number stands for. */
  function RowColFromId(columns: int, id: int): (int, int)
    requires columns > 0
  {
    (id / columns, id % columns)
  }

  /** A positive multiple of a positive number is at least that number. */
  lemma MulAtLeast(k: int, n: int)
    requires k >= 1 && n > 0
    ensures k * n >= n
  {
    assert k * n == (k - 1) * n + n;
    assert (k - 1) * n >= 0;
  }

  /** Euclidean division is determined by quotient and remainder. */
  lemma DivModUnique(a: int, q: int, r: int, n: int)
    requires 0 <= r < n && a == q * n + r
    ensures a / n == q && a % n == r
  {
    var q', r' := a / n, a % n;
    assert a == q' * n + r';
    assert 0 <= r' < n;
    assert q * n - q' * n == r' - r;
    assert (q - q') * n == q * n - q' * n;
    if q > q' {
      MulAtLeast(q - q', n);
    } else if q < q' {
      MulAtLeast(q' - q, n);
    }
  }

  /** Board numbers lie in [0, rows * columns). */
  lemma IdInRange(rows: int, columns: int, r: int, c: int)
    requires 0 <= r < rows && 0 <= c < columns
    ensures 0 <= IdFromRC(columns, r, c) < rows * columns
  {
    assert r * columns >= 0;
    assert (r + 1) * columns <= rows * columns;
  }

  /** The number of a field gives back its row and column. */
  lemma IdRoundTrip(columns: int, r: int, c: int)
    requires 0 <= r && 0 <= c < columns
    ensures RowColFromId(columns, IdFromRC(columns, r, c)) == (r, c)
  {
    DivModUnique(IdFromRC(columns, r, c), r, c, columns);
  }

  /** No two fields of the board share a number. */
  lemma IdInjective(columns: int, r1: int, c1: int, r2: int, c2: int)
    requires 0 <= r1 && 0 <= c1 < columns && 0 <= r2 && 0 <= c2 < columns
    requires IdFromRC(columns, r1, c1) == IdFromRC(columns, r2, c2)
    ensures r1 == r2 && c1 == c2
  {
    IdRoundTrip(columns, r1, c1);
    IdRoundTrip(columns, r2, c2);
  }

  /** Every number in [0, rows * columns) is the number of some field of the board. */
  lemma IdSurjective(rows: int, columns: int, id: int)
    requires rows >= 0 && columns >= 0 && 0 <= id < rows * columns
    ensures columns > 0
    ensures 0 <= RowColFromId(columns, id).0 < rows && 0 <= RowColFromId(columns, id).1 < columns
    ensures IdFromRC(columns, RowColFromId(columns, id).0, RowColFromId(columns, id).1) == id
  {
    if columns == 0 {
      assert false;
    }
    var r, c := id / columns, id % columns;
    assert id == r * columns + c;
  }

  /** The set of the numbers of all fields of a rows x columns board. */
  function BoardIds(rows: int, columns: int): set<int>
  {
    set r, c | 0 <= r < rows && 0 <= c < columns :: IdFromRC(columns, r, c)
  }

  /** The set of field numbers of a rows x columns board is exactly {0, ..., rows * columns - 1}. */
  lemma BoardIdsAreExactlyTheRange(rows: int, columns: int)
    requires rows >= 0 && columns >= 0
    ensures forall i :: i in BoardIds(rows, columns) <==> 0 <= i < rows * columns
  {
    forall i | i in BoardIds(rows, columns)
      ensures 0 <= i < rows * columns
    {
      var r, c :| 0 <= r < rows && 0 <= c < columns && i == IdFromRC(columns, r, c);
      IdInRange(rows, columns, r, c);
    }
    forall i | 0 <= i < rows * columns
      ensures i in BoardIds(rows, columns)
    {
      IdSurjective(rows, columns, i);
      var (r, c) := RowColFromId(columns, i);
      assert 0 <= r < rows && 0 <= c < columns && i == IdFromRC(columns, r, c);
    }
  }

  /** The absolute screen position of the centre of field (row, column). */
  function CenterFieldPos(origin: Point, row: int, column: int): Point
  {
    Point(origin.x + column * FIELD_DIAMETER, origin.y + row * FIELD_DIAMETER)
  }

  /** Converts an absolute screen position to a position inside the captured board image. */
  function RelativeToBoard(origin: Point, screenPos: Point): Point
  {
    Point(screenPos.x - origin.x + FIELD_RADIUS, screenPos.y - origin.y + FIELD_RADIUS)
  }

  /** The region captured to read the board: exactly the board's bounding box. */
  function BoardRegion(origin: Point, columns: int, rows: int): Region
  {
    Region(origin.x - FIELD_RADIUS, origin.y - FIELD_RADIUS, columns * FIELD_DIAMETER, rows * FIELD_DIAMETER)
  }

  /** The region captured to read the smiley button. */
  function SmileyRegion(smiley: Point): Region
  {
    Region(smiley.x - SMILEY_RAD, smiley.y - SMILEY_RAD, SMILEY_SIZE, SMILEY_SIZE)
  }

  /** The field in row r, column c of a freshly initialised board. */
  function InitialField(origin: Point, columns: int, r: int, c: int): Field
  {
    NewField(CenterFieldPos(origin, r, c), RelativeToBoard(origin, CenterFieldPos(origin, r, c)), IdFromRC(columns, r, c))
  }

  /** The freshly initialised board, as a list of rows. */
  function InitializeGameBoard(origin: Point, columns: nat, rows: nat): (board: seq<seq<Field>>)
    ensures |board| == rows
    ensures forall r :: 0 <= r < rows ==> |board[r]| == columns
    ensures forall r, c :: 0 <= r < rows && 0 <= c < columns ==> board[r][c] == InitialField(origin, columns, r, c)
  {
    seq(rows, (r: int) => seq(columns, (c: int) => InitialField(origin, columns, r, c)))
  }

  /**
    The geometry of field (r, c): its board-image centre is (32c + 16, 32r + 16),
    its screen centre is the origin moved by (32c, 32r), and converting the
    screen centre back gives the board-image centre again.
  */
  lemma FieldGeometry(origin: Point, columns: int, r: int, c: int)
    ensures InitialField(origin, columns, r, c).posToBoard
         == Point(c * FIELD_DIAMETER + FIELD_RADIUS, r * FIELD_DIAMETER + FIELD_RADIUS)
    ensures InitialField(origin, columns, r, c).posToScreen
         == Point(origin.x + c * FIELD_DIAMETER, origin.y + r * FIELD_DIAMETER)
  {
  }

  /** Both samples the classifier takes of a field, its centre and its upper edge, lie inside the captured board. */
  lemma SamplesInsideBoard(origin: Point, columns: int, rows: int, r: int, c: int, screen: Screen)
    requires 0 <= r < rows && 0 <= c < columns
    ensures var p := InitialField(origin, columns, r, c).posToBoard;
            var shot := Grab(screen, BoardRegion(origin, columns, rows));
            Contains(shot, p.x, p.y) && Contains(shot, p.x, p.y - FIELD_BORDER_OFFSET)
            && p.y - FIELD_BORDER_OFFSET >= 4
  {
  }

  /** The board-image pixel at a field's board position is the screen pixel at the field's screen position. */
  lemma BoardSampleIsScreenCentre(origin: Point, columns: int, rows: int, r: int, c: int, screen: Screen)
    requires 0 <= r < rows && 0 <= c < columns
    ensures var f := InitialField(origin, columns, r, c);
            var shot := Grab(screen, BoardRegion(origin, columns, rows));
            Contains(shot, f.posToBoard.x, f.posToBoard.y)
            && Pixel(shot, f.posToBoard.x, f.posToBoard.y) == screen(f.posToScreen.x, f.posToScreen.y)
  {
  }

  function Range(n: nat): seq<int>
  {
    seq(n, (i: int) => i)
  }

  /** The field numbers of one row, left to right. */
  function RowIds(row: seq<Field>): seq<int>
  {
    seq(|row|, (j: int) requires 0 <= j < |row| => row[j].fieldId)
  }

  /** The field numbers of a board, row after row. */
  function FlattenIds(board: seq<seq<Field>>): seq<int>
  {
    if board == [] then [] else FlattenIds(board[..|board| - 1]) + RowIds(board[|board| - 1])
  }

  /** Read row by row, the numbers of a fresh board are 0, 1, ..., rows * columns - 1 in order. */
  lemma {:induction false} InitialBoardIdsRowMajor(origin: Point, columns: nat, rows: nat)
    ensures rows * columns >= 0
    ensures FlattenIds(InitializeGameBoard(origin, columns, rows)) == Range(rows * columns)
  {
    var board := InitializeGameBoard(origin, columns, rows);
    if rows > 0 {
      var prev := InitializeGameBoard(origin, columns, rows - 1);
      assert board[..rows - 1] == prev;
      InitialBoardIdsRowMajor(origin, columns, rows - 1);
      var base := (rows - 1) * columns;
      assert rows * columns == base + columns;
      var last := RowIds(board[rows - 1]);
      assert |last| == columns;
      assert forall j :: 0 <= j < columns ==> last[j] == base + j;
      assert FlattenIds(board) == Range(base) + last;
      assert Range(base) + last == Range(rows * columns);
    } else {
      assert board == [];
    }
  }
}
