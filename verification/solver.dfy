/**
  The solver: the board of fields it keeps up to date in place, the
  per-field value updates (reset, refresh from a capture, flag toggle) and
  the polling loop of start with its counters and game history.
*/
module Solver {
  import opened Wrappers
  import opened Models
  import opened Capture
  import opened Geometry
  import opened Classifier
  import opened GameStatus
  import opened Stats

  /**
    What the move-selection strategy does in one tick: nothing, a left click
    on a field (which changes no field value) or a flag toggle on a field.
  */
  datatype Action = NoMove | Reveal(row: int, col: int) | ToggleFlagAt(row: int, col: int)

  /**
    The inputs of one polling cycle: the screen when the status is sampled,
    the clock reading, the strategy's action and the screen when the board
    is sampled afterwards.
  */
  datatype Observation = Observation(statusScreen: Screen, now: real, action: Action, boardScreen: Screen)

  /** Why start can fail. */
  datatype StartError = UsernameNeedsStopAfterWin | StatsFailed(error: StatsError)

  /** toggle_flag's value update: anything but FLAGGED becomes FLAGGED, FLAGGED becomes UNDISCOVERED. */
  function ToggledValue(v: FieldValue): (w: FieldValue)
    ensures w == Flagged <==> v != Flagged
    ensures w == Undiscovered <==> v == Flagged
  {
    if v != Flagged then Flagged else Undiscovered
  }

  /**
    Toggling twice restores exactly the covered states: a revealed number or
    EMPTY that is toggled becomes FLAGGED and then UNDISCOVERED, so its
    revealed value is lost.
  */
  lemma ToggleTwice(v: FieldValue)
    ensures ToggledValue(ToggledValue(v)) == v <==> v == Undiscovered || v == Flagged
    ensures ToggledValue(ToggledValue(v)) != v ==> ToggledValue(ToggledValue(v)) == Undiscovered
  {
  }

  /** The effect of the strategy's action on field (r, c). */
  function AfterAction(f: Field, r: int, c: int, action: Action): Field
  {
    if action == ToggleFlagAt(r, c) then f.(value := ToggledValue(f.value)) else f
  }

  /** The game duration logged: elapsed time since the recorded start, or 0 when no start is recorded. */
  function Duration(start: real, now: real): real
  {
    if start != 0.0 then now - start else 0.0
  }

  /** A terminal status that repeats the previous tick's status is skipped. */
  predicate Skipped(last: Option<Status>, status: Status)
  {
    last == Some(status) && status != Ongoing
  }

  /** The result start returns for a statistics result. */
  function StartResult(stats: Result<RunStats, StatsError>): Result<RunStats, StartError>
  {
    match stats
    case Success(s) => Success(s)
    case Failure(e) => Failure(StatsFailed(e))
  }

  /** The loop's bookkeeping: the move counters, the best score, the history and the status memory. */
  datatype Counters = Counters(
    movesMade: nat,
    totalMoves: nat,
    bestWinMoves: int,
    gameHistory: seq<GameResult>,
    gamesCompleted: nat,
    lastStatus: Option<Status>,
    gameStartTime: real)

  /**
    The bookkeeping of one loop iteration that observes status at time now,
    and whether the loop breaks: a repeated terminal status is skipped; an
    ongoing status counts a move (and starts the clock when the previous
    status was not ongoing); a terminal status counts a move, logs the game
    as a win with its moves and duration, zeroes the move counter and the
    start time, and on a win sets the best score to min(moves_made, best)
    with moves_made already 0, breaking under stop_after_win.
  */
  function Step(k: Counters, status: Status, now: real, stopAfterWin: bool): (Counters, bool)
  {
    if Skipped(k.lastStatus, status) then (k, false)
    else if status == Ongoing then
      (k.(lastStatus := Some(status), movesMade := k.movesMade + 1, totalMoves := k.totalMoves + 1,
          gameStartTime := if k.lastStatus != Some(Ongoing) then now else k.gameStartTime), false)
    else
      var n := k.gamesCompleted + 1;
      var logged := k.(lastStatus := Some(status), totalMoves := k.totalMoves + 1, gamesCompleted := n,
                       gameHistory := k.gameHistory + [GameResult(n, Win, k.movesMade + 1, Duration(k.gameStartTime, now))],
                       movesMade := 0, gameStartTime := 0.0);
      if status == Ended(Win) then (logged.(bestWinMoves := if 0 < k.bestWinMoves then 0 else k.bestWinMoves), stopAfterWin)
      else (logged, false)
  }

  /**
    The polling loop of start over the observations from bookkeeping k: it
    ends when play_games games are completed, when an iteration breaks, or
    when the observations run out. The result is the final bookkeeping and
    the number of observations polled.
  */
  function Run(k: Counters, observations: seq<Observation>, smiley: Point, playGames: int, stopAfterWin: bool)
    : (Counters, nat)
    decreases |observations|
  {
    if k.gamesCompleted >= playGames || observations == [] then (k, 0)
    else
      var obs := observations[0];
      var next := Step(k, ObservedStatus(obs.statusScreen, smiley), obs.now, stopAfterWin);
      if next.1 then (next.0, 1)
      else
        var rest := Run(next.0, observations[1..], smiley, playGames, stopAfterWin);
        (rest.0, rest.1 + 1)
  }

  /**
    The bookkeeping invariant: every move counted belongs to a logged game
    or to the current one, and the history holds one entry per completed
    game, numbered from 1, each logged as a win.
  */
  ghost predicate Accounted(k: Counters)
  {
    && k.totalMoves == TotalMoves(k.gameHistory) + k.movesMade
    && |k.gameHistory| == k.gamesCompleted
    && (forall i :: 0 <= i < |k.gameHistory| ==> k.gameHistory[i].id == i + 1 && k.gameHistory[i].result == Win)
  }

  /** One iteration keeps the bookkeeping invariant, completes at most one game and breaks only on a win under stop_after_win. */
  lemma StepKeepsAccount(k: Counters, status: Status, now: real, stopAfterWin: bool)
    requires Accounted(k)
    ensures var next := Step(k, status, now, stopAfterWin);
            && Accounted(next.0)
            && k.gamesCompleted <= next.0.gamesCompleted <= k.gamesCompleted + 1
            && (next.1 ==> stopAfterWin && status == Ended(Win) && next.0.lastStatus == Some(Ended(Win)))
  {
    if !Skipped(k.lastStatus, status) && status != Ongoing {
      var n := k.gamesCompleted + 1;
      AppendGame(k.gameHistory, GameResult(n, Win, k.movesMade + 1, Duration(k.gameStartTime, now)));
    }
  }

  /**
    The loop keeps the bookkeeping invariant, polls at most all the
    observations, completes at most one game per observation polled, and
    ends only when play_games games are completed, when a win breaks it
    under stop_after_win, or when every observation has been polled.
  */
  lemma {:induction false} RunEnds(k: Counters, observations: seq<Observation>, smiley: Point, playGames: int, stopAfterWin: bool)
    requires Accounted(k)
    ensures var (last, polled) := Run(k, observations, smiley, playGames, stopAfterWin);
            && Accounted(last)
            && polled <= |observations|
            && k.gamesCompleted <= last.gamesCompleted <= k.gamesCompleted + polled
            && (last.gamesCompleted >= playGames || polled == |observations|
                || (stopAfterWin && last.lastStatus == Some(Ended(Win))))
    decreases |observations|
  {
    if !(k.gamesCompleted >= playGames || observations == []) {
      var obs := observations[0];
      StepKeepsAccount(k, ObservedStatus(obs.statusScreen, smiley), obs.now, stopAfterWin);
      var next := Step(k, ObservedStatus(obs.statusScreen, smiley), obs.now, stopAfterWin);
      if !next.1 {
        RunEnds(next.0, observations[1..], smiley, playGames, stopAfterWin);
      }
    }
  }

  /** The observations left after polling the i-th. */
  lemma DropFirst(observations: seq<Observation>, i: int)
    requires 0 <= i < |observations|
    ensures observations[i..][0] == observations[i] && observations[i..][1..] == observations[i + 1..]
  {
  }

  class MineSweeperSolver {
    const columns: nat
    const rows: nat
    const totalMines: int
    /** Screen centre of the top-left field. */
    const origin: Point
    /** Screen centre of the smiley button. */
    const smileyPos: Point
    const playGames: int
    const stopAfterWin: bool
    const board: array2<Field>

    var movesMade: nat
    var totalMoves: nat
    var bestWinMoves: int
    var gameHistory: seq<GameResult>
    var gamesCompleted: nat
    var lastStatus: Option<Status>
    var gameStartTime: real

    /** Field f sits at row r, column c with the geometry it was built with. */
    predicate AtHome(f: Field, r: int, c: int)
    {
      f.(value := Undiscovered) == InitialField(origin, columns, r, c)
    }

    /** A strategy action names a field of this board, if any. */
    predicate ValidAction(action: Action)
    {
      match action
      case NoMove => true
      case Reveal(r, c) => 0 <= r < rows && 0 <= c < columns
      case ToggleFlagAt(r, c) => 0 <= r < rows && 0 <= c < columns
    }

    /** The board capture this solver takes. */
    function BoardShot(screen: Screen): Raster
    {
      Grab(screen, BoardRegion(origin, columns, rows))
    }

    /** The loop's bookkeeping as it stands. */
    function Snapshot(): Counters
      reads this
    {
      Counters(movesMade, totalMoves, bestWinMoves, gameHistory, gamesCompleted, lastStatus, gameStartTime)
    }

    /**
      The board after one loop iteration on status: unchanged when the
      status is skipped, refreshed from the board capture (after the
      strategy's action) in an ongoing game, left as the action made it when
      the loop breaks, and reset otherwise.
    */
    twostate predicate BoardAfterTick(status: Status, action: Action, boardScreen: Screen, stop: bool)
      reads this, board
    {
      if Skipped(old(lastStatus), status) then
        forall r, c :: 0 <= r < board.Length0 && 0 <= c < board.Length1 ==> board[r, c] == old(board[r, c])
      else if status == Ongoing then
        forall r, c :: 0 <= r < board.Length0 && 0 <= c < board.Length1 ==>
          SamplesInside(old(board[r, c]), BoardShot(boardScreen))
          && board[r, c] == Refreshed(AfterAction(old(board[r, c]), r, c, action), BoardShot(boardScreen))
      else if stop then
        forall r, c :: 0 <= r < board.Length0 && 0 <= c < board.Length1 ==> board[r, c] == AfterAction(old(board[r, c]), r, c, action)
      else
        forall r, c :: 0 <= r < board.Length0 && 0 <= c < board.Length1 ==> board[r, c] == old(board[r, c]).(value := Undiscovered)
    }

    /**
      Field (r, c) after one loop iteration on observation obs from
      bookkeeping k: unchanged when the status is skipped, refreshed from the
      board capture (after the strategy's action) in an ongoing game, left as
      the action made it when the loop breaks, and reset otherwise. Only its
      value can change.
    */
    function FieldStep(f: Field, r: int, c: int, k: Counters, obs: Observation): (g: Field)
      requires 0 <= r < rows && 0 <= c < columns && AtHome(f, r, c)
      ensures g.(value := Undiscovered) == f.(value := Undiscovered)
    {
      var status := ObservedStatus(obs.statusScreen, smileyPos);
      if Skipped(k.lastStatus, status) then f
      else if status == Ongoing then
        assert AtHome(AfterAction(f, r, c, obs.action), r, c);
        Refreshed(AfterAction(f, r, c, obs.action), BoardShot(obs.boardScreen))
      else if Step(k, status, obs.now, stopAfterWin).1 then AfterAction(f, r, c, obs.action)
      else f.(value := Undiscovered)
    }

    /**
      Field (r, c) after the polling loop of start over the observations
      from bookkeeping k, iteration by iteration as Run goes. Only its value
      can change.
    */
    function RunField(f: Field, r: int, c: int, k: Counters, observations: seq<Observation>): (g: Field)
      requires 0 <= r < rows && 0 <= c < columns && AtHome(f, r, c)
      ensures g.(value := Undiscovered) == f.(value := Undiscovered)
      decreases |observations|
    {
      if k.gamesCompleted >= playGames || observations == [] then f
      else
        var obs := observations[0];
        var next := Step(k, ObservedStatus(obs.statusScreen, smileyPos), obs.now, stopAfterWin);
        var g := FieldStep(f, r, c, k, obs);
        if next.1 then g else RunField(g, r, c, next.0, observations[1..])
    }

    /** The board has its configured size and every field keeps the geometry it was built with. */
    ghost predicate BoardValid()
      reads board
    {
      && board.Length0 == rows && board.Length1 == columns
      && (forall r, c :: 0 <= r < rows && 0 <= c < columns ==> AtHome(board[r, c], r, c))
    }

    /**
      The solver's invariant: the board is valid, the bookkeeping is
      accounted for, and the best win score is still its initial value or 0.
    */
    ghost predicate Valid()
      reads this, board
    {
      && BoardValid()
      && Accounted(Snapshot())
      && (bestWinMoves == rows * columns + 1 || bestWinMoves == 0)
    }

    /**
      Builds the solver for a difficulty level or a custom size, given the
      calibrated screen positions of the first field and the smiley.
    */
    constructor (difficulty: Difficulty, custom: Option<BoardSize>, originFieldPos: Point, smiley: Point,
                 playGames: int, stopAfterWin: bool)
      requires custom.Some? ==> custom.value.columns >= 0 && custom.value.rows >= 0
      ensures Valid() && fresh(board)
      ensures columns == SelectSize(difficulty, custom).columns && rows == SelectSize(difficulty, custom).rows
      ensures totalMines == SelectSize(difficulty, custom).mines
      ensures origin == originFieldPos && smileyPos == smiley
      ensures this.playGames == playGames && this.stopAfterWin == stopAfterWin
      ensures forall r, c :: 0 <= r < rows && 0 <= c < columns ==>
                board[r, c] == InitializeGameBoard(origin, columns, rows)[r][c]
      ensures movesMade == 0 && totalMoves == 0 && gameHistory == [] && gamesCompleted == 0
      ensures bestWinMoves == rows * columns + 1
      ensures lastStatus == None && gameStartTime == 0.0
    {
      var size := SelectSize(difficulty, custom);
      var cols: nat, rws: nat := size.columns, size.rows;
      columns, rows, totalMines := cols, rws, size.mines;
      origin, smileyPos := originFieldPos, smiley;
      this.playGames, this.stopAfterWin := playGames, stopAfterWin;
      movesMade, totalMoves := 0, 0;
      bestWinMoves := rws * cols + 1;
      gameHistory := [];
      gamesCompleted, lastStatus, gameStartTime := 0, None, 0.0;
      board := new Field[rws, cols]((r: nat, c: nat) => InitialField(originFieldPos, cols, r, c));
    }

    /** Sets every field back to UNDISCOVERED (the click on the smiley is not modelled). */
    method ResetBoard()
      requires Valid()
      modifies board
      ensures Valid()
      ensures forall r, c :: 0 <= r < rows && 0 <= c < columns ==>
                board[r, c] == old(board[r, c]).(value := Undiscovered)
    {
      for r := 0 to rows
        invariant forall i, j :: 0 <= i < r && 0 <= j < columns ==> board[i, j] == old(board[i, j]).(value := Undiscovered)
        invariant forall i, j :: r <= i < rows && 0 <= j < columns ==> board[i, j] == old(board[i, j])
      {
        for c := 0 to columns
          invariant forall i, j :: 0 <= i < r && 0 <= j < columns ==> board[i, j] == old(board[i, j]).(value := Undiscovered)
          invariant forall j :: 0 <= j < c ==> board[r, j] == old(board[r, j]).(value := Undiscovered)
          invariant forall i, j :: r <= i < rows && 0 <= j < columns && (i > r || j >= c) ==> board[i, j] == old(board[i, j])
        {
          board[r, c] := board[r, c].(value := Undiscovered);
        }
      }
    }

    /**
      Refreshes the board from a capture of the board region: every field
      that was UNDISCOVERED is classified from its two samples; no other
      field changes.
    */
    method UpdateBoard(shot: Raster)
      requires Valid()
      requires shot.width == columns * FIELD_DIAMETER && shot.height == rows * FIELD_DIAMETER
      modifies board
      ensures Valid()
      ensures forall r, c :: 0 <= r < rows && 0 <= c < columns ==>
                SamplesInside(old(board[r, c]), shot) && board[r, c] == Refreshed(old(board[r, c]), shot)
    {
      for r := 0 to rows
        invariant Valid()
        invariant forall i, j :: 0 <= i < r && 0 <= j < columns ==>
                    SamplesInside(old(board[i, j]), shot) && board[i, j] == Refreshed(old(board[i, j]), shot)
        invariant forall i, j :: r <= i < rows && 0 <= j < columns ==> board[i, j] == old(board[i, j])
      {
        UpdateRow(r, shot);
      }
    }

    /** The loop of _update_board over the fields of row r. */
    method UpdateRow(r: int, shot: Raster)
      requires Valid() && 0 <= r < rows
      requires shot.width == columns * FIELD_DIAMETER && shot.height == rows * FIELD_DIAMETER
      modifies board
      ensures Valid()
      ensures forall j :: 0 <= j < columns ==>
                SamplesInside(old(board[r, j]), shot) && board[r, j] == Refreshed(old(board[r, j]), shot)
      ensures forall i, j :: 0 <= i < rows && 0 <= j < columns && i != r ==> board[i, j] == old(board[i, j])
    {
      for c := 0 to columns
        invariant Valid()
        invariant forall j :: 0 <= j < c ==>
                    SamplesInside(old(board[r, j]), shot) && board[r, j] == Refreshed(old(board[r, j]), shot)
        invariant forall i, j :: 0 <= i < rows && 0 <= j < columns && (i != r || j >= c) ==> board[i, j] == old(board[i, j])
      {
        RefreshField(r, c, shot);
      }
    }

    /** The loop body of _update_board for field (r, c): classify it if it is UNDISCOVERED and its edge is not white. */
    method RefreshField(r: int, c: int, shot: Raster)
      requires Valid() && 0 <= r < rows && 0 <= c < columns
      requires shot.width == columns * FIELD_DIAMETER && shot.height == rows * FIELD_DIAMETER
      modifies board
      ensures Valid()
      ensures SamplesInside(old(board[r, c]), shot) && board[r, c] == Refreshed(old(board[r, c]), shot)
      ensures forall i, j :: 0 <= i < rows && 0 <= j < columns && (i, j) != (r, c) ==> board[i, j] == old(board[i, j])
    {
      var field := board[r, c];
      assert AtHome(field, r, c);
      assert SamplesInside(field, shot);
      if field.value == Undiscovered {
        var p := field.posToBoard;
        var border := Pixel(shot, p.x, p.y - FIELD_BORDER_OFFSET);
        if ColorMap(border) != Some(Undiscovered) {
          var center := Pixel(shot, p.x, p.y);
          var v := match ColorMap(center) case Some(v) => v case None => Empty;
          board[r, c] := field.(value := v);
        }
      }
    }

    /** toggle_flag on field (r, c): flips its value and changes nothing else (the right click is not modelled). */
    method ToggleFlag(r: int, c: int)
      requires Valid() && 0 <= r < rows && 0 <= c < columns
      modifies board
      ensures Valid()
      ensures forall i, j :: 0 <= i < rows && 0 <= j < columns ==> board[i, j] == AfterAction(old(board[i, j]), i, j, ToggleFlagAt(r, c))
    {
      var field := board[r, c];
      board[r, c] := field.(value := ToggledValue(field.value));
    }

    /** Applies the strategy's action to the board. */
    method ApplyAction(action: Action)
      requires Valid() && ValidAction(action)
      modifies board
      ensures Valid()
      ensures forall i, j :: 0 <= i < rows && 0 <= j < columns ==> board[i, j] == AfterAction(old(board[i, j]), i, j, action)
    {
      match action
      case ToggleFlagAt(r, c) =>
        ToggleFlag(r, c);
      case _ =>
    }

    /**
      One iteration of the polling loop of start, for an observed status. A
      terminal status equal to the previous one is skipped. Any other status
      runs the strategy and counts one move; an ongoing game then refreshes
      the board, while a terminal status closes the game: it is numbered,
      logged (always as a win) with the moves including this tick's, the move
      counter is zeroed, a win sets the best score to min(0, best) = 0 and
      ends the loop when stop_after_win is set, and otherwise the board is
      reset. The result says whether the loop breaks.
    */
    method Tick(status: Status, now: real, action: Action, boardScreen: Screen) returns (stop: bool)
      requires Valid() && ValidAction(action)
      modifies this, board
      ensures Valid()
      ensures Snapshot() == Step(old(Snapshot()), status, now, stopAfterWin).0
      ensures stop == Step(old(Snapshot()), status, now, stopAfterWin).1
      ensures Skipped(old(lastStatus), status) ==> !stop && unchanged(this) && unchanged(board)
      ensures !Skipped(old(lastStatus), status) ==>
                totalMoves == old(totalMoves) + 1 && lastStatus == Some(status)
      ensures status == Ongoing ==>
                && !stop
                && movesMade == old(movesMade) + 1
                && gameHistory == old(gameHistory) && gamesCompleted == old(gamesCompleted)
                && bestWinMoves == old(bestWinMoves)
                && gameStartTime == (if old(lastStatus) != Some(Ongoing) then now else old(gameStartTime))
                && forall r, c :: 0 <= r < rows && 0 <= c < columns ==>
                     SamplesInside(old(board[r, c]), BoardShot(boardScreen))
                     && board[r, c] == Refreshed(AfterAction(old(board[r, c]), r, c, action), BoardShot(boardScreen))
      ensures status.Ended? && !Skipped(old(lastStatus), status) ==>
                && gamesCompleted == old(gamesCompleted) + 1
                && gameHistory == old(gameHistory)
                     + [GameResult(old(gamesCompleted) + 1, Win, old(movesMade) + 1, Duration(old(gameStartTime), now))]
                && movesMade == 0 && gameStartTime == 0.0
                && bestWinMoves == (if status == Ended(Win) then 0 else old(bestWinMoves))
                && stop == (status == Ended(Win) && stopAfterWin)
                && (stop ==> forall r, c :: 0 <= r < rows && 0 <= c < columns ==>
                               board[r, c] == AfterAction(old(board[r, c]), r, c, action))
                && (!stop ==> forall r, c :: 0 <= r < rows && 0 <= c < columns ==>
                               board[r, c] == old(board[r, c]).(value := Undiscovered))
    {
      if status == Ongoing && lastStatus != Some(Ongoing) {
        gameStartTime := now;
      }
      if Skipped(lastStatus, status) {
        return false;
      }
      stop := Play(status, now, action, boardScreen);
    }

    /**
      A tick that is not skipped: remembers the status, runs the strategy and
      counts the move, then refreshes the board of an ongoing game or closes
      a finished one.
    */
    method Play(status: Status, now: real, action: Action, boardScreen: Screen) returns (stop: bool)
      requires Valid() && ValidAction(action)
      modifies this, board
      ensures Valid()
      ensures totalMoves == old(totalMoves) + 1 && lastStatus == Some(status)
      ensures status == Ongoing ==>
                && !stop
                && movesMade == old(movesMade) + 1
                && gameHistory == old(gameHistory) && gamesCompleted == old(gamesCompleted)
                && bestWinMoves == old(bestWinMoves) && gameStartTime == old(gameStartTime)
                && forall r, c :: 0 <= r < rows && 0 <= c < columns ==>
                     SamplesInside(old(board[r, c]), BoardShot(boardScreen))
                     && board[r, c] == Refreshed(AfterAction(old(board[r, c]), r, c, action), BoardShot(boardScreen))
      ensures status.Ended? ==>
                && gamesCompleted == old(gamesCompleted) + 1
                && gameHistory == old(gameHistory)
                     + [GameResult(old(gamesCompleted) + 1, Win, old(movesMade) + 1, Duration(old(gameStartTime), now))]
                && movesMade == 0 && gameStartTime == 0.0
                && bestWinMoves == (if status == Ended(Win) then 0 else old(bestWinMoves))
                && stop == (status == Ended(Win) && stopAfterWin)
                && (stop ==> forall r, c :: 0 <= r < rows && 0 <= c < columns ==>
                               board[r, c] == AfterAction(old(board[r, c]), r, c, action))
                && (!stop ==> forall r, c :: 0 <= r < rows && 0 <= c < columns ==>
                               board[r, c] == old(board[r, c]).(value := Undiscovered))
    {
      CountMove(status, action);
      if status == Ongoing {
        UpdateBoard(BoardShot(boardScreen));
        return false;
      }
      stop := EndGame(status, now);
    }

    /** Remembers the status, runs the strategy's action and counts the move. */
    method CountMove(status: Status, action: Action)
      requires Valid() && ValidAction(action)
      modifies this, board
      ensures Valid()
      ensures Snapshot() == old(Snapshot()).(lastStatus := Some(status), movesMade := old(movesMade) + 1,
                                             totalMoves := old(totalMoves) + 1)
      ensures forall r, c :: 0 <= r < rows && 0 <= c < columns ==> board[r, c] == AfterAction(old(board[r, c]), r, c, action)
    {
      lastStatus := Some(status);
      ApplyAction(action);
      movesMade := movesMade + 1;
      totalMoves := totalMoves + 1;
    }

    /**
      The terminal half of a tick, after the move is counted: records the
      game, lets a win set the best score to min(0, best) and stop the loop
      under stop_after_win, and otherwise resets the board.
    */
    method EndGame(status: Status, now: real) returns (stop: bool)
      requires Valid() && status.Ended?
      modifies this, board
      ensures Valid()
      ensures gamesCompleted == old(gamesCompleted) + 1
      ensures gameHistory == old(gameHistory) + [GameResult(old(gamesCompleted) + 1, Win, old(movesMade), Duration(old(gameStartTime), now))]
      ensures movesMade == 0 && gameStartTime == 0.0
      ensures totalMoves == old(totalMoves) && lastStatus == old(lastStatus)
      ensures bestWinMoves == (if status == Ended(Win) then 0 else old(bestWinMoves))
      ensures stop == (status == Ended(Win) && stopAfterWin)
      ensures stop ==> unchanged(board)
      ensures !stop ==> forall r, c :: 0 <= r < rows && 0 <= c < columns ==>
                          board[r, c] == old(board[r, c]).(value := Undiscovered)
    {
      RecordGame(now);
      if status == Ended(Win) {
        bestWinMoves := if movesMade < bestWinMoves then movesMade else bestWinMoves;
        if stopAfterWin {
          return true;
        }
      }
      ResetBoard();
      stop := false;
    }

    /**
      Closes the current game: counts it, logs it (always as a win) with the
      moves made in it and its duration, and zeroes the move counter and the
      start time.
    */
    method RecordGame(now: real)
      requires Valid()
      modifies this
      ensures Valid()
      ensures gamesCompleted == old(gamesCompleted) + 1
      ensures gameHistory == old(gameHistory) + [GameResult(old(gamesCompleted) + 1, Win, old(movesMade), Duration(old(gameStartTime), now))]
      ensures movesMade == 0 && gameStartTime == 0.0
      ensures totalMoves == old(totalMoves) && lastStatus == old(lastStatus) && bestWinMoves == old(bestWinMoves)
    {
      gamesCompleted := gamesCompleted + 1;
      var gameDuration := Duration(gameStartTime, now);
      ghost var before := gameHistory;
      ghost var entry := GameResult(gamesCompleted, Win, movesMade, gameDuration);
      LogGame(gamesCompleted, Win, gameDuration);
      AppendGame(before, entry);
      gameStartTime := 0.0;
      movesMade := 0;
    }

    /** Appends one result, with the current move count, to the history. */
    method LogGame(gameId: int, gameResult: Outcome, gameDuration: real)
      modifies this
      ensures gameHistory == old(gameHistory) + [GameResult(gameId, gameResult, movesMade, gameDuration)]
      ensures movesMade == old(movesMade) && totalMoves == old(totalMoves) && bestWinMoves == old(bestWinMoves)
      ensures gamesCompleted == old(gamesCompleted) && lastStatus == old(lastStatus)
      ensures gameStartTime == old(gameStartTime)
    {
      gameHistory := gameHistory + [GameResult(gameId, gameResult, movesMade, gameDuration)];
    }

    /** One polling cycle of start: reads the status off the smiley capture and runs a tick on it. */
    method Poll(obs: Observation) returns (stop: bool)
      requires Valid() && ValidAction(obs.action)
      modifies this, board
      ensures Valid()
      ensures Snapshot() == Step(old(Snapshot()), ObservedStatus(obs.statusScreen, smileyPos), obs.now, stopAfterWin).0
      ensures stop == Step(old(Snapshot()), ObservedStatus(obs.statusScreen, smileyPos), obs.now, stopAfterWin).1
      ensures BoardAfterTick(ObservedStatus(obs.statusScreen, smileyPos), obs.action, obs.boardScreen, stop)
      ensures forall r, c :: 0 <= r < rows && 0 <= c < columns ==>
                board[r, c] == FieldStep(old(board[r, c]), r, c, old(Snapshot()), obs)
    {
      var smiley := Grab(obs.statusScreen, SmileyRegion(smileyPos));
      SmileyCaptureHoldsStatusPixels(obs.statusScreen, smileyPos);
      var status := CheckGameStatus(smiley);
      stop := Tick(status, obs.now, obs.action, obs.boardScreen);
    }

    /**
      The polling loop of start: polls the observations in order until
      play_games games are completed, an iteration breaks, or the
      observations run out; the result is the number polled.
    */
    method PollAll(observations: seq<Observation>) returns (ghost polled: nat)
      requires Valid()
      requires forall i :: 0 <= i < |observations| ==> ValidAction(observations[i].action)
      modifies this, board
      ensures Valid()
      ensures Snapshot() == Run(old(Snapshot()), observations, smileyPos, playGames, stopAfterWin).0
      ensures polled == Run(old(Snapshot()), observations, smileyPos, playGames, stopAfterWin).1
      ensures forall r, c :: 0 <= r < rows && 0 <= c < columns ==>
                board[r, c] == RunField(old(board[r, c]), r, c, old(Snapshot()), observations)
    {
      ghost var total := Run(Snapshot(), observations, smileyPos, playGames, stopAfterWin);
      var i := 0;
      while gamesCompleted < playGames && i < |observations|
        invariant Valid() && 0 <= i <= |observations|
        invariant Run(Snapshot(), observations[i..], smileyPos, playGames, stopAfterWin).0 == total.0
        invariant Run(Snapshot(), observations[i..], smileyPos, playGames, stopAfterWin).1 + i == total.1
        invariant forall r, c :: 0 <= r < rows && 0 <= c < columns ==>
                    RunField(board[r, c], r, c, Snapshot(), observations[i..])
                    == RunField(old(board[r, c]), r, c, old(Snapshot()), observations)
        decreases |observations| - i
      {
        var stop := Poll(observations[i]);
        DropFirst(observations, i);
        i := i + 1;
        if stop {
          break;
        }
      }
      polled := i;
    }

    /**
      The loop of start over a finite sequence of observations: it polls
      until play_games games are completed, a win stops it under
      stop_after_win, or the observations run out, and then reduces the
      history to its statistics. It refuses a username pause without
      stop_after_win.
    */
    method Start(observations: seq<Observation>, userEntersUsername: bool, windowSize: Option<int>)
      returns (r: Result<RunStats, StartError>, ghost polled: nat)
      requires Valid() && gameHistory == []
      requires forall i :: 0 <= i < |observations| ==> ValidAction(observations[i].action)
      modifies this, board
      ensures Valid()
      ensures userEntersUsername && !stopAfterWin ==>
                r == Failure(UsernameNeedsStopAfterWin) && unchanged(this) && unchanged(board)
      ensures !(userEntersUsername && !stopAfterWin) ==>
                var run := Run(Counters(old(movesMade), old(totalMoves), old(bestWinMoves), [], 0, None, 0.0),
                               observations, smileyPos, playGames, stopAfterWin);
                && Snapshot() == run.0 && polled == run.1
                && (forall r, c :: 0 <= r < rows && 0 <= c < columns ==>
                      board[r, c] == RunField(old(board[r, c]), r, c, Counters(old(movesMade), old(totalMoves), old(bestWinMoves), [], 0, None, 0.0), observations))
                && r == StartResult(CreateStats(gameHistory, gamesCompleted, bestWinMoves, windowSize))
      ensures !(userEntersUsername && !stopAfterWin) ==>
                && polled <= |observations|
                && (gamesCompleted >= playGames || polled == |observations|
                    || (stopAfterWin && lastStatus == Some(Ended(Win))))
      ensures !(userEntersUsername && !stopAfterWin) && gamesCompleted < CONSISTENCY_WINDOW ==>
                r == Failure(StatsFailed(ZeroDivisionError))
      ensures !(userEntersUsername && !stopAfterWin) && gamesCompleted >= CONSISTENCY_WINDOW ==>
                && r.Success?
                && r.value.wins == gamesCompleted && r.value.losses == 0 && r.value.longestLossStreak == 0
                && r.value.longestWinStreak == gamesCompleted
    {
      polled := 0;
      if userEntersUsername && !stopAfterWin {
        return Failure(UsernameNeedsStopAfterWin), polled;
      }
      gamesCompleted := 0;
      gameStartTime := 0.0;
      lastStatus := None;

      RunEnds(Snapshot(), observations, smileyPos, playGames, stopAfterWin);
      polled := PollAll(observations);
      r := StartResult(CreateStats(gameHistory, gamesCompleted, bestWinMoves, windowSize));
      if gamesCompleted >= CONSISTENCY_WINDOW {
        AllWinsStats(gameHistory, gamesCompleted, bestWinMoves, windowSize);
      }
    }
  }

  /**
    Two consecutive ticks that observe the same terminal status log the
    game once: the second tick is skipped and changes nothing.
  */
  method RepeatedEndIsLoggedOnce(s: MineSweeperSolver, outcome: Outcome, now1: real, now2: real,
                                 action: Action, screen: Screen)
    requires s.Valid() && s.ValidAction(action) && s.lastStatus != Some(Ended(outcome))
    modifies s, s.board
    ensures s.Valid()
    ensures s.gamesCompleted == old(s.gamesCompleted) + 1 && |s.gameHistory| == |old(s.gameHistory)| + 1
    ensures s.totalMoves == old(s.totalMoves) + 1 && s.movesMade == 0
  {
    var stop := s.Tick(Ended(outcome), now1, action, screen);
    stop := s.Tick(Ended(outcome), now2, action, screen);
  }
}
