# MineSweeperAI solver core, modelled in Dafny

MineSweeperAI plays an online Minesweeper by looking at the screen. When
it is built it finds the first field and the smiley button; `start` finds
the smiley again before it begins polling. From then on it keeps a
board of `Field` records whose screen and board-image positions are fixed
when the board is built. In a polling loop it:

- reads the game status from two pixels of the smiley;
- lets a move strategy act;
- counts the move;
- reclassifies every still-covered field from two pixels of a board capture: the upper edge tells whether the field is still covered, and the centre tells which number it shows.

When a game ends, the loop logs it in a history. It resets the board or
stops. Finally it reduces the history to a statistics record: counts,
move sums, streaks, timing extremes and a rolling consistency score.

The model has one Dafny module per concern:

- `Models` (`models.dfy`): the value types. `Point`, the `FieldValue` enum with its integer codes, the `Field` record and `GameResult`.
- `Capture` (`capture.dfy`): a screen as a total function from coordinates to colours, a capture of a region as a bounded raster, and pixel access inside it.
- `Geometry` (`geometry.dfy`): the configuration tables and constants, field numbering, screen and board-image positions, the capture regions and the initial board.
- `Classifier` (`classifier.dfy`): the colour table and the refresh of one field from a capture.
- `GameStatus` (`game_status.dfy`): the status read from the smiley capture.
- `Stats` (`stats.dfy`): the pure reductions of `create_stats` and `calculate_consistency`. `calculate_consistency` is also a method with its loop.
- `Solver` (`solver.dfy`): the `MineSweeperSolver` class. The board is a field of type `array2<Field>` that is updated in place. The counters, the history and the status memory are fields. The polling loop of `start` is a `while` loop over a finite sequence of observations.

The behaviour is modelled as the code is written, including the following
quirks (see "Divergences from the documentation" below):

- the status pixels are interpreted the other way round from their comments;
- every game is logged as a win;
- the best score becomes 0 after a win;
- the consistency score is 0 in exact arithmetic;
- the statistics fail with a division by zero for fewer than five games.

## Model

| member | source | states |
|---|---|---|
| Models.Code | models.py:11-21 | every enum member has its integer value in -1..8; the value is -1 exactly for UNDISCOVERED and 0 exactly for EMPTY |
| Models.CodeRoundTrip | models.py:11-21 | looking a member up by its value gives the member back |
| Models.FromCodeRoundTrip | models.py:11-21 | lookup by value succeeds exactly for -1..8, and the member found has that value |
| Models.CodesDistinct | models.py:11-21 | distinct members have distinct values |
| Models.NewField | models.py:24-35 | a new field keeps the given positions and number, and defaults to UNDISCOVERED and not safe |
| Capture.Grab | mineSweeperSolver.py:317 | a capture has the width and height of its region |
| Capture.GrabPixel | mineSweeperSolver.py:329-341 | pixel (x, y) of a capture is the screen pixel at the region's corner shifted by (x, y) |
| Capture.Pixel | mineSweeperSolver.py:329-341 | the colour of a capture at (x, y), defined only inside the capture; Capture.GrabPixel ties it to the screen |
| Geometry.DifficultyToSize | mineSweeperSolver.py:33-37 | the three levels have positive sizes with fewer mines than fields |
| Geometry.SelectSize | mineSweeperSolver.py:104-105 | the custom size when one is given, otherwise the level's size; Geometry.DifficultyToSize bounds the latter |
| Geometry.IdFromRC | mineSweeperSolver.py:164-165 | the field number col + row*columns; Geometry.IdInRange, IdRoundTrip, IdInjective and IdSurjective make it a bijection from the board's fields onto 0..rows*columns-1 |
| Geometry.IdInRange | mineSweeperSolver.py:164-165 | the number of a field on the board lies in 0..rows*columns-1 |
| Geometry.IdRoundTrip | mineSweeperSolver.py:164-165 | a field's row and column are recovered from its number by division and remainder by the column count |
| Geometry.IdInjective | mineSweeperSolver.py:164-165 | two fields with the same number are the same field |
| Geometry.IdSurjective | mineSweeperSolver.py:164-165 | every number in 0..rows*columns-1 belongs to exactly the field its quotient and remainder name |
| Geometry.BoardIdsAreExactlyTheRange | mineSweeperSolver.py:155-165 | the set of field numbers of a board is exactly 0..rows*columns-1 |
| Geometry.InitializeGameBoard | mineSweeperSolver.py:155-162 | the initial board has `rows` rows of `columns` fields, and field (r, c) is the new field with the screen position, board-image position and number of row r, column c |
| Geometry.InitialField | mineSweeperSolver.py:156-160 | the new field of row r and column c; Geometry.InitializeGameBoard and FieldGeometry characterise it |
| Geometry.FieldGeometry | mineSweeperSolver.py:141-177 | a field's board-image centre is (32c+16, 32r+16) and its screen centre is the origin moved by (32c, 32r) |
| Geometry.CenterFieldPos | mineSweeperSolver.py:167-177 | the screen centre of field (row, column); Geometry.FieldGeometry states it for every field of the board |
| Geometry.RelativeToBoard | mineSweeperSolver.py:142-153 | a screen point in board-image coordinates; Geometry.FieldGeometry and BoardSampleIsScreenCentre show it picks the same pixel as the screen |
| Geometry.BoardRegion | mineSweeperSolver.py:123-128 | the board capture region; Geometry.SamplesInsideBoard shows every field's two samples lie inside it |
| Geometry.SmileyRegion | mineSweeperSolver.py:129-134 | the 34x34 smiley capture region; GameStatus.SmileyCaptureHoldsStatusPixels shows both status pixels lie inside it |
| Geometry.SamplesInsideBoard | mineSweeperSolver.py:123-128 | both samples of every field, its centre and its point 12 pixels higher, lie inside the board capture |
| Geometry.BoardSampleIsScreenCentre | mineSweeperSolver.py:141-153 | the board-image pixel at a field's board position is the screen pixel at its screen position |
| Geometry.InitialBoardIdsRowMajor | mineSweeperSolver.py:155-165 | read row by row, the numbers of the initial board are 0, 1, ..., rows*columns-1 in order |
| Classifier.ColorMapIsPaletteInverse | mineSweeperSolver.py:54-64 | the colour table is a bijection between the nine palette colours and UNDISCOVERED and ONE..EIGHT |
| Classifier.ColorMap | mineSweeperSolver.py:54-64 | the colour-to-value lookup; Classifier.ColorMapIsPaletteInverse and SentinelIsOnlyWhite characterise it |
| Classifier.SentinelIsOnlyWhite | mineSweeperSolver.py:54-64 | only white maps to UNDISCOVERED |
| Classifier.Refreshed | mineSweeperSolver.py:327-343 | refreshing changes only the value, and only for an UNDISCOVERED field whose edge is not white; the new value is EMPTY exactly when the centre colour is unknown, otherwise the number whose colour the centre shows; refreshing never produces FLAGGED |
| Classifier.RefreshedAll | mineSweeperSolver.py:304-343 | repeated refreshes change only a field's value, and leave a field that is not UNDISCOVERED exactly as it was |
| Classifier.BorderColor | mineSweeperSolver.py:329-332 | the upper-edge sample of a field; Geometry.SamplesInsideBoard keeps it inside the capture and Classifier.Refreshed uses it |
| Classifier.CenterColor | mineSweeperSolver.py:338-341 | the centre sample of a field; Geometry.SamplesInsideBoard keeps it inside the capture and Classifier.Refreshed uses it |
| Classifier.RevealedIsStable | mineSweeperSolver.py:321-325 | once a refresh reveals a field, later refreshes leave it as it is |
| GameStatus.SmileyCaptureHoldsStatusPixels | mineSweeperSolver.py:129-134 | both status pixels lie inside the 34x34 smiley capture |
| GameStatus.CheckGameStatus | mineSweeperSolver.py:345-368 | the status is 'win' exactly when the mouth-corner pixel is black; it is 'loss' exactly when only the glasses pixel is black; otherwise it is 'ongoing' |
| GameStatus.StatusFromScreen | mineSweeperSolver.py:360-368 | the same three cases stated on screen pixels relative to the smiley centre; the cases are exclusive and exhaustive |
| GameStatus.ObservedStatus | mineSweeperSolver.py:360-368 | the status read off a capture of the smiley region; GameStatus.StatusFromScreen states it on screen pixels |
| Stats.CountOf | mineSweeperSolver.py:456 | a count of games never exceeds the history length, and is the whole length when every game has the outcome |
| Stats.TotalMoves | mineSweeperSolver.py:457 | the sum of the moves of all games; Stats.OutcomesPartition and AppendGame characterise it |
| Stats.MovesOf | mineSweeperSolver.py:458-461 | the moves of the games with one outcome; Stats.OutcomesPartition and AppendGame characterise it |
| Stats.TotalTime | mineSweeperSolver.py:473 | the sum of the durations; Stats.BuildStatsTimes and RealRatio tie it to the reported total and average time |
| Stats.CountZeroIffAbsent | mineSweeperSolver.py:456 | an outcome is counted zero times exactly when no game in the history has it |
| Stats.OutcomesPartition | mineSweeperSolver.py:456-461 | wins plus losses is the number of games; win moves plus loss moves is the total number of moves |
| Stats.AppendGame | mineSweeperSolver.py:370-379 | logging a game adds one to its own outcome's count and its moves to the sums, and leaves the other outcome's figures unchanged |
| Stats.Times | mineSweeperSolver.py:475-486 | a duration is listed exactly when some game (of the outcome asked for) took that long |
| Stats.Min | mineSweeperSolver.py:475-478 | min with default None: None exactly for no games, otherwise a duration that bounds all others from below |
| Stats.Max | mineSweeperSolver.py:479-482 | max with default None: None exactly for no games, otherwise a duration that bounds all others from above |
| Stats.Outcomes | mineSweeperSolver.py:466 | the outcomes in play order |
| Stats.Lead | mineSweeperSolver.py:464-467 | the leading group is a non-empty block of equal outcomes that cannot be extended |
| Stats.GroupsRoundTrip | mineSweeperSolver.py:464-467 | writing the groups back out gives the history's outcomes |
| Stats.Groups | mineSweeperSolver.py:464-467 | the groupby of the outcomes into (outcome, run length) pairs; Stats.GroupsRoundTrip and GroupsAreMaximal characterise it |
| Stats.GroupsAreMaximal | mineSweeperSolver.py:464-467 | every group is non-empty and neighbouring groups differ |
| Stats.LongestStreakIsLongestRun | mineSweeperSolver.py:469-470 | the streak read off the groups is the length of the longest contiguous run of that outcome, 0 when it does not occur |
| Stats.LongestStreak | mineSweeperSolver.py:469-470 | the longest streak of one outcome, 0 without one; Stats.LongestStreakIsLongestRun shows it is the longest contiguous run |
| Stats.MaxRun | mineSweeperSolver.py:469-470 | the max with default 0 over one outcome's groups; Stats.LongestStreakStep and LongestStreakIsLongestRun characterise it |
| Stats.LongestStreakStep | mineSweeperSolver.py:469-470 | the longest streak is the longer of the leading group (when it is of that outcome) and the longest streak of the rest |
| Stats.StreaksOfLossLossWin | mineSweeperSolver.py:463-470 | the history loss, loss, win has a losing streak of 2 and a winning streak of 1 |
| Stats.StreaksOfWinWinLossWin | mineSweeperSolver.py:463-470 | the history win, win, loss, win has a winning streak of 2 and a losing streak of 1 |
| Stats.WindowMeans | mineSweeperSolver.py:565-569 | there is one window mean per window of length k |
| Stats.CalculateConsistency | mineSweeperSolver.py:562-572 | the window loop computes the consistency score, including its division-by-zero failures |
| Stats.Consistency | mineSweeperSolver.py:563-572 | the consistency score or its division-by-zero failure; Stats.ConsistencyUndefined, ConsistencyIsZero and CalculateConsistency characterise it |
| Stats.SumDeviationShift | mineSweeperSolver.py:571-572 | summing the deviations from m is summing and then subtracting m once per window |
| Stats.SumDeviation | mineSweeperSolver.py:572 | the sum of the deviations from the mean; Stats.SumDeviationShift rewrites it as the sum minus the mean per window |
| Stats.ConsistencyIsZero | mineSweeperSolver.py:562-572 | whenever it is defined, the score (a signed mean deviation) is 0 |
| Stats.ConsistencyUndefined | mineSweeperSolver.py:562-572 | the score divides by zero exactly when k is 0 or there are fewer than k results |
| Stats.WindowMeansBounded | mineSweeperSolver.py:566-569 | with outcomes coded +1/-1 there are len-k+1 window means, each in [-1, 1] |
| Stats.Ratio | mineSweeperSolver.py:495 | the true quotient times the divisor is the dividend |
| Stats.WinRateIsFraction | mineSweeperSolver.py:493-495 | a history of at least five games with no more games logged than completed reduces successfully, with a win rate in [0, 1] and a non-negative loss count |
| Stats.Signs | mineSweeperSolver.py:490 | each game is coded +1 for a win and -1 otherwise |
| Stats.BuildStatsCounts | mineSweeperSolver.py:456-505 | the game count, wins, losses, win rate, total moves, move sums and guarded averages of the record agree with the history |
| Stats.BuildStats | mineSweeperSolver.py:491-522 | the statistics record; Stats.BuildStatsCounts, BuildStatsStreaks and BuildStatsTimes tie each of its fields to the history |
| Stats.BuildStatsStreaks | mineSweeperSolver.py:463-470 | the record's streaks are the longest runs of wins and of losses |
| Stats.BuildStatsTimes | mineSweeperSolver.py:473-486 | for a non-empty history: the total time is the sum of the durations and the average is it divided by the game count; the fastest and slowest games are durations of some game and bound all of them; the fastest win is absent exactly when no game was won, and otherwise is the duration of some won game and bounds all won games from below |
| Stats.CreateStats | mineSweeperSolver.py:381-522 | the reduction fails with a division by zero exactly for fewer than five games or a game count of 0; otherwise the counts, moves, streaks and timing figures agree with the history, the best score is passed through, the consistency is 0 and the reported window is the one given or max(games // 30, 3) |
| Stats.WinsHaveTimes | mineSweeperSolver.py:483-486 | there is a winning duration exactly when some game was won |
| Stats.CountAbsent | mineSweeperSolver.py:456-461 | an outcome no game has is counted zero times and has no moves |
| Stats.AllWinsTimes | mineSweeperSolver.py:475-486 | when every game is a win, the winning durations are all the durations |
| Stats.RealRatio | mineSweeperSolver.py:474 | the average duration times the game count is the total duration |
| Stats.ReportedWindow | mineSweeperSolver.py:489 | the window given when it is non-zero, otherwise the larger of games // 30 and 3 |
| Stats.RatioSelf | mineSweeperSolver.py:495 | a game count divided by itself is 1 |
| Stats.LongestRunOfAll | mineSweeperSolver.py:469 | the longest run of the outcome every game has is the whole history |
| Stats.LongestRunOfNone | mineSweeperSolver.py:470 | the longest run of an outcome that never occurs is 0 |
| Stats.AllWinsStats | mineSweeperSolver.py:456-505 | for a history of five or more wins: all games count as won, the win rate is 1, there is no loss and no losing streak, the winning streak spans the history, and the fastest win is the fastest game |
| Solver.ToggledValue | mineSweeperSolver.py:534-537 | the toggled value is FLAGGED exactly when the old one was not, and UNDISCOVERED exactly when it was |
| Solver.AfterAction | mineSweeperSolver.py:258 | the strategy's effect on one field; Solver.ToggledValue and Solver.MineSweeperSolver.ApplyAction characterise it |
| Solver.Skipped | mineSweeperSolver.py:253-254 | a terminal status equal to the previous one; Solver.RepeatedEndIsLoggedOnce shows such a tick logs nothing |
| Solver.Duration | mineSweeperSolver.py:272 | the elapsed time since the recorded start, or 0 without one; Solver.MineSweeperSolver.RecordGame logs it |
| Solver.Step | mineSweeperSolver.py:248-290 | the bookkeeping of one iteration; Solver.MineSweeperSolver.Tick is proved equal to it and Solver.StepKeepsAccount states its invariant |
| Solver.Run | mineSweeperSolver.py:247-290 | the bookkeeping of the whole loop; Solver.MineSweeperSolver.PollAll is proved equal to it and Solver.RunEnds states its invariant and exit reasons |
| Solver.ToggleTwice | mineSweeperSolver.py:534-537 | toggling twice restores exactly UNDISCOVERED and FLAGGED; any revealed value becomes UNDISCOVERED |
| Solver.MineSweeperSolver.constructor | mineSweeperSolver.py:103-120 | the board has the selected size and equals the initial board; the counters are zero, the history is empty and the best score is rows*columns+1 |
| Solver.MineSweeperSolver.ResetBoard | mineSweeperSolver.py:294-302 | every field becomes UNDISCOVERED and nothing else changes |
| Solver.MineSweeperSolver.UpdateBoard | mineSweeperSolver.py:304-343 | every field becomes its refresh from the board capture |
| Solver.MineSweeperSolver.UpdateRow | mineSweeperSolver.py:321-343 | every field of one row becomes its refresh, and the other rows are unchanged |
| Solver.MineSweeperSolver.RefreshField | mineSweeperSolver.py:327-343 | one field becomes its refresh from the capture, and every other field is unchanged |
| Solver.MineSweeperSolver.ToggleFlag | mineSweeperSolver.py:531-539 | only the named field changes, and only its value, which is toggled |
| Solver.MineSweeperSolver.ApplyAction | mineSweeperSolver.py:258 | the board changes exactly as the strategy's action says |
| Solver.MineSweeperSolver.FieldStep | mineSweeperSolver.py:248-290 | a field after one iteration, which only changes its value: skipped, refreshed after the action, left as the action made it on a break, or reset |
| Solver.MineSweeperSolver.RunField | mineSweeperSolver.py:247-290 | a field after the whole loop, one FieldStep per polled observation as Run goes, with only its value changed |
| Solver.MineSweeperSolver.Tick | mineSweeperSolver.py:248-290 | one loop iteration: the bookkeeping becomes its Step; a repeated terminal status changes nothing; otherwise the move is counted; an ongoing game refreshes the board; a terminal status logs the game as a win with its moves and duration, zeroes the move counter, sets the best score to 0 on a win, and stops under stop_after_win or resets the board |
| Solver.MineSweeperSolver.Play | mineSweeperSolver.py:256-290 | an iteration that is not skipped: the status is remembered and the move counted, then the board is refreshed, or the game is logged and the loop stops or the board is reset |
| Solver.MineSweeperSolver.CountMove | mineSweeperSolver.py:256-260 | the status is remembered, the action is applied and one move is added to both counters; nothing else changes |
| Solver.MineSweeperSolver.EndGame | mineSweeperSolver.py:271-290 | the terminal half of an iteration: log, best score, and then stop or reset |
| Solver.MineSweeperSolver.RecordGame | mineSweeperSolver.py:271-275 | the game is numbered, logged with its moves and duration, and the move counter and start time are zeroed |
| Solver.MineSweeperSolver.LogGame | mineSweeperSolver.py:370-379 | exactly one entry is appended to the history, with the current move count |
| Solver.MineSweeperSolver.Poll | mineSweeperSolver.py:249-290 | one polling cycle on the status read off the smiley capture: the bookkeeping becomes its Step, the break flag is the Step's, and every field becomes its FieldStep: skipped, refreshed, left or reset as that status demands |
| Solver.MineSweeperSolver.PollAll | mineSweeperSolver.py:247-290 | the polling loop leaves the bookkeeping exactly as Run over the observations does, polls as many observations as Run, and leaves every field as RunField does |
| Solver.MineSweeperSolver.Start | mineSweeperSolver.py:179-292 | a username pause without stop_after_win is refused; otherwise games_completed, the start time and the status memory are reset while moves_made and total_moves carry over, the final bookkeeping is Run over the observations, every field ends as RunField over them, the loop ended because play_games games were completed, a win broke it under stop_after_win, or every observation was polled, and the result is the statistics of the history: a division by zero for fewer than five games, all wins and no losses for five or more |
| Solver.StepKeepsAccount | mineSweeperSolver.py:248-290 | one iteration keeps every counted move accounted for and every logged game numbered and logged as a win, completes at most one game, and breaks only on a win under stop_after_win |
| Solver.RunEnds | mineSweeperSolver.py:248-290 | the loop keeps that invariant, completes at most one game per observation polled, and ends only when play_games games are completed, a win breaks it under stop_after_win, or the observations run out |
| Solver.RepeatedEndIsLoggedOnce | mineSweeperSolver.py:253-256 | two consecutive ticks that observe the same terminal status log one game and count one move |

## Left out

- Screen capture, mouse clicks, key presses, warnings and console output are left out. A screen is a parameter: a function from coordinates to colours. A click changes no field value.
- Locating the game on screen is left out (`_locate_image` and the `RuntimeError` of lines 85-102). As written, line 94 reads `self.origin_pos`, which is never assigned, so the constructor raises AttributeError before that check can run; the model builds the solver as if the check read `origin_field_pos`. So are the smiley lookup at the start of `start` and its `ValueError` (lines 243-245). The calibrated positions are constructor parameters.
- Arbitrary side effects of the move strategy are not modelled, and neither is a missing strategy (`None`). Each tick's strategy is an `Action` that does nothing, clicks a field or toggles one flag. The random strategy and `main.py` are not part of this model.
- The clock is an input: each observation carries one reading `now`. An iteration reads the clock at most once, either to start the game (line 251) or to time its end (line 272), so one reading per observation is exact.
- Solver.MineSweeperSolver.Start: the endless polling is modelled over a finite sequence of observations, one per iteration, including the skipped ones. If the observations run out, the loop ends early; the number polled is a ghost result. Start requires an empty history, which is the situation of its first call. A second call, which adds to the history it keeps, is not modelled.
- Stats.CalculateConsistency: requires k >= 0. The default window is 5 and is the only one used. Negative windows, for which Python slicing wraps around, are not modelled.
- The constructor requires non-negative custom sizes. Python builds empty ranges for negative ones.
- Solver.MineSweeperSolver.UpdateBoard: the list of undiscovered fields is collected first in the source. The model instead tests each field's value when it visits the field. The two agree because every field is visited once and only its own value changes.
- Floating point is modelled as exact reals. Rounding of `/` and of sums of durations is not modelled.
- The unused `stats` dictionary and the `mss` handle (lines 137-139) are not modelled. The `click_field` helper is not modelled beyond the `Reveal` action, which changes no field.
- The statistics are returned as a record instead of a nested dictionary. `None` and numeric defaults are written as `Option` values and 0.0.

## Divergences from the documentation

Where the comments or docstrings disagree with the code, the model
follows the code. Three items below are different: as written the code
raises an exception there, and the model substitutes the evidently
intended behaviour instead.

- `check_game_status` reports a black mouth-corner pixel (the dead smiley) as 'win'. It reports a black glasses pixel (the cool smiley) as 'loss'. The comments and the docstring say the opposite.
- `start` logs every completed game with result 'win'. So the counts say every game was won, and the losing figures are 0.
- `best_win_moves` is updated after `moves_made` was zeroed. So a win sets it to min(0, best) = 0.
- The consistency score is the mean of signed deviations from the mean, which is 0 in exact arithmetic; in floats a rounding residue can remain (of the order of 1e-17). It is always computed with window 5. The window size chosen or given is only reported.
- `win_rate` divides by the game count unguarded. Together with the consistency score's division by the number of windows, `create_stats` fails for fewer than five games.
- The enum has no FLAGGED member, so `FieldValue.FLAGGED` in `toggle_flag` (line 535) raises AttributeError as written. The model substitutes the intended behaviour: it adds `Flagged` to `FieldValue` outside the integer codes.
- The board builder passes `id=` (line 159), but the field is named `field_id`, so building the board raises TypeError as written. The model substitutes the intended behaviour and stores the number as the field number.
- `GameResult` is imported from the models file (line 14) but not defined there, so as written the module cannot be imported (ImportError). The model substitutes the intended record, with the four fields `start` and `_log_game` use.
- `toggle_flag` flags a revealed field as well. Toggling it back makes it UNDISCOVERED, which loses its revealed value (Solver.ToggleTwice).
