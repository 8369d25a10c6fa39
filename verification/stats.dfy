/**
  The statistics engine: pure reductions of the ordered game history into
  counts, move and time aggregates, streaks (by grouping equal consecutive
  outcomes) and the rolling-window consistency score.
*/
module Stats {
  import opened Wrappers
  import opened Models

  /** The fault the reductions can raise: a division by zero. */
  datatype StatsError = ZeroDivisionError

  /** The window the statistics always use for the consistency score (the default of calculate_consistency). */
  const CONSISTENCY_WINDOW: int := 5

  // ---------------------------------------------------------------------------
  // Counts and sums

  /** Number of games with outcome o. */
  function CountOf(h: seq<GameResult>, o: Outcome): (n: nat)
    ensures n <= |h|
    ensures (forall i :: 0 <= i < |h| ==> h[i].result == o) ==> n == |h|
  {
    if h == [] then 0
    else CountOf(h[..|h| - 1], o) + (if h[|h| - 1].result == o then 1 else 0)
  }

  /** Sum of the moves of all games. */
  function TotalMoves(h: seq<GameResult>): int
  {
    if h == [] then 0 else TotalMoves(h[..|h| - 1]) + h[|h| - 1].totalMoves
  }

  /** Sum of the moves of the games with outcome o. */
  function MovesOf(h: seq<GameResult>, o: Outcome): int
  {
    if h == [] then 0
    else MovesOf(h[..|h| - 1], o) + (if h[|h| - 1].result == o then h[|h| - 1].totalMoves else 0)
  }

  /** Sum of the durations of all games. */
  function TotalTime(h: seq<GameResult>): real
  {
    if h == [] then 0.0 else TotalTime(h[..|h| - 1]) + h[|h| - 1].timePlayed
  }

  /** Every game is a win or a loss: the counts and the move sums split the history. */
  lemma {:induction false} OutcomesPartition(h: seq<GameResult>)
    ensures CountOf(h, Win) + CountOf(h, Loss) == |h|
    ensures MovesOf(h, Win) + MovesOf(h, Loss) == TotalMoves(h)
  {
    if h != [] {
      OutcomesPartition(h[..|h| - 1]);
    }
  }

  /** Appending one game adds it to exactly its own outcome's count and sums. */
  lemma AppendGame(h: seq<GameResult>, g: GameResult)
    ensures CountOf(h + [g], g.result) == CountOf(h, g.result) + 1
    ensures TotalMoves(h + [g]) == TotalMoves(h) + g.totalMoves
    ensures MovesOf(h + [g], g.result) == MovesOf(h, g.result) + g.totalMoves
    ensures forall o :: o != g.result ==> CountOf(h + [g], o) == CountOf(h, o) && MovesOf(h + [g], o) == MovesOf(h, o)
  {
    assert (h + [g])[..|h + [g]| - 1] == h;
  }

  // ---------------------------------------------------------------------------
  // Minimum and maximum

  /** The durations of the games with outcome o, or of all games when o is None. */
  function Times(h: seq<GameResult>, o: Option<Outcome>): (t: seq<real>)
    ensures forall x :: x in t <==> exists i :: 0 <= i < |h| && (o.None? || h[i].result == o.value) && h[i].timePlayed == x
  {
    if h == [] then []
    else
      var init := Times(h[..|h| - 1], o);
      var g := h[|h| - 1];
      assert forall i :: 0 <= i < |h| - 1 ==> h[..|h| - 1][i] == h[i];
      if o.None? || g.result == o.value then init + [g.timePlayed] else init
  }

  /** The smallest element, or None for an empty sequence (min with default None). */
  function Min(s: seq<real>): (m: Option<real>)
    ensures m.None? <==> s == []
    ensures m.Some? ==> m.value in s && forall x :: x in s ==> m.value <= x
  {
    if s == [] then None
    else
      var last := s[|s| - 1];
      assert s == s[..|s| - 1] + [last];
      match Min(s[..|s| - 1])
      case None => Some(last)
      case Some(m) => Some(if last < m then last else m)
  }

  /** The largest element, or None for an empty sequence (max with default None). */
  function Max(s: seq<real>): (m: Option<real>)
    ensures m.None? <==> s == []
    ensures m.Some? ==> m.value in s && forall x :: x in s ==> x <= m.value
  {
    if s == [] then None
    else
      var last := s[|s| - 1];
      assert s == s[..|s| - 1] + [last];
      match Max(s[..|s| - 1])
      case None => Some(last)
      case Some(m) => Some(if last > m then last else m)
  }

  // ---------------------------------------------------------------------------
  // Streaks

  /** The outcomes of the history in play order. */
  function Outcomes(h: seq<GameResult>): (s: seq<Outcome>)
    ensures |s| == |h| && forall i :: 0 <= i < |h| ==> s[i] == h[i].result
  {
    seq(|h|, (i: int) requires 0 <= i < |h| => h[i].result)
  }

  /** Length of the leading block of equal outcomes. */
  function Lead(s: seq<Outcome>): (n: nat)
    requires s != []
    ensures 1 <= n <= |s|
    ensures forall k :: 0 <= k < n ==> s[k] == s[0]
    ensures n < |s| ==> s[n] != s[0]
  {
    if |s| == 1 || s[1] != s[0] then 1 else 1 + Lead(s[1..])
  }

  /** The run-length groups of s, as itertools.groupby yields them: (outcome, length) per maximal block. */
  function Groups(s: seq<Outcome>): seq<(Outcome, nat)>
    decreases |s|
  {
    if s == [] then [] else [(s[0], Lead(s))] + Groups(s[Lead(s)..])
  }

  function Repeat(o: Outcome, n: nat): (r: seq<Outcome>)
    ensures |r| == n && forall k :: 0 <= k < n ==> r[k] == o
  {
    seq(n, (_: int) => o)
  }

  /** Writes the groups back out as the sequence they stand for. */
  function Expand(gs: seq<(Outcome, nat)>): seq<Outcome>
  {
    if gs == [] then [] else Repeat(gs[0].0, gs[0].1) + Expand(gs[1..])
  }

  /** Expanding a group followed by more groups. */
  lemma ExpandCons(g: (Outcome, nat), gs: seq<(Outcome, nat)>)
    ensures Expand([g] + gs) == Repeat(g.0, g.1) + Expand(gs)
  {
    assert ([g] + gs)[1..] == gs;
  }

  /** The leading group of s is its first element repeated. */
  lemma LeadIsRepeat(s: seq<Outcome>)
    requires s != []
    ensures s[..Lead(s)] == Repeat(s[0], Lead(s))
  {
  }

  /** Grouping loses nothing: expanding the groups gives back the outcomes. */
  lemma {:induction false} GroupsRoundTrip(s: seq<Outcome>)
    ensures Expand(Groups(s)) == s
    decreases |s|
  {
    if s != [] {
      var n := Lead(s);
      var t := s[n..];
      calc {
        Expand(Groups(s));
        Expand([(s[0], n)] + Groups(t));
        { ExpandCons((s[0], n), Groups(t)); }
        Repeat(s[0], n) + Expand(Groups(t));
        { GroupsRoundTrip(t); }
        Repeat(s[0], n) + t;
        { LeadIsRepeat(s); }
        s[..n] + t;
        { assert s == s[..n] + t; }
        s;
      }
    }
  }

  /** Groups are maximal: every group is non-empty and neighbouring groups have different outcomes. */
  lemma {:induction false} GroupsAreMaximal(s: seq<Outcome>)
    ensures forall i :: 0 <= i < |Groups(s)| ==> Groups(s)[i].1 >= 1
    ensures forall i :: 0 <= i < |Groups(s)| - 1 ==> Groups(s)[i].0 != Groups(s)[i + 1].0
    decreases |s|
  {
    if s != [] {
      var n := Lead(s);
      var rest := s[n..];
      GroupsAreMaximal(rest);
      assert Groups(s) == [(s[0], n)] + Groups(rest);
      if rest != [] {
        assert Groups(rest)[0].0 == rest[0] == s[n];
      }
    }
  }

  /** The longest group of outcome o, 0 if there is none. */
  function MaxRun(gs: seq<(Outcome, nat)>, o: Outcome): nat
  {
    if gs == [] then 0
    else
      var here := if gs[0].0 == o then gs[0].1 else 0;
      var rest := MaxRun(gs[1..], o);
      if here > rest then here else rest
  }

  /** The longest streak of outcome o, read off the groups. */
  function LongestStreak(s: seq<Outcome>, o: Outcome): nat
  {
    MaxRun(Groups(s), o)
  }

  /** s[i..j] is a contiguous run of outcome o. */
  ghost predicate IsRun(s: seq<Outcome>, o: Outcome, i: int, j: int)
  {
    0 <= i <= j <= |s| && forall k :: i <= k < j ==> s[k] == o
  }

  /** n is the length of the longest contiguous run of o in s (0 when o does not occur). */
  ghost predicate IsLongestRun(s: seq<Outcome>, o: Outcome, n: int)
  {
    && (forall i, j :: IsRun(s, o, i, j) ==> j - i <= n)
    && (exists i, j :: IsRun(s, o, i, j) && j - i == n)
  }

  /** The longest streak is the longer of the leading group's (if it is of o) and the rest's. */
  lemma LongestStreakStep(s: seq<Outcome>, o: Outcome)
    requires s != []
    ensures var here := if s[0] == o then Lead(s) else 0;
            var rest := LongestStreak(s[Lead(s)..], o);
            LongestStreak(s, o) == if here > rest then here else rest
  {
    assert Groups(s)[1..] == Groups(s[Lead(s)..]);
  }

  /** A run that starts after the leading group is a run of the rest. */
  lemma RunInTail(s: seq<Outcome>, o: Outcome, i: int, j: int)
    requires s != [] && IsRun(s, o, i, j) && Lead(s) <= i
    ensures IsRun(s[Lead(s)..], o, i - Lead(s), j - Lead(s))
  {
  }

  /** A non-empty run that starts inside the leading group is of its outcome and ends inside it. */
  lemma RunInHead(s: seq<Outcome>, o: Outcome, i: int, j: int)
    requires s != [] && IsRun(s, o, i, j) && i < j && i < Lead(s)
    ensures s[0] == o && j <= Lead(s)
  {
    assert s[i] == s[0];
  }

  /** A run of the rest is a run of the whole sequence, shifted by the leading group. */
  lemma RunFromTail(s: seq<Outcome>, o: Outcome, i: int, j: int)
    requires s != [] && IsRun(s[Lead(s)..], o, i, j)
    ensures IsRun(s, o, i + Lead(s), j + Lead(s))
  {
    var n := Lead(s);
    forall k | i + n <= k < j + n
      ensures s[k] == o
    {
      assert s[k] == s[n..][k - n];
    }
  }

  /** The streak read off the groups is the longest contiguous run. */
  lemma {:induction false} LongestStreakIsLongestRun(s: seq<Outcome>, o: Outcome)
    ensures IsLongestRun(s, o, LongestStreak(s, o))
    decreases |s|
  {
    if s == [] {
      assert IsRun(s, o, 0, 0);
    } else {
      var n := Lead(s);
      var t := s[n..];
      LongestStreakIsLongestRun(t, o);
      LongestStreakStep(s, o);
      var rest := LongestStreak(t, o);
      var here := if s[0] == o then n else 0;
      var m := LongestStreak(s, o);
      forall i, j | IsRun(s, o, i, j)
        ensures j - i <= m
      {
        if i >= n {
          RunInTail(s, o, i, j);
        } else if i < j {
          RunInHead(s, o, i, j);
        }
      }
      if here > rest {
        assert IsRun(s, o, 0, n);
      } else {
        var i, j :| IsRun(t, o, i, j) && j - i == rest;
        RunFromTail(s, o, i, j);
      }
    }
  }

  // ---------------------------------------------------------------------------
  // Consistency

  function SumInt(s: seq<int>): int
  {
    if s == [] then 0 else SumInt(s[..|s| - 1]) + s[|s| - 1]
  }

  function SumReal(s: seq<real>): real
  {
    if s == [] then 0.0 else SumReal(s[..|s| - 1]) + s[|s| - 1]
  }

  /** The number of windows of length k (k >= 1) in a sequence of length len. */
  function WindowCount(len: int, k: int): nat
  {
    if len - k + 1 > 0 then len - k + 1 else 0
  }

  /** The mean of each window of length k, in order. */
  function WindowMeans(result: seq<int>, k: int): (rates: seq<real>)
    requires k >= 1
    ensures |rates| == WindowCount(|result|, k)
  {
    seq(WindowCount(|result|, k), (i: int) requires 0 <= i < WindowCount(|result|, k) =>
      SumInt(result[i..i + k]) as real / k as real)
  }

  /** Sum of the signed deviations of the rates from m. */
  function SumDeviation(rates: seq<real>, m: real): real
  {
    if rates == [] then 0.0 else SumDeviation(rates[..|rates| - 1], m) + (rates[|rates| - 1] - m)
  }

  /**
    The consistency score as written: the mean of the signed deviations of
    the window means from their mean. It divides by zero when there is no
    window (fewer than k results) and, for k = 0, already in its first window.
  */
  function Consistency(result: seq<int>, k: int): Result<real, StatsError>
    requires k >= 0
  {
    if k == 0 then Failure(ZeroDivisionError)
    else
      var rates := WindowMeans(result, k);
      if |rates| == 0 then Failure(ZeroDivisionError)
      else
        var mean := SumReal(rates) / |rates| as real;
        Success(SumDeviation(rates, mean) / |rates| as real)
  }

  /** Computes the consistency score with the source's window loop. */
  method CalculateConsistency(result: seq<int>, k: int) returns (r: Result<real, StatsError>)
    requires k >= 0
    ensures r == Consistency(result, k)
  {
    if k == 0 {
      return Failure(ZeroDivisionError);
    }
    var rates: seq<real> := [];
    var n := WindowCount(|result|, k);
    for i := 0 to n
      invariant rates == WindowMeans(result, k)[..i]
    {
      var window := result[i..i + k];
      var rate := SumInt(window) as real / k as real;
      rates := rates + [rate];
    }
    assert rates == WindowMeans(result, k);
    if |rates| == 0 {
      return Failure(ZeroDivisionError);
    }
    var mean := SumReal(rates) / |rates| as real;
    r := Success(SumDeviation(rates, mean) / |rates| as real);
  }

  /** Summing deviations from m is summing and then subtracting m once per element. */
  lemma {:induction false} SumDeviationShift(s: seq<real>, m: real)
    ensures SumDeviation(s, m) == SumReal(s) - |s| as real * m
  {
    if s != [] {
      SumDeviationShift(s[..|s| - 1], m);
    }
  }

  /** As written the score is a signed mean deviation, which is identically 0 whenever it is defined. */
  lemma ConsistencyIsZero(result: seq<int>, k: int)
    requires k >= 1 && |result| >= k
    ensures Consistency(result, k) == Success(0.0)
  {
    var rates := WindowMeans(result, k);
    var n := |rates| as real;
    var mean := SumReal(rates) / n;
    SumDeviationShift(rates, mean);
    assert n * mean == SumReal(rates);
    assert SumDeviation(rates, mean) == 0.0;
    assert SumDeviation(rates, mean) / n == 0.0;
  }

  /** The score is undefined (a division by zero) exactly when k is 0 or there are fewer than k results. */
  lemma ConsistencyUndefined(result: seq<int>, k: int)
    requires k >= 0
    ensures Consistency(result, k).Failure? <==> k == 0 || |result| < k
  {
  }

  /** A sum of elements in [-1, 1] lies in [-length, length]. */
  lemma {:induction false} SumIntBounded(s: seq<int>)
    requires forall i :: 0 <= i < |s| ==> -1 <= s[i] <= 1
    ensures -|s| <= SumInt(s) <= |s|
  {
    if s != [] {
      SumIntBounded(s[..|s| - 1]);
    }
  }

  /** With outcomes coded as +1 / -1, there are len - k + 1 window means and each lies in [-1, 1]. */
  lemma WindowMeansBounded(result: seq<int>, k: int)
    requires k >= 1
    requires forall i :: 0 <= i < |result| ==> result[i] == 1 || result[i] == -1
    ensures |result| >= k ==> |WindowMeans(result, k)| == |result| - k + 1
    ensures forall i :: 0 <= i < |WindowMeans(result, k)| ==> -1.0 <= WindowMeans(result, k)[i] <= 1.0
  {
    var rates := WindowMeans(result, k);
    forall i | 0 <= i < |rates|
      ensures -1.0 <= rates[i] <= 1.0
    {
      var w := result[i..i + k];
      SumIntBounded(w);
      assert -k <= SumInt(w) <= k;
      DivBounds(SumInt(w) as real, k as real);
    }
  }

  /** A real in [-k, k] divided by k > 0 lies in [-1, 1]. */
  lemma DivBounds(x: real, k: real)
    requires k > 0.0 && -k <= x <= k
    ensures -1.0 <= x / k <= 1.0
  {
  }

  /** The quotient a / b of two integers as a real (Python's true division). */
  function Ratio(a: int, b: int): (q: real)
    requires b != 0
    ensures q * (b as real) == a as real
  {
    a as real / b as real
  }

  /** The quotient of a real by a non-zero count (Python's true division). */
  function RealRatio(x: real, n: int): (q: real)
    requires n != 0
    ensures q * (n as real) == x
  {
    x / n as real
  }

  /** A count out of a positive total is a fraction in [0, 1]. */
  lemma RatioIsFraction(a: int, b: int)
    requires 0 <= a <= b && b > 0
    ensures 0.0 <= Ratio(a, b) <= 1.0
  {
  }

  /** The outcomes coded +1 for a win and -1 for a loss. */
  function Signs(h: seq<GameResult>): (s: seq<int>)
    ensures |s| == |h|
    ensures forall i :: 0 <= i < |h| ==> s[i] == (if h[i].result == Win then 1 else -1)
  {
    seq(|h|, (i: int) requires 0 <= i < |h| => if h[i].result == Win then 1 else -1)
  }

  // ---------------------------------------------------------------------------
  // The statistics record

  datatype RunStats = RunStats(
    gamesPlayed: int,
    wins: nat,
    losses: int,
    winRate: real,
    longestWinStreak: nat,
    longestLossStreak: nat,
    totalMoves: int,
    totalMovesWins: int,
    avgMovesWin: real,
    totalMovesLosses: int,
    avgMovesLoss: real,
    leastMovesPlayedWin: int,
    fastestWinTime: Option<real>,
    totalTime: real,
    avgTimePerGame: real,
    fastestGame: Option<real>,
    slowestGame: Option<real>,
    consistency: real,
    windowSize: int)

  /** The window size reported: the one given, or max(games // 30, 3) when none (or 0) is given. */
  function ReportedWindow(gamesCompleted: int, windowSize: Option<int>): (w: int)
    ensures windowSize.Some? && windowSize.value != 0 ==> w == windowSize.value
    ensures windowSize.None? || windowSize.value == 0 ==>
              w >= 3 && w >= gamesCompleted / 30 && (w == 3 || w == gamesCompleted / 30)
  {
    if windowSize.None? || windowSize.value == 0 then
      (if gamesCompleted / 30 > 3 then gamesCompleted / 30 else 3)
    else windowSize.value
  }

  /** The statistics record for a history whose consistency score is `consistency`. */
  function BuildStats(h: seq<GameResult>, gamesCompleted: int, bestWinMoves: int, windowSize: Option<int>, consistency: real)
    : RunStats
  {
    var wins := CountOf(h, Win);
    var totalMoves := TotalMoves(h);
    var totalWinMoves := MovesOf(h, Win);
    var losses := gamesCompleted - wins;
    var totalLossMoves := totalMoves - totalWinMoves;
    var totalTime := TotalTime(h);
    RunStats(
      gamesPlayed := gamesCompleted,
      wins := wins,
      losses := losses,
      winRate := if gamesCompleted != 0 then Ratio(wins, gamesCompleted) else 0.0,
      longestWinStreak := LongestStreak(Outcomes(h), Win),
      longestLossStreak := LongestStreak(Outcomes(h), Loss),
      totalMoves := totalMoves,
      totalMovesWins := totalWinMoves,
      avgMovesWin := if wins != 0 then Ratio(totalWinMoves, wins) else 0.0,
      totalMovesLosses := totalLossMoves,
      avgMovesLoss := if losses != 0 then Ratio(totalLossMoves, losses) else 0.0,
      leastMovesPlayedWin := bestWinMoves,
      fastestWinTime := Min(Times(h, Some(Win))),
      totalTime := totalTime,
      avgTimePerGame := if gamesCompleted > 0 then RealRatio(totalTime, gamesCompleted) else 0.0,
      fastestGame := Min(Times(h, None)),
      slowestGame := Max(Times(h, None)),
      consistency := consistency,
      windowSize := ReportedWindow(gamesCompleted, windowSize))
  }

  /** The counts and move sums of a statistics record agree with the history. */
  ghost predicate CountsAgree(h: seq<GameResult>, gamesCompleted: int, st: RunStats)
    requires gamesCompleted != 0
  {
    && st.gamesPlayed == gamesCompleted
    && st.wins == CountOf(h, Win)
    && st.wins + st.losses == gamesCompleted
    && st.winRate == Ratio(st.wins, gamesCompleted)
    && st.totalMoves == TotalMoves(h)
    && st.totalMovesWins == MovesOf(h, Win)
    && st.totalMovesWins + st.totalMovesLosses == st.totalMoves
    && (gamesCompleted == |h| ==> st.losses == CountOf(h, Loss) && st.totalMovesLosses == MovesOf(h, Loss))
    && (st.wins == 0 ==> st.avgMovesWin == 0.0)
    && (st.wins != 0 ==> st.avgMovesWin == Ratio(st.totalMovesWins, st.wins))
    && (st.losses == 0 ==> st.avgMovesLoss == 0.0)
    && (st.losses != 0 ==> st.avgMovesLoss == Ratio(st.totalMovesLosses, st.losses))
  }

  /** The streaks of a statistics record are the longest contiguous runs of the history. */
  ghost predicate StreaksAgree(h: seq<GameResult>, st: RunStats)
  {
    IsLongestRun(Outcomes(h), Win, st.longestWinStreak) && IsLongestRun(Outcomes(h), Loss, st.longestLossStreak)
  }

  /**
    The timing figures of a statistics record agree with a non-empty
    history: the total and the average duration, the fastest and slowest
    game (each the duration of some game and a bound on all of them) and
    the fastest win (the duration of some won game and a lower bound on all
    won games, absent exactly when no game was won).
  */
  ghost predicate TimesAgree(h: seq<GameResult>, gamesCompleted: int, st: RunStats)
  {
    && st.totalTime == TotalTime(h)
    && (gamesCompleted > 0 ==> st.avgTimePerGame == RealRatio(st.totalTime, gamesCompleted))
    && (st.fastestGame.Some? && st.slowestGame.Some?)
    && (exists i :: 0 <= i < |h| && h[i].timePlayed == st.fastestGame.value)
    && (exists i :: 0 <= i < |h| && h[i].timePlayed == st.slowestGame.value)
    && (forall i :: 0 <= i < |h| ==> st.fastestGame.value <= h[i].timePlayed <= st.slowestGame.value)
    && (st.fastestWinTime.None? <==> CountOf(h, Win) == 0)
    && (st.fastestWinTime.Some? ==>
          && (exists i :: 0 <= i < |h| && h[i].result == Win && h[i].timePlayed == st.fastestWinTime.value)
          && (forall i :: 0 <= i < |h| && h[i].result == Win ==> st.fastestWinTime.value <= h[i].timePlayed))
  }

  lemma BuildStatsCounts(h: seq<GameResult>, gamesCompleted: int, bestWinMoves: int, windowSize: Option<int>, c: real)
    requires gamesCompleted != 0
    ensures CountsAgree(h, gamesCompleted, BuildStats(h, gamesCompleted, bestWinMoves, windowSize, c))
  {
    OutcomesPartition(h);
  }

  lemma BuildStatsStreaks(h: seq<GameResult>, gamesCompleted: int, bestWinMoves: int, windowSize: Option<int>, c: real)
    ensures StreaksAgree(h, BuildStats(h, gamesCompleted, bestWinMoves, windowSize, c))
  {
    LongestStreakIsLongestRun(Outcomes(h), Win);
    LongestStreakIsLongestRun(Outcomes(h), Loss);
  }

  lemma BuildStatsTimes(h: seq<GameResult>, gamesCompleted: int, bestWinMoves: int, windowSize: Option<int>, c: real)
    requires h != []
    ensures TimesAgree(h, gamesCompleted, BuildStats(h, gamesCompleted, bestWinMoves, windowSize, c))
  {
    WinsHaveTimes(h);
    var all := Times(h, None);
    var won := Times(h, Some(Win));
    assert h[0].timePlayed in all;
    forall i | 0 <= i < |h|
      ensures h[i].timePlayed in all
    {
    }
    forall i | 0 <= i < |h| && h[i].result == Win
      ensures h[i].timePlayed in won
    {
    }
  }

  /**
    Reduces the history to its statistics. The consistency score is always
    computed with window 5, whatever window size is reported, and the win
    rate divides by the game count unguarded, so the reduction fails with a
    division by zero for fewer than five games or a game count of zero.
  */
  function CreateStats(h: seq<GameResult>, gamesCompleted: int, bestWinMoves: int, windowSize: Option<int>)
    : (r: Result<RunStats, StatsError>)
    ensures r.Failure? <==> |h| < CONSISTENCY_WINDOW || gamesCompleted == 0
    ensures r.Success? ==>
      && gamesCompleted != 0
      && CountsAgree(h, gamesCompleted, r.value)
      && StreaksAgree(h, r.value)
      && TimesAgree(h, gamesCompleted, r.value)
      && r.value.windowSize == ReportedWindow(gamesCompleted, windowSize)
      && r.value.leastMovesPlayedWin == bestWinMoves
      && r.value.consistency == 0.0
  {
    var consistency := Consistency(Signs(h), CONSISTENCY_WINDOW);
    if consistency.Failure? then Failure(ZeroDivisionError)
    else if gamesCompleted == 0 then Failure(ZeroDivisionError)
    else
      BuildStatsCounts(h, gamesCompleted, bestWinMoves, windowSize, consistency.value);
      BuildStatsStreaks(h, gamesCompleted, bestWinMoves, windowSize, consistency.value);
      BuildStatsTimes(h, gamesCompleted, bestWinMoves, windowSize, consistency.value);
      ConsistencyIsZero(Signs(h), CONSISTENCY_WINDOW);
      Success(BuildStats(h, gamesCompleted, bestWinMoves, windowSize, consistency.value))
  }

  /**
    A history of at least five games, with no more games logged than
    completed (the solver logs exactly one per completed game), reduces
    successfully to a win rate in [0, 1] and a loss count that is not
    negative.
  */
  lemma WinRateIsFraction(h: seq<GameResult>, gamesCompleted: int, bestWinMoves: int, windowSize: Option<int>)
    requires |h| >= CONSISTENCY_WINDOW && gamesCompleted >= |h|
    ensures var r := CreateStats(h, gamesCompleted, bestWinMoves, windowSize);
            r.Success? && 0.0 <= r.value.winRate <= 1.0 && r.value.losses >= 0
  {
    var st := CreateStats(h, gamesCompleted, bestWinMoves, windowSize).value;
    RatioIsFraction(st.wins, gamesCompleted);
  }

  /** There is a winning duration exactly when some game was won. */
  lemma {:induction false} WinsHaveTimes(h: seq<GameResult>)
    ensures Times(h, Some(Win)) == [] <==> CountOf(h, Win) == 0
  {
    if h != [] {
      WinsHaveTimes(h[..|h| - 1]);
    }
  }
  // ---------------------------------------------------------------------------
  // Histories of wins only

  /** An outcome no game has is counted zero times. */
  lemma {:induction false} CountAbsent(h: seq<GameResult>, o: Outcome)
    requires forall i :: 0 <= i < |h| ==> h[i].result != o
    ensures CountOf(h, o) == 0 && MovesOf(h, o) == 0
  {
    if h != [] {
      CountAbsent(h[..|h| - 1], o);
    }
  }

  /** An outcome is counted zero times exactly when no game has it. */
  lemma {:induction false} CountZeroIffAbsent(h: seq<GameResult>, o: Outcome)
    ensures CountOf(h, o) == 0 <==> forall i :: 0 <= i < |h| ==> h[i].result != o
  {
    if h != [] {
      CountZeroIffAbsent(h[..|h| - 1], o);
      assert forall i :: 0 <= i < |h| - 1 ==> h[..|h| - 1][i] == h[i];
    }
  }

  /** When every game is a win, the winning durations are all the durations. */
  lemma {:induction false} AllWinsTimes(h: seq<GameResult>)
    requires forall i :: 0 <= i < |h| ==> h[i].result == Win
    ensures Times(h, Some(Win)) == Times(h, None)
  {
    if h != [] {
      AllWinsTimes(h[..|h| - 1]);
    }
  }

  /** A game count divided by itself is 1. */
  lemma RatioSelf(n: int)
    requires n != 0
    ensures Ratio(n, n) == 1.0
  {
    var q := Ratio(n, n);
    assert (q - 1.0) * (n as real) == 0.0;
  }

  /** The longest run of the outcome every element has is the whole sequence. */
  lemma LongestRunOfAll(s: seq<Outcome>, o: Outcome, n: int)
    requires forall k :: 0 <= k < |s| ==> s[k] == o
    requires IsLongestRun(s, o, n)
    ensures n == |s|
  {
    assert IsRun(s, o, 0, |s|);
  }

  /** A non-empty run of o starts with o. */
  lemma RunStartsWith(s: seq<Outcome>, o: Outcome, i: int, j: int)
    requires IsRun(s, o, i, j) && i < j
    ensures 0 <= i < |s| && s[i] == o
  {
  }

  /** The longest run of an outcome that does not occur is 0. */
  lemma LongestRunOfNone(s: seq<Outcome>, o: Outcome, n: int)
    requires forall k :: 0 <= k < |s| ==> s[k] != o
    requires IsLongestRun(s, o, n)
    ensures n == 0
  {
    var i, j :| IsRun(s, o, i, j) && j - i == n;
    if i < j {
      RunStartsWith(s, o, i, j);
      assert false;
    }
  }

  /**
    The statistics of a history of wins only (the only kind the solver
    logs) with five games or more: every game counts as won, the win rate
    is 1, there is no losing streak, the winning streak spans the whole
    history and the fastest win is the fastest game.
  */
  lemma AllWinsStats(h: seq<GameResult>, gamesCompleted: int, bestWinMoves: int, windowSize: Option<int>)
    requires |h| >= CONSISTENCY_WINDOW && gamesCompleted == |h|
    requires forall i :: 0 <= i < |h| ==> h[i].result == Win
    ensures CreateStats(h, gamesCompleted, bestWinMoves, windowSize).Success?
    ensures var st := CreateStats(h, gamesCompleted, bestWinMoves, windowSize).value;
      && st.wins == |h| && st.losses == 0 && st.winRate == 1.0
      && st.longestWinStreak == |h| && st.longestLossStreak == 0
      && st.totalMovesLosses == 0 && st.avgMovesLoss == 0.0
      && st.fastestWinTime == st.fastestGame
  {
    var r := CreateStats(h, gamesCompleted, bestWinMoves, windowSize);
    var st := r.value;
    CountAbsent(h, Loss);
    OutcomesPartition(h);
    RatioSelf(|h|);
    LongestRunOfAll(Outcomes(h), Win, st.longestWinStreak);
    LongestRunOfNone(Outcomes(h), Loss, st.longestLossStreak);
    AllWinsTimes(h);
    assert st == BuildStats(h, gamesCompleted, bestWinMoves, windowSize, 0.0);
  }

  /** The streaks of the history loss, loss, win: two losses and one win. */
  lemma StreaksOfLossLossWin()
    ensures LongestStreak([Loss, Loss, Win], Loss) == 2
    ensures LongestStreak([Loss, Loss, Win], Win) == 1
  {
    var s := [Loss, Loss, Win];
    assert Lead(s[2..]) == 1;
    assert Lead(s[1..]) == 1;
    assert Lead(s) == 2;
    assert s[2..][1..] == [];
    assert Groups(s) == [(Loss, 2), (Win, 1)];
  }

  /** The streaks of the history win, win, loss, win: a winning streak of two, split by the loss. */
  lemma StreaksOfWinWinLossWin()
    ensures LongestStreak([Win, Win, Loss, Win], Win) == 2
    ensures LongestStreak([Win, Win, Loss, Win], Loss) == 1
  {
    var s := [Win, Win, Loss, Win];
    assert Lead(s[3..]) == 1;
    assert Lead(s[2..]) == 1;
    assert Lead(s[1..]) == 1;
    assert Lead(s) == 2;
    assert s[2..][1..] == s[3..];
    assert s[3..][1..] == [];
    assert Groups(s) == [(Win, 2), (Loss, 1), (Win, 1)];
  }
}
