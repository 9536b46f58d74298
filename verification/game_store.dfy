/** The single-game store: the last round played, the running statistics and
    the newest-first history (src/state/gameStore.ts). The two browser
    storage keys the store writes to are modelled by the `savedStatistics`
    and `savedHistory` fields, `None` until something is written there;
    identifiers, timestamps and the random draw of the opponent are
    parameters. */
module GameStore {
  import opened Types
  import opened Lists
  import Frequency
  import GameLogic
  import AIFactory
  import WeightedAI

  /** Games kept in the history. */
  const MaxHistory: nat := 1000

  /** All counters zero, no favourite move. */
  const InitialStatistics: Statistics := Statistics(0, 0, 0, 0, 0, 0, None, ZeroCounts)

  datatype State = State(
    playerMove: Option<Move>,
    aiMove: Option<Move>,
    result: Option<GameResult>,
    isPlaying: bool,
    round: int,
    statistics: Statistics,
    gameHistory: seq<GameHistory>,
    aiType: AIType,
    savedStatistics: Option<Statistics>,
    savedHistory: Option<seq<GameHistory>>)

  /** The store as created: round 1, nothing played, the statistics from
      storage or the initial ones, the stored history or an empty one, and
      the strategy tag of the stored settings. Storage is only read. */
  function Init(stored: Option<Statistics>, storedHistory: Option<seq<GameHistory>>, aiType: AIType): (s: State)
    ensures s.playerMove.None? && s.aiMove.None? && s.result.None? && !s.isPlaying
    ensures s.round == 1
    ensures stored.Some? ==> s.statistics == stored.value
    ensures stored.None? ==> s.statistics == InitialStatistics
    ensures storedHistory.Some? ==> s.gameHistory == storedHistory.value
    ensures storedHistory.None? ==> s.gameHistory == []
    ensures s.aiType == aiType
    ensures s.savedStatistics == stored && s.savedHistory == storedHistory
  {
    State(None, None, None, false, 1, stored.GetOr(InitialStatistics), storedHistory.GetOr([]),
          aiType, stored, storedHistory)
  }

  /** The favourite move as the source computes it: the key at the head of
      the stably sorted entries of the counts. */
  function Favourite(c: Counts): (m: Move)
    ensures forall x :: c.Get(x) <= c.Get(m)
    ensures forall x :: c.Get(x) == c.Get(m) ==> Rank(m) <= Rank(x)
  {
    Frequency.SortedHeadIsMostFrequent(c);
    Frequency.SortDescending(Frequency.Entries(c))[0].0
  }

  /** The statistics after one more round with `result`; when a player move
      is known, its counter goes up and the favourite is recomputed. */
  function Record(st: Statistics, playerMove: Option<Move>, result: GameResult): (r: Statistics)
    ensures r.totalGames == st.totalGames + 1
    ensures r.wins == st.wins + (if result == Win then 1 else 0)
    ensures r.losses == st.losses + (if result == Lose then 1 else 0)
    ensures r.draws == st.draws + (if result == Draw then 1 else 0)
    ensures result == Win ==> r.currentStreak == st.currentStreak + 1
    ensures result != Win ==> r.currentStreak == 0
    ensures r.winStreak >= st.winStreak && r.winStreak >= r.currentStreak
    ensures r.winStreak == st.winStreak || r.winStreak == r.currentStreak
    ensures playerMove.None? ==> r.moveCounts == st.moveCounts && r.favoriteMove == st.favoriteMove
    ensures playerMove.Some? ==>
      && r.moveCounts == st.moveCounts.Inc(playerMove.value)
      && r.favoriteMove == Some(Frequency.MostFrequent(r.moveCounts))
  {
    var st1 := st.(totalGames := st.totalGames + 1);
    var st2 :=
      match result
      case Win =>
        var cur := st1.currentStreak + 1;
        st1.(wins := st1.wins + 1, currentStreak := cur,
             winStreak := if st1.winStreak >= cur then st1.winStreak else cur)
      case Lose => st1.(losses := st1.losses + 1, currentStreak := 0)
      case Draw => st1.(draws := st1.draws + 1, currentStreak := 0);
    match playerMove
    case None => st2
    case Some(m) =>
      var counts := st2.moveCounts.Inc(m);
      var fav := Favourite(counts);
      Frequency.MostFrequentUnique(counts, fav);
      st2.(moveCounts := counts, favoriteMove := Some(fav))
  }

  /** `updateStatistics`: records a round using the move currently shown and
      stores the new statistics. */
  function UpdateStatistics(s: State, result: GameResult): (r: State)
    ensures r.statistics == Record(s.statistics, s.playerMove, result)
    ensures r.savedStatistics == Some(r.statistics)
    ensures r == s.(statistics := r.statistics, savedStatistics := Some(r.statistics))
  {
    var st := Record(s.statistics, s.playerMove, result);
    s.(statistics := st, savedStatistics := Some(st))
  }

  /** `resetStatistics`: everything back to zero, in memory and in storage. */
  function ResetStatistics(s: State): (r: State)
    ensures var st := r.statistics;
      && st.totalGames == 0 && st.wins == 0 && st.losses == 0 && st.draws == 0
      && st.winStreak == 0 && st.currentStreak == 0
      && st.favoriteMove.None? && st.moveCounts == ZeroCounts
    ensures r.statistics == InitialStatistics && r.savedStatistics == Some(InitialStatistics)
    ensures r == s.(statistics := r.statistics, savedStatistics := Some(r.statistics))
  {
    s.(statistics := InitialStatistics, savedStatistics := Some(InitialStatistics))
  }

  /** `addToHistory`: a new entry in front, at most 1000 kept, stored. */
  function AddToHistory(
    s: State, playerMove: Move, aiMove: Move, result: GameResult, aiType: AIType,
    mode: GameMode, id: string, date: int): (r: State)
    ensures 0 < |r.gameHistory| <= MaxHistory
    ensures r.gameHistory[0] == GameHistory(id, date, playerMove, aiMove, result, aiType, mode)
    ensures |r.gameHistory| == Min(MaxHistory, |s.gameHistory| + 1)
    ensures forall i :: 1 <= i < |r.gameHistory| ==> r.gameHistory[i] == s.gameHistory[i - 1]
    ensures r.savedHistory == Some(r.gameHistory)
    ensures r == s.(gameHistory := r.gameHistory, savedHistory := Some(r.gameHistory))
  {
    var h := PrependCapped(GameHistory(id, date, playerMove, aiMove, result, aiType, mode),
                           s.gameHistory, MaxHistory);
    s.(gameHistory := h, savedHistory := Some(h))
  }

  function ClearHistory(s: State): (r: State)
    ensures r.gameHistory == [] && r.savedHistory == Some([])
    ensures r == s.(gameHistory := [], savedHistory := Some([]))
  {
    s.(gameHistory := [], savedHistory := Some([]))
  }

  /** `r` is `s` after the player's `playerMove` met the opponent's
      `aiMove`: the round is judged and shown, the round counter advances,
      the statistics count it and the history gains it at the front, as a
      single-mode game against the current opponent kind. */
  predicate Played(s: State, r: State, playerMove: Move, aiMove: Move, id: string, date: int)
  {
    var result := GameLogic.DetermineWinner(playerMove, aiMove);
    && r.playerMove == Some(playerMove) && r.aiMove == Some(aiMove) && r.result == Some(result)
    && r.isPlaying && r.round == s.round + 1
    && r.statistics == Record(s.statistics, Some(playerMove), result)
    && r.gameHistory == PrependCapped(
         GameHistory(id, date, playerMove, aiMove, result, s.aiType, SingleMode),
         s.gameHistory, MaxHistory)
    && r.aiType == s.aiType
    && r.savedStatistics == Some(r.statistics) && r.savedHistory == Some(r.gameHistory)
  }

  /** The rest of `playMove` once the opponent has answered. */
  function Play(s: State, playerMove: Move, aiMove: Move, id: string, date: int): (r: State)
    ensures Played(s, r, playerMove, aiMove, id, date)
  {
    var result := GameLogic.DetermineWinner(playerMove, aiMove);
    var s1 := s.(playerMove := Some(playerMove), aiMove := Some(aiMove), result := Some(result),
                 isPlaying := true, round := s.round + 1);
    var s2 := UpdateStatistics(s1, result);
    AddToHistory(s2, playerMove, aiMove, result, s.aiType, SingleMode, id, date)
  }

  /** `playMove`: a new engine of the current kind answers, and it is handed
      the history in the store's own order, newest game first, although
      every engine reads its input as oldest first (the weighted one weighs
      `slice(-10)`, the adaptive one takes the pattern from `slice(-3)`). */
  function PlayMove(s: State, playerMove: Move, x: RandomValue, id: string, date: int): (r: State)
    ensures Played(s, r, playerMove, AIFactory.FreshMove(s.aiType, s.gameHistory, x), id, date)
  {
    Play(s, playerMove, AIFactory.FreshMove(s.aiType, s.gameHistory, x), id, date)
  }

  /** `playMove` with the history handed over oldest first, so that the
      engines' "last games" are the most recent ones. */
  function PlayMoveOldestFirst(s: State, playerMove: Move, x: RandomValue, id: string, date: int): (r: State)
    ensures Played(s, r, playerMove, AIFactory.FreshMove(s.aiType, Reverse(s.gameHistory), x), id, date)
  {
    Play(s, playerMove, AIFactory.FreshMove(s.aiType, Reverse(s.gameHistory), x), id, date)
  }

  /** `resetGame`: the board is cleared; statistics and history stay. */
  function ResetGame(s: State): (r: State)
    ensures r.playerMove.None? && r.aiMove.None? && r.result.None? && !r.isPlaying
    ensures r.round == 1
    ensures r.statistics == s.statistics && r.gameHistory == s.gameHistory
    ensures r.savedStatistics == s.savedStatistics && r.savedHistory == s.savedHistory
    ensures r.aiType == s.aiType
  {
    s.(playerMove := None, aiMove := None, result := None, isPlaying := false, round := 1)
  }

  /** Consistent statistics: the three outcome counters add up to the games
      played, the streaks are ordered, no more moves are counted than games
      played, and the favourite is the most frequent counted move (none
      exactly when no move has been counted). */
  predicate StatsValid(st: Statistics)
  {
    && st.wins + st.losses + st.draws == st.totalGames
    && st.currentStreak <= st.winStreak <= st.wins
    && st.moveCounts.Total() <= st.totalGames
    && (st.favoriteMove.Some? ==> st.favoriteMove.value == Frequency.MostFrequent(st.moveCounts))
    && (st.favoriteMove.None? ==> st.moveCounts.Total() == 0)
  }

  /** The store invariant: consistent statistics, a history within its cap,
      and storage read back as `Init` reads it giving what memory holds. */
  predicate Invariant(s: State)
  {
    && StatsValid(s.statistics)
    && |s.gameHistory| <= MaxHistory
    && s.savedStatistics.GetOr(InitialStatistics) == s.statistics
    && s.savedHistory.GetOr([]) == s.gameHistory
  }

  lemma InitialStatisticsValid()
    ensures StatsValid(InitialStatistics)
  {
  }

  lemma RecordPreservesStatsValid(st: Statistics, playerMove: Option<Move>, result: GameResult)
    requires StatsValid(st)
    ensures StatsValid(Record(st, playerMove, result))
  {
  }

  lemma InitInvariant(stored: Option<Statistics>, storedHistory: Option<seq<GameHistory>>, aiType: AIType)
    requires stored.Some? ==> StatsValid(stored.value)
    requires storedHistory.Some? ==> |storedHistory.value| <= MaxHistory
    ensures Invariant(Init(stored, storedHistory, aiType))
  {
    if stored.None? {
      InitialStatisticsValid();
    }
  }

  /** Whatever the opponent answers, a played round keeps the invariant. */
  lemma PlayInvariant(s: State, playerMove: Move, aiMove: Move, id: string, date: int)
    requires Invariant(s)
    ensures Invariant(Play(s, playerMove, aiMove, id, date))
  {
    RecordPreservesStatsValid(s.statistics, Some(playerMove), GameLogic.DetermineWinner(playerMove, aiMove));
  }

  lemma PlayMoveInvariant(s: State, playerMove: Move, x: RandomValue, id: string, date: int)
    requires Invariant(s)
    ensures Invariant(PlayMoveOldestFirst(s, playerMove, x, id, date))
    ensures Invariant(PlayMove(s, playerMove, x, id, date))
  {
    PlayInvariant(s, playerMove, AIFactory.FreshMove(s.aiType, Reverse(s.gameHistory), x), id, date);
    PlayInvariant(s, playerMove, AIFactory.FreshMove(s.aiType, s.gameHistory, x), id, date);
  }

  lemma UpdateStatisticsInvariant(s: State, result: GameResult)
    requires Invariant(s)
    ensures Invariant(UpdateStatistics(s, result))
  {
    RecordPreservesStatsValid(s.statistics, s.playerMove, result);
  }

  lemma ResetStatisticsInvariant(s: State)
    requires Invariant(s)
    ensures Invariant(ResetStatistics(s))
  {
    InitialStatisticsValid();
    ResetStatisticsReadsBack(s);
  }

  /** After a reset, storage reads back as the initial statistics, and the
      history and its storage are as they were. */
  lemma ResetStatisticsReadsBack(s: State)
    ensures ResetStatistics(s).savedStatistics.GetOr(InitialStatistics) == InitialStatistics
    ensures ResetStatistics(s).savedHistory.GetOr([]) == s.savedHistory.GetOr([])
    ensures ResetStatistics(s).gameHistory == s.gameHistory
  {
  }

  lemma ResetGameInvariant(s: State)
    requires Invariant(s)
    ensures Invariant(ResetGame(s))
  {
  }

  lemma ClearHistoryInvariant(s: State)
    requires Invariant(s)
    ensures Invariant(ClearHistory(s))
  {
  }

  lemma AddToHistoryInvariant(
    s: State, playerMove: Move, aiMove: Move, result: GameResult, aiType: AIType,
    mode: GameMode, id: string, date: int)
    requires Invariant(s)
    ensures Invariant(AddToHistory(s, playerMove, aiMove, result, aiType, mode, id, date))
  {
  }

  // ---------------------------------------------------------------------
  // The statistics against an independent description of a sequence of
  // rounds: counters are multiplicities, the current streak is the run of
  // wins at the end, the best streak is the longest run of wins anywhere.

  function Moves(plays: seq<(Move, GameResult)>): (ms: seq<Move>)
    ensures |ms| == |plays|
    ensures forall i :: 0 <= i < |plays| ==> ms[i] == plays[i].0
  {
    seq(|plays|, i requires 0 <= i < |plays| => plays[i].0)
  }

  function Results(plays: seq<(Move, GameResult)>): (rs: seq<GameResult>)
    ensures |rs| == |plays|
    ensures forall i :: 0 <= i < |plays| ==> rs[i] == plays[i].1
  {
    seq(|plays|, i requires 0 <= i < |plays| => plays[i].1)
  }

  /** The statistics after recording `plays` in order, each with its move. */
  function RecordAll(st: Statistics, plays: seq<(Move, GameResult)>): Statistics
  {
    if |plays| == 0 then st
    else
      var last := plays[|plays| - 1];
      Record(RecordAll(st, plays[..|plays| - 1]), Some(last.0), last.1)
  }

  /** Positions `i` up to `j` (exclusive) of `rs` are all wins. */
  predicate WinsBetween(rs: seq<GameResult>, i: nat, j: nat)
  {
    i <= j <= |rs| && forall k :: i <= k < j ==> rs[k] == Win
  }

  /** Length of the run of wins that ends the sequence. */
  function TrailingWins(rs: seq<GameResult>): (n: nat)
    ensures n <= |rs|
  {
    if |rs| == 0 || rs[|rs| - 1] != Win then 0
    else 1 + TrailingWins(rs[..|rs| - 1])
  }

  /** The trailing run is made of wins. */
  lemma {:induction false} TrailingWinsAreWins(rs: seq<GameResult>)
    ensures WinsBetween(rs, |rs| - TrailingWins(rs), |rs|)
  {
    if |rs| > 0 && rs[|rs| - 1] == Win {
      var init := rs[..|rs| - 1];
      TrailingWinsAreWins(init);
      assert WinsBetween(init, |init| - TrailingWins(init), |init|);
    }
  }

  /** No run of wins reaching the end is longer than the trailing run. */
  lemma {:induction false} TrailingWinsIsLongestSuffix(rs: seq<GameResult>, i: nat)
    requires WinsBetween(rs, i, |rs|)
    ensures |rs| - i <= TrailingWins(rs)
  {
    if i < |rs| {
      var init := rs[..|rs| - 1];
      assert WinsBetween(init, i, |init|);
      TrailingWinsIsLongestSuffix(init, i);
    }
  }

  /** `rs` holds `n` consecutive wins starting at position `i`. */
  predicate RunAt(rs: seq<GameResult>, i: nat, n: nat)
  {
    WinsBetween(rs, i, i + n)
  }

  /** Some run of `n` consecutive wins occurs in `rs`. */
  ghost predicate HasRun(rs: seq<GameResult>, n: nat)
  {
    exists i: nat :: i <= |rs| && RunAt(rs, i, n)
  }

  /** No run of wins in `rs` is longer than `n`. */
  ghost predicate RunsAtMost(rs: seq<GameResult>, n: nat)
  {
    forall i: nat, j: nat :: WinsBetween(rs, i, j) ==> j - i <= n
  }

  /** `n` is the length of the longest run of wins in `rs`. */
  ghost predicate LongestRun(rs: seq<GameResult>, n: nat)
  {
    HasRun(rs, n) && RunsAtMost(rs, n)
  }

  lemma ResultsSnoc(plays: seq<(Move, GameResult)>)
    requires |plays| > 0
    ensures Results(plays) == Results(plays[..|plays| - 1]) + [plays[|plays| - 1].1]
  {
    var a := Results(plays);
    var b := Results(plays[..|plays| - 1]) + [plays[|plays| - 1].1];
    assert |a| == |b|;
    forall k | 0 <= k < |a|
      ensures a[k] == b[k]
    {
      if k < |a| - 1 {
        assert b[k] == Results(plays[..|plays| - 1])[k];
      }
    }
  }

  lemma MovesSnoc(plays: seq<(Move, GameResult)>)
    requires |plays| > 0
    ensures Moves(plays) == Moves(plays[..|plays| - 1]) + [plays[|plays| - 1].0]
  {
    var a := Moves(plays);
    var b := Moves(plays[..|plays| - 1]) + [plays[|plays| - 1].0];
    assert |a| == |b|;
    forall k | 0 <= k < |a|
      ensures a[k] == b[k]
    {
      if k < |a| - 1 {
        assert b[k] == Moves(plays[..|plays| - 1])[k];
      }
    }
  }

  /** Recording a sequence of rounds from the initial statistics counts the
      rounds and the multiplicity of each result. */
  lemma {:induction false} RecordAllResults(plays: seq<(Move, GameResult)>)
    ensures var st := RecordAll(InitialStatistics, plays);
      var rs := Results(plays);
      && st.totalGames == |plays|
      && st.wins == multiset(rs)[Win]
      && st.losses == multiset(rs)[Lose]
      && st.draws == multiset(rs)[Draw]
  {
    if |plays| > 0 {
      var init := plays[..|plays| - 1];
      var last := plays[|plays| - 1];
      RecordAllResults(init);
      ResultsSnoc(plays);
      assert multiset(Results(plays)) == multiset(Results(init)) + multiset{last.1};
    }
  }

  /** Recording a sequence of rounds from the initial statistics tallies the
      moves played. */
  lemma {:induction false} RecordAllMoves(plays: seq<(Move, GameResult)>)
    ensures RecordAll(InitialStatistics, plays).moveCounts == Frequency.Tally(Moves(plays))
  {
    if |plays| > 0 {
      var init := plays[..|plays| - 1];
      var last := plays[|plays| - 1];
      RecordAllMoves(init);
      MovesSnoc(plays);
      var ms := Moves(plays);
      assert ms[..|ms| - 1] == Moves(init);
      assert Frequency.Tally(ms) == Frequency.Tally(Moves(init)).Inc(last.0);
    }
  }

  /** After at least one recorded round the favourite is the most frequent
      move played (ties to the earlier of rock, paper, scissors); before any,
      there is none. */
  lemma RecordAllFavourite(plays: seq<(Move, GameResult)>)
    ensures var st := RecordAll(InitialStatistics, plays);
      && (|plays| == 0 ==> st.favoriteMove.None?)
      && (|plays| > 0 ==> st.favoriteMove == Some(Frequency.MostFrequent(Frequency.Tally(Moves(plays)))))
  {
    RecordAllMoves(plays);
  }

  /** One more result extends the trailing run by one win or ends it. */
  lemma TrailingWinsStep(rs: seq<GameResult>)
    requires |rs| > 0
    ensures rs[|rs| - 1] == Win ==> TrailingWins(rs) == TrailingWins(rs[..|rs| - 1]) + 1
    ensures rs[|rs| - 1] != Win ==> TrailingWins(rs) == 0
  {
  }

  /** A run of wins in `rs` either lies before its last element or reaches
      the end, so it is bounded by the old bound or the trailing run. */
  lemma RunsBoundedStep(rs: seq<GameResult>, best0: nat, best: nat)
    requires |rs| > 0
    requires RunsAtMost(rs[..|rs| - 1], best0)
    requires best >= best0 && best >= TrailingWins(rs)
    ensures RunsAtMost(rs, best)
  {
    var rs0 := rs[..|rs| - 1];
    forall i: nat, j: nat | WinsBetween(rs, i, j)
      ensures j - i <= best
    {
      if j < |rs| {
        assert WinsBetween(rs0, i, j);
      } else {
        TrailingWinsIsLongestSuffix(rs, i);
      }
    }
  }

  /** The run the best streak names still occurs after one more result:
      either the old one, or the trailing run. */
  lemma RunExistsStep(rs: seq<GameResult>, best0: nat, best: nat)
    requires |rs| > 0
    requires HasRun(rs[..|rs| - 1], best0)
    requires best == best0 || best == TrailingWins(rs)
    ensures HasRun(rs, best)
  {
    var rs0 := rs[..|rs| - 1];
    if best == best0 {
      var i: nat :| i <= |rs0| && RunAt(rs0, i, best0);
      assert RunAt(rs, i, best);
    } else {
      TrailingWinsAreWins(rs);
      assert RunAt(rs, |rs| - TrailingWins(rs), best);
    }
  }

  /** Recording a sequence of rounds from the initial statistics makes the
      current streak the trailing run of wins and the best streak the
      longest run of wins. */
  lemma {:induction false} RecordAllStreaks(plays: seq<(Move, GameResult)>)
    ensures var st := RecordAll(InitialStatistics, plays);
      var rs := Results(plays);
      && st.currentStreak == TrailingWins(rs)
      && st.currentStreak <= st.winStreak
      && LongestRun(rs, st.winStreak)
  {
    var st := RecordAll(InitialStatistics, plays);
    var rs := Results(plays);
    if |plays| == 0 {
      assert RunAt(rs, 0, 0);
    } else {
      var init := plays[..|plays| - 1];
      var last := plays[|plays| - 1];
      RecordAllStreaks(init);
      var prev := RecordAll(InitialStatistics, init);
      ResultsSnoc(plays);
      assert rs[..|rs| - 1] == Results(init);
      TrailingWinsStep(rs);
      RunsBoundedStep(rs, prev.winStreak, st.winStreak);
      RunExistsStep(rs, prev.winStreak, st.winStreak);
    }
  }

  // ---------------------------------------------------------------------
  // The statistics as the source actually keeps them. `updateStatistics`
  // copies the statistics record one level deep, so the copy shares its
  // `moveCounts` record with the statistics it was made from, and the
  // in-place increment reaches that shared record. When the statistics
  // started out as (or were reset to) the module-level initial record,
  // the shared record is the initial record's own counts, so a later reset
  // brings back the counts played since then.

  /** The live statistics, and whether their move counts are the initial
      record's own counts; `detachedInitialCounts` is what the initial record
      holds while it is not shared. */
  datatype AliasedStatistics = AliasedStatistics(
    statistics: Statistics, sharesInitial: bool, detachedInitialCounts: Counts)

  /** What the initial record's move counts hold now. */
  function InitialCountsNow(a: AliasedStatistics): Counts
  {
    if a.sharesInitial then a.statistics.moveCounts else a.detachedInitialCounts
  }

  /** Statistics read from storage are a fresh record; without them the
      store starts from the initial record itself. */
  function InitAsWritten(stored: Option<Statistics>): (a: AliasedStatistics)
    ensures InitialCountsNow(a) == ZeroCounts
    ensures a.sharesInitial <==> stored.None?
    ensures stored.Some? ==> a.statistics == stored.value
  {
    match stored
    case Some(st) => AliasedStatistics(st, false, ZeroCounts)
    case None => AliasedStatistics(InitialStatistics, true, ZeroCounts)
  }

  /** `updateStatistics` as written: the same new statistics, and while the
      counts are shared the increment also lands in the initial record. */
  function RecordAsWritten(a: AliasedStatistics, playerMove: Option<Move>, result: GameResult): (r: AliasedStatistics)
    ensures r.statistics == Record(a.statistics, playerMove, result)
    ensures r.sharesInitial == a.sharesInitial
    ensures a.sharesInitial && playerMove.Some? ==>
      InitialCountsNow(r) == InitialCountsNow(a).Inc(playerMove.value)
    ensures !a.sharesInitial || playerMove.None? ==> InitialCountsNow(r) == InitialCountsNow(a)
  {
    a.(statistics := Record(a.statistics, playerMove, result))
  }

  /** `resetStatistics` as written: the initial record is installed again,
      with whatever its counts hold by now. */
  function ResetAsWritten(a: AliasedStatistics): (r: AliasedStatistics)
    ensures r.sharesInitial
    ensures r.statistics.totalGames == 0 && r.statistics.favoriteMove.None?
    ensures r.statistics.moveCounts == InitialCountsNow(a)
  {
    var counts := InitialCountsNow(a);
    AliasedStatistics(InitialStatistics.(moveCounts := counts), true, counts)
  }

  /** From a fresh start without stored statistics: one round played with
      rock, then a reset. The reset statistics report no game played but one
      rock counted, and they break the statistics invariant, where the
      corrected `ResetStatistics` gives zero counts. */
  lemma ResetAfterPlayKeepsMoveCounts()
    ensures var a := ResetAsWritten(RecordAsWritten(InitAsWritten(None), Some(Rock), Win));
      && a.statistics.totalGames == 0
      && a.statistics.moveCounts.Get(Rock) == 1
      && !StatsValid(a.statistics)
  {
  }

  // The history handed to the opponent. The store keeps its history newest
  // first, and the engines read theirs oldest first: as written, the
  // weighted engine weighs the ten oldest games kept and the adaptive engine
  // takes its pattern from the three oldest.

  /** Ten rocks played after ten scissors: the store holds the rocks first.
      `PlayMove` has the weighted opponent counter the old scissors with
      rock; handing the games over oldest first, the opponent counters the
      recent rocks with paper. */
  lemma WeightedReadsOldestGames(s: State, playerMove: Move, x: RandomValue, id: string, date: int)
    requires s.aiType == Weighted
    requires s.gameHistory == WeightedAI.Repeat(Rock, 10) + WeightedAI.Repeat(Scissors, 10)
    ensures PlayMove(s, playerMove, x, id, date).aiMove == Some(Rock)
    ensures PlayMoveOldestFirst(s, playerMove, x, id, date).aiMove == Some(Paper)
  {
    NewestFirstWindow(s.gameHistory, x);
    OldestFirstWindow(s.gameHistory, x);
  }

  /** The weighted engine, handed that history as stored, weighs the ten
      scissors at its tail. */
  lemma NewestFirstWindow(h: seq<GameHistory>, x: RandomValue)
    requires h == WeightedAI.Repeat(Rock, 10) + WeightedAI.Repeat(Scissors, 10)
    ensures AIFactory.FreshMove(Weighted, h, x) == Rock
  {
    var w := WeightedAI.Initial;
    AIFactory.FreshWeightedMove(h, x);
    WeightedAI.GetMoveOnlySeesWindow(WeightedAI.Repeat(Rock, 10), WeightedAI.Repeat(Scissors, 10), w, x);
    WeightedAI.RunGivesCounter(w, Scissors, 10, x);
  }

  /** Handed the same history reversed, it weighs the ten rocks. */
  lemma OldestFirstWindow(h: seq<GameHistory>, x: RandomValue)
    requires h == WeightedAI.Repeat(Rock, 10) + WeightedAI.Repeat(Scissors, 10)
    ensures AIFactory.FreshMove(Weighted, Reverse(h), x) == Paper
  {
    var w := WeightedAI.Initial;
    var older := WeightedAI.Repeat(Scissors, 10);
    var recent := WeightedAI.Repeat(Rock, 10);
    assert Reverse(h) == older + recent;
    AIFactory.FreshWeightedMove(Reverse(h), x);
    WeightedAI.GetMoveOnlySeesWindow(older, recent, w, x);
    WeightedAI.RunGivesCounter(w, Rock, 10, x);
  }

  /** The newest `n` games of the store, oldest first, are the last `n`
      entries of the history handed to the opponent. */
  lemma {:induction false} NewestLast(h: seq<GameHistory>, n: nat)
    requires n <= |h|
    ensures PlayerMoves(Reverse(h))[|h| - n..] == PlayerMoves(Reverse(h[..n]))
  {
    var a := PlayerMoves(Reverse(h))[|h| - n..];
    var b := PlayerMoves(Reverse(h[..n]));
    assert |a| == |b|;
    forall i | 0 <= i < |a|
      ensures a[i] == b[i]
    {
      assert a[i] == Reverse(h)[|h| - n + i].playerMove;
      assert b[i] == Reverse(h[..n])[i].playerMove;
    }
  }

  /** Handed the history oldest first, the weighted opponent counters the move the
      player made most often in their ten newest games (ties going to rock,
      then paper). */
  lemma WeightedCountersNewestGames(s: State, playerMove: Move, x: RandomValue, id: string, date: int)
    requires s.aiType == Weighted && |s.gameHistory| > 0
    ensures var newest := s.gameHistory[..Min(WeightedAI.WindowSize, |s.gameHistory|)];
      PlayMoveOldestFirst(s, playerMove, x, id, date).aiMove
        == Some(GameLogic.CounterMove(Frequency.MostFrequent(Frequency.Tally(PlayerMoves(newest)))))
  {
    NewestWindowCounts(s.gameHistory);
    AIFactory.FreshWeightedMove(Reverse(s.gameHistory), x);
  }

  /** The weighted engine's tally over the reversed history is the tally of
      the store's newest games. */
  lemma NewestWindowCounts(h: seq<GameHistory>)
    requires |h| > 0
    ensures WeightedAI.UpdateMoveCounts(Reverse(h))
      == Frequency.Tally(PlayerMoves(h[..Min(WeightedAI.WindowSize, |h|)]))
  {
    var k := Min(WeightedAI.WindowSize, |h|);
    var newest := h[..k];
    var c := WeightedAI.UpdateMoveCounts(Reverse(h));
    var t := Frequency.Tally(PlayerMoves(newest));
    NewestLast(h, k);
    ReverseMultiset(PlayerMoves(newest));
    assert PlayerMoves(Reverse(newest)) == Reverse(PlayerMoves(newest));
    assert forall m :: c.Get(m) == t.Get(m);
    assert c == Counts(c.Get(Rock), c.Get(Paper), c.Get(Scissors));
    assert t == Counts(t.Get(Rock), t.Get(Paper), t.Get(Scissors));
  }
}
