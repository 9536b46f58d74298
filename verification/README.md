# Shifumi-Pro core in Dafny

A model of the decision core of Shifumi-Pro, a rock-paper-scissors game
against a computer opponent, with proofs about it. It covers:

- the move rules, the random draw and the win-rate percentage;
- the three opponent engines (random, weighted, adaptive) and the factory
  that builds one from a strategy tag;
- the best-of-3 / best-of-5 match service;
- the three stores: the single-game store (statistics, streaks, favourite
  move, a newest-first history capped at 1000), the match store (the
  current match and an archive capped at 100) and the settings store
  (partial merge, defaults).

The model is functional. Every engine and store is an immutable record, and
every operation returns the next record. The random draw `Math.random()` is
a parameter `x` in `[0, 1)`. Identifiers and timestamps are parameters.
Each browser-storage key a store writes is a `saved…` field of its record,
`None` while nothing has been written under the key. Creating a store only
reads storage; every write puts `Some` of the written value there.

Modules follow the source files:

- `Types` holds the records of `src/types/index.ts`.
- `Lists`, `Frequency` and `Decimal` are shared helpers: a capped prepend,
  move counts with the argmax, and number formatting.
- `Encoding` gives UTF-8 and the Windows-1254 code page, which account for
  the spelling of the match service's winner texts.
- `GameLogic`, `RandomAI`, `WeightedAI`, `AdaptiveAI`, `AIFactory`,
  `TournamentService`, `TournamentStore`, `GameStore` and `SettingsStore`
  each model the source file of the same name.

Ties between equally frequent moves are broken in the order rock, paper,
scissors. The source gets this from a stable sort of the entries
`{rock, paper, scissors}` by descending count. `Frequency.MostFrequent`
states this argmax directly. `Frequency.SortedHeadIsMostFrequent` proves
that the sort, as written, picks the same move.

## Model

| member | source | states |
|---|---|---|
| GameLogic.Beats | src/utils/gameLogic.ts:8-12 | the move each move defeats is a different move |
| GameLogic.BeatsIsThreeCycle | src/utils/gameLogic.ts:8-12 | the win table is a 3-cycle: it is injective, and applying it three times returns the move, twice never does |
| GameLogic.DetermineWinner | src/utils/gameLogic.ts:3-15 | draw iff the moves are equal; win iff the opponent's move is the one the player's move defeats; lose iff the player's move is the one the opponent's defeats |
| GameLogic.DetermineWinnerAntisymmetric | src/utils/gameLogic.ts:3-15 | swapping the players swaps win and lose and keeps draws; for distinct moves, a win one way is a loss the other way |
| GameLogic.DetermineWinnerTable | src/utils/gameLogic.ts:4-14 | all nine outcomes: three draws, rock>scissors, paper>rock, scissors>paper, and the three losses |
| GameLogic.CounterMove | src/services/ai/WeightedAI.ts:44-52 | the counter of a move defeats it, and it is the only move that does |
| GameLogic.RandomMove | src/utils/gameLogic.ts:17-20 | `moves[floor(x*3)]`: rock on [0,1/3), paper on [1/3,2/3), scissors on [2/3,1) |
| GameLogic.RandomMoveCoversAllMoves | src/utils/gameLogic.ts:17-20 | every move is drawn for some value of the random source |
| GameLogic.CalculateWinRate | src/utils/gameLogic.ts:22-24 | 0 when no game was played; otherwise the integer r with 100·wins/total in [r−1/2, r+1/2), which is Math.round of the percentage, computed exactly |
| GameLogic.WinRateBounds | src/utils/gameLogic.ts:22-24 | with 0 ≤ wins ≤ total and total > 0, the rate lies in 0..100 |
| GameLogic.WinRateExamples | src/utils/gameLogic.ts:22-24 | 0/0 and 10/0 give 0; 5/10→50, 3/10→30, 7/10→70, 10/10→100, 1/3→33, 2/3→67 |
| RandomAI.GetMove | src/services/ai/RandomAI.ts:7-9 | the move is the random draw, and the engine is unchanged |
| RandomAI.GetMoveIgnoresHistory | src/services/ai/RandomAI.ts:7-9 | two different histories with the same draw give the same move |
| Frequency.Tally | src/services/ai/WeightedAI.ts:27-35 | the count of each move is its multiplicity in the sequence; the counts sum to its length |
| Frequency.TallyAppend | src/services/ai/WeightedAI.ts:32-34 | counting a concatenation adds the counts of the parts |
| Frequency.MostFrequent | src/services/ai/WeightedAI.ts:37-42 | a move of maximal count, and the first such in the order rock, paper, scissors |
| Frequency.MostFrequentUnique | src/services/ai/WeightedAI.ts:37-42 | any move with maximal count that precedes every other maximal move is the one `MostFrequent` picks |
| Frequency.SortedHeadIsMostFrequent | src/services/ai/WeightedAI.ts:38-41 | the head of the stable descending sort of the entries rock, paper, scissors is `MostFrequent` |
| WeightedAI.Recent | src/services/ai/WeightedAI.ts:31 | `slice(-10)`: the last min(10, n) entries, in order |
| WeightedAI.UpdateMoveCounts | src/services/ai/WeightedAI.ts:27-35 | counts rebuilt from zero: each move's count is its multiplicity among the last min(10, n) player moves, and the counts sum to min(10, n) |
| WeightedAI.GetMostFrequentPlayerMove | src/services/ai/WeightedAI.ts:37-42 | the head of the counts sorted by descending count: a move of maximal count, the first such in the order rock, paper, scissors |
| WeightedAI.GetMove | src/services/ai/WeightedAI.ts:12-25 | empty history: the random draw, the state untouched; otherwise the counts are rebuilt and the move defeats the most frequent counted move |
| WeightedAI.GetMoveCountersWindowFavourite | src/services/ai/WeightedAI.ts:18-24 | the move defeats a move of maximal count in the window that comes first among the maximal ones in the order rock, paper, scissors |
| WeightedAI.GetMoveIgnoresPreviousCalls | src/services/ai/WeightedAI.ts:28 | the engine's previous state never changes the move |
| WeightedAI.GetMoveOnlySeesWindow | src/services/ai/WeightedAI.ts:31 | entries older than the last ten do not change the move or the new state |
| WeightedAI.Reset | src/services/ai/WeightedAI.ts:54-56 | every count is zero after a reset |
| WeightedAI.TallyRepeat | src/services/ai/WeightedAI.ts:32-34 | a run of n equal moves counts n for that move and 0 for the others |
| WeightedAI.RunGivesCounter | src/services/ai/WeightedAI.ts:12-25 | a run of one move, of any positive length, is answered with that move's counter |
| WeightedAI.ThreeRocksGivePaper | src/services/ai/WeightedAI.ts:12-25 | three rocks are answered with paper |
| WeightedAI.TallyTwoRuns | src/services/ai/WeightedAI.ts:32-34 | a run of a followed by a run of b counts each run's length |
| WeightedAI.RecentOfRuns | src/services/ai/WeightedAI.ts:31 | the window of 15 scissors then 5 rocks is 5 scissors then 5 rocks |
| WeightedAI.WindowedTieGivesPaper | src/services/ai/WeightedAI.ts:31-42 | 15 scissors then 5 rocks: the window ties 5–5, rock wins the tie, and paper is played |
| AdaptiveAI.JoinInjective | src/services/ai/AdaptiveAI.ts:15-18 | joining move names is injective, so comparing joined patterns compares move sequences |
| AdaptiveAI.PredictNextMove | src/services/ai/AdaptiveAI.ts:27-57 | nothing collected by the scan: the random draw; otherwise a move the scan collected, collected at least as often as every other move, the first such in the order rock, paper, scissors |
| AdaptiveAI.GetMove | src/services/ai/AdaptiveAI.ts:9-25 | fewer than three entries: the random draw; otherwise a move that defeats the prediction for the last three player moves; the state never changes |
| AdaptiveAI.Reset | src/services/ai/AdaptiveAI.ts:69-71 | the pattern map is emptied |
| AdaptiveAI.ResetKeepsMoves | src/services/ai/AdaptiveAI.ts:69-71 | the pattern map is never read, so a reset never changes the move for a history |
| AdaptiveAI.OccurrencesCountFollowers | src/services/ai/AdaptiveAI.ts:31-40 | the moves the scan collects from start index i on are, counted per move, the indices j ≥ i whose window of three equals the pattern, that have a following entry, and whose following move is that move |
| AdaptiveAI.FollowerIndicesStepFor | src/services/ai/AdaptiveAI.ts:31-39 | one scan step: the matches from i are those from i+1, plus i itself when its window equals the pattern and its follower is the move |
| AdaptiveAI.FollowerIndicesStep | src/services/ai/AdaptiveAI.ts:31-39 | the same step, for all three moves at once |
| AdaptiveAI.FollowerIndicesEnd | src/services/ai/AdaptiveAI.ts:31 | past index n−4 there is no window with a follower |
| AdaptiveAI.WindowEqualsPatternIff | src/services/ai/AdaptiveAI.ts:32-37 | a window's joined string equals the pattern's iff its three player moves equal the last three |
| AdaptiveAI.FollowerIndicesAreFollowers | src/services/ai/AdaptiveAI.ts:31-40 | the scan's matches are exactly the positions where the last three moves were played before and something followed |
| AdaptiveAI.TallyCountsFollowers | src/services/ai/AdaptiveAI.ts:46-50 | the tally of the collected moves counts, per move, how often it followed an earlier occurrence of the last three moves |
| AdaptiveAI.GetMoveWithoutFollowers | src/services/ai/AdaptiveAI.ts:21-44 | with no earlier occurrence the prediction is the random draw, and the move is its counter |
| AdaptiveAI.GetMoveCountersMostFrequentFollower | src/services/ai/AdaptiveAI.ts:46-67 | otherwise the move defeats a most frequent follower, the first such in the order rock, paper, scissors |
| AdaptiveAI.SameMovesAtIff | src/services/ai/AdaptiveAI.ts:32-37 | the position-by-position comparison of a window with the last three moves is the slice comparison |
| AdaptiveAI.OccurrencesStep | src/services/ai/AdaptiveAI.ts:31-39 | one scan step over the real pattern: a window equal to the last three moves contributes its follower in front |
| AdaptiveAI.ScanStep | src/services/ai/AdaptiveAI.ts:31-39 | the same step stated on the player moves |
| AdaptiveAI.OccurrencesEnd | src/services/ai/AdaptiveAI.ts:31 | the scan collects nothing past index n−4 |
| AdaptiveAI.RepeatedOnceTailOccurrences | src/services/ai/AdaptiveAI.ts:31-40 | in r,p,s,r,r,p,s the scan from index 2 on finds nothing |
| AdaptiveAI.RepeatedOnceOccurrences | src/services/ai/AdaptiveAI.ts:31-40 | in r,p,s,r,r,p,s the last three moves r,p,s stand earlier only at index 0, followed by rock: the scan collects exactly one rock |
| AdaptiveAI.OnePatternRepeatGivesPaper | src/services/ai/AdaptiveAI.ts:9-67 | r,p,s,r,r,p,s is answered with paper |
| AdaptiveAI.OverlappingRepeatsGivePaper | src/services/ai/AdaptiveAI.ts:9-67 | five rocks: the overlapping windows at 0 and 1 both match, both followed by rock, and paper is played |
| AdaptiveAI.RepeatedTwiceLastOccurrences | src/services/ai/AdaptiveAI.ts:31-40 | in r,p,s,r,r,p,s,r,r,p,s the scan from index 6 on finds nothing |
| AdaptiveAI.RepeatedTwiceLaterOccurrences | src/services/ai/AdaptiveAI.ts:31-40 | in the same history the scan from index 4 on collects one rock, after the window at 4 |
| AdaptiveAI.RepeatedTwiceTailOccurrences | src/services/ai/AdaptiveAI.ts:31-40 | from index 2 on it still collects only that rock |
| AdaptiveAI.RepeatedTwiceOccurrences | src/services/ai/AdaptiveAI.ts:31-40 | the windows at 0 and 4 hold r,p,s, both followed by rock: the scan collects two rocks |
| AdaptiveAI.TwoPatternRepeatsGivePaper | src/services/ai/AdaptiveAI.test.ts:197-305 | r,p,s,r,r,p,s,r,r,p,s is answered with paper |
| AdaptiveAI.UnseenPatternFallsBack | src/services/ai/AdaptiveAI.ts:21-44 | in r,p,s,p the last three moves p,s,p never occur earlier: the move counters the random draw |
| AIFactory.GetMove | src/types/index.ts:53-57 | asking any engine for a move keeps its kind |
| AIFactory.Reset | src/types/index.ts:53-57 | resetting any engine keeps its kind |
| AIFactory.Create | src/services/ai/AIFactory.ts:7-18 | each known tag gives an engine of that kind, any other string a random engine, and a new engine is in its reset state |
| AIFactory.CreateKnownTag | src/services/ai/AIFactory.ts:9-14 | the engine for a well-typed tag has that tag |
| AIFactory.CreateUnknownTag | src/services/ai/AIFactory.ts:15-16 | an unknown tag gives the random engine |
| AIFactory.FreshMove | src/state/gameStore.ts:72-73 | a new engine for the strategy, asked once: the random kind plays the draw; the weighted kind plays the draw on an empty history and otherwise a move defeating the most frequent of the last ten player moves; the adaptive kind plays the draw below three entries and otherwise a move defeating the prediction for the last three moves |
| AIFactory.FreshWeightedMove | src/services/ai/AIFactory.ts:11-12 | a new weighted engine answers as the weighted engine from zero counts |
| AIFactory.ResetIdempotent | src/services/ai/AIFactory.ts:7-18 | resetting twice is resetting once |
| AIFactory.ShortHistoryFallsBack | src/services/ai/AIFactory.ts:7-18 | the random engine always, the weighted engine on an empty history and the adaptive one below three entries play the random draw |
| AIFactory.ResetKeepsMoves | src/services/ai/AIFactory.ts:7-18 | resetting an engine never changes its next move |
| TournamentService.CountResultAppend | src/services/tournament/TournamentService.ts:44-50 | appending a round adds one to the count of its result |
| TournamentService.CreateTournament | src/services/tournament/TournamentService.ts:6-16 | the given format, no rounds, both counters zero, open, no winner; the match invariants hold |
| TournamentService.PlayRound | src/services/tournament/TournamentService.ts:18-64 | exactly one round appended, with the fresh opponent's move, the judged result, the given kind and tournament mode; a win or loss raises its side's counter; reaching the threshold (2 or 3, the player checked first) completes the match with that winner, otherwise completion is unchanged |
| TournamentService.PlayRoundPreservesValid | src/services/tournament/TournamentService.ts:46-61 | from an open valid match, a round keeps the counters equal to the win and loss rounds, the winner present iff complete, and the winner at the threshold |
| TournamentService.DecisiveRoundsBounded | src/services/tournament/TournamentService.ts:53-61 | a valid match has at most 3 (best of 3) or 5 (best of 5) decisive rounds |
| TournamentService.GetTournamentStatus | src/services/tournament/TournamentService.ts:66-87 | current round is rounds+1, rounds needed to win 2 or 3, total rounds 2·needed−1, the other fields copied |
| TournamentService.StatusOfValid | src/services/tournament/TournamentService.ts:66-87 | for a valid match the shown wins fit the total rounds, an open match is below the threshold, and a winner is shown iff complete |
| TournamentService.GetTournamentScore | src/services/tournament/TournamentService.ts:89-91 | the leading run of digits reads back as the player's wins, " - " follows, and the rest reads back as the opponent's wins; neither numeral has a leading zero, as `${n}` never writes one |
| TournamentService.DigitPrefixOfNumeral | src/services/tournament/TournamentService.ts:89-91 | a numeral followed by a non-digit is recovered as the leading digits |
| TournamentService.ScoreDeterminesCounters | src/services/tournament/TournamentService.ts:89-91 | equal score texts mean equal counters |
| TournamentService.CanContinue | src/services/tournament/TournamentService.ts:93-95 | for a valid match, play may go on iff no winner is named |
| TournamentService.GetWinnerText | src/services/tournament/TournamentService.ts:97-105 | empty iff the match is not complete with a winner; otherwise the player's or the opponent's announcement, spelled character for character as in the source file |
| TournamentService.WinnerAnnouncement | src/services/tournament/TournamentService.ts:97-105 | the same cases with the meant texts: a trophy and "Vous avez remporté le tournoi!", a robot and "L'IA a remporté le tournoi!" |
| TournamentService.AnnouncementsMisDecoded | src/services/tournament/TournamentService.ts:103-104 | both texts in the source are the meant ones with their UTF-8 bytes read as Windows-1254 |
| TournamentService.PlayerWonMisDecoded | src/services/tournament/TournamentService.ts:103 | the player's text is the meant one mis-decoded |
| TournamentService.AiWonMisDecoded | src/services/tournament/TournamentService.ts:104 | the opponent's text is the meant one mis-decoded |
| TournamentService.WinnerTextIsMisDecoded | src/services/tournament/TournamentService.ts:97-105 | every announcement the source makes is the meant one mis-decoded, and a non-empty one differs from it |
| Encoding.TrophyMisDecoded | src/services/tournament/TournamentService.ts:103 | the trophy's bytes F0 9F 8F 86 read as g-breve, Y-diaeresis and a dagger; 0x8F has no character |
| Encoding.RobotMisDecoded | src/services/tournament/TournamentService.ts:104 | the robot's bytes F0 9F A4 96 read as g-breve, Y-diaeresis, a currency sign and an en dash |
| Encoding.EAcuteMisDecoded | src/services/tournament/TournamentService.ts:103-104 | the bytes C3 A9 of e acute read as A-tilde and a copyright sign |
| TournamentService.TwoWinsCompleteBestOfThree | src/services/tournament/TournamentService.ts:46-61 | best of 3, two wins: open after one, complete with the player as winner after two |
| TournamentService.DrawsAreNotCapped | src/services/tournament/TournamentService.ts:44-61 | four draws leave a best-of-3 match valid, open, and four rounds long |
| Decimal.DigitChar | src/services/tournament/TournamentService.ts:90 | the digit character for a digit reads back as that digit |
| Decimal.NatToString | src/services/tournament/TournamentService.ts:90 | a number's decimal text is a non-empty string of digits; it starts with '0' exactly for zero and is one digit long exactly below ten |
| Decimal.ParseNatToString | src/services/tournament/TournamentService.ts:90 | reading a number's decimal text gives the number back |
| Decimal.NatToStringInjective | src/services/tournament/TournamentService.ts:90 | different numbers have different texts |
| Decimal.CanonicalNumeralUnique | src/services/tournament/TournamentService.ts:90 | every numeral without a leading zero is the text of its own value, so the rendering is the only such numeral of each number |
| Lists.PrependCapped | src/state/gameStore.ts:157 | `[x, ...xs].slice(0, cap)`: length min(cap, n+1), x first, the old elements shifted by one |
| Lists.PrependCappedAtCapacity | src/state/gameStore.ts:157 | at capacity the oldest element is dropped |
| Lists.Reverse | src/state/gameStore.ts:157 | the reversed sequence holds the elements in the opposite order |
| Lists.ReverseMultiset | src/state/gameStore.ts:157 | reversing keeps the elements |
| TournamentStore.Init | src/state/tournamentStore.ts:21-86 | no current match; the archive is what storage holds, empty when nothing is stored; storage is only read |
| TournamentStore.Archive | src/state/tournamentStore.ts:46 | the match in front, at most 100 kept, the older ones shifted by one |
| TournamentStore.StartTournament | src/state/tournamentStore.ts:25-28 | a new empty match of the format becomes current; the archive and storage are untouched |
| TournamentStore.PlayTournamentRound | src/state/tournamentStore.ts:30-51 | no-op without a current match or on a complete one; otherwise the round is played, and a completing round archives the match and stores the archive while a non-completing one leaves both alone |
| TournamentStore.EndTournament | src/state/tournamentStore.ts:53-67 | the current match, complete or not, goes in front of the archive, which is stored; no current match remains |
| TournamentStore.EndTournamentOnce | src/state/tournamentStore.ts:53-67 | as `endTournament`, but a complete match (already archived) is not archived again |
| TournamentStore.LoadTournaments | src/state/tournamentStore.ts:69-72 | the archive is what storage holds, or empty when nothing is stored; storage is unchanged |
| TournamentStore.SaveTournaments | src/state/tournamentStore.ts:74-77 | storage receives the archive |
| TournamentStore.ClearTournaments | src/state/tournamentStore.ts:79-82 | the archive and storage are emptied; the current match stays |
| TournamentStore.InitInvariant | src/state/tournamentStore.ts:85-86 | nothing stored, or a stored archive of at most 100 valid matches, gives a store satisfying the invariant |
| TournamentStore.StartTournamentInvariant | src/state/tournamentStore.ts:25-28 | starting a match keeps the store invariant |
| TournamentStore.PlayTournamentRoundInvariant | src/state/tournamentStore.ts:30-51 | thanks to the guard, a round keeps every match valid, the archive within 100, and storage reading back as the archive |
| TournamentStore.EndTournamentInvariant | src/state/tournamentStore.ts:53-67 | ending a match, either way, keeps the store invariant |
| TournamentStore.ClearTournamentsInvariant | src/state/tournamentStore.ts:79-82 | clearing keeps the store invariant |
| TournamentStore.CurrentDecisiveRoundsBounded | src/state/tournamentStore.ts:32 | under the store invariant the current match has at most 3 or 5 decisive rounds |
| TournamentStore.NoRoundAfterCompletion | src/state/tournamentStore.ts:32 | after two winning best-of-3 rounds the match is complete and archived once, and a third request changes nothing |
| TournamentStore.EndAfterCompletionDuplicates | src/state/tournamentStore.ts:43-63 | closing a complete match that is at the head of the archive puts it in the archive a second time |
| TournamentStore.EndAfterCompletionKeepsArchive | src/state/tournamentStore.ts:53-67 | with `EndTournamentOnce`, closing a complete match only clears the current match |
| TournamentStore.PlayedMatchArchivedOnce | src/state/tournamentStore.ts:30-67 | a best-of-3 won in two rounds and closed: twice in the archive with `EndTournament`, once with `EndTournamentOnce` |
| GameStore.Init | src/state/gameStore.ts:52-67 | nothing played, round 1; the stored statistics or the initial all-zero record, the stored history or an empty one, the given strategy; storage is only read |
| GameStore.Favourite | src/state/gameStore.ts:124-126 | the head of the sorted counts is a move of maximal count, first in the order rock, paper, scissors |
| GameStore.Record | src/state/gameStore.ts:101-127 | one more game; exactly the counter of the result goes up; a win extends the current streak and raises the best streak to it, a loss or draw resets the current streak; a known move is counted and the favourite becomes the most frequent move |
| GameStore.UpdateStatistics | src/state/gameStore.ts:101-131 | the statistics record the round with the move on display and are stored; nothing else changes |
| GameStore.ResetStatistics | src/state/gameStore.ts:133-136 | games, wins, losses, draws, both streaks and all move counts zero, no favourite: exactly the initial statistics, in memory and in storage; nothing else changes |
| GameStore.AddToHistory | src/state/gameStore.ts:139-161 | the new game in front, at most 1000 kept, older games shifted by one, stored; nothing else changes |
| GameStore.ClearHistory | src/state/gameStore.ts:163-166 | history and stored history emptied; nothing else changes |
| GameStore.Play | src/state/gameStore.ts:74-87 | given the opponent's answer: the round is judged and shown, the round counter advances, the statistics record it, the history gains it in front in single mode, and both are stored |
| GameStore.PlayMove | src/state/gameStore.ts:70-88 | a new engine of the current kind answers from the history as stored (newest first), and the round is played with that answer |
| GameStore.PlayMoveOldestFirst | src/state/gameStore.ts:70-88 | the same with the history handed to the engine oldest first |
| GameStore.ResetGame | src/state/gameStore.ts:90-98 | no moves or result shown, not playing, round 1; statistics, history and storage unchanged |
| GameStore.InitialStatisticsValid | src/state/gameStore.ts:41-50 | the initial statistics are consistent |
| GameStore.RecordPreservesStatsValid | src/state/gameStore.ts:101-127 | recording a game keeps results summing to games, current ≤ best ≤ wins, counted moves ≤ games, and the favourite the most frequent move |
| GameStore.InitInvariant | src/state/gameStore.ts:52-67 | consistent stored statistics (or none) and a stored history within 1000 (or none) give a store satisfying the invariant |
| GameStore.PlayInvariant | src/state/gameStore.ts:74-87 | whatever the opponent answers, playing keeps the store invariant |
| GameStore.PlayMoveInvariant | src/state/gameStore.ts:70-88 | both ways of playing a move keep the store invariant |
| GameStore.UpdateStatisticsInvariant | src/state/gameStore.ts:101-131 | recording a result keeps the store invariant |
| GameStore.ResetStatisticsInvariant | src/state/gameStore.ts:133-136 | resetting the statistics keeps the store invariant |
| GameStore.ResetStatisticsReadsBack | src/state/gameStore.ts:133-136 | after a reset, storage reads back as the initial statistics, and the history and its storage are unchanged |
| GameStore.ResetGameInvariant | src/state/gameStore.ts:90-98 | resetting the board keeps the store invariant |
| GameStore.ClearHistoryInvariant | src/state/gameStore.ts:163-166 | clearing the history keeps the store invariant |
| GameStore.AddToHistoryInvariant | src/state/gameStore.ts:139-161 | adding a game keeps the store invariant |
| GameStore.TrailingWins | src/state/gameStore.ts:107-116 | the length of the run of wins at the end of a result sequence is at most its length |
| GameStore.TrailingWinsAreWins | src/state/gameStore.ts:107-116 | the trailing run consists of wins |
| GameStore.TrailingWinsIsLongestSuffix | src/state/gameStore.ts:107-116 | no longer suffix consists of wins only |
| GameStore.ResultsSnoc | src/state/gameStore.ts:101-127 | the results of a longer play sequence extend the shorter one's |
| GameStore.MovesSnoc | src/state/gameStore.ts:101-127 | the moves of a longer play sequence extend the shorter one's |
| GameStore.RecordAllResults | src/state/gameStore.ts:105-117 | from zero, after any sequence of games: games = its length, and wins, losses and draws count its results |
| GameStore.RecordAllMoves | src/state/gameStore.ts:120-127 | from zero, after any sequence of games, the move counts are the tally of the moves played |
| GameStore.RecordAllFavourite | src/state/gameStore.ts:120-127 | from zero, after a non-empty sequence of games, the favourite is the most frequent move played |
| GameStore.TrailingWinsStep | src/state/gameStore.ts:107-116 | one more game: a win extends the trailing run by one, anything else ends it |
| GameStore.RunsBoundedStep | src/state/gameStore.ts:110 | if no run was longer than the best streak, and the best streak is raised to the current one, no run is longer after one more game |
| GameStore.RunExistsStep | src/state/gameStore.ts:110 | the raised best streak is the length of some run of wins |
| GameStore.RecordAllStreaks | src/state/gameStore.ts:107-116 | from zero, after any sequence of games, the current streak is the trailing run of wins and the best streak is the longest run of wins |
| GameStore.InitAsWritten | src/state/gameStore.ts:41-61 | without stored statistics the store's counts are the initial record's own counts |
| GameStore.RecordAsWritten | src/state/gameStore.ts:103-121 | the shallow copy shares the move counts, so while they are the initial record's, a counted move lands in the initial record too |
| GameStore.ResetAsWritten | src/state/gameStore.ts:133-136 | the reset installs the initial record with whatever counts it holds by then |
| GameStore.ResetAfterPlayKeepsMoveCounts | src/state/gameStore.ts:103-136 | one rock from a fresh start, then a reset: no game played but one rock counted, breaking the statistics invariant |
| GameStore.WeightedReadsOldestGames | src/state/gameStore.ts:72-73 | ten rocks after ten scissors: as stored, the weighted opponent answers rock (countering the old scissors); oldest first it answers paper |
| GameStore.NewestFirstWindow | src/services/ai/WeightedAI.ts:31 | the weighted engine on the stored order weighs the ten scissors at its tail |
| GameStore.OldestFirstWindow | src/services/ai/WeightedAI.ts:31 | the same history reversed: the ten rocks are weighed |
| GameStore.NewestLast | src/state/gameStore.ts:157 | the last n entries of the reversed history are the store's n newest, oldest first |
| GameStore.NewestWindowCounts | src/services/ai/WeightedAI.ts:27-35 | the weighted engine's counts over the reversed history are the counts of the store's ten newest games |
| GameStore.WeightedCountersNewestGames | src/services/ai/WeightedAI.ts:12-25 | handed the history oldest first, the weighted opponent counters the most frequent move of the player's ten newest games |
| SettingsStore.Init | src/state/settingsStore.ts:17-19 | the stored settings, or the defaults when none are stored; storage is only read |
| SettingsStore.LoadSettings | src/services/storage/LocalStorage.ts:47-57 | the stored settings, or dark / fr / normal / random when none are stored |
| SettingsStore.Pick | src/state/settingsStore.ts:23 | a supplied field wins, an absent one keeps the current value |
| SettingsStore.Merge | src/state/settingsStore.ts:21-23 | each of the four fields is the update's when supplied and the current one otherwise |
| SettingsStore.UpdateSettings | src/state/settingsStore.ts:21-30 | the settings become the merge, and storage receives exactly the merged four fields |
| SettingsStore.ResetSettings | src/state/settingsStore.ts:32-35 | dark / fr / normal / random, in memory and in storage |
| SettingsStore.EmptyUpdateKeepsSettings | src/state/settingsStore.ts:21-30 | an update supplying nothing keeps the settings, and writes them to storage |
| SettingsStore.FullUpdateReplaces | src/state/settingsStore.ts:23 | an update supplying all four fields sets all four |
| SettingsStore.UpdateIdempotent | src/state/settingsStore.ts:21-30 | applying an update twice is applying it once |
| SettingsStore.UpdatesCompose | src/state/settingsStore.ts:21-30 | two updates in a row are one update in which the later one's fields win |
| SettingsStore.ChangingOpponentKeepsDisplay | src/state/settingsStore.ts:21-30 | changing only the opponent keeps theme, language and animation speed |
| SettingsStore.UpdateSettingsInvariant | src/state/settingsStore.ts:21-30 | after an update, storage reads back as what the store holds |
| SettingsStore.InitInvariant | src/state/settingsStore.ts:17-19 | a new store holds what its storage reads back as |
| SettingsStore.ResetSettingsInvariant | src/state/settingsStore.ts:32-35 | after a reset, storage reads back as what the store holds |
| SettingsStore.ResetAfterUpdateIsDefault | src/state/settingsStore.ts:10-35 | whatever was updated, a reset holds what a store created with nothing stored holds; storage then holds the defaults rather than nothing, and a store created from it is the reset store |

## Left out

- Floating point: `calculateWinRate` is computed in exact rationals. Math.round of the binary-floating quotient may differ from exact rounding only in representation corner cases, which are not modelled.
- `Math.random()`, `crypto.randomUUID()` and `new Date()` are parameters: the draw `x`, and the `id` and `date` of each entry.
- Browser storage (src/services/storage/LocalStorage.ts) is a `saved…` field of each store, one `Option` per key. JSON errors, corrupt data and other writers of the same keys are not modelled. The loaders' defaults are modelled: an empty history, no statistics, default settings, an empty archive.
- The zustand `create` / `get` / `set` plumbing is replaced by state-in, state-out functions. Each store's in-memory fields after an action are modelled; subscriptions and re-renders are not.
- RandomAI.Reset: the random engine has no state, so its reset has no contract of its own; `AIFactory.ResetKeepsMoves` states that no reset changes an engine's next move.
- Engine instances: every play asks a new engine, as the source does, so an engine's state is modelled as a value that no caller keeps.
- The adaptive engine's `patterns` map is never filled by the source. It is modelled only so that `reset` has something to clear.
- `setAIType` (src/state/gameStore.ts:169-174) writes the tag into the settings in storage; the settings store is a separate record here, so only the game store's own `aiType` field is modelled (unchanged by every modelled action).
- TournamentService.PlayRound: the source types `aiType` as a string and casts it. Every caller passes one of the three tags, so the model takes an `AIType`; unknown tags are covered by `AIFactory.Create`.
- TournamentService.PlayRound: `{ ...tournament }` followed by `rounds.push` also appends the round to the caller's match (src/services/tournament/TournamentService.ts:43-44). The store replaces the current match with the result immediately, so no modelled state observes the shared array; the model uses value semantics.
- TournamentService.GetTournamentScore: counters are rendered as shortest decimal numerals (no leading zero, stated by `Decimal.NatToString` and `Decimal.CanonicalNumeralUnique`); JavaScript's exponent form for counters of 10^21 and beyond is not modelled.
- GameLogic.RandomMove: the draw is split at exactly 1/3 and 2/3, whereas `Math.floor(Math.random() * 3)` rounds the double product first: a few doubles just below 1/3 (such as 6004799503160661·2^-54) give paper, and some just below 2/3 give scissors. Floating-point rounding of the product is not modelled.
- An explicit `undefined` in a partial settings record overwrites the field in JavaScript; the model treats an absent and an `undefined` field alike (as `None`).
- AdaptiveAI.Occurrences (the scan, src/services/ai/AdaptiveAI.ts:31-40) has no contract of its own; `AdaptiveAI.OccurrencesCountFollowers`, `OccurrencesStep` and `ScanStep` state what it collects.
- The React pages and components, translations and charts are not part of this model. The tournament page hands the match store the game store's newest-first history (src/pages/Tournament.tsx:57); `TournamentStore.PlayTournamentRound` takes that history as a parameter.

## Findings

| source | as written | input that shows it | evidently intended | confidence | as-written member | corrected member |
|---|---|---|---|---|---|---|
| src/state/gameStore.ts:103, 121, 133-136 | the shallow copy `{ ...state.statistics }` shares `moveCounts`; when the statistics began as `initialStatistics`, every counted move increments the initial record's own counts, and `resetStatistics` reinstalls that record | no stored statistics, play rock once, reset: 0 games but rock counted 1, favourite none | a reset gives all-zero counts; `GameStore.ResetStatistics` states it and `GameStore.ResetStatisticsInvariant` keeps the statistics consistent | high, not executed | GameStore.ResetAfterPlayKeepsMoveCounts | GameStore.ResetStatistics |
| src/state/tournamentStore.ts:43-50, 53-63 | the round that completes a match archives it, and the "Terminer" button shown on a complete match (src/pages/Tournament.tsx:232-244) calls `endTournament`, which archives it again | best of 3, two wins, then end: the archive holds the match twice | only an abandoned (incomplete) match is archived on end; `TournamentStore.EndAfterCompletionKeepsArchive` proves it of the corrected store | medium, not executed | TournamentStore.PlayedMatchArchivedOnce | TournamentStore.EndTournamentOnce |
| src/state/gameStore.ts:72-73, 157 | the history is kept newest first and handed to the engine as is; the weighted engine's `slice(-10)` then weighs the ten oldest games kept, the adaptive engine's `slice(-3)` the three oldest | weighted opponent, stored history ten rocks (newest) then ten scissors: the opponent answers rock instead of paper | the engines see the most recent games, as their own tests order them (oldest first); `GameStore.WeightedCountersNewestGames` proves it of the corrected store | high, not executed | GameStore.WeightedReadsOldestGames | GameStore.PlayMoveOldestFirst |
| src/services/tournament/TournamentService.ts:103-104 | the two winner announcements are stored mis-encoded: "ğŸ†" stands for the trophy, "ğŸ¤–" for the robot and "Ã©" for "é" | any match won by one side, such as best of 3 with two player wins: the announcement starts with U+011F instead of U+1F3C6 | "🏆 Vous avez remporté le tournoi!" and "🤖 L'IA a remporté le tournoi!"; the texts in the source are exactly these with their UTF-8 bytes read as Windows-1254 (`TournamentService.AnnouncementsMisDecoded`) | medium, not executed | TournamentService.WinnerTextIsMisDecoded | TournamentService.WinnerAnnouncement |
