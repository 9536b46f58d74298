/** The opponent that predicts the player's next move from the moves that
    followed earlier occurrences of the player's last three moves
    (src/services/ai/AdaptiveAI.ts). */
module AdaptiveAI {
  import opened Types
  import opened Frequency
  import GameLogic

  const PatternLength: nat := 3

  /** The pattern cache. Moves are computed from the history alone: nothing
      reads or fills this map, and only `Reset` touches it. */
  datatype State = State(patterns: map<string, Counts>)

  const Kind: AIType := Adaptive

  const Initial: State := State(map[])

  /** `moves.join('')` over the move names. */
  function Join(ms: seq<Move>): string
  {
    if |ms| == 0 then "" else MoveName(ms[0]) + Join(ms[1..])
  }

  /** The names start with distinct letters, so a joined string determines the
      moves it was joined from: comparing joined strings compares moves. */
  lemma {:induction false} JoinInjective(a: seq<Move>, b: seq<Move>)
    ensures Join(a) == Join(b) <==> a == b
  {
    if |a| > 0 && |b| > 0 && Join(a) == Join(b) {
      assert MoveName(a[0])[0] == Join(a)[0];
      assert MoveName(b[0])[0] == Join(b)[0];
      assert a[0] == b[0];
      var n := |MoveName(a[0])|;
      assert Join(a[1..]) == Join(a)[n..];
      assert Join(b[1..]) == Join(b)[n..];
      JoinInjective(a[1..], b[1..]);
      assert a == [a[0]] + a[1..];
      assert b == [b[0]] + b[1..];
    } else if |a| > 0 && |b| == 0 {
      assert |Join(a)| >= |MoveName(a[0])| > 0;
    } else if |a| == 0 && |b| > 0 {
      assert |Join(b)| >= |MoveName(b[0])| > 0;
    }
  }

  /** The joined player moves of the three entries starting at `i`. */
  function Window(h: seq<GameHistory>, i: nat): string
    requires i + PatternLength <= |h|
  {
    Join(PlayerMoves(h[i..i + PatternLength]))
  }

  /** The joined player moves of the last three entries. */
  function Pattern(h: seq<GameHistory>): string
    requires |h| >= PatternLength
  {
    Window(h, |h| - PatternLength)
  }

  /** Start indices from `lo` on of windows equal to `pattern` that have a
      following entry, and whose following player move is `m`. */
  ghost function FollowerIndices(h: seq<GameHistory>, pattern: string, lo: nat, m: Move): set<int>
  {
    set j | lo <= j < |h| - PatternLength && IsFollowerIndex(h, pattern, j, m)
  }

  /** The window at `j` equals `pattern` and the entry after it has player
      move `m`. */
  predicate IsFollowerIndex(h: seq<GameHistory>, pattern: string, j: nat, m: Move)
    requires j + PatternLength < |h|
  {
    Window(h, j) == pattern && h[j + PatternLength].playerMove == m
  }

  /** Scanning one more start index adds it to the matches exactly when its
      window equals the pattern and its follower is `m`. */
  lemma FollowerIndicesStepFor(h: seq<GameHistory>, pattern: string, i: nat, m: Move)
    requires i + PatternLength < |h|
    ensures |FollowerIndices(h, pattern, i, m)|
      == |FollowerIndices(h, pattern, i + 1, m)|
         + (if Window(h, i) == pattern && h[i + PatternLength].playerMove == m then 1 else 0)
  {
    var rest := FollowerIndices(h, pattern, i + 1, m);
    var all := FollowerIndices(h, pattern, i, m);
    assert i !in rest;
    if IsFollowerIndex(h, pattern, i, m) {
      assert all == rest + {i} by {
        forall j | j in all ensures j in rest + {i} {
          if j != i { assert j in rest; }
        }
      }
    } else {
      assert all == rest by {
        forall j | j in all ensures j in rest {
          assert j != i;
        }
      }
    }
  }

  lemma FollowerIndicesStep(h: seq<GameHistory>, pattern: string, i: nat)
    requires i + PatternLength < |h|
    ensures forall m :: (|FollowerIndices(h, pattern, i, m)|
      == |FollowerIndices(h, pattern, i + 1, m)|
         + (if Window(h, i) == pattern && h[i + PatternLength].playerMove == m then 1 else 0))
  {
    forall m
      ensures |FollowerIndices(h, pattern, i, m)|
        == |FollowerIndices(h, pattern, i + 1, m)|
           + (if Window(h, i) == pattern && h[i + PatternLength].playerMove == m then 1 else 0)
    {
      FollowerIndicesStepFor(h, pattern, i, m);
    }
  }

  lemma FollowerIndicesEnd(h: seq<GameHistory>, pattern: string, i: nat)
    requires i + PatternLength >= |h|
    ensures forall m :: FollowerIndices(h, pattern, i, m) == {}
  {
  }

  /** The scan `for (i = lo; i <= |h| - 3 - 1; i++)` collecting the player
      move after every window equal to `pattern`, in scan order. */
  function Occurrences(h: seq<GameHistory>, pattern: string, i: nat): seq<Move>
    decreases |h| - i
  {
    if i + PatternLength >= |h| then []
    else
      var rest := Occurrences(h, pattern, i + 1);
      if Window(h, i) == pattern then [h[i + PatternLength].playerMove] + rest
      else rest
  }

  /** Each move occurs in the scan once per matching window it follows. */
  lemma {:induction false} OccurrencesCountFollowers(h: seq<GameHistory>, pattern: string, i: nat)
    ensures forall m :: multiset(Occurrences(h, pattern, i))[m] == |FollowerIndices(h, pattern, i, m)|
    decreases |h| - i
  {
    if i + PatternLength >= |h| {
      FollowerIndicesEnd(h, pattern, i);
    } else {
      var rest := Occurrences(h, pattern, i + 1);
      OccurrencesCountFollowers(h, pattern, i + 1);
      FollowerIndicesStep(h, pattern, i);
      if Window(h, i) == pattern {
        assert multiset([h[i + PatternLength].playerMove] + rest)
          == multiset{h[i + PatternLength].playerMove} + multiset(rest);
      }
    }
  }

  /** The most frequent follower of the pattern, or the random draw when the
      pattern has no earlier occurrence. */
  function PredictNextMove(h: seq<GameHistory>, pattern: string, x: RandomValue): (m: Move)
    ensures Occurrences(h, pattern, 0) == [] ==> m == GameLogic.RandomMove(x)
    ensures var occ := multiset(Occurrences(h, pattern, 0));
      |occ| > 0 ==>
        && occ[m] > 0
        && (forall y :: occ[y] <= occ[m])
        && (forall y :: occ[y] == occ[m] ==> Rank(m) <= Rank(y))
  {
    var occ := Occurrences(h, pattern, 0);
    if |occ| == 0 then GameLogic.RandomMove(x)
    else MostFrequent(Tally(occ))
  }

  /** Too short a history falls back to the random draw; otherwise the
      prediction is countered. The state is never changed. */
  function GetMove(s: State, h: seq<GameHistory>, x: RandomValue): (r: (Move, State))
    ensures r.1 == s
    ensures |h| < PatternLength ==> r.0 == GameLogic.RandomMove(x)
    ensures |h| >= PatternLength ==>
      GameLogic.DetermineWinner(r.0, PredictNextMove(h, Pattern(h), x)) == Win
  {
    if |h| < PatternLength then (GameLogic.RandomMove(x), s)
    else (GameLogic.CounterMove(PredictNextMove(h, Pattern(h), x)), s)
  }

  /** Clears the pattern cache. */
  function Reset(s: State): (r: State)
    ensures r.patterns == map[]
  {
    Initial
  }

  /** The window starting at `j` holds the same player moves as the last
      three entries, and some entry follows it. */
  ghost predicate MatchesAt(h: seq<GameHistory>, j: int)
    requires |h| >= PatternLength
  {
    0 <= j < |h| - PatternLength
    && PlayerMoves(h)[j..j + PatternLength] == PlayerMoves(h)[|h| - PatternLength..]
  }

  /** Earlier windows, compared as move sequences, whose follower is `m`. */
  ghost function Followers(h: seq<GameHistory>, m: Move): set<int>
    requires |h| >= PatternLength
  {
    set j | 0 <= j < |h| - PatternLength && MatchesAt(h, j) && h[j + PatternLength].playerMove == m
  }

  lemma WindowEqualsPatternIff(h: seq<GameHistory>, j: nat)
    requires |h| >= PatternLength && j + PatternLength <= |h|
    ensures Window(h, j) == Pattern(h)
      <==> PlayerMoves(h)[j..j + PatternLength] == PlayerMoves(h)[|h| - PatternLength..]
  {
    var k := |h| - PatternLength;
    var a := PlayerMoves(h[j..j + PatternLength]);
    var b := PlayerMoves(h[k..k + PatternLength]);
    assert a == PlayerMoves(h)[j..j + PatternLength];
    assert b == PlayerMoves(h)[k..];
    assert Window(h, j) == Join(a);
    assert Pattern(h) == Join(b);
    JoinInjective(a, b);
  }

  /** The string scan finds exactly the windows whose moves equal the last
      three moves. */
  lemma FollowerIndicesAreFollowers(h: seq<GameHistory>, m: Move)
    requires |h| >= PatternLength
    ensures FollowerIndices(h, Pattern(h), 0, m) == Followers(h, m)
  {
    forall j | 0 <= j < |h| - PatternLength
      ensures Window(h, j) == Pattern(h)
        <==> PlayerMoves(h)[j..j + PatternLength] == PlayerMoves(h)[|h| - PatternLength..]
    {
      WindowEqualsPatternIff(h, j);
    }
  }

  /** The tally of the scan counts, per move, the earlier windows holding the
      last three moves that this move followed. */
  lemma TallyCountsFollowers(h: seq<GameHistory>)
    requires |h| >= PatternLength
    ensures forall m :: Tally(Occurrences(h, Pattern(h), 0)).Get(m) == |Followers(h, m)|
  {
    var occ := Occurrences(h, Pattern(h), 0);
    OccurrencesCountFollowers(h, Pattern(h), 0);
    forall m ensures Tally(occ).Get(m) == |Followers(h, m)| {
      FollowerIndicesAreFollowers(h, m);
    }
  }

  /** With no earlier occurrence of the last three moves the prediction is
      the random draw, and the move is still its counter: one third of the
      random range per move, just as the draw itself. */
  lemma GetMoveWithoutFollowers(s: State, h: seq<GameHistory>, x: RandomValue)
    requires |h| >= PatternLength
    requires forall m :: |Followers(h, m)| == 0
    ensures GetMove(s, h, x).0 == GameLogic.CounterMove(GameLogic.RandomMove(x))
  {
    var occ := Occurrences(h, Pattern(h), 0);
    TallyCountsFollowers(h);
    assert Tally(occ).Total() == 0;
  }

  /** Otherwise the move beats a move that followed the most earlier
      occurrences, the first such move in the order rock, paper, scissors. */
  lemma GetMoveCountersMostFrequentFollower(s: State, h: seq<GameHistory>, x: RandomValue)
    requires |h| >= PatternLength
    requires exists m :: |Followers(h, m)| > 0
    ensures exists p :: (GameLogic.DetermineWinner(GetMove(s, h, x).0, p) == Win
      && |Followers(h, p)| > 0
      && (forall m :: |Followers(h, m)| <= |Followers(h, p)|)
      && (forall m :: |Followers(h, m)| == |Followers(h, p)| ==> Rank(p) <= Rank(m)))
  {
    var occ := Occurrences(h, Pattern(h), 0);
    var c := Tally(occ);
    TallyCountsFollowers(h);
    assert |occ| > 0;
    var p := MostFrequent(c);
    assert GetMove(s, h, x).0 == GameLogic.CounterMove(p);
  }

  /** `Reset` has no effect on the move chosen for a given history. */
  lemma ResetKeepsMoves(s: State, h: seq<GameHistory>, x: RandomValue)
    ensures GetMove(Reset(s), h, x).0 == GetMove(s, h, x).0
  {
  }

  /** The three entries from `i` on hold the same player moves as the last
      three entries, compared position by position. */
  predicate SameMovesAt(h: seq<GameHistory>, i: nat)
    requires |h| >= PatternLength && i + PatternLength <= |h|
  {
    var k := |h| - PatternLength;
    && h[i].playerMove == h[k].playerMove
    && h[i + 1].playerMove == h[k + 1].playerMove
    && h[i + 2].playerMove == h[k + 2].playerMove
  }

  lemma SameMovesAtIff(h: seq<GameHistory>, i: nat)
    requires |h| >= PatternLength && i + PatternLength <= |h|
    ensures SameMovesAt(h, i)
      <==> PlayerMoves(h)[i..i + PatternLength] == PlayerMoves(h)[|h| - PatternLength..]
  {
    var ms := PlayerMoves(h);
    var k := |h| - PatternLength;
    if SameMovesAt(h, i) {
      assert ms[i..i + PatternLength] == [ms[i], ms[i + 1], ms[i + 2]];
      assert ms[k..] == [ms[k], ms[k + 1], ms[k + 2]];
    }
  }

  /** One step of the scan, with the string comparison read as a comparison
      of moves. */
  lemma OccurrencesStep(h: seq<GameHistory>, i: nat)
    requires |h| >= PatternLength && i + PatternLength < |h|
    ensures Occurrences(h, Pattern(h), i)
      == (if SameMovesAt(h, i) then [h[i + PatternLength].playerMove] else [])
         + Occurrences(h, Pattern(h), i + 1)
  {
    WindowEqualsPatternIff(h, i);
    SameMovesAtIff(h, i);
  }

  /** One step of the scan, read off the player moves. */
  lemma ScanStep(h: seq<GameHistory>, i: nat)
    requires i + PatternLength < |h|
    ensures var ms := PlayerMoves(h);
      var k := |h| - PatternLength;
      Occurrences(h, Pattern(h), i)
        == (if ms[i] == ms[k] && ms[i + 1] == ms[k + 1] && ms[i + 2] == ms[k + 2]
            then [ms[i + PatternLength]] else [])
           + Occurrences(h, Pattern(h), i + 1)
  {
    OccurrencesStep(h, i);
  }

  lemma OccurrencesEnd(h: seq<GameHistory>)
    requires |h| >= PatternLength
    ensures Occurrences(h, Pattern(h), |h| - PatternLength) == []
  {
  }

  const RepeatedOnce: seq<Move> := [Rock, Paper, Scissors, Rock, Rock, Paper, Scissors]

  /** From index 2 on, no window holds rock, paper, scissors before the end. */
  lemma RepeatedOnceTailOccurrences(h: seq<GameHistory>)
    requires PlayerMoves(h) == RepeatedOnce
    ensures Occurrences(h, Pattern(h), 2) == []
  {
    OccurrencesEnd(h);
    ScanStep(h, 3);
    ScanStep(h, 2);
  }

  /** Only the window at 0 holds rock, paper, scissors before the end. */
  lemma RepeatedOnceOccurrences(h: seq<GameHistory>)
    requires PlayerMoves(h) == RepeatedOnce
    ensures Occurrences(h, Pattern(h), 0) == [Rock]
  {
    RepeatedOnceTailOccurrences(h);
    ScanStep(h, 1);
    ScanStep(h, 0);
  }

  /** A history whose player moves are rock, paper, scissors, rock, then
      rock, paper, scissors again: rock is predicted and paper played. */
  lemma OnePatternRepeatGivesPaper(s: State, h: seq<GameHistory>, x: RandomValue)
    requires PlayerMoves(h) == RepeatedOnce
    ensures GetMove(s, h, x).0 == Paper
  {
    var occ := Occurrences(h, Pattern(h), 0);
    RepeatedOnceOccurrences(h);
    assert multiset(occ)[Rock] == 1;
    assert MostFrequent(Tally(occ)) == Rock;
    assert PredictNextMove(h, Pattern(h), x) == Rock;
  }

  const RepeatedTwice: seq<Move> :=
    [Rock, Paper, Scissors, Rock, Rock, Paper, Scissors, Rock, Rock, Paper, Scissors]

  /** `ms` is `RepeatedTwice`, move by move. */
  predicate IsRepeatedTwice(ms: seq<Move>)
  {
    && |ms| == 11
    && ms[0] == Rock && ms[1] == Paper && ms[2] == Scissors && ms[3] == Rock
    && ms[4] == Rock && ms[5] == Paper && ms[6] == Scissors && ms[7] == Rock
    && ms[8] == Rock && ms[9] == Paper && ms[10] == Scissors
  }

  lemma RepeatedTwiceMoves(ms: seq<Move>)
    requires ms == RepeatedTwice
    ensures IsRepeatedTwice(ms)
  {
  }

  /** From index 6 on, no window holds rock, paper, scissors before the end. */
  lemma RepeatedTwiceLastOccurrences(h: seq<GameHistory>)
    requires IsRepeatedTwice(PlayerMoves(h))
    ensures Occurrences(h, Pattern(h), 6) == []
  {
    OccurrencesEnd(h);
    ScanStep(h, 7);
    ScanStep(h, 6);
  }

  /** From index 4 on, only the window at 4 holds rock, paper, scissors. */
  lemma RepeatedTwiceLaterOccurrences(h: seq<GameHistory>)
    requires IsRepeatedTwice(PlayerMoves(h))
    ensures Occurrences(h, Pattern(h), 4) == [Rock]
  {
    RepeatedTwiceLastOccurrences(h);
    ScanStep(h, 5);
    ScanStep(h, 4);
  }

  /** From index 2 on, still only the window at 4. */
  lemma RepeatedTwiceTailOccurrences(h: seq<GameHistory>)
    requires IsRepeatedTwice(PlayerMoves(h))
    ensures Occurrences(h, Pattern(h), 2) == [Rock]
  {
    RepeatedTwiceLaterOccurrences(h);
    ScanStep(h, 3);
    ScanStep(h, 2);
  }

  /** The windows at 0 and at 4 hold rock, paper, scissors, both followed
      by rock. */
  lemma RepeatedTwiceOccurrences(h: seq<GameHistory>)
    requires IsRepeatedTwice(PlayerMoves(h))
    ensures Occurrences(h, Pattern(h), 0) == [Rock, Rock]
  {
    RepeatedTwiceTailOccurrences(h);
    ScanStep(h, 1);
    ScanStep(h, 0);
  }

  /** Rock, paper, scissors, rock played three times over: rock has
      followed the pattern twice, so rock is predicted and paper played. */
  lemma TwoPatternRepeatsGivePaper(s: State, h: seq<GameHistory>, x: RandomValue)
    requires PlayerMoves(h) == RepeatedTwice
    ensures GetMove(s, h, x).0 == Paper
  {
    var occ := Occurrences(h, Pattern(h), 0);
    RepeatedTwiceMoves(PlayerMoves(h));
    RepeatedTwiceOccurrences(h);
    assert multiset(occ)[Rock] == 2;
    assert MostFrequent(Tally(occ)) == Rock;
    assert PredictNextMove(h, Pattern(h), x) == Rock;
  }

  /** Five rocks: the last three rocks also stand at 0 and at 1, both times
      followed by rock, so rock is predicted twice over and paper played. */
  lemma OverlappingRepeatsGivePaper(s: State, h: seq<GameHistory>, x: RandomValue)
    requires PlayerMoves(h) == [Rock, Rock, Rock, Rock, Rock]
    ensures GetMove(s, h, x).0 == Paper
  {
    var occ := Occurrences(h, Pattern(h), 0);
    OccurrencesEnd(h);
    ScanStep(h, 1);
    ScanStep(h, 0);
    assert occ == [Rock, Rock];
    assert multiset(occ)[Rock] == 2;
    assert MostFrequent(Tally(occ)) == Rock;
    assert PredictNextMove(h, Pattern(h), x) == Rock;
  }

  /** A trailing pattern that never occurred earlier falls back to the
      counter of the draw. */
  lemma UnseenPatternFallsBack(s: State, h: seq<GameHistory>, x: RandomValue)
    requires PlayerMoves(h) == [Rock, Paper, Scissors, Paper]
    ensures GetMove(s, h, x).0 == GameLogic.CounterMove(GameLogic.RandomMove(x))
  {
    OccurrencesEnd(h);
    ScanStep(h, 0);
    assert Occurrences(h, Pattern(h), 0) == [];
  }
}
