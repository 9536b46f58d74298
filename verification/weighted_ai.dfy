/** The opponent that counters the player's most frequent recent move
    (src/services/ai/WeightedAI.ts). */
module WeightedAI {
  import opened Types
  import opened Frequency
  import opened Lists
  import GameLogic

  /** How many trailing history entries are weighed. */
  const WindowSize: nat := 10

  /** The tally left behind by the latest call. */
  datatype State = State(moveCounts: Counts)

  const Kind: AIType := Weighted

  const Initial: State := State(ZeroCounts)

  /** `history.slice(-10)`: the last min(10, |h|) entries, in order. */
  function Recent(h: seq<GameHistory>): (w: seq<GameHistory>)
    ensures |w| == Min(WindowSize, |h|)
    ensures forall i :: 0 <= i < |w| ==> w[i] == h[|h| - |w| + i]
  {
    h[|h| - Min(WindowSize, |h|)..]
  }

  /** Counts rebuilt from zero over the trailing window only. */
  function UpdateMoveCounts(h: seq<GameHistory>): (c: Counts)
    ensures c.Total() == Min(WindowSize, |h|)
    ensures forall m :: c.Get(m) == multiset(PlayerMoves(h)[|h| - Min(WindowSize, |h|)..])[m]
  {
    assert PlayerMoves(Recent(h)) == PlayerMoves(h)[|h| - Min(WindowSize, |h|)..];
    Tally(PlayerMoves(Recent(h)))
  }

  /** The head of the tally's entries sorted by descending count: the move
      with the largest count, the earliest of rock, paper, scissors on a tie. */
  function GetMostFrequentPlayerMove(s: State): (m: Move)
    ensures |SortDescending(Entries(s.moveCounts))| > 0
    ensures m == SortDescending(Entries(s.moveCounts))[0].0
    ensures forall x :: s.moveCounts.Get(x) <= s.moveCounts.Get(m)
    ensures forall x :: s.moveCounts.Get(x) == s.moveCounts.Get(m) ==> Rank(m) <= Rank(x)
  {
    SortedHeadIsMostFrequent(s.moveCounts);
    MostFrequent(s.moveCounts)
  }

  /** An empty history falls back to the random draw and leaves the tally
      alone; otherwise the tally is rebuilt and its most frequent move countered. */
  function GetMove(s: State, h: seq<GameHistory>, x: RandomValue): (r: (Move, State))
    ensures |h| == 0 ==> r == (GameLogic.RandomMove(x), s)
    ensures |h| > 0 ==> r.1 == State(UpdateMoveCounts(h))
    ensures |h| > 0 ==>
      GameLogic.DetermineWinner(r.0, GetMostFrequentPlayerMove(r.1)) == Win
  {
    if |h| == 0 then (GameLogic.RandomMove(x), s)
    else
      var next := State(UpdateMoveCounts(h));
      (GameLogic.CounterMove(GetMostFrequentPlayerMove(next)), next)
  }

  /** Clears the tally. */
  function Reset(s: State): (r: State)
    ensures forall m :: r.moveCounts.Get(m) == 0
  {
    Initial
  }

  /** The move counters a move of maximal count in the window, the first such
      move in the order rock, paper, scissors. */
  lemma GetMoveCountersWindowFavourite(s: State, h: seq<GameHistory>, x: RandomValue)
    requires |h| > 0
    ensures var c := UpdateMoveCounts(h);
      exists m :: GameLogic.DetermineWinner(GetMove(s, h, x).0, m) == Win
        && (forall y :: c.Get(y) <= c.Get(m))
        && (forall y :: c.Get(y) == c.Get(m) ==> Rank(m) <= Rank(y))
  {
    var m := MostFrequent(UpdateMoveCounts(h));
    assert GameLogic.DetermineWinner(GetMove(s, h, x).0, m) == Win;
  }

  /** The state a previous call left behind never influences the move. */
  lemma GetMoveIgnoresPreviousCalls(s1: State, s2: State, h: seq<GameHistory>, x: RandomValue)
    ensures GetMove(s1, h, x).0 == GetMove(s2, h, x).0
  {
  }

  /** Entries older than the last ten are not weighed. */
  lemma {:induction false} GetMoveOnlySeesWindow(older: seq<GameHistory>, recent: seq<GameHistory>, s: State, x: RandomValue)
    requires |recent| == WindowSize
    ensures GetMove(s, older + recent, x) == GetMove(s, recent, x)
  {
    var h := older + recent;
    assert Recent(h) == recent;
    assert Recent(recent) == recent;
  }

  function Repeat(m: Move, n: nat): (h: seq<GameHistory>)
    ensures |h| == n
    ensures forall i :: 0 <= i < n ==> h[i] == Entry(m)
  {
    seq(n, _ => Entry(m))
  }

  lemma {:induction false} TallyRepeat(m: Move, n: nat)
    ensures Tally(PlayerMoves(Repeat(m, n))).Get(m) == n
    ensures forall y :: y != m ==> Tally(PlayerMoves(Repeat(m, n))).Get(y) == 0
  {
    var ms := PlayerMoves(Repeat(m, n));
    assert forall y :: y != m ==> y !in ms;
    assert multiset(ms)[m] == n by {
      assert ms == seq(n, _ => m);
      MultisetOfConstant(m, n);
    }
  }

  lemma {:induction false} MultisetOfConstant(m: Move, n: nat)
    ensures multiset(seq(n, _ => m))[m] == n
  {
    if n > 0 {
      MultisetOfConstant(m, n - 1);
      assert seq(n, _ => m) == seq(n - 1, _ => m) + [m];
    }
  }

  /** A run of one move, of any positive length, is answered with that
      move's counter. */
  lemma RunGivesCounter(s: State, m: Move, n: nat, x: RandomValue)
    requires n > 0
    ensures GetMove(s, Repeat(m, n), x).0 == GameLogic.CounterMove(m)
  {
    var k := Min(WindowSize, n);
    TallyRepeat(m, k);
    assert PlayerMoves(Repeat(m, n))[n - k..] == PlayerMoves(Repeat(m, k));
    var c := UpdateMoveCounts(Repeat(m, n));
    assert forall y :: c.Get(y) == Tally(PlayerMoves(Repeat(m, k))).Get(y);
    assert MostFrequent(c) == m;
  }

  /** Three rocks are answered with paper. */
  lemma ThreeRocksGivePaper(s: State, x: RandomValue)
    ensures GetMove(s, Repeat(Rock, 3), x).0 == Paper
  {
    TallyRepeat(Rock, 3);
    assert Recent(Repeat(Rock, 3)) == Repeat(Rock, 3);
  }

  /** The counts of a run of `a` followed by a run of another move `b`. */
  lemma TallyTwoRuns(a: Move, n: nat, b: Move, k: nat)
    requires a != b
    ensures var c := Tally(PlayerMoves(Repeat(a, n) + Repeat(b, k)));
      c.Get(a) == n && c.Get(b) == k
      && forall y :: y != a && y != b ==> c.Get(y) == 0
  {
    var h := Repeat(a, n) + Repeat(b, k);
    var xs := PlayerMoves(Repeat(a, n));
    var ys := PlayerMoves(Repeat(b, k));
    assert PlayerMoves(h) == xs + ys;
    TallyRepeat(a, n);
    TallyRepeat(b, k);
    TallyAppend(xs, ys);
    var c := Tally(xs + ys);
    assert c.Get(a) == n;
    assert c.Get(b) == k;
  }

  lemma RecentOfRuns()
    ensures Recent(Repeat(Scissors, 15) + Repeat(Rock, 5)) == Repeat(Scissors, 5) + Repeat(Rock, 5)
  {
  }

  /** Fifteen old scissors followed by five recent rocks: the window holds five
      of each, the tie goes to rock, and paper is played. */
  lemma WindowedTieGivesPaper(s: State, x: RandomValue)
    ensures GetMove(s, Repeat(Scissors, 15) + Repeat(Rock, 5), x).0 == Paper
  {
    var h := Repeat(Scissors, 15) + Repeat(Rock, 5);
    RecentOfRuns();
    TallyTwoRuns(Scissors, 5, Rock, 5);
    var c := UpdateMoveCounts(h);
    assert c == Tally(PlayerMoves(Repeat(Scissors, 5) + Repeat(Rock, 5)));
    assert MostFrequent(c) == Rock;
  }
}
