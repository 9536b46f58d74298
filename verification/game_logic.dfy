/** Round resolution, the random move and the win-rate percentage
    (src/utils/gameLogic.ts). */
module GameLogic {
  import opened Types

  /** The move each move defeats: rock breaks scissors, paper covers rock,
      scissors cut paper. */
  function Beats(m: Move): (v: Move)
    ensures v != m
  {
    match m
    case Rock => Scissors
    case Paper => Rock
    case Scissors => Paper
  }

  /** The beats relation is a 3-cycle: each move is beaten by exactly one move. */
  lemma BeatsIsThreeCycle(m: Move)
    ensures Beats(Beats(m)) != m
    ensures Beats(Beats(Beats(m))) == m
    ensures forall a, b :: Beats(a) == Beats(b) ==> a == b
  {
  }

  /** The result of a round for the player. */
  function DetermineWinner(playerMove: Move, aiMove: Move): (r: GameResult)
    ensures r == Draw <==> playerMove == aiMove
    ensures r == Win <==> Beats(playerMove) == aiMove
    ensures r == Lose <==> Beats(aiMove) == playerMove
  {
    if playerMove == aiMove then Draw
    else if Beats(playerMove) == aiMove then Win
    else Lose
  }

  /** The outcome seen from the other side of the table. */
  function Flip(r: GameResult): GameResult
  {
    match r
    case Win => Lose
    case Lose => Win
    case Draw => Draw
  }

  /** Swapping the two moves swaps win and lose and keeps draw. */
  lemma DetermineWinnerAntisymmetric(a: Move, b: Move)
    ensures DetermineWinner(b, a) == Flip(DetermineWinner(a, b))
    ensures a != b ==> (DetermineWinner(a, b) == Win <==> DetermineWinner(b, a) == Lose)
  {
  }

  /** The nine combinations the tests enumerate. */
  lemma DetermineWinnerTable()
    ensures DetermineWinner(Rock, Rock) == Draw
    ensures DetermineWinner(Paper, Paper) == Draw
    ensures DetermineWinner(Scissors, Scissors) == Draw
    ensures DetermineWinner(Rock, Scissors) == Win
    ensures DetermineWinner(Paper, Rock) == Win
    ensures DetermineWinner(Scissors, Paper) == Win
    ensures DetermineWinner(Rock, Paper) == Lose
    ensures DetermineWinner(Paper, Scissors) == Lose
    ensures DetermineWinner(Scissors, Rock) == Lose
  {
  }

  /** The counter move: the unique move that wins against `m`. */
  function CounterMove(m: Move): (c: Move)
    ensures DetermineWinner(c, m) == Win
    ensures forall x :: DetermineWinner(x, m) == Win ==> x == c
  {
    match m
    case Rock => Paper
    case Paper => Scissors
    case Scissors => Rock
  }

  /** `moves[Math.floor(Math.random() * 3)]`: the random value selects one
      third of [0, 1) per move. */
  function RandomMove(x: RandomValue): (m: Move)
    ensures m == Rock <==> x < 1.0 / 3.0
    ensures m == Paper <==> 1.0 / 3.0 <= x < 2.0 / 3.0
    ensures m == Scissors <==> 2.0 / 3.0 <= x
  {
    var k := (x * 3.0).Floor;
    assert 0 <= k < 3;
    AllMoves[k]
  }

  /** Every move is produced by some random value. */
  lemma RandomMoveCoversAllMoves(m: Move)
    ensures exists x: RandomValue :: RandomMove(x) == m
  {
    var x: RandomValue := match m
      case Rock => 0.0
      case Paper => 0.5
      case Scissors => 0.9;
    assert RandomMove(x) == m;
  }

  /** `Math.round(wins / totalGames * 100)`, or 0 when no game was played.
      Math.round rounds halves upwards, so the result is the floor of
      100 * wins / totalGames + 1/2, computed here in exact integers. */
  function CalculateWinRate(wins: int, totalGames: int): (r: int)
    ensures totalGames == 0 ==> r == 0
    ensures totalGames > 0 ==>
      2 * totalGames * r - totalGames <= 200 * wins < 2 * totalGames * r + totalGames
    ensures totalGames < 0 ==>
      2 * totalGames * r - totalGames >= 200 * wins > 2 * totalGames * r + totalGames
  {
    if totalGames == 0 then 0
    else if totalGames > 0 then (200 * wins + totalGames) / (2 * totalGames)
    else (-(200 * wins + totalGames)) / (-2 * totalGames)
  }

  /** A proper ratio of wins gives a percentage between 0 and 100. */
  lemma {:induction false} WinRateBounds(wins: int, totalGames: int)
    requires 0 < totalGames && 0 <= wins <= totalGames
    ensures 0 <= CalculateWinRate(wins, totalGames) <= 100
  {
    var r := CalculateWinRate(wins, totalGames);
    assert totalGames * (2 * r + 1) > 0;
    assert totalGames * (2 * r - 1) <= 200 * totalGames;
    assert totalGames * (2 * r - 201) <= 0;
  }

  /** The percentages the tests expect. */
  lemma WinRateExamples()
    ensures CalculateWinRate(0, 0) == 0
    ensures CalculateWinRate(10, 0) == 0
    ensures CalculateWinRate(5, 10) == 50
    ensures CalculateWinRate(3, 10) == 30
    ensures CalculateWinRate(7, 10) == 70
    ensures CalculateWinRate(10, 10) == 100
    ensures CalculateWinRate(1, 3) == 33
    ensures CalculateWinRate(2, 3) == 67
  {
  }
}
