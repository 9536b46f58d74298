/** The opponent that plays uniformly at random (src/services/ai/RandomAI.ts). */
module RandomAI {
  import opened Types
  import GameLogic

  /** The random opponent keeps no state of its own. */
  datatype State = State

  const Kind: AIType := Random

  /** The move is the draw of the random source; the history is not read. */
  function GetMove(s: State, history: seq<GameHistory>, x: RandomValue): (r: (Move, State))
    ensures r.0 == GameLogic.RandomMove(x)
    ensures r.1 == s
  {
    (GameLogic.RandomMove(x), s)
  }

  /** There is nothing to clear. */
  function Reset(s: State): State
  {
    s
  }

  /** Two histories, the same draw: the same move. */
  lemma GetMoveIgnoresHistory(s: State, h1: seq<GameHistory>, h2: seq<GameHistory>, x: RandomValue)
    ensures GetMove(s, h1, x) == GetMove(s, h2, x)
  {
  }
}
