/** The value types of the game: moves, results, strategy tags, history
    entries, tournaments, statistics and settings (src/types/index.ts).
    Identifiers and timestamps are opaque values supplied by the caller. */
module Types {

  /** Also the contents of a browser-storage key: `None` while nothing has
      been written under it. */
  datatype Option<T> = None | Some(value: T)
  {
    /** The value, or `d` when there is none: how every loader reads a key. */
    function GetOr(d: T): (r: T)
      ensures Some? ==> r == value
      ensures None? ==> r == d
    {
      match this
      case Some(v) => v
      case None => d
    }
  }

  /** One of the three hand shapes. */
  datatype Move = Rock | Paper | Scissors

  /** Outcome of a round, always from the human player's point of view. */
  datatype GameResult = Win | Lose | Draw

  /** Strategy tag of a computer opponent. */
  datatype AIType = Random | Weighted | Adaptive

  datatype GameMode = SingleMode | TournamentMode

  datatype TournamentType = Bo3 | Bo5

  datatype Winner = Player | Ai

  /** A value of the platform's random source: a real in [0, 1). */
  type RandomValue = r: real | 0.0 <= r < 1.0

  /** The three moves in the key order of a move-indexed record. */
  const AllMoves: seq<Move> := [Rock, Paper, Scissors]

  /** Position of a move in the key order rock < paper < scissors. */
  function Rank(m: Move): (k: nat)
    ensures k < |AllMoves| && AllMoves[k] == m
  {
    match m
    case Rock => 0
    case Paper => 1
    case Scissors => 2
  }

  /** The name a move has as a record key and inside a joined pattern. */
  function MoveName(m: Move): string
  {
    match m
    case Rock => "rock"
    case Paper => "paper"
    case Scissors => "scissors"
  }

  /** The string form of a strategy tag. */
  function TagName(t: AIType): string
  {
    match t
    case Random => "random"
    case Weighted => "weighted"
    case Adaptive => "adaptive"
  }

  /** A record of one counter per move. */
  datatype Counts = Counts(rock: nat, paper: nat, scissors: nat)
  {
    function Get(m: Move): nat
    {
      match m
      case Rock => rock
      case Paper => paper
      case Scissors => scissors
    }

    /** The record with the counter of `m` raised by one. */
    function Inc(m: Move): (c: Counts)
      ensures c.Get(m) == Get(m) + 1
      ensures forall x :: x != m ==> c.Get(x) == Get(x)
      ensures c.Total() == Total() + 1
    {
      match m
      case Rock => this.(rock := rock + 1)
      case Paper => this.(paper := paper + 1)
      case Scissors => this.(scissors := scissors + 1)
    }

    function Total(): nat
    {
      rock + paper + scissors
    }
  }

  const ZeroCounts: Counts := Counts(0, 0, 0)

  /** One played round as kept in a history or a tournament. */
  datatype GameHistory = GameHistory(
    id: string,
    date: int,
    playerMove: Move,
    aiMove: Move,
    result: GameResult,
    aiType: AIType,
    mode: GameMode)

  /** The player moves of a history, entry by entry. */
  function PlayerMoves(h: seq<GameHistory>): (ms: seq<Move>)
    ensures |ms| == |h|
    ensures forall i :: 0 <= i < |h| ==> ms[i] == h[i].playerMove
  {
    seq(|h|, i requires 0 <= i < |h| => h[i].playerMove)
  }

  /** A history entry with the given player move and fixed other fields, for
      building example histories. */
  function Entry(m: Move): GameHistory
  {
    GameHistory("", 0, m, Rock, Draw, Random, SingleMode)
  }

  /** A best-of-N match; `format` is the source's `type` field. */
  datatype Tournament = Tournament(
    id: string,
    format: TournamentType,
    rounds: seq<GameHistory>,
    playerWins: nat,
    aiWins: nat,
    isComplete: bool,
    winner: Option<Winner>)

  datatype Statistics = Statistics(
    totalGames: nat,
    wins: nat,
    losses: nat,
    draws: nat,
    winStreak: nat,
    currentStreak: nat,
    favoriteMove: Option<Move>,
    moveCounts: Counts)

  datatype Theme = Light | Dark

  datatype Language = Fr | En

  datatype AnimationSpeed = Slow | Normal | Fast

  datatype Settings = Settings(
    theme: Theme,
    language: Language,
    animationSpeed: AnimationSpeed,
    aiType: AIType)
}
