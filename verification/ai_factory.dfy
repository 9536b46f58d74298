/** The closed family of opponents and the factory that builds one from a
    strategy tag (src/services/ai/AIFactory.ts). */
module AIFactory {
  import opened Types
  import opened Frequency
  import GameLogic
  import RandomAI
  import WeightedAI
  import AdaptiveAI

  /** An opponent engine of one of the three kinds, with its own state. */
  datatype Engine =
    | RandomEngine(random: RandomAI.State)
    | WeightedEngine(weighted: WeightedAI.State)
    | AdaptiveEngine(adaptive: AdaptiveAI.State)

  /** The engine's `type` tag. */
  function Kind(e: Engine): AIType
  {
    match e
    case RandomEngine(_) => RandomAI.Kind
    case WeightedEngine(_) => WeightedAI.Kind
    case AdaptiveEngine(_) => AdaptiveAI.Kind
  }

  /** `getMove`: the engine's move for a history, and the engine afterwards. */
  function GetMove(e: Engine, h: seq<GameHistory>, x: RandomValue): (r: (Move, Engine))
    ensures Kind(r.1) == Kind(e)
  {
    match e
    case RandomEngine(s) =>
      var (m, s') := RandomAI.GetMove(s, h, x); (m, RandomEngine(s'))
    case WeightedEngine(s) =>
      var (m, s') := WeightedAI.GetMove(s, h, x); (m, WeightedEngine(s'))
    case AdaptiveEngine(s) =>
      var (m, s') := AdaptiveAI.GetMove(s, h, x); (m, AdaptiveEngine(s'))
  }

  function Reset(e: Engine): (r: Engine)
    ensures Kind(r) == Kind(e)
  {
    match e
    case RandomEngine(s) => RandomEngine(RandomAI.Reset(s))
    case WeightedEngine(s) => WeightedEngine(WeightedAI.Reset(s))
    case AdaptiveEngine(s) => AdaptiveEngine(AdaptiveAI.Reset(s))
  }

  /** A new engine for a tag: the three known tags give their own kind, any
      other string gives a random engine. A new engine is in its reset state. */
  function Create(tag: string): (e: Engine)
    ensures forall t :: tag == TagName(t) ==> Kind(e) == t
    ensures (forall t :: tag != TagName(t)) ==> e.RandomEngine?
    ensures Reset(e) == e
  {
    if tag == "random" then RandomEngine(RandomAI.State)
    else if tag == "weighted" then
      assert tag == TagName(Weighted);
      WeightedEngine(WeightedAI.Initial)
    else if tag == "adaptive" then
      assert tag == TagName(Adaptive);
      AdaptiveEngine(AdaptiveAI.Initial)
    else RandomEngine(RandomAI.State)
  }

  /** The move of a new engine for the strategy, asked once about `h`: what
      both the game and the tournament do on every round. */
  function FreshMove(t: AIType, h: seq<GameHistory>, x: RandomValue): (m: Move)
    ensures t == Random ==> m == GameLogic.RandomMove(x)
    ensures t == Weighted && |h| == 0 ==> m == GameLogic.RandomMove(x)
    ensures t == Weighted && |h| > 0 ==>
      GameLogic.DetermineWinner(m, MostFrequent(WeightedAI.UpdateMoveCounts(h))) == Win
    ensures t == Adaptive && |h| < AdaptiveAI.PatternLength ==> m == GameLogic.RandomMove(x)
    ensures t == Adaptive && |h| >= AdaptiveAI.PatternLength ==>
      GameLogic.DetermineWinner(m, AdaptiveAI.PredictNextMove(h, AdaptiveAI.Pattern(h), x)) == Win
  {
    GetMove(Create(TagName(t)), h, x).0
  }

  /** A new weighted engine answers as the weighted engine from its
      initial state. */
  lemma FreshWeightedMove(h: seq<GameHistory>, x: RandomValue)
    ensures FreshMove(Weighted, h, x) == WeightedAI.GetMove(WeightedAI.Initial, h, x).0
  {
    assert Create(TagName(Weighted)) == WeightedEngine(WeightedAI.Initial);
  }

  /** Resetting twice is resetting once. */
  lemma ResetIdempotent(e: Engine)
    ensures Reset(Reset(e)) == Reset(e)
  {
  }

  /** The engine for a well-typed tag always has that tag. */
  lemma CreateKnownTag(t: AIType)
    ensures Kind(Create(TagName(t))) == t
  {
  }

  /** Unknown tags fall back to the random engine and never fail. */
  lemma CreateUnknownTag()
    ensures Create("unknown").RandomEngine?
    ensures Kind(Create("unknown")) == Random
  {
  }

  /** On an empty history the random and weighted engines both play the draw;
      so does the adaptive engine on any history shorter than three. */
  lemma ShortHistoryFallsBack(e: Engine, h: seq<GameHistory>, x: RandomValue)
    requires e.RandomEngine? || (e.WeightedEngine? && |h| == 0) || (e.AdaptiveEngine? && |h| < AdaptiveAI.PatternLength)
    ensures GetMove(e, h, x).0 == GameLogic.RandomMove(x)
  {
  }

  /** Resetting an engine never changes the next move it gives. */
  lemma ResetKeepsMoves(e: Engine, h: seq<GameHistory>, x: RandomValue)
    ensures GetMove(Reset(e), h, x).0 == GetMove(e, h, x).0
  {
    match e
    case RandomEngine(_) =>
    case WeightedEngine(s) => WeightedAI.GetMoveIgnoresPreviousCalls(WeightedAI.Reset(s), s, h, x);
    case AdaptiveEngine(s) => AdaptiveAI.ResetKeepsMoves(s, h, x);
  }
}
