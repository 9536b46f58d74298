/** Best-of-3 and best-of-5 matches against a computer opponent
    (src/services/tournament/TournamentService.ts). */
module TournamentService {
  import opened Types
  import opened Decimal
  import Encoding
  import GameLogic
  import AIFactory

  /** Wins needed to take the match. */
  function MaxWins(f: TournamentType): nat
  {
    if f == Bo3 then 2 else 3
  }

  /** The N of best-of-N. */
  function MaxRounds(f: TournamentType): nat
  {
    if f == Bo3 then 3 else 5
  }

  /** Rounds of `rounds` with result `res`. */
  function CountResult(rounds: seq<GameHistory>, res: GameResult): nat
  {
    if |rounds| == 0 then 0
    else CountResult(rounds[..|rounds| - 1], res) + (if rounds[|rounds| - 1].result == res then 1 else 0)
  }

  lemma CountResultAppend(rounds: seq<GameHistory>, g: GameHistory, res: GameResult)
    ensures CountResult(rounds + [g], res) == CountResult(rounds, res) + (if g.result == res then 1 else 0)
  {
    assert (rounds + [g])[..|rounds|] == rounds;
  }

  /** The match invariants: each counter counts its rounds, a winner is named
      exactly when the match is complete, the winner holds exactly the
      required wins, and an open match has neither side at the threshold. */
  predicate Valid(t: Tournament)
  {
    && t.playerWins == CountResult(t.rounds, Win)
    && t.aiWins == CountResult(t.rounds, Lose)
    && (t.isComplete <==> t.winner.Some?)
    && (!t.isComplete ==> t.playerWins < MaxWins(t.format) && t.aiWins < MaxWins(t.format))
    && (t.winner == Some(Player) ==> t.playerWins == MaxWins(t.format) && t.aiWins < MaxWins(t.format))
    && (t.winner == Some(Ai) ==> t.aiWins == MaxWins(t.format) && t.playerWins < MaxWins(t.format))
  }

  /** A new, empty match of the given format. */
  function CreateTournament(f: TournamentType, id: string): (t: Tournament)
    ensures t.id == id && t.format == f
    ensures t.rounds == [] && t.playerWins == 0 && t.aiWins == 0
    ensures !t.isComplete && t.winner == None
    ensures Valid(t)
  {
    Tournament(id, f, [], 0, 0, false, None)
  }


  /** One more round: it is appended, its side's counter goes up, and the
      first side to reach the threshold (the player checked first) completes
      the match. There is no guard against an already complete match here. */
  function PlayRound(
    t: Tournament, playerMove: Move, aiType: AIType, gameHistory: seq<GameHistory>,
    x: RandomValue, roundId: string, date: int): (r: Tournament)
    ensures r.id == t.id && r.format == t.format
    ensures |r.rounds| == |t.rounds| + 1 && r.rounds[..|t.rounds|] == t.rounds
    ensures var g := r.rounds[|t.rounds|];
      && g.playerMove == playerMove
      && g.aiMove == AIFactory.FreshMove(aiType, gameHistory, x)
      && g.result == GameLogic.DetermineWinner(playerMove, g.aiMove)
      && g.aiType == aiType && g.mode == TournamentMode
      && g.id == roundId && g.date == date
      && r.playerWins == t.playerWins + (if g.result == Win then 1 else 0)
      && r.aiWins == t.aiWins + (if g.result == Lose then 1 else 0)
    ensures r.playerWins >= MaxWins(t.format) ==> r.isComplete && r.winner == Some(Player)
    ensures r.playerWins < MaxWins(t.format) <= r.aiWins ==> r.isComplete && r.winner == Some(Ai)
    ensures r.playerWins < MaxWins(t.format) && r.aiWins < MaxWins(t.format) ==>
      r.isComplete == t.isComplete && r.winner == t.winner
  {
    var aiMove := AIFactory.FreshMove(aiType, gameHistory, x);
    var result := GameLogic.DetermineWinner(playerMove, aiMove);
    var round := GameHistory(roundId, date, playerMove, aiMove, result, aiType, TournamentMode);
    var counted := t.(
      rounds := t.rounds + [round],
      playerWins := if result == Win then t.playerWins + 1 else t.playerWins,
      aiWins := if result == Lose then t.aiWins + 1 else t.aiWins);
    var maxWins := MaxWins(t.format);
    if counted.playerWins >= maxWins then counted.(isComplete := true, winner := Some(Player))
    else if counted.aiWins >= maxWins then counted.(isComplete := true, winner := Some(Ai))
    else counted
  }

  /** Playing a round of an open match keeps the match invariants. */
  lemma PlayRoundPreservesValid(
    t: Tournament, playerMove: Move, aiType: AIType, gameHistory: seq<GameHistory>,
    x: RandomValue, roundId: string, date: int)
    requires Valid(t) && !t.isComplete
    ensures Valid(PlayRound(t, playerMove, aiType, gameHistory, x, roundId, date))
  {
    var r := PlayRound(t, playerMove, aiType, gameHistory, x, roundId, date);
    var g := r.rounds[|t.rounds|];
    assert r.rounds == t.rounds + [g];
    CountResultAppend(t.rounds, g, Win);
    CountResultAppend(t.rounds, g, Lose);
  }

  /** A valid match never holds more decisive rounds than its N: draws aside,
      best-of-3 stops after 3 and best-of-5 after 5. */
  lemma DecisiveRoundsBounded(t: Tournament)
    requires Valid(t)
    ensures CountResult(t.rounds, Win) + CountResult(t.rounds, Lose) <= MaxRounds(t.format)
  {
    var w := MaxWins(t.format);
    assert MaxRounds(t.format) == 2 * w - 1;
    match t.winner
    case None =>
      assert t.playerWins <= w - 1 && t.aiWins <= w - 1;
    case Some(Player) =>
      assert t.playerWins == w && t.aiWins <= w - 1;
    case Some(Ai) =>
      assert t.aiWins == w && t.playerWins <= w - 1;
  }

  /** The derived view shown while a match is played. */
  datatype Status = Status(
    currentRound: nat,
    totalRounds: nat,
    needsToWin: nat,
    playerWins: nat,
    aiWins: nat,
    isComplete: bool,
    winner: Option<Winner>)

  function GetTournamentStatus(t: Tournament): (s: Status)
    ensures s.currentRound == |t.rounds| + 1
    ensures s.needsToWin == MaxWins(t.format)
    ensures s.totalRounds == 2 * s.needsToWin - 1
    ensures s.playerWins == t.playerWins && s.aiWins == t.aiWins
    ensures s.isComplete == t.isComplete && s.winner == t.winner
  {
    Status(|t.rounds| + 1, MaxRounds(t.format), MaxWins(t.format),
           t.playerWins, t.aiWins, t.isComplete, t.winner)
  }

  /** For a valid match the status never shows more decisive rounds than
      rounds in the format, and shows an open match below the threshold. */
  lemma StatusOfValid(t: Tournament)
    requires Valid(t)
    ensures var s := GetTournamentStatus(t);
      && s.playerWins + s.aiWins <= s.totalRounds
      && (!s.isComplete ==> s.playerWins < s.needsToWin && s.aiWins < s.needsToWin)
      && (s.isComplete <==> s.winner.Some?)
  {
    DecisiveRoundsBounded(t);
  }

  /** `${playerWins} - ${aiWins}`: the leading run of digits reads back as
      the player's wins, then comes " - ", and the rest reads back as the
      opponent's wins; neither numeral has a leading zero. */
  function GetTournamentScore(t: Tournament): (s: string)
    ensures var k := DigitPrefixLength(s);
      && 0 < k && k + 3 < |s|
      && AllDigits(s[..k]) && ParseNat(s[..k]) == t.playerWins
      && s[k..k + 3] == " - "
      && AllDigits(s[k + 3..]) && ParseNat(s[k + 3..]) == t.aiWins
      && (s[0] != '0' || k == 1)
      && (s[k + 3] != '0' || |s| == k + 4)
  {
    var p, a := NatToString(t.playerWins), NatToString(t.aiWins);
    DigitPrefixOfNumeral(p, " - " + a);
    ParseNatToString(t.playerWins);
    ParseNatToString(t.aiWins);
    assert p + " - " + a == p + (" - " + a);
    assert (p + " - " + a)[..|p|] == p;
    assert (p + " - " + a)[|p| + 3..] == a;
    p + " - " + a
  }

  /** Length of the run of digits at the start of `s`. */
  function DigitPrefixLength(s: string): (k: nat)
    ensures k <= |s|
  {
    if |s| > 0 && IsDigit(s[0]) then 1 + DigitPrefixLength(s[1..]) else 0
  }

  lemma {:induction false} DigitPrefixOfNumeral(d: string, rest: string)
    requires AllDigits(d)
    requires |rest| > 0 && !IsDigit(rest[0])
    ensures DigitPrefixLength(d + rest) == |d|
  {
    if |d| > 0 {
      assert (d + rest)[1..] == d[1..] + rest;
      DigitPrefixOfNumeral(d[1..], rest);
    } else {
      assert d + rest == rest;
    }
  }

  /** The score text determines both counters. */
  lemma ScoreDeterminesCounters(t1: Tournament, t2: Tournament)
    ensures GetTournamentScore(t1) == GetTournamentScore(t2) ==>
      t1.playerWins == t2.playerWins && t1.aiWins == t2.aiWins
  {
  }

  /** Play may go on while the match is not complete. */
  function CanContinue(t: Tournament): (b: bool)
    ensures Valid(t) ==> (b <==> t.winner == None)
  {
    !t.isComplete
  }

  /** The ASCII runs of the two announcements. */
  const PlayerWonWords: string := " Vous avez remport"

  const AiWonWords: string := " L'IA a remport"

  const AnnouncementTail: string := " le tournoi!"

  /** The announcements as the source file spells them: each begins with
      "\U{11F}\U{178}" and writes "\U{C3}\U{A9}" where "\U{E9}" is meant (see
      `AnnouncementsMisDecoded`). */
  const PlayerWonText: string :=
    "\U{11F}\U{178}\U{2020}" + PlayerWonWords + "\U{C3}\U{A9}" + AnnouncementTail

  const AiWonText: string :=
    "\U{11F}\U{178}\U{A4}\U{2013}" + AiWonWords + "\U{C3}\U{A9}" + AnnouncementTail

  /** The announcements as meant: a trophy or a robot, then the sentence. */
  const PlayerWonAnnouncement: string := "\U{1F3C6}" + PlayerWonWords + "\U{E9}" + AnnouncementTail

  const AiWonAnnouncement: string := "\U{1F916}" + AiWonWords + "\U{E9}" + AnnouncementTail

  /** The announcement: empty unless the match is complete with a winner. */
  function GetWinnerText(t: Tournament): (s: string)
    ensures s == "" <==> !(t.isComplete && t.winner.Some?)
    ensures t.isComplete && t.winner == Some(Player) ==> s == PlayerWonText
    ensures t.isComplete && t.winner == Some(Ai) ==> s == AiWonText
  {
    if !t.isComplete || t.winner.None? then ""
    else if t.winner.value == Player then PlayerWonText
    else AiWonText
  }

  /** The announcement with the meant texts. */
  function WinnerAnnouncement(t: Tournament): (s: string)
    ensures s == "" <==> !(t.isComplete && t.winner.Some?)
    ensures t.isComplete && t.winner == Some(Player) ==> s == PlayerWonAnnouncement
    ensures t.isComplete && t.winner == Some(Ai) ==> s == AiWonAnnouncement
  {
    if !t.isComplete || t.winner.None? then ""
    else if t.winner.value == Player then PlayerWonAnnouncement
    else AiWonAnnouncement
  }

  /** The source's texts are the meant ones with their UTF-8 bytes read back
      as Windows-1254, the trophy's unassigned byte 0x8F lost on the way. */
  lemma AnnouncementsMisDecoded()
    ensures Encoding.MisDecode(PlayerWonAnnouncement) == PlayerWonText
    ensures Encoding.MisDecode(AiWonAnnouncement) == AiWonText
  {
    PlayerWonMisDecoded();
    AiWonMisDecoded();
  }

  lemma PlayerWonMisDecoded()
    ensures Encoding.MisDecode(PlayerWonAnnouncement) == PlayerWonText
  {
    AsciiRuns();
    Encoding.TrophyMisDecoded();
    Encoding.MisDecodeSentence("\U{1F3C6}", PlayerWonWords, AnnouncementTail);
  }

  lemma AiWonMisDecoded()
    ensures Encoding.MisDecode(AiWonAnnouncement) == AiWonText
  {
    AsciiRuns();
    Encoding.RobotMisDecoded();
    Encoding.MisDecodeSentence("\U{1F916}", AiWonWords, AnnouncementTail);
  }

  lemma AsciiRuns()
    ensures Encoding.IsAscii(PlayerWonWords)
    ensures Encoding.IsAscii(AiWonWords)
    ensures Encoding.IsAscii(AnnouncementTail)
  {
  }

  /** Every announcement the source makes is the meant one mis-decoded, and
      differs from it. */
  lemma WinnerTextIsMisDecoded(t: Tournament)
    ensures GetWinnerText(t) == Encoding.MisDecode(WinnerAnnouncement(t))
    ensures GetWinnerText(t) != "" ==> GetWinnerText(t) != WinnerAnnouncement(t)
  {
    if !t.isComplete || t.winner.None? {
      assert Encoding.MisDecode("") == "";
    } else if t.winner.value == Player {
      PlayerWonMisDecoded();
      assert GetWinnerText(t)[0] != WinnerAnnouncement(t)[0];
    } else {
      AiWonMisDecoded();
      assert GetWinnerText(t)[0] != WinnerAnnouncement(t)[0];
    }
  }

  /** Best of 3, the random opponent's draw falling on scissors and the player
      always on rock: two wins end the match after two rounds. */
  lemma TwoWinsCompleteBestOfThree()
    ensures var t0 := CreateTournament(Bo3, "t");
      var t1 := PlayRound(t0, Rock, Random, [], 0.9, "r1", 1);
      var t2 := PlayRound(t1, Rock, Random, [], 0.9, "r2", 2);
      && t1.playerWins == 1 && !t1.isComplete
      && t2.playerWins == 2 && t2.isComplete && t2.winner == Some(Player)
      && |t2.rounds| == 2
  {
    assert AIFactory.FreshMove(Random, [], 0.9) == Scissors;
  }

  /** Draws are not capped: four drawn rounds leave a best-of-3 match valid,
      open, and longer than three rounds. */
  lemma DrawsAreNotCapped()
    ensures var t0 := CreateTournament(Bo3, "t");
      var t1 := PlayRound(t0, Rock, Random, [], 0.0, "r1", 1);
      var t2 := PlayRound(t1, Rock, Random, [], 0.0, "r2", 2);
      var t3 := PlayRound(t2, Rock, Random, [], 0.0, "r3", 3);
      var t4 := PlayRound(t3, Rock, Random, [], 0.0, "r4", 4);
      && Valid(t4) && !t4.isComplete && |t4.rounds| == 4 > MaxRounds(Bo3)
  {
    assert AIFactory.FreshMove(Random, [], 0.0) == Rock;
    var t0 := CreateTournament(Bo3, "t");
    var t1 := PlayRound(t0, Rock, Random, [], 0.0, "r1", 1);
    PlayRoundPreservesValid(t0, Rock, Random, [], 0.0, "r1", 1);
    var t2 := PlayRound(t1, Rock, Random, [], 0.0, "r2", 2);
    PlayRoundPreservesValid(t1, Rock, Random, [], 0.0, "r2", 2);
    var t3 := PlayRound(t2, Rock, Random, [], 0.0, "r3", 3);
    PlayRoundPreservesValid(t2, Rock, Random, [], 0.0, "r3", 3);
    PlayRoundPreservesValid(t3, Rock, Random, [], 0.0, "r4", 4);
  }
}
