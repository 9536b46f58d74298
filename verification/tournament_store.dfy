/** The tournament store: the match being played and the archive of finished
    or abandoned matches (src/state/tournamentStore.ts). The browser storage
    key the store writes to is modelled by the `saved` field: `None` until
    something is written there. */
module TournamentStore {
  import opened Types
  import opened Lists
  import TournamentService

  /** Archived matches kept. */
  const MaxArchived: nat := 100

  datatype State = State(
    currentTournament: Option<Tournament>,
    tournaments: seq<Tournament>,
    saved: Option<seq<Tournament>>)

  /** The store as created: no current match and an empty archive, then
      `loadTournaments` reads the archive from storage, which stays as it
      was (an empty archive when nothing is stored). */
  function Init(stored: Option<seq<Tournament>>): (s: State)
    ensures s.currentTournament == None
    ensures stored.Some? ==> s.tournaments == stored.value
    ensures stored.None? ==> s.tournaments == []
    ensures s.saved == stored
  {
    LoadTournaments(State(None, [], stored))
  }

  /** `[t, ...tournaments].slice(0, 100)`. */
  function Archive(t: Tournament, tournaments: seq<Tournament>): (r: seq<Tournament>)
    ensures 0 < |r| <= MaxArchived
    ensures |r| == Min(MaxArchived, |tournaments| + 1)
    ensures r[0] == t
    ensures forall i :: 1 <= i < |r| ==> r[i] == tournaments[i - 1]
  {
    PrependCapped(t, tournaments, MaxArchived)
  }

  /** A new empty match replaces the current one; the archive is untouched. */
  function StartTournament(s: State, f: TournamentType, id: string): (r: State)
    ensures r.currentTournament == Some(TournamentService.CreateTournament(f, id))
    ensures r.tournaments == s.tournaments && r.saved == s.saved
  {
    s.(currentTournament := Some(TournamentService.CreateTournament(f, id)))
  }

  /** No current match, or a complete one: nothing happens. Otherwise the
      round is played; a round that completes the match archives it. */
  function PlayTournamentRound(
    s: State, playerMove: Move, aiType: AIType, gameHistory: seq<GameHistory>,
    x: RandomValue, roundId: string, date: int): (r: State)
    ensures s.currentTournament.None? || s.currentTournament.value.isComplete ==> r == s
    ensures s.currentTournament.Some? && !s.currentTournament.value.isComplete ==>
      var t := TournamentService.PlayRound(
        s.currentTournament.value, playerMove, aiType, gameHistory, x, roundId, date);
      && r.currentTournament == Some(t)
      && (t.isComplete ==> r.tournaments == Archive(t, s.tournaments) && r.saved == Some(r.tournaments))
      && (!t.isComplete ==> r.tournaments == s.tournaments && r.saved == s.saved)
  {
    match s.currentTournament
    case None => s
    case Some(current) =>
      if current.isComplete then s
      else
        var t := TournamentService.PlayRound(current, playerMove, aiType, gameHistory, x, roundId, date);
        if t.isComplete then
          var archived := Archive(t, s.tournaments);
          s.(currentTournament := Some(t), tournaments := archived, saved := Some(archived))
        else s.(currentTournament := Some(t))
  }

  /** `endTournament`: the current match is archived whether complete or
      not, and the store is left without a current match. A complete match
      was already archived by the round that completed it. */
  function EndTournament(s: State): (r: State)
    ensures r.currentTournament == None
    ensures s.currentTournament.Some? ==>
      r.tournaments == Archive(s.currentTournament.value, s.tournaments) && r.saved == Some(r.tournaments)
    ensures s.currentTournament.None? ==> r.tournaments == s.tournaments && r.saved == s.saved
  {
    match s.currentTournament
    case None => s.(currentTournament := None)
    case Some(t) =>
      var archived := Archive(t, s.tournaments);
      State(None, archived, Some(archived))
  }

  /** `endTournament` archiving only an abandoned match: a complete match is
      already in the archive, so closing it only clears the current match. */
  function EndTournamentOnce(s: State): (r: State)
    ensures r.currentTournament == None
    ensures s.currentTournament.Some? && !s.currentTournament.value.isComplete ==>
      r.tournaments == Archive(s.currentTournament.value, s.tournaments) && r.saved == Some(r.tournaments)
    ensures s.currentTournament.None? || s.currentTournament.value.isComplete ==>
      r.tournaments == s.tournaments && r.saved == s.saved
  {
    match s.currentTournament
    case Some(t) =>
      if t.isComplete then s.(currentTournament := None)
      else
        var archived := Archive(t, s.tournaments);
        State(None, archived, Some(archived))
    case None => s
  }

  function LoadTournaments(s: State): (r: State)
    ensures s.saved.Some? ==> r.tournaments == s.saved.value
    ensures s.saved.None? ==> r.tournaments == []
    ensures r.currentTournament == s.currentTournament && r.saved == s.saved
  {
    s.(tournaments := s.saved.GetOr([]))
  }

  function SaveTournaments(s: State): (r: State)
    ensures r.saved == Some(s.tournaments)
    ensures r.currentTournament == s.currentTournament && r.tournaments == s.tournaments
  {
    s.(saved := Some(s.tournaments))
  }

  function ClearTournaments(s: State): (r: State)
    ensures r.tournaments == [] && r.saved == Some([])
    ensures r.currentTournament == s.currentTournament
  {
    s.(tournaments := [], saved := Some([]))
  }

  /** The store invariant: the current match and every archived match keep
      the match invariants, the archive is within its cap, and reading
      storage back gives exactly the in-memory archive. */
  predicate Invariant(s: State)
  {
    && (s.currentTournament.Some? ==> TournamentService.Valid(s.currentTournament.value))
    && (forall i :: 0 <= i < |s.tournaments| ==> TournamentService.Valid(s.tournaments[i]))
    && |s.tournaments| <= MaxArchived
    && s.saved.GetOr([]) == s.tournaments
  }

  lemma InitInvariant(stored: Option<seq<Tournament>>)
    requires stored.Some? ==> |stored.value| <= MaxArchived
    requires stored.Some? ==> forall i :: 0 <= i < |stored.value| ==> TournamentService.Valid(stored.value[i])
    ensures Invariant(Init(stored))
  {
  }

  lemma StartTournamentInvariant(s: State, f: TournamentType, id: string)
    requires Invariant(s)
    ensures Invariant(StartTournament(s, f, id))
  {
  }

  /** The guard in the store is what keeps the match invariants: rounds are
      only played on an open match. */
  lemma PlayTournamentRoundInvariant(
    s: State, playerMove: Move, aiType: AIType, gameHistory: seq<GameHistory>,
    x: RandomValue, roundId: string, date: int)
    requires Invariant(s)
    ensures Invariant(PlayTournamentRound(s, playerMove, aiType, gameHistory, x, roundId, date))
  {
    if s.currentTournament.Some? && !s.currentTournament.value.isComplete {
      TournamentService.PlayRoundPreservesValid(
        s.currentTournament.value, playerMove, aiType, gameHistory, x, roundId, date);
    }
  }

  lemma EndTournamentInvariant(s: State)
    requires Invariant(s)
    ensures Invariant(EndTournamentOnce(s))
    ensures Invariant(EndTournament(s))
  {
  }

  lemma ClearTournamentsInvariant(s: State)
    requires Invariant(s)
    ensures Invariant(ClearTournaments(s))
  {
  }

  /** Under the store invariant the current match never holds more decisive
      rounds than its format allows. */
  lemma CurrentDecisiveRoundsBounded(s: State)
    requires Invariant(s) && s.currentTournament.Some?
    ensures var t := s.currentTournament.value;
      TournamentService.CountResult(t.rounds, Win) + TournamentService.CountResult(t.rounds, Lose)
        <= TournamentService.MaxRounds(t.format)
  {
    TournamentService.DecisiveRoundsBounded(s.currentTournament.value);
  }

  /** After the two winning rounds of a best-of-3 match a third request
      changes nothing: no third round is recorded. */
  lemma NoRoundAfterCompletion(s: State)
    requires s.currentTournament == None && s.tournaments == []
    ensures var s1 := StartTournament(s, Bo3, "t");
      var s2 := PlayTournamentRound(s1, Rock, Random, [], 0.9, "r1", 1);
      var s3 := PlayTournamentRound(s2, Rock, Random, [], 0.9, "r2", 2);
      var s4 := PlayTournamentRound(s3, Rock, Random, [], 0.9, "r3", 3);
      && s3.currentTournament.Some? && s3.currentTournament.value.isComplete
      && |s3.currentTournament.value.rounds| == 2
      && s4 == s3
      && |s3.tournaments| == 1 && s3.tournaments[0] == s3.currentTournament.value
  {
    TournamentService.TwoWinsCompleteBestOfThree();
  }

  /** Closing a complete match that sits at the head of the archive (where
      the round that completed it put it) archives it a second time, as long
      as the archive is below its cap. */
  lemma EndAfterCompletionDuplicates(s: State)
    requires s.currentTournament.Some? && s.currentTournament.value.isComplete
    requires 0 < |s.tournaments| < MaxArchived && s.tournaments[0] == s.currentTournament.value
    ensures var r := EndTournament(s);
      |r.tournaments| == |s.tournaments| + 1
      && r.tournaments[0] == r.tournaments[1] == s.currentTournament.value
  {
  }

  /** Archiving only abandoned matches, closing a complete match leaves the
      archive and storage as they were. */
  lemma EndAfterCompletionKeepsArchive(s: State)
    requires s.currentTournament.Some? && s.currentTournament.value.isComplete
    ensures EndTournamentOnce(s) == s.(currentTournament := None)
  {
  }

  /** A best-of-3 match won in two rounds and then closed: `EndTournament`
      leaves the match in the archive twice, `EndTournamentOnce` once. */
  lemma PlayedMatchArchivedOnce(s: State)
    requires s.currentTournament == None && s.tournaments == []
    ensures var s1 := StartTournament(s, Bo3, "t");
      var s2 := PlayTournamentRound(s1, Rock, Random, [], 0.9, "r1", 1);
      var s3 := PlayTournamentRound(s2, Rock, Random, [], 0.9, "r2", 2);
      var t := s3.currentTournament.value;
      && EndTournament(s3).tournaments == [t, t]
      && EndTournamentOnce(s3).tournaments == [t]
  {
    NoRoundAfterCompletion(s);
  }
}
