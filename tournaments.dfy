/** The `useTournaments` hook: the round resolver, the standing calculator,
    and the tournament list with its embedded rounds, kept in step with the
    persisted `tournaments` snapshot. */
module Tournaments {
  import opened Wrappers
  import opened Lists
  import opened Types
  import opened Rates

  // ---------- round resolver ----------

  /** `calculateRoundResult`: a round's result from its per-game tally. Every
      tally is accepted; tallies the rules do not cover fall back to a tie. */
  function CalculateRoundResult(wins: int, losses: int, ties: int, format: TournamentFormat): (r: RoundResult)
    ensures r == Win || r == Lose || r == Tie
  {
    match format
    case Bo1 =>
      if wins == 1 then Win
      else if losses == 1 then Lose
      else if ties == 1 then Tie
      else Tie
    case Bo3 =>
      var totalGames := wins + losses + ties;
      if totalGames == 1 && wins == 1 then Win
      else if totalGames == 1 && losses == 1 then Lose
      else if totalGames == 1 && ties == 1 then Tie
      else if wins >= 2 then Win
      else if losses >= 2 then Lose
      else if wins == 1 && losses == 1 then Tie
      else if wins == 1 && ties == 1 then Win
      else if losses == 1 && ties == 1 then Lose
      else if wins == 1 && losses == 1 && ties == 1 then Tie
      else Tie
  }

  /** Best of one: a single won game wins, otherwise a single lost game loses,
      and anything else is a tie; a won game is looked at first. */
  lemma Bo1DecisionTable(wins: int, losses: int, ties: int)
    ensures CalculateRoundResult(wins, losses, ties, Bo1) == Win <==> wins == 1
    ensures CalculateRoundResult(wins, losses, ties, Bo1) == Lose <==> wins != 1 && losses == 1
    ensures CalculateRoundResult(wins, losses, ties, Bo1) == Tie <==> wins != 1 && losses != 1
    ensures CalculateRoundResult(1, 1, 0, Bo1) == Win
  {
  }

  /** Best of three, for game counts: two won games win (even against two
      lost ones); otherwise two lost games lose; one won game wins only with no
      lost game and at most one tied game, and symmetrically for one lost game;
      everything else, 0-0-0 included, is a tie. */
  lemma Bo3DecisionTable(wins: nat, losses: nat, ties: nat)
    ensures CalculateRoundResult(wins, losses, ties, Bo3) == Win
        <==> wins >= 2 || (wins == 1 && losses == 0 && ties <= 1)
    ensures CalculateRoundResult(wins, losses, ties, Bo3) == Lose
        <==> wins <= 1 && (losses >= 2 || (losses == 1 && wins == 0 && ties <= 1))
    ensures CalculateRoundResult(wins, losses, ties, Bo3) == Tie
        <==> wins <= 1 && losses <= 1 && !(wins + losses == 1 && ties <= 1)
  {
  }

  /** Best of three with a single game played: the round is that game. */
  lemma Bo3SingleGame(wins: nat, losses: nat, ties: nat)
    requires wins + losses + ties == 1
    ensures wins == 1 ==> CalculateRoundResult(wins, losses, ties, Bo3) == Win
    ensures losses == 1 ==> CalculateRoundResult(wins, losses, ties, Bo3) == Lose
    ensures ties == 1 ==> CalculateRoundResult(wins, losses, ties, Bo3) == Tie
  {
  }

  /** The tallies that get past every earlier test of the best-of-three branch
      reach the 1-1-1 test; none of them is 1-1-1, so that test never fires. */
  ghost predicate ReachesLastBo3Test(wins: int, losses: int, ties: int) {
    var total := wins + losses + ties;
    && !(total == 1 && (wins == 1 || losses == 1 || ties == 1))
    && wins < 2 && losses < 2
    && !(wins == 1 && losses == 1)
    && !(wins == 1 && ties == 1)
    && !(losses == 1 && ties == 1)
  }

  lemma Bo3LastTestUnreachable(wins: int, losses: int, ties: int)
    requires ReachesLastBo3Test(wins, losses, ties)
    ensures !(wins == 1 && losses == 1 && ties == 1)
    ensures CalculateRoundResult(wins, losses, ties, Bo3) == Tie
  {
  }

  // ---------- standings ----------

  datatype Standing = Standing(wins: nat, losses: nat, ties: nat, totalRounds: nat, winRate: real)

  predicate IsWinRound(r: TournamentRound) {
    r.result == Win || r.result == NoShow || r.result == Bye
  }

  predicate IsLoseRound(r: TournamentRound) {
    r.result == Lose
  }

  predicate IsTieRound(r: TournamentRound) {
    r.result == Tie
  }

  /** Every round falls in exactly one of the three tallies. */
  lemma {:induction false} RoundTalliesPartition(rounds: seq<TournamentRound>)
    ensures Count(rounds, IsWinRound) + Count(rounds, IsLoseRound) + Count(rounds, IsTieRound) == |rounds|
  {
    if |rounds| > 0 {
      RoundTalliesPartition(rounds[1..]);
      CountCons(rounds, IsWinRound);
      CountCons(rounds, IsLoseRound);
      CountCons(rounds, IsTieRound);
    }
  }

  /** The standing computed from a round list. */
  function StandingOf(rounds: seq<TournamentRound>): (s: Standing)
    ensures s.wins == Count(rounds, IsWinRound)
    ensures s.losses == Count(rounds, IsLoseRound)
    ensures s.ties == Count(rounds, IsTieRound)
    ensures s.totalRounds == |rounds| == s.wins + s.losses + s.ties
    ensures 0.0 <= s.winRate <= 100.0
    ensures s.winRate == WinRate(s.wins, s.totalRounds)
  {
    RoundTalliesPartition(rounds);
    var wins := Count(rounds, IsWinRound);
    Standing(wins, Count(rounds, IsLoseRound), Count(rounds, IsTieRound), |rounds|, WinRate(wins, |rounds|))
  }

  /** Adding a round adds one to exactly the tally its result belongs to. */
  lemma StandingAfterAddedRound(rounds: seq<TournamentRound>, r: TournamentRound)
    ensures StandingOf(rounds + [r]).wins == StandingOf(rounds).wins + (if IsWinRound(r) then 1 else 0)
    ensures StandingOf(rounds + [r]).losses == StandingOf(rounds).losses + (if IsLoseRound(r) then 1 else 0)
    ensures StandingOf(rounds + [r]).ties == StandingOf(rounds).ties + (if IsTieRound(r) then 1 else 0)
    ensures StandingOf(rounds + [r]).totalRounds == StandingOf(rounds).totalRounds + 1
  {
    CountAppend(rounds, [r], IsWinRound);
    CountAppend(rounds, [r], IsLoseRound);
    CountAppend(rounds, [r], IsTieRound);
  }

  /** `tournaments.find(t => t.id === id)`, as a position. */
  function IndexOfTournament(ts: seq<Tournament>, id: string): (r: Option<nat>)
    ensures r.Some? ==> r.value < |ts| && ts[r.value].id == id
    ensures r.Some? ==> forall j :: 0 <= j < r.value ==> ts[j].id != id
    ensures r.None? ==> forall j :: 0 <= j < |ts| ==> ts[j].id != id
  {
    if |ts| == 0 then None
    else if ts[0].id == id then Some(0)
    else
      match IndexOfTournament(ts[1..], id)
      case None => None
      case Some(k) => Some(k + 1)
  }

  function FindTournament(ts: seq<Tournament>, id: string): (r: Option<Tournament>)
    ensures r.None? <==> forall t :: t in ts ==> t.id != id
    ensures r.Some? ==> r.value in ts && r.value.id == id
  {
    match IndexOfTournament(ts, id)
    case None => None
    case Some(i) => Some(ts[i])
  }

  /** `getTournamentStanding`: all zeros for an unknown id, otherwise the
      standing of the first tournament with that id. */
  function GetTournamentStanding(ts: seq<Tournament>, id: string): (s: Standing)
    ensures FindTournament(ts, id).None? ==> s == Standing(0, 0, 0, 0, 0.0)
    ensures FindTournament(ts, id).Some? ==> s == StandingOf(FindTournament(ts, id).value.rounds)
    ensures s.wins + s.losses + s.ties == s.totalRounds
    ensures 0.0 <= s.winRate <= 100.0
    ensures s.winRate == WinRate(s.wins, s.totalRounds)
  {
    match FindTournament(ts, id)
    case None => Standing(0, 0, 0, 0, 0.0)
    case Some(t) => StandingOf(t.rounds)
  }

  // ---------- list updates ----------

  /** A `Partial<Tournament>`: each present field overrides the record's. */
  datatype TournamentPatch = TournamentPatch(
    id: Option<string>,
    name: Option<string>,
    kind: Option<TournamentType>,
    format: Option<TournamentFormat>,
    location: Option<Option<string>>,
    date: Option<string>,
    deck: Option<seq<string>>,
    rounds: Option<seq<TournamentRound>>,
    createdAt: Option<string>,
    updatedAt: Option<string>)

  /** `{ ...t, ...patch }`. */
  function ApplyTournamentPatch(t: Tournament, p: TournamentPatch): Tournament {
    Tournament(
      p.id.GetOr(t.id), p.name.GetOr(t.name), p.kind.GetOr(t.kind), p.format.GetOr(t.format),
      p.location.GetOr(t.location), p.date.GetOr(t.date), p.deck.GetOr(t.deck),
      p.rounds.GetOr(t.rounds), p.createdAt.GetOr(t.createdAt), p.updatedAt.GetOr(t.updatedAt))
  }

  /** A `Partial<TournamentRound>`. */
  datatype RoundPatch = RoundPatch(
    id: Option<string>,
    tournamentId: Option<string>,
    enemyPokemon: Option<seq<string>>,
    result: Option<RoundResult>,
    createdAt: Option<string>,
    updatedAt: Option<string>)

  /** `{ ...r, ...patch }`. */
  function ApplyRoundPatch(r: TournamentRound, p: RoundPatch): TournamentRound {
    TournamentRound(
      p.id.GetOr(r.id), p.tournamentId.GetOr(r.tournamentId), p.enemyPokemon.GetOr(r.enemyPokemon),
      p.result.GetOr(r.result), p.createdAt.GetOr(r.createdAt), p.updatedAt.GetOr(r.updatedAt))
  }

  /** `updateTournament`'s new list: every tournament with the id patched, the
      others as they were, same length and order. */
  function UpdatedTournaments(ts: seq<Tournament>, id: string, p: TournamentPatch): (r: seq<Tournament>)
    ensures |r| == |ts|
    ensures forall i :: 0 <= i < |ts| && ts[i].id == id ==> r[i] == ApplyTournamentPatch(ts[i], p)
    ensures forall i :: 0 <= i < |ts| && ts[i].id != id ==> r[i] == ts[i]
  {
    MapSeq(ts, (t: Tournament) => if t.id == id then ApplyTournamentPatch(t, p) else t)
  }

  predicate HasOtherId(t: Tournament, id: string) {
    t.id != id
  }

  /** `deleteTournament`'s new list: the tournaments with other ids, in order. */
  function WithoutTournament(ts: seq<Tournament>, id: string): (r: seq<Tournament>)
    ensures forall t :: t in r <==> t in ts && t.id != id
    ensures FindTournament(r, id).None?
  {
    Filter(ts, (t: Tournament) => HasOtherId(t, id))
  }

  /** `deleteTournament` works tournament by tournament: the kept ones stay
      in their order, every copy of them stays, only those with the id go. */
  lemma WithoutTournamentAppend(a: seq<Tournament>, b: seq<Tournament>, id: string)
    ensures WithoutTournament(a + b, id) == WithoutTournament(a, id) + WithoutTournament(b, id)
  {
    FilterAppend(a, b, (t: Tournament) => HasOtherId(t, id));
  }

  lemma WithoutTournamentOne(t: Tournament, id: string)
    ensures WithoutTournament([], id) == []
    ensures WithoutTournament([t], id) == if t.id == id then [] else [t]
  {
    FilterOne(t, (x: Tournament) => HasOtherId(x, id));
  }

  /** `addRoundToTournament`'s new list: the round appended to the rounds of
      every tournament with the id; nothing else changes. */
  function WithRoundAdded(ts: seq<Tournament>, tournamentId: string, round: TournamentRound): (r: seq<Tournament>)
    ensures |r| == |ts|
    ensures forall i :: 0 <= i < |ts| && ts[i].id == tournamentId ==> r[i] == ts[i].(rounds := ts[i].rounds + [round])
    ensures forall i :: 0 <= i < |ts| && ts[i].id != tournamentId ==> r[i] == ts[i]
  {
    MapSeq(ts, (t: Tournament) => if t.id == tournamentId then t.(rounds := t.rounds + [round]) else t)
  }

  /** The rounds of one tournament after `updateRoundInTournament`. */
  function UpdatedRounds(rounds: seq<TournamentRound>, roundId: string, p: RoundPatch): (r: seq<TournamentRound>)
    ensures |r| == |rounds|
    ensures forall i :: 0 <= i < |rounds| && rounds[i].id == roundId ==> r[i] == ApplyRoundPatch(rounds[i], p)
    ensures forall i :: 0 <= i < |rounds| && rounds[i].id != roundId ==> r[i] == rounds[i]
  {
    MapSeq(rounds, (x: TournamentRound) => if x.id == roundId then ApplyRoundPatch(x, p) else x)
  }

  /** `updateRoundInTournament`'s new list. */
  function WithRoundUpdated(ts: seq<Tournament>, tournamentId: string, roundId: string, p: RoundPatch): (r: seq<Tournament>)
    ensures |r| == |ts|
    ensures forall i :: 0 <= i < |ts| && ts[i].id == tournamentId ==> r[i] == ts[i].(rounds := UpdatedRounds(ts[i].rounds, roundId, p))
    ensures forall i :: 0 <= i < |ts| && ts[i].id != tournamentId ==> r[i] == ts[i]
  {
    MapSeq(ts, (t: Tournament) => if t.id == tournamentId then t.(rounds := UpdatedRounds(t.rounds, roundId, p)) else t)
  }

  predicate RoundHasOtherId(x: TournamentRound, id: string) {
    x.id != id
  }

  /** The rounds of one tournament after `deleteRoundFromTournament`. */
  function RemainingRounds(rounds: seq<TournamentRound>, roundId: string): (r: seq<TournamentRound>)
    ensures forall x :: x in r <==> x in rounds && x.id != roundId
  {
    Filter(rounds, (x: TournamentRound) => RoundHasOtherId(x, roundId))
  }

  /** Deleting a round works round by round: the other rounds stay in their
      order, every copy of them stays. */
  lemma RemainingRoundsAppend(a: seq<TournamentRound>, b: seq<TournamentRound>, roundId: string)
    ensures RemainingRounds(a + b, roundId) == RemainingRounds(a, roundId) + RemainingRounds(b, roundId)
  {
    FilterAppend(a, b, (x: TournamentRound) => RoundHasOtherId(x, roundId));
  }

  lemma RemainingRoundsOne(x: TournamentRound, roundId: string)
    ensures RemainingRounds([], roundId) == []
    ensures RemainingRounds([x], roundId) == if x.id == roundId then [] else [x]
  {
    FilterOne(x, (y: TournamentRound) => RoundHasOtherId(y, roundId));
  }

  /** `deleteRoundFromTournament`'s new list. */
  function WithRoundDeleted(ts: seq<Tournament>, tournamentId: string, roundId: string): (r: seq<Tournament>)
    ensures |r| == |ts|
    ensures forall i :: 0 <= i < |ts| && ts[i].id == tournamentId ==> r[i] == ts[i].(rounds := RemainingRounds(ts[i].rounds, roundId))
    ensures forall i :: 0 <= i < |ts| && ts[i].id != tournamentId ==> r[i] == ts[i]
  {
    MapSeq(ts, (t: Tournament) => if t.id == tournamentId then t.(rounds := RemainingRounds(t.rounds, roundId)) else t)
  }

  /** Deleting a round just added (under an id no other round of that
      tournament uses) gives back the original list. */
  lemma AddedRoundThenDeleted(ts: seq<Tournament>, tournamentId: string, round: TournamentRound)
    requires forall t, x :: t in ts && t.id == tournamentId && x in t.rounds ==> x.id != round.id
    ensures WithRoundDeleted(WithRoundAdded(ts, tournamentId, round), tournamentId, round.id) == ts
  {
    var added := WithRoundAdded(ts, tournamentId, round);
    var r := WithRoundDeleted(added, tournamentId, round.id);
    forall i | 0 <= i < |ts| ensures r[i] == ts[i] {
      if ts[i].id == tournamentId {
        var p := (x: TournamentRound) => RoundHasOtherId(x, round.id);
        FilterAppend(ts[i].rounds, [round], p);
        FilterKeepsAll(ts[i].rounds, p);
        assert Filter([round], p) == [];
      }
    }
  }

  /** Deleting rounds never lengthens a tournament; deleting an id it does not
      use leaves it as it was. */
  lemma RemainingRoundsWithoutMatch(rounds: seq<TournamentRound>, roundId: string)
    requires forall x :: x in rounds ==> x.id != roundId
    ensures RemainingRounds(rounds, roundId) == rounds
  {
    FilterKeepsAll(rounds, (x: TournamentRound) => RoundHasOtherId(x, roundId));
  }

  // ---------- the hook's state ----------

  /** Two lists with the same ids, position by position, find the same
      position for any id. */
  lemma IndexOfTournamentSameIds(ts: seq<Tournament>, us: seq<Tournament>, id: string)
    requires |ts| == |us|
    requires forall i :: 0 <= i < |ts| ==> ts[i].id == us[i].id
    ensures IndexOfTournament(ts, id) == IndexOfTournament(us, id)
  {
    var a := IndexOfTournament(ts, id);
    var b := IndexOfTournament(us, id);
    if a.Some? {
      assert us[a.value].id == id;
    }
    if b.Some? {
      assert ts[b.value].id == id;
    }
  }

  /** A round added to a known tournament is counted in its standing: one
      more round, and one more win, loss or tie as the round's result says. */
  lemma StandingAfterRoundAdded(ts: seq<Tournament>, id: string, round: TournamentRound)
    requires FindTournament(ts, id).Some?
    ensures GetTournamentStanding(WithRoundAdded(ts, id, round), id).totalRounds
      == GetTournamentStanding(ts, id).totalRounds + 1
    ensures GetTournamentStanding(WithRoundAdded(ts, id, round), id).wins
      == GetTournamentStanding(ts, id).wins + (if IsWinRound(round) then 1 else 0)
    ensures GetTournamentStanding(WithRoundAdded(ts, id, round), id).losses
      == GetTournamentStanding(ts, id).losses + (if IsLoseRound(round) then 1 else 0)
    ensures GetTournamentStanding(WithRoundAdded(ts, id, round), id).ties
      == GetTournamentStanding(ts, id).ties + (if IsTieRound(round) then 1 else 0)
  {
    var us := WithRoundAdded(ts, id, round);
    IndexOfTournamentSameIds(ts, us, id);
    var k := IndexOfTournament(ts, id).value;
    assert FindTournament(ts, id) == Some(ts[k]);
    assert FindTournament(us, id) == Some(us[k]);
    assert us[k].rounds == ts[k].rounds + [round];
    StandingAfterAddedRound(ts[k].rounds, round);
  }

  /** The hook's `tournaments` state, its `loading` flag and what storage
      holds under the `tournaments` key. */
  class TournamentStore {
    var tournaments: seq<Tournament>
    var loading: bool
    var stored: Stored<seq<Tournament>>

    /** Storage holds exactly the list in memory. */
    predicate Persisted()
      reads this
    {
      stored == Saved(tournaments)
    }

    /** Mounting the hook: the list starts empty and loading; the snapshot is
        read once; a missing or unparsable snapshot leaves the list empty, and
        loading ends either way. */
    constructor (snapshot: Stored<seq<Tournament>>)
      ensures tournaments == (if snapshot.Saved? then snapshot.value else [])
      ensures stored == snapshot
      ensures !loading
    {
      tournaments := [];
      loading := true;
      stored := snapshot;
      if snapshot.Saved? {
        tournaments := snapshot.value;
      }
      loading := false;
    }

    /** `saveToStorage`. */
    method SaveToStorage(data: seq<Tournament>)
      modifies this`stored
      ensures stored == Saved(data)
    {
      stored := Saved(data);
    }

    method AddTournament(t: Tournament)
      modifies this`tournaments, this`stored
      ensures tournaments == old(tournaments) + [t]
      ensures Persisted()
    {
      var updated := tournaments + [t];
      tournaments := updated;
      SaveToStorage(updated);
    }

    method UpdateTournament(id: string, p: TournamentPatch)
      modifies this`tournaments, this`stored
      ensures tournaments == UpdatedTournaments(old(tournaments), id, p)
      ensures Persisted()
    {
      var updated := UpdatedTournaments(tournaments, id, p);
      tournaments := updated;
      SaveToStorage(updated);
    }

    method DeleteTournament(id: string)
      modifies this`tournaments, this`stored
      ensures tournaments == WithoutTournament(old(tournaments), id)
      ensures Persisted()
    {
      var updated := WithoutTournament(tournaments, id);
      tournaments := updated;
      SaveToStorage(updated);
    }

    method AddRoundToTournament(tournamentId: string, round: TournamentRound)
      modifies this`tournaments, this`stored
      ensures tournaments == WithRoundAdded(old(tournaments), tournamentId, round)
      ensures Persisted()
    {
      var updated := WithRoundAdded(tournaments, tournamentId, round);
      tournaments := updated;
      SaveToStorage(updated);
    }

    method UpdateRoundInTournament(tournamentId: string, roundId: string, p: RoundPatch)
      modifies this`tournaments, this`stored
      ensures tournaments == WithRoundUpdated(old(tournaments), tournamentId, roundId, p)
      ensures Persisted()
    {
      var updated := WithRoundUpdated(tournaments, tournamentId, roundId, p);
      tournaments := updated;
      SaveToStorage(updated);
    }

    method DeleteRoundFromTournament(tournamentId: string, roundId: string)
      modifies this`tournaments, this`stored
      ensures tournaments == WithRoundDeleted(old(tournaments), tournamentId, roundId)
      ensures Persisted()
    {
      var updated := WithRoundDeleted(tournaments, tournamentId, roundId);
      tournaments := updated;
      SaveToStorage(updated);
    }
  }
}
