/** The `Home` page: the match form and its submit, the bulk selection, the
    recently used species, the CSV/JSON import, and the tournament-round
    form. The page's two stores are the `useMatchups` and `useTournaments`
    hooks. */
module Page {
  import opened Wrappers
  import opened Lists
  import opened Strings
  import opened Types
  import M = Matchups
  import T = Tournaments
  import Statistics
  import Csv
  import Selector

  const MyTeamEmpty: string := "Please select at least one Pokemon for your team."
  const EnemyTeamEmpty: string := "Please select at least one Pokemon for the enemy team."
  const MyTeamTooLarge: string := "Your team cannot have more than 2 Pokemon."
  const EnemyTeamTooLarge: string := "The enemy team cannot have more than 2 Pokemon."

  /** A logged team holds one or two species. */
  const MaxTeamSize: nat := 2

  /** How many recently used species the selectors offer. */
  const RecentLimit: nat := 20

  const FirstText: string := "first"

  // ---------- the match form ----------

  /** The checks of `handleAddMatchup`, in order: the first one that fails
      gives its message. */
  function TeamError(my: seq<string>, enemy: seq<string>): (e: Option<string>)
    ensures e.None? <==> 1 <= |my| <= MaxTeamSize && 1 <= |enemy| <= MaxTeamSize
    ensures |my| == 0 ==> e == Some(MyTeamEmpty)
    ensures |my| > 0 && |enemy| == 0 ==> e == Some(EnemyTeamEmpty)
    ensures |my| > 0 && |enemy| > 0 && |my| > MaxTeamSize ==> e == Some(MyTeamTooLarge)
    ensures 0 < |my| <= MaxTeamSize && |enemy| > MaxTeamSize ==> e == Some(EnemyTeamTooLarge)
  {
    if |my| == 0 then Some(MyTeamEmpty)
    else if |enemy| == 0 then Some(EnemyTeamEmpty)
    else if |my| > MaxTeamSize then Some(MyTeamTooLarge)
    else if |enemy| > MaxTeamSize then Some(EnemyTeamTooLarge)
    else None
  }

  /** The selectors on the match form keep the component's default cap of
      three, one more than a logged team may hold: a third distinct species
      can be picked, and submitting that team is refused. */
  lemma DefaultCapAdmitsOversizedTeam(a: string, b: string, c: string, enemy: seq<string>)
    requires a != b && c != a && c != b
    requires 1 <= |enemy|
    ensures Selector.AfterSelect([a, b], c, Selector.DefaultMaxSelect) == [a, b, c]
    ensures TeamError(Selector.AfterSelect([a, b], c, Selector.DefaultMaxSelect), enemy) == Some(MyTeamTooLarge)
  {
    assert c !in [a, b];
  }

  /** The record a submit creates when nothing is being edited. */
  function NewMatchup(id: string, now: string, my: seq<string>, enemy: seq<string>,
                      notes: string, result: Option<string>, turnOrder: Option<string>): (m: Matchup)
    ensures m.id == id && m.myPokemon == my && m.enemyPokemon == enemy
    ensures m.notes == Some(notes) && m.result == result && m.turnOrder == turnOrder
    ensures m.createdAt == m.updatedAt == Some(now)
  {
    Matchup(id, my, enemy, Some(notes), result, turnOrder, Some(now), Some(now))
  }

  /** The patch a submit applies when a record is being edited: the form's
      fields and the update time, never the id or the creation time. */
  function EditPatch(my: seq<string>, enemy: seq<string>, notes: string,
                     result: Option<string>, turnOrder: Option<string>, now: string): (p: M.MatchupPatch)
    ensures p.id.None? && p.createdAt.None?
    ensures p.updatedAt == Some(Some(now))
  {
    M.MatchupPatch(None, Some(my), Some(enemy), Some(Some(notes)), Some(result), Some(turnOrder), None, Some(Some(now)))
  }

  /** Saving an edit changes the form's fields and the update time of the
      edited record, and nothing else anywhere: every record keeps its id and
      creation time. */
  lemma EditKeepsIdentity(ms: seq<Matchup>, editingId: string, my: seq<string>, enemy: seq<string>,
                          notes: string, result: Option<string>, turnOrder: Option<string>, now: string)
    ensures forall i :: 0 <= i < |ms| ==>
      M.Updated(ms, editingId, EditPatch(my, enemy, notes, result, turnOrder, now))[i].id == ms[i].id
    ensures forall i :: 0 <= i < |ms| ==>
      M.Updated(ms, editingId, EditPatch(my, enemy, notes, result, turnOrder, now))[i].createdAt == ms[i].createdAt
    ensures forall i :: 0 <= i < |ms| && ms[i].id == editingId ==>
      M.Updated(ms, editingId, EditPatch(my, enemy, notes, result, turnOrder, now))[i]
        == ms[i].(myPokemon := my, enemyPokemon := enemy, notes := Some(notes),
                  result := result, turnOrder := turnOrder, updatedAt := Some(now))
  {
    M.UpdateKeepsIdentity(ms, editingId, EditPatch(my, enemy, notes, result, turnOrder, now));
  }

  /** Opening a record for editing and saving it untouched only stamps its
      update time and turns missing notes into empty ones. */
  lemma UnchangedEditOnlyStamps(ms: seq<Matchup>, m: Matchup, now: string)
    requires forall i :: 0 <= i < |ms| && ms[i].id == m.id ==> ms[i] == m
    ensures forall i :: 0 <= i < |ms| && ms[i].id == m.id ==>
      M.Updated(ms, m.id, EditPatch(m.myPokemon, m.enemyPokemon, Csv.NotesCell(m.notes), m.result, m.turnOrder, now))[i]
        == m.(notes := Some(Csv.NotesCell(m.notes)), updatedAt := Some(now))
    ensures forall i :: 0 <= i < |ms| && ms[i].id != m.id ==>
      M.Updated(ms, m.id, EditPatch(m.myPokemon, m.enemyPokemon, Csv.NotesCell(m.notes), m.result, m.turnOrder, now))[i]
        == ms[i]
  {
  }

  // ---------- bulk selection ----------

  /** The checkbox handler: an id is added when absent and removed when
      present. */
  function Toggled(selected: seq<string>, id: string): (r: seq<string>)
    ensures id in selected ==> r == Remove(selected, id)
    ensures id !in selected ==> r == selected + [id]
    ensures id in r <==> id !in selected
    ensures forall x :: x != id ==> (x in r <==> x in selected)
  {
    if id in selected then Remove(selected, id) else selected + [id]
  }

  lemma ToggleKeepsNoDup(selected: seq<string>, id: string)
    requires NoDup(selected)
    ensures NoDup(Toggled(selected, id))
  {
    if id in selected {
      RemoveKeepsNoDup(selected, id);
    }
  }

  /** Ticking an unticked box and unticking it again gives back the
      selection, in order. */
  lemma ToggleTwiceRestores(selected: seq<string>, id: string)
    requires id !in selected
    ensures Toggled(Toggled(selected, id), id) == selected
  {
    assert id in selected + [id];
    RemoveAppended(selected, id);
  }

  /** Unticking a ticked box and ticking it again keeps the same ids, with
      that id moved to the end. */
  lemma ToggleTwiceMovesToEnd(selected: seq<string>, id: string)
    requires id in selected
    ensures Toggled(Toggled(selected, id), id) == Remove(selected, id) + [id]
    ensures forall x :: x in Toggled(Toggled(selected, id), id) <==> x in selected
  {
  }

  // ---------- recently used species ----------

  /** `flatMap(m => [...m.myPokemon, ...m.enemyPokemon])`. */
  function TeamNames(ms: seq<Matchup>): (names: seq<string>)
  {
    if |ms| == 0 then [] else ms[0].myPokemon + ms[0].enemyPokemon + TeamNames(ms[1..])
  }

  /** Sorting the teams in place reorders names within each team only. */
  lemma {:induction false} SortedTeamNamesPermutation(ms: seq<Matchup>)
    ensures multiset(TeamNames(Statistics.WithSortedTeams(ms))) == multiset(TeamNames(ms))
  {
    if |ms| > 0 {
      var sorted := Statistics.WithSortedTeams(ms);
      assert sorted[1..] == Statistics.WithSortedTeams(ms[1..]);
      SortedTeamNamesPermutation(ms[1..]);
    }
  }

  /** A name is listed exactly when some match uses it on either side. */
  lemma {:induction false} TeamNamesMembers(ms: seq<Matchup>, x: string)
    ensures x in TeamNames(ms) <==>
      exists i :: 0 <= i < |ms| && (x in ms[i].myPokemon || x in ms[i].enemyPokemon)
  {
    if |ms| > 0 {
      TeamNamesMembers(ms[1..], x);
      if x in TeamNames(ms[1..]) {
        var i :| 0 <= i < |ms[1..]| && (x in ms[1..][i].myPokemon || x in ms[1..][i].enemyPokemon);
        assert ms[i + 1] == ms[1..][i];
      }
      if exists i :: 0 <= i < |ms| && (x in ms[i].myPokemon || x in ms[i].enemyPokemon) {
        var i :| 0 <= i < |ms| && (x in ms[i].myPokemon || x in ms[i].enemyPokemon);
        if i > 0 {
          assert ms[1..][i - 1] == ms[i];
        }
      }
    }
  }

  /** The names of every team after the render has sorted them in place. */
  function SortedTeamNames(ms: seq<Matchup>): seq<string> {
    TeamNames(Statistics.WithSortedTeams(ms))
  }

  /** The in-place sort does not change which names are used. */
  lemma SortedTeamNamesMembers(ms: seq<Matchup>, x: string)
    ensures x in SortedTeamNames(ms) <==> x in TeamNames(ms)
  {
    SortedTeamNamesPermutation(ms);
    assert x in SortedTeamNames(ms) <==> x in multiset(SortedTeamNames(ms));
    assert x in TeamNames(ms) <==> x in multiset(TeamNames(ms));
  }

  /** `allPokemon`: every used name, each once, at its first appearance. */
  function AllPokemon(ms: seq<Matchup>): (r: seq<string>)
    ensures NoDup(r)
  {
    Distinct(SortedTeamNames(ms))
  }

  /** `allPokemon` holds exactly the names used in some team. */
  lemma AllPokemonMembers(ms: seq<Matchup>, x: string)
    ensures x in AllPokemon(ms) <==> x in TeamNames(ms)
  {
    SortedTeamNamesMembers(ms, x);
  }

  /** `recentPokemon`: the last 20 names of `AllPokemon`. */
  function RecentPokemon(ms: seq<Matchup>): (r: seq<string>)
    ensures NoDup(r) && |r| <= RecentLimit
    ensures |r| <= |AllPokemon(ms)|
    ensures r == AllPokemon(ms)[|AllPokemon(ms)| - |r|..]
    ensures |AllPokemon(ms)| >= RecentLimit ==> |r| == RecentLimit
  {
    var all := AllPokemon(ms);
    var r := TakeLast(all, RecentLimit);
    NoDupSuffix(all, |all| - |r|);
    r
  }

  /** Every recent name is used by some logged match. */
  lemma RecentPokemonUsed(ms: seq<Matchup>, x: string)
    ensures x in RecentPokemon(ms) ==> x in TeamNames(ms)
  {
    var all := AllPokemon(ms);
    var r := RecentPokemon(ms);
    if x in r {
      var k :| 0 <= k < |r| && r[k] == x;
      SuffixAt(all, r, k);
      AllPokemonMembers(ms, x);
    }
  }

  /** `allPokemon` lists names in the order of their first appearance. */
  lemma AllPokemonInFirstAppearanceOrder(ms: seq<Matchup>, i: int, j: int)
    requires 0 <= i < j < |AllPokemon(ms)|
    ensures AllPokemon(ms)[i] in SortedTeamNames(ms)
    ensures AllPokemon(ms)[j] in SortedTeamNames(ms)
    ensures FirstIndex(SortedTeamNames(ms), AllPokemon(ms)[i])
      < FirstIndex(SortedTeamNames(ms), AllPokemon(ms)[j])
  {
    DistinctOrderAt(SortedTeamNames(ms), AllPokemon(ms), i, j);
  }

  /** With at most 20 distinct names logged, every one of them is recent. */
  lemma FewNamesAllRecent(ms: seq<Matchup>, x: string)
    requires |AllPokemon(ms)| <= RecentLimit
    ensures x in RecentPokemon(ms) <==> x in TeamNames(ms)
  {
    AllPokemonMembers(ms, x);
  }

  // ---------- import ----------

  /** What `handleImport` hands to `importMatchups`: the CSV parse of the
      text for a `.csv` file, the JSON parse otherwise; `None` when either
      throws. */
  function ImportedData(isCsv: bool, text: string, json: Option<seq<Matchup>>): Option<seq<Matchup>> {
    if isCsv then Csv.ImportCsv(text) else json
  }

  // ---------- the page ----------

  /** The page's state next to its two stores. */
  class Home {
    const matchupStore: M.MatchupStore
    const tournamentStore: T.TournamentStore

    var myPokemon: seq<string>
    var enemyPokemon: seq<string>
    var notes: string
    var result: Option<string>
    var turnOrder: Option<string>
    var editingId: Option<string>
    var errorMessage: string
    var selectedForBulk: seq<string>

    var selectedTournamentId: Option<string>
    var isCreatingTournament: bool
    var tournamentEnemyPokemon: seq<string>
    var tournamentResult: RoundResult
    var tournamentEditingId: Option<string>
    var tournamentErrorMessage: string

    /** The match form as it starts and after a submit or a cancel. */
    predicate FormCleared()
      reads this
    {
      myPokemon == [] && enemyPokemon == [] && notes == ""
      && result == Some(WinText) && turnOrder == Some(FirstText) && editingId == None
    }

    /** The round form as it starts and after a submit or a cancel. */
    predicate RoundFormCleared()
      reads this
    {
      tournamentEnemyPokemon == [] && tournamentResult == Win && tournamentEditingId == None
    }

    /** A round submit goes through: a tournament is selected, the enemy
        team is not empty and the tournament still exists. */
    predicate RoundAccepted()
      reads this, tournamentStore
    {
      IsSet(selectedTournamentId) && |tournamentEnemyPokemon| > 0
      && T.FindTournament(tournamentStore.tournaments, selectedTournamentId.value).Some?
    }

    constructor (matchupStore: M.MatchupStore, tournamentStore: T.TournamentStore)
      ensures this.matchupStore == matchupStore && this.tournamentStore == tournamentStore
      ensures FormCleared() && RoundFormCleared()
      ensures errorMessage == "" && tournamentErrorMessage == "" && selectedForBulk == []
      ensures selectedTournamentId == None && !isCreatingTournament
    {
      this.matchupStore := matchupStore;
      this.tournamentStore := tournamentStore;
      myPokemon := [];
      enemyPokemon := [];
      notes := "";
      result := Some(WinText);
      turnOrder := Some(FirstText);
      editingId := None;
      errorMessage := "";
      selectedForBulk := [];
      selectedTournamentId := None;
      isCreatingTournament := false;
      tournamentEnemyPokemon := [];
      tournamentResult := Win;
      tournamentEditingId := None;
      tournamentErrorMessage := "";
    }

    /** `handleAddMatchup`: refused with the first failing check's message
        and nothing changed, or the edited record patched (or a new record
        appended) and the form cleared. */
    method HandleAddMatchup(id: string, now: string)
      modifies this`myPokemon, this`enemyPokemon, this`notes, this`result, this`turnOrder,
        this`editingId, this`errorMessage, matchupStore`matchups, matchupStore`stored
      ensures TeamError(old(myPokemon), old(enemyPokemon)).Some? ==>
        errorMessage == TeamError(old(myPokemon), old(enemyPokemon)).value
        && matchupStore.matchups == old(matchupStore.matchups)
        && matchupStore.stored == old(matchupStore.stored)
        && myPokemon == old(myPokemon) && enemyPokemon == old(enemyPokemon) && notes == old(notes)
        && result == old(result) && turnOrder == old(turnOrder) && editingId == old(editingId)
      ensures TeamError(old(myPokemon), old(enemyPokemon)).None? && IsSet(old(editingId)) ==>
        matchupStore.matchups == M.Updated(old(matchupStore.matchups), old(editingId).value,
          EditPatch(old(myPokemon), old(enemyPokemon), old(notes), old(result), old(turnOrder), now))
      ensures TeamError(old(myPokemon), old(enemyPokemon)).None? && !IsSet(old(editingId)) ==>
        matchupStore.matchups == old(matchupStore.matchups)
          + [NewMatchup(id, now, old(myPokemon), old(enemyPokemon), old(notes), old(result), old(turnOrder))]
      ensures TeamError(old(myPokemon), old(enemyPokemon)).None? ==>
        errorMessage == "" && FormCleared() && matchupStore.Persisted()
    {
      errorMessage := "";
      var e := TeamError(myPokemon, enemyPokemon);
      if e.Some? {
        errorMessage := e.value;
        return;
      }
      if IsSet(editingId) {
        matchupStore.UpdateMatchup(editingId.value, EditPatch(myPokemon, enemyPokemon, notes, result, turnOrder, now));
      } else {
        matchupStore.AddMatchup(NewMatchup(id, now, myPokemon, enemyPokemon, notes, result, turnOrder));
      }
      myPokemon := [];
      enemyPokemon := [];
      notes := "";
      result := Some(WinText);
      turnOrder := Some(FirstText);
      editingId := None;
    }

    /** `handleEdit`: the form takes the record's fields (missing notes as
        empty text) and remembers its id. */
    method HandleEdit(m: Matchup)
      modifies this`myPokemon, this`enemyPokemon, this`notes, this`result, this`turnOrder, this`editingId
      ensures myPokemon == m.myPokemon && enemyPokemon == m.enemyPokemon
      ensures notes == Csv.NotesCell(m.notes) && result == m.result && turnOrder == m.turnOrder
      ensures editingId == Some(m.id)
    {
      myPokemon := m.myPokemon;
      enemyPokemon := m.enemyPokemon;
      notes := Csv.NotesCell(m.notes);
      result := m.result;
      turnOrder := m.turnOrder;
      editingId := Some(m.id);
    }

    method HandleCancelEdit()
      modifies this`myPokemon, this`enemyPokemon, this`notes, this`result, this`turnOrder,
        this`editingId, this`errorMessage
      ensures FormCleared() && errorMessage == ""
    {
      myPokemon := [];
      enemyPokemon := [];
      notes := "";
      result := Some(WinText);
      turnOrder := Some(FirstText);
      editingId := None;
      errorMessage := "";
    }

    method HandleDelete(id: string)
      modifies matchupStore`matchups, matchupStore`stored
      ensures matchupStore.matchups == M.Deleted(old(matchupStore.matchups), id)
      ensures matchupStore.Persisted()
    {
      matchupStore.DeleteMatchup(id);
    }

    /** The history's `onBulkSelect`. */
    method ToggleBulk(id: string)
      modifies this`selectedForBulk
      ensures selectedForBulk == Toggled(old(selectedForBulk), id)
      ensures NoDup(old(selectedForBulk)) ==> NoDup(selectedForBulk)
    {
      if NoDup(selectedForBulk) {
        ToggleKeepsNoDup(selectedForBulk, id);
      }
      if id in selectedForBulk {
        selectedForBulk := Remove(selectedForBulk, id);
      } else {
        selectedForBulk := selectedForBulk + [id];
      }
    }

    /** `handleBulkDelete`: every selected record goes, and the selection is
        emptied. */
    method HandleBulkDelete()
      modifies this`selectedForBulk, matchupStore`matchups, matchupStore`stored
      ensures matchupStore.matchups == M.BulkDeleted(old(matchupStore.matchups), old(selectedForBulk))
      ensures forall m :: m in matchupStore.matchups ==> m.id !in old(selectedForBulk)
      ensures selectedForBulk == []
      ensures matchupStore.Persisted()
    {
      matchupStore.BulkDelete(selectedForBulk);
      selectedForBulk := [];
    }

    /** `handleImport` once the file is read: the parsed list replaces the
        stored one; a parse that throws leaves everything as it was. */
    method HandleImport(isCsv: bool, text: string, json: Option<seq<Matchup>>) returns (accepted: bool)
      modifies matchupStore`matchups, matchupStore`stored
      ensures accepted <==> ImportedData(isCsv, text, json).Some?
      ensures accepted ==> (matchupStore.matchups == ImportedData(isCsv, text, json).value
        && matchupStore.Persisted())
      ensures !accepted ==> (matchupStore.matchups == old(matchupStore.matchups)
        && matchupStore.stored == old(matchupStore.stored))
    {
      var data := ImportedData(isCsv, text, json);
      accepted := data.Some?;
      if accepted {
        matchupStore.ImportMatchups(data.value);
      }
    }

    // ---------- tournaments ----------

    method HandleCreateTournament(t: Tournament)
      modifies this`isCreatingTournament, tournamentStore`tournaments, tournamentStore`stored
      ensures tournamentStore.tournaments == old(tournamentStore.tournaments) + [t]
      ensures tournamentStore.Persisted() && !isCreatingTournament
    {
      tournamentStore.AddTournament(t);
      isCreatingTournament := false;
    }

    method HandleSelectTournament(id: string)
      modifies this`selectedTournamentId, this`isCreatingTournament
      ensures selectedTournamentId == Some(id) && !isCreatingTournament
    {
      selectedTournamentId := Some(id);
      isCreatingTournament := false;
    }

    /** `handleDeleteTournament`: the tournament is gone and, if it was the
        selected one, nothing is selected. */
    method HandleDeleteTournament(id: string)
      modifies this`selectedTournamentId, tournamentStore`tournaments, tournamentStore`stored
      ensures tournamentStore.tournaments == T.WithoutTournament(old(tournamentStore.tournaments), id)
      ensures selectedTournamentId == (if old(selectedTournamentId) == Some(id) then None else old(selectedTournamentId))
      ensures selectedTournamentId != Some(id)
      ensures T.FindTournament(tournamentStore.tournaments, id).None?
      ensures tournamentStore.Persisted()
    {
      if selectedTournamentId == Some(id) {
        selectedTournamentId := None;
      }
      tournamentStore.DeleteTournament(id);
    }

    /** `handleAddTournamentRound`: nothing without a selected tournament;
        an empty enemy team is refused; nothing for a tournament that no
        longer exists; otherwise the edited round is patched, or a new round
        of the selected tournament is appended, and the round form is
        cleared. */
    method HandleAddTournamentRound(id: string, now: string)
      modifies this`tournamentEnemyPokemon, this`tournamentResult, this`tournamentEditingId,
        this`tournamentErrorMessage, tournamentStore`tournaments, tournamentStore`stored
      ensures tournamentErrorMessage == (
        if !IsSet(selectedTournamentId) then old(tournamentErrorMessage)
        else if |old(tournamentEnemyPokemon)| == 0 then EnemyTeamEmpty
        else "")
      ensures !old(RoundAccepted()) ==>
        (unchanged(tournamentStore)
        && tournamentEnemyPokemon == old(tournamentEnemyPokemon)
        && tournamentResult == old(tournamentResult) && tournamentEditingId == old(tournamentEditingId))
      ensures old(RoundAccepted()) ==>
        (RoundFormCleared() && tournamentStore.Persisted()
        && tournamentStore.tournaments == SubmittedRound(old(tournamentStore.tournaments),
          selectedTournamentId.value, old(tournamentEditingId), old(tournamentEnemyPokemon),
          old(tournamentResult), id, now))
    {
      if !IsSet(selectedTournamentId) {
        return;
      }
      var tournamentId := selectedTournamentId.value;
      tournamentErrorMessage := "";
      if |tournamentEnemyPokemon| == 0 {
        tournamentErrorMessage := EnemyTeamEmpty;
        return;
      }
      if T.FindTournament(tournamentStore.tournaments, tournamentId).None? {
        return;
      }
      SaveRound(id, now);
    }

    /** The accepted branch of `handleAddTournamentRound`: the round is
        stored and the round form is cleared. */
    method SaveRound(id: string, now: string)
      requires RoundAccepted()
      modifies this`tournamentEnemyPokemon, this`tournamentResult, this`tournamentEditingId,
        tournamentStore`tournaments, tournamentStore`stored
      ensures RoundFormCleared() && tournamentStore.Persisted()
      ensures tournamentStore.tournaments == SubmittedRound(old(tournamentStore.tournaments),
        selectedTournamentId.value, old(tournamentEditingId), old(tournamentEnemyPokemon),
        old(tournamentResult), id, now)
    {
      var tournamentId := selectedTournamentId.value;
      var enemy, result, editing := tournamentEnemyPokemon, tournamentResult, tournamentEditingId;
      ghost var saved := SubmittedRound(tournamentStore.tournaments, tournamentId, editing, enemy, result, id, now);
      if IsSet(editing) {
        tournamentStore.UpdateRoundInTournament(tournamentId, editing.value, RoundEditPatch(enemy, result, now));
      } else {
        tournamentStore.AddRoundToTournament(tournamentId, NewRound(id, tournamentId, enemy, result, now));
      }
      assert tournamentStore.tournaments == saved;
      tournamentEnemyPokemon := [];
      tournamentResult := Win;
      tournamentEditingId := None;
    }

    method HandleCancelTournamentEdit()
      modifies this`tournamentEnemyPokemon, this`tournamentResult, this`tournamentEditingId,
        this`tournamentErrorMessage
      ensures RoundFormCleared() && tournamentErrorMessage == ""
    {
      tournamentEnemyPokemon := [];
      tournamentResult := Win;
      tournamentEditingId := None;
      tournamentErrorMessage := "";
    }
  }

  /** The round a submit creates: it belongs to the selected tournament. */
  function NewRound(id: string, tournamentId: string, enemy: seq<string>, result: RoundResult, now: string): (r: TournamentRound)
    ensures r.id == id && r.tournamentId == tournamentId
    ensures r.enemyPokemon == enemy && r.result == result
    ensures r.createdAt == r.updatedAt == now
  {
    TournamentRound(id, tournamentId, enemy, result, now, now)
  }

  /** The patch a submit applies to an edited round: enemy team, result and
      update time only. */
  function RoundEditPatch(enemy: seq<string>, result: RoundResult, now: string): (p: T.RoundPatch)
    ensures p.id.None? && p.tournamentId.None? && p.createdAt.None?
  {
    T.RoundPatch(None, None, Some(enemy), Some(result), None, Some(now))
  }

  /** The tournaments after a round submit: the edited round patched, or a
      new round appended to the tournament. */
  function SubmittedRound(ts: seq<Tournament>, tournamentId: string, editingId: Option<string>,
                          enemy: seq<string>, result: RoundResult, id: string, now: string): seq<Tournament> {
    if IsSet(editingId) then
      T.WithRoundUpdated(ts, tournamentId, editingId.value, RoundEditPatch(enemy, result, now))
    else
      T.WithRoundAdded(ts, tournamentId, NewRound(id, tournamentId, enemy, result, now))
  }

  /** A new round submitted for an existing selected tournament is counted
      in that tournament's standing. */
  lemma SubmittedRoundCounted(ts: seq<Tournament>, tournamentId: string, id: string,
                              enemy: seq<string>, result: RoundResult, now: string)
    requires T.FindTournament(ts, tournamentId).Some?
    ensures T.GetTournamentStanding(
        T.WithRoundAdded(ts, tournamentId, NewRound(id, tournamentId, enemy, result, now)), tournamentId).totalRounds
      == T.GetTournamentStanding(ts, tournamentId).totalRounds + 1
    ensures T.GetTournamentStanding(
        T.WithRoundAdded(ts, tournamentId, NewRound(id, tournamentId, enemy, result, now)), tournamentId).wins
      == T.GetTournamentStanding(ts, tournamentId).wins + (if result in {Win, NoShow, Bye} then 1 else 0)
  {
    T.StandingAfterRoundAdded(ts, tournamentId, NewRound(id, tournamentId, enemy, result, now));
  }

  /** Editing a round keeps the round's id, tournament and creation time. */
  lemma RoundEditKeepsIdentity(rounds: seq<TournamentRound>, roundId: string,
                               enemy: seq<string>, result: RoundResult, now: string)
    ensures forall i :: 0 <= i < |rounds| ==>
      T.UpdatedRounds(rounds, roundId, RoundEditPatch(enemy, result, now))[i].id == rounds[i].id
      && T.UpdatedRounds(rounds, roundId, RoundEditPatch(enemy, result, now))[i].tournamentId == rounds[i].tournamentId
      && T.UpdatedRounds(rounds, roundId, RoundEditPatch(enemy, result, now))[i].createdAt == rounds[i].createdAt
  {
  }
}
