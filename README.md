# Pokemon TCG matchup and tournament logger: a Dafny model

This browser app records matches of the Pokemon trading card game. For each
match it logs the player's team, the opponent's team, a result, the turn
order and notes. It also tracks tournaments round by round. This project
models the logic behind the app:

- the two storage-backed hooks:
  - `useMatchups`, the list of logged matches;
  - `useTournaments`, the tournaments with their rounds, the round resolver
    and the standing calculator;
- the statistics panel:
  - archetype keys;
  - the win matrix;
  - the overall win rate;
  - the cell colour buckets;
- the history list's search, sort and visibility rules;
- the species selector: its dropdown, its capped selection and its sprite URLs;
- the tournament creation form;
- the page's handlers:
  - the match form's validate-then-create-or-update step;
  - bulk selection;
  - the recently used species;
  - CSV export and import;
  - tournament-round submission.

Each hook or component with state is a class:

| Dafny class | what it holds |
|---|---|
| `Matchups.MatchupStore`, `Tournaments.TournamentStore` | the list in memory and what storage holds |
| `Selector.PokemonSelector` | the selection, the search text and the open flag |
| `TournamentForm.TournamentFormState` | the form fields and the error line |
| `Page.Home` | the page's form state, next to its two stores |

Each state-changing method ties its new state to a function of the old state. The properties are proved about those functions.

Storage is a `Stored<T>` value: `Missing`, `Unparsable` or `Saved(list)`. `SaveToStorage` sets storage to `Saved(data)` and changes nothing else. Every other store method that changes the list ends with `Persisted()`: storage holds exactly the list in memory. The constructor only loads the snapshot.

Modules, one per file:

- `Wrappers`: `Option`, `Result`.
- `Lists`: filter, count, distinct, take, remove, and a stable insertion sort under a total preorder.
- `Strings`:
  - code-point lexicographic order;
  - split and join;
  - substring search and replace;
  - ASCII lower-casing, and trimming of ECMAScript white space and line terminators (`Strings.IsSpace`).
- `Types`: the records of `src/types/tournament.ts`, and the page's `Matchup`.
- `Rates`: the win percentage.
- The source's own units: `Tournaments`, `Matchups`, `Statistics`, `History`, `Sprites`, `Selector`, `TournamentForm`, `Csv` and `Page`.

## Model

| member | source | states |
|---|---|---|
| Tournaments.CalculateRoundResult | src/hooks/useTournaments.ts:80-111 | the resolver only ever returns win, lose or tie, never no_show or bye |
| Tournaments.Bo1DecisionTable | src/hooks/useTournaments.ts:81-85 | best of one: win exactly when wins is 1; otherwise lose exactly when losses is 1; otherwise tie; (1,1,0) is a win |
| Tournaments.Bo3DecisionTable | src/hooks/useTournaments.ts:86-110 | best of three over game counts: the full decision table, with two wins beating two losses, (1,0,1) a win, (0,1,1) a loss and every undecided tally a tie |
| Tournaments.Bo3SingleGame | src/hooks/useTournaments.ts:88-95 | best of three with one game played: the round is that game's outcome |
| Tournaments.Bo3LastTestUnreachable | src/hooks/useTournaments.ts:102-109 | a tally that passes every earlier test is never 1-1-1, so the test at line 107 can never fire, and the result is tie |
| Tournaments.RoundTalliesPartition | src/hooks/useTournaments.ts:121-126 | every round is counted in exactly one of wins, losses and ties |
| Tournaments.StandingOf | src/hooks/useTournaments.ts:121-129 | wins count win, no_show and bye; losses count lose; ties count tie; they add up to the number of rounds; the rate is `WinRate(wins, totalRounds)`, i.e. 0 for no rounds and otherwise wins/total × 100, so it lies in [0,100] |
| Tournaments.StandingAfterAddedRound | src/hooks/useTournaments.ts:121-126 | appending a round raises exactly the tally of its result, and the total, by one |
| Tournaments.IndexOfTournament | src/hooks/useTournaments.ts:115 | the position found holds the id, and no earlier position does; no position is found when no tournament has the id |
| Tournaments.FindTournament | src/hooks/useTournaments.ts:115 | a tournament is found exactly when one has the id, and it is one of the list with that id |
| Tournaments.GetTournamentStanding | src/hooks/useTournaments.ts:114-130 | all zeros for an unknown id, otherwise the standing of that tournament's rounds; the tallies add up and the rate is `WinRate(wins, totalRounds)`, so it lies in [0,100] |
| Tournaments.UpdatedTournaments | src/hooks/useTournaments.ts:31-34 | same length and order; tournaments with the id get the patch's fields; every other tournament is unchanged |
| Tournaments.WithoutTournament | src/hooks/useTournaments.ts:39-40 | exactly the tournaments with other ids stay, and the id is no longer found |
| Tournaments.WithoutTournamentAppend | src/hooks/useTournaments.ts:39-40 | deleting from a concatenation deletes from each part and concatenates: the kept tournaments stay in order with their multiplicity |
| Tournaments.WithoutTournamentOne | src/hooks/useTournaments.ts:39-40 | the empty list stays empty; a single tournament is dropped exactly when it has the id |
| Tournaments.WithRoundAdded | src/hooks/useTournaments.ts:45-50 | same length and order; the matching tournament gets the round appended; all others are unchanged |
| Tournaments.UpdatedRounds | src/hooks/useTournaments.ts:60-62 | same length and order; rounds with the id get the patch; others are unchanged |
| Tournaments.WithRoundUpdated | src/hooks/useTournaments.ts:55-65 | only the matching tournament's rounds are updated; the list keeps its length and order |
| Tournaments.RemainingRounds | src/hooks/useTournaments.ts:73 | exactly the rounds with other ids stay |
| Tournaments.RemainingRoundsAppend | src/hooks/useTournaments.ts:73 | deleting from a concatenation deletes from each part and concatenates: the kept rounds stay in order with their multiplicity |
| Tournaments.RemainingRoundsOne | src/hooks/useTournaments.ts:73 | the empty list stays empty; a single round is dropped exactly when it has the id |
| Tournaments.WithRoundDeleted | src/hooks/useTournaments.ts:70-75 | only the matching tournament loses its rounds with that id; the list keeps its length and order |
| Tournaments.AddedRoundThenDeleted | src/hooks/useTournaments.ts:45-78 | deleting a round that was just added under a fresh id gives back the original list |
| Tournaments.RemainingRoundsWithoutMatch | src/hooks/useTournaments.ts:73 | deleting a round id that no round has changes nothing |
| Tournaments.IndexOfTournamentSameIds | src/hooks/useTournaments.ts:115 | two lists with the same ids at each position find an id at the same place |
| Tournaments.StandingAfterRoundAdded | src/hooks/useTournaments.ts:45-53 | after a round is added to a known tournament, its standing counts one more round, in the tally of that round's result |
| Tournaments.TournamentStore.constructor | src/hooks/useTournaments.ts:8-19 | the list is the saved one, or empty when storage is missing or unparsable; loading ends in every case |
| Tournaments.TournamentStore.SaveToStorage | src/hooks/useTournaments.ts:21-23 | storage then holds the list given |
| Tournaments.TournamentStore.AddTournament | src/hooks/useTournaments.ts:25-29 | the tournament is appended and storage holds the new list |
| Tournaments.TournamentStore.UpdateTournament | src/hooks/useTournaments.ts:31-37 | the list becomes UpdatedTournaments and is persisted |
| Tournaments.TournamentStore.DeleteTournament | src/hooks/useTournaments.ts:39-43 | the list becomes WithoutTournament and is persisted |
| Tournaments.TournamentStore.AddRoundToTournament | src/hooks/useTournaments.ts:45-53 | the list becomes WithRoundAdded and is persisted |
| Tournaments.TournamentStore.UpdateRoundInTournament | src/hooks/useTournaments.ts:55-68 | the list becomes WithRoundUpdated and is persisted |
| Tournaments.TournamentStore.DeleteRoundFromTournament | src/hooks/useTournaments.ts:70-78 | the list becomes WithRoundDeleted and is persisted |
| Rates.WinRate | src/hooks/useTournaments.ts:127 | 0 with no rounds; otherwise rate times total equals 100 times wins; the rate lies in [0,100] |
| Matchups.Updated | src/hooks/useMatchups.ts:41-44 | same length and order; records with the id get the supplied fields; others are unchanged |
| Matchups.Deleted | src/hooks/useMatchups.ts:49-50 | exactly the records with other ids stay; nothing is invented or duplicated |
| Matchups.DeletedAppend | src/hooks/useMatchups.ts:49-50 | deleting from a concatenation deletes from each part and concatenates: the kept records stay in order with their multiplicity |
| Matchups.DeletedOne | src/hooks/useMatchups.ts:49-50 | the empty list stays empty; a single record is dropped exactly when it has the id |
| Matchups.BulkDeleted | src/hooks/useMatchups.ts:55-56 | exactly the records whose id is not listed stay; nothing is invented or duplicated |
| Matchups.BulkDeletedAppend | src/hooks/useMatchups.ts:55-56 | bulk deletion from a concatenation deletes from each part and concatenates: the kept records stay in order with their multiplicity |
| Matchups.BulkDeletedOne | src/hooks/useMatchups.ts:55-56 | the empty list stays empty; a single record is dropped exactly when its id is listed |
| Matchups.DeleteIdempotent | src/hooks/useMatchups.ts:49-53 | deleting the same id twice equals deleting it once |
| Matchups.BulkDeleteNothing | src/hooks/useMatchups.ts:55-59 | a bulk delete of no ids keeps the list |
| Matchups.BulkDeleteOne | src/hooks/useMatchups.ts:49-59 | a bulk delete of one id equals a single delete |
| Matchups.BulkDeleteIsRepeatedDelete | src/hooks/useMatchups.ts:49-59 | a bulk delete equals deleting its ids one after another |
| Matchups.BulkDeleteStep | src/hooks/useMatchups.ts:49-59 | adding an id to a bulk delete equals one more single delete |
| Matchups.AddThenDelete | src/hooks/useMatchups.ts:35-53 | deleting a record just added under a fresh id gives back the list |
| Matchups.UpdateKeepsIdentity | src/hooks/useMatchups.ts:41-44 | a patch without id or creation time keeps every record's id and creation time |
| Matchups.MatchupStore.constructor | src/hooks/useMatchups.ts:18-29 | the list is the saved one, or empty when storage is missing or unparsable; loading ends in every case |
| Matchups.MatchupStore.SaveToStorage | src/hooks/useMatchups.ts:31-33 | storage then holds the list given |
| Matchups.MatchupStore.AddMatchup | src/hooks/useMatchups.ts:35-39 | the record is appended and storage holds the new list |
| Matchups.MatchupStore.UpdateMatchup | src/hooks/useMatchups.ts:41-47 | the list becomes Updated and is persisted |
| Matchups.MatchupStore.DeleteMatchup | src/hooks/useMatchups.ts:49-53 | the list becomes Deleted and is persisted |
| Matchups.MatchupStore.BulkDelete | src/hooks/useMatchups.ts:55-59 | the list becomes BulkDeleted and is persisted |
| Matchups.MatchupStore.ImportMatchups | src/hooks/useMatchups.ts:61-64 | the list is replaced wholesale and persisted |
| Statistics.ArchetypeKeyIgnoresOrder | src/components/Statistics.tsx:21-22 | two teams with the same names in any order have the same key |
| Statistics.ArchetypeKeySplitsIntoTeam | src/components/Statistics.tsx:39 | splitting a key on the bar gives back the team's sorted names |
| Statistics.DistinctSorted | src/components/Statistics.tsx:21-22 | `Array.from(new Set(keys)).sort()` is strictly ascending, duplicate-free, and holds exactly the keys |
| Statistics.MyArchetypes | src/components/Statistics.tsx:21 | strictly ascending, duplicate-free, and each key is the own-team key of some match (and every match's key is listed) |
| Statistics.EnemyArchetypes | src/components/Statistics.tsx:22 | the same for the opposing teams |
| Statistics.CellOf | src/components/Statistics.tsx:25-35 | a cell's wins never exceed its total, which never exceeds the number of matches |
| Statistics.CellWithDataHasMatch | src/components/Statistics.tsx:31-33 | a cell with a non-zero total comes from some match with that key pair |
| Statistics.CellOfAppend | src/components/Statistics.tsx:26-35 | one more match adds one to its own cell's total, one to its wins when it was won, and nothing to any other cell |
| Statistics.BuildWinMatrix | src/components/Statistics.tsx:25-35 | every looked-up cell holds the count of matches with that key pair and the wins among them; stored cells are non-empty; stored row and column keys are listed archetypes |
| Statistics.CountMatch | src/components/Statistics.tsx:31-34 | the match's cell is created when missing and then counted |
| Statistics.EnsureCell | src/components/Statistics.tsx:31-32 | the row and cell exist afterwards, with their old contents |
| Statistics.CountMatchTracksCells | src/components/Statistics.tsx:26-35 | each step of the loop keeps the matrix equal to the counts of the matches seen so far |
| Statistics.LookupAfterStore | src/components/Statistics.tsx:31-34 | storing a cell changes only that cell |
| Statistics.CountedInItsCell | src/components/Statistics.tsx:33-34 | a match adds to its own cell exactly |
| Statistics.RowTotalStep | src/components/Statistics.tsx:26-35 | one more match adds one to its own row's sum of totals over a duplicate-free column list holding its key |
| Statistics.GridTotalStep | src/components/Statistics.tsx:26-35 | one more match adds one to the grid's sum of totals when its keys are listed |
| Statistics.GridTotalCountsEveryMatch | src/components/Statistics.tsx:26-35 | with every match's keys listed, the grid's totals add up to the number of matches |
| Statistics.GridTotalEmpty | src/components/Statistics.tsx:25 | with no matches every total is zero |
| Statistics.RowTotalEmpty | src/components/Statistics.tsx:25 | with no matches every row sums to zero |
| Statistics.MatrixTotalIsMatchCount | src/components/Statistics.tsx:26-35 | the totals of the displayed matrix add up to the number of matches: each match is counted exactly once |
| Statistics.OverallWinRate | src/components/Statistics.tsx:76 | 0 for no matches; otherwise rate times count equals 100 times the number won; within [0,100] |
| Statistics.CellColor | src/components/Statistics.tsx:50-64 | the no-data class exactly when there is no data; otherwise one of the ten palette classes, never the no-data class |
| Statistics.Bucket | src/components/Statistics.tsx:54-63 | the bucket index lies among the ten classes |
| Statistics.CellColorIsBucket | src/components/Statistics.tsx:54-63 | with data, the colour is the palette entry of the percentage's ten-point bucket |
| Statistics.RenderCell | src/components/Statistics.tsx:101-105 | a dash with the no-data class exactly for a cell without matches; otherwise its figures, the percentage `WinRate(wins, total)` (in [0,100]) and that percentage's bucket colour |
| Statistics.WithSortedTeams | src/components/Statistics.tsx:21-22 | the in-place `.sort()`: each match keeps everything but gets both teams sorted |
| Statistics.CellOfDependsOnKeysAndResults | src/components/Statistics.tsx:26-35 | cells depend only on each match's keys and result |
| Statistics.SortingTeamsKeepsMatrix | src/components/Statistics.tsx:21-28 | sorting the teams in place changes no key and no cell |
| History.AnyContains | src/components/MatchupHistory.tsx:51 | true exactly when some name, lower-cased, contains the needle |
| History.EmptySearchKeepsAll | src/components/MatchupHistory.tsx:49 | the empty search keeps every match, in order |
| History.LowerIdempotent | src/components/MatchupHistory.tsx:51 | lower-casing twice is lower-casing once |
| History.SearchIgnoresCase | src/components/MatchupHistory.tsx:51 | a search and its lower-cased form keep the same matches |
| History.AnyContainsAppend | src/components/MatchupHistory.tsx:50-51 | searching both teams together is searching each team |
| History.NonEmptySearch | src/components/MatchupHistory.tsx:50-51 | a non-empty search keeps a match exactly when one of its own or opposing names contains the text, ignoring case |
| History.ComparatorIsTotalPreorder | src/components/MatchupHistory.tsx:53-56 | both sort orders are total preorders, so the sort is well defined |
| History.FilteredMatchups | src/components/MatchupHistory.tsx:47-57 | a permutation of the filtered matches, sorted by the chosen order; a match is shown exactly when it is listed and matches the search |
| History.EmptySearchShowsEveryMatch | src/components/MatchupHistory.tsx:47-57 | with no search, the list shows every match once |
| History.ByResultPutsLossesFirst | src/components/MatchupHistory.tsx:55 | sorted by result, no win comes before a loss |
| History.ByDateNewestFirst | src/components/MatchupHistory.tsx:54 | sorted by date, creation times never increase along the list |
| History.ToggleNotes | src/components/MatchupHistory.tsx:121 | the notes toggle clears exactly when that match's notes are the ones shown |
| History.ToggleNotesFlips | src/components/MatchupHistory.tsx:113-121 | pressing a match's notes button flips whether its notes show; no other match's notes show afterwards |
| Sprites.Png | src/hooks/usePokemonMap.ts:29-56 | every sprite URL lies under the sprite host and ends in `.png` |
| Sprites.DirectoriesUnderBase | src/hooks/usePokemonMap.ts:29-56 | the three sprite directories lie under the sprite host |
| Sprites.MegaSprite | src/hooks/usePokemonMap.ts:39-46 | the mega sprite URL lies under the host and ends in `.png` |
| Sprites.GmaxSprite | src/hooks/usePokemonMap.ts:50-52 | the gigantamax sprite URL lies under the host and ends in `.png` |
| Sprites.SpriteUrl | src/hooks/usePokemonMap.ts:26-57 | every URL lies under the host and ends in `.png`; a mega name uses the mega rule on the name with its first `-mega` removed; a gmax name uses the gigantamax rule |
| Sprites.OgerponFormUrl | src/hooks/usePokemonMap.ts:26-30 | `ogerpon-<rest>` maps to the scarlet-violet sprite of `rest` with its first `-mask` removed |
| Sprites.OgerponUrl | src/hooks/usePokemonMap.ts:32-34 | `ogerpon` maps to the scarlet-violet ogerpon sprite |
| Sprites.MegaFirstOccurrence | src/hooks/usePokemonMap.ts:37 | the first `-mega` of `p-mega<rest>` is the one after `p` when `p` has none |
| Sprites.FormSuffixAddsNoMega | src/hooks/usePokemonMap.ts:36 | appending `-x` or `-y` creates no `-mega` |
| Sprites.MegaSpriteOfForm | src/hooks/usePokemonMap.ts:39-46 | a remainder ending in `-x`/`-y` puts that form after `-mega`; any other remainder gets `-mega` appended |
| Sprites.MegaFormEnding | src/hooks/usePokemonMap.ts:39-43 | a remainder ending in `-x`/`-y` maps to the go sprite with the form after `-mega` |
| Sprites.MegaUrl | src/hooks/usePokemonMap.ts:36-47 | `p-mega`, `p-mega-x` and `p-mega-y` map to the go sprite of the same name |
| Sprites.MegaFormMovesAfterMega | src/hooks/usePokemonMap.ts:39-43 | `p-x-mega` and `p-y-mega` map to the go sprite `p-mega-x` and `p-mega-y` |
| Sprites.GmaxUrl | src/hooks/usePokemonMap.ts:49-53 | `p-gmax` maps to the home sprite `p-gigantamax` |
| Sprites.GigantamaxUrl | src/hooks/usePokemonMap.ts:49-53 | `p-gigantamax` maps to the home sprite `p-gigantamax` |
| Sprites.GmaxInsideKept | src/hooks/usePokemonMap.ts:50-52 | only a trailing suffix is stripped: a name with `-gmax` inside keeps it, and gets `-gigantamax` appended |
| Sprites.RegularUrl | src/hooks/usePokemonMap.ts:55-57 | every other name maps to its home sprite |
| Sprites.RegularUrlsDistinct | src/hooks/usePokemonMap.ts:55-57 | distinct regular names get distinct URLs |
| Sprites.BuildPokemonMap | src/hooks/usePokemonMap.ts:19-60 | the map has a key for exactly the listed names, each mapped to its sprite URL, however often it is listed |
| Sprites.LoadPokemonMap | src/hooks/usePokemonMap.ts:7-67 | a failed fetch leaves the map empty; otherwise the map built from the fetched names |
| Selector.PokemonEntries | src/components/PokemonSelector.tsx:38-82 | one entry per fetched name, in order, numbered from 1, with the same sprite URL as the map |
| Selector.EntryIdsIncrease | src/components/PokemonSelector.tsx:79 | entry numbers strictly increase along the list |
| Selector.FilteredPokemon | src/components/PokemonSelector.tsx:103-107 | at most 50 entries; each is listed, matches the search ignoring case and is not selected; they are the leading matches in list order, and all of them when fewer than 50 match |
| Selector.SelectedNeverListed | src/components/PokemonSelector.tsx:105 | a selected species is never offered |
| Selector.ContainsEmpty | src/components/PokemonSelector.tsx:105 | every name contains the empty search text |
| Selector.EmptySearchListsUnselected | src/components/PokemonSelector.tsx:103-107 | with nothing typed, the first 50 unselected species are listed |
| Selector.AfterSelect | src/components/PokemonSelector.tsx:109-117 | a selected name is removed (`Remove`, the others kept in order); an unselected one is appended at the end, after the others in their order, while below the cap; at the cap nothing changes; other names are untouched |
| Selector.SelectKeepsSelectionValid | src/components/PokemonSelector.tsx:109-117 | a duplicate-free selection within the cap stays so |
| Selector.SelectTwiceRestores | src/components/PokemonSelector.tsx:110-113 | picking an unselected species twice gives back the selection |
| Selector.SelectSelectedIsRemove | src/components/PokemonSelector.tsx:110-121 | picking a selected species equals its remove button |
| Selector.RemoveUnselectedNoChange | src/components/PokemonSelector.tsx:119-121 | removing an unselected name changes nothing |
| Selector.PokemonSelector.constructor | src/components/PokemonSelector.tsx:19-23 | empty search, closed dropdown, the given selection and cap |
| Selector.PokemonSelector.HandleSelect | src/components/PokemonSelector.tsx:109-117 | the selection becomes AfterSelect; only an append clears the search and closes the dropdown; validity is kept |
| Selector.PokemonSelector.RemoveSelected | src/components/PokemonSelector.tsx:119-121 | the name is removed, the others keep their order; validity is kept |
| TournamentForm.NewTournament | src/components/TournamentForm.tsx:35-51 | no record exactly when the name is blank; otherwise the trimmed name, the chosen type, format, date and deck, no rounds, and a location that is the trimmed text or absent when blank |
| TournamentForm.NewTournamentFromTrimmedFields | src/components/TournamentForm.tsx:42-45 | submitting already-trimmed text creates the same record |
| TournamentForm.EmptyDeckAccepted | src/components/TournamentForm.tsx:35-51 | an empty deck does not block creation |
| TournamentForm.TournamentFormState.constructor | src/components/TournamentForm.tsx:13-19 | empty name and location, regional best-of-3, today's date, no deck, no error |
| TournamentForm.TournamentFormState.HandleSubmit | src/components/TournamentForm.tsx:31-61 | a blank name sets the required message and changes no field; otherwise the record is created, the error cleared, name, type, format, location and date reset; the deck is never reset |
| Csv.ExportCells | src/app/page.tsx:332-341 | one cell per header column |
| Csv.QuoteCells | src/app/page.tsx:342 | every cell wrapped in double quotes |
| Csv.ExportRows | src/app/page.tsx:332-342 | one row per match, in order |
| Csv.At | src/app/page.tsx:366-374 | a column past the end of the line reads as undefined |
| Csv.NotesOf | src/app/page.tsx:369 | empty notes become null; others are kept |
| Csv.Unquoted | src/app/page.tsx:364 | every `"` is stripped from each value |
| Csv.ParseLine | src/app/page.tsx:363-376 | a line fails exactly when it has fewer than three comma-separated values |
| Csv.ParseLines | src/app/page.tsx:363-376 | all lines parse or the whole import fails; the records are the lines' parses in order |
| Csv.BlankLineRejected | src/app/page.tsx:363-376 | a blank line fails to parse |
| Csv.TrailingNewlineRejected | src/app/page.tsx:361-376 | a file ending in a newline is rejected as a whole |
| Csv.QuoteRemoved | src/app/page.tsx:342-364 | stripping quotes undoes quoting for a cell with no quote |
| Csv.RowReadsBack | src/app/page.tsx:342-364 | a row of cells without comma, quote or newline reads back as the same cells |
| Csv.TeamCellSafe | src/app/page.tsx:334-368 | a team of names without separators joins and splits back to itself |
| Csv.ExportCellsSafe | src/app/page.tsx:332-341 | an exportable record's cells hold no separator |
| Csv.RowRoundTrip | src/app/page.tsx:332-376 | an exportable record's row parses back to it with timestamps lost |
| Csv.HeaderSafe | src/app/page.tsx:331 | the header cells hold no separator |
| Csv.ExportLines | src/app/page.tsx:330-342 | the export splits into the header row followed by one row per match |
| Csv.ExportImportRoundTrip | src/app/page.tsx:330-376 | importing an export of exportable records gives back every record, in order, except that its timestamps are lost |
| Csv.TimestampsLost | src/app/page.tsx:339-374 | after export and import both timestamps are undefined, since import reads columns 8 and 9 but export writes 0 to 7 |
| Csv.SplitCellInRow | src/app/page.tsx:342 | a cell with a comma becomes two pieces when the row is split |
| Csv.CommaInCellShiftsColumns | src/app/page.tsx:342-364 | a comma inside a cell splits it in two and shifts every later column by one |
| Csv.CommaInNotesShiftsFields | src/app/page.tsx:336-374 | a comma in the notes moves the rest of the notes into the result, the result into the turn order, and the update time into the creation time |
| Page.TeamError | src/app/page.tsx:120-138 | no error exactly when both teams hold one or two species; otherwise the first failing check's message, in the source's order |
| Page.DefaultCapAdmitsOversizedTeam | src/components/PokemonSelector.tsx:109-116 | with the selector's default cap of three, a third distinct species is appended to a two-species team, and the form then refuses that team as too large |
| Page.NewMatchup | src/app/page.tsx:150-161 | the new record carries the form's fields with creation and update time equal |
| Page.EditPatch | src/app/page.tsx:140-149 | the edit patch never names the id or the creation time, and stamps the update time |
| Page.EditKeepsIdentity | src/app/page.tsx:141-149 | saving an edit keeps every record's id and creation time and sets only the form's fields and update time on the edited record |
| Page.UnchangedEditOnlyStamps | src/app/page.tsx:141-178 | opening a record and saving it untouched only stamps its update time and turns null notes into empty ones |
| Page.Toggled | src/app/page.tsx:502-508 | a present id is removed (`Remove`, the others kept in order); an absent id is appended at the end; so the id is in the new selection exactly when it was not, and other ids are untouched |
| Page.ToggleKeepsNoDup | src/app/page.tsx:502-508 | toggling keeps the selection duplicate-free |
| Page.ToggleTwiceRestores | src/app/page.tsx:502-508 | ticking and unticking gives back the selection, in order |
| Page.ToggleTwiceMovesToEnd | src/app/page.tsx:502-508 | unticking and ticking keeps the ids and moves that id to the end |
| Page.SortedTeamNamesPermutation | src/app/page.tsx:202-204 | the in-place team sort before `allPokemon` only reorders names |
| Page.TeamNamesMembers | src/app/page.tsx:204 | a name is in the flattened teams exactly when some match uses it on either side |
| Page.AllPokemon | src/app/page.tsx:204 | duplicate-free |
| Page.AllPokemonMembers | src/app/page.tsx:204 | `allPokemon` holds exactly the names used in some team |
| Page.AllPokemonInFirstAppearanceOrder | src/app/page.tsx:204 | `allPokemon` lists names in the order of their first appearance in the (sorted) teams |
| Page.RecentPokemon | src/app/page.tsx:205 | duplicate-free, at most 20, a contiguous run at the end of `allPokemon` (so in the same order), and exactly 20 when there are that many |
| Page.RecentPokemonUsed | src/app/page.tsx:204-205 | every recent name is used by some match |
| Page.FewNamesAllRecent | src/app/page.tsx:204-205 | with at most 20 distinct names, a name is recent exactly when it is used |
| Page.Home.constructor | src/app/page.tsx:31-66 | the forms start cleared, with no error, no bulk selection and no tournament selected |
| Page.Home.HandleAddMatchup | src/app/page.tsx:117-170 | a failing check sets its message and changes nothing else; otherwise the edited record is patched or a new one appended, the list persisted and the form cleared |
| Page.Home.HandleEdit | src/app/page.tsx:172-179 | the form takes the record's fields, null notes as empty text, and its id |
| Page.Home.HandleCancelEdit | src/app/page.tsx:192-200 | the form is cleared and the error removed |
| Page.Home.HandleDelete | src/app/page.tsx:188-190 | the record is deleted and the list persisted |
| Page.Home.ToggleBulk | src/app/page.tsx:502-508 | the selection becomes Toggled and stays duplicate-free |
| Page.Home.HandleBulkDelete | src/app/page.tsx:88-91 | the selected records are deleted, none remains, and the selection is emptied |
| Page.Home.HandleImport | src/app/page.tsx:352-388 | a parsed file replaces the list and is persisted; a file that fails to parse changes nothing |
| Page.Home.HandleCreateTournament | src/app/page.tsx:215-218 | the tournament is appended and the create view closed |
| Page.Home.HandleSelectTournament | src/app/page.tsx:220-223 | the tournament is selected and the create view closed |
| Page.Home.HandleDeleteTournament | src/app/page.tsx:225-230 | the tournament is gone and is no longer the selection |
| Page.Home.HandleAddTournamentRound | src/app/page.tsx:232-267 | nothing without a selection; an empty enemy team is refused with its message; nothing for a missing tournament; otherwise the edited round is patched or a round of the selected tournament appended, and the round form cleared |
| Page.Home.HandleCancelTournamentEdit | src/app/page.tsx:269-274 | the round form is cleared and its error removed |
| Page.Home.SaveRound | src/app/page.tsx:245-266 | an accepted round submit stores `SubmittedRound` (the patched or the appended round), persists it and clears the round form |
| Page.NewRound | src/app/page.tsx:252-261 | a new round belongs to the selected tournament, with the form's enemy team and result |
| Page.RoundEditPatch | src/app/page.tsx:245-251 | a round edit never names the id, the tournament or the creation time |
| Page.SubmittedRoundCounted | src/app/page.tsx:252-261 | a submitted round of an existing tournament adds one round to its standing, and one win when its result counts as a win |
| Page.RoundEditKeepsIdentity | src/app/page.tsx:246-251 | editing a round keeps every round's id, tournament and creation time |

## Left out

- Storage, `JSON.parse`/`JSON.stringify`, `FileReader`, the downloads and page reloads are outside the model:
  - storage is the `Stored<T>` snapshot handed to the constructors;
  - a JSON import is the already-parsed list, or `None` when parsing throws;
  - a file's text is a parameter.
- The species list request is a parameter of `Sprites.LoadPokemonMap`: the fetched names, or `None` for a failed request. The selector's list is `Selector.PokemonEntries` of the same names.
- `Date.now()` ids and ISO timestamps are parameters of the methods that use them.
- Case is ASCII only: `toLowerCase` is ASCII lower-casing. `trim` is not limited to ASCII: it removes the ECMAScript white space and line terminator characters of `Strings.IsSpace`.
- String sorting:
  - `sort()` and `localeCompare` are code-point lexicographic order (`Strings.LexLe`);
  - `Array.prototype.sort` is a stable insertion sort under a total preorder. The result is the same multiset, sorted, but it is not claimed to be the browser's exact order among equal keys.
- History.FilteredMatchups: the date order compares `timeOf(createdAt)`, a parameter standing for `new Date(...).getTime()`; an invalid date's `NaN` comparison is not modelled.
- History.FilteredMatchups: a result that is undefined (possible after a CSV import) is compared as the text "undefined", where `localeCompare` on undefined would throw.
- Win rates and percentages are exact `real`s:
  - IEEE rounding and `toFixed` formatting are not modelled;
  - colour bucket thresholds are compared exactly.
- The `favorite` field the CSV import reads from column 7 is not part of `Matchup` here, since no other code reads it.
- The unused copies are not modelled separately: the history filter and the win matrix at src/app/page.tsx:105-115, 281-290 and 305-318 repeat the MatchupHistory and Statistics code.
- The sprite rule in src/components/PokemonSelector.tsx:43-75 repeats the one in src/hooks/usePokemonMap.ts:26-57 character for character. It is defined once (`Sprites.SpriteUrl`) and used for both.
- Where the selection lives:
  - `Selector.PokemonSelector` keeps its `selected` prop as a field, and `onSelect` is an assignment to it;
  - in the app, the page owns that state.
- The in-place `.sort()` of each match's teams is modelled on values (`Statistics.WithSortedTeams`), not as aliasing of the stored arrays.
- React's batched state updates and the closures that see one render's state are not modelled. Each handler runs to completion on the current state.
- Page.Home.HandleAddTournamentRound: the tournament is looked up but not otherwise used, and only its existence is modelled.
- `IsSet` treats an empty id like `null`, as JavaScript truthiness does.
- These render-only components are not part of this model:
  - `TournamentStatistics.tsx`, `TournamentSelector.tsx`, `MatchupForm.tsx`, `TournamentRoundForm.tsx`, `ToolHub.tsx` and `PokemonDetailsModal.tsx`;
  - the layout and the configuration files;
  - the dark-mode effect and scrolling.
- The page's search text, sort key, tool choice and notes visibility are plain state set by their inputs. Only their use in `History` is modelled.
