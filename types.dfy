/** The records the app stores: the closed string sets and interfaces of
    `src/types/tournament.ts`, and the `Matchup` interface that the hooks and
    components each declare. */
module Types {
  import opened Wrappers

  datatype TournamentType = Regional | Cup | Local | Challenge | International | Worlds | Other

  datatype TournamentFormat = Bo1 | Bo3

  /** `no_show` and `bye` are wins that were not played. */
  datatype RoundResult = Win | Lose | Tie | NoShow | Bye

  datatype TournamentRound = TournamentRound(
    id: string,
    tournamentId: string,
    enemyPokemon: seq<string>,
    result: RoundResult,
    createdAt: string,
    updatedAt: string)

  /** `location` is absent when the form left it blank. The field the source
      calls `type` is `kind` here (`type` is a Dafny keyword). */
  datatype Tournament = Tournament(
    id: string,
    name: string,
    kind: TournamentType,
    format: TournamentFormat,
    location: Option<string>,
    date: string,
    deck: seq<string>,
    rounds: seq<TournamentRound>,
    createdAt: string,
    updatedAt: string)

  /** A logged match. `notes` is `None` for JavaScript's `null`. The fields the
      interface types as `string` are `Option<string>` because the CSV import
      can leave them `undefined` (a column past the end of its row); every
      record the form creates has them all present. */
  datatype Matchup = Matchup(
    id: string,
    myPokemon: seq<string>,
    enemyPokemon: seq<string>,
    notes: Option<string>,
    result: Option<string>,
    turnOrder: Option<string>,
    createdAt: Option<string>,
    updatedAt: Option<string>)

  /** What `localStorage.getItem(key)` followed by `JSON.parse` yields: nothing
      (or the empty string), text that does not parse, or a parsed value. */
  datatype Stored<T> = Missing | Unparsable | Saved(value: T)

  /** The result of a round or a match that the forms start from. */
  const WinText: string := "win"
  const LoseText: string := "lose"

  /** JavaScript truthiness of an optional id: `null` and `''` are both false. */
  predicate IsSet(id: Option<string>) {
    id.Some? && id.value != ""
  }
}
