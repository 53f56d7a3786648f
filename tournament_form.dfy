/** The `TournamentForm` component: its fields, the check on submit and the
    tournament record it hands to the page. */
module TournamentForm {
  import opened Wrappers
  import opened Strings
  import opened Types

  const NameRequired: string := "Tournament name is required"

  /** The record a submit creates, or `None` when the trimmed name is
      empty. `id` and `now` stand for `Date.now()` and the ISO timestamp. */
  function NewTournament(name: string, kind: TournamentType, format: TournamentFormat,
                         location: string, date: string, deck: seq<string>,
                         id: string, now: string): (t: Option<Tournament>)
    ensures t.None? <==> IsBlank(name)
    ensures t.Some? ==> t.value.name == Trim(name) && t.value.name != ""
    ensures t.Some? ==> (t.value.kind == kind && t.value.format == format
      && t.value.date == date && t.value.deck == deck && t.value.rounds == [])
    ensures t.Some? ==> t.value.id == id && t.value.createdAt == now && t.value.updatedAt == now
    ensures t.Some? ==> (t.value.location.None? <==> IsBlank(location))
    ensures t.Some? && t.value.location.Some? ==> t.value.location.value == Trim(location)
  {
    TrimEmptyIffBlank(name);
    TrimEmptyIffBlank(location);
    if Trim(name) == "" then None
    else
      var trimmedLocation := Trim(location);
      Some(Tournament(id, Trim(name), kind, format,
        if trimmedLocation == "" then None else Some(trimmedLocation),
        date, deck, [], now, now))
  }

  /** Submitting twice in a row with the same field text creates the same
      record: trimming the stored name and location again changes nothing. */
  lemma NewTournamentFromTrimmedFields(name: string, kind: TournamentType, format: TournamentFormat,
                                       location: string, date: string, deck: seq<string>,
                                       id: string, now: string)
    ensures NewTournament(Trim(name), kind, format, Trim(location), date, deck, id, now)
      == NewTournament(name, kind, format, location, date, deck, id, now)
  {
    TrimIdempotent(name);
    TrimIdempotent(location);
  }

  /** The deck is taken as it is: an empty deck is accepted. */
  lemma EmptyDeckAccepted(name: string, kind: TournamentType, format: TournamentFormat,
                          location: string, date: string, id: string, now: string)
    requires !IsBlank(name)
    ensures NewTournament(name, kind, format, location, date, [], id, now).Some?
  {
  }

  /** The form's fields and its error line. */
  class TournamentFormState {
    var name: string
    var kind: TournamentType
    var format: TournamentFormat
    var location: string
    var date: string
    var deck: seq<string>
    var errorMessage: string

    /** A fresh form: empty name and location, a Regional best-of-3, today's
        date, no deck and no error. */
    constructor (today: string)
      ensures name == "" && location == "" && date == today && deck == []
      ensures kind == Regional && format == Bo3 && errorMessage == ""
    {
      name := "";
      kind := Regional;
      format := Bo3;
      location := "";
      date := today;
      deck := [];
      errorMessage := "";
    }

    /** `handleSubmit`: the error is cleared, a blank name is refused with
        its message, otherwise the record is created and every field but the
        deck is reset. */
    method HandleSubmit(id: string, now: string, today: string) returns (created: Option<Tournament>)
      modifies this`name, this`kind, this`format, this`location, this`date, this`errorMessage
      ensures created == NewTournament(old(name), old(kind), old(format), old(location),
                                       old(date), old(deck), id, now)
      ensures created.None? ==> (errorMessage == NameRequired
        && name == old(name) && kind == old(kind) && format == old(format)
        && location == old(location) && date == old(date))
      ensures created.Some? ==> (errorMessage == ""
        && name == "" && kind == Regional && format == Bo3 && location == "" && date == today)
      ensures deck == old(deck)
    {
      errorMessage := "";
      TrimEmptyIffBlank(name);
      if Trim(name) == "" {
        errorMessage := NameRequired;
        return None;
      }
      created := NewTournament(name, kind, format, location, date, deck, id, now);
      name := "";
      kind := Regional;
      format := Bo3;
      location := "";
      date := today;
    }
  }
}
