/** The `MatchupHistory` component: the search filter and the sort that
    produce the visible cards, and the predicates that decide which controls
    a card shows. */
module History {
  import opened Wrappers
  import opened Lists
  import opened Strings
  import opened Types

  // ---------- search ----------

  /** `names.some(p => p.toLowerCase().includes(needle))`. */
  function AnyContains(names: seq<string>, needle: string): (b: bool)
    ensures b <==> exists i :: 0 <= i < |names| && Contains(Lower(names[i]), needle)
  {
    if |names| == 0 then false
    else if Contains(Lower(names[0]), needle) then true
    else
      var rest := AnyContains(names[1..], needle);
      assert forall i :: 1 <= i < |names| ==> names[i] == names[1..][i - 1];
      rest
  }

  /** The filter callback: an empty search keeps everything; otherwise some
      name of either team must contain the search text, ignoring case. */
  predicate MatchesSearch(m: Matchup, search: string) {
    search == "" || AnyContains(m.myPokemon + m.enemyPokemon, Lower(search))
  }

  function Searcher(search: string): Matchup -> bool {
    (m: Matchup) => MatchesSearch(m, search)
  }

  /** An empty search keeps every match, in order. */
  lemma EmptySearchKeepsAll(ms: seq<Matchup>)
    ensures Filter(ms, Searcher("")) == ms
  {
    FilterKeepsAll(ms, Searcher(""));
  }

  lemma LowerIdempotent(s: string)
    ensures Lower(Lower(s)) == Lower(s)
  {
  }

  /** The search ignores the case of what is typed: typing it in lower case
      keeps the same matches. */
  lemma SearchIgnoresCase(m: Matchup, search: string)
    ensures MatchesSearch(m, Lower(search)) == MatchesSearch(m, search)
  {
    LowerIdempotent(search);
    assert Lower(search) == "" <==> search == "";
  }

  lemma {:induction false} AnyContainsAppend(a: seq<string>, b: seq<string>, needle: string)
    ensures AnyContains(a + b, needle) == (AnyContains(a, needle) || AnyContains(b, needle))
  {
    if |a| > 0 {
      assert (a + b)[0] == a[0] && (a + b)[1..] == a[1..] + b;
      AnyContainsAppend(a[1..], b, needle);
    } else {
      assert a + b == b;
    }
  }

  /** A non-empty search keeps a match exactly when a name of its own team or
      of the enemy team, in lower case, contains the lower-cased search text. */
  lemma NonEmptySearch(m: Matchup, search: string)
    requires search != ""
    ensures MatchesSearch(m, search) <==>
      AnyContains(m.myPokemon, Lower(search)) || AnyContains(m.enemyPokemon, Lower(search))
  {
    AnyContainsAppend(m.myPokemon, m.enemyPokemon, Lower(search));
  }

  // ---------- sort ----------

  /** The two sort orders the select offers. */
  datatype SortKey = ByDate | ByResult

  /** The text a match's result compares as. */
  function ResultText(m: Matchup): string {
    m.result.GetOr("undefined")
  }

  /** The comparator, as "`a` may come before `b`": by date, newer first
      (`timeOf` stands for `new Date(s).getTime()`); by result, in character
      order of the result text. */
  predicate InOrder(sortBy: SortKey, timeOf: Option<string> -> int, a: Matchup, b: Matchup) {
    match sortBy
    case ByDate => timeOf(a.createdAt) >= timeOf(b.createdAt)
    case ByResult => LexLe(ResultText(a), ResultText(b))
  }

  function Comparator(sortBy: SortKey, timeOf: Option<string> -> int): (Matchup, Matchup) -> bool {
    (a: Matchup, b: Matchup) => InOrder(sortBy, timeOf, a, b)
  }

  /** Both comparators are consistent: any two matches are ordered one way or
      the other, transitively. */
  lemma ComparatorIsTotalPreorder(sortBy: SortKey, timeOf: Option<string> -> int)
    ensures TotalPreorder(Comparator(sortBy, timeOf))
  {
    var le := Comparator(sortBy, timeOf);
    forall a, b ensures le(a, b) || le(b, a) {
      if sortBy == ByResult {
        LexLeTotal(ResultText(a), ResultText(b));
      }
    }
    forall a, b, c | le(a, b) && le(b, c) ensures le(a, c) {
      if sortBy == ByResult {
        LexLeTransitive(ResultText(a), ResultText(b), ResultText(c));
      }
    }
  }

  /** `filteredMatchups`: the matches the search keeps, in comparator order.
      Nothing is invented, dropped or duplicated. */
  function FilteredMatchups(ms: seq<Matchup>, search: string, sortBy: SortKey, timeOf: Option<string> -> int): (r: seq<Matchup>)
    ensures multiset(r) == multiset(Filter(ms, Searcher(search)))
    ensures SortedBy(r, Comparator(sortBy, timeOf))
    ensures forall m :: m in r <==> m in ms && MatchesSearch(m, search)
  {
    ComparatorIsTotalPreorder(sortBy, timeOf);
    var kept := Filter(ms, Searcher(search));
    var r := SortBy(kept, Comparator(sortBy, timeOf));
    forall m ensures m in r <==> m in ms && MatchesSearch(m, search) {
      assert m in r <==> m in multiset(r);
      assert m in kept <==> m in multiset(kept);
      assert Searcher(search)(m) == MatchesSearch(m, search);
    }
    r
  }

  /** With an empty search, the cards are a reordering of all matches. */
  lemma EmptySearchShowsEveryMatch(ms: seq<Matchup>, sortBy: SortKey, timeOf: Option<string> -> int)
    ensures multiset(FilteredMatchups(ms, "", sortBy, timeOf)) == multiset(ms)
  {
    EmptySearchKeepsAll(ms);
  }

  /** Sorted by result, no `win` card comes before a `lose` card. */
  lemma ByResultPutsLossesFirst(ms: seq<Matchup>, search: string, timeOf: Option<string> -> int)
    ensures forall i, j :: 0 <= i < j < |FilteredMatchups(ms, search, ByResult, timeOf)| ==>
      !(FilteredMatchups(ms, search, ByResult, timeOf)[i].result == Some(WinText)
        && FilteredMatchups(ms, search, ByResult, timeOf)[j].result == Some(LoseText))
  {
    var r := FilteredMatchups(ms, search, ByResult, timeOf);
    assert !LexLe(WinText, LoseText);
    forall i, j | 0 <= i < j < |r| ensures !(r[i].result == Some(WinText) && r[j].result == Some(LoseText)) {
      assert Comparator(ByResult, timeOf)(r[i], r[j]);
    }
  }

  /** Sorted by date, the creation times never increase along the cards. */
  lemma ByDateNewestFirst(ms: seq<Matchup>, search: string, timeOf: Option<string> -> int)
    ensures forall i, j :: 0 <= i < j < |FilteredMatchups(ms, search, ByDate, timeOf)| ==>
      timeOf(FilteredMatchups(ms, search, ByDate, timeOf)[i].createdAt)
        >= timeOf(FilteredMatchups(ms, search, ByDate, timeOf)[j].createdAt)
  {
    var r := FilteredMatchups(ms, search, ByDate, timeOf);
    forall i, j | 0 <= i < j < |r| ensures timeOf(r[i].createdAt) >= timeOf(r[j].createdAt) {
      assert Comparator(ByDate, timeOf)(r[i], r[j]);
    }
  }

  // ---------- card controls ----------

  /** A card's checkbox is ticked when its id is selected. */
  predicate IsChecked(selectedForBulk: seq<string>, m: Matchup) {
    m.id in selectedForBulk
  }

  /** The "Delete Selected" button shows when something is selected. */
  predicate ShowsBulkDelete(selectedForBulk: seq<string>) {
    |selectedForBulk| > 0
  }

  /** A card has a notes button when its notes are non-empty. */
  predicate HasNotesButton(m: Matchup) {
    IsSet(m.notes)
  }

  /** A card shows its notes when they are the ones asked for and non-empty. */
  predicate ShowsNotes(showNotesFor: Option<string>, m: Matchup) {
    showNotesFor == Some(m.id) && IsSet(m.notes)
  }

  /** The notes button: hides the notes if they are shown, shows them
      otherwise. */
  function ToggleNotes(showNotesFor: Option<string>, id: string): (r: Option<string>)
    ensures r == None <==> showNotesFor == Some(id)
  {
    if showNotesFor == Some(id) then None else Some(id)
  }

  /** Pressing a card's notes button flips whether that card shows its notes,
      hides every other card's notes, and pressing it again returns to the
      state where only that card's notes were shown or none were. */
  lemma ToggleNotesFlips(showNotesFor: Option<string>, m: Matchup, other: Matchup)
    requires HasNotesButton(m)
    requires other.id != m.id
    ensures ShowsNotes(ToggleNotes(showNotesFor, m.id), m) == !ShowsNotes(showNotesFor, m)
    ensures !ShowsNotes(ToggleNotes(showNotesFor, m.id), other)
    ensures showNotesFor == None || showNotesFor == Some(m.id) ==>
      ToggleNotes(ToggleNotes(showNotesFor, m.id), m.id) == showNotesFor
  {
  }
}
