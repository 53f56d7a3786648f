/** The `useMatchups` hook: the list of logged matches, kept in step with the
    persisted `pokemon-matchups` snapshot. */
module Matchups {
  import opened Wrappers
  import opened Lists
  import opened Types

  /** A `Partial<Matchup>`: each present field overrides the record's. */
  datatype MatchupPatch = MatchupPatch(
    id: Option<string>,
    myPokemon: Option<seq<string>>,
    enemyPokemon: Option<seq<string>>,
    notes: Option<Option<string>>,
    result: Option<Option<string>>,
    turnOrder: Option<Option<string>>,
    createdAt: Option<Option<string>>,
    updatedAt: Option<Option<string>>)

  /** `{ ...m, ...patch }`. */
  function ApplyPatch(m: Matchup, p: MatchupPatch): Matchup {
    Matchup(
      p.id.GetOr(m.id), p.myPokemon.GetOr(m.myPokemon), p.enemyPokemon.GetOr(m.enemyPokemon),
      p.notes.GetOr(m.notes), p.result.GetOr(m.result), p.turnOrder.GetOr(m.turnOrder),
      p.createdAt.GetOr(m.createdAt), p.updatedAt.GetOr(m.updatedAt))
  }

  /** `updateMatchup`'s new list: every record with the id patched, the others
      as they were, same length and order. */
  function Updated(ms: seq<Matchup>, id: string, p: MatchupPatch): (r: seq<Matchup>)
    ensures |r| == |ms|
    ensures forall i :: 0 <= i < |ms| && ms[i].id == id ==> r[i] == ApplyPatch(ms[i], p)
    ensures forall i :: 0 <= i < |ms| && ms[i].id != id ==> r[i] == ms[i]
  {
    MapSeq(ms, (m: Matchup) => if m.id == id then ApplyPatch(m, p) else m)
  }

  predicate HasOtherId(m: Matchup, id: string) {
    m.id != id
  }

  /** `deleteMatchup`'s new list: the records with other ids, in order. */
  function Deleted(ms: seq<Matchup>, id: string): (r: seq<Matchup>)
    ensures forall m :: m in r <==> m in ms && m.id != id
    ensures multiset(r) <= multiset(ms)
  {
    Filter(ms, (m: Matchup) => HasOtherId(m, id))
  }

  predicate NotListed(m: Matchup, ids: seq<string>) {
    m.id !in ids
  }

  /** `bulkDelete`'s new list: the records whose id is not listed, in order. */
  function BulkDeleted(ms: seq<Matchup>, ids: seq<string>): (r: seq<Matchup>)
    ensures forall m :: m in r <==> m in ms && m.id !in ids
    ensures multiset(r) <= multiset(ms)
  {
    Filter(ms, (m: Matchup) => NotListed(m, ids))
  }

  /** `deleteMatchup` works record by record: the kept records stay in their
      order, every copy of them stays, and only the records with the id go. */
  lemma DeletedAppend(a: seq<Matchup>, b: seq<Matchup>, id: string)
    ensures Deleted(a + b, id) == Deleted(a, id) + Deleted(b, id)
  {
    FilterAppend(a, b, (m: Matchup) => HasOtherId(m, id));
  }

  lemma DeletedOne(m: Matchup, id: string)
    ensures Deleted([], id) == []
    ensures Deleted([m], id) == if m.id == id then [] else [m]
  {
    FilterOne(m, (x: Matchup) => HasOtherId(x, id));
  }

  /** `bulkDelete` works record by record in the same way. */
  lemma BulkDeletedAppend(a: seq<Matchup>, b: seq<Matchup>, ids: seq<string>)
    ensures BulkDeleted(a + b, ids) == BulkDeleted(a, ids) + BulkDeleted(b, ids)
  {
    FilterAppend(a, b, (m: Matchup) => NotListed(m, ids));
  }

  lemma BulkDeletedOne(m: Matchup, ids: seq<string>)
    ensures BulkDeleted([], ids) == []
    ensures BulkDeleted([m], ids) == if m.id in ids then [] else [m]
  {
    FilterOne(m, (x: Matchup) => NotListed(x, ids));
  }

  /** Deleting an id a second time changes nothing. */
  lemma DeleteIdempotent(ms: seq<Matchup>, id: string)
    ensures Deleted(Deleted(ms, id), id) == Deleted(ms, id)
  {
    FilterIdempotent(ms, (m: Matchup) => HasOtherId(m, id));
  }

  /** A bulk delete of no ids keeps every record. */
  lemma BulkDeleteNothing(ms: seq<Matchup>)
    ensures BulkDeleted(ms, []) == ms
  {
    FilterKeepsAll(ms, (m: Matchup) => NotListed(m, []));
  }

  /** A bulk delete of one id is a single delete. */
  lemma BulkDeleteOne(ms: seq<Matchup>, id: string)
    ensures BulkDeleted(ms, [id]) == Deleted(ms, id)
  {
    FilterCongruent(ms, (m: Matchup) => NotListed(m, [id]), (m: Matchup) => HasOtherId(m, id));
  }

  /** Deleting the records of a list of ids one after the other equals one
      bulk delete of the whole list. */
  lemma {:induction false} BulkDeleteIsRepeatedDelete(ms: seq<Matchup>, ids: seq<string>)
    ensures |ids| > 0 ==> BulkDeleted(ms, ids) == Deleted(BulkDeleted(ms, ids[..|ids| - 1]), ids[|ids| - 1])
  {
    if |ids| > 0 {
      var init := ids[..|ids| - 1];
      var last := ids[|ids| - 1];
      assert ids == init + [last];
      BulkDeleteStep(ms, init, last);
    }
  }

  lemma BulkDeleteStep(ms: seq<Matchup>, init: seq<string>, last: string)
    ensures BulkDeleted(ms, init + [last]) == Deleted(BulkDeleted(ms, init), last)
  {
    forall m | m in ms
      ensures NotListed(m, init + [last]) == (NotListed(m, init) && HasOtherId(m, last))
    {
      assert m.id in init + [last] <==> m.id in init || m.id == last;
    }
    FilterFilter(ms, (m: Matchup) => NotListed(m, init), (m: Matchup) => HasOtherId(m, last),
      (m: Matchup) => NotListed(m, init + [last]));
  }

  /** Deleting a record just added (under an id no other record uses) gives
      back the original list. */
  lemma AddThenDelete(ms: seq<Matchup>, m: Matchup)
    requires forall x :: x in ms ==> x.id != m.id
    ensures Deleted(ms + [m], m.id) == ms
  {
    var p := (x: Matchup) => HasOtherId(x, m.id);
    FilterAppend(ms, [m], p);
    FilterKeepsAll(ms, p);
    assert Filter([m], p) == [];
  }

  /** An update that does not name `id` or `createdAt` keeps both, so the
      record stays findable and keeps its creation time. */
  lemma UpdateKeepsIdentity(ms: seq<Matchup>, id: string, p: MatchupPatch)
    requires p.id.None? && p.createdAt.None?
    ensures forall i :: 0 <= i < |ms| ==> Updated(ms, id, p)[i].id == ms[i].id
    ensures forall i :: 0 <= i < |ms| ==> Updated(ms, id, p)[i].createdAt == ms[i].createdAt
  {
  }

  /** The hook's `matchups` state, its `loading` flag and what storage holds
      under the `pokemon-matchups` key. */
  class MatchupStore {
    var matchups: seq<Matchup>
    var loading: bool
    var stored: Stored<seq<Matchup>>

    /** Storage holds exactly the list in memory. */
    predicate Persisted()
      reads this
    {
      stored == Saved(matchups)
    }

    /** Mounting the hook: the list starts empty and loading; the snapshot is
        read once; a missing or unparsable snapshot leaves the list empty, and
        loading ends either way. */
    constructor (snapshot: Stored<seq<Matchup>>)
      ensures matchups == (if snapshot.Saved? then snapshot.value else [])
      ensures stored == snapshot
      ensures !loading
    {
      matchups := [];
      loading := true;
      stored := snapshot;
      if snapshot.Saved? {
        matchups := snapshot.value;
      }
      loading := false;
    }

    /** `saveToStorage`. */
    method SaveToStorage(data: seq<Matchup>)
      modifies this`stored
      ensures stored == Saved(data)
    {
      stored := Saved(data);
    }

    method AddMatchup(m: Matchup)
      modifies this`matchups, this`stored
      ensures matchups == old(matchups) + [m]
      ensures Persisted()
    {
      var updated := matchups + [m];
      matchups := updated;
      SaveToStorage(updated);
    }

    method UpdateMatchup(id: string, p: MatchupPatch)
      modifies this`matchups, this`stored
      ensures matchups == Updated(old(matchups), id, p)
      ensures Persisted()
    {
      var updated := Updated(matchups, id, p);
      matchups := updated;
      SaveToStorage(updated);
    }

    method DeleteMatchup(id: string)
      modifies this`matchups, this`stored
      ensures matchups == Deleted(old(matchups), id)
      ensures Persisted()
    {
      var updated := Deleted(matchups, id);
      matchups := updated;
      SaveToStorage(updated);
    }

    method BulkDelete(ids: seq<string>)
      modifies this`matchups, this`stored
      ensures matchups == BulkDeleted(old(matchups), ids)
      ensures Persisted()
    {
      var updated := BulkDeleted(matchups, ids);
      matchups := updated;
      SaveToStorage(updated);
    }

    /** `importMatchups`: the list is replaced wholesale. */
    method ImportMatchups(data: seq<Matchup>)
      modifies this`matchups, this`stored
      ensures matchups == data
      ensures Persisted()
    {
      matchups := data;
      SaveToStorage(data);
    }
  }
}
