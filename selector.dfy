/** The `PokemonSelector` component: the species list it offers, the search
    that narrows it, and the selection it edits under a cap. */
module Selector {
  import opened Lists
  import opened Strings
  import opened Sprites

  /** The default cap on how many species a team may hold. */
  const DefaultMaxSelect: nat := 3

  /** How many matching species the dropdown lists at most. */
  const ListLimit: nat := 50

  /** One entry of the fetched species list. */
  datatype PokemonEntry = PokemonEntry(name: string, id: nat, sprite: string)

  /** The fetched species list: each name numbered from 1 in list order, with
      its sprite URL. */
  function PokemonEntries(names: seq<string>): (r: seq<PokemonEntry>)
    ensures |r| == |names|
    ensures forall i :: 0 <= i < |names| ==>
      r[i].name == names[i] && r[i].id == i + 1 && r[i].sprite == SpriteUrl(names[i])
  {
    seq(|names|, i requires 0 <= i < |names| => PokemonEntry(names[i], i + 1, SpriteUrl(names[i])))
  }

  /** Entry numbers identify entries: they strictly increase along the list. */
  lemma {:induction false} EntryIdsIncrease(names: seq<string>, i: int, j: int)
    requires 0 <= i < j < |names|
    ensures PokemonEntries(names)[i].id < PokemonEntries(names)[j].id
  {
    var r := PokemonEntries(names);
    assert r[i].id == i + 1 && r[j].id == j + 1;
  }

  // ---------- the dropdown ----------

  /** A species is offered when its lower-cased name contains the lower-cased
      search text and it is not already selected. */
  predicate Offered(p: PokemonEntry, search: string, selected: seq<string>) {
    Contains(Lower(p.name), Lower(search)) && p.name !in selected
  }

  function Offer(search: string, selected: seq<string>): PokemonEntry -> bool {
    (p: PokemonEntry) => Offered(p, search, selected)
  }

  /** `filteredPokemon`: the first 50 offered species, in list order. */
  function FilteredPokemon(list: seq<PokemonEntry>, search: string, selected: seq<string>): (r: seq<PokemonEntry>)
    ensures |r| <= ListLimit
    ensures forall p :: p in r ==> p in list && Offered(p, search, selected)
    ensures |r| <= |Filter(list, Offer(search, selected))|
    ensures r == Filter(list, Offer(search, selected))[..|r|]
    ensures |r| == ListLimit || r == Filter(list, Offer(search, selected))
  {
    var offered := Filter(list, Offer(search, selected));
    var r := Take(offered, ListLimit);
    forall p | p in r ensures p in list && Offered(p, search, selected) {
      assert p in offered;
      assert Offer(search, selected)(p);
    }
    r
  }

  /** A selected species is never offered again. */
  lemma SelectedNeverListed(list: seq<PokemonEntry>, search: string, selected: seq<string>, i: int)
    requires 0 <= i < |FilteredPokemon(list, search, selected)|
    ensures FilteredPokemon(list, search, selected)[i].name !in selected
  {
    var r := FilteredPokemon(list, search, selected);
    assert r[i] in r;
  }

  lemma ContainsEmpty(s: string)
    ensures Contains(s, "")
  {
    assert OccursAt(s, "", 0);
  }

  /** With nothing typed, the dropdown lists the first 50 species not yet
      selected. */
  lemma EmptySearchListsUnselected(list: seq<PokemonEntry>, selected: seq<string>)
    ensures FilteredPokemon(list, "", selected)
      == Take(Filter(list, (p: PokemonEntry) => p.name !in selected), ListLimit)
  {
    forall p | p in list ensures Offer("", selected)(p) == (p.name !in selected) {
      ContainsEmpty(Lower(p.name));
      assert Lower("") == "";
    }
    FilterCongruent(list, Offer("", selected), (p: PokemonEntry) => p.name !in selected);
  }

  // ---------- the selection ----------

  /** What `handleSelect` asks the parent to store: a selected name is
      removed; an unselected name is appended while there is room; at the cap
      nothing changes. */
  function AfterSelect(selected: seq<string>, name: string, maxSelect: nat): (r: seq<string>)
    ensures name in selected ==> r == Remove(selected, name) && name !in r
    ensures name !in selected && |selected| < maxSelect ==> r == selected + [name]
    ensures name !in selected && |selected| < maxSelect ==> name in r && |r| == |selected| + 1
    ensures name !in selected && |selected| >= maxSelect ==> r == selected
    ensures forall x :: x != name ==> (x in r <==> x in selected)
  {
    if name in selected then Remove(selected, name)
    else if |selected| < maxSelect then selected + [name]
    else selected
  }

  /** A selection that starts duplicate-free and within the cap stays so. */
  lemma SelectKeepsSelectionValid(selected: seq<string>, name: string, maxSelect: nat)
    requires NoDup(selected) && |selected| <= maxSelect
    ensures NoDup(AfterSelect(selected, name, maxSelect))
    ensures |AfterSelect(selected, name, maxSelect)| <= maxSelect
  {
    if name in selected {
      RemoveKeepsNoDup(selected, name);
      RemovePresent(selected, name);
    } else if |selected| < maxSelect {
      var r := selected + [name];
      assert forall i :: 0 <= i < |selected| ==> r[i] == selected[i];
    }
  }

  /** Picking an unselected species and then picking it again (the click
      that deselects it) gives back the selection, in order. */
  lemma SelectTwiceRestores(selected: seq<string>, name: string, maxSelect: nat)
    requires name !in selected && |selected| < maxSelect
    ensures AfterSelect(AfterSelect(selected, name, maxSelect), name, maxSelect) == selected
  {
    assert name in selected + [name];
    RemoveAppended(selected, name);
  }

  /** Picking a selected species is the same as its remove button. */
  lemma SelectSelectedIsRemove(selected: seq<string>, name: string, maxSelect: nat)
    requires name in selected
    ensures AfterSelect(selected, name, maxSelect) == Remove(selected, name)
  {
  }

  /** Removing a species that is not selected changes nothing. */
  lemma RemoveUnselectedNoChange(selected: seq<string>, name: string)
    requires name !in selected
    ensures Remove(selected, name) == selected
  {
    RemoveAbsent(selected, name);
  }

  /** The selector's state: the selection it is given (kept here as a field),
      the search text and whether the dropdown is open. */
  class PokemonSelector {
    var selected: seq<string>
    var search: string
    var isOpen: bool
    const maxSelect: nat

    predicate Valid()
      reads this
    {
      NoDup(selected) && |selected| <= maxSelect
    }

    constructor (initial: seq<string>, maxSelect: nat)
      ensures selected == initial && this.maxSelect == maxSelect
      ensures search == "" && !isOpen
    {
      selected := initial;
      search := "";
      isOpen := false;
      this.maxSelect := maxSelect;
    }

    /** `handleSelect`: only an actual append clears the search and closes
        the dropdown. */
    method HandleSelect(name: string)
      modifies this`selected, this`search, this`isOpen
      ensures selected == AfterSelect(old(selected), name, maxSelect)
      ensures name !in old(selected) && |old(selected)| < maxSelect ==> search == "" && !isOpen
      ensures name in old(selected) || |old(selected)| >= maxSelect ==>
        search == old(search) && isOpen == old(isOpen)
      ensures old(Valid()) ==> Valid()
    {
      if Valid() {
        SelectKeepsSelectionValid(selected, name, maxSelect);
      }
      if name in selected {
        selected := Remove(selected, name);
      } else if |selected| < maxSelect {
        selected := selected + [name];
        search := "";
        isOpen := false;
      }
    }

    /** `removeSelected`: the name is dropped, the others keep their order. */
    method RemoveSelected(name: string)
      modifies this`selected
      ensures selected == Remove(old(selected), name)
      ensures old(Valid()) ==> Valid()
    {
      if Valid() {
        RemoveKeepsNoDup(selected, name);
      }
      selected := Remove(selected, name);
    }
  }
}
