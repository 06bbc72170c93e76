/**
 * The favorites store behind `FavoritesProvider`: the list of saved listings, the
 * operations the screens call on it, restoring it from browser storage, and the
 * favorite toggle of the detail page and the result cards.
 */
module Favorites {
  import opened Wrappers
  import opened Text
  import opened JsValues
  import opened Security
  import opened Sequences
  import opened Listing

  /** `fav.id`; ids are compared structurally (see the README). */
  function IdOf(v: JsValue): JsValue {
    Get(v, "id")
  }

  /** `isFavorite(id)`: `favorites.some(..)` scans the entries in order for that id. */
  predicate IsFavorite(favs: seq<JsValue>, id: JsValue): (b: bool)
    ensures b <==> exists v :: v in favs && IdOf(v) == id
  {
    |favs| > 0 && (IdOf(favs[0]) == id || IsFavorite(favs[1..], id))
  }

  /** A list none of whose entries carries the id does not hold it. */
  lemma NoIdNotFavorite(favs: seq<JsValue>, id: JsValue)
    requires forall v :: v in favs ==> IdOf(v) != id
    ensures !IsFavorite(favs, id)
  {
  }

  /** No two saved entries share an id. */
  predicate UniqueIds(favs: seq<JsValue>) {
    DistinctKeys(favs, IdOf)
  }

  /** Every saved entry passes `validatePropertyData` (see `Security.IsValid`). */
  predicate AllValid(favs: seq<JsValue>) {
    forall i :: 0 <= i < |favs| ==> IsValid(favs[i])
  }

  /** The new list and the boolean `addFavorite` returns. */
  datatype AddResult = AddResult(favorites: seq<JsValue>, added: bool)

  /**
   * `addFavorite`: an invalid entry is refused, an entry whose id is already saved
   * is refused, anything else is appended. An entry whose validation throws is
   * refused as well: the exception leaves the list as it was.
   */
  function AddFavorite(favs: seq<JsValue>, property: JsValue): (r: AddResult)
    ensures r.added <==> IsValid(property) && !IsFavorite(favs, IdOf(property))
    ensures r.favorites == if r.added then favs + [property] else favs
    ensures IsValid(property) ==> IsFavorite(r.favorites, IdOf(property))
  {
    if !IsValid(property) then AddResult(favs, false)
    else if IsFavorite(favs, IdOf(property)) then AddResult(favs, false)
    else
      assert property in favs + [property];
      AddResult(favs + [property], true)
  }

  /** `removeFavorite(id)`: every entry with that id goes, the rest keep their order. */
  function RemoveFavorite(favs: seq<JsValue>, id: JsValue): (r: seq<JsValue>)
    ensures IsSubseq(r, favs)
    ensures !IsFavorite(r, id)
    ensures forall v :: v in r <==> v in favs && IdOf(v) != id
    ensures forall v :: multiset(r)[v] == if IdOf(v) != id then multiset(favs)[v] else 0
  {
    var keep := v => IdOf(v) != id;
    var r := Filter(favs, keep);
    assert forall v :: multiset(r)[v] == if keep(v) then multiset(favs)[v] else 0 by {
      FilterCount(favs, keep);
    }
    NoIdNotFavorite(r, id);
    r
  }

  /** `clearFavorites`. */
  function ClearFavorites(favs: seq<JsValue>): (r: seq<JsValue>)
    ensures forall id :: !IsFavorite(r, id)
    ensures UniqueIds(r) && AllValid(r)
  {
    []
  }

  /** Adding keeps the store free of duplicate ids and of invalid entries. */
  lemma AddKeepsInvariant(favs: seq<JsValue>, property: JsValue)
    requires UniqueIds(favs) && AllValid(favs)
    ensures UniqueIds(AddFavorite(favs, property).favorites) && AllValid(AddFavorite(favs, property).favorites)
  {
    var r := AddFavorite(favs, property);
    if r.added {
      forall i, j | 0 <= i < j < |r.favorites| ensures IdOf(r.favorites[i]) != IdOf(r.favorites[j]) {
        if j == |favs| {
          assert r.favorites[i] == favs[i];
        } else {
          assert r.favorites[i] == favs[i] && r.favorites[j] == favs[j];
        }
      }
    }
  }

  /** Removing keeps the store free of duplicate ids and of invalid entries. */
  lemma RemoveKeepsInvariant(favs: seq<JsValue>, id: JsValue)
    requires UniqueIds(favs) && AllValid(favs)
    ensures UniqueIds(RemoveFavorite(favs, id)) && AllValid(RemoveFavorite(favs, id))
  {
    var r := RemoveFavorite(favs, id);
    FilterKeepsDistinct(favs, v => IdOf(v) != id, IdOf);
    forall i | 0 <= i < |r| ensures IsValid(r[i]) {
      assert r[i] in favs;
    }
  }

  /** Adding an entry that is already saved, or twice in a row, changes nothing. */
  lemma AddTwiceIsAddOnce(favs: seq<JsValue>, property: JsValue)
    ensures AddFavorite(AddFavorite(favs, property).favorites, property) ==
      AddResult(AddFavorite(favs, property).favorites, false)
  {
  }

  /** Removing an id that is not saved changes nothing. */
  lemma RemoveAbsentIsNoop(favs: seq<JsValue>, id: JsValue)
    requires !IsFavorite(favs, id)
    ensures RemoveFavorite(favs, id) == favs
  {
    FilterAll(favs, v => IdOf(v) != id);
  }

  /** Removing by id undoes a successful add. */
  lemma RemoveUndoesAdd(favs: seq<JsValue>, property: JsValue)
    requires AddFavorite(favs, property).added
    ensures RemoveFavorite(AddFavorite(favs, property).favorites, IdOf(property)) == favs
  {
    var id := IdOf(property);
    var keep := v => IdOf(v) != id;
    FilterConcat(favs, [property], keep);
    RemoveAbsentIsNoop(favs, id);
    assert Filter([property], keep) == [];
  }

  /** Removing an id leaves every other id exactly as saved as it was. */
  lemma RemoveKeepsOtherIds(favs: seq<JsValue>, id: JsValue, other: JsValue)
    requires other != id
    ensures IsFavorite(RemoveFavorite(favs, id), other) <==> IsFavorite(favs, other)
  {
  }

  /** What browser storage held under the favorites key, as `JSON.parse` saw it. */
  datatype Saved =
    | Missing               // no entry, or the empty string: the guard skips it
    | Unparseable           // `JSON.parse` threw
    | Parsed(value: JsValue)

  /** The restored list, and whether the storage entry is removed. */
  datatype LoadResult = LoadResult(favorites: seq<JsValue>, discardSaved: bool)

  /** `parsedFavorites.filter(validatePropertyData)` throws: the validation of some entry throws. */
  predicate SomeValidationThrows(es: seq<JsValue>) {
    exists i :: 0 <= i < |es| && ValidatePropertyData(es[i]).None?
  }

  /**
   * The load effect: a parsed array is filtered by `validatePropertyData`, keeping
   * each valid entry as often as it was stored (no de-duplication); anything else
   * leaves the initial empty list. A parse failure, or a validation that throws
   * inside the filter, leaves the empty list and removes the stored entry.
   */
  function Load(saved: Saved): (r: LoadResult)
    ensures AllValid(r.favorites)
    ensures r.discardSaved <==>
      saved.Unparseable? || (saved.Parsed? && saved.value.Arr? && SomeValidationThrows(saved.value.elems))
    ensures saved.Parsed? && saved.value.Arr? && !SomeValidationThrows(saved.value.elems) ==>
      IsSubseq(r.favorites, saved.value.elems) &&
      (forall v :: v in r.favorites <==> v in saved.value.elems && IsValid(v)) &&
      forall v :: multiset(r.favorites)[v] == if IsValid(v) then multiset(saved.value.elems)[v] else 0
    ensures !(saved.Parsed? && saved.value.Arr? && !SomeValidationThrows(saved.value.elems)) ==> r.favorites == []
  {
    match saved
    case Missing => LoadResult([], false)
    case Unparseable => LoadResult([], true)
    case Parsed(v) =>
      if !v.Arr? then LoadResult([], false)
      else if SomeValidationThrows(v.elems) then LoadResult([], true)
      else
        var kept := Filter(v.elems, IsValid);
        FilterCount(v.elems, IsValid);
        assert AllValid(kept) by { assert forall i :: 0 <= i < |kept| ==> kept[i] in kept; }
        LoadResult(kept, false)
  }

  /**
   * What the save effect writes is what the next load restores, given that
   * `JSON.parse(JSON.stringify(favorites))` gives the same array back.
   */
  lemma SaveThenLoad(favs: seq<JsValue>)
    requires AllValid(favs)
    ensures Load(Parsed(Arr(favs))) == LoadResult(favs, false)
  {
    FilterAll(favs, IsValid);
  }

  /**
   * One stored object whose `id` is itself an object with an own `toString` key makes
   * `String(id)` throw inside the filter: nothing is restored and the entry is removed.
   */
  lemma LoadDiscardsOnThrow(v: JsValue, rest: seq<JsValue>)
    requires v.Obj? && "id" in v.fields && StringThrows(v.fields["id"])
    ensures Load(Parsed(Arr([v] + rest))) == LoadResult([], true)
  {
    assert ValidatePropertyData(v).None? by {
      assert RequiredFields[0] == "id";
    }
    assert ([v] + rest)[0] == v;
  }

  /** The load does not de-duplicate: a stored array holding one valid entry twice restores both. */
  lemma LoadKeepsDuplicates(v: JsValue)
    requires IsValid(v)
    ensures Load(Parsed(Arr([v, v]))).favorites == [v, v]
    ensures !UniqueIds(Load(Parsed(Arr([v, v]))).favorites)
  {
    SaveThenLoad([v, v]);
    assert !DistinctKeys([v, v], IdOf) by {
      assert IdOf([v, v][0]) == IdOf([v, v][1]);
    }
  }

  /**
   * `handleFavoriteClick` of the result cards: remove the listing when its id is
   * saved, otherwise try to add it. A valid listing's saved status flips; an invalid
   * one is never saved afterwards.
   */
  function Toggle(favs: seq<JsValue>, property: JsValue): (r: seq<JsValue>)
    ensures IsValid(property) ==> (IsFavorite(r, IdOf(property)) <==> !IsFavorite(favs, IdOf(property)))
    ensures !IsValid(property) ==> !IsFavorite(r, IdOf(property))
  {
    if IsFavorite(favs, IdOf(property)) then RemoveFavorite(favs, IdOf(property))
    else AddFavorite(favs, property).favorites
  }

  /** `handleFavoriteToggle` of the detail page: nothing happens before the listing is found. */
  function PageToggle(favs: seq<JsValue>, property: Option<JsValue>): (r: seq<JsValue>)
    ensures property.None? ==> r == favs
    ensures property.Some? && IsValid(property.value) ==>
      (IsFavorite(r, IdOf(property.value)) <==> !IsFavorite(favs, IdOf(property.value)))
    ensures property.Some? && !IsValid(property.value) ==> !IsFavorite(r, IdOf(property.value))
  {
    if property.None? then favs else Toggle(favs, property.value)
  }

  /** Toggling a valid, unsaved listing twice restores the store. */
  lemma ToggleTwiceRestores(favs: seq<JsValue>, property: JsValue)
    requires IsValid(property) && !IsFavorite(favs, IdOf(property))
    ensures Toggle(Toggle(favs, property), property) == favs
  {
    RemoveUndoesAdd(favs, property);
  }

  /** A toggle leaves the saved status of every other id alone. */
  lemma ToggleKeepsOthers(favs: seq<JsValue>, property: JsValue, other: JsValue)
    requires other != IdOf(property)
    ensures IsFavorite(Toggle(favs, property), other) <==> IsFavorite(favs, other)
  {
    if IsFavorite(favs, IdOf(property)) {
      RemoveKeepsOtherIds(favs, IdOf(property), other);
    }
  }

  /**
   * A catalog listing passes `validatePropertyData` exactly when its id, type,
   * location and description are not blank; its numeric bedrooms and price always pass.
   */
  lemma CatalogListingValidIff(p: Property)
    ensures IsValid(ToJs(p)) <==>
      !AllSpace(p.id) && !AllSpace(p.kind) && !AllSpace(p.location) && !AllSpace(p.description)
  {
    var f := ToJs(p).fields;
    ToJsRequiredFields(p);
    RequiredFieldsFilled(ToJs(p));
    assert Filled(f["bedrooms"]) && Filled(f["price"]);
    assert Filled(f["id"]) == !AllSpace(p.id) && Filled(f["type"]) == !AllSpace(p.kind);
    assert Filled(f["location"]) == !AllSpace(p.location) && Filled(f["description"]) == !AllSpace(p.description);
  }
}
