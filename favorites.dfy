/**
 * The favorites list: record identifiers, as text, stored as one stringified
 * array under the key `favorites`. Toggling removes the first copy of the
 * identifier or appends it, and writes the list back.
 */
module Favorites {
  import opened Wrappers
  import opened Seqs
  import opened Records
  import Json
  import opened Storage
  import Numbers

  const FAVORITES_KEY := "favorites"

  /**
   * `getFavorites()` on a store content: the stored list, or `[]` when the key
   * is missing (`JSON.parse(null)` is null) or its value does not parse.
   */
  function FavoritesIn(items: map<string, string>): seq<string> {
    if FAVORITES_KEY !in items then []
    else Json.DecodeStrings(items[FAVORITES_KEY]).GetOr([])
  }

  /** `isFavorite(id)` on a store content. */
  predicate IsFavoriteIn(items: map<string, string>, id: Id) {
    IdString(id) in FavoritesIn(items)
  }

  /** The position of the first copy of `x` in `s`. */
  function FirstIndex(s: seq<string>, x: string): (i: nat)
    requires x in s
    ensures i < |s| && s[i] == x && x !in s[..i]
  {
    if s[0] == x then 0
    else
      var i := 1 + FirstIndex(s[1..], x);
      assert s[..i] == [s[0]] + s[1..][..i - 1];
      i
  }

  /**
   * The list after a toggle of `x`: one copy of `x` fewer, the rest in their
   * order, when it was there; otherwise the old list with `x` after it.
   */
  function Toggled(favs: seq<string>, x: string): (r: seq<string>)
    ensures x in favs ==> multiset(r) == multiset(favs) - multiset{x} && Subseq(r, favs)
    ensures x !in favs ==> multiset(r) == multiset(favs) + multiset{x} && favs <= r
  {
    if x in favs then
      var i := FirstIndex(favs, x);
      assert favs == favs[..i] + [x] + favs[i + 1..];
      SubseqDropAt(favs, i);
      favs[..i] + favs[i + 1..]
    else favs + [x]
  }

  /**
   * The store content after `toggleFavorite(id)`: the favorites read back are
   * the toggled list, and every other key is as it was.
   */
  function AfterToggle(items: map<string, string>, id: Id): (r: map<string, string>)
    ensures r.Keys == items.Keys + {FAVORITES_KEY}
    ensures forall k :: k in items && k != FAVORITES_KEY ==> r[k] == items[k]
    ensures FavoritesIn(r) == Toggled(FavoritesIn(items), IdString(id))
  {
    var favs := Toggled(FavoritesIn(items), IdString(id));
    FavoritesAfterSave(items, favs);
    items[FAVORITES_KEY := Json.EncodeStrings(favs)]
  }

  /** `favorites.indexOf(x)`: the first position of `x`, or -1. */
  method IndexOf(s: seq<string>, x: string) returns (i: int)
    ensures x in s ==> i == FirstIndex(s, x)
    ensures x !in s ==> i == -1
  {
    i := 0;
    while i < |s|
      invariant 0 <= i <= |s|
      invariant x !in s[..i]
    {
      if s[i] == x {
        return;
      }
      assert s[..i + 1] == s[..i] + [s[i]];
      i := i + 1;
    }
    assert s[..i] == s;
    i := -1;
  }

  method GetFavorites(store: LocalStorage) returns (favs: seq<string>)
    ensures favs == FavoritesIn(store.items)
  {
    var raw := store.GetItem(FAVORITES_KEY);
    match raw
    case None =>
      favs := [];
    case Some(text) =>
      favs := Json.DecodeStrings(text).GetOr([]);
  }

  method SaveFavorites(store: LocalStorage, favs: seq<string>)
    modifies store
    ensures store.items == old(store.items)[FAVORITES_KEY := Json.EncodeStrings(favs)]
  {
    store.SetItem(FAVORITES_KEY, Json.EncodeStrings(favs));
  }

  /** `toggleFavorite(id)`: flips the identifier's membership and reports the new state. */
  method ToggleFavorite(store: LocalStorage, id: Id) returns (nowFavorite: bool)
    modifies store
    ensures store.items == AfterToggle(old(store.items), id)
    ensures nowFavorite == IsFavoriteIn(store.items, id)
  {
    var favorites := GetFavorites(store);
    var idStr := IdString(id);
    ghost var stored := favorites;
    var index := IndexOf(favorites, idStr);
    if index > -1 {
      favorites := favorites[..index] + favorites[index + 1..];
    } else {
      favorites := favorites + [idStr];
    }
    assert favorites == Toggled(stored, idStr);
    SaveFavorites(store, favorites);
    assert FavoritesIn(store.items) == favorites by {
      Json.DecodeEncodeStrings(favorites);
    }
    nowFavorite := idStr in favorites;
  }

  method IsFavorite(store: LocalStorage, id: Id) returns (b: bool)
    ensures b == IsFavoriteIn(store.items, id)
  {
    var favs := GetFavorites(store);
    b := IdString(id) in favs;
  }

  // --- Properties of the toggle ---

  /** A missing or unreadable entry reads as no favorites. */
  lemma MissingOrBrokenIsEmpty(items: map<string, string>)
    requires FAVORITES_KEY !in items || Json.DecodeStrings(items[FAVORITES_KEY]).None?
    ensures FavoritesIn(items) == []
  {
  }

  /** What was saved is what is read back. */
  lemma FavoritesAfterSave(items: map<string, string>, favs: seq<string>)
    ensures FavoritesIn(items[FAVORITES_KEY := Json.EncodeStrings(favs)]) == favs
  {
    Json.DecodeEncodeStrings(favs);
  }

  /** Without duplicates, toggling `x` flips its membership. */
  lemma ToggledFlips(favs: seq<string>, x: string)
    requires NoDup(favs)
    ensures x in Toggled(favs, x) <==> x !in favs
  {
    if x in favs {
      var i := FirstIndex(favs, x);
      forall k | 0 <= k < |favs| && k != i
        ensures favs[k] != x
      {
      }
      assert x !in favs[i + 1..];
    }
  }

  /** Toggling `x` leaves every other identifier as it was. */
  lemma ToggledKeepsOthers(favs: seq<string>, x: string, y: string)
    requires y != x
    ensures y in Toggled(favs, x) <==> y in favs
  {
    if x in favs {
      var i := FirstIndex(favs, x);
      assert favs == favs[..i] + [x] + favs[i + 1..];
    }
  }

  /** Toggling never introduces a duplicate. */
  lemma ToggledNoDup(favs: seq<string>, x: string)
    requires NoDup(favs)
    ensures NoDup(Toggled(favs, x))
  {
    if x in favs {
      var i := FirstIndex(favs, x);
      NoDupDropAt(favs, i);
    }
  }

  /** Leaving out one position keeps a list free of duplicates. */
  lemma NoDupDropAt(s: seq<string>, i: int)
    requires NoDup(s) && 0 <= i < |s|
    ensures NoDup(s[..i] + s[i + 1..])
  {
    var r := s[..i] + s[i + 1..];
    assert forall n :: 0 <= n < |r| ==> r[n] == s[if n < i then n else n + 1];
  }

  /** Adding an absent identifier and toggling it again gives back the very same list. */
  lemma ToggleTwiceAbsent(favs: seq<string>, x: string)
    requires x !in favs
    ensures Toggled(Toggled(favs, x), x) == favs
  {
    var t := favs + [x];
    assert FirstIndex(t, x) == |favs|;
    assert t[..|favs|] == favs;
  }

  /** `toggleFavorite` returns the new `isFavorite` state, the opposite of the old one. */
  lemma ToggleFlipsStore(items: map<string, string>, id: Id)
    requires NoDup(FavoritesIn(items))
    ensures IsFavoriteIn(AfterToggle(items, id), id) <==> !IsFavoriteIn(items, id)
  {
    var favs := FavoritesIn(items);
    FavoritesAfterSave(items, Toggled(favs, IdString(id)));
    ToggledFlips(favs, IdString(id));
  }

  /** Two toggles of the same identifier restore its membership. */
  lemma ToggleTwiceStore(items: map<string, string>, id: Id)
    requires NoDup(FavoritesIn(items))
    ensures IsFavoriteIn(AfterToggle(AfterToggle(items, id), id), id) <==> IsFavoriteIn(items, id)
  {
    var x := IdString(id);
    var favs := FavoritesIn(items);
    FavoritesAfterSave(items, Toggled(favs, x));
    ToggledNoDup(favs, x);
    ToggleFlipsStore(items, id);
    ToggleFlipsStore(AfterToggle(items, id), id);
  }

  /**
   * A toggle changes membership only for identifiers with the same text, keeps
   * the store free of duplicates, and touches no other key.
   */
  lemma ToggleFrame(items: map<string, string>, id: Id, other: Id, key: string)
    requires NoDup(FavoritesIn(items))
    ensures IdString(other) != IdString(id) ==>
              (IsFavoriteIn(AfterToggle(items, id), other) <==> IsFavoriteIn(items, other))
    ensures NoDup(FavoritesIn(AfterToggle(items, id)))
    ensures key != FAVORITES_KEY ==> Lookup(AfterToggle(items, id), key) == Lookup(items, key)
  {
    var favs := FavoritesIn(items);
    FavoritesAfterSave(items, Toggled(favs, IdString(id)));
    ToggledNoDup(favs, IdString(id));
    if IdString(other) != IdString(id) {
      ToggledKeepsOthers(favs, IdString(id), IdString(other));
    }
  }

  /** Toggling one numeric identifier leaves every other number's state alone. */
  lemma ToggleKeepsOtherNumbers(items: map<string, string>, a: int, b: int)
    requires a != b
    ensures IsFavoriteIn(AfterToggle(items, NumberId(a)), NumberId(b)) <==> IsFavoriteIn(items, NumberId(b))
  {
    Numbers.IntToStringInjective(a, b);
    ToggledKeepsOthers(FavoritesIn(items), IdString(NumberId(a)), IdString(NumberId(b)));
  }

  /** A numeric identifier and its decimal text denote the same favorite. */
  lemma NumericAndTextIdsAgree(items: map<string, string>, n: int)
    ensures IsFavoriteIn(items, NumberId(n)) == IsFavoriteIn(items, StringId(IdString(NumberId(n))))
  {
  }
}
