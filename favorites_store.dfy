/** The favourites store: the universities the user bookmarked, in the order
    they were added. */
module Favorites {

  import opened Types
  import opened UniversityList

  class FavoritesStore {
    var favorites: seq<University>

    /** Every university is bookmarked at most once. */
    ghost predicate Valid()
      reads this
    {
      DistinctIds(favorites)
    }

    /** Nothing is bookmarked at first. */
    constructor ()
      ensures Valid()
      ensures favorites == []
    {
      favorites := [];
    }

    /** Appends `university` unless an entry with its id is already there. */
    method AddToFavorites(university: University)
      requires Valid()
      modifies this
      ensures Valid()
      ensures IsFavorite(university.id)
      ensures old(IsFavorite(university.id)) ==> favorites == old(favorites)
      ensures !old(IsFavorite(university.id)) ==> favorites == old(favorites) + [university]
    {
      if !HasId(favorites, university.id) {
        AppendNewKeepsDistinct(favorites, university);
        favorites := favorites + [university];
        assert favorites[|favorites| - 1] == university;
      }
    }

    /** Drops the entry with `id`, keeping the others in order. */
    method RemoveFromFavorites(id: string)
      requires Valid()
      modifies this
      ensures Valid()
      ensures favorites == WithoutId(old(favorites), id)
      ensures !IsFavorite(id)
      ensures !old(IsFavorite(id)) ==> favorites == old(favorites)
    {
      WithoutIdKeepsDistinct(favorites, id);
      if !HasId(favorites, id) {
        WithoutAbsentId(favorites, id);
      }
      favorites := WithoutId(favorites, id);
    }

    /** Whether some bookmarked university has `id`. */
    function IsFavorite(id: string): (r: bool)
      reads this
      ensures r <==> exists i :: 0 <= i < |favorites| && favorites[i].id == id
    {
      HasId(favorites, id)
    }
  }

  /** Bookmarking, un-bookmarking and asking again, as the page does. */
  method ToggleTwice(u: University, v: University)
    requires u.id != v.id
  {
    var store := new FavoritesStore();
    store.AddToFavorites(u);
    store.AddToFavorites(v);
    assert store.IsFavorite(u.id) && store.IsFavorite(v.id);
    store.RemoveFromFavorites(u.id);
    assert !store.IsFavorite(u.id);
    assert store.favorites == [v];
  }
}
