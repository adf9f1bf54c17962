/** api/filters.py: the recipe list filters, as selections over an ordered queryset. */
module Filters {
  import Seqs
  import opened Models

  /** The recipes `viewer` has a row for in `marks` (favourites or cart). */
  function MarkedBy(marks: set<UserRecipe>, viewer: UserId): set<RecipeId> {
    set m | m in marks && m.user == viewer :: m.recipe
  }

  /** The recipes carrying at least one tag whose slug is among `slugs` (`tags__slug__in`). */
  function TaggedWithAny(recipes: map<RecipeId, Recipe>, tags: map<TagId, Tag>, slugs: seq<string>): set<RecipeId> {
    set id | id in recipes && exists t :: t in recipes[id].tags && t in tags && tags[t].slug.Some? && tags[t].slug.value in slugs
  }

  /** `RecipeFilter.get_is_favorited`: `true` keeps the viewer's favourites, `false` drops them. */
  function GetIsFavorited(qs: seq<RecipeId>, favorites: set<UserRecipe>, viewer: UserId, value: bool): (r: seq<RecipeId>)
    ensures forall id :: id in r <==> id in qs && (UserRecipe(viewer, id) in favorites) == value
    ensures multiset(r) <= multiset(qs)
  {
    Seqs.Select(qs, MarkedBy(favorites, viewer), value)
  }

  /** `RecipeFilter.get_is_in_shopping_cart`: `true` keeps the viewer's cart; `false` filters nothing. */
  function GetIsInShoppingCart(qs: seq<RecipeId>, cart: set<UserRecipe>, viewer: UserId, value: bool): (r: seq<RecipeId>)
    ensures value ==> forall id :: id in r <==> id in qs && UserRecipe(viewer, id) in cart
    ensures !value ==> r == qs
    ensures multiset(r) <= multiset(qs)
  {
    if value then Seqs.Select(qs, MarkedBy(cart, viewer), true) else qs
  }

  /** `is_favorited=true` and `is_favorited=false` split the queryset between them, duplicates included. */
  lemma IsFavoritedPartition(qs: seq<RecipeId>, favorites: set<UserRecipe>, viewer: UserId)
    ensures multiset(GetIsFavorited(qs, favorites, viewer, true)) + multiset(GetIsFavorited(qs, favorites, viewer, false))
         == multiset(qs)
  {
    Seqs.SelectPartition(qs, MarkedBy(favorites, viewer));
  }

  /** Filtering a duplicate-free queryset keeps it duplicate-free. */
  lemma FiltersKeepDistinct(qs: seq<RecipeId>, marks: set<UserRecipe>, viewer: UserId, value: bool)
    requires Seqs.Distinct(qs)
    ensures Seqs.Distinct(GetIsFavorited(qs, marks, viewer, value))
    ensures Seqs.Distinct(GetIsInShoppingCart(qs, marks, viewer, value))
  {
    Seqs.SelectDistinct(qs, MarkedBy(marks, viewer), value);
    Seqs.SelectDistinct(qs, MarkedBy(marks, viewer), true);
  }

  /** Filtering a queryset ordered newest first keeps it in that order. */
  lemma FiltersKeepOrder(qs: seq<RecipeId>, marks: set<UserRecipe>, viewer: UserId, value: bool)
    requires Seqs.Descending(qs)
    ensures Seqs.Descending(GetIsFavorited(qs, marks, viewer, value))
    ensures Seqs.Descending(GetIsInShoppingCart(qs, marks, viewer, value))
  {
    Seqs.SelectDescending(qs, MarkedBy(marks, viewer), value);
    Seqs.SelectDescending(qs, MarkedBy(marks, viewer), true);
  }
}
