/** api/views.py: subscriptions, favourites and cart, and the recipe list queryset. */
module Views {
  import opened Wrappers
  import opened Models
  import Seqs
  import Filters
  import Serializers

  // ---------------------------------------------------------------- subscriptions

  /** `UserViewSet.subscribe`: the target must exist and differ from the requester, and the pair
      must be new; then exactly that pair is added. */
  method Subscribe(store: Store, requester: UserId, target: UserId) returns (res: Result<Serializers.FollowView, Error>)
    requires store.Valid() && requester in store.users
    modifies store
    ensures store.Valid()
    ensures res.Err? ==> store.State() == old(store.State())
    ensures target !in old(store.users) ==> res == Err(NotFound)
    ensures target in old(store.users) && target == requester ==> res == Err(SelfFollow)
    ensures target in old(store.users) && target != requester && Follow(requester, target) in old(store.follows)
            ==> res == Err(AlreadySubscribed)
    ensures res.Ok? <==>
      target in old(store.users) && target != requester && Follow(requester, target) !in old(store.follows)
    ensures res.Ok? ==>
      && store.State() == old(store.State()).(follows := old(store.follows) + {Follow(requester, target)})
      && res.value.id == target && res.value.email == store.users[target].email
      && res.value.username == store.users[target].username
      && res.value.firstName == store.users[target].firstName && res.value.lastName == store.users[target].lastName
      && res.value.isSubscribed
      && res.value.recipesCount == Serializers.RecipesCount(store.recipes, target)
      && |res.value.recipes| == res.value.recipesCount
      && Serializers.NewestRecipesOf(store.recipes, target, res.value.recipes)
  {
    if target !in store.users {
      return Err(NotFound);
    }
    if requester == target {
      return Err(SelfFollow);
    }
    var follow := Follow(requester, target);
    // `get_or_create` finds the existing pair
    if follow in store.follows {
      return Err(AlreadySubscribed);
    }
    store.follows := store.follows + {follow};
    // serialised without a request, so `recipes_limit` does not apply
    var view := Serializers.SerializeFollow(store, requester, target, None);
    res := Ok(view);
  }

  /** `UserViewSet.delete_subscribe`: removes exactly the pair when it exists. */
  method DeleteSubscribe(store: Store, requester: UserId, target: UserId) returns (res: Result<(), Error>)
    requires store.Valid() && requester in store.users
    modifies store
    ensures store.Valid()
    ensures res.Err? ==> store.State() == old(store.State())
    ensures target !in old(store.users) ==> res == Err(NotFound)
    ensures target in old(store.users) && Follow(requester, target) !in old(store.follows) ==> res == Err(NotSubscribed)
    ensures res.Ok? <==> target in old(store.users) && Follow(requester, target) in old(store.follows)
    ensures res.Ok? ==> store.State() == old(store.State()).(follows := old(store.follows) - {Follow(requester, target)})
  {
    if target !in store.users {
      return Err(NotFound);
    }
    var follow := Follow(requester, target);
    if follow in store.follows {
      store.follows := store.follows - {follow};
      return Ok(());
    }
    res := Err(NotSubscribed);
  }

  // ---------------------------------------------------------------- favourites and cart

  /** Which of the two (user, recipe) tables an action works on. */
  datatype Membership = Favorite | ShoppingCart

  function Marks(db: Db, kind: Membership): set<UserRecipe> {
    match kind
    case Favorite => db.favorites
    case ShoppingCart => db.shoppingCart
  }

  function WithMarks(db: Db, kind: Membership, marks: set<UserRecipe>): Db {
    match kind
    case Favorite => db.(favorites := marks)
    case ShoppingCart => db.(shoppingCart := marks)
  }

  /** Adding a pair of an existing user and recipe to either table keeps every schema constraint. */
  lemma AddMarkKeepsValid(s: Settings, db: Db, kind: Membership, m: UserRecipe)
    requires DbValid(s, db) && m.user in db.users && m.recipe in db.recipes
    ensures DbValid(s, WithMarks(db, kind, Marks(db, kind) + {m}))
  {
    var d := WithMarks(db, kind, Marks(db, kind) + {m});
    assert d.users == db.users && d.recipes == db.recipes;
    assert MembershipValid(d, d.favorites) && MembershipValid(d, d.shoppingCart);
  }

  /** Removing a pair from either table keeps every schema constraint. */
  lemma RemoveMarkKeepsValid(s: Settings, db: Db, kind: Membership, m: UserRecipe)
    requires DbValid(s, db)
    ensures DbValid(s, WithMarks(db, kind, Marks(db, kind) - {m}))
  {
    var d := WithMarks(db, kind, Marks(db, kind) - {m});
    assert d.users == db.users && d.recipes == db.recipes;
    assert MembershipValid(d, d.favorites) && MembershipValid(d, d.shoppingCart);
  }

  /** `RecipeViewSet.add_recipe`: the recipe must exist and the pair must be new (the serializer's
      `validate`); then exactly that pair is inserted and the recipe is returned minified. */
  method AddRecipe(store: Store, requester: UserId, kind: Membership, id: RecipeId)
    returns (res: Result<Serializers.MinifiedRecipe, Error>)
    requires store.Valid() && requester in store.users
    modifies store
    ensures store.Valid()
    ensures res.Err? ==> store.State() == old(store.State())
    ensures id !in old(store.recipes) ==> res == Err(NotFound)
    ensures id in old(store.recipes) && UserRecipe(requester, id) in Marks(old(store.State()), kind)
            ==> res == Err(AlreadyAdded)
    ensures res.Ok? <==> id in old(store.recipes) && UserRecipe(requester, id) !in Marks(old(store.State()), kind)
    ensures res.Ok? ==>
      && store.State() == WithMarks(old(store.State()), kind, Marks(old(store.State()), kind) + {UserRecipe(requester, id)})
      && res.value == Serializers.Minify(id, store.recipes[id])
  {
    if id !in store.recipes {
      return Err(NotFound);
    }
    var data := UserRecipe(requester, id);
    var existing := if kind == Favorite then store.favorites else store.shoppingCart;
    var v := Serializers.ValidateMembership(existing, data);
    if v.Err? {
      return Err(v.error);
    }
    AddMarkKeepsValid(store.settings, store.State(), kind, data);
    ghost var d := WithMarks(store.State(), kind, existing + {data});
    if kind == Favorite {
      store.favorites := store.favorites + {v.value};
    } else {
      store.shoppingCart := store.shoppingCart + {v.value};
    }
    assert store.State() == d;
    res := Ok(Serializers.Minify(id, store.recipes[id]));
  }

  /** `RecipeViewSet.del_recipe`: the recipe must exist and the pair must be present; then only
      that pair is deleted. */
  method DelRecipe(store: Store, requester: UserId, kind: Membership, id: RecipeId) returns (res: Result<(), Error>)
    requires store.Valid() && requester in store.users
    modifies store
    ensures store.Valid()
    ensures res.Err? ==> store.State() == old(store.State())
    ensures id !in old(store.recipes) ==> res == Err(NotFound)
    ensures id in old(store.recipes) && UserRecipe(requester, id) !in Marks(old(store.State()), kind)
            ==> res == Err(NotAdded)
    ensures res.Ok? <==> id in old(store.recipes) && UserRecipe(requester, id) in Marks(old(store.State()), kind)
    ensures res.Ok? ==>
      store.State() == WithMarks(old(store.State()), kind, Marks(old(store.State()), kind) - {UserRecipe(requester, id)})
  {
    if id !in store.recipes {
      return Err(NotFound);
    }
    var pair := UserRecipe(requester, id);
    var existing := if kind == Favorite then store.favorites else store.shoppingCart;
    if pair !in existing {
      return Err(NotAdded);
    }
    RemoveMarkKeepsValid(store.settings, store.State(), kind, pair);
    ghost var d := WithMarks(store.State(), kind, existing - {pair});
    if kind == Favorite {
      store.favorites := store.favorites - {pair};
    } else {
      store.shoppingCart := store.shoppingCart - {pair};
    }
    assert store.State() == d;
    res := Ok(());
  }

  // ---------------------------------------------------------------- the recipe list

  /** The recipe list's query parameters, parsed: `is_favorited`, `is_in_shopping_cart`,
      `author` and the repeated `tags`. */
  datatype ListParams = ListParams(
    isFavorited: Option<bool>, isInShoppingCart: Option<bool>, author: Option<UserId>, tags: seq<string>)

  /** `Recipe.objects` in its default order (`-pub_date`): ids are handed out in creation
      order, so newest first is highest id first. */
  function NewestFirst(recipes: map<RecipeId, Recipe>, n: nat): (ids: seq<RecipeId>)
    ensures forall id :: id in ids <==> id in recipes && 0 <= id < n
    ensures Seqs.Descending(ids)
  {
    if n == 0 then []
    else
      var rest := NewestFirst(recipes, n - 1);
      assert forall k :: 0 <= k < |rest| ==> rest[k] in rest;
      assert forall id :: id in rest ==> id < n - 1;
      if n - 1 in recipes then [n - 1] + rest else rest
  }

  /** The slugs the `tags` filter accepts: those of tags some recipe carries. */
  function UsedSlugs(db: Db): set<string> {
    set id, t | id in db.recipes && t in db.recipes[id].tags && t in db.tags && db.tags[t].slug.Some?
      :: db.tags[t].slug.value
  }

  /** `RecipeViewSet.get_queryset` as written: any `is_favorited` value at all, `false` included,
      cuts the list to the viewer's favourites. */
  method GetQuerysetAsWritten(store: Store, viewer: UserId, p: ListParams) returns (qs: seq<RecipeId>)
    requires store.Valid()
    ensures Seqs.Distinct(qs)
    ensures Seqs.Descending(qs)
    ensures forall id :: id in qs <==>
      && id in store.recipes
      && (p.isFavorited.Some? ==> UserRecipe(viewer, id) in store.favorites)
      && (p.author.Some? ==> store.recipes[id].author == p.author.value)
      && (|p.tags| > 0 ==> id in Filters.TaggedWithAny(store.recipes, store.tags, p.tags))
  {
    qs := NewestFirst(store.recipes, store.nextRecipeId);
    if p.isFavorited.Some? {
      Seqs.SelectDistinct(qs, Filters.MarkedBy(store.favorites, viewer), true);
      Seqs.SelectDescending(qs, Filters.MarkedBy(store.favorites, viewer), true);
      qs := Seqs.Select(qs, Filters.MarkedBy(store.favorites, viewer), true);
    }
    if p.author.Some? {
      Seqs.SelectDistinct(qs, AuthoredBy(store.recipes, p.author.value), true);
      Seqs.SelectDescending(qs, AuthoredBy(store.recipes, p.author.value), true);
      qs := Seqs.Select(qs, AuthoredBy(store.recipes, p.author.value), true);
    }
    if |p.tags| > 0 {
      Seqs.SelectDistinct(qs, Filters.TaggedWithAny(store.recipes, store.tags, p.tags), true);
      Seqs.SelectDescending(qs, Filters.TaggedWithAny(store.recipes, store.tags, p.tags), true);
      qs := Seqs.Select(qs, Filters.TaggedWithAny(store.recipes, store.tags, p.tags), true);
    }
  }

  /** `RecipeViewSet.get_queryset`, pre-filtering favourites only when `is_favorited` is true. */
  method GetQueryset(store: Store, viewer: UserId, p: ListParams) returns (qs: seq<RecipeId>)
    requires store.Valid()
    ensures Seqs.Distinct(qs)
    ensures Seqs.Descending(qs)
    ensures forall id :: id in qs <==>
      && id in store.recipes
      && (p.isFavorited == Some(true) ==> UserRecipe(viewer, id) in store.favorites)
      && (p.author.Some? ==> store.recipes[id].author == p.author.value)
      && (|p.tags| > 0 ==> id in Filters.TaggedWithAny(store.recipes, store.tags, p.tags))
  {
    qs := NewestFirst(store.recipes, store.nextRecipeId);
    if p.isFavorited == Some(true) {
      Seqs.SelectDistinct(qs, Filters.MarkedBy(store.favorites, viewer), true);
      Seqs.SelectDescending(qs, Filters.MarkedBy(store.favorites, viewer), true);
      qs := Seqs.Select(qs, Filters.MarkedBy(store.favorites, viewer), true);
    }
    if p.author.Some? {
      Seqs.SelectDistinct(qs, AuthoredBy(store.recipes, p.author.value), true);
      Seqs.SelectDescending(qs, AuthoredBy(store.recipes, p.author.value), true);
      qs := Seqs.Select(qs, AuthoredBy(store.recipes, p.author.value), true);
    }
    if |p.tags| > 0 {
      Seqs.SelectDistinct(qs, Filters.TaggedWithAny(store.recipes, store.tags, p.tags), true);
      Seqs.SelectDescending(qs, Filters.TaggedWithAny(store.recipes, store.tags, p.tags), true);
      qs := Seqs.Select(qs, Filters.TaggedWithAny(store.recipes, store.tags, p.tags), true);
    }
  }

  /** As written, `is_favorited=false` lists nothing: the queryset it filters holds only
      favourites already. */
  lemma FavoritedFalseListsNothing(qs: seq<RecipeId>, favorites: set<UserRecipe>, viewer: UserId)
    requires forall id :: id in qs ==> UserRecipe(viewer, id) in favorites
    ensures Filters.GetIsFavorited(qs, favorites, viewer, false) == []
  {
    forall id | id in qs
      ensures id in Filters.MarkedBy(favorites, viewer)
    {
      assert UserRecipe(viewer, id) in favorites;
    }
    Seqs.SelectAll(qs, Filters.MarkedBy(favorites, viewer));
  }

  /** What `RecipeFilter`'s form accepts: an author who is a user and slugs some recipe carries. */
  predicate ParamsValid(db: Db, p: ListParams) {
    && (p.author.Some? ==> p.author.value in db.users)
    && forall s :: s in p.tags ==> s in UsedSlugs(db)
  }

  /** The `author` and `tags` filters of `RecipeFilter`. */
  method FilterByFields(store: Store, p: ListParams, qs: seq<RecipeId>) returns (r: seq<RecipeId>)
    requires Seqs.Distinct(qs)
    ensures Seqs.Distinct(r)
    ensures Seqs.Descending(qs) ==> Seqs.Descending(r)
    ensures forall id :: id in r <==>
      && id in qs
      && (p.author.Some? ==> id in store.recipes && store.recipes[id].author == p.author.value)
      && (|p.tags| > 0 ==> id in Filters.TaggedWithAny(store.recipes, store.tags, p.tags))
  {
    r := qs;
    if p.author.Some? {
      Seqs.SelectDistinct(r, AuthoredBy(store.recipes, p.author.value), true);
      if Seqs.Descending(r) {
        Seqs.SelectDescending(r, AuthoredBy(store.recipes, p.author.value), true);
      }
      r := Seqs.Select(r, AuthoredBy(store.recipes, p.author.value), true);
    }
    if |p.tags| > 0 {
      Seqs.SelectDistinct(r, Filters.TaggedWithAny(store.recipes, store.tags, p.tags), true);
      if Seqs.Descending(r) {
        Seqs.SelectDescending(r, Filters.TaggedWithAny(store.recipes, store.tags, p.tags), true);
      }
      r := Seqs.Select(r, Filters.TaggedWithAny(store.recipes, store.tags, p.tags), true);
    }
  }

  /** The `is_favorited` and `is_in_shopping_cart` filters of `RecipeFilter`. */
  method FilterByMarks(store: Store, viewer: UserId, p: ListParams, qs: seq<RecipeId>) returns (r: seq<RecipeId>)
    requires Seqs.Distinct(qs)
    ensures Seqs.Distinct(r)
    ensures Seqs.Descending(qs) ==> Seqs.Descending(r)
    ensures forall id :: id in r <==>
      && id in qs
      && (p.isFavorited.Some? ==> (UserRecipe(viewer, id) in store.favorites) == p.isFavorited.value)
      && (p.isInShoppingCart == Some(true) ==> UserRecipe(viewer, id) in store.shoppingCart)
    ensures p.isFavorited == Some(false) && (forall id :: id in qs ==> UserRecipe(viewer, id) in store.favorites)
            ==> r == []
  {
    r := qs;
    if p.isFavorited.Some? {
      Filters.FiltersKeepDistinct(r, store.favorites, viewer, p.isFavorited.value);
      if Seqs.Descending(r) {
        Filters.FiltersKeepOrder(r, store.favorites, viewer, p.isFavorited.value);
      }
      if !p.isFavorited.value && forall id :: id in r ==> UserRecipe(viewer, id) in store.favorites {
        FavoritedFalseListsNothing(r, store.favorites, viewer);
      }
      r := Filters.GetIsFavorited(r, store.favorites, viewer, p.isFavorited.value);
    }
    if p.isInShoppingCart.Some? {
      Filters.FiltersKeepDistinct(r, store.shoppingCart, viewer, p.isInShoppingCart.value);
      if Seqs.Descending(r) {
        Filters.FiltersKeepOrder(r, store.shoppingCart, viewer, p.isInShoppingCart.value);
      }
      r := Filters.GetIsInShoppingCart(r, store.shoppingCart, viewer, p.isInShoppingCart.value);
    }
  }

  /** The recipe list as written: the queryset of `GetQuerysetAsWritten`, then `RecipeFilter`.
      With `is_favorited=false` it is always empty. */
  method ListRecipesAsWritten(store: Store, viewer: UserId, p: ListParams) returns (res: Result<seq<RecipeId>, Error>)
    requires store.Valid()
    ensures res.Err? <==> !ParamsValid(store.State(), p)
    ensures res.Err? ==> res.error == InvalidField
    ensures res.Ok? ==> forall id :: id in res.value <==>
      && id in store.recipes
      && (p.isFavorited.Some? ==> UserRecipe(viewer, id) in store.favorites && p.isFavorited.value)
      && (p.isInShoppingCart == Some(true) ==> UserRecipe(viewer, id) in store.shoppingCart)
      && (p.author.Some? ==> store.recipes[id].author == p.author.value)
      && (|p.tags| > 0 ==> id in Filters.TaggedWithAny(store.recipes, store.tags, p.tags))
    ensures res.Ok? ==> Seqs.Distinct(res.value) && Seqs.Descending(res.value)
    ensures res.Ok? && p.isFavorited == Some(false) ==> res.value == []
  {
    if !ParamsValid(store.State(), p) {
      return Err(InvalidField);
    }
    var qs := GetQuerysetAsWritten(store, viewer, p);
    qs := FilterByFields(store, p, qs);
    qs := FilterByMarks(store, viewer, p, qs);
    res := Ok(qs);
  }

  /** The recipe list: the queryset, then `RecipeFilter`; parameters the filter's form refuses
      are a validation error. */
  method ListRecipes(store: Store, viewer: UserId, p: ListParams) returns (res: Result<seq<RecipeId>, Error>)
    requires store.Valid()
    ensures res.Err? <==> !ParamsValid(store.State(), p)
    ensures res.Err? ==> res.error == InvalidField
    ensures res.Ok? ==> Seqs.Distinct(res.value) && Seqs.Descending(res.value)
    ensures res.Ok? ==> forall id :: id in res.value <==>
      && id in store.recipes
      && (p.isFavorited.Some? ==> (UserRecipe(viewer, id) in store.favorites) == p.isFavorited.value)
      && (p.isInShoppingCart == Some(true) ==> UserRecipe(viewer, id) in store.shoppingCart)
      && (p.author.Some? ==> store.recipes[id].author == p.author.value)
      && (|p.tags| > 0 ==> id in Filters.TaggedWithAny(store.recipes, store.tags, p.tags))
  {
    if !ParamsValid(store.State(), p) {
      return Err(InvalidField);
    }
    var qs := GetQueryset(store, viewer, p);
    qs := FilterByFields(store, p, qs);
    qs := FilterByMarks(store, viewer, p, qs);
    res := Ok(qs);
  }
}
