/** recipes/models.py and users/models.py: the tables, the constraints the schema puts
    on them, and what deleting a row takes with it. */
module Models {
  import opened Wrappers
  import Seqs
  import UserValidators
  import SlugValidator
  import opened Strings

  type UserId = int
  type TagId = int
  type IngredientId = int
  type RecipeId = int

  /** A user account; `isStaff` is Django's staff flag. */
  datatype User = User(email: string, username: string, firstName: string, lastName: string, isStaff: bool)

  /** `Follow`: `user` subscribes to `author`. */
  datatype Follow = Follow(user: UserId, author: UserId)

  datatype Tag = Tag(name: string, color: Option<string>, slug: Option<string>)

  datatype Ingredient = Ingredient(name: string, measurementUnit: string)

  /** A recipe with its many-to-many tag association; `image` is the stored file reference. */
  datatype Recipe = Recipe(author: UserId, name: string, text: string, image: string, cookingTime: int, tags: set<TagId>)

  /** `IngredientInRecipe`: the join row carrying the amount. */
  datatype IngredientInRecipe = IngredientInRecipe(recipe: RecipeId, ingredient: IngredientId, amount: int)

  /** A `Favorite` or a `ShoppingCart` row. */
  datatype UserRecipe = UserRecipe(user: UserId, recipe: RecipeId)

  /** The settings module's bounds and reserved names, and Python's `\w` class. */
  datatype Settings = Settings(
    minCookingTime: int, maxCookingTime: int,
    minAmountIngredient: int, maxAmountIngredient: int,
    forbiddenUsernames: set<string>,
    isWordChar: char -> bool)

  predicate SettingsValid(s: Settings) {
    && s.minCookingTime <= s.maxCookingTime
    && s.minAmountIngredient <= s.maxAmountIngredient
    && UserValidators.AgreesOnAscii(s.isWordChar)
  }

  /** The largest value a PositiveSmallIntegerField holds. */
  const PositiveSmallIntegerMax := 32767

  /** `Recipe.name`: a `varchar(200)`. */
  const RecipeNameMax := 200

  /** `cooking_time`: a PositiveSmallIntegerField with the MIN/MAX_COOKING_TIME validators. */
  predicate CookingTimeOk(s: Settings, t: int) {
    0 <= t <= PositiveSmallIntegerMax && s.minCookingTime <= t <= s.maxCookingTime
  }

  /** `amount`: a PositiveSmallIntegerField with the MIN/MAX_AMOUNT_INGREDIENT validators. */
  predicate AmountOk(s: Settings, a: int) {
    0 <= a <= PositiveSmallIntegerMax && s.minAmountIngredient <= a <= s.maxAmountIngredient
  }

  /** The outcomes a request can fail with. */
  datatype Error =
    | NotFound              // get_object_or_404 found nothing
    | PermissionDenied      // the object permission refused the request
    | InvalidField          // a field failed its validators (bounds, unknown tag, uniqueness, required)
    | DuplicateIngredient   // the same ingredient twice in one recipe
    | IntegrityError        // the database refused the insert; the transaction rolled back
    | ServerError           // an uncaught exception in the view
    | SelfFollow            // subscribing to oneself
    | AlreadySubscribed
    | NotSubscribed
    | AlreadyAdded          // the favourite or cart row already exists
    | NotAdded              // the favourite or cart row does not exist

  /** A snapshot of every table, with the id sequences of the four tables that are created into. */
  datatype Db = Db(
    users: map<UserId, User>,
    follows: set<Follow>,
    tags: map<TagId, Tag>,
    ingredients: map<IngredientId, Ingredient>,
    recipes: map<RecipeId, Recipe>,
    rows: seq<IngredientInRecipe>,
    favorites: set<UserRecipe>,
    shoppingCart: set<UserRecipe>,
    nextUserId: nat, nextTagId: nat, nextIngredientId: nat, nextRecipeId: nat)

  function EmptyDb(): Db {
    Db(map[], {}, map[], map[], map[], [], {}, {}, 0, 0, 0, 0)
  }

  // ---------------------------------------------------------------- constraints

  /** `User`: unique email, unique username, usernames pass `validate_username`. */
  predicate UsersValid(s: Settings, db: Db) {
    && (forall u :: u in db.users ==>
          0 <= u < db.nextUserId &&
          UserValidators.ValidateUsername(db.users[u].username, s.forbiddenUsernames, s.isWordChar).Ok?)
    && (forall u, v :: u in db.users && v in db.users && u != v ==>
          db.users[u].email != db.users[v].email && db.users[u].username != db.users[v].username)
  }

  /** `Follow`: both ends exist and nobody follows themselves; the set makes pairs unique. */
  predicate FollowsValid(db: Db) {
    forall f :: f in db.follows ==> f.user in db.users && f.author in db.users && f.user != f.author
  }

  /** `Tag`: unique names, unique slugs (several tags may have none), slugs pass `validate_slug`. */
  predicate TagsValid(db: Db) {
    && (forall t :: t in db.tags ==>
          0 <= t < db.nextTagId &&
          (db.tags[t].slug.Some? ==> SlugValidator.ValidateSlug(db.tags[t].slug.value).Ok?))
    && (forall t, v :: t in db.tags && v in db.tags && t != v ==>
          db.tags[t].name != db.tags[v].name &&
          (db.tags[t].slug.Some? && db.tags[v].slug.Some? ==> db.tags[t].slug != db.tags[v].slug))
  }

  predicate IngredientsValid(db: Db) {
    forall i :: i in db.ingredients ==> 0 <= i < db.nextIngredientId
  }

  /** `Recipe`: an existing author, existing tags, a name that fits its column, a cooking time
      within bounds. */
  predicate RecipesValid(s: Settings, db: Db) {
    forall id :: id in db.recipes ==>
      && 0 <= id < db.nextRecipeId
      && |db.recipes[id].name| <= RecipeNameMax
      && db.recipes[id].author in db.users
      && db.recipes[id].tags <= db.tags.Keys
      && CookingTimeOk(s, db.recipes[id].cookingTime)
  }

  predicate SameKey(a: IngredientInRecipe, b: IngredientInRecipe) {
    a.recipe == b.recipe && a.ingredient == b.ingredient
  }

  /** `unique_ingredient_in_recipe`: one row per (recipe, ingredient). */
  predicate RowKeysUnique(rows: seq<IngredientInRecipe>) {
    forall i, j :: 0 <= i < j < |rows| ==> !SameKey(rows[i], rows[j])
  }

  /** `IngredientInRecipe`: both ends exist, the amount is within bounds, keys are unique. */
  predicate RowsValid(s: Settings, db: Db) {
    && (forall r :: r in db.rows ==>
          r.recipe in db.recipes && r.ingredient in db.ingredients && AmountOk(s, r.amount))
    && RowKeysUnique(db.rows)
  }

  /** `Favorite` and `ShoppingCart`: both ends exist; the set makes pairs unique. */
  predicate MembershipValid(db: Db, rows: set<UserRecipe>) {
    forall m :: m in rows ==> m.user in db.users && m.recipe in db.recipes
  }

  /** Every constraint of the schema at once. */
  predicate DbValid(s: Settings, db: Db) {
    && SettingsValid(s)
    && UsersValid(s, db)
    && FollowsValid(db)
    && TagsValid(db)
    && IngredientsValid(db)
    && RecipesValid(s, db)
    && RowsValid(s, db)
    && MembershipValid(db, db.favorites)
    && MembershipValid(db, db.shoppingCart)
  }

  lemma EmptyDbValid(s: Settings)
    requires SettingsValid(s)
    ensures DbValid(s, EmptyDb())
  {
  }

  /** Dropping rows from a table never creates a duplicate key. */
  lemma {:induction false} SelectKeepsRowKeysUnique(rows: seq<IngredientInRecipe>, s: set<IngredientInRecipe>, inside: bool)
    requires RowKeysUnique(rows)
    ensures RowKeysUnique(Seqs.Select(rows, s, inside))
  {
    if rows != [] {
      var tail := rows[1..];
      assert RowKeysUnique(tail) by {
        forall i, j | 0 <= i < j < |tail| ensures !SameKey(tail[i], tail[j]) {
          assert tail[i] == rows[i + 1] && tail[j] == rows[j + 1];
        }
      }
      SelectKeepsRowKeysUnique(tail, s, inside);
      var rest := Seqs.Select(tail, s, inside);
      if (rows[0] in s) == inside {
        forall x | x in rest ensures !SameKey(rows[0], x) {
          var m :| 0 <= m < |tail| && tail[m] == x;
          assert rows[m + 1] == x;
        }
        var r := [rows[0]] + rest;
        forall i, j | 0 <= i < j < |r| ensures !SameKey(r[i], r[j]) {
          if i == 0 {
            assert r[j] == rest[j - 1] && r[j] in rest;
          } else {
            assert r[i] == rest[i - 1] && r[j] == rest[j - 1];
          }
        }
      }
    }
  }

  // ---------------------------------------------------------------- cascades

  /** The recipes written by `u`. */
  function AuthoredBy(recipes: map<RecipeId, Recipe>, u: UserId): set<RecipeId> {
    set id | id in recipes && recipes[id].author == u
  }

  /** Deleting the recipes `dead`: CASCADE from Recipe to its join rows, favourites and cart rows. */
  function DeleteRecipes(db: Db, dead: set<RecipeId>): (d: Db)
    ensures d.recipes.Keys == db.recipes.Keys - dead
    ensures forall id :: id in d.recipes ==> d.recipes[id] == db.recipes[id]
    ensures forall r :: r in d.rows <==> r in db.rows && r.recipe !in dead
    ensures forall m :: m in d.favorites <==> m in db.favorites && m.recipe !in dead
    ensures forall m :: m in d.shoppingCart <==> m in db.shoppingCart && m.recipe !in dead
    ensures d.(recipes := db.recipes, rows := db.rows, favorites := db.favorites, shoppingCart := db.shoppingCart) == db
  {
    db.(recipes := (map id | id in db.recipes && id !in dead :: db.recipes[id]),
        rows := Seqs.Select(db.rows, set r | r in db.rows && r.recipe in dead, false),
        favorites := (set m | m in db.favorites && m.recipe !in dead),
        shoppingCart := (set m | m in db.shoppingCart && m.recipe !in dead))
  }

  lemma DeleteRecipesKeepsValid(s: Settings, db: Db, dead: set<RecipeId>)
    requires DbValid(s, db)
    ensures DbValid(s, DeleteRecipes(db, dead))
  {
    var d := DeleteRecipes(db, dead);
    SelectKeepsRowKeysUnique(db.rows, set r | r in db.rows && r.recipe in dead, false);
    assert UsersValid(s, d) && FollowsValid(d) && TagsValid(d) && IngredientsValid(d);
    assert RecipesValid(s, d);
    assert RowsValid(s, d);
    assert MembershipValid(d, d.favorites);
    assert MembershipValid(d, d.shoppingCart);
  }

  /** Deleting user `u`: CASCADE removes their follows in both directions, their recipes
      (and with them those recipes' rows, favourites and cart rows), and their own favourites and cart. */
  function DeleteUser(db: Db, u: UserId): (d: Db)
    ensures d.users.Keys == db.users.Keys - {u}
    ensures forall f :: f in d.follows <==> f in db.follows && f.user != u && f.author != u
    ensures d.recipes.Keys == db.recipes.Keys - AuthoredBy(db.recipes, u)
    ensures forall id :: id in d.recipes ==> d.recipes[id] == db.recipes[id] && d.recipes[id].author != u
    ensures forall v :: v in d.users ==> d.users[v] == db.users[v]
    ensures forall r :: r in d.rows <==> r in db.rows && r.recipe !in AuthoredBy(db.recipes, u)
    ensures forall m :: m in d.favorites <==>
      m in db.favorites && m.user != u && m.recipe !in AuthoredBy(db.recipes, u)
    ensures forall m :: m in d.shoppingCart <==>
      m in db.shoppingCart && m.user != u && m.recipe !in AuthoredBy(db.recipes, u)
    ensures d.(users := db.users, follows := db.follows, recipes := db.recipes, rows := db.rows,
               favorites := db.favorites, shoppingCart := db.shoppingCart) == db
  {
    var d0 := DeleteRecipes(db, AuthoredBy(db.recipes, u));
    d0.(users := db.users - {u},
        follows := (set f | f in db.follows && f.user != u && f.author != u),
        favorites := (set m | m in d0.favorites && m.user != u),
        shoppingCart := (set m | m in d0.shoppingCart && m.user != u))
  }

  lemma DeleteUserKeepsValid(s: Settings, db: Db, u: UserId)
    requires DbValid(s, db)
    ensures DbValid(s, DeleteUser(db, u))
  {
    DeleteUserKeepsPeopleValid(s, db, u);
    DeleteUserKeepsRecipesValid(s, db, u);
    var d := DeleteUser(db, u);
    assert MembershipValid(d, d.favorites);
    assert MembershipValid(d, d.shoppingCart);
  }

  /** After deleting a user, the user, follow, tag and ingredient tables still hold their constraints. */
  lemma DeleteUserKeepsPeopleValid(s: Settings, db: Db, u: UserId)
    requires DbValid(s, db)
    ensures UsersValid(s, DeleteUser(db, u)) && FollowsValid(DeleteUser(db, u))
    ensures TagsValid(DeleteUser(db, u)) && IngredientsValid(DeleteUser(db, u))
  {
    var d := DeleteUser(db, u);
    assert d.users == db.users - {u} && d.nextUserId == db.nextUserId;
    assert d.tags == db.tags && d.ingredients == db.ingredients;
    assert d.nextTagId == db.nextTagId && d.nextIngredientId == db.nextIngredientId;
  }

  /** After deleting a user, the remaining recipes and rows still hold their constraints. */
  lemma DeleteUserKeepsRecipesValid(s: Settings, db: Db, u: UserId)
    requires DbValid(s, db)
    ensures RecipesValid(s, DeleteUser(db, u)) && RowsValid(s, DeleteUser(db, u))
  {
    var dead := AuthoredBy(db.recipes, u);
    DeleteRecipesKeepsValid(s, db, dead);
    var d0 := DeleteRecipes(db, dead);
    var d := DeleteUser(db, u);
    assert d.recipes == d0.recipes && d.rows == d0.rows && d.ingredients == d0.ingredients && d.tags == d0.tags;
    assert d.users == db.users - {u};
    forall id | id in d.recipes ensures d.recipes[id].author in d.users {
      assert id !in dead;
    }
  }

  /** Deleting an ingredient: CASCADE removes the join rows that use it. */
  function DeleteIngredient(db: Db, i: IngredientId): (d: Db)
    ensures d.ingredients.Keys == db.ingredients.Keys - {i}
    ensures forall j :: j in d.ingredients ==> d.ingredients[j] == db.ingredients[j]
    ensures forall r :: r in d.rows <==> r in db.rows && r.ingredient != i
    ensures d.(ingredients := db.ingredients, rows := db.rows) == db
  {
    db.(ingredients := db.ingredients - {i},
        rows := Seqs.Select(db.rows, set r | r in db.rows && r.ingredient == i, false))
  }

  lemma DeleteIngredientKeepsValid(s: Settings, db: Db, i: IngredientId)
    requires DbValid(s, db)
    ensures DbValid(s, DeleteIngredient(db, i))
  {
    SelectKeepsRowKeysUnique(db.rows, set r | r in db.rows && r.ingredient == i, false);
  }

  /** Deleting a tag removes it from every recipe's tag set (the many-to-many rows). */
  function DeleteTag(db: Db, t: TagId): (d: Db)
    ensures d.tags.Keys == db.tags.Keys - {t}
    ensures forall k :: k in d.tags ==> d.tags[k] == db.tags[k]
    ensures d.recipes.Keys == db.recipes.Keys
    ensures forall id :: id in d.recipes ==> d.recipes[id] == db.recipes[id].(tags := db.recipes[id].tags - {t})
    ensures d.(tags := db.tags, recipes := db.recipes) == db
  {
    db.(tags := db.tags - {t},
        recipes := map id | id in db.recipes :: db.recipes[id].(tags := db.recipes[id].tags - {t}))
  }

  lemma DeleteTagKeepsValid(s: Settings, db: Db, t: TagId)
    requires DbValid(s, db)
    ensures DbValid(s, DeleteTag(db, t))
  {
  }

  // ---------------------------------------------------------------- form input

  /** What a validating form or serializer keeps of a submitted user: each text field stripped. */
  function CleanedUser(user: User): User {
    User(Strip(user.email), Strip(user.username), Strip(user.firstName), Strip(user.lastName), user.isStaff)
  }

  /** What the admin's model form keeps of a submitted tag: each text field stripped. */
  function CleanedTag(tag: Tag): Tag {
    Tag(Strip(tag.name),
        if tag.color.Some? then Some(Strip(tag.color.value)) else None,
        if tag.slug.Some? then Some(Strip(tag.slug.value)) else None)
  }

  /** The checks a cleaned user must pass: the four required fields are non-blank, the username
      passes `validate_username`, and email and username are unused. */
  predicate UserAccepted(s: Settings, users: map<UserId, User>, c: User) {
    && c.email != "" && c.username != "" && c.firstName != "" && c.lastName != ""
    && UserValidators.ValidateUsername(c.username, s.forbiddenUsernames, s.isWordChar).Ok?
    && forall u :: u in users ==> users[u].email != c.email && users[u].username != c.username
  }

  /** The checks a cleaned tag must pass: name, color and slug are non-blank, the slug passes
      `validate_slug`, and name and slug are unused. */
  predicate TagAccepted(tags: map<TagId, Tag>, c: Tag) {
    && c.color.Some? && c.slug.Some?
    && c.name != "" && c.color.value != "" && c.slug.value != ""
    && SlugValidator.ValidateSlug(c.slug.value).Ok?
    && forall t :: t in tags ==> tags[t].name != c.name && tags[t].slug != c.slug
  }

  /** A user whose email, username, first or last name is empty or whitespace only is refused. */
  lemma BlankUserRefused(s: Settings, users: map<UserId, User>, user: User)
    requires AllSpace(user.email) || AllSpace(user.username) || AllSpace(user.firstName) || AllSpace(user.lastName)
    ensures !UserAccepted(s, users, CleanedUser(user))
  {
    StripShape(user.email);
    StripShape(user.username);
    StripShape(user.firstName);
    StripShape(user.lastName);
  }

  /** A tag whose name, color or slug is empty, whitespace only or missing is refused. */
  lemma BlankTagRefused(tags: map<TagId, Tag>, tag: Tag)
    requires || AllSpace(tag.name)
             || tag.color.None? || (tag.color.Some? && AllSpace(tag.color.value))
             || tag.slug.None? || (tag.slug.Some? && AllSpace(tag.slug.value))
    ensures !TagAccepted(tags, CleanedTag(tag))
  {
    StripShape(tag.name);
    if tag.color.Some? { StripShape(tag.color.value); }
    if tag.slug.Some? { StripShape(tag.slug.value); }
  }

  /** Adding an accepted user keeps every constraint. */
  lemma AddUserKeepsValid(s: Settings, db: Db, user: User)
    requires DbValid(s, db) && UserAccepted(s, db.users, user)
    ensures DbValid(s, db.(users := db.users[db.nextUserId := user], nextUserId := db.nextUserId + 1))
  {
    var d := db.(users := db.users[db.nextUserId := user], nextUserId := db.nextUserId + 1);
    assert UsersValid(s, d);
    assert RecipesValid(s, d);
  }

  /** Adding a tag with a valid slug and an unused name and slug keeps every constraint. */
  lemma AddTagKeepsValid(s: Settings, db: Db, tag: Tag)
    requires DbValid(s, db) && TagAccepted(db.tags, tag)
    ensures DbValid(s, db.(tags := db.tags[db.nextTagId := tag], nextTagId := db.nextTagId + 1))
  {
    var d := db.(tags := db.tags[db.nextTagId := tag], nextTagId := db.nextTagId + 1);
    assert TagsValid(d);
    assert RecipesValid(s, d);
  }

  // ---------------------------------------------------------------- the store

  /** The database: one field per table, updated in place by the views and serializers. */
  class Store {
    const settings: Settings
    var users: map<UserId, User>
    var follows: set<Follow>
    var tags: map<TagId, Tag>
    var ingredients: map<IngredientId, Ingredient>
    var recipes: map<RecipeId, Recipe>
    var rows: seq<IngredientInRecipe>
    var favorites: set<UserRecipe>
    var shoppingCart: set<UserRecipe>
    var nextUserId: nat
    var nextTagId: nat
    var nextIngredientId: nat
    var nextRecipeId: nat

    /** The tables as one value. */
    function State(): Db
      reads this
    {
      Db(users, follows, tags, ingredients, recipes, rows, favorites, shoppingCart,
         nextUserId, nextTagId, nextIngredientId, nextRecipeId)
    }

    ghost predicate Valid()
      reads this
    {
      DbValid(settings, State())
    }

    constructor (settings: Settings)
      requires SettingsValid(settings)
      ensures this.settings == settings && State() == EmptyDb() && Valid()
    {
      this.settings := settings;
      users, follows, tags, ingredients := map[], {}, map[], map[];
      recipes, rows, favorites, shoppingCart := map[], [], {}, {};
      nextUserId, nextTagId, nextIngredientId, nextRecipeId := 0, 0, 0, 0;
      EmptyDbValid(settings);
    }

    /** Creating a user through a validating form or serializer: every text field is stripped;
        email, username, first and last name are required (none of them is `blank=True`); then
        the username validator and the two uniqueness constraints are checked, and nothing
        changes when one fails. */
    method AddUser(user: User) returns (res: Result<UserId, Error>)
      requires Valid()
      modifies this
      ensures Valid()
      ensures res.Err? ==> res.error == InvalidField && State() == old(State())
      ensures res.Ok? <==> UserAccepted(settings, old(users), CleanedUser(user))
      ensures res.Ok? ==>
        && res.value == old(nextUserId) && res.value !in old(users)
        && State() == old(State()).(users := old(users)[res.value := CleanedUser(user)], nextUserId := res.value + 1)
    {
      var c := CleanedUser(user);
      if !UserAccepted(settings, users, c) {
        return Err(InvalidField);
      }
      AddUserKeepsValid(settings, State(), c);
      ghost var d := State().(users := users[nextUserId := c], nextUserId := nextUserId + 1);
      var id := nextUserId;
      users := users[id := c];
      nextUserId := id + 1;
      assert State() == d;
      res := Ok(id);
    }

    /** Creating a tag through the admin's model form: every text field is stripped; name,
        color and slug are required (none is `blank=True`, so `null=True` does not make color or
        slug optional there); then the slug validator and the unique name and slug are checked. */
    method AddTag(tag: Tag) returns (res: Result<TagId, Error>)
      requires Valid()
      modifies this
      ensures Valid()
      ensures res.Err? ==> res.error == InvalidField && State() == old(State())
      ensures res.Ok? <==> tag.color.Some? && tag.slug.Some? && TagAccepted(old(tags), CleanedTag(tag))
      ensures res.Ok? ==>
        && res.value == old(nextTagId) && res.value !in old(tags)
        && State() == old(State()).(tags := old(tags)[res.value := CleanedTag(tag)], nextTagId := res.value + 1)
    {
      if tag.color.None? || tag.slug.None? {
        return Err(InvalidField);
      }
      var c := CleanedTag(tag);
      if !TagAccepted(tags, c) {
        return Err(InvalidField);
      }
      AddTagKeepsValid(settings, State(), c);
      ghost var d := State().(tags := tags[nextTagId := c], nextTagId := nextTagId + 1);
      var id := nextTagId;
      tags := tags[id := c];
      nextTagId := id + 1;
      assert State() == d;
      res := Ok(id);
    }

    /** Creating an ingredient: the table has no constraint beyond its fields. */
    method AddIngredient(ingredient: Ingredient) returns (id: IngredientId)
      requires Valid()
      modifies this
      ensures Valid()
      ensures id == old(nextIngredientId) && id !in old(ingredients)
      ensures State() == old(State()).(ingredients := old(ingredients)[id := ingredient], nextIngredientId := id + 1)
    {
      id := nextIngredientId;
      ingredients := ingredients[id := ingredient];
      nextIngredientId := id + 1;
    }

    /** `Recipe.delete()`, with its cascades. */
    method DeleteRecipe(id: RecipeId)
      requires Valid()
      modifies this
      ensures Valid()
      ensures State() == DeleteRecipes(old(State()), {id})
    {
      DeleteRecipesKeepsValid(settings, State(), {id});
      var d := DeleteRecipes(State(), {id});
      recipes, rows, favorites, shoppingCart := d.recipes, d.rows, d.favorites, d.shoppingCart;
    }

    /** `User.delete()`, with its cascades. */
    method RemoveUser(u: UserId)
      requires Valid()
      modifies this
      ensures Valid()
      ensures State() == DeleteUser(old(State()), u)
    {
      DeleteUserKeepsValid(settings, State(), u);
      var d := DeleteUser(State(), u);
      users, follows, recipes, rows := d.users, d.follows, d.recipes, d.rows;
      favorites, shoppingCart := d.favorites, d.shoppingCart;
    }

    /** `Ingredient.delete()`, with its cascade. */
    method RemoveIngredient(i: IngredientId)
      requires Valid()
      modifies this
      ensures Valid()
      ensures State() == DeleteIngredient(old(State()), i)
    {
      DeleteIngredientKeepsValid(settings, State(), i);
      var d := DeleteIngredient(State(), i);
      ingredients, rows := d.ingredients, d.rows;
    }

    /** `Tag.delete()`: the tag leaves every recipe's tag set. */
    method RemoveTag(t: TagId)
      requires Valid()
      modifies this
      ensures Valid()
      ensures State() == DeleteTag(old(State()), t)
    {
      DeleteTagKeepsValid(settings, State(), t);
      var d := DeleteTag(State(), t);
      tags, recipes := d.tags, d.recipes;
    }
  }
}
