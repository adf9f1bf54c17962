/** api/serializers.py: validating a recipe payload and writing it to the store, and the
    read-side shapes the views return. */
module Serializers {
  import opened Wrappers
  import opened Models
  import Seqs
  import Permissions
  import opened Strings

  // ---------------------------------------------------------------- payloads

  /** One submitted ingredient (`IngredientInRecipeSerializer`): a bare integer id and an amount. */
  datatype IngredientEntry = IngredientEntry(id: int, amount: int)

  /** A recipe payload after parsing; a field the request did not send is `None`. The client
      cannot send `author`; only `validate` fills it in. */
  datatype RecipeData = RecipeData(
    ingredients: Option<seq<IngredientEntry>>,
    tags: Option<seq<TagId>>,
    image: Option<string>,
    name: Option<string>,
    text: Option<string>,
    cookingTime: Option<int>,
    author: Option<UserId>)

  /** What DRF's `CharField` makes of `name` and `text` before any check runs: each stripped of
      surrounding whitespace (`trim_whitespace=True`). */
  function Trimmed(data: RecipeData): RecipeData {
    data.(name := if data.name.Some? then Some(Strip(data.name.value)) else None,
          text := if data.text.Some? then Some(Strip(data.text.value)) else None)
  }

  /** A trimmed name or text that passed the field checks was not blank: it had a character
      other than whitespace, and it has none at either end. Trimming again changes nothing. */
  lemma TrimmedFieldsNotBlank(s: Settings, db: Db, data: RecipeData, partial: bool)
    requires FieldsValid(s, db, Trimmed(data), partial)
    ensures data.name.Some? ==>
      !AllSpace(data.name.value) && Stripped(Trimmed(data).name.value) && |Trimmed(data).name.value| <= |data.name.value|
    ensures data.text.Some? ==> !AllSpace(data.text.value) && Stripped(Trimmed(data).text.value)
    ensures Trimmed(Trimmed(data)) == Trimmed(data)
  {
    if data.name.Some? {
      StripShape(data.name.value);
      StripIdempotent(data.name.value);
    }
    if data.text.Some? {
      StripShape(data.text.value);
      StripIdempotent(data.text.value);
    }
  }

  /** The field-level checks DRF runs, on the trimmed payload, before `validate`: a full write
      needs every field; a field that is present must pass its own validators (a name or text
      that is blank is refused, a name longer than its column too); each tag id must name a tag. */
  predicate FieldsValid(s: Settings, db: Db, data: RecipeData, partial: bool) {
    && (!partial ==>
          && data.ingredients.Some? && data.tags.Some? && data.image.Some?
          && data.name.Some? && data.text.Some? && data.cookingTime.Some?)
    && (data.ingredients.Some? ==> forall e :: e in data.ingredients.value ==> AmountOk(s, e.amount))
    && (data.tags.Some? ==> forall t :: t in data.tags.value ==> t in db.tags)
    && (data.name.Some? ==> 0 < |data.name.value| <= RecipeNameMax)
    && (data.text.Some? ==> data.text.value != "")
    && (data.cookingTime.Some? ==> CookingTimeOk(s, data.cookingTime.value))
  }

  /** Two entries name the same ingredient. */
  predicate HasDuplicateIds(entries: seq<IngredientEntry>) {
    exists i, j :: 0 <= i < j < |entries| && entries[i].id == entries[j].id
  }

  /** Every entry names an existing ingredient (otherwise the bulk insert violates a foreign key). */
  predicate IngredientsExist(ingredients: map<IngredientId, Ingredient>, entries: seq<IngredientEntry>) {
    forall e :: e in entries ==> e.id in ingredients
  }

  // ---------------------------------------------------------------- validate

  /** What `validate` yields: the duplicate-ingredient error, or the data with the requester as
      author. An absent ingredient list has nothing to check. */
  function Validated(data: RecipeData, requester: UserId): Result<RecipeData, Error> {
    if data.ingredients.Some? && HasDuplicateIds(data.ingredients.value) then Err(DuplicateIngredient)
    else Ok(data.(author := Some(requester)))
  }

  /** What `validate` yields as written: iterating over an absent ingredient list raises. */
  function ValidatedAsWritten(data: RecipeData, requester: UserId): Result<RecipeData, Error> {
    if data.ingredients.None? then Err(ServerError) else Validated(data, requester)
  }

  /** `validate`, scanning the ingredient ids while remembering those already seen. */
  method Validate(data: RecipeData, requester: UserId) returns (r: Result<RecipeData, Error>)
    ensures r == Validated(data, requester)
    ensures r.Ok? <==> data.ingredients.None? || !HasDuplicateIds(data.ingredients.value)
    ensures r.Ok? ==> r.value.author == Some(requester) && r.value.(author := data.author) == data
  {
    if data.ingredients.Some? {
      var entries := data.ingredients.value;
      var seen: seq<int> := [];
      var i := 0;
      while i < |entries|
        invariant 0 <= i <= |entries|
        invariant |seen| == i && forall k :: 0 <= k < i ==> seen[k] == entries[k].id
        invariant forall k, l :: 0 <= k < l < i ==> entries[k].id != entries[l].id
      {
        if entries[i].id in seen {
          var k :| 0 <= k < |seen| && seen[k] == entries[i].id;
          assert entries[k].id == entries[i].id;
          return Err(DuplicateIngredient);
        }
        seen := seen + [entries[i].id];
        i := i + 1;
      }
    }
    r := Ok(data.(author := Some(requester)));
  }

  /** `validate` as written: a payload without `ingredients` makes it raise. */
  method ValidateAsWritten(data: RecipeData, requester: UserId) returns (r: Result<RecipeData, Error>)
    ensures r == ValidatedAsWritten(data, requester)
    ensures data.ingredients.None? ==> r == Err(ServerError)
    ensures data.ingredients.Some? ==> (r.Ok? <==> !HasDuplicateIds(data.ingredients.value))
  {
    if data.ingredients.None? {
      return Err(ServerError);
    }
    r := Validate(data, requester);
  }

  /** Every partial update that leaves out `ingredients` fails as written and passes corrected. */
  lemma PartialUpdateWithoutIngredients(data: RecipeData, requester: UserId)
    requires data.ingredients.None?
    ensures ValidatedAsWritten(data, requester) == Err(ServerError)
    ensures Validated(data, requester) == Ok(data.(author := Some(requester)))
  {
  }

  // ---------------------------------------------------------------- join rows

  /** The join rows that attach `entries` to `recipe`, in order. */
  function JoinRows(recipe: RecipeId, entries: seq<IngredientEntry>): seq<IngredientInRecipe> {
    seq(|entries|, k requires 0 <= k < |entries| => IngredientInRecipe(recipe, entries[k].id, entries[k].amount))
  }

  /** `create_ingredients`: one row per entry, carrying that entry's id and amount. */
  method CreateIngredients(entries: seq<IngredientEntry>, recipe: RecipeId) returns (rows: seq<IngredientInRecipe>)
    ensures rows == JoinRows(recipe, entries)
    ensures |rows| == |entries|
    ensures forall k :: 0 <= k < |entries| ==>
      rows[k].recipe == recipe && rows[k].ingredient == entries[k].id && rows[k].amount == entries[k].amount
  {
    rows := [];
    var i := 0;
    while i < |entries|
      invariant 0 <= i <= |entries|
      invariant rows == JoinRows(recipe, entries[..i])
    {
      rows := rows + [IngredientInRecipe(recipe, entries[i].id, entries[i].amount)];
      i := i + 1;
    }
    assert entries[..i] == entries;
  }

  /** Distinct ingredient ids give distinct row keys, and appending them to rows of other recipes
      keeps the table's keys unique. */
  lemma AppendJoinRowsKeysUnique(rows: seq<IngredientInRecipe>, recipe: RecipeId, entries: seq<IngredientEntry>)
    requires RowKeysUnique(rows)
    requires forall r :: r in rows ==> r.recipe != recipe
    requires !HasDuplicateIds(entries)
    ensures RowKeysUnique(rows + JoinRows(recipe, entries))
  {
    var added := JoinRows(recipe, entries);
    var all := rows + added;
    forall i, j | 0 <= i < j < |all|
      ensures !SameKey(all[i], all[j])
    {
      if j < |rows| {
        assert all[i] == rows[i] && all[j] == rows[j];
      } else if i < |rows| {
        assert all[i] == rows[i] && rows[i] in rows;
        assert all[j] == added[j - |rows|];
      } else {
        assert all[i] == added[i - |rows|] && all[j] == added[j - |rows|];
      }
    }
  }

  /** The rows of one recipe. */
  function RowsOf(rows: seq<IngredientInRecipe>, recipe: RecipeId): set<IngredientInRecipe> {
    set r | r in rows && r.recipe == recipe
  }

  // ---------------------------------------------------------------- create

  /** The store after `create`: the recipe under the next id and its join rows appended. */
  function InsertRecipe(db: Db, recipe: Recipe, entries: seq<IngredientEntry>): Db {
    db.(recipes := db.recipes[db.nextRecipeId := recipe],
        rows := db.rows + JoinRows(db.nextRecipeId, entries),
        nextRecipeId := db.nextRecipeId + 1)
  }

  /** Inserting a recipe whose fields and entries passed validation keeps every schema
      constraint, and the new recipe's rows are exactly one per entry. */
  lemma InsertRecipeKeepsValid(s: Settings, db: Db, recipe: Recipe, entries: seq<IngredientEntry>)
    requires DbValid(s, db)
    requires recipe.author in db.users && recipe.tags <= db.tags.Keys && CookingTimeOk(s, recipe.cookingTime)
    requires |recipe.name| <= RecipeNameMax
    requires IngredientsExist(db.ingredients, entries) && !HasDuplicateIds(entries)
    requires forall e :: e in entries ==> AmountOk(s, e.amount)
    ensures DbValid(s, InsertRecipe(db, recipe, entries))
    ensures forall r :: r in InsertRecipe(db, recipe, entries).rows && r.recipe == db.nextRecipeId
                    <==> r in JoinRows(db.nextRecipeId, entries)
  {
    var id := db.nextRecipeId;
    var d := InsertRecipe(db, recipe, entries);
    AppendJoinRowsKeysUnique(db.rows, id, entries);
    forall r | r in JoinRows(id, entries)
      ensures r.recipe == id && r.ingredient in db.ingredients && AmountOk(s, r.amount)
    {
      var k :| 0 <= k < |entries| && JoinRows(id, entries)[k] == r;
      assert entries[k] in entries;
    }
    assert RowsValid(s, d);
    assert RecipesValid(s, d);
    assert MembershipValid(d, d.favorites) && MembershipValid(d, d.shoppingCart);
  }

  /** The checks in front of `create`, in their order: the field checks on the trimmed payload,
      `validate`, and the foreign keys the row insert needs. */
  method CheckCreate(store: Store, requester: UserId, data: RecipeData) returns (res: Result<RecipeData, Error>)
    requires store.Valid()
    ensures res.Ok? <==>
      && FieldsValid(store.settings, store.State(), Trimmed(data), false)
      && !HasDuplicateIds(data.ingredients.value)
      && IngredientsExist(store.ingredients, data.ingredients.value)
    ensures res.Ok? ==> res.value == Trimmed(data).(author := Some(requester))
    ensures !FieldsValid(store.settings, store.State(), Trimmed(data), false) ==> res == Err(InvalidField)
    ensures FieldsValid(store.settings, store.State(), Trimmed(data), false) && HasDuplicateIds(data.ingredients.value)
            ==> res == Err(DuplicateIngredient)
    ensures && FieldsValid(store.settings, store.State(), Trimmed(data), false)
            && !HasDuplicateIds(data.ingredients.value)
            && !IngredientsExist(store.ingredients, data.ingredients.value)
            ==> res == Err(IntegrityError)
  {
    var parsed := Trimmed(data);
    if !FieldsValid(store.settings, store.State(), parsed, false) {
      return Err(InvalidField);
    }
    var v := Validate(parsed, requester);
    if v.Err? {
      return Err(v.error);
    }
    // the bulk insert of join rows fails on an unknown ingredient and the transaction rolls back
    if !IngredientsExist(store.ingredients, v.value.ingredients.value) {
      return Err(IntegrityError);
    }
    res := v;
  }

  /** `create` (inside `transaction.atomic`): the checks, then the recipe, its join rows and its
      tags; any failure leaves the store as it was. */
  method Create(store: Store, requester: UserId, data: RecipeData) returns (res: Result<RecipeId, Error>)
    requires store.Valid() && requester in store.users
    modifies store
    ensures store.Valid()
    ensures res.Err? ==> store.State() == old(store.State())
    ensures res.Ok? <==>
      && FieldsValid(store.settings, old(store.State()), Trimmed(data), false)
      && !HasDuplicateIds(data.ingredients.value)
      && IngredientsExist(old(store.ingredients), data.ingredients.value)
    ensures !FieldsValid(store.settings, old(store.State()), Trimmed(data), false) ==> res == Err(InvalidField)
    ensures FieldsValid(store.settings, old(store.State()), Trimmed(data), false) && HasDuplicateIds(data.ingredients.value)
            ==> res == Err(DuplicateIngredient)
    ensures && FieldsValid(store.settings, old(store.State()), Trimmed(data), false)
            && !HasDuplicateIds(data.ingredients.value)
            && !IngredientsExist(old(store.ingredients), data.ingredients.value)
            ==> res == Err(IntegrityError)
    ensures res.Ok? ==>
      && res.value == old(store.nextRecipeId) && res.value !in old(store.recipes) && res.value in store.recipes
      && store.recipes[res.value]
         == Recipe(requester, Strip(data.name.value), Strip(data.text.value), data.image.value, data.cookingTime.value,
                   set t | t in data.tags.value)
      && store.State() == InsertRecipe(old(store.State()), store.recipes[res.value], data.ingredients.value)
      && (forall r :: r in store.rows && r.recipe == res.value <==> r in JoinRows(res.value, data.ingredients.value))
  {
    var v := CheckCreate(store, requester, data);
    if v.Err? {
      return Err(v.error);
    }
    var validated := v.value;
    var entries := validated.ingredients.value;
    var tagSet := set t | t in validated.tags.value;
    assert tagSet <= store.tags.Keys by {
      forall t | t in tagSet ensures t in store.tags {
        assert t in validated.tags.value;
      }
    }
    // `Recipe.objects.create` and the later `recipe.tags.set(tags)` land in one write: nothing
    // outside the transaction sees the recipe without its tags
    var recipe := Recipe(validated.author.value, validated.name.value, validated.text.value,
                         validated.image.value, validated.cookingTime.value, tagSet);
    InsertRecipeKeepsValid(store.settings, store.State(), recipe, entries);
    ghost var d := InsertRecipe(store.State(), recipe, entries);
    var id := store.nextRecipeId;
    store.recipes := store.recipes[id := recipe];
    store.nextRecipeId := id + 1;
    var created := CreateIngredients(entries, id);
    store.rows := store.rows + created;
    assert store.rows == d.rows;
    assert store.State() == d;
    res := Ok(id);
  }

  // ---------------------------------------------------------------- update

  /** `if tags:` — a present but empty tag list leaves the recipe's tags alone. */
  predicate ReplacesTags(data: RecipeData) {
    data.tags.Some? && |data.tags.value| > 0
  }

  /** `if ingredients:` — a present but empty ingredient list leaves the recipe's rows alone. */
  predicate ReplacesIngredients(data: RecipeData) {
    data.ingredients.Some? && |data.ingredients.value| > 0
  }

  /** The object permission checked before an update: PATCH for a partial one, PUT otherwise. */
  predicate MayUpdate(db: Db, requester: UserId, id: RecipeId, partial: bool)
    requires id in db.recipes && requester in db.users
  {
    Permissions.HasObjectPermission(
      if partial then Permissions.PATCH else Permissions.PUT,
      Permissions.Authenticated(requester, db.users[requester].isStaff),
      db.recipes[id].author)
  }

  /** The store after `update`: the recipe replaced and, when `entries` is given, the recipe's
      rows replaced by one row per entry. */
  function ReplaceRecipe(db: Db, id: RecipeId, recipe: Recipe, entries: Option<seq<IngredientEntry>>): Db {
    db.(recipes := db.recipes[id := recipe],
        rows := if entries.Some? then Seqs.Select(db.rows, RowsOf(db.rows, id), false) + JoinRows(id, entries.value)
                else db.rows)
  }

  /** Replacing a recipe by one whose fields passed validation keeps every schema constraint;
      the recipe's rows become one per entry and no other recipe's rows change. */
  lemma ReplaceRecipeKeepsValid(s: Settings, db: Db, id: RecipeId, recipe: Recipe, entries: Option<seq<IngredientEntry>>)
    requires DbValid(s, db) && id in db.recipes
    requires recipe.author in db.users && recipe.tags <= db.tags.Keys && CookingTimeOk(s, recipe.cookingTime)
    requires |recipe.name| <= RecipeNameMax
    requires entries.Some? ==>
      && IngredientsExist(db.ingredients, entries.value) && !HasDuplicateIds(entries.value)
      && forall e :: e in entries.value ==> AmountOk(s, e.amount)
    ensures DbValid(s, ReplaceRecipe(db, id, recipe, entries))
    ensures entries.Some? ==>
      forall r :: r in ReplaceRecipe(db, id, recipe, entries).rows && r.recipe == id <==> r in JoinRows(id, entries.value)
    ensures forall r :: r in ReplaceRecipe(db, id, recipe, entries).rows && r.recipe != id <==> r in db.rows && r.recipe != id
  {
    var d := ReplaceRecipe(db, id, recipe, entries);
    if entries.Some? {
      var kept := Seqs.Select(db.rows, RowsOf(db.rows, id), false);
      SelectKeepsRowKeysUnique(db.rows, RowsOf(db.rows, id), false);
      AppendJoinRowsKeysUnique(kept, id, entries.value);
      forall r | r in JoinRows(id, entries.value)
        ensures r.recipe == id && r.ingredient in db.ingredients && AmountOk(s, r.amount)
      {
        var k :| 0 <= k < |entries.value| && JoinRows(id, entries.value)[k] == r;
        assert entries.value[k] in entries.value;
      }
    }
    assert RowsValid(s, d);
    assert RecipesValid(s, d);
    assert MembershipValid(d, d.favorites) && MembershipValid(d, d.shoppingCart);
  }

  /** Everything an update with payload `data` must pass before anything is written. */
  predicate UpdateAccepted(s: Settings, db: Db, requester: UserId, id: RecipeId, data: RecipeData, partial: bool)
    requires requester in db.users
  {
    && id in db.recipes && MayUpdate(db, requester, id, partial)
    && FieldsValid(s, db, Trimmed(data), partial)
    && Validated(data, requester).Ok?
    && (ReplacesIngredients(data) ==> IngredientsExist(db.ingredients, data.ingredients.value))
  }

  /** The checks in front of `update`, in their order: the recipe lookup, the object permission,
      the field checks, `validate`, and the foreign keys the row insert needs. */
  method CheckUpdate(store: Store, requester: UserId, id: RecipeId, data: RecipeData, partial: bool)
    returns (res: Result<RecipeData, Error>)
    requires store.Valid() && requester in store.users
    ensures res.Ok? <==> UpdateAccepted(store.settings, store.State(), requester, id, data, partial)
    ensures res.Ok? ==> res.value == Trimmed(data).(author := Some(requester))
    ensures id !in store.recipes ==> res == Err(NotFound)
    ensures id in store.recipes && !MayUpdate(store.State(), requester, id, partial) ==> res == Err(PermissionDenied)
    ensures && id in store.recipes && MayUpdate(store.State(), requester, id, partial)
            && !FieldsValid(store.settings, store.State(), Trimmed(data), partial)
            ==> res == Err(InvalidField)
    ensures && id in store.recipes && MayUpdate(store.State(), requester, id, partial)
            && FieldsValid(store.settings, store.State(), Trimmed(data), partial)
            && Validated(data, requester).Err?
            ==> res == Err(DuplicateIngredient)
    ensures && id in store.recipes && MayUpdate(store.State(), requester, id, partial)
            && FieldsValid(store.settings, store.State(), Trimmed(data), partial)
            && Validated(data, requester).Ok?
            && ReplacesIngredients(data) && !IngredientsExist(store.ingredients, data.ingredients.value)
            ==> res == Err(IntegrityError)
  {
    if id !in store.recipes {
      return Err(NotFound);
    }
    if !MayUpdate(store.State(), requester, id, partial) {
      return Err(PermissionDenied);
    }
    var parsed := Trimmed(data);
    if !FieldsValid(store.settings, store.State(), parsed, partial) {
      return Err(InvalidField);
    }
    var v := Validate(parsed, requester);
    if v.Err? {
      return Err(v.error);
    }
    // the bulk insert of join rows fails on an unknown ingredient and the transaction rolls back
    if ReplacesIngredients(v.value) && !IngredientsExist(store.ingredients, v.value.ingredients.value) {
      return Err(IntegrityError);
    }
    res := v;
  }

  /** The body of `update` on validated data: every remaining field is set on the recipe, the
      author included; tags and rows are replaced only when given and non-empty; the author is
      then restored and the recipe saved. */
  method ApplyUpdate(store: Store, id: RecipeId, validated: RecipeData)
    requires store.Valid() && id in store.recipes && validated.author.Some?
    requires FieldsValid(store.settings, store.State(), validated, true)
    requires validated.ingredients.Some? ==> !HasDuplicateIds(validated.ingredients.value)
    requires ReplacesIngredients(validated) ==> IngredientsExist(store.ingredients, validated.ingredients.value)
    modifies store
    ensures store.Valid()
    ensures
      var o := old(store.recipes[id]);
      store.State()
      == ReplaceRecipe(old(store.State()), id,
           Recipe(o.author, validated.name.GetOr(o.name), validated.text.GetOr(o.text),
                  validated.image.GetOr(o.image), validated.cookingTime.GetOr(o.cookingTime),
                  if ReplacesTags(validated) then (set t | t in validated.tags.value) else o.tags),
           if ReplacesIngredients(validated) then validated.ingredients else None)
    ensures ReplacesIngredients(validated) ==>
      forall r :: r in store.rows && r.recipe == id <==> r in JoinRows(id, validated.ingredients.value)
    ensures forall r :: r in store.rows && r.recipe != id <==> r in old(store.rows) && r.recipe != id
  {
    var recipe := store.recipes[id];
    var author := recipe.author;
    recipe := recipe.(name := validated.name.GetOr(recipe.name), text := validated.text.GetOr(recipe.text),
                      image := validated.image.GetOr(recipe.image),
                      cookingTime := validated.cookingTime.GetOr(recipe.cookingTime),
                      author := validated.author.value);
    if ReplacesTags(validated) {
      var tagSet := set t | t in validated.tags.value;
      assert tagSet <= store.tags.Keys by {
        forall t | t in tagSet ensures t in store.tags {
          assert t in validated.tags.value;
        }
      }
      recipe := recipe.(tags := tagSet);
    }
    recipe := recipe.(author := author);
    var entries := if ReplacesIngredients(validated) then validated.ingredients else None;
    ReplaceRecipeKeepsValid(store.settings, store.State(), id, recipe, entries);
    ghost var d := ReplaceRecipe(store.State(), id, recipe, entries);
    if ReplacesIngredients(validated) {
      store.rows := Seqs.Select(store.rows, RowsOf(store.rows, id), false);
      var created := CreateIngredients(validated.ingredients.value, id);
      store.rows := store.rows + created;
    }
    store.recipes := store.recipes[id := recipe];
    assert store.rows == d.rows && store.recipes == d.recipes;
    assert store.State() == d;
  }

  /** `update` (inside `transaction.atomic`, after the object permission check): present fields
      overwrite the recipe, tags and rows are replaced only when given and non-empty, and the
      author never changes; any failure leaves the store as it was. */
  method Update(store: Store, requester: UserId, id: RecipeId, data: RecipeData, partial: bool)
    returns (res: Result<RecipeId, Error>)
    requires store.Valid() && requester in store.users
    modifies store
    ensures store.Valid()
    ensures res.Err? ==> store.State() == old(store.State())
    ensures res.Ok? <==> UpdateAccepted(store.settings, old(store.State()), requester, id, data, partial)
    ensures id !in old(store.recipes) ==> res == Err(NotFound)
    ensures id in old(store.recipes) && !MayUpdate(old(store.State()), requester, id, partial)
            ==> res == Err(PermissionDenied)
    ensures res.Ok? ==>
      var o := old(store.recipes[id]);
      && res.value == id && id in store.recipes
      && store.recipes[id].author == o.author
      && store.State()
         == ReplaceRecipe(old(store.State()), id,
              Recipe(o.author, Trimmed(data).name.GetOr(o.name), Trimmed(data).text.GetOr(o.text), data.image.GetOr(o.image),
                     data.cookingTime.GetOr(o.cookingTime),
                     if ReplacesTags(data) then (set t | t in data.tags.value) else o.tags),
              if ReplacesIngredients(data) then data.ingredients else None)
    ensures res.Ok? && ReplacesIngredients(data) ==>
      forall r :: r in store.rows && r.recipe == id <==> r in JoinRows(id, data.ingredients.value)
    ensures res.Ok? ==> forall r :: r in store.rows && r.recipe != id <==> r in old(store.rows) && r.recipe != id
  {
    var v := CheckUpdate(store, requester, id, data, partial);
    if v.Err? {
      return Err(v.error);
    }
    ApplyUpdate(store, id, v.value);
    res := Ok(id);
  }

  // ---------------------------------------------------------------- favourites and cart

  /** `FavoriteSerializer.validate` and `ShopListSerializer.validate`: a pair already in the
      table is refused. */
  function ValidateMembership(existing: set<UserRecipe>, data: UserRecipe): (r: Result<UserRecipe, Error>)
    ensures r.Ok? <==> data !in existing
    ensures r.Ok? ==> r.value == data
    ensures r.Err? ==> r.error == AlreadyAdded
  {
    if data in existing then Err(AlreadyAdded) else Ok(data)
  }

  /** `RecipeMinifiedSerializer`: id, name, image and cooking time. */
  datatype MinifiedRecipe = MinifiedRecipe(id: RecipeId, name: string, image: string, cookingTime: int)

  function Minify(id: RecipeId, r: Recipe): MinifiedRecipe {
    MinifiedRecipe(id, r.name, r.image, r.cookingTime)
  }

  // ---------------------------------------------------------------- follows

  /** `FollowSerializer.get_recipes_count`: how many recipes the author has. */
  function RecipesCount(recipes: map<RecipeId, Recipe>, author: UserId): (n: nat)
    ensures n <= |recipes|
    ensures n == 0 <==> forall id :: id in recipes ==> recipes[id].author != author
  {
    var mine := AuthoredBy(recipes, author);
    assert recipes.Keys == mine + (recipes.Keys - mine);
    if |mine| == 0 then
      assert mine == {};
      0
    else
      assert (forall id :: id in recipes ==> recipes[id].author != author) ==> mine == {};
      |mine|
  }

  /** `RecipeFollowUserField.get_attribute`: the author's recipes, newest first, cut to the
      first `limit` when the request carries `recipes_limit`. */
  method FollowRecipes(recipes: map<RecipeId, Recipe>, nextRecipeId: nat, author: UserId, limit: Option<nat>)
    returns (ids: seq<RecipeId>)
    requires forall id :: id in recipes ==> 0 <= id < nextRecipeId
    ensures forall id :: id in ids ==> id in recipes && recipes[id].author == author
    ensures forall k, l :: 0 <= k < l < |ids| ==> ids[k] > ids[l]
    ensures |ids| == if limit.Some? && limit.value < RecipesCount(recipes, author) then limit.value
                     else RecipesCount(recipes, author)
    ensures forall id :: id in AuthoredBy(recipes, author) && id !in ids ==>
      forall k :: 0 <= k < |ids| ==> id < ids[k]
  {
    ids := [];
    var i := nextRecipeId;
    while i > 0 && (limit.None? || |ids| < limit.value)
      invariant 0 <= i <= nextRecipeId
      invariant forall id :: id in ids <==> id in recipes && recipes[id].author == author && id >= i
      invariant forall k, l :: 0 <= k < l < |ids| ==> ids[k] > ids[l]
      invariant forall k :: 0 <= k < |ids| ==> ids[k] >= i
      invariant limit.Some? ==> |ids| <= limit.value
    {
      i := i - 1;
      if i in recipes && recipes[i].author == author {
        ids := ids + [i];
      }
    }
    ListedCount(recipes, author, ids, i);
  }

  /** A duplicate-free list of the author's recipes from some id up has at most as many entries
      as the author has recipes, and exactly as many when it starts from id 0. */
  lemma ListedCount(recipes: map<RecipeId, Recipe>, author: UserId, ids: seq<RecipeId>, from: int)
    requires forall id :: id in recipes ==> 0 <= id
    requires forall k, l :: 0 <= k < l < |ids| ==> ids[k] > ids[l]
    requires forall id :: id in ids <==> id in recipes && recipes[id].author == author && id >= from
    ensures |ids| <= RecipesCount(recipes, author)
    ensures from <= 0 ==> |ids| == RecipesCount(recipes, author)
  {
    var mine := AuthoredBy(recipes, author);
    var listed := set id | id in ids;
    assert Seqs.Distinct(ids);
    Seqs.DistinctCardinality(ids);
    assert listed <= mine by {
      forall id | id in listed ensures id in mine {
        assert id in ids;
      }
    }
    assert |listed| <= |mine| by {
      assert mine == listed + (mine - listed);
    }
    if from <= 0 {
      assert mine <= listed by {
        forall id | id in mine ensures id in listed {
          assert id in recipes && recipes[id].author == author;
        }
      }
      assert listed == mine;
    }
  }

  /** `RecipeFollowUserField.to_representation`: each listed recipe minified, in order. */
  method RecipesRepresentation(recipes: map<RecipeId, Recipe>, ids: seq<RecipeId>) returns (out: seq<MinifiedRecipe>)
    requires forall id :: id in ids ==> id in recipes
    ensures |out| == |ids|
    ensures forall k :: 0 <= k < |ids| ==> out[k] == Minify(ids[k], recipes[ids[k]])
  {
    out := [];
    for k := 0 to |ids|
      invariant |out| == k
      invariant forall j :: 0 <= j < k ==> out[j] == Minify(ids[j], recipes[ids[j]])
    {
      out := out + [Minify(ids[k], recipes[ids[k]])];
    }
  }

  /** `recipes` lists recipes of `author` minified, newest first, and every recipe of the author
      left out is older than every listed one. */
  predicate NewestRecipesOf(recipes: map<RecipeId, Recipe>, author: UserId, out: seq<MinifiedRecipe>) {
    && (forall k :: 0 <= k < |out| ==>
          out[k].id in recipes && recipes[out[k].id].author == author && out[k] == Minify(out[k].id, recipes[out[k].id]))
    && (forall k, l :: 0 <= k < l < |out| ==> out[k].id > out[l].id)
    && (forall id :: id in AuthoredBy(recipes, author) && (forall k :: 0 <= k < |out| ==> out[k].id != id) ==>
          forall k :: 0 <= k < |out| ==> id < out[k].id)
  }

  /** Minifying a newest-first listing of the author's recipes keeps it one. */
  lemma MinifiedNewest(recipes: map<RecipeId, Recipe>, author: UserId, ids: seq<RecipeId>, out: seq<MinifiedRecipe>)
    requires forall id :: id in ids ==> id in recipes && recipes[id].author == author
    requires forall k, l :: 0 <= k < l < |ids| ==> ids[k] > ids[l]
    requires forall id :: id in AuthoredBy(recipes, author) && id !in ids ==> forall k :: 0 <= k < |ids| ==> id < ids[k]
    requires |out| == |ids| && forall k :: 0 <= k < |ids| ==> out[k] == Minify(ids[k], recipes[ids[k]])
    ensures NewestRecipesOf(recipes, author, out)
  {
    assert forall k :: 0 <= k < |out| ==> out[k].id == ids[k] && ids[k] in ids;
    forall id | id in AuthoredBy(recipes, author) && (forall k :: 0 <= k < |out| ==> out[k].id != id)
      ensures forall k :: 0 <= k < |out| ==> id < out[k].id
    {
      assert id !in ids;
    }
  }

  /** The body of a `FollowSerializer` response. */
  datatype FollowView = FollowView(
    email: string, id: UserId, username: string, firstName: string, lastName: string,
    isSubscribed: bool, recipes: seq<MinifiedRecipe>, recipesCount: nat)

  /** `FollowSerializer` over the follow of `author` by `user`: the author's fields, whether the
      follow exists, the author's recipes newest first (cut to `limit`) and their count. */
  method SerializeFollow(store: Store, user: UserId, author: UserId, limit: Option<nat>) returns (v: FollowView)
    requires store.Valid() && author in store.users
    ensures && v.id == author && v.email == store.users[author].email && v.username == store.users[author].username
            && v.firstName == store.users[author].firstName && v.lastName == store.users[author].lastName
    ensures v.isSubscribed <==> Follow(user, author) in store.follows
    ensures v.recipesCount == RecipesCount(store.recipes, author)
    ensures |v.recipes| == if limit.Some? && limit.value < v.recipesCount then limit.value else v.recipesCount
    ensures NewestRecipesOf(store.recipes, author, v.recipes)
  {
    var ids := FollowRecipes(store.recipes, store.nextRecipeId, author, limit);
    var recipes := RecipesRepresentation(store.recipes, ids);
    MinifiedNewest(store.recipes, author, ids, recipes);
    var a := store.users[author];
    v := FollowView(a.email, author, a.username, a.firstName, a.lastName, Follow(user, author) in store.follows,
                    recipes, RecipesCount(store.recipes, author));
  }
}
