# foodgram core, modelled in Dafny

foodgram is a recipe-sharing backend. Users publish recipes built from tagged ingredients with amounts. They
follow other authors, mark recipes as favourites, put recipes in a shopping cart, and download the cart as
a text file that adds up the ingredients. This project models the business rules of that backend over an
in-memory store and proves properties of the model:

- **The store** (`models.dfy`): a class `Models.Store` with one field per table: users, follows, tags,
  ingredients, recipes, ingredient-in-recipe join rows, favourites and cart rows.
  - Its invariant `Models.DbValid` collects every schema constraint: uniqueness of emails, usernames, tag
    names and slugs, and of join-row, follow, favourite and cart pairs; no self-follow; foreign keys;
    cooking-time and amount bounds; the recipe name's 200-character column; validated usernames and
    slugs.
  - The cascades of deleting a recipe, user, ingredient or tag are spec functions, each proved to keep
    the invariant.
- **The validators** (`user_validators.dfy`, `slug_validator.dfy`, `regex.dfy`): `re.sub` of a character
  class, and the username and slug checks built on it.
- **Text input** (`strings.dfy`): Python's `str.strip()`. Django's form `CharField` and DRF's
  `CharField` strip every submitted text value before checking it, so a value that is whitespace only
  counts as blank, and what is stored has no whitespace at either end.
- **The permission** (`permissions.dfy`): the author/staff/read-only object permission.
- **The recipe workflow** (`serializers.dfy`): payload checks, duplicate-ingredient rejection, and
  creation and update of recipes with their join rows. Each runs all-or-nothing, like
  `transaction.atomic`. This file also has the favourite/cart validation and the follow-view recipe
  list and count.
- **The views** (`views.dfy`): subscribe/unsubscribe, favourite/cart add and remove, and the recipe list
  queryset with its filters (`filters.dfy`).
- **The shopping-cart file** (`utils.dfy`): carted join rows grouped by (name, unit) with summed
  amounts, rendered after a header.

The settings the source imports are parameters in `Models.Settings`:
- the bounds `MIN_/MAX_COOKING_TIME` and `MIN_/MAX_AMOUNT_INGREDIENT`, assumed MIN ≤ MAX;
- the list `FORBIDDEN_USERNAMES`;
- Python's Unicode `\w` class, as a predicate that agrees with `[A-Za-z0-9_]` on ASCII.

Notes on how the source behaves, which the model follows:
- Creating a recipe with an empty ingredient list is accepted. The nested list serializer allows empty
  lists, and nothing else checks for them.
- Updating with a present but empty tag or ingredient list leaves the tags or rows as they were
  (`if tags:` / `if ingredients:`). It does not clear them.
- An unknown tag id is a field validation error (`PrimaryKeyRelatedField`), not a not-found.
- An unknown ingredient id passes validation and fails at the bulk insert with an integrity error. The
  transaction then rolls back and the store is unchanged.
- `views.py` imports `IsAuthorOrReadOnly` from `permissions.py`, which defines no class of that name;
  the only permission class there is `AuthorStaffOrReadOnly`. The model uses `AuthorStaffOrReadOnly`.

## Model

| member | source | states |
|---|---|---|
| Regex.Sub | backend/foodgram/recipes/validators.py:7 | deleting every run of class characters leaves exactly the characters outside the class, and is no longer than the input |
| Regex.SubAppend | backend/foodgram/users/validators.py:10 | the substitution distributes over concatenation, so the leftover keeps input order |
| Regex.SubEmpty | backend/foodgram/recipes/validators.py:8 | the leftover is empty iff every character is in the class |
| Regex.SubCount | backend/foodgram/users/validators.py:10 | each character outside the class is kept as often as it occurs; class characters never |
| UserValidators.ValidateUsername | backend/foodgram/users/validators.py:7-16 | a forbidden name is refused whatever it holds; otherwise accepted (and returned unchanged) iff every character is in `[\w.@+-]`; a refusal reports a non-empty leftover of exactly the disallowed characters |
| UserValidators.LeftoverIsDisallowedInOrder | backend/foodgram/users/validators.py:10-15 | the reported leftover is the disallowed characters in input order, each with its multiplicity |
| UserValidators.AsciiUsernameAccepted | backend/foodgram/users/validators.py:10-16 | a non-forbidden name of ASCII letters, digits and `_.@+-` is accepted unchanged |
| UserValidators.AsciiOutsideClassRejected | backend/foodgram/users/validators.py:10-15 | one ASCII character outside the class (a space, say) makes any name invalid |
| SlugValidator.ValidateSlug | backend/foodgram/recipes/validators.py:6-13 | a slug is accepted iff every character is in `[-a-zA-Z0-9_]`, and is then returned unchanged; a refusal reports exactly the disallowed characters |
| SlugValidator.ReportIsDisallowedInOrder | backend/foodgram/recipes/validators.py:7-12 | the report is the disallowed characters in input order, each with its multiplicity |
| SlugValidator.NonAsciiRejected | backend/foodgram/recipes/validators.py:7 | a slug holding any non-ASCII character (a Cyrillic letter) is refused and that character is reported |
| Strings.LeadShape | backend/foodgram/recipes/models.py:59-62 | the leading-whitespace count covers exactly the whitespace the text starts with |
| Strings.TrailShape | backend/foodgram/recipes/models.py:59-62 | the trailing-whitespace count covers exactly the whitespace the text ends with |
| Strings.StripShape | backend/foodgram/recipes/models.py:59-73 | `strip` keeps a stretch of the input with no whitespace at either end, everything around it being whitespace; the result is empty iff the input is all whitespace |
| Strings.StripPadded | backend/foodgram/recipes/models.py:59-73 | whitespace put around a stripped text comes off again and nothing else does |
| Strings.StripIdempotent | backend/foodgram/recipes/models.py:59-73 | stripping twice strips nothing more |
| Permissions.HasObjectPermission | backend/foodgram/api/permissions.py:8-14 | safe methods always pass; an unsafe method fails for an anonymous user, passes for staff and for the author, and fails for anyone else |
| Models.UsersValid | backend/foodgram/users/models.py:9-21 | every user id was handed out, every username passes `validate_username`, and no two users share an email or a username |
| Models.FollowsValid | backend/foodgram/users/models.py:44-70 | both ends of a follow are users and nobody follows themselves; the set makes (user, author) unique |
| Models.TagsValid | backend/foodgram/recipes/models.py:11-29 | every tag id was handed out, a present slug passes `validate_slug`, and no two tags share a name or a present slug |
| Models.RecipesValid | backend/foodgram/recipes/models.py:40-90 | every recipe has an existing author and existing tags, a name of at most 200 characters and a cooking time within the settings' bounds and the small-integer column |
| Models.RowKeysUnique | backend/foodgram/recipes/models.py:150-155 | no two join rows share a (recipe, ingredient) pair |
| Models.RowsValid | backend/foodgram/recipes/models.py:121-155 | every join row names an existing recipe and ingredient and an amount within bounds, and the pairs are unique |
| Models.MembershipValid | backend/foodgram/recipes/models.py:161-222 | every favourite and cart row names an existing user and recipe; the set makes the pair unique |
| Models.DbValid | backend/foodgram/recipes/models.py:11-222 | the conjunction of every table's constraints, with the settings' bounds ordered |
| Models.SelectKeepsRowKeysUnique | backend/foodgram/recipes/models.py:150-155 | deleting join rows never breaks the one-row-per-(recipe, ingredient) constraint |
| Models.DeleteRecipes | backend/foodgram/recipes/models.py:125-129 | deleting recipes removes exactly their join rows, favourites and cart rows (also the CASCADEs at 171-176 and 203-208) and changes no other table |
| Models.DeleteRecipesKeepsValid | backend/foodgram/recipes/models.py:125-129 | the recipe cascade leaves no orphan and keeps every constraint |
| Models.DeleteUser | backend/foodgram/users/models.py:46-57 | deleting a user removes the follows in both directions, the user's recipes with their cascades, and the user's own favourites and cart rows (recipes/models.py 47-52, 165-170, 197-202); the remaining users and recipes keep their values and the other tables are unchanged |
| Models.DeleteUserKeepsValid | backend/foodgram/recipes/models.py:47-52 | the user cascade keeps every constraint |
| Models.DeleteUserKeepsPeopleValid | backend/foodgram/users/models.py:44-70 | after the user cascade, the user, follow, tag and ingredient constraints still hold |
| Models.DeleteUserKeepsRecipesValid | backend/foodgram/recipes/models.py:47-52 | after the user cascade, every remaining recipe has an existing author and every join row existing ends |
| Models.DeleteIngredient | backend/foodgram/recipes/models.py:130-133 | deleting an ingredient removes exactly the join rows that use it; the remaining ingredients keep their values and the other tables are unchanged |
| Models.DeleteIngredientKeepsValid | backend/foodgram/recipes/models.py:130-133 | the ingredient cascade keeps every constraint |
| Models.DeleteTag | backend/foodgram/recipes/models.py:42-46 | deleting a tag removes it from every recipe's tag set; the remaining tags keep their names, colors and slugs, the recipes keep every other field, and the other tables are unchanged |
| Models.DeleteTagKeepsValid | backend/foodgram/recipes/models.py:42-46 | the tag deletion keeps every constraint |
| Models.CleanedUser | backend/foodgram/users/models.py:11-29 | the submitted user with email, username, first and last name stripped |
| Models.UserAccepted | backend/foodgram/users/models.py:11-29 | email, username, first and last name are non-blank (none is `blank=True`), the username passes `validate_username`, and email and username are unused |
| Models.BlankUserRefused | backend/foodgram/users/models.py:11-29 | a user whose email, username or either name is empty or whitespace only is refused |
| Models.AddUserKeepsValid | backend/foodgram/users/models.py:9-21 | adding an accepted user under the next id keeps every constraint |
| Models.Store.AddUser | backend/foodgram/users/models.py:9-29 | a user is added iff the stripped submission is accepted; then it is stored stripped under a fresh id and nothing else changes; a failure is a field error and changes nothing |
| Models.CleanedTag | backend/foodgram/recipes/models.py:11-29 | the submitted tag with name, color and slug stripped |
| Models.TagAccepted | backend/foodgram/recipes/models.py:11-29 | name, color and slug are present and non-blank (none is `blank=True`), the slug passes `validate_slug`, and name and slug are unused |
| Models.BlankTagRefused | backend/foodgram/recipes/models.py:11-29 | a tag whose name, color or slug is missing, empty or whitespace only is refused |
| Models.AddTagKeepsValid | backend/foodgram/recipes/models.py:11-29 | adding an accepted tag under the next id keeps every constraint |
| Models.Store.AddTag | backend/foodgram/recipes/models.py:11-29 | a tag is added iff color and slug are given and the stripped submission is accepted; then it is stored stripped under a fresh id and nothing else changes; a failure is a field error and changes nothing |
| Models.Store.AddIngredient | backend/foodgram/recipes/models.py:101-118 | an ingredient is stored under a fresh id; nothing else changes |
| Models.Store.DeleteRecipe | backend/foodgram/recipes/models.py:125-129 | the store becomes `DeleteRecipes` of the old one and stays valid |
| Models.Store.RemoveUser | backend/foodgram/users/models.py:46-57 | the store becomes `DeleteUser` of the old one and stays valid |
| Models.Store.RemoveIngredient | backend/foodgram/recipes/models.py:130-133 | the store becomes `DeleteIngredient` of the old one and stays valid |
| Models.Store.RemoveTag | backend/foodgram/recipes/models.py:42-46 | the store becomes `DeleteTag` of the old one and stays valid |
| Filters.GetIsFavorited | backend/foodgram/api/filters.py:27-30 | `true` keeps exactly the input recipes the viewer favourited, `false` exactly those not favourited; the result is a sub-multiset of the input |
| Filters.GetIsInShoppingCart | backend/foodgram/api/filters.py:32-37 | `true` keeps exactly the input recipes in the viewer's cart; `false` returns the input unchanged; the result is a sub-multiset of the input |
| Filters.IsFavoritedPartition | backend/foodgram/api/filters.py:27-30 | the `true` and `false` results together are the input, duplicates included |
| Filters.FiltersKeepDistinct | backend/foodgram/api/filters.py:27-37 | filtering a duplicate-free queryset keeps it duplicate-free |
| Filters.FiltersKeepOrder | backend/foodgram/api/filters.py:27-37 | filtering a queryset ordered newest first keeps it newest first |
| Seqs.SelectDescending | backend/foodgram/api/filters.py:27-37 | a `.filter` or `.exclude` keeps the queryset's strictly decreasing id order |
| Serializers.Trimmed | backend/foodgram/api/serializers.py:204-225 | the payload as DRF's `CharField` parses it: `name` and `text` stripped, every other field as sent |
| Serializers.FieldsValid | backend/foodgram/api/serializers.py:204-225 | on the trimmed payload: a full write carries every field; amounts and cooking time are within bounds; every tag id names a tag; name and text are non-blank and the name fits its 200-character column |
| Serializers.TrimmedFieldsNotBlank | backend/foodgram/api/serializers.py:204-225 | a name or text that passed the field checks had a character other than whitespace and is kept with none at either end; trimming again changes nothing |
| Serializers.Validate | backend/foodgram/api/serializers.py:238-258 | the loop refuses an ingredient list in which some id occurs twice, whatever the amounts, and accepts it otherwise; on acceptance the author is the requester and every other field is as submitted |
| Serializers.ValidateAsWritten | backend/foodgram/api/serializers.py:241-243 | as written, a payload without `ingredients` raises; otherwise it behaves as `Validate` |
| Serializers.PartialUpdateWithoutIngredients | backend/foodgram/api/serializers.py:241-243 | every payload without `ingredients` fails as written and passes corrected |
| Serializers.CreateIngredients | backend/foodgram/api/serializers.py:227-236 | one join row per entry, in order, each carrying that entry's id and amount and attached to the given recipe |
| Serializers.AppendJoinRowsKeysUnique | backend/foodgram/recipes/models.py:150-155 | rows of distinct ingredient ids for a recipe without rows keep (recipe, ingredient) unique |
| Serializers.InsertRecipeKeepsValid | backend/foodgram/api/serializers.py:260-272 | inserting a validated recipe and its rows keeps every constraint, and the new recipe's rows are exactly one per entry |
| Serializers.CheckCreate | backend/foodgram/api/serializers.py:204-258 | a creation passes iff the trimmed fields are valid, no ingredient repeats and every ingredient exists; the failure kinds are stated in order; on success the data is the trimmed payload with the requester as author |
| Serializers.Create | backend/foodgram/api/serializers.py:260-272 | the recipe is created iff the trimmed fields are valid, no ingredient repeats and every ingredient exists, with each failure's kind stated; the author is the requester, name and text are stored stripped, the tag set is the submitted tags, the rows correspond one-to-one with the entries, and a failure changes nothing |
| Serializers.MayUpdate | backend/foodgram/api/views.py:107 | the object permission on a PATCH (partial) or PUT (full) update, for an authenticated requester with their staff flag, against the recipe's author |
| Serializers.ReplaceRecipeKeepsValid | backend/foodgram/api/serializers.py:283-288 | replacing a recipe and, when given, its rows keeps every constraint; the rows become one per entry and no other recipe's rows change |
| Serializers.CheckUpdate | backend/foodgram/api/serializers.py:238-258 | an update passes iff the recipe exists, the requester may PATCH/PUT it, the trimmed fields are valid, no ingredient repeats and every replacing ingredient exists; the failure kinds are stated in order, an unknown replacing ingredient being an integrity error; on success the data is the trimmed payload with the requester as author; built on the corrected `Serializers.Validate`, while as written a PATCH without ingredients raises (see Findings) |
| Serializers.ApplyUpdate | backend/foodgram/api/serializers.py:274-291 | present fields overwrite the recipe and the author is restored; tags and rows are replaced only by a non-empty list; other recipes' rows are unchanged and the store stays valid |
| Serializers.Update | backend/foodgram/api/serializers.py:274-291 | the update succeeds iff the checks pass; a given name or text is stored stripped; the author never changes; tags and rows are replaced wholesale by a non-empty list and otherwise kept; a failure changes nothing; built on the corrected `Serializers.Validate` (see Findings) |
| Serializers.ValidateMembership | backend/foodgram/api/serializers.py:310-316 | a (user, recipe) pair already present is refused, otherwise returned unchanged; `FavoriteSerializer.validate` at 334-340 is the same rule |
| Serializers.RecipesCount | backend/foodgram/api/serializers.py:105-106 | the count is at most the number of recipes, and zero iff the author has none |
| Serializers.FollowRecipes | backend/foodgram/api/serializers.py:62-69 | only the author's recipes, newest first, as many as `min(limit, count)`; every omitted recipe of the author is older than every listed one |
| Serializers.ListedCount | backend/foodgram/api/serializers.py:62-69 | a duplicate-free listing of the author's recipes has at most as many entries as the author has recipes, and exactly as many when nothing is cut |
| Serializers.Minify | backend/foodgram/api/serializers.py:45-56 | `RecipeMinifiedSerializer`: a recipe's id, name, image and cooking time |
| Serializers.RecipesRepresentation | backend/foodgram/api/serializers.py:71-82 | one minified entry (id, name, image, cooking time) per listed recipe, in order |
| Serializers.MinifiedNewest | backend/foodgram/api/serializers.py:62-82 | minifying a newest-first listing of the author's recipes gives entries of the author's recipes only, with strictly decreasing ids, every omitted recipe of the author older than every entry |
| Serializers.SerializeFollow | backend/foodgram/api/serializers.py:85-111 | the follow view carries the author's email, id, username and names, `is_subscribed` iff the viewer follows the author, the author's recipe count, and the author's newest recipes minified, `min(limit, count)` of them |
| Views.Subscribe | backend/foodgram/api/views.py:68-81 | not-found, self-follow and already-subscribed fail and change nothing; otherwise exactly the pair is added and the response carries the author's email, id, username and names, `is_subscribed`, the recipe count, and all of the author's recipes minified, newest first |
| Views.DeleteSubscribe | backend/foodgram/api/views.py:84-93 | not-found and not-subscribed fail and change nothing; otherwise exactly the pair is removed |
| Views.AddMarkKeepsValid | backend/foodgram/api/views.py:150-161 | adding a pair of an existing user and recipe to favourites or cart keeps every constraint |
| Views.RemoveMarkKeepsValid | backend/foodgram/api/views.py:163-175 | removing a pair from favourites or cart keeps every constraint |
| Views.AddRecipe | backend/foodgram/api/views.py:150-161 | an unknown recipe is not-found; a pair already present is refused; otherwise exactly the pair is inserted and the recipe is returned minified; a failure changes nothing |
| Views.DelRecipe | backend/foodgram/api/views.py:163-175 | an unknown recipe is not-found; an absent pair is a validation error that changes nothing; otherwise only that pair is deleted |
| Views.NewestFirst | backend/foodgram/recipes/models.py:93 | every recipe appears once, ids strictly descending (newest first) |
| Views.GetQuerysetAsWritten | backend/foodgram/api/views.py:111-126 | as written, any `is_favorited` value restricts to the viewer's favourites; author and tag filters keep exactly matching recipes, each once, newest first |
| Views.GetQueryset | backend/foodgram/api/views.py:111-126 | the favourites pre-filter applies only to `is_favorited=true`; author and tag filters keep exactly matching recipes, each once, newest first |
| Views.FavoritedFalseListsNothing | backend/foodgram/api/filters.py:30 | excluding favourites from a queryset of favourites leaves nothing |
| Views.FilterByFields | backend/foodgram/api/filters.py:9-25 | the `author` filter keeps exactly that author's recipes and the `tags` filter those with a listed slug; duplicates never appear, and a newest-first queryset stays newest first |
| Views.FilterByMarks | backend/foodgram/api/filters.py:27-37 | the `is_favorited` and `is_in_shopping_cart` filters keep exactly the matching recipes; `is_favorited=false` on favourites only leaves nothing; a newest-first queryset stays newest first |
| Views.ListRecipesAsWritten | backend/foodgram/api/views.py:118-122 | as written, the recipe list for `is_favorited=false` is always empty; every list is duplicate-free and newest first |
| Views.UsedSlugs | backend/foodgram/api/filters.py:9-12 | the choices `AllValuesMultipleFilter` offers for `tags__slug`: every present slug of a tag some recipe carries |
| Views.ParamsValid | backend/foodgram/api/filters.py:9-25 | the query parameters pass the filter set's own validation: `author` names a user (`ModelChoiceFilter`) and every `tags` value is one of the offered slugs |
| Views.ListRecipes | backend/foodgram/api/views.py:108-126 | unknown author or slug is a validation error; otherwise the list holds each recipe at most once, newest first, and exactly those matching every given filter, `is_favorited=false` listing the non-favourites |
| Utils.CartItems | backend/foodgram/api/utils.py:9-12 | only join rows of recipes in the user's cart contribute, each as its (name, unit, amount); an empty cart contributes nothing |
| Utils.CartPositionsLast | backend/foodgram/api/utils.py:9-12 | the carted positions yielding an item are those of all rows but the last, plus the last when it is carted and yields that item |
| Utils.CartItemsCount | backend/foodgram/api/utils.py:9-12 | every item occurs in the list exactly as often as there are carted rows yielding it |
| Utils.AddToSum | backend/foodgram/api/utils.py:11-12 | adding a row raises the sum of its own (name, unit) by its amount and leaves the others alone |
| Utils.AddToKeys | backend/foodgram/api/utils.py:11-12 | adding a row adds its (name, unit) key and no other |
| Utils.AddToDistinct | backend/foodgram/api/utils.py:11-12 | adding a row never creates a second group for a key |
| Utils.GroupSum | backend/foodgram/api/utils.py:11-12 | `values(name, unit).annotate(Sum('amount'))`: the items folded into one group per (name, unit) key |
| Utils.GroupSumCorrect | backend/foodgram/api/utils.py:11-12 | the grouping has distinct keys, exactly the keys of the rows, each key's amount summed over the rows, and the same total |
| Utils.GroupAmount | backend/foodgram/api/utils.py:11-12 | with distinct keys, a group's amount is the sum for its key |
| Utils.DistinctKeysCount | backend/foodgram/api/utils.py:11-12 | there are as many groups as distinct keys |
| Utils.ShoppingCartGroups | backend/foodgram/api/utils.py:11-20 | one line per distinct (name, unit), each carrying that key's summed amount, the lines together carrying the rows' total |
| Utils.NatToString | backend/foodgram/api/utils.py:20 | an amount prints as a non-empty string of digits without a leading zero |
| Utils.NatToStringRoundTrip | backend/foodgram/api/utils.py:20 | reading the printed digits back gives the amount |
| Utils.HeaderFirst | backend/foodgram/api/utils.py:18 | the file starts with `Список покупок:\n`, and is only that when there are no groups |
| Utils.ItemLine | backend/foodgram/api/utils.py:20 | the f-string line: name, a space, the amount in decimal, a space, the unit and a line break |
| Utils.RenderShoppingCart | backend/foodgram/api/utils.py:18-20 | the `+=` loop yields the header followed by each group's `name amount unit\n` line in order |
| Utils.NoBreakInNumber | backend/foodgram/api/utils.py:20 | a printed amount holds no line break |
| Utils.LineBreaksOfLine | backend/foodgram/api/utils.py:20 | an item line whose name and unit hold no line break ends in its only one |
| Utils.LinesCount | backend/foodgram/api/utils.py:19-20 | the body has exactly one line per group |
| Utils.GetFileShoppingCart | backend/foodgram/api/utils.py:7-21 | the file is the header and the rendered grouping of the user's carted rows; an empty cart yields the header alone |

## Left out

- HTTP plumbing is not modelled: status codes, `Response` and `FileResponse` objects, URL routing,
  pagination, djoser registration and token auth. Outcomes are an `Ok`/`Err` result whose error names
  the case.
- Concurrency is not modelled: each `transaction.atomic` operation is one all-or-nothing step over a
  single state.
- Base64 image decoding and storage are not modelled: `image` is an opaque string, and `image.url` is
  that string.
- The `Exists`/`OuterRef` annotations (`is_favorited`, `is_in_shopping_cart`, `subscribed_exists`),
  `select_related`/`prefetch_related`, the `subscriptions` listing, the tag and ingredient read-only
  viewsets with `IngredientSearchFilter`, the admin and the smoke test are not modelled. They only
  decorate or read the tables.
- The view-level permission classes are not modelled: every modelled operation is called by an
  authenticated, existing user. The object permission is modelled in `Permissions.HasObjectPermission`.
- Query strings are taken as already parsed: `is_favorited`, `is_in_shopping_cart`, `author` and
  `recipes_limit` arrive as booleans, ids and naturals. A malformed value (a negative or non-numeric
  `recipes_limit`, say) is out of scope. The one string test the findings rely on is modelled:
  `if favorited:` holds for any given value.
- `validate` copies `tags` and `ingredients` from `initial_data`, the raw payload. The model gives it the
  parsed values, which hold the same ids and amounts.
- `-pub_date` ordering is modelled as highest id first: ids are handed out in creation order and never
  reused.
- The database's `GROUP BY` output order is left unspecified by the source; the model lists groups in
  the order their keys first appear.
- Python's Unicode `\w` is a parameter. It is pinned down only on ASCII.
- Field lengths other than the recipe name's 200 characters (email, username, names, tag fields) are not
  modelled. Neither are user passwords.
- Models.Store.AddUser: does not check the email format that `EmailField` validates (backend/foodgram/users/models.py:11-15);
  an email is an opaque string, and only its uniqueness is modelled.
  Nor does it model `create_user`'s normalisation of the email's domain part and of the username (NFKC).
- Models.Store.AddIngredient: stores the ingredient as given, as loading the ingredient list does; the
  admin form's stripping and its required-field checks on name and unit are not applied to it.
- Serializers.FieldsValid: DRF's `CharField` also refuses a NUL character in a text value, and that
  check is not modelled; Dafny's `char` has no surrogate code points, so DRF's surrogate check has
  nothing to refuse.
- Serializers.Create: writes the recipe with its tags in one step. The source creates the recipe,
  inserts its rows and then sets its tags, all inside one transaction, so no other request sees the
  steps apart.
- Utils.LinesCount: assumes ingredient names and units hold no line break. The source does not forbid
  one, and a line break inside a name would split its line.

## Findings

| source | as written | input that shows it | evidently intended | confidence | as-written member | corrected member |
|---|---|---|---|---|---|---|
| backend/foodgram/api/serializers.py:241-243 | `validate` iterates over `data.get('ingredients')`, which is `None` when a partial update leaves the field out, so the loop raises | a PATCH of a recipe carrying only `name` | an absent ingredient list has nothing to check, and the update keeps the recipe's rows | high; not executed | Serializers.ValidateAsWritten | Serializers.Validate |
| backend/foodgram/api/views.py:118-122 | `if favorited:` tests the raw query string, so `is_favorited=0` or `false` also cuts the queryset to the viewer's favourites, and `RecipeFilter` then excludes all of them | `GET /api/recipes/?is_favorited=0` by a user with favourites | `is_favorited=false` lists the recipes the viewer has not favourited | medium; not executed | Views.ListRecipesAsWritten | Views.ListRecipes |
