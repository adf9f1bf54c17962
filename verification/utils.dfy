/** api/utils.py: the shopping-cart file, grouping the carted join rows by ingredient name and
    unit, summing their amounts and rendering one line per group after a header. */
module Utils {
  import opened Models

  // ---------------------------------------------------------------- the query

  /** One `(ingredients__name, ingredients__measurement_unit, amount)` value. */
  datatype Item = Item(name: string, unit: string, amount: int)

  /** What the grouping goes by. */
  function Key(it: Item): (string, string) {
    (it.name, it.unit)
  }

  function KeySet(items: seq<Item>): set<(string, string)> {
    set it | it in items :: Key(it)
  }

  predicate DistinctKeys(groups: seq<Item>) {
    forall i, j :: 0 <= i < j < |groups| ==> Key(groups[i]) != Key(groups[j])
  }

  /** The sum of the amounts of the items with key `k`. */
  function SumFor(items: seq<Item>, k: (string, string)): int {
    if items == [] then 0
    else (if Key(items[0]) == k then items[0].amount else 0) + SumFor(items[1..], k)
  }

  /** The sum of all amounts. */
  function Total(items: seq<Item>): int {
    if items == [] then 0 else items[0].amount + Total(items[1..])
  }

  function ItemOf(r: IngredientInRecipe, ingredients: map<IngredientId, Ingredient>): Item
    requires r.ingredient in ingredients
  {
    Item(ingredients[r.ingredient].name, ingredients[r.ingredient].measurementUnit, r.amount)
  }

  /** `IngredientInRecipe.objects.filter(recipe__shopping_cart_users__user=user)`, as values:
      the rows of recipes in `user`'s cart, in table order. */
  function CartItems(rows: seq<IngredientInRecipe>, ingredients: map<IngredientId, Ingredient>,
                     cart: set<UserRecipe>, user: UserId): (items: seq<Item>)
    requires forall r :: r in rows ==> r.ingredient in ingredients
    ensures |items| <= |rows|
    ensures forall it :: it in items <==>
      exists r :: r in rows && UserRecipe(user, r.recipe) in cart && it == ItemOf(r, ingredients)
    ensures (forall m :: m in cart ==> m.user != user) ==> items == []
  {
    if rows == [] then []
    else
      var init, last := rows[..|rows| - 1], rows[|rows| - 1];
      var rest := CartItems(init, ingredients, cart, user);
      assert forall r :: r in rows <==> r == last || r in init;
      if UserRecipe(user, last.recipe) in cart then rest + [ItemOf(last, ingredients)] else rest
  }

  /** The positions of the rows of `user`'s cart whose item is `it`. */
  function CartPositions(rows: seq<IngredientInRecipe>, ingredients: map<IngredientId, Ingredient>,
                         cart: set<UserRecipe>, user: UserId, it: Item): set<int>
    requires forall r :: r in rows ==> r.ingredient in ingredients
  {
    set i | 0 <= i < |rows| && UserRecipe(user, rows[i].recipe) in cart && ItemOf(rows[i], ingredients) == it
  }

  /** The positions of a table are those of all but its last row, plus possibly the last. */
  lemma CartPositionsLast(rows: seq<IngredientInRecipe>, ingredients: map<IngredientId, Ingredient>,
                          cart: set<UserRecipe>, user: UserId, it: Item)
    requires rows != [] && forall r :: r in rows ==> r.ingredient in ingredients
    ensures forall r :: r in rows[..|rows| - 1] ==> r.ingredient in ingredients
    ensures CartPositions(rows, ingredients, cart, user, it)
         == CartPositions(rows[..|rows| - 1], ingredients, cart, user, it)
          + (if UserRecipe(user, rows[|rows| - 1].recipe) in cart && ItemOf(rows[|rows| - 1], ingredients) == it
             then {|rows| - 1} else {})
  {
    var init := rows[..|rows| - 1];
    assert forall r :: r in init ==> r in rows;
    assert forall i :: 0 <= i < |init| ==> init[i] == rows[i];
  }

  /** Every carted row contributes its item once: an item occurs in the query's values as often
      as there are rows of the user's cart that yield it. */
  lemma {:induction false} CartItemsCount(rows: seq<IngredientInRecipe>, ingredients: map<IngredientId, Ingredient>,
                                          cart: set<UserRecipe>, user: UserId, it: Item)
    requires forall r :: r in rows ==> r.ingredient in ingredients
    ensures multiset(CartItems(rows, ingredients, cart, user))[it] == |CartPositions(rows, ingredients, cart, user, it)|
  {
    if rows != [] {
      var init, last := rows[..|rows| - 1], rows[|rows| - 1];
      CartPositionsLast(rows, ingredients, cart, user, it);
      CartItemsCount(init, ingredients, cart, user, it);
      var earlier := CartPositions(init, ingredients, cart, user, it);
      assert |rows| - 1 !in earlier;
    }
  }

  /** `groups` with `it` added to the group of its key, or appended as a new group. */
  function AddTo(groups: seq<Item>, it: Item): seq<Item> {
    if groups == [] then [it]
    else if Key(groups[0]) == Key(it) then [groups[0].(amount := groups[0].amount + it.amount)] + groups[1..]
    else [groups[0]] + AddTo(groups[1..], it)
  }

  /** `.values(name, unit).annotate(amount=Sum('amount'))`: one item per (name, unit), in the
      order the keys first appear, carrying the summed amount. */
  function GroupSum(items: seq<Item>): seq<Item> {
    if items == [] then [] else AddTo(GroupSum(items[..|items| - 1]), items[|items| - 1])
  }

  lemma {:induction false} SumForAppend(items: seq<Item>, it: Item, k: (string, string))
    ensures SumFor(items + [it], k) == SumFor(items, k) + (if Key(it) == k then it.amount else 0)
  {
    if items != [] {
      assert (items + [it])[1..] == items[1..] + [it];
      SumForAppend(items[1..], it, k);
    }
  }

  lemma {:induction false} TotalAppend(items: seq<Item>, it: Item)
    ensures Total(items + [it]) == Total(items) + it.amount
  {
    if items != [] {
      assert (items + [it])[1..] == items[1..] + [it];
      TotalAppend(items[1..], it);
    }
  }

  /** Adding an item raises the sum of its own key by its amount and leaves the others alone. */
  lemma {:induction false} AddToSum(groups: seq<Item>, it: Item, k: (string, string))
    ensures SumFor(AddTo(groups, it), k) == SumFor(groups, k) + (if Key(it) == k then it.amount else 0)
  {
    if groups != [] && Key(groups[0]) != Key(it) {
      AddToSum(groups[1..], it, k);
      assert AddTo(groups, it)[1..] == AddTo(groups[1..], it);
    } else if groups != [] {
      assert AddTo(groups, it)[1..] == groups[1..];
    }
  }

  /** Adding an item raises the total by its amount. */
  lemma {:induction false} AddToTotal(groups: seq<Item>, it: Item)
    ensures Total(AddTo(groups, it)) == Total(groups) + it.amount
  {
    if groups != [] && Key(groups[0]) != Key(it) {
      AddToTotal(groups[1..], it);
      assert AddTo(groups, it)[1..] == AddTo(groups[1..], it);
    } else if groups != [] {
      assert AddTo(groups, it)[1..] == groups[1..];
    }
  }

  lemma KeySetCons(x: Item, xs: seq<Item>)
    ensures KeySet([x] + xs) == {Key(x)} + KeySet(xs)
  {
    assert forall y :: y in [x] + xs <==> y == x || y in xs;
  }

  /** Adding an item adds its key and no other. */
  lemma {:induction false} AddToKeys(groups: seq<Item>, it: Item)
    ensures KeySet(AddTo(groups, it)) == KeySet(groups) + {Key(it)}
  {
    if groups == [] {
      assert AddTo(groups, it) == [it];
    } else if Key(groups[0]) == Key(it) {
      KeySetCons(groups[0].(amount := groups[0].amount + it.amount), groups[1..]);
      KeySetCons(groups[0], groups[1..]);
      assert groups == [groups[0]] + groups[1..];
    } else {
      AddToKeys(groups[1..], it);
      KeySetCons(groups[0], AddTo(groups[1..], it));
      KeySetCons(groups[0], groups[1..]);
      assert groups == [groups[0]] + groups[1..];
    }
  }

  /** Adding an item never creates a second group for a key. */
  lemma {:induction false} AddToDistinct(groups: seq<Item>, it: Item)
    requires DistinctKeys(groups)
    ensures DistinctKeys(AddTo(groups, it))
  {
    if groups != [] && Key(groups[0]) != Key(it) {
      var rest := groups[1..];
      assert DistinctKeys(rest) by {
        forall i, j | 0 <= i < j < |rest| ensures Key(rest[i]) != Key(rest[j]) {
          assert rest[i] == groups[i + 1] && rest[j] == groups[j + 1];
        }
      }
      AddToDistinct(rest, it);
      AddToKeys(rest, it);
      var r := AddTo(groups, it);
      assert Key(groups[0]) !in KeySet(rest) by {
        forall x | x in rest ensures Key(x) != Key(groups[0]) {
          var j :| 0 <= j < |rest| && rest[j] == x;
          assert groups[j + 1] == x;
        }
      }
      forall i, j | 0 <= i < j < |r| ensures Key(r[i]) != Key(r[j]) {
        if i == 0 {
          assert r[j] in AddTo(rest, it);
          assert Key(r[j]) in KeySet(AddTo(rest, it));
        } else {
          assert r[i] == AddTo(rest, it)[i - 1] && r[j] == AddTo(rest, it)[j - 1];
        }
      }
    }
  }

  /** The grouped query: distinct keys, exactly the keys of the input, each key's amount the
      sum over the input, and the same total. */
  lemma {:induction false} GroupSumCorrect(items: seq<Item>)
    ensures DistinctKeys(GroupSum(items))
    ensures KeySet(GroupSum(items)) == KeySet(items)
    ensures forall k :: SumFor(GroupSum(items), k) == SumFor(items, k)
    ensures Total(GroupSum(items)) == Total(items)
  {
    if items != [] {
      var init, last := items[..|items| - 1], items[|items| - 1];
      assert items == init + [last];
      GroupSumCorrect(init);
      var g := GroupSum(init);
      AddToDistinct(g, last);
      AddToKeys(g, last);
      AddToTotal(g, last);
      TotalAppend(init, last);
      forall k ensures SumFor(GroupSum(items), k) == SumFor(items, k) {
        AddToSum(g, last, k);
        SumForAppend(init, last, k);
      }
      assert KeySet(items) == KeySet(init) + {Key(last)} by {
        assert forall x :: x in items <==> x in init || x == last;
      }
    }
  }

  /** With distinct keys, a group's amount is the sum for its key. */
  lemma {:induction false} GroupAmount(groups: seq<Item>, j: int)
    requires DistinctKeys(groups) && 0 <= j < |groups|
    ensures groups[j].amount == SumFor(groups, Key(groups[j]))
  {
    var rest := groups[1..];
    assert DistinctKeys(rest) by {
      forall a, b | 0 <= a < b < |rest| ensures Key(rest[a]) != Key(rest[b]) {
        assert rest[a] == groups[a + 1] && rest[b] == groups[b + 1];
      }
    }
    if j == 0 {
      NoKeyNoSum(rest, Key(groups[0])) by {
        forall x | x in rest ensures Key(x) != Key(groups[0]) {
          var i :| 0 <= i < |rest| && rest[i] == x;
          assert groups[i + 1] == x;
        }
      }
    } else {
      GroupAmount(rest, j - 1);
      assert rest[j - 1] == groups[j];
    }
  }

  /** A key no item carries sums to zero. */
  lemma {:induction false} NoKeyNoSum(items: seq<Item>, k: (string, string))
    requires forall x :: x in items ==> Key(x) != k
    ensures SumFor(items, k) == 0
  {
    if items != [] {
      assert items[0] in items;
      NoKeyNoSum(items[1..], k);
    }
  }

  /** As many groups as distinct keys. */
  lemma {:induction false} DistinctKeysCount(groups: seq<Item>)
    requires DistinctKeys(groups)
    ensures |KeySet(groups)| == |groups|
  {
    if groups != [] {
      var rest := groups[1..];
      assert DistinctKeys(rest) by {
        forall a, b | 0 <= a < b < |rest| ensures Key(rest[a]) != Key(rest[b]) {
          assert rest[a] == groups[a + 1] && rest[b] == groups[b + 1];
        }
      }
      DistinctKeysCount(rest);
      assert Key(groups[0]) !in KeySet(rest) by {
        forall x | x in rest ensures Key(x) != Key(groups[0]) {
          var i :| 0 <= i < |rest| && rest[i] == x;
          assert groups[i + 1] == x;
        }
      }
      assert KeySet(groups) == {Key(groups[0])} + KeySet(rest) by {
        assert forall x :: x in groups <==> x == groups[0] || x in rest;
      }
    }
  }

  /** The file's lines: one per distinct (name, unit) of the carted rows, each carrying the sum
      of that key's amounts, and together carrying the same total. */
  lemma ShoppingCartGroups(items: seq<Item>)
    ensures |GroupSum(items)| == |KeySet(items)|
    ensures KeySet(GroupSum(items)) == KeySet(items)
    ensures forall j :: 0 <= j < |GroupSum(items)| ==>
      GroupSum(items)[j].amount == SumFor(items, Key(GroupSum(items)[j]))
    ensures Total(GroupSum(items)) == Total(items)
  {
    var g := GroupSum(items);
    GroupSumCorrect(items);
    DistinctKeysCount(g);
    forall j | 0 <= j < |g| ensures g[j].amount == SumFor(items, Key(g[j])) {
      GroupAmount(g, j);
    }
  }

  // ---------------------------------------------------------------- the text

  /** The first line of the file. */
  const Header: string := "Список покупок:\n"

  function DigitChar(d: nat): char
    requires d < 10
  {
    "0123456789"[d]
  }

  predicate IsDigits(s: string) {
    forall i :: 0 <= i < |s| ==> '0' <= s[i] <= '9'
  }

  /** The decimal digits of `n`, as Python prints an int. */
  function NatToString(n: nat): (s: string)
    ensures |s| > 0 && IsDigits(s)
    ensures s[0] == '0' ==> s == "0"
  {
    if n < 10 then [DigitChar(n)] else NatToString(n / 10) + [DigitChar(n % 10)]
  }

  /** The number a string of decimal digits denotes. */
  function ParseNat(s: string): nat
    requires IsDigits(s)
  {
    if s == [] then 0 else 10 * ParseNat(s[..|s| - 1]) + (s[|s| - 1] as int - '0' as int)
  }

  /** Printing a count and reading it back gives the count. */
  lemma {:induction false} NatToStringRoundTrip(n: nat)
    ensures ParseNat(NatToString(n)) == n
  {
    if n >= 10 {
      NatToStringRoundTrip(n / 10);
      var s := NatToString(n);
      assert s[..|s| - 1] == NatToString(n / 10);
    }
  }

  /** An int as Python prints it: a minus sign, then the digits of its magnitude. */
  function IntToString(i: int): string {
    if i < 0 then "-" + NatToString(-i) else NatToString(i)
  }

  /** `f'{name} {amount} {measurement_unit}\n'`. */
  function ItemLine(it: Item): string {
    it.name + " " + IntToString(it.amount) + " " + it.unit + "\n"
  }

  /** The item lines, in order. */
  function Lines(groups: seq<Item>): string {
    if groups == [] then "" else Lines(groups[..|groups| - 1]) + ItemLine(groups[|groups| - 1])
  }

  /** The file starts with the header, and with no groups it is the header alone. */
  lemma HeaderFirst(groups: seq<Item>)
    ensures |Header + Lines(groups)| >= |Header| && (Header + Lines(groups))[..|Header|] == Header
    ensures groups == [] ==> Header + Lines(groups) == Header
  {
    var text := Header + Lines(groups);
    assert forall k :: 0 <= k < |Header| ==> text[k] == Header[k];
  }

  lemma LinesStep(groups: seq<Item>, i: int)
    requires 0 <= i < |groups|
    ensures Lines(groups[..i + 1]) == Lines(groups[..i]) + ItemLine(groups[i])
  {
    assert groups[..i + 1][..i] == groups[..i];
  }

  /** Appending a line to the text so far appends it to the lines after the header; stated
      once so that the loop below need not rediscover it. */
  lemma AppendAssoc(a: string, b: string, c: string)
    ensures (a + b) + c == a + (b + c)
  {
  }

  /** The loop that builds the file: the header, then each group's line appended in turn. */
  method RenderShoppingCart(groups: seq<Item>) returns (text: string)
    ensures text == Header + Lines(groups)
    ensures |text| >= |Header| && text[..|Header|] == Header
    ensures groups == [] ==> text == Header
  {
    text := Header;
    for i := 0 to |groups|
      invariant text == Header + Lines(groups[..i])
    {
      LinesStep(groups, i);
      AppendAssoc(Header, Lines(groups[..i]), ItemLine(groups[i]));
      text := text + ItemLine(groups[i]);
    }
    assert groups[..|groups|] == groups;
    HeaderFirst(groups);
  }

  /** A printed number holds no line break. */
  lemma NoBreakInNumber(i: int)
    ensures '\n' !in IntToString(i)
  {
    var digits := if i < 0 then NatToString(-i) else NatToString(i);
    assert forall k :: 0 <= k < |digits| ==> digits[k] != '\n';
  }

  /** An item line whose name and unit hold no line break ends in its only one. */
  lemma LineBreaksOfLine(it: Item)
    requires '\n' !in it.name && '\n' !in it.unit
    ensures multiset(ItemLine(it))['\n'] == 1
  {
    NoBreakInNumber(it.amount);
    var body := it.name + " " + IntToString(it.amount) + " " + it.unit;
    assert '\n' !in body;
    assert multiset(body)['\n'] == 0;
    assert ItemLine(it) == body + "\n";
    assert multiset(body + "\n") == multiset(body) + multiset("\n");
  }

  /** When no name or unit holds a line break, the file has one line per group after the header. */
  lemma {:induction false} LinesCount(groups: seq<Item>)
    requires forall g :: g in groups ==> '\n' !in g.name && '\n' !in g.unit
    ensures multiset(Lines(groups))['\n'] == |groups|
  {
    if groups != [] {
      var init, last := groups[..|groups| - 1], groups[|groups| - 1];
      assert forall g :: g in init ==> g in groups;
      LinesCount(init);
      assert last in groups;
      LineBreaksOfLine(last);
      assert multiset(Lines(groups)) == multiset(Lines(init)) + multiset(ItemLine(last));
    }
  }

  /** `get_file_shopping_cart(user)`: the grouped rows of `user`'s cart, rendered. */
  method GetFileShoppingCart(store: Store, user: UserId) returns (text: string)
    requires store.Valid()
    ensures text == Header + Lines(GroupSum(CartItems(store.rows, store.ingredients, store.shoppingCart, user)))
    ensures |text| >= |Header| && text[..|Header|] == Header
    ensures (forall m :: m in store.shoppingCart ==> m.user != user) ==> text == Header
  {
    var items := CartItems(store.rows, store.ingredients, store.shoppingCart, user);
    var groups := GroupSum(items);
    text := RenderShoppingCart(groups);
  }
}
