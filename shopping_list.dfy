/** users/views.py, `DownloadShoppingCartView.get`: the text file built from
    the request user's shopping cart. For every cart row, in the order the
    database returns them, one block:

      Recipe: <name>
      Ingredients:
       - <ingredient name> <amount> <measurement unit>     (one per ingredient)
      Cooking Time: <cooking time> minutes
      Description: <text>
      <empty line>

    The amount on every ingredient line of a block is read with
    `recipe.recipeingredient_set.first().amount`, the amount of the recipe's
    first join row, whatever ingredient the line names. `AsWrittenLines` keeps
    that; `CorrectedLines` shows each row's own amount. */
module ShoppingList {
  import opened Common
  import opened Schema
  import opened Store

  /** One ingredient line, as the f-string renders it. */
  function IngredientLine(ingredient: Ingredient, amount: int): string {
    " - " + ingredient.name + " " + IntToString(amount) + " " + ingredient.measurementUnit + "\n"
  }

  /** The text of a sequence of lines, joined in order. */
  function Concat(lines: seq<string>): string {
    if lines == [] then "" else Concat(lines[..|lines| - 1]) + lines[|lines| - 1]
  }

  /** Every join row names a stored ingredient (the foreign key). */
  predicate RowsResolve(t: Tables) {
    forall row :: row in t.recipeIngredients ==> row.ingredient in t.ingredients
  }

  /** Every cart row names a stored recipe (the foreign key). */
  predicate CartResolves(t: Tables, cart: seq<(UserId, RecipeId)>) {
    forall i :: 0 <= i < |cart| ==> cart[i].1 in t.recipes
  }

  /** The ingredient lines as written: line `i` names row `i`'s ingredient and
      shows row 0's amount. */
  function AsWrittenLines(ingredients: map<IngredientId, Ingredient>, rows: seq<RecipeIngredient>): (lines: seq<string>)
    requires forall i :: 0 <= i < |rows| ==> rows[i].ingredient in ingredients
    ensures |lines| == |rows|
  {
    seq(|rows|, i requires 0 <= i < |rows| => IngredientLine(ingredients[rows[i].ingredient], rows[0].amount))
  }

  /** The ingredient lines as evidently intended: each row's own amount. */
  function CorrectedLines(ingredients: map<IngredientId, Ingredient>, rows: seq<RecipeIngredient>): (lines: seq<string>)
    requires forall i :: 0 <= i < |rows| ==> rows[i].ingredient in ingredients
    ensures |lines| == |rows|
  {
    seq(|rows|, i requires 0 <= i < |rows| => IngredientLine(ingredients[rows[i].ingredient], rows[i].amount))
  }

  function RecipeLine(recipe: Recipe): string {
    "Recipe: " + recipe.name + "\n"
  }

  const IngredientsLine: string := "Ingredients:\n"

  function CookingTimeLine(recipe: Recipe): string {
    "Cooking Time: " + IntToString(recipe.cookingTime) + " minutes\n"
  }

  /** The description line and the empty line after it. */
  function DescriptionLine(recipe: Recipe): string {
    "Description: " + recipe.text + "\n\n"
  }

  /** The lines of one block around its ingredient lines. */
  function BlockLines(recipe: Recipe, ingredientLines: seq<string>): (lines: seq<string>)
    ensures |lines| == |ingredientLines| + 4
  {
    [RecipeLine(recipe), IngredientsLine] + ingredientLines + [CookingTimeLine(recipe), DescriptionLine(recipe)]
  }

  /** `recipe.ingredients.all()`: the recipe's join rows, in row order. */
  function RowsOfRecipe(t: Tables, id: RecipeId): (rows: seq<RecipeIngredient>)
    requires RowsResolve(t)
    ensures forall i :: 0 <= i < |rows| ==> rows[i].recipe == id && rows[i].ingredient in t.ingredients
  {
    var rows := IngredientRowsOf(t.recipeIngredients, id);
    assert forall i :: 0 <= i < |rows| ==> rows[i] in rows;
    rows
  }

  /** The block of one cart row, as written. */
  function RecipeBlock(t: Tables, id: RecipeId): string
    requires RowsResolve(t) && id in t.recipes
  {
    Concat(BlockLines(t.recipes[id], AsWrittenLines(t.ingredients, RowsOfRecipe(t, id))))
  }

  /** The block of one cart row, each line with its own amount. */
  function CorrectedRecipeBlock(t: Tables, id: RecipeId): string
    requires RowsResolve(t) && id in t.recipes
  {
    Concat(BlockLines(t.recipes[id], CorrectedLines(t.ingredients, RowsOfRecipe(t, id))))
  }

  /** The file: the blocks of the cart rows, in row order. */
  function ShoppingListText(t: Tables, cart: seq<(UserId, RecipeId)>): string
    requires RowsResolve(t) && CartResolves(t, cart)
  {
    if cart == [] then ""
    else ShoppingListText(t, cart[..|cart| - 1]) + RecipeBlock(t, cart[|cart| - 1].1)
  }

  /** The user's cart rows in the order the database returns them (ordered by
      `pub_date`; rows with equal dates in the database's order). */
  ghost predicate CartRows(t: Tables, user: UserId, order: seq<(UserId, RecipeId)>) {
    Enumerates(order, set p | p in t.carts && p.0 == user)
  }

  // ---------------------------------------------------------------------------
  // The view.

  /** `shoppingList` is `UserShoppingCart.objects.filter(user=user)`: the
      user's cart rows as the database returns them. */
  method DownloadShoppingCart(db: Database, user: UserId, shoppingList: seq<(UserId, RecipeId)>) returns (content: string)
    requires db.Valid()
    requires CartRows(db.Snapshot(), user, shoppingList)
    ensures RowsResolve(db.Snapshot()) && CartResolves(db.Snapshot(), shoppingList)
    ensures content == ShoppingListText(db.Snapshot(), shoppingList)
  {
    ghost var t := db.Snapshot();
    assert CartResolves(t, shoppingList) by {
      forall i | 0 <= i < |shoppingList| ensures shoppingList[i].1 in t.recipes {
        assert shoppingList[i] in shoppingList;
      }
    }
    ValidRowsResolve(t);
    var tables := db.Snapshot();
    content := "";
    var i := 0;
    while i < |shoppingList|
      invariant 0 <= i <= |shoppingList|
      invariant content == ShoppingListText(t, shoppingList[..i])
    {
      content := AppendRecipeBlock(tables, shoppingList[i].1, content);
      assert shoppingList[..i + 1][..i] == shoppingList[..i];
      i := i + 1;
    }
    assert shoppingList[..i] == shoppingList;
  }

  /** The body of the outer loop: one recipe's block appended to `content`. */
  method AppendRecipeBlock(t: Tables, id: RecipeId, content: string) returns (content': string)
    requires RowsResolve(t) && id in t.recipes
    ensures content' == content + RecipeBlock(t, id)
  {
    var recipe := t.recipes[id];
    var rows := RowsOfRecipe(t, id);
    content' := content + RecipeLine(recipe);
    content' := content' + IngredientsLine;
    content' := AppendIngredientLines(t.ingredients, rows, content');
    content' := content' + CookingTimeLine(recipe);
    content' := content' + DescriptionLine(recipe);
    ghost var lines := AsWrittenLines(t.ingredients, rows);
    BlockText(recipe, lines);
    AppendAssoc5(content, RecipeLine(recipe), IngredientsLine, Concat(lines), CookingTimeLine(recipe), DescriptionLine(recipe));
  }

  /** The inner loop: one line per join row of the recipe, each showing the
      amount of the recipe's first row. */
  method AppendIngredientLines(ingredients: map<IngredientId, Ingredient>, rows: seq<RecipeIngredient>, content: string)
      returns (content': string)
    requires forall i :: 0 <= i < |rows| ==> rows[i].ingredient in ingredients
    ensures content' == content + Concat(AsWrittenLines(ingredients, rows))
  {
    ghost var lines := AsWrittenLines(ingredients, rows);
    content' := content;
    var j := 0;
    while j < |rows|
      invariant 0 <= j <= |rows|
      invariant content' == content + Concat(lines[..j])
    {
      var ingredient := ingredients[rows[j].ingredient];
      var amount := rows[0].amount;
      var line := IngredientLine(ingredient, amount);
      assert line == lines[j];
      AppendAssoc(content, Concat(lines[..j]), line);
      content' := content' + line;
      ConcatSnoc(lines, j);
      j := j + 1;
    }
    assert lines[..j] == lines;
  }

  /** The text of a block: header lines, ingredient lines, footer lines. */
  lemma BlockText(recipe: Recipe, lines: seq<string>)
    ensures Concat(BlockLines(recipe, lines))
         == RecipeLine(recipe) + IngredientsLine + Concat(lines) + CookingTimeLine(recipe) + DescriptionLine(recipe)
  {
    var head := [RecipeLine(recipe), IngredientsLine];
    var foot := [CookingTimeLine(recipe), DescriptionLine(recipe)];
    ConcatAppend(head, lines);
    ConcatAppend(head + lines, foot);
    ConcatPair(RecipeLine(recipe), IngredientsLine);
    ConcatPair(CookingTimeLine(recipe), DescriptionLine(recipe));
    AppendAssoc(RecipeLine(recipe) + IngredientsLine + Concat(lines), CookingTimeLine(recipe), DescriptionLine(recipe));
  }

  lemma ConcatPair(a: string, b: string)
    ensures Concat([a, b]) == a + b
  {
    assert Concat([a]) == a by {
      assert [a][..0] == [];
      assert "" + a == a;
    }
    assert [a, b][..1] == [a];
  }

  // AppendAssoc and AppendAssoc5 only help the solver: a call hands it one
  // instance of associativity instead of a search inside a larger proof.
  lemma AppendAssoc(a: string, b: string, c: string)
    ensures (a + b) + c == a + (b + c)
  {
  }

  lemma AppendAssoc5(c: string, a1: string, a2: string, a3: string, a4: string, a5: string)
    ensures c + a1 + a2 + a3 + a4 + a5 == c + (a1 + a2 + a3 + a4 + a5)
  {
  }

  lemma {:induction false} ConcatAppend(a: seq<string>, b: seq<string>)
    ensures Concat(a + b) == Concat(a) + Concat(b)
  {
    if b != [] {
      var b' := b[..|b| - 1];
      assert (a + b)[..|a + b| - 1] == a + b';
      ConcatAppend(a, b');
    } else {
      assert a + b == a;
    }
  }

  lemma ConcatSnoc(lines: seq<string>, k: nat)
    requires k < |lines|
    ensures Concat(lines[..k + 1]) == Concat(lines[..k]) + lines[k]
  {
    assert lines[..k + 1][..k] == lines[..k];
  }

  lemma ValidRowsResolve(t: Tables)
    requires Valid(t)
    ensures RowsResolve(t)
  {
  }

  // ---------------------------------------------------------------------------
  // Properties of the text.

  /** An empty cart gives an empty file. */
  lemma EmptyCartEmptyText(t: Tables, user: UserId, order: seq<(UserId, RecipeId)>)
    requires RowsResolve(t) && CartResolves(t, order)
    requires CartRows(t, user, order)
    requires forall p :: p in t.carts ==> p.0 != user
    ensures ShoppingListText(t, order) == ""
  {
    DistinctCard(order);
    assert Elements(order) == {};
  }

  /** The file of a cart is the file of its first rows followed by the file of
      the rest: every cart row contributes its own block, so an ingredient
      shared by two recipes is listed twice and never summed. */
  lemma {:induction false} ShoppingListAppend(t: Tables, a: seq<(UserId, RecipeId)>, b: seq<(UserId, RecipeId)>)
    requires RowsResolve(t) && CartResolves(t, a) && CartResolves(t, b)
    ensures CartResolves(t, a + b)
    ensures ShoppingListText(t, a + b) == ShoppingListText(t, a) + ShoppingListText(t, b)
  {
    assert CartResolves(t, a + b) by {
      forall i | 0 <= i < |a + b| ensures (a + b)[i].1 in t.recipes {
        if i >= |a| {
          assert (a + b)[i] == b[i - |a|];
        }
      }
    }
    if b == [] {
      assert a + b == a;
    } else {
      var b' := b[..|b| - 1];
      assert CartResolves(t, b');
      assert (a + b)[..|a + b| - 1] == a + b';
      assert (a + b)[|a + b| - 1] == b[|b| - 1];
      ShoppingListAppend(t, a, b');
      AppendAssoc(ShoppingListText(t, a), ShoppingListText(t, b'), RecipeBlock(t, b[|b| - 1].1));
    }
  }

  /** A one-row cart gives exactly that recipe's block. */
  lemma SingleRowText(t: Tables, p: (UserId, RecipeId))
    requires RowsResolve(t) && p.1 in t.recipes
    ensures CartResolves(t, [p])
    ensures ShoppingListText(t, [p]) == RecipeBlock(t, p.1)
  {
    assert [p][..0] == [];
  }

  /** `IntToString` never maps two integers to the same text. */
  lemma IntToStringInjective(a: int, b: int)
    requires IntToString(a) == IntToString(b)
    ensures a == b
  {
    var s := IntToString(a);
    if a < 0 {
      assert DigitsValue(s[1..]) == -a == -b;
    }
  }

  /** Two lines naming the same ingredient are equal only for equal amounts. */
  lemma IngredientLineInjective(ingredient: Ingredient, a: int, b: int)
    requires IngredientLine(ingredient, a) == IngredientLine(ingredient, b)
    ensures a == b
  {
    var head := " - " + ingredient.name + " ";
    var tail := " " + ingredient.measurementUnit + "\n";
    var sa := IntToString(a);
    var sb := IntToString(b);
    assert IngredientLine(ingredient, a) == head + sa + tail;
    assert IngredientLine(ingredient, b) == head + sb + tail;
    assert |sa| == |sb|;
    assert sa == (head + sa + tail)[|head|..|head| + |sa|];
    assert sb == (head + sb + tail)[|head|..|head| + |sb|];
    IntToStringInjective(a, b);
  }

  /** The lines as written and the corrected lines agree exactly when every
      row of the recipe carries the first row's amount. */
  lemma AsWrittenAgreesIff(ingredients: map<IngredientId, Ingredient>, rows: seq<RecipeIngredient>)
    requires forall i :: 0 <= i < |rows| ==> rows[i].ingredient in ingredients
    ensures AsWrittenLines(ingredients, rows) == CorrectedLines(ingredients, rows)
        <==> forall i :: 0 <= i < |rows| ==> rows[i].amount == rows[0].amount
  {
    var w := AsWrittenLines(ingredients, rows);
    var c := CorrectedLines(ingredients, rows);
    if w == c {
      forall i | 0 <= i < |rows| ensures rows[i].amount == rows[0].amount {
        assert w[i] == c[i];
        IngredientLineInjective(ingredients[rows[i].ingredient], rows[0].amount, rows[i].amount);
      }
    }
  }

  /** With `unique_recipe_ingredient` in force, each corrected line shows the
      amount stored for its (recipe, ingredient) pair. */
  lemma CorrectedLinesShowPairAmount(t: Tables, id: RecipeId, i: nat)
    requires RowsResolve(t) && UniqueBy(t.recipeIngredients, IngredientKey)
    requires i < |RowsOfRecipe(t, id)|
    ensures var row := RowsOfRecipe(t, id)[i];
      && PairAmount(t.recipeIngredients, id, row.ingredient) == Some(row.amount)
      && CorrectedLines(t.ingredients, RowsOfRecipe(t, id))[i]
         == IngredientLine(t.ingredients[row.ingredient], PairAmount(t.recipeIngredients, id, row.ingredient).value)
  {
    var row := RowsOfRecipe(t, id)[i];
    assert row in RowsOfRecipe(t, id);
    var k :| 0 <= k < |t.recipeIngredients| && t.recipeIngredients[k] == row;
    PairAmountOfRow(t.recipeIngredients, k);
  }

  /** A recipe holding 2 g of salt and 3 ml of water: the file as written
      claims 2 ml of water. */
  lemma FirstAmountCounterexample()
    ensures var ingredients := map[1 := Ingredient("salt", "g"), 2 := Ingredient("water", "ml")];
      var rows := [RecipeIngredient(7, 1, 2), RecipeIngredient(7, 2, 3)];
      && AsWrittenLines(ingredients, rows)[1] == " - water 2 ml\n"
      && CorrectedLines(ingredients, rows)[1] == " - water 3 ml\n"
  {
    assert IntToString(2) == "2";
    assert IntToString(3) == "3";
  }
}
