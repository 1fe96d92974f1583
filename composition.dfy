/** foodgram/utils/save_ingredients.py and foodgram/utils/save_tags.py: build
    one join row per element of the request payload, in payload order, then
    insert them all with one `bulk_create`. Neither function looks the
    ingredient or tag up and neither runs a field validator; the database's
    unique and foreign-key constraints are the only checks. */
module Composition {
  import opened Common
  import opened Schema
  import Orm
  import opened Store

  /** One element of the request's `ingredients` list: `{'id': .., 'amount': ..}`. */
  datatype IngredientItem = IngredientItem(id: IngredientId, amount: int)

  /** The rows the loop of `save_ingredients_for_recipe` collects. */
  function IngredientRowsFor(recipe: RecipeId, items: seq<IngredientItem>): seq<RecipeIngredient> {
    seq(|items|, i requires 0 <= i < |items| => RecipeIngredient(recipe, items[i].id, items[i].amount))
  }

  /** The rows the loop of `save_tags_for_recipe` collects. */
  function TagRowsFor(recipe: RecipeId, tagIds: seq<TagId>): seq<RecipeTag> {
    seq(|tagIds|, i requires 0 <= i < |tagIds| => RecipeTag(recipe, tagIds[i]))
  }

  /** Every item names a stored ingredient and no ingredient is named twice. */
  predicate ItemsAcceptable(ingredients: map<IngredientId, Ingredient>, items: seq<IngredientItem>) {
    && (forall i :: 0 <= i < |items| ==> items[i].id in ingredients)
    && (forall i, j :: 0 <= i < j < |items| ==> items[i].id != items[j].id)
  }

  /** Every id names a stored tag and no tag is named twice. */
  predicate TagIdsAcceptable(tags: map<TagId, Tag>, tagIds: seq<TagId>) {
    && (forall i :: 0 <= i < |tagIds| ==> tagIds[i] in tags)
    && (forall i, j :: 0 <= i < j < |tagIds| ==> tagIds[i] != tagIds[j])
  }

  /** `save_ingredients_for_recipe(items, recipe)` on a database value. */
  function SaveIngredients(t: Tables, items: seq<IngredientItem>, recipe: RecipeId): Result<Tables, Orm.DbError> {
    Orm.BulkCreateIngredientRows(t, IngredientRowsFor(recipe, items))
  }

  /** `save_tags_for_recipe(tags, recipe)` on a database value. */
  function SaveTags(t: Tables, tagIds: seq<TagId>, recipe: RecipeId): Result<Tables, Orm.DbError> {
    Orm.BulkCreateTagRows(t, TagRowsFor(recipe, tagIds))
  }

  // ---------------------------------------------------------------------------
  // The two functions as the code runs them.

  method SaveIngredientsForRecipe(db: Database, items: seq<IngredientItem>, recipe: RecipeId)
      returns (failure: Option<Orm.DbError>)
    requires db.Valid()
    modifies db
    ensures db.Valid()
    ensures failure == Orm.ErrorOf(SaveIngredients(old(db.Snapshot()), items, recipe))
    ensures failure.None? ==> db.Snapshot() == SaveIngredients(old(db.Snapshot()), items, recipe).value
    ensures failure.Some? ==> db.Snapshot() == old(db.Snapshot())
  {
    var toCreate: seq<RecipeIngredient> := [];
    var i := 0;
    while i < |items|
      invariant 0 <= i <= |items|
      invariant |toCreate| == i
      invariant forall k :: 0 <= k < i ==> toCreate[k] == RecipeIngredient(recipe, items[k].id, items[k].amount)
    {
      toCreate := toCreate + [RecipeIngredient(recipe, items[i].id, items[i].amount)];
      i := i + 1;
    }
    assert toCreate == IngredientRowsFor(recipe, items);
    failure := db.BulkCreateIngredientRows(toCreate);
  }

  method SaveTagsForRecipe(db: Database, tagIds: seq<TagId>, recipe: RecipeId)
      returns (failure: Option<Orm.DbError>)
    requires db.Valid()
    modifies db
    ensures db.Valid()
    ensures failure == Orm.ErrorOf(SaveTags(old(db.Snapshot()), tagIds, recipe))
    ensures failure.None? ==> db.Snapshot() == SaveTags(old(db.Snapshot()), tagIds, recipe).value
    ensures failure.Some? ==> db.Snapshot() == old(db.Snapshot())
  {
    var toCreate: seq<RecipeTag> := [];
    var i := 0;
    while i < |tagIds|
      invariant 0 <= i <= |tagIds|
      invariant |toCreate| == i
      invariant forall k :: 0 <= k < i ==> toCreate[k] == RecipeTag(recipe, tagIds[k])
    {
      toCreate := toCreate + [RecipeTag(recipe, tagIds[i])];
      i := i + 1;
    }
    assert toCreate == TagRowsFor(recipe, tagIds);
    failure := db.BulkCreateTagRows(toCreate);
  }

  // ---------------------------------------------------------------------------
  // What the outcome depends on.

  /** A successful save keeps every table constraint. */
  lemma SaveIngredientsKeepsValid(t: Tables, items: seq<IngredientItem>, recipe: RecipeId)
    requires Valid(t) && SaveIngredients(t, items, recipe).Success?
    ensures Valid(SaveIngredients(t, items, recipe).value)
  {
    Orm.BulkCreateIngredientRowsKeepsValid(t, IngredientRowsFor(recipe, items));
  }

  lemma SaveTagsKeepsValid(t: Tables, tagIds: seq<TagId>, recipe: RecipeId)
    requires Valid(t) && SaveTags(t, tagIds, recipe).Success?
    ensures Valid(SaveTags(t, tagIds, recipe).value)
  {
    Orm.BulkCreateTagRowsKeepsValid(t, TagRowsFor(recipe, tagIds));
  }

  /** A successful save appends exactly one row per item, in item order, with
      the item's id and amount, and leaves every stored row where it was. */
  lemma SaveIngredientsAppends(t: Tables, items: seq<IngredientItem>, recipe: RecipeId)
    requires SaveIngredients(t, items, recipe).Success?
    ensures var t' := SaveIngredients(t, items, recipe).value;
      && |t'.recipeIngredients| == |t.recipeIngredients| + |items|
      && t'.recipeIngredients[..|t.recipeIngredients|] == t.recipeIngredients
      && (forall i :: 0 <= i < |items| ==>
            t'.recipeIngredients[|t.recipeIngredients| + i] == RecipeIngredient(recipe, items[i].id, items[i].amount))
      && t' == t.(recipeIngredients := t'.recipeIngredients)
  {
    var t' := SaveIngredients(t, items, recipe).value;
    assert t'.recipeIngredients == t.recipeIngredients + IngredientRowsFor(recipe, items);
  }

  /** The foreign-key half of the insert's check, stated on the items. */
  lemma IngredientRefsIff(t: Tables, items: seq<IngredientItem>, recipe: RecipeId)
    ensures (forall row :: row in IngredientRowsFor(recipe, items) ==> row.recipe in t.recipes && row.ingredient in t.ingredients)
        <==> (|items| > 0 ==> recipe in t.recipes) && (forall i :: 0 <= i < |items| ==> items[i].id in t.ingredients)
  {
    var rows := IngredientRowsFor(recipe, items);
    if forall row :: row in rows ==> row.recipe in t.recipes && row.ingredient in t.ingredients {
      forall i | 0 <= i < |items| ensures items[i].id in t.ingredients && recipe in t.recipes {
        assert rows[i] in rows;
      }
      if |items| > 0 {
        assert rows[0] in rows;
      }
    }
    if (|items| > 0 ==> recipe in t.recipes) && (forall i :: 0 <= i < |items| ==> items[i].id in t.ingredients) {
      forall row | row in rows ensures row.recipe in t.recipes && row.ingredient in t.ingredients {
        var i :| 0 <= i < |rows| && rows[i] == row;
      }
    }
  }

  /** The unique-key half of the insert's check, stated on the items. */
  lemma IngredientKeysIff(t: Tables, items: seq<IngredientItem>, recipe: RecipeId)
    requires UniqueBy(t.recipeIngredients, IngredientKey)
    ensures UniqueBy(t.recipeIngredients + IngredientRowsFor(recipe, items), IngredientKey)
        <==> ((forall i, j :: 0 <= i < j < |items| ==> items[i].id != items[j].id)
          && (forall i, k :: 0 <= i < |items| && 0 <= k < |t.recipeIngredients| ==>
                IngredientKey(t.recipeIngredients[k]) != (recipe, items[i].id)))
  {
    var rows := IngredientRowsFor(recipe, items);
    UniqueByAppend(t.recipeIngredients, rows, IngredientKey);
    assert forall i :: 0 <= i < |items| ==> IngredientKey(rows[i]) == (recipe, items[i].id);
  }

  /** The insert succeeds exactly when the recipe exists (if anything is
      inserted), every id names an ingredient, no id repeats, and no id is
      already linked to the recipe. */
  lemma SaveIngredientsSucceedsIff(t: Tables, items: seq<IngredientItem>, recipe: RecipeId)
    requires UniqueBy(t.recipeIngredients, IngredientKey)
    ensures SaveIngredients(t, items, recipe).Success? <==>
      && (|items| > 0 ==> recipe in t.recipes)
      && (forall i :: 0 <= i < |items| ==> items[i].id in t.ingredients)
      && (forall i, j :: 0 <= i < j < |items| ==> items[i].id != items[j].id)
      && (forall i, k :: 0 <= i < |items| && 0 <= k < |t.recipeIngredients| ==>
            IngredientKey(t.recipeIngredients[k]) != (recipe, items[i].id))
  {
    IngredientRefsIff(t, items, recipe);
    IngredientKeysIff(t, items, recipe);
  }

  /** The insert raises at once exactly when an id repeats or is already
      linked to the recipe; an unknown id on its own is only reported when
      the transaction commits. */
  lemma SaveIngredientsRaisesAtOnceIff(t: Tables, items: seq<IngredientItem>, recipe: RecipeId)
    requires UniqueBy(t.recipeIngredients, IngredientKey)
    ensures SaveIngredients(t, items, recipe) == Failure(Orm.UniqueViolation) <==>
      !((forall i, j :: 0 <= i < j < |items| ==> items[i].id != items[j].id)
        && (forall i, k :: 0 <= i < |items| && 0 <= k < |t.recipeIngredients| ==>
              IngredientKey(t.recipeIngredients[k]) != (recipe, items[i].id)))
  {
    IngredientKeysIff(t, items, recipe);
  }

  /** An id given twice violates `unique_recipe_ingredient`: the insert raises. */
  lemma RepeatedIngredientRaises(t: Tables, items: seq<IngredientItem>, recipe: RecipeId, i: nat, j: nat)
    requires JoinRowsUnique(t)
    requires i < j < |items| && items[i].id == items[j].id
    ensures SaveIngredients(t, items, recipe).Failure?
  {
    SaveIngredientsSucceedsIff(t, items, recipe);
  }

  /** An id already linked to the recipe violates the same constraint. */
  lemma LinkedIngredientRaises(t: Tables, items: seq<IngredientItem>, recipe: RecipeId, i: nat, amount: int)
    requires JoinRowsUnique(t)
    requires i < |items| && RecipeIngredient(recipe, items[i].id, amount) in t.recipeIngredients
    ensures SaveIngredients(t, items, recipe).Failure?
  {
    SaveIngredientsSucceedsIff(t, items, recipe);
    var k :| 0 <= k < |t.recipeIngredients| && t.recipeIngredients[k] == RecipeIngredient(recipe, items[i].id, amount);
  }

  /** The amount validator (1..10000) never runs: an amount of 0 is stored. */
  lemma ZeroAmountIsStored(t: Tables, recipe: RecipeId, ingredient: IngredientId)
    requires JoinRowsUnique(t)
    requires recipe in t.recipes && ingredient in t.ingredients
    requires forall amount :: RecipeIngredient(recipe, ingredient, amount) !in t.recipeIngredients
    ensures var r := SaveIngredients(t, [IngredientItem(ingredient, 0)], recipe);
      && r.Success?
      && RecipeIngredient(recipe, ingredient, 0) in r.value.recipeIngredients
      && !AmountValid(0)
  {
    var items := [IngredientItem(ingredient, 0)];
    SaveIngredientsSucceedsIff(t, items, recipe);
    forall k | 0 <= k < |t.recipeIngredients|
      ensures IngredientKey(t.recipeIngredients[k]) != (recipe, ingredient)
    {
      var row := t.recipeIngredients[k];
      assert row in t.recipeIngredients;
      assert row != RecipeIngredient(recipe, ingredient, row.amount);
    }
    assert IngredientRowsFor(recipe, items) == [RecipeIngredient(recipe, ingredient, 0)];
  }

  /** A successful tag save appends one row per tag id, in input order. */
  lemma SaveTagsAppends(t: Tables, tagIds: seq<TagId>, recipe: RecipeId)
    requires SaveTags(t, tagIds, recipe).Success?
    ensures var t' := SaveTags(t, tagIds, recipe).value;
      && |t'.recipeTags| == |t.recipeTags| + |tagIds|
      && t'.recipeTags[..|t.recipeTags|] == t.recipeTags
      && (forall i :: 0 <= i < |tagIds| ==> t'.recipeTags[|t.recipeTags| + i] == RecipeTag(recipe, tagIds[i]))
      && t' == t.(recipeTags := t'.recipeTags)
  {
    var t' := SaveTags(t, tagIds, recipe).value;
    assert t'.recipeTags == t.recipeTags + TagRowsFor(recipe, tagIds);
  }

  lemma TagRefsIff(t: Tables, tagIds: seq<TagId>, recipe: RecipeId)
    ensures (forall row :: row in TagRowsFor(recipe, tagIds) ==> row.recipe in t.recipes && row.tag in t.tags)
        <==> (|tagIds| > 0 ==> recipe in t.recipes) && (forall i :: 0 <= i < |tagIds| ==> tagIds[i] in t.tags)
  {
    var rows := TagRowsFor(recipe, tagIds);
    if forall row :: row in rows ==> row.recipe in t.recipes && row.tag in t.tags {
      forall i | 0 <= i < |tagIds| ensures tagIds[i] in t.tags && recipe in t.recipes {
        assert rows[i] in rows;
      }
      if |tagIds| > 0 {
        assert rows[0] in rows;
      }
    }
    if (|tagIds| > 0 ==> recipe in t.recipes) && (forall i :: 0 <= i < |tagIds| ==> tagIds[i] in t.tags) {
      forall row | row in rows ensures row.recipe in t.recipes && row.tag in t.tags {
        var i :| 0 <= i < |rows| && rows[i] == row;
      }
    }
  }

  lemma TagKeysIff(t: Tables, tagIds: seq<TagId>, recipe: RecipeId)
    requires UniqueBy(t.recipeTags, TagKey)
    ensures UniqueBy(t.recipeTags + TagRowsFor(recipe, tagIds), TagKey)
        <==> ((forall i, j :: 0 <= i < j < |tagIds| ==> tagIds[i] != tagIds[j])
          && (forall i :: 0 <= i < |tagIds| ==> RecipeTag(recipe, tagIds[i]) !in t.recipeTags))
  {
    var rows := TagRowsFor(recipe, tagIds);
    UniqueByAppend(t.recipeTags, rows, TagKey);
    assert forall i :: 0 <= i < |tagIds| ==> rows[i] == RecipeTag(recipe, tagIds[i]);
    forall i, k | 0 <= i < |tagIds| && 0 <= k < |t.recipeTags|
      ensures TagKey(t.recipeTags[k]) == TagKey(rows[i]) <==> t.recipeTags[k] == RecipeTag(recipe, tagIds[i])
    {
    }
  }

  /** The tag insert succeeds exactly when the recipe exists (if anything is
      inserted), every id names a tag, no id repeats and none is already linked. */
  lemma SaveTagsSucceedsIff(t: Tables, tagIds: seq<TagId>, recipe: RecipeId)
    requires UniqueBy(t.recipeTags, TagKey)
    ensures SaveTags(t, tagIds, recipe).Success? <==>
      && (|tagIds| > 0 ==> recipe in t.recipes)
      && (forall i :: 0 <= i < |tagIds| ==> tagIds[i] in t.tags)
      && (forall i, j :: 0 <= i < j < |tagIds| ==> tagIds[i] != tagIds[j])
      && (forall i :: 0 <= i < |tagIds| ==> RecipeTag(recipe, tagIds[i]) !in t.recipeTags)
  {
    TagRefsIff(t, tagIds, recipe);
    TagKeysIff(t, tagIds, recipe);
  }

  /** The tag insert raises at once exactly when an id repeats or is already
      linked; an unknown tag on its own is only reported at commit. */
  lemma SaveTagsRaisesAtOnceIff(t: Tables, tagIds: seq<TagId>, recipe: RecipeId)
    requires UniqueBy(t.recipeTags, TagKey)
    ensures SaveTags(t, tagIds, recipe) == Failure(Orm.UniqueViolation) <==>
      !((forall i, j :: 0 <= i < j < |tagIds| ==> tagIds[i] != tagIds[j])
        && (forall i :: 0 <= i < |tagIds| ==> RecipeTag(recipe, tagIds[i]) !in t.recipeTags))
  {
    TagKeysIff(t, tagIds, recipe);
  }
}
