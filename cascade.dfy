/** The `on_delete=CASCADE` rules of foodgram/models.py and users/models.py.
    Deleting a row deletes every row whose foreign key points at it, and so on
    transitively: a user takes their recipes with them, and a recipe its join
    rows and the favourite and cart rows naming it. The rows that remain keep
    their order. */
module Cascade {
  import opened Common
  import opened Schema

  // ---------------------------------------------------------------------------
  // Recipes.

  /** Deleting every recipe whose key is in `ids`. */
  function DeleteRecipes(t: Tables, ids: set<RecipeId>): (r: Tables)
    ensures r.recipes.Keys == t.recipes.Keys - ids
    ensures forall id :: id in r.recipes ==> r.recipes[id] == t.recipes[id]
    ensures forall row :: row in r.recipeIngredients <==> row in t.recipeIngredients && row.recipe !in ids
    ensures forall row :: row in r.recipeTags <==> row in t.recipeTags && row.recipe !in ids
    ensures forall p :: p in r.favorites <==> p in t.favorites && p.1 !in ids
    ensures forall p :: p in r.carts <==> p in t.carts && p.1 !in ids
    ensures r.users == t.users && r.ingredients == t.ingredients && r.tags == t.tags
    ensures r.subscriptions == t.subscriptions && r.nextRecipeId == t.nextRecipeId
    ensures Subsequence(r.recipeIngredients, t.recipeIngredients) && Subsequence(r.recipeTags, t.recipeTags)
  {
    FilterSubsequence(t.recipeIngredients, (row: RecipeIngredient) => row.recipe !in ids);
    FilterSubsequence(t.recipeTags, (row: RecipeTag) => row.recipe !in ids);
    t.(recipes := t.recipes - ids,
       recipeIngredients := Filter(t.recipeIngredients, (row: RecipeIngredient) => row.recipe !in ids),
       recipeTags := Filter(t.recipeTags, (row: RecipeTag) => row.recipe !in ids),
       favorites := (set p | p in t.favorites && p.1 !in ids),
       carts := (set p | p in t.carts && p.1 !in ids))
  }

  /** `recipe.delete()`. */
  function DeleteRecipe(t: Tables, id: RecipeId): (r: Tables)
    ensures id !in r.recipes && !HasIngredients(r, id) && !HasTags(r, id)
    ensures forall user :: (user, id) !in r.favorites && (user, id) !in r.carts
  {
    var r := DeleteRecipes(t, {id});
    assert IngredientRowsOf(r.recipeIngredients, id) == [] by {
      FilterKeepsNone(r.recipeIngredients, (row: RecipeIngredient) => row.recipe == id);
    }
    assert TagRowsOf(r.recipeTags, id) == [] by {
      FilterKeepsNone(r.recipeTags, (row: RecipeTag) => row.recipe == id);
    }
    r
  }

  lemma DeleteRecipesKeepsValid(t: Tables, ids: set<RecipeId>)
    requires Valid(t)
    ensures Valid(DeleteRecipes(t, ids))
  {
    FilterPreservesUniqueBy(t.recipeIngredients, (row: RecipeIngredient) => row.recipe !in ids, IngredientKey);
    FilterPreservesUniqueBy(t.recipeTags, (row: RecipeTag) => row.recipe !in ids, TagKey);
  }

  /** The recipes that survive keep their join rows, in their order, and their
      favourite and cart rows. */
  lemma DeleteRecipesKeepsOthers(t: Tables, ids: set<RecipeId>, other: RecipeId)
    requires other !in ids
    ensures IngredientRowsOf(DeleteRecipes(t, ids).recipeIngredients, other) == IngredientRowsOf(t.recipeIngredients, other)
    ensures TagRowsOf(DeleteRecipes(t, ids).recipeTags, other) == TagRowsOf(t.recipeTags, other)
    ensures forall user :: (user, other) in DeleteRecipes(t, ids).favorites <==> (user, other) in t.favorites
    ensures forall user :: (user, other) in DeleteRecipes(t, ids).carts <==> (user, other) in t.carts
  {
    FilterThrough(t.recipeIngredients, (row: RecipeIngredient) => row.recipe !in ids, (row: RecipeIngredient) => row.recipe == other);
    FilterThrough(t.recipeTags, (row: RecipeTag) => row.recipe !in ids, (row: RecipeTag) => row.recipe == other);
  }

  /** Deleting one set of recipes and then another is deleting both at once;
      in particular deleting a recipe twice is deleting it once. */
  lemma DeleteRecipesCompose(t: Tables, a: set<RecipeId>, b: set<RecipeId>)
    ensures DeleteRecipes(DeleteRecipes(t, a), b) == DeleteRecipes(t, a + b)
  {
    var r1, r2 := DeleteRecipes(DeleteRecipes(t, a), b), DeleteRecipes(t, a + b);
    assert r1.recipes == r2.recipes;
    assert r1.favorites == r2.favorites;
    assert r1.carts == r2.carts;
    FilterBoth(t.recipeIngredients, (row: RecipeIngredient) => row.recipe !in a,
      (row: RecipeIngredient) => row.recipe !in b, (row: RecipeIngredient) => row.recipe !in a + b);
    FilterBoth(t.recipeTags, (row: RecipeTag) => row.recipe !in a,
      (row: RecipeTag) => row.recipe !in b, (row: RecipeTag) => row.recipe !in a + b);
  }

  // ---------------------------------------------------------------------------
  // Ingredients and tags.

  /** `ingredient.delete()`: the ingredient and every `RecipeIngredient` row
      naming it; the recipes themselves stay. */
  function DeleteIngredient(t: Tables, ingredient: IngredientId): (r: Tables)
    ensures r.ingredients.Keys == t.ingredients.Keys - {ingredient}
    ensures forall row :: row in r.recipeIngredients <==> row in t.recipeIngredients && row.ingredient != ingredient
    ensures r.ingredients.Items <= t.ingredients.Items
    ensures r.recipes == t.recipes && r.recipeTags == t.recipeTags
    ensures r.users == t.users && r.tags == t.tags && r.nextRecipeId == t.nextRecipeId
    ensures r.favorites == t.favorites && r.carts == t.carts && r.subscriptions == t.subscriptions
  {
    t.(ingredients := t.ingredients - {ingredient},
       recipeIngredients := Filter(t.recipeIngredients, (row: RecipeIngredient) => row.ingredient != ingredient))
  }

  /** `tag.delete()`. */
  function DeleteTag(t: Tables, tag: TagId): (r: Tables)
    ensures r.tags.Keys == t.tags.Keys - {tag}
    ensures forall row :: row in r.recipeTags <==> row in t.recipeTags && row.tag != tag
    ensures r.tags.Items <= t.tags.Items
    ensures r.recipes == t.recipes && r.recipeIngredients == t.recipeIngredients
    ensures r.users == t.users && r.ingredients == t.ingredients && r.nextRecipeId == t.nextRecipeId
    ensures r.favorites == t.favorites && r.carts == t.carts && r.subscriptions == t.subscriptions
  {
    t.(tags := t.tags - {tag},
       recipeTags := Filter(t.recipeTags, (row: RecipeTag) => row.tag != tag))
  }

  /** The join rows that survive an ingredient's deletion keep their order. */
  lemma DeleteIngredientKeepsOrder(t: Tables, ingredient: IngredientId)
    ensures Subsequence(DeleteIngredient(t, ingredient).recipeIngredients, t.recipeIngredients)
  {
    FilterSubsequence(t.recipeIngredients, (row: RecipeIngredient) => row.ingredient != ingredient);
  }

  /** The join rows that survive a tag's deletion keep their order. */
  lemma DeleteTagKeepsOrder(t: Tables, tag: TagId)
    ensures Subsequence(DeleteTag(t, tag).recipeTags, t.recipeTags)
  {
    FilterSubsequence(t.recipeTags, (row: RecipeTag) => row.tag != tag);
  }

  lemma DeleteIngredientKeepsValid(t: Tables, ingredient: IngredientId)
    requires Valid(t)
    ensures Valid(DeleteIngredient(t, ingredient))
  {
    FilterPreservesUniqueBy(t.recipeIngredients, (row: RecipeIngredient) => row.ingredient != ingredient, IngredientKey);
  }

  lemma DeleteTagKeepsValid(t: Tables, tag: TagId)
    requires Valid(t)
    ensures Valid(DeleteTag(t, tag))
  {
    FilterPreservesUniqueBy(t.recipeTags, (row: RecipeTag) => row.tag != tag, TagKey);
  }

  /** After the deletion a recipe still has an ingredient exactly when it had
      one other than the deleted ingredient. A recipe whose only ingredient is
      deleted stays stored without ingredients, and `Recipe.save` then refuses
      it: the save guard is not a database constraint. */
  lemma DeleteIngredientComposition(t: Tables, ingredient: IngredientId, id: RecipeId)
    ensures HasIngredients(DeleteIngredient(t, ingredient), id)
      <==> exists row :: row in t.recipeIngredients && row.recipe == id && row.ingredient != ingredient
    ensures id in t.recipes && !HasIngredients(DeleteIngredient(t, ingredient), id) ==>
      var r := DeleteIngredient(t, ingredient);
      id in r.recipes && RecipeSave(r, Some(id), r.recipes[id]) == Failure(MissingComposition)
  {
    var rows := IngredientRowsOf(DeleteIngredient(t, ingredient).recipeIngredients, id);
    if |rows| > 0 {
      assert rows[0] in rows;
    }
  }

  /** The same for a recipe's tags. */
  lemma DeleteTagComposition(t: Tables, tag: TagId, id: RecipeId)
    ensures HasTags(DeleteTag(t, tag), id)
      <==> exists row :: row in t.recipeTags && row.recipe == id && row.tag != tag
    ensures id in t.recipes && !HasTags(DeleteTag(t, tag), id) ==>
      var r := DeleteTag(t, tag);
      id in r.recipes && RecipeSave(r, Some(id), r.recipes[id]) == Failure(MissingComposition)
  {
    var rows := TagRowsOf(DeleteTag(t, tag).recipeTags, id);
    if |rows| > 0 {
      assert rows[0] in rows;
    }
  }

  // ---------------------------------------------------------------------------
  // Users.

  /** `user.delete()`: the user's recipes (with everything they take along),
      the user's favourite and cart rows and every subscription the user is
      either side of. */
  function DeleteUser(t: Tables, user: UserId): (r: Tables)
    ensures r.users.Keys == t.users.Keys - {user}
    ensures forall id :: id in r.recipes <==> id in t.recipes && t.recipes[id].author != user
    ensures forall p :: p in r.favorites <==> p in t.favorites && p.0 != user && p.1 !in AuthoredBy(t, user)
    ensures forall p :: p in r.carts <==> p in t.carts && p.0 != user && p.1 !in AuthoredBy(t, user)
    ensures forall p :: p in r.subscriptions <==> p in t.subscriptions && p.0 != user && p.1 != user
    ensures forall u :: u in r.users ==> r.users[u] == t.users[u]
    ensures forall id :: id in r.recipes ==> r.recipes[id] == t.recipes[id]
    ensures forall row :: row in r.recipeIngredients <==> row in t.recipeIngredients && row.recipe !in AuthoredBy(t, user)
    ensures forall row :: row in r.recipeTags <==> row in t.recipeTags && row.recipe !in AuthoredBy(t, user)
    ensures Subsequence(r.recipeIngredients, t.recipeIngredients) && Subsequence(r.recipeTags, t.recipeTags)
    ensures r.ingredients == t.ingredients && r.tags == t.tags && r.nextRecipeId == t.nextRecipeId
  {
    UserRowsRemoved(DeleteRecipes(t, AuthoredBy(t, user)), user)
  }

  lemma DeleteUserKeepsValid(t: Tables, user: UserId)
    requires Valid(t)
    ensures Valid(DeleteUser(t, user))
  {
    var ids := AuthoredBy(t, user);
    DeleteRecipesKeepsValid(t, ids);
    var s := DeleteRecipes(t, ids);
    var r := DeleteUser(t, user);
    assert r == UserRowsRemoved(s, user);
    UserRowsRemovedKeepsValid(s, user);
  }

  /** The second half of `DeleteUser`: the user's own rows, once no recipe of
      theirs is left. */
  function UserRowsRemoved(s: Tables, user: UserId): Tables {
    s.(users := s.users - {user},
       favorites := (set p | p in s.favorites && p.0 != user),
       carts := (set p | p in s.carts && p.0 != user),
       subscriptions := (set p | p in s.subscriptions && p.0 != user && p.1 != user))
  }

  lemma UserRowsRemovedKeepsValid(s: Tables, user: UserId)
    requires Valid(s)
    requires forall id :: id in s.recipes ==> s.recipes[id].author != user
    ensures Valid(UserRowsRemoved(s, user))
  {
    var r := UserRowsRemoved(s, user);
    assert ReferencesExist(r) by {
      forall id | id in r.recipes ensures r.recipes[id].author in r.users {
        assert r.recipes[id].author != user;
      }
    }
  }

  /** What the deletion does not reach stays: other users' ledger rows on
      recipes that survive, and the join rows of those recipes in their order. */
  lemma DeleteUserKeepsOthers(t: Tables, user: UserId, other: UserId, id: RecipeId)
    requires other != user && id in DeleteUser(t, user).recipes
    ensures (other, id) in DeleteUser(t, user).favorites <==> (other, id) in t.favorites
    ensures (other, id) in DeleteUser(t, user).carts <==> (other, id) in t.carts
    ensures IngredientRowsOf(DeleteUser(t, user).recipeIngredients, id) == IngredientRowsOf(t.recipeIngredients, id)
    ensures TagRowsOf(DeleteUser(t, user).recipeTags, id) == TagRowsOf(t.recipeTags, id)
  {
    DeleteRecipesKeepsOthers(t, AuthoredBy(t, user), id);
  }
}
