/** The database as mutable state: one field per table. Views receive the
    database, run their queries and writes against these fields, and use
    `Snapshot`/`Restore` for the all-or-nothing effect of `transaction.atomic`. */
module Store {
  import opened Common
  import opened Schema
  import Orm

  class Database {
    var users: map<UserId, User>
    var recipes: map<RecipeId, Recipe>
    var ingredients: map<IngredientId, Ingredient>
    var tags: map<TagId, Tag>
    var recipeIngredients: seq<RecipeIngredient>
    var recipeTags: seq<RecipeTag>
    var favorites: set<(UserId, RecipeId)>
    var carts: set<(UserId, RecipeId)>
    var subscriptions: set<(UserId, UserId)>
    var nextRecipeId: RecipeId

    /** The content of every table. */
    function Snapshot(): Tables
      reads this
    {
      Tables(users, recipes, ingredients, tags, recipeIngredients, recipeTags,
             favorites, carts, subscriptions, nextRecipeId)
    }

    predicate Valid()
      reads this
    {
      Schema.Valid(Snapshot())
    }

    constructor (t: Tables)
      requires Schema.Valid(t)
      ensures Valid() && Snapshot() == t
    {
      users, recipes, ingredients, tags := t.users, t.recipes, t.ingredients, t.tags;
      recipeIngredients, recipeTags := t.recipeIngredients, t.recipeTags;
      favorites, carts, subscriptions := t.favorites, t.carts, t.subscriptions;
      nextRecipeId := t.nextRecipeId;
    }

    /** Rolling back a transaction: every table returns to the content it had
        when the transaction began. */
    method Restore(t: Tables)
      modifies this
      ensures Snapshot() == t
    {
      users, recipes, ingredients, tags := t.users, t.recipes, t.ingredients, t.tags;
      recipeIngredients, recipeTags := t.recipeIngredients, t.recipeTags;
      favorites, carts, subscriptions := t.favorites, t.carts, t.subscriptions;
      nextRecipeId := t.nextRecipeId;
    }

    /** `RecipeIngredient.objects.bulk_create(rows)`: appends every row or,
        when a constraint is violated, none; `failure` names the kind of
        violation (a repeated pair wins over a dangling key). */
    method BulkCreateIngredientRows(rows: seq<RecipeIngredient>) returns (failure: Option<Orm.DbError>)
      requires Valid()
      modifies this
      ensures Valid()
      ensures failure == Orm.ErrorOf(Orm.BulkCreateIngredientRows(old(Snapshot()), rows))
      ensures failure.None? ==> Snapshot() == old(Snapshot()).(recipeIngredients := old(recipeIngredients) + rows)
      ensures failure.Some? ==> Snapshot() == old(Snapshot())
    {
      if !Orm.IngredientKeysFree(Snapshot(), rows) {
        return Some(Orm.UniqueViolation);
      }
      if !Orm.IngredientRefsResolve(Snapshot(), rows) {
        return Some(Orm.ForeignKeyViolation);
      }
      Orm.BulkCreateIngredientRowsKeepsValid(Snapshot(), rows);
      var t := Orm.BulkCreateIngredientRows(Snapshot(), rows).value;
      recipeIngredients := recipeIngredients + rows;
      assert Snapshot() == t;
      failure := None;
    }

    /** `RecipeTag.objects.bulk_create(rows)`. */
    method BulkCreateTagRows(rows: seq<RecipeTag>) returns (failure: Option<Orm.DbError>)
      requires Valid()
      modifies this
      ensures Valid()
      ensures failure == Orm.ErrorOf(Orm.BulkCreateTagRows(old(Snapshot()), rows))
      ensures failure.None? ==> Snapshot() == old(Snapshot()).(recipeTags := old(recipeTags) + rows)
      ensures failure.Some? ==> Snapshot() == old(Snapshot())
    {
      if !Orm.TagKeysFree(Snapshot(), rows) {
        return Some(Orm.UniqueViolation);
      }
      if !Orm.TagRefsResolve(Snapshot(), rows) {
        return Some(Orm.ForeignKeyViolation);
      }
      Orm.BulkCreateTagRowsKeepsValid(Snapshot(), rows);
      var t := Orm.BulkCreateTagRows(Snapshot(), rows).value;
      recipeTags := recipeTags + rows;
      assert Snapshot() == t;
      failure := None;
    }

    /** `recipe.ingredients.clear()`. */
    method ClearIngredients(id: RecipeId)
      requires Valid()
      modifies this
      ensures Valid()
      ensures Snapshot() == Orm.ClearIngredients(old(Snapshot()), id)
    {
      Orm.ClearIngredientsKeepsValid(Snapshot(), id);
      var t := Orm.ClearIngredients(Snapshot(), id);
      recipeIngredients := IngredientRowsNotOf(recipeIngredients, id);
      assert Snapshot() == t;
    }

    /** `recipe.tags.clear()`. */
    method ClearTags(id: RecipeId)
      requires Valid()
      modifies this
      ensures Valid()
      ensures Snapshot() == Orm.ClearTags(old(Snapshot()), id)
    {
      Orm.ClearTagsKeepsValid(Snapshot(), id);
      var t := Orm.ClearTags(Snapshot(), id);
      recipeTags := TagRowsNotOf(recipeTags, id);
      assert Snapshot() == t;
    }
  }
}
