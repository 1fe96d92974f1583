/** The table operations the views issue through the ORM, as functions on the
    database value: `bulk_create` of join rows and the `clear()` of a recipe's
    many-to-many relation. A bulk insert is one statement: it either stores
    every row or stores none.

    The two kinds of constraint are checked at different times. A unique
    constraint is checked when the statement runs, so a repeated pair raises
    `IntegrityError` at once. Django declares every foreign key `DEFERRABLE
    INITIALLY DEFERRED`, so a row naming a missing recipe, ingredient or tag
    is accepted by the statement and the `IntegrityError` comes when the
    transaction commits. The model does not store such rows; it reports
    `ForeignKeyViolation`, and the caller carries on knowing that the commit
    will fail. */
module Orm {
  import opened Common
  import opened Schema

  datatype DbError = UniqueViolation | ForeignKeyViolation

  /** The violation an insert reported, if any. */
  function ErrorOf(r: Result<Tables, DbError>): Option<DbError> {
    if r.Success? then None else Some(r.error)
  }

  /** No (recipe, ingredient) pair twice, among the new rows or against the
      stored ones: `unique_recipe_ingredient`, checked immediately. */
  predicate IngredientKeysFree(t: Tables, rows: seq<RecipeIngredient>) {
    UniqueBy(t.recipeIngredients + rows, IngredientKey)
  }

  /** Both foreign keys of every new row resolve: checked at commit. */
  predicate IngredientRefsResolve(t: Tables, rows: seq<RecipeIngredient>) {
    forall row :: row in rows ==> row.recipe in t.recipes && row.ingredient in t.ingredients
  }

  /** Everything the database checks on join rows. No field validator runs,
      so `amount` is not checked. */
  predicate IngredientRowsInsertable(t: Tables, rows: seq<RecipeIngredient>) {
    IngredientKeysFree(t, rows) && IngredientRefsResolve(t, rows)
  }

  predicate TagKeysFree(t: Tables, rows: seq<RecipeTag>) {
    UniqueBy(t.recipeTags + rows, TagKey)
  }

  predicate TagRefsResolve(t: Tables, rows: seq<RecipeTag>) {
    forall row :: row in rows ==> row.recipe in t.recipes && row.tag in t.tags
  }

  predicate TagRowsInsertable(t: Tables, rows: seq<RecipeTag>) {
    TagKeysFree(t, rows) && TagRefsResolve(t, rows)
  }

  /** `RecipeIngredient.objects.bulk_create(rows)`. */
  function BulkCreateIngredientRows(t: Tables, rows: seq<RecipeIngredient>): (r: Result<Tables, DbError>)
    ensures r.Success? <==> IngredientRowsInsertable(t, rows)
    ensures r == Failure(UniqueViolation) <==> !IngredientKeysFree(t, rows)
    ensures r == Failure(ForeignKeyViolation) <==> IngredientKeysFree(t, rows) && !IngredientRefsResolve(t, rows)
    ensures r.Success? ==> r.value == t.(recipeIngredients := t.recipeIngredients + rows)
  {
    if !IngredientKeysFree(t, rows) then Failure(UniqueViolation)
    else if !IngredientRefsResolve(t, rows) then Failure(ForeignKeyViolation)
    else Success(t.(recipeIngredients := t.recipeIngredients + rows))
  }

  /** `RecipeTag.objects.bulk_create(rows)`. */
  function BulkCreateTagRows(t: Tables, rows: seq<RecipeTag>): (r: Result<Tables, DbError>)
    ensures r.Success? <==> TagRowsInsertable(t, rows)
    ensures r == Failure(UniqueViolation) <==> !TagKeysFree(t, rows)
    ensures r == Failure(ForeignKeyViolation) <==> TagKeysFree(t, rows) && !TagRefsResolve(t, rows)
    ensures r.Success? ==> r.value == t.(recipeTags := t.recipeTags + rows)
  {
    if !TagKeysFree(t, rows) then Failure(UniqueViolation)
    else if !TagRefsResolve(t, rows) then Failure(ForeignKeyViolation)
    else Success(t.(recipeTags := t.recipeTags + rows))
  }

  /** The constraints the insert checks are exactly the ones it could break. */
  lemma BulkCreateIngredientRowsKeepsValid(t: Tables, rows: seq<RecipeIngredient>)
    requires Valid(t) && BulkCreateIngredientRows(t, rows).Success?
    ensures Valid(BulkCreateIngredientRows(t, rows).value)
  {
    var t' := BulkCreateIngredientRows(t, rows).value;
    assert ReferencesExist(t') by {
      forall row | row in t'.recipeIngredients
        ensures row.recipe in t'.recipes && row.ingredient in t'.ingredients
      {
        if row !in t.recipeIngredients {
          assert row in rows;
        }
      }
    }
  }

  lemma BulkCreateTagRowsKeepsValid(t: Tables, rows: seq<RecipeTag>)
    requires Valid(t) && BulkCreateTagRows(t, rows).Success?
    ensures Valid(BulkCreateTagRows(t, rows).value)
  {
    var t' := BulkCreateTagRows(t, rows).value;
    assert ReferencesExist(t') by {
      forall row | row in t'.recipeTags
        ensures row.recipe in t'.recipes && row.tag in t'.tags
      {
        if row !in t.recipeTags {
          assert row in rows;
        }
      }
    }
  }

  /** `recipe.ingredients.clear()`: deletes the recipe's join rows, keeps every
      other row in its order. */
  function ClearIngredients(t: Tables, id: RecipeId): (t': Tables)
    ensures !HasIngredients(t', id)
    ensures t' == t.(recipeIngredients := IngredientRowsNotOf(t.recipeIngredients, id))
  {
    var t' := t.(recipeIngredients := IngredientRowsNotOf(t.recipeIngredients, id));
    assert IngredientRowsOf(t'.recipeIngredients, id) == [] by {
      FilterKeepsNone(t'.recipeIngredients, (row: RecipeIngredient) => row.recipe == id);
    }
    t'
  }

  /** `recipe.tags.clear()`. */
  function ClearTags(t: Tables, id: RecipeId): (t': Tables)
    ensures !HasTags(t', id)
    ensures t' == t.(recipeTags := TagRowsNotOf(t.recipeTags, id))
  {
    var t' := t.(recipeTags := TagRowsNotOf(t.recipeTags, id));
    assert TagRowsOf(t'.recipeTags, id) == [] by {
      FilterKeepsNone(t'.recipeTags, (row: RecipeTag) => row.recipe == id);
    }
    t'
  }

  /** Deleting rows keeps every constraint. */
  lemma ClearIngredientsKeepsValid(t: Tables, id: RecipeId)
    requires Valid(t)
    ensures Valid(ClearIngredients(t, id))
  {
    FilterPreservesUniqueBy(t.recipeIngredients, (row: RecipeIngredient) => row.recipe != id, IngredientKey);
  }

  lemma ClearTagsKeepsValid(t: Tables, id: RecipeId)
    requires Valid(t)
    ensures Valid(ClearTags(t, id))
  {
    FilterPreservesUniqueBy(t.recipeTags, (row: RecipeTag) => row.recipe != id, TagKey);
  }
}
