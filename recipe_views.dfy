/** foodgram/views.py, `RecipeViewSet`: recipe creation and partial update.
    Both run under `transaction.atomic`: an exception that leaves the method
    rolls every table back to the content it had on entry (`Restore`).

    `perform_create` is modelled twice. `PerformCreate` is the code as written:
    `serializer.save` reaches `Recipe.save` while the new instance has no
    primary key, so the guard's `self.tags` raises and nothing after line 71
    runs. `CreateRecipe` is the evident intention: the recipe row is written,
    its composition inserted, and the at-least-one-tag, at-least-one-ingredient
    guard checked last, inside the same transaction. */
module RecipeViews {
  import opened Common
  import opened Schema
  import Orm
  import opened Store
  import opened Composition
  import RecipeSerializers

  /** The fields of a creation request, as `is_valid` passed them on to
      `perform_create` (`tags`, `ingredients` and `author` are read-only in
      `RecipeSerializer`; the view reads the two lists from the raw request).
      The field validators are not re-run here; the methods below only demand
      the cooking-time range they enforce. */
  datatype RecipeFields = RecipeFields(name: string, text: string, image: string, cookingTime: int)

  /** The fields a PATCH request supplies; `None` means absent. The image is
      the JSON value as sent, before `Base64ImageField.to_internal_value`. */
  datatype RecipePatch = RecipePatch(name: Option<string>, text: Option<string>,
                                     image: Option<RecipeSerializers.Payload>, cookingTime: Option<int>)

  function NewRecipe(author: UserId, f: RecipeFields): Recipe {
    Recipe(author, f.name, f.text, f.image, f.cookingTime)
  }

  /** The image a patch leaves on the recipe: the file a data URI became,
      named "temp." and the header's extension. Any other value is refused by
      the image field's own check (a 400), which is part of `othersValid`; on
      that path this function is never consulted for the answer, and it
      returns the stored image. */
  function PatchedImage(stored: string, data: Option<RecipeSerializers.Payload>): string {
    if data.None? then stored
    else
      var input := RecipeSerializers.ToInternalValue(data.value);
      if input.Success? && input.value.Upload? then input.value.name else stored
  }

  /** No image leaves the stored one; a data URI whose header splits stores
      "temp." and the extension after the header's last '/'. */
  lemma PatchedImageOfDataUri(stored: string, data: Option<RecipeSerializers.Payload>)
    ensures data.None? ==> PatchedImage(stored, data) == stored
    ensures data.Some? && data.value.Text? && RecipeSerializers.StartsWith(data.value.s, RecipeSerializers.DATA_IMAGE)
            && RecipeSerializers.ToInternalValue(data.value).Success? ==>
      PatchedImage(stored, data)
        == "temp." + RecipeSerializers.Extension(RecipeSerializers.Split(data.value.s, RecipeSerializers.BASE64_MARK)[0])
  {
  }

  /** `ModelSerializer.update`: every supplied field overwrites the stored one. */
  function ApplyPatch(r: Recipe, p: RecipePatch): (r': Recipe)
    ensures r'.author == r.author
    ensures r'.cookingTime == (if p.cookingTime.Some? then p.cookingTime.value else r.cookingTime)
    ensures r'.name == (if p.name.Some? then p.name.value else r.name)
    ensures r'.text == (if p.text.Some? then p.text.value else r.text)
    ensures r'.image == PatchedImage(r.image, p.image)
  {
    Recipe(r.author,
           if p.name.Some? then p.name.value else r.name,
           if p.text.Some? then p.text.value else r.text,
           PatchedImage(r.image, p.image),
           if p.cookingTime.Some? then p.cookingTime.value else r.cookingTime)
  }

  /** The header split of `Base64ImageField.to_internal_value` does not raise:
      no image was sent, or it is not a data URI, or it holds exactly one
      `;base64,`. */
  predicate ImageUnpacks(p: RecipePatch) {
    p.image.Some? ==> RecipeSerializers.ToInternalValue(p.image.value).Success?
  }

  /** `serializer.is_valid()` on a partial update, once the image header has
      been split: a supplied cooking time must pass its validators;
      `othersValid` is the outcome of the checks this model does not spell out
      (name length, blank text, `ImageField`'s check of the decoded file). */
  predicate PatchValid(p: RecipePatch, othersValid: bool) {
    othersValid && (p.cookingTime.Some? ==> CookingTimeValid(p.cookingTime.value))
  }

  // ---------------------------------------------------------------------------
  // perform_create, as written.

  /** What `perform_create` does to the database, line by line: the first line
      already raises. */
  function PerformCreateSpec(t: Tables, author: UserId, f: RecipeFields,
                             ingredients: seq<IngredientItem>, tags: seq<TagId>): (Status, Tables)
  {
    match RecipeSave(t, None, NewRecipe(author, f))
    case Failure(_) => (ServerError, t)
    case Success(t1) => (Created, t1)
  }

  method PerformCreate(db: Database, author: UserId, f: RecipeFields,
                       ingredients: seq<IngredientItem>, tags: seq<TagId>) returns (status: Status)
    requires db.Valid() && CookingTimeValid(f.cookingTime)
    modifies db
    ensures db.Valid()
    ensures (status, db.Snapshot()) == PerformCreateSpec(old(db.Snapshot()), author, f, ingredients, tags)
  {
    var before := db.Snapshot();
    // `serializer.save(author=...)`: `Recipe.save` on an instance with no primary key.
    var saved := RecipeSave(before, None, NewRecipe(author, f));
    match saved {
      case Failure(_) =>
        db.Restore(before);
        status := ServerError;
      case Success(_) =>
        // The composition (lines 76-80) would be saved here; it is never reached.
        assert false;
    }
  }

  /** Whatever the request, `perform_create` answers 500 and stores nothing. */
  lemma PerformCreateNeverStores(t: Tables, author: UserId, f: RecipeFields,
                                 ingredients: seq<IngredientItem>, tags: seq<TagId>)
    ensures PerformCreateSpec(t, author, f, ingredients, tags) == (ServerError, t)
    ensures RecipeSave(t, None, NewRecipe(author, f)) == Failure(UnsavedInstance)
  {
  }

  // ---------------------------------------------------------------------------
  // perform_create, corrected.

  /** `super().save()` on a new recipe: the row is stored under the next key
      of the sequence, and the sequence moves on. */
  function InsertRecipe(t: Tables, recipe: Recipe): (t': Tables)
    ensures t'.recipes == t.recipes[t.nextRecipeId := recipe]
    ensures t'.nextRecipeId == t.nextRecipeId + 1
    ensures t' == t.(recipes := t'.recipes, nextRecipeId := t'.nextRecipeId)
  {
    t.(recipes := t.recipes[t.nextRecipeId := recipe], nextRecipeId := t.nextRecipeId + 1)
  }

  /** The new key names no stored recipe and no join row, and the insert keeps
      every constraint when the author exists. */
  lemma InsertRecipeKeepsValid(t: Tables, recipe: Recipe)
    requires Valid(t) && recipe.author in t.users
    ensures t.nextRecipeId !in t.recipes
    ensures !HasIngredients(InsertRecipe(t, recipe), t.nextRecipeId)
    ensures !HasTags(InsertRecipe(t, recipe), t.nextRecipeId)
    ensures Valid(InsertRecipe(t, recipe))
  {
    var t' := InsertRecipe(t, recipe);
    FreshRecipeHasNoRows(t);
    assert SequenceAhead(t');
    assert ReferencesExist(t') by {
      assert t'.recipeIngredients == t.recipeIngredients && t'.recipeTags == t.recipeTags;
      assert t'.favorites == t.favorites && t'.carts == t.carts;
    }
    assert JoinRowsUnique(t') by {
      assert t'.recipeIngredients == t.recipeIngredients && t'.recipeTags == t.recipeTags;
    }
  }

  /** The recipe row, then each non-empty list, then the guard; any failure
      rolls back to `t`. */
  function CreateRecipeSpec(t: Tables, author: UserId, f: RecipeFields,
                            ingredients: seq<IngredientItem>, tags: seq<TagId>): (Status, Tables)
  {
    var id := t.nextRecipeId;
    match SaveComposition(InsertRecipe(t, NewRecipe(author, f)), id, ingredients, tags)
    case Failure(_) => (ServerError, t)
    case Success(t3) =>
      if !HasTags(t3, id) || !HasIngredients(t3, id) then (ServerError, t)
      else (Created, t3)
  }

  /** Lines 76-80 of `perform_create`: each list, when non-empty, goes through
      its `save_*` helper. A repeated pair raises at once; an unknown id makes
      the commit raise. Either way the request ends in a 500, so the first
      failure decides the outcome. */
  function SaveComposition(t: Tables, id: RecipeId, ingredients: seq<IngredientItem>, tags: seq<TagId>): Result<Tables, Orm.DbError> {
    var s2 := if |ingredients| > 0 then SaveIngredients(t, ingredients, id) else Success(t);
    if s2.Failure? then s2
    else if |tags| > 0 then SaveTags(s2.value, tags, id) else s2
  }

  method SaveCompositionOf(db: Database, id: RecipeId, ingredients: seq<IngredientItem>, tags: seq<TagId>) returns (ok: bool)
    requires db.Valid()
    modifies db
    ensures db.Valid()
    ensures ok <==> SaveComposition(old(db.Snapshot()), id, ingredients, tags).Success?
    ensures ok ==> db.Snapshot() == SaveComposition(old(db.Snapshot()), id, ingredients, tags).value
  {
    var failure: Option<Orm.DbError> := None;
    if |ingredients| > 0 {
      failure := SaveIngredientsForRecipe(db, ingredients, id);
    }
    if failure.None? && |tags| > 0 {
      failure := SaveTagsForRecipe(db, tags, id);
    }
    ok := failure.None?;
  }

  method CreateRecipe(db: Database, author: UserId, f: RecipeFields,
                      ingredients: seq<IngredientItem>, tags: seq<TagId>) returns (status: Status, id: RecipeId)
    requires db.Valid() && author in db.users && CookingTimeValid(f.cookingTime)
    modifies db
    ensures db.Valid()
    ensures id == old(db.nextRecipeId)
    ensures (status, db.Snapshot()) == CreateRecipeSpec(old(db.Snapshot()), author, f, ingredients, tags)
  {
    var before := db.Snapshot();
    id := db.nextRecipeId;
    ghost var t1 := InsertRecipe(before, NewRecipe(author, f));
    InsertRecipeKeepsValid(before, NewRecipe(author, f));
    db.recipes := db.recipes[id := NewRecipe(author, f)];
    db.nextRecipeId := id + 1;
    assert db.Snapshot() == t1;
    var ok := SaveCompositionOf(db, id, ingredients, tags);
    if !ok || !HasTags(db.Snapshot(), id) || !HasIngredients(db.Snapshot(), id) {
      db.Restore(before);
      status := ServerError;
      return;
    }
    status := Created;
  }

  /** A create that fails leaves every table as it was. */
  lemma CreateRecipeAtomic(t: Tables, author: UserId, f: RecipeFields,
                           ingredients: seq<IngredientItem>, tags: seq<TagId>)
    ensures var r := CreateRecipeSpec(t, author, f, ingredients, tags);
      && (r.0 == Created || r.0 == ServerError)
      && (r.0 != Created ==> r.1 == t)
  {
  }

  /** Whatever the outcome, the database stays well-formed. */
  lemma CreateRecipeKeepsValid(t: Tables, author: UserId, f: RecipeFields,
                               ingredients: seq<IngredientItem>, tags: seq<TagId>)
    requires Valid(t) && author in t.users
    ensures Valid(CreateRecipeSpec(t, author, f, ingredients, tags).1)
  {
    var r := CreateRecipeSpec(t, author, f, ingredients, tags);
    if r.0 != Created {
      return;
    }
    var id := t.nextRecipeId;
    var t1 := InsertRecipe(t, NewRecipe(author, f));
    FreshRecipeHasNoRows(t);
    CreatedShape(t, author, f, ingredients, tags);
    InsertRecipeKeepsValid(t, NewRecipe(author, f));
    SaveIngredientsKeepsValid(t1, ingredients, id);
    var t2 := SaveIngredients(t1, ingredients, id).value;
    SaveTagsKeepsValid(t2, tags, id);
  }

  /** A successful create stores the recipe under the next key with the
      requesting user as author, followed by exactly the supplied ingredient
      rows and tag rows, in request order; nothing else changes. */
  lemma CreateRecipeStoresComposition(t: Tables, author: UserId, f: RecipeFields,
                                      ingredients: seq<IngredientItem>, tags: seq<TagId>)
    requires NextKeyUnused(t)
    requires CreateRecipeSpec(t, author, f, ingredients, tags).0 == Created
    ensures var t' := CreateRecipeSpec(t, author, f, ingredients, tags).1;
      var id := t.nextRecipeId;
      && t'.recipes == t.recipes[id := Recipe(author, f.name, f.text, f.image, f.cookingTime)]
      && t'.recipeIngredients == t.recipeIngredients + IngredientRowsFor(id, ingredients)
      && t'.recipeTags == t.recipeTags + TagRowsFor(id, tags)
      && IngredientRowsOf(t'.recipeIngredients, id) == IngredientRowsFor(id, ingredients)
      && TagRowsOf(t'.recipeTags, id) == TagRowsFor(id, tags)
      && t'.users == t.users && t'.favorites == t.favorites && t'.carts == t.carts
      && t'.subscriptions == t.subscriptions
  {
    var id := t.nextRecipeId;
    var rows := IngredientRowsFor(id, ingredients);
    var tagRows := TagRowsFor(id, tags);
    CreatedShape(t, author, f, ingredients, tags);
    IngredientRowsOfAppend(t.recipeIngredients, rows, id);
    IngredientRowsOfOwn(rows, id);
    TagRowsOfAppend(t.recipeTags, tagRows, id);
    TagRowsOfOwn(tagRows, id);
  }

  /** The tables a successful create leaves, spelled out. */
  lemma CreatedShape(t: Tables, author: UserId, f: RecipeFields,
                     ingredients: seq<IngredientItem>, tags: seq<TagId>)
    requires NextKeyUnused(t)
    requires CreateRecipeSpec(t, author, f, ingredients, tags).0 == Created
    ensures |ingredients| > 0 && |tags| > 0
    ensures CreateRecipeSpec(t, author, f, ingredients, tags).1
         == t.(recipes := t.recipes[t.nextRecipeId := NewRecipe(author, f)],
               nextRecipeId := t.nextRecipeId + 1,
               recipeIngredients := t.recipeIngredients + IngredientRowsFor(t.nextRecipeId, ingredients),
               recipeTags := t.recipeTags + TagRowsFor(t.nextRecipeId, tags))
  {
    if |ingredients| == 0 || |tags| == 0 {
      CreateRecipeNeedsCompositionShape(t, author, f, ingredients, tags);
      assert false;
    }
  }

  /** The guard sees no ingredient row (resp. no tag row) of the new key unless
      the request supplied one. */
  lemma CreateRecipeNeedsCompositionShape(t: Tables, author: UserId, f: RecipeFields,
                                          ingredients: seq<IngredientItem>, tags: seq<TagId>)
    ensures var id := t.nextRecipeId;
      |ingredients| == 0 && !HasIngredients(t, id) ==> CreateRecipeSpec(t, author, f, ingredients, tags).0 != Created
    ensures var id := t.nextRecipeId;
      |tags| == 0 && !HasTags(t, id) ==> CreateRecipeSpec(t, author, f, ingredients, tags).0 != Created
  {
  }

  /** An empty ingredient list or an empty tag list can never pass the guard:
      the answer is 500 and nothing is stored. */
  lemma CreateRecipeNeedsComposition(t: Tables, author: UserId, f: RecipeFields,
                                     ingredients: seq<IngredientItem>, tags: seq<TagId>)
    requires NextKeyUnused(t)
    requires |ingredients| == 0 || |tags| == 0
    ensures CreateRecipeSpec(t, author, f, ingredients, tags) == (ServerError, t)
  {
    CreateRecipeNeedsCompositionShape(t, author, f, ingredients, tags);
  }

  /** The create succeeds exactly when both lists are non-empty, every id names
      an ingredient (resp. a tag), and no id repeats. */
  lemma CreateRecipeSucceedsIff(t: Tables, author: UserId, f: RecipeFields,
                                ingredients: seq<IngredientItem>, tags: seq<TagId>)
    requires NextKeyUnused(t) && JoinRowsUnique(t)
    ensures CreateRecipeSpec(t, author, f, ingredients, tags).0 == Created <==>
      && |ingredients| > 0 && |tags| > 0
      && ItemsAcceptable(t.ingredients, ingredients)
      && TagIdsAcceptable(t.tags, tags)
  {
    if |ingredients| == 0 || |tags| == 0 {
      CreateRecipeNeedsComposition(t, author, f, ingredients, tags);
    } else {
      NonEmptyCreateSucceedsIff(t, author, f, ingredients, tags);
    }
  }

  /** The same, once both lists are non-empty: each insert in turn. */
  lemma NonEmptyCreateSucceedsIff(t: Tables, author: UserId, f: RecipeFields,
                                  ingredients: seq<IngredientItem>, tags: seq<TagId>)
    requires NextKeyUnused(t) && JoinRowsUnique(t)
    requires |ingredients| > 0 && |tags| > 0
    ensures CreateRecipeSpec(t, author, f, ingredients, tags).0 == Created <==>
      ItemsAcceptable(t.ingredients, ingredients) && TagIdsAcceptable(t.tags, tags)
  {
    var id := t.nextRecipeId;
    var t1 := InsertRecipe(t, NewRecipe(author, f));
    var r := CreateRecipeSpec(t, author, f, ingredients, tags);
    NoRowsOfUnusedKey(t);
    IngredientsStep(t1, ingredients, id);
    var s2 := SaveIngredients(t1, ingredients, id);
    if s2.Failure? {
      assert r.0 == ServerError;
      return;
    }
    var t2 := s2.value;
    SaveIngredientsAppends(t1, ingredients, id);
    assert t2.recipeTags == t.recipeTags && t2.tags == t.tags && id in t2.recipes;
    TagsStep(t2, tags, id);
    var s3 := SaveTags(t2, tags, id);
    if s3.Failure? {
      assert r.0 == ServerError;
      return;
    }
    assert IngredientRowsFor(id, ingredients)[0] in t2.recipeIngredients;
    CreatedRowsPresent(t2, ingredients, tags, id);
    assert r.0 == Created;
  }

  /** Inserting the ingredient rows of a stored recipe that has none yet
      succeeds exactly when every id names an ingredient and none repeats. */
  lemma IngredientsStep(t: Tables, items: seq<IngredientItem>, id: RecipeId)
    requires id in t.recipes && UniqueBy(t.recipeIngredients, IngredientKey)
    requires forall k :: 0 <= k < |t.recipeIngredients| ==> t.recipeIngredients[k].recipe != id
    ensures SaveIngredients(t, items, id).Success? <==> ItemsAcceptable(t.ingredients, items)
  {
    SaveIngredientsSucceedsIff(t, items, id);
  }

  /** Inserting the tag rows of a stored recipe that has none yet succeeds
      exactly when every id names a tag and none repeats. */
  lemma TagsStep(t: Tables, tagIds: seq<TagId>, id: RecipeId)
    requires id in t.recipes && UniqueBy(t.recipeTags, TagKey)
    requires forall k :: 0 <= k < |t.recipeTags| ==> t.recipeTags[k].recipe != id
    ensures SaveTags(t, tagIds, id).Success? <==> TagIdsAcceptable(t.tags, tagIds)
  {
    SaveTagsSucceedsIff(t, tagIds, id);
  }

  /** With the next key unused, no stored row mentions it. */
  lemma NoRowsOfUnusedKey(t: Tables)
    requires NextKeyUnused(t)
    ensures forall k :: 0 <= k < |t.recipeIngredients| ==> t.recipeIngredients[k].recipe != t.nextRecipeId
    ensures forall k :: 0 <= k < |t.recipeTags| ==> t.recipeTags[k].recipe != t.nextRecipeId
  {
    var id := t.nextRecipeId;
    assert IngredientRowsOf(t.recipeIngredients, id) == [];
    assert TagRowsOf(t.recipeTags, id) == [];
    forall k | 0 <= k < |t.recipeIngredients| ensures t.recipeIngredients[k].recipe != id {
      assert t.recipeIngredients[k] in t.recipeIngredients;
    }
    forall k | 0 <= k < |t.recipeTags| ensures t.recipeTags[k].recipe != id {
      assert t.recipeTags[k] in t.recipeTags;
    }
  }

  /** After both inserts the guard passes: the new rows are there. */
  lemma CreatedRowsPresent(t2: Tables, ingredients: seq<IngredientItem>, tags: seq<TagId>, id: RecipeId)
    requires |ingredients| > 0 && |tags| > 0
    requires SaveTags(t2, tags, id).Success?
    requires IngredientRowsFor(id, ingredients)[0] in t2.recipeIngredients
    ensures HasIngredients(SaveTags(t2, tags, id).value, id)
    ensures HasTags(SaveTags(t2, tags, id).value, id)
  {
    var t3 := SaveTags(t2, tags, id).value;
    SaveTagsAppends(t2, tags, id);
    var row := IngredientRowsFor(id, ingredients)[0];
    assert row in t3.recipeIngredients;
    assert row in IngredientRowsOf(t3.recipeIngredients, id);
    var tagRow := TagRowsFor(id, tags)[0];
    assert t3.recipeTags[|t2.recipeTags|] == tagRow;
    assert tagRow in TagRowsOf(t3.recipeTags, id);
  }

  // ---------------------------------------------------------------------------
  // partial_update.

  /** Lines 90-92: a non-empty list clears the recipe's ingredients and
      inserts the new rows; an empty or missing one does nothing. */
  function ReplaceIngredients(t: Tables, id: RecipeId, items: seq<IngredientItem>): (r: Result<Tables, Orm.DbError>)
    ensures r.Success? ==> r.value == t.(recipeIngredients := r.value.recipeIngredients)
  {
    if |items| > 0 then SaveIngredients(Orm.ClearIngredients(t, id), items, id) else Success(t)
  }

  /** Lines 94-96, the same for tags. */
  function ReplaceTags(t: Tables, id: RecipeId, tagIds: seq<TagId>): (r: Result<Tables, Orm.DbError>)
    ensures r.Success? ==> r.value == t.(recipeTags := r.value.recipeTags)
  {
    if |tagIds| > 0 then SaveTags(Orm.ClearTags(t, id), tagIds, id) else Success(t)
  }

  /** The tables after lines 90-92, whatever their outcome: the rows inserted,
      or, when the insert failed, the recipe's rows deleted and nothing added. */
  function ReplacedIngredients(t: Tables, id: RecipeId, items: seq<IngredientItem>): (t1: Tables)
    ensures t1 == t.(recipeIngredients := t1.recipeIngredients)
  {
    var r := ReplaceIngredients(t, id, items);
    if r.Success? then r.value else Orm.ClearIngredients(t, id)
  }

  /** The tables after lines 94-96, the same for tags. */
  function ReplacedTags(t: Tables, id: RecipeId, tagIds: seq<TagId>): (t2: Tables)
    ensures t2 == t.(recipeTags := t2.recipeTags)
  {
    var r := ReplaceTags(t, id, tagIds);
    if r.Success? then r.value else Orm.ClearTags(t, id)
  }

  /** `partial_update`, in the order the code runs:
      - `get_object`: an unknown recipe is a 404;
      - the two replacements: a repeated or already linked pair raises
        `IntegrityError` at once (500); an unknown id is accepted and only
        makes the commit fail;
      - `is_valid(raise_exception=True)`: the image header's two-name unpack
        raises `ValueError`, which DRF does not catch (500), before any field
        error can be reported; a field error is a 400;
      - `perform_update`: the `Recipe.save` guard raises a Django
        `ValidationError` (500);
      - the commit: an unknown id from the replacements raises (500);
      - the 200 response.
      Every failure after `get_object` is rolled back. A replacement that
      dooms the commit leaves the recipe's rows cleared in the model (the
      dangling rows are not stored); only the status depends on that step. */
  function PartialUpdateSpec(t: Tables, id: RecipeId, patch: RecipePatch, othersValid: bool,
                             ingredients: seq<IngredientItem>, tags: seq<TagId>): (Status, Tables)
  {
    if id !in t.recipes then (NotFound, t)
    else
      var ri := ReplaceIngredients(t, id, ingredients);
      if ri == Failure(Orm.UniqueViolation) then (ServerError, t)
      else
        ContinueWithTags(t, ReplacedIngredients(t, id, ingredients), id, patch, othersValid, tags, ri.Failure?)
  }

  /** The steps of `partial_update` from the tag replacement on, from the
      tables `t1` the ingredient replacement left. */
  function ContinueWithTags(t: Tables, t1: Tables, id: RecipeId, patch: RecipePatch, othersValid: bool,
                            tags: seq<TagId>, doomed: bool): (Status, Tables)
    requires id in t1.recipes
  {
    var rt := ReplaceTags(t1, id, tags);
    if rt == Failure(Orm.UniqueViolation) then (ServerError, t)
    else FinishUpdate(t, ReplacedTags(t1, id, tags), id, patch, othersValid, doomed || rt.Failure?)
  }

  /** The steps of `partial_update` after the replacements, from the tables
      `t2` they left; `t` is the content on entry and `doomed` says whether a
      replacement left a foreign key for the commit to reject. */
  function FinishUpdate(t: Tables, t2: Tables, id: RecipeId, patch: RecipePatch, othersValid: bool, doomed: bool): (Status, Tables)
    requires id in t2.recipes
  {
    if !ImageUnpacks(patch) then (ServerError, t)
    else if !PatchValid(patch, othersValid) then (BadRequest, t)
    else match RecipeSave(t2, Some(id), ApplyPatch(t2.recipes[id], patch))
      case Failure(_) => (ServerError, t)
      case Success(t3) => if doomed then (ServerError, t) else (Ok, t3)
  }

  method PartialUpdate(db: Database, id: RecipeId, patch: RecipePatch, othersValid: bool,
                       ingredients: seq<IngredientItem>, tags: seq<TagId>) returns (status: Status)
    requires db.Valid()
    modifies db
    ensures db.Valid()
    ensures (status, db.Snapshot()) == PartialUpdateSpec(old(db.Snapshot()), id, patch, othersValid, ingredients, tags)
  {
    if id !in db.recipes {
      return NotFound;
    }
    var before := db.Snapshot();
    var ingredientsFailure := ReplaceIngredientsOf(db, id, ingredients);
    if ingredientsFailure == Some(Orm.UniqueViolation) {
      db.Restore(before);
      return ServerError;
    }
    status := ContinueWithTagsOf(db, before, id, patch, othersValid, tags, ingredientsFailure.Some?);
  }

  /** The tag replacement and the steps after it on the database object. */
  method ContinueWithTagsOf(db: Database, before: Tables, id: RecipeId, patch: RecipePatch, othersValid: bool,
                            tags: seq<TagId>, doomed: bool) returns (status: Status)
    requires db.Valid() && Valid(before) && id in db.recipes
    modifies db
    ensures db.Valid()
    ensures (status, db.Snapshot()) == ContinueWithTags(before, old(db.Snapshot()), id, patch, othersValid, tags, doomed)
  {
    ghost var t1 := db.Snapshot();
    var tagsFailure := ReplaceTagsOf(db, id, tags);
    if tagsFailure == Some(Orm.UniqueViolation) {
      db.Restore(before);
      return ServerError;
    }
    assert ContinueWithTags(before, t1, id, patch, othersValid, tags, doomed)
        == FinishUpdate(before, db.Snapshot(), id, patch, othersValid, doomed || tagsFailure.Some?);
    status := FinishUpdateOf(db, before, id, patch, othersValid, doomed || tagsFailure.Some?);
  }

  /** `is_valid`, `perform_update` and the commit on the database object. */
  method FinishUpdateOf(db: Database, before: Tables, id: RecipeId, patch: RecipePatch, othersValid: bool, doomed: bool)
      returns (status: Status)
    requires db.Valid() && Valid(before) && id in db.recipes
    modifies db
    ensures db.Valid()
    ensures (status, db.Snapshot()) == FinishUpdate(before, old(db.Snapshot()), id, patch, othersValid, doomed)
  {
    if patch.image.Some? {
      var image := RecipeSerializers.ToInternalValue(patch.image.value);
      if image.Failure? {
        db.Restore(before);
        return ServerError;
      }
    }
    if !PatchValid(patch, othersValid) {
      db.Restore(before);
      return BadRequest;
    }
    var recipe := ApplyPatch(db.recipes[id], patch);
    if !HasTags(db.Snapshot(), id) || !HasIngredients(db.Snapshot(), id) {
      db.Restore(before);
      return ServerError;
    }
    ghost var t2 := db.Snapshot();
    RewriteRecipeKeepsValid(t2, id, recipe);
    db.recipes := db.recipes[id := recipe];
    assert db.Snapshot() == RecipeSave(t2, Some(id), recipe).value;
    // The commit checks the deferred foreign keys.
    if doomed {
      db.Restore(before);
      return ServerError;
    }
    status := Ok;
  }

  /** Lines 90-92 on the database object: when ingredients were sent, delete
      the recipe's rows and insert the new ones. An insert that fails leaves
      the rows deleted. */
  method ReplaceIngredientsOf(db: Database, id: RecipeId, items: seq<IngredientItem>) returns (failure: Option<Orm.DbError>)
    requires db.Valid()
    modifies db
    ensures db.Valid()
    ensures failure == Orm.ErrorOf(ReplaceIngredients(old(db.Snapshot()), id, items))
    ensures db.Snapshot() == ReplacedIngredients(old(db.Snapshot()), id, items)
  {
    failure := None;
    if |items| > 0 {
      db.ClearIngredients(id);
      failure := SaveIngredientsForRecipe(db, items, id);
    }
  }

  /** Lines 94-96 on the database object, the same for tags. */
  method ReplaceTagsOf(db: Database, id: RecipeId, tagIds: seq<TagId>) returns (failure: Option<Orm.DbError>)
    requires db.Valid()
    modifies db
    ensures db.Valid()
    ensures failure == Orm.ErrorOf(ReplaceTags(old(db.Snapshot()), id, tagIds))
    ensures db.Snapshot() == ReplacedTags(old(db.Snapshot()), id, tagIds)
  {
    failure := None;
    if |tagIds| > 0 {
      db.ClearTags(id);
      failure := SaveTagsForRecipe(db, tagIds, id);
    }
  }

  /** Any answer other than 200 leaves every table as it was; 404 answers
      exactly an unknown recipe, and a patch that fails validation is never
      applied, even after the composition was replaced. */
  lemma PartialUpdateAtomic(t: Tables, id: RecipeId, patch: RecipePatch, othersValid: bool,
                            ingredients: seq<IngredientItem>, tags: seq<TagId>)
    ensures var r := PartialUpdateSpec(t, id, patch, othersValid, ingredients, tags);
      && (r.0 != Ok ==> r.1 == t)
      && (r.0 == NotFound <==> id !in t.recipes)
      && (!PatchValid(patch, othersValid) ==> r.0 != Ok)
  {
  }

  /** The foreign keys are checked at commit, after `is_valid`: when neither
      replacement repeats a pair and the image header splits, a patch with a
      field error is answered 400 even if it names an unknown ingredient or
      tag. */
  lemma PartialUpdateReportsFieldErrors(t: Tables, id: RecipeId, patch: RecipePatch, othersValid: bool,
                                        ingredients: seq<IngredientItem>, tags: seq<TagId>)
    requires id in t.recipes
    requires ReplaceIngredients(t, id, ingredients) != Failure(Orm.UniqueViolation)
    requires ReplaceTags(t, id, tags) != Failure(Orm.UniqueViolation)
    requires ImageUnpacks(patch) && !PatchValid(patch, othersValid)
    ensures PartialUpdateSpec(t, id, patch, othersValid, ingredients, tags) == (BadRequest, t)
  {
    var ri := ReplaceIngredients(t, id, ingredients);
    var t1 := ReplacedIngredients(t, id, ingredients);
    ReplaceTagsUniqueOnly(t, t1, id, tags);
  }

  /** A data URI whose header does not split in two raises `ValueError`
      inside `is_valid`, which DRF does not turn into a 400: once the
      replacements pass their unique check, the answer is 500 and nothing is
      kept, whatever the other fields hold. */
  lemma PartialUpdateUnpackErrorIsServerError(t: Tables, id: RecipeId, patch: RecipePatch, othersValid: bool,
                                              ingredients: seq<IngredientItem>, tags: seq<TagId>)
    requires id in t.recipes
    requires ReplaceIngredients(t, id, ingredients) != Failure(Orm.UniqueViolation)
    requires ReplaceTags(t, id, tags) != Failure(Orm.UniqueViolation)
    requires patch.image.Some? && patch.image.value.Text?
    requires RecipeSerializers.StartsWith(patch.image.value.s, RecipeSerializers.DATA_IMAGE)
    requires |RecipeSerializers.Split(patch.image.value.s, RecipeSerializers.BASE64_MARK)| != 2
    ensures PartialUpdateSpec(t, id, patch, othersValid, ingredients, tags) == (ServerError, t)
  {
    var ri := ReplaceIngredients(t, id, ingredients);
    var t1 := ReplacedIngredients(t, id, ingredients);
    ReplaceTagsUniqueOnly(t, t1, id, tags);
  }

  /** Whether the tag replacement raises at once depends only on the tag rows,
      so the ingredient replacement before it cannot change that. */
  lemma ReplaceTagsUniqueOnly(t: Tables, t1: Tables, id: RecipeId, tagIds: seq<TagId>)
    requires t1 == t.(recipeIngredients := t1.recipeIngredients)
    ensures ReplaceTags(t1, id, tagIds) == Failure(Orm.UniqueViolation)
        <==> ReplaceTags(t, id, tagIds) == Failure(Orm.UniqueViolation)
  {
    if |tagIds| > 0 {
      var rows := TagRowsFor(id, tagIds);
      assert Orm.ClearTags(t1, id).recipeTags == Orm.ClearTags(t, id).recipeTags;
      assert Orm.TagKeysFree(Orm.ClearTags(t1, id), rows) == Orm.TagKeysFree(Orm.ClearTags(t, id), rows);
    }
  }

  /** Whatever the outcome, the database stays well-formed. */
  lemma PartialUpdateKeepsValid(t: Tables, id: RecipeId, patch: RecipePatch, othersValid: bool,
                                ingredients: seq<IngredientItem>, tags: seq<TagId>)
    requires Valid(t)
    ensures Valid(PartialUpdateSpec(t, id, patch, othersValid, ingredients, tags).1)
  {
    var ri := ReplaceIngredients(t, id, ingredients);
    if id in t.recipes && ri != Failure(Orm.UniqueViolation) {
      if ri.Success? {
        ReplaceIngredientsKeepsValid(t, id, ingredients);
      } else {
        Orm.ClearIngredientsKeepsValid(t, id);
      }
      ContinueWithTagsKeepsValid(t, ReplacedIngredients(t, id, ingredients), id, patch, othersValid, tags, ri.Failure?);
    }
  }

  lemma ContinueWithTagsKeepsValid(t: Tables, t1: Tables, id: RecipeId, patch: RecipePatch, othersValid: bool,
                                   tags: seq<TagId>, doomed: bool)
    requires Valid(t) && Valid(t1) && id in t1.recipes
    ensures Valid(ContinueWithTags(t, t1, id, patch, othersValid, tags, doomed).1)
  {
    var rt := ReplaceTags(t1, id, tags);
    if rt != Failure(Orm.UniqueViolation) {
      if rt.Success? {
        ReplaceTagsKeepsValid(t1, id, tags);
      } else {
        Orm.ClearTagsKeepsValid(t1, id);
      }
      FinishUpdateKeepsValid(t, ReplacedTags(t1, id, tags), id, patch, othersValid, doomed || rt.Failure?);
    }
  }

  lemma FinishUpdateKeepsValid(t: Tables, t2: Tables, id: RecipeId, patch: RecipePatch, othersValid: bool, doomed: bool)
    requires Valid(t) && Valid(t2) && id in t2.recipes
    ensures Valid(FinishUpdate(t, t2, id, patch, othersValid, doomed).1)
  {
    if FinishUpdate(t, t2, id, patch, othersValid, doomed).0 == Ok {
      RewriteRecipeKeepsValid(t2, id, ApplyPatch(t2.recipes[id], patch));
    }
  }

  /** Overwriting a stored recipe's fields, author kept, keeps every constraint. */
  lemma RewriteRecipeKeepsValid(t: Tables, id: RecipeId, recipe: Recipe)
    requires Valid(t) && id in t.recipes && recipe.author == t.recipes[id].author
    ensures Valid(t.(recipes := t.recipes[id := recipe]))
  {
    var t' := t.(recipes := t.recipes[id := recipe]);
    assert ReferencesExist(t') by {
      assert t'.recipeIngredients == t.recipeIngredients && t'.recipeTags == t.recipeTags;
    }
  }

  lemma ReplaceIngredientsKeepsValid(t: Tables, id: RecipeId, items: seq<IngredientItem>)
    requires Valid(t) && ReplaceIngredients(t, id, items).Success?
    ensures Valid(ReplaceIngredients(t, id, items).value)
  {
    if |items| > 0 {
      Orm.ClearIngredientsKeepsValid(t, id);
      SaveIngredientsKeepsValid(Orm.ClearIngredients(t, id), items, id);
    }
  }

  lemma ReplaceTagsKeepsValid(t: Tables, id: RecipeId, tagIds: seq<TagId>)
    requires Valid(t) && ReplaceTags(t, id, tagIds).Success?
    ensures Valid(ReplaceTags(t, id, tagIds).value)
  {
    if |tagIds| > 0 {
      Orm.ClearTagsKeepsValid(t, id);
      SaveTagsKeepsValid(Orm.ClearTags(t, id), tagIds, id);
    }
  }

  /** A 200 writes the patched fields over the stored recipe (the author is
      kept) and leaves users, ingredients, tags and the three ledgers alone;
      the image header split, every ingredient id resolved, and the recipe
      then has at least one tag and one ingredient. */
  lemma PartialUpdatePatchesRecipe(t: Tables, id: RecipeId, patch: RecipePatch, othersValid: bool,
                                   ingredients: seq<IngredientItem>, tags: seq<TagId>)
    requires PartialUpdateSpec(t, id, patch, othersValid, ingredients, tags).0 == Ok
    ensures var t' := PartialUpdateSpec(t, id, patch, othersValid, ingredients, tags).1;
      && id in t.recipes
      && ImageUnpacks(patch) && PatchValid(patch, othersValid)
      && ReplaceIngredients(t, id, ingredients).Success?
      && t'.recipes == t.recipes[id := ApplyPatch(t.recipes[id], patch)]
      && t'.recipes[id].author == t.recipes[id].author
      && HasTags(t', id) && HasIngredients(t', id)
      && t'.users == t.users && t'.ingredients == t.ingredients && t'.tags == t.tags
      && t'.favorites == t.favorites && t'.carts == t.carts && t'.subscriptions == t.subscriptions
  {
  }

  /** A non-empty ingredient list leaves the recipe with exactly the supplied
      rows, in request order; the same holds for tags. */
  lemma PartialUpdateReplacesComposition(t: Tables, id: RecipeId, patch: RecipePatch, othersValid: bool,
                                         ingredients: seq<IngredientItem>, tags: seq<TagId>)
    requires PartialUpdateSpec(t, id, patch, othersValid, ingredients, tags).0 == Ok
    ensures var t' := PartialUpdateSpec(t, id, patch, othersValid, ingredients, tags).1;
      && (|ingredients| > 0 ==> IngredientRowsOf(t'.recipeIngredients, id) == IngredientRowsFor(id, ingredients))
      && (|tags| > 0 ==> TagRowsOf(t'.recipeTags, id) == TagRowsFor(id, tags))
  {
    var t1 := ReplaceIngredients(t, id, ingredients).value;
    var t2 := ReplaceTags(t1, id, tags).value;
    if |ingredients| > 0 {
      ReplaceIngredientsRows(t, id, ingredients);
    }
    if |tags| > 0 {
      ReplaceTagsRows(t1, id, tags);
    }
  }

  /** An empty or missing list leaves that association untouched, whatever
      the outcome: ingredients and tags are replaced independently. */
  lemma PartialUpdateKeepsUnsupplied(t: Tables, id: RecipeId, patch: RecipePatch, othersValid: bool,
                                     ingredients: seq<IngredientItem>, tags: seq<TagId>)
    ensures var t' := PartialUpdateSpec(t, id, patch, othersValid, ingredients, tags).1;
      && (|ingredients| == 0 ==> t'.recipeIngredients == t.recipeIngredients)
      && (|tags| == 0 ==> t'.recipeTags == t.recipeTags)
  {
  }

  /** The join rows of every other recipe are the same after the call. */
  lemma PartialUpdateKeepsOtherRecipes(t: Tables, id: RecipeId, patch: RecipePatch, othersValid: bool,
                                       ingredients: seq<IngredientItem>, tags: seq<TagId>, other: RecipeId)
    requires other != id
    ensures var t' := PartialUpdateSpec(t, id, patch, othersValid, ingredients, tags).1;
      && IngredientRowsOf(t'.recipeIngredients, other) == IngredientRowsOf(t.recipeIngredients, other)
      && TagRowsOf(t'.recipeTags, other) == TagRowsOf(t.recipeTags, other)
  {
    var r := PartialUpdateSpec(t, id, patch, othersValid, ingredients, tags);
    if r.0 == Ok {
      var t1 := ReplaceIngredients(t, id, ingredients).value;
      if |ingredients| > 0 {
        ReplaceIngredientsOthers(t, id, ingredients, other);
      }
      if |tags| > 0 {
        ReplaceTagsOthers(t1, id, tags, other);
      }
    }
  }

  /** What a successful replacement leaves: the cleared table followed by the
      new rows, and the recipe's rows are exactly the new ones. */
  lemma ReplaceIngredientsRows(t: Tables, id: RecipeId, items: seq<IngredientItem>)
    requires |items| > 0 && ReplaceIngredients(t, id, items).Success?
    ensures var t' := ReplaceIngredients(t, id, items).value;
      && t'.recipeIngredients == IngredientRowsNotOf(t.recipeIngredients, id) + IngredientRowsFor(id, items)
      && IngredientRowsOf(t'.recipeIngredients, id) == IngredientRowsFor(id, items)
  {
    var c := Orm.ClearIngredients(t, id);
    SaveIngredientsAppends(c, items, id);
    var rows := IngredientRowsFor(id, items);
    assert ReplaceIngredients(t, id, items).value.recipeIngredients == c.recipeIngredients + rows;
    IngredientRowsOfAppend(c.recipeIngredients, rows, id);
    IngredientRowsOfOwn(rows, id);
  }

  lemma ReplaceTagsRows(t: Tables, id: RecipeId, tagIds: seq<TagId>)
    requires |tagIds| > 0 && ReplaceTags(t, id, tagIds).Success?
    ensures var t' := ReplaceTags(t, id, tagIds).value;
      && t'.recipeTags == TagRowsNotOf(t.recipeTags, id) + TagRowsFor(id, tagIds)
      && TagRowsOf(t'.recipeTags, id) == TagRowsFor(id, tagIds)
  {
    var c := Orm.ClearTags(t, id);
    SaveTagsAppends(c, tagIds, id);
    var rows := TagRowsFor(id, tagIds);
    assert ReplaceTags(t, id, tagIds).value.recipeTags == c.recipeTags + rows;
    TagRowsOfAppend(c.recipeTags, rows, id);
    TagRowsOfOwn(rows, id);
  }

  lemma ReplaceIngredientsOthers(t: Tables, id: RecipeId, items: seq<IngredientItem>, other: RecipeId)
    requires |items| > 0 && ReplaceIngredients(t, id, items).Success? && other != id
    ensures IngredientRowsOf(ReplaceIngredients(t, id, items).value.recipeIngredients, other)
         == IngredientRowsOf(t.recipeIngredients, other)
  {
    ReplaceIngredientsRows(t, id, items);
    var rows := IngredientRowsFor(id, items);
    IngredientRowsOfAppend(IngredientRowsNotOf(t.recipeIngredients, id), rows, other);
    IngredientRowsOfForeign(rows, other);
    IngredientRowsOfOther(t.recipeIngredients, id, other);
  }

  lemma ReplaceTagsOthers(t: Tables, id: RecipeId, tagIds: seq<TagId>, other: RecipeId)
    requires |tagIds| > 0 && ReplaceTags(t, id, tagIds).Success? && other != id
    ensures TagRowsOf(ReplaceTags(t, id, tagIds).value.recipeTags, other) == TagRowsOf(t.recipeTags, other)
  {
    ReplaceTagsRows(t, id, tagIds);
    var rows := TagRowsFor(id, tagIds);
    TagRowsOfAppend(TagRowsNotOf(t.recipeTags, id), rows, other);
    TagRowsOfForeign(rows, other);
    TagRowsOfOther(t.recipeTags, id, other);
  }
}
