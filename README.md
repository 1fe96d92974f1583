# Foodgram backend core in Dafny

Foodgram is a Django REST service for publishing recipes. Users create
recipes, each made of ingredients (with an amount) and tags. They keep
favourites and a shopping cart of recipes, download the cart as a text
file, and follow other authors.

This project models the core of that backend:

- the relational schema and its constraints, in `schema.dfy`;
- the cascading deletes, in `cascade.dfy`;
- the field validators, in `validators.dfy`;
- the ORM operations the views issue, in `orm.dfy` and `store.dfy`;
- the join-row helpers `save_ingredients_for_recipe` and `save_tags_for_recipe`, in `composition.dfy`;
- the recipe views `perform_create` and `partial_update`, in `recipe_views.dfy`;
- the favourite, cart and subscription views, in `user_views.dfy`;
- the shopping-list download, in `shopping_list.dfy`;
- the query filters, in `filters.dfy`;
- the serializers' derived fields and validators, in `recipe_serializers.dfy` and `user_serializers.dfy`.

The database is a value, `Schema.Tables`:

- users, recipes, ingredients and tags are maps from key to row;
- the two join tables are sequences of rows, in primary-key order;
- favourites, cart and subscriptions are sets of pairs;
- `nextRecipeId` is the next key of the recipe sequence.

`Schema.Valid` collects the unique, foreign-key, charset and self-subscription
constraints the models declare:

- unique keys;
- foreign keys;
- the unique join-row pairs;
- the tag-slug and username charsets;
- no self-subscription;
- a primary-key sequence that stays ahead of every stored key.

The views that change data are methods on the mutable `Store.Database` class,
which holds one field per table. Each view is proved against a function of
the old tables that gives the HTTP status and the new tables. Three kinds of
lemma sit beside these functions:

- preservation of `Valid`;
- round trips (add then remove, subscribe then unsubscribe);
- statements about exactly when each status is returned.

An uncaught exception (Django's `ValidationError`, `IntegrityError`,
`NameError`, `ValueError`) is modelled as status 500 with the transaction
rolled back. A repeated join-row pair raises `IntegrityError` when the insert
runs; a join row naming a missing recipe, ingredient or tag raises only when
the transaction commits, because Django declares foreign keys deferred.

## Model

| member | source | states |
|---|---|---|
| Validators.ScanClass | backend/utils/validators.py:11 | the greedy `[\w.@+-]+` run from a position stops at the first character outside the class |
| Validators.BacktrackFindsDollar | backend/utils/validators.py:11 | when the backtracking matcher succeeds, some end position of at least one character satisfies `$` |
| Validators.BacktrackReaches | backend/utils/validators.py:11 | if any shorter run ends where `$` holds, backtracking from the longest run finds it |
| Validators.SearchImpliesPattern | backend/utils/validators.py:11 | whatever `re.search` accepts is one or more class characters, followed by at most one final newline |
| Validators.PatternImpliesSearch | backend/utils/validators.py:11 | every string of that shape is accepted by `re.search` |
| Validators.RegexSearchCorrect | backend/utils/validators.py:7-20 | the regex search accepts a string exactly when it is one or more class characters, optionally followed by one final newline |
| Validators.PasswordSlugUsernameValidation | backend/utils/validators.py:7-20 | accepts exactly the pattern's strings; otherwise raises with code `invalid_field` |
| Validators.EmptyValueRejected | backend/utils/validators.py:11 | the empty string is rejected |
| Validators.TrailingNewlineAccepted | backend/utils/validators.py:11 | an accepted value stays accepted with one trailing newline and is rejected with two, although a newline is not in the class |
| Validators.HexNameColorValidator | backend/utils/validators.py:23-31 | accepts exactly the values in the hex-to-name table; a rejection carries no code |
| Schema.CookingTimeValid | backend/foodgram/models.py:191-208 | the cooking-time validators accept exactly 1..1440 minutes |
| Schema.AmountValid | backend/foodgram/models.py:253-270 | the amount validators accept exactly 1..10000 |
| Schema.ValidateNonEmpty | backend/foodgram/models.py:23-25 | raises exactly when the count is zero |
| Schema.IngredientRowsOf | backend/foodgram/models.py:238-251 | a recipe's ingredient rows are exactly the stored rows pointing at it |
| Schema.TagRowsOf | backend/foodgram/models.py:291-304 | a recipe's tag rows are exactly the stored rows pointing at it |
| Schema.IngredientRowsNotOf | backend/foodgram/models.py:238-251 | the rows left by clearing a recipe are exactly those of other recipes |
| Schema.TagRowsNotOf | backend/foodgram/models.py:291-304 | the same for tag rows |
| Schema.IngredientRowsOfAppend | backend/foodgram/models.py:238-251 | selecting a recipe's rows distributes over appending rows |
| Schema.TagRowsOfAppend | backend/foodgram/models.py:291-304 | the same for tag rows |
| Schema.IngredientRowsOfOwn | backend/foodgram/models.py:238-251 | rows that all belong to the recipe are all selected and none is left by clearing |
| Schema.TagRowsOfOwn | backend/foodgram/models.py:291-304 | the same for tag rows |
| Schema.IngredientRowsOfForeign | backend/foodgram/models.py:238-251 | rows of other recipes are never selected and all survive clearing |
| Schema.TagRowsOfForeign | backend/foodgram/models.py:291-304 | the same for tag rows |
| Schema.IngredientRowsOfOther | backend/foodgram/models.py:238-251 | clearing one recipe leaves another recipe's rows, in order, as they were |
| Schema.TagRowsOfOther | backend/foodgram/models.py:291-304 | the same for tag rows |
| Schema.PairAmount | backend/foodgram/models.py:253-280 | no amount exactly when no row holds the (recipe, ingredient) pair |
| Schema.PairAmountOfRow | backend/foodgram/models.py:275-280 | under `unique_recipe_ingredient`, a row's pair maps to that row's own amount |
| Schema.AuthoredBy | backend/foodgram/models.py:128-130 | exactly the recipes whose author is the user |
| Schema.FreshRecipeHasNoRows | backend/foodgram/models.py:238-314 | with the constraints in force, no recipe and no join row uses the next recipe key |
| Schema.RecipeClean | backend/foodgram/models.py:220-224 | passes exactly when the recipe has a tag and an ingredient; a missing tag is reported before a missing ingredient |
| Schema.RecipeSave | backend/foodgram/models.py:226-230 | an unsaved instance always raises; a stored one is written exactly when it has a tag and an ingredient |
| Schema.SubscriptionSave | backend/users/models.py:122-139 | stores exactly when both users exist, they differ and the pair is new |
| Schema.SubscriptionSaveKeepsValid | backend/users/models.py:133-139 | a successful save keeps every constraint and never stores a self-subscription |
| Cascade.DeleteRecipes | backend/foodgram/models.py:241-251 | deleting recipes removes exactly their join rows and the favourite and cart rows naming them; nothing else changes |
| Cascade.DeleteRecipe | backend/users/models.py:151-164 | after a recipe is deleted, no join row, favourite or cart row names it |
| Cascade.DeleteRecipesKeepsValid | backend/foodgram/models.py:294-304 | the cascade keeps every constraint |
| Cascade.DeleteRecipesKeepsOthers | backend/users/models.py:195-208 | surviving recipes keep their join rows, in order, and their ledger rows |
| Cascade.DeleteRecipesCompose | backend/foodgram/models.py:241-251 | deleting one set of recipes then another equals deleting both at once |
| Cascade.DeleteIngredient | backend/foodgram/models.py:247-251 | deleting an ingredient removes it and exactly the join rows naming it; the other ingredients keep their values and every other table is unchanged |
| Cascade.DeleteTag | backend/foodgram/models.py:300-304 | deleting a tag removes it and exactly the join rows naming it; the other tags keep their values and every other table is unchanged |
| Cascade.DeleteIngredientKeepsOrder | backend/foodgram/models.py:247-251 | the join rows that survive an ingredient's deletion keep their order |
| Cascade.DeleteTagKeepsOrder | backend/foodgram/models.py:300-304 | the join rows that survive a tag's deletion keep their order |
| Cascade.DeleteIngredientKeepsValid | backend/foodgram/models.py:247-251 | the ingredient cascade keeps every constraint |
| Cascade.DeleteTagKeepsValid | backend/foodgram/models.py:300-304 | the tag cascade keeps every constraint |
| Cascade.DeleteIngredientComposition | backend/foodgram/models.py:226-251 | a recipe keeps an ingredient exactly when it had another one; a recipe left without any can no longer be saved |
| Cascade.DeleteTagComposition | backend/foodgram/models.py:226-230 | the same for tags |
| Cascade.DeleteUser | backend/foodgram/models.py:128-130 | deleting a user removes their recipes with those recipes' join rows, their ledger rows and every subscription naming them; surviving users, recipes and rows keep their values and order; ingredients, tags and the key sequence are unchanged |
| Cascade.DeleteUserKeepsValid | backend/users/models.py:99-112 | the user cascade keeps every constraint |
| Cascade.DeleteUserKeepsOthers | backend/users/models.py:151-164 | other users' rows on surviving recipes, and those recipes' join rows, are unchanged |
| Cascade.UserRowsRemovedKeepsValid | backend/users/models.py:99-112 | once no recipe by the user is left, removing the user's own rows keeps every constraint |
| Orm.BulkCreateIngredientRows | backend/foodgram/utils/save_ingredients.py:22 | the insert succeeds exactly when the foreign keys resolve and the pairs stay unique, and then appends the rows in order; a repeated pair raises at once, while a dangling key with unique pairs is reported for the commit |
| Orm.BulkCreateTagRows | backend/foodgram/utils/save_tags.py:12 | the same for tag rows, with the same split between a unique violation at once and a foreign-key violation at commit |
| Orm.BulkCreateIngredientRowsKeepsValid | backend/foodgram/models.py:275-280 | a successful insert keeps every constraint |
| Orm.BulkCreateTagRowsKeepsValid | backend/foodgram/models.py:309-314 | a successful tag insert keeps every constraint |
| Orm.ClearIngredients | backend/foodgram/views.py:91 | afterwards the recipe has no ingredient row, and only its rows are removed |
| Orm.ClearTags | backend/foodgram/views.py:95 | afterwards the recipe has no tag row, and only its rows are removed |
| Orm.ClearIngredientsKeepsValid | backend/foodgram/views.py:91 | clearing keeps every constraint |
| Orm.ClearTagsKeepsValid | backend/foodgram/views.py:95 | clearing keeps every constraint |
| Store.Database.Restore | backend/foodgram/views.py:67 | a rollback returns every table to its content at the start of the transaction |
| Store.Database.BulkCreateIngredientRows | backend/foodgram/utils/save_ingredients.py:22 | on the mutable store: appends the rows or changes nothing, and reports the same violation as the value-level insert |
| Store.Database.BulkCreateTagRows | backend/foodgram/utils/save_tags.py:12 | the same for tag rows |
| Store.Database.ClearIngredients | backend/foodgram/views.py:91 | on the mutable store, the same as the value-level clear |
| Store.Database.ClearTags | backend/foodgram/views.py:95 | the same for tags |
| Composition.SaveIngredientsForRecipe | backend/foodgram/utils/save_ingredients.py:4-22 | the loop collects one row per item and inserts them all or none, reporting the kind of violation |
| Composition.SaveTagsForRecipe | backend/foodgram/utils/save_tags.py:4-12 | the loop collects one row per tag id and inserts them all or none, reporting the kind of violation |
| Composition.SaveIngredientsKeepsValid | backend/foodgram/utils/save_ingredients.py:4-22 | a successful save keeps every constraint |
| Composition.SaveTagsKeepsValid | backend/foodgram/utils/save_tags.py:4-12 | a successful save keeps every constraint |
| Composition.SaveIngredientsAppends | backend/foodgram/utils/save_ingredients.py:9-22 | a successful save appends exactly one row per item, in item order, carrying the item's id and amount |
| Composition.IngredientRefsIff | backend/foodgram/utils/save_ingredients.py:14-20 | the rows' foreign keys resolve exactly when the recipe exists (if there are items) and every item names a stored ingredient |
| Composition.IngredientKeysIff | backend/foodgram/models.py:275-280 | the pairs stay unique exactly when no item repeats an id and none is already linked to the recipe |
| Composition.SaveIngredientsSucceedsIff | backend/foodgram/utils/save_ingredients.py:4-22 | the save succeeds exactly when the recipe exists (if there are items), every id is stored, and no id is repeated or already linked |
| Composition.SaveIngredientsRaisesAtOnceIff | backend/foodgram/utils/save_ingredients.py:22 | the insert raises at once exactly when an id is repeated or already linked; an unknown id alone waits for the commit |
| Composition.RepeatedIngredientRaises | backend/foodgram/models.py:275-280 | an ingredient id given twice makes the save fail |
| Composition.LinkedIngredientRaises | backend/foodgram/models.py:275-280 | an ingredient already linked to the recipe makes the save fail |
| Composition.ZeroAmountIsStored | backend/foodgram/models.py:253-270 | the bulk insert skips the amount validators, so an amount of 0 is stored |
| Composition.SaveTagsAppends | backend/foodgram/utils/save_tags.py:9-12 | a successful save appends one row per tag id, in input order |
| Composition.TagRefsIff | backend/foodgram/utils/save_tags.py:9-10 | the tag rows' foreign keys resolve exactly when the recipe exists (if there are ids) and every id names a stored tag |
| Composition.TagKeysIff | backend/foodgram/models.py:309-314 | the tag pairs stay unique exactly when no id repeats and none is already linked |
| Composition.SaveTagsSucceedsIff | backend/foodgram/utils/save_tags.py:4-12 | the tag save succeeds exactly under those conditions |
| Composition.SaveTagsRaisesAtOnceIff | backend/foodgram/utils/save_tags.py:12 | the tag insert raises at once exactly when an id is repeated or already linked |
| RecipeViews.ApplyPatch | backend/foodgram/views.py:98-101 | each supplied field overwrites the stored one (name, text, cooking time, and the image the upload became); absent fields and the author are kept |
| RecipeViews.PatchedImageOfDataUri | backend/foodgram/serializers.py:84-93 | no image keeps the stored one; a data URI whose header splits stores "temp." and the extension after the header's last '/' |
| RecipeViews.PerformCreate | backend/foodgram/views.py:66-80 | the view as written, on the mutable store, equals its line-by-line specification |
| RecipeViews.PerformCreateNeverStores | backend/foodgram/views.py:66-80 | as written, every create that reaches `perform_create` (that is, passes validation) answers 500 and stores nothing, because the save guard reads the relations of an unsaved instance |
| RecipeViews.InsertRecipe | backend/foodgram/models.py:230 | the new row is stored under the next key, the sequence advances, and nothing else changes |
| RecipeViews.InsertRecipeKeepsValid | backend/foodgram/models.py:125-130 | the new key names no recipe and no join row, and the insert keeps every constraint |
| RecipeViews.SaveCompositionOf | backend/foodgram/views.py:76-80 | each non-empty list goes through its save helper; the store matches the value-level result |
| RecipeViews.CreateRecipe | backend/foodgram/views.py:66-80 | the corrected create (insert, composition, guard, rollback on failure) on the mutable store; it returns the new key |
| RecipeViews.CreateRecipeAtomic | backend/foodgram/views.py:66 | a create that does not answer 201 leaves every table as it was |
| RecipeViews.CreateRecipeKeepsValid | backend/foodgram/views.py:66-80 | whatever the outcome, every constraint holds afterwards |
| RecipeViews.CreateRecipeStoresComposition | backend/foodgram/views.py:71-80 | a 201 stores the recipe under the next key, with exactly the requested ingredient rows and tag rows, in order |
| RecipeViews.CreatedShape | backend/foodgram/views.py:71-80 | a 201 needs both lists non-empty and leaves exactly the old tables plus the new recipe and its rows |
| RecipeViews.CreateRecipeNeedsCompositionShape | backend/foodgram/models.py:226-230 | the save guard sees no row of the new key for a list that is empty |
| RecipeViews.CreateRecipeNeedsComposition | backend/foodgram/models.py:226-230 | an empty ingredient list or tag list always gives 500 with nothing stored |
| RecipeViews.CreateRecipeSucceedsIff | backend/foodgram/views.py:66-80 | 201 exactly when both lists are non-empty, every id names a stored ingredient or tag, and no id repeats |
| RecipeViews.NonEmptyCreateSucceedsIff | backend/foodgram/views.py:76-80 | with both lists non-empty, 201 exactly when every id names a stored ingredient or tag and no id repeats |
| RecipeViews.IngredientsStep | backend/foodgram/utils/save_ingredients.py:4-22 | for a recipe with no rows yet, the insert succeeds exactly when the items are acceptable |
| RecipeViews.TagsStep | backend/foodgram/utils/save_tags.py:4-12 | the same for tags |
| RecipeViews.NoRowsOfUnusedKey | backend/foodgram/models.py:238-314 | no stored join row mentions the unused next key |
| RecipeViews.CreatedRowsPresent | backend/foodgram/models.py:226-230 | after both inserts the save guard passes |
| RecipeViews.ReplaceIngredients | backend/foodgram/views.py:90-92 | a replacement changes only the ingredient rows |
| RecipeViews.ReplaceTags | backend/foodgram/views.py:94-96 | a replacement changes only the tag rows |
| RecipeViews.PartialUpdate | backend/foodgram/views.py:82-103 | the view on the mutable store equals its specification: 404; the replacements, where a repeated pair is a 500 at once; the image header split (500); validation (400); the save guard (500); the commit, which rejects a dangling key (500); rollback on any failure |
| RecipeViews.ContinueWithTagsOf | backend/foodgram/views.py:94-103 | the steps from the tag replacement on, on the mutable store, equal their specification |
| RecipeViews.FinishUpdateOf | backend/foodgram/views.py:98-103 | validation, the save guard and the commit, on the mutable store, equal their specification |
| RecipeViews.ReplacedIngredients | backend/foodgram/views.py:90-92 | what the ingredient replacement leaves changes only the ingredient rows |
| RecipeViews.ReplacedTags | backend/foodgram/views.py:94-96 | what the tag replacement leaves changes only the tag rows |
| RecipeViews.PartialUpdateReportsFieldErrors | backend/foodgram/views.py:88-100 | with no repeated pair and a header that splits, a field error is answered 400 and nothing is kept, even when an ingredient or tag id is unknown |
| RecipeViews.PartialUpdateUnpackErrorIsServerError | backend/foodgram/serializers.py:87-88 | a data URI without exactly one `;base64,` makes the update answer 500 and keep nothing, whatever the other fields hold |
| RecipeViews.ReplaceTagsUniqueOnly | backend/foodgram/views.py:90-96 | whether the tag insert raises at once does not depend on the ingredient replacement before it |
| RecipeViews.ReplaceIngredientsOf | backend/foodgram/views.py:90-92 | on the mutable store, the same as the value-level replacement, with the same violation reported |
| RecipeViews.ReplaceTagsOf | backend/foodgram/views.py:94-96 | the same for tags |
| RecipeViews.PartialUpdateAtomic | backend/foodgram/views.py:82 | any answer other than 200 leaves every table as it was; 404 exactly for an unknown recipe |
| RecipeViews.PartialUpdateKeepsValid | backend/foodgram/views.py:82-103 | whatever the outcome, every constraint holds |
| RecipeViews.ContinueWithTagsKeepsValid | backend/foodgram/views.py:94-103 | the steps from the tag replacement on keep every constraint |
| RecipeViews.FinishUpdateKeepsValid | backend/foodgram/views.py:98-103 | the steps after the replacements keep every constraint |
| RecipeViews.RewriteRecipeKeepsValid | backend/foodgram/views.py:98-101 | overwriting a stored recipe with the author kept keeps every constraint |
| RecipeViews.ReplaceIngredientsKeepsValid | backend/foodgram/views.py:90-92 | a successful replacement keeps every constraint |
| RecipeViews.ReplaceTagsKeepsValid | backend/foodgram/views.py:94-96 | the same for tags |
| RecipeViews.PartialUpdatePatchesRecipe | backend/foodgram/views.py:98-101 | a 200 writes the patched fields over the stored recipe; it needs a header that splits, a valid patch and resolving ingredient ids |
| RecipeViews.PartialUpdateReplacesComposition | backend/foodgram/views.py:90-96 | a 200 after a non-empty list leaves exactly the supplied rows for that recipe, in order |
| RecipeViews.PartialUpdateKeepsUnsupplied | backend/foodgram/views.py:90-96 | an empty or missing list leaves that relation untouched |
| RecipeViews.PartialUpdateKeepsOtherRecipes | backend/foodgram/views.py:82-103 | every other recipe's join rows are unchanged |
| RecipeViews.ReplaceIngredientsRows | backend/foodgram/views.py:90-92 | the result is the cleared table followed by the new rows |
| RecipeViews.ReplaceTagsRows | backend/foodgram/views.py:94-96 | the same for tags |
| RecipeViews.ReplaceIngredientsOthers | backend/foodgram/views.py:90-92 | other recipes' ingredient rows are unchanged |
| RecipeViews.ReplaceTagsOthers | backend/foodgram/views.py:94-96 | other recipes' tag rows are unchanged |
| UserViews.WithRows | backend/users/views.py:189-290 | replacing one ledger's rows sets exactly that ledger |
| UserViews.FavoritePost | backend/users/views.py:189-211 | the favourite post equals `AddEntry` on the favourites and keeps the constraints |
| UserViews.FavoriteDelete | backend/users/views.py:213-232 | the favourite delete equals `RemoveEntry` on the favourites and keeps the constraints |
| UserViews.CartPost | backend/users/views.py:242-267 | the cart post equals `AddEntry` on the cart |
| UserViews.CartDelete | backend/users/views.py:269-290 | the cart delete equals `RemoveEntry` on the cart |
| UserViews.AddEntryOutcomes | backend/users/views.py:189-211 | 404 exactly for an unknown recipe, 400 exactly for an existing row, otherwise 201 with the row added |
| UserViews.RemoveEntryOutcomes | backend/users/views.py:213-232 | 404 exactly for an unknown recipe or a missing row, otherwise 204 with the row removed |
| UserViews.AddTwiceRejected | backend/users/views.py:199-204 | a second add answers 400 and changes nothing |
| UserViews.AddThenRemoveRestores | backend/users/views.py:189-232 | removing right after a successful add restores the tables |
| UserViews.RemoveThenAddRestores | backend/users/views.py:189-232 | adding right after a successful remove restores the tables |
| UserViews.RemoveTwiceNotFound | backend/users/views.py:213-232 | a second remove answers 404 and changes nothing |
| UserViews.LedgersIndependent | backend/users/views.py:189-290 | favourite and cart operations never touch the other ledger |
| UserViews.RecipesUntouched | backend/users/views.py:189-290 | ledger updates leave the recipes as they are, and writing back the old rows restores the tables |
| UserViews.WithRowsOwn | backend/users/views.py:189-290 | writing a ledger's own rows back changes nothing |
| UserViews.AddEntryKeepsValid | backend/users/models.py:151-179 | an add by a stored user keeps every constraint |
| UserViews.RemoveEntryKeepsValid | backend/users/models.py:151-179 | a remove keeps every constraint |
| UserViews.SubscribePost | backend/users/views.py:339-370 | the subscribe post on the store equals its specification and keeps the constraints |
| UserViews.SubscribeDelete | backend/users/views.py:372-393 | the unsubscribe on the store equals its specification |
| UserViews.SubscribeOutcomes | backend/users/views.py:339-370 | in order: 404 for an unknown author, 400 for oneself or an existing row; otherwise the row is added |
| UserViews.SelfSubscribeRejected | backend/users/models.py:133-135 | nobody can follow themself; the tables stay unchanged |
| UserViews.UnsubscribeOutcomes | backend/users/views.py:372-393 | 404 exactly for an unknown author or a missing row, otherwise 204 with the row removed |
| UserViews.SubscribeTwiceRejected | backend/users/views.py:339-370 | a second subscribe answers 400 and changes nothing |
| UserViews.SubscribeThenUnsubscribeRestores | backend/users/views.py:339-393 | unsubscribing right after subscribing restores the tables |
| UserViews.UnsubscribeKeepsValid | backend/users/views.py:372-393 | an unsubscribe keeps every constraint |
| UserViews.SubscribeKeepsValid | backend/users/views.py:339-370 | a subscribe keeps every constraint |
| UserViews.SubscriptionAuthors | backend/users/views.py:404-410 | one author per subscription row, in order |
| UserViews.SubscriptionListing | backend/users/views.py:404-410 | the listing holds exactly the authors the user follows, each once |
| ShoppingList.AsWrittenLines | backend/users/views.py:314-318 | one line per join row of the recipe, each showing the amount of the recipe's first join row |
| ShoppingList.CorrectedLines | backend/users/views.py:314-318 | one line per join row, each showing its own amount |
| ShoppingList.BlockLines | backend/users/views.py:312-322 | a block has four lines more than its ingredient lines |
| ShoppingList.RowsOfRecipe | backend/users/views.py:314 | the recipe's join rows, in insertion order, each naming a stored ingredient |
| ShoppingList.DownloadShoppingCart | backend/users/views.py:299-329 | the two nested loops build exactly the text of the user's cart blocks, in cart order |
| ShoppingList.AppendRecipeBlock | backend/users/views.py:310-322 | the outer loop body appends one recipe's block |
| ShoppingList.AppendIngredientLines | backend/users/views.py:314-318 | the inner loop appends the ingredient lines as written |
| ShoppingList.BlockText | backend/users/views.py:312-322 | a block's text is its header, then its ingredient lines, then its footer |
| ShoppingList.ConcatAppend | backend/users/views.py:310-322 | the text of two line lists is the concatenation of their texts |
| ShoppingList.ValidRowsResolve | backend/foodgram/models.py:241-251 | under the constraints, every join row names a stored ingredient |
| ShoppingList.EmptyCartEmptyText | backend/users/views.py:299-329 | an empty cart gives an empty file |
| ShoppingList.ShoppingListAppend | backend/users/views.py:310-322 | the file of a concatenated cart is the concatenation of the two files |
| ShoppingList.SingleRowText | backend/users/views.py:310-322 | a one-row cart gives exactly that recipe's block |
| ShoppingList.IntToStringInjective | backend/users/views.py:314-318 | different amounts print differently |
| ShoppingList.IngredientLineInjective | backend/users/views.py:314-318 | two lines for the same ingredient are equal only for equal amounts |
| ShoppingList.AsWrittenAgreesIff | backend/users/views.py:314-318 | the lines as written equal the corrected lines exactly when every row of the recipe carries the first row's amount |
| ShoppingList.CorrectedLinesShowPairAmount | backend/users/views.py:314-318 | with unique pairs, each corrected line shows the amount stored for its (recipe, ingredient) pair |
| ShoppingList.FirstAmountCounterexample | backend/users/views.py:315 | a recipe with 2 g of salt and 3 ml of water: as written the water line reads 2 ml |
| Filters.FilterByLedger | backend/foodgram/filters.py:29-45 | 0 keeps the queryset; otherwise it fails exactly for the anonymous user and keeps exactly the requester's rows, in order |
| Filters.FilterIsFavorited | backend/foodgram/filters.py:29-36 | the favourites filter, with that contract |
| Filters.FilterIsInShoppingCart | backend/foodgram/filters.py:38-45 | the cart filter, with that contract |
| Filters.FilterTags | backend/foodgram/filters.py:20 | an empty slug keeps the queryset; otherwise it keeps exactly the recipes with a tag of that slug, in order |
| Filters.FilterAuthor | backend/foodgram/filters.py:21 | keeps exactly the recipes of that author, in order |
| Filters.LedgerStep | backend/foodgram/filters.py:12-19 | an absent value keeps the queryset; the step fails exactly for the anonymous user with a non-zero value |
| Filters.TagsStep | backend/foodgram/filters.py:20 | an absent value keeps the queryset; otherwise it filters by slug |
| Filters.AuthorStep | backend/foodgram/filters.py:21 | an absent value keeps the queryset; otherwise it filters by author |
| Filters.FilterRecipes | backend/foodgram/filters.py:6-45 | the filter set fails exactly for the anonymous user asking for favourites or the cart |
| Filters.FilterRecipesMeaning | backend/foodgram/filters.py:6-45 | for a logged-in user the result keeps queryset order and holds exactly the recipes meeting every supplied condition |
| Filters.Upper | backend/foodgram/filters.py:56 | ASCII upper-casing of one character |
| Filters.UpperString | backend/foodgram/filters.py:56 | upper-casing character by character |
| Filters.StartsWithIgnoringCasePrefix | backend/foodgram/filters.py:56 | `istartswith` holds exactly when the upper-cased value is a prefix of the upper-cased name |
| Filters.FilterName | backend/foodgram/filters.py:53-56 | an empty value keeps the queryset; otherwise it keeps exactly the stored ingredients whose name starts with the value, ignoring case, in order |
| Filters.StartsWithIgnoringCaseInvariant | backend/foodgram/filters.py:56 | values equal up to case match the same names |
| Filters.FilterNameCaseInsensitive | backend/foodgram/filters.py:53-56 | values equal up to case give the same result |
| RecipeSerializers.IsFavorited | backend/foodgram/serializers.py:119-131 | fails for the anonymous user; otherwise true exactly when the favourite row exists |
| RecipeSerializers.IsInShoppingCart | backend/foodgram/serializers.py:133-147 | fails for the anonymous user; otherwise true exactly when the cart row exists |
| RecipeSerializers.FlagsFollowLedgers | backend/foodgram/serializers.py:119-147 | after a successful add the flag is true; after a successful remove it is false |
| RecipeSerializers.GetAmount | backend/foodgram/serializers.py:35-45 | no amount exactly when no row names the ingredient; otherwise the amount of such a row |
| RecipeSerializers.FirstIndexOf | backend/foodgram/serializers.py:41 | the first row naming the ingredient |
| RecipeSerializers.GetAmountIsFirst | backend/foodgram/serializers.py:41 | `first()` returns the first row naming the ingredient, across all recipes |
| RecipeSerializers.GetAmountIsPairAmount | backend/foodgram/serializers.py:41 | when that first row belongs to the recipe being shown, the amount is right |
| RecipeSerializers.GetAmountIgnoresRecipe | backend/foodgram/serializers.py:41 | a concrete table where the amount shown for recipe 2 is recipe 1's |
| Validators.ValidatedField | backend/foodgram/serializers.py:60-68 | `validate_slug` (and `validate_new_password` at backend/users/serializers.py:30-38, the same wrapper) accepts exactly the pattern's strings and returns them unchanged; otherwise `invalid_field` |
| RecipeSerializers.ValidateColor | backend/foodgram/serializers.py:70-78 | accepts exactly the colours in the table and returns them unchanged |
| RecipeSerializers.Split | backend/foodgram/serializers.py:88 | `str.split` always returns at least one part |
| RecipeSerializers.SplitJoin | backend/foodgram/serializers.py:88 | joining the parts with the separator gives back the string |
| RecipeSerializers.JoinStartsWithFirst | backend/foodgram/serializers.py:88 | a joined string starts with its first part |
| RecipeSerializers.JoinEndsWithLast | backend/foodgram/serializers.py:89 | a joined string ends with its last part |
| RecipeSerializers.SplitPartsFree | backend/foodgram/serializers.py:88 | no part contains the separator |
| RecipeSerializers.SplitSingle | backend/foodgram/serializers.py:88 | one part exactly when the separator does not occur |
| RecipeSerializers.Extension | backend/foodgram/serializers.py:89 | the extension is the suffix of the header after its last `/` |
| RecipeSerializers.ToInternalValue | backend/foodgram/serializers.py:84-93 | a value that is not a `data:image` string passes through; a `data:image` string raises exactly when it does not split into two parts |
| RecipeSerializers.UploadSplitsAtMark | backend/foodgram/serializers.py:87-91 | an upload is the header, the mark and the payload; neither part holds the mark, and the file is named `temp.` plus the extension |
| RecipeSerializers.NoMarkRaises | backend/foodgram/serializers.py:88 | a `data:image` string without `;base64,` raises |
| UserSerializers.UserIsSubscribed | backend/users/serializers.py:71-83 | false for the anonymous user; otherwise true exactly when the subscription exists |
| UserSerializers.SubscriptionIsSubscribed | backend/users/serializers.py:168-176 | fails for the anonymous user; otherwise true exactly when the subscription exists |
| UserSerializers.SubscribedFlagsAgree | backend/users/serializers.py:71-83 | the two flags agree for logged-in users and differ for the anonymous one |
| UserSerializers.FlagFollowsSubscriptions | backend/users/serializers.py:71-83 | after a subscribe the flag is true; after an unsubscribe it is false |
| UserSerializers.AuthorRecipeIds | backend/users/serializers.py:146-155 | exactly the author's recipes, in table order |
| UserSerializers.GetRecipes | backend/users/serializers.py:146-155 | one minified entry per recipe of the author, in order, carrying that recipe's fields |
| UserSerializers.RecipesCountIsListingLength | backend/users/serializers.py:146-166 | the count equals the length of the listing, and the listing has no repeats |
| UserSerializers.ValidatePasswordAsWritten | backend/users/serializers.py:101-109 | as written, every call raises `NameError` |
| UserSerializers.ValidatePassword | backend/users/serializers.py:101-109 | corrected: accepts exactly the pattern's strings, unchanged |
| UserSerializers.ValidatePasswordRejectsGoodPassword | backend/users/serializers.py:105 | a password the pattern accepts is refused as written |

## Left out

- Authentication, tokens, permissions, routing, pagination, admin and the CSV import scripts are not modelled. The request's user is a parameter, `Requester`. The views are modelled for a logged-in user who passed the permission check.
- The permission class is not modelled. backend/foodgram/permissions.py defines only `ChangeObjectIfAuthor`, whose object check compares a boolean with the author (line 13). backend/foodgram/views.py:10 imports `ChangeObjectIfAuthorOrAdmin`, which that file does not define, so importing the views raises `ImportError`; backend/api/urls.py:5 imports the views, so the URL configuration does not load as written. The model describes the views as they would run once that import resolves.
- JSON request and response bodies, error messages and serializer output formats are not modelled. Only status codes and table contents are.
- Request parsing is left out. Validated request fields arrive as typed parameters. Fractional or unparsable `NumberFilter` values and repeated `tags` query parameters are not modelled.
- The `ingredients` and `tags` items of a recipe request are raw `request.data`, not validated fields. `Composition.IngredientItem` always carries an `id` and an `amount`. An item without `id` or `amount` gives `None` through `.get` (backend/foodgram/utils/save_ingredients.py:17-18), so the insert puts NULL into a NOT NULL column and raises an `IntegrityError` at once (a 500). The model cannot express such an item.
- Field validators the model classes bring with them are not part of `Schema.Valid`: the `validate_slug` of `Tag.slug`'s `SlugField` (backend/foodgram/models.py:91, `^[-a-zA-Z0-9_]+\Z`, which refuses the `.`, `@` and `+` and the final newline the `[\w.@+-]` charset admits), the `validate_email` of `User.email`'s `EmailField` (backend/users/models.py:32), and every `max_length` bound. The invariant holds the charset the code's own validator checks.
- `\w` is restricted to ASCII letters, digits and `_`, and case folding to ASCII letters; Unicode categories are not modelled.
- Base64 decoding and image storage are not modelled: an upload carries the encoded text and the file name. A malformed base64 payload raises `binascii.Error` in the program, a `ValueError` and so a 500; the model does not decode, so for such a payload it answers 400 or 200 (whatever `othersValid` says) where the program answers 500. The checks `ImageField` makes of the decoded file (a 400) are part of the `othersValid` outcome. The `webcolors` hex-to-name table is a `map` parameter.
- RecipeViews.ApplyPatch: stores the upload's file name, "temp." and the extension; the `foodgram/images/` prefix and the suffix storage adds to a taken name are not modelled. A JSON `null` image (allowed by `allow_null=True`) would clear the stored image; the model keeps it. Any other value that is not a `data:image` string reaches the image field's `to_internal_value`, which always refuses it with a 400; the model leaves that refusal to `othersValid`, so it must be false for such a value.
- RecipeViews.PartialUpdate: when a replacement names an unknown id, the model does not store the dangling rows; it clears the recipe's rows and marks the commit as failing. The status and the rolled-back tables are as the code gives them; only the save guard's view of the rows in between differs, and it cannot change a 500.
- Orm.BulkCreateIngredientRows: amounts are unbounded integers. `amount` is an `IntegerField`, so a database whose column is 32 bits wide (PostgreSQL) rejects a value outside that range; the model accepts it. The database engine is configured outside the modelled files.
- Composition.SaveIngredientsSucceedsIff: states the success condition for amounts the column can hold, for the same reason.
- ShoppingList.RowsOfRecipe: lists a recipe's ingredient lines in join-row insertion order. `recipe.ingredients.all()` has no declared ordering, so a database may list them in another order. The amount the code shows, `recipeingredient_set.first()`, is ordered by primary key and is the first inserted row's in both.
- The row order of tables without a declared ordering (recipes) and of the `pub_date`-ordered ledgers is a parameter. The ledgers are stored as sets.
- Concurrency, isolation levels and races between requests are not modelled. Each view runs alone on the database.
- The `users.User` fields other than username and email (names, password hash) are not modelled. Ingredient, tag and recipe text fields are carried but not validated beyond what the code checks.
- Duplicate rows in a queryset that joins a ledger are not modelled. They need two identical ledger rows, which the unique constraints exclude.
- UserSerializers.GetRecipesCount: has no contract of its own; `RecipesCountIsListingLength` relates it to the listing.
- Cascade.UserRowsRemoved: a helper with no contract; `DeleteUser` states what the whole deletion leaves.

## Findings

| source | as written | input that shows it | evidently intended | confidence | as-written member | corrected member |
|---|---|---|---|---|---|---|
| backend/foodgram/views.py:71 | `serializer.save` runs `Recipe.save`, whose guard reads the tags and ingredients of an instance that has no key yet, so every create that passes validation raises and answers 500 | any create request that passes validation | store the recipe, then its ingredient and tag rows, and refuse a recipe without both | not executed | RecipeViews.PerformCreateNeverStores | RecipeViews.CreateRecipeSucceedsIff |
| backend/users/views.py:315 | every ingredient line of a recipe shows the amount of the recipe's first join row | a recipe with 2 g of salt and 3 ml of water: the file says 2 ml of water | each line shows its own row's amount | not executed | ShoppingList.FirstAmountCounterexample | ShoppingList.CorrectedLinesShowPairAmount |
| backend/foodgram/serializers.py:41 | `get_amount` takes the first join row of the ingredient across all recipes | rows (recipe 1, ingredient 5, 100) and (recipe 2, ingredient 5, 300): recipe 2 shows 100 | the amount of the (recipe, ingredient) pair | not executed | RecipeSerializers.GetAmountIgnoresRecipe | Schema.PairAmountOfRow |
| backend/users/serializers.py:105 | `validate_password` calls `password_slug_validation`, which is defined nowhere, so registration raises `NameError` | password `chef` | call `password_slug_username_validation`, as `validate_new_password` does | not executed | UserSerializers.ValidatePasswordRejectsGoodPassword | UserSerializers.ValidatePassword |
