/** The relational schema of foodgram/models.py and users/models.py: one
    datatype per row kind, the whole database as one `Tables` value, the
    database-level constraints (unique keys, foreign keys, the subscription
    check run by `full_clean`) as `Valid`, and the model validators and save
    guards as functions.

    Row order in `recipeIngredients` and `recipeTags` is primary-key order:
    bulk inserts append and deletions keep the order of what remains, so the
    first matching row of a sequence is what `.first()` returns. */
module Schema {
  import opened Common
  import opened Validators

  type UserId = nat
  type RecipeId = nat
  type IngredientId = nat
  type TagId = nat

  // Limits of foodgram/models.py.
  const MIN_VALUE_1: int := 1
  const MAX_VALUE_1440: int := 1440
  const MAX_VALUE_10000: int := 10000

  /** The fields of `users.User` this model needs (names and password hash are left out). */
  datatype User = User(username: string, email: string)

  datatype Ingredient = Ingredient(name: string, measurementUnit: string)

  datatype Tag = Tag(name: string, color: string, slug: string)

  datatype Recipe = Recipe(author: UserId, name: string, text: string, image: string, cookingTime: int)

  /** A `RecipeIngredient` join row. `amount` is unbounded: bulk inserts skip the
      field validators, so nothing in the database keeps it in range. */
  datatype RecipeIngredient = RecipeIngredient(recipe: RecipeId, ingredient: IngredientId, amount: int)

  datatype RecipeTag = RecipeTag(recipe: RecipeId, tag: TagId)

  /** The database. Favourites, shopping cart and subscriptions are sets of
      (user, recipe) and (user, author) pairs: a set cannot hold a pair twice,
      which is their unique constraint. `nextRecipeId` is the primary-key
      sequence of the recipe table: the id the next inserted recipe receives. */
  datatype Tables = Tables(
    users: map<UserId, User>,
    recipes: map<RecipeId, Recipe>,
    ingredients: map<IngredientId, Ingredient>,
    tags: map<TagId, Tag>,
    recipeIngredients: seq<RecipeIngredient>,
    recipeTags: seq<RecipeTag>,
    favorites: set<(UserId, RecipeId)>,
    carts: set<(UserId, RecipeId)>,
    subscriptions: set<(UserId, UserId)>,
    nextRecipeId: RecipeId)

  /** The user a request comes from: `request.user` is either the anonymous
      user or a stored one. */
  datatype Requester = Anonymous | Member(id: UserId)

  // ---------------------------------------------------------------------------
  // Field validators.

  /** Django's `MinValueValidator(limit)`: raises when the value is below the limit. */
  predicate MinValueValidator(limit: int, value: int) {
    !(value < limit)
  }

  /** Django's `MaxValueValidator(limit)`: raises when the value is above the limit. */
  predicate MaxValueValidator(limit: int, value: int) {
    !(value > limit)
  }

  /** The validators of `Recipe.cooking_time`. */
  function CookingTimeValid(minutes: int): (ok: bool)
    ensures ok <==> 1 <= minutes <= 1440
  {
    MinValueValidator(MIN_VALUE_1, minutes) && MaxValueValidator(MAX_VALUE_1440, minutes)
  }

  /** The validators of `RecipeIngredient.amount`. */
  function AmountValid(amount: int): (ok: bool)
    ensures ok <==> 1 <= amount <= 10000
  {
    MinValueValidator(MIN_VALUE_1, amount) && MaxValueValidator(MAX_VALUE_10000, amount)
  }

  /** `validate_non_empty`: raises exactly when the collection counts no element. */
  function ValidateNonEmpty(count: nat): (r: Check)
    ensures r.Accept? <==> count > 0
    ensures r.Reject? ==> r.code.None?
  {
    if count == 0 then Reject(None) else Accept
  }

  // ---------------------------------------------------------------------------
  // Keys of the join rows and the rows of one recipe.

  function IngredientKey(row: RecipeIngredient): (RecipeId, IngredientId) {
    (row.recipe, row.ingredient)
  }

  function TagKey(row: RecipeTag): (RecipeId, TagId) {
    (row.recipe, row.tag)
  }

  /** `recipe.recipeingredient_set`, in primary-key order. */
  function IngredientRowsOf(rows: seq<RecipeIngredient>, id: RecipeId): (r: seq<RecipeIngredient>)
    ensures forall row :: row in r <==> row in rows && row.recipe == id
  {
    Filter(rows, (row: RecipeIngredient) => row.recipe == id)
  }

  /** `recipe.recipetag_set`, in primary-key order. */
  function TagRowsOf(rows: seq<RecipeTag>, id: RecipeId): (r: seq<RecipeTag>)
    ensures forall row :: row in r <==> row in rows && row.recipe == id
  {
    Filter(rows, (row: RecipeTag) => row.recipe == id)
  }

  /** The rows `recipe.ingredients.clear()` leaves behind. */
  function IngredientRowsNotOf(rows: seq<RecipeIngredient>, id: RecipeId): (r: seq<RecipeIngredient>)
    ensures forall row :: row in r <==> row in rows && row.recipe != id
  {
    Filter(rows, (row: RecipeIngredient) => row.recipe != id)
  }

  /** The rows `recipe.tags.clear()` leaves behind. */
  function TagRowsNotOf(rows: seq<RecipeTag>, id: RecipeId): (r: seq<RecipeTag>)
    ensures forall row :: row in r <==> row in rows && row.recipe != id
  {
    Filter(rows, (row: RecipeTag) => row.recipe != id)
  }

  lemma IngredientRowsOfAppend(a: seq<RecipeIngredient>, b: seq<RecipeIngredient>, id: RecipeId)
    ensures IngredientRowsOf(a + b, id) == IngredientRowsOf(a, id) + IngredientRowsOf(b, id)
    ensures IngredientRowsNotOf(a + b, id) == IngredientRowsNotOf(a, id) + IngredientRowsNotOf(b, id)
  {
    FilterAppend(a, b, (row: RecipeIngredient) => row.recipe == id);
    FilterAppend(a, b, (row: RecipeIngredient) => row.recipe != id);
  }

  lemma TagRowsOfAppend(a: seq<RecipeTag>, b: seq<RecipeTag>, id: RecipeId)
    ensures TagRowsOf(a + b, id) == TagRowsOf(a, id) + TagRowsOf(b, id)
    ensures TagRowsNotOf(a + b, id) == TagRowsNotOf(a, id) + TagRowsNotOf(b, id)
  {
    FilterAppend(a, b, (row: RecipeTag) => row.recipe == id);
    FilterAppend(a, b, (row: RecipeTag) => row.recipe != id);
  }

  /** Rows that all belong to one recipe: selecting that recipe keeps them all,
      clearing it keeps none. */
  lemma IngredientRowsOfOwn(rows: seq<RecipeIngredient>, id: RecipeId)
    requires forall i :: 0 <= i < |rows| ==> rows[i].recipe == id
    ensures IngredientRowsOf(rows, id) == rows
    ensures IngredientRowsNotOf(rows, id) == []
  {
    FilterKeepsAll(rows, (row: RecipeIngredient) => row.recipe == id);
    FilterKeepsNone(rows, (row: RecipeIngredient) => row.recipe != id);
  }

  lemma TagRowsOfOwn(rows: seq<RecipeTag>, id: RecipeId)
    requires forall i :: 0 <= i < |rows| ==> rows[i].recipe == id
    ensures TagRowsOf(rows, id) == rows
    ensures TagRowsNotOf(rows, id) == []
  {
    FilterKeepsAll(rows, (row: RecipeTag) => row.recipe == id);
    FilterKeepsNone(rows, (row: RecipeTag) => row.recipe != id);
  }

  /** Rows of which none belongs to a recipe. */
  lemma IngredientRowsOfForeign(rows: seq<RecipeIngredient>, id: RecipeId)
    requires forall i :: 0 <= i < |rows| ==> rows[i].recipe != id
    ensures IngredientRowsOf(rows, id) == []
    ensures IngredientRowsNotOf(rows, id) == rows
  {
    FilterKeepsNone(rows, (row: RecipeIngredient) => row.recipe == id);
    FilterKeepsAll(rows, (row: RecipeIngredient) => row.recipe != id);
  }

  lemma TagRowsOfForeign(rows: seq<RecipeTag>, id: RecipeId)
    requires forall i :: 0 <= i < |rows| ==> rows[i].recipe != id
    ensures TagRowsOf(rows, id) == []
    ensures TagRowsNotOf(rows, id) == rows
  {
    FilterKeepsNone(rows, (row: RecipeTag) => row.recipe == id);
    FilterKeepsAll(rows, (row: RecipeTag) => row.recipe != id);
  }

  /** Clearing one recipe's rows leaves every other recipe's rows as they were. */
  lemma IngredientRowsOfOther(rows: seq<RecipeIngredient>, id: RecipeId, other: RecipeId)
    requires other != id
    ensures IngredientRowsOf(IngredientRowsNotOf(rows, id), other) == IngredientRowsOf(rows, other)
  {
    FilterThrough(rows, (row: RecipeIngredient) => row.recipe != id, (row: RecipeIngredient) => row.recipe == other);
  }

  lemma TagRowsOfOther(rows: seq<RecipeTag>, id: RecipeId, other: RecipeId)
    requires other != id
    ensures TagRowsOf(TagRowsNotOf(rows, id), other) == TagRowsOf(rows, other)
  {
    FilterThrough(rows, (row: RecipeTag) => row.recipe != id, (row: RecipeTag) => row.recipe == other);
  }

  predicate HasTags(t: Tables, id: RecipeId) {
    |TagRowsOf(t.recipeTags, id)| > 0
  }

  /** The amount stored for the pair (recipe, ingredient): that of the first
      row carrying the pair, if any. */
  function PairAmount(rows: seq<RecipeIngredient>, recipe: RecipeId, ingredient: IngredientId): (r: Option<int>)
    ensures r.None? <==> forall k :: 0 <= k < |rows| ==> IngredientKey(rows[k]) != (recipe, ingredient)
  {
    if rows == [] then None
    else if IngredientKey(rows[0]) == (recipe, ingredient) then Some(rows[0].amount)
    else
      var r := PairAmount(rows[1..], recipe, ingredient);
      assert forall k :: 1 <= k < |rows| ==> rows[k] == rows[1..][k - 1];
      r
  }

  /** With the pair unique, the amount stored for a row's pair is the row's own. */
  lemma {:induction false} PairAmountOfRow(rows: seq<RecipeIngredient>, k: nat)
    requires UniqueBy(rows, IngredientKey) && k < |rows|
    ensures PairAmount(rows, rows[k].recipe, rows[k].ingredient) == Some(rows[k].amount)
  {
    if k > 0 {
      assert IngredientKey(rows[0]) != IngredientKey(rows[k]);
      assert rows[1..][k - 1] == rows[k];
      assert UniqueBy(rows[1..], IngredientKey) by {
        forall i, j | 0 <= i < j < |rows[1..]| ensures IngredientKey(rows[1..][i]) != IngredientKey(rows[1..][j]) {
          assert rows[1..][i] == rows[i + 1] && rows[1..][j] == rows[j + 1];
        }
      }
      PairAmountOfRow(rows[1..], k - 1);
    }
  }

  predicate HasIngredients(t: Tables, id: RecipeId) {
    |IngredientRowsOf(t.recipeIngredients, id)| > 0
  }

  /** The recipes `Recipe.author` ties to a user. */
  function AuthoredBy(t: Tables, user: UserId): (ids: set<RecipeId>)
    ensures forall id :: id in ids <==> id in t.recipes && t.recipes[id].author == user
  {
    set id | id in t.recipes && t.recipes[id].author == user
  }

  /** Filtering a user column by the anonymous user raises: it has no id the
      integer column could take. */
  datatype LookupError = AnonymousUserLookup

  // ---------------------------------------------------------------------------
  // Database constraints.

  /** `unique_name_measurement_unit`: an ingredient row is exactly its
      (name, measurement_unit) pair, so no two ingredients are equal. */
  predicate IngredientsUnique(ingredients: map<IngredientId, Ingredient>) {
    forall a, b {:trigger ingredients[a], ingredients[b]} :: a in ingredients && b in ingredients && a != b ==> ingredients[a] != ingredients[b]
  }

  /** `Tag.name` and `Tag.slug` are unique; the slug passes its charset validator. */
  predicate TagsWellFormed(tags: map<TagId, Tag>) {
    && (forall a, b {:trigger tags[a].name, tags[b].name} :: a in tags && b in tags && a != b ==> tags[a].name != tags[b].name)
    && (forall a, b {:trigger tags[a].slug, tags[b].slug} :: a in tags && b in tags && a != b ==> tags[a].slug != tags[b].slug)
    && (forall a :: a in tags ==> FieldPatternMatches(tags[a].slug))
  }

  /** `User.email` and `User.username` are unique; the username passes the
      charset validator. */
  predicate UsersWellFormed(users: map<UserId, User>) {
    && (forall a, b {:trigger users[a].email, users[b].email} :: a in users && b in users && a != b ==> users[a].email != users[b].email)
    && (forall a, b {:trigger users[a].username, users[b].username} :: a in users && b in users && a != b ==> users[a].username != users[b].username)
    && (forall a :: a in users ==> FieldPatternMatches(users[a].username))
  }

  /** `unique_recipe_ingredient` and `unique_recipe_tag`. */
  predicate JoinRowsUnique(t: Tables) {
    UniqueBy(t.recipeIngredients, IngredientKey) && UniqueBy(t.recipeTags, TagKey)
  }

  /** Every foreign key points at an existing row. */
  predicate ReferencesExist(t: Tables) {
    && (forall id :: id in t.recipes ==> t.recipes[id].author in t.users)
    && (forall row :: row in t.recipeIngredients ==> row.recipe in t.recipes && row.ingredient in t.ingredients)
    && (forall row :: row in t.recipeTags ==> row.recipe in t.recipes && row.tag in t.tags)
    && (forall p :: p in t.favorites ==> p.0 in t.users && p.1 in t.recipes)
    && (forall p :: p in t.carts ==> p.0 in t.users && p.1 in t.recipes)
    && (forall p :: p in t.subscriptions ==> p.0 in t.users && p.1 in t.users)
  }

  /** `Subscription.clean`, run by `full_clean` on every save: no self-subscription. */
  predicate NoSelfSubscription(subscriptions: set<(UserId, UserId)>) {
    forall p :: p in subscriptions ==> p.0 != p.1
  }

  /** The primary-key sequence is ahead of every stored recipe id. */
  predicate SequenceAhead(t: Tables) {
    forall id :: id in t.recipes ==> id < t.nextRecipeId
  }

  predicate Valid(t: Tables) {
    && SequenceAhead(t)
    && UsersWellFormed(t.users)
    && IngredientsUnique(t.ingredients)
    && TagsWellFormed(t.tags)
    && JoinRowsUnique(t)
    && ReferencesExist(t)
    && NoSelfSubscription(t.subscriptions)
  }

  /** The key the recipe sequence hands out next is unused: no recipe and no
      join row carries it. */
  predicate NextKeyUnused(t: Tables) {
    t.nextRecipeId !in t.recipes && !HasIngredients(t, t.nextRecipeId) && !HasTags(t, t.nextRecipeId)
  }

  /** The constraints guarantee it: every join row points at a stored recipe,
      and every stored recipe's key is below the sequence. */
  lemma FreshRecipeHasNoRows(t: Tables)
    requires Valid(t)
    ensures NextKeyUnused(t)
  {
    var id := t.nextRecipeId;
    forall i | 0 <= i < |t.recipeIngredients| ensures t.recipeIngredients[i].recipe != id {
      assert t.recipeIngredients[i] in t.recipeIngredients;
    }
    forall i | 0 <= i < |t.recipeTags| ensures t.recipeTags[i].recipe != id {
      assert t.recipeTags[i] in t.recipeTags;
    }
    IngredientRowsOfForeign(t.recipeIngredients, id);
    TagRowsOfForeign(t.recipeTags, id);
  }

  // ---------------------------------------------------------------------------
  // Model hooks.

  datatype RecipeError =
    | MissingTag          // `Recipe.clean`: no tag chosen
    | MissingIngredient   // `Recipe.clean`: no ingredient chosen
    | MissingComposition  // `Recipe.save`: no tag or no ingredient
    | UnsavedInstance     // a many-to-many manager used before the recipe has a primary key

  /** `Recipe.clean`: reports a missing tag before a missing ingredient. */
  function RecipeClean(t: Tables, id: RecipeId): (r: Result<(), RecipeError>)
    ensures r.Success? <==> HasTags(t, id) && HasIngredients(t, id)
    ensures r == Failure(MissingTag) <==> !HasTags(t, id)
    ensures r == Failure(MissingIngredient) <==> HasTags(t, id) && !HasIngredients(t, id)
  {
    if !HasTags(t, id) then Failure(MissingTag)
    else if !HasIngredients(t, id) then Failure(MissingIngredient)
    else Success(())
  }

  /** `Recipe.save`. The guard reads `self.tags` and `self.ingredients`; on an
      instance without a primary key (`pk == None`, a recipe being created)
      Django refuses to build those managers and raises before the guard can
      even be evaluated. For a stored recipe the guard demands a tag and an
      ingredient, and then the row is written. */
  function RecipeSave(t: Tables, pk: Option<RecipeId>, recipe: Recipe): (r: Result<Tables, RecipeError>)
    ensures pk.None? ==> r == Failure(UnsavedInstance)
    ensures pk.Some? ==> (r.Success? <==> HasTags(t, pk.value) && HasIngredients(t, pk.value))
    ensures r.Success? ==> r.value == t.(recipes := t.recipes[pk.value := recipe])
  {
    match pk
    case None => Failure(UnsavedInstance)
    case Some(id) =>
      if !HasTags(t, id) || !HasIngredients(t, id) then Failure(MissingComposition)
      else Success(t.(recipes := t.recipes[id := recipe]))
  }

  /** `Subscription.save`: `full_clean` runs the field checks (both users must
      exist), `clean` (no self-subscription) and the unique constraint before
      the row is inserted. */
  function SubscriptionSave(t: Tables, user: UserId, author: UserId): (r: Result<Tables, Check>)
    ensures r.Success? <==> user in t.users && author in t.users && user != author && (user, author) !in t.subscriptions
    ensures r.Success? ==> r.value == t.(subscriptions := t.subscriptions + {(user, author)})
  {
    if user !in t.users || author !in t.users then Failure(Reject(None))
    else if user == author then Failure(Reject(None))
    else if (user, author) in t.subscriptions then Failure(Reject(Some("unique")))
    else Success(t.(subscriptions := t.subscriptions + {(user, author)}))
  }

  /** Whatever the database holds, `Subscription.save` never stores a self-edge. */
  lemma SubscriptionSaveKeepsValid(t: Tables, user: UserId, author: UserId)
    requires Valid(t)
    requires SubscriptionSave(t, user, author).Success?
    ensures Valid(SubscriptionSave(t, user, author).value)
    ensures user != author
  {
  }
}
