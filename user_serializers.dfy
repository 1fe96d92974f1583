/** The read-side derivations of users/serializers.py: the subscription flags,
    an author's recipes in minified form and their count, and the password
    field validators. */
module UserSerializers {
  import opened Common
  import opened Schema
  import opened Validators
  import UserViews

  // ---------------------------------------------------------------------------
  // Subscription flags.

  /** `UserGetSerializer.get_is_subscribed`: false for the anonymous user,
      otherwise whether the (user, author) row exists. */
  function UserIsSubscribed(t: Tables, requester: Requester, author: UserId): (b: bool)
    ensures b <==> requester.Member? && (requester.id, author) in t.subscriptions
  {
    match requester
    case Anonymous => false
    case Member(user) => (user, author) in t.subscriptions
  }

  /** `SubscriptionSerializer.get_is_subscribed` has no anonymous guard: the
      filter on `user=request.user` raises for the anonymous user. */
  function SubscriptionIsSubscribed(t: Tables, requester: Requester, author: UserId): (r: Result<bool, LookupError>)
    ensures r.Failure? <==> requester.Anonymous?
    ensures r.Success? ==> (r.value <==> (requester.id, author) in t.subscriptions)
  {
    match requester
    case Anonymous => Failure(AnonymousUserLookup)
    case Member(user) => Success((user, author) in t.subscriptions)
  }

  /** The two flags agree for a logged-in user and part ways for the anonymous
      one. */
  lemma SubscribedFlagsAgree(t: Tables, requester: Requester, author: UserId)
    ensures requester.Member? ==> SubscriptionIsSubscribed(t, requester, author) == Success(UserIsSubscribed(t, requester, author))
    ensures requester.Anonymous? ==> !UserIsSubscribed(t, requester, author) && SubscriptionIsSubscribed(t, requester, author).Failure?
  {
  }

  /** The flag follows the subscribe and unsubscribe views. */
  lemma FlagFollowsSubscriptions(t: Tables, user: UserId, author: UserId)
    requires user in t.users
    ensures UserViews.SubscribeSpec(t, user, author).0 == Ok ==>
      UserIsSubscribed(UserViews.SubscribeSpec(t, user, author).1, Member(user), author)
    ensures UserViews.UnsubscribeSpec(t, user, author).0 == NoContent ==>
      !UserIsSubscribed(UserViews.UnsubscribeSpec(t, user, author).1, Member(user), author)
  {
    UserViews.SubscribeOutcomes(t, user, author);
    UserViews.UnsubscribeOutcomes(t, user, author);
  }

  // ---------------------------------------------------------------------------
  // An author's recipes.

  /** `RecipeMinifiedSerializer`: the four fields it exposes. */
  datatype MinifiedRecipe = MinifiedRecipe(id: RecipeId, name: string, image: string, cookingTime: int)

  /** `Recipe.objects.filter(author=obj)`, reading the recipe table in the
      order `order` (the table has no declared ordering). */
  function AuthorRecipeIds(t: Tables, author: UserId, order: seq<RecipeId>): (ids: seq<RecipeId>)
    ensures forall id :: id in ids <==> id in order && id in t.recipes && t.recipes[id].author == author
    ensures Subsequence(ids, order)
  {
    FilterSubsequence(order, id => id in t.recipes && t.recipes[id].author == author);
    Filter(order, id => id in t.recipes && t.recipes[id].author == author)
  }

  /** `get_recipes`: each of the author's recipes, minified, in table order. */
  function GetRecipes(t: Tables, author: UserId, order: seq<RecipeId>): (r: seq<MinifiedRecipe>)
    ensures var ids := AuthorRecipeIds(t, author, order);
      && |r| == |ids|
      && forall i :: 0 <= i < |r| ==>
        && r[i].id == ids[i] && r[i].id in t.recipes && t.recipes[r[i].id].author == author
        && r[i] == MinifiedRecipe(r[i].id, t.recipes[r[i].id].name, t.recipes[r[i].id].image, t.recipes[r[i].id].cookingTime)
  {
    var ids := AuthorRecipeIds(t, author, order);
    seq(|ids|, i requires 0 <= i < |ids| =>
      assert ids[i] in ids;
      var recipe := t.recipes[ids[i]];
      MinifiedRecipe(ids[i], recipe.name, recipe.image, recipe.cookingTime))
  }

  /** `get_recipes_count`: `recipes.count()`. */
  function GetRecipesCount(t: Tables, author: UserId): nat {
    |AuthoredBy(t, author)|
  }

  /** When `order` is the recipe table read once, `recipes` lists every recipe
      of the author exactly once, so `recipes_count` is its length. */
  lemma RecipesCountIsListingLength(t: Tables, author: UserId, order: seq<RecipeId>)
    requires Enumerates(order, t.recipes.Keys)
    ensures GetRecipesCount(t, author) == |GetRecipes(t, author, order)|
    ensures Distinct(AuthorRecipeIds(t, author, order))
  {
    var ids := AuthorRecipeIds(t, author, order);
    FilterPreservesDistinct(order, id => id in t.recipes && t.recipes[id].author == author);
    DistinctCard(ids);
    assert Elements(ids) == AuthoredBy(t, author);
  }

  // ---------------------------------------------------------------------------
  // Password validators. `validate_new_password` is `Validators.ValidatedField`.

  /** What `UserCreateSerializer.validate_password` can raise. */
  datatype PasswordError = Invalid(check: Check) | NameError

  /** `UserCreateSerializer.validate_password` as written: the name it calls,
      `password_slug_validation`, is defined nowhere, so every call raises
      `NameError`, which the `except ValidationError` clause does not catch. */
  function ValidatePasswordAsWritten(value: string): (r: Result<string, PasswordError>)
    ensures r.Failure? && r.error == NameError
  {
    Failure(NameError)
  }

  /** `validate_password` calling `password_slug_username_validation`, as
      `validate_new_password` does. */
  function ValidatePassword(value: string): (r: Result<string, PasswordError>)
    ensures r.Success? <==> FieldPatternMatches(value)
    ensures r.Success? ==> r.value == value
    ensures r.Failure? ==> r.error == Invalid(Reject(Some("invalid_field")))
  {
    match ValidatedField(value)
    case Success(v) => Success(v)
    case Failure(check) => Failure(Invalid(check))
  }

  /** A password the charset accepts is refused as written. */
  lemma ValidatePasswordRejectsGoodPassword()
    ensures ValidatePassword("chef") == Success("chef")
    ensures ValidatePasswordAsWritten("chef") == Failure(NameError)
  {
    assert AllInCharset("chef") by {
      assert forall i :: 0 <= i < |"chef"| ==> IsWordChar("chef"[i]);
    }
  }
}
