/** The filter sets of foodgram/filters.py. A queryset is the sequence of the
    keys it yields, in its order; every filter keeps some of them in that
    order. django-filter calls a filter only when its query parameter is given
    and not empty, so an absent or empty value leaves the queryset as it is. */
module Filters {
  import opened Common
  import opened Schema

  // ---------------------------------------------------------------------------
  // RecipeFilterSet.

  /** `queryset.filter(<ledger>__user=request.user)`, behind `if value:`. */
  function FilterByLedger(queryset: seq<RecipeId>, ledger: set<(UserId, RecipeId)>, requester: Requester, value: int)
    : (r: Result<seq<RecipeId>, LookupError>)
    ensures value == 0 ==> r == Success(queryset)
    ensures value != 0 ==> (r.Failure? <==> requester.Anonymous?)
    ensures value != 0 && r.Success? ==>
      forall id :: id in r.value <==> id in queryset && (requester.id, id) in ledger
    ensures r.Success? ==> Subsequence(r.value, queryset)
  {
    if value == 0 then SubsequenceReflexive(queryset); Success(queryset)
    else match requester
      case Anonymous => Failure(AnonymousUserLookup)
      case Member(user) =>
        FilterSubsequence(queryset, id => (user, id) in ledger);
        Success(Filter(queryset, id => (user, id) in ledger))
  }

  /** `filter_is_favorited`. */
  function FilterIsFavorited(t: Tables, queryset: seq<RecipeId>, requester: Requester, value: int)
    : (r: Result<seq<RecipeId>, LookupError>)
    ensures value == 0 ==> r == Success(queryset)
    ensures value != 0 ==> (r.Failure? <==> requester.Anonymous?)
    ensures value != 0 && r.Success? ==>
      forall id :: id in r.value <==> id in queryset && (requester.id, id) in t.favorites
  {
    FilterByLedger(queryset, t.favorites, requester, value)
  }

  /** `filter_is_in_shopping_cart`. */
  function FilterIsInShoppingCart(t: Tables, queryset: seq<RecipeId>, requester: Requester, value: int)
    : (r: Result<seq<RecipeId>, LookupError>)
    ensures value == 0 ==> r == Success(queryset)
    ensures value != 0 ==> (r.Failure? <==> requester.Anonymous?)
    ensures value != 0 && r.Success? ==>
      forall id :: id in r.value <==> id in queryset && (requester.id, id) in t.carts
  {
    FilterByLedger(queryset, t.carts, requester, value)
  }

  /** The recipe has a stored tag whose slug is `slug`. */
  predicate HasTagSlug(t: Tables, id: RecipeId, slug: string) {
    exists k :: 0 <= k < |t.recipeTags| && t.recipeTags[k].recipe == id
      && t.recipeTags[k].tag in t.tags && t.tags[t.recipeTags[k].tag].slug == slug
  }

  /** `tags = CharFilter(field_name='tags__slug')`. */
  function FilterTags(t: Tables, queryset: seq<RecipeId>, slug: string): (r: seq<RecipeId>)
    ensures slug == "" ==> r == queryset
    ensures slug != "" ==> forall id :: id in r <==> id in queryset && HasTagSlug(t, id, slug)
    ensures Subsequence(r, queryset)
  {
    if slug == "" then SubsequenceReflexive(queryset); queryset
    else
      FilterSubsequence(queryset, id => HasTagSlug(t, id, slug));
      Filter(queryset, id => HasTagSlug(t, id, slug))
  }

  /** `author = NumberFilter(field_name='author__id')`. */
  function FilterAuthor(t: Tables, queryset: seq<RecipeId>, author: int): (r: seq<RecipeId>)
    ensures forall id :: id in r <==> id in queryset && id in t.recipes && t.recipes[id].author == author
    ensures Subsequence(r, queryset)
  {
    FilterSubsequence(queryset, id => id in t.recipes && t.recipes[id].author == author);
    Filter(queryset, id => id in t.recipes && t.recipes[id].author == author)
  }

  /** The query parameters of the recipe list; `None` is a parameter not given. */
  datatype RecipeQuery = RecipeQuery(
    isFavorited: Option<int>,
    isInShoppingCart: Option<int>,
    tags: Option<string>,
    author: Option<int>)

  /** The condition a ledger parameter puts on a listed recipe. */
  predicate LedgerCondition(ledger: set<(UserId, RecipeId)>, user: UserId, value: Option<int>, id: RecipeId) {
    value.Some? && value.value != 0 ==> (user, id) in ledger
  }

  predicate TagsCondition(t: Tables, slug: Option<string>, id: RecipeId) {
    slug.Some? && slug.value != "" ==> HasTagSlug(t, id, slug.value)
  }

  predicate AuthorCondition(t: Tables, author: Option<int>, id: RecipeId) {
    author.Some? ==> id in t.recipes && t.recipes[id].author == author.value
  }

  /** What a recipe must satisfy to be listed: the condition of every given,
      non-empty parameter. */
  predicate Matches(t: Tables, user: UserId, query: RecipeQuery, id: RecipeId) {
    && LedgerCondition(t.favorites, user, query.isFavorited, id)
    && LedgerCondition(t.carts, user, query.isInShoppingCart, id)
    && TagsCondition(t, query.tags, id)
    && AuthorCondition(t, query.author, id)
  }

  /** A ledger filter, or nothing when its parameter is absent. */
  function LedgerStep(queryset: seq<RecipeId>, ledger: set<(UserId, RecipeId)>, requester: Requester, value: Option<int>)
    : (r: Result<seq<RecipeId>, LookupError>)
    ensures r.Failure? <==> requester.Anonymous? && value.Some? && value.value != 0
    ensures r.Success? ==> Subsequence(r.value, queryset)
    ensures r.Success? && requester.Member? ==>
      forall id :: id in r.value <==> id in queryset && LedgerCondition(ledger, requester.id, value, id)
  {
    if value.None? then SubsequenceReflexive(queryset); Success(queryset)
    else FilterByLedger(queryset, ledger, requester, value.value)
  }

  function TagsStep(t: Tables, queryset: seq<RecipeId>, slug: Option<string>): (r: seq<RecipeId>)
    ensures Subsequence(r, queryset)
    ensures forall id :: id in r <==> id in queryset && TagsCondition(t, slug, id)
  {
    if slug.None? then SubsequenceReflexive(queryset); queryset else FilterTags(t, queryset, slug.value)
  }

  function AuthorStep(t: Tables, queryset: seq<RecipeId>, author: Option<int>): (r: seq<RecipeId>)
    ensures Subsequence(r, queryset)
    ensures forall id :: id in r <==> id in queryset && AuthorCondition(t, author, id)
  {
    if author.None? then SubsequenceReflexive(queryset); queryset else FilterAuthor(t, queryset, author.value)
  }

  /** `RecipeFilterSet.qs`: the declared filters one after another. django-filter
      applies them in `Meta.fields` order (author, tags, cart, favourites); the
      model applies favourites, cart, tags, author. Each step keeps the
      queryset's order and only drops recipes, so the result (see
      `FilterRecipesMeaning`) and the failure condition do not depend on the
      order. It raises exactly when an anonymous request asks for its
      favourites or its cart. */
  function FilterRecipes(t: Tables, queryset: seq<RecipeId>, requester: Requester, query: RecipeQuery)
    : (r: Result<seq<RecipeId>, LookupError>)
    ensures r.Failure? <==>
      && requester.Anonymous?
      && ((query.isFavorited.Some? && query.isFavorited.value != 0)
          || (query.isInShoppingCart.Some? && query.isInShoppingCart.value != 0))
  {
    match LedgerStep(queryset, t.favorites, requester, query.isFavorited)
    case Failure(e) => Failure(e)
    case Success(q1) =>
      match LedgerStep(q1, t.carts, requester, query.isInShoppingCart)
      case Failure(e) => Failure(e)
      case Success(q2) => Success(AuthorStep(t, TagsStep(t, q2, query.tags), query.author))
  }

  /** For a logged-in user the recipe list is, in queryset order, exactly the
      recipes of the queryset matching every given parameter. */
  lemma FilterRecipesMeaning(t: Tables, queryset: seq<RecipeId>, user: UserId, query: RecipeQuery)
    ensures var r := FilterRecipes(t, queryset, Member(user), query);
      && r.Success?
      && Subsequence(r.value, queryset)
      && forall id :: id in r.value <==> id in queryset && Matches(t, user, query, id)
  {
    var q1 := LedgerStep(queryset, t.favorites, Member(user), query.isFavorited).value;
    var q2 := LedgerStep(q1, t.carts, Member(user), query.isInShoppingCart).value;
    var q3 := TagsStep(t, q2, query.tags);
    var q4 := AuthorStep(t, q3, query.author);
    assert FilterRecipes(t, queryset, Member(user), query) == Success(q4);
    SubsequenceTransitive(q2, q1, queryset);
    SubsequenceTransitive(q3, q2, queryset);
    SubsequenceTransitive(q4, q3, queryset);
  }

  // ---------------------------------------------------------------------------
  // IngredientFilterSet.

  /** ASCII upper case, as the database folds both sides of `istartswith`. */
  function Upper(c: char): (u: char)
    ensures 'a' <= c <= 'z' ==> u as int == c as int - 32
    ensures !('a' <= c <= 'z') ==> u == c
  {
    if 'a' <= c <= 'z' then (c as int - 32) as char else c
  }

  function UpperString(s: string): (u: string)
    ensures |u| == |s| && forall i :: 0 <= i < |s| ==> u[i] == Upper(s[i])
  {
    seq(|s|, i requires 0 <= i < |s| => Upper(s[i]))
  }

  /** `name__istartswith=value`, one character at a time. */
  predicate StartsWithIgnoringCase(name: string, value: string) {
    if value == [] then true
    else if name == [] then false
    else Upper(name[0]) == Upper(value[0]) && StartsWithIgnoringCase(name[1..], value[1..])
  }

  /** The character-wise definition is the prefix test on upper-cased text. */
  lemma {:induction false} StartsWithIgnoringCasePrefix(name: string, value: string)
    ensures StartsWithIgnoringCase(name, value) <==>
      |value| <= |name| && UpperString(name[..|value|]) == UpperString(value)
  {
    if value != [] && name != [] {
      StartsWithIgnoringCasePrefix(name[1..], value[1..]);
      if |value| <= |name| {
        var a, b := UpperString(name[..|value|]), UpperString(value);
        assert name[1..][..|value| - 1] == name[..|value|][1..];
        assert a == [a[0]] + a[1..] && b == [b[0]] + b[1..];
        assert a[1..] == UpperString(name[1..][..|value| - 1]);
        assert b[1..] == UpperString(value[1..]);
      }
    }
  }

  /** `filter_name`. */
  function FilterName(t: Tables, queryset: seq<IngredientId>, value: string): (r: seq<IngredientId>)
    ensures value == "" ==> r == queryset
    ensures value != "" ==>
      forall id :: id in r <==> id in queryset && id in t.ingredients && StartsWithIgnoringCase(t.ingredients[id].name, value)
    ensures Subsequence(r, queryset)
  {
    if value == "" then SubsequenceReflexive(queryset); queryset
    else
      FilterSubsequence(queryset, id => id in t.ingredients && StartsWithIgnoringCase(t.ingredients[id].name, value));
      Filter(queryset, id => id in t.ingredients && StartsWithIgnoringCase(t.ingredients[id].name, value))
  }

  /** Two values spelling the same letters in different cases select the same
      ingredients. */
  lemma {:induction false} StartsWithIgnoringCaseInvariant(name: string, v: string, w: string)
    requires UpperString(v) == UpperString(w)
    ensures StartsWithIgnoringCase(name, v) == StartsWithIgnoringCase(name, w)
  {
    if v != [] && name != [] {
      assert Upper(v[0]) == UpperString(v)[0] == UpperString(w)[0] == Upper(w[0]);
      assert UpperString(v[1..]) == UpperString(v)[1..] == UpperString(w)[1..] == UpperString(w[1..]);
      StartsWithIgnoringCaseInvariant(name[1..], v[1..], w[1..]);
    }
  }

  lemma FilterNameCaseInsensitive(t: Tables, queryset: seq<IngredientId>, v: string, w: string)
    requires UpperString(v) == UpperString(w)
    ensures FilterName(t, queryset, v) == FilterName(t, queryset, w)
  {
    forall name | true ensures StartsWithIgnoringCase(name, v) == StartsWithIgnoringCase(name, w) {
      StartsWithIgnoringCaseInvariant(name, v, w);
    }
    if v != "" {
      FilterCongruent(queryset,
        id => id in t.ingredients && StartsWithIgnoringCase(t.ingredients[id].name, v),
        id => id in t.ingredients && StartsWithIgnoringCase(t.ingredients[id].name, w));
    }
  }
}
