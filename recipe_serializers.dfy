/** The read-side derivations of foodgram/serializers.py: the membership flags
    of a recipe, the amount shown next to an ingredient, the tag field
    validators and the data-URI header split of `Base64ImageField`. */
module RecipeSerializers {
  import opened Common
  import opened Schema
  import opened Validators
  import UserViews

  // ---------------------------------------------------------------------------
  // Membership flags.

  /** `get_is_favorited`: the filter on `user=request.user` raises for the
      anonymous user; otherwise the flag is whether the pair is stored. */
  function IsFavorited(t: Tables, requester: Requester, recipe: RecipeId): (r: Result<bool, LookupError>)
    ensures r.Failure? <==> requester.Anonymous?
    ensures r.Success? ==> (r.value <==> (requester.id, recipe) in t.favorites)
  {
    match requester
    case Anonymous => Failure(AnonymousUserLookup)
    case Member(user) => Success((user, recipe) in t.favorites)
  }

  /** `get_is_in_shopping_cart`. */
  function IsInShoppingCart(t: Tables, requester: Requester, recipe: RecipeId): (r: Result<bool, LookupError>)
    ensures r.Failure? <==> requester.Anonymous?
    ensures r.Success? ==> (r.value <==> (requester.id, recipe) in t.carts)
  {
    match requester
    case Anonymous => Failure(AnonymousUserLookup)
    case Member(user) => Success((user, recipe) in t.carts)
  }

  /** The flags follow the ledger views: a favourite or cart entry just added
      shows as set, one just removed as cleared. */
  lemma FlagsFollowLedgers(t: Tables, user: UserId, recipe: RecipeId)
    ensures UserViews.AddEntry(t, UserViews.Favorites, user, recipe).0 == Created ==>
      IsFavorited(UserViews.AddEntry(t, UserViews.Favorites, user, recipe).1, Member(user), recipe) == Success(true)
    ensures UserViews.RemoveEntry(t, UserViews.Favorites, user, recipe).0 == NoContent ==>
      IsFavorited(UserViews.RemoveEntry(t, UserViews.Favorites, user, recipe).1, Member(user), recipe) == Success(false)
    ensures UserViews.AddEntry(t, UserViews.Cart, user, recipe).0 == Created ==>
      IsInShoppingCart(UserViews.AddEntry(t, UserViews.Cart, user, recipe).1, Member(user), recipe) == Success(true)
    ensures UserViews.RemoveEntry(t, UserViews.Cart, user, recipe).0 == NoContent ==>
      IsInShoppingCart(UserViews.RemoveEntry(t, UserViews.Cart, user, recipe).1, Member(user), recipe) == Success(false)
  {
    UserViews.AddEntryOutcomes(t, UserViews.Favorites, user, recipe);
    UserViews.RemoveEntryOutcomes(t, UserViews.Favorites, user, recipe);
    UserViews.AddEntryOutcomes(t, UserViews.Cart, user, recipe);
    UserViews.RemoveEntryOutcomes(t, UserViews.Cart, user, recipe);
  }

  // ---------------------------------------------------------------------------
  // The amount next to an ingredient.

  /** `get_amount`: `obj.recipeingredient_set.first()` is the first row, in
      primary-key order, naming the ingredient, whichever recipe it belongs to. */
  function GetAmount(rows: seq<RecipeIngredient>, ingredient: IngredientId): (r: Option<int>)
    ensures r.None? <==> forall k :: 0 <= k < |rows| ==> rows[k].ingredient != ingredient
    ensures r.Some? ==> exists k :: 0 <= k < |rows| && rows[k].ingredient == ingredient && rows[k].amount == r.value
  {
    if rows == [] then None
    else if rows[0].ingredient == ingredient then Some(rows[0].amount)
    else
      var r := GetAmount(rows[1..], ingredient);
      assert forall k :: 1 <= k < |rows| ==> rows[k] == rows[1..][k - 1];
      r
  }

  /** Where the first row naming `ingredient` sits. */
  function FirstIndexOf(rows: seq<RecipeIngredient>, ingredient: IngredientId): (k: nat)
    requires exists k :: 0 <= k < |rows| && rows[k].ingredient == ingredient
    ensures k < |rows| && rows[k].ingredient == ingredient
    ensures forall j :: 0 <= j < k ==> rows[j].ingredient != ingredient
  {
    if rows[0].ingredient == ingredient then 0
    else
      assert forall k :: 1 <= k < |rows| ==> rows[k] == rows[1..][k - 1];
      1 + FirstIndexOf(rows[1..], ingredient)
  }

  /** `get_amount` shows the amount of the ingredient's first row. */
  lemma {:induction false} GetAmountIsFirst(rows: seq<RecipeIngredient>, ingredient: IngredientId)
    requires exists k :: 0 <= k < |rows| && rows[k].ingredient == ingredient
    ensures GetAmount(rows, ingredient) == Some(rows[FirstIndexOf(rows, ingredient)].amount)
  {
    if rows[0].ingredient != ingredient {
      assert forall k :: 1 <= k < |rows| ==> rows[k] == rows[1..][k - 1];
      assert rows[1..][FirstIndexOf(rows[1..], ingredient)] == rows[FirstIndexOf(rows, ingredient)];
      GetAmountIsFirst(rows[1..], ingredient);
    }
  }

  /** The amount `get_amount` shows is the recipe's own exactly when no earlier
      row of another recipe names the ingredient: when the ingredient's first
      row belongs to the recipe being shown. */
  lemma {:induction false} GetAmountIsPairAmount(rows: seq<RecipeIngredient>, recipe: RecipeId, ingredient: IngredientId)
    requires UniqueBy(rows, IngredientKey)
    requires exists k :: 0 <= k < |rows| && rows[k].ingredient == ingredient
    ensures rows[FirstIndexOf(rows, ingredient)].recipe == recipe ==>
      GetAmount(rows, ingredient) == PairAmount(rows, recipe, ingredient)
  {
    var k := FirstIndexOf(rows, ingredient);
    GetAmountIsFirst(rows, ingredient);
    if rows[k].recipe == recipe {
      PairAmountOfRow(rows, k);
    }
  }

  /** Two recipes sharing salt: the second recipe's block shows the first
      recipe's amount. */
  lemma GetAmountIgnoresRecipe()
    ensures var rows := [RecipeIngredient(1, 5, 100), RecipeIngredient(2, 5, 300)];
      && UniqueBy(rows, IngredientKey)
      && GetAmount(rows, 5) == Some(100)
      && PairAmount(rows, 2, 5) == Some(300)
  {
    var rows := [RecipeIngredient(1, 5, 100), RecipeIngredient(2, 5, 300)];
    assert rows[1..] == [RecipeIngredient(2, 5, 300)];
  }

  // ---------------------------------------------------------------------------
  // Tag field validators. `validate_slug` is `Validators.ValidatedField`.

  /** `validate_color`, with the colour-name table of `webcolors` as `hexToName`. */
  function ValidateColor(hexToName: map<string, string>, value: string): (r: Result<string, Check>)
    ensures r.Success? <==> value in hexToName
    ensures r.Success? ==> r.value == value
  {
    match HexNameColorValidator(hexToName, value)
    case Accept => Success(value)
    case Reject(code) => Failure(Reject(code))
  }

  // ---------------------------------------------------------------------------
  // Python's `str.split` with a non-empty separator, and its inverse `join`.

  predicate StartsWith(s: string, prefix: string) {
    |prefix| <= |s| && s[..|prefix|] == prefix
  }

  predicate OccursAt(s: string, sep: string, i: nat) {
    i + |sep| <= |s| && s[i..i + |sep|] == sep
  }

  /** `sep in s` is false. */
  predicate Free(s: string, sep: string) {
    forall i: nat :: i <= |s| ==> !OccursAt(s, sep, i)
  }

  /** `s.split(sep)`: cut at every occurrence of `sep`, scanning left to right. */
  function Split(s: string, sep: string): (parts: seq<string>)
    requires sep != ""
    ensures |parts| >= 1
    decreases |s|
  {
    if |s| < |sep| then [s]
    else if s[..|sep|] == sep then [""] + Split(s[|sep|..], sep)
    else
      var rest := Split(s[1..], sep);
      [[s[0]] + rest[0]] + rest[1..]
  }

  /** `sep.join(parts)`. */
  function Join(parts: seq<string>, sep: string): string
    requires |parts| >= 1
  {
    if |parts| == 1 then parts[0] else parts[0] + sep + Join(parts[1..], sep)
  }

  lemma {:induction false} SplitJoin(s: string, sep: string)
    requires sep != ""
    ensures Join(Split(s, sep), sep) == s
    decreases |s|
  {
    if |s| >= |sep| {
      if s[..|sep|] == sep {
        var rest := Split(s[|sep|..], sep);
        SplitJoin(s[|sep|..], sep);
        assert Split(s, sep) == [""] + rest;
        JoinEmptyFirst(rest, sep);
        assert s == s[..|sep|] + s[|sep|..];
      } else {
        var rest := Split(s[1..], sep);
        SplitJoin(s[1..], sep);
        assert Split(s, sep) == [[s[0]] + rest[0]] + rest[1..];
        JoinConsChar(s[0], rest, sep);
        assert s == [s[0]] + s[1..];
      }
    }
  }

  /** An empty first part contributes only the separator after it. */
  lemma JoinEmptyFirst(rest: seq<string>, sep: string)
    requires |rest| >= 1
    ensures Join([""] + rest, sep) == sep + Join(rest, sep)
  {
    assert ([""] + rest)[1..] == rest;
  }

  /** A character put in front of the first part comes first in the text. */
  lemma JoinConsChar(c: char, rest: seq<string>, sep: string)
    requires |rest| >= 1
    ensures Join([[c] + rest[0]] + rest[1..], sep) == [c] + Join(rest, sep)
  {
    var parts := [[c] + rest[0]] + rest[1..];
    if |rest| > 1 {
      assert parts[1..] == rest[1..];
      var tail := sep + Join(rest[1..], sep);
      assert Join(rest, sep) == rest[0] + tail;
      assert Join(parts, sep) == ([c] + rest[0]) + tail;
      assert ([c] + rest[0]) + tail == [c] + (rest[0] + tail);
    }
  }

  /** A joined text begins with its first part. */
  lemma {:induction false} JoinStartsWithFirst(parts: seq<string>, sep: string)
    requires |parts| >= 1
    ensures StartsWith(Join(parts, sep), parts[0])
  {
    if |parts| > 1 {
      var tail := sep + Join(parts[1..], sep);
      assert Join(parts, sep) == parts[0] + tail;
      assert (parts[0] + tail)[..|parts[0]|] == parts[0];
    }
  }

  /** A joined text ends with its last part. */
  lemma {:induction false} JoinEndsWithLast(parts: seq<string>, sep: string)
    requires |parts| >= 1
    ensures var j, last := Join(parts, sep), parts[|parts| - 1];
      |last| <= |j| && j[|j| - |last|..] == last
  {
    if |parts| > 1 {
      JoinEndsWithLast(parts[1..], sep);
      var head, rest := parts[0] + sep, Join(parts[1..], sep);
      assert Join(parts, sep) == head + rest;
      assert parts[1..][|parts[1..]| - 1] == parts[|parts| - 1];
      var last := parts[|parts| - 1];
      assert (head + rest)[|head + rest| - |last|..] == rest[|rest| - |last|..];
    }
  }

  /** No part contains the separator. */
  lemma {:induction false} SplitPartsFree(s: string, sep: string)
    requires sep != ""
    ensures forall k :: 0 <= k < |Split(s, sep)| ==> Free(Split(s, sep)[k], sep)
    decreases |s|
  {
    var parts := Split(s, sep);
    if |s| < |sep| {
      forall i: nat ensures !OccursAt(s, sep, i) {
      }
    } else if s[..|sep|] == sep {
      SplitPartsFree(s[|sep|..], sep);
      var rest := Split(s[|sep|..], sep);
      forall k | 0 <= k < |parts| ensures Free(parts[k], sep) {
        if k > 0 {
          assert parts[k] == rest[k - 1];
        }
      }
    } else {
      SplitPartsFree(s[1..], sep);
      var rest := Split(s[1..], sep);
      var first := [s[0]] + rest[0];
      assert Free(rest[0], sep);
      SplitJoin(s, sep);
      JoinStartsWithFirst(parts, sep);
      forall i: nat ensures !OccursAt(first, sep, i) {
        if i > 0 && OccursAt(first, sep, i) {
          assert first[i..i + |sep|] == rest[0][i - 1..i - 1 + |sep|];
          assert OccursAt(rest[0], sep, i - 1);
        }
      }
      forall k | 0 <= k < |parts| ensures Free(parts[k], sep) {
        if k > 0 {
          assert parts[k] == rest[k];
        }
      }
    }
  }

  /** A text without the separator splits into itself alone; a text with it
      into at least two parts. */
  lemma SplitSingle(s: string, sep: string)
    requires sep != ""
    ensures |Split(s, sep)| == 1 <==> Free(s, sep)
  {
    var parts := Split(s, sep);
    SplitJoin(s, sep);
    SplitPartsFree(s, sep);
    if |parts| > 1 {
      var head := parts[0] + sep;
      assert s == head + Join(parts[1..], sep);
      assert s[|parts[0]|..|parts[0]| + |sep|] == sep;
      assert OccursAt(s, sep, |parts[0]|);
    }
  }

  // ---------------------------------------------------------------------------
  // Base64ImageField.to_internal_value.

  const DATA_IMAGE: string := "data:image"
  const BASE64_MARK: string := ";base64,"

  /** The JSON value given for the image field. */
  datatype Payload = Text(s: string) | NonText

  /** What reaches `ImageField.to_internal_value`: a file named after the
      header's extension, holding the base64 text (its decoding is not part of
      this model), or the value as it came. */
  datatype ImageInput = Upload(name: string, encoded: string) | Parent(data: Payload)

  /** The two-name unpack `format, imgstr = ...` raises `ValueError` when the
      split does not give exactly two parts. */
  datatype UnpackError = UnpackError(parts: nat)

  /** `format.split('/')[-1]`: the text after the last '/', or all of it. */
  function Extension(header: string): (ext: string)
    ensures forall i :: 0 <= i < |ext| ==> ext[i] != '/'
    ensures |ext| <= |header| && header[|header| - |ext|..] == ext
  {
    var parts := Split(header, "/");
    var ext := parts[|parts| - 1];
    SplitPartsFree(header, "/");
    SplitJoin(header, "/");
    JoinEndsWithLast(parts, "/");
    assert forall i :: 0 <= i < |ext| ==> ext[i] != '/' by {
      forall i | 0 <= i < |ext| ensures ext[i] != '/' {
        assert !OccursAt(ext, "/", i);
        assert ext[i..i + 1] == [ext[i]];
      }
    }
    ext
  }

  function ToInternalValue(data: Payload): (r: Result<ImageInput, UnpackError>)
    ensures !(data.Text? && StartsWith(data.s, DATA_IMAGE)) ==> r == Success(Parent(data))
    ensures data.Text? && StartsWith(data.s, DATA_IMAGE) ==>
      (r.Failure? <==> |Split(data.s, BASE64_MARK)| != 2)
    ensures r.Success? && data.Text? && StartsWith(data.s, DATA_IMAGE) ==> r.value.Upload?
  {
    if data.Text? && StartsWith(data.s, DATA_IMAGE) then
      var parts := Split(data.s, BASE64_MARK);
      if |parts| != 2 then Failure(UnpackError(|parts|))
      else Success(Upload("temp." + Extension(parts[0]), parts[1]))
    else Success(Parent(data))
  }

  /** A data URI with exactly one `;base64,` is cut there: the header before it
      and the payload after it hold none, the file name is "temp." and the
      header's text after its last '/'. */
  lemma UploadSplitsAtMark(data: Payload)
    requires ToInternalValue(data).Success? && ToInternalValue(data).value.Upload?
    ensures var u := ToInternalValue(data).value;
      var header := Split(data.s, BASE64_MARK)[0];
      && data.s == header + BASE64_MARK + u.encoded
      && StartsWith(header, DATA_IMAGE)
    ensures var u := ToInternalValue(data).value;
      var header := Split(data.s, BASE64_MARK)[0];
      && Free(header, BASE64_MARK) && Free(u.encoded, BASE64_MARK)
      && u.name == "temp." + Extension(header)
  {
    var parts := Split(data.s, BASE64_MARK);
    SplitJoin(data.s, BASE64_MARK);
    SplitPartsFree(data.s, BASE64_MARK);
    assert Join(parts, BASE64_MARK) == parts[0] + BASE64_MARK + parts[1] by {
      assert parts[1..] == [parts[1]];
    }
    HeaderKeepsPrefix(data.s, parts[0], parts[1]);
  }

  /** The text before the first `;` of a `data:image` string still starts with
      `data:image`, which holds no `;`. */
  lemma HeaderKeepsPrefix(s: string, header: string, rest: string)
    requires s == header + BASE64_MARK + rest && StartsWith(s, DATA_IMAGE)
    ensures StartsWith(header, DATA_IMAGE)
  {
    assert forall i :: 0 <= i < |DATA_IMAGE| ==> s[i] == DATA_IMAGE[i] != ';';
    assert s[|header|] == ';';
    assert |header| >= |DATA_IMAGE|;
    assert s[..|DATA_IMAGE|] == header[..|DATA_IMAGE|];
  }

  /** A data URI without `;base64,` makes the unpack raise. */
  lemma NoMarkRaises(s: string)
    requires StartsWith(s, DATA_IMAGE) && Free(s, BASE64_MARK)
    ensures ToInternalValue(Text(s)).Failure?
  {
    SplitSingle(s, BASE64_MARK);
  }
}
