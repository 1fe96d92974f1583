/** users/views.py: the three membership ledgers. `FavoriteView` and
    `AddDeleteRecipesShoppingCartView` add and remove (user, recipe) rows,
    `AddDeleteUserSubscribeView` adds and removes (user, author) rows, and
    `SubscriptionViewSet.get_queryset` lists the authors a user follows.

    Each view is a method on the database object whose contract ties its
    answer and the new tables to a function of the tables it started from;
    the lemmas below are about those functions. The requesting user is a
    stored user (authentication is not part of this model). */
module UserViews {
  import opened Common
  import opened Schema
  import opened Store

  /** The two (user, recipe) ledgers, which the views treat identically. */
  datatype Ledger = Favorites | Cart

  function Rows(t: Tables, ledger: Ledger): set<(UserId, RecipeId)> {
    match ledger
    case Favorites => t.favorites
    case Cart => t.carts
  }

  /** The tables with one ledger's rows replaced. */
  function WithRows(t: Tables, ledger: Ledger, rows: set<(UserId, RecipeId)>): (t': Tables)
    ensures Rows(t', ledger) == rows
  {
    match ledger
    case Favorites => t.(favorites := rows)
    case Cart => t.(carts := rows)
  }

  /** `post`: 404 for an unknown recipe, 400 when the row is already there,
      otherwise the row is created and the answer is 201. */
  function AddEntry(t: Tables, ledger: Ledger, user: UserId, recipe: RecipeId): (Status, Tables) {
    if recipe !in t.recipes then (NotFound, t)
    else if (user, recipe) in Rows(t, ledger) then (BadRequest, t)
    else (Created, WithRows(t, ledger, Rows(t, ledger) + {(user, recipe)}))
  }

  /** `delete`: 404 for an unknown recipe or a missing row, otherwise the row
      is deleted and the answer is 204. */
  function RemoveEntry(t: Tables, ledger: Ledger, user: UserId, recipe: RecipeId): (Status, Tables) {
    if recipe !in t.recipes then (NotFound, t)
    else if (user, recipe) !in Rows(t, ledger) then (NotFound, t)
    else (NoContent, WithRows(t, ledger, Rows(t, ledger) - {(user, recipe)}))
  }

  // ---------------------------------------------------------------------------
  // The four views.

  /** `FavoriteView.post`. */
  method FavoritePost(db: Database, user: UserId, recipe: RecipeId) returns (status: Status)
    requires db.Valid() && user in db.users
    modifies db
    ensures db.Valid()
    ensures (status, db.Snapshot()) == AddEntry(old(db.Snapshot()), Favorites, user, recipe)
  {
    AddEntryKeepsValid(db.Snapshot(), Favorites, user, recipe);
    if recipe !in db.recipes {
      return NotFound;
    }
    if (user, recipe) in db.favorites {
      return BadRequest;
    }
    db.favorites := db.favorites + {(user, recipe)};
    status := Created;
  }

  /** `FavoriteView.delete`. */
  method FavoriteDelete(db: Database, user: UserId, recipe: RecipeId) returns (status: Status)
    requires db.Valid()
    modifies db
    ensures db.Valid()
    ensures (status, db.Snapshot()) == RemoveEntry(old(db.Snapshot()), Favorites, user, recipe)
  {
    RemoveEntryKeepsValid(db.Snapshot(), Favorites, user, recipe);
    if recipe !in db.recipes {
      return NotFound;
    }
    if (user, recipe) !in db.favorites {
      return NotFound;
    }
    db.favorites := db.favorites - {(user, recipe)};
    status := NoContent;
  }

  /** `AddDeleteRecipesShoppingCartView.post`. */
  method CartPost(db: Database, user: UserId, recipe: RecipeId) returns (status: Status)
    requires db.Valid() && user in db.users
    modifies db
    ensures db.Valid()
    ensures (status, db.Snapshot()) == AddEntry(old(db.Snapshot()), Cart, user, recipe)
  {
    AddEntryKeepsValid(db.Snapshot(), Cart, user, recipe);
    if recipe !in db.recipes {
      return NotFound;
    }
    if (user, recipe) in db.carts {
      return BadRequest;
    }
    db.carts := db.carts + {(user, recipe)};
    status := Created;
  }

  /** `AddDeleteRecipesShoppingCartView.delete`. */
  method CartDelete(db: Database, user: UserId, recipe: RecipeId) returns (status: Status)
    requires db.Valid()
    modifies db
    ensures db.Valid()
    ensures (status, db.Snapshot()) == RemoveEntry(old(db.Snapshot()), Cart, user, recipe)
  {
    RemoveEntryKeepsValid(db.Snapshot(), Cart, user, recipe);
    if recipe !in db.recipes {
      return NotFound;
    }
    if (user, recipe) !in db.carts {
      return NotFound;
    }
    db.carts := db.carts - {(user, recipe)};
    status := NoContent;
  }

  // ---------------------------------------------------------------------------
  // The (user, recipe) state machine.

  /** Adding answers 404 exactly for an unknown recipe, 400 exactly for a row
      already present, and otherwise 201 with exactly that row inserted; only
      the 201 changes anything, and then only that ledger. */
  lemma AddEntryOutcomes(t: Tables, ledger: Ledger, user: UserId, recipe: RecipeId)
    ensures var r := AddEntry(t, ledger, user, recipe);
      && (r.0 == NotFound <==> recipe !in t.recipes)
      && (r.0 == BadRequest <==> recipe in t.recipes && (user, recipe) in Rows(t, ledger))
      && (r.0 == Created <==> recipe in t.recipes && (user, recipe) !in Rows(t, ledger))
      && (r.0 != Created ==> r.1 == t)
      && (r.0 == Created ==>
            && Rows(r.1, ledger) - Rows(t, ledger) == {(user, recipe)}
            && Rows(t, ledger) <= Rows(r.1, ledger)
            && r.1 == WithRows(t, ledger, Rows(r.1, ledger)))
  {
  }

  /** Removing answers 404 exactly for an unknown recipe or a missing row, and
      otherwise 204 with exactly that row deleted and every other row kept. */
  lemma RemoveEntryOutcomes(t: Tables, ledger: Ledger, user: UserId, recipe: RecipeId)
    ensures var r := RemoveEntry(t, ledger, user, recipe);
      && (r.0 == NotFound <==> recipe !in t.recipes || (user, recipe) !in Rows(t, ledger))
      && (r.0 == NoContent <==> recipe in t.recipes && (user, recipe) in Rows(t, ledger))
      && (r.0 != NoContent ==> r.1 == t)
      && (r.0 == NoContent ==>
            && Rows(t, ledger) - Rows(r.1, ledger) == {(user, recipe)}
            && Rows(r.1, ledger) <= Rows(t, ledger)
            && r.1 == WithRows(t, ledger, Rows(r.1, ledger)))
  {
  }

  /** A second add of the same pair answers 400 and changes nothing. */
  lemma AddTwiceRejected(t: Tables, ledger: Ledger, user: UserId, recipe: RecipeId)
    requires AddEntry(t, ledger, user, recipe).0 == Created
    ensures var t1 := AddEntry(t, ledger, user, recipe).1;
      AddEntry(t1, ledger, user, recipe) == (BadRequest, t1)
  {
    var t1 := AddEntry(t, ledger, user, recipe).1;
    assert (user, recipe) in Rows(t1, ledger);
    RecipesUntouched(t, ledger, Rows(t1, ledger));
  }

  /** A remove right after a successful add answers 204 and gives back the
      tables the add started from. */
  lemma AddThenRemoveRestores(t: Tables, ledger: Ledger, user: UserId, recipe: RecipeId)
    requires AddEntry(t, ledger, user, recipe).0 == Created
    ensures RemoveEntry(AddEntry(t, ledger, user, recipe).1, ledger, user, recipe) == (NoContent, t)
  {
    var rows := Rows(t, ledger) + {(user, recipe)};
    RecipesUntouched(t, ledger, rows);
    assert rows - {(user, recipe)} == Rows(t, ledger);
    WithRowsOwn(t, ledger);
  }

  /** An add right after a successful remove answers 201 and gives back the
      tables the remove started from. */
  lemma RemoveThenAddRestores(t: Tables, ledger: Ledger, user: UserId, recipe: RecipeId)
    requires RemoveEntry(t, ledger, user, recipe).0 == NoContent
    ensures AddEntry(RemoveEntry(t, ledger, user, recipe).1, ledger, user, recipe) == (Created, t)
  {
    var rows := Rows(t, ledger) - {(user, recipe)};
    RecipesUntouched(t, ledger, rows);
    assert rows + {(user, recipe)} == Rows(t, ledger);
    WithRowsOwn(t, ledger);
  }

  /** A second remove of the same pair answers 404 and changes nothing. */
  lemma RemoveTwiceNotFound(t: Tables, ledger: Ledger, user: UserId, recipe: RecipeId)
    requires RemoveEntry(t, ledger, user, recipe).0 == NoContent
    ensures var t1 := RemoveEntry(t, ledger, user, recipe).1;
      RemoveEntry(t1, ledger, user, recipe) == (NotFound, t1)
  {
  }

  /** The favourites and the shopping cart are independent: an add or remove
      on one leaves the other's rows as they were. */
  lemma LedgersIndependent(t: Tables, ledger: Ledger, other: Ledger, user: UserId, recipe: RecipeId)
    requires ledger != other
    ensures Rows(AddEntry(t, ledger, user, recipe).1, other) == Rows(t, other)
    ensures Rows(RemoveEntry(t, ledger, user, recipe).1, other) == Rows(t, other)
  {
  }

  lemma RecipesUntouched(t: Tables, ledger: Ledger, rows: set<(UserId, RecipeId)>)
    ensures WithRows(t, ledger, rows).recipes == t.recipes
    ensures WithRows(WithRows(t, ledger, rows), ledger, Rows(t, ledger)) == t
  {
  }

  lemma WithRowsOwn(t: Tables, ledger: Ledger)
    ensures WithRows(t, ledger, Rows(t, ledger)) == t
  {
  }

  /** An add by a stored user keeps every constraint: the row's user and
      recipe exist and a set holds the pair at most once. */
  lemma AddEntryKeepsValid(t: Tables, ledger: Ledger, user: UserId, recipe: RecipeId)
    requires Valid(t) && user in t.users
    ensures Valid(AddEntry(t, ledger, user, recipe).1)
  {
    var r := AddEntry(t, ledger, user, recipe);
    if r.0 == Created {
      var t' := r.1;
      assert t'.recipes == t.recipes && t'.users == t.users;
      assert t'.recipeIngredients == t.recipeIngredients && t'.recipeTags == t.recipeTags;
      assert ReferencesExist(t') by {
        assert forall p :: p in Rows(t', ledger) ==> p == (user, recipe) || p in Rows(t, ledger);
      }
    }
  }

  lemma RemoveEntryKeepsValid(t: Tables, ledger: Ledger, user: UserId, recipe: RecipeId)
    requires Valid(t)
    ensures Valid(RemoveEntry(t, ledger, user, recipe).1)
  {
    var t' := RemoveEntry(t, ledger, user, recipe).1;
    assert t'.recipes == t.recipes && t'.users == t.users;
    assert t'.recipeIngredients == t.recipeIngredients && t'.recipeTags == t.recipeTags;
  }

  // ---------------------------------------------------------------------------
  // Subscriptions.

  /** `AddDeleteUserSubscribeView.post`: 404 for an unknown author, 400 for
      the user themself, 400 for an existing subscription, otherwise the row
      goes through `Subscription.save` (whose `full_clean` raises a Django
      `ValidationError`, a 500, if it still objects) and the answer is 200. */
  function SubscribeSpec(t: Tables, user: UserId, author: UserId): (Status, Tables) {
    if author !in t.users then (NotFound, t)
    else if author == user then (BadRequest, t)
    else if (user, author) in t.subscriptions then (BadRequest, t)
    else match SubscriptionSave(t, user, author)
      case Failure(_) => (ServerError, t)
      case Success(t') => (Ok, t')
  }

  /** `AddDeleteUserSubscribeView.delete`: 404 for an unknown author or a
      missing subscription, otherwise the row is deleted and the answer is 204. */
  function UnsubscribeSpec(t: Tables, user: UserId, author: UserId): (Status, Tables) {
    if author !in t.users then (NotFound, t)
    else if (user, author) !in t.subscriptions then (NotFound, t)
    else (NoContent, t.(subscriptions := t.subscriptions - {(user, author)}))
  }

  method SubscribePost(db: Database, user: UserId, author: UserId) returns (status: Status)
    requires db.Valid() && user in db.users
    modifies db
    ensures db.Valid()
    ensures (status, db.Snapshot()) == SubscribeSpec(old(db.Snapshot()), user, author)
  {
    if author !in db.users {
      return NotFound;
    }
    if author == user {
      return BadRequest;
    }
    if (user, author) in db.subscriptions {
      return BadRequest;
    }
    SubscriptionSaveKeepsValid(db.Snapshot(), user, author);
    db.subscriptions := db.subscriptions + {(user, author)};
    status := Ok;
  }

  method SubscribeDelete(db: Database, user: UserId, author: UserId) returns (status: Status)
    requires db.Valid()
    modifies db
    ensures db.Valid()
    ensures (status, db.Snapshot()) == UnsubscribeSpec(old(db.Snapshot()), user, author)
  {
    UnsubscribeKeepsValid(db.Snapshot(), user, author);
    if author !in db.users {
      return NotFound;
    }
    if (user, author) !in db.subscriptions {
      return NotFound;
    }
    db.subscriptions := db.subscriptions - {(user, author)};
    status := NoContent;
  }

  /** For a stored user the checks decide in order: unknown author 404, self
      400, duplicate 400; a call passing all three inserts exactly the
      (user, author) row and answers 200, and nothing else changes. The save
      step never objects after the view's own checks. */
  lemma SubscribeOutcomes(t: Tables, user: UserId, author: UserId)
    requires user in t.users
    ensures var r := SubscribeSpec(t, user, author);
      && (r.0 == NotFound <==> author !in t.users)
      && (r.0 == BadRequest <==> author in t.users && (author == user || (user, author) in t.subscriptions))
      && (r.0 == Ok <==> author in t.users && author != user && (user, author) !in t.subscriptions)
      && r.0 != ServerError
      && (r.0 != Ok ==> r.1 == t)
      && (r.0 == Ok ==>
            && r.1 == t.(subscriptions := t.subscriptions + {(user, author)})
            && (user, author) !in t.subscriptions)
  {
  }

  /** Nobody can follow themself, whatever the tables hold. */
  lemma SelfSubscribeRejected(t: Tables, user: UserId)
    ensures SubscribeSpec(t, user, user).0 != Ok
    ensures SubscribeSpec(t, user, user).1 == t
  {
  }

  /** Unsubscribing answers 404 exactly for an unknown author or a missing
      row, otherwise 204 with exactly that row removed. */
  lemma UnsubscribeOutcomes(t: Tables, user: UserId, author: UserId)
    ensures var r := UnsubscribeSpec(t, user, author);
      && (r.0 == NotFound <==> author !in t.users || (user, author) !in t.subscriptions)
      && (r.0 == NoContent <==> author in t.users && (user, author) in t.subscriptions)
      && (r.0 != NoContent ==> r.1 == t)
      && (r.0 == NoContent ==>
            && t.subscriptions - r.1.subscriptions == {(user, author)}
            && r.1.subscriptions <= t.subscriptions
            && r.1 == t.(subscriptions := r.1.subscriptions))
  {
  }

  /** Subscribing twice: the second call answers 400 and changes nothing. */
  lemma SubscribeTwiceRejected(t: Tables, user: UserId, author: UserId)
    requires SubscribeSpec(t, user, author).0 == Ok
    ensures var t1 := SubscribeSpec(t, user, author).1;
      SubscribeSpec(t1, user, author) == (BadRequest, t1)
  {
  }

  /** Unsubscribing right after subscribing gives back the original tables. */
  lemma SubscribeThenUnsubscribeRestores(t: Tables, user: UserId, author: UserId)
    requires SubscribeSpec(t, user, author).0 == Ok
    ensures UnsubscribeSpec(SubscribeSpec(t, user, author).1, user, author) == (NoContent, t)
  {
    assert (t.subscriptions + {(user, author)}) - {(user, author)} == t.subscriptions;
  }

  lemma UnsubscribeKeepsValid(t: Tables, user: UserId, author: UserId)
    requires Valid(t)
    ensures Valid(UnsubscribeSpec(t, user, author).1)
  {
    var t' := UnsubscribeSpec(t, user, author).1;
    assert t'.recipes == t.recipes && t'.users == t.users;
    assert t'.recipeIngredients == t.recipeIngredients && t'.recipeTags == t.recipeTags;
  }

  lemma SubscribeKeepsValid(t: Tables, user: UserId, author: UserId)
    requires Valid(t)
    ensures Valid(SubscribeSpec(t, user, author).1)
  {
    if SubscribeSpec(t, user, author).0 == Ok {
      SubscriptionSaveKeepsValid(t, user, author);
    }
  }

  // ---------------------------------------------------------------------------
  // The subscriptions listing.

  /** `get_queryset`: the author of every subscription row, in row order. */
  function SubscriptionAuthors(rows: seq<(UserId, UserId)>): (authors: seq<UserId>)
    ensures |authors| == |rows|
  {
    seq(|rows|, i requires 0 <= i < |rows| => rows[i].1)
  }

  /** The user's own subscription rows, in the order the database hands them
      back (`Subscription` is ordered by user only, so the order among one
      user's rows is the database's). */
  ghost predicate FollowerRows(t: Tables, user: UserId, order: seq<(UserId, UserId)>) {
    Enumerates(order, set p | p in t.subscriptions && p.0 == user)
  }

  /** The listing holds exactly the authors the user follows, one per
      subscription row and none twice. */
  lemma SubscriptionListing(t: Tables, user: UserId, order: seq<(UserId, UserId)>)
    requires FollowerRows(t, user, order)
    ensures var authors := SubscriptionAuthors(order);
      && (forall a :: a in authors <==> (user, a) in t.subscriptions)
      && Distinct(authors)
      && |authors| == |set p | p in t.subscriptions && p.0 == user|
  {
    var authors := SubscriptionAuthors(order);
    forall a ensures a in authors <==> (user, a) in t.subscriptions {
      if a in authors {
        var i :| 0 <= i < |authors| && authors[i] == a;
        assert order[i] in order;
      }
      if (user, a) in t.subscriptions {
        assert (user, a) in order;
        var i :| 0 <= i < |order| && order[i] == (user, a);
        assert authors[i] == a;
      }
    }
    forall i, j | 0 <= i < j < |authors| ensures authors[i] != authors[j] {
      assert order[i] in order && order[j] in order;
    }
    DistinctCard(order);
    assert Elements(order) == (set p | p in t.subscriptions && p.0 == user);
  }
}
