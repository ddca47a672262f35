/** Queries over the recipe table: every recipe, one author's recipes, and the
    text search, each ordered by a key that the caller names. The "rating"
    order sorts by a recipe's mean score, an unrated recipe counting as 0
    (COALESCE(AVG(score), 0)). */
module RecipeRepository {
  import opened Common
  import opened Records
  import opened Ordering
  import opened Like
  import opened RatingRepository

  /** The orders the recipe queries can produce. */
  datatype RecipeOrder = NewestFirst | OldestFirst | BestRated

  /** listAllRecipes and listAllUserRecipes: "recent" lists the newest recipe
      first; every other key, "highest" or not, sorts by mean score. */
  function ListingOrder(orderBy: string): (o: RecipeOrder)
    ensures o == NewestFirst <==> orderBy == "recent"
    ensures o != OldestFirst
  {
    if orderBy == "recent" then NewestFirst else BestRated
  }

  /** search: "older" and "newer" sort by creation time; every other key,
      "recent" included, sorts by mean score. */
  function SearchOrder(orderBy: string): (o: RecipeOrder)
    ensures o == OldestFirst <==> orderBy == "older"
    ensures o == NewestFirst <==> orderBy == "newer"
  {
    if orderBy == "older" then OldestFirst
    else if orderBy == "newer" then NewestFirst
    else BestRated
  }

  /** The ORDER BY expression of an order; the mean score reads the ratings table. */
  function OrderKey(o: RecipeOrder, ratings: seq<Rating>): Recipe -> real
  {
    if o == BestRated then (r: Recipe) => AverageScore(ratings, r.id)
    else (r: Recipe) => r.createdAt as real
  }

  function Descending(o: RecipeOrder): bool
  {
    o != OldestFirst
  }

  /** The rows of a query, in the order o. */
  function Ordered(rows: seq<Recipe>, o: RecipeOrder, ratings: seq<Rating>): (r: seq<Recipe>)
    ensures multiset(r) == multiset(rows)
    ensures SortedBy(r, OrderKey(o, ratings), Descending(o))
  {
    SortBy(rows, OrderKey(o, ratings), Descending(o))
  }

  /** listAllRecipes: every recipe once, in the listing order of orderBy. */
  function ListAllRecipes(recipes: seq<Recipe>, ratings: seq<Rating>, orderBy: string): (r: seq<Recipe>)
    ensures multiset(r) == multiset(recipes)
    ensures SortedBy(r, OrderKey(ListingOrder(orderBy), ratings), Descending(ListingOrder(orderBy)))
  {
    Ordered(recipes, ListingOrder(orderBy), ratings)
  }

  /** listAllUserRecipes: the recipes published by authorId, each once, in the
      listing order of orderBy. */
  function ListAllUserRecipes(recipes: seq<Recipe>, ratings: seq<Rating>, authorId: int, orderBy: string)
    : (r: seq<Recipe>)
    ensures forall x :: multiset(r)[x] == if x.ownerId == authorId then multiset(recipes)[x] else 0
    ensures SortedBy(r, OrderKey(ListingOrder(orderBy), ratings), Descending(ListingOrder(orderBy)))
  {
    Ordered(Filter(recipes, (x: Recipe) => x.ownerId == authorId), ListingOrder(orderBy), ratings)
  }

  /** The text the search looks in: CONCAT_WS(' ', titulo, ingredientes). */
  function SearchText(r: Recipe): string
  {
    r.titulo + " " + r.ingredientes
  }

  /** The search condition: the text is LIKE '%' || query || '%'. */
  predicate MatchesQuery(r: Recipe, query: string, eq: (char, char) -> bool)
  {
    Matches(SearchText(r), "%" + query + "%", eq)
  }

  /** search: the recipes matching the query, each once, in the search order
      of orderBy. */
  function Search(recipes: seq<Recipe>, ratings: seq<Rating>, query: string, orderBy: string,
                  eq: (char, char) -> bool): (r: seq<Recipe>)
    ensures forall x :: multiset(r)[x] == if MatchesQuery(x, query, eq) then multiset(recipes)[x] else 0
    ensures SortedBy(r, OrderKey(SearchOrder(orderBy), ratings), Descending(SearchOrder(orderBy)))
  {
    Ordered(Filter(recipes, (x: Recipe) => MatchesQuery(x, query, eq)), SearchOrder(orderBy), ratings)
  }

  /** How each listing key orders the recipes: "recent" newest first, anything
      else by mean score, best first, unrated recipes counting as 0. */
  lemma ListingOrders(recipes: seq<Recipe>, ratings: seq<Rating>, authorId: Option<int>, orderBy: string)
    ensures var r := if authorId.None? then ListAllRecipes(recipes, ratings, orderBy)
                     else ListAllUserRecipes(recipes, ratings, authorId.value, orderBy);
      forall i, j :: 0 <= i < j < |r| ==>
        if orderBy == "recent" then r[i].createdAt >= r[j].createdAt
        else AverageScore(ratings, r[i].id) >= AverageScore(ratings, r[j].id)
  {
    var r := if authorId.None? then ListAllRecipes(recipes, ratings, orderBy)
             else ListAllUserRecipes(recipes, ratings, authorId.value, orderBy);
    var o := ListingOrder(orderBy);
    forall i, j | 0 <= i < j < |r|
      ensures if orderBy == "recent" then r[i].createdAt >= r[j].createdAt
        else AverageScore(ratings, r[i].id) >= AverageScore(ratings, r[j].id)
    {
      assert InOrder(OrderKey(o, ratings), Descending(o), r[i], r[j]);
    }
  }

  /** How each search key orders the matches: "older" oldest first, "newer"
      newest first, anything else (also "recent") by mean score, best first. */
  lemma SearchOrders(recipes: seq<Recipe>, ratings: seq<Rating>, query: string, orderBy: string,
                     eq: (char, char) -> bool)
    ensures var r := Search(recipes, ratings, query, orderBy, eq);
      forall i, j :: 0 <= i < j < |r| ==>
        if orderBy == "older" then r[i].createdAt <= r[j].createdAt
        else if orderBy == "newer" then r[i].createdAt >= r[j].createdAt
        else AverageScore(ratings, r[i].id) >= AverageScore(ratings, r[j].id)
  {
    var r := Search(recipes, ratings, query, orderBy, eq);
    var o := SearchOrder(orderBy);
    forall i, j | 0 <= i < j < |r|
      ensures if orderBy == "older" then r[i].createdAt <= r[j].createdAt
        else if orderBy == "newer" then r[i].createdAt >= r[j].createdAt
        else AverageScore(ratings, r[i].id) >= AverageScore(ratings, r[j].id)
    {
      assert InOrder(OrderKey(o, ratings), Descending(o), r[i], r[j]);
    }
  }

  /** A recipe is listed for an author exactly when it is theirs. */
  lemma UserRecipesAreTheirs(recipes: seq<Recipe>, ratings: seq<Rating>, authorId: int, orderBy: string)
    ensures forall x ::
      (x in ListAllUserRecipes(recipes, ratings, authorId, orderBy) <==> x in recipes && x.ownerId == authorId)
  {
    var r := ListAllUserRecipes(recipes, ratings, authorId, orderBy);
    assert forall x :: x in r <==> multiset(r)[x] > 0;
    assert forall x :: x in recipes <==> multiset(recipes)[x] > 0;
  }

  /** For a query without LIKE wildcards, the search finds exactly the recipes
      whose title, a space and ingredients contain the query. */
  lemma SearchIsSubstring(recipes: seq<Recipe>, ratings: seq<Rating>, query: string, orderBy: string,
                          eq: (char, char) -> bool)
    requires NoWildcards(query)
    ensures forall x ::
      (x in Search(recipes, ratings, query, orderBy, eq) <==> x in recipes && Contains(SearchText(x), query, eq))
  {
    var r := Search(recipes, ratings, query, orderBy, eq);
    forall x
      ensures x in r <==> x in recipes && Contains(SearchText(x), query, eq)
    {
      assert x in r <==> multiset(r)[x] > 0;
      assert x in recipes <==> multiset(recipes)[x] > 0;
      LikeIsSubstring(SearchText(x), query, eq);
    }
  }

  /** A match may span the space joining title and ingredients: "o d" finds
      the recipe "Bolo" with ingredients "de milho". */
  lemma MatchSpansJoin(r: Recipe, eq: (char, char) -> bool)
    requires r.titulo == "Bolo" && r.ingredientes == "de milho"
    requires forall c :: eq(c, c)
    ensures MatchesQuery(r, "o d", eq)
  {
    var text := SearchText(r);
    assert text == "Bolo de milho";
    assert OccursAt(text, "o d", 3, eq) by {
      assert text[3] == 'o' && text[4] == ' ' && text[5] == 'd';
    }
    assert NoWildcards("o d");
    LikeIsSubstring(text, "o d", eq);
  }

  /** Two orderings of the same rows by the same key agree on every key: the
      queries leave only the order among ties open. */
  lemma OrderUniqueUpToTies(rows: seq<Recipe>, other: seq<Recipe>, o: RecipeOrder, ratings: seq<Rating>)
    requires multiset(other) == multiset(rows)
    requires SortedBy(other, OrderKey(o, ratings), Descending(o))
    ensures |other| == |Ordered(rows, o, ratings)|
    ensures forall i :: 0 <= i < |other| ==>
      OrderKey(o, ratings)(other[i]) == OrderKey(o, ratings)(Ordered(rows, o, ratings)[i])
  {
    SortedPermutationsAgreeOnKeys(other, Ordered(rows, o, ratings), OrderKey(o, ratings), Descending(o));
  }
}
