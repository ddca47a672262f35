/** Queries over the ratings table: a recipe's ratings in one of three orders,
    a user's rating of a recipe, and the count and mean score of a recipe's
    ratings. */
module RatingRepository {
  import opened Common
  import opened Records
  import opened Ordering

  /** The three orders a listing may ask for. */
  datatype RatingSort = HighestScore | LowestScore | MostRecent

  /** SORT_OPTIONS.getOrDefault(orderBy, "recent"): unknown keys sort by recency. */
  function SortOption(orderBy: string): RatingSort
  {
    if orderBy == "highest" then HighestScore
    else if orderBy == "lowest" then LowestScore
    else MostRecent
  }

  function SortKey(s: RatingSort): Rating -> real
  {
    if s == MostRecent then (r: Rating) => r.createdAt as real else (r: Rating) => r.score as real
  }

  function IsDescending(s: RatingSort): bool
  {
    s != LowestScore
  }

  /** The ratings of one recipe, in table order. */
  function RatingsOf(ratings: seq<Rating>, recipeId: int): (r: seq<Rating>)
    ensures forall x :: x in r <==> x in ratings && x.recipeId == recipeId
    ensures forall x :: multiset(r)[x] == if x.recipeId == recipeId then multiset(ratings)[x] else 0
  {
    var r := Filter(ratings, (x: Rating) => x.recipeId == recipeId);
    assert forall x :: x in r <==> multiset(r)[x] > 0;
    r
  }

  /** listAllRecipeRatings: every rating of the recipe, each once, in the order
      orderBy names. */
  function ListAllRecipeRatings(ratings: seq<Rating>, recipeId: int, orderBy: string): (r: seq<Rating>)
    ensures multiset(r) == multiset(RatingsOf(ratings, recipeId))
    ensures forall x :: x in r <==> x in ratings && x.recipeId == recipeId
    ensures SortedBy(r, SortKey(SortOption(orderBy)), IsDescending(SortOption(orderBy)))
  {
    var s := SortOption(orderBy);
    var r := SortBy(RatingsOf(ratings, recipeId), SortKey(s), IsDescending(s));
    assert forall x :: x in r <==> x in multiset(r);
    r
  }

  /** "highest" lists scores from best to worst, "lowest" the reverse, and
      anything else lists the newest rating first. */
  lemma ListingOrders(ratings: seq<Rating>, recipeId: int, orderBy: string)
    ensures var r := ListAllRecipeRatings(ratings, recipeId, orderBy);
      forall i, j :: 0 <= i < j < |r| ==>
        if orderBy == "highest" then r[i].score >= r[j].score
        else if orderBy == "lowest" then r[i].score <= r[j].score
        else r[i].createdAt >= r[j].createdAt
  {
    var r := ListAllRecipeRatings(ratings, recipeId, orderBy);
    var s := SortOption(orderBy);
    forall i, j | 0 <= i < j < |r|
      ensures if orderBy == "highest" then r[i].score >= r[j].score
        else if orderBy == "lowest" then r[i].score <= r[j].score
        else r[i].createdAt >= r[j].createdAt
    {
      assert InOrder(SortKey(s), IsDescending(s), r[i], r[j]);
    }
  }

  /** getUserRating: the first rating of the recipe by the user, if any. */
  function GetUserRating(ratings: seq<Rating>, userId: int, recipeId: int): (r: Option<Rating>)
    ensures r.Some? ==> r.value in ratings && r.value.userId == userId && r.value.recipeId == recipeId
    ensures r.None? <==> forall x :: x in ratings ==> !(x.userId == userId && x.recipeId == recipeId)
  {
    var i := FirstWhere(ratings, (x: Rating) => x.userId == userId && x.recipeId == recipeId);
    if i.Some? then Some(ratings[i.value]) else None
  }

  function ExistsByUserAndRecipeId(ratings: seq<Rating>, userId: int, recipeId: int): (b: bool)
    ensures b <==> exists x :: x in ratings && x.userId == userId && x.recipeId == recipeId
  {
    GetUserRating(ratings, userId, recipeId).Some?
  }

  /** ratingCount: how many ratings the recipe has. */
  function RatingCount(ratings: seq<Rating>, recipeId: int): (n: nat)
    ensures n <= |ratings|
    ensures n == 0 <==> forall x :: x in ratings ==> x.recipeId != recipeId
  {
    if |ratings| == 0 then 0
    else
      assert forall x :: x in ratings ==> x == ratings[0] || x in ratings[1..];
      (if ratings[0].recipeId == recipeId then 1 else 0) + RatingCount(ratings[1..], recipeId)
  }

  /** The total of the recipe's scores. */
  function ScoreSum(ratings: seq<Rating>, recipeId: int): int
  {
    if |ratings| == 0 then 0
    else (if ratings[0].recipeId == recipeId then ratings[0].score else 0) + ScoreSum(ratings[1..], recipeId)
  }

  /** calculateAverageScore: 0 without ratings, otherwise the mean score (AVG
      over the integer scores, taken exactly). */
  function AverageScore(ratings: seq<Rating>, recipeId: int): (avg: real)
    ensures RatingCount(ratings, recipeId) == 0 ==> avg == 0.0
    ensures RatingCount(ratings, recipeId) > 0 ==>
      avg * RatingCount(ratings, recipeId) as real == ScoreSum(ratings, recipeId) as real
  {
    var n := RatingCount(ratings, recipeId);
    if n == 0 then 0.0 else ScoreSum(ratings, recipeId) as real / n as real
  }

  /** The count is the length of the listing. */
  lemma {:induction false} CountIsListingLength(ratings: seq<Rating>, recipeId: int, orderBy: string)
    ensures RatingCount(ratings, recipeId) == |ListAllRecipeRatings(ratings, recipeId, orderBy)|
  {
    CountMatchesMultiset(ratings, recipeId);
    var r := ListAllRecipeRatings(ratings, recipeId, orderBy);
    assert |r| == |multiset(r)|;
  }

  /** The count, seen through multisets: the number of the recipe's ratings. */
  lemma {:induction false} CountMatchesMultiset(ratings: seq<Rating>, recipeId: int)
    ensures RatingCount(ratings, recipeId) == |multiset(RatingsOf(ratings, recipeId))|
    ensures RatingCount(ratings, recipeId) == |RatingsOf(ratings, recipeId)|
  {
    if |ratings| > 0 {
      CountMatchesMultiset(ratings[1..], recipeId);
      var x := ratings[0];
      assert ratings == [x] + ratings[1..];
      var m, m' := multiset(RatingsOf(ratings, recipeId)), multiset(RatingsOf(ratings[1..], recipeId));
      if x.recipeId == recipeId {
        assert m == m' + multiset{x};
      } else {
        assert m == m';
      }
    }
  }

  /** Persisting one more rating adds one to its recipe's count and its score
      to the recipe's total, and leaves every other recipe's figures alone. */
  lemma {:induction false} AppendRating(ratings: seq<Rating>, x: Rating, recipeId: int)
    ensures RatingCount(ratings + [x], recipeId)
      == RatingCount(ratings, recipeId) + (if x.recipeId == recipeId then 1 else 0)
    ensures ScoreSum(ratings + [x], recipeId)
      == ScoreSum(ratings, recipeId) + (if x.recipeId == recipeId then x.score else 0)
  {
    if |ratings| > 0 {
      assert (ratings + [x])[1..] == ratings[1..] + [x];
      AppendRating(ratings[1..], x, recipeId);
    } else {
      assert ratings + [x] == [x];
    }
  }

  /** With every score of the recipe between lo and hi, the total lies between
      count * lo and count * hi. */
  lemma {:induction false} ScoreSumBounds(ratings: seq<Rating>, recipeId: int, lo: int, hi: int)
    requires forall x :: x in ratings && x.recipeId == recipeId ==> lo <= x.score <= hi
    ensures RatingCount(ratings, recipeId) * lo <= ScoreSum(ratings, recipeId) <= RatingCount(ratings, recipeId) * hi
  {
    if |ratings| > 0 {
      var rest := ratings[1..];
      assert forall x :: x in rest ==> x in ratings;
      ScoreSumBounds(rest, recipeId, lo, hi);
      var n, t := RatingCount(rest, recipeId), ScoreSum(rest, recipeId);
      if ratings[0].recipeId == recipeId {
        assert ratings[0] in ratings;
        BoundsStep(n, t, lo, hi, ratings[0].score);
      }
    }
  }

  /** One more value between lo and hi keeps a total of n such values
      between the bounds for n + 1. */
  lemma BoundsStep(n: nat, t: int, lo: int, hi: int, x: int)
    requires n * lo <= t <= n * hi && lo <= x <= hi
    ensures (n + 1) * lo <= t + x <= (n + 1) * hi
  {
    assert (n + 1) * lo == n * lo + lo && (n + 1) * hi == n * hi + hi;
  }

  /** The mean of valid scores is itself between 1 and 5 once there is a rating. */
  lemma AverageInRange(ratings: seq<Rating>, recipeId: int)
    requires forall x :: x in ratings && x.recipeId == recipeId ==> 1 <= x.score <= 5
    requires RatingCount(ratings, recipeId) > 0
    ensures 1.0 <= AverageScore(ratings, recipeId) <= 5.0
  {
    ScoreSumBounds(ratings, recipeId, 1, 5);
    MeanBetween(ScoreSum(ratings, recipeId), RatingCount(ratings, recipeId), 1, 5);
  }

  /** A total between n * lo and n * hi has its mean between lo and hi. */
  lemma MeanBetween(total: int, n: nat, lo: int, hi: int)
    requires n > 0 && n * lo <= total <= n * hi
    ensures lo as real <= total as real / n as real <= hi as real
  {
    var q := total as real / n as real;
    assert q * n as real == total as real;
    assert (n * lo) as real == lo as real * n as real;
    assert (n * hi) as real == hi as real * n as real;
    assert (q - lo as real) * n as real >= 0.0;
    assert (hi as real - q) * n as real >= 0.0;
  }

  /** The ratings table after a recipe is deleted: its ratings go with it
      (cascade and orphan removal). */
  function WithoutRecipe(ratings: seq<Rating>, recipeId: int): (r: seq<Rating>)
    ensures |r| <= |ratings|
    ensures forall x :: multiset(r)[x] == if x.recipeId == recipeId then 0 else multiset(ratings)[x]
  {
    if |ratings| == 0 then []
    else
      var rest := WithoutRecipe(ratings[1..], recipeId);
      assert ratings == [ratings[0]] + ratings[1..];
      if ratings[0].recipeId == recipeId then rest else [ratings[0]] + rest
  }

  /** Removing a recipe's ratings leaves no rating of it and every other
      recipe's count and total as they were. */
  lemma {:induction false} WithoutRecipeFigures(ratings: seq<Rating>, recipeId: int, other: int)
    ensures RatingCount(WithoutRecipe(ratings, recipeId), recipeId) == 0
    ensures other != recipeId ==>
      && RatingCount(WithoutRecipe(ratings, recipeId), other) == RatingCount(ratings, other)
      && ScoreSum(WithoutRecipe(ratings, recipeId), other) == ScoreSum(ratings, other)
  {
    if |ratings| > 0 {
      WithoutRecipeFigures(ratings[1..], recipeId, other);
      var rest := WithoutRecipe(ratings[1..], recipeId);
      if ratings[0].recipeId != recipeId {
        assert ([ratings[0]] + rest)[1..] == rest;
      }
    }
  }

  /** Two ratings of 5 and 3 average 4; a third of 4 keeps the mean at 4. */
  lemma AverageExample(a: Rating, b: Rating, c: Rating)
    requires a.recipeId == 1 && a.score == 5
    requires b.recipeId == 1 && b.score == 3
    requires c.recipeId == 1 && c.score == 4
    ensures RatingCount([a, b], 1) == 2 && AverageScore([a, b], 1) == 4.0
    ensures RatingCount([a, b, c], 1) == 3 && AverageScore([a, b, c], 1) == 4.0
  {
    assert [a, b][1..] == [b] && [b][1..] == [];
    assert [a, b, c][1..] == [b, c] && [b, c][1..] == [c] && [c][1..] == [];
    assert ScoreSum([c], 1) == 4 && ScoreSum([b], 1) == 3;
    assert ScoreSum([b, c], 1) == 7;
    assert ScoreSum([a, b], 1) == 8;
    assert ScoreSum([a, b, c], 1) == 12;
    assert 8.0 / 2.0 == 4.0 && 12.0 / 3.0 == 4.0;
  }
}
