/** The rating endpoints: a recipe's rating figures, a page of its ratings, one
    user's rating of it, and posting a new rating after a fixed chain of
    checks. */
module RatingService {
  import opened Common
  import opened Records
  import opened Paging
  import opened Decimal
  import opened Requests
  import opened RatingRepository
  import opened Database

  const RecipeNotFoundMessage := "Não existe nenhuma receita com o ID informado."
  const OwnRecipeMessage := "Você não pode avaliar sua própria receita."
  const AlreadyRatedMessage := "Este usuário já comentou nesta receita."
  const NotRatedMessage := "O usuário não avaliou a receita informada."

  datatype RatingResponse = RatingResponse(
    id: int, user: UserResponse, comment: Option<string>, score: int, createdAt: int, updatedAt: int)

  datatype RatingInfo = RatingInfo(score: real, count: nat)

  datatype RecipeRatings = RecipeRatings(hasMore: bool, ratings: seq<RatingResponse>, ratingInfo: RatingInfo)

  /** The response for one rating; its author is looked up, and a missing
      author is a null dereference. */
  function Respond(x: Rating, users: seq<User>): (r: Result<RatingResponse>)
    ensures r.Ok? <==> FindUser(users, x.userId).Some?
    ensures r.Err? ==> r.failure == Unchecked(NullPointer)
    ensures r.Ok? ==> r.value == RatingResponse(x.id, Summary(FindUser(users, x.userId).value), x.comment,
                                               x.score, x.createdAt, x.updatedAt)
  {
    match FindUser(users, x.userId)
    case None => Err(Unchecked(NullPointer))
    case Some(u) => Ok(RatingResponse(x.id, Summary(u), x.comment, x.score, x.createdAt, x.updatedAt))
  }

  /** The responses for a list of ratings, in the same order. */
  function RespondAll(rs: seq<Rating>, users: seq<User>): (res: Result<seq<RatingResponse>>)
    ensures res.Ok? <==> forall x :: x in rs ==> FindUser(users, x.userId).Some?
    ensures res.Ok? ==> |res.value| == |rs|
    ensures res.Ok? ==> forall i :: 0 <= i < |rs| ==>
      && res.value[i].id == rs[i].id && res.value[i].score == rs[i].score
      && res.value[i].comment == rs[i].comment && res.value[i].user.id == rs[i].userId
    ensures res.Ok? ==> forall i :: 0 <= i < |rs| ==> Respond(rs[i], users).Ok? && res.value[i] == Respond(rs[i], users).value
    ensures res.Err? ==> res.failure == Unchecked(NullPointer)
  {
    if forall x :: x in rs ==> FindUser(users, x.userId).Some? then
      Ok(seq(|rs|, i requires 0 <= i < |rs| => Respond(rs[i], users).value))
    else Err(Unchecked(NullPointer))
  }

  /** getRatingInfo: the count and mean score of an existing recipe's ratings. */
  function GetRatingInfo(recipes: seq<Recipe>, ratings: seq<Rating>, recipeId: int): (r: Result<RatingInfo>)
    ensures r.Err? <==> FindRecipe(recipes, recipeId).None?
    ensures r.Err? ==> r.failure == Api(404, RecipeNotFoundMessage)
    ensures r.Ok? ==> r.value.count == |RatingsOf(ratings, recipeId)|
    ensures r.Ok? && r.value.count == 0 ==> r.value.score == 0.0
    ensures r.Ok? && r.value.count > 0 ==> r.value.score == ScoreSum(ratings, recipeId) as real / r.value.count as real
  {
    match FindRecipe(recipes, recipeId)
    case None => Err(Api(404, RecipeNotFoundMessage))
    case Some(_) =>
      CountMatchesMultiset(ratings, recipeId);
      Ok(RatingInfo(AverageScore(ratings, recipeId), RatingCount(ratings, recipeId)))
  }

  /** getAverageRating: the mean score of an existing recipe, 0 without ratings. */
  function GetAverageRating(recipes: seq<Recipe>, ratings: seq<Rating>, recipeId: int): (r: Result<real>)
    ensures r.Err? <==> FindRecipe(recipes, recipeId).None?
    ensures r.Err? ==> r.failure == Api(404, RecipeNotFoundMessage)
    ensures r.Ok? ==> r == Ok(GetRatingInfo(recipes, ratings, recipeId).value.score)
  {
    if FindRecipe(recipes, recipeId).None? then Err(Api(404, RecipeNotFoundMessage))
    else Ok(AverageScore(ratings, recipeId))
  }

  /** getRatingCount: the number of ratings of an existing recipe. */
  function GetRatingCount(recipes: seq<Recipe>, ratings: seq<Rating>, recipeId: int): (r: Result<nat>)
    ensures r.Err? <==> FindRecipe(recipes, recipeId).None?
    ensures r.Err? ==> r.failure == Api(404, RecipeNotFoundMessage)
    ensures r.Ok? ==> r.value == |RatingsOf(ratings, recipeId)|
  {
    if FindRecipe(recipes, recipeId).None? then Err(Api(404, RecipeNotFoundMessage))
    else
      CountMatchesMultiset(ratings, recipeId);
      Ok(RatingCount(ratings, recipeId))
  }

  /** getUserRating: three 404s in a fixed order, then the user's rating. */
  function GetUserRatingOf(recipes: seq<Recipe>, users: seq<User>, ratings: seq<Rating>, recipeId: int, userId: int)
    : (r: Result<RatingResponse>)
    ensures FindRecipe(recipes, recipeId).None? ==> r == Err(Api(404, RecipeNotFoundMessage))
    ensures FindRecipe(recipes, recipeId).Some? && FindUser(users, userId).None?
      ==> r == Err(Api(404, UserNotFoundMessage))
    ensures (FindRecipe(recipes, recipeId).Some? && FindUser(users, userId).Some?
      && !ExistsByUserAndRecipeId(ratings, userId, recipeId)) ==> r == Err(Api(404, NotRatedMessage))
    ensures FindRecipe(recipes, recipeId).Some? && FindUser(users, userId).Some?
      && ExistsByUserAndRecipeId(ratings, userId, recipeId)
      ==> r.Ok?
    ensures r.Ok? ==> exists x :: (x in ratings && x.userId == userId && x.recipeId == recipeId
      && r.value.id == x.id && r.value.score == x.score && r.value.comment == x.comment
      && r.value.user.id == userId)
    ensures r.Ok? ==>
      && GetUserRating(ratings, userId, recipeId).Some?
      && r == Respond(GetUserRating(ratings, userId, recipeId).value, users)
  {
    if FindRecipe(recipes, recipeId).None? then Err(Api(404, RecipeNotFoundMessage))
    else if FindUser(users, userId).None? then Err(Api(404, UserNotFoundMessage))
    else match GetUserRating(ratings, userId, recipeId)
      case None => Err(Api(404, NotRatedMessage))
      case Some(x) => Respond(x, users)
  }

  /** listRecipeRatings: page `pagenumber` of `pagesize` of the recipe's
      ratings in the order orderBy names, whether a further page exists, and
      the recipe's rating figures. Page.of refuses a negative index or a
      non-positive size. */
  function ListRecipeRatings(recipes: seq<Recipe>, ratings: seq<Rating>, users: seq<User>,
                             recipeId: int, pagesize: int, pagenumber: int, orderBy: string)
    : (r: Result<RecipeRatings>)
    ensures FindRecipe(recipes, recipeId).None? ==> r == Err(Api(404, RecipeNotFoundMessage))
    ensures FindRecipe(recipes, recipeId).Some? && !ValidPage(pagenumber, pagesize)
      ==> r == Err(Unchecked(IllegalArgument))
    ensures r.Ok? ==> ValidPage(pagenumber, pagesize) && FindRecipe(recipes, recipeId).Some?
    ensures FindRecipe(recipes, recipeId).Some? && ValidPage(pagenumber, pagesize) ==>
      (r.Ok? <==> forall x :: x in PageOf(ListAllRecipeRatings(ratings, recipeId, orderBy), pagenumber, pagesize)
                             ==> FindUser(users, x.userId).Some?)
  {
    if FindRecipe(recipes, recipeId).None? then Err(Api(404, RecipeNotFoundMessage))
    else if !ValidPage(pagenumber, pagesize) then Err(Unchecked(IllegalArgument))
    else
      var all := ListAllRecipeRatings(ratings, recipeId, orderBy);
      match RespondAll(PageOf(all, pagenumber, pagesize), users)
      case Err(f) => Err(f)
      case Ok(responses) =>
        Ok(RecipeRatings(HasNextPage(all, pagenumber, pagesize), responses,
                         GetRatingInfo(recipes, ratings, recipeId).value))
  }

  /** The ids of a sequence of rating responses, in order. */
  function ResponseIds(rs: seq<RatingResponse>): (ids: seq<int>)
    ensures |ids| == |rs| && forall i :: 0 <= i < |rs| ==> ids[i] == rs[i].id
  {
    seq(|rs|, i requires 0 <= i < |rs| => rs[i].id)
  }

  /** A listed page holds page `pagenumber` of `pagesize` of the recipe's
      ordered ratings, so at most `pagesize` of them. */
  lemma ListedPageRows(recipes: seq<Recipe>, ratings: seq<Rating>, users: seq<User>,
                       recipeId: int, pagesize: int, pagenumber: int, orderBy: string)
    requires ListRecipeRatings(recipes, ratings, users, recipeId, pagesize, pagenumber, orderBy).Ok?
    ensures var r := ListRecipeRatings(recipes, ratings, users, recipeId, pagesize, pagenumber, orderBy).value;
      && ValidPage(pagenumber, pagesize)
      && |r.ratings| <= pagesize
      && ResponseIds(r.ratings) == RatingIds(PageOf(ListAllRecipeRatings(ratings, recipeId, orderBy), pagenumber, pagesize))
  {
    var page := ListedParts(recipes, ratings, users, recipeId, pagesize, pagenumber, orderBy);
    var r := ListRecipeRatings(recipes, ratings, users, recipeId, pagesize, pagenumber, orderBy).value;
    assert forall i :: 0 <= i < |page| ==> ResponseIds(r.ratings)[i] == RatingIds(page)[i];
  }

  /** hasMore says whether the recipe has ratings beyond the listed page, and
      the figures are the recipe's rating info. */
  lemma ListedPageHasMore(recipes: seq<Recipe>, ratings: seq<Rating>, users: seq<User>,
                          recipeId: int, pagesize: int, pagenumber: int, orderBy: string)
    requires ListRecipeRatings(recipes, ratings, users, recipeId, pagesize, pagenumber, orderBy).Ok?
    ensures var r := ListRecipeRatings(recipes, ratings, users, recipeId, pagesize, pagenumber, orderBy).value;
      && (r.hasMore <==> |RatingsOf(ratings, recipeId)| > (pagenumber + 1) * pagesize)
      && r.ratingInfo == GetRatingInfo(recipes, ratings, recipeId).value
  {
    var page := ListedParts(recipes, ratings, users, recipeId, pagesize, pagenumber, orderBy);
    CountIsListingLength(ratings, recipeId, orderBy);
    CountMatchesMultiset(ratings, recipeId);
  }

  /** How a successful listing is put together. */
  lemma ListedParts(recipes: seq<Recipe>, ratings: seq<Rating>, users: seq<User>,
                    recipeId: int, pagesize: int, pagenumber: int, orderBy: string)
    returns (page: seq<Rating>)
    requires ListRecipeRatings(recipes, ratings, users, recipeId, pagesize, pagenumber, orderBy).Ok?
    ensures pagenumber >= 0 && pagesize > 0
    ensures page == PageOf(ListAllRecipeRatings(ratings, recipeId, orderBy), pagenumber, pagesize)
    ensures var r := ListRecipeRatings(recipes, ratings, users, recipeId, pagesize, pagenumber, orderBy).value;
      && RespondAll(page, users) == Ok(r.ratings)
      && r.hasMore == HasNextPage(ListAllRecipeRatings(ratings, recipeId, orderBy), pagenumber, pagesize)
      && r.ratingInfo == GetRatingInfo(recipes, ratings, recipeId).value
  {
    page := PageOf(ListAllRecipeRatings(ratings, recipeId, orderBy), pagenumber, pagesize);
  }

  /** The token subject read as a user id by Long.valueOf; an absent subject or
      one that is not a long is a NumberFormatException. */
  function CallerId(subject: Option<string>): (id: Option<int>)
    ensures id.Some? <==> subject.Some? && ParseLong(subject.value).Some?
    ensures id.Some? ==> IsLong(id.value) && ParseLong(subject.value) == id
  {
    if subject.None? then None else ParseLong(subject.value)
  }

  /** What postRating decides: the rating it persists, or why it refuses.
      Checks run in this order: the request body (400), the recipe (404), the
      subject (500), the recipe's author row, whose id the ownership test reads
      (500 when missing), ownership (403), an earlier rating (409); a caller without
      a user row makes the response building dereference null (500), which
      rolls the insertion back. */
  function PostOutcome(recipes: seq<Recipe>, ratings: seq<Rating>, users: seq<User>, recipeId: int,
                       subject: Option<string>, req: RatingCreateRequest, newId: int, now: int)
    : (r: Result<Rating>)
    ensures RatingViolations(req) != multiset{} ==> r == Err(Rejected(RatingViolations(req)))
    ensures RatingViolations(req) == multiset{} && FindRecipe(recipes, recipeId).None?
      ==> r == Err(Api(404, RecipeNotFoundMessage))
    ensures RatingViolations(req) == multiset{} && FindRecipe(recipes, recipeId).Some? && CallerId(subject).None?
      ==> r == Err(Unchecked(NumberFormat))
    ensures RatingViolations(req) == multiset{} && FindRecipe(recipes, recipeId).Some? && CallerId(subject).Some?
      && FindUser(users, FindRecipe(recipes, recipeId).value.ownerId).None?
      ==> r == Err(Unchecked(NullPointer))
    ensures RatingViolations(req) == multiset{} && FindRecipe(recipes, recipeId).Some? && CallerId(subject).Some?
      && FindUser(users, FindRecipe(recipes, recipeId).value.ownerId).Some?
      && FindRecipe(recipes, recipeId).value.ownerId == CallerId(subject).value
      ==> r == Err(Api(403, OwnRecipeMessage))
    ensures RatingViolations(req) == multiset{} && FindRecipe(recipes, recipeId).Some? && CallerId(subject).Some?
      && FindUser(users, FindRecipe(recipes, recipeId).value.ownerId).Some?
      && FindRecipe(recipes, recipeId).value.ownerId != CallerId(subject).value
      && ExistsByUserAndRecipeId(ratings, CallerId(subject).value, recipeId)
      ==> r == Err(Api(409, AlreadyRatedMessage))
    ensures RatingViolations(req) == multiset{} && FindRecipe(recipes, recipeId).Some? && CallerId(subject).Some?
      && FindUser(users, FindRecipe(recipes, recipeId).value.ownerId).Some?
      && FindRecipe(recipes, recipeId).value.ownerId != CallerId(subject).value
      && !ExistsByUserAndRecipeId(ratings, CallerId(subject).value, recipeId)
      && FindUser(users, CallerId(subject).value).None?
      ==> r == Err(Unchecked(NullPointer))
    ensures r.Ok? <==>
      && RatingViolations(req) == multiset{}
      && FindRecipe(recipes, recipeId).Some? && CallerId(subject).Some?
      && FindUser(users, FindRecipe(recipes, recipeId).value.ownerId).Some?
      && FindRecipe(recipes, recipeId).value.ownerId != CallerId(subject).value
      && !ExistsByUserAndRecipeId(ratings, CallerId(subject).value, recipeId)
      && FindUser(users, CallerId(subject).value).Some?
    ensures r.Ok? ==> r.value == Rating(newId, recipeId, CallerId(subject).value, req.score.value, req.comment, now, now)
  {
    if RatingViolations(req) != multiset{} then Err(Rejected(RatingViolations(req)))
    else match FindRecipe(recipes, recipeId)
      case None => Err(Api(404, RecipeNotFoundMessage))
      case Some(recipe) =>
        match CallerId(subject)
        case None => Err(Unchecked(NumberFormat))
        case Some(userId) =>
          if FindUser(users, recipe.ownerId).None? then Err(Unchecked(NullPointer))
          else if recipe.ownerId == userId then Err(Api(403, OwnRecipeMessage))
          else if ExistsByUserAndRecipeId(ratings, userId, recipeId) then Err(Api(409, AlreadyRatedMessage))
          else if FindUser(users, userId).None? then Err(Unchecked(NullPointer))
          else Ok(Rating(newId, recipeId, userId, req.score.value, req.comment, now, now))
  }

  /** postRating: runs the check chain and appends the new rating; the
      database assigns `newId` and the timestamp `now`. */
  method PostRating(db: Store, recipeId: int, subject: Option<string>, req: RatingCreateRequest, newId: int, now: int)
    returns (r: Result<RatingResponse>)
    modifies db`ratings
    ensures var outcome := PostOutcome(old(db.recipes), old(db.ratings), db.users, recipeId, subject, req, newId, now);
      && (outcome.Ok? ==> db.ratings == old(db.ratings) + [outcome.value] && r == Respond(outcome.value, db.users))
      && (outcome.Err? ==> db.ratings == old(db.ratings) && r == Err(outcome.failure))
  {
    var violations := RatingViolations(req);
    if violations != multiset{} {
      return Err(Rejected(violations));
    }
    var recipe := FindRecipe(db.recipes, recipeId);
    if recipe.None? {
      return Err(Api(404, RecipeNotFoundMessage));
    }
    var userId := CallerId(subject);
    if userId.None? {
      return Err(Unchecked(NumberFormat));
    }
    var user := FindUser(db.users, userId.value);
    if FindUser(db.users, recipe.value.ownerId).None? {
      return Err(Unchecked(NullPointer));
    }
    if recipe.value.ownerId == userId.value {
      return Err(Api(403, OwnRecipeMessage));
    }
    if ExistsByUserAndRecipeId(db.ratings, userId.value, recipeId) {
      return Err(Api(409, AlreadyRatedMessage));
    }
    if user.None? {
      return Err(Unchecked(NullPointer));
    }
    var rating := Rating(newId, recipeId, userId.value, req.score.value, req.comment, now, now);
    db.ratings := db.ratings + [rating];
    r := Respond(rating, db.users);
  }

  /** The ratings table as postRating leaves it: every rating is on an existing
      recipe by someone other than its owner, scores lie in 1..5, and no user
      rates a recipe twice. */
  predicate RatingsConsistent(recipes: seq<Recipe>, ratings: seq<Rating>)
  {
    && (forall x :: x in ratings ==>
          && FindRecipe(recipes, x.recipeId).Some?
          && FindRecipe(recipes, x.recipeId).value.ownerId != x.userId
          && 1 <= x.score <= 5)
    && (forall i, j :: 0 <= i < j < |ratings| ==>
          !(ratings[i].userId == ratings[j].userId && ratings[i].recipeId == ratings[j].recipeId))
  }

  /** A successful post keeps the ratings table consistent. */
  lemma PostKeepsConsistent(recipes: seq<Recipe>, ratings: seq<Rating>, users: seq<User>, recipeId: int,
                            subject: Option<string>, req: RatingCreateRequest, newId: int, now: int)
    requires RatingsConsistent(recipes, ratings)
    requires PostOutcome(recipes, ratings, users, recipeId, subject, req, newId, now).Ok?
    ensures RatingsConsistent(recipes, ratings + [PostOutcome(recipes, ratings, users, recipeId, subject, req, newId, now).value])
  {
    var x := PostOutcome(recipes, ratings, users, recipeId, subject, req, newId, now).value;
    var rs := ratings + [x];
    forall i, j | 0 <= i < j < |rs|
      ensures !(rs[i].userId == rs[j].userId && rs[i].recipeId == rs[j].recipeId)
    {
      if j == |ratings| {
        assert rs[i] in ratings;
      }
    }
  }

  /** Once a user's post on a recipe succeeded, any later valid post by the
      same subject on that recipe is refused with 409. */
  lemma SecondPostConflicts(recipes: seq<Recipe>, ratings: seq<Rating>, users: seq<User>, recipeId: int,
                            subject: Option<string>, req: RatingCreateRequest, newId: int, now: int,
                            req2: RatingCreateRequest, newId2: int, now2: int)
    requires PostOutcome(recipes, ratings, users, recipeId, subject, req, newId, now).Ok?
    requires RatingViolations(req2) == multiset{}
    ensures var after := ratings + [PostOutcome(recipes, ratings, users, recipeId, subject, req, newId, now).value];
      PostOutcome(recipes, after, users, recipeId, subject, req2, newId2, now2) == Err(Api(409, AlreadyRatedMessage))
  {
    var x := PostOutcome(recipes, ratings, users, recipeId, subject, req, newId, now).value;
    assert x in ratings + [x];
  }

  /** A recipe's owner, presenting a token whose subject is the owner's id as
      issued, is refused with 403 whatever they have rated before (when the
      owner's row is missing the ownership test itself fails with a 500). */
  lemma OwnerCannotRate(recipes: seq<Recipe>, ratings: seq<Rating>, users: seq<User>, recipeId: int,
                        req: RatingCreateRequest, newId: int, now: int)
    requires RatingViolations(req) == multiset{}
    requires FindRecipe(recipes, recipeId).Some? && IsLong(FindRecipe(recipes, recipeId).value.ownerId)
    requires FindUser(users, FindRecipe(recipes, recipeId).value.ownerId).Some?
    ensures var owner := FindRecipe(recipes, recipeId).value.ownerId;
      PostOutcome(recipes, ratings, users, recipeId, Some(ToDecimal(owner)), req, newId, now)
        == Err(Api(403, OwnRecipeMessage))
  {
    ParseToDecimal(FindRecipe(recipes, recipeId).value.ownerId);
  }

  /** A successful post adds one to its recipe's count and its score to the
      recipe's total, and changes no other recipe's figures. */
  lemma PostUpdatesOnlyItsRecipe(recipes: seq<Recipe>, ratings: seq<Rating>, users: seq<User>, recipeId: int,
                                 subject: Option<string>, req: RatingCreateRequest, newId: int, now: int, other: int)
    requires PostOutcome(recipes, ratings, users, recipeId, subject, req, newId, now).Ok?
    ensures var after := ratings + [PostOutcome(recipes, ratings, users, recipeId, subject, req, newId, now).value];
      && RatingCount(after, recipeId) == RatingCount(ratings, recipeId) + 1
      && ScoreSum(after, recipeId) == ScoreSum(ratings, recipeId) + req.score.value
      && (other != recipeId ==>
            RatingCount(after, other) == RatingCount(ratings, other)
            && AverageScore(after, other) == AverageScore(ratings, other))
  {
    var x := PostOutcome(recipes, ratings, users, recipeId, subject, req, newId, now).value;
    AppendRating(ratings, x, recipeId);
    AppendRating(ratings, x, other);
  }
}
