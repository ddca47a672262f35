/** The recipe endpoints: listing (all or one author's, optionally paged),
    paged search, one recipe by id, and publishing, editing and deleting a
    recipe. Editing and deleting check that the recipe exists, then that the
    caller owns it. */
module RecipeService {
  import opened Common
  import opened Records
  import opened Paging
  import opened Decimal
  import opened Requests
  import opened RatingRepository
  import opened RecipeRepository
  import opened RatingService
  import opened ImageService
  import opened Database

  const EditForbiddenMessage := "Você não pode editar receitas de outros usuários."
  const DeleteForbiddenMessage := "Você não pode deletar receitas de outros usuários."

  /** A recipe as the endpoints return it; each endpoint fills a different
      subset of the optional fields, and absent ones are left out of the JSON. */
  datatype RecipeResponse = RecipeResponse(
    id: int,
    user: UserResponse,
    titulo: string,
    ingredientes: Option<string>,
    modoPreparo: Option<string>,
    about: Option<string>,
    urlFoto: Option<string>,
    rating: Option<real>,
    ratingCount: Option<nat>,
    createdAt: Option<int>,
    updatedAt: Option<int>)

  datatype RecipeList = RecipeList(hasMore: bool, recipes: seq<RecipeResponse>)

  /** The recipe's author as embedded in responses; a recipe whose author row
      is missing makes recipe.getUser() null. */
  function Author(r: Recipe, users: seq<User>): (a: Result<UserResponse>)
    ensures a.Ok? <==> FindUser(users, r.ownerId).Some?
    ensures a.Ok? ==> a.value == Summary(FindUser(users, r.ownerId).value)
    ensures a.Err? ==> a.failure == Unchecked(NullPointer)
  {
    match FindUser(users, r.ownerId)
    case None => Err(Unchecked(NullPointer))
    case Some(u) => Ok(Summary(u))
  }

  /** e is the listing entry of recipe x: its id, title, description, photo
      and timestamps, its author's summary, the recipe's mean score and rating
      count, and its ingredients and preparation only in `list` entries. */
  predicate Describes(e: RecipeResponse, x: Recipe, ratings: seq<Rating>, users: seq<User>, withText: bool)
  {
    && e.id == x.id && e.titulo == x.titulo
    && FindUser(users, x.ownerId).Some? && e.user == Summary(FindUser(users, x.ownerId).value)
    && e.about == Some(x.about) && e.urlFoto == Some(x.urlFoto)
    && e.createdAt == Some(x.createdAt) && e.updatedAt == Some(x.updatedAt)
    && e.rating == Some(AverageScore(ratings, x.id)) && e.ratingCount == Some(RatingCount(ratings, x.id))
    && e.ingredientes == (if withText then Some(x.ingredientes) else None)
    && e.modoPreparo == (if withText then Some(x.modoPreparo) else None)
  }

  /** The ids of a sequence of responses, in order. */
  function ResponseIds(rs: seq<RecipeResponse>): (ids: seq<int>)
    ensures |ids| == |rs| && forall i :: 0 <= i < |rs| ==> ids[i] == rs[i].id
  {
    seq(|rs|, i requires 0 <= i < |rs| => rs[i].id)
  }

  /** One entry of a listing, with the recipe's mean score and rating count;
      search entries leave out the ingredients and the preparation. */
  function Entry(r: Recipe, ratings: seq<Rating>, users: seq<User>, withText: bool): (e: Result<RecipeResponse>)
    ensures e.Ok? <==> FindUser(users, r.ownerId).Some?
    ensures e.Ok? ==> Describes(e.value, r, ratings, users, withText)
  {
    match Author(r, users)
    case Err(f) => Err(f)
    case Ok(u) =>
      Ok(RecipeResponse(r.id, u, r.titulo,
                        if withText then Some(r.ingredientes) else None,
                        if withText then Some(r.modoPreparo) else None,
                        Some(r.about), Some(r.urlFoto),
                        Some(AverageScore(ratings, r.id)), Some(RatingCount(ratings, r.id)),
                        Some(r.createdAt), Some(r.updatedAt)))
  }

  /** The entries of a page of recipes, in the same order. */
  function Entries(rows: seq<Recipe>, ratings: seq<Rating>, users: seq<User>, withText: bool)
    : (res: Result<seq<RecipeResponse>>)
    ensures res.Ok? <==> forall x :: x in rows ==> FindUser(users, x.ownerId).Some?
    ensures res.Err? ==> res.failure == Unchecked(NullPointer)
    ensures res.Ok? ==> |res.value| == |rows|
    ensures res.Ok? ==> forall i :: 0 <= i < |rows| ==> Describes(res.value[i], rows[i], ratings, users, withText)
  {
    if forall x :: x in rows ==> FindUser(users, x.ownerId).Some? then
      Ok(seq(|rows|, i requires 0 <= i < |rows| => Entry(rows[i], ratings, users, withText).value))
    else Err(Unchecked(NullPointer))
  }

  /** The entries keep the rows' ids and order. */
  lemma EntriesIds(rows: seq<Recipe>, ratings: seq<Rating>, users: seq<User>, withText: bool)
    requires Entries(rows, ratings, users, withText).Ok?
    ensures ResponseIds(Entries(rows, ratings, users, withText).value) == RecipeIds(rows)
  {
    var es := Entries(rows, ratings, users, withText).value;
    assert forall i :: 0 <= i < |rows| ==> ResponseIds(es)[i] == RecipeIds(rows)[i];
  }

  /** The part of an ordered query that is returned, and whether more follows:
      paging applies only when both page parameters are given, and Page.of
      refuses a negative page number or a size below one. */
  function Window(rows: seq<Recipe>, pagesize: Option<int>, pagenumber: Option<int>)
    : (w: Result<(bool, seq<Recipe>)>)
    ensures pagesize.None? || pagenumber.None? ==> w == Ok((false, rows))
    ensures pagesize.Some? && pagenumber.Some? && !ValidPage(pagenumber.value, pagesize.value)
      ==> w == Err(Unchecked(IllegalArgument))
    ensures pagesize.Some? && pagenumber.Some? && ValidPage(pagenumber.value, pagesize.value) ==>
      var n, k := pagenumber.value, pagesize.value;
      && w.Ok?
      && (w.value.0 <==> |rows| > (n + 1) * k)
      && w.value.1 == PageOf(rows, n, k)
  {
    if pagesize.None? || pagenumber.None? then Ok((false, rows))
    else if !ValidPage(pagenumber.value, pagesize.value) then Err(Unchecked(IllegalArgument))
    else Ok((HasNextPage(rows, pagenumber.value, pagesize.value), PageOf(rows, pagenumber.value, pagesize.value)))
  }

  /** The response of a listing over the ordered rows of a query: the window
      the page parameters select, each row as an entry with its figures. */
  function Listing(rows: seq<Recipe>, ratings: seq<Rating>, users: seq<User>,
                   pagesize: Option<int>, pagenumber: Option<int>, withText: bool): (r: Result<RecipeList>)
    ensures pagesize.Some? && pagenumber.Some? && !ValidPage(pagenumber.value, pagesize.value)
      ==> r == Err(Unchecked(IllegalArgument))
    ensures r.Ok? <==>
      && Window(rows, pagesize, pagenumber).Ok?
      && forall x :: x in Window(rows, pagesize, pagenumber).value.1 ==> FindUser(users, x.ownerId).Some?
    ensures r.Err? ==> r.failure == Unchecked(IllegalArgument) || r.failure == Unchecked(NullPointer)
  {
    match Window(rows, pagesize, pagenumber)
    case Err(f) => Err(f)
    case Ok((more, page)) =>
      match Entries(page, ratings, users, withText)
      case Err(f) => Err(f)
      case Ok(entries) => Ok(RecipeList(more, entries))
  }

  /** Without both page parameters a listing holds every row, in order, and
      says there is nothing more. */
  lemma ListingUnpaged(rows: seq<Recipe>, ratings: seq<Rating>, users: seq<User>,
                       pagesize: Option<int>, pagenumber: Option<int>, withText: bool)
    requires pagesize.None? || pagenumber.None?
    requires Listing(rows, ratings, users, pagesize, pagenumber, withText).Ok?
    ensures var r := Listing(rows, ratings, users, pagesize, pagenumber, withText).value;
      !r.hasMore && ResponseIds(r.recipes) == RecipeIds(rows)
  {
    EntriesIds(rows, ratings, users, withText);
  }

  /** A paged listing holds page `pagenumber` of `pagesize` rows, and hasMore
      says whether rows follow it. */
  lemma ListingPaged(rows: seq<Recipe>, ratings: seq<Rating>, users: seq<User>,
                     pagesize: int, pagenumber: int, withText: bool)
    requires Listing(rows, ratings, users, Some(pagesize), Some(pagenumber), withText).Ok?
    ensures var r := Listing(rows, ratings, users, Some(pagesize), Some(pagenumber), withText).value;
      var n, k := pagenumber, pagesize;
      && ValidPage(n, k)
      && (r.hasMore <==> |rows| > (n + 1) * k)
      && |r.recipes| == (if n * k >= |rows| then 0 else Min(k, |rows| - n * k))
      && ResponseIds(r.recipes) == RecipeIds(PageOf(rows, n, k))
  {
    var w := Window(rows, Some(pagesize), Some(pagenumber)).value;
    var page := PageOf(rows, pagenumber, pagesize);
    assert w.1 == page;
    var es := Entries(page, ratings, users, withText).value;
    assert Listing(rows, ratings, users, Some(pagesize), Some(pagenumber), withText).value == RecipeList(w.0, es);
    EntriesIds(page, ratings, users, withText);
  }

  /** Every entry of a listing describes one of its rows. */
  lemma ListingEntries(rows: seq<Recipe>, ratings: seq<Rating>, users: seq<User>,
                       pagesize: Option<int>, pagenumber: Option<int>, withText: bool)
    requires Listing(rows, ratings, users, pagesize, pagenumber, withText).Ok?
    ensures var r := Listing(rows, ratings, users, pagesize, pagenumber, withText).value;
      forall e :: e in r.recipes ==> exists x :: x in rows && Describes(e, x, ratings, users, withText)
  {
    var w := Window(rows, pagesize, pagenumber).value;
    WindowWithin(rows, pagesize, pagenumber);
    EntriesDescribe(w.1, ratings, users, withText);
    var r := Listing(rows, ratings, users, pagesize, pagenumber, withText).value;
    assert r.recipes == Entries(w.1, ratings, users, withText).value;
    forall e | e in r.recipes
      ensures exists x :: x in rows && Describes(e, x, ratings, users, withText)
    {
      var x :| x in w.1 && Describes(e, x, ratings, users, withText);
      assert x in rows;
    }
  }

  /** The rows a window selects are rows of the query. */
  lemma WindowWithin(rows: seq<Recipe>, pagesize: Option<int>, pagenumber: Option<int>)
    requires Window(rows, pagesize, pagenumber).Ok?
    ensures forall x :: x in Window(rows, pagesize, pagenumber).value.1 ==> x in rows
  {
    if pagesize.Some? && pagenumber.Some? {
      var page := PageOf(rows, pagenumber.value, pagesize.value);
      forall x | x in page
        ensures x in rows
      {
        var i :| 0 <= i < |page| && page[i] == x;
        assert x == rows[pagenumber.value * pagesize.value + i];
      }
    }
  }

  /** Every entry describes one of the rows it was made from. */
  lemma EntriesDescribe(rows: seq<Recipe>, ratings: seq<Rating>, users: seq<User>, withText: bool)
    requires Entries(rows, ratings, users, withText).Ok?
    ensures forall e :: e in Entries(rows, ratings, users, withText).value ==>
      exists x :: x in rows && Describes(e, x, ratings, users, withText)
  {
    var es := Entries(rows, ratings, users, withText).value;
    forall e | e in es
      ensures exists x :: x in rows && Describes(e, x, ratings, users, withText)
    {
      var i :| 0 <= i < |es| && es[i] == e;
      assert rows[i] in rows;
    }
  }

  /** The query `list` runs: one author's recipes when authorId is given,
      every recipe otherwise. */
  function ListRows(recipes: seq<Recipe>, ratings: seq<Rating>, authorId: Option<int>, orderBy: string)
    : (rows: seq<Recipe>)
    ensures forall x ::
      multiset(rows)[x] == (if authorId.None? || x.ownerId == authorId.value then multiset(recipes)[x] else 0)
  {
    if authorId.Some? then ListAllUserRecipes(recipes, ratings, authorId.value, orderBy)
    else ListAllRecipes(recipes, ratings, orderBy)
  }

  /** list: the recipes, with their rating figures. */
  function List(recipes: seq<Recipe>, ratings: seq<Rating>, users: seq<User>, authorId: Option<int>,
                pagesize: Option<int>, pagenumber: Option<int>, orderBy: string): (r: Result<RecipeList>)
    ensures pagesize.Some? && pagenumber.Some? && !ValidPage(pagenumber.value, pagesize.value)
      ==> r == Err(Unchecked(IllegalArgument))
    ensures var rows := ListRows(recipes, ratings, authorId, orderBy);
      r.Ok? <==>
        && Window(rows, pagesize, pagenumber).Ok?
        && forall x :: x in Window(rows, pagesize, pagenumber).value.1 ==> FindUser(users, x.ownerId).Some?
  {
    Listing(ListRows(recipes, ratings, authorId, orderBy), ratings, users, pagesize, pagenumber, true)
  }

  /** Without both page parameters, list returns the whole ordered query and
      says there is nothing more. */
  lemma ListUnpaged(recipes: seq<Recipe>, ratings: seq<Rating>, users: seq<User>, authorId: Option<int>,
                    pagesize: Option<int>, pagenumber: Option<int>, orderBy: string)
    requires pagesize.None? || pagenumber.None?
    requires List(recipes, ratings, users, authorId, pagesize, pagenumber, orderBy).Ok?
    ensures var r := List(recipes, ratings, users, authorId, pagesize, pagenumber, orderBy).value;
      !r.hasMore && ResponseIds(r.recipes) == RecipeIds(ListRows(recipes, ratings, authorId, orderBy))
  {
    ListingUnpaged(ListRows(recipes, ratings, authorId, orderBy), ratings, users, pagesize, pagenumber, true);
  }

  /** With both page parameters, list returns page `pagenumber` of
      `pagesize` recipes of the ordered query, and hasMore says whether a
      further page has any. */
  lemma ListPaged(recipes: seq<Recipe>, ratings: seq<Rating>, users: seq<User>, authorId: Option<int>,
                  pagesize: int, pagenumber: int, orderBy: string)
    requires List(recipes, ratings, users, authorId, Some(pagesize), Some(pagenumber), orderBy).Ok?
    ensures var r := List(recipes, ratings, users, authorId, Some(pagesize), Some(pagenumber), orderBy).value;
      var rows := ListRows(recipes, ratings, authorId, orderBy);
      && ValidPage(pagenumber, pagesize)
      && (r.hasMore <==> |rows| > (pagenumber + 1) * pagesize)
      && |r.recipes| == (if pagenumber * pagesize >= |rows| then 0 else Min(pagesize, |rows| - pagenumber * pagesize))
      && ResponseIds(r.recipes) == RecipeIds(PageOf(rows, pagenumber, pagesize))
  {
    ListingPaged(ListRows(recipes, ratings, authorId, orderBy), ratings, users, pagesize, pagenumber, true);
  }

  /** Every listed entry describes a stored recipe of the requested author,
      with its text and the figures of its own ratings. */
  lemma ListEntries(recipes: seq<Recipe>, ratings: seq<Rating>, users: seq<User>, authorId: Option<int>,
                    pagesize: Option<int>, pagenumber: Option<int>, orderBy: string)
    requires List(recipes, ratings, users, authorId, pagesize, pagenumber, orderBy).Ok?
    ensures var r := List(recipes, ratings, users, authorId, pagesize, pagenumber, orderBy).value;
      forall e :: e in r.recipes ==>
        exists x :: && x in recipes && (authorId.Some? ==> x.ownerId == authorId.value)
                    && Describes(e, x, ratings, users, true)
  {
    var rows := ListRows(recipes, ratings, authorId, orderBy);
    ListingEntries(rows, ratings, users, pagesize, pagenumber, true);
    assert forall x :: x in rows ==> multiset(rows)[x] > 0;
  }

  /** searchRecipe: page `pagenumber` of `pagesize` recipes matching the
      query, in the search order of orderBy. */
  function SearchRecipe(recipes: seq<Recipe>, ratings: seq<Rating>, users: seq<User>, query: string,
                        pagesize: int, pagenumber: int, orderBy: string, eq: (char, char) -> bool)
    : (r: Result<RecipeList>)
    ensures !ValidPage(pagenumber, pagesize) ==> r == Err(Unchecked(IllegalArgument))
    ensures ValidPage(pagenumber, pagesize) ==>
      (r.Ok? <==> forall x :: x in PageOf(Search(recipes, ratings, query, orderBy, eq), pagenumber, pagesize)
                             ==> FindUser(users, x.ownerId).Some?)
  {
    Listing(Search(recipes, ratings, query, orderBy, eq), ratings, users, Some(pagesize), Some(pagenumber), false)
  }

  /** A search page holds page `pagenumber` of `pagesize` matches of the
      ordered search, and hasMore says whether more matches follow. */
  lemma SearchPaged(recipes: seq<Recipe>, ratings: seq<Rating>, users: seq<User>, query: string,
                    pagesize: int, pagenumber: int, orderBy: string, eq: (char, char) -> bool)
    requires SearchRecipe(recipes, ratings, users, query, pagesize, pagenumber, orderBy, eq).Ok?
    ensures var r := SearchRecipe(recipes, ratings, users, query, pagesize, pagenumber, orderBy, eq).value;
      var found := Search(recipes, ratings, query, orderBy, eq);
      && ValidPage(pagenumber, pagesize)
      && (r.hasMore <==> |found| > (pagenumber + 1) * pagesize)
      && |r.recipes| == (if pagenumber * pagesize >= |found| then 0 else Min(pagesize, |found| - pagenumber * pagesize))
      && ResponseIds(r.recipes) == RecipeIds(PageOf(found, pagenumber, pagesize))
  {
    ListingPaged(Search(recipes, ratings, query, orderBy, eq), ratings, users, pagesize, pagenumber, false);
  }

  /** Every search entry describes a recipe that matches the query, with its
      own rating figures and without its ingredients or preparation. */
  lemma SearchEntries(recipes: seq<Recipe>, ratings: seq<Rating>, users: seq<User>, query: string,
                      pagesize: int, pagenumber: int, orderBy: string, eq: (char, char) -> bool)
    requires SearchRecipe(recipes, ratings, users, query, pagesize, pagenumber, orderBy, eq).Ok?
    ensures var r := SearchRecipe(recipes, ratings, users, query, pagesize, pagenumber, orderBy, eq).value;
      forall e :: e in r.recipes ==>
        exists x :: x in recipes && MatchesQuery(x, query, eq) && Describes(e, x, ratings, users, false)
  {
    var found := Search(recipes, ratings, query, orderBy, eq);
    ListingEntries(found, ratings, users, Some(pagesize), Some(pagenumber), false);
    assert forall x :: x in found ==> multiset(found)[x] > 0;
    assert forall x :: multiset(recipes)[x] > 0 ==> x in recipes;
  }

  /** Three matching recipes and pages of two: the first page has two of
      them, and more follow. */
  lemma SearchExample(recipes: seq<Recipe>, ratings: seq<Rating>, users: seq<User>, query: string,
                      orderBy: string, eq: (char, char) -> bool)
    requires |Search(recipes, ratings, query, orderBy, eq)| == 3
    requires SearchRecipe(recipes, ratings, users, query, 2, 0, orderBy, eq).Ok?
    ensures var r := SearchRecipe(recipes, ratings, users, query, 2, 0, orderBy, eq).value;
      |r.recipes| == 2 && r.hasMore
  {
    SearchPaged(recipes, ratings, users, query, 2, 0, orderBy, eq);
  }

  /** getById: 404 for an unknown id, otherwise the recipe's own fields. */
  function GetById(recipes: seq<Recipe>, users: seq<User>, id: int): (r: Result<RecipeResponse>)
    ensures FindRecipe(recipes, id).None? ==> r == Err(Api(404, RecipeNotFoundMessage))
    ensures r.Ok? ==>
      var x := FindRecipe(recipes, id).value;
      && r.value.id == id && r.value.user.id == x.ownerId
      && r.value.titulo == x.titulo && r.value.ingredientes == Some(x.ingredientes)
      && r.value.modoPreparo == Some(x.modoPreparo) && r.value.about == Some(x.about)
      && r.value.urlFoto == Some(x.urlFoto)
      && r.value.createdAt == Some(x.createdAt) && r.value.updatedAt == Some(x.updatedAt)
      && r.value.rating.None? && r.value.ratingCount.None?
      && FindUser(users, x.ownerId).Some? && r.value.user == Summary(FindUser(users, x.ownerId).value)
    ensures FindRecipe(recipes, id).Some? && FindUser(users, FindRecipe(recipes, id).value.ownerId).None?
      ==> r == Err(Unchecked(NullPointer))
    ensures FindRecipe(recipes, id).Some? && FindUser(users, FindRecipe(recipes, id).value.ownerId).Some?
      ==> r.Ok?
  {
    match FindRecipe(recipes, id)
    case None => Err(Api(404, RecipeNotFoundMessage))
    case Some(x) =>
      match Author(x, users)
      case Err(f) => Err(f)
      case Ok(u) =>
        Ok(RecipeResponse(x.id, u, x.titulo, Some(x.ingredientes), Some(x.modoPreparo), Some(x.about),
                          Some(x.urlFoto), None, None, Some(x.createdAt), Some(x.updatedAt)))
  }

  /** What create decides: the recipe it persists, or why it refuses. The
      request is validated (400), the photo is stored (see SaveOutcome), the
      subject is parsed (500), and a caller without a user row makes the
      response building dereference null (500), rolling everything back. */
  function CreateOutcome(users: seq<User>, body: MultipartBody, req: RecipeCreateRequest, subject: Option<string>,
                         uuid: string, baseUrl: string, newId: int, now: int): (r: Result<Recipe>)
    ensures RecipeCreateViolations(req) != multiset{} ==> r == Err(Rejected(RecipeCreateViolations(req)))
    ensures RecipeCreateViolations(req) == multiset{} && SaveOutcome(body).Err?
      ==> r == Err(SaveOutcome(body).failure)
    ensures RecipeCreateViolations(req) == multiset{} && SaveOutcome(body).Ok? && CallerId(subject).None?
      ==> r == Err(Unchecked(NumberFormat))
    ensures r.Ok? <==>
      && RecipeCreateViolations(req) == multiset{} && SaveOutcome(body).Ok?
      && CallerId(subject).Some? && FindUser(users, CallerId(subject).value).Some?
    ensures r.Ok? ==>
      && r.value.id == newId && r.value.ownerId == CallerId(subject).value
      && r.value.titulo == req.titulo.value && r.value.ingredientes == req.ingredientes.value
      && r.value.modoPreparo == req.modoPreparo.value && r.value.about == req.about.value
      && r.value.urlFoto == ImageUrl(baseUrl, StoredName(uuid, body.imageName.value))
      && r.value.createdAt == now && r.value.updatedAt == now
  {
    if RecipeCreateViolations(req) != multiset{} then Err(Rejected(RecipeCreateViolations(req)))
    else match SaveOutcome(body)
      case Err(f) => Err(f)
      case Ok(_) =>
        match CallerId(subject)
        case None => Err(Unchecked(NumberFormat))
        case Some(userId) =>
          if FindUser(users, userId).None? then Err(Unchecked(NullPointer))
          else
            Ok(Recipe(newId, userId, req.titulo.value, req.ingredientes.value, req.modoPreparo.value,
                      req.about.value, ImageUrl(baseUrl, StoredName(uuid, body.imageName.value)), now, now))
  }

  /** The response of create: no photo URL and no rating figures. */
  function CreatedResponse(x: Recipe, u: UserResponse): RecipeResponse
  {
    RecipeResponse(x.id, u, x.titulo, Some(x.ingredientes), Some(x.modoPreparo), Some(x.about),
                   None, None, None, Some(x.createdAt), Some(x.updatedAt))
  }

  /** create: stores the photo and appends the new recipe; the database
      assigns `newId`, the image's id and the timestamp `now`. */
  method Create(db: Store, body: MultipartBody, req: RecipeCreateRequest, subject: Option<string>,
                uuid: string, imageId: string, baseUrl: string, newId: int, now: int)
    returns (r: Result<RecipeResponse>)
    modifies db`recipes, db`images
    ensures var outcome := CreateOutcome(db.users, body, req, subject, uuid, baseUrl, newId, now);
      && (outcome.Err? ==>
            r == Err(outcome.failure) && db.recipes == old(db.recipes) && db.images == old(db.images))
      && (outcome.Ok? ==>
            && db.recipes == old(db.recipes) + [outcome.value]
            && r == Ok(CreatedResponse(outcome.value, Summary(FindUser(db.users, outcome.value.ownerId).value)))
            && |db.images| == |old(db.images)| + 1 && db.images[..|old(db.images)|] == old(db.images)
            && db.images[|old(db.images)|].name == StoredName(uuid, body.imageName.value)
            && db.images[|old(db.images)|].data == body.image.value.data
            && db.images[|old(db.images)|].id == Some(imageId))
  {
    var outcome := CreateOutcome(db.users, body, req, subject, uuid, baseUrl, newId, now);
    if outcome.Err? {
      return Err(outcome.failure);
    }
    var url := Save(db, body, uuid, imageId, now, baseUrl);
    var recipe := outcome.value;
    db.recipes := db.recipes + [recipe];
    var author := FindUser(db.users, recipe.ownerId).value;
    r := Ok(CreatedResponse(recipe, Summary(author)));
  }

  /** A created recipe with a fresh id is found again by getById, with the
      request's fields and its author. */
  lemma CreateThenGet(recipes: seq<Recipe>, users: seq<User>, body: MultipartBody, req: RecipeCreateRequest,
                      subject: Option<string>, uuid: string, baseUrl: string, newId: int, now: int)
    requires forall x :: x in recipes ==> x.id != newId
    requires CreateOutcome(users, body, req, subject, uuid, baseUrl, newId, now).Ok?
    ensures var after := recipes + [CreateOutcome(users, body, req, subject, uuid, baseUrl, newId, now).value];
      var got := GetById(after, users, newId);
      && got.Ok?
      && got.value.titulo == req.titulo.value && got.value.ingredientes == req.ingredientes
      && got.value.modoPreparo == req.modoPreparo && got.value.about == req.about
      && got.value.user.id == CallerId(subject).value
  {
    var x := CreateOutcome(users, body, req, subject, uuid, baseUrl, newId, now).value;
    var after := recipes + [x];
    assert x in after;
    assert FindRecipe(after, newId).value == x;
  }

  /** The recipe as update leaves it: titulo, ingredientes and modoPreparo
      are replaced when given and not blank, the photo when an image part is
      sent; about, the owner and the creation time stay. The update timestamp
      moves only when a column actually changed. */
  function Edited(x: Recipe, req: RecipeUpdateRequest, body: MultipartBody, url: string, now: int): (y: Recipe)
    ensures y.id == x.id && y.ownerId == x.ownerId && y.about == x.about && y.createdAt == x.createdAt
    ensures y.titulo == if Provided(req.titulo) then req.titulo.value else x.titulo
    ensures y.ingredientes == if Provided(req.ingredientes) then req.ingredientes.value else x.ingredientes
    ensures y.modoPreparo == if Provided(req.modoPreparo) then req.modoPreparo.value else x.modoPreparo
    ensures y.urlFoto == if body.image.Some? then url else x.urlFoto
    ensures y.(updatedAt := x.updatedAt) == x ==> y == x
    ensures y.(updatedAt := x.updatedAt) != x ==> y.updatedAt == now
  {
    var y := x.(
      titulo := if Provided(req.titulo) then req.titulo.value else x.titulo,
      ingredientes := if Provided(req.ingredientes) then req.ingredientes.value else x.ingredientes,
      modoPreparo := if Provided(req.modoPreparo) then req.modoPreparo.value else x.modoPreparo,
      urlFoto := if body.image.Some? then url else x.urlFoto);
    if y == x then x else y.(updatedAt := now)
  }

  /** What update decides: the edited recipe, or why it refuses. The request
      is validated (400), the recipe looked up (404), the subject compared with
      the owner's id as text (absent subject, or a recipe whose author row is
      missing so that the owner's id is read through null: 500; different:
      403), then the photo stored when sent (see SaveOutcome). */
  function UpdateOutcome(recipes: seq<Recipe>, users: seq<User>, id: int, subject: Option<string>,
                         req: RecipeUpdateRequest, body: MultipartBody, uuid: string, baseUrl: string, now: int)
    : (r: Result<Recipe>)
    ensures RecipeUpdateViolations(req) != multiset{} ==> r == Err(Rejected(RecipeUpdateViolations(req)))
    ensures RecipeUpdateViolations(req) == multiset{} && FindRecipe(recipes, id).None?
      ==> r == Err(Api(404, RecipeNotFoundMessage))
    ensures RecipeUpdateViolations(req) == multiset{} && FindRecipe(recipes, id).Some? && subject.None?
      ==> r == Err(Unchecked(NullPointer))
    ensures RecipeUpdateViolations(req) == multiset{} && FindRecipe(recipes, id).Some?
      && FindUser(users, FindRecipe(recipes, id).value.ownerId).None?
      ==> r == Err(Unchecked(NullPointer))
    ensures RecipeUpdateViolations(req) == multiset{} && FindRecipe(recipes, id).Some? && subject.Some?
      && FindUser(users, FindRecipe(recipes, id).value.ownerId).Some?
      && subject.value != ToDecimal(FindRecipe(recipes, id).value.ownerId)
      ==> r == Err(Api(403, EditForbiddenMessage))
    ensures r.Ok? <==>
      && RecipeUpdateViolations(req) == multiset{} && FindRecipe(recipes, id).Some?
      && subject == Some(ToDecimal(FindRecipe(recipes, id).value.ownerId))
      && (body.image.Some? ==> SaveOutcome(body).Ok?)
      && FindUser(users, FindRecipe(recipes, id).value.ownerId).Some?
    ensures r.Ok? ==> r.value == Edited(FindRecipe(recipes, id).value, req, body,
      if body.image.Some? then ImageUrl(baseUrl, StoredName(uuid, body.imageName.value)) else "", now)
  {
    if RecipeUpdateViolations(req) != multiset{} then Err(Rejected(RecipeUpdateViolations(req)))
    else match FindRecipe(recipes, id)
      case None => Err(Api(404, RecipeNotFoundMessage))
      case Some(x) =>
        if subject.None? || FindUser(users, x.ownerId).None? then Err(Unchecked(NullPointer))
        else if subject.value != ToDecimal(x.ownerId) then Err(Api(403, EditForbiddenMessage))
        else if body.image.Some? && SaveOutcome(body).Err? then Err(SaveOutcome(body).failure)
        else
          var url := if body.image.Some? then ImageUrl(baseUrl, StoredName(uuid, body.imageName.value)) else "";
          Ok(Edited(x, req, body, url, now))
  }

  /** The response of update: the edited text, the photo and the author. */
  function UpdatedResponse(y: Recipe, u: UserResponse): RecipeResponse
  {
    RecipeResponse(y.id, u, y.titulo, Some(y.ingredientes), Some(y.modoPreparo), None,
                   Some(y.urlFoto), None, None, None, None)
  }

  /** update: replaces the recipe's row by its edited version, storing the
      photo first when one is sent. */
  method Update(db: Store, id: int, subject: Option<string>, req: RecipeUpdateRequest, body: MultipartBody,
                uuid: string, imageId: string, baseUrl: string, now: int)
    returns (r: Result<RecipeResponse>)
    modifies db`recipes, db`images
    ensures var outcome := UpdateOutcome(old(db.recipes), db.users, id, subject, req, body, uuid, baseUrl, now);
      && (outcome.Err? ==>
            r == Err(outcome.failure) && db.recipes == old(db.recipes) && db.images == old(db.images))
      && (outcome.Ok? ==>
            && db.recipes == old(db.recipes)[RecipeIndex(old(db.recipes), id).value := outcome.value]
            && r == Ok(UpdatedResponse(outcome.value, Summary(FindUser(db.users, outcome.value.ownerId).value)))
            && (body.image.None? ==> db.images == old(db.images))
            && (body.image.Some? ==>
                  && |db.images| == |old(db.images)| + 1 && db.images[..|old(db.images)|] == old(db.images)
                  && db.images[|old(db.images)|].name == StoredName(uuid, body.imageName.value)
                  && db.images[|old(db.images)|].data == body.image.value.data
                  && db.images[|old(db.images)|].id == Some(imageId)))
  {
    var outcome := UpdateOutcome(db.recipes, db.users, id, subject, req, body, uuid, baseUrl, now);
    if outcome.Err? {
      return Err(outcome.failure);
    }
    if body.image.Some? {
      var url := Save(db, body, uuid, imageId, now, baseUrl);
    }
    var i := RecipeIndex(db.recipes, id).value;
    db.recipes := db.recipes[i := outcome.value];
    var author := FindUser(db.users, outcome.value.ownerId).value;
    r := Ok(UpdatedResponse(outcome.value, Summary(author)));
  }

  /** Only the owner, presenting their id as issued, can edit; an edit with no
      field given and no image changes nothing, not even the timestamp. */
  lemma UpdateOnlyByOwner(recipes: seq<Recipe>, users: seq<User>, id: int, subject: Option<string>,
                          req: RecipeUpdateRequest, body: MultipartBody, uuid: string, baseUrl: string, now: int)
    requires UpdateOutcome(recipes, users, id, subject, req, body, uuid, baseUrl, now).Ok?
    ensures var x := FindRecipe(recipes, id).value;
      && subject == Some(ToDecimal(x.ownerId))
      && (req.titulo.None? && req.ingredientes.None? && req.modoPreparo.None? && body.image.None?
          ==> UpdateOutcome(recipes, users, id, subject, req, body, uuid, baseUrl, now).value == x)
  {
  }

  /** Editing keeps every recipe id, so the table keeps unique ids and the
      recipe stays where it was. */
  lemma UpdateKeepsIds(recipes: seq<Recipe>, users: seq<User>, id: int, subject: Option<string>,
                       req: RecipeUpdateRequest, body: MultipartBody, uuid: string, baseUrl: string, now: int)
    requires UniqueRecipeIds(recipes)
    requires UpdateOutcome(recipes, users, id, subject, req, body, uuid, baseUrl, now).Ok?
    ensures var after := recipes[RecipeIndex(recipes, id).value :=
                                 UpdateOutcome(recipes, users, id, subject, req, body, uuid, baseUrl, now).value];
      && UniqueRecipeIds(after)
      && FindRecipe(after, id) == Some(UpdateOutcome(recipes, users, id, subject, req, body, uuid, baseUrl, now).value)
  {
    var i := RecipeIndex(recipes, id).value;
    var y := UpdateOutcome(recipes, users, id, subject, req, body, uuid, baseUrl, now).value;
    var after := recipes[i := y];
    assert after[i] == y;
    assert forall j :: 0 <= j < |after| ==> after[j].id == recipes[j].id;
    var k := RecipeIndex(after, id).value;
    assert k == i;
  }

  /** What delete decides: the position of the recipe to remove, or why it
      refuses: 404, then an absent subject or a missing author row (500, the
      owner's id is read through null), then a caller other than the owner
      (403). */
  function DeleteOutcome(recipes: seq<Recipe>, users: seq<User>, id: int, subject: Option<string>): (r: Result<nat>)
    ensures FindRecipe(recipes, id).None? ==> r == Err(Api(404, RecipeNotFoundMessage))
    ensures FindRecipe(recipes, id).Some? && subject.None? ==> r == Err(Unchecked(NullPointer))
    ensures FindRecipe(recipes, id).Some? && FindUser(users, FindRecipe(recipes, id).value.ownerId).None?
      ==> r == Err(Unchecked(NullPointer))
    ensures FindRecipe(recipes, id).Some? && subject.Some?
      && FindUser(users, FindRecipe(recipes, id).value.ownerId).Some?
      && subject.value != ToDecimal(FindRecipe(recipes, id).value.ownerId)
      ==> r == Err(Api(403, DeleteForbiddenMessage))
    ensures r.Ok? <==>
      && FindRecipe(recipes, id).Some?
      && FindUser(users, FindRecipe(recipes, id).value.ownerId).Some?
      && subject == Some(ToDecimal(FindRecipe(recipes, id).value.ownerId))
    ensures r.Ok? ==> r.value < |recipes| && recipes[r.value].id == id
  {
    match RecipeIndex(recipes, id)
    case None => Err(Api(404, RecipeNotFoundMessage))
    case Some(i) =>
      if subject.None? || FindUser(users, recipes[i].ownerId).None? then Err(Unchecked(NullPointer))
      else if subject.value != ToDecimal(recipes[i].ownerId) then Err(Api(403, DeleteForbiddenMessage))
      else Ok(i)
  }

  /** delete: removes the recipe and, by cascade, its ratings. */
  method Delete(db: Store, id: int, subject: Option<string>) returns (r: Result<()>)
    modifies db`recipes, db`ratings
    ensures var outcome := DeleteOutcome(old(db.recipes), db.users, id, subject);
      && (outcome.Err? ==> r == Err(outcome.failure) && db.recipes == old(db.recipes) && db.ratings == old(db.ratings))
      && (outcome.Ok? ==>
            && r == Ok(())
            && db.recipes == RemoveAt(old(db.recipes), outcome.value)
            && db.ratings == WithoutRecipe(old(db.ratings), id))
  {
    var outcome := DeleteOutcome(db.recipes, db.users, id, subject);
    if outcome.Err? {
      return Err(outcome.failure);
    }
    db.recipes := RemoveAt(db.recipes, outcome.value);
    db.ratings := WithoutRecipe(db.ratings, id);
    r := Ok(());
  }

  /** After a delete the recipe is gone (getById answers 404), it has no
      ratings left, and every other recipe keeps its row and its figures. */
  lemma DeleteRemovesExactlyIt(recipes: seq<Recipe>, ratings: seq<Rating>, users: seq<User>, id: int,
                               subject: Option<string>, other: int)
    requires UniqueRecipeIds(recipes)
    requires DeleteOutcome(recipes, users, id, subject).Ok?
    ensures var after := RemoveAt(recipes, DeleteOutcome(recipes, users, id, subject).value);
      && GetById(after, users, id) == Err(Api(404, RecipeNotFoundMessage))
      && RatingCount(WithoutRecipe(ratings, id), id) == 0
      && (other != id ==>
            && FindRecipe(after, other) == FindRecipe(recipes, other)
            && RatingCount(WithoutRecipe(ratings, id), other) == RatingCount(ratings, other)
            && AverageScore(WithoutRecipe(ratings, id), other) == AverageScore(ratings, other))
  {
    var i := DeleteOutcome(recipes, users, id, subject).value;
    var after := RemoveAt(recipes, i);
    forall x | x in after
      ensures x.id != id
    {
      var j :| 0 <= j < |after| && after[j] == x;
      if j < i {
        assert x == recipes[j];
      } else {
        assert x == recipes[j + 1];
      }
    }
    WithoutRecipeFigures(ratings, id, other);
    if other != id {
      FindAfterRemoval(recipes, i, other);
    }
  }

  /** Removing the row at i does not change what any other id finds. */
  lemma FindAfterRemoval(recipes: seq<Recipe>, i: nat, other: int)
    requires i < |recipes| && recipes[i].id != other
    ensures FindRecipe(RemoveAt(recipes, i), other) == FindRecipe(recipes, other)
  {
    var after := RemoveAt(recipes, i);
    var p := RecipeHasId(other);
    FirstWhereAfterRemoval(recipes, i, p);
    assert RecipeIndex(recipes, other) == FirstWhere(recipes, p);
    assert RecipeIndex(after, other) == FirstWhere(after, p);
  }
}
