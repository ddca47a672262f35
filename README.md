# Recipe-sharing backend: services and repositories in Dafny

This project models the service and repository layer of a recipe-sharing
backend. It covers:

- **Recipes**: listing, search, publishing, editing and deleting, with their
  ordering and paging rules.
- **Ratings**: the check chain before a rating is posted, counts and mean
  scores, and paged listings of a recipe's ratings.
- **Images**: uploading, looking up, describing and deleting images, and the
  centred crop-and-rescale that overwrites an image's bytes in place.
- **Users**: profiles that show the e-mail only to their owner, sign-up, and
  the rule that a password changes only with the current password.
- **Requests**: the bean-validation constraints of the request bodies, as the
  multiset of messages a 400 response carries.

## Modelling choices

- **Tables.** The database is the class `Database.Store`, with one `seq` field
  per table. Rows are values (`Records.Recipe`, `Records.Rating`,
  `Records.User`, `Records.AuthInfo`). Images are objects of the class
  `Images.Image`, because `scale` overwrites an image's `data` in place and the
  caller keeps that same object.
- **Transactions.** Each `@Transactional` operation is split in two:
  - a pure function (`PostOutcome`, `CreateOutcome`, `UpdateOutcome`,
    `DeleteOutcome`, `SaveOutcome`) decides the new rows or the failure;
  - a method applies the decision to the `Store` only on success.

  So a failure leaves every table as it was, which is what the rollback of the
  transaction does.
- **Failures.** `Common.Failure` has three kinds:
  - `Api(code, message)` for the application's own exceptions;
  - `Rejected(violations)` for bean-validation failures (400);
  - `Unchecked(fault)` for any other exception (500): a null dereference, a
    `NumberFormatException`, an `IllegalArgumentException` from `Page.of` or
    the imaging library, or a `RasterFormatException`.

  `Common.Status` maps a failure to its HTTP code.
- **Inputs instead of effects.** Values the database or the runtime generates
  enter as parameters: ids, timestamps, the random UUID of a stored image
  name, the base URL, and the hash bcrypt would compute. The following are
  parameters too:
  - the bcrypt check, as `matches(plain, hash)`;
  - the `@Email` syntax check, as `isEmail`;
  - the collation of the search's `LIKE`, as a character relation `eq`;
  - ImageIO decoding and JPEG encoding, as a `Codec`.
- **Mean scores** are exact reals, `sum / count`, and 0 without ratings.
- **Orderings.** The queries do not break ties on the sort key. Every query
  result is therefore specified as a permutation of the selected rows that is
  sorted by the key. `Ordering.SortedPermutationsAgreeOnKeys` shows that any
  two such results agree key by key. The paging lemmas take one such order
  for all pages of a listing; `Paging.TiedPagesOverlap` shows what separate
  page queries may do instead.
- **Paging.** `Page.of(n, k)` selects rows `n*k` up to `(n+1)*k` and cuts at
  the end. `hasNextPage()` holds when the next page is not empty, which is
  exactly `|rows| > (n+1)*k`.
- **Owner checks.** Two services compare the caller with an owner in
  different ways:
  - updating or deleting a recipe compares the token subject as text with
    `Long.toString` of the owner's id;
  - rating a recipe parses the subject with `Long.valueOf` and compares
    numbers.

  `Decimal` models both. `Decimal.CanonicalSubjectChecksAgree` shows the two
  agree for subjects issued as an id's decimal text. `Decimal.NonCanonicalSubject`
  shows they can disagree otherwise ("+7").

### Behaviour worth noting

- **Listing orders.** The recipe listings know only the key "recent" (newest
  first). Every other key, "oldest" included, sorts by mean score
  (src/main/java/dev/vicaw/repository/RecipeRepository.java:14-22).
- **Search order.** The search has no "recent" key: "recent" falls into the
  default case and sorts by mean score. Only "older" and "newer" sort by
  creation time, ascending and descending
  (src/main/java/dev/vicaw/repository/RecipeRepository.java:46-56).
- **Case sensitivity.** The search uses `LIKE`, whose case sensitivity comes
  from the column collation. The model takes the collation's character
  equality as the parameter `eq`, and it does not escape `_` or `%` in the
  query (`Like.UnderscoreIsWildcard`).
- **Login lookup.** `AuthInfoRepository.findByUserId` is declared to return a
  bare `AuthInfo`, but `UserService` reads the result as an `Optional`. It is
  modelled as an optional row (`UserService.AuthIndex`).

## Model

| member | source | states |
|---|---|---|
| Common.Status | src/main/java/dev/vicaw/exception/ExceptionHandler.java:1-45 | An API failure answers with its own code, a validation failure with 400, any other exception with 500 |
| Common.IsWhitespace | src/main/java/dev/vicaw/service/RecipeService.java:166-176 | The characters `Character.isWhitespace` accepts (definition only) |
| Common.IsBlank | src/main/java/dev/vicaw/service/RecipeService.java:166-176 | `String.isBlank`: every character is whitespace, the empty string included (definition only) |
| Common.FirstWhereAfterRemoval | src/main/java/dev/vicaw/service/RecipeService.java:211 | Removing a row that fails a lookup's condition moves the first match down by one position when it came after the row, and leaves it in place otherwise |
| Decimal.ParseToDecimal | src/main/java/dev/vicaw/service/RatingService.java:81 | `Long.valueOf` of `Long.toString(n)` gives back n for every 64-bit n |
| Decimal.ToDecimal | src/main/java/dev/vicaw/service/RecipeService.java:159 | `Long.toString` gives non-empty text that starts with '-' exactly for a negative number; `Decimal.ParseToDecimal` is its inverse |
| Decimal.DigitsRoundTrip | src/main/java/dev/vicaw/service/RecipeService.java:159 | The value of an id's decimal digits is the id |
| Decimal.CanonicalSubjectChecksAgree | src/main/java/dev/vicaw/service/RecipeService.java:159 | For a subject issued as an id's decimal text, the textual owner check (update, delete) and the numeric one (rating) decide alike |
| Decimal.NonCanonicalSubject | src/main/java/dev/vicaw/service/RatingService.java:81-84 | The subject "+7" parses to 7 but differs from "7" as text, so the two owner checks can disagree |
| Decimal.ParseLong | src/main/java/dev/vicaw/service/RecipeService.java:117 | A parsed subject is non-empty text and lies in the 64-bit range |
| Paging.PageOf | src/main/java/dev/vicaw/service/RecipeService.java:58-61 | Page n of size k holds the rows from n*k on, at most k of them, exactly k when enough follow, and none past the end |
| Paging.HasNextPage | src/main/java/dev/vicaw/service/RecipeService.java:60 | `hasNextPage()` holds exactly when the following page is not empty |
| Paging.PagesArePrefix | src/main/java/dev/vicaw/service/RecipeService.java:58-61 | For one fixed order of tied rows, the first c pages, read one after another, are exactly the first c*k rows, with none skipped or repeated |
| Paging.PagingReproducesListing | src/main/java/dev/vicaw/service/RecipeService.java:58-64 | For one fixed order of tied rows, reading pages until `hasNextPage()` is false reproduces the unpaged listing |
| Paging.TiedPagesOverlap | src/main/java/dev/vicaw/repository/RecipeRepository.java:14-22 | With two rows tied on the sort key both orders are valid, and page 1 of one holds the same row as page 0 of the other, so separate page queries can repeat a row and skip another |
| Like.PercentMatchesAll | src/main/java/dev/vicaw/repository/RecipeRepository.java:44 | The pattern '%' matches every text |
| Like.Matches | src/main/java/dev/vicaw/repository/RecipeRepository.java:44 | A pattern without wildcards matches exactly the texts of its length that are equal to it character by character under the collation |
| Like.PrefixPattern | src/main/java/dev/vicaw/repository/RecipeRepository.java:44 | `q%` matches exactly the texts that start with q |
| Like.SuffixPattern | src/main/java/dev/vicaw/repository/RecipeRepository.java:44 | `%p` matches exactly the texts with a suffix that p matches |
| Like.LikeIsSubstring | src/main/java/dev/vicaw/repository/RecipeRepository.java:44 | For a query without wildcards, `LIKE '%q%'` holds exactly when q occurs in the text |
| Like.UnderscoreIsWildcard | src/main/java/dev/vicaw/repository/RecipeRepository.java:44 | The query is not escaped: "a_c" finds "abc" |
| Ordering.SortBy | src/main/java/dev/vicaw/repository/RecipeRepository.java:20 | An ORDER BY result is a permutation of the rows, sorted by the key |
| Ordering.Insert | src/main/java/dev/vicaw/repository/RecipeRepository.java:20 | Inserting into a sorted sequence keeps it sorted and adds exactly that element |
| Ordering.SortedPermutationsAgreeOnKeys | src/main/java/dev/vicaw/repository/RecipeRepository.java:20 | Any two sorted permutations of the same rows list the same keys in the same order, so only the order among ties is left open |
| Records.Summary | src/main/java/dev/vicaw/service/RecipeService.java:78-79 | The user embedded in recipe and rating responses carries id, name and photo, and no e-mail |
| Records.FindRecipe | src/main/java/dev/vicaw/service/RecipeService.java:87 | `findByIdOptional` yields a recipe of the table with that id, and is empty exactly when no row has it |
| Records.FindUser | src/main/java/dev/vicaw/service/UserService.java:49 | `findByIdOptional` yields a user of the table with that id, and is empty exactly when no row has it |
| Records.RecipeIndex | src/main/java/dev/vicaw/service/RecipeService.java:201 | The position of the first recipe with the id, and none exactly when no row has it |
| Records.UserIndex | src/main/java/dev/vicaw/service/UserService.java:144 | The position of the first user with the id, and none exactly when no row has it |
| Requests.Size | src/main/java/dev/vicaw/model/request/RecipeUpdateRequest.java:14 | `@Size` accepts an absent value and a value whose length in UTF-16 code units lies inside the bounds, and otherwise reports its own message once |
| Requests.Utf16Length | src/main/java/dev/vicaw/model/request/RecipeUpdateRequest.java:14 | The length `@Size` measures lies between the number of characters and twice it, and equals it when no character lies outside the basic multilingual plane |
| Requests.SurrogatePairsCountTwice | src/main/java/dev/vicaw/model/request/RecipeUpdateRequest.java:14 | Two emoji are four code units, so they meet a minimum length of three |
| Requests.Required | src/main/java/dev/vicaw/model/request/RecipeCreateRequest.java:15-17 | `@NotNull` together with `@Size` accepts exactly a present value whose UTF-16 length is allowed, and reports at most one message |
| Requests.RatingViolations | src/main/java/dev/vicaw/model/request/RatingCreateRequest.java:17-23 | A rating body is valid exactly when the score is present and in 1..5 and the comment is absent or 3..200 characters long |
| Requests.RecipeCreateViolations | src/main/java/dev/vicaw/model/request/RecipeCreateRequest.java:15-29 | A new recipe is valid exactly when titulo (3..30), ingredientes, modoPreparo and about (3..3000 each) are all present and within bounds |
| Requests.RecipeUpdateViolations | src/main/java/dev/vicaw/model/request/RecipeUpdateRequest.java:14-24 | An edit is valid exactly when each present field is within its bounds, about included; absent fields are allowed |
| Requests.UserCreateViolations | src/main/java/dev/vicaw/model/request/UserCreateRequest.java:16-27 | A sign-up is valid exactly when the name (3..30), the e-mail (7..128, well-formed) and the password (8..128) are present and within bounds |
| Requests.UserUpdateViolations | src/main/java/dev/vicaw/model/request/UserUpdateRequest.java:14-21 | A profile edit is valid exactly when each present field is within its bounds (name 3..30, passwords 8..128) |
| Requests.UserAuthViolations | src/main/java/dev/vicaw/model/request/UserAuthRequest.java:14-20 | A login body is valid exactly when the e-mail is present and empty or well-formed, and the password is present with 8..128 characters |
| Requests.SharedMessageReportedTwice | src/main/java/dev/vicaw/model/request/RecipeCreateRequest.java:19-25 | ingredientes and modoPreparo share one message, so a body with both too short reports it twice |
| Requests.MissingScore | src/main/java/dev/vicaw/model/request/RatingCreateRequest.java:17-20 | A missing score is reported once, by `@NotNull`; the range bounds accept it |
| RatingRepository.RatingsOf | src/main/java/dev/vicaw/repository/RatingRepository.java:16 | The query by recipe keeps exactly that recipe's ratings, each as often as in the table |
| RatingRepository.ListAllRecipeRatings | src/main/java/dev/vicaw/repository/RatingRepository.java:28-31 | The listing is a permutation of the recipe's ratings, sorted by the sort its key selects |
| RatingRepository.ListingOrders | src/main/java/dev/vicaw/repository/RatingRepository.java:19-29 | "highest" lists scores from best to worst, "lowest" from worst to best, and "recent" or any other key lists the newest rating first |
| RatingRepository.GetUserRating | src/main/java/dev/vicaw/repository/RatingRepository.java:33-37 | The result is a rating by that user on that recipe, and it is empty exactly when there is none |
| RatingRepository.ExistsByUserAndRecipeId | src/main/java/dev/vicaw/repository/RatingRepository.java:39-41 | True exactly when some rating has that user and that recipe |
| RatingRepository.RatingCount | src/main/java/dev/vicaw/repository/RatingRepository.java:43-45 | The count is 0 exactly when the recipe has no rating |
| RatingRepository.CountIsListingLength | src/main/java/dev/vicaw/repository/RatingRepository.java:43-45 | The count equals the length of the recipe's listing, whatever its order |
| RatingRepository.CountMatchesMultiset | src/main/java/dev/vicaw/repository/RatingRepository.java:43-45 | The count equals the number of the recipe's ratings |
| RatingRepository.AverageScore | src/main/java/dev/vicaw/repository/RatingRepository.java:47-55 | The mean is 0 without ratings, and otherwise the sum of the recipe's scores divided by their count |
| RatingRepository.ScoreSum | src/main/java/dev/vicaw/repository/RatingRepository.java:47-55 | The total of the recipe's scores (definition only; `RatingRepository.ScoreSumBounds` bounds it) |
| RatingRepository.AppendRating | src/main/java/dev/vicaw/repository/RatingRepository.java:44-54 | One more rating adds one to its own recipe's count and its score to that recipe's total, and changes no other recipe's figures |
| RatingRepository.ScoreSumBounds | src/main/java/dev/vicaw/repository/RatingRepository.java:51-54 | With every score between lo and hi, the total lies between count*lo and count*hi |
| RatingRepository.AverageInRange | src/main/java/dev/vicaw/repository/RatingRepository.java:51-54 | Once a recipe has a rating, the mean of valid scores lies between 1 and 5 |
| RatingRepository.MeanBetween | src/main/java/dev/vicaw/repository/RatingRepository.java:51-54 | A total between n*lo and n*hi has a mean between lo and hi |
| RatingRepository.WithoutRecipe | src/main/java/dev/vicaw/model/Recipe.java:51 | Deleting a recipe removes exactly its ratings (cascade) |
| RatingRepository.WithoutRecipeFigures | src/main/java/dev/vicaw/model/Recipe.java:51 | After the cascade, the recipe has no ratings and every other recipe keeps its count and total |
| RatingRepository.AverageExample | src/main/java/dev/vicaw/repository/RatingRepository.java:47-55 | Scores 5 and 3 give count 2 and mean 4.0; a third score of 4 keeps the mean at 4.0 |
| RatingService.RespondAll | src/main/java/dev/vicaw/service/RatingService.java:55-65 | Each listed rating becomes exactly its `Respond` response (id, author summary with name and photo, comment, score and timestamps), in the same order; a missing author is a null dereference |
| RatingService.Respond | src/main/java/dev/vicaw/service/RatingService.java:101-109 | A rating's response carries its id, comment, score and timestamps and its author's summary; it fails with a null dereference exactly when the author row is missing |
| RatingService.CallerId | src/main/java/dev/vicaw/service/RatingService.java:81 | The caller id exists exactly when the subject is present and `Long.valueOf` accepts it, and is then a 64-bit value |
| RatingService.GetRatingInfo | src/main/java/dev/vicaw/service/RatingService.java:112-123 | 404 exactly for a missing recipe; otherwise the count of the recipe's ratings and their mean (0 without ratings) |
| RatingService.GetAverageRating | src/main/java/dev/vicaw/service/RatingService.java:125-132 | 404 exactly for a missing recipe; otherwise the same mean as getRatingInfo |
| RatingService.GetRatingCount | src/main/java/dev/vicaw/service/RatingService.java:134-141 | 404 exactly for a missing recipe; otherwise the number of the recipe's ratings |
| RatingService.GetUserRatingOf | src/main/java/dev/vicaw/service/RatingService.java:143-171 | The three 404s come in order (recipe, user, no rating); when the recipe, the user and a rating of theirs exist the call succeeds, and any success is exactly the response built from the user's rating of that recipe |
| RatingService.ListRecipeRatings | src/main/java/dev/vicaw/service/RatingService.java:43-72 | 404 for a missing recipe; an invalid page (negative number, size below one) raises; for an existing recipe and a valid page it succeeds exactly when every rating on the page has its author row |
| RatingService.ListedPageRows | src/main/java/dev/vicaw/service/RatingService.java:49-65 | A listing holds exactly page n of size k of the recipe's ordered ratings, so at most k of them |
| RatingService.ListedPageHasMore | src/main/java/dev/vicaw/service/RatingService.java:53-71 | hasMore holds exactly when the recipe has more than (n+1)*k ratings, and the figures are the recipe's rating info |
| RatingService.PostOutcome | src/main/java/dev/vicaw/service/RatingService.java:74-99 | Checks run in order: body (400), recipe (404), subject not a number (500), recipe whose author row is missing (500, its id is read through null), own recipe (403), earlier rating (409), caller without a user row (500); a success is exactly a new rating with the request's score and comment by the caller |
| RatingService.PostRating | src/main/java/dev/vicaw/service/RatingService.java:74-110 | On success exactly one rating is appended and its response returned; on any failure the ratings table is unchanged |
| RatingService.PostKeepsConsistent | src/main/java/dev/vicaw/service/RatingService.java:84-99 | A successful post keeps the table consistent: ratings on existing recipes, never by the owner, scores 1..5, at most one per user and recipe |
| RatingService.SecondPostConflicts | src/main/java/dev/vicaw/service/RatingService.java:88-99 | After a successful post, any later valid post by the same caller on the same recipe fails with 409 |
| RatingService.OwnerCannotRate | src/main/java/dev/vicaw/service/RatingService.java:81-86 | The owner, with their id as issued and a user row of their own, is refused with 403 whatever they rated before |
| RatingService.PostUpdatesOnlyItsRecipe | src/main/java/dev/vicaw/service/RatingService.java:92-99 | A successful post adds one to its recipe's count and its score to the total, and no other recipe's count or mean changes |
| RecipeRepository.ListingOrder | src/main/java/dev/vicaw/repository/RecipeRepository.java:14-22 | The listings order newest first exactly for "recent", and never oldest first |
| RecipeRepository.OrderKey | src/main/java/dev/vicaw/repository/RecipeRepository.java:14-22 | The ORDER BY expression: the mean score (0 without ratings) for the rating order, the creation time otherwise (definition only; `RecipeRepository.ListingOrders` proves the order) |
| RecipeRepository.SearchOrder | src/main/java/dev/vicaw/repository/RecipeRepository.java:46-56 | The search orders oldest first exactly for "older" and newest first exactly for "newer" |
| RecipeRepository.Ordered | src/main/java/dev/vicaw/repository/RecipeRepository.java:20 | A query result is a permutation of its rows, sorted by the order's key |
| RecipeRepository.ListAllRecipes | src/main/java/dev/vicaw/repository/RecipeRepository.java:11-25 | Every recipe once, sorted by the listing order of the key |
| RecipeRepository.ListAllUserRecipes | src/main/java/dev/vicaw/repository/RecipeRepository.java:27-41 | Exactly the author's recipes, each once, sorted by the listing order of the key |
| RecipeRepository.Search | src/main/java/dev/vicaw/repository/RecipeRepository.java:43-60 | Exactly the recipes whose "titulo ingredientes" text matches `%q%`, each once, sorted by the search order of the key |
| RecipeRepository.SearchText | src/main/java/dev/vicaw/repository/RecipeRepository.java:44 | `CONCAT_WS(' ', titulo, ingredientes)` (definition only; `RecipeRepository.MatchSpansJoin` shows a match can span the space) |
| RecipeRepository.ListingOrders | src/main/java/dev/vicaw/repository/RecipeRepository.java:14-22 | "recent" lists the newest recipe first; any other key lists by mean score, best first, with unrated recipes counted as 0 |
| RecipeRepository.SearchOrders | src/main/java/dev/vicaw/repository/RecipeRepository.java:46-56 | "older" is oldest first, "newer" newest first, and any other key, "recent" included, is by mean score, best first |
| RecipeRepository.UserRecipesAreTheirs | src/main/java/dev/vicaw/repository/RecipeRepository.java:28 | A recipe is listed for an author exactly when it is in the table and is theirs |
| RecipeRepository.SearchIsSubstring | src/main/java/dev/vicaw/repository/RecipeRepository.java:44 | For a query without wildcards, a recipe is found exactly when the query occurs in its title, a space and its ingredients |
| RecipeRepository.MatchSpansJoin | src/main/java/dev/vicaw/repository/RecipeRepository.java:44 | A match may span the joining space: "o d" finds "Bolo" with ingredients "de milho" |
| RecipeRepository.OrderUniqueUpToTies | src/main/java/dev/vicaw/repository/RecipeRepository.java:20 | Any ordering of the same rows by the same key agrees key by key with the modelled one |
| RecipeService.Author | src/main/java/dev/vicaw/service/RecipeService.java:78-79 | The embedded author is the owner's summary; a missing owner row is a null dereference |
| RecipeService.Entry | src/main/java/dev/vicaw/service/RecipeService.java:66-80 | A listing entry carries the recipe's id, title, description, photo, timestamps, its author's summary and its own mean score and rating count; ingredients and preparation only when asked for; it fails exactly when the author row is missing |
| RecipeService.Entries | src/main/java/dev/vicaw/service/RecipeService.java:66-81 | The entries describe the rows one to one, in order, and fail exactly when some row's author is missing |
| RecipeService.EntriesIds | src/main/java/dev/vicaw/service/RecipeService.java:66-81 | The entries keep the rows' ids in the rows' order |
| RecipeService.Window | src/main/java/dev/vicaw/service/RecipeService.java:55-64 | Paging applies only when both page parameters are given; an invalid page raises; otherwise it is page n of size k, with hasMore exactly when |rows| > (n+1)*k |
| RecipeService.Listing | src/main/java/dev/vicaw/service/RecipeService.java:58-59 | An invalid page with both page parameters raises `IllegalArgumentException`; otherwise the listing succeeds exactly when every row of the window has its author row, and fails only with one of those two exceptions |
| RecipeService.ListingUnpaged | src/main/java/dev/vicaw/service/RecipeService.java:62-64 | Without both page parameters the listing holds every row in order and hasMore is false |
| RecipeService.ListingPaged | src/main/java/dev/vicaw/service/RecipeService.java:58-61 | With both page parameters the listing holds page n of size k, of the stated length, and hasMore says whether rows follow |
| RecipeService.ListingEntries | src/main/java/dev/vicaw/service/RecipeService.java:66-81 | Every entry of a listing describes one of its rows |
| RecipeService.WindowWithin | src/main/java/dev/vicaw/service/RecipeService.java:58-64 | The rows a window returns are rows of the query |
| RecipeService.EntriesDescribe | src/main/java/dev/vicaw/service/RecipeService.java:66-81 | Every entry describes one of the rows it was built from |
| RecipeService.Describes | src/main/java/dev/vicaw/service/RecipeService.java:66-80 | What a listing entry of a recipe holds: every field of the recipe, its author's summary and its own mean score and count, ingredients and preparation only in `list` (definition only) |
| RecipeService.ListRows | src/main/java/dev/vicaw/service/RecipeService.java:49-53 | `list` runs the author's query exactly when authorId is given, and otherwise the query over every recipe |
| RecipeService.List | src/main/java/dev/vicaw/service/RecipeService.java:46-84 | An invalid page with both page parameters raises `IllegalArgumentException`; otherwise list succeeds exactly when every recipe of the selected window has its author row |
| RecipeService.ListUnpaged | src/main/java/dev/vicaw/service/RecipeService.java:55-64 | Without both page parameters, `list` returns the whole ordered query and hasMore is false |
| RecipeService.ListPaged | src/main/java/dev/vicaw/service/RecipeService.java:58-61 | With both page parameters, `list` returns page n of size k of the ordered query, and hasMore holds exactly when more than (n+1)*k rows exist |
| RecipeService.ListEntries | src/main/java/dev/vicaw/service/RecipeService.java:66-81 | Every listed entry describes a stored recipe of the requested author in full, with its ingredients and preparation and the figures of its own ratings |
| RecipeService.SearchRecipe | src/main/java/dev/vicaw/service/RecipeService.java:214-216 | The search always pages: an invalid page raises `IllegalArgumentException`, and a valid one succeeds exactly when every matching recipe on the page has its author row |
| RecipeService.SearchPaged | src/main/java/dev/vicaw/service/RecipeService.java:214-234 | A search returns page n of size k of the ordered matches, and hasMore holds exactly when more than (n+1)*k recipes match |
| RecipeService.SearchEntries | src/main/java/dev/vicaw/service/RecipeService.java:219-232 | Every search entry describes a matching recipe with its own mean score and count, without ingredients or preparation |
| RecipeService.SearchExample | src/main/java/dev/vicaw/service/RecipeService.java:214-234 | Three matches with pages of two give two entries on page 0 and hasMore |
| RecipeService.GetById | src/main/java/dev/vicaw/service/RecipeService.java:86-111 | 404 for an unknown id; a null dereference exactly when the recipe's author row is missing; otherwise the recipe's own fields, its author's summary (id, name, photo) and no rating figures |
| RecipeService.CreateOutcome | src/main/java/dev/vicaw/service/RecipeService.java:113-129 | Validation (400), then the photo upload, then the subject (500); a success is exactly a recipe with the request's fields, the caller as owner and the uploaded photo's URL |
| RecipeService.Create | src/main/java/dev/vicaw/service/RecipeService.java:113-147 | On success exactly one recipe and one image are appended, the image named `uuid-name`, holding the uploaded bytes and the generated id; on failure neither table changes |
| RecipeService.CreateThenGet | src/main/java/dev/vicaw/service/RecipeService.java:86-147 | A created recipe with a fresh id is found by getById with the request's fields and the caller as author |
| RecipeService.Edited | src/main/java/dev/vicaw/service/RecipeService.java:162-181 | titulo, ingredientes and modoPreparo change only when given and not blank, the photo only with an image part; about, owner and creation time stay; the update timestamp stays when no column changed and becomes `now` otherwise |
| RecipeService.UpdateOutcome | src/main/java/dev/vicaw/service/RecipeService.java:149-196 | Validation (400), then 404 for a missing recipe, then 500 for an absent subject or a missing author row (the owner's id is read through null), then 403 unless the subject is the owner's id as text; a success is exactly the edited recipe |
| RecipeService.Update | src/main/java/dev/vicaw/service/RecipeService.java:149-197 | On success the recipe's row is replaced by its edit, in place, and with an image part one image named `uuid-name` holding the uploaded bytes is appended; on failure nothing changes |
| RecipeService.UpdateOnlyByOwner | src/main/java/dev/vicaw/service/RecipeService.java:159-176 | Only the owner can edit, and an edit with no field and no image leaves the recipe unchanged |
| RecipeService.UpdateKeepsIds | src/main/java/dev/vicaw/service/RecipeService.java:157-181 | Editing keeps recipe ids unique, and the recipe is then found with its edit |
| RecipeService.DeleteOutcome | src/main/java/dev/vicaw/service/RecipeService.java:199-211 | 404 for a missing recipe, then 500 for an absent subject or a missing author row (the owner's id is read through null), then 403 unless the subject is the owner's id as text; a success names that recipe's row |
| RecipeService.Delete | src/main/java/dev/vicaw/service/RecipeService.java:199-212 | On success exactly that row is removed, together with its ratings; on failure nothing changes |
| RecipeService.DeleteRemovesExactlyIt | src/main/java/dev/vicaw/service/RecipeService.java:199-212 | After a delete getById answers 404, the recipe has no ratings, and every other recipe keeps its row, count and mean |
| RecipeService.FindAfterRemoval | src/main/java/dev/vicaw/service/RecipeService.java:211 | Removing a row does not change what any other id finds |
| ImageService.LastIndexOf | src/main/java/dev/vicaw/service/ImageService.java:39 | The last position holding the character, or -1 when there is none |
| ImageService.ToLower | src/main/java/dev/vicaw/service/ImageService.java:41 | Lower-casing keeps the length |
| ImageService.SaveOutcome | src/main/java/dev/vicaw/service/ImageService.java:33-62 | A missing name is a null dereference, a refused format 400, a missing part a null dereference, read failures 500; a success is exactly an accepted name with a readable part |
| ImageService.Save | src/main/java/dev/vicaw/service/ImageService.java:33-62 | On success exactly one new image named `uuid-name` with the uploaded bytes is appended and its URL returned; on failure nothing changes |
| ImageService.StoredName | src/main/java/dev/vicaw/service/ImageService.java:50 | The stored name is the UUID, a dash, and the uploaded name unchanged, so the uploaded name can be read back from it |
| ImageService.ImageUrl | src/main/java/dev/vicaw/service/ImageService.java:53 | The URL of a stored image is the base URL, `/images/` and the stored name (definition only) |
| ImageService.UncheckedNames | src/main/java/dev/vicaw/service/ImageService.java:39-40 | A name without a '.' between two other characters is accepted whatever its format |
| ImageService.ExtensionRule | src/main/java/dev/vicaw/service/ImageService.java:25-44 | base.ext is accepted exactly when the lower-cased ext is jpg, jpeg or png |
| ImageService.FormatAccepted | src/main/java/dev/vicaw/service/ImageService.java:39-45 | A name is accepted when its last dot has no text on one side, or its lower-cased extension is jpg, jpeg or png (definition only; `ImageService.ExtensionRule` is its characterisation) |
| ImageService.AcceptedExamples | src/main/java/dev/vicaw/service/ImageService.java:39-44 | "foto.JPG" and "a.b.png" are accepted |
| ImageService.RefusedExamples | src/main/java/dev/vicaw/service/ImageService.java:39-44 | "foto.gif" and "foto.png.gif" are refused |
| ImageService.LastDotAt | src/main/java/dev/vicaw/service/ImageService.java:39 | The last '.' is at k when no later character is a '.' |
| ImageService.UncheckedExamples | src/main/java/dev/vicaw/service/ImageService.java:39-40 | ".gif", "gif." and "foto" skip the format check |
| ImageService.FindImage | src/main/java/dev/vicaw/service/ImageService.java:66 | The position of the first image with the name, and none exactly when no image has it |
| ImageService.DeleteImageByName | src/main/java/dev/vicaw/service/ImageService.java:64-71 | 404 for an unknown name and no change; otherwise exactly the first image of that name is removed |
| ImageService.GetImageInfoByName | src/main/java/dev/vicaw/service/ImageService.java:73-79 | 404 exactly when no image has the name; otherwise the id, name and timestamps of an image with that name |
| ImageService.GetImageByName | src/main/java/dev/vicaw/service/ImageService.java:81-88 | The stored image object of that name, otherwise a fresh default image (null when the asset cannot be read) |
| ImageService.GetImageByNameAndScale | src/main/java/dev/vicaw/service/ImageService.java:90-94 | Returns the very object looked up, whose bytes are now the scaled ones; no other stored image changes |
| Images.Trunc | src/main/java/dev/vicaw/model/Image.java:91-92 | The (int) cast of a non-negative double is its floor |
| Images.WideExtent | src/main/java/dev/vicaw/model/Image.java:85-86 | A relatively wider source is cut to width srcH*w/h at full height |
| Images.TallExtent | src/main/java/dev/vicaw/model/Image.java:87-88 | A relatively taller source is cut to height srcW*h/w at full width |
| Images.SameExtent | src/main/java/dev/vicaw/model/Image.java:78-89 | With equal aspect ratios the crop is the whole source |
| Images.WideCrop | src/main/java/dev/vicaw/model/Image.java:85-92 | The crop of a wider source is centred horizontally, with width srcH*w/h rounded down |
| Images.TallCrop | src/main/java/dev/vicaw/model/Image.java:87-92 | The crop of a taller source is centred vertically, with height srcW*h/w rounded down |
| Images.CropIsWhole | src/main/java/dev/vicaw/model/Image.java:78-92 | In exact arithmetic, for a positive target the (int) casts keep the crop integral: the too-long side cut to the target ratio, margins split evenly |
| Images.CropInside | src/main/java/dev/vicaw/model/Image.java:91-92 | The crop lies inside the source, keeps one side whole, and its margins differ by at most one pixel |
| Images.CropRect | src/main/java/dev/vicaw/model/Image.java:91-92 | The crop rectangle is centred: when it fits, its left and top margins are non-negative and at most one pixel smaller than the right and bottom ones |
| Images.CropNonEmpty | src/main/java/dev/vicaw/model/Image.java:91-92 | Unless the target's ratio exceeds the source's sides, the crop is a non-empty rectangle inside the source |
| Images.ScaleSentinel | src/main/java/dev/vicaw/model/Image.java:70-71 | Zero width or height returns the bytes untouched |
| Images.ScaleFailsSoft | src/main/java/dev/vicaw/model/Image.java:104-106 | An IOException while reading or writing returns the original bytes |
| Images.ScaledOutput | src/main/java/dev/vicaw/model/Image.java:94-102 | Every returned byte string is the original or the JPEG of a w x h canvas on black showing an in-bounds crop of the decoded source |
| Images.Scaled | src/main/java/dev/vicaw/model/Image.java:67-107 | A zero width or height returns the bytes unchanged; every exception that escapes is unchecked; new bytes come only from a positive target on a decodable image |
| Images.ScaleNeverRaises | src/main/java/dev/vicaw/model/Image.java:91-102 | In exact arithmetic, a positive w x h target on a decodable picture never raises when the crop is at least one pixel each way, that is w <= width*h and h <= height*w |
| Images.DegenerateTargetRaises | src/main/java/dev/vicaw/model/Image.java:84-92 | A 1x1 picture scaled to 3x1 gets a crop of height 0 and raises `RasterFormatException` |
| Images.NegativeTargetRaises | src/main/java/dev/vicaw/model/Image.java:78-96 | A negative width or height on a decodable image always raises |
| Images.Image.Scale | src/main/java/dev/vicaw/model/Image.java:67-107 | Returns what scaling decides and overwrites `data` with it on a normal return; on an exception `data` is unchanged |
| Images.Image.constructor | src/main/java/dev/vicaw/model/Image.java:34-53 | A new image entity holds the given id, bytes, name and timestamps |
| Images.DefaultImage | src/main/java/dev/vicaw/model/Image.java:55-65 | A fresh "notfound.jpg" image with the bundled bytes and no id, or null when the asset cannot be read |
| UserService.AuthIndex | src/main/java/dev/vicaw/service/UserService.java:62 | The lookup by user id finds a login record of that user, and none exactly when there is none |
| UserService.EmailIndex | src/main/java/dev/vicaw/service/UserService.java:75 | The lookup by e-mail finds the first login record with it, and none exactly when there is none |
| UserService.GetById | src/main/java/dev/vicaw/service/UserService.java:48-71 | 404 for an unknown id; the e-mail is included exactly when the token's subject is the user's id as text; a missing login record then gives 404 |
| UserService.EmailOnlyToOwner | src/main/java/dev/vicaw/service/UserService.java:61-68 | For a caller presenting their id as issued, the e-mail is shown exactly when the caller is the user |
| UserService.PhotoOutcome | src/main/java/dev/vicaw/service/UserService.java:78-80 | Without an image part the photo is "#"; otherwise the stored image's URL or the upload's failure |
| UserService.CreateOutcome | src/main/java/dev/vicaw/service/UserService.java:73-99 | Validation (400), then 409 for a registered e-mail, then the photo; a success is exactly a new user and login record with the request's name, e-mail and hashed password |
| UserService.Create | src/main/java/dev/vicaw/service/UserService.java:73-99 | On success exactly one user and one login record are appended, and with a photo one image named `uuid-name` holding the uploaded bytes; on failure no table changes |
| UserService.CreateKeepsKeysUnique | src/main/java/dev/vicaw/service/UserService.java:75-95 | Sign-up keeps e-mails unique, and with a fresh id also user ids and login records |
| UserService.SecondSignUpConflicts | src/main/java/dev/vicaw/service/UserService.java:75-76 | A second valid sign-up with the same e-mail fails with 409 |
| UserService.CreateThenGet | src/main/java/dev/vicaw/service/UserService.java:48-99 | After sign-up the user reads their own profile with the e-mail, and anonymous readers see it without |
| UserService.UpdateOutcome | src/main/java/dev/vicaw/service/UserService.java:101-139 | Validation (400), 404 for a missing user or login record; a success sets the name when given and not blank, the photo with an image part, and the hash only for a new password with a matching current one |
| UserService.Update | src/main/java/dev/vicaw/service/UserService.java:101-140 | On success the user and the login record are replaced in place by their edits, and with a photo one image named `uuid-name` holding the uploaded bytes is appended; on failure nothing changes |
| UserService.PasswordNeedsCurrentPassword | src/main/java/dev/vicaw/service/UserService.java:127-132 | The hash changes only with a new password whose current password matches the old hash, and then it is the new one's |
| UserService.WrongCurrentPassword | src/main/java/dev/vicaw/service/UserService.java:127-129 | A new password with a current password that does not match fails with 401 |
| UserService.UpdateKeepsKeys | src/main/java/dev/vicaw/service/UserService.java:116-132 | An update keeps user ids, login records and e-mails unique, and the user is found with its edit |
| UserService.Delete | src/main/java/dev/vicaw/service/UserService.java:142-152 | 404 and no change for an unknown id; otherwise exactly that user's row is removed |
| UserService.DeleteRemovesExactlyThem | src/main/java/dev/vicaw/service/UserService.java:142-152 | After a delete the user is no longer found, and every other user is found as before |
| UserService.AbsentAfterRemoval | src/main/java/dev/vicaw/service/UserService.java:151 | With unique ids, no row with the removed user's id is left |
| UserService.FindUserAfterRemoval | src/main/java/dev/vicaw/service/UserService.java:151 | Removing a row does not change what any other id finds |

## Left out

- JAX-RS resources, JSON parsing and exception mappers are left out. Their defaults are inputs of the model: page size 10, page 0 and the order keys. The search query's length bound on the resource is left out too. The self-or-administrator check before a user update belongs to the endpoint.
- Issuing the JWT on sign-up is left out. So is the token in the sign-up response: `UserService.CreateOutcome` returns only the user part. Of `AuthService.authenticate`, only the 401 path that sign-up can reach is modelled, as `matches(password, hashed)`.
- Bcrypt, the `@Email` syntax and the collation of the search's `LIKE` are parameters (`matches`/`hashed`, `isEmail`, `eq`). Image decoding and encoding are the `Codec` parameter. Resampling the crop to the target size belongs to that codec (the `Canvas` it is handed).
- Images.Trunc: only the non-negative case is pinned down, because the double rounding of the aspect arithmetic is not modelled. The crop is computed in exact reals with truncation.
- The mean score is an exact real. The database's floating-point `AVG` is not modelled.
- Persistence is reduced to sequences. Flushing, generated ids and timestamps (inputs here), and whether a rescaled image's new bytes reach the database are left out.
- Concurrency is left out, including the race between the duplicate-rating check and the insertion.
- A null `orderBy` makes the `switch` throw. The model takes the key as a non-null string.
- `toLowerCase` is modelled on ASCII letters only.
- The `object` part of a multipart body is left out, because no service reads it.
- `Image.article_id` is left out, because no service sets or reads it.
- `UserService.list()` is left out: it returns the whole user table unchanged.
- UserService.Delete removes only the user's row. What the database does with the user's login record, recipes and ratings depends on mapping settings that are not part of this model, so it is not modelled.
- RecipeService.Update: the response carries the edited text, the photo and the author, but no `about` and no timestamps. This is as in the code.
- RecipeService.Create: the response carries no photo URL, as in the code.
- Images.CropIsWhole: holds in exact arithmetic only. Java computes the crop extent in doubles, where `49.0 * (1.0 / 49.0)` is 0.9999999999999999, so for a 10×49 picture and a 1×49 target the `(int)` cast gives a crop width of 0, not 1.
- Images.ScaleNeverRaises: holds in exact arithmetic only. For the 10×49 picture and the 1×49 target above, Java's crop is 0 wide and `getSubimage` throws `RasterFormatException`, while the model crops a 1-wide column and scales it. It also needs w <= width*h and h <= height*w even in exact arithmetic: without them the cut side truncates to 0 (a 1×1 picture scaled to 3×1 has a crop height of 0) and `getSubimage` throws `RasterFormatException`, which `Images.Scaled` returns too (`Images.DegenerateTargetRaises`).
- Strings are sequences of Unicode scalar values, so a request string holding an unpaired surrogate cannot be written in the model; lengths are counted in UTF-16 code units (`Requests.Utf16Length`), as `@Size` counts them.
- Decimal.ParseLong: accepts only the ASCII digits 0-9. `Long.parseLong` also accepts the decimal digits of other scripts (such as "٧" for 7), so a subject written in those digits is a `NumberFormatException` in the model but a user id in Java.
- Paging.PagesArePrefix: assumes every page query orders tied rows the same way. Each page is a separate query whose ORDER BY has no tie-breaker, so the database may order tied rows (every unrated recipe under the default order, for one) differently each time and return a row on two pages while skipping another (`Paging.TiedPagesOverlap`).
- Paging.PagingReproducesListing: rests on the same assumption of one fixed order of tied rows across the page queries.
- Paging.PageOf: the offset `index * size` is an unbounded integer. Panache computes it as a 32-bit `int`: for page 2^29 of size 8 the product wraps to 0 and Java returns the first page, where the model returns an empty page; a product that wraps negative makes Hibernate throw `IllegalArgumentException`.
- UserService.EmailIndex: compares e-mails exactly, which assumes a binary collation on the e-mail column. `find("email", email)` compares with the column's collation (src/main/java/dev/vicaw/repository/AuthInfoRepository.java:12); under a case-insensitive one, signing up "Ana@x.com" after "ana@x.com" is a 409 in Java but succeeds in the model.
- ImageService.FindImage: compares names exactly, which assumes a binary collation on the image name column. `find("name", name)` compares with the column's collation (src/main/java/dev/vicaw/repository/ImageRepository.java:15), so under a case-insensitive one Java can return an image whose name differs in case, where the model finds none.
- Like.Matches: has no escape character. The search's JPQL has no `ESCAPE` clause, and the usual databases then treat a backslash as the escape character, so a query `50\%` finds the literal text "50%" there but is a backslash followed by a wildcard in the model.
