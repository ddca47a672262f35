/** The persistent records of the recipe backend, as rows: a recipe, a rating,
    a user and the user's login record. References between entities are ids;
    ids and timestamps are assigned by the database and enter the model as
    inputs of the operations that create rows. */
module Records {
  import opened Common

  datatype Recipe = Recipe(
    id: int,
    ownerId: int,           // the publishing user; never changed after creation
    titulo: string,         // title
    ingredientes: string,   // ingredients
    modoPreparo: string,    // preparation
    about: string,
    urlFoto: string,        // URL of the uploaded photo
    createdAt: int,
    updatedAt: int)

  datatype Rating = Rating(
    id: int,
    recipeId: int,
    userId: int,            // the rater
    score: int,
    comment: Option<string>,
    createdAt: int,
    updatedAt: int)

  datatype User = User(id: int, name: string, photoUrl: string)

  /** How a user appears in responses; the e-mail is included only where noted. */
  datatype UserResponse = UserResponse(id: int, name: string, email: Option<string>, photoUrl: string)

  /** The user summary embedded in recipe and rating responses. */
  function Summary(u: User): (r: UserResponse)
    ensures r.id == u.id && r.name == u.name && r.photoUrl == u.photoUrl && r.email.None?
  {
    UserResponse(u.id, u.name, None, u.photoUrl)
  }

  /** Login record of a user; its primary key is the user's id. */
  datatype AuthInfo = AuthInfo(userId: int, email: string, passwordHash: string)

  /** The ids of a sequence of recipes, in order. */
  function RecipeIds(rows: seq<Recipe>): (ids: seq<int>)
    ensures |ids| == |rows| && forall i :: 0 <= i < |rows| ==> ids[i] == rows[i].id
  {
    seq(|rows|, i requires 0 <= i < |rows| => rows[i].id)
  }

  /** The ids of a sequence of ratings, in order. */
  function RatingIds(rs: seq<Rating>): (ids: seq<int>)
    ensures |ids| == |rs| && forall i :: 0 <= i < |rs| ==> ids[i] == rs[i].id
  {
    seq(|rs|, i requires 0 <= i < |rs| => rs[i].id)
  }

  /** The WHERE condition of a lookup by recipe id. */
  function RecipeHasId(id: int): Recipe -> bool
  {
    (x: Recipe) => x.id == id
  }

  /** The position of the first recipe with that id. */
  function RecipeIndex(recipes: seq<Recipe>, id: int): (r: Option<nat>)
    ensures r.Some? ==> r.value < |recipes| && recipes[r.value].id == id
    ensures r.Some? ==> forall j :: 0 <= j < r.value ==> recipes[j].id != id
    ensures r.None? <==> forall x :: x in recipes ==> x.id != id
  {
    FirstWhere(recipes, RecipeHasId(id))
  }

  /** findByIdOptional on the recipe table. */
  function FindRecipe(recipes: seq<Recipe>, id: int): (r: Option<Recipe>)
    ensures r.Some? ==> r.value in recipes && r.value.id == id
    ensures r.None? <==> forall x :: x in recipes ==> x.id != id
    ensures r.Some? <==> RecipeIndex(recipes, id).Some?
    ensures r.Some? ==> r.value == recipes[RecipeIndex(recipes, id).value]
  {
    var i := RecipeIndex(recipes, id);
    if i.Some? then Some(recipes[i.value]) else None
  }

  /** The WHERE condition of a lookup by user id. */
  function UserHasId(id: int): User -> bool
  {
    (x: User) => x.id == id
  }

  /** The position of the first user with that id. */
  function UserIndex(users: seq<User>, id: int): (r: Option<nat>)
    ensures r.Some? ==> r.value < |users| && users[r.value].id == id
    ensures r.Some? ==> forall j :: 0 <= j < r.value ==> users[j].id != id
    ensures r.None? <==> forall x :: x in users ==> x.id != id
  {
    FirstWhere(users, UserHasId(id))
  }

  /** The 404 text of every lookup of a user by id that finds nothing. */
  const UserNotFoundMessage := "Não existe nenhum usuário com o ID informado."

  /** findByIdOptional on the user table. */
  function FindUser(users: seq<User>, id: int): (r: Option<User>)
    ensures r.Some? ==> r.value in users && r.value.id == id
    ensures r.None? <==> forall x :: x in users ==> x.id != id
    ensures r.Some? <==> UserIndex(users, id).Some?
    ensures r.Some? ==> r.value == users[UserIndex(users, id).value]
  {
    var i := UserIndex(users, id);
    if i.Some? then Some(users[i.value]) else None
  }

  /** Primary keys are unique within a table. */
  predicate UniqueRecipeIds(recipes: seq<Recipe>)
  {
    forall i, j :: 0 <= i < j < |recipes| ==> recipes[i].id != recipes[j].id
  }

  predicate UniqueUserIds(users: seq<User>)
  {
    forall i, j :: 0 <= i < j < |users| ==> users[i].id != users[j].id
  }

  predicate UniqueAuthUsers(auths: seq<AuthInfo>)
  {
    forall i, j :: 0 <= i < j < |auths| ==> auths[i].userId != auths[j].userId
  }
}
