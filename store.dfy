/** The database as the services see it: one table per entity. Rows are values
    that the services replace, append or remove; images are objects, because
    rescaling overwrites an image's bytes in place and the caller keeps the
    same object. */
module Database {
  import opened Records
  import opened Images

  class Store {
    var recipes: seq<Recipe>
    var ratings: seq<Rating>
    var users: seq<User>
    var auths: seq<AuthInfo>
    var images: seq<Image>

    constructor ()
      ensures recipes == [] && ratings == [] && users == [] && auths == [] && images == []
    {
      recipes := [];
      ratings := [];
      users := [];
      auths := [];
      images := [];
    }
  }
}
