/** The user endpoints: a profile by id (with the e-mail only for its owner),
    sign-up, profile and password update, and account deletion. Password
    hashing and checking are bcrypt in the system; here the hash of a new
    password is an input and checking is the relation `matches(plain, hash)`. */
module UserService {
  import opened Common
  import opened Records
  import opened Decimal
  import opened Requests
  import opened ImageService
  import opened Database

  const EmailTakenMessage := "O e-mail informado já está cadastrado."
  const LoginFailedMessage := "Seu usuário ou senha estão incorretos."
  const WrongPasswordMessage := "Senha incorreta."
  const DefaultPhotoUrl := "#"

  /** The 404 message of a user without a login record. */
  function AuthNotFoundMessage(id: int): string
  {
    "Informações de autenticação não encontradas para o usuário com ID " + ToDecimal(id)
  }

  /** The request's bearer token: none at all, or one whose subject claim may
      be missing. */
  datatype Token = Anonymous | Bearer(subject: Option<string>)

  /** findByUserId on the login table, read as an optional row. */
  function AuthIndex(auths: seq<AuthInfo>, userId: int): (r: Option<nat>)
    ensures r.Some? ==> r.value < |auths| && auths[r.value].userId == userId
    ensures r.None? <==> forall x :: x in auths ==> x.userId != userId
  {
    FirstWhere(auths, (x: AuthInfo) => x.userId == userId)
  }

  /** findByEmail on the login table: the first row with that e-mail. */
  function EmailIndex(auths: seq<AuthInfo>, email: string): (r: Option<nat>)
    ensures r.Some? ==> r.value < |auths| && auths[r.value].email == email
    ensures r.Some? ==> forall j :: 0 <= j < r.value ==> auths[j].email != email
    ensures r.None? <==> forall x :: x in auths ==> x.email != email
  {
    FirstWhere(auths, (x: AuthInfo) => x.email == email)
  }

  /** No two login records share an e-mail. */
  predicate UniqueEmails(auths: seq<AuthInfo>)
  {
    forall i, j :: 0 <= i < j < |auths| ==> auths[i].email != auths[j].email
  }

  /** getById: 404 for an unknown id; the e-mail is added only when a token is
      present and its subject is the user's id as text, and then a missing
      login record is a 404. A token without a subject is a null dereference. */
  function GetById(users: seq<User>, auths: seq<AuthInfo>, id: int, token: Token): (r: Result<UserResponse>)
    ensures FindUser(users, id).None? ==> r == Err(Api(404, UserNotFoundMessage))
    ensures FindUser(users, id).Some? && token == Bearer(None) ==> r == Err(Unchecked(NullPointer))
    ensures FindUser(users, id).Some? && token == Bearer(Some(ToDecimal(id))) && AuthIndex(auths, id).None?
      ==> r == Err(Api(404, AuthNotFoundMessage(id)))
    ensures r.Ok? ==>
      var u := FindUser(users, id).value;
      && r.value.id == id && r.value.name == u.name && r.value.photoUrl == u.photoUrl
      && (r.value.email.Some? <==> token == Bearer(Some(ToDecimal(id))))
      && (r.value.email.Some? ==> r.value.email.value == auths[AuthIndex(auths, id).value].email)
    ensures r.Err? ==>
      || FindUser(users, id).None? || token == Bearer(None)
      || (token == Bearer(Some(ToDecimal(id))) && AuthIndex(auths, id).None?)
  {
    match FindUser(users, id)
    case None => Err(Api(404, UserNotFoundMessage))
    case Some(u) =>
      match token
      case Anonymous => Ok(Summary(u))
      case Bearer(subject) =>
        if subject.None? then Err(Unchecked(NullPointer))
        else if subject.value != ToDecimal(u.id) then Ok(Summary(u))
        else match AuthIndex(auths, u.id)
          case None => Err(Api(404, AuthNotFoundMessage(u.id)))
          case Some(i) => Ok(Summary(u).(email := Some(auths[i].email)))
  }

  /** Whether a multipart body carries an image part. */
  predicate HasImage(body: Option<MultipartBody>)
  {
    body.Some? && body.value.image.Some?
  }

  /** What storing the optional photo yields: the default URL "#" without an
      image part, otherwise the stored image's URL or the failure of save. */
  function PhotoOutcome(body: Option<MultipartBody>, uuid: string, baseUrl: string): (r: Result<string>)
    ensures !HasImage(body) ==> r == Ok(DefaultPhotoUrl)
    ensures HasImage(body) && SaveOutcome(body.value).Err? ==> r == Err(SaveOutcome(body.value).failure)
    ensures HasImage(body) && SaveOutcome(body.value).Ok?
      ==> r == Ok(ImageUrl(baseUrl, StoredName(uuid, body.value.imageName.value)))
  {
    if !HasImage(body) then Ok(DefaultPhotoUrl)
    else match SaveOutcome(body.value)
      case Err(f) => Err(f)
      case Ok(_) => Ok(ImageUrl(baseUrl, StoredName(uuid, body.value.imageName.value)))
  }

  /** The rows sign-up adds and the response it returns. */
  datatype SignUp = SignUp(user: User, auth: AuthInfo, response: UserResponse)

  /** What create decides. The request is validated (400), the e-mail must be
      free (409), the photo is stored when sent, the user and its login record
      (the e-mail and `hashed`, the hash of the password) are added, and the
      new account signs in: the lookup by e-mail finds the record just added,
      so sign-in fails (401, rolling everything back) only when the password
      does not match its own hash. */
  function CreateOutcome(users: seq<User>, auths: seq<AuthInfo>, body: Option<MultipartBody>, req: UserCreateRequest,
                         isEmail: string -> bool, hashed: string, matches: (string, string) -> bool,
                         newUserId: int, uuid: string, baseUrl: string): (r: Result<SignUp>)
    ensures UserCreateViolations(req, isEmail) != multiset{} ==> r == Err(Rejected(UserCreateViolations(req, isEmail)))
    ensures UserCreateViolations(req, isEmail) == multiset{} && EmailIndex(auths, req.email.value).Some?
      ==> r == Err(Api(409, EmailTakenMessage))
    ensures (UserCreateViolations(req, isEmail) == multiset{} && EmailIndex(auths, req.email.value).None?
      && PhotoOutcome(body, uuid, baseUrl).Err?) ==> r == Err(PhotoOutcome(body, uuid, baseUrl).failure)
    ensures r.Ok? <==>
      && UserCreateViolations(req, isEmail) == multiset{} && EmailIndex(auths, req.email.value).None?
      && PhotoOutcome(body, uuid, baseUrl).Ok? && matches(req.password.value, hashed)
    ensures r.Ok? ==>
      var photo := PhotoOutcome(body, uuid, baseUrl).value;
      && r.value.user == User(newUserId, req.name.value, photo)
      && r.value.auth == AuthInfo(newUserId, req.email.value, hashed)
      && r.value.response == UserResponse(newUserId, req.name.value, Some(req.email.value), photo)
  {
    if UserCreateViolations(req, isEmail) != multiset{} then Err(Rejected(UserCreateViolations(req, isEmail)))
    else if EmailIndex(auths, req.email.value).Some? then Err(Api(409, EmailTakenMessage))
    else match PhotoOutcome(body, uuid, baseUrl)
      case Err(f) => Err(f)
      case Ok(photo) =>
        var user := User(newUserId, req.name.value, photo);
        var auth := AuthInfo(newUserId, req.email.value, hashed);
        var signIn := EmailIndex(auths + [auth], req.email.value).value;
        assert signIn == |auths|;
        if !matches(req.password.value, (auths + [auth])[signIn].passwordHash) then Err(Api(401, LoginFailedMessage))
        else Ok(SignUp(user, auth, UserResponse(user.id, user.name, Some(auth.email), user.photoUrl)))
  }

  /** create: stores the photo when sent, then appends the user and its login
      record; the database assigns `newUserId`, the image id and `now`. */
  method Create(db: Store, body: Option<MultipartBody>, req: UserCreateRequest, isEmail: string -> bool,
                hashed: string, matches: (string, string) -> bool, newUserId: int, uuid: string, imageId: string,
                baseUrl: string, now: int)
    returns (r: Result<UserResponse>)
    modifies db`users, db`auths, db`images
    ensures var outcome := CreateOutcome(old(db.users), old(db.auths), body, req, isEmail, hashed, matches,
                                         newUserId, uuid, baseUrl);
      && (outcome.Err? ==>
            && r == Err(outcome.failure)
            && db.users == old(db.users) && db.auths == old(db.auths) && db.images == old(db.images))
      && (outcome.Ok? ==>
            && r == Ok(outcome.value.response)
            && db.users == old(db.users) + [outcome.value.user]
            && db.auths == old(db.auths) + [outcome.value.auth]
            && (!HasImage(body) ==> db.images == old(db.images))
            && (HasImage(body) ==>
                  && |db.images| == |old(db.images)| + 1 && db.images[..|old(db.images)|] == old(db.images)
                  && db.images[|old(db.images)|].name == StoredName(uuid, body.value.imageName.value)
                  && db.images[|old(db.images)|].data == body.value.image.value.data
                  && db.images[|old(db.images)|].id == Some(imageId)))
  {
    var outcome := CreateOutcome(db.users, db.auths, body, req, isEmail, hashed, matches, newUserId, uuid, baseUrl);
    if outcome.Err? {
      return Err(outcome.failure);
    }
    if HasImage(body) {
      var url := Save(db, body.value, uuid, imageId, now, baseUrl);
    }
    db.users := db.users + [outcome.value.user];
    db.auths := db.auths + [outcome.value.auth];
    r := Ok(outcome.value.response);
  }

  /** Sign-up keeps the e-mails unique, and with an id that is new to both
      tables it keeps user ids and login records unique too. */
  lemma CreateKeepsKeysUnique(users: seq<User>, auths: seq<AuthInfo>, body: Option<MultipartBody>,
                              req: UserCreateRequest, isEmail: string -> bool, hashed: string,
                              matches: (string, string) -> bool, newUserId: int, uuid: string, baseUrl: string)
    requires UniqueEmails(auths) && UniqueUserIds(users) && UniqueAuthUsers(auths)
    requires forall u :: u in users ==> u.id != newUserId
    requires forall a :: a in auths ==> a.userId != newUserId
    requires CreateOutcome(users, auths, body, req, isEmail, hashed, matches, newUserId, uuid, baseUrl).Ok?
    ensures var s := CreateOutcome(users, auths, body, req, isEmail, hashed, matches, newUserId, uuid, baseUrl).value;
      && UniqueEmails(auths + [s.auth])
      && UniqueUserIds(users + [s.user])
      && UniqueAuthUsers(auths + [s.auth])
  {
    var s := CreateOutcome(users, auths, body, req, isEmail, hashed, matches, newUserId, uuid, baseUrl).value;
    var after := auths + [s.auth];
    forall i, j | 0 <= i < j < |after|
      ensures after[i].email != after[j].email && after[i].userId != after[j].userId
    {
      if j == |auths| {
        assert after[i] in auths;
      }
    }
    var users' := users + [s.user];
    forall i, j | 0 <= i < j < |users'|
      ensures users'[i].id != users'[j].id
    {
      if j == |users| {
        assert users'[i] in users;
      }
    }
  }

  /** A second sign-up with the same e-mail is refused with 409, whatever
      its other fields. */
  lemma SecondSignUpConflicts(users: seq<User>, auths: seq<AuthInfo>, body: Option<MultipartBody>,
                              req: UserCreateRequest, isEmail: string -> bool, hashed: string,
                              matches: (string, string) -> bool, newUserId: int, uuid: string, baseUrl: string,
                              body2: Option<MultipartBody>, req2: UserCreateRequest, hashed2: string,
                              newUserId2: int, uuid2: string)
    requires CreateOutcome(users, auths, body, req, isEmail, hashed, matches, newUserId, uuid, baseUrl).Ok?
    requires UserCreateViolations(req2, isEmail) == multiset{}
    requires req2.email == req.email
    ensures var s := CreateOutcome(users, auths, body, req, isEmail, hashed, matches, newUserId, uuid, baseUrl).value;
      CreateOutcome(users + [s.user], auths + [s.auth], body2, req2, isEmail, hashed2, matches, newUserId2, uuid2, baseUrl)
        == Err(Api(409, EmailTakenMessage))
  {
    var s := CreateOutcome(users, auths, body, req, isEmail, hashed, matches, newUserId, uuid, baseUrl).value;
    assert s.auth in auths + [s.auth];
  }

  /** After sign-up with an id new to both tables, the new user reads their
      own profile, e-mail included, while others see it without the e-mail. */
  lemma CreateThenGet(users: seq<User>, auths: seq<AuthInfo>, body: Option<MultipartBody>, req: UserCreateRequest,
                      isEmail: string -> bool, hashed: string, matches: (string, string) -> bool,
                      newUserId: int, uuid: string, baseUrl: string)
    requires forall u :: u in users ==> u.id != newUserId
    requires forall a :: a in auths ==> a.userId != newUserId
    requires CreateOutcome(users, auths, body, req, isEmail, hashed, matches, newUserId, uuid, baseUrl).Ok?
    ensures var s := CreateOutcome(users, auths, body, req, isEmail, hashed, matches, newUserId, uuid, baseUrl).value;
      && GetById(users + [s.user], auths + [s.auth], newUserId, Bearer(Some(ToDecimal(newUserId)))) == Ok(s.response)
      && GetById(users + [s.user], auths + [s.auth], newUserId, Anonymous) == Ok(s.response.(email := None))
  {
    var s := CreateOutcome(users, auths, body, req, isEmail, hashed, matches, newUserId, uuid, baseUrl).value;
    var users', auths' := users + [s.user], auths + [s.auth];
    assert users'[|users|] == s.user;
    assert FindUser(users', newUserId) == Some(s.user);
    assert auths'[|auths|] == s.auth;
    assert AuthIndex(auths', newUserId) == Some(|auths|);
  }

  /** The user and login record as update leaves them: the name replaced when
      given and not blank, the photo when an image part is sent, the password
      hash when a new password is given. */
  datatype Profile = Profile(user: User, auth: AuthInfo)

  /** What update decides. The request is validated (400), the user and its
      login record looked up (404 each), the photo stored when sent, and a
      new password accepted only when the current one matches the stored hash
      (absent: null dereference; wrong: 401), everything rolled back on
      failure. `newHash` is the hash of the new password. */
  function UpdateOutcome(users: seq<User>, auths: seq<AuthInfo>, userId: int, body: Option<MultipartBody>,
                         req: UserUpdateRequest, matches: (string, string) -> bool, newHash: string,
                         uuid: string, baseUrl: string): (r: Result<Profile>)
    ensures UserUpdateViolations(req) != multiset{} ==> r == Err(Rejected(UserUpdateViolations(req)))
    ensures UserUpdateViolations(req) == multiset{} && FindUser(users, userId).None?
      ==> r == Err(Api(404, UserNotFoundMessage))
    ensures UserUpdateViolations(req) == multiset{} && FindUser(users, userId).Some? && AuthIndex(auths, userId).None?
      ==> r == Err(Api(404, AuthNotFoundMessage(userId)))
    ensures r.Ok? <==>
      && UserUpdateViolations(req) == multiset{} && FindUser(users, userId).Some? && AuthIndex(auths, userId).Some?
      && (HasImage(body) ==> SaveOutcome(body.value).Ok?)
      && (Provided(req.newPassword) ==>
            req.currentPassword.Some? && matches(req.currentPassword.value, auths[AuthIndex(auths, userId).value].passwordHash))
    ensures r.Ok? ==>
      var u, a := FindUser(users, userId).value, auths[AuthIndex(auths, userId).value];
      && r.value.user.id == u.id
      && r.value.user.name == (if Provided(req.name) then req.name.value else u.name)
      && r.value.user.photoUrl
         == (if HasImage(body) then ImageUrl(baseUrl, StoredName(uuid, body.value.imageName.value)) else u.photoUrl)
      && r.value.auth.userId == a.userId && r.value.auth.email == a.email
      && r.value.auth.passwordHash == (if Provided(req.newPassword) then newHash else a.passwordHash)
  {
    if UserUpdateViolations(req) != multiset{} then Err(Rejected(UserUpdateViolations(req)))
    else match FindUser(users, userId)
      case None => Err(Api(404, UserNotFoundMessage))
      case Some(u) =>
        match AuthIndex(auths, u.id)
        case None => Err(Api(404, AuthNotFoundMessage(u.id)))
        case Some(i) =>
          var a := auths[i];
          var named := if Provided(req.name) then u.(name := req.name.value) else u;
          if HasImage(body) && SaveOutcome(body.value).Err? then Err(SaveOutcome(body.value).failure)
          else
            var pictured :=
              if HasImage(body) then named.(photoUrl := ImageUrl(baseUrl, StoredName(uuid, body.value.imageName.value)))
              else named;
            if !Provided(req.newPassword) then Ok(Profile(pictured, a))
            else if req.currentPassword.None? then Err(Unchecked(NullPointer))
            else if !matches(req.currentPassword.value, a.passwordHash) then Err(Api(401, WrongPasswordMessage))
            else Ok(Profile(pictured, a.(passwordHash := newHash)))
  }

  /** The response of update: the edited profile with the e-mail. */
  function UpdatedResponse(p: Profile): UserResponse
  {
    UserResponse(p.user.id, p.user.name, Some(p.auth.email), p.user.photoUrl)
  }

  /** update: writes the edited user and login record back in place, storing
      the photo first when one is sent. The caller is the user or an
      administrator; that check belongs to the endpoint. */
  method Update(db: Store, userId: int, body: Option<MultipartBody>, req: UserUpdateRequest,
                matches: (string, string) -> bool, newHash: string, uuid: string, imageId: string,
                baseUrl: string, now: int)
    returns (r: Result<UserResponse>)
    modifies db`users, db`auths, db`images
    ensures var outcome := UpdateOutcome(old(db.users), old(db.auths), userId, body, req, matches, newHash, uuid, baseUrl);
      && (outcome.Err? ==>
            && r == Err(outcome.failure)
            && db.users == old(db.users) && db.auths == old(db.auths) && db.images == old(db.images))
      && (outcome.Ok? ==>
            && r == Ok(UpdatedResponse(outcome.value))
            && db.users == old(db.users)[UserIndex(old(db.users), userId).value := outcome.value.user]
            && db.auths == old(db.auths)[AuthIndex(old(db.auths), userId).value := outcome.value.auth]
            && (!HasImage(body) ==> db.images == old(db.images))
            && (HasImage(body) ==>
                  && |db.images| == |old(db.images)| + 1 && db.images[..|old(db.images)|] == old(db.images)
                  && db.images[|old(db.images)|].name == StoredName(uuid, body.value.imageName.value)
                  && db.images[|old(db.images)|].data == body.value.image.value.data
                  && db.images[|old(db.images)|].id == Some(imageId)))
  {
    var outcome := UpdateOutcome(db.users, db.auths, userId, body, req, matches, newHash, uuid, baseUrl);
    if outcome.Err? {
      return Err(outcome.failure);
    }
    if HasImage(body) {
      var url := Save(db, body.value, uuid, imageId, now, baseUrl);
    }
    var i := UserIndex(db.users, userId).value;
    var j := AuthIndex(db.auths, userId).value;
    db.users := db.users[i := outcome.value.user];
    db.auths := db.auths[j := outcome.value.auth];
    r := Ok(UpdatedResponse(outcome.value));
  }

  /** The password hash changes only through a new password whose request
      also carries a current password matching the old hash; any successful
      update with a new password stores that password's hash. */
  lemma PasswordNeedsCurrentPassword(users: seq<User>, auths: seq<AuthInfo>, userId: int, body: Option<MultipartBody>,
                                     req: UserUpdateRequest, matches: (string, string) -> bool, newHash: string,
                                     uuid: string, baseUrl: string)
    requires UpdateOutcome(users, auths, userId, body, req, matches, newHash, uuid, baseUrl).Ok?
    ensures var p := UpdateOutcome(users, auths, userId, body, req, matches, newHash, uuid, baseUrl).value;
      var old_ := auths[AuthIndex(auths, userId).value];
      && (p.auth.passwordHash != old_.passwordHash ==>
            && Provided(req.newPassword) && req.currentPassword.Some?
            && matches(req.currentPassword.value, old_.passwordHash))
      && (Provided(req.newPassword) ==> p.auth.passwordHash == newHash)
  {
  }

  /** A new password with a current password that does not match is refused
      with 401, and nothing is changed. */
  lemma WrongCurrentPassword(users: seq<User>, auths: seq<AuthInfo>, userId: int, body: Option<MultipartBody>,
                             req: UserUpdateRequest, matches: (string, string) -> bool, newHash: string,
                             uuid: string, baseUrl: string)
    requires UserUpdateViolations(req) == multiset{}
    requires FindUser(users, userId).Some? && AuthIndex(auths, userId).Some?
    requires HasImage(body) ==> SaveOutcome(body.value).Ok?
    requires Provided(req.newPassword) && req.currentPassword.Some?
    requires !matches(req.currentPassword.value, auths[AuthIndex(auths, userId).value].passwordHash)
    ensures UpdateOutcome(users, auths, userId, body, req, matches, newHash, uuid, baseUrl)
      == Err(Api(401, WrongPasswordMessage))
  {
  }

  /** Update keeps every key: the tables keep unique user ids, unique login
      records and unique e-mails, and the user is found again with its edit. */
  lemma UpdateKeepsKeys(users: seq<User>, auths: seq<AuthInfo>, userId: int, body: Option<MultipartBody>,
                        req: UserUpdateRequest, matches: (string, string) -> bool, newHash: string,
                        uuid: string, baseUrl: string)
    requires UniqueUserIds(users) && UniqueAuthUsers(auths) && UniqueEmails(auths)
    requires UpdateOutcome(users, auths, userId, body, req, matches, newHash, uuid, baseUrl).Ok?
    ensures var p := UpdateOutcome(users, auths, userId, body, req, matches, newHash, uuid, baseUrl).value;
      var users' := users[UserIndex(users, userId).value := p.user];
      var auths' := auths[AuthIndex(auths, userId).value := p.auth];
      && UniqueUserIds(users') && UniqueAuthUsers(auths') && UniqueEmails(auths')
      && FindUser(users', userId) == Some(p.user)
  {
    var p := UpdateOutcome(users, auths, userId, body, req, matches, newHash, uuid, baseUrl).value;
    var i := UserIndex(users, userId).value;
    var users' := users[i := p.user];
    assert forall k :: 0 <= k < |users'| ==> users'[k].id == users[k].id;
    var j := AuthIndex(auths, userId).value;
    var auths' := auths[j := p.auth];
    assert forall k :: 0 <= k < |auths'| ==> auths'[k].userId == auths[k].userId && auths'[k].email == auths[k].email;
    assert UserIndex(users', userId).value == i;
  }

  /** delete: 404 for an unknown id, otherwise the user's row is removed. */
  method Delete(db: Store, id: int) returns (r: Result<()>)
    modifies db`users
    ensures UserIndex(old(db.users), id).None? ==>
      r == Err(Api(404, UserNotFoundMessage)) && db.users == old(db.users)
    ensures UserIndex(old(db.users), id).Some? ==>
      r == Ok(()) && db.users == RemoveAt(old(db.users), UserIndex(old(db.users), id).value)
  {
    var found := UserIndex(db.users, id);
    if found.None? {
      return Err(Api(404, UserNotFoundMessage));
    }
    db.users := RemoveAt(db.users, found.value);
    r := Ok(());
  }

  /** With unique ids, a deleted user is no longer found, and every other
      user is found as before. */
  lemma DeleteRemovesExactlyThem(users: seq<User>, id: int, other: int)
    requires UniqueUserIds(users) && UserIndex(users, id).Some?
    ensures FindUser(RemoveAt(users, UserIndex(users, id).value), id).None?
    ensures other != id ==> FindUser(RemoveAt(users, UserIndex(users, id).value), other) == FindUser(users, other)
  {
    var i := UserIndex(users, id).value;
    AbsentAfterRemoval(users, i);
    if other != id {
      FindUserAfterRemoval(users, i, other);
    }
  }

  /** Removing the row at i from a table with unique ids leaves no user with
      that row's id. */
  lemma AbsentAfterRemoval(users: seq<User>, i: nat)
    requires UniqueUserIds(users) && i < |users|
    ensures forall x :: x in RemoveAt(users, i) ==> x.id != users[i].id
  {
    var after := RemoveAt(users, i);
    forall x | x in after
      ensures x.id != users[i].id
    {
      var k :| 0 <= k < |after| && after[k] == x;
      assert x == users[if k < i then k else k + 1];
    }
  }

  /** Removing the row at i does not change what any other id finds. */
  lemma FindUserAfterRemoval(users: seq<User>, i: nat, other: int)
    requires i < |users| && users[i].id != other
    ensures FindUser(RemoveAt(users, i), other) == FindUser(users, other)
  {
    var after := RemoveAt(users, i);
    var p := UserHasId(other);
    FirstWhereAfterRemoval(users, i, p);
    assert UserIndex(users, other) == FirstWhere(users, p);
    assert UserIndex(after, other) == FirstWhere(after, p);
  }

  /** The e-mail reaches only its owner: with a token whose subject is the
      id as issued, or else not at all. */
  lemma EmailOnlyToOwner(users: seq<User>, auths: seq<AuthInfo>, id: int, token: Token, caller: int)
    requires IsLong(caller) && IsLong(id)
    requires token == Bearer(Some(ToDecimal(caller)))
    requires GetById(users, auths, id, token).Ok?
    ensures GetById(users, auths, id, token).value.email.Some? <==> caller == id
  {
    ParseToDecimal(caller);
    ParseToDecimal(id);
  }
}
