/** Request bodies and their bean-validation constraints. A JSON field that is
    absent or null is None. Validation runs before the service is called; every
    violated constraint contributes its message to the 400 response, so the
    messages form a multiset (two fields sharing a message report it twice).
    @NotNull rejects only None; @Size and @DecimalMin/@DecimalMax accept None
    and bound the length or the value inclusively; @Email accepts None and the
    empty string and leaves the rest to the address syntax `isEmail`. */
module Requests {
  import opened Common

  datatype RatingCreateRequest = RatingCreateRequest(score: Option<int>, comment: Option<string>)

  datatype RecipeCreateRequest = RecipeCreateRequest(
    titulo: Option<string>, ingredientes: Option<string>, modoPreparo: Option<string>, about: Option<string>)

  datatype RecipeUpdateRequest = RecipeUpdateRequest(
    titulo: Option<string>, ingredientes: Option<string>, modoPreparo: Option<string>, about: Option<string>)

  datatype UserCreateRequest = UserCreateRequest(name: Option<string>, email: Option<string>, password: Option<string>)

  datatype UserUpdateRequest = UserUpdateRequest(
    name: Option<string>, newPassword: Option<string>, currentPassword: Option<string>)

  datatype UserAuthRequest = UserAuthRequest(email: Option<string>, password: Option<string>)

  /** Hibernate Validator's message for a @NotNull without its own message. */
  const NotNullMessage := "must not be null"
  const ScoreMessage := "O score deve ser no mínimo 1 e no máximo 5"
  const CommentMessage := "Seu comentário deve ter entre 3 e 200 caracteres"
  const TituloMessage := "O título deve ter entre 3 e 30 caracteres"
  /** Shared by ingredientes and modoPreparo. */
  const IngredientesMessage := "O campo dos ingredientes deve ter entre 3 e 3000 caracteres"
  const AboutMessage := "O campo de apresentação deve ter entre 3 e 3000 caracteres"
  const NameMessage := "Seu nome deve ter entre 3 e 30 caracteres"
  const EmailFormatMessage := "E-mail mal formatado"
  const EmailNullMessage := "Seu e-email não pode ficar em branco"
  const EmailSizeMessage := "E-mail muito curto, verifique se ele está correto"
  const PasswordNullMessage := "Sua senha não pode ficar em branco"
  const PasswordSizeMessage := "Sua senha deve ter entre 8 e 128 caracteres"

  /** The number of UTF-16 code units of s, the length Java's String reports
      and @Size bounds: a character outside the basic multilingual plane is a
      surrogate pair. */
  function Utf16Length(s: string): (n: nat)
    ensures |s| <= n <= 2 * |s|
    ensures (forall i :: 0 <= i < |s| ==> (s[i] as int) < 0x1_0000) ==> n == |s|
  {
    if |s| == 0 then 0 else (if (s[0] as int) < 0x1_0000 then 1 else 2) + Utf16Length(s[1..])
  }

  /** Two emoji are four code units: they meet a minimum length of three. */
  lemma SurrogatePairsCountTwice()
    ensures Utf16Length("\U{1F600}\U{1F600}") == 4
    ensures Size(Some("\U{1F600}\U{1F600}"), 3, 30, TituloMessage) == multiset{}
  {
    assert "\U{1F600}\U{1F600}"[1..] == "\U{1F600}";
    assert "\U{1F600}"[1..] == "";
  }

  /** The message of a violated @NotNull. */
  function NotNull<T>(v: Option<T>, message: string): multiset<string>
  {
    if v.None? then multiset{message} else multiset{}
  }

  /** The message of a violated @Size(min, max). */
  function Size(v: Option<string>, min: nat, max: nat, message: string): (m: multiset<string>)
    ensures m == multiset{} <==> v.None? || min <= Utf16Length(v.value) <= max
    ensures m <= multiset{message}
  {
    if v.Some? && !(min <= Utf16Length(v.value) <= max) then multiset{message} else multiset{}
  }

  /** A field carrying both @NotNull and @Size reports at most one of them. */
  function Required(v: Option<string>, min: nat, max: nat, nullMessage: string, sizeMessage: string): (m: multiset<string>)
    ensures m == multiset{} <==> v.Some? && min <= Utf16Length(v.value) <= max
    ensures |m| <= 1
  {
    NotNull(v, nullMessage) + Size(v, min, max, sizeMessage)
  }

  /** The message of a violated @Email. */
  function Email(v: Option<string>, isEmail: string -> bool): multiset<string>
  {
    if v.Some? && |v.value| > 0 && !isEmail(v.value) then multiset{EmailFormatMessage} else multiset{}
  }

  function RatingViolations(r: RatingCreateRequest): (v: multiset<string>)
    ensures v == multiset{} <==>
      r.score.Some? && 1 <= r.score.value <= 5 && (r.comment.None? || 3 <= Utf16Length(r.comment.value) <= 200)
    ensures v <= multiset{NotNullMessage, ScoreMessage, CommentMessage}
  {
    NotNull(r.score, NotNullMessage)
    + (if r.score.Some? && !(1 <= r.score.value <= 5) then multiset{ScoreMessage} else multiset{})
    + Size(r.comment, 3, 200, CommentMessage)
  }

  function RecipeCreateViolations(r: RecipeCreateRequest): (v: multiset<string>)
    ensures v == multiset{} <==>
      && r.titulo.Some? && 3 <= Utf16Length(r.titulo.value) <= 30
      && r.ingredientes.Some? && 3 <= Utf16Length(r.ingredientes.value) <= 3000
      && r.modoPreparo.Some? && 3 <= Utf16Length(r.modoPreparo.value) <= 3000
      && r.about.Some? && 3 <= Utf16Length(r.about.value) <= 3000
    ensures |v| <= 4
  {
    Required(r.titulo, 3, 30, NotNullMessage, TituloMessage)
    + Required(r.ingredientes, 3, 3000, NotNullMessage, IngredientesMessage)
    + Required(r.modoPreparo, 3, 3000, NotNullMessage, IngredientesMessage)
    + Required(r.about, 3, 3000, NotNullMessage, AboutMessage)
  }

  function RecipeUpdateViolations(r: RecipeUpdateRequest): (v: multiset<string>)
    ensures v == multiset{} <==>
      && (r.titulo.None? || 3 <= Utf16Length(r.titulo.value) <= 30)
      && (r.ingredientes.None? || 3 <= Utf16Length(r.ingredientes.value) <= 3000)
      && (r.modoPreparo.None? || 3 <= Utf16Length(r.modoPreparo.value) <= 3000)
      && (r.about.None? || 3 <= Utf16Length(r.about.value) <= 3000)
    ensures v <= multiset{TituloMessage, IngredientesMessage, IngredientesMessage, AboutMessage}
  {
    var t := Size(r.titulo, 3, 30, TituloMessage);
    var i := Size(r.ingredientes, 3, 3000, IngredientesMessage);
    var m := Size(r.modoPreparo, 3, 3000, IngredientesMessage);
    var a := Size(r.about, 3, 3000, AboutMessage);
    assert |t + i + m + a| == |t| + |i| + |m| + |a|;
    assert multiset{TituloMessage, IngredientesMessage, IngredientesMessage, AboutMessage}
      == multiset{TituloMessage} + multiset{IngredientesMessage} + multiset{IngredientesMessage} + multiset{AboutMessage};
    t + i + m + a
  }

  function UserCreateViolations(r: UserCreateRequest, isEmail: string -> bool): (v: multiset<string>)
    ensures v == multiset{} <==>
      && r.name.Some? && 3 <= Utf16Length(r.name.value) <= 30
      && r.email.Some? && 7 <= Utf16Length(r.email.value) <= 128 && isEmail(r.email.value)
      && r.password.Some? && 8 <= Utf16Length(r.password.value) <= 128
  {
    Required(r.name, 3, 30, NotNullMessage, NameMessage)
    + Email(r.email, isEmail) + Required(r.email, 7, 128, EmailNullMessage, EmailSizeMessage)
    + Required(r.password, 8, 128, PasswordNullMessage, PasswordSizeMessage)
  }

  function UserUpdateViolations(r: UserUpdateRequest): (v: multiset<string>)
    ensures v == multiset{} <==>
      && (r.name.None? || 3 <= Utf16Length(r.name.value) <= 30)
      && (r.newPassword.None? || 8 <= Utf16Length(r.newPassword.value) <= 128)
      && (r.currentPassword.None? || 8 <= Utf16Length(r.currentPassword.value) <= 128)
  {
    Size(r.name, 3, 30, NameMessage)
    + Size(r.newPassword, 8, 128, PasswordSizeMessage)
    + Size(r.currentPassword, 8, 128, PasswordSizeMessage)
  }

  /** The login body: unlike sign-up, the e-mail has no length bound. */
  function UserAuthViolations(r: UserAuthRequest, isEmail: string -> bool): (v: multiset<string>)
    ensures v == multiset{} <==>
      && r.email.Some? && (|r.email.value| == 0 || isEmail(r.email.value))
      && r.password.Some? && 8 <= Utf16Length(r.password.value) <= 128
  {
    Email(r.email, isEmail) + NotNull(r.email, EmailNullMessage)
    + Required(r.password, 8, 128, PasswordNullMessage, PasswordSizeMessage)
  }

  /** Too short ingredientes and modoPreparo are both reported, under one
      message: the 400 body lists it twice. */
  lemma SharedMessageReportedTwice(titulo: string, about: string)
    requires 3 <= Utf16Length(titulo) <= 30 && 3 <= Utf16Length(about) <= 3000
    ensures RecipeCreateViolations(RecipeCreateRequest(Some(titulo), Some("ab"), Some(""), Some(about)))
      == multiset{IngredientesMessage, IngredientesMessage}
  {
  }

  /** A missing score is reported once, by @NotNull: the range bounds accept null. */
  lemma MissingScore(comment: Option<string>)
    requires comment.None? || 3 <= Utf16Length(comment.value) <= 200
    ensures RatingViolations(RatingCreateRequest(None, comment)) == multiset{NotNullMessage}
  {
  }
}
