/**
 * The signup route: presence and password checks, a lookup for an existing username or email,
 * then the schema and the unique indexes of the user collection.
 */
module SignupRoute {
  import opened Wrappers
  import opened AuthTypes
  import Text
  import opened Http
  import opened Schema
  import opened UserModel

  /** The fields of a request body; absent ones are `None`. */
  datatype SignupBody = SignupBody(username: Option<string>, email: Option<string>, password: Option<string>)

  /** A field the handler treats as missing: absent or empty. */
  predicate Missing(f: Option<string>) {
    f.None? || f.value == ""
  }

  /** The stored user without the password. */
  function PublicOf(d: UserDoc): (u: User)
    ensures u.id == d.id && u.username == d.username && u.email == d.email && u.createdAt == d.createdAt
  {
    User(d.id, d.username, d.email, d.createdAt)
  }

  /** The handler's own checks: a rejection, or the fields it hands to the schema. */
  datatype SignupCheck = Refuse(code: int, message: string) | Proceed(input: UserInput)

  /**
   * The checks in the order they run. A conflict is reported as a username conflict exactly when the
   * user found has the submitted username; the email is handed on lowercased.
   */
  function CheckSignup(users: seq<UserDoc>, body: SignupBody): (r: SignupCheck)
    ensures Missing(body.username) || Missing(body.email) || Missing(body.password) ==> r == Refuse(400, "All fields are required")
    ensures !Missing(body.username) && !Missing(body.email) && !Missing(body.password) && |body.password.value| < MinPassword
      ==> r == Refuse(400, "Password must be at least 6 characters")
    ensures r.Refuse? && r.code == 409 <==>
      (!Missing(body.username) && !Missing(body.email) && !Missing(body.password) && |body.password.value| >= MinPassword
       && exists i :: 0 <= i < |users| && Matches(users[i], body.username.value, Text.Lower(body.email.value)))
    ensures r.Refuse? && r.code == 409 ==> var k := FindOne(users, body.username.value, Text.Lower(body.email.value)).value;
      r.message == if users[k].username == body.username.value then "Username already exists" else "Email already exists"
    ensures r.Proceed? <==>
      (!Missing(body.username) && !Missing(body.email) && !Missing(body.password) && |body.password.value| >= MinPassword
       && forall i :: 0 <= i < |users| ==> !Matches(users[i], body.username.value, Text.Lower(body.email.value)))
    ensures r.Proceed? ==> r.input == UserInput(body.username, Some(Text.Lower(body.email.value)), body.password)
  {
    if Missing(body.username) || Missing(body.email) || Missing(body.password) then Refuse(400, "All fields are required")
    else if |body.password.value| < MinPassword then Refuse(400, "Password must be at least 6 characters")
    else
      var username := body.username.value;
      var email := Text.Lower(body.email.value);
      match FindOne(users, username, email)
      case Some(k) =>
        Refuse(409, if users[k].username == username then "Username already exists" else "Email already exists")
      case None => Proceed(UserInput(Some(username), Some(email), body.password))
  }

  /** An email conflict means the user found has the lowercased submitted email. */
  lemma ConflictReason(users: seq<UserDoc>, body: SignupBody)
    requires CheckSignup(users, body) == Refuse(409, "Email already exists")
    ensures var k := FindOne(users, body.username.value, Text.Lower(body.email.value)).value;
      users[k].username != body.username.value && users[k].email == Text.Lower(body.email.value)
  {
  }

  /** The user collection: the stored documents in insertion order. */
  class UserStore {
    var users: seq<UserDoc>

    /** The unique indexes on username and email hold. */
    ghost predicate Valid()
      reads this
    {
      Unique(users)
    }

    constructor(stored: seq<UserDoc>)
      requires Unique(stored)
      ensures Valid() && users == stored
    {
      users := stored;
    }

    /** `id` and `createdAt` are what the store assigns; `isEmail` is the address pattern. */
    method Signup(body: SignupBody, isEmail: string -> bool, id: string, createdAt: string) returns (r: Response<User>)
      modifies this
      requires Valid()
      ensures Valid()
      ensures CheckSignup(old(users), body).Refuse? ==>
        r == Err(CheckSignup(old(users), body).code, CheckSignup(old(users), body).message) && users == old(users)
      ensures CheckSignup(old(users), body).Proceed? ==>
        var b := BuildUser(CheckSignup(old(users), body).input, isEmail, id, createdAt);
        && (b.Invalid? ==> r == Err(500, ValidationMessage("User", b.errors)) && users == old(users))
        && (b.Built? && Duplicate(old(users), b.doc) ==> r == Err(409, "Username or email already exists") && users == old(users))
        && (b.Built? && !Duplicate(old(users), b.doc) ==> r == Ok(201, PublicOf(b.doc)) && users == old(users) + [b.doc])
    {
      var check := CheckSignup(users, body);
      if check.Refuse? {
        return Err(check.code, check.message);
      }
      var b := BuildUser(check.input, isEmail, id, createdAt);
      if b.Invalid? {
        return Err(500, ValidationMessage("User", b.errors));
      }
      if Duplicate(users, b.doc) {
        return Err(409, "Username or email already exists");
      }
      InsertKeepsUnique(users, b.doc);
      users := users + [b.doc];
      r := Ok(201, PublicOf(b.doc));
    }
  }

  /** The answer to an accepted signup carries the trimmed username and the normalised email, and no password. */
  lemma SignupAnswer(users: seq<UserDoc>, body: SignupBody, isEmail: string -> bool, id: string, createdAt: string)
    requires CheckSignup(users, body).Proceed?
    requires BuildUser(CheckSignup(users, body).input, isEmail, id, createdAt).Built?
    ensures var d := BuildUser(CheckSignup(users, body).input, isEmail, id, createdAt).doc;
      && PublicOf(d) == User(id, Text.Trim(body.username.value), NormalEmail(Text.Lower(body.email.value)), createdAt)
      && ValidUser(d, isEmail) && d.password == body.password.value
  {
    var input := CheckSignup(users, body).input;
    BuildUserCorrect(input, isEmail, id, createdAt);
  }
}
