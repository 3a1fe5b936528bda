/**
 * The login route: a presence check, one lookup by username or lowercased email, then the password
 * comparison. It only reads the user collection.
 */
module LoginRoute {
  import opened Wrappers
  import opened AuthTypes
  import Text
  import opened Http
  import opened UserModel
  import Seqs
  import SignupRoute

  /** The fields of a request body; absent ones are `None`. */
  datatype LoginBody = LoginBody(username: Option<string>, password: Option<string>)

  const BadCredentials := "Invalid username or password"

  /**
   * The answer once the lookup has returned `found`: 401 when nobody was found or the password differs,
   * otherwise 200 with the user found.
   */
  function Answer(users: seq<UserDoc>, password: string, found: Option<nat>): (r: Response<User>)
    requires found.Some? ==> found.value < |users|
    ensures r.Ok? <==> found.Some? && users[found.value].password == password
    ensures r.Ok? ==> r == Ok(200, SignupRoute.PublicOf(users[found.value]))
    ensures r.Err? ==> r == Err(401, BadCredentials)
  {
    match found
    case None => Err(401, BadCredentials)
    case Some(k) =>
      if users[k].password != password then Err(401, BadCredentials)
      else Ok(200, SignupRoute.PublicOf(users[k]))
  }

  /** Checks the body, looks up the first user with that username or that email, and compares passwords. */
  function Login(users: seq<UserDoc>, body: LoginBody): (r: Response<User>)
    ensures SignupRoute.Missing(body.username) || SignupRoute.Missing(body.password) ==>
      r == Err(400, "Username and password are required")
    ensures r.Ok? ==> r.code == 200 && exists i :: (0 <= i < |users|
      && Matches(users[i], body.username.value, Text.Lower(body.username.value))
      && users[i].password == body.password.value && r.body == SignupRoute.PublicOf(users[i]))
    ensures r.Err? && r.code != 400 ==> r == Err(401, BadCredentials)
  {
    if SignupRoute.Missing(body.username) || SignupRoute.Missing(body.password) then
      Err(400, "Username and password are required")
    else
      var name := body.username.value;
      Answer(users, body.password.value, FindOne(users, name, Text.Lower(name)))
  }

  /** An unknown name and a wrong password are answered alike; only the first user found is tried. */
  lemma LoginRejections(users: seq<UserDoc>, body: LoginBody)
    requires !SignupRoute.Missing(body.username) && !SignupRoute.Missing(body.password)
    ensures var name := body.username.value;
      (forall i :: 0 <= i < |users| ==> !Matches(users[i], name, Text.Lower(name))) ==> Login(users, body) == Err(401, BadCredentials)
    ensures var name := body.username.value; var k := FindOne(users, name, Text.Lower(name));
      k.Some? && users[k.value].password != body.password.value ==> Login(users, body) == Err(401, BadCredentials)
    ensures var name := body.username.value; var k := FindOne(users, name, Text.Lower(name));
      k.Some? && users[k.value].password == body.password.value ==> Login(users, body) == Ok(200, SignupRoute.PublicOf(users[k.value]))
  {
  }

  /** Under the unique indexes an email names one user. */
  lemma UniqueEmail(users: seq<UserDoc>, i: nat, j: nat)
    requires Unique(users) && i < |users| && j < |users|
    ensures users[i].email == users[j].email ==> i == j
  {
  }

  /**
   * As written, a user X whose email is someone else's username shares one lookup with that user:
   * after that user signs up, logging in as X by email and logging in as the new user by username
   * send the same query. The only users it matches are X and the new user, and whichever of the two
   * it returns, the other is refused with their own password. With store order it returns X, so the
   * new user is refused.
   */
  lemma LoginShadowedAfterSignup(users: seq<UserDoc>, k: nat, body: SignupRoute.SignupBody,
                                 isEmail: string -> bool, id: string, createdAt: string)
    requires Unique(users)
    requires k < |users| && body.username.Some? && users[k].email == body.username.value
    requires Text.Lower(body.username.value) == body.username.value
    requires body.password.Some? && users[k].password != body.password.value
    requires SignupRoute.CheckSignup(users, body).Proceed?
    requires BuildUser(SignupRoute.CheckSignup(users, body).input, isEmail, id, createdAt).Built?
    requires !Duplicate(users, BuildUser(SignupRoute.CheckSignup(users, body).input, isEmail, id, createdAt).doc)
    ensures var d := BuildUser(SignupRoute.CheckSignup(users, body).input, isEmail, id, createdAt).doc;
      var name := body.username.value;
      forall j :: 0 <= j < |users + [d]| && Matches((users + [d])[j], name, Text.Lower(name)) ==> j == k || j == |users|
    ensures var d := BuildUser(SignupRoute.CheckSignup(users, body).input, isEmail, id, createdAt).doc;
      Answer(users + [d], body.password.value, Some(k)) == Err(401, BadCredentials)
    ensures var d := BuildUser(SignupRoute.CheckSignup(users, body).input, isEmail, id, createdAt).doc;
      Answer(users + [d], users[k].password, Some(|users|)) == Err(401, BadCredentials)
    ensures var d := BuildUser(SignupRoute.CheckSignup(users, body).input, isEmail, id, createdAt).doc;
      Login(users + [d], LoginBody(body.username, body.password)) == Err(401, BadCredentials)
  {
    var input := SignupRoute.CheckSignup(users, body).input;
    var d := BuildUser(input, isEmail, id, createdAt).doc;
    BuildUserCorrect(input, isEmail, id, createdAt);
    var name := body.username.value;
    var s := users + [d];
    assert d.password == body.password.value;
    forall j | 0 <= j < |s| && Matches(s[j], name, Text.Lower(name)) ensures j == k || j == |users| {
      if j < |users| {
        assert s[j] == users[j];
        assert users[j].username != name by {
          assert !Matches(users[j], name, Text.Lower(body.email.value));
        }
        UniqueEmail(users, j, k);
      }
    }
    forall j | 0 <= j < k ensures !Matches(s[j], name, Text.Lower(name)) {
      assert s[j] == users[j];
      assert users[j].email != users[k].email;
    }
    assert s[k] == users[k];
    assert s[|users|] == d;
    assert Matches(s[k], name, Text.Lower(name));
  }

  /** The lookup as evidently intended: a user with that exact username first, a user with that email only if none. */
  function FindForLogin(users: seq<UserDoc>, name: string): (r: Option<nat>)
    ensures r.Some? ==> r.value < |users| && (users[r.value].username == name || users[r.value].email == Text.Lower(name))
    ensures (exists i :: 0 <= i < |users| && users[i].username == name) ==> r.Some? && users[r.value].username == name
    ensures r.None? <==> forall i :: 0 <= i < |users| ==> !Matches(users[i], name, Text.Lower(name))
  {
    var byName := Seqs.FirstWhere(users, (d: UserDoc) => d.username == name);
    if byName.Some? then byName else Seqs.FirstWhere(users, (d: UserDoc) => d.email == Text.Lower(name))
  }

  /** The corrected login: the same checks over the corrected lookup. */
  function LoginFixed(users: seq<UserDoc>, body: LoginBody): (r: Response<User>)
    ensures SignupRoute.Missing(body.username) || SignupRoute.Missing(body.password) ==>
      r == Err(400, "Username and password are required")
    ensures r.Ok? ==> r.code == 200 && exists i :: (0 <= i < |users|
      && Matches(users[i], body.username.value, Text.Lower(body.username.value))
      && users[i].password == body.password.value && r.body == SignupRoute.PublicOf(users[i]))
    ensures r.Err? && r.code != 400 ==> r == Err(401, BadCredentials)
  {
    if SignupRoute.Missing(body.username) || SignupRoute.Missing(body.password) then
      Err(400, "Username and password are required")
    else
      Answer(users, body.password.value, FindForLogin(users, body.username.value))
  }

  /** With the corrected lookup, whoever has just signed up can log in with the same username and password. */
  lemma SignupThenLoginFixed(users: seq<UserDoc>, body: SignupRoute.SignupBody,
                             isEmail: string -> bool, id: string, createdAt: string)
    requires SignupRoute.CheckSignup(users, body).Proceed?
    requires BuildUser(SignupRoute.CheckSignup(users, body).input, isEmail, id, createdAt).Built?
    requires !Duplicate(users, BuildUser(SignupRoute.CheckSignup(users, body).input, isEmail, id, createdAt).doc)
    requires Text.Trim(body.username.value) == body.username.value
    ensures var d := BuildUser(SignupRoute.CheckSignup(users, body).input, isEmail, id, createdAt).doc;
      LoginFixed(users + [d], LoginBody(body.username, body.password)) == Ok(200, SignupRoute.PublicOf(d))
  {
    var input := SignupRoute.CheckSignup(users, body).input;
    var d := BuildUser(input, isEmail, id, createdAt).doc;
    BuildUserCorrect(input, isEmail, id, createdAt);
    var s := users + [d];
    var name := body.username.value;
    assert d.username == name && d.password == body.password.value;
    forall j | 0 <= j < |users| ensures s[j].username != name {
      assert s[j] == users[j];
      assert !Matches(users[j], name, Text.Lower(body.email.value));
    }
    assert s[|users|] == d;
    var byName := Seqs.FirstWhere(s, (x: UserDoc) => x.username == name);
    assert byName == Some(|users|);
  }
}
