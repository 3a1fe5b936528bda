/**
 * The server's user schema: the setters that normalise username and email, the field validators,
 * and the uniqueness the two unique indexes enforce. The address pattern is a parameter.
 */
module UserModel {
  import opened Wrappers
  import Text
  import Seqs
  import opened Schema

  const MinUsername := 3
  const MaxUsername := 30
  const MinPassword := 6

  /** The fields handed to the schema. */
  datatype UserInput = UserInput(username: Option<string>, email: Option<string>, password: Option<string>)

  /** A stored user. The creation time is supplied by the store. */
  datatype UserDoc = UserDoc(id: string, username: string, email: string, password: string, createdAt: string)

  /** The email setters: trimmed and lowercased. */
  function NormalEmail(e: string): string {
    Text.Lower(Text.Trim(e))
  }

  /** Lowercasing keeps a trimmed string trimmed: it turns no character into whitespace. */
  lemma LowerKeepsTrimmed(y: string)
    requires Text.Trim(y) == y
    ensures Text.Trim(Text.Lower(y)) == Text.Lower(y)
  {
    var z := Text.Lower(y);
    if z != [] {
      // the ends of a trimmed string are not whitespace, and lowercasing moves only letters
      assert !Text.IsSpace(y[0]) && !Text.IsSpace(y[|y| - 1]);
      assert z[0] == Text.LowerChar(y[0]) && z[|z| - 1] == Text.LowerChar(y[|y| - 1]);
      assert !Text.IsSpace(z[0]) && !Text.IsSpace(z[|z| - 1]);
      assert Text.Leading(z) == 0;
      assert z[Text.Leading(z)..] == z;
      assert Text.Trailing(z) == 0;
      assert z[..|z| - Text.Trailing(z)] == z;
    }
  }

  /** The email's first failing validator: required (empty after the setters), then the pattern. */
  function EmailError(email: Option<string>, isEmail: string -> bool): (r: Option<FieldError>)
    ensures r.None? <==> email.Some? && NormalEmail(email.value) != "" && isEmail(NormalEmail(email.value))
  {
    if email.None? || NormalEmail(email.value) == "" then Some(FieldError("email", "Email is required"))
    else if !isEmail(NormalEmail(email.value)) then Some(FieldError("email", "Please enter a valid email address"))
    else None
  }

  /** The username's first failing validator: required (empty after trimming), then 3 to 30 characters. */
  function UsernameError(username: Option<string>): (r: Option<FieldError>)
    ensures r.None? <==> username.Some? && MinUsername <= |Text.Trim(username.value)| <= MaxUsername
  {
    if username.None? || Text.Trim(username.value) == "" then Some(FieldError("username", "Username is required"))
    else if |Text.Trim(username.value)| < MinUsername then Some(FieldError("username", "Username must be at least 3 characters"))
    else if |Text.Trim(username.value)| > MaxUsername then Some(FieldError("username", "Username cannot exceed 30 characters"))
    else None
  }

  /** The password's first failing validator: required (not empty), then at least 6 characters. */
  function PasswordError(password: Option<string>): (r: Option<FieldError>)
    ensures r.None? <==> password.Some? && |password.value| >= MinPassword
  {
    if password.None? || password.value == "" then Some(FieldError("password", "Password is required"))
    else if |password.value| < MinPassword then Some(FieldError("password", "Password must be at least 6 characters"))
    else None
  }

  function AsSeq(e: Option<FieldError>): seq<FieldError> {
    if e.Some? then [e.value] else []
  }

  /** The errors of every failing field, in schema order. */
  function UserErrors(input: UserInput, isEmail: string -> bool): (r: seq<FieldError>)
    ensures r == [] <==> UsernameError(input.username).None? && EmailError(input.email, isEmail).None? && PasswordError(input.password).None?
  {
    AsSeq(UsernameError(input.username)) + AsSeq(EmailError(input.email, isEmail)) + AsSeq(PasswordError(input.password))
  }

  /** A stored user satisfies the schema. */
  predicate ValidUser(d: UserDoc, isEmail: string -> bool) {
    && MinUsername <= |d.username| <= MaxUsername && Text.Trim(d.username) == d.username
    && d.email != "" && isEmail(d.email) && NormalEmail(d.email) == d.email
    && |d.password| >= MinPassword
  }

  /** The outcome of building a document. */
  datatype Built = Built(doc: UserDoc) | Invalid(errors: seq<FieldError>)

  /** Builds and validates a document: username trimmed, email trimmed and lowercased, password as given. */
  function BuildUser(input: UserInput, isEmail: string -> bool, id: string, createdAt: string): (r: Built)
    ensures r.Invalid? <==> UserErrors(input, isEmail) != []
    ensures r.Invalid? ==> r.errors == UserErrors(input, isEmail)
  {
    var errs := UserErrors(input, isEmail);
    if errs != [] then Invalid(errs)
    else Built(UserDoc(id, Text.Trim(input.username.value), NormalEmail(input.email.value), input.password.value, createdAt))
  }

  /** A built user is valid and stores the normalised username and email. */
  lemma BuildUserCorrect(input: UserInput, isEmail: string -> bool, id: string, createdAt: string)
    requires BuildUser(input, isEmail, id, createdAt).Built?
    ensures var d := BuildUser(input, isEmail, id, createdAt).doc;
      && ValidUser(d, isEmail)
      && d.username == Text.Trim(input.username.value)
      && d.email == NormalEmail(input.email.value)
      && d.password == input.password.value
  {
    var t := Text.Trim(input.email.value);
    Text.TrimIdempotent(input.username.value);
    Text.TrimIdempotent(input.email.value);
    LowerKeepsTrimmed(t);
    Text.LowerIdempotent(t);
  }

  /** What the unique indexes guarantee: no two users share a username or an email. */
  predicate Unique(users: seq<UserDoc>) {
    forall i, j :: 0 <= i < j < |users| ==> users[i].username != users[j].username && users[i].email != users[j].email
  }

  /** Inserting a document violates an index when some user already has its username or its email. */
  predicate Duplicate(users: seq<UserDoc>, d: UserDoc) {
    exists i :: 0 <= i < |users| && (users[i].username == d.username || users[i].email == d.email)
  }

  /** An insert the indexes admit keeps them satisfied. */
  lemma InsertKeepsUnique(users: seq<UserDoc>, d: UserDoc)
    requires Unique(users) && !Duplicate(users, d)
    ensures Unique(users + [d])
  {
    var r := users + [d];
    forall i, j | 0 <= i < j < |r| ensures r[i].username != r[j].username && r[i].email != r[j].email {
      assert r[i] == users[i];
      if j < |users| {
        assert r[j] == users[j];
      }
    }
  }

  /** The lookup both auth routes run: a user whose username is `username` or whose email is `email`. */
  predicate Matches(d: UserDoc, username: string, email: string) {
    d.username == username || d.email == email
  }

  /** The first matching user in store order, if any. */
  function FindOne(users: seq<UserDoc>, username: string, email: string): (r: Option<nat>)
    ensures r.Some? ==> r.value < |users| && Matches(users[r.value], username, email)
    ensures r.Some? ==> forall j :: 0 <= j < r.value ==> !Matches(users[j], username, email)
    ensures r.None? <==> forall j :: 0 <= j < |users| ==> !Matches(users[j], username, email)
  {
    Seqs.FirstWhere(users, (d: UserDoc) => Matches(d, username, email))
  }
}
