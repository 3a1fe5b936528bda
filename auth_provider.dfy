/**
 * The client auth store: a list of registered users (with their passwords) and the user who is
 * signed in. Usernames and emails are compared case-insensitively, passwords exactly.
 */
module AuthProvider {
  import opened Wrappers
  import opened AuthTypes
  import Text
  import Seqs

  /** A registered user as the client stores it. */
  datatype StoredUser = StoredUser(id: string, username: string, email: string, password: string, createdAt: string)

  /** The stored user without the password. */
  function Public(u: StoredUser): (r: User)
    ensures r.id == u.id && r.username == u.username && r.email == u.email && r.createdAt == u.createdAt
  {
    User(u.id, u.username, u.email, u.createdAt)
  }

  predicate UsernameTaken(users: seq<StoredUser>, username: string) {
    exists i :: 0 <= i < |users| && Text.SameIgnoringCase(users[i].username, username)
  }

  predicate EmailTaken(users: seq<StoredUser>, email: string) {
    exists i :: 0 <= i < |users| && Text.SameIgnoringCase(users[i].email, email)
  }

  /** The verdict of the three signup guards, in the order they run. */
  datatype SignupVerdict = UsernameExists | EmailExists | PasswordTooShort | Accepted

  /** Each guard fires only when the ones before it passed; a signup is accepted only when all pass. */
  function SignupCheck(users: seq<StoredUser>, username: string, email: string, password: string): (r: SignupVerdict)
    ensures r == UsernameExists <==> UsernameTaken(users, username)
    ensures r == EmailExists <==> !UsernameTaken(users, username) && EmailTaken(users, email)
    ensures r == PasswordTooShort <==> !UsernameTaken(users, username) && !EmailTaken(users, email) && |password| < 6
    ensures r == Accepted <==> !UsernameTaken(users, username) && !EmailTaken(users, email) && |password| >= 6
  {
    if UsernameTaken(users, username) then UsernameExists
    else if EmailTaken(users, email) then EmailExists
    else if |password| < 6 then PasswordTooShort
    else Accepted
  }

  /** The credential test of `login`: username or email matches the name ignoring case, and the password is equal. */
  predicate CredentialsMatch(u: StoredUser, name: string, password: string) {
    (Text.SameIgnoringCase(u.username, name) || Text.SameIgnoringCase(u.email, name)) && u.password == password
  }

  /** The position of the first stored user whose credentials match, if any. */
  function FirstMatch(users: seq<StoredUser>, name: string, password: string): (r: Option<nat>)
    ensures r.Some? ==> r.value < |users| && CredentialsMatch(users[r.value], name, password)
    ensures r.Some? ==> forall j :: 0 <= j < r.value ==> !CredentialsMatch(users[j], name, password)
    ensures r.None? <==> forall j :: 0 <= j < |users| ==> !CredentialsMatch(users[j], name, password)
  {
    Seqs.FirstWhere(users, (u: StoredUser) => CredentialsMatch(u, name, password))
  }

  /** No two stored users share a username or an email, ignoring case. */
  predicate UniqueIgnoringCase(users: seq<StoredUser>) {
    forall i, j :: 0 <= i < j < |users| ==>
      !Text.SameIgnoringCase(users[i].username, users[j].username) && !Text.SameIgnoringCase(users[i].email, users[j].email)
  }

  /** An accepted signup keeps usernames and emails unique. */
  lemma SignupKeepsUnique(users: seq<StoredUser>, nu: StoredUser)
    requires UniqueIgnoringCase(users)
    requires SignupCheck(users, nu.username, nu.email, nu.password) == Accepted
    ensures UniqueIgnoringCase(users + [nu])
  {
    var r := users + [nu];
    forall i, j | 0 <= i < j < |r|
      ensures !Text.SameIgnoringCase(r[i].username, r[j].username) && !Text.SameIgnoringCase(r[i].email, r[j].email)
    {
      assert r[i] == users[i];
      if j < |users| {
        assert r[j] == users[j];
      } else {
        assert r[j] == nu;
        assert !Text.SameIgnoringCase(users[i].username, nu.username);
        assert !Text.SameIgnoringCase(users[i].email, nu.email);
      }
    }
  }

  /**
   * After an accepted signup, logging in with the same username and password succeeds. The new
   * user is the one signed in unless an earlier user has that username as email and the same password.
   */
  lemma SignupThenLogin(users: seq<StoredUser>, nu: StoredUser)
    requires SignupCheck(users, nu.username, nu.email, nu.password) == Accepted
    ensures FirstMatch(users + [nu], nu.username, nu.password).Some?
    ensures (forall i :: 0 <= i < |users| ==> !(Text.SameIgnoringCase(users[i].email, nu.username) && users[i].password == nu.password))
      ==> FirstMatch(users + [nu], nu.username, nu.password) == Some(|users|)
  {
    var r := users + [nu];
    assert r[|users|] == nu;
    assert CredentialsMatch(nu, nu.username, nu.password);
    forall i | 0 <= i < |users| ensures r[i] == users[i] && !Text.SameIgnoringCase(users[i].username, nu.username) {
    }
  }

  /** Login can sign in someone else: an earlier user whose email is the new username and whose password is the same. */
  lemma LoginCanPickEarlierUser(users: seq<StoredUser>, nu: StoredUser, k: nat)
    requires SignupCheck(users, nu.username, nu.email, nu.password) == Accepted
    requires k < |users| && users[k].email == nu.username && users[k].password == nu.password
    ensures FirstMatch(users + [nu], nu.username, nu.password).Some?
    ensures FirstMatch(users + [nu], nu.username, nu.password).value <= k
  {
    var r := users + [nu];
    assert r[k] == users[k];
    assert CredentialsMatch(r[k], nu.username, nu.password);
  }

  class AuthStore {
    /** The registered users, in registration order. */
    var users: seq<StoredUser>
    /** The signed-in user, if any. */
    var current: Option<User>

    constructor(stored: seq<StoredUser>, signedIn: Option<User>)
      ensures users == stored && current == signedIn
    {
      users := stored;
      current := signedIn;
    }

    /** `id` and `createdAt` are generated by the caller (clock and random number). */
    method Signup(username: string, email: string, password: string, id: string, createdAt: string) returns (ok: bool)
      modifies this
      ensures ok <==> SignupCheck(old(users), username, email, password) == Accepted
      ensures ok ==> users == old(users) + [StoredUser(id, username, email, password, createdAt)]
      ensures ok ==> current == Some(User(id, username, email, createdAt))
      ensures !ok ==> users == old(users) && current == old(current)
    {
      if SignupCheck(users, username, email, password) != Accepted {
        return false;
      }
      var nu := StoredUser(id, username, email, password, createdAt);
      users := users + [nu];
      current := Some(Public(nu));
      return true;
    }

    method Login(username: string, password: string) returns (ok: bool)
      modifies this
      ensures users == old(users)
      ensures ok <==> exists i :: 0 <= i < |users| && CredentialsMatch(users[i], username, password)
      ensures ok ==> (FirstMatch(users, username, password).Some?
        && current == Some(Public(users[FirstMatch(users, username, password).value])))
      ensures !ok ==> current == old(current)
    {
      var found := FirstMatch(users, username, password);
      if found.None? {
        return false;
      }
      current := Some(Public(users[found.value]));
      return true;
    }

    method Logout()
      modifies this
      ensures users == old(users) && current.None?
    {
      current := None;
    }
  }

  /** Signing up and then logging in with the same username and password succeeds on the store. */
  method SignupThenLoginOnStore(store: AuthStore, username: string, email: string, password: string, id: string, createdAt: string)
    returns (signedUp: bool, loggedIn: bool)
    modifies store
    ensures signedUp ==> loggedIn
  {
    ghost var before := store.users;
    signedUp := store.Signup(username, email, password, id, createdAt);
    if signedUp {
      SignupThenLogin(before, StoredUser(id, username, email, password, createdAt));
    }
    loggedIn := store.Login(username, password);
  }
}
