/**
 * The signup form's schema and its submit handler. The address check is a parameter. Every field
 * is a string, so each length check reports its own issue and the password-match check runs too.
 */
module SignupForm {
  import opened Wrappers
  import AuthProvider
  import Seqs

  datatype SignupValues = SignupValues(username: string, email: string, password: string, confirmPassword: string)

  /** An issue of the schema. */
  datatype Issue = UsernameTooShort | InvalidEmail | PasswordTooShort | ConfirmTooShort | Mismatch

  /** The field an issue is attached to. */
  function IssuePath(i: Issue): (r: string)
    ensures r == "username" <==> i == UsernameTooShort
    ensures r == "password" <==> i == PasswordTooShort
    ensures r == "confirmPassword" <==> i == ConfirmTooShort || i == Mismatch
  {
    match i
    case UsernameTooShort => "username"
    case InvalidEmail => "email"
    case PasswordTooShort => "password"
    case ConfirmTooShort | Mismatch => "confirmPassword"
  }

  /** The issue `i` when its rule fails (`c`), otherwise none. */
  function When(c: bool, i: Issue): (r: seq<Issue>)
    ensures i in r <==> c
    ensures forall j :: j in r ==> j == i
  {
    if c then [i] else []
  }

  /** The issues in the order the schema reports them: the four fields, then the password match. */
  function SignupIssues(v: SignupValues, isEmail: string -> bool): (r: seq<Issue>)
    ensures UsernameTooShort in r <==> |v.username| < 3
    ensures InvalidEmail in r <==> !isEmail(v.email)
    ensures PasswordTooShort in r <==> |v.password| < 6
    ensures ConfirmTooShort in r <==> |v.confirmPassword| < 6
    ensures Mismatch in r <==> v.password != v.confirmPassword
  {
    When(|v.username| < 3, UsernameTooShort)
    + When(!isEmail(v.email), InvalidEmail)
    + When(|v.password| < 6, PasswordTooShort)
    + When(|v.confirmPassword| < 6, ConfirmTooShort)
    + When(v.password != v.confirmPassword, Mismatch)
  }

  /** The form is accepted exactly when all five conditions hold; the confirmation length then follows from the match. */
  lemma SignupFormAccepts(v: SignupValues, isEmail: string -> bool)
    ensures SignupIssues(v, isEmail) == [] <==>
      |v.username| >= 3 && isEmail(v.email) && |v.password| >= 6 && v.password == v.confirmPassword
  {
  }

  /** Selects the issues attached to the field `path`. */
  function AtPath(path: string): Issue -> bool {
    (i: Issue) => IssuePath(i) == path
  }

  /**
   * The issues attached to the field `path`, in the order reported. The form displays only the
   * first of them (see `ShownIssue`).
   */
  function FieldIssues(v: SignupValues, isEmail: string -> bool, path: string): (r: seq<Issue>)
    ensures forall i :: i in r <==> i in SignupIssues(v, isEmail) && IssuePath(i) == path
  {
    Seqs.Filter(SignupIssues(v, isEmail), AtPath(path))
  }

  /**
   * Each of the username and password fields has an issue attached exactly when its length rule
   * fails; the confirmation field has the length issue and the mismatch attached, each exactly
   * when its rule fails.
   */
  lemma FieldIssuesAttached(v: SignupValues, isEmail: string -> bool)
    ensures FieldIssues(v, isEmail, "username") == [] <==> |v.username| >= 3
    ensures FieldIssues(v, isEmail, "password") == [] <==> |v.password| >= 6
    ensures Mismatch in FieldIssues(v, isEmail, "confirmPassword") <==> v.password != v.confirmPassword
    ensures ConfirmTooShort in FieldIssues(v, isEmail, "confirmPassword") <==> |v.confirmPassword| < 6
  {
    var u := FieldIssues(v, isEmail, "username");
    if u != [] {
      assert u[0] in u;
    }
    if |v.username| < 3 {
      assert UsernameTooShort in u;
    }
    var p := FieldIssues(v, isEmail, "password");
    if p != [] {
      assert p[0] in p;
    }
    if |v.password| < 6 {
      assert PasswordTooShort in p;
    }
  }

  /** The one message a field displays: the first issue attached to it, if any. */
  function ShownIssue(v: SignupValues, isEmail: string -> bool, path: string): (r: Option<Issue>)
    ensures r.None? <==> FieldIssues(v, isEmail, path) == []
    ensures r.Some? ==> r.value in SignupIssues(v, isEmail) && IssuePath(r.value) == path
  {
    var fs := FieldIssues(v, isEmail, path);
    if fs == [] then None else assert fs[0] in fs; Some(fs[0])
  }

  /** Filtering a single possible issue by field keeps it exactly when it is attached to that field. */
  lemma FilterWhen(c: bool, i: Issue, path: string)
    ensures Seqs.Filter(When(c, i), AtPath(path)) == if IssuePath(i) == path then When(c, i) else []
  {
    if c {
      assert When(c, i)[1..] == [];
    }
  }

  /** The confirmation field's issues in report order: the length issue before the mismatch. */
  lemma ConfirmIssues(v: SignupValues, isEmail: string -> bool)
    ensures FieldIssues(v, isEmail, "confirmPassword") ==
      (if |v.confirmPassword| < 6 then [ConfirmTooShort] else [])
      + (if v.password != v.confirmPassword then [Mismatch] else [])
  {
    var keep := AtPath("confirmPassword");
    var s1 := When(|v.username| < 3, UsernameTooShort);
    var s2 := When(!isEmail(v.email), InvalidEmail);
    var s3 := When(|v.password| < 6, PasswordTooShort);
    var s4 := When(|v.confirmPassword| < 6, ConfirmTooShort);
    var s5 := When(v.password != v.confirmPassword, Mismatch);
    FilterWhen(|v.username| < 3, UsernameTooShort, "confirmPassword");
    FilterWhen(!isEmail(v.email), InvalidEmail, "confirmPassword");
    FilterWhen(|v.password| < 6, PasswordTooShort, "confirmPassword");
    FilterWhen(|v.confirmPassword| < 6, ConfirmTooShort, "confirmPassword");
    FilterWhen(v.password != v.confirmPassword, Mismatch, "confirmPassword");
    Seqs.FilterSkipsParts(s1, s2, s3, s4, s5, keep);
  }

  /**
   * With one message per field, a too-short confirmation hides the mismatch: the mismatch is
   * displayed exactly when the confirmation is long enough and differs from the password.
   */
  lemma ShownConfirmIssue(v: SignupValues, isEmail: string -> bool)
    ensures ShownIssue(v, isEmail, "confirmPassword") == Some(ConfirmTooShort) <==> |v.confirmPassword| < 6
    ensures ShownIssue(v, isEmail, "confirmPassword") == Some(Mismatch) <==>
      |v.confirmPassword| >= 6 && v.password != v.confirmPassword
    ensures ShownIssue(v, isEmail, "confirmPassword").None? <==>
      |v.confirmPassword| >= 6 && v.password == v.confirmPassword
  {
    ConfirmIssues(v, isEmail);
  }

  /** The call the submit handler makes to the auth store. */
  datatype SignupCall = SignupCall(username: string, email: string, password: string)

  /** Submitting: nothing when the schema has issues, otherwise a signup with the values as typed. */
  function OnSubmit(v: SignupValues, isEmail: string -> bool): (r: Option<SignupCall>)
    ensures r.Some? <==> SignupIssues(v, isEmail) == []
  {
    if SignupIssues(v, isEmail) == [] then Some(SignupCall(v.username, v.email, v.password)) else None
  }

  /**
   * A submitted signup passes the store's password guard; the store accepts it exactly when
   * neither the username nor the email is taken, ignoring case.
   */
  lemma SubmittedSignupPassesPasswordGuard(v: SignupValues, isEmail: string -> bool, users: seq<AuthProvider.StoredUser>)
    requires OnSubmit(v, isEmail).Some?
    ensures var c := OnSubmit(v, isEmail).value;
      c.username == v.username && c.email == v.email && c.password == v.password
    ensures var c := OnSubmit(v, isEmail).value;
      AuthProvider.SignupCheck(users, c.username, c.email, c.password) != AuthProvider.PasswordTooShort
    ensures var c := OnSubmit(v, isEmail).value;
      AuthProvider.SignupCheck(users, c.username, c.email, c.password) == AuthProvider.Accepted
      <==> !AuthProvider.UsernameTaken(users, c.username) && !AuthProvider.EmailTaken(users, c.email)
  {
    SignupFormAccepts(v, isEmail);
  }
}
