/** The credentials provider (auth.ts): the user lookup by email and the
    decision `authorize` takes on a sign-in attempt. The email-format check
    and the bcrypt comparison are passed in as functions. */
module Auth {
  import opened Schema

  /** `z.string().min(6)` on the password. */
  const MIN_PASSWORD_LENGTH: nat := 6
  /** The message `getUser` raises when the query fails. */
  const USER_FETCH_ERROR := "Failed to fetch user."

  /** The submitted credentials; a field is None when it is missing or is not
      a string. */
  datatype Credentials = Credentials(email: Option<string>, password: Option<string>)

  /** The first row of `users` whose email equals `email` exactly. */
  function FirstWithEmail(users: seq<User>, email: string): (r: Option<User>)
    ensures r.None? <==> forall u :: u in users ==> u.email != email
    ensures r.Some? ==> r.value in users && r.value.email == email
  {
    if users == [] then None
    else if users[0].email == email then Some(users[0])
    else FirstWithEmail(users[1..], email)
  }

  /** `getUser`: `SELECT * FROM users WHERE email = $email`, first row or
      none; a failing query raises USER_FETCH_ERROR. */
  function GetUser(conn: Conn, email: string): (r: Result<Option<User>>)
    ensures r.Failure? <==> conn.Down?
    ensures r.Failure? ==> r.error == USER_FETCH_ERROR
    ensures r.Success? ==> (r.value.None? <==> forall u :: u in conn.db.users ==> u.email != email)
    ensures r.Success? && r.value.Some? ==> r.value.value in conn.db.users && r.value.value.email == email
  {
    match conn
    case Down => Failure(USER_FETCH_ERROR)
    case Up(db) => Success(FirstWithEmail(db.users, email))
  }

  /** Emails are unique, so the lookup finds the one user registered under
      an email. */
  lemma GetUserFindsThatUser(db: Snapshot, u: User)
    requires KeysUnique(db) && u in db.users
    ensures GetUser(Up(db), u.email) == Success(Some(u))
  {
    var found := FirstWithEmail(db.users, u.email);
    var i :| 0 <= i < |db.users| && db.users[i] == found.value;
    var j :| 0 <= j < |db.users| && db.users[j] == u;
    assert i == j;
  }

  /** The schema check: `email` is a string that `isEmail` accepts and
      `password` is a string of at least MIN_PASSWORD_LENGTH characters. */
  predicate ParsesAsCredentials(c: Credentials, isEmail: string -> bool) {
    && c.email.Some? && isEmail(c.email.value)
    && c.password.Some? && |c.password.value| >= MIN_PASSWORD_LENGTH
  }

  /** `authorize`: Success(Some(user)) signs the user in, Success(None) is
      the `null` that refuses the attempt, and Failure is the error raised by
      the lookup. `passwordsMatch(password, hash)` stands for bcrypt.compare. */
  function Authorize(c: Credentials, isEmail: string -> bool, conn: Conn,
                     passwordsMatch: (string, string) -> bool): (r: Result<Option<User>>)
    ensures !ParsesAsCredentials(c, isEmail) ==> r == Success(None)
    ensures r.Failure? <==> ParsesAsCredentials(c, isEmail) && conn.Down?
    ensures r.Failure? ==> r.error == USER_FETCH_ERROR
    ensures r.Success? && r.value.Some? ==>
      && ParsesAsCredentials(c, isEmail) && conn.Up?
      && r.value.value in conn.db.users
      && r.value.value.email == c.email.value
      && passwordsMatch(c.password.value, r.value.value.password)
    ensures ParsesAsCredentials(c, isEmail) && conn.Up? &&
            (forall u :: u in conn.db.users ==> u.email != c.email.value) ==>
      r == Success(None)
  {
    if ParsesAsCredentials(c, isEmail) then
      var email := c.email.value;
      var password := c.password.value;
      match GetUser(conn, email)
      case Failure(e) => Failure(e)
      case Success(None) => Success(None)
      case Success(Some(user)) =>
        if passwordsMatch(password, user.password) then Success(Some(user))
        else Success(None)
    else
      Success(None)
  }

  /** Malformed input is refused before any lookup: the answer is `null`
      whatever state the database is in. */
  lemma MalformedInputNeedsNoLookup(c: Credentials, isEmail: string -> bool, conn1: Conn, conn2: Conn,
                                    passwordsMatch: (string, string) -> bool)
    requires !ParsesAsCredentials(c, isEmail)
    ensures Authorize(c, isEmail, conn1, passwordsMatch) == Authorize(c, isEmail, conn2, passwordsMatch)
    ensures Authorize(c, isEmail, conn1, passwordsMatch) == Success(None)
  {
  }

  /** The password length bound is inclusive: six characters pass, five do
      not. */
  lemma PasswordLengthBoundary(email: string, isEmail: string -> bool)
    requires isEmail(email)
    ensures ParsesAsCredentials(Credentials(Some(email), Some("abcdef")), isEmail)
    ensures !ParsesAsCredentials(Credentials(Some(email), Some("abcde")), isEmail)
  {
  }

  /** A registered user who gives a well-formed email and the password their
      hash accepts is signed in as exactly that user record. */
  lemma SignInWithMatchingPassword(db: Snapshot, u: User, password: string,
                                   isEmail: string -> bool, passwordsMatch: (string, string) -> bool)
    requires KeysUnique(db) && u in db.users
    requires isEmail(u.email) && |password| >= MIN_PASSWORD_LENGTH
    requires passwordsMatch(password, u.password)
    ensures Authorize(Credentials(Some(u.email), Some(password)), isEmail, Up(db), passwordsMatch) == Success(Some(u))
  {
    GetUserFindsThatUser(db, u);
  }

  /** A wrong password for a registered email gives the same answer as an
      email nobody registered: the caller cannot tell the two apart. */
  lemma UnknownEmailAndWrongPasswordLookAlike(db: Snapshot, u: User, unknown: string, password: string,
                                              isEmail: string -> bool, passwordsMatch: (string, string) -> bool)
    requires KeysUnique(db) && u in db.users
    requires isEmail(u.email) && isEmail(unknown) && |password| >= MIN_PASSWORD_LENGTH
    requires !passwordsMatch(password, u.password)
    requires forall v :: v in db.users ==> v.email != unknown
    ensures Authorize(Credentials(Some(u.email), Some(password)), isEmail, Up(db), passwordsMatch) == Success(None)
    ensures Authorize(Credentials(Some(unknown), Some(password)), isEmail, Up(db), passwordsMatch) == Success(None)
  {
    GetUserFindsThatUser(db, u);
  }
}
