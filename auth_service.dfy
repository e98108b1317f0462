/** Accounts: registration with unique usernames and e-mail addresses, login
    against the stored password hash, and lookup by username. */
module AuthService {
  import opened Wrappers
  import opened Repositories

  const BadCredentials := "아이디 또는 비밀번호가 일치하지 않습니다"
  const UserNotFound := "사용자를 찾을 수 없습니다"
  const UsernameTaken := "이미 사용 중인 아이디입니다"
  const EmailTaken := "이미 사용 중인 이메일입니다"

  /** The `PasswordEncoder`: `encode` hashes a raw password, `matches` checks
      a raw password against a stored hash. */
  datatype PasswordEncoder = PasswordEncoder(encode: string -> string, matches: (string, string) -> bool)

  /** A message handed to the mail service. */
  datatype Email =
    | TemporaryPasswordEmail(to: string, temporaryPassword: string)
    | UsernameEmail(to: string, username: string)

  /** The account invariant: no two users share a username or an e-mail
      address. */
  predicate UniqueAccounts(users: seq<Row<User>>) {
    forall i, j :: 0 <= i < j < |users| ==>
      users[i].value.username != users[j].value.username && users[i].value.email != users[j].value.email
  }

  /** Rewriting one user without touching its username or e-mail address
      keeps the accounts unique. */
  lemma RewriteKeepsAccountsUnique(users: seq<Row<User>>, k: nat, id: Id, user: User)
    requires UniqueAccounts(users) && k < |users|
    requires user.username == users[k].value.username && user.email == users[k].value.email
    ensures UniqueAccounts(users[k := Row(id, user)])
  {
    var after := users[k := Row(id, user)];
    forall i, j | 0 <= i < j < |after|
      ensures after[i].value.username != after[j].value.username && after[i].value.email != after[j].value.email
    {
      assert after[i].value.username == users[i].value.username && after[i].value.email == users[i].value.email;
      assert after[j].value.username == users[j].value.username && after[j].value.email == users[j].value.email;
    }
  }

  /** With unique accounts, the user found by username is the only one with
      that username. */
  lemma FoundUserIsTheOnly(users: seq<Row<User>>, username: string, i: nat)
    requires UniqueAccounts(users) && i < |users| && users[i].value.username == username
    ensures FindByUsername(users, username) == Some(users[i])
  {
    assert HasUsername(username)(users[i].value);
  }

  /** `login`: the token for `username` when that user exists and the
      password matches its stored hash; one and the same error otherwise. */
  function Login(users: seq<Row<User>>, username: string, password: string,
                 encoder: PasswordEncoder, generateToken: string -> string): (r: Result<string>)
    ensures r.Err? ==> r == Err(BadCredentials)
    ensures r.Ok? ==> r.value == generateToken(username)
  {
    match FindByUsername(users, username)
    case None => Err(BadCredentials)
    case Some(row) =>
      if encoder.matches(password, row.value.password) then Ok(generateToken(username)) else Err(BadCredentials)
  }

  /** On unique accounts, login succeeds exactly when some user has that
      username and a stored hash the password matches; an unknown username
      and a wrong password give the same error. */
  lemma LoginSucceedsIffCredentialsMatch(users: seq<Row<User>>, username: string, password: string,
                                         encoder: PasswordEncoder, generateToken: string -> string)
    requires UniqueAccounts(users)
    ensures Login(users, username, password, encoder, generateToken).Ok? <==>
      exists i :: 0 <= i < |users| && users[i].value.username == username && encoder.matches(password, users[i].value.password)
    ensures (forall i :: 0 <= i < |users| ==> users[i].value.username != username) ==>
      Login(users, username, password, encoder, generateToken) == Err(BadCredentials)
  {
    if exists i :: 0 <= i < |users| && users[i].value.username == username {
      var i :| 0 <= i < |users| && users[i].value.username == username;
      FoundUserIsTheOnly(users, username, i);
    } else {
      assert forall i :: 0 <= i < |users| ==> !HasUsername(username)(users[i].value);
    }
  }

  /** `getUserByUsername` */
  function GetUserByUsername(users: seq<Row<User>>, username: string): (r: Result<Row<User>>)
    ensures r.Err? <==> forall i :: 0 <= i < |users| ==> users[i].value.username != username
    ensures r.Err? ==> r == Err(UserNotFound)
    ensures r.Ok? ==> r.value in users && r.value.value.username == username
  {
    match FindByUsername(users, username)
    case None => Err(UserNotFound)
    case Some(row) => Ok(row)
  }

  class AuthService {
    const users: Table<User>

    ghost predicate Valid()
      reads this, users
    {
      users.Valid() && UniqueAccounts(users.rows)
    }

    constructor (users: Table<User>)
      requires users.Valid() && UniqueAccounts(users.rows)
      ensures Valid() && this.users == users
    {
      this.users := users;
    }

    /** `register`: a username in use, then an e-mail address in use, fails
        with nothing saved; otherwise the user is saved with the encoder's
        hash of the password, and the accounts stay unique. */
    method Register(username: string, password: string, email: string, nickname: string, encoder: PasswordEncoder)
      returns (r: Result<Row<User>>)
      requires Valid()
      modifies users
      ensures Valid()
      ensures FindByUsername(old(users.rows), username).Some? ==>
        r == Err(UsernameTaken) && users.rows == old(users.rows)
      ensures FindByUsername(old(users.rows), username).None? && FindByEmail(old(users.rows), email).Some? ==>
        r == Err(EmailTaken) && users.rows == old(users.rows)
      ensures FindByUsername(old(users.rows), username).None? && FindByEmail(old(users.rows), email).None? ==>
        r == Ok(Row(old(users.nextId), User(username, encoder.encode(password), email, nickname)))
        && users.rows == old(users.rows) + [r.value]
    {
      if FindByUsername(users.rows, username).Some? {
        return Err(UsernameTaken);
      }
      if FindByEmail(users.rows, email).Some? {
        return Err(EmailTaken);
      }
      var user := User(username, encoder.encode(password), email, nickname);
      assert forall i :: 0 <= i < |users.rows| ==> !HasUsername(username)(users.rows[i].value);
      assert forall i :: 0 <= i < |users.rows| ==> !HasEmail(email)(users.rows[i].value);
      var id := users.Insert(user);
      r := Ok(Row(id, user));
    }
  }
}
