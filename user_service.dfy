/** Account self-service: the username reminder mailed to an address, and
    the nickname change. */
module UserService {
  import opened Wrappers
  import opened Repositories
  import opened AuthService

  /** `findUsername`: never fails; it mails the username of the user holding
      that address when there is one, and sends nothing otherwise. */
  function FindUsername(users: seq<Row<User>>, email: string): (mail: Option<Email>)
    ensures mail.Some? <==> exists i :: 0 <= i < |users| && users[i].value.email == email
    ensures mail.Some? ==>
      exists i :: 0 <= i < |users| && users[i].value.email == email && mail.value == UsernameEmail(email, users[i].value.username)
  {
    match FindByEmail(users, email)
    case None => None
    case Some(row) => Some(UsernameEmail(email, row.value.username))
  }

  /** With unique accounts the reminder carries the username of the one user
      holding the address. */
  lemma ReminderNamesTheOwner(users: seq<Row<User>>, email: string, i: nat)
    requires UniqueAccounts(users) && i < |users| && users[i].value.email == email
    ensures FindUsername(users, email) == Some(UsernameEmail(email, users[i].value.username))
  {
    assert HasEmail(email)(users[i].value);
  }

  class UserService {
    const users: Table<User>

    ghost predicate Valid()
      reads this, users
    {
      users.Valid() && UniqueAccounts(users.rows)
    }

    constructor (users: Table<User>)
      requires users.Valid() && UniqueAccounts(users.rows)
      ensures Valid() && this.users == users
    {
      this.users := users;
    }

    /** `changeNickname`: an unknown username fails with nothing changed;
        otherwise only that user's nickname changes. */
    method ChangeNickname(username: string, newNickname: string) returns (r: Result<()>)
      requires Valid()
      modifies users
      ensures Valid()
      ensures FirstWhere(old(users.rows), HasUsername(username)).None? ==>
        r == Err(UserNotFound) && users.rows == old(users.rows)
      ensures FirstWhere(old(users.rows), HasUsername(username)).Some? ==>
        var k := FirstWhere(old(users.rows), HasUsername(username)).value;
        r == Ok(()) && users.rows == old(users.rows)[k := Row(old(users.rows)[k].id,
          old(users.rows)[k].value.(nickname := newNickname))]
    {
      var found := FirstWhere(users.rows, HasUsername(username));
      if found.None? {
        return Err(UserNotFound);
      }
      var k := found.value;
      var user := users.rows[k].value.(nickname := newNickname);
      RewriteKeepsAccountsUnique(users.rows, k, users.rows[k].id, user);
      users.Update(k, user);
      r := Ok(());
    }
  }
}
