/** Password recovery and change: an eight-character alphanumeric temporary
    password mailed to a user identified by username and e-mail address, and
    a password change that first checks the current one. */
module PasswordService {
  import opened Wrappers
  import opened Repositories
  import opened AuthService
  import Text

  const CredentialsMismatch := "아이디 또는 이메일이 일치하지 않습니다"
  const CurrentPasswordMismatch := "현재 비밀번호가 일치하지 않습니다"

  const CharLower := "abcdefghijklmnopqrstuvwxyz"
  /** `CHAR_LOWER.toUpperCase()` */
  const CharUpper := "ABCDEFGHIJKLMNOPQRSTUVWXYZ"
  const Number := "0123456789"
  /** `DATA_FOR_RANDOM_STRING`: the characters a temporary password is drawn from. */
  const DataForRandomString := CharLower + CharUpper + Number
  const TemporaryPasswordLength := 8

  predicate IsAlphanumeric(c: char) {
    'a' <= c <= 'z' || 'A' <= c <= 'Z' || '0' <= c <= '9'
  }

  /** Where each character class sits in the alphabet. */
  lemma AlphabetLayout()
    ensures |DataForRandomString| == 62
    ensures forall i :: 0 <= i < 26 ==> DataForRandomString[i] as int == 'a' as int + i
    ensures forall i :: 26 <= i < 52 ==> DataForRandomString[i] as int == 'A' as int + (i - 26)
    ensures forall i :: 52 <= i < 62 ==> DataForRandomString[i] as int == '0' as int + (i - 52)
  {
    forall i | 0 <= i < 26
      ensures CharLower[i] as int == 'a' as int + i && CharUpper[i] as int == 'A' as int + i
    {
      LetterAt(i);
    }
    forall i | 0 <= i < 10
      ensures Number[i] as int == '0' as int + i
    {
      DigitAt(i);
    }
  }

  /** `CHAR_UPPER` is `CHAR_LOWER` upper-cased: each letter shifted by the
      ASCII case offset, so that lower-casing it gives `CHAR_LOWER` back. */
  lemma UpperIsShiftedLower()
    ensures |CharUpper| == |CharLower| == 26
    ensures forall i :: 0 <= i < 26 ==> CharUpper[i] as int == CharLower[i] as int - 32
    ensures Text.Lower(CharUpper) == CharLower
  {
    forall i | 0 <= i < 26
      ensures CharUpper[i] as int == CharLower[i] as int - 32
      ensures Text.Lower(CharUpper)[i] == CharLower[i]
    {
      LetterAt(i);
    }
  }

  /** Every character of the alphabet is in [a-zA-Z0-9]. */
  lemma AlphabetIsAlphanumeric()
    ensures |DataForRandomString| == 62
    ensures forall i :: 0 <= i < |DataForRandomString| ==> IsAlphanumeric(DataForRandomString[i])
  {
    AlphabetLayout();
  }

  /** Every character of [a-zA-Z0-9] is in the alphabet. */
  lemma AlphanumericIsInAlphabet(c: char)
    requires IsAlphanumeric(c)
    ensures c in DataForRandomString
  {
    if 'a' <= c <= 'z' {
      LetterAt(c as int - 'a' as int);
      assert c in CharLower;
    } else if 'A' <= c <= 'Z' {
      LetterAt(c as int - 'A' as int);
      assert c in CharUpper;
    } else {
      DigitAt(c as int - '0' as int);
      assert c in Number;
    }
  }

  lemma LetterAt(i: int)
    requires 0 <= i < 26
    ensures CharLower[i] as int == 'a' as int + i && CharUpper[i] as int == 'A' as int + i
  {
    if i < 13 {
      if i < 6 {
        if i < 3 { assert i == 0 || i == 1 || i == 2; } else { assert i == 3 || i == 4 || i == 5; }
      } else {
        if i < 9 { assert i == 6 || i == 7 || i == 8; } else { assert i == 9 || i == 10 || i == 11 || i == 12; }
      }
    } else {
      if i < 19 {
        if i < 16 { assert i == 13 || i == 14 || i == 15; } else { assert i == 16 || i == 17 || i == 18; }
      } else {
        if i < 22 { assert i == 19 || i == 20 || i == 21; } else { assert i == 22 || i == 23 || i == 24 || i == 25; }
      }
    }
  }

  lemma DigitAt(i: int)
    requires 0 <= i < 10
    ensures Number[i] as int == '0' as int + i
  {
    if i < 5 { assert i == 0 || i == 1 || i == 2 || i == 3 || i == 4; }
    else { assert i == 5 || i == 6 || i == 7 || i == 8 || i == 9; }
  }

  /** What `random.nextInt(bound)` promises: every draw lies in [0, bound). */
  ghost predicate DrawsBelow(draw: nat -> nat, bound: nat) {
    forall i :: draw(i) < bound
  }

  /** The temporary password made of the first eight draws; `draw(i)` is
      the result of the `i`-th call of `random.nextInt`. */
  function TemporaryPassword(draw: nat -> nat): (p: string)
    requires DrawsBelow(draw, |DataForRandomString|)
    ensures |p| == TemporaryPasswordLength
    ensures forall i :: 0 <= i < |p| ==> p[i] == DataForRandomString[draw(i)]
  {
    seq(TemporaryPasswordLength, i requires 0 <= i < TemporaryPasswordLength => DataForRandomString[draw(i)])
  }

  /** Every temporary password is eight alphanumeric characters, and every
      eight-character alphanumeric string is one some draws produce. */
  lemma TemporaryPasswordsAreExactlyAlphanumericOfEight(draw: nat -> nat, s: string)
    requires DrawsBelow(draw, |DataForRandomString|)
    ensures |TemporaryPassword(draw)| == 8
    ensures forall i :: 0 <= i < 8 ==> IsAlphanumeric(TemporaryPassword(draw)[i])
    ensures |s| == 8 && (forall i :: 0 <= i < 8 ==> IsAlphanumeric(s[i])) ==>
      exists d: nat -> nat :: DrawsBelow(d, |DataForRandomString|) && TemporaryPassword(d) == s
  {
    AlphabetIsAlphanumeric();
    if |s| == 8 && (forall i :: 0 <= i < 8 ==> IsAlphanumeric(s[i])) {
      var d := DrawsFor(s);
    }
  }

  /** Draws that spell out a given eight-character alphanumeric string. */
  lemma DrawsFor(s: string) returns (d: nat -> nat)
    requires |s| == 8 && forall i :: 0 <= i < 8 ==> IsAlphanumeric(s[i])
    ensures DrawsBelow(d, |DataForRandomString|) && TemporaryPassword(d) == s
  {
    forall i | 0 <= i < 8
      ensures s[i] in DataForRandomString
    {
      AlphanumericIsInAlphabet(s[i]);
    }
    var positions := seq(8, i requires 0 <= i < 8 => IndexIn(s[i], DataForRandomString));
    d := (i: nat) => if i < 8 then positions[i] else 0;
    assert DrawsBelow(d, |DataForRandomString|);
    assert TemporaryPassword(d) == s;
  }

  /** The position of `c` in `s`. */
  function IndexIn(c: char, s: string): (i: nat)
    requires c in s
    ensures i < |s| && s[i] == c
  {
    if s[0] == c then 0 else 1 + IndexIn(c, s[1..])
  }

  /** `generateTemporaryPassword`: eight draws from the alphabet, appended
      one by one. */
  method GenerateTemporaryPassword(draw: nat -> nat) returns (p: string)
    requires DrawsBelow(draw, |DataForRandomString|)
    ensures p == TemporaryPassword(draw)
    ensures |p| == 8 && forall i :: 0 <= i < |p| ==> IsAlphanumeric(p[i])
  {
    var sb := "";
    var i := 0;
    while i < TemporaryPasswordLength
      invariant 0 <= i <= TemporaryPasswordLength
      invariant |sb| == i && forall j :: 0 <= j < i ==> sb[j] == DataForRandomString[draw(j)]
    {
      var rndCharAt := draw(i);
      var rndChar := DataForRandomString[rndCharAt];
      sb := sb + [rndChar];
      i := i + 1;
    }
    p := sb;
    TemporaryPasswordsAreExactlyAlphanumericOfEight(draw, p);
  }

  function HasUsernameAndEmail(username: string, email: string): User -> bool {
    (u: User) => u.username == username && u.email == email
  }

  class PasswordService {
    const users: Table<User>

    ghost predicate Valid()
      reads this, users
    {
      users.Valid() && UniqueAccounts(users.rows)
    }

    constructor (users: Table<User>)
      requires users.Valid() && UniqueAccounts(users.rows)
      ensures Valid() && this.users == users
    {
      this.users := users;
    }

    /** `sendTemporaryPassword`: without a user holding both that username
        and that e-mail address it fails and nothing changes; otherwise that
        user's stored password becomes the hash of a fresh temporary
        password, nothing else changes, and the plain temporary password is
        mailed to the address. */
    method SendTemporaryPassword(username: string, email: string, draw: nat -> nat, encoder: PasswordEncoder)
      returns (r: Result<Email>)
      requires Valid() && DrawsBelow(draw, |DataForRandomString|)
      modifies users
      ensures Valid()
      ensures FirstWhere(old(users.rows), HasUsernameAndEmail(username, email)).None? ==>
        r == Err(CredentialsMismatch) && users.rows == old(users.rows)
      ensures FirstWhere(old(users.rows), HasUsernameAndEmail(username, email)).Some? ==>
        var k := FirstWhere(old(users.rows), HasUsernameAndEmail(username, email)).value;
        users.rows == old(users.rows)[k := Row(old(users.rows)[k].id,
          old(users.rows)[k].value.(password := encoder.encode(TemporaryPassword(draw))))]
        && r == Ok(TemporaryPasswordEmail(email, TemporaryPassword(draw)))
    {
      var found := FirstWhere(users.rows, HasUsernameAndEmail(username, email));
      if found.None? {
        return Err(CredentialsMismatch);
      }
      var k := found.value;
      var temporaryPassword := GenerateTemporaryPassword(draw);
      var user := users.rows[k].value.(password := encoder.encode(temporaryPassword));
      RewriteKeepsAccountsUnique(users.rows, k, users.rows[k].id, user);
      users.Update(k, user);
      r := Ok(TemporaryPasswordEmail(email, temporaryPassword));
    }

    /** `changePassword`: an unknown user, then a current password that does
        not match the stored hash, fails with nothing changed; otherwise only
        that user's stored password changes, to the hash of the new one. */
    method ChangePassword(username: string, currentPassword: string, newPassword: string, encoder: PasswordEncoder)
      returns (r: Result<()>)
      requires Valid()
      modifies users
      ensures Valid()
      ensures FirstWhere(old(users.rows), HasUsername(username)).None? ==>
        r == Err(UserNotFound) && users.rows == old(users.rows)
      ensures FirstWhere(old(users.rows), HasUsername(username)).Some? ==>
        var k := FirstWhere(old(users.rows), HasUsername(username)).value;
        (!encoder.matches(currentPassword, old(users.rows)[k].value.password) ==>
           r == Err(CurrentPasswordMismatch) && users.rows == old(users.rows))
        && (encoder.matches(currentPassword, old(users.rows)[k].value.password) ==>
           r == Ok(()) && users.rows == old(users.rows)[k := Row(old(users.rows)[k].id,
             old(users.rows)[k].value.(password := encoder.encode(newPassword)))])
    {
      var found := FirstWhere(users.rows, HasUsername(username));
      if found.None? {
        return Err(UserNotFound);
      }
      var k := found.value;
      if !encoder.matches(currentPassword, users.rows[k].value.password) {
        return Err(CurrentPasswordMismatch);
      }
      var user := users.rows[k].value.(password := encoder.encode(newPassword));
      RewriteKeepsAccountsUnique(users.rows, k, users.rows[k].id, user);
      users.Update(k, user);
      r := Ok(());
    }
  }
}
