/**
 * Accounts: lookup by email or key, password authentication and registration. Hashing and
 * verification belong to the password library; the model receives them as a `PasswordScheme`.
 */
module AuthService {
  import opened Wrappers
  import opened Tables
  import opened Models

  /** `get_password_hash` and `verify_password`. */
  datatype PasswordScheme = PasswordScheme(hash: string -> string, verify: (string, string) -> bool)

  /** The detail of the 500 response to an exception no handler catches. */
  const InternalServerError := "Internal Server Error"

  /** `.filter(User.email == email).first()`: the first account with that email, if any. */
  function GetUserByEmail(users: seq<User>, email: string): (r: Option<User>)
    ensures r.Some? ==> r.value in users && r.value.data.email == email
    ensures r.None? <==> !UserEmailTaken(users, email)
    ensures UniqueUserEmails(users) ==> forall u :: u in users && u.data.email == email ==> r == Some(u)
  {
    match IndexWhere(users, (u: User) => u.data.email == email)
    case None =>
      assert forall u :: u in users ==> u.data.email != email by {
        forall u | u in users ensures u.data.email != email {
          var i :| 0 <= i < |users| && users[i] == u;
        }
      }
      None
    case Some(k) => Some(users[k])
  }

  /**
   * The account with that email when `password` verifies against its stored hash; `None`
   * stands for the `False` returned both for an unknown email and for a wrong password.
   */
  function AuthenticateUser(users: seq<User>, scheme: PasswordScheme, email: string, password: string): (r: Option<User>)
    ensures r.Some? ==> r.value in users && r.value.data.email == email
                        && scheme.verify(password, r.value.data.hashedPassword)
    ensures !UserEmailTaken(users, email) ==> r.None?
    ensures UniqueUserEmails(users) ==>
              (r.None? <==> forall u :: u in users && u.data.email == email ==> !scheme.verify(password, u.data.hashedPassword))
  {
    match GetUserByEmail(users, email)
    case None => None
    case Some(user) =>
      if !scheme.verify(password, user.data.hashedPassword) then None else Some(user)
  }

  /** The account with key `userId`, if any. */
  function GetUser(users: seq<User>, userId: int): (r: Option<User>)
    ensures r.None? <==> forall u :: u in users ==> u.id != userId
    ensures r.Some? ==> r.value in users && r.value.id == userId
    ensures UniqueKeys(users) ==> forall u :: u in users && u.id == userId ==> r == Some(u)
  {
    FindById(users, userId)
  }

  /**
   * Registers an account holding the hash of `password`, active and without administrator
   * rights. There is no duplicate check: a taken email makes the commit fail on the unique
   * column, and that exception escapes as a 500 with the store unchanged.
   */
  method CreateUser(db: Db, scheme: PasswordScheme, email: string, password: string) returns (r: Result<User>)
    requires db.Valid()
    modifies db`users, db`nextUserId
    ensures db.Valid()
    ensures r.Err? <==> UserEmailTaken(old(db.users), email)
    ensures r.Err? ==> r.error == HttpException(500, InternalServerError)
                       && db.users == old(db.users) && db.nextUserId == old(db.nextUserId)
    ensures r.Ok? ==> r.value == Row(old(db.nextUserId), UserData(email, scheme.hash(password), true, Regular))
                      && db.users == old(db.users) + [r.value]
                      && db.nextUserId == old(db.nextUserId) + 1
                      && GetUser(db.users, r.value.id) == Some(r.value)
    ensures r.Ok? && scheme.verify(password, scheme.hash(password)) ==>
              AuthenticateUser(db.users, scheme, email, password) == Some(r.value)
  {
    if UserEmailTaken(db.users, email) {
      return Err(HttpException(500, InternalServerError));
    }
    var row := Row(db.nextUserId, UserData(email, scheme.hash(password), true, Regular));
    AppendUserValid(db.users, db.nextUserId, row);
    db.users := db.users + [row];
    db.nextUserId := db.nextUserId + 1;
    r := Ok(row);
  }

  /** Inserting an account whose email is free keeps the account table valid. */
  lemma AppendUserValid(rows: seq<User>, next: int, row: User)
    requires UsersValid(rows, next) && row.id == next
    requires !UserEmailTaken(rows, row.data.email)
    ensures UsersValid(rows + [row], next + 1)
  {
    AppendKeepsKeys(rows, next, row);
  }

  /** With a unique email column, authentication succeeds exactly for the stored account whose hash verifies. */
  lemma AuthenticateExactly(users: seq<User>, scheme: PasswordScheme, u: User, password: string)
    requires UniqueUserEmails(users) && u in users
    ensures AuthenticateUser(users, scheme, u.data.email, password) == Some(u)
            <==> scheme.verify(password, u.data.hashedPassword)
  {
  }
}
