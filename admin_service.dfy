/** The administrator account: its fixed credentials and the bootstrap that creates it once. */
module AdminService {
  import opened Wrappers
  import opened Tables
  import opened Models
  import opened AuthService

  const AdminEmail := "admin@school.com"
  const AdminPassword := "admin123"

  /** The `{"email": ..., "password": ...}` pair. */
  datatype Credentials = Credentials(email: string, password: string)

  /** The administrator's login, always the same pair. */
  function GetAdminCredentials(): (c: Credentials)
    ensures c.email == AdminEmail && c.password == AdminPassword
  {
    Credentials(AdminEmail, AdminPassword)
  }

  /**
   * Returns the account holding `AdminEmail`, inserting an active administrator with the hash
   * of `AdminPassword` only when there is none.
   */
  method CreateAdmin(db: Db, scheme: PasswordScheme) returns (admin: User)
    requires db.Valid()
    modifies db`users, db`nextUserId
    ensures db.Valid()
    ensures admin.data.email == AdminEmail
    ensures GetUserByEmail(db.users, AdminEmail) == Some(admin)
    ensures UserEmailTaken(old(db.users), AdminEmail) ==>
              admin in old(db.users) && db.users == old(db.users) && db.nextUserId == old(db.nextUserId)
    ensures !UserEmailTaken(old(db.users), AdminEmail) ==>
              admin == Row(old(db.nextUserId), UserData(AdminEmail, scheme.hash(AdminPassword), true, Admin))
              && db.users == old(db.users) + [admin]
              && db.nextUserId == old(db.nextUserId) + 1
  {
    var existing := GetUserByEmail(db.users, AdminEmail);
    if existing.Some? {
      return existing.value;
    }
    admin := Row(db.nextUserId, UserData(AdminEmail, scheme.hash(AdminPassword), true, Admin));
    AppendUserValid(db.users, db.nextUserId, admin);
    db.users := db.users + [admin];
    db.nextUserId := db.nextUserId + 1;
  }

  /** Bootstrapping twice returns the same account and leaves the store as one bootstrap does. */
  method CreateAdminTwice(db: Db, scheme: PasswordScheme) returns (first: User, second: User)
    requires db.Valid()
    modifies db`users, db`nextUserId
    ensures db.Valid()
    ensures second == first
    ensures db.users == if UserEmailTaken(old(db.users), AdminEmail) then old(db.users) else old(db.users) + [first]
    ensures db.nextUserId == if UserEmailTaken(old(db.users), AdminEmail) then old(db.nextUserId) else old(db.nextUserId) + 1
  {
    first := CreateAdmin(db, scheme);
    assert UserEmailTaken(db.users, AdminEmail) by {
      assert first in db.users;
    }
    second := CreateAdmin(db, scheme);
  }

  /**
   * Once bootstrapped, the administrator logs in with the fixed credentials, provided the
   * password library verifies a password against its own hash and the account was created
   * by the bootstrap.
   */
  lemma AdminCanLogIn(users: seq<User>, scheme: PasswordScheme, admin: User)
    requires UniqueUserEmails(users) && admin in users
    requires admin.data == UserData(AdminEmail, scheme.hash(AdminPassword), true, Admin)
    requires scheme.verify(AdminPassword, scheme.hash(AdminPassword))
    ensures AuthenticateUser(users, scheme, GetAdminCredentials().email, GetAdminCredentials().password) == Some(admin)
    ensures AuthenticateUser(users, scheme, AdminEmail, AdminPassword).value.data.role == Admin
  {
    AuthenticateExactly(users, scheme, admin, AdminPassword);
  }
}
