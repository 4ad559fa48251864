/** src/auth.py: AuthManager over the `users` table of the same store.
    bcrypt is abstract: `hash(password, salt)` stands for hash_password with
    the salt it would draw, `verify(password, hashed)` for verify_password,
    and the one property relied on is that a password verifies against any
    hash made from it. */
module Auth {
  import opened Wrappers
  import opened Database

  /** What authenticate_user returns: never the hash. */
  datatype UserSummary = UserSummary(id: nat, username: string, isAdmin: bool)

  /** What get_user_by_username returns: never the hash. */
  datatype UserInfo = UserInfo(id: nat, username: string, isAdmin: bool, createdAt: string)

  /** verify_password accepts every hash_password result for the same password. */
  ghost predicate HashSound(hash: (string, string) -> string, verify: (string, string) -> bool) {
    forall p, s :: verify(p, hash(p, s))
  }

  /** Position of the row with that username, or -1. */
  function UserIndex(rows: seq<User>, username: string): (k: int)
    ensures -1 <= k < |rows|
    ensures 0 <= k ==> rows[k].username == username
    ensures k < 0 <==> forall i :: 0 <= i < |rows| ==> rows[i].username != username
  {
    IndexWhere(rows, (u: User) => u.username == username)
  }

  /** Position of the row with that id, or -1. */
  function UserIdIndex(rows: seq<User>, id: int): (k: int)
    ensures -1 <= k < |rows|
    ensures 0 <= k ==> rows[k].id == id
    ensures k < 0 <==> forall i :: 0 <= i < |rows| ==> rows[i].id != id
  {
    IndexWhere(rows, (u: User) => u.id == id)
  }

  /** With distinct usernames, the row found is the one holding the name. */
  lemma UserIndexAt(rows: seq<User>, last: nat, i: nat)
    requires UserTable(rows, last) && i < |rows|
    ensures UserIndex(rows, rows[i].username) == i
  {
  }

  /** authenticate_user: None when no row has the username or the password
      does not verify against its hash; otherwise that row's id, username
      and admin flag. */
  function Authenticate(users: seq<User>, verify: (string, string) -> bool, username: string, password: string)
    : (r: Option<UserSummary>)
    ensures (forall i :: 0 <= i < |users| ==> users[i].username != username) ==> r.None?
    ensures r.Some? ==> exists i :: && 0 <= i < |users| && users[i].username == username
                                    && verify(password, users[i].passwordHash)
                                    && r.value == UserSummary(users[i].id, users[i].username, users[i].isAdmin)
  {
    var k := UserIndex(users, username);
    if k >= 0 && verify(password, users[k].passwordHash) then
      Some(UserSummary(users[k].id, users[k].username, users[k].isAdmin))
    else None
  }

  /** In a table with distinct usernames: a summary comes back exactly when
      the user exists and the password verifies. */
  lemma AuthenticateIff(users: seq<User>, last: nat, verify: (string, string) -> bool, username: string, password: string)
    requires UserTable(users, last)
    ensures Authenticate(users, verify, username, password).Some? <==>
      exists i :: 0 <= i < |users| && users[i].username == username && verify(password, users[i].passwordHash)
  {
    if exists i :: 0 <= i < |users| && users[i].username == username && verify(password, users[i].passwordHash) {
      var i :| 0 <= i < |users| && users[i].username == username && verify(password, users[i].passwordHash);
      UserIndexAt(users, last, i);
    }
  }

  /** user_exists: at least one row. */
  function UserExists(users: seq<User>): (r: bool)
    ensures r <==> users != []
  {
    |users| > 0
  }

  /** get_user_by_username: None for an unknown name, otherwise the row's
      id, username, admin flag and creation time. */
  function GetUserByUsername(users: seq<User>, username: string): (r: Option<UserInfo>)
    ensures r.None? <==> forall i :: 0 <= i < |users| ==> users[i].username != username
    ensures r.Some? ==> exists i :: && 0 <= i < |users| && users[i].username == username
                                    && r.value == UserInfo(users[i].id, username, users[i].isAdmin, users[i].createdAt)
  {
    var k := UserIndex(users, username);
    if k < 0 then None
    else Some(UserInfo(users[k].id, users[k].username, users[k].isAdmin, users[k].createdAt))
  }

  /** Appending a user under a new username and the next id keeps the
      table's invariants. */
  lemma InsertKeepsUsers(users: seq<User>, last: nat, u: User)
    requires UserTable(users, last)
    requires UserIndex(users, u.username) < 0 && u.id == last + 1
    ensures UserTable(users + [u], last + 1)
  {
    var r := users + [u];
    forall i, j | 0 <= i < j < |r| ensures r[i].username != r[j].username && r[i].id < r[j].id {
      assert r[i] == users[i];
      if j < |users| {
        assert r[j] == users[j];
      }
    }
  }

  /** A user appended under a new username authenticates with the password
      its hash was made from. */
  lemma CreatedUserAuthenticates(users: seq<User>, last: nat, u: User,
                                 hash: (string, string) -> string, verify: (string, string) -> bool,
                                 password: string, salt: string)
    requires UserTable(users, last) && HashSound(hash, verify)
    requires UserIndex(users, u.username) < 0 && u.id == last + 1
    requires u.passwordHash == hash(password, salt)
    ensures UserTable(users + [u], last + 1)
    ensures Authenticate(users + [u], verify, u.username, password) == Some(UserSummary(u.id, u.username, u.isAdmin))
  {
    InsertKeepsUsers(users, last, u);
    var r := users + [u];
    assert UserIndex(r, u.username) == |users|;
    assert verify(password, hash(password, salt));
  }

  /** After a password change the new password authenticates the same user,
      and the table keeps its invariants. */
  lemma ChangedPasswordAuthenticates(users: seq<User>, last: nat, k: nat,
                                     hash: (string, string) -> string, verify: (string, string) -> bool,
                                     newPassword: string, salt: string)
    requires UserTable(users, last) && HashSound(hash, verify) && k < |users|
    ensures UserTable(users[k := users[k].(passwordHash := hash(newPassword, salt))], last)
    ensures Authenticate(users[k := users[k].(passwordHash := hash(newPassword, salt))], verify, users[k].username, newPassword)
         == Some(UserSummary(users[k].id, users[k].username, users[k].isAdmin))
  {
    var r := users[k := users[k].(passwordHash := hash(newPassword, salt))];
    assert forall i :: 0 <= i < |r| ==> r[i].id == users[i].id && r[i].username == users[i].username;
    UserIndexAt(r, last, k);
    assert verify(newPassword, hash(newPassword, salt));
  }

  class AuthManager {
    const db: DatabaseManager
    const hash: (string, string) -> string
    const verify: (string, string) -> bool

    /** The hash/verify pair behaves as bcrypt's does on its own hashes. */
    ghost predicate Sound() {
      HashSound(hash, verify)
    }

    constructor (db: DatabaseManager, hash: (string, string) -> string, verify: (string, string) -> bool)
      requires HashSound(hash, verify)
      ensures this.db == db && this.hash == hash && this.verify == verify
      ensures Sound()
    {
      this.db := db;
      this.hash := hash;
      this.verify := verify;
    }

    /** create_user: a taken username raises the UNIQUE violation, answered
        false with nothing changed; otherwise one row is appended under the
        next id holding hash(password, salt), never the password itself. */
    method CreateUser(username: string, password: string, salt: string, now: string, isAdmin: bool := false)
      returns (created: bool)
      requires db.Valid() && Sound()
      modifies db`users, db`userSeq
      ensures db.Valid()
      ensures created <==> UserIndex(old(db.users), username) < 0
      ensures !created ==> db.users == old(db.users) && db.userSeq == old(db.userSeq)
      ensures created ==>
        && db.userSeq == old(db.userSeq) + 1
        && db.users == old(db.users) + [User(db.userSeq, username, hash(password, salt), isAdmin, now)]
        && Authenticate(db.users, verify, username, password) == Some(UserSummary(db.userSeq, username, isAdmin))
    {
      if UserIndex(db.users, username) >= 0 {
        return false;
      }
      var u := User(db.userSeq + 1, username, hash(password, salt), isAdmin, now);
      CreatedUserAuthenticates(db.users, db.userSeq, u, hash, verify, password, salt);
      db.users := db.users + [u];
      db.userSeq := db.userSeq + 1;
      created := true;
    }

    /** change_password: unless a row has that id and the old password
        verifies against its hash, false and nothing changes; otherwise only
        that row's hash is replaced by hash(newPassword, salt). */
    method ChangePassword(userId: int, oldPassword: string, newPassword: string, salt: string)
      returns (changed: bool)
      requires db.Valid() && Sound()
      modifies db`users
      ensures db.Valid()
      ensures changed <==>
        UserIdIndex(old(db.users), userId) >= 0 &&
        verify(oldPassword, old(db.users)[UserIdIndex(old(db.users), userId)].passwordHash)
      ensures !changed ==> db.users == old(db.users)
      ensures changed ==>
        var k := UserIdIndex(old(db.users), userId);
        && db.users == old(db.users)[k := old(db.users)[k].(passwordHash := hash(newPassword, salt))]
        && Authenticate(db.users, verify, db.users[k].username, newPassword).Some?
    {
      var k := UserIdIndex(db.users, userId);
      if k < 0 || !verify(oldPassword, db.users[k].passwordHash) {
        return false;
      }
      ChangedPasswordAuthenticates(db.users, db.userSeq, k, hash, verify, newPassword, salt);
      db.users := db.users[k := db.users[k].(passwordHash := hash(newPassword, salt))];
      changed := true;
    }
  }
}
