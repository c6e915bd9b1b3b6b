/** The credentials table: sign-up appends a username with the hash of its
    password; log-in checks for a row holding both. The hash (SHA-256 in
    app.py) is a parameter of the model. */
module Users {
  import opened Sequences
  import Text

  datatype User = User(username: string, passwordHash: string)

  function UsernameOf(u: User): string
  {
    u.username
  }

  /** `username in users['username'].values` */
  predicate Registered(users: seq<User>, username: string)
  {
    exists i :: 0 <= i < |users| && users[i].username == username
  }

  /** authenticate: the rows matching both the username and the hash of the
      password are selected, and log-in succeeds when there is one. */
  function Authenticate(users: seq<User>, hash: string -> string, username: string, password: string): (ok: bool)
    ensures ok <==> exists i :: 0 <= i < |users| && users[i].username == username && users[i].passwordHash == hash(password)
  {
    var hashed := hash(password);
    var both := (u: User) => u.username == username && u.passwordHash == hashed;
    SelectEmptyIff(users, both);
    Select(users, both) != []
  }

  /** After a sign-up, a log-in as that user
      succeeds exactly when the attempt hashes like the registered password. */
  lemma SignupThenAuthenticate(users: seq<User>, hash: string -> string, username: string, password: string, attempt: string)
    requires !Registered(users, username)
    ensures Authenticate(users + [User(username, hash(password))], hash, username, attempt)
            <==> hash(attempt) == hash(password)
  {
    var t := users + [User(username, hash(password))];
    assert t[|users|] == User(username, hash(password));
    forall i | 0 <= i < |users| ensures t[i].username != username {
      assert t[i] == users[i];
    }
  }

  /** Appending an unregistered username keeps usernames unique. */
  lemma AppendNewUserDistinct(users: seq<User>, u: User)
    requires DistinctBy(users, UsernameOf) && !Registered(users, u.username)
    ensures DistinctBy(users + [u], UsernameOf)
  {
    var t := users + [u];
    forall i, j | 0 <= i < j < |t| ensures UsernameOf(t[i]) != UsernameOf(t[j]) {
      assert t[i] == users[i];
      if j < |users| {
        assert t[j] == users[j];
      }
    }
  }

  /** The credentials file. */
  class UserStore {
    const hash: string -> string
    var users: seq<User>

    constructor (hash: string -> string, users: seq<User>)
      ensures this.hash == hash && this.users == users
    {
      this.hash := hash;
      this.users := users;
    }

    /** save_user: rejects a blank username or password and a username already
        registered; otherwise appends the username as given with the password's
        hash. */
    method SaveUser(username: string, password: string) returns (ok: bool)
      modifies this
      ensures ok <==> !Text.IsBlank(username) && !Text.IsBlank(password) && !Registered(old(users), username)
      ensures users == if ok then old(users) + [User(username, hash(password))] else old(users)
      ensures ok ==> Registered(users, username)
      ensures DistinctBy(old(users), UsernameOf) ==> DistinctBy(users, UsernameOf)
    {
      if Text.IsBlank(username) || Text.IsBlank(password) {
        return false;
      }
      if Registered(users, username) {
        return false;
      }
      var u := User(username, hash(password));
      if DistinctBy(users, UsernameOf) {
        AppendNewUserDistinct(users, u);
      }
      users := users + [u];
      assert users[|users| - 1].username == username;
      ok := true;
    }
  }
}
