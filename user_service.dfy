/**
 * UserService of the account service: registration and login against the `user` table.
 * The table is the sequence of its rows in insertion order; ids come from an
 * auto-increment counter. Passwords are stored and compared as given.
 */
module Accounts {
  import opened Wrappers

  /** A row of the `user` table. The request fields may be null, and are stored as given. */
  datatype User = User(id: int, username: string, password: Option<string>, email: Option<string>, isAdmin: bool)

  const USERNAME_TAKEN: string := "Username already exists"
  const BAD_CREDENTIALS: string := "Invalid username or password"
  /** `user.getPassword().equals(..)` on a row stored with a null password. */
  const NULL_POINTER: string := "java.lang.NullPointerException"

  predicate UniqueUsernames(users: seq<User>)
  {
    forall i, j :: 0 <= i < j < |users| ==> users[i].username != users[j].username
  }

  predicate UniqueIds(users: seq<User>)
  {
    forall i, j :: 0 <= i < j < |users| ==> users[i].id != users[j].id
  }

  /** `SELECT * FROM user WHERE username = ?`. */
  function FindByUsername(users: seq<User>, username: string): (r: Option<User>)
    ensures r.Some? ==> r.value in users && r.value.username == username
    ensures r.None? ==> forall u :: u in users ==> u.username != username
  {
    if users == [] then None
    else if users[0].username == username then Some(users[0])
    else FindByUsername(users[1..], username)
  }

  /** `SELECT * FROM user WHERE id = ?` (getUserById). */
  function FindById(users: seq<User>, id: int): (r: Option<User>)
    ensures r.Some? ==> r.value in users && r.value.id == id
    ensures r.None? ==> forall u :: u in users ==> u.id != id
  {
    if users == [] then None
    else if users[0].id == id then Some(users[0])
    else FindById(users[1..], id)
  }

  /** login: an unknown username and a wrong password fail alike; a row stored without a
      password makes the comparison itself throw. */
  function Authenticate(users: seq<User>, username: string, password: Option<string>): Result<User, string>
  {
    match FindByUsername(users, username)
    case None => Err(BAD_CREDENTIALS)
    case Some(u) =>
      if u.password.None? then Err(NULL_POINTER)
      else if u.password == password then Ok(u)
      else Err(BAD_CREDENTIALS)
  }

  /** The row register builds: the given fields and `isAdmin = false`. */
  function NewUser(id: int, username: string, password: Option<string>, email: Option<string>): User
  {
    User(id, username, password, email, false)
  }

  class UserService {
    /** The rows in insertion order. */
    var users: seq<User>
    /** The next auto-increment id. */
    var nextId: int

    ghost predicate Valid()
      reads this
    {
      && UniqueUsernames(users) && UniqueIds(users)
      && forall u :: u in users ==> u.id < nextId
    }

    constructor ()
      ensures users == [] && nextId == 1 && Valid()
    {
      users := [];
      nextId := 1;
    }

    /** register: a taken username fails and leaves the store alone; otherwise the new user
        is inserted and returned with its generated id. */
    method Register(username: string, password: Option<string>, email: Option<string>) returns (r: Result<User, string>)
      requires Valid()
      modifies this
      ensures Valid()
      ensures FindByUsername(old(users), username).Some? ==>
        r == Err(USERNAME_TAKEN) && users == old(users) && nextId == old(nextId)
      ensures FindByUsername(old(users), username).None? ==>
        && r == Ok(NewUser(old(nextId), username, password, email))
        && users == old(users) + [r.value] && nextId == old(nextId) + 1
    {
      var existing := FindByUsername(users, username);
      if existing.Some? {
        return Err(USERNAME_TAKEN);
      }
      var user := NewUser(nextId, username, password, email);
      InsertSpec(users, user);
      users := users + [user];
      nextId := nextId + 1;
      r := Ok(user);
    }

    /** login reads the store and changes nothing. */
    method Login(username: string, password: Option<string>) returns (r: Result<User, string>)
      requires Valid()
      ensures r == Authenticate(users, username, password)
      ensures r.Ok? ==> r.value in users && r.value.username == username && r.value.password == password
    {
      r := Authenticate(users, username, password);
    }

    /** getUserById reads the store and changes nothing. */
    method GetUserById(id: int) returns (r: Option<User>)
      ensures r == FindById(users, id)
      ensures r.Some? ==> r.value in users && r.value.id == id
      ensures r.None? ==> forall u :: u in users ==> u.id != id
    {
      r := FindById(users, id);
    }
  }

  /** With usernames unique, the lookup finds the one row with that username. */
  lemma {:induction false} FindByUsernameUnique(users: seq<User>, u: User)
    requires UniqueUsernames(users) && u in users
    ensures FindByUsername(users, u.username) == Some(u)
  {
    if users[0] != u {
      assert users[0].username != u.username by {
        var i :| 0 <= i < |users| && users[i] == u;
        assert i != 0;
      }
      assert u in users[1..] by {
        var i :| 0 <= i < |users| && users[i] == u;
        assert users[1..][i - 1] == u;
      }
      FindByUsernameUnique(users[1..], u);
    }
  }

  /** login succeeds exactly when a row with that username exists and stores the given
      password, and then it returns that row. */
  lemma LoginSpec(users: seq<User>, username: string, password: Option<string>)
    requires UniqueUsernames(users)
    ensures Authenticate(users, username, password).Ok? <==>
      exists u :: u in users && u.username == username && u.password.Some? && u.password == password
    ensures Authenticate(users, username, password).Ok? ==>
      var u := Authenticate(users, username, password).value;
      u in users && u.username == username && u.password == password
  {
    if exists u :: u in users && u.username == username && u.password.Some? && u.password == password {
      var u :| u in users && u.username == username && u.password.Some? && u.password == password;
      FindByUsernameUnique(users, u);
    }
  }

  /** An unknown username and a wrong password give the same error. */
  lemma LoginErrorUniform(users: seq<User>, username: string, password: Option<string>)
    ensures (forall u :: u in users ==> u.username != username) ==>
      Authenticate(users, username, password) == Err(BAD_CREDENTIALS)
    ensures (UniqueUsernames(users)
             && exists u :: u in users && u.username == username && u.password.Some? && u.password != password)
      ==> Authenticate(users, username, password) == Err(BAD_CREDENTIALS)
  {
    if UniqueUsernames(users) && exists u :: u in users && u.username == username && u.password.Some? && u.password != password {
      var u :| u in users && u.username == username && u.password.Some? && u.password != password;
      FindByUsernameUnique(users, u);
    }
  }

  lemma {:induction false} FindByUsernameAppend(users: seq<User>, u: User, name: string)
    requires FindByUsername(users, u.username).None?
    ensures FindByUsername(users + [u], name) == if name == u.username then Some(u) else FindByUsername(users, name)
  {
    if users != [] {
      assert (users + [u])[1..] == users[1..] + [u];
      FindByUsernameAppend(users[1..], u, name);
    }
  }

  lemma {:induction false} FindByIdAppend(users: seq<User>, u: User, id: int)
    requires FindById(users, u.id).None?
    ensures FindById(users + [u], id) == if id == u.id then Some(u) else FindById(users, id)
  {
    if users != [] {
      assert (users + [u])[1..] == users[1..] + [u];
      FindByIdAppend(users[1..], u, id);
    }
  }

  /** Inserting a row whose username and id are both new keeps both unique, makes the row
      findable under its username and its id, and changes no other lookup. */
  lemma InsertSpec(users: seq<User>, u: User)
    requires UniqueUsernames(users) && UniqueIds(users)
    requires FindByUsername(users, u.username).None? && FindById(users, u.id).None?
    ensures UniqueUsernames(users + [u]) && UniqueIds(users + [u])
    ensures FindByUsername(users + [u], u.username) == Some(u) && FindById(users + [u], u.id) == Some(u)
    ensures forall name :: name != u.username ==> FindByUsername(users + [u], name) == FindByUsername(users, name)
    ensures forall id :: id != u.id ==> FindById(users + [u], id) == FindById(users, id)
  {
    var r := users + [u];
    forall i, j | 0 <= i < j < |r|
      ensures r[i].username != r[j].username && r[i].id != r[j].id
    {
      if j == |users| {
        assert r[i] in users;
      }
    }
    forall name
      ensures FindByUsername(r, name) == if name == u.username then Some(u) else FindByUsername(users, name)
    {
      FindByUsernameAppend(users, u, name);
    }
    forall id
      ensures FindById(r, id) == if id == u.id then Some(u) else FindById(users, id)
    {
      FindByIdAppend(users, u, id);
    }
  }

  /** After a successful register the new user logs in with the password it registered
      and is found by its id. */
  lemma RegisterThenLogin(users: seq<User>, id: int, username: string, password: string, email: Option<string>)
    requires UniqueUsernames(users) && UniqueIds(users)
    requires FindByUsername(users, username).None? && FindById(users, id).None?
    ensures Authenticate(users + [NewUser(id, username, Some(password), email)], username, Some(password))
         == Ok(NewUser(id, username, Some(password), email))
    ensures FindById(users + [NewUser(id, username, Some(password), email)], id)
         == Some(NewUser(id, username, Some(password), email))
  {
    InsertSpec(users, NewUser(id, username, Some(password), email));
  }
}
