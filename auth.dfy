/** Model of auth.py: accounts with hashed passwords and a login flag, kept by
    an Authenticator, and named permissions granted to accounts, kept by an
    Authorizer. Every exception the source raises is an error value here. */
module Auth {

  /** The exception classes of auth.py, one error value each. */
  datatype AuthError =
    | InvalidPassword
    | DoesNotExist
    | AlreadyExists
    | PasswordTooShort
    | AlreadyLoggedIn
    | PermissionDenied

  /** What an operation that returns nothing does: it completes or raises. */
  datatype Outcome = Done | Fail(error: AuthError)

  /** What an operation that returns a value does: it returns or raises. */
  datatype Result<T> = Ok(value: T) | Err(error: AuthError)

  /** A SHA-256 hex digest, kept symbolic: a digest is labelled with the text it
      was computed from, so equal digests come from equal texts. This is the
      model of a collision-free hash; no bit of the real digest is computed. */
  datatype Digest = Sha256(text: string)

  /** The digest stored for a password (`__encrypt`: encode, hash, hex). */
  function Hash(password: string): (d: Digest)
    ensures d.text == password
  {
    Sha256(password)
  }

  /** What `hashlib.sha256(x).hexdigest()` does in Python 3: it returns a
      digest when `x` is bytes and raises TypeError when `x` is a `str`. */
  datatype HashCall = Hexdigest(digest: Digest) | RaisesTypeError

  /** The shortest password `add_user` accepts. */
  const MinPasswordLength := 6

  /** The permissions registered when auth.py is loaded, in that order. */
  const DefaultPermissions: seq<string> := [
    "add a new entry",
    "delete entries",
    "view information about properties",
    "add and delete users",
    "manage permissions"
  ]

  /** No name occurs twice. */
  predicate Distinct(names: seq<string>)
  {
    forall i, j :: 0 <= i < j < |names| ==> names[i] != names[j]
  }

  /** One account. Objects are compared by identity, as Python compares `User`
      objects (the class defines neither `__eq__` nor `__hash__`): two accounts
      with the same username and password are still two accounts. */
  class User {
    const username: string
    /** The digest of the password; the plaintext is not kept. */
    const password: Digest
    var loggedIn: bool

    constructor (username: string, password: string)
      ensures this.username == username
      ensures this.password == Hash(password)
      ensures !loggedIn
    {
      this.username := username;
      this.password := Hash(password);
      loggedIn := false;
    }

    /** `verify_password` as auth.py:16 writes it: the candidate `str` goes to
        `hashlib.sha256` without being encoded first, which raises TypeError. */
    function VerifyPasswordAsWritten(toVerify: string): (r: HashCall)
      ensures r.RaisesTypeError?
    {
      RaisesTypeError
    }

    /** `verify_password` as intended: the candidate is encoded and hashed the
        way `__encrypt` does it, and the two digests are compared. */
    function VerifyPassword(toVerify: string): (r: bool)
      ensures r <==> password.text == toVerify
    {
      Hash(toVerify) == password
    }
  }

  /** The candidate that the stored digest was made from is the only one the
      intended `verify_password` accepts. */
  lemma VerifyPasswordAcceptsOnlyOriginal(u: User, original: string, candidate: string)
    requires u.password == Hash(original)
    ensures u.VerifyPassword(candidate) <==> candidate == original
  {
  }

  /** As written, `verify_password` never returns, not even for the password the
      account was created with: it raises, where the intended check accepts. */
  lemma VerifyPasswordAsWrittenRejectsOriginal(u: User, original: string)
    requires u.password == Hash(original)
    ensures u.VerifyPasswordAsWritten(original) != Hexdigest(u.password)
    ensures u.VerifyPassword(original)
  {
  }

  /** The account store: username to account, each account filed under its own
      username. */
  class Authenticator {
    var users: map<string, User>

    ghost predicate Valid()
      reads this
    {
      forall name :: name in users ==> users[name].username == name
    }

    /** The usernames whose accounts are logged in. */
    ghost function Sessions(): (s: set<string>)
      reads this, users.Values
      ensures s <= users.Keys
    {
      set name | name in users && users[name].loggedIn
    }

    constructor ()
      ensures Valid()
      ensures users == map[]
    {
      users := map[];
    }

    /** `add_user`: the length test comes first, then the duplicate test; on
        success exactly one new, logged-out account is filed under `username`. */
    method AddUser(username: string, password: string) returns (r: Outcome)
      requires Valid()
      modifies this
      ensures Valid()
      ensures r == if |password| < MinPasswordLength then Fail(PasswordTooShort)
                   else if username in old(users) then Fail(AlreadyExists)
                   else Done
      ensures r.Fail? ==> users == old(users)
      ensures r.Done? ==> username in users && fresh(users[username])
                          && users == old(users)[username := users[username]]
                          && users[username].password == Hash(password)
                          && !users[username].loggedIn
      ensures forall name :: name in old(users) ==> users[name].loggedIn == old(users[name].loggedIn)
      ensures Sessions() == old(Sessions())
    {
      if |password| < MinPasswordLength {
        return Fail(PasswordTooShort);
      }
      if username in users {
        return Fail(AlreadyExists);
      }
      var account := new User(username, password);
      users := users[username := account];
      r := Done;
    }

    /** `log_in`: an unknown name, then a session already open, then a wrong
        password are refused in that order; only success changes a flag, and
        only that account's. */
    method LogIn(username: string, password: string) returns (r: Result<bool>)
      requires Valid()
      modifies users.Values
      ensures Valid() && users == old(users)
      ensures r == if username !in users then Err(DoesNotExist)
                   else if old(users[username].loggedIn) then Err(AlreadyLoggedIn)
                   else if !users[username].VerifyPassword(password) then Err(InvalidPassword)
                   else Ok(true)
      ensures forall name :: name in users ==>
                users[name].loggedIn == (old(users[name].loggedIn) || (r.Ok? && name == username))
      ensures Sessions() == if r.Ok? then old(Sessions()) + {username} else old(Sessions())
    {
      if username !in users {
        return Err(DoesNotExist);
      }
      var account := users[username];
      if account.loggedIn {
        return Err(AlreadyLoggedIn);
      }
      if !account.VerifyPassword(password) {
        return Err(InvalidPassword);
      }
      account.loggedIn := true;
      r := Ok(true);
    }

    /** `is_logged_in`: never raises; an unknown username is not logged in. */
    method IsLoggedIn(username: string) returns (r: bool)
      ensures r <==> username in users && users[username].loggedIn
      ensures username !in users ==> !r
    {
      if username in users {
        r := users[username].loggedIn;
      } else {
        r := false;
      }
    }

    /** `del_user`: removes the account whatever its login state; unknown
        names are refused. */
    method DelUser(username: string) returns (r: Outcome)
      requires Valid()
      modifies this
      ensures Valid()
      ensures r == if username in old(users) then Done else Fail(DoesNotExist)
      ensures users == old(users) - {username}
      ensures forall name :: name in users ==> users[name].loggedIn == old(users[name].loggedIn)
      ensures Sessions() == old(Sessions()) - {username}
    {
      if username !in users {
        return Fail(DoesNotExist);
      }
      users := users - {username};
      r := Done;
    }
  }

  /** The grantee sets after `permission.add(user)` on the set of `name`. */
  function Grant(perms: map<string, set<User>>, name: string, u: User): (r: map<string, set<User>>)
    requires name in perms
    ensures r.Keys == perms.Keys
    ensures r[name] == perms[name] + {u}
    ensures forall n :: n in perms && n != name ==> r[n] == perms[n]
  {
    perms[name := perms[name] + {u}]
  }

  /** The grantee sets after `permission.remove(user)` on the set of `name`. */
  function Revoke(perms: map<string, set<User>>, name: string, u: User): (r: map<string, set<User>>)
    requires name in perms
    ensures r.Keys == perms.Keys
    ensures r[name] == perms[name] - {u}
    ensures forall n :: n in perms && n != name ==> r[n] == perms[n]
  {
    perms[name := perms[name] - {u}]
  }

  /** Granting twice is granting once. */
  lemma GrantIdempotent(perms: map<string, set<User>>, name: string, u: User)
    requires name in perms
    ensures Grant(Grant(perms, name, u), name, u) == Grant(perms, name, u)
  {
  }

  /** Withdrawing a grant undoes it when the account did not hold it before. */
  lemma RevokeUndoesGrant(perms: map<string, set<User>>, name: string, u: User)
    requires name in perms && u !in perms[name]
    ensures Revoke(Grant(perms, name, u), name, u) == perms
  {
    assert Revoke(Grant(perms, name, u), name, u)[name] == perms[name];
  }

  /** The names of `order`, in that order, whose grantee set holds `u`: what the
      loop of `list_permissions` collects. */
  function Held(order: seq<string>, perms: map<string, set<User>>, u: User): (r: seq<string>)
    ensures |r| <= |order|
  {
    if order == [] then []
    else
      var last := order[|order| - 1];
      Held(order[..|order| - 1], perms, u) + (if last in perms && u in perms[last] then [last] else [])
  }

  /** Registering one more name extends the listing by that name when its
      set holds the account. */
  lemma HeldSnoc(order: seq<string>, n: string, perms: map<string, set<User>>, u: User)
    ensures Held(order + [n], perms, u)
            == Held(order, perms, u) + (if n in perms && u in perms[n] then [n] else [])
  {
    assert (order + [n])[..|order|] == order;
  }

  /** A name is listed exactly when it is registered and its set holds the account. */
  lemma {:induction false} HeldMembers(order: seq<string>, perms: map<string, set<User>>, u: User, n: string)
    ensures n in Held(order, perms, u) <==> n in order && n in perms && u in perms[n]
  {
    if order != [] {
      var init := order[..|order| - 1];
      HeldMembers(init, perms, u, n);
      assert order == init + [order[|order| - 1]];
    }
  }

  /** No name is listed twice when the registration order has none twice. */
  lemma {:induction false} HeldDistinct(order: seq<string>, perms: map<string, set<User>>, u: User)
    requires Distinct(order)
    ensures Distinct(Held(order, perms, u))
  {
    if order != [] {
      var init := order[..|order| - 1];
      var last := order[|order| - 1];
      assert Distinct(init);
      HeldDistinct(init, perms, u);
      HeldMembers(init, perms, u, last);
      assert last !in init;
    }
  }

  /** The permission registry. Grantee sets hold accounts, not usernames, so a
      deleted account stays in the sets it was granted, and an account created
      later under the same username is a different account. */
  class Authorizer {
    /** The account store that usernames are resolved against. */
    const authenticator: Authenticator
    /** Grantee accounts per permission name. */
    var permissions: map<string, set<User>>
    /** The permission names in registration order (the dict's iteration order). */
    var names: seq<string>

    ghost predicate Valid()
      reads this
    {
      && (forall n :: n in permissions <==> n in names)
      && Distinct(names)
    }

    constructor (authenticator: Authenticator)
      ensures Valid()
      ensures this.authenticator == authenticator
      ensures permissions == map[] && names == []
    {
      this.authenticator := authenticator;
      permissions := map[];
      names := [];
    }

    /** `add_permission`: a new name gets an empty grantee set and goes last in
        the registration order; a registered name is refused. */
    method AddPermission(name: string) returns (r: Outcome)
      requires Valid()
      modifies this
      ensures Valid()
      ensures r == if name in old(permissions) then Fail(AlreadyExists) else Done
      ensures r.Done? ==> permissions == old(permissions)[name := {}] && names == old(names) + [name]
      ensures r.Fail? ==> permissions == old(permissions) && names == old(names)
    {
      if name in permissions {
        return Fail(AlreadyExists);
      }
      permissions := permissions[name := {}];
      names := names + [name];
      r := Done;
    }

    /** `give_permission`: adds the account now filed under `username` to the
        set of `name`; an unknown username or permission is refused. */
    method GivePermission(name: string, username: string) returns (r: Outcome)
      requires Valid()
      modifies this
      ensures Valid() && names == old(names)
      ensures r == if username in authenticator.users && name in old(permissions) then Done
                   else Fail(DoesNotExist)
      ensures permissions == if r.Done? then Grant(old(permissions), name, authenticator.users[username])
                             else old(permissions)
    {
      if username !in authenticator.users || name !in permissions {
        return Fail(DoesNotExist);
      }
      var account := authenticator.users[username];
      permissions := permissions[name := permissions[name] + {account}];
      r := Done;
    }

    /** `withdraw_permission`: removes the account now filed under `username`
        from the set of `name`; an unknown username or permission, or an account
        that does not hold the permission (`set.remove` raises KeyError), is
        refused. */
    method WithdrawPermission(name: string, username: string) returns (r: Outcome)
      requires Valid()
      modifies this
      ensures Valid() && names == old(names)
      ensures r == if username in authenticator.users && name in old(permissions)
                      && authenticator.users[username] in old(permissions)[name] then Done
                   else Fail(DoesNotExist)
      ensures permissions == if r.Done? then Revoke(old(permissions), name, authenticator.users[username])
                             else old(permissions)
    {
      if username !in authenticator.users || name !in permissions {
        return Fail(DoesNotExist);
      }
      var account := authenticator.users[username];
      if account !in permissions[name] {
        return Fail(DoesNotExist);
      }
      permissions := permissions[name := permissions[name] - {account}];
      r := Done;
    }

    /** `verify_permission`: passes exactly when the account filed under
        `username` is in the set of `name`; unknown names are DoesNotExist, a
        known account without the grant is PermissionDenied. */
    method VerifyPermission(name: string, username: string) returns (r: Outcome)
      ensures r.Done? <==> username in authenticator.users && name in permissions
                           && authenticator.users[username] in permissions[name]
      ensures (username !in authenticator.users || name !in permissions) ==> r == Fail(DoesNotExist)
      ensures (&& username in authenticator.users && name in permissions
               && authenticator.users[username] !in permissions[name]) ==> r == Fail(PermissionDenied)
    {
      if username !in authenticator.users {
        return Fail(DoesNotExist);
      }
      var account := authenticator.users[username];
      if name !in permissions {
        return Fail(DoesNotExist);
      }
      if account in permissions[name] {
        r := Done;
      } else {
        r := Fail(PermissionDenied);
      }
    }

    /** `list_permissions`: the names, in registration order, whose set holds
        the account filed under `username`; an unknown username is refused. */
    method ListPermissions(username: string) returns (r: Result<seq<string>>)
      requires Valid()
      ensures username !in authenticator.users ==> r == Err(DoesNotExist)
      ensures username in authenticator.users ==>
                r == Ok(Held(names, permissions, authenticator.users[username]))
    {
      if username !in authenticator.users {
        return Err(DoesNotExist);
      }
      var account := authenticator.users[username];
      var held: seq<string> := [];
      var i := 0;
      while i < |names|
        invariant 0 <= i <= |names|
        invariant held == Held(names[..i], permissions, account)
      {
        assert names[..i + 1][..i] == names[..i];
        if account in permissions[names[i]] {
          held := held + [names[i]];
        }
        i := i + 1;
      }
      assert names[..i] == names;
      r := Ok(held);
    }
  }

  /** The listing holds every permission the account has, each once, and
      nothing else. */
  lemma ListedPermissions(z: Authorizer, u: User, n: string)
    requires z.Valid()
    ensures n in Held(z.names, z.permissions, u) <==> n in z.permissions && u in z.permissions[n]
    ensures Distinct(Held(z.names, z.permissions, u))
  {
    HeldMembers(z.names, z.permissions, u, n);
    HeldDistinct(z.names, z.permissions, u);
  }

  /** The five default names are different (they even differ in length). */
  lemma DefaultPermissionsDistinct()
    ensures Distinct(DefaultPermissions)
  {
    var lengths := [15, 14, 33, 20, 18];
    assert forall i :: 0 <= i < 5 ==> |DefaultPermissions[i]| == lengths[i];
  }

  /** The Authorizer of auth.py after loading: the five default permissions,
      registered in order, none granted to anyone. */
  method NewSeededAuthorizer(authenticator: Authenticator) returns (z: Authorizer)
    ensures fresh(z) && z.Valid() && z.authenticator == authenticator
    ensures z.names == DefaultPermissions
    ensures NoGrants(z.permissions)
  {
    DefaultPermissionsDistinct();
    z := new Authorizer(authenticator);
    RegisterEach(z, DefaultPermissions);
    assert [] + DefaultPermissions == DefaultPermissions;
  }

  /** `add_permission` called on each of `d`, in order. Every call succeeds,
      since the names are new and distinct: each name of `d` gets an empty
      grantee set, and every permission registered before keeps its grantees. */
  method RegisterEach(z: Authorizer, d: seq<string>)
    requires z.Valid() && Distinct(d)
    requires forall i :: 0 <= i < |d| ==> d[i] !in z.names
    modifies z
    ensures z.Valid() && z.names == old(z.names) + d
    ensures forall n :: n in old(z.permissions) ==> n in z.permissions && z.permissions[n] == old(z.permissions)[n]
    ensures forall i :: 0 <= i < |d| ==> z.permissions[d[i]] == {}
    decreases |d|
  {
    if d != [] {
      var r := z.AddPermission(d[0]);
      ghost var mid := z.permissions;
      assert mid == old(z.permissions)[d[0] := {}];
      assert forall i :: 0 <= i < |d[1..]| ==> d[1..][i] == d[i + 1];
      RegisterEach(z, d[1..]);
      assert z.permissions[d[0]] == {};
      assert forall i :: 0 < i < |d| ==> d[i] == d[1..][i - 1];
      assert old(z.names) + [d[0]] + d[1..] == old(z.names) + d;
    }
  }

  /** No permission has been granted to anyone. */
  predicate NoGrants(perms: map<string, set<User>>)
  {
    forall n :: n in perms ==> perms[n] == {}
  }
}
