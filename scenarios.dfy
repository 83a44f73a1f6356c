/** Client sequences of auth.py operations on fresh objects, and what each step
    answers. Each one is proved from the contracts of the operations and the
    model's lemmas. */
module AuthScenarios {
  import opened Auth

  /** A new account is logged out; a wrong password is refused and leaves it
      logged out; the right one logs it in once; a second log-in is refused;
      the same username cannot be registered again. */
  method AccountLifecycle(username: string, password: string, wrong: string)
    returns (added: Outcome, flagAfterAdd: bool, wrongLogIn: Result<bool>, flagAfterWrong: bool,
             logIn: Result<bool>, flagAfterLogIn: bool, again: Result<bool>, duplicate: Outcome)
    requires |password| >= MinPasswordLength && wrong != password
    ensures added == Done && !flagAfterAdd
    ensures wrongLogIn == Err(InvalidPassword) && !flagAfterWrong
    ensures logIn == Ok(true) && flagAfterLogIn
    ensures again == Err(AlreadyLoggedIn)
    ensures duplicate == Fail(AlreadyExists)
  {
    var auth := new Authenticator();
    added := auth.AddUser(username, password);
    flagAfterAdd := auth.IsLoggedIn(username);
    VerifyPasswordAcceptsOnlyOriginal(auth.users[username], password, wrong);
    wrongLogIn := auth.LogIn(username, wrong);
    flagAfterWrong := auth.IsLoggedIn(username);
    VerifyPasswordAcceptsOnlyOriginal(auth.users[username], password, password);
    logIn := auth.LogIn(username, password);
    flagAfterLogIn := auth.IsLoggedIn(username);
    again := auth.LogIn(username, password);
    duplicate := auth.AddUser(username, password);
  }

  /** The length test comes before the duplicate test: a short password for a
      registered username is reported as too short. */
  method ShortPasswordBeforeDuplicate(username: string, password: string, short: string)
    returns (added: Outcome, second: Outcome)
    requires |password| >= MinPasswordLength && |short| < MinPasswordLength
    ensures added == Done
    ensures second == Fail(PasswordTooShort)
  {
    var auth := new Authenticator();
    added := auth.AddUser(username, password);
    second := auth.AddUser(username, short);
  }

  /** Unknown usernames: log-in and deletion are refused, `is_logged_in` answers
      false, and every Authorizer operation is refused. */
  method UnknownUser(username: string, password: string, perm: string)
    returns (logIn: Result<bool>, deleted: Outcome, flag: bool, given: Outcome,
             withdrawn: Outcome, verified: Outcome, listed: Result<seq<string>>)
    ensures logIn == Err(DoesNotExist) && deleted == Fail(DoesNotExist) && !flag
    ensures given == Fail(DoesNotExist) && withdrawn == Fail(DoesNotExist)
    ensures verified == Fail(DoesNotExist) && listed == Err(DoesNotExist)
  {
    var auth := new Authenticator();
    var z := new Authorizer(auth);
    var registered := z.AddPermission(perm);
    logIn := auth.LogIn(username, password);
    deleted := auth.DelUser(username);
    flag := auth.IsLoggedIn(username);
    given := z.GivePermission(perm, username);
    withdrawn := z.WithdrawPermission(perm, username);
    verified := z.VerifyPermission(perm, username);
    listed := z.ListPermissions(username);
  }

  /** Grant and withdrawal: a permission not yet given is denied; given (even
      twice) it is verified; withdrawn it is denied again; withdrawing it a
      second time is refused, where giving it a second time was not. */
  method GrantAndWithdraw(username: string, password: string, perm: string)
    returns (before: Outcome, given: Outcome, givenAgain: Outcome, after: Outcome,
             withdrawn: Outcome, afterWithdraw: Outcome, withdrawnAgain: Outcome)
    requires |password| >= MinPasswordLength
    ensures before == Fail(PermissionDenied)
    ensures given == Done && givenAgain == Done && after == Done
    ensures withdrawn == Done && afterWithdraw == Fail(PermissionDenied)
    ensures withdrawnAgain == Fail(DoesNotExist)
  {
    var auth := new Authenticator();
    var z := new Authorizer(auth);
    var added := auth.AddUser(username, password);
    var registered := z.AddPermission(perm);
    before := z.VerifyPermission(perm, username);
    given := z.GivePermission(perm, username);
    givenAgain := z.GivePermission(perm, username);
    after := z.VerifyPermission(perm, username);
    withdrawn := z.WithdrawPermission(perm, username);
    afterWithdraw := z.VerifyPermission(perm, username);
    withdrawnAgain := z.WithdrawPermission(perm, username);
  }

  /** A logged-in account can be deleted, and its username is then unknown. */
  method DeleteLoggedIn(username: string, password: string)
    returns (logIn: Result<bool>, deleted: Outcome, flag: bool, again: Result<bool>)
    requires |password| >= MinPasswordLength
    ensures logIn == Ok(true) && deleted == Done && !flag
    ensures again == Err(DoesNotExist)
  {
    var auth := new Authenticator();
    var added := auth.AddUser(username, password);
    VerifyPasswordAcceptsOnlyOriginal(auth.users[username], password, password);
    logIn := auth.LogIn(username, password);
    deleted := auth.DelUser(username);
    flag := auth.IsLoggedIn(username);
    again := auth.LogIn(username, password);
  }

  /** Deleting an account leaves its grant behind in the grantee set, and an
      account created again under the same username does not inherit it. */
  method RecreatedAccount(username: string, password: string, perm: string)
    returns (deleted: Outcome, recreated: Outcome, verified: Outcome,
             listed: Result<seq<string>>, grantees: nat)
    requires |password| >= MinPasswordLength
    ensures deleted == Done && recreated == Done
    ensures verified == Fail(PermissionDenied)
    ensures listed == Ok([])
    ensures grantees == 1
  {
    var auth := new Authenticator();
    var z := new Authorizer(auth);
    var added := auth.AddUser(username, password);
    var registered := z.AddPermission(perm);
    var given := z.GivePermission(perm, username);
    ghost var first := auth.users[username];
    assert z.permissions[perm] == {first};
    deleted := auth.DelUser(username);
    recreated := auth.AddUser(username, password);
    assert auth.users[username] != first;
    verified := z.VerifyPermission(perm, username);
    listed := z.ListPermissions(username);
    HeldSnoc([], perm, z.permissions, auth.users[username]);
    assert z.names == [] + [perm];
    grantees := |z.permissions[perm]|;
  }

  /** `list_permissions` answers in registration order, not in the order the
      grants were made. */
  method ListingFollowsRegistration(username: string, password: string, first: string, second: string)
    returns (listed: Result<seq<string>>)
    requires |password| >= MinPasswordLength && first != second
    ensures listed == Ok([first, second])
  {
    var auth := new Authenticator();
    var added := auth.AddUser(username, password);
    var z := new Authorizer(auth);
    var registered := z.AddPermission(first);
    assert z.names == [first];
    registered := z.AddPermission(second);
    assert z.names == [first, second];
    var given := z.GivePermission(second, username);
    given := z.GivePermission(first, username);
    listed := z.ListPermissions(username);
    var u, p := auth.users[username], z.permissions;
    assert u in p[first] && u in p[second];
    HeldSnoc([], first, p, u);
    assert [] + [first] == [first];
    HeldSnoc([first], second, p, u);
    assert [first] + [second] == [first, second];
  }
}
