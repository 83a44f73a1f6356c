# Real-estate agency: accounts, permissions and property search

This project models the core of a small console program for a real-estate
agency, and proves properties of that model.

- `auth.py` keeps user accounts and named permissions. The `Authenticator`
  maps usernames to `User` accounts. User passwords are stored as SHA-256
  digests, and each account has a logged-in flag. The `Authorizer` maps
  permission names to sets of accounts. It is seeded with five permissions.
  Each operation reports failure by raising one of six error classes.
- `main.py` holds the console helpers:
  - `get_valid_input` repeats a prompt until the answer, lower-cased, is one
    of the options;
  - `multiple_input` reads `key=value` lines until a blank line;
  - `set_of_dict` turns a dictionary into its set of pairs;
  - the `Agent` appends properties to its list and searches it for the first
    property whose attributes include every pair of a search request.

The model has four modules:

- `Text` (`text.dfy`): the Python string operations used by the input
  parser. These are `strip` with Python's full white-space set, `lower`, and
  `count` and `find` for one character.
- `Auth` (`auth.dfy`):
  - `User`, `Authenticator` and `Authorizer` are classes whose methods update
    their fields.
  - Each raised error is returned as `Fail(e)` or `Err(e)`, with one
    `AuthError` per exception class. A returned value is `Done` or `Ok(v)`.
  - An account is identified by its object, as Python's sets identify it.
    The grantee sets are therefore sets of `User` references.
  - SHA-256 is a symbolic injective digest, `Sha256(text)`.
  - The permission dictionary's insertion order is kept in a `names`
    sequence. This is the order in which `list_permissions` answers.
- `Agency` (`agency.dfy`):
  - Console input is a sequence of lines, and running out of lines is
    `None`.
  - `multiple_input` is specified through `Collect`, the map its accepted
    lines build.
  - The property search is specified through `Matches`, inclusion of
    attribute pairs.
- `AuthScenarios` (`scenarios.dfy`): client sequences on fresh objects, each
  proved from the operations' contracts and the model's lemmas.

The code decides two behaviours that look accidental, and the model follows
the code in both:

- A registration with a short password for a username that already exists is
  refused as too short, because the length is tested before the duplicate
  (see `AuthScenarios.ShortPasswordBeforeDuplicate`).
- Deleting an account leaves the account object in the grantee sets. An
  account created again under the same username is a new object and does
  not hold the old grants (see `AuthScenarios.RecreatedAccount`).

## Model

| member | source | states |
|---|---|---|
| Auth.User.constructor | auth.py:5-8 | a new account keeps its username, stores the digest of its password and is logged out |
| Auth.User.VerifyPasswordAsWritten | auth.py:15-17 | as written, hashing the unencoded candidate string raises a TypeError for every candidate |
| Auth.VerifyPasswordAsWrittenRejectsOriginal | auth.py:15-17 | even the original password never yields the stored digest as written, while the corrected check accepts it |
| Auth.Hash | auth.py:11-13 | the stored digest determines the password it was computed from (a collision-free stand-in for SHA-256) |
| Auth.User.VerifyPassword | auth.py:15-17 | the corrected check, which hashes the candidate as `__encrypt` does, accepts a candidate if and only if it is the text the stored digest was computed from |
| Auth.VerifyPasswordAcceptsOnlyOriginal | auth.py:11-17 | the corrected check accepts a candidate if and only if it is the password the account was created with |
| Auth.Authenticator.constructor | auth.py:22-23 | a new authenticator has no accounts |
| Auth.Authenticator.AddUser | auth.py:25-30 | a password shorter than 6 gives PasswordTooShort, tested before the duplicate check that gives AlreadyExists; otherwise exactly one fresh, logged-out account with the password's digest is added under the username; the other accounts, their flags and the set of logged-in usernames are unchanged |
| Auth.Authenticator.LogIn | auth.py:32-42 | an unknown username gives DoesNotExist, a logged-in account gives AlreadyLoggedIn, a wrong password gives InvalidPassword (with the corrected password check), in that order; only on success does exactly that account become logged in; the account map never changes |
| Auth.Authenticator.IsLoggedIn | auth.py:44-50 | true if and only if the username is registered and its account is logged in; false for an unknown username |
| Auth.Authenticator.DelUser | auth.py:52-56 | a registered username is removed and nothing else; an unknown one gives DoesNotExist and changes nothing; the remaining flags are unchanged |
| Auth.Authenticator.Sessions | auth.py:8 | the logged-in usernames are a subset of the registered ones |
| Auth.Grant | auth.py:81 | adding an account to one grantee set changes that set only, by exactly that account |
| Auth.Revoke | auth.py:87 | removing an account from one grantee set changes that set only, by exactly that account |
| Auth.GrantIdempotent | auth.py:81 | granting twice is granting once |
| Auth.RevokeUndoesGrant | auth.py:81-87 | withdrawing a fresh grant restores the grantee map |
| Auth.Authorizer.constructor | auth.py:66-67 | a new authorizer has no permissions |
| Auth.Authorizer.AddPermission | auth.py:69-72 | a known name gives AlreadyExists and changes nothing; otherwise the name is added with no grantees, last in the listing order |
| Auth.Authorizer.GivePermission | auth.py:74-81 | succeeds exactly when the username and the permission are both known, and then adds that account to that permission only; otherwise DoesNotExist and nothing changes |
| Auth.Authorizer.WithdrawPermission | auth.py:83-89 | succeeds exactly when the username and the permission are known and the account holds the permission, and then removes it from that permission only; otherwise DoesNotExist and nothing changes |
| Auth.Authorizer.VerifyPermission | auth.py:91-99 | succeeds if and only if the account holds the permission; DoesNotExist for an unknown username or permission, PermissionDenied for a known account without it |
| Auth.Authorizer.ListPermissions | auth.py:101-110 | DoesNotExist for an unknown username; otherwise the permissions the account holds, in the order they were added |
| Auth.Held | auth.py:106-110 | the names collected by the listing loop, never more than there are registered names |
| Auth.HeldSnoc | auth.py:107-109 | one more permission in the order appends it to the listing exactly when the account holds it |
| Auth.HeldMembers | auth.py:107-109 | a name is listed if and only if it is in the order and the account holds it |
| Auth.HeldDistinct | auth.py:107-109 | a listing over distinct names lists no name twice |
| Auth.ListedPermissions | auth.py:101-110 | the listing of a valid authorizer holds exactly the permissions the account holds, each once |
| Auth.DefaultPermissionsDistinct | auth.py:143-147 | the five seeded permission names are distinct |
| Auth.NewSeededAuthorizer | auth.py:141-147 | the module-level authorizer holds the five seeded permissions in their order, each with no grantees |
| Auth.RegisterEach | auth.py:143-147 | add_permission called on distinct new names, in order, succeeds for each and appends them in that order; each new name has an empty grantee set, and every permission registered before keeps its grantees |
| AuthScenarios.AccountLifecycle | auth.py:25-50 | a new account is logged out; a wrong password is refused and leaves it logged out; the right one logs it in once; a second log-in and a second registration are refused |
| AuthScenarios.ShortPasswordBeforeDuplicate | auth.py:26-29 | a short password for an existing username is reported as too short, not as a duplicate |
| AuthScenarios.UnknownUser | auth.py:32-105 | every operation on an unknown username is refused with DoesNotExist, and is_logged_in answers false |
| AuthScenarios.GrantAndWithdraw | auth.py:74-99 | a permission is denied before it is given, verified after it is given once or twice, denied again after withdrawal, and a second withdrawal is refused |
| AuthScenarios.DeleteLoggedIn | auth.py:32-56 | a logged-in account can be deleted, after which its username is unknown |
| AuthScenarios.RecreatedAccount | auth.py:52-110 | a deleted account stays in its grantee set, and an account created again under the same username does not hold the permission |
| AuthScenarios.ListingFollowsRegistration | auth.py:101-110 | the listing follows the order permissions were added, not the order they were granted |
| Text.StripStart | main.py:307 | the result is a suffix of the input that drops only white space and does not start with white space |
| Text.StripEnd | main.py:309 | the result is a prefix of the input that drops only white space and does not end with white space |
| Text.Strip | main.py:307-309 | the result is a slice of the input, everything cut off on either side is white space, and it neither starts nor ends with white space |
| Text.StripIdempotent | main.py:307-309 | stripping twice is stripping once |
| Text.LowerChar | main.py:9 | `lower` on one character: the result is never an upper-case ASCII letter, and the character changes only when it is one, to the letter 32 code points later |
| Text.Lower | main.py:9 | `lower` on a string: same length, lower-cased character by character, with no upper-case ASCII letter left |
| Text.LowerIdempotent | main.py:9 | lower-casing twice is lower-casing once |
| Text.CountChar | main.py:304 | `count` for one character: never more than the length of the string |
| Text.IndexOf | main.py:306 | the index of the first occurrence of the character |
| Text.CountZeroIffAbsent | main.py:304 | a character is counted zero times if and only if it does not occur |
| Text.CountConcat | main.py:304 | counting distributes over concatenation |
| Agency.GetValidInput | main.py:1-11 | returns the first response whose lower-cased form is an option, after rejecting every earlier one; with no valid response the input runs out |
| Agency.ParseLine | main.py:304-309 | an accepted line yields a key that is one of the options |
| Agency.ParseLineRejectsByCount | main.py:304-305 | a line without exactly one '=' is skipped |
| Agency.ParseLineSplit | main.py:304-309 | a line with one '=' yields the stripped text on each side, if the stripped key is an option |
| Agency.SplitAtSeparator | main.py:304-309 | in `before=after` with no other `=`, the count is one, `find` gives the index just after `before`, and the two slices are `before` and `after` |
| Agency.IndexOfAfter | main.py:306 | the first `=` of `before=after` is at index `|before|` when `before` holds none |
| Agency.Fold | main.py:309 | the dictionary the `update` calls build has at most one key per line read |
| Agency.FoldKeys | main.py:309 | a key is in the built map if and only if some accepted entry has it |
| Agency.FoldLastWins | main.py:309 | a key maps to the value of its last accepted entry |
| Agency.Entries | main.py:300-309 | one parse result per line read |
| Agency.EntryAt | main.py:300-309 | entry `j` is line `j` parsed, so it has a key exactly when that line is accepted with that key |
| Agency.Collect | main.py:309 | the map built from the lines read has only option keys |
| Agency.CollectKeys | main.py:304-309 | a key is in the map if and only if some line read was accepted with it |
| Agency.CollectLastWins | main.py:309 | a key maps to the value of the last line accepted with it |
| Agency.CollectSnoc | main.py:300-309 | one more line read updates the map exactly as that line's parse says |
| Agency.RemoveFirst | main.py:310-313 | removing the first occurrence takes one copy out of the list, and a missing value leaves the list unchanged |
| Agency.PromptStep | main.py:309-313 | accepting a key keeps the prompt list a sub-multiset of the options, with one copy fewer of each entered key |
| Agency.TakeLine | main.py:303-313 | one pass of the loop body extends the map by that line and keeps the prompt-list invariant |
| Agency.MultipleInput | main.py:295-314 | returns a map if and only if a blank line comes; the map is built from the lines up to the first blank one; the prompt list keeps every option not entered and drops every entered key that appears once |
| Agency.Items | main.py:316-321 | a pair is in the set if and only if its key is in the dictionary with that value |
| Agency.SetOfDict | main.py:316-321 | the set of key-value pairs of the dictionary |
| Agency.Matches | main.py:337 | the superset test on pairs: a matching property has every searched key |
| Agency.MatchesIff | main.py:337 | a property matches if and only if it has every key of the search with the same value |
| Agency.Agent.constructor | main.py:291-292 | a new agent has no properties |
| Agency.Agent.AddProperty | main.py:361 | the property is appended to the end of the list |
| Agency.Agent.FindProperty | main.py:336-340 | returns the first property that matches the search; with none, no property matches |
| Agency.EmptySearchFindsFirst | main.py:336-338 | an empty search finds the first property of a non-empty list |

## Left out

- Printing is not modelled: `list_users`, `print_permissions`,
  `display_properties`, the prompts of `get_valid_input` and
  `multiple_input`, and the "Not found" message.
- Auth.Authenticator.LogIn: uses the corrected password check
  `Auth.User.VerifyPassword`. As written, the call to `verify_password` raises
  a `TypeError` that the `except KeyError` does not catch, so `log_in` never
  succeeds and never reports `InvalidPassword`; see the finding below.
- Text.Lower, Text.LowerChar, Agency.GetValidInput: lower-case ASCII letters
  only. Python's `str.lower` also folds other alphabets, and can change a
  string's length (`'İ'.lower()` has two characters). Neither is modelled.
- Agency.GetValidInput, Agency.MultipleInput: running out of console input
  (Python's `EOFError`) is returned as `None` rather than raised.
- Agency.Agent.FindProperty: takes the search request as a parameter. The
  kind and payment prompts that precede it, and the attribute lists they
  select, are not modelled. For a house rental the source reuses the
  apartment-rental attribute list.
- Agency.Agent.AddProperty: takes the new property's attribute dictionary as
  a parameter. The type prompts, `prompt_init` and the `Property` class
  hierarchy that build it are not modelled. That hierarchy stores `beds` and
  `baths` under the attribute names `num_bedrooms` and `num_baths`
  (main.py:28-29), so a real property never has the `beds` or `baths` keys
  that the search lists offer, and a house never has the `balcony` or
  `laundry` keys offered for a house rental. The model's attribute
  dictionaries are unconstrained and do not show this.
- Agency.Agent.FindProperty: returns the index of the first match rather
  than the property object.
- Agency.Agent.FindProperty: gives the intended behaviour of the search
  loop. As written, main.py:337 calls `property.__dict__()`, but an
  instance's `__dict__` is a dict and no class defines such a method, so the
  call raises `TypeError` on the first property. The loop as written never
  returns a property, and only an empty list reaches "Not found". In the
  model a property is its attribute dictionary.
- `auth_account.py` and `check.py` are not part of this model.
- Auth.NewSeededAuthorizer: makes the five `add_permission` calls of the
  module through `RegisterEach`, one call per seeded name in order, instead
  of as five separate statements.
- `auth.py` has no log-out operation and no operation listing every
  permission name apart from `print_permissions`, so neither is modelled.
- Auth.Hash: a symbolic injective digest rather than SHA-256 over UTF-8
  bytes. Digest collisions and the hexadecimal text form are not modelled.
- The module-level `authenticator` that the `Authorizer` methods read is
  modelled as the `authenticator` field each `Authorizer` is built with.
- Exceptions other than the six error classes are not modelled. These are
  the `TypeError` of the finding below, the `TypeError` of calling
  `property.__dict__()` in `find_property`, and errors from non-`str`
  arguments.
- Text: a `char` is a Unicode scalar value, so the lone surrogate code points
  (U+D800 to U+DFFF) that a Python `str` can hold, for instance from
  `input()` under the surrogateescape error handler, are not modelled.

## Findings

| source | as written | input that shows it | evidently intended | confidence | as-written member | corrected member |
|---|---|---|---|---|---|---|
| auth.py:16 | `verify_password` passes the `str` candidate to `hashlib.sha256` without encoding it. Under Python 3 this raises `TypeError`, so `log_in` can never succeed for an account with a correct password. | `add_user("joe", "secret1")` then `log_in("joe", "secret1")` | encode the candidate as UTF-8 before hashing, as `__encrypt` does, and compare digests | high, not executed | Auth.User.VerifyPasswordAsWritten, Auth.VerifyPasswordAsWrittenRejectsOriginal | Auth.User.VerifyPassword, Auth.VerifyPasswordAcceptsOnlyOriginal |
