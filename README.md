# k8s-user-provisioner, modelled in Dafny

The provisioner hands out "sandboxes". A person's email or full name is
turned into a username. A Keycloak user is created under that username,
with a random 12-character password. A Kubernetes manifest is then
applied for it. Grafana accounts are created and removed by their own
helpers. A separate script, `migrate_users.py`, walks Keycloak's users
and asks, one user at a time, whether to tag that user as managed by the
provisioner.

This project models that logic and proves what it does.

- `text.dfy` (module `Text`) holds the string steps: the text before the first `@`, replacing one character, and ASCII lower-casing.
- `utils.dfy` (module `Utils`) holds `generate_password`, `make_username` and `make_usernames`.
- `backends.dfy` (module `Backends`) models the Keycloak and Grafana stores as maps. Each helper is a function from the old store to its result and the new store. The classes `Keycloak` and `Grafana` perform the same steps on a `map` field.
- `provisioner.dfy` (module `Provisioner`) models the `approvisionner` handler as a function. It takes the request and the stores, and returns the response and the new stores.
- `migration.dfy` (module `Migration`) models the migration loop as a method over an array of users. That method is proved equal to the specification function `Migrate`, and the loop's properties are lemmas about `Migrate`.
- `wrappers.dfy` holds `Option` and `Result`.

Abstractions:

- `slugify` is a parameter of type `string -> string`. Nothing is assumed about it.
- `random.choice` is a parameter `draw: nat -> CharIndex`. `draw(i)` is the index the i-th pick chose.
- The ids Keycloak and Grafana assign are parameters (`freshId`).
- Whether `apply_k8s_config` succeeded is the parameter `applied`.
- The operator's replies to `input()` are a sequence of strings.

Behaviour of the code worth noting:

- The handler's email branch uses the raw local part. `jane.doe@example.com` becomes `jane.doe`, where `make_username` would hand slugify `jane_doe` (`Provisioner.JaneDoe`, `Provisioner.DottedEmail`).
- A username that already exists makes `create_keycloak_user` return the string `"CREATED"`. The handler then fails to unpack it into `user_id, password`, so the request ends as an unhandled error, status 500.
- When `apply_k8s_config` fails, the Keycloak user just created is not removed (`Provisioner.NoRollbackWhenApplyFails`).
- If both the `Authorization` header and `VERIFICATION_TOKEN` are absent, the token check passes, since `None != None` is false (`Provisioner.UnsetTokenAdmitsMissingHeader`).

## Model

| member | source | states |
|---|---|---|
| `Text.Truthy` | app/__init__.py:29-34 | an optional string is truthy exactly when it is neither `None` nor the empty string |
| `Text.LocalPart` | app/utils.py:142 | `split('@')[0]` is a prefix of the input that contains no `@`, and it stops either at the end of the input or at an `@` |
| `Text.LocalPartOfAddress` | app/utils.py:142 | for `l@d` where `l` has no `@`, the local part is `l`, whatever `d` is |
| `Text.ReplaceChar` | app/utils.py:143 | `replace(a, b)` keeps the length, puts `b` wherever `a` was, and leaves every other character in place |
| `Text.ReplaceCharRemoves` | app/utils.py:143 | after replacing `a` by a different `b`, no `a` is left |
| `Text.LowerChar` | app/utils.py:147 | a lowered character is never upper case; `A`–`Z` move to `a`–`z` and everything else is unchanged |
| `Text.Lower` | app/utils.py:147 | `lower()` keeps the length and lowers each character in place |
| `Text.LowerIdempotent` | app/utils.py:147 | lowering twice gives the same result as lowering once |
| `Text.LowerKeeps` | app/utils.py:146-147 | lowering neither adds nor removes a non-letter such as a space |
| `Utils.PasswordCharactersAt` | app/utils.py:23 | `ascii_letters + digits` has 62 characters: `a`–`z`, then `A`–`Z`, then `0`–`9` |
| `Utils.GeneratePassword` | app/utils.py:22-24 | the password has exactly `length` characters, and each one is an ASCII letter or digit |
| `Utils.IndexOf` | app/utils.py:23 | every ASCII letter or digit has a position in the character set |
| `Utils.EveryPasswordIsReachable` | app/utils.py:22-24 | every string of letters and digits is the password produced by some sequence of picks |
| `Utils.EmailSlugInput` | app/utils.py:142-143 | the string the email branch hands to slugify is the local part with every `.` turned into `_` and every other character kept in place, so it contains no `.` |
| `Utils.NameSlugInput` | app/utils.py:146-147 | the string the full-name branch hands to slugify contains no space and is already lower case; position by position, it is `_` where the name had a space and the lowered character elsewhere |
| `Utils.MakeUsername` | app/utils.py:140-150 | `make_username` fails exactly when the email is falsy and the full name is `None` |
| `Utils.EmailBranchIgnoresFullName` | app/utils.py:141-144 | with a truthy email the full name plays no part; the result is slugify of the dot-free local part |
| `Utils.DomainIrrelevant` | app/utils.py:142-144 | changing the domain never changes the username, which depends only on the text before the first `@` |
| `Utils.NameBranch` | app/utils.py:145-148 | with a falsy email, the username is slugify of the lower-cased name with spaces turned into `_` |
| `Utils.JohnDoe` | app/utils.py:140-150 | `John.Doe@co.com` reaches slugify as `John_Doe` and `John Doe` as `john_doe`; the two usernames are equal exactly when slugify maps these two strings alike |
| `Utils.MakeUsernames` | app/utils.py:153-167 | the second component always equals the first; with a truthy email it is `make_username`'s result, otherwise `None` |
| `Utils.MakeUsernamesDropsFullName` | app/utils.py:162-167 | with no email and a non-empty full name, both components are `None`, although a full-name-based name exists |
| `Utils.MakeUsernamesIntended` | app/utils.py:153-167 | corrected version: the first component is unchanged, and the second is present exactly when the full name is truthy and then equals `make_username`'s full-name result |
| `Utils.MakeUsernamesWithoutInputs` | app/utils.py:153-167 | with neither input, `make_usernames` returns `(None, None)` where `make_username` fails |
| `Backends.GetUserId` | app/utils.py:50 | an id is found exactly when the username is in the store, and it is that user's id |
| `Backends.CreateIdentity` | app/utils.py:27-59 | a new user is added exactly when the username is absent, under the fresh id and with the generated password, and both are returned; otherwise the result is the sentinel and the store is unchanged; no existing user is ever rewritten |
| `Backends.CreatePreservesUniqueIds` | app/utils.py:50-57 | adding a user under an unused id keeps all ids distinct |
| `Backends.CreateTwice` | app/utils.py:50-55 | a second create of the same username returns the sentinel and leaves the store as the first create left it |
| `Backends.DeleteIdentity` | app/utils.py:62-81 | an id is returned exactly when the user existed, and it is that user's id; afterwards the user is gone and every other user is unchanged |
| `Backends.CreateThenDelete` | app/utils.py:50-81 | deleting a user that was just created returns the fresh id and restores the original store |
| `Backends.DeleteIdentityTwice` | app/utils.py:76-81 | a second delete returns `None` and changes nothing |
| `Backends.CreateDashboardUser` | app/utils.py:119-128 | unless the login is taken, adds exactly one account under the username: the fresh id, the username as name and login, the given email and password, the Viewer role and organisation 1; the result is that id; no existing account changes |
| `Backends.DeleteDashboardUser` | app/utils.py:131-137 | always returns `True`; afterwards the login is absent and every other account is unchanged |
| `Backends.CreateThenDeleteDashboardUser` | app/utils.py:119-137 | deleting an account that was just created restores the original store |
| `Backends.Keycloak.CreateUser` | app/utils.py:27-59 | the result and the new `users` field are those of `CreateIdentity`, and ids stay unique |
| `Backends.Keycloak.DeleteUser` | app/utils.py:62-81 | the result and the new `users` field are those of `DeleteIdentity` |
| `Backends.Grafana.CreateUser` | app/utils.py:119-128 | the result and the new `accounts` field are those of `CreateDashboardUser` |
| `Backends.Grafana.DeleteUser` | app/utils.py:131-137 | the result and the new `accounts` field are those of `DeleteDashboardUser` |
| `Provisioner.Status` | app/__init__.py:20-52 | status 200 is given exactly for a created user; every other outcome is a 4xx or 5xx |
| `Provisioner.Message` | app/__init__.py:21-52 | a JSON message is present for every response except an unhandled error |
| `Provisioner.ProvisionUsername` | app/__init__.py:34-39 | with an email, the username is the raw prefix before the first `@`; without one, it equals `make_username`'s result |
| `Provisioner.Approvisionner` | app/__init__.py:14-52 | the response is 401 exactly on a token mismatch and 400 exactly when both fields are falsy, and neither touches a store; no existing user is rewritten; a success records the new user and its namespace under the derived username and returns a 12-character password |
| `Provisioner.ErrorResponses` | app/__init__.py:16-43 | 401 with "Token invalide" exactly on a token mismatch; 400 with the missing-fields message exactly when both fields are falsy; 500 exactly when an admitted request meets an existing username or a failed manifest step |
| `Provisioner.SuccessExactly` | app/__init__.py:41-52 | the result is a success exactly when the request passes both checks, the username is new and the manifest is applied; the response then carries the id and password from `create_keycloak_user` |
| `Provisioner.ExistingUserCrashes` | app/__init__.py:41-43 | for an existing username, `"CREATED"` fails to unpack, giving a 500 with every store unchanged |
| `Provisioner.NoRollbackWhenApplyFails` | app/__init__.py:41-45 | when the manifest step fails, the new Keycloak user stays and the cluster is unchanged |
| `Provisioner.ProvisionTwice` | app/__init__.py:41-43 | an admitted request sent twice gets a 500 the second time, and the stores stay as the first call left them |
| `Provisioner.EmailUsernameDiffers` | app/__init__.py:34-35 | a `.` in the local part stays in the handler's username but never reaches `make_username`'s slugify; the two differ under the identity slugify |
| `Provisioner.DottedEmail` | app/__init__.py:34-35 | `a.b@x` is provisioned as `a.b`, where `make_username` gives slugify of `a_b` |
| `Provisioner.JaneDoe` | app/__init__.py:34-52 | `jane.doe@example.com` with no existing user is provisioned as `jane.doe`, under the fresh id, with a 12-character password |
| `Provisioner.UnsetTokenAdmitsMissingHeader` | app/__init__.py:16-21 | with no token configured, a request with no `Authorization` header passes the token check |
| `Migration.IsTagged` | migrate_users.py:46 | a user counts as tagged exactly when `managed-by` holds the one-element list `['k8s-provisioner']` |
| `Migration.Tag` | migrate_users.py:64-69 | a `y` sets `managed-by=['k8s-provisioner']` and `provisioned=['true']` and leaves every other key and field as it was; an untagged user always changes |
| `Migration.Decode` | migrate_users.py:56-57 | a reply counts as `y`, `n` or `q` exactly when its lower-cased form is that letter |
| `Migration.NextAnswer` | migrate_users.py:55-59 | the prompt discards every invalid reply and stops at the first valid one; with no valid reply left, every remaining reply was invalid |
| `Migration.Prompt` | migrate_users.py:55-59 | the prompt loop returns the first valid reply and the position after it, as `NextAnswer` specifies, or reports that the replies ran out |
| `Migration.MigrateFrom` | migrate_users.py:40-80 | the walk from user `i` on keeps the list's length, reads replies only forward, never lowers a counter, and reads every remaining reply when they run out |
| `Migration.Migrate` | migrate_users.py:37-80 | the whole walk keeps the list's length, reads at most the given replies, and reads all of them when it ends by running out |
| `Migration.ChangedCount` | migrate_users.py:40-77 | counts the positions where two lists differ: zero exactly when the lists are equal, and never more than their length |
| `Migration.MigrateFromCounts` | migrate_users.py:37-80 | each visited user is counted once; `migrated + skipped` is at most the number of users, and equal to it exactly when the walk was not stopped early |
| `Migration.MigrateFromShape` | migrate_users.py:40-80 | users already passed stay untouched; each later user is either unchanged or, if it was untagged, replaced by its tagged form |
| `Migration.MigrateFromChanged` | migrate_users.py:64-77 | `migrated` grows by exactly the number of users changed |
| `Migration.MigrateFromStops` | migrate_users.py:55-63 | an early stop happens at an untagged user; that user and every later one are neither changed nor counted |
| `Migration.MigrateFromAllTagged` | migrate_users.py:45-49 | when every user from `i` on is already tagged, the walk reads no reply, changes nothing and counts them all as skipped |
| `Migration.MigrateFromStep` | migrate_users.py:45-80 | a tagged user is skipped without reading a reply and adds one to `skipped`; at an untagged user, `q` ends the walk, `y` tags the user and adds one to `migrated`, `n` adds one to `skipped`, and running out of replies ends the walk |
| `Migration.MigrateCounts` | migrate_users.py:37-80 | `migrated + skipped` is at most the number of users, with equality exactly when the walk reached the end of the list, stopped neither by `q` nor by running out of replies |
| `Migration.MigrateUpdates` | migrate_users.py:40-80 | only untagged users change, each into its tagged form, and `migrated` is the number of users changed |
| `Migration.MigrateStops` | migrate_users.py:55-63 | when the walk ends early, on `q` or by running out of replies, the user being asked and every later user are neither updated nor counted |
| `Migration.MigrateAllTagged` | migrate_users.py:45-49 | a list whose users are all tagged is walked without a prompt, counting every user as skipped |
| `Migration.MigrateUsers` | migrate_users.py:25-89 | the loop leaves the array and counters exactly as `Migrate` specifies; `migrated + skipped` is at most the number of users, with equality exactly when the walk finished, and `migrated` counts the users changed |

## Left out

- `apply_k8s_config` (app/utils.py:84-105) is reduced to the parameter `applied` and an entry in a namespace map. The manifest template is not part of this model, so its substitutions, YAML parsing and Kubernetes calls are not modelled, and neither is a partly applied manifest.
- `delete_k8s_namespace` (app/utils.py:108-116) is a single Kubernetes API call and is not modelled.
- `slugify` (python-slugify) is a parameter. Nothing is claimed about its output alphabet.
- `Text.Lower`, `Text.LowerChar`: Python's `str.lower` is Unicode-aware; the model lowers only the ASCII letters `A`–`Z`.
- `Utils.NameSlugInput`: its `|s| == |fullName|` relies on ASCII-only lowering; Python can lengthen a string when lowering it (`'İ'.lower()` is two code points).
- `Utils.GeneratePassword`: randomness is an arbitrary sequence of picks. Distribution and uniformity are not modelled.
- Keycloak's own behaviour is not modelled: lower-casing or rejecting usernames, email uniqueness, and how it generates ids. The fresh id is a parameter, assumed unused.
- `Backends.DeleteDashboardUser`: Grafana's `find_user` also matches by email, and the client raises on a missing account. The model looks accounts up by login only and follows the code's delete-if-present shape.
- `Backends.CreateDashboardUser`: a taken login is modelled as a refusal. Grafana's other refusals (for example a duplicate email) are not modelled.
- HTTP plumbing: the `/` route, reading the JSON body (a missing or non-JSON body, non-string fields), dotenv and environment loading, and the Flask launcher and client scripts (`run.py`, `test.py`, `test_api.py`). The expected token is a parameter.
- `print` and the summary lines of `migrate_users.py`.
- Exceptions raised by Keycloak's `get_users` and `update_user`. Running out of `input()` replies is modelled, as `End.OutOfAnswers`.
- `Migration.MigrateUsers`: the array stands for Keycloak's server-side records after `update_user`. The local Python dict is not modelled separately. When a user has no attributes or empty ones, the script tags a fresh dict and never stores it back into the user object.
- Concurrency between simultaneous requests is not modelled.

## Findings

| source | as written | input that shows it | evidently intended | confidence | as-written member | corrected member |
|---|---|---|---|---|---|---|
| app/utils.py:167 | `return username_based_email, username_based_email`: the full-name-based name is computed and dropped | `make_usernames(None, "John Doe")` returns `(None, None)` | `return username_based_email, username_based_fullname` | medium, not executed | `Utils.MakeUsernamesDropsFullName` | `Utils.MakeUsernamesIntended` |
