# Task-list service: owner-scoped tasks, registration/login, bearer-token gate

This project models the request-handling core of a small Express/Mongoose
task-list service and proves properties of that model in Dafny.

- **Tasks** (`tasks.dfy`) models the four task handlers as methods of a
  `TaskStore` class that holds the task collection in insertion order. Every
  query is filtered by the caller's user id. A task that does not exist and a
  task owned by someone else give the same 404. A store fault gives a 500 with
  a fixed message and leaves the store as it was. Spec functions give the
  stores after a toggle (`ToggleOwned`) and a delete (`DeleteOwned`). The
  lemmas beside them prove the frame properties, that toggling twice is the
  identity, and that no other user's listing changes.
- **Auth** (`auth.dfy`) models `UserRegister` and `UserLogin` as methods of a
  `UserStore` class whose users are keyed by their stored email. The checks
  run in the source's order, and the first one that fails decides the reply.
  `bcrypt` and `jsonwebtoken` are symbolic. A `PasswordHash` records its cost,
  its salt and what was hashed, and `Compare(p, Hash(p, salt))` holds. A
  `Token` records its payload, `"1h"` and `"voicetasks-api"`.
- **EmailPattern** (`email.dfy`) writes the regular expression
  `^[a-zA-Z0-9._%+-]+@[a-zA-Z0-9.-]+\.[a-zA-Z]{2,}$` as a predicate over
  characters. An accepted address has no white space and exactly one `@`.
  The pattern ignores case. So the registration's duplicate lookup key
  (`toLowerCase()`) equals the key it stores and the login looks up
  (`toLowerCase().trim()`).
- **AuthMiddleware** (`middleware.dfy`) models the bearer-token gate. It
  picks the header and removes the first `"Bearer "`, then trims. A missing
  token, an empty one and `"undefined"` count as no token. The verifier is a
  function parameter whose `Verdict` maps to admission, 401 or 500. On
  admission `req.user` is set.
- **JsString** (`jsstring.dfy`) holds the JavaScript string operations used
  above: `trim` (ECMAScript white space and line terminators), ASCII
  `toLowerCase`, `indexOf` and first-occurrence `replace`, and `length` in
  UTF-16 code units.

Environment inputs are method parameters: store faults, the ids the database
generates, `createdAt` timestamps and the bcrypt salt. The task schema's default
for `completed` is a constant of `TaskStore`. `mongoose.Types.ObjectId.isValid` and the
cast a query applies to the id are one opaque parameter, `IdCast`. `None`
from it means the id is rejected.

Three behaviours of the handlers worth stating:
- A name made only of white space passes the `!name` check. `name.trim()`
  then stores `""`, and the user schema's `required` rule
  (src/models/UsersModel.js:4) makes the save fail, so the reply is 500, not
  400.
- `replace("Bearer ", "")` removes the first occurrence anywhere in the
  header, not only a prefix. A header with no `"Bearer "` is used whole.
- The password length check counts UTF-16 code units, so a character outside
  the Basic Multilingual Plane counts twice.

## Model

| member | source | states |
|---|---|---|
| Tasks.TaskStore.GetAllTasks | src/controllers/tasksControllers.js:5-14 | 200 with exactly the caller's tasks (membership both ways), newest first, as a permutation of the filtered store; a fault is 500 with the fixed list message |
| Tasks.OwnedByMembers | src/controllers/tasksControllers.js:8 | the `{ userId }` filter keeps a task iff its owner is the caller |
| Tasks.SortNewestFirst | src/controllers/tasksControllers.js:8 | the `{ createdAt: -1 }` sort: result ordered by `createdAt` descending and a permutation of its input |
| Tasks.TaskStore.AddTask | src/controllers/tasksControllers.js:16-34 | missing or blank-after-trim text is 400 with the store unchanged; a save fault is 500 unchanged; otherwise exactly one task (trimmed text, caller's id) is appended and returned with 201; ids stay unique |
| Tasks.AddExtendsOwnList | src/controllers/tasksControllers.js:26-27 | appending a task adds it to its owner's listing and to no other |
| Tasks.FindOwned | src/controllers/tasksControllers.js:45 | the first task matching both id and caller; `None` exactly when no task matches both, so another user's task is not found |
| Tasks.TaskStore.UpdateTask | src/controllers/tasksControllers.js:36-58 | rejected id is 400 before any store access; lookup fault 500; no owned match 404; save fault 500; all unchanged; otherwise the store becomes `ToggleOwned` of the old store and 200 returns the task with `completed` negated |
| Tasks.ToggleFrame | src/controllers/tasksControllers.js:50-51 | toggling changes only the matched task, and only its `completed`; every other task is unchanged |
| Tasks.ToggleTwice | src/controllers/tasksControllers.js:50-51 | applying the toggle twice restores the original store |
| Tasks.ToggleKeepsOtherUsers | src/controllers/tasksControllers.js:45-51 | a toggle never changes another user's listing |
| Tasks.TaskStore.DeleteTask | src/controllers/tasksControllers.js:60-79 | rejected id is 400; fault 500; no owned match 404; all unchanged; otherwise the matched task is removed and 200 is returned |
| Tasks.DeleteFrame | src/controllers/tasksControllers.js:69 | delete removes exactly the matched task (multiset difference) and its id no longer occurs; without a match the store is unchanged |
| Tasks.DeleteKeepsOtherUsers | src/controllers/tasksControllers.js:69-74 | a delete never shrinks another user's listing |
| Tasks.DeleteShrinksOwnListByOne | src/controllers/tasksControllers.js:69-74 | a successful delete shortens the caller's listing by exactly one |
| JsString.Trim | src/controllers/tasksControllers.js:21 | `trim` leaves no white space at either end and never lengthens |
| JsString.TrimCutsOnlySpace | src/controllers/tasksControllers.js:21 | `trim` returns a contiguous part of its input, and only white space is cut around it |
| JsString.TrimAllSpace | src/middlewares/authMiddleware.js:10-12 | a string of white space trims to empty |
| JsString.ToLower | src/controllers/authControllers.js:26 | `toLowerCase` on ASCII: keeps the length and lower-cases each letter `A`-`Z`, leaving every other character |
| JsString.IndexOf | src/middlewares/authMiddleware.js:10 | the first index at which the pattern occurs, or `None` when it occurs nowhere |
| JsString.RemoveFirstPrefix | src/middlewares/authMiddleware.js:10 | removing the first occurrence from a string that starts with the pattern drops exactly that prefix |
| JsString.Utf16Length | src/controllers/authControllers.js:22 | `length` counts between one and two code units per character |
| EmailPattern.AcceptedHasNoSpace | src/controllers/authControllers.js:18 | an address the pattern accepts contains no white space |
| EmailPattern.AcceptedHasOneAt | src/controllers/authControllers.js:18 | an accepted address contains exactly one `@` |
| EmailPattern.PatternIgnoresCase | src/controllers/authControllers.js:18 | an address is accepted iff its ASCII-lower-cased form is |
| EmailPattern.CaseVariantAccepted | src/controllers/authControllers.js:61 | two spellings that differ only in ASCII case are accepted together |
| EmailPattern.LookupKeyIsStoredKey | src/controllers/authControllers.js:26-34 | for an accepted address `toLowerCase()` equals `toLowerCase().trim()`: the duplicate lookup and the stored key agree |
| Auth.Hash | src/controllers/authControllers.js:31 | the stored hash verifies against the password it was made from: `Compare(p, Hash(p, salt))` |
| Auth.CaseVariantSameKey | src/controllers/authControllers.js:26-65 | ASCII case variants of an accepted address share one stored key, which is also the registration lookup key |
| Auth.UserStore.Register | src/controllers/authControllers.js:10-50 | checks in order (fields, pattern, length), each failure 400 with its own message; lookup fault 500; lower-cased address already stored 400; blank name or save fault 500; duplicate-key save 400; all with the store unchanged; otherwise exactly one user added under the normalized email with trimmed name and `Hash(password)`, and 201 without a token |
| Auth.UserStore.Login | src/controllers/authControllers.js:53-88 | never changes the store; missing field 400; rejected address 400; lookup fault 500; unknown address and wrong password the same 401; otherwise 200 with a token for `{id, email}` of the stored user, `"1h"`, `"voicetasks-api"`, and the stored name and email |
| Auth.RegisterThenLogin | src/controllers/authControllers.js:31-83 | after a successful registration, a login with the same password and any ASCII case variant of the address succeeds, and its token carries the new id and the normalized email |
| Auth.RegisterTwice | src/controllers/authControllers.js:26-29 | after a successful registration, registering an ASCII case variant of the address is 400 and the store has grown by exactly one user |
| AuthMiddleware.AuthHeader | src/middlewares/authMiddleware.js:9 | `authorization` is used when present and non-empty, otherwise `Authorization`; absent only when neither gives a value |
| AuthMiddleware.ExtractToken | src/middlewares/authMiddleware.js:10 | a token exists iff a header does, and it has no white space at either end |
| AuthMiddleware.Classify | src/middlewares/authMiddleware.js:19-28 | admission iff the token decoded, with its payload; expired is 401 "expired", malformed is 401 "invalid", any other fault is 500 |
| AuthMiddleware.Decide | src/middlewares/authMiddleware.js:9-28 | a missing, empty or `"undefined"` token is 401 "no token"; otherwise the verifier's verdict on the extracted token decides |
| AuthMiddleware.MissingTokenSkipsVerify | src/middlewares/authMiddleware.js:12-14 | with no token the decision is the same for every verifier, so verify is not consulted |
| AuthMiddleware.BearerHeaderYieldsToken | src/middlewares/authMiddleware.js:10 | a header `Bearer <t>` yields `t` trimmed |
| AuthMiddleware.BareBearerIsMissing | src/middlewares/authMiddleware.js:10-14 | `Bearer ` followed only by white space counts as no token |
| AuthMiddleware.RawHeaderIsToken | src/middlewares/authMiddleware.js:10 | a header without `Bearer ` anywhere is taken whole, trimmed |
| AuthMiddleware.BearerTokenAdmits | src/middlewares/authMiddleware.js:9-18 | a bearer header whose token verifies admits the request with exactly the verified payload |
| AuthMiddleware.Authenticate | src/middlewares/authMiddleware.js:7-30 | exactly one outcome: on admission `req.user` is the decoded payload and next runs; on rejection the reply is the decision's status and message and `req.user` is untouched |

## Left out

- Express routing, JSON body parsing, CORS, logging, the `/status` endpoint, startup and shutdown (index.js, src/config/mongodb.js, src/routes/authRoutes.js): process and I/O plumbing.
- The database itself: each handler is one atomic step over an in-memory collection. The read-then-write race in `updateTask` (findOne, then save) is concurrency and is not modelled.
- Store faults, generated ids, `createdAt` timestamps and the bcrypt salt are parameters; the default of `completed` is a constant of the store, fixed when it is built. A reused task id is treated as a store fault (500).
- The task schema and task routes are not part of this model. Any constraint that schema adds to `text`, such as a maximum length, is not modelled.
- Tasks.TaskStore.UpdateTask: `ObjectId.isValid` and the query's cast of the id string are one opaque function. A cast that throws after `isValid` accepted is not modelled.
- Request fields that are not strings (numbers, objects in the JSON body) are not modelled: fields are strings or absent. In the source such values make `trim`, `match` or `length` throw, which ends in a 500.
- JsString.ToLower maps only `A`-`Z`. The handlers apply it only to addresses the ASCII-only pattern has accepted, so full Unicode case mapping never matters there. The lemmas EmailPattern.PatternIgnoresCase, EmailPattern.CaseVariantAccepted, Auth.CaseVariantSameKey, Auth.RegisterThenLogin and Auth.RegisterTwice speak of ASCII case variants only. A JavaScript case variant such as KELVIN SIGN U+212A for `k` lower-cases alike in JavaScript, but the pattern rejects it, and these lemmas say nothing about it.
- Auth.Hash: hashing is symbolic. bcrypt's truncation of passwords to 72 bytes and its constant-time compare are not modelled, and no property relies on `Compare` rejecting a different password.
- Auth.UserStore.Login: the token is a record, not a signed string. `jwt.sign` adds `iat`/`exp`, and a missing signing secret would make it throw; neither is modelled. The server refuses to start without a secret.
- AuthMiddleware.Decide: `jwt.verify` (signature, the expiry clock, `NotBeforeError`, which falls into the 500 branch) is a function parameter. The decoded payload is modelled as `{id, email}` without `iat`, `exp` or `iss`.
- The user's `createdAt` timestamp is not modelled; nothing reads it.
- User-visible message texts are fixed tags, not Spanish strings.
