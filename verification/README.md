# CAS user backend — a Dafny model

This project models the decision logic of `NextBackend`, the user backend of
the `user_cas` app for ownCloud/Nextcloud. The host platform asks the backend
three questions about a user, and the backend answers from an already
established CAS (single sign-on) session instead of a local password store:

- **checkPassword** — accept a login when CAS is initialised, phpCAS is
  initialised, the CAS session is authenticated, and the CAS user is exactly
  the login name. The password is never read.
- **getDisplayName** — compose a display name from the session's CAS
  attributes. A nested `attributes` array is flattened over the top level
  first. The configured `+`-separated field list is split with `explode`.
  The present fields' values, each followed by a space, are concatenated
  and passed through `trim`. An empty result falls back to the
  `displayName` attribute.
- **getHome** — `false` for an unknown user, otherwise `<data root>/<uid>`.

Both `checkPassword` and `getDisplayName` start with the same guard: when
the application service reports CAS as not initialised, call its `init()`.
A "phpCAS library not found" exception from `init()` is caught and logged.

Everything the backend asks its collaborators is an input value. The
application service, the phpCAS facade, the app configuration, the system
configuration and the user-existence check are all snapshots of this kind
(`CasSession`, `AppConfig`, `SystemConfig`, and the `userExists` flag).
Every operation is a pure function of those inputs. Log writes are returned
as a trace of `LogEvent` values next to each result.

Files:

- `php_values.dfy` — `Option` and PHP's `string|false`.
- `php_strings.dfy` — `explode("+", …)`, `implode`, and `trim` with its
  default character list, with their round trips and a characterisation of
  `trim`.
- `cas_init.dfy` — the initialisation guard and the log events.
- `cas_attributes.dfy` — the attribute array, its flattening, and the
  field concatenation (recursive definition plus the source's loop).
- `next_backend.dfy` — the session snapshot and the four backend operations.
- `display_name_examples.dfy` — worked display-name cases.

Behaviour of the code worth noting:

- When no configured field has a value and there is no `displayName`
  attribute, the code returns the empty string, not the uid.
- On flattening, the nested value wins over a same-named top-level entry,
  as `array_merge` does.
- The initialised state is the one boolean `isCasInitialized()` reports.
  A failed `init()` is re-attempted on the next call because the flag
  stays unset.
- `checkPassword` does not test for an empty login name. It compares
  `$loginName === FALSE`, which can never hold for a `string` parameter.

## Model

| member | source | states |
|---|---|---|
| CasInit.EnsureInitialized | lib/User/NextBackend.php:109-118 | `init()` is called exactly when CAS was not yet initialised. When it was, the guard is a no-op that logs nothing. Otherwise CAS counts as initialised only if `init()` completed and the service then reports it initialised. A library-not-found failure leaves it uninitialised and produces exactly one error log entry with the exception's code and message. |
| CasInit.GuardIdempotent | lib/User/NextBackend.php:109-118 | After a guard run that leaves CAS initialised, a second run does not call `init()` again, stays initialised and logs nothing. |
| CasInit.GuardRetriesAfterFailure | lib/User/NextBackend.php:109-118 | A failure is not cached. After a run that leaves CAS uninitialised, the next run calls `init()` again, and the new outcome alone decides. |
| NextBackend.BackendName | lib/User/NextBackend.php:94-98 | The backend's name in user management is the fixed label "CAS". |
| NextBackend.CheckPassword | lib/User/NextBackend.php:106-149 | The result is either the login name or `false`. It is the login name if and only if CAS is initialised after the guard, phpCAS is initialised, the session is authenticated, and the CAS user equals the login name exactly. It is the login name exactly when the last log entry is the debug "password has been checked" entry. |
| NextBackend.PasswordIgnored | lib/User/NextBackend.php:106-148 | Two calls that differ only in the password give identical results and logs. |
| NextBackend.LibraryMissingIsContained | lib/User/NextBackend.php:109-118 | When CAS was uninitialised and `init()` fails with library-not-found, the failure does not propagate. The same guard at lines 157-166 behaves identically. `checkPassword` returns `false`, `getDisplayName` returns the uid, and each logs exactly one error entry carrying the exception's code and message. |
| NextBackend.GetDisplayName | lib/User/NextBackend.php:155-212 | The result is the uid unchanged when CAS is not initialised after the guard or no session is authenticated. Otherwise it is the name composed from the session's attributes and the configured mapping. The only log entries are the guard's. |
| CasAttributes.Flatten | lib/User/NextBackend.php:176-183 | Every key of the nested `attributes` array maps to its nested value, overriding a same-named top-level entry. Every other top-level entry keeps its value. No other keys appear. Without a nested array, the `attributes` key is absent. |
| CasAttributes.Compose | lib/User/NextBackend.php:190-198 | The concatenation is empty exactly when no configured field is present, and a non-empty one ends with the space appended after the last present value. |
| CasAttributes.ComposeAppend | lib/User/NextBackend.php:192-198 | Concatenating the fields of two lists in turn gives the same string as concatenating the fields of the joined list. Field order is kept, repeats are included, and absent fields contribute nothing. |
| CasAttributes.ConcatFields | lib/User/NextBackend.php:190-198 | The source's accumulator loop gives, for every field present, its value followed by one space, in configured order. |
| CasAttributes.ComposeBlankIff | lib/User/NextBackend.php:192-200 | The concatenation consists only of characters `trim` strips if and only if no configured field is present with a value that has some other character. |
| NextBackend.ComposeDisplayName | lib/User/NextBackend.php:173-207 | If some configured field is present with a value that is not all whitespace, the display name is non-empty, has no strippable character at either end, and is what remains of the concatenation after stripping whitespace from both ends. Otherwise it is the `displayName` attribute when present, and the empty string (not the uid) when not. |
| PhpStrings.Explode | lib/User/NextBackend.php:188 | Splitting on `+` gives at least one piece, and no piece contains `+`. |
| PhpStrings.ImplodeExplode | lib/User/NextBackend.php:188 | Joining the pieces of `explode` with `+` gives back the configured string, so empty pieces are kept. |
| PhpStrings.ExplodeImplode | lib/User/NextBackend.php:188 | Splitting a `+`-join of one or more `+`-free names gives back exactly those names, in order. |
| PhpStrings.ExplodeSingle | lib/User/NextBackend.php:188 | A field list without `+` is a single field. |
| PhpStrings.TrimStart | lib/User/NextBackend.php:200 | The left half of `trim` removes a prefix made only of strippable characters, and the result does not start with one. |
| PhpStrings.TrimEnd | lib/User/NextBackend.php:200 | The right half of `trim` removes a suffix made only of strippable characters, and the result does not end with one. |
| PhpStrings.Trim | lib/User/NextBackend.php:200 | The result is what remains after removing a strippable prefix and suffix, and it has no strippable character at either end. The strippable characters are space, tab, LF, CR, NUL and VT. |
| PhpStrings.TrimUnwraps | lib/User/NextBackend.php:200 | An unpadded string with a strippable prefix and suffix around it is exactly what `trim` leaves. Together with `Trim`'s own contract, this pins down `trim`'s result. |
| PhpStrings.TrimIdempotent | lib/User/NextBackend.php:200 | Trimming twice gives the same result as trimming once. |
| PhpStrings.TrimEmptyIff | lib/User/NextBackend.php:200-202 | `trim` gives the empty string if and only if every character is strippable. |
| PhpStrings.TrimTrailingSpace | lib/User/NextBackend.php:196-200 | The one space appended after the last field is all `trim` removes from a concatenation that is otherwise unpadded. |
| NextBackend.GetHome | lib/User/NextBackend.php:220-226 | The result is `false` if and only if the user does not exist. Otherwise the path consists of the data root, then `/`, then the uid, with nothing else. |
| NextBackend.DataRoot | lib/User/NextBackend.php:222 | The data root is the `datadirectory` setting when it is set, and otherwise the server root followed by `/data`. |
| NextBackend.HomeInjective | lib/User/NextBackend.php:222 | Two existing users of one installation get the same home only if their uids are equal. |
| NextBackend.HomeDefaultRoot | lib/User/NextBackend.php:222 | Without a `datadirectory` setting, the home is `<server root>/data/<uid>`. |
| DisplayNameExamples.ExplodeKeepsEmptyPieces | lib/User/NextBackend.php:188 | `explode` turns "" into one empty piece and "a++b" into "a", "", "b". |
| DisplayNameExamples.TwoFieldMapping | lib/User/NextBackend.php:186-207 | A mapping of two distinct fields, each present with a non-empty unpadded value, gives the two values joined by one space. |
| DisplayNameExamples.GivenNameThenSurname | lib/User/NextBackend.php:186-207 | With the mapping "givenName+sn", givenName "Ada" and sn "Lovelace" give "Ada Lovelace". |
| DisplayNameExamples.SingleFieldMapping | lib/User/NextBackend.php:186-207 | A one-field mapping whose field is present with a non-empty unpadded value gives exactly that value. |
| DisplayNameExamples.UnmatchedFieldFallback | lib/User/NextBackend.php:186-207 | A one-field mapping whose field is absent gives the `displayName` attribute, or "" when there is none. |
| DisplayNameExamples.FallsBackToDisplayNameAttribute | lib/User/NextBackend.php:202-205 | The mapping "nonexistentField" over a `displayName` of "A. Lovelace" gives "A. Lovelace". |
| DisplayNameExamples.EmptyAttributesGiveEmptyName | lib/User/NextBackend.php:200-207 | An authenticated session with no attributes, under the mapping "nonexistentField", gets the display name "", not its uid. |
| DisplayNameExamples.NestedValueWins | lib/User/NextBackend.php:176-198 | A nested `mail` value overrides the top-level `mail` value in the composed name. |

## Left out

- phpCAS itself (ticket validation, redirects, session storage) is not part of this model. Its answers (`isInitialized`, `checkAuthentication`, `getUser`, `getAttributes`) are fields of `CasSession`.
- `AppService::init` and `isCasInitialized` are not part of this model. The outcome of `init()` is an input. After a caught library-not-found exception, CAS is taken to stay uninitialised.
- Exceptions other than the caught library-not-found one are not modelled. The code catches only `PhpUserCasLibraryNotFoundException` (lines 114 and 162), so any other exception from `init()` or from the phpCAS calls escapes to the host. This includes `getDisplayName` calling `phpCAS::checkAuthentication()` without first asking `phpCAS::isInitialized()`. `InitOutcome` and `CasSession` cannot express such an exception.
- `LoggingService::write` is reduced to a trace of `LogEvent` values with their severities. The message strings are not rendered.
- `IConfig::getAppValue` and `getSystemValue` are inputs. The mapping string is the empty string when it is unset. `datadirectory` is optional and defaults to `<server root>/data`.
- The backend's `userExists` comes from its parent class, which is not part of this model. It is a boolean input to `GetHome`.
- The `$loginName === FALSE` check is left out. It is dead code for a `string` parameter, and it only logs.
- Non-string attribute values, which PHP turns into "Array" with a notice, are left out. So is `array_merge`'s renumbering of integer keys. The `Attributes` type also excludes a string stored under the `attributes` key, on which `array_merge` fails.
- Mutual exclusion around initialisation is left out. So are any failure caching and retry policy. The source is sequential and has none of them.
- PHP strings are byte strings. They are modelled one character per byte.
- The constructor and its dependency wiring are left out.
