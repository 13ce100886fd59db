# ppv-streaming: the identity and entitlement core, in Dafny

This project models the control plane of a pay-per-view streaming site written in PHP:

- **throttling and lockout**: the session rate limiter and the login-attempt log;
- **the input heuristics**: XSS, SQL-comment and quote detection, file-name sanitising and
  upload validation;
- **the `Validator` rule engine**: its CSRF helpers and its input sanitiser;
- **the authentication flows**: `register`, `login`, tokens, `requireAuth` and `requireRole`;
- **idempotent granting of a paid stream**: the payment service and the Stripe webhook;
- **the front-controller router**;
- **the stream-record rules**, and the MediaMTX client that syncs live status back into them.

The modules follow the source files:

| module | file | source |
|---|---|---|
| `Common` | common.dfy | PHP scalars, ASCII case folding, decimal and hexadecimal digits |
| `Db` | db.dfy | the tables (`users`, `login_attempts`, `security_logs`, `streams`, `stream_access`, `stream_stats`) as fields of a `Database` object, and `$_SESSION` as a `Session` object |
| `Security` | security.dfy | src/Core/Security.php |
| `Validation` | validator.dfy | src/Core/Validator.php |
| `Auth` | auth.dfy | src/Services/AuthService.php |
| `Streams` | stream_service.dfy | src/Services/StreamService.php |
| `Payments` | payment_service.dfy | src/Services/PaymentService.php |
| `PaymentControl` | payment_controller.dfy | src/Controllers/PaymentController.php |
| `Routing` | router.dfy | src/Core/Router.php |
| `MediaMtx` | mediamtx.dfy | src/Services/MediaMTXService.php |

How the model is built:

- **State changes are methods.** Code that changes state in place becomes a method on these
  objects. Its `modifies` clause names the fields it writes. Its `ensures` ties the new state
  to a pure function of the old state, and the properties are lemmas about those functions.
- **Foreign code becomes parameters**, as values or function-typed fields:
  - bcrypt and JWT are `Auth.Crypto`;
  - `filter_var`, `strtotime`, `is_numeric`, the `(float)` cast and `recordExists` are
    `Validation.Checks`;
  - the Stripe SDK is `Payments.Gateway`;
  - each Guzzle exchange with MediaMTX is the `MediaMtx.Reply` it produced;
  - `random_bytes` is a byte sequence, and the clock is an integer `now` (seconds).
- **The emptiness guard of `applyRule` is a parameter.** `Validation.Guard` is `AsWritten`
  (every rule but `required` skips a value `empty()` holds for, "0" and 0 included) or
  `Intended` (only null, false and "" are skipped). The validator, `register` and `login` take
  it; under `AsWritten`, with `Auth.RegisterRulesAsWritten`, they model the code, and under
  `Intended`, with `Auth.RegisterRules`, they model the corrected flow of the Findings.
  Members whose row says "as intended" hold of the corrected flow only.
- **Money is integer cents.**
- **JSON answers are `Response(status, body)` values.**

## Model

| member | source | states |
|---|---|---|
| Security.Prune | src/Core/Security.php:39-41 | a timestamp survives iff `now - t < window` strictly; nothing is added |
| Security.PruneAppend | src/Core/Security.php:39-41 | the filter distributes over concatenation, so survivors keep their order and their repeats |
| Security.PruneDrops | src/Core/Security.php:39-41 | each timestamp stays in its place iff it is younger than the window, and is dropped otherwise |
| Security.CountRecent | src/Core/Security.php:170-182 | the number of the address's attempts strictly after the cutoff |
| Security.RateLimit | src/Core/Security.php:26-53 | allowed iff the pruned count is below the cap; a refusal leaves the store unchanged; an allowance stores pruned ++ [now], so the in-window count stays at most the cap; other identifiers untouched |
| Security.CheckRateLimit | src/Core/Security.php:26-53 | the session limiter returns and stores what `RateLimit` decides |
| Security.PruneKeepsAll | src/Core/Security.php:39-41 | a list whose timestamps are all inside the window is kept whole |
| Security.PruneDropsStale | src/Core/Security.php:39-41 | a list whose timestamps are all a window old or older is emptied |
| Security.RunWithinWindow | src/Core/Security.php:44-52 | from an identifier with no stored attempts, up to maxAttempts calls whose timestamps all lie within one window-long interval [start, start + window) are all allowed, and exactly those timestamps are stored |
| Security.NthPlusOneRefused | tests/Feature/AuthTest.php:176-195 | with cap N, the first N calls inside one window are allowed and call N+1 is refused |
| Security.StaleAttemptsFreeTheLimit | src/Core/Security.php:39-46 | once every stored attempt has aged out, the next call is allowed |
| Security.WithoutEmail | src/Core/Security.php:202-206 | a row remains iff it was there and is not the email's |
| Security.CheckLoginAttempts | src/Core/Security.php:170-182 | allowed iff fewer than 5 attempts for the email in the last 900 seconds |
| Security.LogSecurityEvent | src/Core/Security.php:142-168 | exactly one event is appended and nothing raises |
| Security.RecordLoginAttempt | src/Core/Security.php:184-200 | exactly one attempt row with the success flag; a `failed_login` event exactly when it failed |
| Security.ClearLoginAttempts | src/Core/Security.php:202-206 | the attempt log loses that email's rows and only those |
| Security.RecordedAttemptCounts | src/Core/Security.php:184-194 | one more recorded attempt raises the email's recent count by one, whatever its outcome |
| Security.ClearedEmailCountsZero | src/Core/Security.php:202-206 | after clearing, the email has no recent attempts |
| Security.ClearKeepsOtherEmails | src/Core/Security.php:202-206 | clearing one email leaves every other email's count unchanged |
| Security.FiveRecentAttemptsLock | src/Core/Security.php:170-182 | five attempts in the last fifteen minutes lock the email, whatever their outcome |
| Security.DetectXss | src/Core/Security.php:231-254 | true iff one of the eleven fragments occurs, ignoring ASCII case |
| Security.DetectSqlInjection | src/Core/Security.php:213-229 | true iff a keyword pattern fires, a comment marker occurs, or two quotes occur with no line feed between them |
| Security.NoQuoteNoPair | src/Core/Security.php:219 | a text without quote characters never matches the quote pattern |
| Security.NoCommentCharsNoMarker | src/Core/Security.php:218 | a text without `-` and `*` never matches the comment pattern |
| Security.SqlInjectionExamples | tests/Unit/SecurityTest.php:42-61 | the listed injections are caught by the comment or quote patterns, except UNION SELECT, which needs the keyword pattern |
| Security.SqlSafeExamples | tests/Unit/SecurityTest.php:63-71 | the listed safe inputs pass whenever the keyword patterns do not fire |
| Security.XssExamples | tests/Unit/SecurityTest.php:73-92 | the listed XSS attempts are flagged |
| Security.XssSafeByCharacters | src/Core/Security.php:233-244 | a text lacking `=` and `(`, and one character of each remaining fragment, is not flagged |
| Security.XssSafePlainText | tests/Unit/SecurityTest.php:94-103 | the plain-text safe input is not flagged |
| Security.XssSafeParagraph | tests/Unit/SecurityTest.php:94-103 | the paragraph markup example is not flagged |
| Security.XssSafeStrong | tests/Unit/SecurityTest.php:94-103 | the bold markup example is not flagged |
| Security.KeepSafe | src/Core/Security.php:58 | the result holds only `[a-zA-Z0-9._-]` and is no longer than the input; a safe name is returned as is |
| Security.KeepSafeAppend | src/Core/Security.php:58 | the filter distributes over concatenation |
| Security.KeepSafeDrops | src/Core/Security.php:58 | each character stays in its place iff it is in the safe class, so the result is the input's safe characters in order |
| Security.SanitizeFilename | src/Core/Security.php:55-67 | the filtered name cut to its first 255 characters (the traversal replacements change nothing once filtered); only safe characters, at most 255 of them and no more than the input had |
| Security.TraversalStripIsIdentity | src/Core/Security.php:58-61 | once filtered, the `../` and `..\` replacements never change the name |
| Security.SanitizeFilenameProperties | src/Core/Security.php:55-67 | the result holds only safe characters, is at most 255 long, is a fixed point, and a safe short name is returned as is |
| Security.SanitizeNormalName | tests/Unit/SecurityTest.php:38-39 | `document-2024.pdf` comes back unchanged |
| Security.ValidateFileUpload | src/Core/Security.php:69-117 | an upload error gives exactly its one message and skips the rest; otherwise exactly the size, MIME-type and dangerous-extension messages whose conditions hold, in that order |
| Security.ExtensionOf | src/Core/Security.php:104-110 | the extension of a last path component `stem.ext` is `ext`, case folded |
| Validation.ContainsScript | src/Core/Validator.php:143-154 | true iff one of the seven fragments occurs, ignoring ASCII case |
| Validation.RuleErrorAgreesAwayFromZero | src/Core/Validator.php:44-129 | the rule outcome as written and as intended differ only on "0" and 0 |
| Validation.ZeroSkipsRulesAsWritten | src/Core/Validator.php:53-84 | as written, an age 0 passes `min 18` and the address "0" passes `email`; as intended both fail |
| Validation.RuleOutcome | src/Core/Validator.php:44-129 | the outcome of one rule under the written guard (`empty`) or the intended one (missing values only) |
| Validation.RuleCheck | src/Core/Validator.php:47-127 | the body of each `applyRule` case: the check and its message, with the emptiness guard left to `RuleOutcome`; its cases are stated by `RequiredRule`, `MinLengthRule`, `InRuleExample` and `NoScriptRule` |
| Validation.RuleErrorAsWritten | src/Core/Validator.php:44-129 | `applyRule` as written: every rule but `required` skipped on `empty($value)`; see `ZeroSkipsRulesAsWritten` |
| Validation.RuleError | src/Core/Validator.php:44-129 | `applyRule` as intended: a rule skipped only on a missing value; see `RuleErrorAgreesAwayFromZero` |
| Validation.FieldErrors | src/Core/Validator.php:31-42 | the messages of one field under a guard; stated by `FieldErrorsComplete`, `FieldErrorCount` and `FieldErrorsAppend` |
| Validation.RuleSetErrors | src/Core/Validator.php:9-19 | the messages of a whole rule set under a guard; stated by `MultipleRulesExample` and `Validator.Validate` |
| Validation.Validator.Validate | src/Core/Validator.php:9-19 | under the guard given (the written one models the code), earlier errors are dropped, the errors become every field's messages in rule-set order, and the answer is valid iff there are none |
| Validation.Validator.ValidateField | src/Core/Validator.php:31-42 | under the guard given, each rule's message is appended in rule order, with no short-circuit |
| Validation.Validator.ApplyRule | src/Core/Validator.php:44-129 | exactly the rule's message under the guard given, or nothing, is appended; as written `min 18` on 0 appends nothing |
| Validation.Validator.GetErrors | src/Core/Validator.php:21-24 | exactly the accumulated messages, in order |
| Validation.Validator.GetFirstError | src/Core/Validator.php:26-29 | null iff there are no errors, otherwise the first one |
| Validation.RequiredRule | src/Core/Validator.php:47-51 | under either guard, `required` fails exactly on null, false and "" with "<Field> is required"; "0" and 0 pass |
| Validation.MissingValueSkipsOtherRules | src/Core/Validator.php:53-127 | every other rule adds nothing for a value its guard skips and applies its check otherwise; as written the skipped values are null, false, 0, "" and "0", as intended null, false and "" |
| Validation.MinLengthRule | src/Core/Validator.php:59-63 | `min_length n` fails iff the guard inspects the value and it is shorter than n, with "<Field> must be at least n characters"; as written "0" is never inspected |
| Validation.FieldErrorsAppend | src/Core/Validator.php:33-41 | two rule lists in a row give the first list's messages followed by the second's |
| Validation.FieldErrorsComplete | src/Core/Validator.php:33-41 | every failing rule contributes its message, and every message comes from a failing rule |
| Validation.FieldErrorCount | src/Core/Validator.php:33-41 | a field has as many messages as failing rules |
| Validation.MultipleRulesExample | tests/Unit/SecurityTest.php:223-248 | three bad fields give exactly three messages, one per field, in field order |
| Validation.InRuleExample | tests/Unit/SecurityTest.php:206-212 | a listed status passes `in`; another fails with "<Field> must be one of: a, b" |
| Validation.ScriptImpliesXss | src/Core/Validator.php:143-154 | every fragment `containsScript` seeks is one `detectXSS` seeks too |
| Validation.NoScriptRule | src/Core/Validator.php:123-127 | under either guard, `no_script` rejects exactly the non-empty values holding one of the seven fragments |
| Validation.NoFragmentInZero | src/Core/Validator.php:143-154 | "0", the one value the two guards treat differently here, holds none of the fragments |
| Validation.NoScriptExample | tests/Unit/SecurityTest.php:214-221 | the script example fails `no_script` and the plain text passes |
| Validation.AlphaNumericAllowsFinalLineFeed | src/Core/Validator.php:117-121 | `alpha_numeric` accepts a value with a final line feed, because `$` matches before it |
| Validation.RemoveNul | src/Core/Validator.php:161 | no NUL remains, every character comes from the input, and a NUL-free text is unchanged |
| Validation.RemoveNulAppend | src/Core/Validator.php:161 | the removal distributes over concatenation |
| Validation.RemoveNulDrops | src/Core/Validator.php:161 | each character stays in its place unless it is NUL, so exactly the other characters survive, in order |
| Validation.Trim | src/Core/Validator.php:164 | the result is the slice of the input between a blank prefix and a blank suffix, and starts and ends with a non-blank (so both blank runs are the longest) |
| Validation.TrimStart | src/Core/Validator.php:164 | a suffix of the input; what it cut is blank and it does not start with a blank |
| Validation.TrimEnd | src/Core/Validator.php:164 | a prefix of the input; what it cut is blank and it does not end with a blank |
| Validation.HtmlEscape | src/Core/Validator.php:168 | no `<`, `>`, `"` or `'` remains, NUL is not introduced, the text does not shrink, and a text without markup characters is unchanged |
| Validation.Entity | src/Core/Validator.php:168 | a markup character becomes an entity `&...;` without `<`, `>` or quotes; any other character stays |
| Validation.HtmlEscapeAppend | src/Core/Validator.php:168 | the escape distributes over concatenation |
| Validation.HtmlEscapeReplaces | src/Core/Validator.php:168 | each character is replaced by its own entity in its place |
| Validation.SanitizeValue | src/Core/Validator.php:158-168 | other values stay as they are; a string comes out without `<`, `>`, quotes or NUL (the order of the three steps is stated by `PaddedString` and `SanitizeMarkupExample`) |
| Validation.SanitizeInput | src/Core/Validator.php:156-172 | the same keys, each value the callback's result for that key's value; non-strings unchanged; strings without `<`, `>` or NUL |
| Validation.CleanStringUnchanged | src/Core/Validator.php:156-172 | a string with nothing to strip or escape comes through unchanged |
| Validation.PaddedString | src/Core/Validator.php:158-168 | spaces around a NUL-free text with non-blank ends are stripped before the escape: the result is the escape of the text alone |
| Validation.SanitizeNameExample | tests/Unit/SecurityTest.php:250-263 | the padded name example is trimmed |
| Validation.SanitizeEmailExample | tests/Unit/SecurityTest.php:250-263 | the address example is kept as is |
| Validation.SanitizeMarkupExample | src/Core/Validator.php:158-168 | `" <b> "` becomes `&lt;b&gt;`: trimmed, then escaped |
| Validation.CsrfEmptyTokenAcceptedAsWritten | src/Core/Validator.php:174-178 | as written, without a session token the empty token validates |
| Validation.ValidateCsrfTokenAsWritten | src/Core/Validator.php:174-178 | `hash_equals` of the session token, or "", with the given one; see `CsrfEmptyTokenAcceptedAsWritten` |
| Validation.ValidateCsrfToken | src/Core/Validator.php:174-178 | true iff the session holds a token and the given one equals it |
| Validation.GenerateCsrfToken | src/Core/Validator.php:180-189 | 64 lower-case hexadecimal characters, stored in the session and returned |
| Validation.GeneratedCsrfToken | tests/Unit/SecurityTest.php:265-279 | the generated token validates; the empty string and any text of another length do not |
| Auth.CreateTokenResponse | src/Services/AuthService.php:149-170 | the token encodes the user's id, address and role with iat = now and exp = now + 86400; the user view is those three; `expires_in` is 86400 |
| Auth.VerifyToken | src/Services/AuthService.php:125-133 | succeeds iff the token decodes and is within its lifetime; any failure is "Invalid token" |
| Auth.IssuedTokenVerifies | tests/Feature/AuthTest.php:110-125 | an issued token verifies with its own user for exactly one day |
| Auth.FindBearer | src/Services/AuthService.php:175-178 | the leftmost `Bearer\s+(.*)$` match, or none iff no position matches |
| Auth.BearerTokenOfHeader | src/Services/AuthService.php:175-178 | `Bearer <token>` yields the token itself |
| Auth.NoHeaderNoToken | src/Services/AuthService.php:174-180 | an absent header matches nothing |
| Auth.RequireAuth | src/Services/AuthService.php:172-184 | an absent or unmatched header gives 401 "Authorization token required"; otherwise the verdict of the token |
| Auth.RoleCheck | src/Services/AuthService.php:186-196 | passes iff authenticated with the role or as admin; otherwise 403 "Insufficient permissions"; an auth failure passes through unchanged |
| Auth.RequireRole | src/Services/AuthService.php:186-196 | granted iff `requireAuth` grants and the token's role is the one required or admin; an auth failure is passed on; otherwise 403 "Insufficient permissions" |
| Auth.RoleHierarchy | src/Services/AuthService.php:190-193 | admin passes every role check; a user passes only "user" |
| Auth.FindByEmail | src/Services/AuthService.php:92-94 | the first row with the address, or none iff no row has it |
| Auth.FindById | src/Services/AuthService.php:139-143 | the profile of the first row whose id reads as the given text, or none iff no row matches |
| Auth.GetCurrentUser | src/Services/AuthService.php:135-147 | null when the token does not verify; otherwise the profile of a row whose id is the token's user id, present iff such a row exists |
| Auth.CurrentUserOfIssuedToken | tests/Feature/AuthTest.php:135-150 | the token of a registered user leads back to that user's row for a day |
| Auth.Register | src/Services/AuthService.php:15-57 | the method leaves the state and result `RegisterSpec` describes under the guard given; the written guard and rules (`RegisterRulesAsWritten`) model the code |
| Auth.RegisterSpec | src/Services/AuthService.php:15-57 | the specification of `register`: throttle, validation, screening and insert in the code's order; stated by `RegisterEffects`, `RegisterRefusedAtLimit`, `RegisterDuplicateAsWritten` and `RegisterZeroAcceptedAsWritten` |
| Auth.CheckAndInsert | src/Services/AuthService.php:23-57 | past the throttle, validating with the guard's rule set (the written one never checks uniqueness), the stage does what `RegisterChecked` describes |
| Auth.InsertUser | src/Services/AuthService.php:45-57 | the insert stage appends the row, logs and issues the token as `RegisterInsert` describes |
| Auth.RegisterErrorsEmpty | src/Services/AuthService.php:23-36 | as intended (corrected guard and `unique` rule): the rules pass iff the address is new and well formed, the password has 8 or more characters and the role is user or admin |
| Auth.RegisterErrorsEmptyAsWritten | src/Services/AuthService.php:23-36 | as written: the rules pass iff each field is non-empty and either "0" or well formed (an address, 8 or more characters, user or admin); the table is never consulted |
| Auth.EmailRulesPassAsWritten | src/Services/AuthService.php:29 | as written, the e-mail field passes iff it is "0" or a non-empty well-formed address |
| Auth.PasswordRulesPass | src/Services/AuthService.php:30 | as intended the password passes iff it has 8 or more characters; as written also when it is "0" and non-empty otherwise |
| Auth.RoleRulesPass | src/Services/AuthService.php:31 | as intended the role passes iff it is user or admin; as written also when it is "0" |
| Auth.RegisterDuplicateEmail | tests/Feature/AuthTest.php:56-69 | as intended, a registered address is refused with "Email already exists" first |
| Auth.RegisterErrorsSplit | src/Services/AuthService.php:28-32 | an e-mail error, when there is one, is the first registration error |
| Auth.UniqueRuleIgnoredAsWritten | src/Services/AuthService.php:29 | as written, the e-mail messages are those of `required` and `email` alone, whatever the table holds |
| Auth.RegisterRefusedAtLimit | src/Services/AuthService.php:18-20 | at three attempts from the address in the last hour, registration is refused and nothing changes |
| Auth.RegisterEffects | src/Services/AuthService.php:15-57 | under either guard: one user appended on success and none on failure; the attempt log untouched; every call past the throttle takes a slot |
| Auth.RegisterKeepsUsersSound | src/Services/AuthService.php:23-52 | as intended (corrected guard and rules): a registered user has a fresh address, a password of 8 or more characters and a valid role |
| Auth.RegisterDuplicateAsWritten | src/Services/AuthService.php:23-52 | as written, a well-formed address already in the table is registered again: success, and the addresses are no longer distinct |
| Auth.RegisterZeroAcceptedAsWritten | src/Services/AuthService.php:23-52 | as written, password "0" and role "0" are accepted and a user with role "0" is stored; as intended the call fails and users stay |
| Auth.RegisterValidatesBeforeScreening | src/Services/AuthService.php:23-42 | under either guard, an address the guard inspects and the format check refuses is reported as such and no security event is logged (as written "0" is not inspected) |
| Auth.Login | src/Services/AuthService.php:59-123 | the method leaves the state and result `LoginSpec` describes under the guard given; the written guard models the code |
| Auth.LoginSpec | src/Services/AuthService.php:59-123 | the specification of `login`: throttle, lockout, validation, screening, lookup, password and success in the code's order; stated by the `Login...` lemmas |
| Auth.CheckLogin | src/Services/AuthService.php:66-90 | the lockout, validation (under the guard given) and screening stage does what `LoginChecked` describes |
| Auth.CheckCredentials | src/Services/AuthService.php:92-122 | the lookup, lock, password and success stage does what `LoginCredentials` describes |
| Auth.LoginErrorsEmpty | src/Services/AuthService.php:73-84 | as intended the login rules pass iff the address is well formed and a password is given; as written also for the address "0" |
| Auth.LoginZeroEmailAsWritten | src/Services/AuthService.php:59-123 | as written, the address "0" passes validation, reaches the lookup, answers "Invalid credentials" and records one failed attempt |
| Auth.LoginZeroEmailIntended | src/Services/AuthService.php:73-84 | as intended, the address "0" stops at validation with the e-mail message and records no attempt |
| Auth.LoginLockedOut | src/Services/AuthService.php:67-70 | five recent attempts refuse the login before the password is read; only an event is added |
| Auth.LoginFailureIndistinguishable | src/Services/AuthService.php:92-110 | an unknown address and a wrong password both give "Invalid credentials", record one failed attempt and leave users as they were |
| Auth.LoginSuccess | src/Services/AuthService.php:113-122 | the matched user is stamped and unlocked, other users untouched, the address's attempts cleared, and the token names that user |
| Auth.LoginNeverLocks | src/Services/AuthService.php:59-123 | a login only keeps or lifts a lock, never sets one |
| Streams.OrDefault | src/Services/StreamService.php:64-71 | a set value is taken, otherwise the default |
| Streams.GetStream | src/Services/StreamService.php:22-30 | the row whose id reads as the given text; none iff no id does |
| Streams.AccessOfGrant | src/Services/StreamService.php:32-42 | a grant without expiry gives access; the only grant of a pair, once expired, gives none |
| Streams.HasAccess | src/Services/StreamService.php:32-42 | some grant of the stream to the user is without expiry or expires after now; stated by `AccessOfGrant` |
| Streams.GetStreamUrl | src/Services/StreamService.php:44-53 | the HLS address iff the stream exists, is active and has one; otherwise null |
| Streams.PublicStreams | src/Services/StreamService.php:9-20 | exactly the active and inactive streams, with the listed columns |
| Streams.PublicStreamsHidesEnded | src/Services/StreamService.php:11-16 | an ended stream is never listed |
| Streams.GenerateStreamKey | src/Services/StreamService.php:131-134 | `stream_` and 32 lower-case hexadecimal characters |
| Streams.StreamKeyInjective | src/Services/StreamService.php:131-134 | distinct random bytes give distinct keys |
| Streams.CreateStream | src/Services/StreamService.php:55-74 | one row is added under the next id, with the defaults; the id is returned as text |
| Streams.NewStreamRow | src/Services/StreamService.php:60-72 | the inserted row: the title as given and the defaults; stated by `CreatedStreamFound` |
| Streams.CreatedStreamFound | src/Services/StreamService.php:55-74 | the created stream is found by its id's text and other streams stay; a title-only request gets description "", price 0, currency USD and no schedule |
| Streams.SetFields | src/Services/StreamService.php:81-86 | exactly the accepted fields the data sets to non-null, in field order |
| Streams.SetFieldsOrdered | src/Services/StreamService.php:81-86 | the set fields are distinct and keep the order of the list they come from |
| Streams.BuildStreamUpdate | src/Services/StreamService.php:78-92 | one `f = ?` per set accepted field, values aligned with them, and the id last |
| Streams.UpdateStream | src/Services/StreamService.php:76-99 | false iff no accepted field is set; the table becomes `UpdatedStreams` |
| Streams.UpdatedStreams | src/Services/StreamService.php:76-99 | the table after `updateStream`; stated by `UpdateWritesOnlyAcceptedFields` and `MediaAddressesNotAccepted` |
| Streams.UpdateWritesOnlyAcceptedFields | src/Services/StreamService.php:81-96 | only the set accepted fields and `updated_at` change; other columns and other streams stay |
| Streams.MediaAddressesNotAccepted | src/Services/StreamService.php:88-90 | an update of only the media addresses is refused and changes nothing |
| Streams.NullFieldsIgnored | src/Services/StreamService.php:83 | a null value counts as absent |
| Streams.RecordViewerCount | src/Services/StreamService.php:136-147 | today's row of the stream takes the count and keeps the larger peak; otherwise a row is inserted |
| Streams.RecordViewers | src/Services/StreamService.php:136-147 | the stats table after `recordViewerCount`; stated by `RecordViewersPeak` |
| Streams.RecordViewersPeak | src/Services/StreamService.php:138-146 | afterwards today's row has the new count and a peak that is at least the count and the old peak (and one of them); the table keeps one row per stream and day |
| Payments.IntentRequestOf | src/Services/PaymentService.php:22-28 | the amount in cents, the currency lower-cased, user_id and stream_id in the metadata |
| Payments.CreatePaymentIntent | src/Services/PaymentService.php:17-41 | the gateway's secret and id on success; otherwise "Payment creation failed: " and the gateway's message |
| Payments.VerifyWebhook | src/Services/PaymentService.php:43-54 | the event on success; any failure becomes "Webhook verification failed: " and its message |
| Payments.UpdateStreamRevenue | src/Services/PaymentService.php:90-117 | the stats table becomes `AddRevenue` of the old one |
| Payments.HandleSuccessfulPayment | src/Services/PaymentService.php:56-88 | the ledger becomes `HandlePayment` of the old one |
| Payments.HandlePayment | src/Services/PaymentService.php:56-88 | the ledger after `handleSuccessfulPayment`; stated by `PaymentGrantsOnce`, `PaymentIdempotent` and `DuplicateDeliveryCountedOnce` |
| Payments.AddRevenue | src/Services/PaymentService.php:90-117 | the stats table after `updateStreamRevenue`; stated by `AddRevenueCountsOnce` |
| Payments.GrantExists | src/Services/PaymentService.php:64-71 | some grant row, expired or not, for the user and the stream |
| Payments.GrantOf | src/Services/PaymentService.php:73-84 | the inserted grant: user, stream, intent id, amount, upper-cased currency, no expiry |
| Payments.TotalsOfUpdate | src/Services/PaymentService.php:95-104 | updating one row changes the stream's total purchases and revenue by the row's difference |
| Payments.TotalsOfAppend | src/Services/PaymentService.php:106-115 | appending a row adds its purchases and revenue to its own stream's totals |
| Payments.AddRevenueCountsOnce | src/Services/PaymentService.php:90-117 | the stream's totals gain exactly one purchase and the amount; other streams keep theirs; one row per stream and day is kept |
| Payments.PaymentGrantsOnce | src/Services/PaymentService.php:56-88 | afterwards a grant exists; with one already, nothing changes; otherwise exactly `GrantOf(intent)` is appended and the stream gains one purchase and the amount; grant uniqueness and one stats row per stream and day are kept |
| Payments.PaymentIdempotent | src/Services/PaymentService.php:63-71 | a second payment for the same user and stream changes nothing |
| Payments.DuplicateDeliveryCountedOnce | src/Services/PaymentService.php:63-87 | delivering the same payment twice leaves one grant with its reference and one more purchase |
| PaymentControl.Screen | src/Controllers/PaymentController.php:45-83 | in order: an auth failure answers 400 with its message; no stream_id 400; unknown stream 404; cleared iff all pass and the user has no access yet, with the token's user and the stream |
| PaymentControl.IntentSent | src/Controllers/PaymentController.php:45-77 | the payment request sent to the gateway, none iff refused; stated by `AlreadyPaidOpensNothing` and `IntentNamesBuyerAndStream` |
| PaymentControl.CreatePaymentIntent | src/Controllers/PaymentController.php:45-84 | a refusal answers with the guard's status and message; 200 with the client secret and intent id iff cleared and the gateway creates it; a gateway failure answers 400 "Payment creation failed: ..." |
| PaymentControl.AlreadyPaidOpensNothing | src/Controllers/PaymentController.php:66-70 | a user with access gets "You already have access to this stream" and no intent |
| PaymentControl.IntentNamesBuyerAndStream | src/Controllers/PaymentController.php:72-77 | an opened intent names the token's user and the stream, in lower-case currency, for a user without access |
| PaymentControl.HandleWebhook | src/Controllers/PaymentController.php:86-104 | the answer and the new ledger are those of `Webhook` |
| PaymentControl.Webhook | src/Controllers/PaymentController.php:86-104 | answer and ledger of `handleWebhook`; stated by `WebhookFailsClosed`, `WebhookGrantsOnlySucceeded` and `WebhookRedeliveryNoop` |
| PaymentControl.WebhookFailsClosed | src/Controllers/PaymentController.php:92-103 | a failed verification answers 400 and the ledger is unchanged |
| PaymentControl.WebhookGrantsOnlySucceeded | src/Controllers/PaymentController.php:94-99 | only `payment_intent.succeeded` touches the ledger; any verified event answers success |
| PaymentControl.WebhookRedeliveryNoop | src/Controllers/PaymentController.php:86-104 | redelivering a webhook, at any later time, leaves the ledger as the first delivery did |
| PaymentControl.PaidStreamGivesAccess | src/Controllers/PaymentController.php:86-104 | after a verified succeeded payment naming the buyer and the stream, the buyer has access from then on |
| PaymentControl.RepurchaseAfterExpiryGrantsNothing | src/Services/PaymentService.php:63-71 | a payment for a pair whose grant has expired adds nothing, and the buyer still has no access |
| Routing.CompileLiteralPath | src/Core/Router.php:61-65 | a path without `{` compiles to its literal characters |
| Routing.CompilePath | src/Core/Router.php:61-65 | the tokens of a route path; stated by `CompileLiteralPath` and `CompilePlaceholder` |
| Routing.MatchTokens | src/Core/Router.php:50-65 | the anchored match with its captures; stated by `MatchSound` and `MatchComplete` |
| Routing.CompilePlaceholder | src/Core/Router.php:63 | a `{name}` after a literal stretch becomes one capture, whatever the name |
| Routing.SegmentLength | src/Core/Router.php:63 | the longest prefix without `/` |
| Routing.MatchSound | src/Core/Router.php:50-65 | a match gives one non-empty, slash-free segment per placeholder, which put back rebuild the path (up to a final line feed) |
| Routing.MatchComplete | src/Core/Router.php:50-65 | any filling of the placeholders with segments that spells the path is matched |
| Routing.SegmentStopsAtSlash | src/Core/Router.php:63 | a capture never takes a `/` |
| Routing.PlaceholderCaptures | src/Core/Router.php:50-63 | a placeholder between literal stretches captures exactly the segment in its place |
| Routing.CompiledPlaceholderPath | src/Core/Router.php:61-65 | a path with one placeholder between literal stretches compiles to the literals, one capture and the literals |
| Routing.LiteralsThenParam | src/Core/Router.php:63-64 | literals, a capture and literals match the literals around a segment, capturing the segment |
| Routing.ExtraSegmentRejected | src/Core/Router.php:63-64 | a route ending in a placeholder does not match a path with one more segment |
| Routing.LitsMatch | src/Core/Router.php:64 | a literal stretch consumes exactly its own characters |
| Routing.PathOf | src/Core/Router.php:40 | the text before the first `?` or `#` |
| Routing.TrimSlashes | src/Core/Router.php:41 | the input without its trailing slashes |
| Routing.NormalizeUri | src/Core/Router.php:40-41 | the path before `?` or `#` with its trailing slashes cut, or "/" iff that is "" or "0"; so never empty and without query, fragment or trailing `/` except "/" itself |
| Routing.NormalizeIdempotent | src/Core/Router.php:40-41 | normalising twice is normalising once |
| Routing.FirstMatch | src/Core/Router.php:43-55 | the first route in registration order with the method whose pattern matches; none iff no route fits |
| Routing.Router.AddRoute | src/Core/Router.php:29-36 | exactly one route is appended, order kept |
| Routing.Router.Get | src/Core/Router.php:9-12 | appends one GET route |
| Routing.Router.Post | src/Core/Router.php:14-17 | appends one POST route |
| Routing.Router.Put | src/Core/Router.php:19-22 | appends one PUT route |
| Routing.Router.Delete | src/Core/Router.php:24-27 | appends one DELETE route |
| Routing.Router.Dispatch | src/Core/Router.php:38-78 | the outcome of `DispatchSpec`: the first fitting route's handler with its captures, "Invalid route handler", or 404 "Route not found" |
| Routing.DispatchSpec | src/Core/Router.php:38-59 | the outcome of `dispatch`; stated by `Router.Dispatch`, `LaterRouteNeverShadows` and `UnmatchedIsNotFound` |
| Routing.CallHandler | src/Core/Router.php:67-78 | "Invalid route handler" for a handler that cannot be called, otherwise its invocation with the captures |
| Routing.LaterRouteNeverShadows | src/Core/Router.php:43-55 | registering another route never takes a request from an earlier route that fits |
| Routing.UnmatchedIsNotFound | src/Core/Router.php:44-58 | when no route has the method, the answer is 404 "Route not found" |
| MediaMtx.RtmpUrlKey | src/Services/MediaMTXService.php:158-163 | the RTMP address is `rtmp://host:1935/` followed by the key |
| MediaMtx.RtmpUrl | src/Services/MediaMTXService.php:158-163 | the publishing address; stated by `RtmpUrlKey` and `UrlsDistinguishKeys` |
| MediaMtx.HlsUrl | src/Services/MediaMTXService.php:165-170 | the playlist address; stated by `UrlsDistinguishKeys` |
| MediaMtx.UrlsDistinguishKeys | src/Services/MediaMTXService.php:158-170 | on one host, distinct keys give distinct RTMP and HLS addresses |
| MediaMtx.PathConfig | src/Services/MediaMTXService.php:32-48 | the posted configuration names the key and an RTMP publisher |
| MediaMtx.CreateStream | src/Services/MediaMTXService.php:29-74 | success or 409 give both addresses and the key (the server's answer only on success); any other failure gives "Failed to create stream in MediaMTX: " and its message |
| MediaMtx.CreateTwiceSameAddresses | src/Services/MediaMTXService.php:56-69 | the 409 answer hands out what the first creation did, without the configuration |
| MediaMtx.DeleteStream | src/Services/MediaMTXService.php:76-87 | success or 404 give true; any other failure gives "Failed to delete stream from MediaMTX: " and its message |
| MediaMtx.GetStreamStats | src/Services/MediaMTXService.php:89-115 | viewers is the number of readers, missing fields their defaults; 404 is idle; any other failure gives "Failed to get stream stats from MediaMTX: " and its message |
| MediaMtx.StatsOfQuietPath | src/Services/MediaMTXService.php:96-97 | a path without readers has no viewers; one without a ready source is not live |
| MediaMtx.GetServerStatus | src/Services/MediaMTXService.php:117-136 | offline with the error text iff the request failed; otherwise the version (or "unknown") and the path count |
| MediaMtx.FindByKey | src/Services/MediaMTXService.php:177-179 | the first id whose row has the key; none iff no id below the bound has it |
| MediaMtx.StatusData | src/Services/MediaMTXService.php:182-190 | live: active, with `actual_start` iff none recorded; offline: ended with `actual_end` iff it was active, otherwise inactive; no other field |
| MediaMtx.NeverEndedAsWritten | src/Services/MediaMTXService.php:177-192 | as written, the found stream becomes active or inactive, never ended, and its start and end stay as they were |
| MediaMtx.UpdateStreamStatusAsWritten | src/Services/MediaMTXService.php:172-194 | the status sync as written; stated by `NeverEndedAsWritten` and `AsWrittenUpdatesRow` |
| MediaMtx.AsWrittenUpdatesRow | src/Services/MediaMTXService.php:177-192 | as written, the found stream's row is updated from a status built on a row holding only the id; other streams stay |
| MediaMtx.AsWrittenRowFacts | src/Services/MediaMTXService.php:182-192 | as written, the status becomes active or inactive and `actual_start` and `actual_end` keep their old values |
| MediaMtx.StatusUpdated | src/Services/MediaMTXService.php:181-193 | only the found stream changes; nothing changes when no stream has the key |
| MediaMtx.StatusTransitions | src/Services/MediaMTXService.php:182-190 | the corrected sync: live means active with the start recorded once; offline ends an active stream with its end time and makes any other inactive |
| MediaMtx.StartRecordedOnce | src/Services/MediaMTXService.php:185-186 | a second live report keeps the first recorded start |
| MediaMtx.UpdateStreamStatus | src/Services/MediaMTXService.php:172-194 | the table becomes `StatusUpdated` of the old one |
| MediaMtx.FindByKeyComplete | src/Services/MediaMTXService.php:177-181 | a key present in the table is always found |

## Left out

- Password hashing and verification, `generateSecureToken`, `encrypt`/`decrypt`, `isValidIP` and `secureHeaders`: cryptography, randomness and response headers. Hashing and JWT appear only as the opaque functions of `Auth.Crypto`.
- Security.DetectSqlInjection: the two keyword/word-boundary patterns are a boolean parameter. Only the comment-marker and quote-pair patterns are modelled.
- `filter_var`, `strtotime`, `is_numeric`, the `(float)` cast, `recordExists`'s query and `finfo` MIME sniffing are foreign. They are parameters (`Validation.Checks`, and the `mimeType` of `Security.ValidateFileUpload`).
- Floating-point money: amounts are integer cents. `(int)($amount * 100)` is a conversion parameter of `PaymentControl.CreatePaymentIntent`, and `amount / 100` is not applied.
- Concurrency: the session limiter and the check-then-insert of `handleSuccessfulPayment` are sequential here.
- The HTTP client, the Stripe SDK, PDO and `$_SERVER`:
  - each exchange is a parameter holding its outcome;
  - `parse_url`'s host extraction in the MediaMTX address builders is the `host` parameter;
  - the database is the `Db.Database` object.
- `logSecurityEvent`'s choice between the table and `error_log` is not modelled. Either way one event is appended.
- MySQL's numeric coercion of ids is not modelled. A stream id is compared as exact canonical decimal text, and `stream_access`/`stream_stats` keep ids as the text the queries bind. E-mail comparison is exact; a case-insensitive collation is not modelled.
- The schema is not part of this model:
  - columns the inserts leave out (such as `status` and `hls_url` of a new stream) read as null;
  - `recordViewerCount`'s duplicate key is taken to be (stream, day), one row per stream and UTC day (`Db.StatsKeyed`);
  - among same-day rows, the last is the one updated.
- `date('Y-m-d H:i:s')` in the status sync is a `stamp` text parameter. Other times are integer seconds.
- Router:
  - route paths are taken to hold no regex metacharacters other than the placeholders, so each literal character matches itself;
  - `parse_url` is modelled only as cutting at the first `?` or `#`;
  - `callHandler` instantiating the controller and invoking it is the `Invoke` outcome.
- `Security.ValidateFileUpload` does not model `number_format`'s locale. The size message uses `FormatOneDecimal` (comma thousands separator, one decimal).
- `MediaMTXService::getAllPaths` and `kickReader` are not part of this model. They only forward to the API and wrap its error.
- `StreamService::deleteStream` and `getStreamStats`, `PaymentController::showPayment`, the thin controllers, the templates, the application bootstrap and the test harness are not part of this model.
- Auth.GetCurrentUser: the model passes the token text as the code does. The feature test that hands it a whole `Bearer ...` value is not reproduced.
- A payment for a pair whose grant has expired is accepted by the gateway but grants nothing (`PaymentControl.RepurchaseAfterExpiryGrantsNothing`). The code's behaviour is modelled; no intended behaviour is assumed.
- PaymentControl.Screen: an authentication failure answers 400, not 401, because the controller's catch overrides the status set by `requireAuth`. The code is followed.
- A second "not live" report on an ended stream makes it inactive under `MediaMtx.StatusUpdated`, as the code's conditions say.
- Validation.RuleCheck: `min_length` and `max_length` count characters, while `strlen` counts UTF-8 bytes. The two agree on ASCII text only; "éééé" has 8 bytes and passes `min_length 8` in PHP but not here.
- Validation.RuleCheck: `in` compares the value's text exactly. PHP's loose `in_array` also matches numeric strings numerically (so "1.0" equals "1") and matches `true` against any non-empty option other than "0". The register rules only ever see strings against the non-numeric options user and admin, where the two agree.
- Validation.HtmlEscape: `htmlspecialchars` returns "" for a text that is not valid UTF-8. Strings here are sequences of characters, so that case does not arise.
- Auth.Register: the default role "user" of `register`'s third parameter, and the controller's `$input['role'] ?? 'user'`, are not modelled. The role is always passed explicitly; a call without one is the call with "user".
- Streams.PublicStreams: the listing is a map from id to row. The `ORDER BY scheduled_start DESC, created_at DESC` of the query is not modelled, so the model says which streams are listed but not in what order.
- Payments.VerifyWebhook: stripe-php's `Webhook::constructEvent` returns a `\Stripe\Event` object, while `verifyWebhook` declares `: array`. In PHP that return is a `TypeError`, which `catch (\Exception)` does not catch, so a signed event would end the request with an uncaught error instead of granting. The library source is not part of this repository; the model assumes a verified event is returned as its data.
- MediaMtx.CreateStream, MediaMtx.DeleteStream, MediaMtx.GetStreamStats and MediaMtx.GetServerStatus: `Reply.Failed` stands for every transport failure. The code catches only Guzzle's `RequestException`; Guzzle 7's `ConnectException` is not one, so a refused connection escapes these catches and is not turned into the error result. The library source is not part of this repository.
- Security.RateLimit: the session store is keyed by the identifier itself. The code keys it by `"rate_limit:"` and the SHA-256 of the identifier, so the model takes that hash to be injective; two identifiers whose hashes collide would share one list in the code but not here.
- MediaMtx.FindByKey: when several rows hold the key, the model picks the one with the lowest id. The code's `SELECT id FROM streams WHERE stream_key = ?` has no ORDER BY or LIMIT, and `fetch()` takes whichever row the database returns first, so its choice among duplicates is unspecified; the model fixes one of the allowed answers.

## Findings

| source | as written | input that shows it | evidently intended | confidence | as-written member | corrected member |
|---|---|---|---|---|---|---|
| src/Services/AuthService.php:29 | the e-mail rule `'unique:users:email'` is one string; `validateField` passes it to `applyRule` as a bare rule name, which matches no case, so uniqueness is never checked | registering an address that `users` already holds passes validation (the insert then fails on the database, if a unique index exists) | rule `unique` with value `users:email`, refusing with "Email already exists" | not executed | `Auth.UniqueRuleIgnoredAsWritten`, `Auth.RegisterDuplicateAsWritten` (rules `Auth.RegisterRulesAsWritten`) | `Auth.RegisterDuplicateEmail`, `Auth.RegisterKeepsUsersSound` (rules `Auth.RegisterRules`) |
| src/Core/Validator.php:174-178 | `hash_equals($_SESSION['csrf_token'] ?? '', $token)` | no token in the session and the token "" | a token is valid only when the session holds one and it matches | not executed | `Validation.CsrfEmptyTokenAcceptedAsWritten` (check `Validation.ValidateCsrfTokenAsWritten`) | `Validation.GeneratedCsrfToken` (check `Validation.ValidateCsrfToken`) |
| src/Core/Validator.php:53-127 | every rule but `required` is skipped when `empty($value)`, which holds for "0" and 0, values that `required` accepts | age 0 with `['min', 18]`; e-mail "0" with `email` | skip a rule only for a missing value (null, false, "") | not executed | `Validation.ZeroSkipsRulesAsWritten` (rule `Validation.RuleErrorAsWritten`), `Auth.RegisterZeroAcceptedAsWritten`, `Auth.LoginZeroEmailAsWritten` (the flows under guard `AsWritten`) | `Validation.RuleErrorAgreesAwayFromZero` (rule `Validation.RuleError`), `Auth.RegisterKeepsUsersSound`, `Auth.LoginZeroEmailIntended` (the flows under guard `Intended`) |
| src/Services/MediaMTXService.php:177-192 | the row is selected with `SELECT id`, so `actual_start` and `status` read as null; the update goes through `updateStream`, whose whitelist drops `actual_start` and `actual_end` | a stream that is active and goes offline: `ended` is never written, nor are its start and end times | read the whole row and write `status`, `actual_start` and `actual_end` themselves | not executed | `MediaMtx.NeverEndedAsWritten` (sync `MediaMtx.UpdateStreamStatusAsWritten`) | `MediaMtx.StatusTransitions` (sync `MediaMtx.StatusUpdated`, `MediaMtx.UpdateStreamStatus`) |
