# Agent provisioning scripts, modelled in Dafny

The repository is a pair of one-shot Node scripts. Each reads a spreadsheet
export of field agents (`agents.csv`) and creates a login for every agent on a
hosted backend (an auth service plus database tables):

- `create_profiles.js` is the current script. It creates an auth user for the
  agent, and is meant to insert next a `users` record that gives the user the
  `mobile_banker` role and the agent's branch. As written, it never gets there:
  the insert reads the new user's id from a variable that is not defined (see
  "## Findings"), so every successful sign-up is reported as an unexpected
  error and no record is inserted.
- `old/bulk_create_agents.js` is the earlier script. It creates the same auth
  user, then inserts a `profiles` record that repeats the agent's details and
  forces a password change.

Both scripts read the rows first. Then they loop over them in file order:

1. A row whose trimmed `NAME` or `ACCOUNT NUMBER` is missing or empty is
   skipped.
2. Any other row gets the address `first.L.123@goodnews.com`. It is built from
   the cleaned first word of the name (only its letters a-z, lower-cased) and
   the first letter of the cleaned last word, and the last three digits of the
   account number
   (all of them when there are fewer). A last word without letters gives the
   text `undefined` in place of the initial.
3. The loop calls `createUser` with the default password `Temp@1234`, and the
   email is auto-confirmed.
4. When that call succeeds, the earlier script inserts its record. An error in
   the reply ends the row as an auth error. An exception from either call is
   caught and reported as an unexpected error. The current script, as written,
   throws before its insert, as described above.

Every row ends in exactly one reported outcome:

- skipped;
- auth error;
- profile error;
- created;
- unexpected error.

The loop always goes on to the next row. The current script also strips a
byte-order mark from the column headers.

The model is split into these modules:

| module | file | what it models |
|---|---|---|
| `JsText` | jstext.dfy | `String.prototype.trim` and `split(/\s+/)`, over the ECMAScript white-space set |
| `EmailDerivation` | email.dfy | `clean` and `buildEmail` (both scripts compute them the same way) and a parser that reads an address back into its three segments |
| `Rows` | rows.dfy | rows as maps from column name to cell, the header callback, and the row check |
| `Provisioning` | provisioning.dfy | the backend and the row loop, stated once for any loop body |
| `Preparation` | preparation.dfy | what the loop body does before it calls the service |
| `BulkCreateAgents` | bulk_create_agents.dfy | the earlier script's loop body, a function and methods proved equal to it, and lemmas |
| `CreateProfiles` | create_profiles.dfy | the current script's loop body, its methods, and lemmas, both as written and as evidently intended |

The backend is a class, `Provisioning.Backend`. It keeps the history of calls
it has received. Its answers are a parameter of the model: the answer to the
call at position `p` of the history is `service.onCreateUser(p)` or
`service.onInsert(p)`. Each answer is a success, an `error` in the reply, or
a thrown exception.

Each script's loop is modelled twice:

- as a method (`ProvisionAll`, which calls `ProvisionRow` and
  `SignUpAndRecord`);
- as a function, `Run` over the script's `Steps`.

The method is proved to log exactly what the function says, and to send the
backend exactly the calls the function lists.

## Model

| member | source | states |
|---|---|---|
| Rows.StripBom | create_profiles.js:36 | exactly one leading U+FEFF is removed; any other header is returned unchanged |
| Rows.MapHeaders | create_profiles.js:34-37 | every header passes through the callback, keeping the number and order of the columns |
| Rows.MapHeadersFindsColumn | create_profiles.js:36 | a column named `NAME` (or any name) still has that name when the file puts a byte-order mark before it |
| Rows.StripBomOnce | create_profiles.js:36 | the pattern is anchored and not global, so a header behind two marks keeps one of them |
| Rows.Cell | create_profiles.js:42-44 | `row[key]?.trim()` is present exactly when the column exists, and is then the trimmed cell, with no white space at either end |
| Rows.Truthy | create_profiles.js:46 | no contract of its own: the truthiness test `!fullName` / `!accountNumber`, which fails for a missing cell (`undefined`) and for the empty string; `TruthyCell` states what it means for a trimmed cell |
| Rows.TruthyCell | create_profiles.js:42-46 | a trimmed cell is truthy exactly when its column is present and holds something besides white space |
| Rows.Validate | create_profiles.js:42-49 | a row is skipped exactly when its name or account number is missing or only white space; otherwise the agent carries the trimmed, non-empty name and account number and the optional trimmed branch (the earlier script makes the same check, old/bulk_create_agents.js:40-47) |
| Rows.BranchNotRequired | create_profiles.js:46-49 | whether a row is skipped does not depend on its `BRANCH` column, whether it is missing or holds anything |
| JsText.IsSpace | create_profiles.js:22 | no contract of its own: the white-space set of both `\s` and `trim`, the ECMAScript WhiteSpace and LineTerminator code points written out; every `JsText` contract is stated over it |
| JsText.Trim | create_profiles.js:42-44 | the result has no white space at either end; it is empty exactly when the input is all white space; it is the input with its leading and trailing white-space runs removed |
| JsText.TrimIdempotent | create_profiles.js:22 | trimming an already trimmed name, as `buildEmail` does, changes nothing |
| JsText.SplitWs | create_profiles.js:22 | `split(/\s+/)` gives at least one piece and no piece holds white space; `SplitWsFirst` and `SplitWsLast` state the first and last pieces, the only ones `buildEmail` reads, and `SplitWsKeepsText` what the pieces hold together; where the pieces in between are cut is not stated |
| JsText.SplitWsKeepsText | create_profiles.js:22 | the pieces of `split(/\s+/)`, glued back together, are exactly the non-white-space characters in order |
| JsText.SplitWsTrimmedPieces | create_profiles.js:22 | a trimmed, non-empty name splits into non-empty words only |
| JsText.SplitWsFirst | create_profiles.js:22-23 | the first piece is the word the string starts with |
| JsText.SplitWsLast | create_profiles.js:22-24 | the last piece is the word the string ends with |
| JsText.SplitTwoWords | create_profiles.js:22 | two words with one white-space run between them split into exactly those two words |
| JsText.SplitOneWord | create_profiles.js:22 | a single word splits into itself |
| EmailDerivation.CleanChar | create_profiles.js:16-18 | each character leaves at most one letter a-z behind: a-z is kept, `A`-`Z` becomes its lower-case letter, KELVIN SIGN becomes `k`, U+0130 becomes `i`, and every other character leaves nothing |
| EmailDerivation.Clean | create_profiles.js:16-18 | `clean` yields only letters a-z and is never longer than its input |
| EmailDerivation.CleanAppend | create_profiles.js:16-18 | cleaning keeps the order of what it keeps: it distributes over concatenation |
| EmailDerivation.CleanOfLower | create_profiles.js:16-18 | text already made of letters a-z is left unchanged |
| EmailDerivation.CleanCapitalised | create_profiles.js:16-18 | a capitalised word is cleaned to its lower-case spelling |
| EmailDerivation.CleanIdempotent | create_profiles.js:16-18 | cleaning twice is cleaning once |
| EmailDerivation.CleanEmpty | create_profiles.js:16-18 | the result is empty exactly when no character of the input lower-cases to a letter a-z |
| EmailDerivation.Digits | create_profiles.js:25 | `replace(/[^0-9]/g, "")` yields only digits and is never longer than its input |
| EmailDerivation.DigitsOfNonDigits | create_profiles.js:25 | text without an ASCII digit leaves nothing behind |
| EmailDerivation.DigitsAppend | create_profiles.js:25 | removing non-digits distributes over concatenation |
| EmailDerivation.Suffix | create_profiles.js:25 | `slice(-3)` of the digits has length min(3, number of digits), is the tail of the digit string, and is all digits |
| EmailDerivation.SuffixOfDigits | create_profiles.js:25 | for an all-digit account number, the suffix is its last three characters, or the whole number when it is shorter |
| EmailDerivation.SuffixOfLongNumber | create_profiles.js:25 | account `0012345678` gives the suffix `678` |
| EmailDerivation.SuffixOfShortNumber | create_profiles.js:25 | account `55` gives `55`, because the negative start is clamped |
| EmailDerivation.SuffixSkipsNonDigits | create_profiles.js:25 | account `AC-9` gives `9` |
| EmailDerivation.SuffixOfNoDigits | create_profiles.js:25 | every account number without digits gives an empty suffix and no error |
| EmailDerivation.Initial | create_profiles.js:27 | `lastName[0]` is the first letter of the cleaned last name, and the text `undefined` when that name is empty; it is never empty |
| EmailDerivation.SegmentsOf | create_profiles.js:21-27 | the three segments are well formed: lower-case first name, non-empty lower-case initial, and at most three digits |
| EmailDerivation.Compose | create_profiles.js:27 | no contract of its own: the template literal; `ComposeShape` and `ParseCompose` state what it builds |
| EmailDerivation.ComposeShape | create_profiles.js:27 | for well-formed segments the template gives letters, digits and dots followed by `@goodnews.com` |
| EmailDerivation.ParseCompose | create_profiles.js:27 | for well-formed segments, reading the composed address back gives exactly those segments |
| EmailDerivation.BuildEmail | create_profiles.js:21-28 | no contract of its own, which keeps the proofs that use it small; `BuildEmailShape`, `SegmentsFromWords` and `ParseBuildEmail` state its properties; the earlier script's `buildEmail`, old/bulk_create_agents.js:20-30, computes the same address |
| EmailDerivation.SegmentsFromWords | create_profiles.js:22-27 | the first segment is the cleaned first word of the trimmed name, the initial comes from its cleaned last word, and the suffix is the account number's digit suffix |
| EmailDerivation.SingleWordName | create_profiles.js:22-24 | a one-word name is both the first and the last name |
| EmailDerivation.EmptyCleanedWords | create_profiles.js:23-27 | a last word without letters gives the initial `undefined`; a first word without letters makes the address start with a dot |
| EmailDerivation.BuildEmailShape | create_profiles.js:27 | every address is letters, digits and dots followed by `@goodnews.com` |
| EmailDerivation.ParseBuildEmail | create_profiles.js:21-28 | reading an address back gives exactly the segments it was built from (a round trip); the earlier script's `buildEmail`, old/bulk_create_agents.js:20-30, computes the same address |
| EmailDerivation.BuildEmailDeterminesSegments | create_profiles.js:21-28 | two agents get the same address only when their segments agree |
| EmailDerivation.BuildEmailOfTrimmed | create_profiles.js:51 | passing the already trimmed name, as the loop does, gives the same address as the raw cell |
| EmailDerivation.TwoWordExample | create_profiles.js:21-28 | `Jane Doe` with account `0012345678` gets `jane.d.678@goodnews.com` |
| EmailDerivation.OneWordExample | create_profiles.js:21-28 | `Madonna` with account `55` gets `madonna.m.55@goodnews.com` |
| Preparation.Prepare | create_profiles.js:42-51 | no contract of its own: the row check, the derived address and the request; `PreparedRequest` states what it yields |
| Preparation.PreparedRequest | create_profiles.js:42-65 | a row is prepared exactly when neither its name nor its account number is missing or blank, and then into exactly the `createUser` request the script sends: the address built from the trimmed name and account number, `Temp@1234`, auto-confirmed, and the trimmed name, branch and account number as metadata |
| Provisioning.SignUp | create_profiles.js:56-65 | no contract of its own: the `createUser` argument for an agent and its address; `PreparedRequest` states its fields for a row |
| Provisioning.Backend.CreateUser | create_profiles.js:55-65 | the request is appended to the history, and the reply is the service's answer for that position |
| Provisioning.Backend.Insert | create_profiles.js:73-77 | the insert is appended to the history, and the reply is the service's answer for that position |
| Provisioning.RunFirst | create_profiles.js:41-87 | after `n` rows the log holds exactly one outcome per row |
| Provisioning.RunFirstLoop | create_profiles.js:41-87 | one pass of the loop body extends the log and the history of the first `i` rows to those of the first `i + 1` rows |
| Provisioning.Run | create_profiles.js:41-87 | the whole loop logs exactly one outcome per row; `RunAt` says which, and both `ProvisionAll` methods are proved to do what it says |
| Provisioning.RunPrefix | create_profiles.js:41-87 | what the loop has logged and sent for the first rows is not changed by later rows |
| Provisioning.RunAt | create_profiles.js:41-87 | row `i`'s outcome is what the loop body makes of that row given only the calls made before it, whatever earlier rows ended in |
| Provisioning.RunEvery | create_profiles.js:41-87 | a property that every pass of the loop body gives its row holds of every entry of the log |
| Provisioning.RunCreateUserCount | create_profiles.js:41-87 | when each row signs up once if valid and never otherwise, the run makes exactly one sign-up per valid row |
| Provisioning.InsertFollowsSignUp | old/bulk_create_agents.js:68-76 | in a history where inserts follow sign-ups, each insert sits right after the successful sign-up whose user it records |
| Provisioning.RunFirstInsertsFollowSignUps | old/bulk_create_agents.js:39-86 | if every pass of the loop body inserts only right after its own successful sign-up, so does the whole run |
| Provisioning.RunAtSignUpsOnly | create_profiles.js:41-87 | when rows make only sign-ups, row `i`'s sign-up is call `k + v`, where `v` is the number of valid rows before it |
| Provisioning.RunFirstSameSteps | create_profiles.js:41-87 | two loop bodies that agree on every row and history give the same run |
| BulkCreateAgents.Handle | old/bulk_create_agents.js:49-85 | a row is skipped exactly when it was not prepared; otherwise it makes its sign-up first, and an insert exactly when the sign-up succeeds; the insert is the `profiles` record of the new user; the outcome is an auth error, created or a profile error exactly when the replies say so; every error carries the message of the reply or exception that caused it (`error.message`, `profileError.message`, `e.message`) |
| BulkCreateAgents.Profile | old/bulk_create_agents.js:70-76 | no contract of its own: the `profiles` object, with the new user's id, the request's name, branch and account number, and `must_change_password` set; `ProfilesFollowSignUps` states where it is inserted |
| BulkCreateAgents.RowStep | old/bulk_create_agents.js:40-85 | no contract of its own: the loop body, `Handle` of the prepared row; `RowOutcome` and `HandleSignsUpOnce` state what it does |
| BulkCreateAgents.SignUpAndRecord | old/bulk_create_agents.js:51-85 | the `try` block reports, and sends the backend, exactly what `Handle` says for the row's request |
| BulkCreateAgents.ProvisionRow | old/bulk_create_agents.js:40-85 | the loop body reports, and sends the backend, exactly what the model's loop body says |
| BulkCreateAgents.ProvisionAll | old/bulk_create_agents.js:39-86 | the loop logs exactly `Run`'s outcomes, and the backend receives exactly `Run`'s calls |
| BulkCreateAgents.HandleSignsUpOnce | old/bulk_create_agents.js:52-61 | a prepared row makes exactly one sign-up, and a skipped row makes none |
| BulkCreateAgents.SignUpsMatchValidRows | old/bulk_create_agents.js:39-61 | a run makes exactly as many sign-ups as there are valid rows, whatever the service answers |
| BulkCreateAgents.HandleAnswered | old/bulk_create_agents.js:63-85 | created exactly when both calls succeed; a profile error exactly when the insert reports one; an auth error exactly when the sign-up reports one; an unexpected error exactly when a call throws; each error carries the reply's or the exception's message |
| BulkCreateAgents.RowOutcome | old/bulk_create_agents.js:44-85 | a row is reported as skipped exactly when it fails the check, and otherwise under its derived address, with the outcome that `HandleAnswered` states |
| BulkCreateAgents.LogLabelled | old/bulk_create_agents.js:39-86 | entry `j` of the log belongs to row `j`: skipped exactly when the row fails the check, and otherwise under its derived address |
| BulkCreateAgents.HandleProfilesFollowSignUps | old/bulk_create_agents.js:68-76 | within a row, the insert directly follows the successful sign-up and carries its user id and details |
| BulkCreateAgents.ProfilesFollowSignUps | old/bulk_create_agents.js:68-76 | over a whole run, every `profiles` insert directly follows the successful sign-up of the same agent, with that user's id and a forced password change |
| CreateProfiles.ReadUserId | create_profiles.js:74 | the id is read only from `authData`; reading `data` fails |
| CreateProfiles.Handle | create_profiles.js:51-86 | as for the earlier script, but the insert is a `users` record with the `mobile_banker` role; an insert happens exactly when the sign-up succeeds and the id is read from `authData`; as written, a successful sign-up ends as the unexpected error `data is not defined`; every other error carries the message of the reply or exception that caused it |
| CreateProfiles.UserRow | create_profiles.js:73-77 | no contract of its own: the `users` object, with the new user's id, the `mobile_banker` role and the request's branch; `CorrectedUsersFollowSignUps` states where it is inserted |
| CreateProfiles.RowStep | create_profiles.js:42-86 | no contract of its own: the loop body, `Handle` of the prepared row; `RowOutcome` and `HandleSignsUpOnce` state what it does |
| CreateProfiles.SignUpAndRecord | create_profiles.js:53-86 | the `try` block reports, and sends the backend, exactly what `Handle` says |
| CreateProfiles.ProvisionRow | create_profiles.js:42-86 | the loop body reports, and sends the backend, exactly what the model's loop body says |
| CreateProfiles.ProvisionAll | create_profiles.js:41-87 | the loop logs exactly `Run`'s outcomes, and the backend receives exactly `Run`'s calls |
| CreateProfiles.HandleSignsUpOnce | create_profiles.js:55-65 | a prepared row makes exactly one sign-up, and a skipped row makes none |
| CreateProfiles.SignUpsMatchValidRows | create_profiles.js:41-65 | a run makes exactly as many sign-ups as there are valid rows, whichever variable the id is read from |
| CreateProfiles.HandleAnswered | create_profiles.js:67-86 | created or a profile error only with the id read from `authData`, and then exactly as the insert replies; an auth error exactly when the sign-up reports one; as written, a successful sign-up is reported as `data is not defined`; an unexpected error exactly when a call throws, or when the sign-up succeeds and the id is read from `data`; each other error carries the reply's or the exception's message |
| CreateProfiles.RowOutcome | create_profiles.js:46-86 | a row is reported as skipped exactly when it fails the check, and otherwise under its derived address, with the outcome that `HandleAnswered` states |
| CreateProfiles.LogLabelled | create_profiles.js:41-87 | entry `j` of the log belongs to row `j`: skipped exactly when the row fails the check, and otherwise under its derived address |
| CreateProfiles.HandleOnlySignsUp | create_profiles.js:73-74 | as written, a row never sends anything after its sign-up |
| CreateProfiles.AsWrittenStepsSignUpOnly | create_profiles.js:73-77 | as written, every pass of the loop body sends one sign-up for a valid row, nothing for a skipped one, and never an insert |
| CreateProfiles.AsWrittenNeverInserts | create_profiles.js:73-77 | as written, the history after `i` rows is one sign-up per valid row among them, and nothing else |
| CreateProfiles.AsWrittenNoRecords | create_profiles.js:79-83 | as written, no row is ever reported as created or as a profile error |
| CreateProfiles.AsWrittenSignUpAt | create_profiles.js:84-86 | as written, row `i` is reported exactly as its own sign-up decides, that sign-up being call `k + v`, where `v` is the number of valid rows before it |
| CreateProfiles.AsWrittenStrandsUsers | create_profiles.js:55-77 | against a service that accepts everything, a valid row as written creates the auth user but no `users` record, and reports `data is not defined`; with `authData` it inserts the record and reports created |
| CreateProfiles.HandleUsersFollowSignUps | create_profiles.js:73-77 | reading the id from `authData`, a row's insert directly follows its successful sign-up and carries that user's id |
| CreateProfiles.CorrectedUsersFollowSignUps | create_profiles.js:73-77 | reading the id from `authData`, every `users` insert of a run directly follows the successful sign-up of the same agent, with that user's id, the `mobile_banker` role and the agent's branch |
| CreateProfiles.HandleAgreesWithLegacy | create_profiles.js:67-70 | while a sign-up does not succeed, a row is handled the same way by both scripts |
| CreateProfiles.AgreesWithLegacyWithoutSignUps | create_profiles.js:41-70 | against a service that never accepts a sign-up, both scripts log the same outcomes and make the same calls |

## Left out

- Reading `agents.csv` and CSV parsing are not modelled; only the header callback is. The rows come in already parsed, as maps from column name to cell text, in file order.
- The hosted client and its environment secrets are not modelled. Every reply the service can give is a parameter, chosen per position in the call history; the service's own state and rules are not modelled.
- The console messages are not modelled. Each is an `Outcome` value carrying the same data: the row, or the address and the error message.
- `async`/`await` is not modelled. The scripts await each call before making the next one, so the model runs the rows one after another.
- Exceptions other than those thrown by the two service calls and by the read of `data` are not modelled. This includes a reply with neither `error` nor `user`, which is treated as a success with its user id.
- A created auth user is not removed when its record insert fails or is never made. The model records the user in the history, as the scripts do.
- Unicode `toLowerCase` is modelled only as far as `clean` can observe it. ASCII capitals are lowered. KELVIN SIGN becomes `k` and LATIN CAPITAL LETTER I WITH DOT ABOVE becomes `i`. Every other character is dropped.
- The earlier script passes no header callback to the parser. When the first header is `NAME` or `ACCOUNT NUMBER` behind a byte-order mark, that column's key keeps the mark, so every row is skipped. The model of that script takes its rows already parsed, so it shows this only when it is given such keys: a row without the plain `NAME` or `ACCOUNT NUMBER` key fails `Rows.Validate`.
- The rows buffered before the loop starts (`rows.push`) are the sequence the model's loop is given. The buffering itself is not modelled.
- The start-up lines that load `dotenv` and create the client are I/O and are not modelled.

## Findings

| source | as written | input that shows it | evidently intended | confidence | as-written member | corrected member |
|---|---|---|---|---|---|---|
| create_profiles.js:74 | the `users` insert reads `data.user.id`, but the sign-up reply is bound to `authData`, so `data` is not defined there; the `ReferenceError` is caught, the row is reported as `Unexpected error: data is not defined`, and no `users` record is ever inserted, although the auth user was created | any valid row whose sign-up succeeds, e.g. `NAME` = `Jane Doe`, `ACCOUNT NUMBER` = `0012345678` against a service that accepts it | `authData.user.id`, giving the new user the `mobile_banker` role | not executed | CreateProfiles.AsWrittenStrandsUsers | CreateProfiles.CorrectedUsersFollowSignUps |
