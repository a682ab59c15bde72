# Aftermath Archive backend — a Dafny model of its core

Aftermath Archive is an incident-tracking REST API built on Express and Mongoose.
Engineers record incidents, discuss them, and write post-mortems.
User accounts can be registered, updated and soft-deleted.

This project models the logic the API adds on top of its libraries:

- the pagination middleware;
- the password rule;
- the user, incident and post-mortem schemas, as validity predicates and default constructors;
- the request validators;
- the incident service and the incident controller;
- `checkIncidentPresence`;
- the error-handling middleware;
- the user and registration services.

The Mongoose models are in-memory stores: classes holding a map from key to document.
The next key is a counter, so "the first match of `findOne`" means the smallest matching key.
Queries are predicates over (key, document).

Each module and its source:

| module (file) | source |
|---|---|
| `Common` (`common.dfy`) | shared values: `Option`, `Result`, the thrown `Error` (message, optional `statusCode`, `isOperational`), `AppError`, JavaScript `||` on strings and statuses, the first match (smallest matching key) and all matches |
| `JsText` (`js_text.dfy`) | `String.prototype.trim`, the UTF-16 `length` of a string, and the character classes the regular expressions use |
| `Pagination` | `src/middlewares/paginationMiddleware.js` |
| `Password` | `src/utils/validatePassword.js` |
| `UserModel` | `src/models/userModel.js`, plus the `User` model as the class `UserTable` |
| `IncidentModel` | `src/models/incidentModel.js`, plus the `Incident` model as the class `IncidentStore` |
| `PostMortemModel` | `src/models/postmortemModel.js` |
| `IncidentService` | `src/services/incidentService.js` |
| `UserService` | `src/services/userService.js` |
| `AuthService` | `src/services/authService.js` |
| `IncidentPresence` | `src/utils/checkIncidentPresence.js` |
| `IncidentController` | `src/controllers/incidentController.js` |
| `ErrorHandler` | `src/middlewares/errorHandlerMiddleware.js` |
| `ExpressValidator`, `ValidateIncident`, `ValidateIncidentCopy`, `ValidateDiscussion` | the three express-validator chains |

Behaviour of the code that the model keeps as it is, where comments or tests describe something else:

- **Incident creation always fails.** `incidentService.js` requires `../models/incident`, which is not part of this model; it is read as `incidentModel.js`. That schema requires a unique `incidentAutoId`, which `createIncident` never sets. So every create fails validation, and the caller sees 'Failed to create incident.' (`IncidentService.CreateDocumentNeverValid`).
- **`checkIncidentPresence` takes two arguments and does not log.** Some tests expect a custom message and error logging.
- **Not-found errors are re-wrapped.** `findOneIncident` replaces every error, not-found included, with 'Failed to find incident.'. As a result, get-by-id never answers 404.
- **Pagination is ignored.** `handleGetAllIncidents` passes `{ page, limit }` to a service that takes only a query.
- **The duplicate message uses the e-mail as given.** It compares the stored e-mail with the e-mail before trimming, while the lookup trims. A padded e-mail that clashes is therefore reported as 'Username already taken'.
- **The password pattern is checked against the stored hash.** A hash holding '.' or '/' fails it, and the registration then fails with status 500 (`AuthService.HashWithSlashOrDotCannotRegister`).

Inputs the model takes as parameters:

- **Clock:** `now`.
- **bcrypt:** an uninterpreted `hash: string -> string`.
- **Database failures:** `fault: Option<Error>`, the error the database throws on a service's first call to a model.

## Model

| member | source | states |
|---|---|---|
| Pagination.QueryValue | src/middlewares/paginationMiddleware.js:11-12 | `req.query[key]`: present iff the key is in the query string, with its value |
| Pagination.ParseInt | src/middlewares/paginationMiddleware.js:11-12 | `parseInt(value, 10)`: NaN (none) for a missing value; a negative result only from a value whose first non-blank character is '-' |
| Pagination.LeadingDigits | src/middlewares/paginationMiddleware.js:11-12 | the longest prefix of decimal digits: every character a digit, and the next one (if any) not a digit |
| Pagination.Paginate | src/middlewares/paginationMiddleware.js:11-13 | skip is always `(page-1)*limit`, and page and limit are never 0 |
| Pagination.PaginationMiddleware | src/middlewares/paginationMiddleware.js:10-17 | writes exactly `req.pagination = Paginate(page, limit)` and leaves the query unchanged |
| Pagination.DecimalString | src/middlewares/paginationMiddleware.js:11 | the decimal notation of n, whose digit value is n (inverse of the digit reading) |
| Pagination.LeadingDigitsOfDigitsThen | src/middlewares/paginationMiddleware.js:11 | the digit run of digits followed by a non-digit is those digits |
| Pagination.ParseUnsignedOfDigits | src/middlewares/paginationMiddleware.js:11 | a run of digits followed by a non-digit reads as the value of those digits |
| Pagination.ParseIntOfDigits | src/middlewares/paginationMiddleware.js:11 | `parseInt` of digits followed by a non-digit is the value of the digits |
| Pagination.ParseIntOfMinus | src/middlewares/paginationMiddleware.js:11 | a string starting with '-' parses as the negation of what follows the sign (NaN stays NaN) |
| Pagination.ParseUnsignedOfDecimal | src/middlewares/paginationMiddleware.js:11 | the decimal notation of n reads back as n |
| Pagination.ParseIntOfDecimal | src/middlewares/paginationMiddleware.js:11 | `parseInt` of a decimal number followed by a non-digit is that number |
| Pagination.ParseIntOfNegativeDecimal | src/middlewares/paginationMiddleware.js:11 | a leading '-' negates the number read |
| Pagination.FalsyParseGivesDefaults | src/middlewares/paginationMiddleware.js:11-12 | a parse of NaN or 0 gives page 1 / limit 10; any other parse is kept |
| Pagination.MissingOrNonNumericFallsBack | src/middlewares/paginationMiddleware.js:11-12 | missing or non-numeric parameters give page 1, limit 10, skip 0 |
| Pagination.ZeroFallsBack | src/middlewares/paginationMiddleware.js:11-12 | "0" falls back like a missing value |
| Pagination.NumericPrefixIsUsed | src/middlewares/paginationMiddleware.js:11-13 | "3abc" is read as 3, with skip (3-1)*limit |
| Pagination.PrefixesParsed | src/middlewares/paginationMiddleware.js:11-12 | page and limit parameters starting with non-zero numbers take those numbers |
| Pagination.NegativePageIsKept | src/middlewares/paginationMiddleware.js:11-13 | a negative page is not clamped and gives a negative skip |
| Pagination.NegativePageParsed | src/middlewares/paginationMiddleware.js:11 | page "-n" is read as -n, not clamped or defaulted |
| Pagination.NegativePageHasNegativeOffset | src/middlewares/paginationMiddleware.js:13 | a negative page with a positive limit has a negative offset |
| Pagination.SkipIsWholePages | src/middlewares/paginationMiddleware.js:13 | with page ≥ 1 and limit ≥ 1, skip is a non-negative multiple of limit; page 1 gives skip 0 |
| Pagination.WholePages | src/middlewares/paginationMiddleware.js:13 | an offset `(page-1)*limit` with page, limit ≥ 1 is a non-negative multiple of limit, and 0 on page 1 |
| Pagination.ProductSign | src/middlewares/paginationMiddleware.js:13 | the sign of the offset product |
| Pagination.Examples | src/middlewares/paginationMiddleware.js:10-17 | no parameters give (1, 10, 0); "3","5" give (3, 5, 10); "3abc" gives (3, 10, 20) |
| Pagination.ThirdPageOfFive | src/middlewares/paginationMiddleware.js:10-17 | page "3" of "5" gives (3, 5, 10) |
| Pagination.ThirdPageOfPrefix | src/middlewares/paginationMiddleware.js:10-17 | page "3abc" with no limit gives (3, 10, 20) |
| Password.AllowedIsNotLineTerminator | src/utils/validatePassword.js:11 | every character of the class is matched by `.` |
| Password.ValidatePassword | src/utils/validatePassword.js:9-14 | `passwordRegex.test(password)` (no ensures of its own; `ValidatePasswordIsPolicy` states what it accepts) |
| Password.LooksAheadIffHas | src/utils/validatePassword.js:11 | on allowed characters, a look-ahead `(?=.*[c])` holds iff some character is in c |
| Password.ValidatePasswordIsPolicy | src/utils/validatePassword.js:9-14 | the regular expression accepts exactly: ≥ 8 characters, all in `[A-Za-z\d@$!%*?&]`, with a lower-case letter, an upper-case letter, a digit and a special character |
| Password.ShortPasswordFails | src/utils/validatePassword.js:11 | fewer than 8 characters never pass |
| Password.ForeignCharacterFails | src/utils/validatePassword.js:11 | one character outside the class makes the password fail |
| Password.AppendKeepsValid | src/utils/validatePassword.js:11 | appending an allowed character keeps a password valid |
| Password.Repeat | src/utils/validatePassword.js:11 | n copies of a character, used to state the missing upper bound |
| Password.PaddingKeepsValid | src/utils/validatePassword.js:11 | no upper length bound: any number of allowed characters may be appended |
| Password.PolicyByWitnesses | src/utils/validatePassword.js:11 | one witness of each class in an allowed string of ≥ 8 characters suffices |
| Password.SeedPasswordPasses | src/db/seeds/usersSeed.js:8 | 'Pass123!' passes |
| Password.DocumentedPasswordPasses | src/routes/authRoutes.js:32 | 'Password123!' passes |
| Password.WeakPasswordsFail | src/utils/validatePassword.js:11 | a missing class, a space or '#' fails |
| Password.NoUpperCaseFails | src/utils/validatePassword.js:11 | a password with no upper-case letter never passes |
| JsText.TrimStart | src/models/userModel.js:12 | a suffix of the input; everything removed is white space, and the result does not start with white space |
| JsText.TrimEnd | src/models/userModel.js:12 | a prefix of the input; everything removed is white space, and the result does not end with white space |
| JsText.TrimIsTrimmed | src/models/userModel.js:12 | the `trim` setter's result has no leading or trailing white space |
| JsText.TrimOfTrimmed | src/models/userModel.js:12 | trimming a trimmed string changes nothing |
| JsText.TrimIdempotent | src/models/userModel.js:12 | trimming twice is trimming once |
| JsText.TrimOfMissing | src/models/incidentModel.js:12-15 | a missing path trims to "" |
| JsText.Utf16Length | src/models/userModel.js:11 | JavaScript's `length`: never less than the number of characters |
| JsText.Utf16LengthIsLengthIff | src/models/userModel.js:11 | the length in code units equals the number of characters iff no character is outside the Basic Multilingual Plane |
| JsText.Utf16LengthExample | src/models/userModel.js:11 | an emoji followed by 'a' has length 3 |
| UserModel.WithoutPassword | src/services/userService.js:47-49 | the copy has no password and differs from the user in nothing else |
| UserModel.UserValid | src/models/userModel.js:7-72 | the schema's validators on every path (no ensures; `NewUserValidIff` and `ValidIffPathsValid` state it) |
| UserModel.NewUser | src/services/userService.js:40-44 | `User.create`: the new user has the given key, and its username, e-mail and password are exactly the trimmed inputs |
| UserModel.NewUserPaths | src/models/userModel.js:7-30 | each required path of a new user is valid iff the trimmed input passes that path's validator |
| UserModel.ValidIffPathsValid | src/models/userModel.js:7-72 | with the default paths valid, a user is valid iff username, e-mail and password are |
| UserModel.NewUserDefaults | src/models/userModel.js:31-72 | a new user is an active TeamMember with no profile, no last login, no deletion date and no OAuth link |
| UserModel.NewUserValidIff | src/models/userModel.js:7-30 | a new user is valid iff its trimmed username has ≥ 3 UTF-16 code units (JavaScript's `length`), its trimmed e-mail matches `.+@.+\..+` and its trimmed password passes the password rule |
| UserModel.DefaultsPassSchema | src/models/userModel.js:31-72 | the default role, the empty profile fields and the empty avatar pass their validators |
| UserModel.EmailMatchesIsNonEmpty | src/models/userModel.js:16-19 | a string matching the e-mail pattern is non-empty, so `required` adds nothing to `match` |
| UserModel.ValidPasswordIsLong | src/models/userModel.js:24-26 | a password passing the pattern has at least 8 UTF-16 code units, so `minLength: 8` adds nothing |
| UserModel.HashWithSlashOrDotFails | src/models/userModel.js:24-28 | a stored password holding '.' or '/' fails the schema |
| UserModel.EmailMatchesInContext | src/models/userModel.js:19 | the e-mail pattern is unanchored: text around a match keeps it matching |
| UserModel.EmailExamples | src/models/userModel.js:19 | 'admin@test.com' matches; 'admin.test@com' does not |
| UserModel.AvatarMatchExample | src/models/userModel.js:51-58 | an https URL ending in '.png' matches; the empty default passes |
| UserModel.AvatarSchemeExample | src/models/userModel.js:55 | an ftp URL does not match |
| UserModel.AvatarExtensionExample | src/models/userModel.js:55 | a '.bmp' URL does not match |
| UserModel.ApplyUserPatch | src/services/userService.js:102-106 | path by path: a supplied username, e-mail or full name becomes its trimmed value, any other supplied path its value, and a missing path keeps the stored value; `_id` and the password never change; an empty patch changes nothing |
| UserModel.ApplyUserPatchKeepsValid | src/models/userModel.js:7-59 | a patch passing the update validators keeps a valid user valid |
| UserModel.StoreKeepsUnique | src/models/userModel.js:10-17 | storing a user whose username and e-mail no other user has keeps both unique |
| UserModel.InsertKeepsValid | src/models/userModel.js:7-30 | inserting a valid user with free username and e-mail at the next key keeps the table invariant |
| UserModel.ReplaceKeepsValid | src/models/userModel.js:7-30 | replacing a stored user by a valid one whose username and e-mail no other user has keeps the table invariant |
| UserModel.PatchKeepsValid | src/services/userService.js:102-106 | replacing a stored user by its patched version, when the patch passes the validators and takes no other user's identity, keeps the table invariant |
| UserModel.UserTable.constructor | src/models/userModel.js:77 | an empty table is valid |
| UserModel.UserTable.FindOne | src/services/userService.js:66 | the smallest matching key; no smaller key matches; none means no key below the next one matches, and, under the table invariant, no stored user matches |
| UserModel.UserTable.Create | src/services/userService.js:40-44 | validation first, then the unique indexes, then the insert at the next key; the table stays valid |
| UserModel.UserTable.Insert | src/models/userModel.js:10-17 | a validated document is inserted at the next key unless its username or e-mail is taken, which changes nothing; the table stays valid |
| UserModel.UserTable.FindOneAndUpdate | src/services/userService.js:102-106 | the patch is validated before the lookup; the first match is replaced by its patched version unless that clashes with another user |
| UserModel.UserTable.ReplacePatched | src/services/userService.js:102-106 | the matched user replaced by its patched version, unless that takes another user's username or e-mail, which changes nothing; the table stays valid |
| UserModel.UserTable.Save | src/services/userService.js:145 | the whole document is validated and written back over the stored one, unless its username or e-mail is taken |
| UserModel.UserTable.Replace | src/models/userModel.js:10-17 | a validated document replaces the stored one at its key unless its username or e-mail is another user's, which changes nothing; the table stays valid |
| IncidentModel.NewEntry | src/models/incidentModel.js:97-107 | a discussion entry keeps its message and author and takes `now` as timestamp by default; it is valid iff message and author are given |
| IncidentModel.NewEntries | src/models/incidentModel.js:97-110 | each supplied entry is built in order |
| IncidentModel.NewEntriesValid | src/models/incidentModel.js:97-110 | the built discussion is valid iff every supplied entry has a message and an author |
| IncidentModel.IncidentValid | src/models/incidentModel.js:12-110 | the schema's validators on every path (no ensures; `NewIncidentValidIff` and `ValidIffPathsValid` state it) |
| IncidentModel.NewIncident | src/services/incidentService.js:8-25 | `new Incident(...)`: path by path, the given key; title and description are the trimmed inputs; status 'Open' and severity 'Low' when missing; tags, links and related incidents [] and resolution details '' when missing; the discussion is the supplied entries built in order; every other path as given |
| IncidentModel.NewIncidentValidIff | src/models/incidentModel.js:12-110 | a new incident is valid iff the five required paths are given and every given path passes its validator (enums, bounds of 1000 UTF-16 code units, ≤ 10 tags, entries) |
| IncidentModel.NewIncidentTrimmedPaths | src/models/incidentModel.js:12-27 | stored title and description are valid iff given and valid once trimmed |
| IncidentModel.NewIncidentRequiredPaths | src/models/incidentModel.js:17-32 | stored identifier and environment are valid iff given and valid |
| IncidentModel.NewIncidentOptionalPaths | src/models/incidentModel.js:40-110 | stored status, severity and discussion are valid iff missing (valid default) or valid |
| IncidentModel.NewIncidentOtherPaths | src/models/incidentModel.js:33-75 | the creator is stored as given; missing tags and resolution details take valid defaults |
| IncidentModel.EnvironmentOfMissing | src/models/incidentModel.js:28-32 | a missing environment is not one of the three environments |
| IncidentModel.DefaultsOfMissing | src/models/incidentModel.js:40-82 | the defaults 'Open' and 'Low' are members of their enums |
| IncidentModel.ValidIffPathsValid | src/models/incidentModel.js:12-110 | a document is valid iff each of its paths is: the schema check is the conjunction of the path checks |
| IncidentModel.ApplyFields | src/services/incidentService.js:64-67 | path by path: a supplied title or description becomes its trimmed value, a supplied discussion its built entries, any other supplied path its value; a missing path keeps the stored value |
| IncidentModel.ApplyUpdate | src/controllers/incidentController.js:129-132 | a `$push` appends exactly one entry at the end of `caseDiscussion` and keeps the earlier ones |
| IncidentModel.ApplyUpdateKeepsValid | src/models/incidentModel.js:12-110 | an update passing the update validators keeps a valid incident valid |
| IncidentModel.TagBound | src/models/incidentModel.js:61-68 | ten tags pass, eleven do not |
| IncidentModel.ById | src/controllers/incidentController.js:27-29 | `{ _id: id }` selects exactly the key id |
| IncidentModel.Everything | src/controllers/incidentController.js:45 | `{}` selects every incident |
| IncidentModel.Selected | src/services/incidentService.js:53 | the keys a query selects |
| IncidentModel.UpdatedWhere | src/services/incidentService.js:83-85 | every selected incident updated, every other unchanged, no key added or removed |
| IncidentModel.FirstIncident | src/services/incidentService.js:37 | `findOne`: a stored, matching incident with no smaller matching key; none iff nothing matches |
| IncidentModel.IncidentStore.constructor | src/models/incidentModel.js:115 | an empty store is valid |
| IncidentModel.InsertKeepsValid | src/models/incidentModel.js:12-110 | inserting a valid incident with a free identifier at the next key keeps the store invariant |
| IncidentModel.ReplaceKeepsValid | src/models/incidentModel.js:17-21 | replacing a stored incident by a valid one whose identifier no other incident has keeps the store invariant |
| IncidentModel.IncidentStore.Find | src/services/incidentService.js:53 | every incident the query selects, and only those |
| IncidentModel.IncidentStore.FindOne | src/services/incidentService.js:37 | the returned incident is stored at its key and matches; no smaller key matches; none iff nothing is selected |
| IncidentModel.IncidentStore.Create | src/services/incidentService.js:8-25 | validation, then the unique `incidentAutoId`, then the insert; the store stays valid |
| IncidentModel.IncidentStore.Insert | src/models/incidentModel.js:17-21 | a validated document is inserted at the next key unless its `incidentAutoId` is taken, which changes nothing; the store stays valid |
| IncidentModel.IncidentStore.FindOneAndUpdate | src/services/incidentService.js:64-67 | validators before the lookup; the first match is replaced by its update, unless its identifier is taken |
| IncidentModel.IncidentStore.UpdateMany | src/services/incidentService.js:83-85 | every selected incident is updated and the count returned; a refused update changes nothing |
| IncidentModel.IncidentStore.FindOneAndDelete | src/services/incidentService.js:96 | the first match is removed and returned |
| IncidentModel.IncidentStore.DeleteMany | src/services/incidentService.js:112 | every selected incident is removed and the count returned |
| PostMortemModel.NewActionItem | src/models/postmortemModel.js:20-29 | an action item's description is trimmed and its status defaults to 'Pending' |
| PostMortemModel.NewActionItems | src/models/postmortemModel.js:20-29 | each supplied item is built in order |
| PostMortemModel.NewActionItemsValidIff | src/models/postmortemModel.js:22-27 | the built items are valid iff each has a non-blank description and a status in Pending / In Progress / Completed |
| PostMortemModel.PostMortemValid | src/models/postmortemModel.js:5-39 | the schema's validators (no ensures; `NewPostMortemValidIff` and `StoredValidIffCreatable` state it) |
| PostMortemModel.NewPostMortem | src/models/postmortemModel.js:5-39 | a post-mortem built from the supplied paths with the setters and defaults (no ensures; `NewPostMortemDefaults`, `NewPostMortemTrimmed` and `RebuildIsIdentity` state it) |
| PostMortemModel.NewPostMortemValidIff | src/models/postmortemModel.js:5-39 | a new post-mortem is valid iff incidentId and createdBy are given, rootCause and impact are not blank, and every action item is valid |
| PostMortemModel.NewPostMortemDefaults | src/models/postmortemModel.js:26-32 | no action items, lessonsLearned '' and status 'Pending' where nothing is given |
| PostMortemModel.NewPostMortemTrimmed | src/models/postmortemModel.js:10-34 | rootCause, impact, lessonsLearned and every action description are stored trimmed |
| PostMortemModel.ItemFieldsOf | src/models/postmortemModel.js:20-29 | the supplied form of stored action items |
| PostMortemModel.FieldsOf | src/models/postmortemModel.js:5-39 | the supplied form of a stored post-mortem |
| PostMortemModel.RebuildItems | src/models/postmortemModel.js:22 | rebuilding stored, trimmed action items gives them back |
| PostMortemModel.RebuildIsIdentity | src/models/postmortemModel.js:5-39 | building from a stored post-mortem's own fields gives it back: setters and defaults are idempotent |
| PostMortemModel.StoredValidIffCreatable | src/models/postmortemModel.js:5-39 | a stored post-mortem is valid iff its own fields could create it |
| PostMortemModel.BlankRootCauseFails | src/models/postmortemModel.js:10-14 | a root cause of spaces alone is trimmed to "" and refused |
| IncidentService.Rethrown | src/services/incidentService.js:44-46 | a value passes unchanged; every error becomes one plain error with the fixed message |
| IncidentService.CreateFields | src/services/incidentService.js:8-25 | title, description, environment, createdBy copied; status 'Open' and severity 'Low' when falsy; `resolvedAt` kept unless missing or 0 (falsy), which give null; '' and [] defaults; incidentAutoId and other paths dropped |
| IncidentService.CreateDefaults | src/services/incidentService.js:14-24 | a request with no optional paths builds an Open, Low incident with no assignee, tags, links or discussion |
| IncidentService.CreateDocumentNeverValid | src/services/incidentService.js:8-25 | the built document never passes validation, because incidentAutoId is never set |
| IncidentService.CreateIncident | src/services/incidentService.js:6-32 | the created incident, or 'Failed to create incident.' with the store unchanged |
| IncidentService.FindOneIncident | src/services/incidentService.js:35-48 | the first match; nothing found and any error both give 'Failed to find incident.' |
| IncidentService.FindManyIncidents | src/services/incidentService.js:51-59 | the query goes to the store unchanged; every match is returned, or 'Failed to find incidents.' |
| IncidentService.UpdateOneIncident | src/services/incidentService.js:62-78 | the first match updated and returned; no match, a refused update, a taken identifier or an error give 'Failed to update incident.' and change nothing |
| IncidentService.UpdateManyIncidents | src/services/incidentService.js:81-91 | every match updated and counted, or 'Failed to update incidents.' with nothing changed |
| IncidentService.DeleteOneIncident | src/services/incidentService.js:94-107 | succeeds iff something matches; the first match is removed and returned, or 'Failed to delete incident.' |
| IncidentService.DeleteManyIncidents | src/services/incidentService.js:110-118 | every match removed and counted, or 'Failed to delete incidents.' |
| IncidentPresence.CheckIncidentPresence | src/utils/checkIncidentPresence.js:1-7 | the query goes to `findOne` unchanged; success iff something is found, and the found incident is returned unchanged; nothing found gives 'Incident not found.'; a lookup error propagates unchanged |
| IncidentPresence.NotFoundMeansNoMatch | src/utils/checkIncidentPresence.js:3-5 | if the lookup's own errors never say 'Incident not found.', that message means nothing matched |
| IncidentController.ErrorStatus | src/controllers/incidentController.js:33 | 404 iff the message is 'Incident not found.', else 400 |
| IncidentController.Failure | src/controllers/incidentController.js:33-34 | the failure status with `{ message }` |
| IncidentController.Answer | src/controllers/incidentController.js:83-87 | 200 with the incident, or the failure |
| IncidentController.CreateAnswer | src/controllers/incidentController.js:14-22 | 201 with the created incident, or 400 with the error's message |
| IncidentController.PresenceById | src/controllers/incidentController.js:73-78 | the presence check of `{ _id: id }`: the stored incident, 'Incident not found.', or the database error |
| IncidentController.HandleCreateIncident | src/controllers/incidentController.js:14-22 | always 400 'Failed to create incident.', with nothing stored |
| IncidentController.HandleGetIncidentById | src/controllers/incidentController.js:25-36 | 200 with the stored incident iff it exists and the database does not fail; otherwise 400 'Failed to find incident.', never 404 |
| IncidentController.HandleGetAllIncidents | src/controllers/incidentController.js:39-54 | 200 with every stored incident (pagination has no effect), or 400 |
| IncidentController.HandleSearchIncidents | src/controllers/incidentController.js:57-68 | 200 with exactly the matches under `incidentsQuery`, or 400 |
| IncidentController.HandleUpdateIncident | src/controllers/incidentController.js:71-89 | 404 for an unknown id; otherwise the incident at that `_id` updated and returned with 200, or 400 'Failed to update incident.'; only that incident changes; 200 whenever there is no database error, the body passes the update validators and the updated `incidentAutoId` is no other incident's; 400 when the body fails them |
| IncidentController.HandleDeleteIncident | src/controllers/incidentController.js:92-109 | 404 for an unknown id; otherwise 200 with the removed incident, and only it is removed |
| IncidentController.HandleAddDiscussion | src/controllers/incidentController.js:112-140 | 400 'Message and author are required.' before any lookup; 404 for an unknown id; otherwise exactly one `{message, author}` entry appended at the end, with 200 |
| IncidentController.AsWrittenResponse | src/controllers/incidentController.js:3-9 | as written, every handler answers 400 with the thrown TypeError's message and never 404; only the discussion guard answers its own message |
| IncidentController.AsWrittenLosesStoredIncident | src/controllers/incidentController.js:27-30 | for a stored incident: 400 as written, 200 with the incident once the service is bound |
| IncidentController.AsWrittenNeverNotFound | src/controllers/incidentController.js:33 | as written, no handler ever answers 404 |
| ErrorHandler.ErrorHandlerMiddleware | src/middlewares/errorHandlerMiddleware.js:3-19 | body status always 'error'; an operational error keeps its message and its status, or gets 400; any other error gives 500 'Something went wrong.' |
| ErrorHandler.AppErrorsKeepTheirStatus | src/middlewares/errorHandlerMiddleware.js:6-11 | an AppError answers with its own status and message; a plain Error answers 500 with the generic message |
| ErrorHandler.NonOperationalErrorsAreIndistinguishable | src/middlewares/errorHandlerMiddleware.js:14-18 | the response does not depend on a non-operational error at all |
| ExpressValidator.Lookup | src/middlewares/validateIncidentMiddleware.js:11 | a body path's value, if present |
| ExpressValidator.NotEmptyErrors | src/middlewares/validateIncidentMiddleware.js:11-12 | `notEmpty().withMessage(m)`: no error iff the field is present and non-empty, else one error |
| ExpressValidator.IsInErrors | src/middlewares/validateIncidentMiddleware.js:13-17 | `isIn(list).withMessage(m)`: no error iff the value (missing reads as "") is in the list |
| ExpressValidator.Respond | src/middlewares/validateIncidentMiddleware.js:18-23 | `next` iff there are no errors; otherwise 400 with every error |
| ValidateIncident.IncidentErrors | src/middlewares/validateIncidentMiddleware.js:11-17 | no error iff title and description are non-empty and environment is one of the three; each message is present iff its check fails |
| ValidateIncident.ValidateIncidentMiddleware | src/middlewares/validateIncidentMiddleware.js:11-23 | `next` iff all three checks pass; otherwise 400 with every failed check |
| ValidateIncident.Examples | src/middlewares/validateIncidentMiddleware.js:11-23 | a full request passes; one without a title gets exactly the title error |
| ValidateIncidentCopy.ValidateIncidentRules | src/middleware/validateIncidentMiddleware.js:3-18 | accepts and refuses exactly what the first copy does, with the same errors |
| ValidateDiscussion.DiscussionErrors | src/middlewares/validateDiscussionMiddleware.js:11-12 | no error iff message and author are present and non-empty; each message is present iff its check fails |
| ValidateDiscussion.ValidateDiscussionMiddleware | src/middlewares/validateDiscussionMiddleware.js:11-18 | `next` iff both are present; otherwise 400 with the failed checks |
| UserService.IdentityQuery | src/services/userService.js:24-26 | `$or` of e-mail and username, with the trim setters applied to the filter values |
| UserService.DuplicateMessage | src/services/userService.js:28-33 | 'User already exists' iff the found user's e-mail equals the e-mail as given, else 'Username already taken' |
| UserService.DuplicateMessageNamesTheClash | src/services/userService.js:24-33 | 'User already exists' means the e-mail clashes; 'Username already taken' means the username clashes, or a padded e-mail does |
| UserService.HasRequired | src/services/userService.js:19-21 | username, e-mail and password all truthy (no ensures; `CreateAttempt` states its role) |
| UserService.InsertOutcome | src/services/userService.js:23-49 | a database error, then the duplicate lookup (400 message), then create with the hashed password; success iff no user has the trimmed username or e-mail and the new document is valid |
| UserService.InvalidDocumentIsRefused | src/services/userService.js:40-44 | with a free identity and no database error, a document failing the schema gives the validation error |
| UserService.InsertNew | src/services/userService.js:23-44 | the table gains exactly the new user on success and is unchanged otherwise |
| UserService.CreateAttempt | src/services/userService.js:19-21 | missing username, e-mail or password fails with 'Missing required fields' before any lookup |
| UserService.CreationRethrown | src/services/userService.js:47-52 | a success has no password; every failure becomes 'Error creating user' with the inner status or 500 |
| UserService.CreationStatuses | src/services/userService.js:50-52 | a missing field gives 400; a schema or index refusal gives 500 |
| UserService.CreateNewUserService | src/services/userService.js:16-54 | the result is the rethrown attempt; the table gains the new user exactly when the attempt succeeds |
| UserService.CreatedUserStoresHash | src/services/userService.js:36-44 | the stored password is the trimmed hash; the new user is an active TeamMember at the next key; identities stay unique |
| UserService.FindUserByQueryService | src/services/userService.js:64-80 | the first match without its password; nothing found and any error give 'Error finding user' with 500 |
| UserService.Sanitize | src/services/userService.js:98-100 | `_id` and `password` are dropped, and every other path is kept as given |
| UserService.SanitizeIgnoresIdAndPassword | src/services/userService.js:98-102 | the `_id` and password given make no difference, and the update changes neither |
| UserService.UpdateUserByQueryService | src/services/userService.js:95-120 | the first match with the sanitized data applied, without its password, and its password unchanged in the table; success when valid, found and not clashing; any failure gives 'Failed to update User.' (500) and changes nothing |
| UserService.SoftDeleted | src/services/userService.js:143-144 | inactive, deleted at `now`, otherwise the same user |
| UserService.SoftDeletedCanBeSaved | src/services/userService.js:143-145 | the soft-deleted user still passes the schema and keeps its own username and e-mail |
| UserService.DeleteUserByQueryService | src/services/userService.js:130-158 | succeeds iff a user matches and is active; it then stays in the table, inactive with `deletedAt` set, and is returned without its password; otherwise 'Failed to delete User.' (500) and nothing changes |
| AuthService.RegisterAttempt | src/services/authService.js:19-49 | required paths, then the password rule on the password as given, then the same steps as account creation |
| AuthService.RegisterNewUserService | src/services/authService.js:16-61 | the result is the rethrown attempt; the table gains the new user exactly when the attempt succeeds |
| AuthService.PasswordRuleBeforeLookup | src/services/authService.js:24-28 | a password failing the rule gives 'Error creating user' with 400 whatever the table holds and whether or not the database fails |
| AuthService.RegisterIsCreateWithPasswordRule | src/services/authService.js:19-51 | with a valid password, registration is exactly account creation |
| AuthService.RegisteredHashPassesRule | src/services/authService.js:44-50 | a registered user's stored password is the trimmed hash, which itself passes the password rule |
| AuthService.HashWithSlashOrDotCannotRegister | src/services/authService.js:44-60 | a hash holding '.' or '/' makes registration fail with 'Error creating user' and 500 |
| Common.AppError | src/services/userService.js:2 | an operational error with the given status |
| Common.PlainError | src/services/incidentService.js:30 | a plain error: no status, not operational |
| Common.NumberOr | src/services/userService.js:52 | `n || fallback` on a possibly missing number (a status code, or a `parseInt` result where NaN is missing): missing and 0 fall back, any other number is kept |
| Common.OrElse | src/services/incidentService.js:15 | `s || fallback` on a string |
| Common.FirstMatch | src/services/incidentService.js:37 | the smallest matching key in range; no smaller key matches; none iff nothing in range matches |
| Common.AllMatches | src/services/incidentService.js:53 | exactly the matching documents in range, no more of them than keys in range |
| Common.FirstMatchIsUnique | src/services/incidentService.js:37 | a matching key with no smaller match is the first match |

## Left out

- Casting of ObjectId strings, and `validateObjectIdMiddleware`: identifiers are natural numbers, already cast. A missing or null reference is `None`.
- Values of the wrong JavaScript type: numbers where strings are expected, arrays, objects. Every path holds a value of its schema type or is missing.
- Setting a path to `null` in an update: an update either supplies a value or leaves the path alone.
- Mongoose casting errors, nested `profile` update semantics (a whole `profile` object replacing the nested one), and the `createdAt`/`updatedAt` timestamps.
- Projections other than `findUserByQueryService`'s default `{ password: 0 }`.
- `updateMany` is all-or-nothing in the model. MongoDB can stop part-way through on a duplicate key.
- Concurrency between requests: every operation runs alone.
- Logging (`logError`, `console.error`) is I/O.
- The clock is the parameter `now`.
- bcrypt is the uninterpreted parameter `hash`, with the cost factor fixed. Hash comparison, login, JWT issuing and verification are not part of this model.
- Routing, server wiring, Swagger, the user and auth controllers, and `validateUserExistsMiddleware` are request plumbing.
- `models/incident.js` is not part of this model; the incident service is modelled over `incidentModel.js`.
- `AppError` is not part of this model. It is modelled as an operational error carrying its message and its status, with status 400 when none is given, as its import comment states.
- The services' database errors are one `fault` parameter: the error the first call to the model throws. A failure of a later call (such as `save` after `findOne`) comes from the model's own rules.
- express-validator: `check` reads every request location; the model reads only the body, whose values are strings. The `value` of an error is the raw value or absent.
- IncidentController.HandleCreateIncident: its contract does not describe the 201 success answer, because the service can never succeed; `CreateAnswer` states the 201/400 mapping on its own.
- Pagination.ParseInt: reads the digits as an exact integer. JavaScript's `parseInt` returns a double. Above `Number.MAX_SAFE_INTEGER` (2^53 - 1) the source rounds, so "9007199254740993" reads as 9007199254740992, and a run of a few hundred digits reads as Infinity. So the round-trip lemmas `ParseUnsignedOfDecimal`, `ParseIntOfDecimal`, `ParseIntOfNegativeDecimal` and the lemmas built on them are stated only up to `MaxSafeInteger`.
- Pagination.Paginate: the offset `(page - 1) * limit` is exact; in the source it is a double product, rounded above 2^53. `NumericPrefixIsUsed` is stated only where that product is at most `MaxSafeInteger`.
- `findAllUsersService`, imported by the user controller, does not exist in the service, so it is not modelled.

## Findings

| source | as written | input that shows it | evidently intended | confidence | as-written member | corrected member |
|---|---|---|---|---|---|---|
| src/controllers/incidentController.js:3-9 | imports `createNewIncidentService`, `findIncidentByQueryService`, `findIncidentsByQueryService`, `updateIncidentByQueryService`, `deleteIncidentByQueryService`, none of which `incidentService.js` exports, and passes the (undefined) find function as `checkIncidentPresence`'s model | GET `/incidents/:id` for a stored incident answers 400 "findIncidentByQueryService is not a function"; no handler can ever answer 404 | the handlers call `createIncident`, `findOneIncident`, `findManyIncidents`, `updateOneIncident`, `deleteOneIncident`, and the presence check uses the `Incident` model's `findOne` | high, not executed | IncidentController.AsWrittenResponse | IncidentController.HandleGetIncidentById |
