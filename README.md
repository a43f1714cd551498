# api-base core: user accounts, audit-log queries and the log reader

A Dafny model of three parts of the `api-base` PHP service.

- **The user account manager** (`UserManager`). It registers users with trimmed, length-checked fields and a unique email. It resolves ids and emails in both directions, reports account information and status, and grants and revokes roles in their normal form (`ROLE_` plus upper case). It also changes the status, deletes users, resets passwords and records login data. Each successful registration, deletion, status change, password reset and role change writes one audit event; the login-time update writes none.
  - The model is a class. Its fields are the user table (a map from id to record), the audit events written so far and the next id to hand out.
  - The error handler of the service aborts the request. In the model it is a `Failed` outcome returned at that point.
  - A failing database flush is an input flag. When it is set, nothing is stored.
- **The audit-log repository** (`LogRepository`). It has three paginated single-equality queries, newest first, and a joined query that adds the email of the referenced user and accepts any number of equality criteria.
  - These are pure functions over the log table, a map from primary key to row.
  - SQL `ORDER BY id DESC`, `LIMIT` / `OFFSET`, `= NULL` and `LEFT JOIN` are written out. `=` between non-null values is exact equality of values of the same type (see "## Left out").
- **The `app:log:reader` console command** (`LogReaderCommand`). Exactly one of `--status`, `--user` and `--ip` must be given, where PHP truthiness decides what counts as given. The command normalises the status keywords, runs the branch's query for the whole match, returns `INVALID` when nothing is found, and renders the rows oldest first.
  - The decisions are functions.
  - The row-building loop is a method with loop invariants.

The model follows the code where its behaviour is easy to misread:
- `resetUserPassword` stores the generated 16-character string itself as the password and returns it; no hash is applied, unlike registration.
- The status-change event ends with `old status was: <old status>`, although a test of the manager expects the message without that suffix.
- The status, reset and role operations read the user's email for the audit event only after the change is flushed. So a user without an email ends with the change stored, an error reported and no audit event.

Files:
- `common.dfy`: `Option` and `Result`.
- `strings.dfy`: PHP `trim`, `strtoupper` and `str_starts_with` on `seq<char>`, one character per byte.
- `entities.dfy`: the `User` and `Log` records.
- `accounts.dfy`: the manager.
- `log_queries.dfy`: the repository.
- `log_reader.dfy`: the command.

## Model

| member | source | states |
|---|---|---|
| Strings.TrimStart | src/Manager/UserManager.php:134-137 | the result is a suffix of the input, every removed character is one of PHP's trim characters, and the result does not start with one |
| Strings.TrimEnd | src/Manager/UserManager.php:134-137 | the result is a prefix of the input, every removed character is a trim character, and the result does not end with one |
| Strings.Trim | src/Manager/UserManager.php:134-137 | the result is the factor of the input left after removing the leading trim characters and then the trailing ones: it equals `s[k..k+|r|]`, everything before `k` and from `k+|r|` on is a trim character, and neither end of the result is one |
| Strings.TrimIdempotent | src/Manager/UserManager.php:134-137 | trimming a trimmed value changes nothing, so a stored email is its own trimmed form |
| Strings.Upper | src/Manager/UserManager.php:509 | `strtoupper` keeps the length, leaves no ASCII lower-case letter and maps each character on its own |
| Accounts.NormalizeRole | src/Manager/UserManager.php:509-512 | a normalised role starts with `ROLE_` and has no lower-case letter, and it is the input's length or five characters longer |
| Accounts.NormalizeRoleEndsWithRole | src/Manager/UserManager.php:509-512 | the normalised role ends with the upper-cased input, and keeps the input's length exactly when the upper-cased input already starts with `ROLE_` |
| Accounts.NormalizedRoleKeepsOtherBytes | src/Manager/UserManager.php:540-543 | `a-1` normalises to `ROLE_A-1`: a granted role may hold bytes other than upper-case letters and underscores |
| Accounts.RevokingDefaultRoleLeavesNone | src/Manager/UserManager.php:600-625 | `user` normalises to `ROLE_USER`, so revoking it from a user whose only role is `ROLE_USER` leaves no role |
| Accounts.NormalizeRoleFixedPoints | src/Manager/UserManager.php:509-512 | a role is unchanged by normalisation exactly when it already starts with `ROLE_` and has no lower-case letter |
| Accounts.NormalizeRoleIdempotent | src/Manager/UserManager.php:540-543 | normalising twice equals normalising once, so the has-role check inside a grant or revoke sees the same role |
| Accounts.RegistrationError | src/Manager/UserManager.php:133-184 | a registration is refused exactly when a trimmed length is out of bounds, the trimmed email is taken, or the visitor IP or agent is null or empty; each check's error is the result when every earlier check passes and it fails, in the order email, first name, last name, password lengths, duplicate email, visitor info |
| Accounts.RegisteredEmailIsTaken | src/Manager/UserManager.php:166-171 | after a registration is stored, its trimmed email is taken, a second registration whose email trims to the same value is refused as a duplicate, and emails stay unique |
| Accounts.UserManager.constructor | src/Manager/UserManager.php:31-45 | the manager starts over a well-keyed store with unique emails, no audit events and the given hasher |
| Accounts.UserManager.GetUserIdByEmail | src/Manager/UserManager.php:76-93 | a found id belongs to a stored user with that email; not-found happens exactly when no stored user has that email |
| Accounts.UserManager.CheckIfUserEmailAlreadyRegistered | src/Manager/UserManager.php:64-67 | true exactly when the id look-up by this email succeeds |
| Accounts.UserManager.GetUserEmailById | src/Manager/UserManager.php:102-119 | succeeds exactly when the user exists and has an email, and returns that email; a missing user and a null email give the same error |
| Accounts.UserManager.EmailIdRoundTrip | src/Manager/UserManager.php:76-119 | looking up the id of the email found for an id gives that id back |
| Accounts.UserManager.GetUserInfo | src/Manager/UserManager.php:230-278 | not-found for a missing user, info-not-found when any required field is null, otherwise every returned field equals the stored one |
| Accounts.UserManager.GetUserStatus | src/Manager/UserManager.php:420-445 | user-not-found, status-not-found on a null status, otherwise the stored status, which agrees with the status in the account information |
| Accounts.UserManager.CheckIfUserHasRole | src/Manager/UserManager.php:506-527 | fails only for a missing user, and answers whether the normalised role is among the user's roles |
| Accounts.UserManager.RegisterUser | src/Manager/UserManager.php:131-221 | the outcome is the first failed check, else a flush failure, else success; on success exactly one active `ROLE_USER` user with the trimmed fields and hashed trimmed password is stored under the next id, with one audit event, and the email is then registered and its account information complete; on failure nothing changes; the store stays well keyed with unique emails |
| Accounts.UserManager.UpdateUserDataOnLogin | src/Manager/UserManager.php:287-319 | an unknown email fails; otherwise only that user's login time, IP and agent change, `Unknown` standing in for a null visitor value; no audit event |
| Accounts.UserManager.DeleteUser | src/Manager/UserManager.php:328-362 | fails when the id has no email (missing user included); on success exactly that user is removed and one event names the removed email |
| Accounts.UserManager.UpdateUserStatus | src/Manager/UserManager.php:372-411 | a missing user fails; otherwise, unless the flush fails, only the status changes and the status query then answers the new status; the event carries the new and the old status, and a null email fails after the change is stored |
| Accounts.UserManager.ResetUserPassword | src/Manager/UserManager.php:454-496 | a missing user fails; otherwise, unless the flush fails, the 16-character generated string becomes the stored password and is returned, with one event naming the email |
| Accounts.UserManager.AddRoleToUser | src/Manager/UserManager.php:537-587 | missing user, then already-granted role, then flush failure; otherwise the normalised role is added and nothing else changes, and the has-role check then answers true |
| Accounts.UserManager.RemoveRoleFromUser | src/Manager/UserManager.php:597-647 | missing user, then role-not-granted, then flush failure; otherwise the normalised role is removed and nothing else changes, and the has-role check then answers false |
| LogQueries.Offset | src/Repository/LogRepository.php:37 | the offset is zero up to page 1 and `(page - 1) * limit` from page 1 on |
| LogQueries.PageSize | src/Repository/LogRepository.php:42-43 | the number of rows `LIMIT limit OFFSET offset` keeps of `total`: zero past the end, otherwise `limit` or all the rows left, whichever is fewer |
| LogQueries.ProductIsMultiplication | src/Repository/LogRepository.php:37 | the repeated-addition product used for offsets equals `(page - 1) * limit` |
| LogQueries.ProductSign | src/Repository/LogRepository.php:104 | an unclamped offset is negative exactly when the page is before the first and the page size is positive |
| LogQueries.ProductGrows | src/Repository/LogRepository.php:37 | a later page starts at least one full page after an earlier one |
| LogQueries.LaterPagesStartLater | src/Repository/LogRepository.php:37 | from page 1 on, a later page's offset is at least one full page past an earlier page's |
| LogQueries.DescendingIds | src/Repository/LogRepository.php:41 | the keys, each once, in strictly decreasing order (`ORDER BY id DESC`) |
| LogQueries.InIdOrder | src/Repository/LogRepository.php:39-44 | the rows at the chosen keys, one per key, and, when rows carry their own key, in decreasing key order with each row stored under its id among the chosen keys |
| LogQueries.MatchingKeys | src/Repository/LogRepository.php:40 | exactly the keys whose row meets the filter |
| LogQueries.Matching | src/Repository/LogRepository.php:39-44 | one row per matching key, every returned row meets the filter, every stored row that meets it is returned, and, when rows carry their own key, each returned row is the stored row under its id and ids strictly descend |
| LogQueries.Page | src/Repository/LogRepository.php:42-43 | `LIMIT` / `OFFSET`: empty past the end, otherwise the next `PageSize` elements in order, and a window of a descending sequence still descends |
| LogQueries.FindBy | src/Repository/LogRepository.php:35-87 | exactly `PageSize(matches, offset, limit)` rows, each meeting the filter, element `i` being match number `offset + i` of the newest-first order, ids strictly descending |
| LogQueries.FindByStatus | src/Repository/LogRepository.php:35-45 | the page of rows with this status, newest first: element `i` is match `offset + i`, and the page holds `limit` rows (default 50) or all the matches left |
| LogQueries.FindByUserId | src/Repository/LogRepository.php:56-66 | the page of rows referencing this user (a null user id never matches), newest first, element `i` being match `offset + i`, `limit` rows or all the matches left |
| LogQueries.FindByIpAddress | src/Repository/LogRepository.php:77-87 | the page of rows from this address (a null address never matches), newest first, element `i` being match `offset + i`, `limit` rows or all the matches left |
| LogQueries.FirstPageIsEverything | src/Repository/LogRepository.php:37-43 | page 1 with a page size no smaller than the match count is the whole match |
| LogQueries.EarlierPagesAreNewer | src/Repository/LogRepository.php:37-43 | every row of an earlier page has a larger id than every row of a later page, so no row appears on two pages |
| LogQueries.SelectedKeys | src/Repository/LogRepository.php:108-110 | exactly the keys whose row meets every criterion |
| LogQueries.Selected | src/Repository/LogRepository.php:100-110 | one row per selected key, every returned row meets every `column = value` criterion (a null on either side never matches), every such stored row is returned, no criteria return every row, and, when rows carry their own key, each returned row is the stored row under its id and ids strictly descend |
| LogQueries.SingleCriterionAgreesWithFilter | src/Repository/LogRepository.php:108-110 | one criterion on status, user id or address selects exactly the rows of the matching single-filter query |
| LogQueries.JoinRow | src/Repository/LogRepository.php:101-102 | the selected columns are copied and `username` is the referenced user's email, null when there is no such user |
| LogQueries.JoinRows | src/Repository/LogRepository.php:101-102 | one joined row per log, in order, so descending ids stay descending |
| LogQueries.JoinedPage | src/Repository/LogRepository.php:104-105 | exactly `PageSize(selection, offset, limit)` joined rows, element `i` joining selection element `offset + i` |
| LogQueries.FindLogsWithUsername | src/Repository/LogRepository.php:98-113 | refused with the negative offset `(page - 1) * limit` exactly when the page is before the first and the page size is positive; otherwise exactly `PageSize(selection, offset, limit)` joined rows, element `i` joining selected row `offset + i`, ids strictly descending |
| LogQueries.JoinedQueryAgreesWithFilterQuery | src/Repository/LogRepository.php:98-113 | from page 1 on, the joined query with one criterion returns the single-filter query's page, each row joined with its user |
| LogReader.FilterCount | src/Command/LogManager/LogReaderCommand.php:74-78 | the number of truthy options; zero exactly when none is truthy, one exactly when a single one is |
| LogReader.NormalizeStatus | src/Command/LogManager/LogReaderCommand.php:96-101 | only `unreaded` and `readed` change, to `UNREADED` and `READED` |
| LogReader.NormalizeStatusIdempotent | src/Command/LogManager/LogReaderCommand.php:96-101 | a normalised status is left unchanged by normalising again |
| LogReader.SelectQueryAsWritten | src/Command/LogManager/LogReaderCommand.php:95-112 | the branch is the first non-null option in the order status, user, ip, and there is none exactly when every option is null |
| LogReader.SelectQuery | src/Command/LogManager/LogReaderCommand.php:74-112 | the branch is chosen exactly when some option is truthy, and when exactly one is, it is that option's branch |
| LogReader.SelectionsAgreeWithoutFalsyOptions | src/Command/LogManager/LogReaderCommand.php:74-112 | when no option is present but falsy, the as-written branch is the counted option's branch |
| LogReader.EmptyStatusShadowsUser | src/Command/LogManager/LogReaderCommand.php:74-112 | with `--status=` and `--user=5`, one option is counted (the user), but the command as written queries the empty status |
| LogReader.ParseUserId | src/Command/LogManager/LogReaderCommand.php:107 | the `--user` text is accepted exactly when it is a non-empty run of decimal digits whose value is at most `PHP_INT_MAX`, and the id is that value, so a leading zero names the same user |
| LogReader.ParseDecimalText | src/Command/LogManager/LogReaderCommand.php:107 | every id written in decimal parses back to itself when it is at most `PHP_INT_MAX`, and is refused when it is larger |
| LogReader.LeadingZeroKeepsValue | src/Command/LogManager/LogReaderCommand.php:107 | a leading zero does not change the value of a digit string |
| LogReader.LeadingZeroSameUser | src/Command/LogManager/LogReaderCommand.php:107 | `--user` text with a leading zero parses to the same id as without it |
| LogReader.FilterOf | src/Command/LogManager/LogReaderCommand.php:95-112 | the status branch filters on the normalised status, the ip branch on the address, and the user branch has a filter exactly when its text parses, the filter being on the parsed id |
| LogReader.RunQuery | src/Command/LogManager/LogReaderCommand.php:103-111 | the query runs exactly when the branch has a filter; every returned log meets the filter, newest first |
| LogReader.RunQueryReturnsEveryMatch | src/Command/LogManager/LogReaderCommand.php:103-111 | page 1 with page size `PHP_INT_MAX` returns the whole match whenever the table holds no more rows than that |
| LogReader.RowOf | src/Command/LogManager/LogReaderCommand.php:126-137 | the row carries the log's id, name, message, address and user id, and the time cell is `N/A` exactly when the log has no time |
| LogReader.Reversed | src/Command/LogManager/LogReaderCommand.php:121 | element `i` of the result is element `n - 1 - i` of the input |
| LogReader.ReversedTwice | src/Command/LogManager/LogReaderCommand.php:121 | reversing twice gives the input back |
| LogReader.BuildRows | src/Command/LogManager/LogReaderCommand.php:121-138 | one row per log, the last log first, so newest-first logs give rows in ascending id order |
| LogReader.CommandResult.ExitCode | src/Command/LogManager/LogReaderCommand.php:86-146 | success exits with 0 and a printed error with 2 (`Command::INVALID`); a thrown exception has no exit code |
| LogReader.ShowBranch | src/Command/LogManager/LogReaderCommand.php:103-146 | once a branch is chosen: an unparsable user id throws, an empty result gives `INVALID` with the no-logs message, and otherwise the rows are the result reversed, in ascending id order |
| LogReader.Execute | src/Command/LogManager/LogReaderCommand.php:64-147 | the command as written: no truthy option gives `INVALID` with the must-specify message, several throw, and with one the branch of the first non-null option runs as `ShowBranch` states |
| LogReader.ExecuteCorrected | src/Command/LogManager/LogReaderCommand.php:64-147 | the same command with the branch of the one truthy option, the option the count accepted |
| LogReader.SuccessShowsEveryMatch | src/Command/LogManager/LogReaderCommand.php:103-138 | a successful run of a branch has a filter, and every stored log that meets it appears as a row |

## Left out

- HTTP controllers, JWT and session handling, fixtures, dependency wiring and the console style's rendering are not modelled. The command's result is the rows it would render or the message it would print.
- The error manager's message texts, HTTP codes beyond `Error.Code`, and the exception messages attached to flush failures are left out. Each failure is an `Error` constructor.
- Password hashing is an opaque function given to the manager, so the model treats it as a fixed function of the password. The real hasher is salted: the stored password field being `hashPassword(Trim(password))` in `RegisterUser`'s contract is a statement about this function, not about the bytes the service stores, and no proved property depends on the hash being deterministic. Random password generation is an input whose only known property is its length of 16.
- Clocks are an input time. Registration calls `new DateTime()` twice; the model uses one time for both, so the two times are treated as equal.
- The visitor-info utility is two inputs (IP and agent). `RegisterUser` refuses a null or empty value and otherwise stores both; `UpdateUserDataOnLogin` stores them, with `Unknown` for a null value.
- The audit log manager, `LogManager`, is not part of this model. Saving a log is appending `(name, message, level)` to the manager's event sequence. `getLogsBy*` are the repository queries.
- LogReader.ParseUserId: PHP's parameter coercion in `LogManager` turns the `--user` text into an integer. The model accepts only digit strings (leading zeros included) whose value is at most `PHP_INT_MAX`, and treats signed, padded, leading-numeric or larger text as a thrown type error.
- LogQueries.FindByStatus, LogQueries.FindByUserId, LogQueries.FindByIpAddress, LogQueries.FindLogsWithUsername: the page size is a natural number; a negative PHP page size, and the overflow of `(page - 1) * limit` to a float, are not modelled.
- LogQueries.FindLogsWithUsername: the criteria name the columns of the log table. An unknown column name, and a criterion on the joined user's columns, would be a query error, which is not modelled. A criterion's `=` is exact equality of values of the same type: the database's conversion of a string parameter compared with an integer column (`user_id = '5'` matching 5) and the column collation's folding of case and trailing spaces are not modelled, so such rows are not selected by the model.
- LogQueries.FindBy: the filter's `=` is exact equality; the column collation's folding of case and trailing spaces (`status = 'readed'` matching `READED` under a case-insensitive collation) is not modelled, and the collation is not part of this model.
- Concurrency: each operation runs to completion on the state it read; races between requests (two registrations of the same email at once) are not modelled.
- Strings are sequences of characters standing for bytes; `strlen` is their length. Multi-byte encodings are not modelled.
- The `User` entity's own behaviour (for example, a role getter that adds `ROLE_USER`) is not part of this model. Roles are the stored set.
- Role-set invariant: the manager does not keep a user's roles non-empty, nor each role within `ROLE_[A-Z_]+`, and the model does not promise either. Revoking `user` from a user holding only `ROLE_USER` leaves the stored set empty (`Accounts.RevokingDefaultRoleLeavesNone`), and normalisation keeps bytes other than letters (`Accounts.NormalizedRoleKeepsOtherBytes`). Whether the `User` entity restores `ROLE_USER` on reading is outside the model.

## Findings

| source | as written | input that shows it | evidently intended | confidence | as-written member | corrected member |
|---|---|---|---|---|---|---|
| src/Command/LogManager/LogReaderCommand.php:74-112 | options are counted by truthiness (`array_filter`), but the branch is the first option that is not null | `--status= --user=5`: the empty status is not counted, the count is 1, and the command queries logs with status `""` instead of user 5 | the branch of the one option that was counted, i.e. the first truthy option | medium; not executed | LogReader.SelectQueryAsWritten, LogReader.Execute, LogReader.EmptyStatusShadowsUser | LogReader.SelectQuery, LogReader.ExecuteCorrected |
