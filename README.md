# Citizen grievance portal — a verified model of its core

The portal is a browser application in which citizens report grievances
(a pothole, a broken street light) to a government department, support
them with upvotes, and browse them by status and department, while
department administrators register, log in and change a grievance's
status. Everything it knows lives in browser storage: the grievance list
under `problems` and the administrator directory under `admins` in local
storage, and the logged-in administrator under `currentAdmin` in session
storage.

This project models the logic beneath the page glue in report.js, user.js
and login.js:

- **Storage** (`Portal.Store`, store.dfy): a class whose three fields are
  the three storage keys (`None` while a key is absent). It has a method or
  function for each storage operation of the source:
  - `getProblems`, `saveProblems`, `addProblem`, `updateProblem`;
  - `upvoteProblem`, `submitGrievance`, `clearAllData`;
  - `getAdmins`, `addAdmin`;
  - the session writes of `handleLogin`, `handleRegister` and `logout`;
  - `updateStats` and `generateReport`.

  Each method states its whole new state in terms of the functions below.
  `GenerateReport` builds the per-department counters with the source's
  `forEach` loop, proved against `Reporting.ByDepartment`.
- **Grievance list** (`Repository`, repository.dfy): the records are
  handled as follows.
  - **Lookup:** find the first record with an id.
  - **Changes:** upvote it, or spread an update over it.
  - **New records:** the record a submission builds.
  - **Listing:** the public listing's two drop-down filters.
- **Records** (`Records`, records.dfy): the grievance record, the partial
  record spread over it by `{ ...problem, ...updates }`, and the two
  administrator records.
- **Authentication** (`Auth`, auth.dfy): login runs three field checks,
  then an exact three-field lookup, then the `admin`/`admin123` demo
  fallback with its derived e-mail. Registration runs a nine-step ordered
  validation chain. Every message is reproduced verbatim.
- **Form validation** (`Validation`, validation.dfy): the reporter-name and
  contact checks, with their messages, and the submit-button condition.
- **Statistics** (`Reporting`, reporting.dfy): the status counts and the
  `byDepartment` counters, with the proof that the departments' columns
  add up to the global figures.
- **CSV export** (`Csv`, csv.dfy): the exact text `exportToCSV` produces.
  Its partner is a reader following RFC 4180, used to state the following:
  - when the export reads back as the stored fields;
  - that the line of a grievance whose title holds a quote never reads back
    as its fields, because the export wraps three fields in quotes without
    escaping anything. Such a line is either unreadable (`5" pipe`) or read
    without complaint as a different title (`a""b` reads as `a"b`).
- **JavaScript text primitives** (`JsText`, text.dfy):
  - `trim` and `\s` over the ECMAScript white-space set;
  - `.length` in UTF-16 code units;
  - `toLowerCase`, `join` and `split`;
  - the decimal rendering of integers.

  `Seqs` (seqs.dfy) holds `Array.prototype.filter`.

The clock (`Date.now()`, `toLocaleDateString`, `toLocaleString`) and the
answers to `confirm` dialogs are parameters of the operations that use
them. The browser's verdict on the form's `required` fields
(`form.checkValidity()`) is the `formComplete` parameter of
`SubmitEnabled`. Storage is modelled as values, and the `JSON.stringify` /
`JSON.parse` round trip through it is taken to be the identity.

Details of the code that the model keeps:
- Registration's length limits count UTF-16 code units (`username.length`), not characters.
- A department's counters are created when `byDepartment[p.authority]` is falsy. A counters object is never falsy, so this is a key-absence test.
- Lookups by id take the first match. Ids come from `Date.now()` and nothing keeps them unique.

## Model

| member | source | states |
|---|---|---|
| Portal.Store.GetProblems | report.js:6-9 | a missing `problems` key reads as the empty list, a stored one as itself |
| Portal.Store.SaveProblems | report.js:11-13 | the key then holds exactly the given list |
| Portal.Store.AddProblem | report.js:15-19 | the new list is the old list with the record appended; the earlier records are unchanged and in order |
| Portal.Store.UpdateProblem | report.js:21-28 | nothing is written when no record has the id; otherwise the stored list becomes `Updated`, i.e. only the first record with the id is changed, by the spread |
| Portal.Store.UpvoteProblem | user.js:191-199 | nothing is written when no record has the id; otherwise the stored list becomes `Upvoted`, one more vote on the first record with the id |
| Portal.Store.SubmitGrievance | user.js:96-113 | the stored list becomes the old one with the form's new record (`NewGrievance`) appended |
| Portal.Store.ClearAllData | report.js:200-207 | the key is removed only when both confirmations are accepted, and then the list reads as empty; otherwise storage is unchanged |
| Portal.Store.GetAdmins | report.js:30-35 | a missing `admins` key reads as the single default admin admin/admin123/All/admin@gov.in |
| Portal.Store.AddAdmin | report.js:37-41 | what is written is the list `getAdmins` returned, with the default admin kept when nothing was stored, plus the new admin at the end |
| Portal.Store.Login | login.js:104-152 | the outcome is `Authenticate` on the stored directory; the session is written with the outcome's admin on success and left untouched on every rejection |
| Portal.Store.Register | login.js:250-261 | the outcome is `Registration` on the stored directory; on success exactly that admin is appended, on rejection nothing is written |
| Portal.Store.Logout | login.js:292-297 | the session is removed only when the dialog is confirmed |
| Portal.Store.Stats | report.js:48-60 | the four figures are `Tally` of the stored list: the total is the number of stored records, and the three status counts together never exceed it |
| Portal.Store.Listing | user.js:145-156 | the records listed for the two drop-down values are, in store order, exactly the stored records that pass both; a record is listed iff it is stored and passes |
| Portal.Store.CsvExport | report.js:170-190 | the downloaded text is `Content` of the stored list; when every stored record is exportable, the downloaded text reads back under RFC 4180 as the header and then each stored record's fields, in store order |
| Portal.Store.GenerateReport | report.js:123-151 | the loop's `byDepartment` equals `ByDepartment` of the stored list, the status totals equal `Tally`, and `generatedOn` is the clock's string |
| Repository.FindIndex | report.js:23 | the result is the first index whose record has the id, and is absent exactly when no record has it |
| Repository.IndexOfId | user.js:193 | the scan of `find`/`findIndex` returns exactly `FindIndex` |
| Repository.Upvoted | user.js:193-196 | same length; with no match the list is unchanged, otherwise the matched record gains exactly one vote and every other record and field is unchanged |
| Repository.Updated | report.js:23-25 | same length; with no match the list is unchanged, otherwise only the matched record changes, to its spread with the update |
| Repository.UpvoteKeepsIds | user.js:191-199 | upvoting changes no id, so every later lookup by any id answers as before |
| Repository.UpvoteAddsOneVote | user.js:195 | one upvote raises the sum of all votes by exactly one, or by none when the id is absent |
| Repository.UpdateThenUpdate | report.js:21-28 | two updates of the same record equal one update by the combined spread, when the first does not change the id |
| Repository.NewGrievance | user.js:96-109 | a submitted record is Pending with 0 votes and no notes, carries the clock reading as id and the date string, and gives back exactly the form's seven fields (`FormOf`) |
| Repository.Visible | user.js:148-156 | the two filters as the source applies them, each skipped on "all"; no contract of its own: `VisibleSelectsShown`, `VisibleAllIsEverything` and `VisibleMembership` state what it selects |
| Repository.VisibleSelectsShown | user.js:148-156 | the two filters in a row give, in store order, exactly the records whose status and department match their drop-downs, with "all" matching anything |
| Repository.VisibleAllIsEverything | user.js:148-156 | with both drop-downs on "all" the listing is the whole list |
| Repository.VisibleMembership | user.js:148-156 | a record is listed iff it is stored and passes both drop-downs; appending a record extends the listing by it exactly when it passes |
| Repository.UpvoteFoundAgain | user.js:191-199 | a record found at an index is found there again after an upvote, with one more vote |
| Repository.FindAppended | user.js:111-113 | a submitted record with a fresh id is found at the end of the list |
| Repository.SubmitUpvoteResolve | user.js:93-113 | a submitted grievance is listed as Pending with 0 votes, has 2 votes after two upvotes, and is listed under "Resolved" after a status update |
| Records.Merge | report.js:25 | `{ ...problem, ...updates }`: each field named in the update takes the update's value, every other field keeps the record's; no contract of its own: `MergeThen`, `MergeEmpty`, `MergeIdempotent` and `StatusPatchChangesOnlyStatus` state its behaviour |
| Records.MergeThen | report.js:25 | spreading two updates one after the other is spreading their field-by-field combination, the later one winning |
| Records.MergeEmpty | report.js:25 | an empty update leaves the record unchanged |
| Records.StatusPatchChangesOnlyStatus | report.js:25 | an update naming only the status changes the status and no other field |
| Records.MergeIdempotent | report.js:25 | spreading the same update twice is spreading it once |
| Seqs.Filter | user.js:151 | the result keeps only elements that pass, is no longer than the input, and contains an element iff the input does and it passes |
| Seqs.FilterFilter | user.js:150-156 | two filters in a row equal one filter by the conjunction of their tests |
| Seqs.FilterAppend | user.js:151 | filtering distributes over concatenation, so store order is kept |
| JsText.IsSpace | login.js:121 | the ECMAScript white-space and line-terminator characters, which `\s` matches and `trim` strips; no contract of its own: `TrimOfPadded`, `RemoveSpacesAppend` and `MatchesNameIff` state what stripping and matching it mean |
| JsText.Trim | login.js:74-75 | the result is a contiguous slice of the input with only white space before and after it; it starts and ends with a non-space, and is empty exactly when the input is all white space |
| JsText.TrimOfPadded | login.js:74-75 | a word that starts and ends with a non-space, padded on both sides with white space only, trims to exactly that word, so the contract of `Trim` determines its result |
| JsText.TrimIdempotent | login.js:74-75 | trimming twice is trimming once |
| JsText.Utf16Length | login.js:202 | the code-unit length is the character count plus the number of characters outside the Basic Multilingual Plane, so it equals the character count when there are none |
| JsText.LowerChar | login.js:121 | an ASCII capital becomes the letter 32 code points above it, the lower-case letter; every other character is kept |
| JsText.Lower | login.js:121 | same length, and each character is `LowerChar` of the input's character at the same position |
| JsText.RemoveSpaces | login.js:121 | a single white-space character is deleted and any other single character kept; no white space is left, every character comes from the input, and a space-free input is returned unchanged |
| JsText.RemoveSpacesAppend | login.js:121 | deleting white space works piece by piece; with the one-character case this fixes the result as the input's non-space characters in order |
| JsText.Join | report.js:187-190 | `join` with a one-character separator; no contract of its own: `SplitJoin` (splitting gives the pieces back) and `JoinSeparators` (exactly one separator between neighbours) state its result |
| JsText.Split | report.js:187-190 | the reader-side partner of `join`, not used by the portal: one more piece than there are separators |
| JsText.SplitJoin | report.js:187-190 | splitting a join at its separator gives the pieces back when no piece holds the separator |
| JsText.JoinSeparators | report.js:187-190 | `join` adds exactly one separator between neighbouring pieces |
| JsText.NatToString | report.js:175 | the decimal rendering is non-empty and all digits, "0" for zero and without a leading zero otherwise, one digit exactly below ten |
| JsText.IntToString | report.js:175 | the rendering is non-empty and made only of digits and the minus sign: the decimal numeral for a non-negative number, a minus sign before the numeral of its absolute value otherwise |
| JsText.NatToStringRoundTrip | report.js:175 | reading the digits back gives the number |
| Validation.MatchesName | user.js:9 | the test `/^[a-zA-Z\s]*$/`; no contract of its own: `MatchesNameIff` states which strings it accepts |
| Validation.MatchesDigits | user.js:27 | the test `/^[0-9]*$/`; no contract of its own: `MatchesDigitsIff` states which strings it accepts |
| Validation.MatchesNameIff | user.js:9 | the name pattern accepts exactly the strings of ASCII letters and white space, including the empty one |
| Validation.MatchesDigitsIff | user.js:27 | the digit pattern accepts exactly the strings of decimal digits |
| Validation.NameHasError | user.js:9-17 | the name is marked as an error iff some character is neither a letter nor white space |
| Validation.ContactError | user.js:27-43 | a non-digit gives "Please enter numbers only"; otherwise a non-empty length other than 10 gives "Phone number must be exactly 10 digits"; no message iff empty or ten digits |
| Validation.SubmitEnabled | user.js:83-89 | the button is enabled iff the name is all letters and spaces, the contact is exactly ten digits, the photo is GPS-valid and the form is complete |
| Auth.FindAdmin | login.js:107-111 | the first admin whose username, password and department all equal the inputs, absent iff none does |
| Auth.SessionOf | login.js:143-150 | the session written for a stored admin, with the admin's own department as active department; no contract of its own: `LoginOutcome` and `StoredMatchWins` state when login writes it |
| Auth.FallbackSession | login.js:116-122 | the demo session for the selected department; no contract of its own: `LoginOutcome` states when login writes it and that its e-mail is `FallbackEmail` of the department |
| Auth.FallbackMiddle | login.js:121 | the department part of the fallback address has no white space and no upper-case letter, and is the department itself when that is already clean |
| Auth.FallbackEmail | login.js:121 | the address is "admin@", then the department lower-cased with its white space deleted, then ".gov"; that middle part has no white space and no capital, and is the department itself when that is already clean |
| Auth.PublicWorksEmail | login.js:121 | the department "Public Works" gets the address admin@publicworks.gov |
| Auth.Authenticate | login.js:74-152 | `handleLogin`'s decision: trim, check the three fields in order, look the admin up, fall back to the demo account, else reject; no contract of its own: `LoginOutcome`, `LoginChecksBeforeLookup`, `InvalidCredentialsMeansNoMatch` and `StoredMatchWins` state its outcome |
| Auth.LoginOutcome | login.js:74-152 | login succeeds iff the trimmed username and password and the department are non-empty and either a stored admin matches or admin/admin123 was given; the session has the trimmed credentials and the selected department as department and active department; it is the first match's record, else carries the fallback e-mail |
| Auth.LoginChecksBeforeLookup | login.js:83-101 | while a field check fails the directory plays no part, and the first failing check names the message |
| Auth.InvalidCredentialsMeansNoMatch | login.js:113-140 | "Invalid username, password, or department" is given iff the fields are filled, no stored admin matches and the credentials are not the demo pair |
| Auth.StoredMatchWins | login.js:143-152 | a stored admin matching the trimmed credentials logs in as its own record, whatever the demo fallback would give |
| Auth.DefaultAdminFoundFirst | login.js:104-115 | on a fresh directory admin/admin123 with department All finds the seeded admin first, so the session keeps admin@gov.in |
| Auth.UsernameTaken | login.js:252 | the username is taken iff some admin has it, compared case-sensitively |
| Auth.Registration | login.js:182-261 | registration succeeds iff the trimmed username has at least 4 code units, the trimmed password at least 6, the confirmation equals it, the e-mail and department are non-empty and the username is not taken; the admin is built from the trimmed values |
| Auth.RegistrationFirstFailure | login.js:194-257 | the checks run in the source's order and the first one that fails decides the message |
| Auth.RegistrationKeepsUsernamesUnique | login.js:250-261 | registering into a directory with distinct usernames keeps them distinct |
| Auth.DefaultUsernameReserved | login.js:250-257 | on a fresh directory nobody can register the username "admin" |
| Auth.RegisterThenLogin | login.js:259-261 | whoever has just registered logs in with the same form values and gets their own account |
| Reporting.CountStatus | report.js:57-59 | the count of records with a status is at most the number of records, and zero exactly when no record has that status |
| Reporting.Tally | report.js:127-131 | the total and the three status counts of a list; no contract of its own: `TallySnoc` and `StatusCountsBound` state how it grows and how its figures relate |
| Reporting.Bump | report.js:144-147 | one record adds one to the department's total and one to the counter of its status, if any |
| Reporting.TallySnoc | report.js:128-131 | counting a list with one more record is counting the list and bumping by that record |
| Reporting.StatusCountsBound | report.js:127-131 | pending + in progress + resolved never exceeds the total, and equals it iff every status is one of the three |
| Reporting.Departments | report.js:135-143 | the departments in the order the loop creates their counters, without repeats |
| Reporting.ByDepartment | report.js:135-148 | the per-department counters after the `forEach` over the list; no contract of its own: `ByDepartmentKeys`, `ByDepartmentEntry` and `DepartmentColumnsAddUp` state its keys and values |
| Reporting.ByDepartmentKeys | report.js:135-143 | `byDepartment` has a key for every department that occurs and no other |
| Reporting.ByDepartmentEntry | report.js:135-148 | each department's counters are the status counts of that department's grievances alone |
| Reporting.DepartmentColumnsAddUp | report.js:135-148 | summed over the departments, each column of `byDepartment` gives the global figure |
| Csv.Cells | report.js:174-185 | one cell per header column, whose values are the record's exported fields; exactly title, description and location are the quoted ones |
| Csv.Row | report.js:188 | one record's cells joined by commas; no contract of its own: `RecordReadsBack` and `QuoteInTitleNeverReadsBack` state when it reads back |
| Csv.Content | report.js:187-190 | the header line and the records' lines joined by line feeds; no contract of its own: `ExportReadsBack` states what it reads back as |
| Csv.ExportedFields | report.js:174-185 | a record contributes one value per header column |
| Csv.HeaderLine | report.js:188 | `headers.join(',')`; no contract of its own: `HeaderReadsBack` states that it has no line feed and reads back as the ten column names |
| Csv.Rows | report.js:187-188 | one line per record, in store order |
| Csv.Lines | report.js:187-190 | the header line first, then each record's line, in store order |
| Csv.RowReadsBack | report.js:188 | a line of clean cells reads back under RFC 4180 as the cells' values |
| Csv.HeaderReadsBack | report.js:173 | the header line has no line feed and reads back as the ten column names |
| Csv.RecordReadsBack | report.js:174-185 | the line of a record whose fields hold no quote, no line feed and, outside the quoted three, no comma reads back as its fields |
| Csv.TableOfLines | report.js:187-190 | lines without line feeds, joined by line feeds, read back one row per line |
| Csv.ExportReadsBack | report.js:170-190 | when every record is exportable, the export reads back as the header and then each record's fields, in store order |
| Csv.QuotedMisread | report.js:176 | a field written between quotes without escaping, whose text holds a quote, is never read back as that text |
| Csv.QuoteInTitleNeverReadsBack | report.js:176 | the line of any grievance whose title holds a quote never reads back as its fields: it is unreadable or read with a different title |
| Csv.QuoteInTitleBreaksRow | report.js:176 | the title `5" pipe` makes the record's line unreadable as CSV |
| Csv.DoubledQuoteMisread | report.js:176 | the exported cell `"a""b"`, followed by a comma or the end of the line, is read without complaint, but as `a"b` |

## Left out

- The page: tab switching (`showAuthTab`), the department cards (`selectLoginDepartment`, `selectRegisterDepartment`), `showPage`, `updateNavForLoggedInAdmin`, `loadAdminDashboard`, the HTML of `renderProblems`, focus, error-box visibility and form resets, and the event wiring. None of it changes stored state.
- `exportToJSON`: a `JSON.stringify` of the list handed to a download.
- `exportToCSV`'s Blob, object URL and download link; `Csv.Content` is the text it downloads.
- `validateGPSImage`: it reads the file asynchronously and decides validity with `Math.random()`. Its outcome is the `photoGpsValid` parameter of `SubmitEnabled`.
- `alert`, `setTimeout` and `window.location.reload`: they only affect the page.
- Storage as real I/O. Another tab or backend writing concurrently is not modelled. Neither is a stored value that is present but falsy, such as an empty string, which the source also reads as missing.
- The registration success message and the two-second switch back to the login tab.
- Repository.NewGrievance: ids and vote counts are unbounded integers, not JavaScript doubles. An id above 2^53 or a vote count beyond that is not modelled.
- JsText.IntToString: for integers only; the exponent notation JavaScript uses from 1e21 on is not modelled.
- JsText.Lower: maps the ASCII letters A–Z only. `toLowerCase` also maps other alphabets, which is not modelled.
- Reporting.ByDepartment: a Dafny map, so department names that collide with the object prototype's own keys (`constructor`, `__proto__`) are treated like any other name.
- Validation.SubmitEnabled: the name and contact error marks are the validators' verdicts on the current values. In the page they are whatever the last input event set.
- `getCurrentAdmin` returns the session field as stored (`Portal.Store.GetCurrentAdmin`); it has no property of its own to state.
- The CSV reader (`Csv.ParseRow`, `Csv.ParseTable`) is not part of the portal. It follows RFC 4180 for single lines: quoted fields with `""` escapes, and unquoted fields without quotes. It serves only to state what the export means.
