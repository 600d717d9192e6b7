# SSIS-WEB in Dafny

SSIS-WEB is a student information system: a Flask back end over PostgreSQL
(colleges, users, items) and React pages (programs, students, items) that
keep lists in component state. This project models the part of it with a
statable core:

- **Back-end handlers** (`colleges.dfy`, `auth_routes.dfy`, `items.dfy`). Each
  handler is a method on a class that holds its tables as sequences of rows.
  Connecting, the statement round trip and `mail.send` are fallible steps
  passed in as `Attempt` parameters. Every SQL statement is a function
  (`FindCollege`, `RenameCollege`, `DeleteById`, `SearchRows`, ...) whose
  effect on the table is proved. The items pool is a counter of lent
  connections; every handler proves it gives its connection back.
- **Client-side list logic** (`program_page.dfy`, `student_page.dfy`,
  `items_page.dfy`, `session.dfy`). These cover:
  - the program directory's filter, sort and page pipeline, its sort-toggle
    state machine and the sorted list of distinct college codes;
  - the student directory's shared sort direction and its unclamped pages;
  - the items page's prepend and delete;
  - the `localStorage` session helpers.
- **Shared helpers** (`wrappers.dfy`, `text.dfy`, `sequences.dfy`,
  `sorting.dfy`, `paging.dfy`, `sql_like.dfy`):
  - JavaScript's `trim` and `toLowerCase`;
  - a stable sort standing in for `Array.prototype.sort`;
  - `slice` and page arithmetic;
  - SQL `LIKE`/`ILIKE` pattern matching.

## Model

| member | source | states |
|---|---|---|
| Colleges.CollegeConnectionAlwaysRaises | backend/colleges/routes.py:11-18 | `psycopg2.connect(**SupabaseConfig)` unpacks a class, so every college connection raises the `TypeError`, whatever the server does |
| Colleges.IntendedConnectionFollowsServer | backend/colleges/routes.py:13 | unpacking the settings mapping gives exactly the server's outcome |
| Colleges.AddCollegeAsWritten | backend/colleges/routes.py:25-71 | as written, a well-formed add ends in 500 with the `TypeError` text and the table is unchanged |
| Colleges.FindCollege | backend/colleges/routes.py:39-40 | the lookup returns a row of the table with that code, and returns nothing exactly when no row has it |
| Colleges.DetachPrograms | backend/colleges/routes.py:143-147 | every program that referenced the code gets a NULL college, with the same length, codes and names; no other program changes |
| Colleges.DeleteCollegeRows | backend/colleges/routes.py:149 | the kept rows are exactly those with another code, in their old order |
| Colleges.DeleteRemovesAtMostOne | backend/colleges/routes.py:149 | with unique codes, the delete removes one row when the code exists and none otherwise |
| Colleges.RenameCollege | backend/colleges/routes.py:110-115 | the row with the old code becomes `(new_code, new_name)` and every other row is unchanged |
| Colleges.RenameKeepsUnique | backend/colleges/routes.py:110-126 | a rename that does not collide keeps the codes unique, adds the new row, and makes the old code disappear |
| Colleges.SearchRows | backend/colleges/routes.py:177-182 | the result is exactly the rows whose code or name matches `%keyword%` under ILIKE, each as often as in the table, in table order |
| Colleges.SearchFindsSubstrings | backend/colleges/routes.py:177-182 | for a keyword without wildcards, search finds exactly the rows whose code or name contains it, ignoring case |
| Colleges.SearchPercentFindsAll | backend/colleges/routes.py:177-178 | the keyword is not escaped: `%` finds every row; so does the empty keyword, which the `<string:keyword>` route never delivers |
| Colleges.SearchUnderscoreFindsNonEmpty | backend/colleges/routes.py:177-178 | the keyword is not escaped: `_` finds every row with a non-empty code or name |
| Colleges.CollegeDatabase.AddCollege | backend/colleges/routes.py:25-71 | 400 before connecting when a field is missing or empty; 500 with the error text on a failed step; 409 on an existing code with the table unchanged; otherwise 201 with the code and exactly one row appended |
| Colleges.CollegeDatabase.GetColleges | backend/colleges/routes.py:77-89 | 200 with every row, or 500 with the error text |
| Colleges.CollegeDatabase.UpdateCollege | backend/colleges/routes.py:96-130 | 400 on a missing field; 404 when no row has the path code, with the table unchanged; a collision raises in the database and gives 500; otherwise 200 and a key rename that keeps codes unique |
| Colleges.CollegeDatabase.DeleteCollege | backend/colleges/routes.py:137-162 | detaches the dependent programs and deletes the college under one commit; 200 even when the code was absent; the row count drops by one exactly when the code existed |
| Colleges.CollegeDatabase.SearchCollege | backend/colleges/routes.py:171-188 | 200 with exactly the matching rows, each as often as in the table and in table order, or 500 |
| Colleges.CollegeDatabase.GetCollegeCount | backend/colleges/routes.py:194-208 | 200 with the number of rows, or 500 with the error text |
| AuthRoutes.WelcomeMessage | backend/auth/routes.py:48-53 | the welcome mail goes to the registering address only |
| AuthRoutes.FindUser | backend/auth/routes.py:109-110 | the lookup returns a user with that name, and returns nothing exactly when no user has it |
| AuthRoutes.FindUserUnique | backend/auth/routes.py:109-110 | with unique usernames, the lookup returns the one row with that name |
| AuthRoutes.SameNameSameUser | backend/auth/routes.py:109-110 | with unique usernames, two rows with the same name are the same row |
| AuthRoutes.UserDatabase.RegisterUser | backend/auth/routes.py:22-65 | 400 with no database access on a missing field; the password is stored as given; the row is committed before the mail, so a mail failure gives 500 and the user stays; otherwise 201 with the new id |
| AuthRoutes.UserDatabase.GetUsers | backend/auth/routes.py:70-90 | 200 with every row and every column, passwords included, or 500 |
| AuthRoutes.UserDatabase.LoginUser | backend/auth/routes.py:97-133 | 400 on a missing name or password; 404 exactly when no user has the name; 401 on a password mismatch; 200 exactly when name and password match, and then the body holds only id, name and email |
| AuthRoutes.RegisterThenLogin | backend/auth/routes.py:22-133 | after a registration, the right password logs in with the public fields, a wrong one gets 401, an unknown name 404, whatever the mail did |
| ItemsApi.NewestFirst | backend/app.py:43 | the listing holds the same rows as the table |
| ItemsApi.NewestFirstOrdered | backend/app.py:43-45 | the listing is a permutation of the table with ids non-increasing |
| ItemsApi.DeleteById | backend/app.py:75 | the kept rows are exactly those with another id, each as often as before, in their old order |
| ItemsApi.DeleteRowCount | backend/app.py:75-80 | with distinct ids, the delete removes one row when the id exists (row count 1) and none otherwise |
| ItemsApi.ItemStore.GetConn | backend/app.py:22-33 | with every connection lent out, it raises the pool error; otherwise it lends one more, or passes the open failure on |
| ItemsApi.ItemStore.PutConn | backend/app.py:35-36 | takes one lent connection back |
| ItemsApi.ItemStore.GetItems | backend/app.py:38-47 | 200 with every row, ids non-increasing, or 500; the connection count is the same afterwards |
| ItemsApi.ItemStore.CreateItem | backend/app.py:49-68 | 400 without touching the pool when `name` is missing; otherwise 201 with the new row `(id, name, description, created_at)` appended, or 500; the connection is returned on every path |
| ItemsApi.ItemStore.DeleteItem | backend/app.py:70-82 | 204 removing exactly the row with that id, or 404 with the table unchanged, or 500; the connection is returned on every path |
| Session.GetItem | frontend/src/lib/auth.js:7-25 | a getter returns the stored value, or null exactly when the key is absent |
| Session.GetCurrentUser | frontend/src/lib/auth.js:31-47 | null exactly when not logged in, which requires the flag "true" and a non-empty user id; otherwise the three stored values |
| Session.LocalStorage.SetItem | frontend/src/templates/entry/sign-in.jsx:41-42 | `localStorage.setItem`: the key maps to the value and every other key is unchanged |
| Session.LocalStorage.RemoveItem | frontend/src/lib/auth.js:53-56 | `localStorage.removeItem`: the key is gone and every other key is unchanged |
| Session.SignInStorageIsNotASession | frontend/src/templates/entry/sign-in.jsx:41-42 | the sign-in page stores the flag and a user name but no user id, so from storage without one it does not produce a session |
| Session.LocalStorage.Logout | frontend/src/lib/auth.js:52-57 | removes exactly the four session keys, keeps every other key, and leaves nobody logged in |
| Session.LogoutEndsSession | frontend/src/lib/auth.js:31-57 | after the session keys are removed, every getter returns null and nobody is logged in |
| Session.LogoutIdempotent | frontend/src/lib/auth.js:52-57 | logging out twice is logging out once |
| Session.StoredSessionIsCurrent | frontend/src/lib/auth.js:31-47 | a stored "true" flag with a non-empty id reports the stored user |
| Session.FlagNeedsUserId | frontend/src/lib/auth.js:31-33 | the flag alone is not a session: a missing or empty user id means logged out |
| ItemsPage.ItemsPage.Loaded | frontend/src/App.jsx:10-15 | the first fetch sets the list to the rows returned and leaves both inputs |
| ItemsPage.ItemsPage.EditName | frontend/src/App.jsx:47 | the name input sets the name only |
| ItemsPage.ItemsPage.EditDescription | frontend/src/App.jsx:48 | the description input sets the description only |
| ItemsPage.SubsequenceKeepsOrder | frontend/src/App.jsx:37 | any subsequence of a newest-first list, such as the list after `filter`, is newest first |
| ItemsPage.ItemsPage.AddItem | frontend/src/App.jsx:17-32 | no request while the name is empty; otherwise the form is posted; an ok reply prepends the row and clears both inputs; a failed one changes nothing |
| ItemsPage.ItemsPage.DeleteItem | frontend/src/App.jsx:34-41 | on 204 the rows with that id go and the rest keep their order; any other status changes nothing |
| ItemsPage.PrependNewestKeepsOrder | frontend/src/App.jsx:25-28 | prepending a row newer than every shown row keeps the list newest first |
| ItemsPage.DeleteKeepsOrder | frontend/src/App.jsx:36-37 | the local delete keeps the list newest first |
| ItemsPage.DeleteSameRows | frontend/src/App.jsx:36-37 | the page and the service delete by the same rule, so equal row sets stay equal |
| ItemsPage.ListThenAdd | frontend/src/App.jsx:10-32 | after loading and an add, the page shows exactly the service's rows, newest first |
| ItemsPage.DeleteOnBoth | frontend/src/App.jsx:34-41 | a delete on the service and then on the page keeps the two in step and newest first |
| ProgramPage.TextFilter | frontend/src/templates/program/program-page.jsx:413-432 | a blank term keeps every row; otherwise a row stays exactly when the chosen field, or any of the three for another field name, contains the trimmed, lowercased query; null fields count as empty |
| ProgramPage.StartFilter | frontend/src/templates/program/program-page.jsx:444-454 | keeps exactly the rows created on or after the start; no start keeps all, and a start that cannot be parsed keeps none |
| ProgramPage.EndFilter | frontend/src/templates/program/program-page.jsx:456-466 | keeps exactly the rows created on or before the end |
| ProgramPage.CollegeFilter | frontend/src/templates/program/program-page.jsx:468-470 | a non-empty code keeps exactly the rows with that college code |
| ProgramPage.Selected | frontend/src/templates/program/program-page.jsx:410-471 | the filtered rows are a subsequence of the programs, and a row is kept exactly when it passes every filter |
| ProgramPage.OrderIsTotalPreorder | frontend/src/templates/program/program-page.jsx:472-481 | every sort configuration compares any two rows and is transitive |
| ProgramPage.SortByCreatedOnDesc | frontend/src/templates/program/program-page.jsx:406-408 | the loaded list holds the same rows |
| ProgramPage.SortByCreatedOnDescOrdered | frontend/src/templates/program/program-page.jsx:397-408 | the loaded list is ordered by creation time, newest first, with missing dates as 0 |
| ProgramPage.FilteredPrograms | frontend/src/templates/program/program-page.jsx:410-484 | the result is a permutation of the selected rows |
| ProgramPage.SubsequenceSubMultiset | frontend/src/templates/program/program-page.jsx:410-471 | the filters only remove rows: a subsequence holds each row no more often than the list |
| ProgramPage.FilteredProgramsSpec | frontend/src/templates/program/program-page.jsx:410-484 | the result holds exactly the kept rows, no more often than in the list, ordered by the sort key and direction, or newest first without a key |
| ProgramPage.TotalPages | frontend/src/templates/program/program-page.jsx:486-487 | at least one page, enough pages for every row, and no empty last page |
| ProgramPage.CurrentProgramsShape | frontend/src/templates/program/program-page.jsx:486-490 | the visible page holds at most ten rows, taken from the clamped page |
| ProgramPage.ToggleSort | frontend/src/templates/program/program-page.jsx:539-558 | a toggle sets the key; the direction becomes descending exactly when the same key was ascending |
| ProgramPage.ToggleSortAlternates | frontend/src/templates/program/program-page.jsx:539-558 | toggling one key again alternates its direction; switching to another key starts ascending |
| ProgramPage.DescendingIsReversed | frontend/src/templates/program/program-page.jsx:472-481 | descending order on a key is ascending order with the rows swapped |
| ProgramPage.ListedCode | frontend/src/templates/program/program-page.jsx:768-772 | a program contributes its trimmed college code exactly when that code is present and not blank |
| ProgramPage.CollegeCodes | frontend/src/templates/program/program-page.jsx:766-777 | the codes are exactly the trimmed non-blank college codes of the programs, each once, in strictly ascending order |
| ProgramPage.SubmitProgram | frontend/src/templates/program/program-page.jsx:165-194 | an empty field alerts; without a logged-in user id it alerts; otherwise it confirms with the trimmed payload and the user id |
| ProgramPage.BlankFieldPassesCheck | frontend/src/templates/program/program-page.jsx:168-177 | the check runs before trimming, so a blank college code passes and is sent empty |
| ProgramPage.RemoveProgram | frontend/src/templates/program/program-page.jsx:580 | the kept rows are exactly those with another program code, in order |
| ProgramPage.RemoveProgramIdempotent | frontend/src/templates/program/program-page.jsx:580 | removing the same program twice is removing it once |
| ProgramPage.ProgramDirectory.Loaded | frontend/src/templates/program/program-page.jsx:523 | the loaded list is the data sorted newest first |
| ProgramPage.ProgramDirectory.Search | frontend/src/templates/program/program-page.jsx:590-592 | sets the search term and goes back to page 1 |
| ProgramPage.ProgramDirectory.ChooseSearchField | frontend/src/templates/program/program-page.jsx:498-500 | sets the field and goes back to page 1 |
| ProgramPage.ProgramDirectory.ApplyFilters | frontend/src/templates/program/program-page.jsx:594-596 | sets the filters and goes back to page 1 |
| ProgramPage.ProgramDirectory.ToggleSortBy | frontend/src/templates/program/program-page.jsx:539-558 | the sort state moves by the toggle rule and nothing else changes |
| ProgramPage.ProgramDirectory.Prev | frontend/src/templates/program/program-page.jsx:710 | the page goes down by one and never below 1 |
| ProgramPage.ProgramDirectory.Next | frontend/src/templates/program/program-page.jsx:721 | the page goes up by one and never past the last page |
| ProgramPage.ProgramDirectory.ClampPage | frontend/src/templates/program/program-page.jsx:492-496 | the page is clamped to the last page |
| ProgramPage.ProgramDirectory.HandleDelete | frontend/src/templates/program/program-page.jsx:561-586 | without a logged-in user id, or on a failed delete, nothing changes; otherwise the program leaves the list |
| StudentPage.ColumnOrderIsTotalPreorder | frontend/src/templates/student/student-page.jsx:284-343 | every column comparator in either direction compares any two rows and is transitive |
| StudentPage.SortStudents | frontend/src/templates/student/student-page.jsx:284-343 | the sorted list is a permutation ordered by the column in the given direction |
| StudentPage.StudentDirectory.ToggleSort | frontend/src/templates/student/student-page.jsx:284-343 | sorts by the clicked column in the current direction and flips the one shared direction |
| StudentPage.SecondColumnSortsOtherWay | frontend/src/templates/student/student-page.jsx:284-343 | after an ascending click on one column, a click on another column sorts descending |
| StudentPage.StudentDirectory.Loaded | frontend/src/templates/student/student-page.jsx:276-281 | the load effect sets the list to the rows returned and keeps the direction and the page |
| StudentPage.StudentDirectory.Visible | frontend/src/templates/student/student-page.jsx:269-273 | the page is the unclamped slice of ten rows |
| StudentPage.PastLastPageIsEmpty | frontend/src/templates/student/student-page.jsx:271-273 | a page past the last one shows no rows, since nothing clamps it |
| StudentPage.StudentDirectory.Prev | frontend/src/templates/student/student-page.jsx:476 | the page goes down by one and never below 1 |
| StudentPage.StudentDirectory.Next | frontend/src/templates/student/student-page.jsx:485 | the page advances only while it is before `ceil(n/10)` |
| StudentPage.DeleteFilterAsWritten | frontend/src/templates/student/student-page.jsx:356 | the filter as written keeps a subsequence of the rows |
| StudentPage.AsWrittenDeleteKeepsEveryRow | frontend/src/templates/student/student-page.jsx:356 | as written, deleting a defined id leaves the list unchanged |
| StudentPage.RemoveStudent | frontend/src/templates/student/student-page.jsx:356 | the intended removal keeps exactly the rows with another `idnum`, in order |
| StudentPage.DeleteFilterCounterexample | frontend/src/templates/student/student-page.jsx:356 | one row deleted by its own id stays as written and goes with the intended filter |
| StudentPage.StudentDirectory.HandleDelete | frontend/src/templates/student/student-page.jsx:346-363 | with the intended filter: unconfirmed or failed deletes change nothing; a confirmed, successful one removes the rows with that `idnum` |
| StudentPage.StudentDirectory.HandleDeleteAsWritten | frontend/src/templates/student/student-page.jsx:346-363 | as written: a confirmed, successful delete runs the `s.idNum` filter, and the list is unchanged on every path |
| StudentPage.StudentForm.StartEditing | frontend/src/templates/student/student-page.jsx:88-104 | the edited student's six fields fill the form, or the form empties |
| StudentPage.StudentForm.Submit | frontend/src/templates/student/student-page.jsx:114-170 | no request when a field is empty; the payload carries the six fields under the service's names, updated by id when editing and added otherwise; success resets all six fields, failure keeps them |
| StudentPage.PlaceholderPassesCheck | frontend/src/templates/student/student-page.jsx:117-120 | the select placeholders have the value "null", which passes the emptiness check and is sent |

## Left out

- Flask, flask_cors, psycopg2 and flask_mail internals are left out. Each connection, statement round trip and `mail.send` is an `Attempt` parameter, and a failure becomes 500 carrying its text.
- Closing cursors and connections in the college and auth routes is not modelled. Those routes never close a connection on an exception path; that is a resource leak with no effect on the tables.
- The college update's rename does not propagate to `programs`. The foreign-key action of the schema is not part of this model; the rename is modelled on `colleges` only.
- Colleges.CollegeDatabase.UpdateCollege: a collision with an existing code is modelled as the database's unique-key error (500 with a stand-in text). The exact PostgreSQL message is not modelled.
- AuthRoutes.UserDatabase.RegisterUser: a taken username is modelled as the database's unique-key error, which consumes an id. The exact PostgreSQL message is not modelled.
- ItemsApi.ItemStore.GetItems: the order is stated as non-increasing ids, not strictly decreasing. Strictness follows from the distinct ids that `Valid` keeps, but it is not stated.
- Pool sizing and thread safety are left out (concurrency). Only the sequential acquire/release balance is modelled, as the counter `inUse`.
- `created_at` and `created_on` timestamps are parameters. The date parsing of the program filters (`new Date`, `setHours`, time zones, milliseconds) is abstracted as `DateBound`: no bound, unparseable, or an integer time.
- `localeCompare` is abstracted as the lexicographic order on code points (`StrLe`). Locale collation is not modelled.
- `toLowerCase` and ILIKE case folding fold ASCII letters only. Unicode case mapping is not modelled.
- JSON values are modelled as optional strings. Non-string values (numbers, booleans) in a request body are not modelled.
- A request body that is missing, not JSON, JSON `null` or a JSON array is not modelled; every form is an object of optional fields. On such a body `add_college`, `update_college` (colleges/routes.py:27-29, 99-101), `register_user` and `login_user` (auth/routes.py:24-27, 99-101) call `.get` on a non-dict, which raises and gives 500; `create_item` (app.py:51) turns a `null` body into `{}` and gives 400.
- ItemsApi.ItemStore.DeleteItem: accepts any integer id. Flask's `<int:item_id>` converter (app.py:70) does not match a negative id, so Flask answers 404 for one without calling the handler or touching the pool; that routing step is not modelled.
- StudentPage.Student: the fields are strings, so a null column is not expressible. On a null value `localeCompare` throws in the sort toggles (student-page.jsx:284-343), and the sort does not happen.
- StudentPage.StudentDirectory.HandleDelete: models the evidently intended filter on `idnum`, not the source's `s.idNum` filter; the behaviour as written, where the list stays unchanged, is `StudentPage.StudentDirectory.HandleDeleteAsWritten`.
- Fetch, Supabase client calls, `alert`, `toast`, `window.confirm` and rendering are left out as I/O. Their outcomes are parameters: a reply, a status, or a `confirmed` flag.
- The program page's add and update confirmations (`handleConfirmAdd`, `handleConfirmUpdate`) are left out. They call the Supabase client, and the model stops at the payload they receive.
- The student rows' edit and delete buttons (student-page.jsx:462, 466) are not modelled. They refer to an undefined `p`, so a click throws before any handler runs. The delete handler is modelled on its own.
- The program rows' React key `p.programCode` (program-page.jsx:685) is a rendering matter with no effect on state, so it is left out.
- The sign-in page stores `isLoggedIn` and `username` but no `userid`. `Session.SignInStorageIsNotASession` records that such storage is not a session; the sign-in page itself is not modelled.
- `backend/programs/routes.py`, `backend/students/routes.py` and `backend/config.py` are not part of this model. The first two go no further than the college routes. `SupabaseConfig` appears only as the cause of the college connection failure.
- The college page, the dashboards, the navigation bar and the other pure rendering components are not part of this model.

## Findings

| source | as written | input that shows it | evidently intended | confidence | as-written member | corrected member |
|---|---|---|---|---|---|---|
| backend/colleges/routes.py:13 | `psycopg2.connect(**SupabaseConfig)` unpacks a class, which raises `TypeError` | any well-formed add, e.g. `{"collegecode": "CCS", "collegename": "Computing"}`, gives 500 | connect with the database settings mapping, as the other routes do | high, not executed | Colleges.CollegeConnectionAlwaysRaises | Colleges.IntendedConnectionFollowsServer |
| frontend/src/templates/student/student-page.jsx:356 | the local delete compares `s.idNum`, but rows carry `idnum`, so every row is kept | one row with `idnum` "2023-0001", deleted by "2023-0001", stays in the list | keep the rows whose `idnum` differs from the deleted one | high, not executed | StudentPage.StudentDirectory.HandleDeleteAsWritten | StudentPage.RemoveStudent |
