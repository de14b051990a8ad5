# hpys2025 registration and attendance: a Dafny model

This project models the rules of the hpys2025 event app in Dafny. Participants register with a photo and receive a QR code. Volunteers scan them in per day and session. Admins search users and attendance. Group leaders see their group, tick payments and take attendance.

The backend keeps three tables: users, attendance records and group leaders. Here they are in-memory sequences. Each controller becomes a function from the tables and the request to the reply and the new tables. The handlers that change a table are methods on a class that holds it, and each is proved equal to that function.

The pages become one of two things:
- pure functions, for the submit checks and navigation targets;
- classes, for the state the React handlers overwrite: the form, the row lists and the dialogs.

A React effect that runs after a state change is modelled as a final assignment inside the method that changed the state. `Consistent()` states that the shown rows are what the effect computes. Every handler preserves it except the three payment handlers of the leader table as written: `LeaderTables.Table.UpdatePaymentStatus`, `HandleCheckboxChange` and `ConfirmUncheck` update only `filteredRows`, and `LeaderTables.StaleStatusAsWritten` shows the effect then undoing the new status (see "## Findings"). Their `Corrected` counterparts preserve it.

Modules, one per source file, plus shared text and sequence theory:
- `Text`: JavaScript string behaviour on ASCII: `trim`, `toLowerCase`, `includes`, `/^\d{10}$/`, decimal rendering, `split`, code-point order.
- `Seqs`, `Sorting`: filter, map, count, subsequence; a stable insertion sort obeying a total preorder, and that filtering commutes with it.
- `Uri`: `encodeURIComponent` and `decodeURIComponent` as section 19.2.6 of ECMA-262 defines them (UTF-8 octets as `%XX`, following section 2.1 of RFC 3986), and the round trip between them.
- `UserModel`, `AttendanceModel`: the two schemas, their unique indexes, and the table classes.
- `AttendanceController`, `AdminController`, `LeaderController`, `UserController`, `UserRoutes`: the backend handlers.
- `RegisterPage`, `RegisterDialog`, `LeaderTables`, `LeaderPanelTables`, `AdminUsers`, `LeaderLogin`, `LeaderIdPage`, `ShowCard`, `AttendanceHome`: the pages.
- `CardPage`: the email lookup in frontend/src/pages/Card.jsx.

Where a JavaScript value may be absent, `""` stands for a missing string field that the source tests with `!x`. `Option` is used where the source tells `null` apart from an empty value.

## Model

| member | source | states |
|---|---|---|
| AttendanceModel.FindTriple | backend/controllers/attendanceController.js:10 | `findOne({email, day, session})` finds a row exactly when some row holds that triple, and the row it returns holds it |
| AttendanceModel.MissingPaths | backend/models/Attendance.js:4-6 | a save reports `email`, `day` or `session` as missing exactly when that field is empty; nothing is missing only when all three are set |
| AttendanceModel.SaveConflict | backend/models/Attendance.js:3-8 | a save is accepted exactly when the required fields are present and the `_id` is fresh; no other index exists |
| AttendanceModel.SchemaAdmitsDuplicateTriple | backend/models/Attendance.js:3-8 | the schema accepts a second record of a stored triple, which breaks at-most-once per triple; only the controller's check prevents it |
| AttendanceModel.Attendances.Save | backend/controllers/attendanceController.js:17 | `record.save()` appends the record exactly when `SaveConflict` is none, otherwise leaves the rows; `_id` stays unique |
| AttendanceController.Mark | backend/controllers/attendanceController.js:4-22 | a missing field gives 400 (both directions); a stored triple gives 409 (both directions); neither changes the rows. Otherwise exactly one record with the triple is appended. 201 carries the record and the photo of the user with that email. With no such user the row is stored but nothing is sent. One row per triple is preserved |
| AttendanceController.PhotoOfTheUser | backend/controllers/attendanceController.js:16-22 | with unique emails the 201's `photo_url` is the photo of the user whose email was scanned |
| AttendanceController.MarkTwice | backend/controllers/attendanceController.js:10-17 | after one mark the triple is stored; a second mark of it, whatever its id and time, is refused with 409 and changes nothing; at most one row per triple |
| AttendanceController.OtherSessionIsNoDuplicate | backend/controllers/attendanceController.js:10-17 | a mark for the same email and day but another session is not a duplicate and appends its own row |
| AttendanceController.MarkAttendance | backend/controllers/attendanceController.js:4-22 | the handler's reply and the table afterwards are exactly `Mark`'s |
| UserModel.IndexOfId | backend/controllers/leader.controller.js:82-85 | the first row with the id, or none exactly when no row has it |
| UserModel.FindByEmail | backend/controllers/attendanceController.js:16 | `findOne({email})` returns a row with exactly that email, or none exactly when no row has it |
| UserModel.FindByEmailUnique | backend/models/User.js:8 | with the unique email index, looking up a stored email returns that very row |
| UserModel.SaveConflict | backend/models/User.js:8 | a save is refused for a duplicate `_id`, else for a duplicate email (both directions), and accepted exactly when both are fresh; address is not unique |
| UserModel.WithPaymentStatus | backend/controllers/leader.controller.js:82-89 | only `payment_status` of the one row changes; every other row is kept; unique ids and emails are preserved |
| UserModel.WithoutRow | backend/controllers/leader.controller.js:105-112 | removing a row keeps the others in order, the multiset shrinks by exactly that row, and uniqueness is preserved |
| UserModel.SaveRefusal | backend/models/User.js:7-8 | a `dob` that does not cast to a date is refused first, as a cast error on `dob` (both directions); a castable one is refused exactly on a duplicate `_id` or `email` |
| UserModel.Users.Save | backend/controllers/userController.js:54 | the table grows by the new row (no middle name or city, unpaid, `createdAt` the clock) exactly when `SaveRefusal` is none, and a refusal reports that error and leaves the table |
| UserModel.Users.UpdatePaymentStatus | backend/controllers/leader.controller.js:82-89 | with the id present, the row takes the new status and is returned; an unknown id changes nothing |
| UserModel.Users.DeleteById | backend/controllers/leader.controller.js:105-112 | with the id present, exactly that row is removed and the id returned; an unknown id changes nothing |
| AdminController.NewestFirstIsPreorder | backend/controllers/adminController.js:22 | `sort({createdAt: -1})` is a total preorder |
| AdminController.SelectedUsersMembers | backend/controllers/adminController.js:12-20 | the query selects a user exactly when there is no term or the term matches first name, last name or address |
| AdminController.GetAllUsers | backend/controllers/adminController.js:5-28 | the reply lists the selected users without `qr`, newest first, as a permutation of the selection; `total` is the length of `data` |
| AdminController.GetAllUsersSelects | backend/controllers/adminController.js:12-22 | a user is listed iff there is no term or it matches on first name, last name or address |
| AdminController.SearchEmails | backend/controllers/adminController.js:47-58 | the emails collected are exactly those of users matching first name, last name, email or address |
| AdminController.Order | backend/controllers/adminController.js:71-78 | each of the three sort specifications is a total preorder |
| AdminController.DayOrderMeaning | backend/controllers/adminController.js:74-75 | `sortBy=day` ranks by day ascending, then session ascending, then timestamp descending |
| AdminController.SessionOrderMeaning | backend/controllers/adminController.js:76-77 | `sortBy=session` ranks by session ascending, then day ascending, then timestamp descending |
| AdminController.DefaultOrderMeaning | backend/controllers/adminController.js:71 | any other `sortBy` ranks by timestamp alone, newest first |
| AdminController.UserOf | backend/controllers/adminController.js:85 | the joined user is the projection of a stored user with that email, or null exactly when none has it |
| AdminController.Join | backend/controllers/adminController.js:86-92 | a joined row copies `_id`, email, day, session and timestamp from its record |
| AdminController.GetAttendanceRecords | backend/controllers/adminController.js:40-101 | the records returned are exactly the stored ones passing the search, day and session filters, as a permutation, sorted by the chosen order; each carries the user with its email; `total` is their number |
| AdminController.NoMatchNoUsers | backend/controllers/adminController.js:12-28 | a non-empty term that matches no user's first name, last name or address gives an empty `data` and `total` 0 |
| AdminController.NoMatchingUserNoRecords | backend/controllers/adminController.js:47-59 | a search no user matches returns no records rather than all of them |
| AdminController.NoFilterAllRecords | backend/controllers/adminController.js:44-80 | without search, day or session every record is returned |
| LeaderController.FindLeader | backend/controllers/leader.controller.js:8-12 | returns a leader with exactly that email, or none exactly when there is none |
| LeaderController.LeaderEmail | backend/controllers/leader.controller.js:2-23 | 200 with the leader exactly when one has the email; 401 exactly when none has it; 500 when the email is not a string |
| LeaderController.LeaderEmailFindsTheLeader | backend/controllers/leader.controller.js:8-18 | with unique leader emails, a stored email logs in as that leader |
| LeaderController.GroupMembers | backend/controllers/leader.controller.js:44-50 | the users of the group, newest `createdAt` first, as a permutation of those stored |
| LeaderController.GroupMembersAreTheGroup | backend/controllers/leader.controller.js:44-50 | every listed user is stored and of the group, and every stored user of the group is listed |
| LeaderController.GroupData | backend/controllers/leader.controller.js:24-65 | 400 iff no email; 401 iff the leader is unknown; otherwise the group's users, projected onto the ten selected fields |
| LeaderController.GroupDataIsTheGroup | backend/controllers/leader.controller.js:40-63 | a known leader gets every user of their group and nobody of another group |
| LeaderController.PaymentDone | backend/controllers/leader.controller.js:72-95 | 400 exactly for a null or missing status (`false` is accepted); success exactly for a boolean status and a known id; then only that row's status changes; otherwise nothing changes |
| LeaderController.PaymentDoneChangesOneField | backend/controllers/leader.controller.js:76-90 | with unique ids, the row with the id gets exactly the new status, including `false`, and all other rows stay |
| LeaderController.DeleteUser | backend/controllers/leader.controller.js:97-118 | 400 iff no id; 500 iff the id is unknown; otherwise the reply is the id and exactly that row is removed |
| LeaderController.DeleteUserRemovesOnlyThatUser | backend/controllers/leader.controller.js:105-113 | after a delete no row has the id and every other row remains |
| LeaderController.HandlePaymentDone | backend/controllers/leader.controller.js:72-95 | the handler over the users table replies and updates exactly as `PaymentDone` |
| LeaderController.HandleDeleteUser | backend/controllers/leader.controller.js:97-118 | the handler over the users table replies and updates exactly as `DeleteUser` |
| UserController.UploadDir.constructor | backend/controllers/userController.js:22 | the upload directory starts with the given files |
| UserController.UploadDir.Write | backend/controllers/userController.js:30-39 | writing a file replaces exactly that name |
| UserController.UploadDir.Unlink | backend/controllers/userController.js:34 | `unlinkSync` succeeds exactly when the file exists, and removes only it |
| UserController.CompressedName | backend/controllers/userController.js:23-27 | the stored photo name is `compressed-` followed by the upload's name |
| UserController.QrName | backend/controllers/userController.js:38 | the QR file name is the email followed by `-qr.png` |
| UserController.Draft | backend/controllers/userController.js:40-53 | the saved fields are the body's, with `photo` and `qr` the two derived names |
| UserController.Register | backend/controllers/userController.js:7-65 | on success, 200 with the new row appended, named by the derived files, exactly when the upload, both libraries and the save succeed. A castable `dob` with a duplicate key gives 409 naming the field (both directions); an uncastable `dob` gives 500. A missing upload gives 500 and touches nothing. On every path the directory is stated: untouched until the photo is compressed, then compressed copy written and upload removed, then the QR of the email written exactly when `qrOk`, whatever the save does |
| UserController.DuplicateKeepsFiles | backend/controllers/userController.js:30-39 | re-registering a stored id or email gives 409 when `dob` casts and 500 when it does not; either way the table is kept and the compressed photo and the QR image, which holds the email, stay |
| UserController.DuplicateEmailIs409 | backend/controllers/userController.js:57-60 | registering a stored email gives 409 "A user with this email already exists." when `dob` casts, and 500 "Registration failed" when it does not; the table is kept |
| UserController.RegisterKeepsKeysUnique | backend/controllers/userController.js:40-54 | a registration keeps ids and emails unique |
| UserController.RegisterUser | backend/controllers/userController.js:7-65 | the handler, step by step over the directory and the table, ends exactly as `Register` |
| UserRoutes.UploadName | backend/routes/userRoutes.js:14 | the stored upload name ends with the client's file name |
| UserRoutes.UploadNameRoundTrip | backend/routes/userRoutes.js:14 | what precedes the first dash is the decimal upload time, and what follows it is the client's file name |
| UserRoutes.NormalizeEmail | backend/routes/userRoutes.js:21-22 | an absent or empty parameter gives ""; any decoded result is lower case; a malformed escape gives no value |
| UserRoutes.LowerIdempotent | backend/routes/userRoutes.js:22 | lower-casing twice is lower-casing once |
| UserRoutes.FindFirstInsensitive | backend/routes/userRoutes.js:29-36 | returns a stored user whose email equals the lookup ignoring case, and none exactly when no user does |
| UserRoutes.GetUserByEmail | backend/routes/userRoutes.js:20-49 | no reply iff decoding throws; 400 iff the decoded email is empty; 404 iff no email matches ignoring case; else 200 with a matching user |
| UserRoutes.LookupFindsTheUser | backend/routes/userRoutes.js:20-44 | with emails unique ignoring case, a query value that decodes to a stored non-empty email gets 200 with exactly that user |
| UserRoutes.CountUsers | backend/routes/userRoutes.js:50-53 | `count` is the number of stored users, which with unique emails is the number of stored emails |
| UserRoutes.EmailCount | backend/models/User.js:8 | with unique emails there are as many distinct emails as users |
| RegisterPage.Set | frontend/src/pages/Register.jsx:35-41 | `handleInputChange` changes exactly the named field |
| RegisterPage.SetSame | frontend/src/pages/Register.jsx:35-41 | writing a field's own value changes nothing; of two writes the last wins |
| RegisterPage.WithEduType | frontend/src/pages/Register.jsx:352-362 | changing `eduType` clears standard, stream, schoolName, collegeName, branch and semester, and keeps every other field |
| RegisterPage.WithStandard | frontend/src/pages/Register.jsx:376-382 | changing `standard` clears only `stream` |
| RegisterPage.ResetsHideStream | frontend/src/pages/Register.jsx:352-392 | after an eduType change no stream is chosen or offered; after a standard change the stream is offered exactly for a school standard "11" or "12" |
| RegisterPage.FirstFailure | frontend/src/pages/Register.jsx:69-92 | each message is reported exactly when its check is the first to fail, in order: photo, dob, ten-digit phone, non-blank reference, group; none iff all pass |
| RegisterPage.Entries | frontend/src/pages/Register.jsx:99-108 | one entry per `formData` key, in key order |
| RegisterPage.EntriesMeaning | frontend/src/pages/Register.jsx:99-108 | keys are sent once each; each text field under its own name; `dob` as the prefix of its ISO text before the first 'T' |
| RegisterPage.KeyOf | frontend/src/pages/Register.jsx:12-28 | each input's name is a `formData` key other than `dob` |
| RegisterPage.IndexOf | frontend/src/pages/Register.jsx:12-28 | each input's name stands at its place in the key order |
| RegisterPage.RegisterForm.constructor | frontend/src/pages/Register.jsx:12-32 | the form starts empty, with no photo and not loading |
| RegisterPage.RegisterForm.HandleInputChange | frontend/src/pages/Register.jsx:35-41 | the form becomes `Set` of the old one; photo and loading are unchanged |
| RegisterPage.RegisterForm.HandleDateChange | frontend/src/pages/Register.jsx:60-63 | only `dob` changes |
| RegisterPage.RegisterForm.HandleEduTypeChange | frontend/src/pages/Register.jsx:352-362 | the form becomes `WithEduType` of the old one |
| RegisterPage.RegisterForm.HandleStandardChange | frontend/src/pages/Register.jsx:376-382 | the form becomes `WithStandard` of the old one |
| RegisterPage.RegisterForm.HandlePhotoChange | frontend/src/pages/Register.jsx:43-58 | a file over 5 MiB is refused with its toast and the previous photo kept; otherwise it becomes the photo |
| RegisterPage.RegisterForm.AppendFields | frontend/src/pages/Register.jsx:99-108 | the loop appends exactly `Entries(form)`, one text part per key |
| RegisterPage.RegisterForm.HandleSubmit | frontend/src/pages/Register.jsx:65-137 | a failing check shows its toast, sends nothing and leaves `loading`. Otherwise the entries then the photo are sent, `loading` ends false, and the page navigates to "/" exactly on success. The toasts: the success message on success; on a refusal its error, or "Registration failed" when that is missing or empty; on a request that fails, its message then "Registration failed. Please try again." |
| RegisterPage.RefusalMessage | frontend/src/pages/Register.jsx:128 | `data.error \|\| "Registration failed"`: a non-empty error is shown as it is, a missing or empty one gives the fallback, and the toast is never empty |
| RegisterDialog.Change | frontend/src/pages/admin/RegisterUserDialog.jsx:67-69 | `handleChange` sets exactly the named field |
| RegisterDialog.ErrorsForKeys | frontend/src/pages/admin/RegisterUserDialog.jsx:57-62 | each check adds its key with its message exactly when it fails, independently of the others |
| RegisterDialog.ErrorKeys | frontend/src/pages/admin/RegisterUserDialog.jsx:58-62 | `full_name` error iff the trimmed name is empty; `phone` iff not ten digits; `reference` iff the trimmed reference is empty; `group` iff empty, with no allow-list check; each with its message |
| RegisterDialog.ErrorsEmptyIffValid | frontend/src/pages/admin/RegisterUserDialog.jsx:56-65 | no error at all exactly when all four fields pass |
| RegisterDialog.Dialog.constructor | frontend/src/pages/admin/RegisterUserDialog.jsx:46-54 | four empty fields, no errors, not submitting |
| RegisterDialog.Dialog.HandleChange | frontend/src/pages/admin/RegisterUserDialog.jsx:67-69 | the form becomes `Change` of the old one |
| RegisterDialog.Dialog.Validate | frontend/src/pages/admin/RegisterUserDialog.jsx:56-65 | four independent checks store exactly `Errors(form)`, and the result is true iff it is empty |
| RegisterDialog.Dialog.HandleSubmit | frontend/src/pages/admin/RegisterUserDialog.jsx:71-95 | errors mean no request and nothing else changes; otherwise the form is sent, `isSubmitting` ends false, a 200 resets the form to four empty strings and shows "Participant registered successfully 🎉", any other resolved status shows no toast, and a rejection shows "Registration failed. Please try again." |
| LeaderTables.NameText | frontend/src/pages/admin/group-leader-tables.jsx:77 | the searched text starts with the first name and ends with the last name |
| LeaderTables.ShownMeaning | frontend/src/pages/admin/group-leader-tables.jsx:71-83 | a blank term shows all rows; otherwise an order-preserving sub-list holding exactly the rows whose lower-cased name text contains the lower-cased term |
| LeaderTables.WithStatus | frontend/src/pages/admin/group-leader-tables.jsx:95-99 | rows with the id get the new status; all others stay |
| LeaderTables.Without | frontend/src/pages/admin/group-leader-tables.jsx:128-129 | an order-preserving sub-list without the id that keeps every other row |
| LeaderTables.TotalPaid | frontend/src/pages/admin/group-leader-tables.jsx:140-142 | at most the number of rows; zero iff no row is paid; all iff every row is paid |
| LeaderTables.GroupName | frontend/src/pages/admin/group-leader-tables.jsx:139 | the first row's group, "N/A" with no rows |
| LeaderTables.ShownWithStatus | frontend/src/pages/admin/group-leader-tables.jsx:71-99 | searching then updating equals updating then searching |
| LeaderTables.ShownWithout | frontend/src/pages/admin/group-leader-tables.jsx:122-130 | searching then deleting equals deleting then searching |
| LeaderTables.TotalPaidAfterChange | frontend/src/pages/admin/group-leader-tables.jsx:140-142 | ticking an unpaid row raises the paid count by one and un-ticking a paid row lowers it by one |
| LeaderTables.StaleStatusAsWritten | frontend/src/pages/admin/group-leader-tables.jsx:71-100 | as written, a row just ticked is shown paid, but the next run of the search effect shows it unpaid again |
| LeaderTables.StatusSurvivesSearch | frontend/src/pages/admin/group-leader-panel-tables.jsx:103-115 | corrected: with `allRows` updated too, any later search shows the row with its new status |
| LeaderTables.LoadedShowsTheGroup | frontend/src/pages/admin/group-leader-tables.jsx:57-60 | after loading a leader's data with no search, every user of the group is shown, and the heading names the group |
| LeaderTables.Table.constructor | frontend/src/pages/admin/group-leader-tables.jsx:31-43 | empty lists and term, closed dialogs, consistent |
| LeaderTables.Table.Loaded | frontend/src/pages/admin/group-leader-tables.jsx:57-83 | a 200 with data sets both lists and the effect shows the search of it; otherwise nothing changes |
| LeaderTables.Table.SetSearch | frontend/src/pages/admin/group-leader-tables.jsx:71-83 | the term changes and the rows shown become its search over `allRows` |
| LeaderTables.Table.UpdatePaymentStatus | frontend/src/pages/admin/group-leader-tables.jsx:85-106 | as written: on a 200 only `filteredRows` gets the new status; `allRows` keeps the old one |
| LeaderTables.Table.UpdatePaymentStatusBoth | frontend/src/pages/admin/group-leader-panel-tables.jsx:103-115 | corrected: both lists get the new status and the rows shown stay the search of `allRows` |
| LeaderTables.Table.HandleCheckboxChange | frontend/src/pages/admin/group-leader-tables.jsx:108-115 | a paid row opens the confirmation with target false; an unpaid one is set to true at once with the update as written, so only `filteredRows` changes and `allRows` is kept |
| LeaderTables.Table.ConfirmUncheck | frontend/src/pages/admin/group-leader-tables.jsx:299-304 | the dialog closes, the waiting row is cleared, and exactly its stored (id, status) is applied with the update as written: only `filteredRows` changes |
| LeaderTables.Table.HandleCheckboxChangeCorrected | frontend/src/pages/admin/group-leader-panel-tables.jsx:103-115 | corrected: the same choice as `HandleCheckboxChange`, with the update applied to both lists, keeping the rows shown the search of `allRows` |
| LeaderTables.Table.ConfirmUncheckCorrected | frontend/src/pages/admin/group-leader-panel-tables.jsx:103-115 | corrected: `ConfirmUncheck` with the update applied to both lists, keeping the rows shown the search of `allRows` |
| LeaderTables.Table.CancelConfirm | frontend/src/pages/admin/group-leader-tables.jsx:287-296 | only the dialog closes |
| LeaderTables.Table.HandleDeleteUser | frontend/src/pages/admin/group-leader-tables.jsx:122-137 | on a 200 the row with that id leaves both lists; the delete dialog closes and its row is cleared in every case |
| LeaderPanelTables.SessionLabel | frontend/src/pages/admin/group-leader-panel-tables.jsx:203 | the label is "Session " followed by the key without its first character |
| LeaderPanelTables.AllowedSessionLabels | frontend/src/pages/admin/group-leader-panel-tables.jsx:196-203 | the five keys are labelled "Session 1" to "Session 5" |
| LeaderPanelTables.DisplayName | frontend/src/pages/admin/group-leader-panel-tables.jsx:255 | "N.A." exactly for a missing or empty name, or the name "N.A." itself |
| LeaderPanelTables.ShownMeaning | frontend/src/pages/admin/group-leader-panel-tables.jsx:81-91 | a blank term shows all rows; otherwise the shown rows are stored rows whose full name contains the term ignoring case, and every such row is shown |
| LeaderPanelTables.WithSession | frontend/src/pages/admin/group-leader-panel-tables.jsx:104-114 | rows with the id get `[session]: value`; all others stay |
| LeaderPanelTables.WithSessionChecks | frontend/src/pages/admin/group-leader-panel-tables.jsx:104-114 | the updated row's box for that session shows the value; every other session's box is as before |
| LeaderPanelTables.ShownWithSession | frontend/src/pages/admin/group-leader-panel-tables.jsx:81-115 | searching and updating a session commute |
| LeaderPanelTables.UpdateSurvivesSearch | frontend/src/pages/admin/group-leader-panel-tables.jsx:81-115 | after an update, every shown row of that participant has the new value, whatever the search |
| LeaderPanelTables.Panel.constructor | frontend/src/pages/admin/group-leader-panel-tables.jsx:34-47 | session "s1", empty lists, closed dialog |
| LeaderPanelTables.Panel.Loaded | frontend/src/pages/admin/group-leader-panel-tables.jsx:62-91 | a 200 with data sets both lists and the effect shows its search; otherwise nothing changes |
| LeaderPanelTables.Panel.SelectSession | frontend/src/pages/admin/group-leader-panel-tables.jsx:196 | only the selected session changes |
| LeaderPanelTables.Panel.SetSearch | frontend/src/pages/admin/group-leader-panel-tables.jsx:81-91 | the rows shown become the search of `allRows` |
| LeaderPanelTables.Panel.UpdateAttendance | frontend/src/pages/admin/group-leader-panel-tables.jsx:93-121 | on a 200 both lists get the new value for that session on the rows with the id, and the rows shown stay consistent |
| LeaderPanelTables.Panel.HandleCheckboxChange | frontend/src/pages/admin/group-leader-panel-tables.jsx:123-130 | a true cell opens the confirmation with value false; any other cell is set to true at once |
| LeaderPanelTables.Panel.ConfirmUncheck | frontend/src/pages/admin/group-leader-panel-tables.jsx:300-309 | exactly the stored (id, value, session) is applied, and the dialog and stored row are cleared |
| LeaderPanelTables.Panel.CancelConfirm | frontend/src/pages/admin/group-leader-panel-tables.jsx:297 | only the dialog closes |
| AdminUsers.LocalFilterMeaning | frontend/src/pages/admin/AdminUsers.jsx:37-52 | an empty term shows all users; otherwise an order-preserving sub-list holding exactly the users with a non-empty first name, last name or address containing the term in lower case |
| AdminUsers.LocalMatchesIsServerMatch | frontend/src/pages/admin/AdminUsers.jsx:45-48 | for a non-empty term the local test is the server's `$or` of case-insensitive matches |
| AdminUsers.LocalSearchAgreesWithServer | frontend/src/pages/admin/AdminUsers.jsx:37-52 | filtering the full list locally yields exactly the server's answer for that term, in the same order, with its `total` |
| AdminUsers.Page.constructor | frontend/src/pages/admin/AdminUsers.jsx:8-12 | empty lists, loading, no error |
| AdminUsers.Page.Loaded | frontend/src/pages/admin/AdminUsers.jsx:16-33 | a successful body sets `allUsers` and the filter follows; a failed one records its message; an exception records "Failed to fetch users"; loading ends |
| AdminUsers.Page.HandleSearch | frontend/src/pages/admin/AdminUsers.jsx:54-56 | the term changes, `allUsers` does not, and the list shown becomes its filter |
| LeaderLogin.GroupNamesShape | frontend/src/pages/admin/group-leader-login.jsx:15-38 | 22 distinct non-empty names, "All" first |
| LeaderLogin.HandleSubmit | frontend/src/pages/admin/group-leader-login.jsx:46-68 | no group: the error and nothing else. A listed group: the error cleared and navigation to the prefix plus the group. Any other group: the "Invalid group selected" toast. Each iff |
| LeaderLogin.NavigationNamesTheGroup | frontend/src/pages/admin/group-leader-login.jsx:58-59 | the page opened is named by the group |
| LeaderIdPage.IndexOf | frontend/src/pages/admin/group-leader-id-page.jsx:23 | the first position of the character, or the length |
| LeaderIdPage.EmailAcceptedIffPattern | frontend/src/pages/admin/group-leader-id-page.jsx:23 | the pattern holds iff there is no white space, exactly one '@' with text before it, and after it a '.' with text on both sides |
| LeaderIdPage.HandleSubmit | frontend/src/pages/admin/group-leader-id-page.jsx:20-64 | a rejected email sets the error and sends nothing; an accepted one clears it and sends; navigation iff 200 with data, to the panel at its email; the toast iff 401 or 500 |
| LeaderIdPage.SignInOpensThePanel | frontend/src/pages/admin/group-leader-id-page.jsx:45-59 | with the real server, a stored email opens that leader's panel and an unknown one gets the toast |
| ShowCard.HandleSubmit | frontend/src/pages/ShowCard.jsx:10-14 | an empty email alerts (both directions); otherwise the path is the card prefix followed by `encodeURIComponent(email)` |
| ShowCard.CardQueryRoundTrip | frontend/src/pages/ShowCard.jsx:13 | the query value has no '&', '=' or '?', and decodes to exactly the email |
| CardPage.ParamValueOfPlain | frontend/src/pages/Card.jsx:22 | a value without '&', '+' or '%' is read as it is written |
| CardPage.ParamValueOfEncoded | frontend/src/pages/Card.jsx:22 | `URLSearchParams.get` reads an `encodeURIComponent` value back as exactly the text that was encoded |
| CardPage.PageEmailIsTyped | frontend/src/pages/Card.jsx:22 | the card component's `email` is exactly the email typed into the card finder |
| CardPage.Lookup | frontend/src/pages/Card.jsx:24-28 | no request exactly when `email` is empty |
| CardPage.CardFindsTheUser | frontend/src/pages/Card.jsx:22-28 | with emails unique ignoring case, a user whose address has only letters, digits, `- _ . ! ~ * ' ( )` and '@' is found by the lookup after typing that email |
| CardPage.PlusAddressIsNotFound | frontend/src/pages/Card.jsx:28 | an address with a '+' is read correctly by the component but re-sent unencoded, so the backend reads a space and even its only user is not found |
| AttendanceHome.HandleSubmit | frontend/src/pages/attendance/AttendanceHome.jsx:10-14 | alert iff either field is missing; otherwise the scan path with both values unencoded |
| AttendanceHome.QuerySplits | frontend/src/pages/attendance/AttendanceHome.jsx:13 | values without '&' and '=' come back by splitting the query |
| AttendanceHome.OfferedValuesRoundTrip | frontend/src/pages/attendance/AttendanceHome.jsx:22-34 | every offered day and session pair navigates and splits back into itself |
| Uri.Encode | frontend/src/pages/ShowCard.jsx:13 | the encoding holds only unescaped characters and '%' |
| Uri.DecodeOneEncoded | backend/routes/userRoutes.js:22 | decoding reads an encoded character back in one step, consuming exactly its encoding |
| Uri.Utf8Decodes | frontend/src/pages/ShowCard.jsx:13 | each UTF-8 octet sequence has the right lead and continuation octets and recombines to the code point |
| Uri.DecodePlain | backend/routes/userRoutes.js:22 | text without '%' decodes to itself |
| Uri.DecodeEncode | backend/routes/userRoutes.js:22 | `decodeURIComponent(encodeURIComponent(s)) == s` for every string |
| Uri.EncodedHasNoDelimiters | frontend/src/pages/ShowCard.jsx:13 | the encoding holds no '&', '=', '?' or '#' |
| Text.TrimEmptyIffBlank | frontend/src/pages/admin/RegisterUserDialog.jsx:58-61 | `s.trim() === ""` exactly for blank strings |
| Text.DecimalRoundTrip | backend/routes/userRoutes.js:14 | the decimal rendering of `Date.now()` reads back as the number |
| Text.BeforeIsPrefix | frontend/src/pages/Register.jsx:103 | `split("T")[0]` is a prefix without 'T' that ends at the first 'T' or the end |

## Left out

- Storage and drivers: MongoDB, Prisma and their connection errors. The tables are sequences. The leader handlers' catch-all 500 is modelled only for an unknown id or a wrongly typed value.
- `$regex` search: the admin queries treat the term as a literal substring. Regular expression metacharacters in a search term are not modelled.
- Case: `toLowerCase` and the `i` option fold ASCII letters only.
- Floating point and dates: `Date.now()` and `createdAt` are integer parameters. `toISOString` is a given text, and time zones are not modelled. Whether a `dob` text casts to a `Date` is the parameter `dobCasts`; JavaScript's date parsing is not modelled.
- Ties in sorting: Mongo and Prisma do not fix the order of equal keys. The model sorts stably over storage order and states only sortedness and permutation.
- Concurrency: the race between `findOne` and `save` in `markAttendance`, `Promise.all` in the attendance join, and overlapping React requests. Each handler runs to completion before the next one.
- File contents and libraries: image data, `sharp` resizing, `QRCode` rendering, multer's disk storage and `path.join`. Files are named contents; `compressOk` and `qrOk` stand for whether the libraries succeed.
- Generated ids: `_id` and the Prisma id are parameters chosen by the caller.
- HTTP plumbing: axios's rule that a status outside 2xx rejects, Express's own decoding of query strings, array-valued query parameters, and `res.json` serialisation. `...record` spreads Mongoose internals into the reply; the model carries the record itself.
- Leader routes without a handler here: the panel's data endpoint (`/api/leader/get-data/:group`), `/api/leader/take-attendance` and `/api/leader/register-user`. backend/routes/leader.route.js imports `groupDataController`, `takeAttendance` and `registerNewUser`, which are not part of this model. The pages' requests to them are modelled only by whether they answer 200.
- The 3D card renderers, the QR scanner page and the UI-only pages: graphics, camera callbacks, and layout.
- `RegisterPage.SentValue`: an unset `dob` is sent as "null". A body field missing from a request, which the backend would store as undefined, is not modelled.
- `UserModel`: the users table is one sequence carrying both the Mongoose fields and the Prisma columns that the leader endpoints read (`middle_name`, `city`, `payment_status`).
- `Uri`: Dafny characters are Unicode scalar values, so the URIError that `encodeURIComponent` raises on a lone surrogate is not modelled.
- `AttendanceHome.HandleSubmit`: a space in the day or session is written into the path as it is; how the router later encodes it is not modelled.
- `CardPage`: frontend/src/App.jsx mounts Card3D, which makes no lookup, at "/card"; the lookup is modelled as Card.jsx writes it.
- `CardPage.ParamValue`: on a value whose escapes `decodeURIComponent` rejects, the model keeps the whole value undecoded, as Express's query parser does. `URLSearchParams` differs there: it keeps a '%' not followed by two hex digits as a literal '%' and still decodes the other escapes (`email=%zz%41` reads "%zzA"), and only octets that are not valid UTF-8, such as `%FF`, become U+FFFD. The two agree on every value without a malformed escape, which includes every `encodeURIComponent` output. The browser's own normalisation of characters in a URL is not modelled.
- `LeaderTables.Table.ConfirmUncheck` and `LeaderPanelTables.Panel.ConfirmUncheck`: the dialog closes before the asynchronous update returns, so the model closes it first.
- `LeaderTables.NameText`: a missing middle name renders as "null", the string a template literal gives for `null`; an undefined one would render "undefined".

## Findings

| source | as written | input that shows it | evidently intended | confidence | as-written member | corrected member |
|---|---|---|---|---|---|---|
| frontend/src/pages/admin/group-leader-tables.jsx:94-100 | a successful payment update maps only `filteredRows`, while the search effect (lines 71-83) rebuilds `filteredRows` from `allRows` | tick an unpaid participant, then edit the search term: the participant is shown unpaid although the server stored paid | update `allRows` as well, as the attendance panel does at group-leader-panel-tables.jsx:103-115 | not executed | LeaderTables.StaleStatusAsWritten | LeaderTables.StatusSurvivesSearch |
