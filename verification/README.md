# Attendance app core, modelled in Dafny

This project models the logic core of the attendance-tracking web front end
(`attendence-app`): the role-aware date formatter (`formatDate`,
`getRelativeDate`, `formatDateRange` and the previous-day step), the signup and
settings form validators and their change handlers, attendance marking with its
counts and percentage, the login page's credential lookup, the `AuthContext`
session, and the role filters and lookups of the `Table`, `Sidebar`, `Button`
and `Card` components.

Modules follow the source files:

- `Calendar` (calendar.dfy): calendar days, local date-times, and the previous-day step.
- `Text` (text.dfy): JavaScript `trim`, `toString` and `padStart`.
- `Seqs` (seqs.dfy): `filter`, `find` and `findIndex`.
- `FormRules` (form_rules.dfy): the error map, the email pattern and error clearing.
- `FormatDate` (format_date.dfy): `utils/formatDate.js`.
- `Signup` (signup.dfy), `Settings` (settings.dfy), `Attendance` (attendance.dfy), `Login` (login.dfy): the pages of the same names.
- `Auth` (auth.dfy): `context/AuthContext.jsx`.
- `Visibility` (visibility.dfy): the role gate that `Button` and `Card` share.
- `Button`, `Card`, `Table`, `Sidebar`: the components of the same names.
- `Wrappers` (wrappers.dfy): `Option`.

A JavaScript `Date` is modelled by what the code reads from it. An invalid date
is a value of its own. A valid date is its local year, month, day, hour and
minute, as `getFullYear`, `getMonth() + 1`, `getDate`, `getHours` and
`getMinutes` report them.

The current moment (`new Date()` in `getRelativeDate`) is a parameter. So is
today's date text, which initialises the attendance page.

React state updates are pure functions from one page state to the next. A
simulated request's `setTimeout` callback is a step of its own: `BeginSubmit` and
`FinishSubmit` on the login page, `SubmitProfile` and `FinishProfileSave`,
`SubmitPasswords` and `FinishPasswordChange` on the settings page. Any other step,
such as typing, may come between the two. The login callback judges the form as it
stood when submit ran, which the page state keeps as `submitted`; typing in between
changes the inputs but not the outcome.

The rendered text is given an inverse: `ParseDateText`, `ParseTime24`,
`ParseTime12` and `ParseDateRange` read it back. The rendering lemmas are round
trips through these readers.

Where the code's own hints suggest otherwise, the model follows what the code does.
The hints are the `'DD-MM-YYYY'` patterns in `roleFormats` (formatDate.js:11-26) and the
`|| roleFormats.student` fallback (formatDate.js:50):

- **Unknown roles and relative dates.** `getRelativeDate` reads
  `roleFormats[role]?.relative` with no fallback to `student`. An unrecognised
  role therefore never sees "Today" or "Yesterday", although a student does
  (`FormatDate.UnknownRoleHasNoRelativeDates`). `formatDate` alone falls back to
  the student profile.
- **The year is not padded.** `getFullYear()` is interpolated as is. Years
  before 1000 print with fewer than four digits, and negative years print with a
  minus sign.

## Model

| member | source | states |
|---|---|---|
| Calendar.DaysInMonth | frontend/src/utils/formatDate.js:96-97 | month lengths are 28 to 31 days; February has 29 days exactly in Gregorian leap years |
| Calendar.PrevDay | frontend/src/utils/formatDate.js:96-97 | `setDate(getDate() - 1)` yields a day before the given one, with no valid calendar day strictly between them |
| Calendar.PrevNextInverse | frontend/src/utils/formatDate.js:96-97 | stepping back one day and then forward one day (or the reverse) returns to the start |
| Calendar.PrevDayUnique | frontend/src/utils/formatDate.js:96-97 | any day that immediately precedes `d` in calendar order is the previous day of `d` |
| Calendar.PrevDayMonthAndYearEnds | frontend/src/utils/formatDate.js:96-97 | the day before 1 March is 29 February exactly in leap years; the day before New Year's Day is 31 December of the previous year |
| Calendar.DayOf | frontend/src/utils/formatDate.js:104-108 | setting the time to midnight keeps the year, month and day |
| Seqs.Filter | frontend/src/components/Sidebar.jsx:37-39 | `filter` keeps exactly the elements that satisfy the predicate, and no more elements than it was given |
| Seqs.FilterIsSubsequence | frontend/src/components/Table.jsx:77-79 | the filtered elements appear in their original order |
| Seqs.FilterMonotone | frontend/src/components/Sidebar.jsx:37-39 | a stronger predicate selects a subsequence of what a weaker one selects |
| Seqs.FilterAppend | frontend/src/pages/attendance.jsx:93 | filtering a concatenation is the concatenation of the filtered parts |
| Seqs.FilterComplement | frontend/src/pages/attendance.jsx:93-94 | the elements that pass and the elements that fail add up to the whole length |
| Seqs.FilterAll | frontend/src/pages/attendance.jsx:62 | a predicate every element satisfies leaves the sequence unchanged |
| Seqs.FilterNone | frontend/src/pages/attendance.jsx:40 | a predicate no element satisfies leaves nothing |
| Seqs.FindIndex | frontend/src/pages/attendance.jsx:88 | the result is the first index whose element matches; there is none exactly when no element matches |
| Seqs.Find | frontend/src/pages/signup.jsx:117 | `find` returns a matching element exactly when one exists, and it is the first matching element |
| Text.SkipWhitespace | frontend/src/pages/signup.jsx:69 | scanning forward stops at the first non-whitespace character at or after the start, or at the end; everything skipped is whitespace |
| Text.SkipWhitespaceBack | frontend/src/pages/signup.jsx:69 | scanning backward stops just after the last non-whitespace character above the lower bound; everything skipped is whitespace |
| Text.Trim | frontend/src/pages/signup.jsx:69 | `trim()` is a contiguous slice without whitespace at either end; everything removed before and after it is whitespace; `!s.trim()` holds exactly when every character is whitespace |
| Text.NatToString | frontend/src/utils/formatDate.js:31 | `toString` yields decimal digits without a leading zero; one digit below 10, two digits from 10 to 99 |
| Text.NatToStringRoundTrip | frontend/src/utils/formatDate.js:31 | reading the rendered digits back gives the number |
| Text.IntToString | frontend/src/utils/formatDate.js:55 | the rendering starts with '-' exactly for negative numbers, and the magnitude has no leading zero: `toString` does not pad |
| Text.IntToStringRoundTrip | frontend/src/utils/formatDate.js:66 | the rendered year, negative or not, reads back as the year |
| Text.ParseIntCanonical | frontend/src/utils/formatDate.js:55 | any text the integer reader accepts is the `toString` text of its value, so a read-back fixes the year's text, with no padding zero and no "-0" |
| Text.DigitsCanonical | frontend/src/utils/formatDate.js:55 | digits without a leading zero are the `toString` text of their value |
| Text.IntToStringHasNoSpace | frontend/src/utils/formatDate.js:66 | a rendered year contains no space |
| Text.LeadingZero | frontend/src/utils/formatDate.js:31 | a leading '0' added by `padStart` does not change the value |
| Text.PadZero | frontend/src/utils/formatDate.js:31 | `padZero` gives at least two digits, exactly two below 100, and they still denote the number |
| FormRules.ClearError | frontend/src/pages/signup.jsx:61-63 | typing blanks the field's shown error, keeps the key, and leaves every other entry alone |
| FormRules.NameRule | frontend/src/pages/signup.jsx:69-71 | the name is required exactly when it is blank |
| FormRules.EmailRule | frontend/src/pages/signup.jsx:73-77 | a blank email is "required"; otherwise it is "invalid" exactly when `\S+@\S+\.\S+` matches nowhere in the untrimmed text |
| FormRules.CollectErrors | frontend/src/pages/signup.jsx:66-97 | the error map has an entry for exactly the failed rules, holding each rule's message |
| FormRules.NoErrorsIffAllPass | frontend/src/pages/signup.jsx:98 | the collected map is empty exactly when every rule passes |
| FormRules.LooksLikeEmailIffRegex | frontend/src/pages/signup.jsx:75 | the executable email check accepts exactly the strings in which the unanchored pattern matches somewhere |
| FormRules.EmailExamples | frontend/src/pages/settings.jsx:108 | surrounding spaces do not stop a match; a space between '@' and '.' does, and so does a '.' right after the '@' |
| FormatDate.RoleFormatOf | frontend/src/utils/formatDate.js:9-28 | the table has an entry exactly for the lower-case names admin, teacher and student |
| FormatDate.Hour12 | frontend/src/utils/formatDate.js:59 | `hours24 % 12 \|\| 12` lies in 1..12 and agrees with the hour modulo 12 |
| FormatDate.Meridiem | frontend/src/utils/formatDate.js:61 | the marker is "AM" exactly before noon, and "PM" otherwise |
| FormatDate.FormatDate | frontend/src/utils/formatDate.js:40-85 | the result is "Invalid Date" exactly for an invalid date |
| FormatDate.DateText | frontend/src/utils/formatDate.js:53-55 | `${day}-${month}-${year}` has dashes at positions 2 and 5, ends in the year's `toString`, reads back as the moment's day, month and year, and holds no space |
| FormatDate.PadZeroTwo | frontend/src/utils/formatDate.js:53-54 | a padded day, month, hour or minute is exactly two digits that denote the value |
| FormatDate.Time24Text | frontend/src/utils/formatDate.js:70 | `HH:mm` has five characters and reads back as the hour and minute |
| FormatDate.Time12Text | frontend/src/utils/formatDate.js:72 | `hh:mm AM` has eight characters, reads back as the 24-hour clock, and ends in "AM" exactly before noon |
| FormatDate.GetRelativeDate | frontend/src/utils/formatDate.js:93-119 | "Invalid Date" exactly for an invalid date; "Today" exactly for a relative role on today's day; "Yesterday" exactly for a relative role on the previous day; otherwise the plain date text |
| FormatDate.FormatDateRange | frontend/src/utils/formatDate.js:128-133 | an invalid start makes the range begin with "Invalid Date to", an invalid end makes it end with " to Invalid Date", and every valid endpoint, whatever the other one is, reads back as its own date |
| FormatDate.InvalidDateEverywhere | frontend/src/utils/formatDate.js:45-47 | an invalid date gives "Invalid Date" in every mode and role, from `getRelativeDate`, and at either end of a range |
| FormatDate.DateModeRendering | frontend/src/utils/formatDate.js:64-83 | 'date' mode and any unrecognised mode render the same role-independent `DD-MM-YYYY` text, which reads back as the moment's date |
| FormatDate.TimeModeRendering | frontend/src/utils/formatDate.js:68-73 | admin and teacher get a 24-hour `HH:mm`; every other role gets a 12-hour `hh:mm AM/PM`; both read back as the moment's time |
| FormatDate.YearNotPadded | frontend/src/utils/formatDate.js:55-66 | a year before 1000 gives a date text shorter than `DD-MM-YYYY`, and a positive year never starts with a padding zero |
| FormatDate.Hour12Wraparound | frontend/src/utils/formatDate.js:58-61 | midnight shows as 12 AM, noon as 12 PM, and 13:00 as 1 PM |
| FormatDate.FullModeIsDateThenTime | frontend/src/utils/formatDate.js:75-80 | 'full' is the date text, a space, and the same role's time text |
| FormatDate.UnknownRoleFormatsAsStudent | frontend/src/utils/formatDate.js:50 | a role without a table entry formats exactly as 'student' |
| FormatDate.RelativeDateForRelativeRoles | frontend/src/utils/formatDate.js:100-118 | for admin and student, "Today" appears exactly on today's day and "Yesterday" exactly on the previous day; otherwise the date text |
| FormatDate.YesterdayIsImmediatePredecessor | frontend/src/utils/formatDate.js:95-97 | "Yesterday" appears exactly when the date's day precedes today with no calendar day between them |
| FormatDate.NoRelativeDatesForOtherRoles | frontend/src/utils/formatDate.js:100-102 | teacher and every role without an entry get the plain date text, never "Today" or "Yesterday" |
| FormatDate.DateTextIsNoRelativeWord | frontend/src/utils/formatDate.js:111-118 | a date text can never be mistaken for "Today" or "Yesterday" |
| FormatDate.UnknownRoleHasNoRelativeDates | frontend/src/utils/formatDate.js:100 | on today's date a student sees "Today" while an unknown role sees the date text |
| FormatDate.DateRangeRendering | frontend/src/utils/formatDate.js:128-133 | the range is the start's date-mode text, " to ", then the end's date-mode text; it is the same for every role, and for valid endpoints it reads back as both dates; their order is not checked |
| FormatDate.SplitAtFirstSpace | frontend/src/utils/formatDate.js:132 | two space-free date texts joined by " to " split back into the two dates |
| FormatDate.ParseDateTextPinsText | frontend/src/utils/formatDate.js:53-66 | the only text that reads back as a moment's day, month and year is that moment's `DD-MM-` date text with the unpadded year |
| FormatDate.ParseDateRangePinsText | frontend/src/utils/formatDate.js:128-133 | the only range text that reads back as two calendar days is their two date texts joined by " to " |
| Signup.SignupRule | frontend/src/pages/signup.jsx:69-95 | every message a rule reports is non-empty, so every entry of the error map is shown |
| Signup.ValidateSignup | frontend/src/pages/signup.jsx:66-97 | the error map uses only the six field names, holds only non-empty messages, and is empty exactly when every rule passes |
| Signup.SignupNameAndEmailErrors | frontend/src/pages/signup.jsx:69-77 | the name error appears exactly for a blank name; the email error is "required" exactly for a blank email and "invalid" exactly for a non-blank email the pattern rejects |
| Signup.SignupPasswordErrors | frontend/src/pages/signup.jsx:79-87 | the password error is "required" exactly when empty and "too short" exactly for 1 to 7 characters; the mismatch error appears exactly when the two passwords differ |
| Signup.SignupInstitutionAndTermsErrors | frontend/src/pages/signup.jsx:89-95 | the institution and terms errors appear exactly when the institution is empty or the terms are unchecked |
| Signup.SignupRulesPass | frontend/src/pages/signup.jsx:66-98 | every rule passes exactly when the name and email are filled, the email matches, the password has 8 or more characters, the confirmation matches, an institution is chosen and the terms are accepted |
| Signup.SignupIsValid | frontend/src/pages/signup.jsx:98 | `validateForm()` returns true exactly when the name and email are non-blank, the email matches the pattern, the password has 8 or more characters and equals the confirmation, an institution is chosen and the terms are accepted |
| Signup.HandleChange | frontend/src/pages/signup.jsx:53-64 | the event's field takes the value (the checkbox takes `checked`); every other field and every other error is unchanged; that field's error is no longer shown |
| Signup.HandleSubmit | frontend/src/pages/signup.jsx:101-106 | the errors become a fresh validation; submission starts exactly for a valid form, and the form is unchanged |
| Signup.UntouchedFormIsRefused | frontend/src/pages/signup.jsx:39-51 | submitting the initial page flags name, email, password, institution and terms, not the matching empty passwords, and does not start submitting |
| Signup.InitialFormErrors | frontend/src/pages/signup.jsx:39-51 | the untouched form fails the name, email ("required"), password ("required"), institution and terms rules, and not the confirmation rule |
| Signup.SelectRole | frontend/src/pages/signup.jsx:192 | clicking a role card makes that card the selected role and changes nothing else |
| Signup.GetSelectedRole | frontend/src/pages/signup.jsx:116-118 | a role option is found exactly when the stored role is admin, teacher or student, and it is the option with that id |
| Settings.ProfileRule | frontend/src/pages/settings.jsx:102-110 | every profile message is non-empty |
| Settings.ValidateProfile | frontend/src/pages/settings.jsx:99-113 | name and email errors appear exactly as the shared rules decide; the map is empty exactly when both rules pass |
| Settings.ProfileRulesPass | frontend/src/pages/settings.jsx:99-113 | both profile rules pass exactly when the name is filled and the email is filled and matches the pattern |
| Settings.ProfileIsValid | frontend/src/pages/settings.jsx:113 | `validateProfileForm()` returns true exactly when the name is non-blank and the email is non-blank and matches |
| Settings.PasswordRule | frontend/src/pages/settings.jsx:120-132 | every password message is non-empty |
| Settings.ValidatePasswords | frontend/src/pages/settings.jsx:117-135 | current-password, new-password and confirmation errors each appear exactly in their own failure case, with their own message |
| Settings.PasswordsAreValid | frontend/src/pages/settings.jsx:117-136 | the password form is valid exactly when the current password is given, the new one has 8 or more characters, and the confirmation matches it |
| Settings.HandleProfileChange | frontend/src/pages/settings.jsx:72-80 | one profile field takes the value; the other fields, the password form, the notifications and the other errors are unchanged; that field's error is no longer shown |
| Settings.HandlePasswordChange | frontend/src/pages/settings.jsx:83-91 | the same for one password field |
| Settings.HandleNotificationChange | frontend/src/pages/settings.jsx:94-96 | exactly one channel is flipped and nothing else changes |
| Settings.NotificationToggleInvolution | frontend/src/pages/settings.jsx:95 | flipping the same channel twice restores the page |
| Settings.SubmitProfile | frontend/src/pages/settings.jsx:139-145 | the errors become a fresh validation; loading starts exactly for a valid profile; the forms and the message are kept |
| Settings.FinishProfileSave | frontend/src/pages/settings.jsx:147-153 | the callback ends loading and shows "Profile updated successfully!", changing nothing else |
| Settings.ProfileSubmitOutcome | frontend/src/pages/settings.jsx:139-155 | a valid profile submit and its callback end with no errors, loading off, the saved message and the profile as submitted |
| Settings.SubmitPasswords | frontend/src/pages/settings.jsx:158-164 | the errors become a fresh validation; loading starts exactly for valid passwords; what was typed is kept until the callback |
| Settings.FinishPasswordChange | frontend/src/pages/settings.jsx:166-176 | the callback ends loading, shows "Password changed successfully!" and empties the three password fields, changing nothing else |
| Settings.PendingPasswordEditIsWiped | frontend/src/pages/settings.jsx:161-177 | while the password request is pending the page is loading, and a field typed in that second is emptied by the callback |
| Attendance.AbsentRows | frontend/src/pages/attendance.jsx:31 | one absent row per student, in roster order |
| Attendance.Initial | frontend/src/pages/attendance.jsx:29-31 | the page starts on today's date and the first class, with every student absent and a present count of 0 |
| Attendance.ToggleAttendance | frontend/src/pages/attendance.jsx:53-58 | exactly the rows with the given id flip; the other rows, the students and their order are unchanged; the saved notice is cleared |
| Attendance.MarkAllPresent | frontend/src/pages/attendance.jsx:61-64 | every row becomes present, the students and order are kept, and the present count equals the row count |
| Attendance.ResetRows | frontend/src/pages/attendance.jsx:40 | every student becomes absent, in the same order, and the present count is 0 |
| Attendance.ChangeDate | frontend/src/pages/attendance.jsx:37-42 | the new date is stored, the class is kept, every student is absent, and the saved notice is cleared |
| Attendance.ChangeClass | frontend/src/pages/attendance.jsx:45-50 | the new class is stored, the date is kept, every student is absent, and the saved notice is cleared |
| Attendance.PresentCount | frontend/src/pages/attendance.jsx:93 | the present count never exceeds the number of rows |
| Attendance.AbsentDisplay | frontend/src/pages/attendance.jsx:239 | the absent figure lies between 0 and the number of rows |
| Attendance.AllAbsentCount | frontend/src/pages/attendance.jsx:31 | rows that are all absent count 0 present |
| Attendance.AbsentDisplayCountsAbsentRows | frontend/src/pages/attendance.jsx:239 | `totalCount - presentCount` is the number of rows not marked present |
| Attendance.Percentage | frontend/src/pages/attendance.jsx:95 | the percentage is 0 without students and at most 100; it is the ratio rounded half up, and it is 100 exactly when at least 99.5% are present |
| Attendance.PercentageBounds | frontend/src/pages/attendance.jsx:95 | the integer half-up quotient lies within half a unit of the exact percentage and never exceeds 100 |
| Attendance.AttendancePercentage | frontend/src/pages/attendance.jsx:93-95 | the shown percentage is at most 100; it is 100 when everyone is present and 0 when nobody is |
| Attendance.ToggleTwiceIsIdentity | frontend/src/pages/attendance.jsx:53-58 | toggling the same student twice restores the rows |
| Attendance.MarkAllPresentIdempotent | frontend/src/pages/attendance.jsx:61-64 | marking everyone present a second time changes nothing |
| Attendance.ToggleChangesCountByOne | frontend/src/pages/attendance.jsx:53-58 | when ids are distinct, one toggle moves the present count by exactly one, in the direction of the flip |
| Attendance.SelectedClassName | frontend/src/pages/attendance.jsx:87-90 | the name of the first class with the selected id, or "" when no class has it |
| Login.FindUser | frontend/src/pages/login.jsx:55-57 | a user is found exactly when one has both this email and this password; the one found has both and no earlier user has both |
| Login.HandleChange | frontend/src/pages/login.jsx:39-45 | the event's field takes the value (the checkbox takes `checked`), the other fields are kept, and the pending submit, loading flag, error and welcome are untouched |
| Login.BeginSubmit | frontend/src/pages/login.jsx:47-53 | loading turns on, the error is cleared, the form is kept, and the scheduled callback captures the current form |
| Login.FinishSubmit | frontend/src/pages/login.jsx:53-71 | credentials captured at submit time that match a user show the welcome; otherwise the fixed error shows; loading ends either way and the inputs are left as they are |
| Login.SubmitOutcome | frontend/src/pages/login.jsx:47-72 | after a whole submit the error is empty exactly when some user matches both fields; any error is "Invalid email or password"; loading is off |
| Login.WelcomeNamesFirstMatch | frontend/src/pages/login.jsx:55-65 | the welcome text names the first user whose email and password both match |
| Login.EditWhilePendingKeepsOutcome | frontend/src/pages/login.jsx:47-71 | typing while the request is pending changes the inputs but not the error or the welcome the callback produces |
| Login.BuiltInAccounts | frontend/src/pages/login.jsx:6-37 | the admin account logs in with its own password and not with the teacher's, is welcomed as "Welcome Admin User! (Admin)" even when its password field is cleared while the request is pending, and the untouched form is refused |
| Auth.Login | frontend/src/context/AuthContext.jsx:53-66 | login succeeds exactly when the password is the shared one and some user has the email; success authenticates the first user with that email, and failure leaves the session unchanged and reports "Invalid credentials" |
| Auth.Logout | frontend/src/context/AuthContext.jsx:69-73 | logout leaves no user and an unauthenticated session |
| Auth.HasPermission | frontend/src/context/AuthContext.jsx:76-78 | a permission is granted exactly when a user is logged in and that user's list includes it |
| Auth.PermissionsFollowLogin | frontend/src/context/AuthContext.jsx:53-78 | after a successful login the permissions granted are exactly those of the first user with that email, and a failed login grants what the session granted before |
| Auth.TransitionsPreserveConsistency | frontend/src/context/AuthContext.jsx:53-73 | login and logout keep "authenticated exactly when a user is held" |
| Auth.BuiltInRoles | frontend/src/context/AuthContext.jsx:89-91 | each built-in account, once logged in, satisfies exactly its own role helper |
| Auth.RoleHelpersExclusive | frontend/src/context/AuthContext.jsx:89-91 | at most one role helper holds; when logged out none holds and no permission is granted |
| Auth.AdminSession | frontend/src/context/AuthContext.jsx:8-33 | the admin account logs in with "password123", gains "system_settings", and loses it on logout; its page-specific password is refused |
| Visibility.RoleAllowsMonotone | frontend/src/components/Button.jsx:74-76 | adding roles to a non-empty role list never hides an element from a user who could already see it |
| Visibility.EmptyToNonEmptyCanHide | frontend/src/components/Button.jsx:74-76 | going from no roles, which shows the element to everyone, to a list without the user's role hides it, so the gate is not monotone from the empty list |
| Button.RenderButton | frontend/src/components/Button.jsx:73-100 | hidden exactly when roles are listed and the user's role is not among them; disabled and showing the disabled style exactly when disabled or loading; spinner exactly when loading; a known variant and size render their own styles; an unknown variant falls back to primary and unknown size to medium |
| Button.UnknownVariantAndSizeFallBack | frontend/src/components/Button.jsx:79-82 | an unknown variant and size render exactly as 'primary' and 'medium' |
| Button.DefaultButton | frontend/src/components/Button.jsx:60-72 | with only its defaults a button is enabled, medium and primary, and the default 'admin' role sees it whenever 'admin' is listed or no role is |
| Card.PaddingClass | frontend/src/components/Card.jsx:21-30 | each padding key maps to its own class, an omitted padding defaults to 'normal', and an unknown key renders the text "undefined" |
| Card.RenderCard | frontend/src/components/Card.jsx:16-45 | hidden exactly when roles are listed without the user's; the header appears exactly when there is a title or header actions |
| Card.NoRolesAlwaysVisible | frontend/src/components/Card.jsx:16-18 | a card that lists no roles is shown to every role |
| Card.SameGateAsButton | frontend/src/components/Card.jsx:16-18 | a card and a button with the same role list and user are hidden in exactly the same cases |
| Table.FilterColumns | frontend/src/components/Table.jsx:77-79 | kept columns have no `roles` or list the user's role, and every such column is kept |
| Table.FilterColumnsKeepsOrder | frontend/src/components/Table.jsx:77-79 | kept columns stay in their declared order |
| Table.UnrestrictedColumnsAllShown | frontend/src/components/Table.jsx:77-79 | columns without `roles` are all shown, unchanged |
| Table.EmptyRoleListHidesColumn | frontend/src/components/Table.jsx:78 | `roles: []` hides a column from everyone, unlike the Button and Card gate |
| Table.StatusStyle | frontend/src/components/Table.jsx:59-68 | each of the four statuses has its own colours, and exactly the other values get the grey fallback |
| Table.RenderCell | frontend/src/components/Table.jsx:102-108 | a badge column draws the status badge; any other column shows '-' exactly for a falsy value (0 and "" included) and the value otherwise |
| Table.AppCellsRender | frontend/src/components/Table.jsx:102-159 | in every column set `AttendanceTable` uses, only the status column draws a badge, and every other cell shows '-' exactly for a falsy value and the value otherwise |
| Table.MissingTimeOutShowsDash | frontend/src/components/Table.jsx:102-159 | a student row without a recorded `timeOut` shows '-' in that column |
| Table.ColumnsForRole | frontend/src/components/Table.jsx:162-172 | 'teacher' and 'student' get their own columns; every other role, including capitalised names, gets the admin columns; no column is restricted |
| Table.ColumnKeysNested | frontend/src/components/Table.jsx:122-159 | the student column keys are a subset of the teacher keys, which are a subset of the admin keys |
| Table.AttendanceTableColumns | frontend/src/components/Table.jsx:183-187 | passing the role on to `Table` keeps every column of the chosen set |
| Sidebar.VisibleLinks | frontend/src/components/Sidebar.jsx:37-39 | exactly the links whose roles include the user's role are shown |
| Sidebar.VisibleLinksKeepOrder | frontend/src/components/Sidebar.jsx:37-39 | shown links keep their configured order |
| Sidebar.DashboardForAllSettingsForAdmin | frontend/src/components/Sidebar.jsx:14-19 | Dashboard is offered to all three roles, and Settings exactly to admin |
| Sidebar.VisibilityMonotone | frontend/src/components/Sidebar.jsx:14-19 | a student's links are a subsequence of a teacher's, and a teacher's are a subsequence of an admin's |
| Sidebar.AtMostOneActive | frontend/src/components/Sidebar.jsx:88-92 | the configured links have distinct targets, so at most one is highlighted |
| Sidebar.ActiveLinkFollowsRoute | frontend/src/components/Sidebar.jsx:23-29 | no link is highlighted in the initial state; after the router reports a link's path, exactly that link is highlighted |
| Sidebar.Toggle | frontend/src/components/Sidebar.jsx:32-34 | toggling flips the drawer and keeps the active page |
| Sidebar.ClickLink | frontend/src/components/Sidebar.jsx:93 | clicking a link closes the drawer |
| Sidebar.RouteChanged | frontend/src/components/Sidebar.jsx:27-29 | the active page follows the router path, and the drawer is unchanged |
| Sidebar.ToggleTwiceIsIdentity | frontend/src/components/Sidebar.jsx:32-34 | toggling twice restores the state |

## Left out

- Coercion of strings and numbers to `Date`, time zones and daylight saving: a date is taken as already decoded into local components or marked invalid.
- The range of years a JavaScript `Date` can hold: years are unbounded integers.
- Attendance.Percentage: rounds the exact ratio half up, whereas the source rounds the floating-point product `presentCount / totalCount * 100`, which can differ when that product lands within rounding error of a half.
- The timers are not modelled as time. These are the simulated requests of 1000 and 1500 milliseconds, the success messages cleared after 3 seconds, and `saveAttendance` with its `isSaving` flag. A delayed callback is an explicit second step (login and the two settings submits). The attendance save and the signup completion (`isSubmitted`) are not modelled.
- `alert` and `console.log`: the login welcome text is recorded in the page state instead of being shown.
- The `localStorage` restore of a stored user in `AuthContext`, the `loading` flag, `useAuth`, and the writes to storage: these are browser storage and React plumbing.
- The dark-mode theme effect, routing, page layout, charts, and the JSX markup: the model keeps what each component computes (visibility, classes as their parts, flags) and leaves out how it is drawn.
- Class strings are kept as their parts, not as the whitespace-joined and trimmed string. `roleFormats[role]` needs no special case for inherited property names: such a value has no `time`, `full` or `relative` property, so it formats exactly as the student fallback.
- A `Table` column's `render(value, row)` callback is reduced to a flag that draws a `StatusBadge` for the value: every `render` the app passes (Table.jsx:131, 145 and 157) is that badge, and other callbacks are not modelled.
- The settings page's role `<select>` is `disabled`, so it never raises a change event. `Settings.HandleProfileChange` still accepts `RoleField`, because it models the handler, which updates whichever field it is given.
- Table.StatusStyle: a status equal to a property name every object inherits, such as `constructor` or `toString`, is treated as unknown and gets the grey style. In JavaScript `statusStyles[status]` is then a function, which is truthy, so its source text becomes the class. Modelling this would mean modelling `Object.prototype`.
- Card.PaddingClass: a padding equal to an inherited property name is treated as unknown and renders "undefined". In JavaScript `paddingClasses[padding]` is then a function, and the class is its source text. Same reason.
- Button.RenderButton: a variant or size equal to an inherited property name falls back to primary or medium here. In JavaScript the `||` fallback does not fire, because the function it finds is truthy. The base, focus and disabled parts then render "undefined", and a size renders the function's source text. Same reason.
- Button.UnknownVariantAndSizeFallBack: holds only for names that are neither table keys nor inherited property names, for the reason above.
- Lengths are counted in code points, not UTF-16 code units, so a password of astral characters measures shorter than JavaScript measures it.
- A `Card` title is a string; a React node as a title is reduced to being present or absent.
- `Sidebar` reads its role from a fixed placeholder user (`admin`); the model takes the role as a parameter.
