# HRMS-ALIGNA core, modelled in Dafny

ALIGNA is a browser-only HR system. This project models its logic in twelve
Dafny modules, one per source file plus shared helpers:

- **AttendanceService** (`attendance_service.dfy`) models the attendance service.
  - Daily records hold check-in/check-out sessions. Net hours are summed over closed sessions, formatted as `Xh Ym` and classified Present / Partial / Absent / Leave with an eight-hour threshold.
  - The 30-day history seeder is a method with a loop, taking the calendar and random draws as inputs.
  - The store is a class (`AttendanceStore`) whose `Load`, `CheckIn`, `CheckOut`, `AllRecords` and `UserRecords` methods are tied to the functions `CheckInStep`, `CheckOutStep`, `AllAttendance` and `UserAttendance`.
  - Every step is shown to keep the table invariant: keys (employee, date) are unique, and every record has at most one open session.
- **ProfileService** (`profile_service.dfy`) models the employee table and the role-gated `updateProfile`.
  - A profile is a map from field to value.
  - The update is specified by the function `UpdateProfileStep`, and the class `ProfileStore` implements it with the allow-list loop in `CollectChanges`.
  - It looks up the target, refuses a non-administrator who changes a restricted field, diffs the allowed fields, answers "No changes detected." when nothing differs, replaces exactly one entry and appends exactly one audit record.
- **Page modules** (`leaves.dfy`, `dashboard.dfy`, `employees.dfy`, `attendance_page.dfy`, `auth.dfy`, `payroll.dfy`) model the rules inside the pages. Each handler is a function from the old list to the new list. The imperative pieces are methods with loops: the dashboard streak, the password-strength score and the attendance status counts. The pages covered:
  - the leave workflow and balances;
  - the dashboard figures;
  - the employee directory;
  - the attendance history filter and analytics;
  - the sign-in page;
  - the payroll stepper and pay sums.
- **Shared modules**:
  - `HrTypes` (`hr_types.dfy`) holds the enums, records and the two fixtures (`MOCK_EMPLOYEES`, `MOCK_LEAVES`).
  - `Common`, `Text` and `Sorting` hold the helpers the source takes from JavaScript: `filter`, `findIndex`, `Set` de-duplication, `toLowerCase`, `includes`, `localeCompare` and a stable sort.

Timestamps are integer milliseconds. The current time, the calendar day, the
weekday and the random draws are inputs, and persisted storage is a parameter
or a class field.

The model follows what the statements do, also where that is not what a comment or a reader expects:

- **Seeded check-in times.** The comments say check-ins fall between 08:45 and 09:45 and check-outs between 17:30 and 19:00 (services/attendanceService.ts:70, services/attendanceService.ts:76). The code adds `floor(random * 60)` and `floor(random * 90)` whole minutes, so check-ins fall in 08:45–09:44 and check-outs in 17:30–18:59 (services/attendanceService.ts:71-79). `SeedRecord` states those ranges.
- **Object-valued fields.** Whenever a table is stored, `getEmployees` parses it afresh (services/profileService.ts:20), so the salary structure that `updateProfile` compares with `!==` (services/profileService.ts:80) is never the object the caller sends, even when its contents are equal. `Differs` therefore counts any object value sent as a change, and `ResentStructureIsWritten` shows the write it causes.
- **Employee ids.** The code derives a new employee's id from the list length, so after a delete it can hand out an id that is still in use; `FixtureReusesId` exhibits this on the fixture.

## Model

| member | source | states |
|---|---|---|
| AttendanceService.NetMsAppend | services/attendanceService.ts:98-105 | the net time of two session lists joined is the sum of their net times |
| AttendanceService.NetMsClosedOnly | services/attendanceService.ts:100-103 | open sessions add nothing: the net time equals that of the closed sessions alone |
| AttendanceService.NetMsPermutation | services/attendanceService.ts:98-105 | the net time does not depend on the order of the sessions |
| AttendanceService.NetMsNonNegative | services/attendanceService.ts:98-105 | when no session closes before it opens, the net time is never negative |
| AttendanceService.DurationParts | services/attendanceService.ts:109-110 | the hours and minutes are the floor quotients of the duration, with minutes below 60 |
| AttendanceService.FormatDuration | services/attendanceService.ts:107-112 | "--" exactly when ms <= 0, otherwise the hours, "h ", the minutes and "m" |
| AttendanceService.Classify | services/attendanceService.ts:114-119 | a stored Leave or Absent wins; otherwise no sessions gives Absent, and 8 hours or more gives Present, else Partial |
| AttendanceService.ClassifyIgnoresDerivedStatus | services/attendanceService.ts:114-119 | a stored Present or Partial has no influence on the derived status |
| AttendanceService.ClassifyMonotone | services/attendanceService.ts:117 | more net time never turns Present into anything else |
| AttendanceService.ClassificationBoundary | services/attendanceService.ts:11 | exactly 8 hours is Present, one second less is Partial, a stored Leave stays Leave, and no sessions is Absent |
| AttendanceService.ByCheckInIsOrder | services/attendanceService.ts:122-124 | the check-in comparison is a total, transitive order |
| AttendanceService.SortedSessions | services/attendanceService.ts:122-124 | the sorted sessions are a permutation whose first holds the earliest check-in, and whose last is the latest-starting session, the last such in list order when several start together (the sort is stable) |
| AttendanceService.SessionsInCheckInOrder | services/attendanceService.ts:122-124 | the sorted sessions are in check-in order |
| Sorting.SortByLast | services/attendanceService.ts:122-124 | the stable sort ends with the element at the last position no other element is above |
| Sorting.LastMaxIndexIsLastMax | services/attendanceService.ts:122-124 | that position holds a maximal element and every later element is strictly below it |
| AttendanceService.MapRecordToHRView | services/attendanceService.ts:121-142 | the view keeps id, employee and date; entry is the earliest check-in and exit the check-out of a latest-starting session (absent while it is open); hours are the net time, formatted and classified |
| AttendanceService.ExitOfLastToStart | services/attendanceService.ts:121-128 | when several sessions start last, the exit is the check-out of the one latest in the list |
| AttendanceService.SeedRecord | services/attendanceService.ts:44-89 | a draw below 0.05 gives Absent and below 0.1 Leave, both without sessions; otherwise one closed session in 08:45-09:44 to 17:30-18:59, Present exactly when it lasts 8 hours |
| AttendanceService.PushDay | services/attendanceService.ts:44-90 | the `forEach` of a working day appends one seeded record per employee, in roster order |
| AttendanceService.GenerateHistoricalData | services/attendanceService.ts:30-93 | the loop over the 30 days, skipping weekends, yields exactly the seeded table |
| AttendanceService.SeededOrigin | services/attendanceService.ts:35-44 | every record seeded for the first n calendar days is the seed record of a given employee on one of those days that is a weekday |
| AttendanceService.SeededShape | services/attendanceService.ts:47-89 | every seeded record belongs to a given employee and a weekday; Absent and Leave have no sessions, the others one closed session, Present exactly when it lasts 8 hours |
| AttendanceService.SeededCount | services/attendanceService.ts:35-44 | the first n calendar days hold one seeded record per employee per weekday among them |
| AttendanceService.SeededValid | services/attendanceService.ts:30-93 | with distinct employees and dates, the seeded table has unique keys and no open session |
| AttendanceService.SeedIdsDistinct | services/attendanceService.ts:152 | the six seeded employee ids are distinct |
| AttendanceService.CheckInStep | services/attendanceService.ts:170-191 | no record today appends one Present record with one open session; an open session fails with "Already checked in" and no write; otherwise one open session is appended to that record only; the invariant is kept |
| AttendanceService.CheckOutStep | services/attendanceService.ts:193-206 | no record fails with "No active shift found"; no open session fails with "No active session to check out"; otherwise the first open session is closed at now, lastUpdated is set, nothing else changes, and the invariant is kept |
| AttendanceService.CheckInTwiceFails | services/attendanceService.ts:177 | a second check-in without a check-out between fails |
| AttendanceService.OpenedIndex | services/attendanceService.ts:174-189 | after a check-in the record found for the employee today ends with the new open session |
| AttendanceService.FirstShift | services/attendanceService.ts:170-206 | a first check-in then a check-out both succeed and add one record with one closed session from t1 to t1 + d, whose view spans it, shows d formatted and is classified on d |
| AttendanceService.FullDayScenario | services/attendanceService.ts:170-206 | a 9h10m shift reads "9h 10m" and Present |
| AttendanceService.HalfDayScenario | services/attendanceService.ts:170-206 | a 4h30m shift reads "4h 30m" and Partial |
| AttendanceService.ByDateDescIsOrder | services/attendanceService.ts:211 | newest-date-first is a total, transitive order |
| AttendanceService.MapViews | services/attendanceService.ts:211 | each view is the mapped record at the same position |
| AttendanceService.NewestFirst | services/attendanceService.ts:211 | a permutation of the views, ordered by date descending |
| AttendanceService.AllAttendance | services/attendanceService.ts:208-213 | every record's view, once each, newest date first |
| AttendanceService.OwnRecords | services/attendanceService.ts:228 | exactly the employee's records, in table order, each with as many copies as the table holds |
| AttendanceService.UserAttendance | services/attendanceService.ts:224-231 | the employee's views only, all of them, newest date first |
| AttendanceService.AttendanceStore.constructor | services/attendanceService.ts:147-150 | the store starts from the stored table and seeded flag |
| AttendanceService.AttendanceStore.Load | services/attendanceService.ts:147-159 | the seed runs only when the data or the flag is missing, and the store then holds data and the flag |
| AttendanceService.AttendanceStore.CheckIn | services/attendanceService.ts:170-191 | the outcome and new table are those of CheckInStep on the loaded table |
| AttendanceService.AttendanceStore.CheckOut | services/attendanceService.ts:193-206 | the outcome and new table are those of CheckOutStep on the loaded table |
| AttendanceService.AttendanceStore.AllRecords | services/attendanceService.ts:208-213 | returns AllAttendance of the loaded table |
| AttendanceService.AttendanceStore.UserRecords | services/attendanceService.ts:224-231 | returns UserAttendance of the loaded table |
| AttendanceService.LoadTwice | services/attendanceService.ts:151-158 | seeding happens at most once: a second load returns the first load's table |
| ProfileService.ToProfile | services/profileService.ts:14-21 | a roster entry's stored form carries its ids, role and phone, no audit stamps, and the optional fields only when present |
| ProfileService.MockProfiles | services/profileService.ts:17-18 | the seeded table is the roster, entry for entry |
| ProfileService.AllFieldsComplete | services/profileService.ts:74-75 | the field list covers every key an update can carry |
| ProfileService.FindTarget | services/profileService.ts:38-42 | the first entry whose id or employee id is the target, or none exactly when no entry matches |
| ProfileService.AllowedFields | services/profileService.ts:74-76 | an administrator may change every key of the update, an employee only phone, address and avatar |
| ProfileService.ModifiedRestricted | services/profileService.ts:49-59 | empty exactly when no restricted field is given a defined, different value |
| ProfileService.NewValues | services/profileService.ts:80-83 | the applied updates have the same keys as the changed fields |
| ProfileService.CollectChanges | services/profileService.ts:78-84 | the loop builds exactly the diff over the allowed fields and its new values; an object value sent always counts as changed |
| ProfileService.ResentStructureDiff | services/profileService.ts:78-84 | a profile diffed against itself keeps its salary structure as a change, with the old and the new object |
| ProfileService.DiffKeys | services/profileService.ts:80-81 | a field is in the diff exactly when it is allowed and differs, and then holds its old and new value |
| ProfileService.MergeLookup | services/profileService.ts:91-96 | the merged profile has the stamps, the applied value of each changed field, and the original elsewhere |
| ProfileService.UpdateProfileStep | services/profileService.ts:31-119 | an unknown target answers "Employee not found."; errors and no-change answers write nothing; the table keeps its length and the log grows by at most one |
| ProfileService.StepForbidden | services/profileService.ts:55-66 | a non-administrator touching a restricted field gets the permission error and nothing is written |
| ProfileService.StepUnchanged | services/profileService.ts:86-88 | an empty diff answers "No changes detected." with the original and writes nothing |
| ProfileService.StepApplied | services/profileService.ts:90-119 | a non-empty diff replaces the entry with the merge and appends one audit entry with the diff |
| ProfileService.NonAdminRestricted | services/profileService.ts:55-67 | for an employee, success implies no restricted field was changed |
| ProfileService.UpdateReplacesOneEntry | services/profileService.ts:91-98 | on update only the target's entry changes, and the table keeps its length |
| ProfileService.AuditRecordsExactChanges | services/profileService.ts:102-110 | the log grows by one entry, holding the original's employee id, the actor and exactly the changed fields |
| ProfileService.NonAdminFieldEffect | services/profileService.ts:74-98 | after an employee's successful update, each field holds the value sent if it is phone, address or avatar, else its old value |
| ProfileService.AdminFieldEffect | services/profileService.ts:74-98 | an administrator's update always succeeds on a found target; each field then holds the value sent, if any, else its old value |
| ProfileService.UpdateStamps | services/profileService.ts:94-95 | an applied update stamps the time and the actor |
| ProfileService.NoChangeIff | services/profileService.ts:78-88 | the answer is "No changes detected." exactly when the permission check passes and no allowed field differs |
| ProfileService.ResentStructureIsWritten | services/profileService.ts:14-88 | an administrator sending any salary structure, even the one just read, gets "Profile updated successfully" and one audit entry, since the stored object is parsed afresh from the stored table and `!==` never finds it equal |
| ProfileService.AuthorizationByRoleOnly | services/profileService.ts:45-84 | two actors with the same role get the same answer status and message, whoever they are |
| ProfileService.RepeatedUpdateIsNoOp | services/profileService.ts:78-88 | repeating an employee's successful update, whose phone, address and avatar are strings as the profile type has them, answers "No changes detected." |
| ProfileService.EmployeeUpdateShape | services/profileService.ts:74-98 | an employee's successful update finds its target, keeps the table length and the entries before it, and changed no restricted field |
| ProfileService.SettledProfile | services/profileService.ts:57-84 | a profile already agreeing with an update that holds no object outside the salary structure leaves no restricted change and an empty diff |
| ProfileService.SameTarget | services/profileService.ts:38 | replacing the found entry with one keeping its ids still finds it at the same place |
| ProfileService.MockRoster | services/profileService.ts:14-21 | the seeded table has six entries: the first is id 1, EMP-101, with its phone, and the second id 2, EMP-202, an EMPLOYEE |
| ProfileService.EmployeeEditsPhone | services/profileService.ts:74-119 | an employee can change any found profile's phone, and the audit entry records just that change |
| ProfileService.RahulEditsPriyasPhone | services/profileService.ts:45-84 | an employee may change another employee's phone, because the self check is computed but never used |
| ProfileService.EmployeeCannotPromoteSelf | services/profileService.ts:49-66 | an employee setting their own role to ADMIN is refused |
| ProfileService.PromotionRefused | services/profileService.ts:37-66 | on any table whose second entry is employee "2" and whose first entry does not match "2", that employee setting their own role to ADMIN gets the permission error |
| ProfileService.ProfileStore.constructor | services/profileService.ts:15 | the store starts from the stored table, if any, and the stored log |
| ProfileService.ProfileStore.GetEmployees | services/profileService.ts:14-21 | returns the stored table, or seeds and stores the roster |
| ProfileService.ProfileStore.UpdateProfile | services/profileService.ts:31-119 | the response, table and log are those of UpdateProfileStep on the loaded table |
| ProfileService.ResentStructureOnStore | services/profileService.ts:31-110 | a store holding one entry answers an administrator who sends a salary structure, the stored one included, with "Profile updated successfully" and logs one entry |
| ProfileService.ProfileStore.UpdateEntry | services/profileService.ts:44-119 | from a found target, the response, table and log are those of UpdateProfileStep |
| LeavesPage.LoadLeaves | pages/Leaves.tsx:23-31 | the stored list when storage holds one, the fixture list otherwise; the dashboard reads leaves the same way |
| LeavesPage.LoadThenStoreStable | pages/Leaves.tsx:23-31 | loading what a load wrote back gives the same list |
| LeavesPage.WithStatus | pages/Leaves.tsx:50-52 | same length; requests with the id get the status, all others are unchanged |
| LeavesPage.HandleAction | pages/Leaves.tsx:47-54 | no change for a non-administrator; otherwise only the status of the requests with the id changes, whatever it was before |
| LeavesPage.ActionFeedback | pages/Leaves.tsx:55-58 | the toast is a success exactly for an approval |
| LeavesPage.HandleActionIdempotent | pages/Leaves.tsx:47-54 | a repeated action changes nothing more |
| LeavesPage.SubmitLeave | pages/Leaves.tsx:63-80 | an incomplete form changes nothing; otherwise one Pending request with the applicant's ids and the form's fields goes first, followed by the old list |
| LeavesPage.VisibleLeaves | pages/Leaves.tsx:97-99 | the whole list for an administrator, otherwise exactly the user's own requests, in order, each with as many copies as the list holds |
| LeavesPage.Stats | pages/Leaves.tsx:101-112 | paid balance max(0, 14 - approved paid), sick balance max(0, 8 - approved sick), unpaid taken = approved unpaid |
| LeavesPage.ApprovedOfTypeCons | pages/Leaves.tsx:102-105 | the approved count of a type grows by one exactly for an approved request of that type |
| LeavesPage.WithStatusAbsent | pages/Leaves.tsx:50-52 | an id that matches nothing leaves the list unchanged |
| LeavesPage.ApproveRaisesCount | pages/Leaves.tsx:47-54 | approving the one unapproved request with the id raises its type's approved count by one and leaves the others |
| LeavesPage.ApprovePaidLowersBalance | pages/Leaves.tsx:101-112 | approving a paid request lowers the paid balance by one and leaves the sick balance |
| LeavesPage.SubmitKeepsStats | pages/Leaves.tsx:63-112 | a new request is Pending, so submitting never changes the balances |
| LeavesPage.SubmittedIsVisibleToApplicant | pages/Leaves.tsx:67-99 | the submitted request heads the applicant's own list |
| LeavesPage.FixtureBalances | pages/Leaves.tsx:23-31 | on the fixture only EMP-202 sees a request, and the balances are 14, 8 and 0 |
| DashboardPage.Greeting | pages/Dashboard.tsx:99-104 | morning before 12, afternoon from 12 to before 17, evening from 17 |
| DashboardPage.FetchLeaves | pages/Dashboard.tsx:70-79 | all loaded leaves for an administrator; otherwise exactly the user's own, in order, each with as many copies as the loaded list holds |
| DashboardPage.StreakCount | pages/Dashboard.tsx:106-114 | the count of Present days from the newest down to the first that is not; it is the whole list exactly when every day is Present |
| DashboardPage.ProductivityScore | pages/Dashboard.tsx:116-119 | between 75 and 100, 100 exactly with 6 or more present days, and otherwise the rounded value of present / 22 * 100 + 75 |
| DashboardPage.LeaveBalance | pages/Dashboard.tsx:121-125 | 20 less the approved requests, never below zero |
| DashboardPage.PendingCount | pages/Dashboard.tsx:127-129 | at most the number of leaves, and zero exactly when none is pending |
| DashboardPage.PendingCountCons | pages/Dashboard.tsx:127-129 | the count is zero for no leaves and grows by one for each pending request in front, so it is the number of pending requests |
| DashboardPage.ApprovalMovesOne | pages/Dashboard.tsx:121-129 | approving the one pending request with the id raises the approved count by one and lowers the pending count by one |
| DashboardPage.ApprovalOnDashboard | pages/Dashboard.tsx:121-129 | approving a pending request lowers the pending count by one and the balance by one unless it is zero |
| EmployeesPage.Filtered | pages/Employees.tsx:36-49 | exactly the employees matching the search and both filters, in order, each with as many copies as the list holds |
| EmployeesPage.FilteredEmptyIsAll | pages/Employees.tsx:38-45 | an empty search and empty filters keep everyone |
| EmployeesPage.SearchIgnoresCase | pages/Employees.tsx:39-42 | lower-casing the search term changes nothing |
| EmployeesPage.DeptFilterNarrows | pages/Employees.tsx:44 | setting a department only removes employees |
| EmployeesPage.DepartmentList | pages/Employees.tsx:51 | each department of the list, exactly once, in the order each first appears |
| Common.DedupFirstOccurrence | pages/Employees.tsx:51 | `Array.from(new Set(...))` lists the distinct elements in the order of their first occurrence |
| EmployeesPage.AddEmployee | pages/Employees.tsx:85-96 | one employee in front of the old list, with id n+1, employee id EMP-(101+n) and the form's fields |
| EmployeesPage.AddIdFresh | pages/Employees.tsx:87 | when the ids are 1..n the new id is unused, and the ids become 1..n+1 |
| EmployeesPage.FixtureNumbered | pages/Employees.tsx:87 | the fixture's ids are 1..6 |
| EmployeesPage.AddAfterDeleteReusesId | pages/Employees.tsx:85-113 | deleting an employee and adding one hands out the id of another employee who is still listed |
| EmployeesPage.NewIdAfter | pages/Employees.tsx:87-94 | adding to a list of n-1 employees gives the id n |
| EmployeesPage.DeleteOne | pages/Employees.tsx:110 | deleting a unique id removes exactly one employee |
| EmployeesPage.FixtureReusesId | pages/Employees.tsx:85-113 | on the fixture, deleting id 2 and adding an employee gives id 6, which employee 6 still holds |
| EmployeesPage.ReplaceMatching | pages/Employees.tsx:101-103 | same length; entries with the id take the form's fields, the others are unchanged |
| EmployeesPage.UpdateEmployee | pages/Employees.tsx:98-106 | no selection changes nothing; only entries with the selected id change, keeping their ids, avatar, structure and manager |
| EmployeesPage.UpdateIdempotent | pages/Employees.tsx:98-106 | a repeated update changes nothing more |
| EmployeesPage.UpdateKeepsNumbering | pages/Employees.tsx:98-106 | an update keeps the ids numbered 1..n |
| EmployeesPage.DeleteEmployee | pages/Employees.tsx:108-113 | without confirmation nothing changes; otherwise exactly the employees with another id remain, in order, each with all its copies |
| EmployeesPage.DeleteIdempotent | pages/Employees.tsx:108-113 | a repeated delete changes nothing more |
| AttendancePage.FilteredRecords | pages/Attendance.tsx:98-114 | exactly the records that pass the search, the date range, the status and the minimum hours, in order, each with all its copies |
| AttendancePage.NoFiltersIsAll | pages/Attendance.tsx:100-110 | no search and no filter keep every record |
| AttendancePage.InvertedRangeIsEmpty | pages/Attendance.tsx:105-106 | a start date after the end date shows nothing |
| AttendancePage.NotANumberHidesAll | pages/Attendance.tsx:110 | a minimum-hours text that is not a number shows nothing |
| AttendancePage.SearchFindsStatus | pages/Attendance.tsx:103 | searching for a record's status name finds it |
| AttendancePage.StatusCountPositive | pages/Attendance.tsx:123-126 | a status is counted exactly when some record has it |
| AttendancePage.StatusCountsSum | pages/Attendance.tsx:123-126 | the four counts add up to the number of records |
| AttendancePage.StatusCounts | pages/Attendance.tsx:123-126 | the accumulated map holds exactly the statuses that occur, each with its count |
| AttendancePage.Statuses | pages/Attendance.tsx:128 | the keys are exactly the statuses that occur |
| AttendancePage.Slices | pages/Attendance.tsx:128-131 | one slice per listed status, in that order, with its name and count |
| AttendancePage.PieData | pages/Attendance.tsx:128-131 | every slice is the name and count of a status that occurs, every occurring status has its slice, all values are positive and no name appears twice |
| AttendancePage.StatusNameInjective | pages/Attendance.tsx:129 | different statuses have different names |
| AttendancePage.SlicesTotal | pages/Attendance.tsx:123-131 | slices for distinct statuses add up to those statuses' counts |
| AttendancePage.PieCoversAll | pages/Attendance.tsx:123-131 | the values of the pie's slices add up to the number of records |
| AttendancePage.Reversed | pages/Attendance.tsx:133 | the reverse of a list, position by position |
| AttendancePage.DashesToSlashes | pages/Attendance.tsx:134 | every dash becomes a slash, everything else stays |
| AttendancePage.DateLabel | pages/Attendance.tsx:134 | the label is what follows the first dash with further dashes shown as slashes, and empty when the date has no dash |
| AttendancePage.DateLabelOfIsoDate | pages/Attendance.tsx:134 | YYYY-MM-DD is shown as MM/DD |
| AttendancePage.TrendRecords | pages/Attendance.tsx:133 | at most 14 records: min(14, n) |
| AttendancePage.TrendIsFirstFourteenReversed | pages/Attendance.tsx:133 | the trend is the first 14 filtered records, reversed |
| AttendancePage.TrendOldestFirst | pages/Attendance.tsx:133 | on a newest-first list the trend runs oldest first |
| AttendancePage.TrendData | pages/Attendance.tsx:133-136 | one point per trend record, with its date label and its milliseconds |
| AttendancePage.TotalMsNonNegative | pages/Attendance.tsx:120 | the total is never negative when no record is |
| AttendancePage.AnalyticsData | pages/Attendance.tsx:117-145 | null exactly for an empty list; otherwise the formatted total, the pie and the trend |
| AuthPage.RulesMet | pages/Auth.tsx:227-230 | at most four rules; none exactly when none holds, four exactly when all hold |
| AuthPage.PasswordStrength | pages/Auth.tsx:224-232 | 25 per rule met, so a multiple of 25 up to 100, and 100 exactly when all four rules hold |
| AuthPage.EmptyMeetsNoRule | pages/Auth.tsx:225 | the empty password meets no rule, so its score agrees with the early return |
| AuthPage.LowerCaseOnly | pages/Auth.tsx:227-230 | lower-case letters alone score only for length |
| AuthPage.StrengthColour | pages/Auth.tsx:235 | rose up to 25, amber up to 50, blue up to 75, emerald above |
| AuthPage.StrengthLabel | pages/Auth.tsx:394 | Weak below 50, Moderate below 100, Strong from 100 |
| AuthPage.LabelAndColourOnScores | pages/Auth.tsx:235 | on real scores Strong and emerald both mean all four rules, and Weak means at most one |
| AuthPage.KeyIndex | pages/Auth.tsx:251 | the first position whose lower-cased email is the key, or none exactly when no position has it |
| AuthPage.FindByKey | pages/Auth.tsx:251 | the profile at the first position whose lower-cased email is the key, or none exactly when no profile has it |
| AuthPage.Submit | pages/Auth.tsx:237-263 | sign-up refuses on a mismatch and otherwise answers "application received"; sign-in succeeds exactly when an email matches ignoring case, with the id, email and role of the first profile that matches |
| AuthPage.PasswordIgnored | pages/Auth.tsx:249-257 | sign-in never looks at the password |
| AuthPage.SignUpNeverLogsIn | pages/Auth.tsx:241-260 | sign-up is always refused |
| AuthPage.EmailCaseIgnored | pages/Auth.tsx:250 | the case of the typed email does not matter |
| AuthPage.HandleSubmit | pages/Auth.tsx:237-263 | against the fixture roster, sign-in succeeds exactly when a fixture address matches ignoring case and signs in the first one; sign-up never signs in |
| AuthPage.SubmitByIndex | pages/Auth.tsx:237-263 | on any roster, sign-in succeeds exactly when some position holds the address and signs in the first such profile |
| AuthPage.FirstMatchSignsIn | pages/Auth.tsx:251-254 | when position i holds the address and no earlier position does, the profile at i is the one signed in |
| AuthPage.PriyaSignsIn | pages/Auth.tsx:249-254 | Priya's address signs in user 1 as an administrator, whatever the password |
| AuthPage.HeadSignsIn | pages/Auth.tsx:249-254 | on any roster whose first profile is Priya's, her address signs in user 1 as an administrator |
| PayrollPage.StageIndex | types.ts:26-32 | the five stages take places 0..4 |
| PayrollPage.StageAt | types.ts:26-32 | the stage at a place has that place |
| PayrollPage.StageAtIndex | pages/Payroll.tsx:87 | a stage's place leads back to that stage |
| PayrollPage.Restore | pages/Payroll.tsx:42-46 | an absent or empty saved value keeps Finance Review; otherwise the saved text replaces it, as a stage when it names one |
| PayrollPage.RestoreSaved | pages/Payroll.tsx:42-52 | every saved stage is restored as itself |
| PayrollPage.CurrentIndex | pages/Payroll.tsx:88 | -1 exactly for a text that names no stage, else the stage's place |
| PayrollPage.OneCurrentStep | pages/Payroll.tsx:89-90 | exactly one step is current, the run's own, and it is not shown completed |
| PayrollPage.Click | pages/Payroll.tsx:96-99 | a step no further than one past the current is taken; others are ignored |
| PayrollPage.ClickBack | pages/Payroll.tsx:97 | every earlier step can be returned to |
| PayrollPage.UnrecognisedOnlyDraft | pages/Payroll.tsx:97 | from an unknown status only the first step responds |
| PayrollPage.ClickAll | pages/Payroll.tsx:96-99 | after a run of clicks the status is where it started or a stage that was clicked |
| PayrollPage.ClicksAdvanceOneAtATime | pages/Payroll.tsx:97 | after any clicks the run is at most as many stages ahead as there were clicks |
| PayrollPage.DraftToDisbursed | pages/Payroll.tsx:96-99 | four clicks take a draft to Disbursed |
| PayrollPage.Approve | pages/Payroll.tsx:204-212 | approval is offered only in Finance Review and sets Approved |
| PayrollPage.Disburse | pages/Payroll.tsx:214-222 | disbursal is offered only when Approved and sets Disbursed |
| PayrollPage.ButtonsInOrder | pages/Payroll.tsx:204-222 | from the initial status approval then disbursal reaches Disbursed; disbursal first does nothing |
| PayrollPage.ButtonsStepOne | pages/Payroll.tsx:204-222 | each button moves the run one stage forward or not at all |
| PayrollPage.ButtonPersists | pages/Payroll.tsx:48-52 | the stage a button saves is restored as itself |
| PayrollPage.RowBadge | pages/Payroll.tsx:319-320 | "Paid" exactly when Disbursed, "Ready" otherwise |
| PayrollPage.Earnings | pages/Payroll.tsx:73-74 | basic + hra + special allowance, or 0 without a structure |
| PayrollPage.Deductions | pages/Payroll.tsx:73-75 | pf + tds + professional tax, or 0 without a structure |
| PayrollPage.NetPay | pages/Payroll.tsx:76 | earnings less deductions, 0 without a structure |
| PayrollPage.NetPayMonotone | pages/Payroll.tsx:74-76 | raising the basic raises net pay by the same amount |
| PayrollPage.PriyaPay | constants.tsx:20-159 | the fixture administrator earns 200000, has 37200 deducted and 162800 net |

## Left out

- Browser storage, JSON encoding and the window events are not modelled: `aligna_attendance_db`, `aligna_employees_db`, `aligna_audit_logs`, `aligna_leaves` and `aligna_payroll_status`, and the subscribe/unsubscribe plumbing. Storage contents are parameters (`Option` for a missing key) or class fields, and a subscription is modelled as one evaluation of its callback's list.
- The clock is not modelled. `new Date()`, `toISOString` and `getDay` are inputs: `today`, `now`, and `SeedDay` with its date, weekday and midnight. `toLocaleTimeString` is not modelled, so entry/exit are the raw timestamps.
- `Math.random` is not modelled: its values come in as `Draw` parameters in the ranges the code produces.
- `Date.now()` in generated ids (`att_…`, `log_…`, `l_…`) is the `now` parameter.
- Floating-point figures are not modelled: the payroll percentage splits, `totalOrgPayout`, `formatINR`, `avgHours` (including its division by zero when every record is Absent or Leave), `presenceRate`, and the trend's `toFixed(1)` hours. The trend keeps the milliseconds instead.
- `parseFloat` of the minimum-hours filter is an input, `MinHours`: no filter, a number, or not a number.
- Number fields (salary, structure amounts) are unbounded integers.
- The `catch` branch of `updateProfile` ("Unable to save changes. Please try again.") is not modelled, because it is reached only through a storage failure, which the model has none of.
- `getAuditLogs` is not modelled as a separate read: the log is the store's `auditLogs` field.
- `setTimeout` delays, loading flags, toasts clearing after 3 seconds, modals and form resets are not modelled; only the toast's kind and texts are.
- The Approve and Disburse buttons exist only in their stage. Pressing one in another stage is impossible on the page; the model treats it as no change.
- `window.confirm` is a boolean parameter of `DeleteEmployee`.
- Text is modelled with these simplifications:
  - `toLowerCase` lowers only ASCII A–Z;
  - `localeCompare` and the date comparisons are plain lexicographic order on characters;
  - `password.length` counts characters, not UTF-16 units.
- `Object.keys` order for an administrator's update is replaced by the fixed field order. The diff does not depend on the order.
- ProfileService.ProfileStore.UpdateProfile: on the call that finds storage empty, `getEmployees` returns the `MOCK_EMPLOYEES` array itself rather than a parse (services/profileService.ts:16-18). On that call the source shares the fixture's salary-structure objects, so sending one of them back is no change, and `db[empIdx] = updatedProfile` (services/profileService.ts:98) also writes into the fixture array that other pages read. The model treats that call like the others: any salary structure sent counts as a change, and the fixture is never altered.
- AttendanceService.NewestFirst: the sort's stability is not stated; only the permutation and the date order are.
- The dashboard's `fetchLeaves` reads the fixture when nothing is stored but, unlike the leaves page, does not write it back. The model reads it the same way and writes nothing.
- AttendanceService.SeededValid: requires the 30 calendar days to have distinct dates, which the real clock guarantees except across time-zone changes.
- All rendering is out of scope. This covers JSX, charts, CSV export, `components/`, `App.tsx` routing and `pages/Profile.tsx`, whose editability check only mirrors the service rule.
