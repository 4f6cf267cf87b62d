# Employee management system — a Dafny model

The system manages the employees of a company through a browser application and three
interchangeable server back ends.

- **Browser application.** Written in React and TypeScript. It keeps users, employees,
  payroll records, payment requests and notifications in the browser's local storage.
  - People sign up as employees and are approved by an administrator.
  - Administrators pay salaries, compute monthly records and answer payment requests.
  - Employees read their own records and ask for payments.
- **Server back ends.** Each exposes employee CRUD over HTTP with soft deletion, search
  and statistics:
  - a Node/Express/Sequelize server, with its request validators;
  - a Spring Boot server, with a JPA repository and a service;
  - a Spring demo controller working on an in-memory list.
- **Configuration.** Both sides carry configuration classes: the browser's environment
  settings and the Spring environment check.

The model is written in Dafny, one module per source file:

- `EmsTypes` (types.dfy): the record types of the browser application.
- `Payroll` (payroll.dfy): salary, deduction and monthly-record arithmetic.
- `LocalStore` (store.dfy): the local-storage store, as a class whose fields the handlers update.
- `Auth` (auth.dfy): login and logout.
- `Signup` (signup.dfy): the sign-up form checks, the created employee and the administrator's notification.
- `AdminDashboard` (admin_dashboard.dfy): approval, rejection, payment, monthly records, request handling, the statistics.
- `EmployeeDashboard` (employee_dashboard.dfy): the employee's own views and payment requests.
- `FrontendConfig` (frontend_config.dfy): the browser environment settings and URL building.
- `NodeEmployee` (node_employee.dfy): the Sequelize employee model.
- `Validation` (validation.dfy): the Express request validators.
- `NodeController` (employee_controller.dfy): the Node handlers over an in-memory table.
- `EmployeeRepository` (repository.dfy): the JPA queries, as functions over a map of rows.
- `EmployeeService` (employee_service.dfy): the Spring service, as a class over the repository state.
- `DemoController` (demo_controller.dfy): the demo controller, as a class over its list.
- `EnvironmentConfig` (environment_config.dfy): the Spring settings and their validation.

Three helper modules sit underneath:

- Wrappers: `Option` and `Result`;
- Strings: JavaScript white space and `trim`, ASCII lower-casing, substring and `LIKE`
  matching, decimal rendering and `parseInt` (Java's comma split lives in EnvironmentConfig);
- Seqs: filter, find, sum and stable sort on sequences.

How the source's state is represented:

- Code that updates state in place (the store, the demo list, the service, the Node
  table) is a class with `modifies` clauses.
- Each such method is specified against a function of the old state.
- The properties the source relies on are lemmas about those functions. Examples:
  approval and the other handlers keep the store consistent, pay totals add up, soft
  deletion hides a row from the active list, the department and e-mail lookups and the
  search, and the JSON round trip is lossless.
- Identifiers, clocks and the e-mail and date syntax checks of the validator library are
  parameters.

## Model

| member | source | states |
|---|---|---|
| EmsTypes.PaymentStatusText | ems/src/types/index.ts:35 | a payment status is stored as one of the three texts `pending`, `paid`, `processing` |
| EmsTypes.RequestTypeText | ems/src/types/index.ts:47 | a request type is stored as one of the five texts `salary`, `advance`, `bonus`, `reimbursement`, `other` |
| Payroll.WorkingDaysOf | ems/src/utils/storage.ts:74 | the working-day divisor is never 0: a given non-zero count is used as it is, a negative one included, and a missing or zero count is read as 1 |
| Payroll.CalculateNetSalary | ems/src/utils/storage.ts:71-96 | the net salary is never negative; when the deductions fit in the gross pay, net salary plus deductions is exactly the gross pay, otherwise it is 0 |
| Payroll.NetSalaryFormula | ems/src/utils/storage.ts:80-95 | the result equals the closed formula max(0, (B/D)·(present + half/2 + 3·overtime/16) + bonuses − deductions) |
| Payroll.ScaledSum | ems/src/utils/storage.ts:84-87 | full days, half days at half rate and overtime at 1.5 times the hourly rate (daily rate / 8) add up to rate·(p + h/2 + 3o/16) |
| Payroll.BonusesMonotone | ems/src/utils/storage.ts:90-95 | raising the bonuses never lowers the net salary |
| Payroll.DeductionsAntitone | ems/src/utils/storage.ts:93-95 | raising the deductions never raises the net salary |
| Payroll.EmptyInputEarnsNothing | ems/src/utils/storage.ts:72-78 | a record with every field missing earns 0 |
| Payroll.MissingDaysIsOne | ems/src/utils/storage.ts:74 | leaving the working days out, or entering 0, gives the same salary as entering 1 |
| Payroll.FullMonthExample | ems/src/utils/storage.ts:71-96 | example: 22 000 over 22 days with every day present gives exactly 22 000 |
| Payroll.MixedMonthExample | ems/src/utils/storage.ts:71-96 | example: 20 present days, 2 half days, 3 overtime hours, bonus 500 and deduction 1000 give 21 062.5 |
| Payroll.OverDeductedExample | ems/src/utils/storage.ts:93-95 | example: deductions larger than the pay floor the result at 0 |
| Payroll.NegativeDaysExample | ems/src/utils/storage.ts:71-96 | example: a negative present-day count is used as it is and lowers the pay, 10000 in bonuses less 5 days at 1000 leaving 5000 |
| Payroll.GetMonthName | ems/src/utils/storage.ts:98-104 | there is a name exactly for the indices 0..11, and it is that entry of the month list; any other index gives `undefined` (None) |
| Payroll.MonthNameInjective | ems/src/utils/storage.ts:99-102 | different indices have different month names |
| Payroll.MonthNameEnds | ems/src/utils/storage.ts:99-103 | index 0 is January and index 11 is December |
| LocalStore.Store.constructor | ems/src/utils/storage.ts:12-50 | empty storage: every collection reads as the empty list, nobody is signed in, and the record invariant holds |
| LocalStore.Store.AddNotification | ems/src/utils/storage.ts:56-69 | a new unread notification with kind `info` by default is put in front, and the stored notifications follow unchanged and in order |
| LocalStore.Store.Valid | ems/src/components/AdminDashboard.tsx:179-207 | an empty record list is consistent, and in a consistent store no record's gross salary is below its deductions |
| Auth.EmployeeUser | ems/src/context/AuthContext.tsx:52-57 | an employee signs in as a user of kind employee with the employee's id, full name and e-mail |
| Auth.Login | ems/src/context/AuthContext.tsx:29-64 | the administrator is accepted exactly for `admin`/`admin123`; an employee is accepted exactly when some stored employee with those credentials is approved, and signs in as the first such employee |
| Auth.AdminLoginIgnoresEmployees | ems/src/context/AuthContext.tsx:30-43 | the administrator's answer is the same whatever employees are stored |
| Auth.UnapprovedCannotSignIn | ems/src/context/AuthContext.tsx:46-49 | when no account with the address is approved, the login is refused whatever the password |
| Auth.ApprovedCanSignIn | ems/src/context/AuthContext.tsx:46-61 | an approved employee whose address is unique signs in as that employee with the stored password |
| Auth.SignIn | ems/src/context/AuthContext.tsx:29-64 | the result is true exactly when the login is accepted; then that user is the signed-in user, otherwise the signed-in user is unchanged; the store is consistent afterwards exactly when it was before |
| Auth.SignOut | ems/src/context/AuthContext.tsx:66-69 | nobody is signed in afterwards; the store is consistent afterwards exactly when it was before |
| Signup.Fields | ems/src/components/Signup.tsx:11-20 | the form has exactly eight values, checked in declaration order |
| Signup.EmailPatternIffRule | ems/src/components/Signup.tsx:48-49 | the address pattern accepts exactly the addresses with no white space, exactly one `@` with something before it, and a `.` strictly inside the part after it |
| Signup.PatternGivesRule | ems/src/components/Signup.tsx:48 | every address the pattern accepts meets that rule |
| Signup.RuleGivesPattern | ems/src/components/Signup.tsx:48 | every address meeting that rule is accepted by the pattern |
| Signup.EmailAccepted | ems/src/components/Signup.tsx:48-49 | example: `jane@example.com` is accepted |
| Signup.DoubleAtRefused | ems/src/components/Signup.tsx:48-49 | example: an address with two `@` is refused |
| Signup.CheckSignup | ems/src/components/Signup.tsx:29-59 | the first failing check in source order, with each error named by its exact condition: a blank field, then unequal passwords, then fewer than 6 characters, then a bad address, then an address in use; None exactly when all checks pass |
| Signup.NewEmployee | ems/src/components/Signup.tsx:64-75 | the stored record copies the form's fields, is not approved, and has no salary, leave balance or identity numbers |
| Signup.SignupBlocksDuplicate | ems/src/components/Signup.tsx:54-59 | after an accepted sign-up, any later form with the same address is refused |
| Signup.EmailCaseSensitive | ems/src/components/Signup.tsx:56 | the in-use check compares exactly: an address that differs only in case is not in use |
| Signup.Submit | ems/src/components/Signup.tsx:29-89 | on a failed check nothing is stored; otherwise the new employee is appended and the administrator is notified of the request; the store is consistent afterwards exactly when it was before |
| AdminDashboard.PendingEmployees | ems/src/components/AdminDashboard.tsx:51 | an employee is on the pending list exactly when it is stored and not approved |
| AdminDashboard.ApprovedEmployees | ems/src/components/AdminDashboard.tsx:52 | an employee is on the approved list exactly when it is stored and approved |
| AdminDashboard.FindApproved | ems/src/components/AdminDashboard.tsx:149-170 | an account is found exactly when some stored approved employee has the id, and the one found is such an employee |
| AdminDashboard.ApprovalPartition | ems/src/components/AdminDashboard.tsx:50-52 | every stored employee is on exactly one of the two lists: their lengths and multisets add up to the stored list |
| AdminDashboard.AdminNotifications | ems/src/components/AdminDashboard.tsx:56 | a notification is shown exactly when it is stored and addressed to `admin` |
| AdminDashboard.ApproveInList | ems/src/components/AdminDashboard.tsx:61-67 | every account with the id gets the decision and 24 leave days, whether approved or rejected; all others are unchanged and the length is kept |
| AdminDashboard.ApprovalLeavesPending | ems/src/components/AdminDashboard.tsx:51-67 | after an approval no account with that id is on the pending list |
| AdminDashboard.ApprovalEnablesLogin | ems/src/components/AdminDashboard.tsx:60-67 | approving an account whose address and id are unique lets its owner sign in with the stored password |
| AdminDashboard.ApproveEmployee | ems/src/components/AdminDashboard.tsx:60-83 | the stored list is the decision applied to every account with the id; the owner gets a success or error notice exactly when such an account was stored; the store is consistent afterwards exactly when it was before |
| AdminDashboard.SettleInList | ems/src/components/AdminDashboard.tsx:86-98 | every request with the id gets the decided status, processed at now by `admin`, and the notes or `""`, with its other fields kept; all other requests are unchanged |
| AdminDashboard.SettlingReducesPending | ems/src/components/AdminDashboard.tsx:85-98 | settling never adds to the pending count, and lowers it when a pending request had the id |
| AdminDashboard.HandlePayRequest | ems/src/components/AdminDashboard.tsx:85-114 | the stored requests are settled; the owner of the first request with the id gets the approval or rejection notice, and nobody is notified when none has it; the store is consistent afterwards exactly when it was before |
| AdminDashboard.ReplaceEmployee | ems/src/components/AdminDashboard.tsx:118-120 | every account with the edited id is replaced by the edited profile, and every other account is kept |
| AdminDashboard.ReplaceEmployeeIdempotent | ems/src/components/AdminDashboard.tsx:118-120 | saving the same profile twice is saving it once |
| AdminDashboard.UpdateEmployee | ems/src/components/AdminDashboard.tsx:116-131 | the edited profile is stored and its owner gets a `Profile Updated` notice, whether or not an account with that id was found; the store is consistent afterwards exactly when it was before |
| AdminDashboard.SendMessage | ems/src/components/AdminDashboard.tsx:133-164 | blank text or no recipient changes nothing; otherwise the trimmed text is appended as an unread message from the administrator, and a notice goes to the recipient exactly when it is an approved employee; the store is consistent afterwards exactly when it was before |
| AdminDashboard.RecordWorkingDays | ems/src/components/AdminDashboard.tsx:173 | the record's working days: a given non-zero count, otherwise 22 |
| AdminDashboard.BuildRecord | ems/src/components/AdminDashboard.tsx:172-211 | the record is for the chosen employee; month and year fall back to the current ones; absent days are working days minus present, half and leave days, with no floor; net salary is the calculator's result; gross salary is net salary plus deductions, so the record is consistent |
| AdminDashboard.WorkingDayDefaultsDisagree | ems/src/components/AdminDashboard.tsx:173-189 | the record divides by a default of 22 while the bare calculator divides by 1: the same form gives 22 000 and 484 000 |
| AdminDashboard.LeaveAfter | ems/src/components/AdminDashboard.tsx:222 | the new balance is never negative; it is the old balance (a missing or 0 balance read as 24) minus the leave days, floored at 0 |
| AdminDashboard.NegativeLeaveRaisesBalance | ems/src/components/AdminDashboard.tsx:218-226 | a negative leave count, which the form lets through, raises the balance by its size, so 24 becomes 29 for -5 |
| AdminDashboard.ZeroBalanceReadsAsFull | ems/src/components/AdminDashboard.tsx:222 | a stored balance of 0 is treated like no balance, that is as the full 24 days |
| AdminDashboard.DeductLeave | ems/src/components/AdminDashboard.tsx:218-226 | every account with the id gets the reduced balance, and every other account is unchanged |
| AdminDashboard.AddMonthlyRecord | ems/src/components/AdminDashboard.tsx:166-253 | with no selection, no or zero basic salary, or no approved employee with the id, nothing changes; otherwise exactly the built record is appended, leave is deducted, the employee is notified, and every stored record stays consistent |
| AdminDashboard.MarkRead | ems/src/components/AdminDashboard.tsx:257-259 | every notification with the id is marked read, and every other one is unchanged |
| AdminDashboard.MarkReadIdempotent | ems/src/components/AdminDashboard.tsx:257-259 | marking a notification read twice is marking it once |
| AdminDashboard.MarkReadReducesUnread | ems/src/components/AdminDashboard.tsx:255-262 | the unread count never grows, and drops when an unread notification had the id |
| AdminDashboard.MarkNotificationAsRead | ems/src/components/AdminDashboard.tsx:255-262 | the stored notifications are the marked list; the store is consistent afterwards exactly when it was before |
| AdminDashboard.SetPaymentStatus | ems/src/components/AdminDashboard.tsx:266-271 | every record with the id gets the new status and update time, whatever its old status; all others are unchanged |
| AdminDashboard.NoTransitionGuard | ems/src/components/AdminDashboard.tsx:264-271 | no transition is refused: a paid record can be set back to pending |
| AdminDashboard.UiNextStatus | ems/src/components/AdminDashboard.tsx:545-557 | the buttons move a record exactly one step forward (pending, processing, paid), and offer nothing exactly when it is paid |
| AdminDashboard.UiPathToPaid | ems/src/components/AdminDashboard.tsx:545-557 | from pending the buttons reach paid in exactly two steps |
| AdminDashboard.UpdatePaymentStatus | ems/src/components/AdminDashboard.tsx:264-285 | the stored records get the status; the owner of the first record with the id gets a success notice for `paid` and an info notice otherwise; records stay consistent |
| AdminDashboard.TotalSalaryPaid | ems/src/components/AdminDashboard.tsx:317 | over consistent records the total salary paid is never negative, and it is 0 while no record is paid |
| AdminDashboard.PendingPayments | ems/src/components/AdminDashboard.tsx:314 | the badge never exceeds the number of requests, is 0 exactly when no request is pending, and equals the number of requests exactly when all are pending |
| AdminDashboard.UnreadMessages | ems/src/components/AdminDashboard.tsx:315 | the badge never exceeds the number of messages, and is 0 exactly when every message from an employee has been read |
| AdminDashboard.UnreadNotifications | ems/src/components/AdminDashboard.tsx:316 | the badge never exceeds the number of notifications, and is 0 exactly when every notification for the administrator has been read; employees' notifications never count |
| AdminDashboard.TotalSalaryPaidAppend | ems/src/components/AdminDashboard.tsx:317 | appending a record adds its net salary to the total exactly when it is paid |
| AdminDashboard.PayingRaisesTotal | ems/src/components/AdminDashboard.tsx:317 | marking a unique unpaid record paid raises the total paid by exactly its net salary |
| EmployeeDashboard.LoadMessages | ems/src/components/EmployeeDashboard.tsx:46-52 | the conversation is sorted oldest first and holds exactly the stored messages the user sent or received, each as often as it is stored |
| EmployeeDashboard.LoadMessagesStable | ems/src/components/EmployeeDashboard.tsx:50 | messages with the same timestamp keep their stored order (the sort is stable) |
| EmployeeDashboard.LoadNotifications | ems/src/components/EmployeeDashboard.tsx:54-58 | a notification is shown exactly when it is stored and addressed to the user |
| EmployeeDashboard.LoadPayRequests | ems/src/components/EmployeeDashboard.tsx:60-64 | a request is shown exactly when it is stored and the user submitted it |
| EmployeeDashboard.LoadMonthlyRecords | ems/src/components/EmployeeDashboard.tsx:66-70 | a record is shown exactly when it is stored and belongs to the user |
| EmployeeDashboard.OwnMessageNotUnread | ems/src/components/EmployeeDashboard.tsx:145 | a message the user sends never adds to the user's unread count |
| EmployeeDashboard.TotalEarningsNonNegative | ems/src/components/EmployeeDashboard.tsx:148 | over consistent records the user's total earnings are never negative |
| EmployeeDashboard.TotalEarnings | ems/src/components/EmployeeDashboard.tsx:148 | the sum over the shown records, paid or not, is never negative when they are consistent |
| EmployeeDashboard.PendingRequestCount | ems/src/components/EmployeeDashboard.tsx:147 | the count never exceeds the shown requests, and is 0 exactly when none of them is pending |
| EmployeeDashboard.UnreadMessageCount | ems/src/components/EmployeeDashboard.tsx:145 | the count never exceeds the shown messages, and is 0 exactly when every message the user did not send has been read |
| EmployeeDashboard.UnreadNotificationCount | ems/src/components/EmployeeDashboard.tsx:146 | the count never exceeds the shown notifications, and is 0 exactly when all of them are read |
| EmployeeDashboard.SendMessage | ems/src/components/EmployeeDashboard.tsx:72-94 | blank text or nobody signed in changes nothing; otherwise the trimmed text goes to `admin` as an unread message from the user, and the administrator is notified; the store is consistent afterwards exactly when it was before |
| EmployeeDashboard.NewRequest | ems/src/components/EmployeeDashboard.tsx:99-109 | the stored request belongs to the user, is pending and not processed, and its amount is `parseInt` of the typed text |
| EmployeeDashboard.SubmitPayRequest | ems/src/components/EmployeeDashboard.tsx:96-126 | a request is submitted exactly when someone is signed in and amount and purpose are non-empty; then exactly one new request is appended and the administrator is notified, otherwise nothing changes; the store is consistent afterwards exactly when it was before |
| EmployeeDashboard.SubmittedRequestIsPending | ems/src/components/EmployeeDashboard.tsx:147 | a submitted request adds exactly one to the user's pending requests |
| EmployeeDashboard.AmountRoundTrip | ems/src/components/EmployeeDashboard.tsx:103 | an amount typed as the text of a whole number is stored as exactly that number |
| DemoController.FullName | Backend/src/main/java/com/employeems/controller/DemoController.java:29 | the full name is as long as the two rendered names plus one; it reads as the rendered first name (a missing name rendered as `null`), then a space, then the rendered last name |
| DemoController.HireDate | Backend/src/main/java/com/employeems/controller/DemoController.java:83 | only an absent `hireDate` key takes the default `2024-01-01`; a present key keeps its value, even `null` |
| DemoController.NewEntry | Backend/src/main/java/com/employeems/controller/DemoController.java:74-84 | the new entry has the given id, is active, takes every field from the body (absent keys as `null`), and has the full name built from the body's names |
| DemoController.Updated | Backend/src/main/java/com/employeems/controller/DemoController.java:108-115 | names, e-mail, department, position and salary are overwritten from the body; id, hire date and the active flag are kept |
| DemoController.UpdatedIdempotent | Backend/src/main/java/com/employeems/controller/DemoController.java:108-115 | applying the same update twice is applying it once |
| DemoController.FilterKeepsIncreasing | Backend/src/main/java/com/employeems/controller/DemoController.java:132 | removing entries keeps the remaining ids strictly increasing |
| DemoController.RemoveId | Backend/src/main/java/com/employeems/controller/DemoController.java:132 | the loop keeps exactly the entries whose id differs, in order, and reports whether any entry had the id |
| DemoController.HasIdSnoc | Backend/src/main/java/com/employeems/controller/DemoController.java:132 | a list with one more entry has the id exactly when the old list had it or the new entry has it |
| DemoController.DeptCountsCount | Backend/src/main/java/com/employeems/controller/DemoController.java:150-154 | each department's count is the number of entries in that department, and a department is a key exactly when some entry is in it |
| DemoController.DeptCountsTotal | Backend/src/main/java/com/employeems/controller/DemoController.java:150-157 | the department counts add up to the number of entries |
| DemoController.SampleEntry | Backend/src/main/java/com/employeems/controller/DemoController.java:24-37 | a seed entry has the given id and fields, a full name built from its names, is active, and was hired on 2022-01-15 |
| DemoController.SeedEntry | Backend/src/main/java/com/employeems/controller/DemoController.java:15-22 | seed row i is stored with id i + 1, active, hired on 2022-01-15 |
| DemoController.DemoStore.AddSample | Backend/src/main/java/com/employeems/controller/DemoController.java:24-37 | one seed entry with the counter's value is appended, and the counter moves up by one |
| DemoController.DemoStore.constructor | Backend/src/main/java/com/employeems/controller/DemoController.java:12-22 | after start-up the five seed rows are stored in order with ids 1 to 5, and the next id is 6 |
| DemoController.DemoStore.GetAll | Backend/src/main/java/com/employeems/controller/DemoController.java:39-47 | the response holds the whole list and its size |
| DemoController.DemoStore.GetById | Backend/src/main/java/com/employeems/controller/DemoController.java:49-67 | nothing is found exactly when no entry has the id; otherwise the first entry with the id is returned |
| DemoController.DemoStore.Create | Backend/src/main/java/com/employeems/controller/DemoController.java:69-97 | the new entry takes the counter's value, an id never handed out before, and is appended; the counter moves up by one |
| DemoController.DemoStore.Update | Backend/src/main/java/com/employeems/controller/DemoController.java:99-126 | on an unknown id nothing changes; otherwise the first entry with the id is overwritten in place and returned, and the rest of the list is unchanged |
| DemoController.DemoStore.Delete | Backend/src/main/java/com/employeems/controller/DemoController.java:128-143 | every entry with the id is dropped and the others keep their order; the result says whether anything was removed |
| DemoController.DemoStore.Statistics | Backend/src/main/java/com/employeems/controller/DemoController.java:145-162 | the total is the number of entries, each department is mapped to the number of entries in it, and the counts add up to the total |
| DemoController.DemoStore.Health | Backend/src/main/java/com/employeems/controller/DemoController.java:164-172 | the status is always `UP`, with the number of entries |
| EmployeeRepository.ActiveIds | Backend/src/main/java/com/employeems/repository/EmployeeRepository.java:18 | an id is listed exactly when its row is stored and active |
| EmployeeRepository.FindByIsActiveTrue | Backend/src/main/java/com/employeems/repository/EmployeeRepository.java:18 | a row is returned exactly when it is stored and active |
| EmployeeRepository.FindByDepartmentAndIsActiveTrue | Backend/src/main/java/com/employeems/repository/EmployeeRepository.java:22 | a row is returned exactly when it is stored, active and in the department |
| EmployeeRepository.DepartmentNarrowsActive | Backend/src/main/java/com/employeems/repository/EmployeeRepository.java:18-22 | the department query returns exactly the active rows that are in the department |
| EmployeeRepository.FindByEmailAndIsActiveTrue | Backend/src/main/java/com/employeems/repository/EmployeeRepository.java:26 | a row is returned exactly when it is stored, active and has the address |
| EmployeeRepository.ExistsByEmailAndIdNotAgrees | Backend/src/main/java/com/employeems/repository/EmployeeRepository.java:27-28 | excluding an id only ever loses the row with that id: the answer implies `existsByEmail`, and the two agree when the id is absent or its row has another address |
| EmployeeRepository.ExistsByEmail | Backend/src/main/java/com/employeems/repository/EmployeeRepository.java:27 | an empty table holds no address, and an address found among the active rows exists |
| EmployeeRepository.ExistsByEmailAndIdNot | Backend/src/main/java/com/employeems/repository/EmployeeRepository.java:28 | a hit implies `existsByEmail`, and the two agree when no row carries the excluded id |
| EmployeeRepository.SearchActiveEmployees | Backend/src/main/java/com/employeems/repository/EmployeeRepository.java:31-37 | a row is returned exactly when it is stored, active, and one of its five text columns matches the lower-cased pattern |
| EmployeeRepository.SearchIsCaseInsensitiveContains | Backend/src/main/java/com/employeems/repository/EmployeeRepository.java:31-37 | for a term without `%`, `_` or `\`, a row is found exactly when it is stored, active, and one of its five text columns contains the term, ignoring case |
| Strings.EscapedWildcard | Backend/src/main/java/com/employeems/repository/EmployeeRepository.java:31-37 | behind the default escape character a wildcard is literal: `\%` matches only `%` and `\_` only `_` |
| EmployeeRepository.EmptySearchIsActive | Backend/src/main/java/com/employeems/repository/EmployeeRepository.java:31-37 | the empty term returns every active row |
| EmployeeRepository.CountEmployeesByDepartment | Backend/src/main/java/com/employeems/repository/EmployeeRepository.java:40-41 | a department is a group exactly when an active row is in it, and its count is the number of such rows, at least 1 |
| EmployeeRepository.CountByIsActiveTrue | Backend/src/main/java/com/employeems/repository/EmployeeRepository.java:44 | the count is the number of active rows |
| EmployeeRepository.ActiveRowsCount | Backend/src/main/java/com/employeems/repository/EmployeeRepository.java:44 | on a table keyed by id, active rows and active ids are in one-to-one correspondence |
| EmployeeRepository.IdsOfRows | Backend/src/main/java/com/employeems/repository/EmployeeRepository.java:44 | on a table keyed by id, distinct ids hold distinct rows |
| EmployeeRepository.GroupedOnlyIfPresent | Backend/src/main/java/com/employeems/repository/EmployeeRepository.java:40 | a department with grouped rows is one of the rows' departments |
| EmployeeRepository.GroupCountStep | Backend/src/main/java/com/employeems/repository/EmployeeRepository.java:40 | taking one row out of the grouping lowers its department's count by exactly one |
| EmployeeRepository.GroupCountTotal | Backend/src/main/java/com/employeems/repository/EmployeeRepository.java:40 | the grouped counts add up to the number of rows grouped |
| EmployeeRepository.DepartmentCountsSumToActive | Backend/src/main/java/com/employeems/repository/EmployeeRepository.java:40-44 | the per-department counts add up to `countByIsActiveTrue` |
| EmployeeRepository.StrLessTotal | Backend/src/main/java/com/employeems/repository/EmployeeRepository.java:47 | the string order is total and asymmetric: two different strings are ordered exactly one way |
| EmployeeRepository.StrLessIrreflexive | Backend/src/main/java/com/employeems/repository/EmployeeRepository.java:47 | no string comes before itself |
| EmployeeRepository.InsertAscending | Backend/src/main/java/com/employeems/repository/EmployeeRepository.java:47 | inserting adds exactly the new element to the contents |
| EmployeeRepository.ConsAscending | Backend/src/main/java/com/employeems/repository/EmployeeRepository.java:47 | putting an absent element that is smaller than the head in front keeps the list ascending |
| EmployeeRepository.InsertAscendingKeeps | Backend/src/main/java/com/employeems/repository/EmployeeRepository.java:47 | inserting a new element into an ascending list keeps it ascending |
| EmployeeRepository.SortedElements | Backend/src/main/java/com/employeems/repository/EmployeeRepository.java:47 | the list has exactly the set's elements, each once |
| EmployeeRepository.SortedElementsAscending | Backend/src/main/java/com/employeems/repository/EmployeeRepository.java:47 | the list is strictly ascending |
| EmployeeRepository.FindAllDepartments | Backend/src/main/java/com/employeems/repository/EmployeeRepository.java:47-48 | a department is listed exactly when some active row is in it |
| EmployeeRepository.AllDepartmentsAscending | Backend/src/main/java/com/employeems/repository/EmployeeRepository.java:47-48 | the departments come in ascending order without repeats, and they are exactly the grouped departments of `countEmployeesByDepartment` |
| EmployeeService.RowOf | spring-employee-ms/src/main/java/com/employeems/service/EmployeeService.java:43-46 | a saved entity is stored under its id with its address and active flag |
| EmployeeService.Validate | spring-employee-ms/src/main/java/com/employeems/service/EmployeeService.java:121-125 | an entity is refused exactly when it has no id and some stored row, active or not, has its address; the message is `Email already exists` |
| EmployeeService.SaveNewKeepsEmailsUnique | spring-employee-ms/src/main/java/com/employeems/service/EmployeeService.java:43-46 | saving a new entity that passed the check keeps every address unique and every row under its own id |
| EmployeeService.SaveWithIdSkipsCheck | spring-employee-ms/src/main/java/com/employeems/service/EmployeeService.java:122 | the service's own check does not refuse an entity that carries an id, even when another row holds its address; storing it would break uniqueness, so only the unique column stops it |
| EmployeeService.WriteKeepsEmailsUnique | Backend/src/main/java/com/employeems/service/DatabaseInitializationService.java:79 | over unique addresses, writing a row keeps them unique exactly when no other row holds its address, which is the write the unique e-mail column lets through |
| EmployeeService.Updated | spring-employee-ms/src/main/java/com/employeems/service/EmployeeService.java:59-65 | the seven setters copy names, address, department, position, hire date and salary; id and the active flag are kept |
| EmployeeService.UpdateOutcome | spring-employee-ms/src/main/java/com/employeems/service/EmployeeService.java:49-68 | an unknown id fails with `Employee not found with id: …`; a changed address held by another id fails with `Email already exists`; otherwise the updated row is saved |
| EmployeeService.UpdateKeepsEmailsUnique | spring-employee-ms/src/main/java/com/employeems/service/EmployeeService.java:54-67 | a successful update keeps every address unique and every row under its id |
| EmployeeService.SameEmailAlwaysUpdates | spring-employee-ms/src/main/java/com/employeems/service/EmployeeService.java:54-57 | keeping one's own address is never refused |
| EmployeeService.Service.constructor | spring-employee-ms/src/main/java/com/employeems/service/EmployeeService.java:22-23 | the service starts over a table keyed by id, with unique addresses, whose ids are all below the next generated id |
| EmployeeService.Service.GetById | spring-employee-ms/src/main/java/com/employeems/service/EmployeeService.java:38-40 | a row is returned exactly when the id is stored, and it is that row |
| EmployeeService.Service.GetAllActive | spring-employee-ms/src/main/java/com/employeems/service/EmployeeService.java:26-28 | exactly the active rows are returned |
| EmployeeService.Service.Save | spring-employee-ms/src/main/java/com/employeems/service/EmployeeService.java:43-46 | a new entity whose address is stored is refused with `Email already exists` and nothing changes; an entity whose address another row holds is refused by the unique e-mail column and no row changes; otherwise an entity whose id is stored replaces that row, and one without an id or with an unknown id is inserted under the next generated id; an insert moves the generator by one, even when refused; addresses stay unique |
| EmployeeService.Service.Update | spring-employee-ms/src/main/java/com/employeems/service/EmployeeService.java:49-68 | the result is the update's outcome; on an error nothing changes, on success only that row changes, and unique addresses stay unique |
| EmployeeService.Service.Delete | spring-employee-ms/src/main/java/com/employeems/service/EmployeeService.java:71-76 | an unknown id fails and changes nothing; otherwise the row stays and only its active flag is cleared |
| EmployeeService.Service.HardDelete | spring-employee-ms/src/main/java/com/employeems/service/EmployeeService.java:79-81 | the row with the id is removed and nothing else changes |
| EmployeeService.Service.ExistsById | spring-employee-ms/src/main/java/com/employeems/service/EmployeeService.java:128-130 | the answer is true exactly when the id is stored |
| EmployeeService.SoftDeleteHidesRow | spring-employee-ms/src/main/java/com/employeems/service/EmployeeService.java:71-76 | after a soft delete the row is no longer among the active rows, but it still exists |
| EmployeeService.SoftDeleteHidesRowFromQueries | spring-employee-ms/src/main/java/com/employeems/service/EmployeeService.java:71-76 | after a soft delete the department lookup, the e-mail lookup and the search each lose exactly that row and keep every other |
| Validation.CreateImpliesUpdate | backend/src/middleware/validation.js:4-137 | every body the create chain accepts is also accepted by the update chain |
| Validation.CreateValid | backend/src/middleware/validation.js:4-72 | a body that passes names both names, the e-mail, the department, the position and an ISO hire date no later than the end of the day |
| Validation.UpdateValid | backend/src/middleware/validation.js:75-137 | the empty body passes; a given first name that passes trims to 2 to 50 characters, and a given salary is not negative |
| Validation.EmptyBodyOnlyUpdates | backend/src/middleware/validation.js:75-137 | the update chain accepts the empty body, and the create chain refuses it |
| Validation.Sanitize | backend/src/middleware/validation.js:5-71 | the sanitisers keep each field present exactly when it was sent, and a given name is the trimmed text |
| Validation.SanitizedFlag | backend/src/middleware/validation.js:67-71 | a flag that passes `isBoolean` becomes true exactly for `true` and `1` |
| Validation.ToBoolean | backend/src/middleware/validation.js:71 | only texts of length 0, 1 or 5 become false; on the four `isBoolean` texts the result is true exactly for `true` and `1` |
| Validation.CreateChainMeetsModel | backend/src/middleware/validation.js:4-72 | a body that passes the create chain meets every model constraint once sanitised, when its hire date is not after the instant the model checks against |
| Validation.UpdateChainMeetsModel | backend/src/middleware/validation.js:75-137 | a body that passes the update chain meets the model's constraints on the given attributes |
| Validation.ChainStricterThanModel | backend/src/middleware/validation.js:11 | the chain refuses a name with a digit that the model alone accepts |
| Validation.IntText | backend/src/middleware/validation.js:142 | accepted `isInt` text is non-empty and does not start with white space |
| Validation.IntTextParses | backend/src/middleware/validation.js:142-144 | `isInt` text reads back to the same value under `toInt` |
| Validation.NatTextIsInt | backend/src/middleware/validation.js:142 | every natural number written in decimal is `isInt` text of that value |
| Validation.IdParamValid | backend/src/middleware/validation.js:140-145 | an accepted id has no white space in front and reads back under `parseInt` as an integer of at least 1 |
| Validation.IdParamExamples | backend/src/middleware/validation.js:140-145 | example: `1`, `+7` and `007` are valid ids; `0`, `-3`, ` 5` and the empty string are not |
| Validation.PageOf | backend/src/middleware/validation.js:149-153 | a valid page is at least 1, and 1 when the parameter is absent |
| Validation.LimitOf | backend/src/middleware/validation.js:155-159 | a valid limit lies in 1..100, and is 10 when the parameter is absent |
| Validation.QueryValid | backend/src/middleware/validation.js:148-186 | a query without parameters passes; a page that passes reads back under `parseInt` as at least 1, and a limit as 1 to 100 |
| NodeEmployee.NotEmptyMeaning | backend/src/models/Employee.js:15-17 | text passes `notEmpty` exactly when some character of it is not white space, so passing text is never empty |
| NodeEmployee.BlankNameRefused | backend/src/models/Employee.js:11-36 | a name or position of three blanks fails `notEmpty` although its length is allowed |
| NodeEmployee.DepartmentListExcludesEmpty | backend/src/models/Employee.js:52-64 | no listed department name is blank, so each passes `notEmpty`, and the empty string is not a department |
| NodeEmployee.ModelAcceptsDigitsInNames | backend/src/models/Employee.js:11-36 | the model's name rule has no letters-only check: `Jo3` is accepted |
| NodeEmployee.RowValid | backend/src/models/Employee.js:4-112 | a valid row has a listed department, a hire date no later than now, and a first name of 2 to 50 characters |
| NodeEmployee.Create | backend/src/models/Employee.js:4-112 | a row is created exactly when every required column is given and the row meets every column constraint; it is valid, has the id, and `isActive` defaults to true |
| NodeEmployee.Apply | backend/src/controllers/employeeController.js:181 | each given attribute is written and each missing one is kept, id and creation time are kept, and the update time moves only when some column changes |
| NodeEmployee.Update | backend/src/controllers/employeeController.js:181 | an update succeeds exactly when the given attributes meet their constraints, and then the row is the attributes written over it |
| NodeEmployee.DeactivateOnlyClearsFlag | backend/src/controllers/employeeController.js:234 | deactivating always passes validation and changes only the flag and the update time; an inactive row is left as it is |
| NodeEmployee.UpdateKeepsRowValid | backend/src/models/Employee.js:4-112 | a valid row updated with valid attributes is still valid |
| NodeEmployee.GetFullName | backend/src/models/Employee.js:130-132 | the full name is the first name, one space, and the last name |
| NodeEmployee.JsonRoundTrip | backend/src/models/Employee.js:134-141 | reading the JSON form back gives the row, so it loses nothing |
| NodeEmployee.JsonAddsFullName | backend/src/models/Employee.js:134-141 | the JSON form holds the stored columns and exactly one extra key, `fullName`, holding the full name |
| NodeEmployee.ToJson | backend/src/models/Employee.js:134-141 | the only `null` in the JSON form is the salary of a row without one, and `fullName` holds the full name |
| NodeEmployee.FromJson | backend/src/models/Employee.js:134-141 | a row is read only from a map holding `id`, `isActive` and `salary`, and it carries the id and flag found there, a `null` salary reading as none |
| NodeController.Offset | backend/src/controllers/employeeController.js:18 | the first page skips nothing, and any later page skips at least one full page |
| NodeController.TotalPages | backend/src/controllers/employeeController.js:49 | the fewest pages of `limit` rows that hold every row: they hold them all, and one page fewer would not |
| NodeController.CeilingBounds | backend/src/controllers/employeeController.js:49 | the integer ceiling of count over limit meets both page bounds |
| NodeController.BelowTotalPages | backend/src/controllers/employeeController.js:49-59 | page p is below the page total exactly when p full pages do not hold every row |
| NodeController.Paginate | backend/src/controllers/employeeController.js:55-61 | the block reports the requested page and the row count, with enough pages to hold every row |
| NodeController.PaginationMeaning | backend/src/controllers/employeeController.js:59-60 | a next page is reported exactly when rows remain after this page, and a previous page exactly when this page skips some rows |
| NodeController.BuildWhere | backend/src/controllers/employeeController.js:19-39 | the flag is set exactly when the parameter is the text `true`; a department or search filter is only present when the parameter was given, and then holds its trimmed value |
| NodeController.MatchingIds | backend/src/controllers/employeeController.js:41-47 | an id is counted exactly when its row is stored and the clause selects it |
| NodeController.AbsentFlagListsInactive | backend/src/controllers/employeeController.js:12-29 | with the flag parameter left out, only inactive rows are listed |
| NodeController.SearchIgnoresDepartment | backend/src/controllers/employeeController.js:33-38 | the search never looks at the department |
| NodeController.ListedMeaning | backend/src/controllers/employeeController.js:19-47 | for a valid query whose term holds no `%`, `_` or `\`, a row is listed exactly when it is in the named department (if any), its flag equals the parameter spelling `true`, and the term occurs, ignoring case, in its first name, last name, e-mail or position |
| NodeController.ErrorResponse | backend/src/controllers/employeeController.js:128-153 | a unique-constraint error is 400 `Email address already exists`, a model validation error is 400 `Validation failed`, and any other error is 500 naming the action |
| NodeController.ErrorResponsesAgree | backend/src/controllers/employeeController.js:128-216 | the create and update catches answer alike except on the 500 path |
| NodeController.Visible | backend/src/controllers/employeeController.js:79-81 | a read shows every key of the JSON form except `updatedAt`, and includes `fullName` |
| NodeController.CreateStep | backend/src/controllers/employeeController.js:105-155 | an inserted row has the next sequence value as its id, and no other row holds its address |
| NodeController.CreateStepOrder | backend/src/controllers/employeeController.js:105-155 | the chain is checked first, then the model's constraints, then the unique index; each refusal is named by exactly its condition |
| NodeController.CreateStepRow | backend/src/controllers/employeeController.js:117-124 | a body that passes both the chain and the model ends in a duplicate or an insert of a valid row with the id, active unless the body says otherwise |
| NodeController.CreateResponse | backend/src/controllers/employeeController.js:108-147 | 201 exactly for an insert and 400 otherwise, with `Validation failed` for either validation refusal and `Email address already exists` for a duplicate |
| NodeController.CreateSucceeds | backend/src/controllers/employeeController.js:105-124 | a body the chain accepts, with its hire date not after the model's instant and an address nobody holds, is always inserted |
| NodeController.InsertKeepsValid | backend/src/controllers/employeeController.js:118 | inserting under a fresh id with an address nobody holds keeps the table keyed by id and the addresses unique |
| NodeController.Table.constructor | backend/src/controllers/employeeController.js:1-3 | an empty table whose id sequence starts at 1 |
| NodeController.Table.GetAll | backend/src/controllers/employeeController.js:6-63 | exactly the rows the clause selects are listed, with the pagination block for the valid page and limit and the number of selected rows |
| NodeController.Table.GetById | backend/src/controllers/employeeController.js:75-102 | a stored id is answered 200 with the row's JSON form minus `updatedAt`; an unknown id is 404 `Employee not found` |
| NodeController.Table.Create | backend/src/controllers/employeeController.js:105-155 | the answer is the create decision on the current table and sequence; only an insert changes the table, and the sequence moves on with every insert attempt, including one the unique index refuses |
| NodeController.Table.Update | backend/src/controllers/employeeController.js:158-218 | a refused body is 400, an unknown id 404, a value the model refuses 400, and an address held by another row the unique-index 400, each changing nothing; otherwise only that row changes, to the model's update of it, and the answer is 200 exactly then |
| NodeController.Table.Delete | backend/src/controllers/employeeController.js:221-248 | an unknown id is 404 and changes nothing; otherwise the row stays, and an active row becomes inactive with a new update time |
| NodeController.Table.Stats | backend/src/controllers/employeeController.js:251-282 | the active and inactive counts together count every row, and each department with an active row is mapped to the number of active rows in it |
| NodeController.DepartmentCounts | backend/src/controllers/employeeController.js:256-264 | a department is a key exactly when an active row is in it, and its count is the number of those rows, at least 1 |
| NodeController.SoftDeleteMovesCount | backend/src/controllers/employeeController.js:234-254 | a soft delete moves the row from the active count to the inactive count |
| FrontendConfig.OrElse | ems/src/config/environment.ts:58-67 | `value \|\| fallback`: an unset or empty variable gives the fallback, any other value is used as it is |
| FrontendConfig.ParseBooleanMeaning | ems/src/config/environment.ts:43-46 | an unset or empty value gives the default; otherwise the result is true exactly when the lower-cased value is `true`, so any other value gives false, not the default |
| FrontendConfig.ParseBoolean | ems/src/config/environment.ts:43-46 | an unset or empty value gives the default; a value of any length but four is false whatever the default, and a true result spells `true` once lower-cased |
| FrontendConfig.Load | ems/src/config/environment.ts:56-92 | a URL, endpoint or theme variable set to non-empty text is taken verbatim; an unset dev-mode variable gives Vite's flag and an unset timeout gives 10000 |
| FrontendConfig.ParseBooleanExamples | ems/src/config/environment.ts:43-46 | example: `TRUE` and `True` are true; `yes` and `1` are false even with a true default; empty and unset give the default |
| FrontendConfig.ParseNumber | ems/src/config/environment.ts:49-53 | an unset or empty value, or one with no leading integer, gives the default; otherwise the result is the base-10 value `parseInt` reads |
| FrontendConfig.ParseNumberRoundTrip | ems/src/config/environment.ts:49-53 | the decimal text of a number parses back to that number |
| FrontendConfig.ParseNumberFallsBack | ems/src/config/environment.ts:51-52 | example: `abc` and a bare `-` give the default |
| FrontendConfig.EmptyEnvironmentDefaults | ems/src/config/environment.ts:56-92 | with no variables set, every setting takes its listed default, and the development flag follows the build mode |
| FrontendConfig.EmptyVariableIsUnset | ems/src/config/environment.ts:58 | a base URL set to the empty string is treated as unset |
| FrontendConfig.EmployeeByIdRoundTrip | ems/src/config/environment.ts:102 | the URL is the employees URL, a `/`, and text that parses back to the id |
| FrontendConfig.EmployeeById | ems/src/config/environment.ts:102 | the URL reads as the employees URL, a `/`, and the id in decimal |
| FrontendConfig.ApiUrl | ems/src/config/environment.ts:124 | the URL reads as the base URL followed by the endpoint, with nothing between or after |
| FrontendConfig.EmployeeByIdInjective | ems/src/config/environment.ts:102 | different ids give different URLs |
| FrontendConfig.EmployeeUrlsAreApiUrls | ems/src/config/environment.ts:101-106 | each employee URL is the full API URL of the employees endpoint followed by its fixed suffix |
| FrontendConfig.DemoUrlsAreApiUrls | ems/src/config/environment.ts:109-112 | each demo URL is the full API URL of the demo endpoint followed by its fixed suffix |
| FrontendConfig.ModesAreComplementary | ems/src/config/environment.ts:118-121 | production mode is always the negation of development mode |
| FrontendConfig.IsDevelopment | ems/src/config/environment.ts:118 | development mode holds exactly when production mode does not |
| FrontendConfig.LogLine | ems/src/config/environment.ts:127-131 | a line is written exactly when logging is enabled, and it is `[EMS] ` followed by the text |
| FrontendConfig.DebugLine | ems/src/config/environment.ts:134-138 | a line is written exactly in debug mode, and it is `[EMS DEBUG] ` followed by the text |
| FrontendConfig.ErrorLine | ems/src/config/environment.ts:141-143 | an error line is always written: `[EMS ERROR] ` followed by the text |
| EnvironmentConfig.Resolve | spring-employee-ms/src/main/java/com/employeems/config/EnvironmentConfig.java:16-81 | `${NAME:default}`: a set property is used as it is, even when empty, and an unset one takes the default |
| EnvironmentConfig.CutAt | spring-employee-ms/src/main/java/com/employeems/config/EnvironmentConfig.java:165-168 | there is no cut exactly when the separator is absent; otherwise the text is the part before the first separator, the separator, and the rest |
| EnvironmentConfig.CutAtJoin | spring-employee-ms/src/main/java/com/employeems/config/EnvironmentConfig.java:165-168 | cutting a separator-free part joined to the rest by the separator gives back both pieces |
| EnvironmentConfig.DatabaseUrlRoundTrip | spring-employee-ms/src/main/java/com/employeems/config/EnvironmentConfig.java:165-168 | when the host has no `:`, the port no `/` and the name no `?`, the host, port and name can be read back from the JDBC URL |
| EnvironmentConfig.DatabaseUrl | spring-employee-ms/src/main/java/com/employeems/config/EnvironmentConfig.java:165-168 | the URL starts with `jdbc:mysql://`, the host and a colon, and ends with `?` and the fixed driver options |
| EnvironmentConfig.Load | spring-employee-ms/src/main/java/com/employeems/config/EnvironmentConfig.java:16-81 | a set property is taken verbatim; the converted settings are kept as given; without a password property the configuration is invalid, and without a profile it is in development mode |
| EnvironmentConfig.Pieces | spring-employee-ms/src/main/java/com/employeems/config/EnvironmentConfig.java:171 | a raw split gives at least one piece, and no piece holds a comma |
| EnvironmentConfig.JoinPieces | spring-employee-ms/src/main/java/com/employeems/config/EnvironmentConfig.java:171 | joining the pieces with commas gives back the text |
| EnvironmentConfig.PiecesJoin | spring-employee-ms/src/main/java/com/employeems/config/EnvironmentConfig.java:171 | splitting comma-free parts joined with commas gives back the parts |
| EnvironmentConfig.PiecesOfPlain | spring-employee-ms/src/main/java/com/employeems/config/EnvironmentConfig.java:171 | text without a comma is a single piece |
| EnvironmentConfig.PiecesPrefix | spring-employee-ms/src/main/java/com/employeems/config/EnvironmentConfig.java:171 | a comma-free part followed by a comma and more text splits into that part and the pieces of the rest |
| EnvironmentConfig.DropTrailingEmpty | spring-employee-ms/src/main/java/com/employeems/config/EnvironmentConfig.java:171 | only trailing empty pieces are removed, and the result ends in a non-empty piece or is empty |
| EnvironmentConfig.Split | spring-employee-ms/src/main/java/com/employeems/config/EnvironmentConfig.java:171 | `String.split(",")`: no part holds a comma |
| EnvironmentConfig.SplitJoin | spring-employee-ms/src/main/java/com/employeems/config/EnvironmentConfig.java:170-176 | comma-free parts whose last part is non-empty, joined with commas, split back into those parts |
| EnvironmentConfig.SplitDropsTrailingCommas | spring-employee-ms/src/main/java/com/employeems/config/EnvironmentConfig.java:171 | `a,` splits into `[a]`, and `,` into no parts at all |
| EnvironmentConfig.HeadersArrayIsSplit | spring-employee-ms/src/main/java/com/employeems/config/EnvironmentConfig.java:178-180 | the headers array is the comma split in every case, and `[*]` when the setting is `*` |
| EnvironmentConfig.HeadersArray | spring-employee-ms/src/main/java/com/employeems/config/EnvironmentConfig.java:178-180 | the headers array always equals the comma split of the setting, so no header holds a comma |
| EnvironmentConfig.OriginsArray | spring-employee-ms/src/main/java/com/employeems/config/EnvironmentConfig.java:170-172 | no origin holds a comma, and a setting without a comma is the single origin |
| EnvironmentConfig.MethodsArray | spring-employee-ms/src/main/java/com/employeems/config/EnvironmentConfig.java:174-176 | no method holds a comma, and a setting without a comma is the single method |
| EnvironmentConfig.WildcardWithTrailingComma | spring-employee-ms/src/main/java/com/employeems/config/EnvironmentConfig.java:178-180 | `*,` also gives `[*]`, so `[*]` does not come only from the `*` branch |
| EnvironmentConfig.DefaultOriginsArray | spring-employee-ms/src/main/java/com/employeems/config/EnvironmentConfig.java:46-47 | example: the default origins split into the two local development URLs |
| EnvironmentConfig.DefaultMethodsArray | spring-employee-ms/src/main/java/com/employeems/config/EnvironmentConfig.java:49-50 | example: the default methods split into GET, POST, PUT, DELETE and OPTIONS |
| EnvironmentConfig.ModesExclusive | spring-employee-ms/src/main/java/com/employeems/config/EnvironmentConfig.java:182-188 | development and production mode are never both on, and the profile `test` is neither |
| EnvironmentConfig.ValidityIgnoresHostAndPort | spring-employee-ms/src/main/java/com/employeems/config/EnvironmentConfig.java:191-195 | validity does not depend on host or port, and fails as soon as the password, the database name or the user name is empty |
| EnvironmentConfig.IsConfigurationValid | spring-employee-ms/src/main/java/com/employeems/config/EnvironmentConfig.java:191-195 | the configuration is valid exactly when none of the password, the database name and the user name is empty |
| EnvironmentConfig.DefaultsAreNotValid | spring-employee-ms/src/main/java/com/employeems/config/EnvironmentConfig.java:28-43 | without DB_PASSWORD the configuration is not valid, and without a profile it is in development mode |
| EnvironmentConfig.ToStringHidesSecrets | spring-employee-ms/src/main/java/com/employeems/config/EnvironmentConfig.java:197-210 | the printed form does not change with the database password or the JWT secret, so it reveals neither |
| EnvironmentConfig.ToString | spring-employee-ms/src/main/java/com/employeems/config/EnvironmentConfig.java:197-210 | the printed form is `EnvironmentConfig{`, the listed settings, and `}`, and nothing else |

## Left out

- Rendering: the JSX markup, styling, modals, toasts and the CSV export of the dashboards are not modelled. Only the state changes and derived values behind them are.
- Local storage: the JSON serialisation of each key is left out. The store holds the decoded lists directly.
- Identifiers and clocks: `generateId`, `Date.now()` and `new Date()` are not modelled. Ids and instants are parameters of the operations that use them.
- Time values: timestamps are integer milliseconds, and hire dates are integer instants (Node) or integer days (Spring). ISO-8601 text and the `LocalDate`/`LocalDateTime` types are left out.
- Floating point: money is a mathematical real. IEEE rounding, `NaN` (except for a payment-request amount that fails to parse), `toFixed` and JavaScript number formatting are not modelled. The net-salary text in the monthly-record notification is a parameter.
- Text: lower-casing covers the ASCII letters only, lengths count code points rather than UTF-16 units, and strings compare by code point rather than by the database collation.
- Validator library: `isEmail` of `express-validator` is a parameter, and `normalizeEmail` is the identity. A date field arrives as either text that is not ISO-8601 or the instant it denotes, so the ISO-8601 parser itself is left out.
- Node clock: the request validator compares a hire date with the end of the current day, and the Sequelize model compares it with the current instant. Both instants are parameters, and the model does not relate them.
- NodeController.Table.GetAll: requires that the query passed its validators. The handler never reads the validation result, so a query the validators reject (a page of 0, say) is not covered.
- NodeController.Table.GetAll: the listed rows are a set. The `ORDER BY` of the query and the `LIMIT`/`OFFSET` slice that picks one page are not modelled, but the pagination block is.
- EmployeeRepository: queries returning a `List` or a `Page` are modelled as sets of rows, without their order. `findByEmailAndIsActiveTrue`'s `Optional` is the set of matching rows. The department queries are ordered by department name only, and that order is modelled by `FindAllDepartments`.
- NodeController.Table.Stats: the department counts are a map. The descending order by count that the statistics handler asks for is left out.
- EmployeeService: `getActiveEmployees`, `searchEmployees`, `getEmployeesByDepartment`, `getEmployeeStatistics` and `getAllDepartments` are not modelled as service members. They only pass a Spring `Pageable` or `Sort` through to the repository queries modelled in `EmployeeRepository`, and then map the rows to DTOs.
- EmployeeService.Service.HardDelete: an id that is not present leaves the table unchanged. Some Spring Data versions throw `EmptyResultDataAccessException` there instead, and that exception is not modelled.
- EmployeeService.Service.Save: the entity class is not part of this model, and its id is taken to be database-generated. An entity whose id is stored is merged into that row; one whose id is not stored gets a fresh generated id, as Hibernate's merge does up to version 6.5. Hibernate 6.6 and later refuse such a save with an optimistic-locking error, and that error is not modelled. The unique e-mail column is taken from the schema that `DatabaseInitializationService` creates; its refusal is an `Err` with a fixed text that stands for the driver's message.
- Database failures: column lengths, connection failures and the error list of a `SequelizeValidationError` are not modelled. The 500 path appears only as `NodeController.ErrorResponse` with an `OtherFailure`.
- Payroll.WorkingDaysOf: promises a non-zero divisor, not one of at least 1. The form lets a negative working-day count through, and the calculator divides by it as it is.
- NodeEmployee.Apply: `save` issues no query when no column changed. The model captures this by leaving `updatedAt` unchanged.
- NodeEmployee.Update: like Sequelize's `update`, it validates only the attributes given.
- Validation.Body: holds only the eight employee fields. `Employee.create` and `employee.update` also write any other key the request body carries, such as `id`; a body `id` that collides with a stored row gives the unique-constraint 400 `Email address already exists`, and that path is not modelled.
- NodeController.Table.Create: a create that fails on the unique index still advances the id sequence, as a database sequence does.
- The Express route table, middleware order, security headers and rate limiting are not part of this model.
- EnvironmentConfig.Load: Spring's conversion of the boolean and numeric settings is not modelled. They are passed in already converted. A missing property takes its default, so no setting is ever null.
- EnvironmentConfig.HeadersArray: the text `*,` also yields the single wildcard, as Java's `split` drops trailing empty pieces.
- DemoController.DemoStore.constructor: the initialiser makes five separate calls. The model loops over a table of the five seed rows, with the same ids and contents.
- The timestamp in the demo controller's health response is left out.
- DemoController: body values are text or absent. The `ClassCastException` that `(String) emp.get("department")` in the statistics handler raises for a non-text department is not modelled.
- AdminDashboard: the `approvedEmployees` React state is modelled as the filter of the stored employee list it is loaded from. The model does not track it as separate state.
- Auth: restoring the saved user on start-up is not a separate operation. The signed-in user and its saved copy are one field of the store, so the restore is the identity on it.
- Strings.Like: a pattern that ends in a lone backslash is matched as a literal backslash. PostgreSQL refuses such a pattern and MySQL treats it by its own rule; neither behaviour is modelled.
- EmployeeDashboard: `getCurrentMonthYear` and the current-month match are not modelled, because they depend on the clock. The loading state and the lookup of the signed-in employee's record are React effects, and the model takes that record as given.
- Concurrency: requests and React updates are modelled one at a time, with no interleaving.
