# laravel-react-payroll: a verified model of the decision logic

laravel-react-payroll is a Laravel back end with a React front end that
manages employees, time schedules and payroll. Most of it is CRUD glue. This
project models the parts that decide something or change state step by step,
and proves what they promise:

- **Account lockout** (`accounts.dfy`, `login_guard.dfy`). A `User` row keeps
  `status`, `failed_login_attempts` and `locked_until`.
  - The pre-login gate rejects disabled accounts first, then locked ones, and
    reports the minutes left, rounded up.
  - The failure listener increments the counter and arms a fixed lock window
    at the threshold (5 failures, 15 minutes by default). Below the threshold
    it clears the lock.
  - The success listener resets both fields.
  - Accounts are `class User` objects whose methods update their fields in
    place. The account table is a sequence of them, and time is an integer
    count of seconds.
- **Role gate** (`role_gate.dfy`). The middleware has three outcomes: no user
  (JSON 403 or a redirect to login), a role in the allowed list (admit), and
  every other case (403 role_forbidden).
- **Weekly time schedules** (`time_schedule.dfy`, `schedule_requests.dfy`).
  - The server summarises a schedule into `duty_days` plus the `morning` and
    `afternoon` strings.
  - The React grid has a seven-day default and bulk operations.
  - `scheduleToDays` parses the summary back into seven days.
  - The store and update validators check the days and the unique employee.
  - The main theorem is the round trip: save a week, summarise it, parse it
    back.
- **Employee list** (`employee_list.dfy`, `pagination.dfy`).
  - The status-tab and search filter.
  - The choice between a soft and a permanent delete.
  - The per-row status and actions cells.
  - The deleted-employees pager: page count, slice, and page links with
    ellipses. `paginationRange` is a method with its two loops.
- **Employee payload** (`employee_payload.dfy`).
  - The server's blank-to-null normaliser, `prepareForValidation`, is a method
    with its loop over a request object. The enum and minimum rules are
    modelled too.
  - The client's `FormData` serialiser is a class whose `Append` adds to the
    entry list.
  - The JSON bodies and the HTTP requests of the store, update and delete
    calls are modelled as values.

`common.dfy` holds the shared vocabulary: `Option`, a JSON-like `Value`, ASCII
lower-casing, PHP and JavaScript `trim`, substring search, `split` on one
character, and decimal printing of integers.

## Model

| member | source | states |
|---|---|---|
| Accounts.ClearedLockout | app/Models/User.php:73-79 | The count is 0 and there is no lock time. Email, role and status are unchanged. |
| Accounts.AfterFailedLogin | app/Models/User.php:81-91 | The count is the old count plus one, with no cap. A lock is set exactly when the new count reaches the threshold, and its time is now plus the decay minutes. Otherwise the lock is cleared. Email, role and status are unchanged. |
| Accounts.User.constructor | app/Models/User.php:58-71 | A new user has count 0 and no lock. |
| Accounts.User.ClearLockout | app/Models/User.php:73-79 | The object's new state is `ClearedLockout` of its old state. |
| Accounts.User.RecordFailedLogin | app/Models/User.php:81-91 | The object's new state is `AfterFailedLogin` of its old state, the clock and the config. |
| Accounts.ExpiredLockIsNoLock | app/Models/User.php:63-66 | A lock time at or before now is not a lock. |
| Accounts.ClearLockoutIdempotent | app/Models/User.php:73-79 | Clearing twice equals clearing once, and a cleared account is never locked. |
| Accounts.FailureBelowThresholdUnlocks | app/Models/User.php:89 | A failure that leaves the count below the threshold leaves the account unlocked at every time. |
| Accounts.FailureWhileLockedReArms | app/Models/User.php:89 | A failure at or past the threshold moves the lock to now plus the window, so the account is locked at now. |
| Accounts.FailuresEffect | app/Models/User.php:83-89 | After a run of failures, the count rises by the run's length, and the lock is set from the last failure's time exactly when the count reaches the threshold. |
| Accounts.FiveFailuresLock | tests/Feature/Auth/AuthenticationTest.php:127-140 | From count 0 with the default config, five failures give count 5 and a lock 900 s after the fifth. Four failures leave the account unlocked at every time. |
| LoginGuard.FindUser | app/Actions/Fortify/EnsureAccountCanLogin.php:13 | The result is the first row whose email equals the submitted username. There is no result when the username is missing or no row matches. |
| LoginGuard.LockedMinutes | app/Actions/Fortify/EnsureAccountCanLogin.php:28 | The minutes are at least 1. The remaining seconds lie in (60(m-1), 60m], which is ceil(seconds / 60). |
| LoginGuard.CheckAccount | app/Actions/Fortify/EnsureAccountCanLogin.php:19-33 | Disabled exactly when the account is not active. Locked, with `LockedMinutes`, exactly when it is active and locked. Proceed exactly when it is active and unlocked. |
| LoginGuard.EnsureAccountCanLogin | app/Actions/Fortify/EnsureAccountCanLogin.php:11-34 | No matching account means proceed. Otherwise the decision is `CheckAccount` of the match. The gate is a function, so it changes no state. |
| LoginGuard.DisabledBeforeLocked | app/Actions/Fortify/EnsureAccountCanLogin.php:19-23 | An inactive match is refused as disabled, whatever its lock state. |
| LoginGuard.LockedMinutesExamples | app/Actions/Fortify/EnsureAccountCanLogin.php:28 | 900 s left reports 15 minutes, and 30 s left reports 1. |
| LoginGuard.LockedAfterFifthFailure | tests/Feature/Auth/AuthenticationTest.php:98-108 | An active account with 4 failures is locked within 15 minutes after the fifth, reporting 1 to 15 minutes. |
| LoginGuard.Views | app/Listeners/RecordFailedLoginAttempt.php:20-24 | The account table's values are the users' states, one per row. |
| LoginGuard.SubmittedUsername | app/Listeners/RecordFailedLoginAttempt.php:13-18 | A username is present exactly when the credentials have an email that is not PHP-falsy ("" or "0"). The value is that email. |
| LoginGuard.FailedOnStore | app/Listeners/RecordFailedLoginAttempt.php:11-24 | The table keeps its length. `FailureCountsAgainstMatch`, `FailureWithoutUsernameIgnored` and `FailureForUnknownUserIgnored` state what happens to each row. |
| LoginGuard.RecordFailedLoginAttempt | app/Listeners/RecordFailedLoginAttempt.php:11-24 | The users' new states are `FailedOnStore` of their old states. |
| LoginGuard.FailureWithoutUsernameIgnored | app/Listeners/RecordFailedLoginAttempt.php:13-18 | Without a usable username, nothing changes. |
| LoginGuard.FailureForUnknownUserIgnored | app/Listeners/RecordFailedLoginAttempt.php:20-24 | When no account matches, nothing changes. |
| LoginGuard.FailureCountsAgainstMatch | app/Listeners/RecordFailedLoginAttempt.php:20-24 | The first match becomes `AfterFailedLogin` of itself. Its count goes up by one. It is locked exactly when the count reaches the limit, until now plus the decay minutes. Every other row is untouched. |
| LoginGuard.FailedRun | app/Listeners/RecordFailedLoginAttempt.php:11-24 | Repeated failures keep the table's length. |
| LoginGuard.FindUserByEmails | app/Actions/Fortify/EnsureAccountCanLogin.php:13 | The lookup depends only on the emails, so failures never move the match. |
| LoginGuard.FailedRunEffect | app/Listeners/RecordFailedLoginAttempt.php:20-24 | After a run of failures, the match has had them all applied and every other row is unchanged. |
| LoginGuard.FiveFailedAttemptsLockOut | tests/Feature/Auth/AuthenticationTest.php:127-140 | Five failures through the listener give count 5 and a lock. The gate then refuses the account as locked for 15 minutes. |
| LoginGuard.ClearLoginLockoutOnSuccess | app/Listeners/ClearLoginLockoutOnSuccess.php:12-16 | A `User` login event clears that user's lockout. Any other authenticatable modifies nothing. |
| LoginGuard.SuccessReopensLogin | tests/Feature/Auth/AuthenticationTest.php:110-125 | After a success, an active account has count 0 and passes the gate. |
| RoleGate.AnyRoleMatches | app/Http/Middleware/EnsureUserHasRole.php:22-26 | The loop finds a match exactly when the user's role is in the list. |
| RoleGate.Authorize | app/Http/Middleware/EnsureUserHasRole.php:13-29 | A guest gets JSON 403 or a redirect to login, depending on whether the request expects JSON. A user is admitted exactly when their role is listed, and otherwise gets 403 role_forbidden. |
| RoleGate.EmptyRolesDenyEveryone | app/Http/Middleware/EnsureUserHasRole.php:22-28 | An empty role list forbids every user. |
| RoleGate.OnlyTheRoleSetMatters | app/Http/Middleware/EnsureUserHasRole.php:22-26 | Two lists with the same members give the same outcome, whatever their order or duplicates. |
| RoleGate.ManagerExamples | tests/Feature/Auth/RoleMiddlewareTest.php:5-19 | A manager passes `admin,manager` and is forbidden by `admin`. |
| RoleGate.RoleMatchIsCaseSensitive | app/Models/User.php:68-71 | The role "Admin" does not match "admin". |
| TimeSchedule.DayNamesDistinct | resources/js/pages/time-schedule/components/schedule-daily-grid.tsx:25 | The seven day names are pairwise distinct. |
| TimeSchedule.DutyDays | app/Http/Controllers/TimeScheduleController.php:97 | The result names exactly the days on duty, and is no longer than the schedule. |
| TimeSchedule.DutyDaysAppend | app/Http/Controllers/TimeScheduleController.php:97 | The duty days of a concatenation are the concatenation of the duty days, so stored order is kept. |
| TimeSchedule.FirstDuty | app/Http/Controllers/TimeScheduleController.php:98 | The result is the index of the first day on duty, or none when no day is on duty. |
| TimeSchedule.Summarize | app/Http/Controllers/TimeScheduleController.php:94-110 | The name is the trimmed first and last name. The duty days are `DutyDays`. The morning and afternoon strings come from the first duty day, or are the defaults when there is none. |
| TimeSchedule.IndexSchedules | app/Http/Controllers/TimeScheduleController.php:34-49 | The index mapping gives `Summarize` of each row, in order. |
| TimeSchedule.EmptyScheduleSummary | app/Http/Controllers/TimeScheduleController.php:96-100 | A missing or empty schedule gives no duty days and "08:00 - 12:00" / "13:00 - 17:00". |
| TimeSchedule.NameIsTrimmed | app/Http/Controllers/TimeScheduleController.php:105 | With an empty last name, the shown name is the first name, for any first name that does not start or end with white space. |
| TimeSchedule.DefaultDaySchedules | resources/js/pages/time-schedule/components/schedule-daily-grid.tsx:27-38 | Seven entries Mon..Sun, on duty exactly Mon to Fri, all with 08:00/12:00/13:00/17:00. |
| TimeSchedule.UpdateDay | resources/js/pages/time-schedule/components/schedule-daily-grid.tsx:46-50 | The length is kept and only entry i changes. Each of its six fields takes the update's value when given, and keeps its old value otherwise. |
| TimeSchedule.NoUpdateChangesNothing | resources/js/pages/time-schedule/components/schedule-daily-grid.tsx:46-50 | An update with no fields leaves the grid unchanged. |
| TimeSchedule.UpdateDayIdempotent | resources/js/pages/time-schedule/components/schedule-daily-grid.tsx:46-50 | Applying the same update twice equals applying it once. |
| TimeSchedule.UpdateDayKeepsWeek | resources/js/pages/time-schedule/components/schedule-daily-grid.tsx:46-50 | Updating one day of a well-formed week, with valid H:i times and without renaming the day, gives a well-formed week. |
| TimeSchedule.ApplyMonFri | resources/js/pages/time-schedule/components/schedule-daily-grid.tsx:52-63 | The length and names are kept. Duty is on exactly for indices 0 to 4, and every time is reset to its default. |
| TimeSchedule.SelectAll | resources/js/pages/time-schedule/components/schedule-daily-grid.tsx:65-76 | Every day is on duty with the default times, and the names are kept. |
| TimeSchedule.ClearAll | resources/js/pages/time-schedule/components/schedule-daily-grid.tsx:78-89 | Every day is off duty with the default times, and the names are kept. |
| TimeSchedule.BulkDependsOnNamesOnly | resources/js/pages/time-schedule/components/schedule-daily-grid.tsx:52-89 | The bulk operations look only at the day names. |
| TimeSchedule.BulkOperationsAbsorb | resources/js/pages/time-schedule/components/schedule-daily-grid.tsx:52-89 | Each bulk operation is idempotent, and applying one after any other equals applying it alone. |
| TimeSchedule.MonFriOfDefault | resources/js/pages/time-schedule/components/schedule-daily-grid.tsx:34-63 | Mon-Fri applied to the default schedule returns the default. |
| TimeSchedule.DefaultIsWeek | resources/js/pages/time-schedule/components/schedule-daily-grid.tsx:27-38 | The default is a well-formed week: Mon..Sun, with valid H:i times. |
| TimeSchedule.ParseRange | resources/js/pages/time-schedule/components/edit-time-schedule.tsx:31-36 | A string without '-' gives the fallback pair. The case with a '-' is stated by `ParseRangeSplitsAtDash`. |
| TimeSchedule.ParseRangeSplitsAtDash | resources/js/pages/time-schedule/components/edit-time-schedule.tsx:31-36 | A string with a '-' is `a-b` plus a rest that is empty or starts with '-', where a and b hold no '-'. The result is (trim a, trim b). |
| TimeSchedule.DashPiecesUnique | resources/js/pages/time-schedule/components/edit-time-schedule.tsx:32 | Those pieces a and b are unique, so the parse is determined. |
| TimeSchedule.ScheduleToDays | resources/js/pages/time-schedule/components/edit-time-schedule.tsx:28-46 | Seven entries Mon..Sun. Duty is on exactly for days listed in `duty_days`. Every entry's morning and afternoon times are the parsed ranges of the summary's strings, with the default times as fallback. |
| TimeSchedule.HourMinuteShape | resources/js/pages/time-schedule/components/edit-time-schedule.tsx:31-36 | An H:i time has no '-' and no white space at either end. |
| TimeSchedule.TrimAroundDash | resources/js/pages/time-schedule/components/edit-time-schedule.tsx:32 | Trimming "from " and " to" gives the H:i times back. |
| TimeSchedule.ParseTimeRange | resources/js/pages/time-schedule/components/edit-time-schedule.tsx:31-36 | Parsing "from - to", for H:i times, returns (from, to). |
| TimeSchedule.DutyDaysOfWeek | resources/js/pages/time-schedule/components/edit-time-schedule.tsx:30 | For a Mon..Sun week, a day name is in the summary's duty days exactly when that day is on duty. |
| TimeSchedule.SummaryTimesOfWeek | app/Http/Controllers/TimeScheduleController.php:98-100 | For a week sharing one set of times, parsing the summary's strings gives those times back. |
| TimeSchedule.RebuiltWeek | resources/js/pages/time-schedule/components/edit-time-schedule.tsx:38-45 | Rebuilding Mon..Sun from the duty set and day 0's times gives the week back. |
| TimeSchedule.SummaryRoundTrip | resources/js/pages/time-schedule/components/edit-time-schedule.tsx:28-46 | Take a Mon..Sun week with valid times where every day carries one set of times (the defaults when no day is on duty). `scheduleToDays` of its server summary is the week. |
| TimeSchedule.SubmitFormData | resources/js/pages/time-schedule/components/edit-time-schedule.tsx:66-78 | Nothing is submitted without a handler, during a submit, or without a selected employee. Otherwise the employee and days are sent unchanged. |
| ScheduleRequests.BooleanValue | app/Http/Requests/StoreTimeScheduleRequest.php:34 | A boolean-like value reads as true exactly for true, 1 and "1". |
| ScheduleRequests.StoreAcceptedIsUpdateAccepted | app/Http/Requests/UpdateTimeScheduleRequest.php:23-43 | Input the store validator accepts is accepted by the update validator for any current schedule. |
| ScheduleRequests.UpdateUniqueness | app/Http/Requests/UpdateTimeScheduleRequest.php:28-33 | Update accepts the employee of the schedule being updated, accepts an employee with no other schedule, and refuses one who owns another schedule. |
| ScheduleRequests.DecodeDay | app/Http/Requests/StoreTimeScheduleRequest.php:33-38 | A valid entry decodes to a day named Mon..Sun with four H:i times. |
| ScheduleRequests.DecodeDays | app/Http/Requests/StoreTimeScheduleRequest.php:32-38 | Decoding succeeds exactly when `days` passes the rules, and then gives seven valid days. |
| ScheduleRequests.NotBlank | app/Http/Requests/StoreTimeScheduleRequest.php:35-38 | A string without white space at its ends is not blank to `required`. |
| ScheduleRequests.TimeValueAccepted | app/Http/Requests/StoreTimeScheduleRequest.php:35-38 | A string time passes `required` and `date_format:H:i` exactly when it is H:i. |
| ScheduleRequests.DayValueAccepted | app/Http/Requests/StoreTimeScheduleRequest.php:33 | A day name passes `required` and `in:Mon..Sun` exactly when it is one of the seven. |
| ScheduleRequests.EncodeDayFields | resources/js/pages/time-schedule/components/edit-time-schedule.tsx:71-74 | A day sent as JSON carries its six fields. |
| ScheduleRequests.EncodeDayAccepted | app/Http/Requests/StoreTimeScheduleRequest.php:33-38 | An encoded day passes exactly when its name is Mon..Sun and its times are H:i, and then it decodes to itself. |
| ScheduleRequests.EncodeDaysAccepted | app/Http/Requests/StoreTimeScheduleRequest.php:32-38 | An encoded list passes exactly when it has seven valid days, and then it decodes to itself. |
| ScheduleRequests.WeekIsAccepted | app/Http/Requests/StoreTimeScheduleRequest.php:32-38 | A Mon..Sun week with valid times passes the rules. |
| ScheduleRequests.DefaultGridIsStored | app/Http/Requests/StoreTimeScheduleRequest.php:23-40 | The default grid, submitted for an unscheduled employee, is accepted and stored unchanged. |
| ScheduleRequests.SavedWeekReopens | app/Http/Controllers/TimeScheduleController.php:56-59 | A week stored through the validator, then summarised and parsed by the edit form, comes back unchanged. |
| EmployeeList.FilterEmployees | resources/js/pages/employees/index.tsx:56-73 | A row is kept exactly when it passes both the status test and the search test. |
| EmployeeList.FilterIsSubsequence | resources/js/pages/employees/index.tsx:62-72 | The result is an order-preserving subsequence of the input. |
| EmployeeList.FilterKeepsCount | resources/js/pages/employees/index.tsx:56-73 | A row that passes both tests appears in the result as often as in the input. |
| EmployeeList.FilterCounts | resources/js/pages/employees/index.tsx:56-73 | Each row occurs in the result as often as in the input when it passes both tests, and not at all otherwise. |
| EmployeeList.FilterKeepsAllMatches | resources/js/pages/employees/index.tsx:71 | When every row passes, the filter returns the input unchanged. |
| EmployeeList.BlankSearchMatchesAll | resources/js/pages/employees/index.tsx:61-66 | A white-space-only search gives an empty query. The All tab then shows every row, and a status tab exactly its status. |
| EmployeeList.SearchIgnoresQueryCase | resources/js/pages/employees/index.tsx:61 | Lower-casing the search first changes nothing. |
| EmployeeList.FilterIdempotent | resources/js/pages/employees/index.tsx:56-73 | Filtering twice equals filtering once. |
| EmployeeList.OnDelete | resources/js/pages/employees/index.tsx:127-133 | The pending delete is forced exactly when the tab is Deleted. |
| EmployeeList.ConfirmDelete | resources/js/pages/employees/index.tsx:268-307 | A call is made exactly when there is a pending delete. It is a force delete exactly when the pending one is forced, for that row's id. |
| EmployeeList.DeleteIsPermanentOnlyOnDeletedTab | resources/js/pages/employees/index.tsx:273-283 | A delete is permanent exactly when it was asked for on the Deleted tab. |
| EmployeeList.StatusCellFor | resources/js/pages/employees/data-table/columns.tsx:79-109 | A badge exactly on the Deleted tab, or on the All tab for a deleted row. Otherwise a dropdown with one option: inactive when the tab is Active or the row is active under All, and active in every other case. |
| EmployeeList.DropdownOffersAChange | resources/js/pages/employees/data-table/columns.tsx:100-106 | On every row the current tab shows, the dropdown never offers the row's own status. |
| EmployeeList.StatusDropdownOffersAChange | resources/js/pages/employees/data-table/columns.tsx:100-106 | For a row that passes the tab's status test, the dropdown never offers the row's own status. |
| EmployeeList.ActionsCellFor | resources/js/pages/employees/data-table/columns.tsx:114-134 | Restore is shown and wired exactly under the deleted-badge condition. |
| EmployeeList.RestoreClickAsWritten | resources/js/pages/employees/index.tsx:134-197 | As written, a click updates the row to active only when Restore is wired and the page passed a handler, which it does only on the Deleted tab. |
| EmployeeList.RestoreOnAllTabIsInert | resources/js/pages/employees/data-table/columns.tsx:121-132 | As written, a deleted row under All shows Restore, and clicking it does nothing. |
| EmployeeList.RestoreClick | resources/js/pages/employees/data-table/columns.tsx:121-132 | As intended, every shown Restore updates its row to active. |
| EmployeeList.RestoreClickAgrees | resources/js/pages/employees/index.tsx:134-197 | The intended click equals the written one on the Deleted tab, acts on All, and is inert where Restore is hidden. |
| EmployeeList.StatusText | resources/js/pages/employees/index.tsx:218 | Every status is sent as one of the strings the server's `in:` rule allows. |
| EmployeeList.StatusTextInjective | resources/js/pages/employees/index.tsx:218 | Different statuses are sent as different strings. |
| EmployeeList.StatusChangeKeepsFields | resources/js/pages/employees/index.tsx:198-227 | Apart from `status`, the body of a status change holds each field of the row's record with the row's own value. |
| EmployeeList.StatusChange | resources/js/pages/employees/index.tsx:198-227 | A dropdown choice sends PUT /employees/{row id} with a JSON body of exactly the field keys. `status` is the chosen status, and every other field is the row's own value. |
| Pagination.TotalPages | resources/js/pages/employees/components/deleted.tsx:66 | At least one page. For n > 0, (t-1)·perPage < n <= t·perPage, which is the ceiling. For n = 0 there is 1 page. |
| Pagination.TotalPagesExamples | resources/js/pages/employees/components/deleted.tsx:24-66 | 12 items at 5 per page make 3 pages, 10 make 2, and 0 make 1. |
| Pagination.JsSlice | resources/js/pages/employees/components/deleted.tsx:70 | `slice` never returns more than its input. |
| Pagination.PageItemsWindow | resources/js/pages/employees/components/deleted.tsx:68-71 | Page p from 1 holds the items from (p-1)·perPage on, in order, and at most perPage of them. A page past the end is empty. |
| Pagination.PagesUpToPrefix | resources/js/pages/employees/components/deleted.tsx:68-71 | Pages 1..k hold exactly the first k·perPage items. |
| Pagination.AllPagesShowEverything | resources/js/pages/employees/components/deleted.tsx:66-71 | Pages 1..totalPages show every item once, in order. |
| Pagination.ListedUpTo | resources/js/pages/employees/components/deleted.tsx:78-86 | The collected pages are strictly increasing, within [1, k], and exactly the listed ones. |
| Pagination.WithDotsPages | resources/js/pages/employees/components/deleted.tsx:87-93 | Dropping the ellipses gives the page list back. |
| Pagination.WithDotsEnds | resources/js/pages/employees/components/deleted.tsx:87-93 | The links start and end with a page, never with an ellipsis. |
| Pagination.WithDotsGaps | resources/js/pages/employees/components/deleted.tsx:87-93 | Each ellipsis sits between two pages that differ by more than 1. Two adjacent pages always differ by exactly 1. |
| Pagination.CollectListedPages | resources/js/pages/employees/components/deleted.tsx:78-86 | The first loop collects exactly `ListedPages`. |
| Pagination.InsertEllipses | resources/js/pages/employees/components/deleted.tsx:87-93 | The second loop produces exactly `WithDots` of its input. |
| Pagination.PaginationRange | resources/js/pages/employees/components/deleted.tsx:73-95 | The links are the listed pages with ellipses. Their pages are the listed pages, and they are well dotted. |
| Pagination.ListedPagesContents | resources/js/pages/employees/components/deleted.tsx:79-84 | The list holds 1, totalPages and every in-range page within current ± 1, and no other page. It is strictly increasing and within [1, totalPages]. |
| Pagination.ListedPagesExample | resources/js/pages/employees/components/deleted.tsx:78-86 | On page 1 of 4, the listed pages are 1, 2, 4. |
| Pagination.PaginationExample | resources/js/pages/employees/components/deleted.tsx:73-95 | On page 1 of 4, the links are 1, 2, …, 4. |
| Pagination.ClampPage | resources/js/pages/employees/components/deleted.tsx:98 | The result lies in [1, total]. It is the page itself when in range, 1 below the range, and total above it. |
| Pagination.ClampIdempotent | resources/js/pages/employees/components/deleted.tsx:98 | Clamping twice equals clamping once. |
| Pagination.HandlePageChange | resources/js/pages/employees/components/deleted.tsx:97-99 | Any request lands in [1, totalPages], and an in-range request is kept. |
| Pagination.PrevNextStayInRange | resources/js/pages/employees/components/deleted.tsx:97-99 | Previous from page 1 stays on 1, and next from the last page stays on the last page. |
| EmployeePayload.CollectBlankOptional | app/Http/Requests/StoreEmployeeRequest.php:23-27 | The merge holds exactly the listed optional keys that are present with "", each mapped to null. |
| EmployeePayload.EmployeeFormRequest.constructor | app/Http/Requests/StoreEmployeeRequest.php:14 | The request holds the given input. |
| EmployeePayload.EmployeeFormRequest.PrepareForValidation | app/Http/Requests/StoreEmployeeRequest.php:14-31 | The input becomes `Normalized` of the old input. |
| EmployeePayload.NormalizedEffect | app/Http/Requests/StoreEmployeeRequest.php:17-30 | The keys stay the same. Blank optional values become null and every other value is unchanged. The required keys and status are never rewritten. |
| EmployeePayload.NormalizedIdempotent | app/Http/Requests/StoreEmployeeRequest.php:14-31 | Normalising twice equals normalising once. |
| EmployeePayload.DecimalSalaryAccepted | app/Http/Requests/StoreEmployeeRequest.php:52 | A decimal numeral is numeric, with its own value. |
| EmployeePayload.NegativeSalaryRefused | app/Http/Requests/StoreEmployeeRequest.php:52 | "-n" for n > 0 is numeric but fails `min:0`. |
| EmployeePayload.FractionalSalaryAccepted | app/Http/Requests/StoreEmployeeRequest.php:52 | "w.f" is numeric and at least w. |
| EmployeePayload.FormData.constructor | resources/js/lib/api/employees.ts:90 | A new FormData is empty. |
| EmployeePayload.FormData.Append | resources/js/lib/api/employees.ts:38 | `append` adds one entry at the end. |
| EmployeePayload.TextIfNonEmpty | resources/js/lib/api/employees.ts:42-47 | A text field is sent exactly when it is non-null and non-empty, and then unchanged. Truthiness is the same test for strings. |
| EmployeePayload.IdText | resources/js/lib/api/employees.ts:55-58 | An id is sent exactly when it is non-null, 0 included, as its decimal string. |
| EmployeePayload.SalaryFormText | resources/js/lib/api/employees.ts:60-61 | The salary is sent exactly when it is non-null and not "". A string is sent as it is, and a number as its decimal digits. |
| EmployeePayload.FormText | resources/js/lib/api/employees.ts:42-79 | An optional field that is sent is never empty. |
| EmployeePayload.OptionalFormFields | resources/js/lib/api/employees.ts:42-79 | One candidate per optional key, in the source's order. |
| EmployeePayload.PresentEntries | resources/js/lib/api/employees.ts:42-79 | Never more entries than candidates. |
| EmployeePayload.PresentEntriesSound | resources/js/lib/api/employees.ts:42-79 | Every entry is a present candidate, under its own key. |
| EmployeePayload.PresentEntriesComplete | resources/js/lib/api/employees.ts:42-79 | Every present candidate is appended. |
| EmployeePayload.AppendIfPresent | resources/js/lib/api/employees.ts:42-43 | One guarded `append`: one entry when present, none otherwise. |
| EmployeePayload.AppendRequired | resources/js/lib/api/employees.ts:38-41 | The four fixed `append`s. |
| EmployeePayload.AppendPresent | resources/js/lib/api/employees.ts:42-79 | The guarded `append`s add exactly the present entries, in order. |
| EmployeePayload.AppendPayloadToFormData | resources/js/lib/api/employees.ts:33-83 | The buffer gains exactly `PayloadEntries`. |
| EmployeePayload.RequiredEntriesFirst | resources/js/lib/api/employees.ts:38-41 | The first four entries are employee_id, first_name, last_name and status, with status defaulting to "active". |
| EmployeePayload.OptionalEntriesAreNonEmpty | resources/js/lib/api/employees.ts:42-79 | No optional entry is an empty string. |
| EmployeePayload.OptionalKeysDistinct | app/Http/Requests/StoreEmployeeRequest.php:17-22 | The optional keys are pairwise distinct. |
| EmployeePayload.OptionalEntryPresence | resources/js/lib/api/employees.ts:42-79 | Key i is in the form data exactly when its field is sent, and then with that value. |
| EmployeePayload.OptionalFieldExamples | resources/js/lib/api/employees.ts:44-61 | email is sent exactly when it is non-empty. position_id 0 is sent as "0", and salary 0 as "0". Salary "" is not sent. |
| EmployeePayload.PhotoOnlyWhenAFile | resources/js/lib/api/employees.ts:80-82 | A file entry is present exactly when includePhoto is set and the photo is a File. It is then named "photo". |
| EmployeePayload.TextOrNull | resources/js/lib/api/employees.ts:100-119 | `?? null` gives null exactly for a missing value, and otherwise the string. |
| EmployeePayload.IdOrNull | resources/js/lib/api/employees.ts:107-108 | `?? null` gives null exactly for a missing id, and otherwise the number. |
| EmployeePayload.SalaryOrNull | resources/js/lib/api/employees.ts:110 | `?? null` gives null exactly for a missing salary. A present salary is sent as it is: a string as that string, a number as that number. |
| EmployeePayload.BodyKeysDistinct | resources/js/lib/api/employees.ts:95-120 | The 24 body keys are pairwise distinct. |
| EmployeePayload.JsonEntries | resources/js/lib/api/employees.ts:95-120 | One entry per body key, in the literal's order. |
| EmployeePayload.MapOfKeys | resources/js/lib/api/employees.ts:95-120 | The object has exactly the keys of its entries. |
| EmployeePayload.MapOfLookup | resources/js/lib/api/employees.ts:95-120 | A key's value is that of its last entry. |
| EmployeePayload.JsonBodyKeys | resources/js/lib/api/employees.ts:95-120 | The body holds exactly the 24 field keys, each always present. |
| EmployeePayload.JsonBodyOmitsIdAndPhoto | resources/js/lib/api/employees.ts:128-161 | The body has no `id`, which is split off into the URL, and no `photo`. |
| EmployeePayload.JsonBodyStatus | resources/js/lib/api/employees.ts:99 | status is the payload's status, or "active" when missing. |
| EmployeePayload.JsonOptionalField | resources/js/lib/api/employees.ts:100-119 | Each optional key is present, with its value or null. |
| EmployeePayload.NormalizedJsonField | app/Http/Requests/StoreEmployeeRequest.php:23-30 | After the server's normaliser, each optional field of the body is its value, or null when it was missing or "". |
| EmployeePayload.JsonEnumPasses | app/Http/Requests/StoreEmployeeRequest.php:46-47 | A field that is null, "" or an allowed value passes its `in:` rule after normalising. |
| EmployeePayload.JsonSalaryPasses | app/Http/Requests/StoreEmployeeRequest.php:52 | A missing or non-negative numeric salary passes `numeric|min:0`. |
| EmployeePayload.JsonStatusPasses | app/Http/Requests/StoreEmployeeRequest.php:54 | A missing or allowed status passes, since the client defaults it to "active". |
| EmployeePayload.JsonBodyPassesRules | app/Http/Requests/StoreEmployeeRequest.php:36-64 | A client body with allowed enum values and a non-negative salary passes every enum and minimum rule. |
| EmployeePayload.PayloadBody | resources/js/lib/api/employees.ts:88-120 | Multipart exactly when the photo is a File, and JSON otherwise. |
| EmployeePayload.StoreRequest | resources/js/lib/api/employees.ts:85-123 | POST /employees. Multipart with `PayloadEntries` and the photo when there is a File, and `JsonBody` otherwise. |
| EmployeePayload.UpdateRequest | resources/js/lib/api/employees.ts:125-164 | PUT /employees/{id}, with the same body as a store. |
| EmployeePayload.BuildBody | resources/js/lib/api/employees.ts:88-120 | Builds a fresh FormData or the JSON object, and equals `PayloadBody`. |
| EmployeePayload.StoreEmployee | resources/js/lib/api/employees.ts:85-123 | The request sent equals `StoreRequest`. |
| EmployeePayload.UpdateEmployee | resources/js/lib/api/employees.ts:125-164 | The request sent equals `UpdateRequest`. |
| EmployeePayload.UpdateUrlsDistinct | resources/js/lib/api/employees.ts:133 | Different ids are updated at different URLs. |
| EmployeePayload.DeleteUrlsDiffer | resources/js/lib/api/employees.ts:166-174 | A soft delete and a force delete never target the same URL. |
| Common.ToLower | resources/js/pages/employees/index.tsx:61 | Same length, with each character lower-cased. ASCII only. |
| Common.TrimStart | resources/js/pages/time-schedule/components/edit-time-schedule.tsx:32 | The result is a suffix that starts with a non-space, and only spaces were dropped. |
| Common.TrimEnd | resources/js/pages/time-schedule/components/edit-time-schedule.tsx:32 | The result is a prefix that ends with a non-space, and only spaces were dropped. |
| Common.TrimPadded | app/Http/Controllers/TimeScheduleController.php:105 | Trimming white space around a core that does not itself start or end with space gives the core. |
| Common.TrimAllSpace | resources/js/pages/employees/index.tsx:61 | A string of white space trims to "". |
| Common.Split | resources/js/pages/time-schedule/components/edit-time-schedule.tsx:32 | At least one piece, and no piece holds the separator. A string without the separator is one piece, and a string with it gives at least two. |
| Common.SplitJoin | resources/js/pages/time-schedule/components/edit-time-schedule.tsx:32 | Joining the pieces with the separator gives the string back. |
| Common.JoinFirstTwo | resources/js/pages/time-schedule/components/edit-time-schedule.tsx:32 | A join of two or more pieces is the first piece, the separator, the second piece, then a rest that is empty or starts with the separator. |
| Common.SplitFirstTwo | resources/js/pages/time-schedule/components/edit-time-schedule.tsx:32 | A string holding the separator is its first piece, the separator, its second piece, then a rest that is empty or starts with the separator. |
| Common.SplitTwo | resources/js/pages/time-schedule/components/edit-time-schedule.tsx:32 | "a-b", where neither part holds '-', splits into [a, b]. |
| Common.NatToDecimal | resources/js/lib/api/employees.ts:56 | A non-empty string of digits, with no leading zero except for 0 itself. |
| Common.NatToDecimalRoundTrip | resources/js/lib/api/employees.ts:56 | Reading the digits back gives the number. |
| Common.IntToDecimalInjective | resources/js/lib/api/employees.ts:133 | Different integers print differently. |

## Left out

- The database and the ORM. Accounts are a sequence of `User` objects, looked up by exact email equality. A case-insensitive collation is not modelled.
- Persistence in `store` and `update` of the time-schedule controller. It is modelled as the decoded days being the stored `schedule_data` (`ScheduleRequests.SavedWeekReopens`).
- LoginGuard.LockedMinutes: it is stated only for a lock time after now, the only case in which the gate computes it. The sign of Carbon's `diffInSeconds`, which differs between major versions, is not modelled.
- Accounts.AfterFailedLogin: the counter is an unbounded integer, so database column overflow is not modelled.
- The read-modify-write race between concurrent failed logins on one account is not modelled, because it is concurrency.
- Fortify's per-IP rate limiter and the login pipeline are not modelled. The session, redirects and translation strings are reduced to typed decisions and outcomes.
- Laravel's ConvertEmptyStringsToNull and TrimStrings middleware are not modelled. Input reaches the rules as sent.
- Common.ToLower: lower-cases ASCII letters only. Unicode case mapping is not modelled.
- Time-schedule validation: `days` is modelled as a JSON list only. The `integer` rule on `employee_id` accepts numbers only, not numeric strings. `exists:employees,id` is a set of employee ids.
- EmployeePayload.IsNumericString: PHP `is_numeric` is modelled as an optional sign, digits and at most one '.', with at least one digit. Exponents and leading or trailing white space are not modelled.
- EmployeePayload.SalaryFormText: a salary number is an integer. `String()` of a non-integral JavaScript number is not modelled.
- The date, email, max-length, `exists` and `unique:employees,employee_id` rules and the image rule of the employee request are not modelled. Only the enum and minimum rules are.
- Pagination.TotalPages, Pagination.HandlePageChange: they require a page size above 0. The component's default is 5, and a size of 0 would give JavaScript `Infinity`.
- EmployeeList.StatusChange: the row's full record is taken as a parameter. The cast of the table row to the edit form's data and the page reload after success are not modelled.
- The axios calls are modelled as request values. The responses, errors and toasts are not modelled.
- A `File` is reduced to its name.
- React rendering, dialogs, `useState`/`useEffect` wiring, timers and loading overlays are not part of this model.
- DashboardController, random id generation, salary and date formatting, and the thin CRUD controllers are not part of this model. Neither are migrations, factories, seeders, or the payroll and attendance pages.

## Findings

| source | as written | input that shows it | evidently intended | confidence | as-written member | corrected member |
|---|---|---|---|---|---|---|
| resources/js/pages/employees/index.tsx:134-197 | The columns show Restore for a deleted row under the All tab (columns.tsx 121-132), but the page passes the restore handler only on the Deleted tab | The All tab with a row whose status is deleted: Restore is shown, and clicking it calls no handler | Every Restore that is shown reactivates its row | not executed | EmployeeList.RestoreOnAllTabIsInert | EmployeeList.RestoreClick |
