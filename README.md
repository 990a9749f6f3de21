# Payroll front-end rules, modelled in Dafny

This project models the rule logic in the six screens of the payroll administration
front-end. These are the Angular components for payroll, the dashboard, the comparative
dashboard, roles, users and employees. The model covers what each screen decides on its
own once the HTTP replies, the clock and the user's clicks are given to it as inputs:

- **Payroll** (`payroll.dfy`):
  - the year range of the period filter;
  - the past-period rule;
  - grouping of a year's records into twelve month buckets with their net totals;
  - the bulk creation form: which employees already have a record, which rows are
    submitted, and how created and failed calls are tallied and reported;
  - the single form: validation, update or create, and the duplicate check before a create;
  - the filter that keeps administrators out of the employee list.
- **Comparative dashboard** (`comparative.dfy`):
  - the percentage change with its zero-baseline convention, applied field by field;
  - the previous-year comparison period;
  - per-employee differences;
  - the merged, duplicate-free list of employee numbers.
- **Dashboard** (`dashboard.dfy`):
  - zero defaults for missing totals;
  - the hours progress bar;
  - the guarded expense split.
- **Available years**, shared by both dashboards (`years.dfy`): the server's list,
  always including the current year, with the latest year selected.
- **Roles, users, employees** (`roles.dfy`, `users.dfy`, `employees.dfy`):
  - the form validators;
  - the form resets and the edit copies;
  - the write call each save issues and how its reply ends;
  - the password rules;
  - role names;
  - the sortable tables.

Shared modules:

- `text.dfy`: JavaScript's `trim`, `toLowerCase`, string order and number printing.
- `api.dfy`: the records the services declare, and the shapes of a server reply.
- `table_sort.dfy`: the `sortBy` toggle, the comparator and the stable sort that
  `Array.prototype.sort` performs with it.
- `calendar.dfy`: the month names and `indexOf` over them.

Each component is a class with the component's fields. Its methods take the reply of
the server call they issue as a parameter, say which request they make, and state the
whole new state of the fields they touch. Every list the component keeps is a `seq`
field that the methods reassign. The pure rules are functions, and lemmas prove the
properties the screens rely on. Examples:

- grouping keeps every valid record in its month's bucket, in input order;
- the twelve totals add up to the net salary of all records with a valid month;
- the bulk tally never counts more calls than were made;
- each sorted table is a permutation of the old one, ordered by the column;
- the merged employee numbers list the current period first, each number once.

Inputs the model takes as parameters:

- the clock: `currentYear` and `currentMonthIndex`;
- server replies: `Response<T>` gives success and data, or the error callback. The two
  screens that test whether a successful reply carries data (`loadRoles` of the roles
  screen and `loadEmployees` of the payroll screen) take `Response<Option<…>>`;
- the reply to a write call: `CallOutcome` gives `success`, or the error callback with
  the server's message.

Numbers:

- Identifiers, years, deliveries and counters are `int`. An identifier of 0 stands for
  "absent": where the screens test whether an identifier is present, they test its
  truthiness, so 0 and a missing identifier behave alike.
- A field the services mark optional and a form can leave out is an `Option`: a
  user's `password`, `attempts` and `isBlock`, and an employee's `password`. The
  empty user form has no counter and no flag, so a new user is sent without them.
- Money and percentages are exact `real`s.

In the available-years step of both dashboards the code sorts the list only when the
current year had to be added (dashboard.component.ts:55-58,
dashboard-comparativo.component.ts:68-71). A server list that already holds the
current year keeps the server's order (`Years.WithCurrentYear`).

One consequence of the code is proved in `Payroll.PayrollComponent.SaveBulkPayroll`,
under the assumption that every create call of the bulk form settles before the one
with the last index (see "## Left out"). Then, when any call fails, the error message
is what stays on screen. The success text written just before it is cleared, because
`showError` empties `successMessage`. Without that assumption it need not hold: if
the last call's reply arrives first and succeeds, the success text is shown, and a
later failure of another call reports nothing.

## Model

| member | source | states |
|---|---|---|
| Payroll.YearsAround | payroll_system_ft/src/app/components/payroll/payroll.component.ts:52-56 | the period filter offers four consecutive years, from two years back to one ahead, the current year among them |
| Payroll.PayrollComponent.constructor | payroll_system_ft/src/app/components/payroll/payroll.component.ts:17-57 | the field initialisers; the constructor's loop leaves exactly `YearsAround(currentYear)` in `years` |
| Payroll.PayrollComponent.SelectCurrentMonth | payroll_system_ft/src/app/components/payroll/payroll.component.ts:60 | the filter starts on the current month's name, whose index in the month list is the clock's month |
| Payroll.IsPastPeriod | payroll_system_ft/src/app/components/payroll/payroll.component.ts:158-174 | an earlier year is past and a later one is not; in the current year, a month is past iff it comes before the current month; an unknown month (index -1) counts as past |
| Payroll.PastMonthsOfCurrentYear | payroll_system_ft/src/app/components/payroll/payroll.component.ts:167-171 | in the current year, the k-th month is past iff k is less than the current month's index |
| Calendar.MonthsDistinct | payroll_system_ft/src/app/components/payroll/payroll.component.ts:32-35 | the twelve month names are pairwise different |
| Calendar.IndexFrom | payroll_system_ft/src/app/components/payroll/payroll.component.ts:168-169 | the first position at or after k holding the month, or -1 iff there is none |
| Calendar.MonthIndex | payroll_system_ft/src/app/components/payroll/payroll.component.ts:168-169 | `months.indexOf(month)`: a position holding the month, or -1 iff the name is not a month |
| Calendar.MonthIndexOfMonth | payroll_system_ft/src/app/components/payroll/payroll.component.ts:161-169 | the k-th month name is found at position k |
| Payroll.RecordsOf | payroll_system_ft/src/app/components/payroll/payroll.component.ts:142-144 | a month's bucket holds exactly the records of that month |
| Payroll.RecordsOfAppend | payroll_system_ft/src/app/components/payroll/payroll.component.ts:142-144 | bucketing keeps input order: the bucket of a concatenation is the concatenation of the buckets |
| Payroll.GroupedByMonth | payroll_system_ft/src/app/components/payroll/payroll.component.ts:128-156 | twelve buckets in Enero…Diciembre order; a record is in bucket i iff it is in the input and its month is the i-th name, so records of an unknown month are dropped |
| Payroll.GroupedEmpty | payroll_system_ft/src/app/components/payroll/payroll.component.ts:132-138 | with no records, the twelve buckets are all still present, each empty with total 0 |
| Payroll.BucketStep | payroll_system_ft/src/app/components/payroll/payroll.component.ts:143-149 | one more record is pushed onto its own month's bucket and adds its net salary (0 when missing) to that bucket only |
| Payroll.WithKnownMonth | payroll_system_ft/src/app/components/payroll/payroll.component.ts:143 | the records whose month is one of the twelve names |
| Payroll.GroupedTotal | payroll_system_ft/src/app/components/payroll/payroll.component.ts:146-149 | the twelve `totalNet` values add up to the net salary of every record with a valid month, a missing salary counting 0 |
| Payroll.PayrollComponent.GroupPayrollsByMonth | payroll_system_ft/src/app/components/payroll/payroll.component.ts:128-156 | the dictionary-filling loops leave exactly `GroupedByMonth(ps)` in `payrollsByMonth` |
| Payroll.PayrollComponent.LoadAllMonths | payroll_system_ft/src/app/components/payroll/payroll.component.ts:100-126 | asks for the selected year; a successful reply is grouped, anything else leaves twelve empty buckets; loading stops |
| Payroll.PayrollComponent.LoadPayrolls | payroll_system_ft/src/app/components/payroll/payroll.component.ts:84-98 | asks for the selected period; a success replaces the records, an error shows its message and keeps them; loading stops |
| Payroll.WithoutAdmins | payroll_system_ft/src/app/components/payroll/payroll.component.ts:72-76 | an employee is kept iff it is in the reply and its role is not the administrators' (1) |
| Payroll.WithoutAdminsAppend | payroll_system_ft/src/app/components/payroll/payroll.component.ts:72-76 | the filter keeps the order of the employees across a concatenation |
| Payroll.WithoutAdminsSingle | payroll_system_ft/src/app/components/payroll/payroll.component.ts:72-76 | one employee is kept iff its role is not the administrators' |
| Payroll.PayrollComponent.LoadEmployees | payroll_system_ft/src/app/components/payroll/payroll.component.ts:69-82 | a successful reply that carries a list replaces the list with its non-admin employees; a failure, or a success without data, keeps the list |
| Payroll.FindRecord | payroll_system_ft/src/app/components/payroll/payroll.component.ts:206 | no result iff no record has the employee's id; a result is such a record of the list |
| Payroll.FindRecordIsFirst | payroll_system_ft/src/app/components/payroll/payroll.component.ts:206 | the record found is the first with that employee id |
| Payroll.PrepareDeliveries | payroll_system_ft/src/app/components/payroll/payroll.component.ts:205-212 | one row per employee in the same order, deliveries 0, flagged iff some existing record of the period has that employee's id |
| Payroll.PayrollComponent.OpenCreateForm | payroll_system_ft/src/app/components/payroll/payroll.component.ts:193-222 | the bulk form for the selected period; any reply prepares the rows (a failed one as if no record existed) and opens the form; an error shows its message and prepares nothing |
| Payroll.PreparedFormHasNothingToCreate | payroll_system_ft/src/app/components/payroll/payroll.component.ts:205-212 | a freshly prepared form submits nothing until deliveries are typed in |
| Payroll.EligibleEntries | payroll_system_ft/src/app/components/payroll/payroll.component.ts:272-274 | a row is submitted iff it has deliveries > 0 and no existing record |
| Payroll.EligibleAppend | payroll_system_ft/src/app/components/payroll/payroll.component.ts:272-274 | the filter keeps the rows' order |
| Payroll.BulkExample | payroll_system_ft/src/app/components/payroll/payroll.component.ts:205-212 | of three employees (one with a record, one with no deliveries, one with 5), only the third is submitted |
| Payroll.TallyAccounts | payroll_system_ft/src/app/components/payroll/payroll.component.ts:283-316 | each call is created, rejected (`success: false`, counted by neither) or failed, so created + errors never exceed the calls made |
| Payroll.TallyOutcomes | payroll_system_ft/src/app/components/payroll/payroll.component.ts:296-316 | the counting loop yields the number of successful and of failed calls |
| Payroll.PayrollComponent.SaveBulkPayroll | payroll_system_ft/src/app/components/payroll/payroll.component.ts:270-332 | one create per eligible row with the form's period; with none, an error and no call; otherwise loading stops, any success reloads and closes the form, and any error leaves the error count on screen |
| Payroll.ValidatePayrollForm | payroll_system_ft/src/app/components/payroll/payroll.component.ts:463-485 | accepts iff employee set, month not blank, year set and deliveries ≥ 0; otherwise the first failing check's message, in that order |
| Payroll.ZeroDeliveriesAccepted | payroll_system_ft/src/app/components/payroll/payroll.component.ts:479-484 | no deliveries is a valid amount |
| Payroll.SingleSaveRequest | payroll_system_ft/src/app/components/payroll/payroll.component.ts:334-413 | no call for an invalid form; an update (deliveries only) iff editing a stored record; a create iff creating and the successful check lists no record of that employee in the period |
| Payroll.PayrollComponent.SettleWrite | payroll_system_ft/src/app/components/payroll/payroll.component.ts:348-362 | a success shows the message, closes the form and reloads; an error shows the server's message or the screen's own; loading stops |
| Payroll.PayrollComponent.CreateChecked | payroll_system_ft/src/app/components/payroll/payroll.component.ts:365-413 | a failed check or a duplicate shows its error and creates nothing; a check with `success: false` does nothing and leaves loading on; otherwise the create call settles as above |
| Payroll.PayrollComponent.SaveSinglePayroll | payroll_system_ft/src/app/components/payroll/payroll.component.ts:334-390 | the request issued is `SingleSaveRequest`, the duplicate check asks about the form's period, and each path ends as stated by SettleWrite / CreateChecked |
| Payroll.PayrollComponent.SubmitForm | payroll_system_ft/src/app/components/payroll/payroll.component.ts:334-413 | an invalid form shows the validator's message, issues nothing and keeps the form; a valid one goes on as in SubmitValid; the duplicate check asks about the form's period only on the create path |
| Payroll.PayrollComponent.SubmitValid | payroll_system_ft/src/app/components/payroll/payroll.component.ts:339-413 | for a valid form: the update when editing a stored record, settled as in SettleWrite; otherwise the duplicate check for the form's period, then as in CreateChecked |
| Payroll.PayrollComponent.OpenEditForm | payroll_system_ft/src/app/components/payroll/payroll.component.ts:242-248 | the single form on a copy of the record, messages cleared |
| Payroll.PayrollComponent.CloseForm | payroll_system_ft/src/app/components/payroll/payroll.component.ts:250-260 | form hidden, bulk mode off, rows dropped, form reset to the current year |
| Payroll.PayrollComponent.ShowSuccess | payroll_system_ft/src/app/components/payroll/payroll.component.ts:497-501 | the success message is set and the error message cleared |
| Payroll.PayrollComponent.ShowError | payroll_system_ft/src/app/components/payroll/payroll.component.ts:503-507 | the error message is set and the success message cleared |
| Payroll.PayrollComponent.ClearMessages | payroll_system_ft/src/app/components/payroll/payroll.component.ts:509-512 | both messages cleared |
| Text.NatToStringRoundTrip | payroll_system_ft/src/app/components/payroll/payroll.component.ts:306 | the count printed in the bulk messages reads back as the count |
| Comparative.PercentageDiff | payroll_system_ft/src/app/components/dashboard-comparativo/dashboard-comparativo.component.ts:165-168 | from a zero baseline 100 for growth and 0 otherwise; else the change as a percentage of the baseline |
| Comparative.PercentageDiffExamples | payroll_system_ft/src/app/components/dashboard-comparativo/dashboard-comparativo.component.ts:165-168 | (0,50)=100, (0,0)=0, (100,150)=50, (100,50)=-50 |
| Comparative.PercentageDiffRoundTrip | payroll_system_ft/src/app/components/dashboard-comparativo/dashboard-comparativo.component.ts:167 | applying the percentage to a non-zero baseline gives back the new value |
| Comparative.PercentageDiffSign | payroll_system_ft/src/app/components/dashboard-comparativo/dashboard-comparativo.component.ts:167 | from a positive baseline the change is positive iff the value grew, and 0 iff it stayed |
| Comparative.ZeroBaselineIsAFlag | payroll_system_ft/src/app/components/dashboard-comparativo/dashboard-comparativo.component.ts:166 | from a zero baseline the result is only ever 0 or 100; a fall below zero shows as no change |
| Comparative.Differences | payroll_system_ft/src/app/components/dashboard-comparativo/dashboard-comparativo.component.ts:158-163 | each of the four diffs is the percentage change of that field, the previous period as baseline |
| Comparative.SamePeriodNoChange | payroll_system_ft/src/app/components/dashboard-comparativo/dashboard-comparativo.component.ts:158-163 | comparing a period with itself shows four zeros |
| Comparative.DashboardComparativo.CalculateDifferences | payroll_system_ft/src/app/components/dashboard-comparativo/dashboard-comparativo.component.ts:158-163 | the four diff fields become `Differences(previousStats, currentStats)` |
| Comparative.FindDetail | payroll_system_ft/src/app/components/dashboard-comparativo/dashboard-comparativo.component.ts:261-262 | no result iff no detail has that employee number; a result is such a detail |
| Comparative.FindDetailIsFirst | payroll_system_ft/src/app/components/dashboard-comparativo/dashboard-comparativo.component.ts:261-262 | the detail found is the first with that number |
| Comparative.EmployeeDifference | payroll_system_ft/src/app/components/dashboard-comparativo/dashboard-comparativo.component.ts:260-271 | null iff the number is missing from either period; otherwise both first matches and the percentage change of their net totals |
| Comparative.Numbers | payroll_system_ft/src/app/components/dashboard-comparativo/dashboard-comparativo.component.ts:274-275 | the employee numbers of a list, position by position |
| Comparative.Dedup | payroll_system_ft/src/app/components/dashboard-comparativo/dashboard-comparativo.component.ts:276 | `new Set(...)`: the same members, each once |
| Comparative.DedupAppend | payroll_system_ft/src/app/components/dashboard-comparativo/dashboard-comparativo.component.ts:276 | de-duplicating a concatenation keeps the first part's result as a prefix; what follows is absent from the first part |
| Comparative.AllEmployeeNumbers | payroll_system_ft/src/app/components/dashboard-comparativo/dashboard-comparativo.component.ts:273-277 | every number of either period exactly once, the current period's first in first-occurrence order, then those only in the previous period |
| Comparative.DashboardComparativo.constructor | payroll_system_ft/src/app/components/dashboard-comparativo/dashboard-comparativo.component.ts:14-59 | zero stats and diffs, empty lists, next year, this year and this month selected |
| Comparative.DashboardComparativo.LoadComparativeData | payroll_system_ft/src/app/components/dashboard-comparativo/dashboard-comparativo.component.ts:90-96 | loading starts; the current period is the selection, the comparison period the same month a year earlier |
| Comparative.DashboardComparativo.LoadAvailableYears | payroll_system_ft/src/app/components/dashboard-comparativo/dashboard-comparativo.component.ts:61-88 | years and selection become `Years.LoadedYears` of the reply, then both periods are requested |
| Comparative.DashboardComparativo.LoadCurrentStats | payroll_system_ft/src/app/components/dashboard-comparativo/dashboard-comparativo.component.ts:98-111 | a success replaces the current stats and recomputes the diffs; otherwise nothing changes |
| Comparative.DashboardComparativo.LoadPreviousStats | payroll_system_ft/src/app/components/dashboard-comparativo/dashboard-comparativo.component.ts:113-129 | a success replaces the previous stats and recomputes the diffs; loading stops either way |
| Comparative.DashboardComparativo.LoadCurrentEmployeeDetails | payroll_system_ft/src/app/components/dashboard-comparativo/dashboard-comparativo.component.ts:131-142 | a success replaces the current details |
| Comparative.DashboardComparativo.LoadPreviousEmployeeDetails | payroll_system_ft/src/app/components/dashboard-comparativo/dashboard-comparativo.component.ts:144-156 | a success replaces the previous details |
| Years.MaxOf | payroll_system_ft/src/app/components/dashboard-comparativo/dashboard-comparativo.component.ts:73 | `Math.max(...years)`: a member that no member exceeds |
| Years.SortAscending | payroll_system_ft/src/app/components/dashboard-comparativo/dashboard-comparativo.component.ts:70 | a permutation in ascending order |
| Years.WithCurrentYear | payroll_system_ft/src/app/components/dashboard-comparativo/dashboard-comparativo.component.ts:65-71 | always holds the current year; the server's list unchanged when it had it, else that list plus the year, sorted |
| Years.LoadedYears | payroll_system_ft/src/app/components/dashboard/dashboard.component.ts:48-75 | a usable reply gives its years plus the current one, with the latest selected (a member of the list); otherwise just the current year, selection kept |
| Dashboard.DashboardComponent.LoadAvailableYears | payroll_system_ft/src/app/components/dashboard/dashboard.component.ts:48-75 | years and selection become `Years.LoadedYears` of the reply, then the data of the selected period is requested |
| Dashboard.DashboardComponent.constructor | payroll_system_ft/src/app/components/dashboard/dashboard.component.ts:14-46 | zero totals, empty lists, next year, this year and the whole year (month "") selected |
| Dashboard.DashboardComponent.LoadDashboardData | payroll_system_ft/src/app/components/dashboard/dashboard.component.ts:77-83 | loading starts and the selected period is requested |
| Dashboard.StatsOf | payroll_system_ft/src/app/components/dashboard/dashboard.component.ts:89-92 | each total is the server's value, 0 when missing |
| Dashboard.EmptyStatsAreZero | payroll_system_ft/src/app/components/dashboard/dashboard.component.ts:89-92 | a reply without totals shows four zeros |
| Dashboard.DashboardComponent.LoadStats | payroll_system_ft/src/app/components/dashboard/dashboard.component.ts:85-99 | a success replaces the four totals by `StatsOf` of the reply; otherwise they are kept |
| Dashboard.ProgressPercentage | payroll_system_ft/src/app/components/dashboard/dashboard.component.ts:223-226 | the hours as a percentage of a 192-hour month |
| Dashboard.ProgressExamples | payroll_system_ft/src/app/components/dashboard/dashboard.component.ts:223-226 | 0 hours give 0, 96 give 50, 192 give 100 |
| Dashboard.ProgressMonotone | payroll_system_ft/src/app/components/dashboard/dashboard.component.ts:223-226 | more hours never show less progress |
| Dashboard.ProgressBounds | payroll_system_ft/src/app/components/dashboard/dashboard.component.ts:223-226 | hours within a full month show between 0 and 100 |
| Dashboard.Shares | payroll_system_ft/src/app/components/dashboard/dashboard.component.ts:190-193 | for a positive total each amount's share of it in percent; otherwise 0 and 0 |
| Dashboard.SharesComplete | payroll_system_ft/src/app/components/dashboard/dashboard.component.ts:191-193 | the two shares add up to 100, and with no negative amount each lies within 0 and 100 |
| Dashboard.DashboardComponent.LoadExpenseDistribution | payroll_system_ft/src/app/components/dashboard/dashboard.component.ts:115-128 | the shares are drawn only for a successful reply; loading stops either way |
| Dashboard.DashboardComponent.LoadEmployeeDetails | payroll_system_ft/src/app/components/dashboard/dashboard.component.ts:130-141 | a success replaces the employee details |
| Text.TrimStart | payroll_system_ft/src/app/components/roles/roles.component.ts:168 | drops exactly the leading white space |
| Text.TrimEnd | payroll_system_ft/src/app/components/roles/roles.component.ts:168 | drops exactly the trailing white space |
| Text.BlankIffAllSpace | payroll_system_ft/src/app/components/roles/roles.component.ts:168 | a string trims to empty iff it is all white space |
| Text.TrimIdempotent | payroll_system_ft/src/app/components/roles/roles.component.ts:173 | trimming twice is trimming once |
| Text.TrimPadding | payroll_system_ft/src/app/components/roles/roles.component.ts:173 | white space around a word that starts and ends with non-space is exactly what trim removes |
| Text.LowerChar | payroll_system_ft/src/app/components/roles/roles.component.ts:173 | an ASCII capital becomes its small letter, and the result is an ASCII small letter iff the input was an ASCII letter |
| Text.ToLower | payroll_system_ft/src/app/components/roles/roles.component.ts:173 | lower-cases each character, keeping the length |
| Text.ToLowerIdempotent | payroll_system_ft/src/app/components/roles/roles.component.ts:216-218 | lower-casing twice is lower-casing once |
| Text.StrLessIrreflexive | payroll_system_ft/src/app/components/roles/roles.component.ts:220-225 | no string sorts before itself |
| Text.StrLessTransitive | payroll_system_ft/src/app/components/roles/roles.component.ts:220-225 | string order is transitive |
| Text.StrLessTotal | payroll_system_ft/src/app/components/roles/roles.component.ts:220-225 | of two different strings one sorts first |
| Text.Utf16Length | payroll_system_ft/src/app/components/users/users.component.ts:229 | `length` counts UTF-16 code units: between one and two per character, and one per character exactly when all lie in the Basic Multilingual Plane |
| Text.Utf16LengthAppend | payroll_system_ft/src/app/components/users/users.component.ts:229 | the `length` of a concatenation is the sum of the parts' lengths |
| Text.Utf16LengthChar | payroll_system_ft/src/app/components/users/users.component.ts:229 | one character counts one unit up to U+FFFF and two above |
| Text.AstralLength | payroll_system_ft/src/app/components/users/users.component.ts:229 | three characters outside the Basic Multilingual Plane have a `length` of six |
| Roles.AdminNamePadded | payroll_system_ft/src/app/components/roles/roles.component.ts:173 | any capitalisation of `admin`, with white space around it, is the admin name |
| Roles.AdministradorIsNotAdmin | payroll_system_ft/src/app/components/roles/roles.component.ts:173 | `Administrador`, a longer name that merely starts with `admin`, is an ordinary role |
| Roles.ValidateRoleForm | payroll_system_ft/src/app/components/roles/roles.component.ts:167-184 | a blank name is refused first; the admin name passes; any other role passes iff its base salary is positive |
| Roles.ValidationIgnoresBonuses | payroll_system_ft/src/app/components/roles/roles.component.ts:176-183 | the bonuses never change the verdict |
| Roles.AdminWithoutSalaryAccepted | payroll_system_ft/src/app/components/roles/roles.component.ts:173-183 | " Admin " with a base salary of 0 is accepted |
| Roles.TotalSalaryBounds | payroll_system_ft/src/app/components/roles/roles.component.ts:198-203 | with no bonuses the total is the base salary; non-negative bonuses only add to it |
| Roles.TotalSalaryMonotone | payroll_system_ft/src/app/components/roles/roles.component.ts:198-203 | raising any part by an amount raises the total by that amount |
| Roles.UnknownColumnKeepsOrder | payroll_system_ft/src/app/components/roles/roles.component.ts:213-229 | sorting by a column the roles lack leaves the table as it was |
| Roles.RolesComponent.constructor | payroll_system_ft/src/app/components/roles/roles.component.ts:10-27 | the field initialisers and the empty form |
| Roles.RolesComponent.LoadRoles | payroll_system_ft/src/app/components/roles/roles.component.ts:35-49 | a success that carries data replaces the roles (an empty list included); a success without data keeps them; an error shows its message; loading stops |
| Roles.RolesComponent.ResetForm | payroll_system_ft/src/app/components/roles/roles.component.ts:69-80 | empty name, all amounts 0, not admin; no selected role; error cleared |
| Roles.RolesComponent.OpenCreateForm | payroll_system_ft/src/app/components/roles/roles.component.ts:51-55 | the reset form shown for a new role |
| Roles.RolesComponent.OpenEditForm | payroll_system_ft/src/app/components/roles/roles.component.ts:57-62 | the role selected and copied into the form, shown for editing |
| Roles.RolesComponent.CloseForm | payroll_system_ft/src/app/components/roles/roles.component.ts:64-67 | the form hidden and reset |
| Roles.RolesComponent.ShowError | payroll_system_ft/src/app/components/roles/roles.component.ts:186-190 | the error message is set and the success message cleared |
| Roles.RolesComponent.ShowSuccess | payroll_system_ft/src/app/components/roles/roles.component.ts:192-196 | the success message is set and the error message cleared |
| Roles.RolesComponent.PendingRequest | payroll_system_ft/src/app/components/roles/roles.component.ts:82-94 | a refusal carrying the validator's message iff the form is invalid; an update iff editing a selected stored role; both calls carry the form and the audit name `Admin` twice |
| Roles.RolesComponent.SettleWrite | payroll_system_ft/src/app/components/roles/roles.component.ts:96-109 | a success shows the message, closes the form and reloads; an error shows the screen's fixed text; loading stops |
| Roles.RolesComponent.SaveRole | payroll_system_ft/src/app/components/roles/roles.component.ts:82-125 | an invalid form shows the validator's message and calls nothing; otherwise the request issued settles as in SettleWrite with the update or create texts |
| Roles.RolesComponent.Submit | payroll_system_ft/src/app/components/roles/roles.component.ts:82-125 | a refusal shows its message and changes nothing else; a write call turns loading on and settles with the update or create texts |
| Roles.RolesComponent.SortBy | payroll_system_ft/src/app/components/roles/roles.component.ts:205-230 | the toggle, then the table is a permutation of the old one, ordered by the column (strings lower-cased), and rows with equal cells keep their order |
| Roles.RolesComponent.SortIcon | payroll_system_ft/src/app/components/roles/roles.component.ts:232-235 | '' for another column, ▲ when ascending, ▼ when descending |
| TableSort.NextSort | payroll_system_ft/src/app/components/roles/roles.component.ts:206-211 | the clicked column becomes the sort column; the same column flips the direction, a new one starts ascending |
| TableSort.NextSortTwice | payroll_system_ft/src/app/components/roles/roles.component.ts:206-211 | two clicks on the sorted column restore the direction |
| TableSort.MarkersDiffer | payroll_system_ft/src/app/components/roles/roles.component.ts:232-235 | the two markers differ from each other and from '' |
| TableSort.SortIcon | payroll_system_ft/src/app/components/roles/roles.component.ts:232-235 | '' iff another column is sorted, ▲ iff ascending, ▼ iff descending |
| TableSort.KeyLessIrreflexive | payroll_system_ft/src/app/components/roles/roles.component.ts:220-225 | no cell is less than itself |
| TableSort.KeyLessTransitive | payroll_system_ft/src/app/components/roles/roles.component.ts:220-225 | the cell order is transitive |
| TableSort.KeyLessTotal | payroll_system_ft/src/app/components/roles/roles.component.ts:220-225 | of two different cells, one is less |
| TableSort.InOrderMeaning | payroll_system_ft/src/app/components/roles/roles.component.ts:213-229 | a pair is in order iff, after lower-casing, the second is not below the first (ascending) or not above it (descending) |
| TableSort.InOrderTotal | payroll_system_ft/src/app/components/roles/roles.component.ts:213-229 | any pair is in order one way or the other |
| TableSort.InOrderTransitive | payroll_system_ft/src/app/components/roles/roles.component.ts:213-229 | order is transitive, so the comparator is consistent |
| TableSort.Insert | payroll_system_ft/src/app/components/roles/roles.component.ts:213 | insertion adds exactly the one row |
| TableSort.SortRows | payroll_system_ft/src/app/components/roles/roles.component.ts:213 | a permutation of the rows |
| TableSort.InsertOrdered | payroll_system_ft/src/app/components/roles/roles.component.ts:213-229 | inserting into an ordered table keeps it ordered |
| TableSort.SortRowsOrdered | payroll_system_ft/src/app/components/roles/roles.component.ts:213-229 | the sorted table is ordered by the column in the chosen direction |
| TableSort.SortRowsEqualKeys | payroll_system_ft/src/app/components/roles/roles.component.ts:227-228 | rows whose cells are all equal keep their order |
| TableSort.CompareZero | payroll_system_ft/src/app/components/roles/roles.component.ts:214-228 | the comparator returns 0 iff the two cells are the same once lower-cased |
| TableSort.WithCell | payroll_system_ft/src/app/components/roles/roles.component.ts:213-229 | the rows with a given lower-cased cell, no more of them than the table has, each with that cell |
| TableSort.WithCellMembers | payroll_system_ft/src/app/components/roles/roles.component.ts:213-229 | each row picked is a row of the table, and a row of the table is picked iff its lower-cased cell is the one asked for |
| TableSort.WithCellAppend | payroll_system_ft/src/app/components/roles/roles.component.ts:213-229 | picking the rows with one cell value keeps their order across a concatenation |
| TableSort.PassDifferent | payroll_system_ft/src/app/components/roles/roles.component.ts:213-229 | moving a row past one with a different cell leaves the order of equal rows alone |
| TableSort.InsertKeepsEqualOrder | payroll_system_ft/src/app/components/roles/roles.component.ts:213-229 | among the rows with one cell value, the inserted row still comes first |
| TableSort.SortRowsStable | payroll_system_ft/src/app/components/roles/roles.component.ts:213-229 | the sort is stable: for every cell value, the rows with that value keep their input order |
| Users.ValidateUserForm | payroll_system_ft/src/app/components/users/users.component.ts:278-295 | the employee number first; an edit then passes; a new user needs a non-blank password whose `length` (UTF-16 code units, spaces counted) is at least six |
| Users.EditIgnoresPassword | payroll_system_ft/src/app/components/users/users.component.ts:284-292 | on an edit the password never changes the verdict |
| Users.AstralPasswordAccepted | payroll_system_ft/src/app/components/users/users.component.ts:229 | three characters outside the Basic Multilingual Plane have a `length` of six and pass the password-change check |
| Users.BlankPasswordOnlyInModal | payroll_system_ft/src/app/components/users/users.component.ts:229 | a password of six spaces or more passes the password-change check but is refused as missing by the create form |
| Users.CreatedPasswordAcceptedByModal | payroll_system_ft/src/app/components/users/users.component.ts:289-292 | a password accepted on create also passes the password-change check |
| Users.EditFormOf | payroll_system_ft/src/app/components/users/users.component.ts:66-69 | the user unchanged except for an empty password |
| Users.UpdatePayload | payroll_system_ft/src/app/components/users/users.component.ts:98-101 | the password is dropped iff it is missing or empty; nothing else changes |
| Users.EditWithoutPasswordSendsNone | payroll_system_ft/src/app/components/users/users.component.ts:64-101 | an edit without a new password sends the user without any password |
| Users.UsersComponent.constructor | payroll_system_ft/src/app/components/users/users.component.ts:10-27 | the field initialisers and the empty form |
| Users.UsersComponent.LoadUsers | payroll_system_ft/src/app/components/users/users.component.ts:35-50 | a success replaces the users; an error shows its message; loading stops |
| Users.UsersComponent.OpenCreateForm | payroll_system_ft/src/app/components/users/users.component.ts:52-62 | the empty form shown for a new user, messages cleared |
| Users.UsersComponent.OpenEditForm | payroll_system_ft/src/app/components/users/users.component.ts:64-72 | `EditFormOf(user)` shown for editing, messages cleared |
| Users.UsersComponent.CloseForm | payroll_system_ft/src/app/components/users/users.component.ts:74-82 | the form hidden and reset |
| Users.UsersComponent.PendingRequest | payroll_system_ft/src/app/components/users/users.component.ts:92-122 | a refusal carrying the validator's message iff invalid; an update with `UpdatePayload` iff editing a stored user; otherwise a create with the form |
| Users.UsersComponent.SettleWrite | payroll_system_ft/src/app/components/users/users.component.ts:103-117 | a success shows the message, closes the form and reloads; an error shows the server's message or the screen's; loading stops |
| Users.UsersComponent.SaveUser | payroll_system_ft/src/app/components/users/users.component.ts:84-140 | an invalid form shows the validator's message and calls nothing; otherwise the request issued settles as in SettleWrite |
| Users.UsersComponent.Submit | payroll_system_ft/src/app/components/users/users.component.ts:84-140 | a refusal shows its message and changes nothing else; a write call turns loading on and settles with the update or create texts |
| Users.UsersComponent.OpenPasswordModal | payroll_system_ft/src/app/components/users/users.component.ts:215-220 | the modal opens on that user with an empty password, messages cleared |
| Users.UsersComponent.ClosePasswordModal | payroll_system_ft/src/app/components/users/users.component.ts:222-226 | the modal closed, no user selected, password cleared |
| Users.PasswordChangeRequest | payroll_system_ft/src/app/components/users/users.component.ts:228-237 | a call exactly when the password's `length` is at least six, carrying the selected id (0 included), the typed password and the audit name |
| Users.UsersComponent.ChangePassword | payroll_system_ft/src/app/components/users/users.component.ts:228-252 | the request is `PasswordChangeRequest` of the selected id and the typed password; without one the error shows and nothing else changes; a success closes the modal and reloads; a failure shows the fixed text |
| Users.UsersComponent.SortBy | payroll_system_ft/src/app/components/users/users.component.ts:297-318 | the toggle, then a permutation of the users ordered by the column, and rows with equal cells keep their order |
| Users.UsersComponent.SortIcon | payroll_system_ft/src/app/components/users/users.component.ts:320-323 | '' for another column, ▲ when ascending, ▼ when descending |
| Users.UsersComponent.ShowSuccess | payroll_system_ft/src/app/components/users/users.component.ts:325-329 | the success message is set and the error message cleared |
| Users.UsersComponent.ShowError | payroll_system_ft/src/app/components/users/users.component.ts:331-335 | the error message is set and the success message cleared |
| Users.UsersComponent.ClearMessages | payroll_system_ft/src/app/components/users/users.component.ts:337-340 | both messages cleared |
| Employees.ValidateEmployeeForm | payroll_system_ft/src/app/components/employees/employees.component.ts:203-230 | number, name and role checked in that order, first failure wins; accepted iff all are set and, on create only, the password is present, non-blank and has a `length` (UTF-16 code units) of at least six |
| Employees.EmptyFormReportsNumber | payroll_system_ft/src/app/components/employees/employees.component.ts:203-207 | the empty form on create reports the employee number |
| Employees.CreateRulesImplyEditRules | payroll_system_ft/src/app/components/employees/employees.component.ts:219-227 | what passes on create passes on edit |
| Employees.EditWithoutPasswordSendsNone | payroll_system_ft/src/app/components/employees/employees.component.ts:83-86 | the edit copy of an employee with no password has none either, and is judged like the employee |
| Employees.EditFormOf | payroll_system_ft/src/app/components/employees/employees.component.ts:83-86 | the employee unchanged except that the admin flag is true iff its linked user is flagged admin |
| Employees.FindRole | payroll_system_ft/src/app/components/employees/employees.component.ts:261 | no result iff no role carries the id as `id` or `idRole`; a result is such a role |
| Employees.FindRoleIsFirst | payroll_system_ft/src/app/components/employees/employees.component.ts:261 | the role found is the first that carries the id |
| Employees.GetRoleName | payroll_system_ft/src/app/components/employees/employees.component.ts:260-263 | the first matching role's name, or 'N/A' when none matches |
| Employees.RoleNameEitherIdentifier | payroll_system_ft/src/app/components/employees/employees.component.ts:261 | a role is found both by `id` and by `idRole`, and not without either |
| Employees.EmployeesComponent.constructor | payroll_system_ft/src/app/components/employees/employees.component.ts:11-27 | the field initialisers and the empty form |
| Employees.EmployeesComponent.LoadEmployees | payroll_system_ft/src/app/components/employees/employees.component.ts:39-53 | a success replaces the employees; an error shows its message; loading stops |
| Employees.EmployeesComponent.LoadRoles | payroll_system_ft/src/app/components/employees/employees.component.ts:55-66 | a success replaces the roles; a failure changes nothing |
| Employees.EmployeesComponent.OpenCreateForm | payroll_system_ft/src/app/components/employees/employees.component.ts:68-79 | empty number and name, role 0, empty password, not admin; shown, messages cleared |
| Employees.EmployeesComponent.OpenEditForm | payroll_system_ft/src/app/components/employees/employees.component.ts:81-89 | `EditFormOf(employee)` shown for editing, messages cleared |
| Employees.EmployeesComponent.CloseForm | payroll_system_ft/src/app/components/employees/employees.component.ts:91-100 | the form hidden and reset to the empty form |
| Employees.EmployeesComponent.PendingRequest | payroll_system_ft/src/app/components/employees/employees.component.ts:110-137 | a refusal carrying the validator's message iff invalid; an update iff editing a stored employee; otherwise a create; both carry the form |
| Employees.EmployeesComponent.SettleWrite | payroll_system_ft/src/app/components/employees/employees.component.ts:116-130 | a success shows the message, closes the form and reloads; an error shows the server's message or the screen's; loading stops |
| Employees.EmployeesComponent.SaveEmployee | payroll_system_ft/src/app/components/employees/employees.component.ts:102-153 | an invalid form shows the validator's message and calls nothing; otherwise the request issued settles as in SettleWrite |
| Employees.EmployeesComponent.Submit | payroll_system_ft/src/app/components/employees/employees.component.ts:102-153 | a refusal shows its message and changes nothing else; a write call turns loading on and settles with the update or create texts |
| Employees.EmployeesComponent.SortBy | payroll_system_ft/src/app/components/employees/employees.component.ts:232-253 | the toggle, then a permutation of the employees ordered by the column, strings lower-cased, and rows with equal cells keep their order |
| Employees.EmployeesComponent.SortIcon | payroll_system_ft/src/app/components/employees/employees.component.ts:255-258 | '' for another column, ▲ when ascending, ▼ when descending |
| Employees.EmployeesComponent.RoleName | payroll_system_ft/src/app/components/employees/employees.component.ts:260-263 | the name of the role found among the loaded roles, or 'N/A' |
| Employees.EmployeesComponent.ShowSuccess | payroll_system_ft/src/app/components/employees/employees.component.ts:265-269 | the success message is set and the error message cleared |
| Employees.EmployeesComponent.ShowError | payroll_system_ft/src/app/components/employees/employees.component.ts:271-275 | the error message is set and the success message cleared |
| Employees.EmployeesComponent.ClearMessages | payroll_system_ft/src/app/components/employees/employees.component.ts:277-280 | both messages cleared |

## Left out

- HTTP, the services, and the order of asynchronous callbacks. Every reply is a
  parameter of the method that handles it. The services and routing are not part of
  this model.
- Payroll.PayrollComponent.SaveBulkPayroll: takes all outcomes as settled, in order,
  before the last call reports. The code reports when the call with the last index
  settles, which depends on the order the replies arrive in.
- A successful reply without `data`: apart from `Roles.RolesComponent.LoadRoles` and
  `Payroll.PayrollComponent.LoadEmployees`, the handlers store `response.data` without
  testing it (users.component.ts:40, employees.component.ts:44 and 59,
  payroll.component.ts:89, 111 and 202, dashboard-comparativo.component.ts:65-149,
  dashboard.component.ts:51-92), so a data-less success would store `undefined` or throw. The
  model's replies of those handlers always carry data.
- Timers, `confirm` dialogs and `console.error`. The messages are not cleared
  after 3 or 5 seconds.
- `ngOnInit` waits 100 ms before loading all months; this delay is not modelled.
- Chart.js drawing: the trend chart, the comparison chart with its ×5 display
  scaling, and the canvas work of the expense chart.
- `loadMonthlyTrend`: only feeds the trend chart.
- `toFixed(0)`, `toLocaleString`, and IEEE floating point. Money and percentages are
  exact reals. Dashboard.Shares gives the unrounded share, not the label's rounded text.
- Payroll.NetOf: a `netSalary` that arrives as a string is parsed with `parseFloat`.
  The model treats the field as an optional real, where missing means 0.
- Payroll.WithoutAdmins: the role id `'1'` given as a string is not a separate case,
  because ids are integers here.
- Payroll.GroupedByMonth: a record whose month is an `Object.prototype` key (such as
  `constructor`) is not modelled. Such a key would make `grouped[...]` truthy.
- Deleting and restoring payrolls, roles, users and employees, together with
  `toggleBlock` and `resetAttempts`. Each is a confirmation dialog followed by one
  call and a reload.
- `onEmployeeChange`, `getEmployeeName` and `getEmployeeNumber` of the payroll
  screen: display lookups that feed no rule.
- `toggleView`, `filterByPeriod`, `savePayroll` and `onFilterChange`: dispatchers
  that call the modelled loads and saves.
- TableSort.SortRows: a stable insertion sort stands in for the engine's sort. The
  comparator edge cases are not modelled:
  - a missing (`undefined`) cell, which compares as neither less nor greater;
  - mixed types in one column;
  - columns that hold objects: the role and user of an employee.
  A missing bonus or attempt counter sorts as 0, a missing block flag as false, and a
  column the rows lack sorts as all-equal.
- Text.ToLower: lower-cases ASCII and Latin-1 letters only. Text.StrLess compares
  code points, where JavaScript compares UTF-16 code units; the two agree on the
  Basic Multilingual Plane.
- Text.IsSpace: a fixed list of the ASCII white space, the four line terminators, the
  no-break space, the byte-order mark and the Unicode space separators up to U+3000.
  A space separator added by a later Unicode release is not covered.
- The salary, bonus, tax and voucher derivation: the back-end computes it, and the
  screens only display `netSalary`.
