# flight-scheduler, modelled in Dafny

flight-scheduler staffs airport turnarounds. Four components are modelled here:

- **Employee handler.** It cleans the roster rows and gives each loaded employee an id. It keeps a per-employee workload tracker, and it finds the employees whose shift covers a flight and who still have capacity.
- **Flight handler.** It gives every flight a heaviness class (Light, Medium, Heavy), maps that class to the team size it needs, and applies manual override rules by city, flight number or aircraft type.
- **Scheduler.** It takes the flights heaviest first and then by arrival. For each one it picks the required number of least-loaded available employees, or records why it could not. Every outcome goes to an append-only log with running counters.
- **Team manager and notification ledger.** The team manager forms up to four labelled teams (Alpha..Delta) from the staff on shift. It books teams on flights and releases them, and it detects members about to leave and staff who have just arrived. Each detected change is queued as a notification in the ledger, which an operator approves or rejects. The team manager also applies approved changes and swaps members by hand.

The model has one module per source file:

| module | file | models |
|---|---|---|
| `Employees` | `employees.dfy` | `src/employee_handler.py` |
| `Flights` | `flights.dfy` | `src/flight_handler.py` |
| `Scheduling` | `scheduling.dfy` | `src/scheduler.py` |
| `Notifications` | `notifications.dfy` | `src/notification_system.py` |
| `Teams` | `teams.dfy` | `src/team_manager.py` |
| `Text` | `text.dfy` | value helpers: Python's `str` on a natural, `str.zfill`, case-insensitive `contains`, `%H:%M` rendering |
| `Sequences` | `sequences.dfy` | order-preserving filtering and a stable sort by a two-part key |

The modelling choices that hold throughout:

- **Objects.** The source's objects become classes with the same fields. `employees_df` becomes an optional sequence of `Employee` records, `workload_tracker` a map, `flights_df` an optional sequence of `Flight` records, and the ledger holds a pending queue, a history and a counter. The teams dictionary becomes a sequence in the dictionary's own order, where assigning to an existing name keeps its place.
- **Methods and loops.** Every method that changes state is proved against specification functions: `Run`, `Step`, `Bumped`, `Overridden`, `ChangePayloads`, `Queued`, `Applied`, `Swapped` and `UpsertAll`. Every loop in the source is a loop here with its invariants.
- **Times.** Timestamps are integer minutes.
- **Inputs instead of I/O.**
  - `datetime.now()` is a `now` parameter.
  - `random.shuffle` is a `shuffled` parameter, which may be any reordering of the staff on shift.
  - Whether the flight table has a heaviness column is a parameter.

Behaviour of the code worth knowing, which the model keeps as written:

- **Replacement search.** It excludes only the members of the leaving member's own team, so a replacement may already belong to another team. The replacement named is the first roster row that qualifies (src/team_manager.py:174-182).
- **Arrival notices.** The arrival scan sits inside the loop over teams, so each arrival is announced once per team (see `Teams.JoinsPerTeam`).
- **Replacements and size.** An approved replacement leaves the team's declared `size` as it was.
- **Unused parameter.** `_calculate_team_distribution` accepts an ideal size and never uses it.
- **Default heaviness.** Without a heaviness column, the three-way select on turnaround tests `== 60` in all three branches, although the comments beside them speak of quick, normal and long turnarounds (src/flight_handler.py:104-106). So the class is Heavy exactly when the turnaround is 60 minutes, and Medium otherwise.
- **Available teams.** `get_available_teams` lets an empty team through.
- **Insufficient staff.** The failure reason for too few employees is `Insufficient employees: 0/<required>`, because `find_best_team` returns nothing in that case.

## Model

| member | source | states |
|---|---|---|
| Employees.CleanRows | src/employee_handler.py:33-54 | a row survives cleaning exactly when it has a name without "EMPTY" (in any case) and both shift times parsed; order is kept |
| Employees.GeneratedId | src/employee_handler.py:57-58 | a generated id is "EMP" followed by digits, at least six characters long |
| Employees.GeneratedIdRoundTrip | src/employee_handler.py:58 | the digits of the id generated for 0-based position i read back as i + 1 |
| Employees.GeneratedIdsDistinct | src/employee_handler.py:58 | different positions never get the same generated id |
| Employees.ToEmployees | src/employee_handler.py:56-58 | one employee per cleaned row, position by position, with the file's id or the generated one |
| Employees.GeneratedRosterIdsUnique | src/employee_handler.py:56-58 | without an id column every loaded employee has an id of its own |
| Employees.ZeroWorkload | src/employee_handler.py:69 | the tracker has exactly the roster's ids as keys, each at 0 |
| Employees.MaxFlightsOf | src/employee_handler.py:145 | the capacity looked up for an id is that of the first roster row carrying it |
| Employees.MaxFlightsOfOwn | src/employee_handler.py:145 | with unique ids the looked-up capacity is the employee's own |
| Employees.AvailableAmong | src/employee_handler.py:137-147 | an employee is available exactly when the shift starts by the flight's start, ends no earlier than its end, and the workload is below capacity |
| Employees.AvailableKeepsCopies | src/employee_handler.py:137-147 | a repeated roster row is kept in every copy or dropped in every copy |
| Employees.EmployeeHandler.constructor | src/employee_handler.py:6-8 | no roster loaded and an empty tracker |
| Employees.EmployeeHandler.LoadEmployees | src/employee_handler.py:10-76 | the roster becomes the cleaned rows with their ids, and the tracker has one zero entry per id |
| Employees.EmployeeHandler.FindAvailableEmployees | src/employee_handler.py:124-149 | no employees before a roster is loaded; otherwise exactly the available ones, in roster order |
| Employees.EmployeeHandler.AssignFlightToEmployee | src/employee_handler.py:151-156 | a known id gets exactly one more flight and the call succeeds; an unknown id changes nothing and fails |
| Employees.EmployeeHandler.ResetWorkload | src/employee_handler.py:158-161 | every loaded id back to 0 and no other key |
| Text.ContainsIgnoringCase | src/employee_handler.py:34 | true exactly when the needle occurs at some position once both are upper-cased |
| Text.Decimal | src/employee_handler.py:58 | the shortest decimal numeral: all digits, no leading zero except for 0 itself |
| Text.DecimalRoundTrip | src/employee_handler.py:58 | reading the numeral of n gives back n |
| Text.ZFill | src/employee_handler.py:58 | pads on the left with '0' up to the width and keeps the original as the suffix |
| Text.ZFillDecimalRoundTrip | src/employee_handler.py:58 | zero padding keeps the numeral all digits and its value unchanged |
| Text.Clock | src/team_manager.py:190 | five characters "HH:MM" whose digits read back as the hour of the day and the minute |
| Flights.TeamSizeNeeded | src/flight_handler.py:192-199 | 3 exactly for Light, 5 exactly for Heavy, 4 for Medium, for any other class and for a missing one |
| Flights.SelectFirst | src/flight_handler.py:103-109 | the choice beside the first condition that holds, the default when none holds |
| Flights.DefaultHeaviness | src/flight_handler.py:90-109 | with a heaviness column a present class is kept and a missing one becomes Medium; without one the class is Heavy exactly when turnaround is 60, otherwise Medium |
| Flights.FlightHandler.constructor | src/flight_handler.py:6-7 | no flight table loaded |
| Flights.FlightHandler.AddFlightHeaviness | src/flight_handler.py:85-109 | nothing without a table; otherwise every row gets its default class, everything else kept |
| Flights.LastMatchSpec | src/flight_handler.py:129-138 | no rule in force exactly when no rule hits the row; otherwise the one in force is the last that hits |
| Flights.OverriddenTouchesOnlyHeaviness | src/flight_handler.py:129-138 | overriding changes only the heaviness class, and a row no rule hits is unchanged |
| Flights.RuleStep | src/flight_handler.py:130-138 | applying one more rule to an overridden row is overriding with the longer rule list |
| Flights.LaterCityRuleWins | src/flight_handler.py:130-138 | of two city rules hitting a row, through either of its cities, the later one decides |
| Flights.FlightHandler.ApplyOverrides | src/flight_handler.py:129-138 | after the rule loop every row is overridden by the last rule that hits it; nothing without a table |
| Flights.FlightHandler.SetManualHeavinessByCity | src/flight_handler.py:111-140 | last-match-wins on the inbound or outbound city; nothing without a table |
| Flights.FlightHandler.SetManualHeavinessByFlight | src/flight_handler.py:142-167 | last-match-wins on the inbound or outbound flight number; nothing without a table |
| Flights.FlightHandler.SetManualHeavinessByAircraft | src/flight_handler.py:169-190 | last-match-wins on the aircraft tag; nothing without a table |
| Sequences.Filter | src/employee_handler.py:137-140 | an element is kept exactly when it is in the input and passes the test; never longer than the input |
| Sequences.FilterCounts | src/employee_handler.py:137-147 | a kept element keeps all its copies, a dropped one none |
| Sequences.SortBy | src/scheduler.py:61-64 | the output is a permutation of the input, ordered by the two-part key |
| Sequences.FilterFirst | src/team_manager.py:174-182 | the first element kept is the first element of the input that passes |
| Sequences.InsertStable | src/scheduler.py:61-64 | an inserted element lands in front of every element sharing its key |
| Sequences.SortByStable | src/scheduler.py:61-64 | the sort is stable: the elements sharing a key come out in their input order |
| Sequences.CountFilter | src/team_manager.py:227-247 | counting the elements that pass equals the length of the filtered sequence |
| Scheduling.ByWorkload | src/scheduler.py:175-183 | a permutation of the candidates with workloads non-decreasing |
| Scheduling.FindBestTeam | src/scheduler.py:157-188 | nothing with too few candidates; otherwise exactly `required` ids, each an available employee's |
| Scheduling.FindBestTeamLeastLoaded | src/scheduler.py:179-188 | the chosen ids are the first `required` of a reordering of the candidates in which no chosen one carries more workload than any left out |
| Scheduling.NameOfFirstRow | src/scheduler.py:126-128 | the name recorded for an id is that of the first roster row with that id |
| Scheduling.Decide | src/scheduler.py:95-129 | the required size is the table's; no candidates gives the no-employees failure; too few gives "Insufficient employees: 0/required"; otherwise a success whose team is FindBestTeam's, with one name per id |
| Scheduling.BumpedCounts | src/scheduler.py:124-125 | after the loop over the chosen ids every known id carries one more flight for each time it was chosen, and no key is added |
| Scheduling.Run | src/scheduler.py:74-75 | one record per flight, in processing order, and the tracker keeps its keys |
| Scheduling.SortFlights | src/scheduler.py:56-64 | a permutation of the flights, larger required team first, earlier arrival first among equals |
| Scheduling.SortFlightsStable | src/scheduler.py:61-64 | flights tying on team size and arrival keep their table order |
| Scheduling.CountersAddUp | src/scheduler.py:150-151 | successes plus failures is the number of records |
| Scheduling.LogAppend | src/scheduler.py:150-212 | appending a record moves exactly its own counter, the positions filled by its team size, and the unassigned list by its flight number |
| Scheduling.ScheduleSpec | src/scheduler.py:264-295 | the per-employee schedule lists exactly the employees some success lists, each with the flights of the successes listing them, in log order, once per listing |
| Scheduling.GroupNames | src/scheduler.py:276-280 | each listed employee keeps the name from their first listing |
| Scheduling.Scheduler.constructor | src/scheduler.py:6-22 | an empty log and zero counters |
| Scheduling.Scheduler.RecordFailedAssignment | src/scheduler.py:190-212 | one failure record appended with the required size and the reason; the counters follow the log |
| Scheduling.Scheduler.RecordSuccessfulAssignment | src/scheduler.py:150-152 | one success record appended; the counters follow the log |
| Scheduling.Scheduler.AssignFlight | src/scheduler.py:82-155 | without a roster, a no-employees failure; otherwise the log and the tracker are one `Step` further: the decision logged, workloads bumped on success |
| Scheduling.Scheduler.CountTeamFlights | src/scheduler.py:124-125 | the tracker is bumped once per chosen id, in order |
| Scheduling.Scheduler.ClearResults | src/scheduler.py:31-38 | the log and all counters reset |
| Scheduling.Scheduler.RunScheduling | src/scheduler.py:24-80 | fails with an empty log and an untouched tracker when roster or flights are missing; with both loaded (and non-empty, as the source requires), the log and tracker are the pass over the sorted flights from a zero tracker, one record per flight, and the result is success |
| Scheduling.Scheduler.GetScheduleByEmployee | src/scheduler.py:264-295 | the grouping of the successes' positions, which lists exactly the listed employees with their listed flights |
| Scheduling.AddAssignment | src/scheduler.py:272-293 | the inner loop adds one success's positions, in order |
| Notifications.IndexOfId | src/notification_system.py:45-49 | the position of the first pending entry with that id, or none when no entry carries it |
| Notifications.KeptSince | src/notification_system.py:161-165 | an entry is kept exactly when it is in the history and newer than the cutoff |
| Notifications.KeptSinceDistinct | src/notification_system.py:161-165 | clearing keeps the history's ids distinct |
| Notifications.ResolveKeepsLedger | src/notification_system.py:57-60 | taking one entry out of the queue and appending it resolved to the history keeps queue, history and their separation valid |
| Notifications.FormatNotification | src/notification_system.py:84-153 | nothing exactly for an unknown type; otherwise the layout carries the id and the time, requires action, allows manual selection exactly for unassigned employees, and a leave shows the team size after |
| Notifications.NotificationSystem.constructor | src/notification_system.py:6-9 | empty queue and history, counter 0 |
| Notifications.NotificationSystem.CreateNotification | src/notification_system.py:11-30 | returns the old counter as the id, increments it, and appends the new pending entry; history untouched |
| Notifications.NotificationSystem.GetPendingNotifications | src/notification_system.py:32-34 | the pending entries in creation order, all pending, as many as the count |
| Notifications.NotificationSystem.GetNotificationCount | src/notification_system.py:155-157 | the number of pending entries |
| Notifications.NotificationSystem.Resolve | src/notification_system.py:43-62 | an unknown id answers "Notification not found" and changes nothing; a pending id leaves the queue, others in order, and is appended resolved to the history |
| Notifications.NotificationSystem.ApproveNotification | src/notification_system.py:36-62 | the resolution with status approved, stamped now, with the override |
| Notifications.NotificationSystem.RejectNotification | src/notification_system.py:64-82 | the resolution with status rejected, stamped now, with the reason |
| Notifications.NotificationSystem.ClearOldNotifications | src/notification_system.py:159-166 | the history keeps exactly its entries newer than now minus the hours, in order; queue and counter untouched |
| Notifications.ResolveTwice | src/notification_system.py:36-82 | after an approval that found the id, rejecting it again answers "Notification not found" and the history gained exactly that one entry |
| Teams.WithMembers | src/team_manager.py:274-275 | the new member list with ids and names recomputed, everything else kept |
| Teams.Find | src/team_manager.py:137 | the position of the team with that name, or none when no team has it |
| Teams.UpsertSpec | src/team_manager.py:57-65 | assigning a record under its name finds it there, leaves every other name as it was, and keeps one team per name |
| Teams.UpsertAllSpec | src/team_manager.py:50-65 | assigning records with distinct names finds each one and leaves every other name alone |
| Teams.TeamCount | src/team_manager.py:76-85 | 4, 3, 2 or 1 teams by the thresholds, 0 below the critical minimum, never more than the labels |
| Teams.EvenSplit | src/team_manager.py:88-94 | k sizes, each the quotient plus one for the first remainder-many teams |
| Teams.EvenSplitSum | src/team_manager.py:88-94 | the sizes add up to the people split |
| Teams.EvenSplitPrefix | src/team_manager.py:49-55 | the first j sizes add up to j times the quotient plus min(j, remainder): where team j's slice starts |
| Teams.Distribution | src/team_manager.py:72-96 | no sizes when no teams; otherwise the even split, whose sizes add up to everybody |
| Teams.FormationSizes | src/team_manager.py:72-96 | teams exactly from two people on, each at least two, at least three from six people on, at most five below twelve |
| Teams.CalculateTeamDistribution | src/team_manager.py:72-96 | the count and the sizes the loop builds are `Distribution`'s |
| Teams.OnShift | src/team_manager.py:20-23 | exactly the employees with start <= t < end |
| Teams.NewTeam | src/team_manager.py:57-65 | the derived id and name lists mirror the members |
| Teams.InitialTeamsSnoc | src/team_manager.py:49-56 | one more size: the next label takes the next slice, starting where the previous ones ended |
| Teams.InitialMembers | src/team_manager.py:49-56 | the formed teams' members, team after team, are the front of the shuffled list |
| Teams.InitialTeamsShape | src/team_manager.py:50-65 | team i has label i, size sizes[i] equal to its member count, no flights, no current flight, no last-flight end, and mirrored lists |
| Teams.InitialTeamsRegistry | src/team_manager.py:50-65 | the formed teams have distinct names |
| Teams.FormationPartition | src/team_manager.py:42-70 | members of the formed teams followed by the remainder are the shuffled list, hence the staff on shift with their multiplicities |
| Teams.FormationRemainder | src/team_manager.py:67-70 | nobody is left over from two people on; a single person is |
| Teams.AvailableTeamsSpec | src/team_manager.py:98-133 | a team is listed exactly when it is off flight, rested for the break, and no member's shift ended before the flight |
| Teams.OffShiftNeverOffered | src/team_manager.py:118-123 | a team with a member off shift before the flight is never listed |
| Teams.AllStillWorking | src/team_manager.py:119-123 | the member loop answers whether every shift lasts until the flight |
| Teams.Booked | src/team_manager.py:140-141 | on that flight with one more flight counted; a team on a flight qualifies for none |
| Teams.Released | src/team_manager.py:150-151 | off the flight, resting from its end; afterwards it qualifies exactly when the break has passed and all members still work |
| Teams.FindSep | src/team_manager.py:253-254 | the first ", " at or after a position, or none |
| Teams.FlipName | src/team_manager.py:251-256 | a name without ", " is unchanged; otherwise one character shorter |
| Teams.FlipNameRoundTrip | src/team_manager.py:251-256 | flipping "Last, First" gives "First Last" when the last name holds no ", " |
| Teams.Replacements | src/team_manager.py:174-178 | exactly the roster rows on shift by t, staying past the window, and not on that team |
| Teams.DeparturePayloadSpec | src/team_manager.py:174-213 | a replacement exactly when some row can replace, naming the leaving member and the first roster row that can replace, with its times; otherwise a leave reporting the team one smaller |
| Teams.DeparturesSpec | src/team_manager.py:167-213 | one notification per leaving member, in member order: notice k is the departure notice of the k-th leaving member, a replacement or a leave for that team |
| Teams.DeparturesStep | src/team_manager.py:167-171 | one member further, the leaving members and their notices grow together by that member's |
| Teams.AllMemberIdsSpec | src/team_manager.py:217-219 | an id is collected exactly when some team has it |
| Teams.Arrivals | src/team_manager.py:221-225 | exactly the roster rows that started within the last five minutes and are on no team |
| Teams.ArrivalsOnNoTeam | src/team_manager.py:221-225 | no arrival is a member of any team |
| Teams.Suggested | src/team_manager.py:229-233 | none exactly when every team has at least four; otherwise the first team below four |
| Teams.JoinPayload | src/team_manager.py:235-246 | a join for that employee carrying the suggestion, with "TBD" as team name when there is none |
| Teams.JoinsAt | src/team_manager.py:227-247 | one join per arrival, in roster order |
| Teams.JoinsPerTeam | src/team_manager.py:165-247 | a call queues the arrivals' joins once per team: teams times arrivals joins in all |
| Teams.QueuedAt | src/notification_system.py:18-29 | entry k of a run of notifications has id first + k, payload k, the clock value and status pending |
| Teams.Emit | src/team_manager.py:184-198 | one notification created and its id collected, extending the run queued so far |
| Teams.DepartureNotice | src/team_manager.py:172-213 | the loop body's notice is `DeparturePayload` |
| Teams.NotifyDepartures | src/team_manager.py:167-213 | the member loop queues exactly the team's departure notices, in member order, with consecutive ids |
| Teams.CollectMemberIds | src/team_manager.py:217-219 | the ids of every team's members, team after team |
| Teams.RecentArrivals | src/team_manager.py:217-225 | the computed arrivals are `Arrivals` |
| Teams.SuggestTeam | src/team_manager.py:229-233 | the suggestion loop returns `Suggested` |
| Teams.NotifyArrival | src/team_manager.py:227-247 | one join queued for the employee with the suggestion of the moment |
| Teams.NotifyArrivals | src/team_manager.py:215-247 | the arrival loop queues exactly the joins, in roster order, with consecutive ids |
| Teams.NotifyTeam | src/team_manager.py:165-247 | one pass of the team loop queues that team's departures, then the joins |
| Teams.NotifyAll | src/team_manager.py:165-247 | the team loop queues `ChangePayloads` in order, numbered on from the counter, history untouched |
| Teams.WithoutId | src/team_manager.py:267-270 | exactly the members not carrying the id |
| Teams.WithoutIdCount | src/team_manager.py:279-282 | removing an id drops exactly the members carrying it |
| Teams.Replaced | src/team_manager.py:265-275 | lists mirrored, name and declared size kept |
| Teams.ReplacedSpec | src/team_manager.py:265-275 | the joining id is on the team, the leaving id is not (unless it is the joining one), everyone else stays, and the count moves by one minus the copies dropped |
| Teams.Departed | src/team_manager.py:277-285 | lists mirrored, name kept |
| Teams.DepartedSpec | src/team_manager.py:277-285 | the leaving id is gone, everybody else stays, and the size is the member count |
| Teams.FirstWithId | src/team_manager.py:308-312 | the first member with the id, or none when nobody has it |
| Teams.FindMember | src/team_manager.py:308-312 | the member loop returns `FirstWithId` |
| Teams.SwapInList | src/team_manager.py:302-333 | succeeds exactly when both teams exist and the member is on the first; then the list is `Swapped`, otherwise unchanged |
| Teams.SwappedRegistry | src/team_manager.py:317-331 | a swap keeps names, one team per name and mirrored lists, and changes only the two teams involved |
| Teams.SwapMoves | src/team_manager.py:317-331 | between two teams: the member is appended to the second, no copy of the id stays on the first, both sizes are member counts, and the pair loses exactly the extra copies |
| Teams.SwapWithinTeam | src/team_manager.py:317-331 | within one team the member moves to the end and the other copies of its id vanish |
| Teams.Summary | src/team_manager.py:293-299 | "On Flight" exactly while on a flight, "Available" otherwise; a team that qualifies shows "Available" |
| Teams.TeamManager.constructor | src/team_manager.py:6-10 | no teams, and the given ledger |
| Teams.TeamManager.FormInitialTeams | src/team_manager.py:12-70 | nobody on shift: the error message and no change; otherwise the formed teams are assigned under their labels and the remainder returned |
| Teams.TeamManager.PlaceTeams | src/team_manager.py:48-65 | the team loop assigns the formed teams in label order and ends at the sum of the sizes |
| Teams.TeamManager.SetTeam | src/team_manager.py:57-65 | the dictionary assignment, keeping one team per name |
| Teams.TeamManager.GetAvailableTeams | src/team_manager.py:98-133 | the loop returns `AvailableTeams` |
| Teams.TeamManager.AssignTeamToFlight | src/team_manager.py:135-143 | a known name books only that team and succeeds; an unknown one changes nothing and fails |
| Teams.TeamManager.CompleteFlight | src/team_manager.py:145-153 | a known name releases only that team and succeeds; an unknown one changes nothing and fails |
| Teams.TeamManager.DetectAndNotifyChanges | src/team_manager.py:155-249 | nothing without a ledger; otherwise the ledger queues `ChangePayloads` with consecutive ids, which are returned |
| Teams.TeamManager.ApplyTeamChange | src/team_manager.py:258-287 | not approved: false and no change; otherwise true with the replacement or departure applied to that team, and any other type changing nothing |
| Teams.TeamManager.GetTeamSummary | src/team_manager.py:289-300 | one summary per team, in registry order |
| Teams.TeamManager.ManuallySwapMembers | src/team_manager.py:302-333 | false and no change unless both teams exist and the member is on the first; otherwise `Swapped`, keeping the registry valid |

## Left out

- **Other source files.** src/dashboard.py (the web interface and its session state) and src/main.py (the entry point, with its printing and its rules table) are not part of this model.
- **Reading and printing.**
  - Reading CSV files and renaming columns: `load_flights`, and `load_employees` except row cleaning and id generation.
  - Column-existence tests: the heaviness column is a parameter, and the columns the override methods test are taken to exist.
  - Date parsing: `set_flight_date`, `create_sample_flight_data`.
  - Printing and reporting: `show_*`, `test_availability`, `_print_scheduling_summary`, `print_employee_schedules`, `export_schedule`, `get_assignments_dataframe`, `get_workload_summary`.
- **Floating point.** The `max_flights_per_day` estimate from total hours is a given integer. Utilisation percentages and `total_hours` are dropped from the payloads and from the display details.
- **Clock values.**
  - `datetime.now()` is the `now` parameter, and all notifications of one `detect_and_notify_changes` call carry the same one.
  - Times in payloads are minutes; only the display renders them as `%H:%M`.
  - `clear_old_notifications` measures its cutoff in minutes (`hours * 60`).
- **Randomness.** `random.shuffle` is the `shuffled` parameter, constrained to be a reordering of the staff on shift.
- **`pending_changes`.** It is initialised and never used, so it has no field here.
- **Formation's return value.** The teams dictionary `form_initial_teams` returns is the manager's own state, so only the remainder is returned.
- **Character handling.** Case folding in the "EMPTY" test is ASCII only.
- **Employees.EmployeeHandler.LoadEmployees:** it does not model file errors; it always succeeds on the given rows.
- **Teams.TeamManager.ApplyTeamChange:** the source raises `KeyError` for a replacement or leave on an unknown team. The model requires the team to exist instead.
- **Scheduling.FindBestTeamLeastLoaded:** the source's sort leaves the order among equal workloads unspecified. The model's stable sort fixes one order, and the proved property holds for any order.
- **Scheduling.Scheduler.RunScheduling:** it requires a non-empty flight table and a non-empty roster once both are loaded. With an empty flight table the source raises: `strftime` on the `NaT` minimum at src/scheduler.py:68, and the summary would divide by zero flights at src/scheduler.py:225. With an empty roster and at least one flight, reading `utilization_pct` from the column-less workload summary raises `KeyError` at src/scheduler.py:235. The model does not give these exceptions a result.
- **Employees.EmployeeHandler.ResetWorkload:** it requires a loaded roster. The source raises `TypeError` when called without one; its only caller, `run_scheduling`, checks first, so that error path is not modelled.
- **Default arguments and optional dicts.**
  - Default arguments are explicit parameters: `min_break_minutes=15` of `get_available_teams`, `hours=24` of `clear_old_notifications`, `approved=True` of `apply_team_change`, and `reason=None` of `reject_notification`.
  - The optional `manual_override` dict of `approve_notification` is an `Option<string>`, and an approval stores it as given.
- **Notifications.NotificationSystem.GetPendingNotifications:** it returns the entries as values. The source returns the same dict objects that a later approve or reject changes in place, and the model does not capture that aliasing.
- **Flight values.** A flight value is always present on a booked team, so the truthiness test in `get_team_summary` is `Some`.
