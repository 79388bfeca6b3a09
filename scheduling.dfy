/** The employee-level scheduler (`Scheduler`, src/scheduler.py): flights are taken
    heaviest first, then by arrival; each gets the required number of least-loaded
    available employees or a recorded failure, and every outcome goes to an
    append-only log with running counters. */
module Scheduling {
  import opened Text
  import opened Sequences
  import opened Employees
  import opened Flights

  /** One record of the assignment log. A success carries the chosen ids and their
      names, position by position; a failure carries its reason. */
  datatype Assignment =
    | Assigned(flight: Flight, required: nat, teamIds: seq<string>, teamNames: seq<string>)
    | Failed(flight: Flight, required: nat, reason: string)

  const NoEmployeesReason: string := "No employees available for time slot"

  function InsufficientReason(selected: nat, required: nat): string {
    "Insufficient employees: " + Decimal(selected) + "/" + Decimal(required)
  }

  /** `workload_tracker.get(id, 0)`. */
  function WorkloadOf(workload: map<string, nat>, id: string): nat {
    if id in workload then workload[id] else 0
  }

  /** The first `n` of `order` carry no more workload than any of the rest. */
  ghost predicate LeastLoadedFirst(order: seq<Employee>, n: nat, workload: map<string, nat>) {
    n <= |order| &&
    forall i, j :: 0 <= i < n <= j < |order| ==> WorkloadOf(workload, order[i].id) <= WorkloadOf(workload, order[j].id)
  }

  /** The candidates ordered by the workload they carry, least loaded first. */
  function ByWorkload(available: seq<Employee>, workload: map<string, nat>): (order: seq<Employee>)
    ensures multiset(order) == multiset(available) && |order| == |available|
    ensures forall i, j :: 0 <= i < j < |order| ==> WorkloadOf(workload, order[i].id) <= WorkloadOf(workload, order[j].id)
  {
    SortBy(available, (e: Employee) => (WorkloadOf(workload, e.id), 0))
  }

  /** `find_best_team`: nothing when there are too few candidates, otherwise the ids of
      the first `required` candidates by workload (see `FindBestTeamLeastLoaded`). */
  function FindBestTeam(required: nat, available: seq<Employee>, workload: map<string, nat>): (team: seq<string>)
    ensures |available| < required ==> team == []
    ensures |available| >= required ==> |team| == required
    ensures forall i :: 0 <= i < |team| ==> team[i] in Ids(available)
  {
    if |available| < required then
      []
    else
      var order := ByWorkload(available, workload);
      var team := IdsOf(order[..required]);
      forall i | 0 <= i < |team| ensures team[i] in Ids(available) {
        assert order[i] in multiset(available);
      }
      team
  }

  /** With enough candidates the team is `required` of them, none carrying more workload
      than a candidate left out. The source sorts with an unspecified tie order; the
      model's sort fixes one. */
  lemma {:induction false} FindBestTeamLeastLoaded(required: nat, available: seq<Employee>, workload: map<string, nat>)
    requires |available| >= required
    ensures exists order :: multiset(order) == multiset(available) && LeastLoadedFirst(order, required, workload)
                            && FindBestTeam(required, available, workload) == IdsOf(order[..required])
  {
    var order := ByWorkload(available, workload);
    assert LeastLoadedFirst(order, required, workload);
  }

  /** The name the source looks up for an id: that of the first roster row carrying it. */
  function NameOf(emps: seq<Employee>, id: string): string
    requires id in Ids(emps)
  {
    if emps[0].id == id then
      emps[0].name
    else
      assert id in Ids(emps[1..]) by {
        var e :| e in emps && e.id == id;
        assert e != emps[0];
      }
      NameOf(emps[1..], id)
  }

  /** The looked-up name belongs to the first roster row with that id. */
  lemma {:induction false} NameOfFirstRow(emps: seq<Employee>, id: string)
    requires id in Ids(emps)
    ensures exists i :: 0 <= i < |emps| && emps[i].id == id && emps[i].name == NameOf(emps, id)
                        && forall k :: 0 <= k < i ==> emps[k].id != id
  {
    if emps[0].id != id {
      assert id in Ids(emps[1..]) by {
        var e :| e in emps && e.id == id;
        assert e != emps[0];
      }
      NameOfFirstRow(emps[1..], id);
      var i :| 0 <= i < |emps[1..]| && emps[1..][i].id == id && emps[1..][i].name == NameOf(emps[1..], id)
               && forall k :: 0 <= k < i ==> emps[1..][k].id != id;
      assert emps[i + 1].id == id && forall k :: 0 <= k < i + 1 ==> emps[k].id != id;
    }
  }

  /** The outcome `_assign_flight` records for a flight, given the available employees. */
  function Decide(f: Flight, available: seq<Employee>, emps: seq<Employee>, workload: map<string, nat>): (a: Assignment)
    requires Ids(available) <= Ids(emps)
    ensures a.flight == f && a.required == TeamSizeNeeded(f.heaviness)
    ensures available == [] ==> a == Failed(f, a.required, NoEmployeesReason)
    ensures 0 < |available| < a.required ==> a == Failed(f, a.required, InsufficientReason(0, a.required))
    ensures |available| >= a.required ==> a.Assigned? && a.teamIds == FindBestTeam(a.required, available, workload)
    ensures a.Assigned? ==> |a.teamNames| == |a.teamIds| == a.required
    ensures a.Assigned? ==> forall i :: 0 <= i < |a.teamIds| ==> a.teamNames[i] == NameOf(emps, a.teamIds[i])
  {
    var required := TeamSizeNeeded(f.heaviness);
    if |available| == 0 then
      Failed(f, required, NoEmployeesReason)
    else
      var team := FindBestTeam(required, available, workload);
      if |team| < required then
        Failed(f, required, InsufficientReason(|team|, required))
      else
        Assigned(f, required, team, seq(|team|, i requires 0 <= i < |team| => NameOf(emps, team[i])))
  }

  /** How many times `id` occurs in `ids`. */
  function Occurrences(ids: seq<string>, id: string): nat {
    if ids == [] then 0 else Occurrences(ids[..|ids| - 1], id) + (if ids[|ids| - 1] == id then 1 else 0)
  }

  lemma {:induction false} OccurrencesPositive(ids: seq<string>, id: string)
    ensures Occurrences(ids, id) > 0 <==> id in ids
  {
    if ids != [] {
      var init := ids[..|ids| - 1];
      assert ids == init + [ids[|ids| - 1]];
      OccurrencesPositive(init, id);
    }
  }

  /** The tracker after one `assign_flight_to_employee(id)`: a known id gets one more
      flight, an unknown one changes nothing. */
  function BumpOne(workload: map<string, nat>, id: string): map<string, nat> {
    if id in workload then workload[id := workload[id] + 1] else workload
  }

  /** The tracker after one `assign_flight_to_employee` call per id, in order. */
  function Bumped(workload: map<string, nat>, ids: seq<string>): (w: map<string, nat>)
    ensures w.Keys == workload.Keys
  {
    if ids == [] then workload else BumpOne(Bumped(workload, ids[..|ids| - 1]), ids[|ids| - 1])
  }

  /** Every known id carries one more flight per time it occurs in `ids`. */
  lemma {:induction false} BumpedCounts(workload: map<string, nat>, ids: seq<string>)
    ensures forall id :: id in workload ==> Bumped(workload, ids)[id] == workload[id] + Occurrences(ids, id)
  {
    if ids != [] {
      BumpedCounts(workload, ids[..|ids| - 1]);
    }
  }

  lemma {:induction false} BumpedSnoc(workload: map<string, nat>, ids: seq<string>, id: string)
    ensures Bumped(workload, ids + [id]) == BumpOne(Bumped(workload, ids), id)
  {
    var s := ids + [id];
    assert s[..|s| - 1] == ids && s[|s| - 1] == id;
  }

  /** The log and the tracker, the state a scheduling pass threads through its flights. */
  datatype Tally = Tally(log: seq<Assignment>, workload: map<string, nat>)

  /** One flight of a pass: decide its outcome, log it, and on success count one more
      flight for every chosen employee. */
  function Step(t: Tally, f: Flight, emps: seq<Employee>): (r: Tally)
    requires Ids(emps) <= t.workload.Keys
    ensures r.workload.Keys == t.workload.Keys
  {
    var available := AvailableAmong(emps, t.workload, f.eta, f.etd);
    assert Ids(available) <= Ids(emps) by {
      forall id | id in Ids(available) ensures id in Ids(emps) {
        var e :| e in available && e.id == id;
      }
    }
    var a := Decide(f, available, emps, t.workload);
    Tally(t.log + [a], if a.Assigned? then Bumped(t.workload, a.teamIds) else t.workload)
  }

  /** `Step` spelled out: the decision on the available employees, logged and counted. */
  lemma {:induction false} StepUnfold(t: Tally, f: Flight, emps: seq<Employee>)
    requires Ids(emps) <= t.workload.Keys
    ensures var available := AvailableAmong(emps, t.workload, f.eta, f.etd);
      Ids(available) <= Ids(emps) &&
      var a := Decide(f, available, emps, t.workload);
      Step(t, f, emps) == Tally(t.log + [a], if a.Assigned? then Bumped(t.workload, a.teamIds) else t.workload)
  {
  }

  /** A whole pass over `flights` in the given order. */
  function Run(flights: seq<Flight>, emps: seq<Employee>, workload: map<string, nat>): (t: Tally)
    requires Ids(emps) <= workload.Keys
    ensures t.workload.Keys == workload.Keys
    ensures |t.log| == |flights|
    ensures forall i :: 0 <= i < |flights| ==> t.log[i].flight == flights[i]
  {
    if flights == [] then
      Tally([], workload)
    else
      var before := Run(flights[..|flights| - 1], emps, workload);
      Step(before, flights[|flights| - 1], emps)
  }

  lemma {:induction false} RunSnoc(flights: seq<Flight>, i: nat, emps: seq<Employee>, workload: map<string, nat>)
    requires Ids(emps) <= workload.Keys && i < |flights|
    ensures Run(flights[..i + 1], emps, workload) == Step(Run(flights[..i], emps, workload), flights[i], emps)
  {
    assert flights[..i + 1][..i] == flights[..i];
  }

  function FlightOrderKey(f: Flight): (int, int) {
    (-(TeamSizeNeeded(f.heaviness) as int), f.eta)
  }

  /** The processing order of `run_scheduling`: a permutation of the flights with the
      larger required team first and, among equal sizes, the earlier arrival first. */
  function SortFlights(flights: seq<Flight>): (r: seq<Flight>)
    ensures multiset(r) == multiset(flights)
    ensures forall i, j :: 0 <= i < j < |r| ==>
      TeamSizeNeeded(r[i].heaviness) > TeamSizeNeeded(r[j].heaviness) ||
      (TeamSizeNeeded(r[i].heaviness) == TeamSizeNeeded(r[j].heaviness) && r[i].eta <= r[j].eta)
  {
    SortBy(flights, FlightOrderKey)
  }

  /** Flights that tie on team size and arrival keep their table order. */
  lemma {:induction false} SortFlightsStable(flights: seq<Flight>, k: Key)
    ensures Filter(SortFlights(flights), KeyIs(FlightOrderKey, k)) == Filter(flights, KeyIs(FlightOrderKey, k))
  {
    SortByStable(flights, FlightOrderKey, k);
  }

  function Successes(log: seq<Assignment>): nat {
    if log == [] then 0 else Successes(log[..|log| - 1]) + (if log[|log| - 1].Assigned? then 1 else 0)
  }

  function Failures(log: seq<Assignment>): nat {
    if log == [] then 0 else Failures(log[..|log| - 1]) + (if log[|log| - 1].Failed? then 1 else 0)
  }

  function PositionsFilled(log: seq<Assignment>): nat {
    if log == [] then 0
    else PositionsFilled(log[..|log| - 1]) + (if log[|log| - 1].Assigned? then |log[|log| - 1].teamIds| else 0)
  }

  /** `unassigned_flights`: the flight numbers of the failures, in log order. */
  function Unassigned(log: seq<Assignment>): seq<int> {
    if log == [] then [] else Unassigned(log[..|log| - 1]) + (if log[|log| - 1].Failed? then [log[|log| - 1].flight.number] else [])
  }

  /** Every record is either a success or a failure, so the two counters add up to the log. */
  lemma {:induction false} CountersAddUp(log: seq<Assignment>)
    ensures Successes(log) + Failures(log) == |log|
  {
    if log != [] {
      CountersAddUp(log[..|log| - 1]);
    }
  }

  /** Appending a record moves exactly its own counter. */
  lemma {:induction false} LogAppend(log: seq<Assignment>, a: Assignment)
    ensures Successes(log + [a]) == Successes(log) + (if a.Assigned? then 1 else 0)
    ensures Failures(log + [a]) == Failures(log) + (if a.Failed? then 1 else 0)
    ensures PositionsFilled(log + [a]) == PositionsFilled(log) + (if a.Assigned? then |a.teamIds| else 0)
    ensures Unassigned(log + [a]) == Unassigned(log) + (if a.Failed? then [a.flight.number] else [])
    ensures WellFormed(log + [a]) <==> WellFormed(log) && (a.Assigned? ==> |a.teamNames| == |a.teamIds|)
  {
    assert (log + [a])[..|log|] == log;
    if !WellFormed(log) {
      var i :| 0 <= i < |log| && log[i].Assigned? && |log[i].teamNames| != |log[i].teamIds|;
      assert (log + [a])[i] == log[i];
    }
  }

  /** Every success names one employee per position. */
  ghost predicate WellFormed(log: seq<Assignment>) {
    forall i :: 0 <= i < |log| && log[i].Assigned? ==> |log[i].teamNames| == |log[i].teamIds|
  }

  /** What `get_schedule_by_employee` keeps per employee: the name from the first
      success listing them, and one flight per listing. */
  datatype EmployeeSchedule = EmployeeSchedule(name: string, flights: seq<Flight>)

  /** One position of one success: who, under which name, on which flight. */
  datatype Entry = Entry(id: string, name: string, flight: Flight)

  function AssignmentEntries(a: Assignment): (es: seq<Entry>)
    requires a.Assigned? ==> |a.teamNames| == |a.teamIds|
    ensures a.Failed? ==> es == []
    ensures a.Assigned? ==> |es| == |a.teamIds|
    ensures a.Assigned? ==> forall i :: 0 <= i < |es| ==> es[i] == Entry(a.teamIds[i], a.teamNames[i], a.flight)
  {
    match a
    case Failed(_, _, _) => []
    case Assigned(f, _, ids, names) => seq(|ids|, i requires 0 <= i < |ids| => Entry(ids[i], names[i], f))
  }

  /** The positions of all successes, in log order. */
  function Entries(log: seq<Assignment>): seq<Entry>
    requires WellFormed(log)
  {
    if log == [] then [] else Entries(log[..|log| - 1]) + AssignmentEntries(log[|log| - 1])
  }

  /** Records one position: a first listing creates the employee's entry with their name,
      every listing appends the flight. */
  function AddEntry(m: map<string, EmployeeSchedule>, e: Entry): map<string, EmployeeSchedule> {
    if e.id in m then m[e.id := m[e.id].(flights := m[e.id].flights + [e.flight])]
    else m[e.id := EmployeeSchedule(e.name, [e.flight])]
  }

  function Group(es: seq<Entry>): map<string, EmployeeSchedule> {
    if es == [] then map[] else AddEntry(Group(es[..|es| - 1]), es[|es| - 1])
  }

  /** The flights of the entries for `id`, in order. */
  function FlightsFor(es: seq<Entry>, id: string): seq<Flight> {
    if es == [] then []
    else FlightsFor(es[..|es| - 1], id) + (if es[|es| - 1].id == id then [es[|es| - 1].flight] else [])
  }

  /** `j` is the first position of an entry for `id`. */
  ghost predicate FirstEntry(es: seq<Entry>, id: string, j: int) {
    0 <= j < |es| && es[j].id == id && forall k :: 0 <= k < j ==> es[k].id != id
  }

  lemma {:induction false} GroupSnoc(es: seq<Entry>, e: Entry)
    ensures Group(es + [e]) == AddEntry(Group(es), e)
  {
    assert (es + [e])[..|es|] == es;
  }

  /** Grouping lists exactly the employees with an entry. */
  lemma {:induction false} GroupKeys(es: seq<Entry>)
    ensures forall id :: id in Group(es) <==> exists j :: 0 <= j < |es| && es[j].id == id
  {
    if es != [] {
      var init := es[..|es| - 1];
      GroupKeys(init);
      forall id ensures id in Group(es) <==> exists j :: 0 <= j < |es| && es[j].id == id {
        if id in Group(init) {
          var j :| 0 <= j < |init| && init[j].id == id;
          assert es[j].id == id;
        }
        if exists j :: 0 <= j < |es| && es[j].id == id {
          var j :| 0 <= j < |es| && es[j].id == id;
          if j < |init| { assert init[j].id == id; }
        }
      }
    }
  }

  /** Grouping gives each listed employee the flights of their entries, in order. */
  lemma {:induction false} GroupFlights(es: seq<Entry>)
    ensures forall id :: id in Group(es) ==> Group(es)[id].flights == FlightsFor(es, id)
  {
    if es != [] {
      var init := es[..|es| - 1];
      var last := es[|es| - 1];
      GroupFlights(init);
      GroupKeys(init);
      forall id | id in Group(es) ensures Group(es)[id].flights == FlightsFor(es, id) {
        if id != last.id {
          assert Group(es)[id] == Group(init)[id];
        } else if id !in Group(init) {
          FlightsForNone(init, id);
        }
      }
    }
  }

  /** Grouping keeps for each listed employee the name of their first entry. */
  lemma {:induction false} GroupNames(es: seq<Entry>)
    ensures forall id :: id in Group(es) ==> exists j :: FirstEntry(es, id, j) && Group(es)[id].name == es[j].name
  {
    if es != [] {
      var init, last := es[..|es| - 1], es[|es| - 1];
      GroupNames(init);
      GroupKeys(init);
      assert es == init + [last];
      assert Group(es) == AddEntry(Group(init), last);
      forall id | id in Group(es) ensures exists j :: FirstEntry(es, id, j) && Group(es)[id].name == es[j].name {
        if id in Group(init) {
          var j :| FirstEntry(init, id, j) && Group(init)[id].name == init[j].name;
          assert Group(es)[id].name == Group(init)[id].name;
          FirstEntryExtends(init, last, id, j);
        } else {
          assert id == last.id;
          assert forall k :: 0 <= k < |init| ==> es[k] == init[k];
          assert FirstEntry(es, id, |es| - 1);
        }
      }
    }
  }

  lemma {:induction false} FirstEntryExtends(es: seq<Entry>, e: Entry, id: string, j: int)
    requires FirstEntry(es, id, j)
    ensures FirstEntry(es + [e], id, j) && (es + [e])[j] == es[j]
  {
  }

  lemma {:induction false} FlightsForNone(es: seq<Entry>, id: string)
    requires forall k :: 0 <= k < |es| ==> es[k].id != id
    ensures FlightsFor(es, id) == []
  {
    if es != [] {
      FlightsForNone(es[..|es| - 1], id);
    }
  }

  /** `Repeat(x, n)`: `n` copies of `x`. */
  function Repeat<T>(x: T, n: nat): (r: seq<T>)
    ensures |r| == n && forall i :: 0 <= i < n ==> r[i] == x
  {
    if n == 0 then [] else Repeat(x, n - 1) + [x]
  }

  /** The flights of the successes that list `id`, in log order, one copy per listing. */
  function ListedFlights(log: seq<Assignment>, id: string): seq<Flight> {
    if log == [] then []
    else
      var a := log[|log| - 1];
      ListedFlights(log[..|log| - 1], id) + (if a.Assigned? then Repeat(a.flight, Occurrences(a.teamIds, id)) else [])
  }

  /** Whether some success lists `id`. */
  ghost predicate Listed(log: seq<Assignment>, id: string) {
    exists i :: 0 <= i < |log| && log[i].Assigned? && id in log[i].teamIds
  }

  lemma {:induction false} FlightsForAppend(xs: seq<Entry>, ys: seq<Entry>, id: string)
    ensures FlightsFor(xs + ys, id) == FlightsFor(xs, id) + FlightsFor(ys, id)
  {
    if ys != [] {
      assert (xs + ys)[..|xs + ys| - 1] == xs + ys[..|ys| - 1];
      FlightsForAppend(xs, ys[..|ys| - 1], id);
    } else {
      assert xs + ys == xs;
    }
  }

  lemma {:induction false} FlightsForTeam(ids: seq<string>, names: seq<string>, f: Flight, id: string, n: nat)
    requires |names| == |ids| && n <= |ids|
    ensures FlightsFor(AssignmentEntries(Assigned(f, 0, ids, names))[..n], id) == Repeat(f, Occurrences(ids[..n], id))
  {
    if n > 0 {
      var es := AssignmentEntries(Assigned(f, 0, ids, names));
      assert es[..n][..n - 1] == es[..n - 1];
      assert ids[..n] == ids[..n - 1] + [ids[n - 1]];
      FlightsForTeam(ids, names, f, id, n - 1);
    }
  }

  /** The entries of a log, read per employee, are that employee's listed flights. */
  lemma {:induction false} EntriesListFlights(log: seq<Assignment>, id: string)
    requires WellFormed(log)
    ensures FlightsFor(Entries(log), id) == ListedFlights(log, id)
  {
    if log != [] {
      var init := log[..|log| - 1];
      var a := log[|log| - 1];
      assert WellFormed(init);
      EntriesListFlights(init, id);
      var es := AssignmentEntries(a);
      FlightsForAppend(Entries(init), es, id);
      if a.Assigned? {
        FlightsForTeam(a.teamIds, a.teamNames, a.flight, id, |a.teamIds|);
        assert es[..|es|] == es && a.teamIds[..|a.teamIds|] == a.teamIds;
        assert AssignmentEntries(Assigned(a.flight, 0, a.teamIds, a.teamNames)) == es;
      }
    }
  }

  /** Some entry is for `id` exactly when the entries give `id` a flight. */
  lemma {:induction false} FlightsForNonEmpty(es: seq<Entry>, id: string)
    ensures FlightsFor(es, id) != [] <==> exists j :: 0 <= j < |es| && es[j].id == id
  {
    if es != [] {
      var init := es[..|es| - 1];
      FlightsForNonEmpty(init, id);
      if exists j :: 0 <= j < |init| && init[j].id == id {
        var j :| 0 <= j < |init| && init[j].id == id;
        assert es[j].id == id;
      }
      if exists j :: 0 <= j < |es| && es[j].id == id {
        var j :| 0 <= j < |es| && es[j].id == id;
        if j < |init| { assert init[j].id == id; }
      }
    }
  }

  /** Some success lists `id` exactly when the log gives `id` a flight. */
  lemma {:induction false} ListedFlightsNonEmpty(log: seq<Assignment>, id: string)
    ensures ListedFlights(log, id) != [] <==> Listed(log, id)
  {
    if log != [] {
      var init := log[..|log| - 1];
      ListedFlightsNonEmpty(init, id);
      if log[|log| - 1].Assigned? {
        OccurrencesPositive(log[|log| - 1].teamIds, id);
      }
      if Listed(init, id) {
        var i :| 0 <= i < |init| && init[i].Assigned? && id in init[i].teamIds;
        assert log[i] == init[i];
      }
      if Listed(log, id) {
        var i :| 0 <= i < |log| && log[i].Assigned? && id in log[i].teamIds;
        if i < |init| { assert init[i] == log[i]; }
      }
    }
  }

  lemma {:induction false} EntriesSnoc(log: seq<Assignment>, k: nat)
    requires WellFormed(log) && k < |log|
    ensures WellFormed(log[..k]) && WellFormed(log[..k + 1])
    ensures Entries(log[..k + 1]) == Entries(log[..k]) + AssignmentEntries(log[k])
  {
    assert log[..k + 1][..k] == log[..k];
  }

  /** The per-employee schedule of a log lists exactly the employees some success lists,
      each with their listed flights in log order. */
  lemma {:induction false} ScheduleSpec(log: seq<Assignment>)
    requires WellFormed(log)
    ensures forall id :: id in Group(Entries(log)) <==> Listed(log, id)
    ensures forall id :: id in Group(Entries(log)) ==> Group(Entries(log))[id].flights == ListedFlights(log, id)
  {
    var es := Entries(log);
    GroupKeys(es);
    GroupFlights(es);
    forall id ensures FlightsFor(es, id) == ListedFlights(log, id)
      && ((exists j :: 0 <= j < |es| && es[j].id == id) <==> Listed(log, id))
    {
      EntriesListFlights(log, id);
      FlightsForNonEmpty(es, id);
      ListedFlightsNonEmpty(log, id);
    }
  }

  class Scheduler {
    const employeeHandler: EmployeeHandler
    const flightHandler: FlightHandler
    /** `assignments`: one record per processed flight. */
    var assignments: seq<Assignment>
    /** The fields of `scheduling_results`. */
    var successful: nat
    var failed: nat
    var positionsFilled: nat
    var unassigned: seq<int>

    /** The counters are those of the log, and the employee tracker is consistent. */
    ghost predicate Valid()
      reads this, employeeHandler
    {
      && employeeHandler.Valid()
      && WellFormed(assignments)
      && successful == Successes(assignments)
      && failed == Failures(assignments)
      && positionsFilled == PositionsFilled(assignments)
      && unassigned == Unassigned(assignments)
    }

    constructor (employeeHandler: EmployeeHandler, flightHandler: FlightHandler)
      requires employeeHandler.Valid()
      ensures Valid() && assignments == []
      ensures this.employeeHandler == employeeHandler && this.flightHandler == flightHandler
    {
      this.employeeHandler := employeeHandler;
      this.flightHandler := flightHandler;
      assignments := [];
      successful, failed, positionsFilled, unassigned := 0, 0, 0, [];
    }

    /** `_record_failed_assignment`. */
    method RecordFailedAssignment(f: Flight, reason: string)
      requires Valid()
      modifies this
      ensures Valid()
      ensures assignments == old(assignments) + [Failed(f, TeamSizeNeeded(f.heaviness), reason)]
    {
      LogAppend(assignments, Failed(f, TeamSizeNeeded(f.heaviness), reason));
      assignments := assignments + [Failed(f, TeamSizeNeeded(f.heaviness), reason)];
      failed := failed + 1;
      unassigned := unassigned + [f.number];
    }

    /** The success branch of `_assign_flight`: log the record, count one more success
        and one filled position per chosen employee. */
    method RecordSuccessfulAssignment(a: Assignment)
      requires Valid() && a.Assigned? && |a.teamNames| == |a.teamIds|
      modifies this
      ensures Valid() && assignments == old(assignments) + [a]
    {
      LogAppend(assignments, a);
      assignments := assignments + [a];
      successful := successful + 1;
      positionsFilled := positionsFilled + |a.teamIds|;
    }

    /** `_assign_flight`: one flight's step of the pass (without a roster nobody is available). */
    method AssignFlight(f: Flight)
      requires Valid()
      modifies this, employeeHandler
      ensures Valid() && employeeHandler.employees == old(employeeHandler.employees)
      ensures old(employeeHandler.employees).None? ==>
        assignments == old(assignments) + [Failed(f, TeamSizeNeeded(f.heaviness), NoEmployeesReason)]
        && employeeHandler.workload == old(employeeHandler.workload)
      ensures old(employeeHandler.employees).Some? ==>
        Tally(assignments, employeeHandler.workload)
        == Step(Tally(old(assignments), old(employeeHandler.workload)), f, old(employeeHandler.employees).value)
    {
      ghost var t0 := Tally(assignments, employeeHandler.workload);
      var required := TeamSizeNeeded(f.heaviness);
      var available := employeeHandler.FindAvailableEmployees(f.eta, f.etd);
      if |available| == 0 {
        RecordFailedAssignment(f, NoEmployeesReason);
        if old(employeeHandler.employees).Some? {
          StepUnfold(t0, f, old(employeeHandler.employees).value);
        }
        return;
      }
      var emps := employeeHandler.employees.value;
      assert Ids(available) <= Ids(emps) by {
        forall id | id in Ids(available) ensures id in Ids(emps) {
          var e :| e in available && e.id == id;
        }
      }
      var team := FindBestTeam(required, available, employeeHandler.workload);
      if |team| < required {
        RecordFailedAssignment(f, InsufficientReason(|team|, required));
        StepUnfold(t0, f, emps);
        return;
      }
      CountTeamFlights(team);
      var names := seq(|team|, i requires 0 <= i < |team| => NameOf(emps, team[i]));
      var a := Assigned(f, required, team, names);
      assert a == Decide(f, available, emps, t0.workload);
      RecordSuccessfulAssignment(a);
      StepUnfold(t0, f, emps);
    }

    /** The loop of `_assign_flight` over a chosen team: one more flight for each id, in order. */
    method CountTeamFlights(team: seq<string>)
      requires employeeHandler.Valid()
      modifies employeeHandler
      ensures employeeHandler.Valid() && employeeHandler.employees == old(employeeHandler.employees)
      ensures employeeHandler.workload == Bumped(old(employeeHandler.workload), team)
    {
      var k := 0;
      while k < |team|
        invariant 0 <= k <= |team|
        invariant employeeHandler.Valid() && employeeHandler.employees == old(employeeHandler.employees)
        invariant employeeHandler.workload == Bumped(old(employeeHandler.workload), team[..k])
      {
        var _ := employeeHandler.AssignFlightToEmployee(team[k]);
        BumpedSnoc(old(employeeHandler.workload), team[..k], team[k]);
        assert team[..k] + [team[k]] == team[..k + 1];
        k := k + 1;
      }
      assert team[..k] == team;
    }

    /** The reset at the top of `run_scheduling`: an empty log and zero counters. */
    method ClearResults()
      requires employeeHandler.Valid()
      modifies this
      ensures Valid() && assignments == []
    {
      assignments := [];
      successful, failed, positionsFilled, unassigned := 0, 0, 0, [];
    }

    /** `run_scheduling`: clears the log and the counters, fails without employees or
        flights, and otherwise resets the tracker and runs one pass in processing order.
        With both loaded, the source raises on an empty flight table (the time-range
        report and the summary's percentages) and on an empty roster (the utilisation
        column of an empty workload summary), so callers must supply both non-empty. */
    method RunScheduling() returns (ok: bool)
      requires Valid()
      requires employeeHandler.employees.Some? && flightHandler.flights.Some? ==>
        |flightHandler.flights.value| > 0 && |employeeHandler.employees.value| > 0
      modifies this, employeeHandler
      ensures Valid() && employeeHandler.employees == old(employeeHandler.employees)
      ensures old(employeeHandler.employees).None? || flightHandler.flights.None? ==>
        !ok && assignments == [] && employeeHandler.workload == old(employeeHandler.workload)
      ensures old(employeeHandler.employees).Some? && flightHandler.flights.Some? ==>
        var emps := old(employeeHandler.employees).value;
        var t := Run(SortFlights(flightHandler.flights.value), emps, ZeroWorkload(emps));
        && assignments == t.log && employeeHandler.workload == t.workload
        && ok && |assignments| == |flightHandler.flights.value|
    {
      ClearResults();
      if employeeHandler.employees.None? {
        return false;
      }
      if flightHandler.flights.None? {
        return false;
      }
      employeeHandler.ResetWorkload();
      var emps := employeeHandler.employees.value;
      var flights := SortFlights(flightHandler.flights.value);
      var i := 0;
      while i < |flights|
        invariant 0 <= i <= |flights|
        invariant Valid() && employeeHandler.employees == Some(emps)
        invariant Tally(assignments, employeeHandler.workload) == Run(flights[..i], emps, ZeroWorkload(emps))
      {
        RunSnoc(flights, i, emps, ZeroWorkload(emps));
        AssignFlight(flights[i]);
        i := i + 1;
      }
      assert flights[..i] == flights;
      ok := |assignments| > 0;
    }

    /** `get_schedule_by_employee`: per employee listed by a success, their name and
        their flights in log order. */
    method GetScheduleByEmployee() returns (schedules: map<string, EmployeeSchedule>)
      requires Valid()
      ensures schedules == Group(Entries(assignments))
      ensures forall id :: id in schedules <==> Listed(assignments, id)
      ensures forall id :: id in schedules ==> schedules[id].flights == ListedFlights(assignments, id)
    {
      schedules := map[];
      var k := 0;
      while k < |assignments|
        invariant 0 <= k <= |assignments|
        invariant WellFormed(assignments[..k]) && schedules == Group(Entries(assignments[..k]))
      {
        EntriesSnoc(assignments, k);
        schedules := AddAssignment(schedules, assignments[k], Entries(assignments[..k]));
        k := k + 1;
      }
      assert assignments[..k] == assignments;
      ScheduleSpec(assignments);
    }
  }

  /** The inner loop of `get_schedule_by_employee`: one success's positions, in order. */
  method AddAssignment(schedules: map<string, EmployeeSchedule>, a: Assignment, ghost done: seq<Entry>)
    returns (r: map<string, EmployeeSchedule>)
    requires a.Assigned? ==> |a.teamNames| == |a.teamIds|
    requires schedules == Group(done)
    ensures r == Group(done + AssignmentEntries(a))
  {
    r := schedules;
    if a.Assigned? {
      var i := 0;
      assert done + AssignmentEntries(a)[..0] == done;
      while i < |a.teamIds|
        invariant 0 <= i <= |a.teamIds|
        invariant r == Group(done + AssignmentEntries(a)[..i])
      {
        var e := Entry(a.teamIds[i], a.teamNames[i], a.flight);
        assert AssignmentEntries(a)[..i + 1] == AssignmentEntries(a)[..i] + [e];
        GroupSnoc(done + AssignmentEntries(a)[..i], e);
        assert done + AssignmentEntries(a)[..i] + [e] == done + AssignmentEntries(a)[..i + 1];
        r := AddEntry(r, e);
        i := i + 1;
      }
      assert AssignmentEntries(a)[..i] == AssignmentEntries(a);
    } else {
      assert done + AssignmentEntries(a) == done;
    }
  }
}
