/** The employee roster and the per-employee workload tracker
    (`EmployeeHandler`, src/employee_handler.py). Shift times are integer minutes. */
module Employees {
  import opened Text
  import opened Sequences

  /** One loaded employee: id, display name, shift start and end, daily flight capacity. */
  datatype Employee = Employee(id: string, name: string, start: int, end: int, maxFlights: int)

  /** One roster row after column renaming, before cleaning. `None` is a missing name
      or a start/end that failed to parse; `id` is read only when the file has an id column. */
  datatype RawRow = RawRow(name: Option<string>, id: string, start: Option<int>, end: Option<int>, maxFlights: int)

  /** The marker that blanks out a roster row, matched in any case. */
  const EmptyMarker: string := "EMPTY"

  /** A row survives cleaning: it has a name, the name does not contain the blank
      marker (in any case), and both shift times parsed. */
  predicate KeepRow(r: RawRow) {
    r.name.Some? && !ContainsIgnoringCase(r.name.value, EmptyMarker) && r.start.Some? && r.end.Some?
  }

  /** The row filters of `load_employees` (name present, no blank marker, times parsed);
      applied one after another they keep exactly the rows passing all three. */
  function CleanRows(rows: seq<RawRow>): (r: seq<RawRow>)
    ensures |r| <= |rows|
    ensures forall row :: row in r <==> row in rows && KeepRow(row)
    ensures forall i :: 0 <= i < |r| ==> r[i].name.Some? && r[i].start.Some? && r[i].end.Some?
    ensures forall i :: 0 <= i < |r| ==> !ContainsIgnoringCase(r[i].name.value, EmptyMarker)
  {
    var r := Filter(rows, KeepRow);
    assert forall i :: 0 <= i < |r| ==> r[i] in r;
    r
  }

  /** The id given to the employee at 0-based position `i` when the file has no id column:
      'EMP' followed by the 1-based position, zero-padded to three digits. */
  function GeneratedId(i: nat): (id: string)
    ensures |id| >= 6 && id[..3] == "EMP"
    ensures forall k :: 3 <= k < |id| ==> IsDigit(id[k])
  {
    "EMP" + ZFill(Decimal(i + 1), 3)
  }

  /** The number a generated id encodes is the 1-based position it was made for. */
  lemma {:induction false} GeneratedIdRoundTrip(i: nat)
    ensures ParseDecimal(GeneratedId(i)[3..]) == i + 1
  {
    assert GeneratedId(i)[3..] == ZFill(Decimal(i + 1), 3);
    ZFillDecimalRoundTrip(i + 1, 3);
  }

  /** Generated ids never collide. */
  lemma {:induction false} GeneratedIdsDistinct(i: nat, j: nat)
    requires i != j
    ensures GeneratedId(i) != GeneratedId(j)
  {
    GeneratedIdRoundTrip(i);
    GeneratedIdRoundTrip(j);
  }

  /** Cleaned rows become employees; ids come from the file or are generated by position. */
  function ToEmployees(rows: seq<RawRow>, hasIdColumn: bool): (emps: seq<Employee>)
    requires forall i :: 0 <= i < |rows| ==> rows[i].name.Some? && rows[i].start.Some? && rows[i].end.Some?
    ensures |emps| == |rows|
    ensures forall i :: 0 <= i < |rows| ==>
      && emps[i].name == rows[i].name.value && emps[i].start == rows[i].start.value
      && emps[i].end == rows[i].end.value && emps[i].maxFlights == rows[i].maxFlights
      && emps[i].id == (if hasIdColumn then rows[i].id else GeneratedId(i))
  {
    seq(|rows|, i requires 0 <= i < |rows| =>
      Employee(if hasIdColumn then rows[i].id else GeneratedId(i),
               rows[i].name.value, rows[i].start.value, rows[i].end.value, rows[i].maxFlights))
  }

  /** Without an id column every loaded employee has an id of its own. */
  lemma {:induction false} GeneratedRosterIdsUnique(rows: seq<RawRow>)
    requires forall i :: 0 <= i < |rows| ==> rows[i].name.Some? && rows[i].start.Some? && rows[i].end.Some?
    ensures UniqueIds(ToEmployees(rows, false))
  {
    var emps := ToEmployees(rows, false);
    forall i, j | 0 <= i < j < |emps| ensures emps[i].id != emps[j].id {
      GeneratedIdsDistinct(i, j);
    }
  }

  /** The ids of a list of employees, position by position (`[m['employee_id'] for m in ...]`). */
  function IdsOf(emps: seq<Employee>): (ids: seq<string>)
    ensures |ids| == |emps| && forall i :: 0 <= i < |emps| ==> ids[i] == emps[i].id
  {
    seq(|emps|, i requires 0 <= i < |emps| => emps[i].id)
  }

  /** The names of a list of employees, position by position. */
  function NamesOf(emps: seq<Employee>): (names: seq<string>)
    ensures |names| == |emps| && forall i :: 0 <= i < |emps| ==> names[i] == emps[i].name
  {
    seq(|emps|, i requires 0 <= i < |emps| => emps[i].name)
  }

  function Ids(emps: seq<Employee>): set<string> {
    set e | e in emps :: e.id
  }

  ghost predicate UniqueIds(emps: seq<Employee>) {
    forall i, j :: 0 <= i < j < |emps| ==> emps[i].id != emps[j].id
  }

  /** The tracker as loading (and every reset) builds it: one zero entry per employee id. */
  function ZeroWorkload(emps: seq<Employee>): (w: map<string, nat>)
    ensures w.Keys == Ids(emps)
    ensures forall id :: id in w ==> w[id] == 0
  {
    map id | id in Ids(emps) :: 0
  }

  /** The capacity the source looks up for an id: that of the first row carrying it. */
  function MaxFlightsOf(emps: seq<Employee>, id: string): (m: int)
    requires id in Ids(emps)
    ensures exists i :: 0 <= i < |emps| && emps[i].id == id && emps[i].maxFlights == m
                        && forall k :: 0 <= k < i ==> emps[k].id != id
  {
    if emps[0].id == id then
      emps[0].maxFlights
    else
      assert id in Ids(emps[1..]) by {
        var e :| e in emps && e.id == id;
        assert e != emps[0];
      }
      var m := MaxFlightsOf(emps[1..], id);
      ghost var i :| 0 <= i < |emps[1..]| && emps[1..][i].id == id && emps[1..][i].maxFlights == m
                     && forall k :: 0 <= k < i ==> emps[1..][k].id != id;
      assert emps[i + 1].id == id && forall k :: 0 <= k < i + 1 ==> emps[k].id != id;
      m
  }

  /** With unique ids the looked-up capacity is the employee's own. */
  lemma {:induction false} MaxFlightsOfOwn(emps: seq<Employee>, i: nat)
    requires UniqueIds(emps) && i < |emps|
    ensures MaxFlightsOf(emps, emps[i].id) == emps[i].maxFlights
  {
    assert emps[i].id in Ids(emps);
    var m := MaxFlightsOf(emps, emps[i].id);
    var j :| 0 <= j < |emps| && emps[j].id == emps[i].id && emps[j].maxFlights == m
             && forall k :: 0 <= k < j ==> emps[k].id != emps[i].id;
    assert j == i;
  }

  /** The availability test of `find_available_employees`: the shift covers the whole
      flight and the employee still has capacity left. */
  predicate AvailableFor(e: Employee, emps: seq<Employee>, workload: map<string, nat>, flightStart: int, flightEnd: int)
    requires e.id in Ids(emps) && e.id in workload
  {
    e.start <= flightStart && e.end >= flightEnd && workload[e.id] < MaxFlightsOf(emps, e.id)
  }

  /** The employees whose shift covers `[flightStart, flightEnd]` and who are below their
      capacity, in roster order and with every copy of a repeated row. */
  function AvailableAmong(emps: seq<Employee>, workload: map<string, nat>, flightStart: int, flightEnd: int): (r: seq<Employee>)
    requires Ids(emps) <= workload.Keys
    ensures forall e :: e in r <==> e in emps && AvailableFor(e, emps, workload, flightStart, flightEnd)
    ensures |r| <= |emps|
  {
    Filter(emps, AvailabilityTest(emps, workload, flightStart, flightEnd))
  }

  function AvailabilityTest(emps: seq<Employee>, workload: map<string, nat>, flightStart: int, flightEnd: int): Employee -> bool {
    (e: Employee) =>
      e.start <= flightStart && e.end >= flightEnd &&
      (e.id in Ids(emps) && e.id in workload && workload[e.id] < MaxFlightsOf(emps, e.id))
  }

  /** A repeated roster row is either kept in every copy or dropped in every copy. */
  lemma {:induction false} AvailableKeepsCopies(emps: seq<Employee>, workload: map<string, nat>, flightStart: int, flightEnd: int)
    requires Ids(emps) <= workload.Keys
    ensures var r := AvailableAmong(emps, workload, flightStart, flightEnd);
      forall e :: multiset(r)[e] == if e in r then multiset(emps)[e] else 0
  {
    FilterCounts(emps, AvailabilityTest(emps, workload, flightStart, flightEnd));
  }

  class EmployeeHandler {
    /** `employees_df`: `None` until a roster has been loaded. */
    var employees: Option<seq<Employee>>
    /** `workload_tracker`: flights assigned so far, per employee id. */
    var workload: map<string, nat>

    /** The tracker has exactly one entry per loaded id (and none before loading). */
    ghost predicate Valid()
      reads this
    {
      workload.Keys == (if employees.Some? then Ids(employees.value) else {})
    }

    constructor ()
      ensures Valid() && employees == None && workload == map[]
    {
      employees := None;
      workload := map[];
    }

    /** The row cleaning and id generation of `load_employees`. Reading the file, renaming
        columns, parsing dates and estimating capacity happen before `rows`. */
    method LoadEmployees(rows: seq<RawRow>, hasIdColumn: bool) returns (ok: bool)
      modifies this
      ensures Valid() && ok
      ensures employees == Some(ToEmployees(CleanRows(rows), hasIdColumn))
      ensures workload == ZeroWorkload(employees.value)
    {
      var emps := ToEmployees(CleanRows(rows), hasIdColumn);
      employees := Some(emps);
      workload := ZeroWorkload(emps);
      ok := true;
    }

    /** `find_available_employees`: nothing before a roster is loaded, otherwise
        `AvailableAmong` on the roster and the tracker. */
    function FindAvailableEmployees(flightStart: int, flightEnd: int): (r: seq<Employee>)
      reads this
      requires Valid()
      ensures employees.None? ==> r == []
      ensures employees.Some? ==> r == AvailableAmong(employees.value, workload, flightStart, flightEnd)
    {
      match employees
      case None => []
      case Some(emps) => AvailableAmong(emps, workload, flightStart, flightEnd)
    }

    /** `assign_flight_to_employee`: one more flight for a known id. */
    method AssignFlightToEmployee(id: string) returns (ok: bool)
      requires Valid()
      modifies this
      ensures Valid() && employees == old(employees)
      ensures ok <==> id in old(workload)
      ensures ok ==> workload == old(workload)[id := old(workload)[id] + 1]
      ensures !ok ==> workload == old(workload)
    {
      if id in workload {
        workload := workload[id := workload[id] + 1];
        ok := true;
      } else {
        ok := false;
      }
    }

    /** `reset_workload`: every loaded employee back to zero flights. */
    method ResetWorkload()
      requires employees.Some?
      modifies this
      ensures Valid() && employees == old(employees)
      ensures workload == ZeroWorkload(employees.value)
    {
      workload := ZeroWorkload(employees.value);
    }
  }
}
