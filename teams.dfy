/** The team registry (`TeamManager`, src/team_manager.py): formation of up to four
    labelled teams from the staff on shift, availability, flight bookkeeping, change
    detection into the notification ledger, approved changes and manual swaps.
    The teams dictionary is a sequence in the dictionary's order: a new name is
    appended, re-assigning an existing name keeps its place. Times are integer minutes. */
module Teams {
  import opened Text
  import opened Sequences
  import opened Employees
  import opened Flights
  import opened Notifications

  /** `team_names`: the labels formation hands out, in order. */
  const TeamLabels: seq<string> := ["Alpha", "Bravo", "Charlie", "Delta"]
  /** The sizes `form_initial_teams` hands to the distribution. */
  const IdealSize: int := 4
  const MinSize: int := 3
  const CriticalMin: int := 2
  /** Default rest between two flights of one team, in minutes. */
  const DefaultMinBreak: int := 15
  /** A member is leaving when the shift ends at most this many minutes ahead. */
  const DepartureWindow: int := 30
  /** An employee is arriving when the shift started at most this many minutes ago. */
  const ArrivalWindow: int := 5
  /** Teams below this size are suggested to arriving employees. */
  const OptimalSize: int := 4
  const NoStaffMessage: string := "No employees available at shift start"
  /** The team name a join notification carries when no team is suggested. */
  const NoSuggestion: string := "TBD"

  /** One team record: its members with their derived id and name lists, the flight
      counter, the flight it is on, when its last flight ended, and its declared size. */
  datatype Team = Team(
    name: string, members: seq<Employee>, memberIds: seq<string>, memberNames: seq<string>,
    flightCount: nat, currentFlight: Option<Flight>, lastFlightEnd: Option<int>, size: nat)

  /** `member_ids` and `member_names` are the ids and names of `members`. */
  ghost predicate Mirrors(team: Team) {
    team.memberIds == IdsOf(team.members) && team.memberNames == NamesOf(team.members)
  }

  /** The team with a new member list and its derived lists recomputed. */
  function WithMembers(team: Team, members: seq<Employee>): (r: Team)
    ensures Mirrors(r) && r.members == members && r.name == team.name && r.size == team.size
    ensures r.flightCount == team.flightCount && r.currentFlight == team.currentFlight
    ensures r.lastFlightEnd == team.lastFlightEnd
  {
    team.(members := members, memberIds := IdsOf(members), memberNames := NamesOf(members))
  }

  // ----- the registry as a dictionary -----

  /** Where the team called `name` sits, if there is one. */
  function Find(teams: seq<Team>, name: string): (r: Option<nat>)
    ensures r.Some? ==> r.value < |teams| && teams[r.value].name == name
    ensures r.None? ==> forall i :: 0 <= i < |teams| ==> teams[i].name != name
  {
    if teams == [] then None
    else if teams[|teams| - 1].name == name then Some(|teams| - 1)
    else Find(teams[..|teams| - 1], name)
  }

  /** `self.teams.get(name)`. */
  function Lookup(teams: seq<Team>, name: string): Option<Team> {
    match Find(teams, name)
    case None => None
    case Some(i) => Some(teams[i])
  }

  ghost predicate DistinctNames(teams: seq<Team>) {
    forall i, j :: 0 <= i < j < |teams| ==> teams[i].name != teams[j].name
  }

  /** What every registry state satisfies: one entry per name, derived lists up to date. */
  ghost predicate Registry(teams: seq<Team>) {
    DistinctNames(teams) && forall i :: 0 <= i < |teams| ==> Mirrors(teams[i])
  }

  ghost predicate SameNames(a: seq<Team>, b: seq<Team>) {
    |a| == |b| && forall i :: 0 <= i < |a| ==> a[i].name == b[i].name
  }

  /** Lookup depends on the names alone. */
  lemma {:induction false} FindByNames(a: seq<Team>, b: seq<Team>, name: string)
    requires SameNames(a, b)
    ensures Find(a, name) == Find(b, name)
  {
    if a != [] {
      assert SameNames(a[..|a| - 1], b[..|b| - 1]);
      FindByNames(a[..|a| - 1], b[..|b| - 1], name);
    }
  }

  /** Replacing one entry by a record with the same name keeps the registry well formed. */
  lemma {:induction false} ReplaceKeepsRegistry(teams: seq<Team>, i: nat, team: Team)
    requires Registry(teams) && i < |teams| && team.name == teams[i].name && Mirrors(team)
    ensures Registry(teams[i := team]) && SameNames(teams[i := team], teams)
  {
  }

  /** `self.teams[team.name] = team`: replaces the entry of that name in place, or appends. */
  function Upsert(teams: seq<Team>, team: Team): seq<Team> {
    match Find(teams, team.name)
    case Some(i) => teams[i := team]
    case None => teams + [team]
  }

  /** After the assignment the name finds the new record, and every other name what it found before. */
  lemma {:induction false} UpsertSpec(teams: seq<Team>, team: Team)
    requires Registry(teams) && Mirrors(team)
    ensures Registry(Upsert(teams, team))
    ensures Lookup(Upsert(teams, team), team.name) == Some(team)
    ensures forall name :: name != team.name ==> Lookup(Upsert(teams, team), name) == Lookup(teams, name)
  {
    match Find(teams, team.name)
    case Some(i) => UpsertReplaces(teams, team, i);
    case None => UpsertAppends(teams, team);
  }

  lemma {:induction false} UpsertReplaces(teams: seq<Team>, team: Team, i: nat)
    requires Registry(teams) && Mirrors(team) && Find(teams, team.name) == Some(i)
    ensures Registry(teams[i := team])
    ensures Lookup(teams[i := team], team.name) == Some(team)
    ensures forall name :: name != team.name ==> Lookup(teams[i := team], name) == Lookup(teams, name)
  {
    var r := teams[i := team];
    ReplaceKeepsRegistry(teams, i, team);
    FindByNames(r, teams, team.name);
    forall name | name != team.name
      ensures Lookup(r, name) == Lookup(teams, name)
    {
      FindByNames(r, teams, name);
    }
  }

  lemma {:induction false} UpsertAppends(teams: seq<Team>, team: Team)
    requires Registry(teams) && Mirrors(team) && Find(teams, team.name).None?
    ensures Registry(teams + [team])
    ensures Lookup(teams + [team], team.name) == Some(team)
    ensures forall name :: name != team.name ==> Lookup(teams + [team], name) == Lookup(teams, name)
  {
    var r := teams + [team];
    assert r[..|r| - 1] == teams;
  }

  /** The assignments of `added`, one after another. */
  function UpsertAll(teams: seq<Team>, added: seq<Team>): seq<Team> {
    if added == [] then teams
    else Upsert(UpsertAll(teams, added[..|added| - 1]), added[|added| - 1])
  }

  ghost predicate NotAdded(added: seq<Team>, name: string) {
    forall k :: 0 <= k < |added| ==> added[k].name != name
  }

  /** Assigning several records with distinct names: each name finds its record,
      every other name what it found before, and the registry stays well formed. */
  lemma {:induction false} UpsertAllSpec(teams: seq<Team>, added: seq<Team>)
    requires Registry(teams) && Registry(added)
    ensures Registry(UpsertAll(teams, added))
    ensures forall k :: 0 <= k < |added| ==> Lookup(UpsertAll(teams, added), added[k].name) == Some(added[k])
    ensures forall name :: NotAdded(added, name) ==> Lookup(UpsertAll(teams, added), name) == Lookup(teams, name)
  {
    if added != [] {
      var init, last := added[..|added| - 1], added[|added| - 1];
      assert Registry(init);
      UpsertAllSpec(teams, init);
      var before := UpsertAll(teams, init);
      UpsertSpec(before, last);
      forall k | 0 <= k < |added| - 1
        ensures Lookup(UpsertAll(teams, added), added[k].name) == Some(added[k])
      {
        assert init[k] == added[k] && added[k].name != last.name;
      }
      forall name | NotAdded(added, name)
        ensures Lookup(UpsertAll(teams, added), name) == Lookup(teams, name)
      {
        assert NotAdded(init, name) && last.name != name;
      }
    }
  }

  // ----- formation -----

  function Sum(s: seq<nat>): nat {
    if s == [] then 0 else Sum(s[..|s| - 1]) + s[|s| - 1]
  }

  lemma {:induction false} SumPrefix(s: seq<nat>, i: nat)
    requires i <= |s|
    ensures Sum(s[..i]) <= Sum(s)
  {
    if i < |s| {
      assert s[..|s| - 1][..i] == s[..i];
      SumPrefix(s[..|s| - 1], i);
    } else {
      assert s[..i] == s;
    }
  }

  /** How many teams `_calculate_team_distribution` forms from `total` people. */
  function TeamCount(total: nat, minSize: int, criticalMin: int): (k: nat)
    ensures k <= |TeamLabels|
  {
    if total >= 4 * minSize then 4
    else if total >= 3 * minSize then 3
    else if total >= 2 * minSize then 2
    else if total >= criticalMin then 1
    else 0
  }

  /** `total` people over `k` teams as evenly as possible, the extra ones on the first teams. */
  function EvenSplit(total: nat, k: nat): (sizes: seq<nat>)
    requires k > 0
    ensures |sizes| == k
    ensures forall i :: 0 <= i < k ==> sizes[i] == total / k + (if i < total % k then 1 else 0)
  {
    seq(k, i requires 0 <= i < k => total / k + (if i < total % k then 1 else 0))
  }

  lemma {:induction false} EvenSplitPrefix(total: nat, k: nat, j: nat)
    requires 0 < k && j <= k
    ensures Sum(EvenSplit(total, k)[..j]) == j * (total / k) + (if j < total % k then j else total % k)
  {
    PrefixSumOfSplit(EvenSplit(total, k), total / k, total % k, j);
  }

  /** The prefix sums of a split into `q` or `q + 1` (the first `r` get the extra one). */
  lemma {:induction false} PrefixSumOfSplit(s: seq<nat>, q: nat, r: nat, j: nat)
    requires j <= |s| && forall i :: 0 <= i < |s| ==> s[i] == q + (if i < r then 1 else 0)
    ensures Sum(s[..j]) == j * q + (if j < r then j else r)
  {
    if j > 0 {
      assert s[..j][..j - 1] == s[..j - 1];
      PrefixSumOfSplit(s, q, r, j - 1);
      MulPred(j, q);
    }
  }

  /** The sizes of an even split add up to the number of people split. */
  lemma {:induction false} EvenSplitSum(total: nat, k: nat)
    requires 0 < k
    ensures Sum(EvenSplit(total, k)) == total
  {
    EvenSplitPrefix(total, k, k);
    assert EvenSplit(total, k)[..k] == EvenSplit(total, k);
    assert total == k * (total / k) + total % k;
  }

  /** The number of teams and their sizes; no teams when there are too few people,
      otherwise sizes that add up to everybody. */
  function Distribution(total: nat, minSize: int, criticalMin: int): (d: (nat, seq<nat>))
    ensures d.0 == TeamCount(total, minSize, criticalMin) && |d.1| == d.0 <= |TeamLabels|
    ensures d.0 == 0 ==> d.1 == []
    ensures d.0 > 0 ==> d.1 == EvenSplit(total, d.0) && Sum(d.1) == total
  {
    var k := TeamCount(total, minSize, criticalMin);
    if k == 0 then (0, [])
    else
      EvenSplitSum(total, k);
      (k, EvenSplit(total, k))
  }

  /** With the source's sizes (3 minimum, 2 critical): teams are formed exactly when there
      are at least two people; every team has at least two, at least three once there are
      six people, and no team has more than five until there are twelve. */
  lemma {:induction false} FormationSizes(total: nat)
    ensures var d := Distribution(total, MinSize, CriticalMin);
      && (d.0 == 0 <==> total < 2)
      && (forall i :: 0 <= i < d.0 ==> 2 <= d.1[i])
      && (total >= 6 ==> forall i :: 0 <= i < d.0 ==> 3 <= d.1[i])
      && (total < 12 ==> forall i :: 0 <= i < d.0 ==> d.1[i] <= 5)
  {
  }

  /** `_calculate_team_distribution(total, ideal, min, critical)`; the ideal size is
      accepted and never used, as in the source. */
  method CalculateTeamDistribution(total: nat, idealSize: int, minSize: int, criticalMin: int)
    returns (numTeams: nat, sizes: seq<nat>)
    ensures (numTeams, sizes) == Distribution(total, minSize, criticalMin)
  {
    if total >= 4 * minSize {
      numTeams := 4;
    } else if total >= 3 * minSize {
      numTeams := 3;
    } else if total >= 2 * minSize {
      numTeams := 2;
    } else if total >= criticalMin {
      numTeams := 1;
    } else {
      return 0, [];
    }
    var base := total / numTeams;
    var remainder := total % numTeams;
    sizes := seq(numTeams, _ => base);
    var i := 0;
    while i < remainder
      invariant 0 <= i <= remainder < numTeams && |sizes| == numTeams
      invariant forall j :: 0 <= j < numTeams ==> sizes[j] == base + (if j < i then 1 else 0)
    {
      sizes := sizes[i := sizes[i] + 1];
      i := i + 1;
    }
    assert sizes == EvenSplit(total, numTeams);
  }

  /** The employees on shift at `t`: started by then and not finished yet. */
  function OnShift(employees: seq<Employee>, t: int): (pool: seq<Employee>)
    ensures forall e :: e in pool <==> e in employees && e.start <= t && t < e.end
  {
    Filter(employees, OnShiftTest(t))
  }

  function OnShiftTest(t: int): Employee -> bool {
    (e: Employee) => e.start <= t && t < e.end
  }

  /** `shuffled` is a reordering of `pool` (what `random.shuffle` may leave). */
  ghost predicate IsShuffle(shuffled: seq<Employee>, pool: seq<Employee>) {
    |shuffled| == |pool| && multiset(shuffled) == multiset(pool)
  }

  /** A team as formation creates it: no flights yet, not on a flight, never released. */
  function NewTeam(name: string, members: seq<Employee>, size: nat): (team: Team)
    ensures Mirrors(team)
  {
    Team(name, members, IdsOf(members), NamesOf(members), 0, None, None, size)
  }

  /** The teams formation writes: the i-th takes the i-th label and the next `sizes[i]`
      people of the shuffled list. */
  function InitialTeams(shuffled: seq<Employee>, sizes: seq<nat>): (teams: seq<Team>)
    requires |sizes| <= |TeamLabels| && Sum(sizes) <= |shuffled|
    ensures |teams| == |sizes|
  {
    if sizes == [] then []
    else
      var init, last := sizes[..|sizes| - 1], sizes[|sizes| - 1];
      var from := Sum(init);
      InitialTeams(shuffled, init) + [NewTeam(TeamLabels[|sizes| - 1], shuffled[from..from + last], last)]
  }

  /** One more size: the next team takes the next slice. */
  lemma {:induction false} InitialTeamsSnoc(shuffled: seq<Employee>, sizes: seq<nat>, i: nat)
    requires i < |sizes| <= |TeamLabels| && Sum(sizes) <= |shuffled|
    ensures Sum(sizes[..i + 1]) == Sum(sizes[..i]) + sizes[i] <= |shuffled|
    ensures var from := Sum(sizes[..i]);
      InitialTeams(shuffled, sizes[..i + 1])
      == InitialTeams(shuffled, sizes[..i]) + [NewTeam(TeamLabels[i], shuffled[from..from + sizes[i]], sizes[i])]
  {
    SumSnoc(sizes, i);
    SumPrefix(sizes, i + 1);
    assert sizes[..i + 1][..i] == sizes[..i];
  }

  lemma {:induction false} SumSnoc(s: seq<nat>, i: nat)
    requires i < |s|
    ensures Sum(s[..i + 1]) == Sum(s[..i]) + s[i]
  {
    assert s[..i + 1][..i] == s[..i];
  }

  lemma {:induction false} UpsertAllSnoc(teams: seq<Team>, added: seq<Team>, team: Team)
    ensures UpsertAll(teams, added + [team]) == Upsert(UpsertAll(teams, added), team)
  {
    assert (added + [team])[..|added|] == added;
  }

  /** Every member of every team, team after team. */
  function AllMembers(teams: seq<Team>): seq<Employee> {
    if teams == [] then [] else AllMembers(teams[..|teams| - 1]) + teams[|teams| - 1].members
  }

  /** The formed teams take consecutive slices: together, the front of the shuffled list. */
  lemma {:induction false} InitialMembers(shuffled: seq<Employee>, sizes: seq<nat>)
    requires |sizes| <= |TeamLabels| && Sum(sizes) <= |shuffled|
    ensures AllMembers(InitialTeams(shuffled, sizes)) == shuffled[..Sum(sizes)]
  {
    if sizes != [] {
      var init := sizes[..|sizes| - 1];
      var teams := InitialTeams(shuffled, sizes);
      assert teams[..|teams| - 1] == InitialTeams(shuffled, init);
      InitialMembers(shuffled, init);
      assert shuffled[..Sum(init)] + shuffled[Sum(init)..Sum(sizes)] == shuffled[..Sum(sizes)];
    }
  }

  /** Each formed team carries its label, as many members as its size says, no flights,
      no current flight and no last-flight end. */
  lemma {:induction false} InitialTeamsShape(shuffled: seq<Employee>, sizes: seq<nat>)
    requires |sizes| <= |TeamLabels| && Sum(sizes) <= |shuffled|
    ensures var teams := InitialTeams(shuffled, sizes);
      forall i :: 0 <= i < |teams| ==>
        && teams[i].name == TeamLabels[i] && Mirrors(teams[i])
        && teams[i].size == sizes[i] == |teams[i].members|
        && teams[i].flightCount == 0 && teams[i].currentFlight.None? && teams[i].lastFlightEnd.None?
  {
    if sizes != [] {
      var init := sizes[..|sizes| - 1];
      InitialTeamsShape(shuffled, init);
      assert forall i :: 0 <= i < |init| ==> init[i] == sizes[i];
    }
  }

  /** The formed teams' labels are distinct, so formation writes one entry per team. */
  lemma {:induction false} InitialTeamsRegistry(shuffled: seq<Employee>, sizes: seq<nat>)
    requires |sizes| <= |TeamLabels| && Sum(sizes) <= |shuffled|
    ensures Registry(InitialTeams(shuffled, sizes))
  {
    InitialTeamsShape(shuffled, sizes);
  }

  /** Partition: the members of the formed teams, team after team, followed by the
      remainder are the shuffled list itself, and so the people on shift, each as often
      as in the pool. */
  lemma {:induction false} FormationPartition(employees: seq<Employee>, t: int, shuffled: seq<Employee>)
    requires IsShuffle(shuffled, OnShift(employees, t))
    ensures var pool := OnShift(employees, t);
      var sizes := Distribution(|pool|, MinSize, CriticalMin).1;
      && AllMembers(InitialTeams(shuffled, sizes)) + shuffled[Sum(sizes)..] == shuffled
      && multiset(AllMembers(InitialTeams(shuffled, sizes)) + shuffled[Sum(sizes)..]) == multiset(pool)
  {
    var pool := OnShift(employees, t);
    var sizes := Distribution(|pool|, MinSize, CriticalMin).1;
    InitialMembers(shuffled, sizes);
    assert shuffled[..Sum(sizes)] + shuffled[Sum(sizes)..] == shuffled;
  }

  /** Nobody is left over once at least two people are on shift; a single person is. */
  lemma {:induction false} FormationRemainder(employees: seq<Employee>, t: int, shuffled: seq<Employee>)
    requires IsShuffle(shuffled, OnShift(employees, t))
    ensures var pool := OnShift(employees, t);
      var sizes := Distribution(|pool|, MinSize, CriticalMin).1;
      && (|pool| >= 2 ==> shuffled[Sum(sizes)..] == [])
      && (|pool| == 1 ==> shuffled[Sum(sizes)..] == shuffled)
  {
    var pool := OnShift(employees, t);
    FormationSizes(|pool|);
  }

  /** What `form_initial_teams` returns besides the teams: the error, or the people left over. */
  datatype Formation = NoStaff(message: string) | Formed(remainder: seq<Employee>)

  // ----- availability -----

  /** Every member's shift lasts until `t` at least. */
  predicate StillWorking(members: seq<Employee>, t: int) {
    forall i :: 0 <= i < |members| ==> members[i].end >= t
  }

  /** The test of `get_available_teams`: not on a flight, rested for `minBreak` minutes
      since the last one, and nobody's shift over before `t`. */
  predicate Qualifies(team: Team, t: int, minBreak: int) {
    && team.currentFlight.None?
    && (team.lastFlightEnd.None? || t - team.lastFlightEnd.value >= minBreak)
    && StillWorking(team.members, t)
  }

  /** The record `get_available_teams` lists for a team. */
  datatype TeamView = TeamView(name: string, size: nat, flightCount: nat, members: seq<string>)

  function View(team: Team): TeamView {
    TeamView(team.name, team.size, team.flightCount, team.memberNames)
  }

  /** The qualifying teams, in registry order. */
  function AvailableTeams(teams: seq<Team>, t: int, minBreak: int): (r: seq<TeamView>)
    ensures |r| <= |teams|
  {
    if teams == [] then []
    else
      var last := teams[|teams| - 1];
      AvailableTeams(teams[..|teams| - 1], t, minBreak) + (if Qualifies(last, t, minBreak) then [View(last)] else [])
  }

  /** A team is listed exactly when it qualifies. */
  lemma {:induction false} AvailableTeamsSpec(teams: seq<Team>, t: int, minBreak: int)
    ensures forall i :: 0 <= i < |teams| && Qualifies(teams[i], t, minBreak) ==> View(teams[i]) in AvailableTeams(teams, t, minBreak)
    ensures forall v :: v in AvailableTeams(teams, t, minBreak) ==>
      exists i :: 0 <= i < |teams| && Qualifies(teams[i], t, minBreak) && View(teams[i]) == v
  {
    if teams != [] {
      var init := teams[..|teams| - 1];
      AvailableTeamsSpec(init, t, minBreak);
      assert forall i :: 0 <= i < |init| ==> init[i] == teams[i];
    }
  }

  /** A team with a member whose shift ended before `t` is never offered. */
  lemma {:induction false} OffShiftNeverOffered(teams: seq<Team>, t: int, minBreak: int, i: nat, m: nat)
    requires Registry(teams) && i < |teams| && m < |teams[i].members| && teams[i].members[m].end < t
    ensures forall v :: v in AvailableTeams(teams, t, minBreak) ==> v.name != teams[i].name
  {
    AvailableTeamsSpec(teams, t, minBreak);
  }

  /** `assign_team_to_flight` on a record: on that flight, one flight more. A team on a
      flight qualifies for nothing. */
  function Booked(team: Team, flight: Flight): (r: Team)
    ensures r.currentFlight == Some(flight) && r.flightCount == team.flightCount + 1
    ensures r.name == team.name && r.members == team.members && Mirrors(r) == Mirrors(team)
    ensures forall t, minBreak :: !Qualifies(r, t, minBreak)
  {
    team.(currentFlight := Some(flight), flightCount := team.flightCount + 1)
  }

  /** `complete_flight` on a record: off the flight, resting from `end`. Afterwards the
      team qualifies exactly when the break has passed and all members are still working. */
  function Released(team: Team, end: int): (r: Team)
    ensures r.currentFlight.None? && r.lastFlightEnd == Some(end) && r.flightCount == team.flightCount
    ensures r.name == team.name && r.members == team.members && Mirrors(r) == Mirrors(team)
    ensures forall t, minBreak :: Qualifies(r, t, minBreak) <==> t - end >= minBreak && StillWorking(team.members, t)
  {
    team.(currentFlight := None, lastFlightEnd := Some(end))
  }

  /** The inner loop of `get_available_teams`: is no member's shift over before `t`? */
  method AllStillWorking(members: seq<Employee>, t: int) returns (all: bool)
    ensures all <==> StillWorking(members, t)
  {
    all := true;
    var i := 0;
    while i < |members|
      invariant 0 <= i <= |members|
      invariant all && forall k :: 0 <= k < i ==> members[k].end >= t
    {
      if members[i].end < t {
        all := false;
        break;
      }
      i := i + 1;
    }
  }

  // ----- names -----

  /** `", "` starts at position `i` of `s`. */
  predicate SepAt(s: string, i: int) {
    0 <= i && i + 2 <= |s| && s[i] == ',' && s[i + 1] == ' '
  }

  /** The first `", "` at or after `from`. */
  function FindSep(s: string, from: nat): (r: Option<nat>)
    ensures r.Some? ==> from <= r.value && SepAt(s, r.value)
    ensures r.Some? ==> forall j :: from <= j < r.value ==> !SepAt(s, j)
    ensures r.None? ==> forall j :: from <= j ==> !SepAt(s, j)
    decreases |s| - from
  {
    if from + 2 > |s| then None
    else if SepAt(s, from) then Some(from)
    else FindSep(s, from + 1)
  }

  /** `_flip_name`: "Last, First" becomes "First Last", split at the first `", "`;
      a name without one is returned unchanged. */
  function FlipName(name: string): (r: string)
    ensures FindSep(name, 0).None? ==> r == name
    ensures FindSep(name, 0).Some? ==> |r| == |name| - 1
  {
    match FindSep(name, 0)
    case None => name
    case Some(i) => name[i + 2..] + " " + name[..i]
  }

  /** Flipping undoes the "Last, First" layout when the last name holds no `", "`. */
  lemma {:induction false} FlipNameRoundTrip(last: string, first: string)
    requires FindSep(last, 0).None?
    ensures FlipName(last + ", " + first) == first + " " + last
  {
    var s := last + ", " + first;
    assert SepAt(s, |last|);
    forall j | 0 <= j < |last|
      ensures !SepAt(s, j)
    {
      if j + 1 < |last| {
        assert !SepAt(last, j);
      }
    }
    assert FindSep(s, 0) == Some(|last|);
    assert s[|last| + 2..] == first && s[..|last|] == last;
  }

  // ----- change detection -----

  /** A member leaving: the shift ends within the departure window after `t`. */
  predicate Leaving(m: Employee, t: int) {
    0 < m.end - t <= DepartureWindow
  }

  function LeavingTest(t: int): Employee -> bool {
    (m: Employee) => Leaving(m, t)
  }

  /** Who may replace a member of `team` at `t`: on shift by then, staying past the
      departure window, and not a member of that team. */
  predicate CanReplace(team: Team, e: Employee, t: int) {
    e.start <= t && e.end > t + DepartureWindow && e.id !in team.memberIds
  }

  function ReplacementTest(team: Team, t: int): Employee -> bool {
    (e: Employee) => CanReplace(team, e, t)
  }

  /** The candidates for replacing a member of `team`, in roster order. */
  function Replacements(team: Team, employees: seq<Employee>, t: int): (r: seq<Employee>)
    ensures forall e :: e in r <==> e in employees && CanReplace(team, e, t)
  {
    Filter(employees, ReplacementTest(team, t))
  }

  /** The notification for a leaving member: a replacement by the first candidate when
      there is one, otherwise a leave that reports the team one smaller. */
  function DeparturePayload(team: Team, m: Employee, employees: seq<Employee>, t: int): (p: Payload)
    requires |team.members| > 0
  {
    var candidates := Replacements(team, employees, t);
    if |candidates| > 0 then
      var e := candidates[0];
      TeamReplacement(team.name, FlipName(m.name), m.id, m.end, FlipName(e.name), e.id, e.start, e.start, e.end)
    else
      TeamLeave(team.name, FlipName(m.name), m.id, m.end, |team.members| - 1)
  }

  /** A replacement exactly when some roster row can replace the member, naming the leaving
      member and the first roster row that can replace; otherwise a leave that reports the
      team one smaller. */
  lemma {:induction false} DeparturePayloadSpec(team: Team, m: Employee, employees: seq<Employee>, t: int)
    requires |team.members| > 0
    ensures var p := DeparturePayload(team, m, employees, t);
      && (p.TeamReplacement? <==> exists e :: e in employees && CanReplace(team, e, t))
      && (p.TeamReplacement? ==>
        && p.teamName == team.name && p.leavingId == m.id && p.leavingName == FlipName(m.name)
        && p.replacementTime == m.end
        && exists i :: 0 <= i < |employees| && CanReplace(team, employees[i], t)
                       && (forall j :: 0 <= j < i ==> !CanReplace(team, employees[j], t))
                       && p.joiningId == employees[i].id && p.joiningName == FlipName(employees[i].name)
                       && p.joinTime == employees[i].start && p.joiningShiftStart == employees[i].start
                       && p.joiningShiftEnd == employees[i].end)
      && (p.TeamLeave? <==> !p.TeamReplacement?)
      && (p.TeamLeave? ==> p == TeamLeave(team.name, FlipName(m.name), m.id, m.end, |team.members| - 1))
  {
    var candidates := Replacements(team, employees, t);
    if |candidates| > 0 {
      assert candidates[0] in candidates;
      FilterFirst(employees, ReplacementTest(team, t));
    } else {
      assert forall e :: e in employees && CanReplace(team, e, t) ==> e in candidates;
    }
  }

  /** The notifications for the first `j` members of `team`, in member order. */
  function Departures(team: Team, employees: seq<Employee>, t: int, j: nat): seq<Payload>
    requires j <= |team.members|
  {
    if j == 0 then []
    else
      var m := team.members[j - 1];
      Departures(team, employees, t, j - 1) + (if Leaving(m, t) then [DeparturePayload(team, m, employees, t)] else [])
  }

  /** One notification per leaving member, in member order: notice k is the departure
      notice of the k-th leaving member, a replacement or a leave for that team. */
  lemma {:induction false} DeparturesSpec(team: Team, employees: seq<Employee>, t: int, j: nat)
    requires j <= |team.members|
    ensures var ls := Filter(team.members[..j], LeavingTest(t));
      && |Departures(team, employees, t, j)| == |ls|
      && forall k :: 0 <= k < |ls| ==> Departures(team, employees, t, j)[k] == DeparturePayload(team, ls[k], employees, t)
    ensures forall p :: p in Departures(team, employees, t, j) ==>
      (p.TeamReplacement? || p.TeamLeave?) && p.teamName == team.name
  {
    if j > 0 {
      DeparturesSpec(team, employees, t, j - 1);
      var m := team.members[j - 1];
      DeparturePayloadSpec(team, m, employees, t);
      DeparturesStep(team, employees, t, j);
    }
  }

  /** One member further: the leaving members and their notices both grow by that member's. */
  lemma {:induction false} DeparturesStep(team: Team, employees: seq<Employee>, t: int, j: nat)
    requires 0 < j <= |team.members|
    requires var ls := Filter(team.members[..j - 1], LeavingTest(t));
      && |Departures(team, employees, t, j - 1)| == |ls|
      && forall k :: 0 <= k < |ls| ==> Departures(team, employees, t, j - 1)[k] == DeparturePayload(team, ls[k], employees, t)
    ensures var ls := Filter(team.members[..j], LeavingTest(t));
      && |Departures(team, employees, t, j)| == |ls|
      && forall k :: 0 <= k < |ls| ==> Departures(team, employees, t, j)[k] == DeparturePayload(team, ls[k], employees, t)
  {
    var m := team.members[j - 1];
    var before, ds := Filter(team.members[..j - 1], LeavingTest(t)), Departures(team, employees, t, j - 1);
    assert team.members[..j][..j - 1] == team.members[..j - 1];
    if Leaving(m, t) {
      assert Filter(team.members[..j], LeavingTest(t)) == before + [m];
      assert Departures(team, employees, t, j) == ds + [DeparturePayload(team, m, employees, t)];
    } else {
      assert Filter(team.members[..j], LeavingTest(t)) == before;
      assert Departures(team, employees, t, j) == ds;
    }
  }

  /** The ids of every team's members, team after team. */
  function AllMemberIds(teams: seq<Team>): seq<string> {
    if teams == [] then [] else AllMemberIds(teams[..|teams| - 1]) + teams[|teams| - 1].memberIds
  }

  lemma {:induction false} AllMemberIdsSpec(teams: seq<Team>)
    ensures forall id :: id in AllMemberIds(teams) <==> exists i :: 0 <= i < |teams| && id in teams[i].memberIds
  {
    if teams != [] {
      var init := teams[..|teams| - 1];
      AllMemberIdsSpec(init);
      assert forall i :: 0 <= i < |init| ==> init[i] == teams[i];
    }
  }

  /** An arrival: started within the last `ArrivalWindow` minutes and not on any team. */
  predicate Arriving(e: Employee, taken: seq<string>, t: int) {
    e.start <= t && e.start >= t - ArrivalWindow && e.id !in taken
  }

  function ArrivalTest(taken: seq<string>, t: int): Employee -> bool {
    (e: Employee) => Arriving(e, taken, t)
  }

  function Arrivals(teams: seq<Team>, employees: seq<Employee>, t: int): (r: seq<Employee>)
    ensures forall e :: e in r <==> e in employees && Arriving(e, AllMemberIds(teams), t)
  {
    Filter(employees, ArrivalTest(AllMemberIds(teams), t))
  }

  /** Arrivals are on no team. */
  lemma {:induction false} ArrivalsOnNoTeam(teams: seq<Team>, employees: seq<Employee>, t: int)
    ensures forall e, i :: e in Arrivals(teams, employees, t) && 0 <= i < |teams| ==> e.id !in teams[i].memberIds
  {
    AllMemberIdsSpec(teams);
  }

  /** The first team below the optimal size, if any. */
  function Suggested(teams: seq<Team>): (r: Option<string>)
    ensures r.None? <==> forall i :: 0 <= i < |teams| ==> teams[i].size >= OptimalSize
    ensures r.Some? ==> exists i :: 0 <= i < |teams| && teams[i].name == r.value && teams[i].size < OptimalSize
                                   && forall k :: 0 <= k < i ==> teams[k].size >= OptimalSize
  {
    if teams == [] then None
    else if teams[0].size < OptimalSize then Some(teams[0].name)
    else
      var r := Suggested(teams[1..]);
      assert forall i :: 0 < i < |teams| ==> teams[i] == teams[1..][i - 1];
      r
  }

  /** The join notification for an arrival. */
  function JoinPayload(e: Employee, teams: seq<Team>): (p: Payload)
    ensures p.TeamJoin? && p.suggestedTeam == Suggested(teams) && p.employeeId == e.id
    ensures p.teamName == if Suggested(teams).Some? then Suggested(teams).value else NoSuggestion
    ensures p.shiftStart == e.start && p.shiftEnd == e.end && p.employeeName == FlipName(e.name)
  {
    var s := Suggested(teams);
    TeamJoin(FlipName(e.name), e.id, if s.Some? then s.value else NoSuggestion, e.start, e.end, s)
  }

  function Joins(teams: seq<Team>, employees: seq<Employee>, t: int): (ps: seq<Payload>)
    ensures |ps| == |Arrivals(teams, employees, t)|
  {
    var arrivals := Arrivals(teams, employees, t);
    seq(|arrivals|, k requires 0 <= k < |arrivals| => JoinPayload(arrivals[k], teams))
  }

  /** One join per arrival, in roster order. */
  lemma {:induction false} JoinsAt(teams: seq<Team>, employees: seq<Employee>, t: int)
    ensures var ps := Joins(teams, employees, t);
      forall k :: 0 <= k < |ps| ==> ps[k] == JoinPayload(Arrivals(teams, employees, t)[k], teams)
  {
  }

  /** The notifications for the first `n` teams: each team's departures, then the arrivals
      (which the source recomputes inside the team loop). */
  function ChangesUpTo(teams: seq<Team>, employees: seq<Employee>, t: int, n: nat): seq<Payload>
    requires n <= |teams|
  {
    if n == 0 then [] else ChangesUpTo(teams, employees, t, n - 1) + TeamChanges(teams, employees, t, n - 1)
  }

  /** What one pass of the team loop adds for team `i`: its departures, then the arrivals. */
  function TeamChanges(teams: seq<Team>, employees: seq<Employee>, t: int, i: nat): seq<Payload>
    requires i < |teams|
  {
    Departures(teams[i], employees, t, |teams[i].members|) + Joins(teams, employees, t)
  }

  /** Everything one call of `detect_and_notify_changes` queues, in order. */
  function ChangePayloads(teams: seq<Team>, employees: seq<Employee>, t: int): seq<Payload> {
    ChangesUpTo(teams, employees, t, |teams|)
  }

  predicate IsJoin(p: Payload) {
    p.TeamJoin?
  }

  /** Departures are never joins. */
  lemma {:induction false} DeparturesNoJoins(team: Team, employees: seq<Employee>, t: int)
    ensures Count(Departures(team, employees, t, |team.members|), IsJoin) == 0
  {
    var ds := Departures(team, employees, t, |team.members|);
    DeparturesSpec(team, employees, t, |team.members|);
    forall i | 0 <= i < |ds| ensures !IsJoin(ds[i]) {
      assert ds[i] in ds;
    }
    CountNone(ds, IsJoin);
  }

  /** The arrival notifications are all joins. */
  lemma {:induction false} JoinsAllJoins(teams: seq<Team>, employees: seq<Employee>, t: int)
    ensures Count(Joins(teams, employees, t), IsJoin) == |Arrivals(teams, employees, t)|
  {
    JoinsAt(teams, employees, t);
    CountAll(Joins(teams, employees, t), IsJoin);
  }

  /** Each arrival is announced once per team: one call queues `|teams|` joins per arrival. */
  lemma {:induction false} JoinsPerTeam(teams: seq<Team>, employees: seq<Employee>, t: int, n: nat)
    requires n <= |teams|
    ensures Count(ChangesUpTo(teams, employees, t, n), IsJoin) == n * |Arrivals(teams, employees, t)|
  {
    if n > 0 {
      var before := ChangesUpTo(teams, employees, t, n - 1);
      var ds := Departures(teams[n - 1], employees, t, |teams[n - 1].members|);
      var js := Joins(teams, employees, t);
      JoinsPerTeam(teams, employees, t, n - 1);
      DeparturesNoJoins(teams[n - 1], employees, t);
      JoinsAllJoins(teams, employees, t);
      CountStep(before, ds, js, IsJoin, n, |Arrivals(teams, employees, t)|);
    }
  }

  /** Counting one more pass: no match among `ds`, all `a` of `js` match. */
  lemma {:induction false} CountStep<T>(before: seq<T>, ds: seq<T>, js: seq<T>, p: T -> bool, n: nat, a: nat)
    requires n > 0 && Count(before, p) == (n - 1) * a
    requires Count(ds, p) == 0 && Count(js, p) == a
    ensures Count(before + (ds + js), p) == n * a
  {
    CountAppend(ds, js, p);
    CountAppend(before, ds + js, p);
    MulPred(n, a);
  }

  lemma {:induction false} MulPred(n: nat, a: nat)
    requires n > 0
    ensures n * a == (n - 1) * a + a
  {
  }

  /** The notifications queued for `payloads` when the counter stood at `first`: one per
      payload, numbered on from `first`, all pending and stamped `now`. */
  function Queued(first: nat, payloads: seq<Payload>, now: int): (q: seq<Notification>)
    ensures |q| == |payloads|
  {
    if payloads == [] then []
    else
      var n := |payloads| - 1;
      Queued(first, payloads[..n], now) + [Notification(first + n, payloads[n], now, Pending)]
  }

  /** Entry `k` of a queued run carries id `first + k` and payload `k`. */
  lemma {:induction false} QueuedAt(first: nat, payloads: seq<Payload>, now: int)
    ensures var q := Queued(first, payloads, now);
      forall k :: 0 <= k < |q| ==> q[k] == Notification(first + k, payloads[k], now, Pending)
  {
    if payloads != [] {
      var n := |payloads| - 1;
      QueuedAt(first, payloads[..n], now);
    }
  }

  /** The ids `first`, `first + 1`, ..., `first + n - 1`. */
  function Consecutive(first: nat, n: nat): (ids: seq<nat>)
    ensures |ids| == n
  {
    if n == 0 then [] else Consecutive(first, n - 1) + [first + n - 1]
  }

  lemma {:induction false} ConsecutiveAt(first: nat, n: nat)
    ensures forall k :: 0 <= k < n ==> Consecutive(first, n)[k] == first + k
  {
    if n > 0 {
      ConsecutiveAt(first, n - 1);
    }
  }

  lemma {:induction false} QueuedAppend(first: nat, a: seq<Payload>, b: seq<Payload>, now: int)
    ensures Queued(first, a + b, now) == Queued(first, a, now) + Queued(first + |a|, b, now)
  {
    if b != [] {
      var n := |b| - 1;
      QueuedAppend(first, a, b[..n], now);
      assert (a + b)[..|a| + n] == a + b[..n];
      assert (a + b)[|a| + n] == b[n];
      calc {
        Queued(first, a + b, now);
        Queued(first, a + b[..n], now) + [Notification(first + |a| + n, b[n], now, Pending)];
        Queued(first, a, now) + Queued(first + |a|, b[..n], now) + [Notification(first + |a| + n, b[n], now, Pending)];
        Queued(first, a, now) + Queued(first + |a|, b, now);
      }
    } else {
      assert a + b == a;
    }
  }

  lemma {:induction false} ConsecutiveAppend(first: nat, a: nat, b: nat)
    ensures Consecutive(first, a + b) == Consecutive(first, a) + Consecutive(first + a, b)
  {
    if b > 0 {
      ConsecutiveAppend(first, a, b - 1);
    }
  }

  /** One `create_notification` call and the append of its id, seen as extending the run
      of notifications queued since the counter stood at `first`. */
  method Emit(ledger: NotificationSystem, payload: Payload, now: int,
              ghost before: seq<Notification>, ghost first: nat, ghost done: seq<Payload>, ids: seq<nat>)
    returns (ids': seq<nat>)
    requires ledger.Valid()
    requires ledger.pending == before + Queued(first, done, now) && ledger.counter == first + |done|
    requires ids == Consecutive(first, |done|)
    modifies ledger
    ensures ledger.Valid() && ledger.history == old(ledger.history)
    ensures ledger.pending == before + Queued(first, done + [payload], now)
    ensures ledger.counter == first + |done + [payload]|
    ensures ids' == Consecutive(first, |done + [payload]|)
  {
    var id := ledger.CreateNotification(payload, now);
    QueuedAppend(first, done, [payload], now);
    ConsecutiveAppend(first, |done|, 1);
    ids' := ids + [id];
  }

  /** Two runs queued one after the other form the run of their concatenation, and the
      ids collected for them are consecutive. */
  lemma {:induction false} RunsCompose(before: seq<Notification>, first: nat, a: seq<Payload>, b: seq<Payload>, now: int,
                    p1: seq<Notification>, c1: nat, ia: seq<nat>, p2: seq<Notification>, c2: nat, ib: seq<nat>)
    requires p1 == before + Queued(first, a, now) && c1 == first + |a| && ia == Consecutive(first, |a|)
    requires p2 == p1 + Queued(c1, b, now) && c2 == c1 + |b| && ib == Consecutive(c1, |b|)
    ensures p2 == before + Queued(first, a + b, now) && c2 == first + |a + b|
    ensures ia + ib == Consecutive(first, |a + b|)
  {
    assert p2 == before + Queued(first, a, now) + Queued(first + |a|, b, now);
    QueuedExtend(before, first, a, b, now);
    IdsCompose(first, |a|, |b|, c1, ia, ib);
  }

  lemma {:induction false} IdsCompose(first: nat, a: nat, b: nat, c1: nat, ia: seq<nat>, ib: seq<nat>)
    requires c1 == first + a && ia == Consecutive(first, a) && ib == Consecutive(c1, b)
    ensures ia + ib == Consecutive(first, a + b)
  {
    ConsecutiveAppend(first, a, b);
  }

  lemma {:induction false} QueuedExtend(before: seq<Notification>, first: nat, a: seq<Payload>, b: seq<Payload>, now: int)
    ensures before + Queued(first, a, now) + Queued(first + |a|, b, now) == before + Queued(first, a + b, now)
  {
    QueuedAppend(first, a, b, now);
  }

  /** One pass of the team loop of `detect_and_notify_changes`: the departures of team `i`
      and then the arrivals. */
  method NotifyTeam(ledger: NotificationSystem, teams: seq<Team>, i: nat, employees: seq<Employee>, t: int, now: int)
    returns (ids: seq<nat>)
    requires i < |teams| && ledger.Valid()
    modifies ledger
    ensures ledger.Valid() && ledger.history == old(ledger.history)
    ensures var ps := TeamChanges(teams, employees, t, i);
      && ledger.pending == old(ledger.pending) + Queued(old(ledger.counter), ps, now)
      && ledger.counter == old(ledger.counter) + |ps|
      && ids == Consecutive(old(ledger.counter), |ps|)
  {
    ghost var ds := Departures(teams[i], employees, t, |teams[i].members|);
    ghost var js := Joins(teams, employees, t);
    var leaving := NotifyDepartures(ledger, teams[i], employees, t, now);
    ghost var p1, c1 := ledger.pending, ledger.counter;
    var joining := NotifyArrivals(ledger, teams, employees, t, now);
    RunsCompose(old(ledger.pending), old(ledger.counter), ds, js, now, p1, c1, leaving, ledger.pending, ledger.counter, joining);
    ids := leaving + joining;
  }

  /** The team loop of `detect_and_notify_changes`. */
  method NotifyAll(ledger: NotificationSystem, teams: seq<Team>, employees: seq<Employee>, t: int, now: int)
    returns (ids: seq<nat>)
    requires ledger.Valid()
    modifies ledger
    ensures ledger.Valid() && ledger.history == old(ledger.history)
    ensures var ps := ChangePayloads(teams, employees, t);
      && ledger.pending == old(ledger.pending) + Queued(old(ledger.counter), ps, now)
      && ledger.counter == old(ledger.counter) + |ps|
      && ids == Consecutive(old(ledger.counter), |ps|)
  {
    ids := [];
    ghost var done: seq<Payload> := [];
    var i := 0;
    while i < |teams|
      invariant 0 <= i <= |teams| && done == ChangesUpTo(teams, employees, t, i)
      invariant ledger.Valid() && ledger.history == old(ledger.history)
      invariant ledger.pending == old(ledger.pending) + Queued(old(ledger.counter), done, now)
      invariant ledger.counter == old(ledger.counter) + |done|
      invariant ids == Consecutive(old(ledger.counter), |done|)
    {
      ghost var ps := TeamChanges(teams, employees, t, i);
      ghost var p1, c1 := ledger.pending, ledger.counter;
      var step := NotifyTeam(ledger, teams, i, employees, t, now);
      RunsCompose(old(ledger.pending), old(ledger.counter), done, ps, now, p1, c1, ids, ledger.pending, ledger.counter, step);
      ids := ids + step;
      done := done + ps;
      i := i + 1;
    }
  }

  /** The replacement search for a leaving member and the notice it leads to. */
  method DepartureNotice(team: Team, member: Employee, employees: seq<Employee>, t: int) returns (payload: Payload)
    requires |team.members| > 0
    ensures payload == DeparturePayload(team, member, employees, t)
  {
    var candidates := Replacements(team, employees, t);
    if |candidates| > 0 {
      var e := candidates[0];
      payload := TeamReplacement(team.name, FlipName(member.name), member.id, member.end,
                                 FlipName(e.name), e.id, e.start, e.start, e.end);
    } else {
      payload := TeamLeave(team.name, FlipName(member.name), member.id, member.end, |team.members| - 1);
    }
  }

  /** The member loop of `detect_and_notify_changes` for one team. */
  method NotifyDepartures(ledger: NotificationSystem, team: Team, employees: seq<Employee>, t: int, now: int)
    returns (ids: seq<nat>)
    requires ledger.Valid()
    modifies ledger
    ensures ledger.Valid() && ledger.history == old(ledger.history)
    ensures var ps := Departures(team, employees, t, |team.members|);
      && ledger.pending == old(ledger.pending) + Queued(old(ledger.counter), ps, now)
      && ledger.counter == old(ledger.counter) + |ps|
      && ids == Consecutive(old(ledger.counter), |ps|)
  {
    ids := [];
    var j := 0;
    while j < |team.members|
      invariant 0 <= j <= |team.members|
      invariant ledger.Valid() && ledger.history == old(ledger.history)
      invariant ledger.pending == old(ledger.pending) + Queued(old(ledger.counter), Departures(team, employees, t, j), now)
      invariant ledger.counter == old(ledger.counter) + |Departures(team, employees, t, j)|
      invariant ids == Consecutive(old(ledger.counter), |Departures(team, employees, t, j)|)
    {
      var member := team.members[j];
      if 0 < member.end - t <= DepartureWindow {
        var payload := DepartureNotice(team, member, employees, t);
        assert Departures(team, employees, t, j + 1) == Departures(team, employees, t, j) + [payload];
        ids := Emit(ledger, payload, now, old(ledger.pending), old(ledger.counter), Departures(team, employees, t, j), ids);
      } else {
        assert Departures(team, employees, t, j + 1) == Departures(team, employees, t, j);
      }
      j := j + 1;
    }
  }

  /** `all_team_member_ids`, collected team by team. */
  method CollectMemberIds(teams: seq<Team>) returns (ids: seq<string>)
    ensures ids == AllMemberIds(teams)
  {
    ids := [];
    var i := 0;
    while i < |teams|
      invariant 0 <= i <= |teams| && ids == AllMemberIds(teams[..i])
    {
      assert teams[..i + 1][..i] == teams[..i];
      ids := ids + teams[i].memberIds;
      i := i + 1;
    }
    assert teams[..i] == teams;
  }

  /** `recent_arrivals`: the member ids of all teams, then the roster rows that arrived
      within the window and carry none of them. */
  method RecentArrivals(teams: seq<Team>, employees: seq<Employee>, t: int) returns (arrivals: seq<Employee>)
    ensures arrivals == Arrivals(teams, employees, t)
  {
    var taken := CollectMemberIds(teams);
    arrivals := Filter(employees, ArrivalTest(taken, t));
  }

  /** The suggestion loop: the first team below the optimal size. */
  method SuggestTeam(teams: seq<Team>) returns (s: Option<string>)
    ensures s == Suggested(teams)
  {
    s := None;
    var i := 0;
    while i < |teams|
      invariant 0 <= i <= |teams| && s.None? && Suggested(teams[i..]) == Suggested(teams)
    {
      if teams[i].size < OptimalSize {
        s := Some(teams[i].name);
        break;
      }
      assert teams[i..][1..] == teams[i + 1..];
      i := i + 1;
    }
  }

  /** The arrival part of one pass of the team loop of `detect_and_notify_changes`. */
  method NotifyArrivals(ledger: NotificationSystem, teams: seq<Team>, employees: seq<Employee>, t: int, now: int)
    returns (ids: seq<nat>)
    requires ledger.Valid()
    modifies ledger
    ensures ledger.Valid() && ledger.history == old(ledger.history)
    ensures var ps := Joins(teams, employees, t);
      && ledger.pending == old(ledger.pending) + Queued(old(ledger.counter), ps, now)
      && ledger.counter == old(ledger.counter) + |ps|
      && ids == Consecutive(old(ledger.counter), |ps|)
  {
    var arrivals := RecentArrivals(teams, employees, t);
    ghost var ps := Joins(teams, employees, t);
    JoinsAt(teams, employees, t);
    ids := [];
    var k := 0;
    while k < |arrivals|
      invariant 0 <= k <= |arrivals| == |ps|
      invariant ledger.Valid() && ledger.history == old(ledger.history)
      invariant ledger.pending == old(ledger.pending) + Queued(old(ledger.counter), ps[..k], now)
      invariant ledger.counter == old(ledger.counter) + k
      invariant ids == Consecutive(old(ledger.counter), k)
    {
      ids := NotifyArrival(ledger, arrivals[k], teams, now, old(ledger.pending), old(ledger.counter), ps[..k], ids);
      PrefixSnoc(ps, k);
      k := k + 1;
    }
    assert ps[..k] == ps;
  }

  /** The body of the arrival loop: the suggestion, then the join notification. */
  method NotifyArrival(ledger: NotificationSystem, e: Employee, teams: seq<Team>, now: int,
                       ghost before: seq<Notification>, ghost first: nat, ghost done: seq<Payload>, ids: seq<nat>)
    returns (ids': seq<nat>)
    requires ledger.Valid()
    requires ledger.pending == before + Queued(first, done, now) && ledger.counter == first + |done|
    requires ids == Consecutive(first, |done|)
    modifies ledger
    ensures ledger.Valid() && ledger.history == old(ledger.history)
    ensures ledger.pending == before + Queued(first, done + [JoinPayload(e, teams)], now)
    ensures ledger.counter == first + |done| + 1
    ensures ids' == Consecutive(first, |done| + 1)
  {
    var suggested := SuggestTeam(teams);
    var payload := TeamJoin(FlipName(e.name), e.id, if suggested.Some? then suggested.value else NoSuggestion,
                            e.start, e.end, suggested);
    ids' := Emit(ledger, payload, now, before, first, done, ids);
  }

  // ----- approved changes and swaps -----

  function OtherIdTest(id: string): Employee -> bool {
    (m: Employee) => m.id != id
  }

  /** The members without anyone carrying `id`, in order. */
  function WithoutId(members: seq<Employee>, id: string): (r: seq<Employee>)
    ensures forall m :: m in r <==> m in members && m.id != id
  {
    Filter(members, OtherIdTest(id))
  }

  /** How many members carry `id`. */
  function CountId(members: seq<Employee>, id: string): nat {
    if members == [] then 0
    else CountId(members[..|members| - 1], id) + (if members[|members| - 1].id == id then 1 else 0)
  }

  /** Removing an id drops exactly the members carrying it. */
  lemma {:induction false} WithoutIdCount(members: seq<Employee>, id: string)
    ensures |WithoutId(members, id)| + CountId(members, id) == |members|
  {
    if members != [] {
      WithoutIdCount(members[..|members| - 1], id);
    }
  }

  /** Which change an approved notification describes (`change['type']` with its data). */
  datatype ChangeAction =
    | Replacement(leavingId: string, joining: Employee)
    | Departure(leavingId: string)
    | OtherChange(kind: string)

  datatype TeamChange = TeamChange(team: string, action: ChangeAction)

  /** A replacement on one team: the leaving id out, the joining member appended at the
      end; the declared size is left as it was. */
  function Replaced(team: Team, leavingId: string, joining: Employee): (r: Team)
    ensures Mirrors(r) && r.name == team.name && r.size == team.size
  {
    WithMembers(team, WithoutId(team.members, leavingId) + [joining])
  }

  /** A departure from one team: the leaving id out, the size recounted. */
  function Departed(team: Team, leavingId: string): (r: Team)
    ensures Mirrors(r) && r.name == team.name
  {
    var kept := WithoutId(team.members, leavingId);
    WithMembers(team, kept).(size := |kept|)
  }

  /** After a replacement the joining member's id is on the team and, unless it is the
      leaving id itself, the leaving id is not; every other member stays; the team grows
      by one less than the number of members dropped, so a size that was right stays
      right when exactly one member left. */
  lemma {:induction false} ReplacedSpec(team: Team, leavingId: string, joining: Employee)
    ensures var r := Replaced(team, leavingId, joining);
      && joining.id in r.memberIds
      && (joining.id != leavingId ==> leavingId !in r.memberIds)
      && (forall m :: m in team.members && m.id != leavingId ==> m in r.members)
      && |r.members| == |team.members| - CountId(team.members, leavingId) + 1
      && (team.size == |team.members| && CountId(team.members, leavingId) == 1 ==> r.size == |r.members|)
  {
    var r := Replaced(team, leavingId, joining);
    WithoutIdCount(team.members, leavingId);
    assert r.memberIds[|r.members| - 1] == joining.id;
    if joining.id != leavingId {
      forall i | 0 <= i < |r.members|
        ensures r.memberIds[i] != leavingId
      {
        assert r.members[i] in r.members;
      }
    }
  }

  /** After a departure nobody with the leaving id is on the team, everybody else stays,
      and the declared size is the member count. */
  lemma {:induction false} DepartedSpec(team: Team, leavingId: string)
    ensures var r := Departed(team, leavingId);
      && leavingId !in r.memberIds
      && (forall m :: m in team.members && m.id != leavingId ==> m in r.members)
      && r.size == |r.members| == |team.members| - CountId(team.members, leavingId)
  {
    var r := Departed(team, leavingId);
    WithoutIdCount(team.members, leavingId);
    forall i | 0 <= i < |r.members|
      ensures r.memberIds[i] != leavingId
    {
      assert r.members[i] in r.members;
    }
  }

  /** The team list after `apply_team_change` with an approved change. */
  function Applied(teams: seq<Team>, change: TeamChange): seq<Team>
    requires change.action.OtherChange? || Find(teams, change.team).Some?
  {
    match change.action
    case Replacement(leavingId, joining) =>
      var i := Find(teams, change.team).value;
      teams[i := Replaced(teams[i], leavingId, joining)]
    case Departure(leavingId) =>
      var i := Find(teams, change.team).value;
      teams[i := Departed(teams[i], leavingId)]
    case OtherChange(_) => teams
  }

  /** The first member carrying `id`. */
  function FirstWithId(members: seq<Employee>, id: string): (r: Option<Employee>)
    ensures r.Some? ==> r.value in members && r.value.id == id
    ensures r.None? ==> forall m :: m in members ==> m.id != id
  {
    if members == [] then None
    else if members[0].id == id then Some(members[0])
    else
      assert forall m :: m in members ==> m == members[0] || m in members[1..];
      FirstWithId(members[1..], id)
  }

  /** The member loop of `manually_swap_members`. */
  method FindMember(members: seq<Employee>, id: string) returns (r: Option<Employee>)
    ensures r == FirstWithId(members, id)
  {
    r := None;
    var i := 0;
    while i < |members|
      invariant 0 <= i <= |members| && r.None? && FirstWithId(members[i..], id) == FirstWithId(members, id)
    {
      if members[i].id == id {
        r := Some(members[i]);
        break;
      }
      assert members[i..][1..] == members[i + 1..];
      i := i + 1;
    }
  }

  ghost predicate CanSwap(teams: seq<Team>, from: string, to: string, id: string) {
    Find(teams, from).Some? && Find(teams, to).Some? && FirstWithId(teams[Find(teams, from).value].members, id).Some?
  }

  /** The team list after `manually_swap_members`: the first member with `id` on `from`
      moves to the end of `to`; every copy of the id leaves `from`; both sizes recounted. */
  function Swapped(teams: seq<Team>, from: string, to: string, id: string): seq<Team>
    requires CanSwap(teams, from, to, id)
  {
    var i := Find(teams, from).value;
    var e := FirstWithId(teams[i].members, id).value;
    var kept := WithoutId(teams[i].members, id);
    var left := teams[i := WithMembers(teams[i], kept).(size := |kept|)];
    var j := Find(teams, to).value;
    var grown := left[j].members + [e];
    left[j := WithMembers(left[j], grown).(size := |grown|)]
  }

  /** The steps of `manually_swap_members` on the team list: look both teams up, find the
      member, drop every copy of its id from `from`, append it to `to`, refresh both. */
  method SwapInList(teams: seq<Team>, from: string, to: string, id: string) returns (ok: bool, r: seq<Team>)
    ensures ok <==> CanSwap(teams, from, to, id)
    ensures ok ==> r == Swapped(teams, from, to, id)
    ensures !ok ==> r == teams
  {
    var fromAt := Find(teams, from);
    var toAt := Find(teams, to);
    if fromAt.None? || toAt.None? {
      return false, teams;
    }
    var i, j := fromAt.value, toAt.value;
    var employee := FindMember(teams[i].members, id);
    if employee.None? {
      return false, teams;
    }
    r := teams;
    var kept := WithoutId(r[i].members, id);
    r := r[i := r[i].(members := kept, size := |kept|)];
    var grown := r[j].members + [employee.value];
    r := r[j := r[j].(members := grown, size := |grown|)];
    r := r[i := WithMembers(r[i], r[i].members)];
    r := r[j := WithMembers(r[j], r[j].members)];
    ok := true;
  }

  /** A swap keeps the registry well formed and changes only the two teams involved. */
  lemma {:induction false} SwappedRegistry(teams: seq<Team>, from: string, to: string, id: string)
    requires Registry(teams) && CanSwap(teams, from, to, id)
    ensures Registry(Swapped(teams, from, to, id)) && SameNames(Swapped(teams, from, to, id), teams)
    ensures forall k :: 0 <= k < |teams| && k != Find(teams, from).value && k != Find(teams, to).value ==>
      Swapped(teams, from, to, id)[k] == teams[k]
  {
    var i := Find(teams, from).value;
    var kept := WithoutId(teams[i].members, id);
    var left := teams[i := WithMembers(teams[i], kept).(size := |kept|)];
    ReplaceKeepsRegistry(teams, i, WithMembers(teams[i], kept).(size := |kept|));
    var j := Find(teams, to).value;
    var grown := left[j].members + [FirstWithId(teams[i].members, id).value];
    ReplaceKeepsRegistry(left, j, WithMembers(left[j], grown).(size := |grown|));
  }

  /** Between two different teams: the member is on `to` (appended at the end), no copy
      of the id is left on `from`, both sizes are member counts, and the two teams
      together lose exactly the extra copies of the id. */
  lemma {:induction false} SwapMoves(teams: seq<Team>, from: string, to: string, id: string)
    requires Registry(teams) && CanSwap(teams, from, to, id) && from != to
    ensures var i, j := Find(teams, from).value, Find(teams, to).value;
      var e := FirstWithId(teams[i].members, id).value;
      var r := Swapped(teams, from, to, id);
      && r[j].members == teams[j].members + [e]
      && id !in r[i].memberIds
      && r[i].size == |r[i].members| && r[j].size == |r[j].members|
      && |r[i].members| + |r[j].members| == |teams[i].members| + |teams[j].members| + 1 - CountId(teams[i].members, id)
  {
    var i := Find(teams, from).value;
    var r := Swapped(teams, from, to, id);
    WithoutIdCount(teams[i].members, id);
    forall k | 0 <= k < |r[i].members|
      ensures r[i].memberIds[k] != id
    {
      assert r[i].members[k] in r[i].members;
    }
  }

  /** Within one team the member moves to the end and the other copies of its id vanish. */
  lemma {:induction false} SwapWithinTeam(teams: seq<Team>, name: string, id: string)
    requires Registry(teams) && CanSwap(teams, name, name, id)
    ensures var i := Find(teams, name).value;
      Swapped(teams, name, name, id)[i].members == WithoutId(teams[i].members, id) + [FirstWithId(teams[i].members, id).value]
  {
  }

  // ----- summaries -----

  /** The record `get_team_summary` lists for a team. */
  datatype TeamSummary = TeamSummary(teamName: string, size: nat, members: seq<string>, flightCount: nat, status: string)

  /** The team's summary: "On Flight" exactly while it is on a flight, "Available" otherwise;
      every team that qualifies for a flight shows "Available". */
  function Summary(team: Team): (s: TeamSummary)
    ensures s.teamName == team.name && s.members == team.memberNames && s.size == team.size
    ensures s.status == "On Flight" <==> team.currentFlight.Some?
    ensures s.status == "Available" <==> team.currentFlight.None?
    ensures forall t, minBreak :: Qualifies(team, t, minBreak) ==> s.status == "Available"
  {
    TeamSummary(team.name, team.size, team.memberNames, team.flightCount,
                if team.currentFlight.Some? then "On Flight" else "Available")
  }

  // ----- the registry object -----

  class TeamManager {
    /** `teams`, in dictionary order. */
    var teams: seq<Team>
    /** `notification_system`: `null` when the manager reports to nobody. */
    const notifier: NotificationSystem?

    ghost predicate Valid()
      reads this, notifier
    {
      Registry(teams) && (notifier != null ==> notifier.Valid())
    }

    constructor (notifier: NotificationSystem?)
      requires notifier != null ==> notifier.Valid()
      ensures Valid() && teams == [] && this.notifier == notifier
    {
      teams := [];
      this.notifier := notifier;
    }

    /** `form_initial_teams(employees, shift_start)`. `shuffled` is the on-shift list
        after `random.shuffle`: any reordering of it. Teams formed earlier under labels
        that are not reused are kept. */
    method FormInitialTeams(employees: seq<Employee>, shiftStart: int, shuffled: seq<Employee>) returns (r: Formation)
      requires Valid()
      requires IsShuffle(shuffled, OnShift(employees, shiftStart))
      modifies this
      ensures Valid()
      ensures |OnShift(employees, shiftStart)| == 0 ==> r == NoStaff(NoStaffMessage) && teams == old(teams)
      ensures |OnShift(employees, shiftStart)| > 0 ==>
        var sizes := Distribution(|OnShift(employees, shiftStart)|, MinSize, CriticalMin).1;
        r == Formed(shuffled[Sum(sizes)..]) && teams == UpsertAll(old(teams), InitialTeams(shuffled, sizes))
    {
      var available := OnShift(employees, shiftStart);
      var total := |available|;
      if total == 0 {
        return NoStaff(NoStaffMessage);
      }
      var numTeams, sizes := CalculateTeamDistribution(total, IdealSize, MinSize, CriticalMin);
      var index := PlaceTeams(shuffled, sizes);
      r := Formed(shuffled[index..]);
    }

    /** The team loop of `form_initial_teams`: consecutive slices of `shuffled` under
        consecutive labels; returns where the next slice would start. */
    method PlaceTeams(shuffled: seq<Employee>, sizes: seq<nat>) returns (index: nat)
      requires Valid() && |sizes| <= |TeamLabels| && Sum(sizes) <= |shuffled|
      modifies this
      ensures Valid() && index == Sum(sizes)
      ensures teams == UpsertAll(old(teams), InitialTeams(shuffled, sizes))
    {
      index := 0;
      var i := 0;
      while i < |sizes|
        invariant 0 <= i <= |sizes| && index == Sum(sizes[..i]) <= |shuffled|
        invariant Valid()
        invariant teams == UpsertAll(old(teams), InitialTeams(shuffled, sizes[..i]))
      {
        InitialTeamsSnoc(shuffled, sizes, i);
        var team := NewTeam(TeamLabels[i], shuffled[index..index + sizes[i]], sizes[i]);
        UpsertAllSnoc(old(teams), InitialTeams(shuffled, sizes[..i]), team);
        SetTeam(team);
        index := index + sizes[i];
        i := i + 1;
      }
      assert sizes[..i] == sizes;
    }

    /** `self.teams[team.name] = team`. */
    method SetTeam(team: Team)
      requires Valid() && Mirrors(team)
      modifies this
      ensures Valid() && teams == Upsert(old(teams), team)
    {
      UpsertSpec(teams, team);
      teams := Upsert(teams, team);
    }

    /** `get_available_teams(flight_time, min_break)`. */
    method GetAvailableTeams(flightTime: int, minBreak: int) returns (r: seq<TeamView>)
      requires Valid()
      ensures r == AvailableTeams(teams, flightTime, minBreak)
    {
      r := [];
      var i := 0;
      while i < |teams|
        invariant 0 <= i <= |teams| && r == AvailableTeams(teams[..i], flightTime, minBreak)
      {
        var team := teams[i];
        assert teams[..i + 1][..i] == teams[..i];
        if team.currentFlight.None? && (team.lastFlightEnd.None? || flightTime - team.lastFlightEnd.value >= minBreak) {
          var all := AllStillWorking(team.members, flightTime);
          if all {
            r := r + [View(team)];
          }
        }
        i := i + 1;
      }
      assert teams[..i] == teams;
    }

    /** `assign_team_to_flight(name, flight)`. */
    method AssignTeamToFlight(name: string, flight: Flight) returns (ok: bool)
      requires Valid()
      modifies this
      ensures Valid()
      ensures ok <==> Find(old(teams), name).Some?
      ensures ok ==> var i := Find(old(teams), name).value; teams == old(teams)[i := Booked(old(teams)[i], flight)]
      ensures !ok ==> teams == old(teams)
    {
      var found := Find(teams, name);
      if found.None? {
        return false;
      }
      var i := found.value;
      ReplaceKeepsRegistry(teams, i, Booked(teams[i], flight));
      teams := teams[i := Booked(teams[i], flight)];
      ok := true;
    }

    /** `complete_flight(name, end)`. */
    method CompleteFlight(name: string, end: int) returns (ok: bool)
      requires Valid()
      modifies this
      ensures Valid()
      ensures ok <==> Find(old(teams), name).Some?
      ensures ok ==> var i := Find(old(teams), name).value; teams == old(teams)[i := Released(old(teams)[i], end)]
      ensures !ok ==> teams == old(teams)
    {
      var found := Find(teams, name);
      if found.None? {
        return false;
      }
      var i := found.value;
      ReplaceKeepsRegistry(teams, i, Released(teams[i], end));
      teams := teams[i := Released(teams[i], end)];
      ok := true;
    }

    /** `detect_and_notify_changes(employees, t)`: nothing without a ledger; otherwise one
        notification per payload of `ChangePayloads`, queued in order, all stamped `now`. */
    method DetectAndNotifyChanges(employees: seq<Employee>, t: int, now: int) returns (ids: seq<nat>)
      requires Valid()
      modifies notifier
      ensures Valid()
      ensures notifier == null ==> ids == []
      ensures notifier != null ==>
        var ps := ChangePayloads(teams, employees, t);
        && notifier.pending == old(notifier.pending) + Queued(old(notifier.counter), ps, now)
        && notifier.counter == old(notifier.counter) + |ps|
        && notifier.history == old(notifier.history)
        && ids == Consecutive(old(notifier.counter), |ps|)
    {
      if notifier == null {
        return [];
      }
      ids := NotifyAll(notifier, teams, employees, t, now);
    }

    /** `apply_team_change(change, approved)`. A replacement or departure names a team the
        registry has (the source fails on an unknown one). */
    method ApplyTeamChange(change: TeamChange, approved: bool) returns (ok: bool)
      requires Valid()
      requires approved && !change.action.OtherChange? ==> Find(teams, change.team).Some?
      modifies this
      ensures Valid()
      ensures ok == approved
      ensures teams == if approved then Applied(old(teams), change) else old(teams)
    {
      if !approved {
        return false;
      }
      match change.action {
        case Replacement(leavingId, joining) =>
          var i := Find(teams, change.team).value;
          ReplaceKeepsRegistry(teams, i, Replaced(teams[i], leavingId, joining));
          teams := teams[i := Replaced(teams[i], leavingId, joining)];
        case Departure(leavingId) =>
          var i := Find(teams, change.team).value;
          ReplaceKeepsRegistry(teams, i, Departed(teams[i], leavingId));
          teams := teams[i := Departed(teams[i], leavingId)];
        case OtherChange(_) =>
      }
      ok := true;
    }

    /** `get_team_summary()`. */
    method GetTeamSummary() returns (summary: seq<TeamSummary>)
      requires Valid()
      ensures |summary| == |teams| && forall i :: 0 <= i < |teams| ==> summary[i] == Summary(teams[i])
    {
      summary := [];
      var i := 0;
      while i < |teams|
        invariant 0 <= i <= |teams| && |summary| == i
        invariant forall k :: 0 <= k < i ==> summary[k] == Summary(teams[k])
      {
        summary := summary + [Summary(teams[i])];
        i := i + 1;
      }
    }

    /** `manually_swap_members(from, to, id)`. */
    method ManuallySwapMembers(from: string, to: string, id: string) returns (ok: bool)
      requires Valid()
      modifies this
      ensures Valid()
      ensures ok <==> CanSwap(old(teams), from, to, id)
      ensures ok ==> teams == Swapped(old(teams), from, to, id)
      ensures !ok ==> teams == old(teams)
    {
      var r;
      ok, r := SwapInList(teams, from, to, id);
      if ok {
        SwappedRegistry(teams, from, to, id);
      }
      teams := r;
    }
  }
}
