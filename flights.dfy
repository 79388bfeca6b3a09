/** The flight table and its heaviness configuration (`FlightHandler`,
    src/flight_handler.py). Times are integer minutes. */
module Flights {
  import opened Text

  /** One turnaround row: inbound flight number and city, outbound flight number and
      city, aircraft tag, arrival and departure, gate, and the heaviness class
      (`None` for a missing value). */
  datatype Flight = Flight(
    number: int, city: string, outboundFlight: int, outboundCity: string, aircraft: string,
    eta: int, etd: int, gate: string, heaviness: Option<string>)
  {
    /** `turnaround_minutes`: minutes between arrival and departure. */
    function Turnaround(): int {
      etd - eta
    }
  }

  /** `get_team_size_needed`: Light needs 3, Medium 4, Heavy 5, anything else
      (an unknown class or a missing value) 4. */
  function TeamSizeNeeded(heaviness: Option<string>): (size: nat)
    ensures size == 3 <==> heaviness == Some("Light")
    ensures size == 5 <==> heaviness == Some("Heavy")
    ensures size == 3 || size == 4 || size == 5
  {
    match heaviness
    case Some("Light") => 3
    case Some("Medium") => 4
    case Some("Heavy") => 5
    case _ => 4
  }

  /** The class `add_flight_heaviness` gives a row: with a heaviness column a missing value
      becomes Medium and a present one is kept; without one the three-way select on
      turnaround tests `== 60` three times, so only its first branch (Heavy) can fire. */
  function DefaultHeaviness(f: Flight, hasHeavinessColumn: bool): (h: string)
    ensures hasHeavinessColumn && f.heaviness.Some? ==> h == f.heaviness.value
    ensures hasHeavinessColumn && f.heaviness.None? ==> h == "Medium"
    ensures !hasHeavinessColumn ==> (h == "Heavy" <==> f.Turnaround() == 60)
    ensures !hasHeavinessColumn ==> (h == "Heavy" || h == "Medium")
  {
    if hasHeavinessColumn then
      f.heaviness.GetOr("Medium")
    else
      var conditions := [f.Turnaround() == 60, f.Turnaround() == 60, f.Turnaround() == 60];
      var choices := ["Heavy", "Medium", "Light"];
      SelectFirst(conditions, choices, "Medium")
  }

  /** `np.select`: the choice beside the first condition that holds, else the default. */
  function SelectFirst(conditions: seq<bool>, choices: seq<string>, default: string): (r: string)
    requires |conditions| == |choices|
    ensures (forall i :: 0 <= i < |conditions| ==> !conditions[i]) ==> r == default
    ensures forall i :: 0 <= i < |conditions| && conditions[i] && (forall k :: 0 <= k < i ==> !conditions[k])
                        ==> r == choices[i]
  {
    if conditions == [] then default
    else if conditions[0] then choices[0]
    else SelectFirst(conditions[1..], choices[1..], default)
  }

  /** The value of the last override rule whose key `hits` the row, if any: the rule
      the loops of `set_manual_heaviness_*` leave in force. */
  function LastMatch<K>(f: Flight, rules: seq<(K, string)>, hits: (Flight, K) -> bool): Option<string> {
    if rules == [] then
      None
    else if hits(f, rules[|rules| - 1].0) then
      Some(rules[|rules| - 1].1)
    else
      LastMatch(f, rules[..|rules| - 1], hits)
  }

  /** `k` is the last rule that hits the row. */
  ghost predicate LastHit<K>(f: Flight, rules: seq<(K, string)>, hits: (Flight, K) -> bool, k: int) {
    0 <= k < |rules| && hits(f, rules[k].0) && forall k' :: k < k' < |rules| ==> !hits(f, rules[k'].0)
  }

  /** No rule in force exactly when none hits the row; otherwise the one in force is the last that hits. */
  lemma {:induction false} LastMatchSpec<K>(f: Flight, rules: seq<(K, string)>, hits: (Flight, K) -> bool)
    ensures LastMatch(f, rules, hits).None? <==> forall k :: 0 <= k < |rules| ==> !hits(f, rules[k].0)
    ensures LastMatch(f, rules, hits).Some? ==>
      exists k :: LastHit(f, rules, hits, k) && rules[k].1 == LastMatch(f, rules, hits).value
  {
    if rules != [] {
      var n := |rules| - 1;
      if hits(f, rules[n].0) {
        assert LastHit(f, rules, hits, n);
      } else {
        var init := rules[..n];
        LastMatchSpec(f, init, hits);
        assert forall k :: 0 <= k < n ==> init[k] == rules[k];
        if LastMatch(f, init, hits).Some? {
          var k :| LastHit(f, init, hits, k) && init[k].1 == LastMatch(f, init, hits).value;
          assert LastHit(f, rules, hits, k);
        }
      }
    }
  }

  /** A row after a set of override rules: the last matching rule's class, else unchanged. */
  function Overridden<K>(f: Flight, rules: seq<(K, string)>, hits: (Flight, K) -> bool): Flight {
    match LastMatch(f, rules, hits)
    case Some(h) => f.(heaviness := Some(h))
    case None => f
  }

  /** A rule's match does not depend on the heaviness class it may overwrite. */
  ghost predicate IgnoresHeaviness<K(!new)>(hits: (Flight, K) -> bool) {
    forall f: Flight, key: K, h: Option<string> :: hits(f.(heaviness := h), key) == hits(f, key)
  }

  predicate CityHit(f: Flight, city: string) {
    f.city == city || f.outboundCity == city
  }

  predicate FlightNumberHit(f: Flight, number: int) {
    f.number == number || f.outboundFlight == number
  }

  predicate AircraftHit(f: Flight, aircraft: string) {
    f.aircraft == aircraft
  }

  class FlightHandler {
    /** `flights_df`: `None` until a flight table has been loaded. */
    var flights: Option<seq<Flight>>

    constructor ()
      ensures flights == None
    {
      flights := None;
    }

    /** `add_flight_heaviness`; whether the table has a heaviness column is a property of
        the loaded file, passed in. */
    method AddFlightHeaviness(hasHeavinessColumn: bool)
      modifies this
      ensures old(flights).None? ==> flights == old(flights)
      ensures old(flights).Some? ==> flights.Some? && |flights.value| == |old(flights).value|
      ensures old(flights).Some? ==> forall i :: 0 <= i < |flights.value| ==>
        flights.value[i] == old(flights).value[i].(heaviness := Some(DefaultHeaviness(old(flights).value[i], hasHeavinessColumn)))
    {
      if flights.None? {
        return;
      }
      var rows := flights.value;
      flights := Some(seq(|rows|, i requires 0 <= i < |rows| =>
        rows[i].(heaviness := Some(DefaultHeaviness(rows[i], hasHeavinessColumn)))));
    }

    /** Applies the rules one after another, each overwriting the class of every row it hits. */
    method ApplyOverrides<K(!new)>(rules: seq<(K, string)>, hits: (Flight, K) -> bool)
      requires IgnoresHeaviness(hits)
      modifies this
      ensures old(flights).None? ==> flights == old(flights)
      ensures old(flights).Some? ==> flights.Some? && |flights.value| == |old(flights).value|
      ensures old(flights).Some? ==> forall i :: 0 <= i < |flights.value| ==>
        flights.value[i] == Overridden(old(flights).value[i], rules, hits)
    {
      if flights.None? {
        return;
      }
      ghost var original := flights.value;
      var n := 0;
      while n < |rules|
        invariant 0 <= n <= |rules|
        invariant flights.Some? && |flights.value| == |original|
        invariant forall i :: 0 <= i < |original| ==> flights.value[i] == Overridden(original[i], rules[..n], hits)
      {
        var (key, heaviness) := rules[n];
        var rows := flights.value;
        flights := Some(seq(|rows|, i requires 0 <= i < |rows| =>
          if hits(rows[i], key) then rows[i].(heaviness := Some(heaviness)) else rows[i]));
        assert rules[..n + 1] == rules[..n] + [rules[n]];
        forall i | 0 <= i < |original|
          ensures flights.value[i] == Overridden(original[i], rules[..n + 1], hits)
        {
          RuleStep(original[i], rules[..n], rules[n], hits);
        }
        n := n + 1;
      }
      assert rules[..n] == rules;
    }

    /** `set_manual_heaviness_by_city`: a rule hits a row whose inbound or outbound city is its key. */
    method SetManualHeavinessByCity(rules: seq<(string, string)>)
      modifies this
      ensures old(flights).None? ==> flights == old(flights)
      ensures old(flights).Some? ==> flights.Some? && |flights.value| == |old(flights).value|
      ensures old(flights).Some? ==> forall i :: 0 <= i < |flights.value| ==>
        flights.value[i] == Overridden(old(flights).value[i], rules, CityHit)
    {
      ApplyOverrides(rules, CityHit);
    }

    /** `set_manual_heaviness_by_flight`: a rule hits a row whose inbound or outbound flight number is its key. */
    method SetManualHeavinessByFlight(rules: seq<(int, string)>)
      modifies this
      ensures old(flights).None? ==> flights == old(flights)
      ensures old(flights).Some? ==> flights.Some? && |flights.value| == |old(flights).value|
      ensures old(flights).Some? ==> forall i :: 0 <= i < |flights.value| ==>
        flights.value[i] == Overridden(old(flights).value[i], rules, FlightNumberHit)
    {
      ApplyOverrides(rules, FlightNumberHit);
    }

    /** `set_manual_heaviness_by_aircraft`: a rule hits a row whose aircraft tag is its key. */
    method SetManualHeavinessByAircraft(rules: seq<(string, string)>)
      modifies this
      ensures old(flights).None? ==> flights == old(flights)
      ensures old(flights).Some? ==> flights.Some? && |flights.value| == |old(flights).value|
      ensures old(flights).Some? ==> forall i :: 0 <= i < |flights.value| ==>
        flights.value[i] == Overridden(old(flights).value[i], rules, AircraftHit)
    {
      ApplyOverrides(rules, AircraftHit);
    }
  }

  /** Overriding changes at most the heaviness class of a row, and leaves rows no rule hits as they were. */
  lemma {:induction false} OverriddenTouchesOnlyHeaviness<K>(f: Flight, rules: seq<(K, string)>, hits: (Flight, K) -> bool)
    ensures Overridden(f, rules, hits).(heaviness := f.heaviness) == f
    ensures (forall k :: 0 <= k < |rules| ==> !hits(f, rules[k].0)) ==> Overridden(f, rules, hits) == f
  {
    LastMatchSpec(f, rules, hits);
  }

  /** One more rule: it decides the row if it hits, otherwise the earlier rules do. */
  lemma {:induction false} OverriddenSnoc<K>(f: Flight, rules: seq<(K, string)>, rule: (K, string), hits: (Flight, K) -> bool)
    ensures Overridden(f, rules + [rule], hits)
      == if hits(f, rule.0) then f.(heaviness := Some(rule.1)) else Overridden(f, rules, hits)
  {
    var s := rules + [rule];
    assert s[..|s| - 1] == rules && s[|s| - 1] == rule;
  }

  /** Applying one more rule to an overridden row gives the row overridden by both. */
  lemma {:induction false} RuleStep<K(!new)>(f: Flight, rules: seq<(K, string)>, rule: (K, string), hits: (Flight, K) -> bool)
    requires IgnoresHeaviness(hits)
    ensures var row := Overridden(f, rules, hits);
      (if hits(row, rule.0) then row.(heaviness := Some(rule.1)) else row) == Overridden(f, rules + [rule], hits)
  {
    var row := Overridden(f, rules, hits);
    OverriddenSnoc(f, rules, rule, hits);
    OverriddenTouchesOnlyHeaviness(f, rules, hits);
    assert row == f.(heaviness := row.heaviness);
  }

  /** A city named by a later rule wins over one named earlier, whichever of the two
      cities of the row each one matches. */
  lemma {:induction false} LaterCityRuleWins(f: Flight, rules: seq<(string, string)>, i: nat, j: nat)
    requires i < j < |rules| && CityHit(f, rules[i].0) && CityHit(f, rules[j].0)
    requires forall k :: j < k < |rules| ==> !CityHit(f, rules[k].0)
    ensures Overridden(f, rules, CityHit).heaviness == Some(rules[j].1)
  {
    LastMatchSpec(f, rules, CityHit);
    var r := LastMatch(f, rules, CityHit);
    assert r.Some?;
    var k :| LastHit(f, rules, CityHit, k) && rules[k].1 == r.value;
    assert k == j;
  }
}
