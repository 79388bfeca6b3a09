/** The notification ledger (`NotificationSystem`, src/notification_system.py):
    a counter that hands out ids, a FIFO queue of pending notifications and an
    append-only history of resolved ones. The wall clock is the `now` parameter. */
module Notifications {
  import opened Text

  /** A notification's type together with the data recorded for it. Times are minutes;
      the source stores them already rendered as `%H:%M`. `OtherKind` is a type string
      outside the four the ledger knows how to display. */
  datatype Payload =
    | TeamJoin(employeeName: string, employeeId: string, teamName: string,
               shiftStart: int, shiftEnd: int, suggestedTeam: Option<string>)
    | TeamLeave(teamName: string, employeeName: string, employeeId: string,
                leaveTime: int, remainingTeamSize: nat)
    | TeamReplacement(teamName: string, leavingName: string, leavingId: string, replacementTime: int,
                      joiningName: string, joiningId: string, joinTime: int,
                      joiningShiftStart: int, joiningShiftEnd: int)
    | RemainderEmployee(employeeName: string, shiftStart: int, shiftEnd: int, suggestedTeam: Option<string>)
    | OtherKind(kind: string)
  {
    /** The `type` string the source stores. */
    function Kind(): string {
      match this
      case TeamJoin(_, _, _, _, _, _) => "team_join"
      case TeamLeave(_, _, _, _, _) => "team_leave"
      case TeamReplacement(_, _, _, _, _, _, _, _, _) => "team_replacement"
      case RemainderEmployee(_, _, _, _) => "remainder_employee"
      case OtherKind(k) => k
    }
  }

  /** `pending`, then exactly one of the two terminal states with what the source records on it. */
  datatype Status =
    | Pending
    | Approved(approvedAt: int, manualOverride: Option<string>)
    | Rejected(rejectedAt: int, reason: Option<string>)

  datatype Notification = Notification(id: nat, payload: Payload, timestamp: int, status: Status)

  /** What `approve_notification` and `reject_notification` return: the resolved
      notification, or the `(False, "Notification not found")` answer. */
  datatype Resolution = Resolved(notification: Notification) | NotFound(message: string)

  const NotFoundMessage: string := "Notification not found"

  /** Position of the first notification in `q` with id `id`. */
  function IndexOfId(q: seq<Notification>, id: nat): (r: Option<nat>)
    ensures r.Some? ==> r.value < |q| && q[r.value].id == id && forall k :: 0 <= k < r.value ==> q[k].id != id
    ensures r.None? ==> forall k :: 0 <= k < |q| ==> q[k].id != id
  {
    if q == [] then None
    else if q[0].id == id then Some(0)
    else match IndexOfId(q[1..], id)
      case None => None
      case Some(i) => Some(i + 1)
  }

  /** The history entries newer than `cutoff`, in their order. */
  function KeptSince(history: seq<Notification>, cutoff: int): (r: seq<Notification>)
    ensures |r| <= |history|
    ensures forall n :: n in r <==> n in history && n.timestamp > cutoff
  {
    if history == [] then []
    else if history[0].timestamp > cutoff then [history[0]] + KeptSince(history[1..], cutoff)
    else KeptSince(history[1..], cutoff)
  }

  ghost predicate DistinctIds(s: seq<Notification>) {
    forall i, j :: 0 <= i < j < |s| ==> s[i].id != s[j].id
  }

  lemma {:induction false} KeptSinceDistinct(history: seq<Notification>, cutoff: int)
    requires DistinctIds(history)
    ensures DistinctIds(KeptSince(history, cutoff))
  {
    if history != [] {
      KeptSinceDistinct(history[1..], cutoff);
      var rest := KeptSince(history[1..], cutoff);
      if history[0].timestamp > cutoff {
        forall j | 0 <= j < |rest| ensures history[0].id != rest[j].id {
          assert rest[j] in history[1..];
        }
      }
    }
  }

  /** A pending queue: every entry pending, below the counter, ids increasing. */
  ghost predicate QueueOk(q: seq<Notification>, counter: nat) {
    && (forall i :: 0 <= i < |q| ==> q[i].status == Pending && q[i].id < counter)
    && (forall i, j :: 0 <= i < j < |q| ==> q[i].id < q[j].id)
  }

  /** A history: every entry resolved, below the counter, ids distinct. */
  ghost predicate HistoryOk(h: seq<Notification>, counter: nat) {
    && (forall i :: 0 <= i < |h| ==> !h[i].status.Pending? && h[i].id < counter)
    && DistinctIds(h)
  }

  /** No id is both pending and in the history. */
  ghost predicate Apart(q: seq<Notification>, h: seq<Notification>) {
    forall i, j :: 0 <= i < |q| && 0 <= j < |h| ==> q[i].id != h[j].id
  }

  /** Taking entry `i` out of a valid queue and resolving it into a valid history keeps
      both valid and apart, and leaves its id nowhere in the queue. */
  lemma {:induction false} ResolveKeepsLedger(q: seq<Notification>, h: seq<Notification>, counter: nat, i: nat, outcome: Status)
    requires QueueOk(q, counter) && HistoryOk(h, counter) && Apart(q, h)
    requires i < |q| && !outcome.Pending?
    ensures QueueOk(q[..i] + q[i + 1..], counter)
    ensures HistoryOk(h + [q[i].(status := outcome)], counter)
    ensures Apart(q[..i] + q[i + 1..], h + [q[i].(status := outcome)])
    ensures forall n :: n in q[..i] + q[i + 1..] ==> n.id != q[i].id
  {
    var rest := q[..i] + q[i + 1..];
    assert forall k :: 0 <= k < |rest| ==> rest[k] == if k < i then q[k] else q[k + 1];
  }

  /** What `format_notification` returns for display. */
  datatype Display = Display(
    id: nat, time: string, title: string, message: string, details: seq<(string, string)>,
    requiresAction: bool, allowManualSelection: bool)

  /** `format_notification`: one layout per known type, `None` for any other type. */
  function FormatNotification(n: Notification): (r: Option<Display>)
    ensures r.None? <==> n.payload.OtherKind?
    ensures r.Some? ==> r.value.id == n.id && r.value.requiresAction && r.value.time == Clock(n.timestamp) + ":00"
    ensures r.Some? ==> (r.value.allowManualSelection <==> n.payload.RemainderEmployee?)
    ensures r.Some? && n.payload.TeamLeave? ==>
      ("Team Size After", Decimal(n.payload.remainingTeamSize)) in r.value.details
  {
    var time := Clock(n.timestamp) + ":00";
    match n.payload
    case TeamJoin(name, _, team, start, end, _) =>
      Some(Display(n.id, time, "Team Member Joining", name + " is joining Team " + team,
                   [("Employee", name), ("Team", team), ("Shift", Clock(start) + " - " + Clock(end))],
                   true, false))
    case TeamReplacement(team, leaving, _, leaveAt, joining, _, joinedAt, shiftStart, shiftEnd) =>
      Some(Display(n.id, time, "Team Member Replacement",
                   joining + " will replace " + leaving + " on Team " + team + " at " + Clock(leaveAt),
                   [("Team", team), ("Leaving", leaving), ("Leaving At", Clock(leaveAt)),
                    ("Joining", joining), ("Joined At", Clock(joinedAt)),
                    ("New Member Shift", Clock(shiftStart) + " - " + Clock(shiftEnd))],
                   true, false))
    case TeamLeave(team, name, _, leaveAt, remaining) =>
      Some(Display(n.id, time, "Team Member Leaving",
                   name + " is leaving Team " + team + " (no replacement available)",
                   [("Employee", name), ("Team", team), ("Leaving At", Clock(leaveAt)),
                    ("Team Size After", Decimal(remaining))],
                   true, false))
    case RemainderEmployee(name, start, end, suggested) =>
      Some(Display(n.id, time, "Unassigned Employee Needs Team", name + " needs to be assigned to a team",
                   [("Employee", name), ("Shift", Clock(start) + " - " + Clock(end)),
                    ("Suggested Team", suggested.GetOr("None"))],
                   true, true))
    case OtherKind(_) => None
  }

  class NotificationSystem {
    /** `pending_notifications`, oldest first. */
    var pending: seq<Notification>
    /** `notification_history`, in resolution order. */
    var history: seq<Notification>
    /** `notification_id_counter`: the id the next notification gets. */
    var counter: nat
    /** How many history entries clearing has dropped so far. */
    ghost var cleared: nat

    /** Pending entries are pending and in creation order; history entries are resolved;
        every id was handed out and sits in at most one place; every id handed out is
        pending, in history, or was cleared. */
    ghost predicate Valid()
      reads this
    {
      && QueueOk(pending, counter)
      && HistoryOk(history, counter)
      && Apart(pending, history)
      && |pending| + |history| + cleared == counter
    }

    constructor ()
      ensures Valid() && pending == [] && history == [] && counter == 0 && cleared == 0
    {
      pending, history, counter := [], [], 0;
      cleared := 0;
    }

    /** `create_notification`: hands out the current counter value as the id and queues
        the new notification, pending, at the back. */
    method CreateNotification(payload: Payload, now: int) returns (id: nat)
      requires Valid()
      modifies this
      ensures Valid()
      ensures id == old(counter) && counter == old(counter) + 1
      ensures pending == old(pending) + [Notification(id, payload, now, Pending)]
      ensures history == old(history) && cleared == old(cleared)
    {
      id := counter;
      counter := counter + 1;
      pending := pending + [Notification(id, payload, now, Pending)];
    }

    /** `get_pending_notifications`: the pending queue, oldest first. */
    function GetPendingNotifications(): (r: seq<Notification>)
      reads this
      requires Valid()
      ensures |r| == GetNotificationCount()
      ensures forall i, j :: 0 <= i < j < |r| ==> r[i].id < r[j].id
      ensures forall i :: 0 <= i < |r| ==> r[i] == pending[i] && r[i].status == Pending
    {
      pending
    }

    /** `get_notification_count`: the number of pending notifications. */
    function GetNotificationCount(): (count: nat)
      reads this
      ensures count == |pending|
    {
      |pending|
    }

    /** The shared body of approve and reject: move the first pending notification with
        id `id` to the history with status `outcome`. */
    method Resolve(id: nat, outcome: Status) returns (r: Resolution)
      requires Valid() && !outcome.Pending?
      modifies this
      ensures Valid() && counter == old(counter) && cleared == old(cleared)
      ensures IndexOfId(old(pending), id).None? ==>
        r == NotFound(NotFoundMessage) && pending == old(pending) && history == old(history)
      ensures IndexOfId(old(pending), id).Some? ==>
        var i := IndexOfId(old(pending), id).value;
        && r == Resolved(old(pending)[i].(status := outcome))
        && pending == old(pending)[..i] + old(pending)[i + 1..]
        && history == old(history) + [r.notification]
      ensures r.Resolved? ==> forall k :: 0 <= k < |pending| ==> pending[k].id != id
    {
      var i := 0;
      while i < |pending|
        invariant 0 <= i <= |pending|
        invariant forall k :: 0 <= k < i ==> pending[k].id != id
      {
        if pending[i].id == id {
          break;
        }
        i := i + 1;
      }
      if i == |pending| {
        return NotFound(NotFoundMessage);
      }
      assert IndexOfId(pending, id) == Some(i);
      ResolveKeepsLedger(pending, history, counter, i, outcome);
      var resolved := pending[i].(status := outcome);
      pending := pending[..i] + pending[i + 1..];
      history := history + [resolved];
      r := Resolved(resolved);
    }

    /** `approve_notification`. */
    method ApproveNotification(id: nat, manualOverride: Option<string>, now: int) returns (r: Resolution)
      requires Valid()
      modifies this
      ensures Valid() && counter == old(counter) && cleared == old(cleared)
      ensures IndexOfId(old(pending), id).None? ==>
        r == NotFound(NotFoundMessage) && pending == old(pending) && history == old(history)
      ensures IndexOfId(old(pending), id).Some? ==>
        var i := IndexOfId(old(pending), id).value;
        && r == Resolved(old(pending)[i].(status := Approved(now, manualOverride)))
        && pending == old(pending)[..i] + old(pending)[i + 1..]
        && history == old(history) + [r.notification]
      ensures r.Resolved? ==> forall k :: 0 <= k < |pending| ==> pending[k].id != id
    {
      r := Resolve(id, Approved(now, manualOverride));
    }

    /** `reject_notification`. */
    method RejectNotification(id: nat, reason: Option<string>, now: int) returns (r: Resolution)
      requires Valid()
      modifies this
      ensures Valid() && counter == old(counter) && cleared == old(cleared)
      ensures IndexOfId(old(pending), id).None? ==>
        r == NotFound(NotFoundMessage) && pending == old(pending) && history == old(history)
      ensures IndexOfId(old(pending), id).Some? ==>
        var i := IndexOfId(old(pending), id).value;
        && r == Resolved(old(pending)[i].(status := Rejected(now, reason)))
        && pending == old(pending)[..i] + old(pending)[i + 1..]
        && history == old(history) + [r.notification]
      ensures r.Resolved? ==> forall k :: 0 <= k < |pending| ==> pending[k].id != id
    {
      r := Resolve(id, Rejected(now, reason));
    }

    /** `clear_old_notifications`: keeps the history entries created after `now - hours`. */
    method ClearOldNotifications(hours: int, now: int)
      requires Valid()
      modifies this
      ensures Valid() && counter == old(counter) && pending == old(pending)
      ensures history == KeptSince(old(history), now - hours * 60)
    {
      KeptSinceDistinct(history, now - hours * 60);
      var kept := KeptSince(history, now - hours * 60);
      assert forall i :: 0 <= i < |kept| ==> kept[i] in history;
      assert HistoryOk(kept, counter) && Apart(pending, kept) by {
        forall i | 0 <= i < |kept| ensures !kept[i].status.Pending? && kept[i].id < counter
          && forall j :: 0 <= j < |pending| ==> pending[j].id != kept[i].id
        {
          var k :| 0 <= k < |history| && history[k] == kept[i];
        }
      }
      cleared := cleared + (|history| - |kept|);
      history := kept;
    }
  }

  /** A resolved notification cannot be resolved again: after an approval that found it,
      a rejection of the same id finds nothing and changes nothing. */
  method ResolveTwice(ledger: NotificationSystem, id: nat, now: int) returns (first: Resolution, again: Resolution)
    requires ledger.Valid()
    modifies ledger
    ensures ledger.Valid()
    ensures first.Resolved? <==> IndexOfId(old(ledger.pending), id).Some?
    ensures first.Resolved? ==> again == NotFound(NotFoundMessage)
    ensures first.Resolved? ==> ledger.history == old(ledger.history) + [first.notification]
  {
    first := ledger.ApproveNotification(id, None, now);
    again := ledger.RejectNotification(id, None, now);
  }
}
