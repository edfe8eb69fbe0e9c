// The tickets, audit rows and counters behind the rotation of email tickets
// (apps/agents/services.py, pick_email_agent and auto_assign_email_ticket).
module EmailTickets {
  import opened Options
  import opened Rotation

  // `open` is false for closed and for deleted tickets.
  datatype Ticket = Ticket(assignee: Option<Agent>, open: bool)
  datatype Assigned = Assigned(agent: Agent, at: int)

  function OpenTickets(tickets: map<TicketId, Ticket>, a: Agent): set<TicketId> {
    set t | t in tickets && tickets[t].assignee == Some(a) && tickets[t].open
  }

  function LastStamp(rows: seq<Assigned>, a: Agent): Option<int> {
    if rows == [] then None
    else
      var r, before := rows[|rows| - 1], LastStamp(rows[..|rows| - 1], a);
      if r.agent != a then before
      else Some(if before.Some? && before.value > r.at then before.value else r.at)
  }

  function LoadsOf(eligible: set<Agent>, tickets: map<TicketId, Ticket>, rows: seq<Assigned>): Loads {
    map a | a in eligible :: Load(|OpenTickets(tickets, a)|, LastStamp(rows, a))
  }

  lemma OpenTicketsAfter(tickets: map<TicketId, Ticket>, t: TicketId, a: Agent, b: Agent)
    requires t in tickets && tickets[t] == Ticket(None, true)
    ensures |OpenTickets(tickets[t := Ticket(Some(a), true)], b)|
            == |OpenTickets(tickets, b)| + if b == a then 1 else 0
  {
    assert OpenTickets(tickets[t := Ticket(Some(a), true)], b)
        == OpenTickets(tickets, b) + if b == a then {t} else {};
    assert t !in OpenTickets(tickets, b);
  }

  // The tickets assigned to an agent that are neither closed nor deleted.
  ghost function OpenCount(tickets: map<TicketId, Ticket>, a: Agent): nat {
    |set t | t in tickets && tickets[t].assignee == Some(a) && tickets[t].open|
  }

  lemma OpenTicketsCount(tickets: map<TicketId, Ticket>, a: Agent)
    ensures |OpenTickets(tickets, a)| == OpenCount(tickets, a)
  {
    assert OpenTickets(tickets, a) == set t | t in tickets && tickets[t].assignee == Some(a) && tickets[t].open;
  }

  /** Closing, deleting or reopening a ticket moves the load of its assignee by one and nobody
      else's. */
  lemma ClosingLowersTheLoad(tickets: map<TicketId, Ticket>, t: TicketId, a: Agent, b: Agent)
    requires t in tickets && tickets[t] == Ticket(Some(a), true)
    ensures |OpenTickets(tickets[t := Ticket(Some(a), false)], b)|
            == |OpenTickets(tickets, b)| - if b == a then 1 else 0
    ensures tickets[t := Ticket(Some(a), false)][t := Ticket(Some(a), true)] == tickets
  {
    assert OpenTickets(tickets[t := Ticket(Some(a), false)], b) == OpenTickets(tickets, b) - if b == a then {t} else {};
    assert b == a ==> t in OpenTickets(tickets, b);
    assert b != a ==> OpenTickets(tickets[t := Ticket(Some(a), false)], b) == OpenTickets(tickets, b);
    assert tickets[t := Ticket(Some(a), false)][t := Ticket(Some(a), true)] == tickets;
  }

  /** Tickets that are not open count for nobody, whoever they are assigned to. */
  lemma ClosedTicketsDoNotCount(
    eligible: set<Agent>, tickets: map<TicketId, Ticket>, rows: seq<Assigned>, t: TicketId, owner: Option<Agent>)
    requires t in tickets ==> !tickets[t].open
    ensures LoadsOf(eligible, tickets[t := Ticket(owner, false)], rows) == LoadsOf(eligible, tickets, rows)
  {
    forall a | a in eligible ensures OpenTickets(tickets[t := Ticket(owner, false)], a) == OpenTickets(tickets, a) {}
  }

  // The time of the agent's newest audit row, if there is any.
  ghost predicate NewestStamp(rows: seq<Assigned>, a: Agent, last: Option<int>) {
    match last
    case None => forall i :: 0 <= i < |rows| ==> rows[i].agent != a
    case Some(t) =>
      && (exists i :: 0 <= i < |rows| && rows[i].agent == a && rows[i].at == t)
      && forall i :: 0 <= i < |rows| && rows[i].agent == a ==> rows[i].at <= t
  }

  lemma NewestStampSnoc(rows: seq<Assigned>, r: Assigned, a: Agent, last: Option<int>)
    requires NewestStamp(rows, a, last)
    ensures NewestStamp(rows + [r], a,
              if r.agent != a then last else if last.Some? && last.value > r.at then last else Some(r.at))
  {
    var all := rows + [r];
    assert all[|rows|] == r && forall i :: 0 <= i < |rows| ==> all[i] == rows[i];
  }

  lemma {:induction false} LastStampIsNewest(rows: seq<Assigned>, a: Agent)
    ensures NewestStamp(rows, a, LastStamp(rows, a))
  {
    if rows != [] {
      var front := rows[..|rows| - 1];
      LastStampIsNewest(front, a);
      assert rows == front + [rows[|rows| - 1]];
      NewestStampSnoc(front, rows[|rows| - 1], a, LastStamp(front, a));
    }
  }

  // Never assigned, or last assigned no later than b was.
  ghost predicate AssignedNoLater(rows: seq<Assigned>, a: Agent, b: Agent) {
    || (forall i :: 0 <= i < |rows| ==> rows[i].agent != a)
    || exists j :: 0 <= j < |rows| && rows[j].agent == b && StampedBy(rows, a, rows[j].at)
  }

  lemma StampsOrder(rows: seq<Assigned>, a: Agent, b: Agent, s: Option<int>, t: Option<int>)
    requires NewestStamp(rows, a, s) && NewestStamp(rows, b, t)
    ensures (s.None? || (t.Some? && s.value <= t.value)) <==> AssignedNoLater(rows, a, b)
  {
    if t.Some? {
      var j :| 0 <= j < |rows| && rows[j].agent == b && rows[j].at == t.value;
      assert s.Some? && s.value <= t.value ==> StampedBy(rows, a, rows[j].at);
    }
  }

  // The agent's audit rows are no later than this.
  predicate StampedBy(rows: seq<Assigned>, a: Agent, now: int) {
    forall i :: 0 <= i < |rows| && rows[i].agent == a ==> rows[i].at <= now
  }

  // Writing the assignee and the audit row is exactly one step of the abstract rotation.
  lemma AssigningIsGiven(
    eligible: set<Agent>, tickets: map<TicketId, Ticket>, rows: seq<Assigned>, t: TicketId, a: Agent, now: int)
    requires a in eligible && t in tickets && tickets[t] == Ticket(None, true)
    ensures StampedBy(rows, a, now) ==>
      LoadsOf(eligible, tickets[t := Ticket(Some(a), true)], rows + [Assigned(a, now)])
        == Given(LoadsOf(eligible, tickets, rows), a, now)
  {
    if StampedBy(rows, a, now) {
      LastStampIsNewest(rows, a);
      var l := LoadsOf(eligible, tickets, rows);
      var l' := LoadsOf(eligible, tickets[t := Ticket(Some(a), true)], rows + [Assigned(a, now)]);
      forall b | b in eligible ensures l'[b] == Given(l, a, now)[b] {
        LoadAfter(tickets, rows, t, a, b, now);
      }
      assert l'.Keys == Given(l, a, now).Keys;
    }
  }

  lemma LoadAfter(tickets: map<TicketId, Ticket>, rows: seq<Assigned>, t: TicketId, a: Agent, b: Agent, now: int)
    requires t in tickets && tickets[t] == Ticket(None, true)
    ensures var open := |OpenTickets(tickets[t := Ticket(Some(a), true)], b)|;
      var last := LastStamp(rows + [Assigned(a, now)], b);
      && (b != a ==> Load(open, last) == Load(|OpenTickets(tickets, b)|, LastStamp(rows, b)))
      && (b == a && (LastStamp(rows, a).Some? ==> LastStamp(rows, a).value <= now) ==>
            Load(open, last) == Load(|OpenTickets(tickets, a)| + 1, Some(now)))
  {
    OpenTicketsAfter(tickets, t, a, b);
    LastStampAfter(rows, a, b, now);
  }

  lemma LastStampAfter(rows: seq<Assigned>, a: Agent, b: Agent, now: int)
    ensures b != a ==> LastStamp(rows + [Assigned(a, now)], b) == LastStamp(rows, b)
    ensures (LastStamp(rows, a).Some? ==> LastStamp(rows, a).value <= now) ==>
              LastStamp(rows + [Assigned(a, now)], a) == Some(now)
  {
    assert (rows + [Assigned(a, now)])[..|rows|] == rows;
  }

  // Whose turn it is: a member who is not offline, such that no other has fewer tickets that are
  // assigned to them and open, and no other with as many was assigned earlier.
  ghost predicate Due(
    members: set<Agent>, offline: set<Agent>, tickets: map<TicketId, Ticket>, rows: seq<Assigned>, a: Agent)
  {
    && a in members && a !in offline
    && forall b :: b in members && b !in offline ==>
         && OpenCount(tickets, a) <= OpenCount(tickets, b)
         && (OpenCount(tickets, a) == OpenCount(tickets, b) ==> AssignedNoLater(rows, a, b))
  }

  /** What a least row of the query means for tickets and audit rows: nobody eligible has fewer open
      tickets, and nobody with as many was assigned earlier. */
  lemma LeastLoadMeans(eligible: set<Agent>, tickets: map<TicketId, Ticket>, rows: seq<Assigned>, a: Agent)
    ensures MayPick(LoadsOf(eligible, tickets, rows), a) <==>
      && a in eligible
      && (forall b :: b in eligible ==> OpenCount(tickets, a) <= OpenCount(tickets, b))
      && (forall b :: b in eligible && OpenCount(tickets, a) == OpenCount(tickets, b) ==> AssignedNoLater(rows, a, b))
  {
    var l := LoadsOf(eligible, tickets, rows);
    OpenTicketsCount(tickets, a);
    forall b | b in eligible && a in eligible
      ensures NoLater(l[a], l[b]) <==>
        || OpenCount(tickets, a) < OpenCount(tickets, b)
        || (OpenCount(tickets, a) == OpenCount(tickets, b) && AssignedNoLater(rows, a, b))
    {
      OpenTicketsCount(tickets, b);
      LastStampIsNewest(rows, a);
      LastStampIsNewest(rows, b);
      StampsOrder(rows, a, b, l[a].last, l[b].last);
    }
  }

  class TicketDesk {
    const agentMembers: set<Agent>            // active members with the Agent role
    var offline: set<Agent>                   // availability rows with status offline
    var tickets: map<TicketId, Ticket>
    var assignments: seq<Assigned>
    var counters: map<Agent, nat>             // current_ticket_count of existing availability rows

    constructor (agentMembers: set<Agent>)
      ensures this.agentMembers == agentMembers && tickets == map[] && assignments == []
      ensures offline == {} && counters == map[]
    {
      this.agentMembers := agentMembers;
      offline, tickets, assignments, counters := {}, map[], [], map[];
    }

    function Eligible(): set<Agent>
      reads this
    {
      agentMembers - offline
    }

    function CurrentLoads(): Loads
      reads this
    {
      LoadsOf(Eligible(), tickets, assignments)
    }

    /** pick_email_agent: among the agents that are not offline, one with the fewest open tickets, and
        among those one never assigned or assigned the longest time ago. */
    method PickEmailAgent() returns (chosen: Option<Agent>)
      ensures chosen.None? <==> Eligible() == {}
      ensures chosen.None? <==> forall b :: b in agentMembers ==> b in offline
      ensures chosen.Some? ==> MayPick(CurrentLoads(), chosen.value)
      ensures chosen.Some? ==> Due(agentMembers, offline, tickets, assignments, chosen.value)
    {
      var l := CurrentLoads();
      var pending := Eligible();
      chosen := None;
      while pending != {}
        invariant pending <= l.Keys && (chosen.None? ==> pending == l.Keys)
        invariant chosen.Some? ==> chosen.value in l
        invariant chosen.Some? ==> forall b :: b in l.Keys - pending ==> NoLater(l[chosen.value], l[b])
      {
        var a :| a in pending;
        if chosen.None? || !NoLater(l[chosen.value], l[a]) {
          chosen := Some(a);
        }
        pending := pending - {a};
      }
      assert forall b :: b in agentMembers && b !in offline ==> b in Eligible();
      if chosen.Some? {
        assert chosen.value in Eligible();
        LeastLoadMeans(Eligible(), tickets, assignments, chosen.value);
      }
    }

    /** auto_assign_email_ticket: the assigned user is one the query may return, the ticket, the
        audit trail and the workload counter all record it, and on an open ticket this is one
        step of the rotation. */
    method AutoAssignEmailTicket(t: TicketId, now: int) returns (chosen: Option<Agent>)
      requires t in tickets
      modifies this`tickets, this`assignments, this`counters
      ensures chosen.None? <==> old(tickets[t].assignee.Some? || Eligible() == {})
      ensures chosen.None? ==>
        tickets == old(tickets) && assignments == old(assignments) && counters == old(counters)
      ensures chosen.Some? ==>
        && MayPick(old(CurrentLoads()), chosen.value)
        && chosen.value in agentMembers && chosen.value !in offline
        && tickets == old(tickets)[t := Ticket(chosen, old(tickets[t].open))]
        && assignments == old(assignments) + [Assigned(chosen.value, now)]
        && counters == if chosen.value in old(counters)
                       then old(counters)[chosen.value := old(counters)[chosen.value] + 1] else old(counters)
      ensures chosen.Some? && old(tickets[t].open)
              && StampedBy(old(assignments), chosen.value, now)
              ==> CurrentLoads() == Given(old(CurrentLoads()), chosen.value, now)
    {
      if tickets[t].assignee.Some? {
        return None;
      }
      chosen := PickEmailAgent();
      if chosen.None? {
        return;
      }
      var a := chosen.value;
      ghost var before, rows := tickets, assignments;
      tickets := tickets[t := tickets[t].(assignee := Some(a))];
      assignments := assignments + [Assigned(a, now)];
      if a in counters {
        counters := counters[a := counters[a] + 1];
      }
      if before[t].open {
        AssigningIsGiven(Eligible(), before, rows, t, a, now);
      }
    }
  }
}
