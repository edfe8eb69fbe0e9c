// Properties of every interleaving of engine, presence and ticket-counter steps.
module AssignmentRuns {
  import opened Options
  import opened HubStateMachine
  import opened Presence
  import opened Assignment

  datatype Step =
    | Park(email: EmailId, row: HubEmail)                         // inbound pipeline creates a NEW row
    | Assign(e: EmailId, u: UserId, m: Moment)                    // assign_to, require_online=True
    | Heartbeat(u: UserId, now: int)                              // touch_presence
    | Reaper(now: int)                                            // reap_stale_presence
    | Ticket(t: TicketId, u: UserId, now: int)                    // auto_assign_ticket
    | EmailTicket(t: TicketId, u: UserId, now: int)               // auto_assign_email_ticket
    | Moved(e: EmailId, to: HubState, assignee: Option<UserId>)   // any other service, via assert_transition

  predicate Succeeds(cfg: Config, w: World, s: Step) {
    s.Assign? && Takes(cfg, w, s.e, s.u, true, s.m)
  }

  function Apply(cfg: Config, w: World, s: Step): World {
    match s
    case Park(e, row) =>
      if e in w.emails then w else w.(emails := w.emails[e := row.(state := New, assignee := None)])
    case Assign(e, u, m) => AssignTo(cfg, w, e, u, true, m)
    case Heartbeat(u, now) => Touch(cfg, w, u, now)
    case Reaper(now) => ReapAll(cfg, w, now)
    case Ticket(t, u, now) => AssignTicket(w, t, u, now)
    case EmailTicket(t, u, now) => NudgeForEmailTicket(w, t, u, now)
    case Moved(e, to, assignee) =>
      if e in w.emails && CanTransition(w.emails[e].state, to)
      then w.(emails := w.emails[e := w.emails[e].(state := to, assignee := assignee)])
      else w
  }

  function Run(cfg: Config, w: World, ss: seq<Step>): World {
    if ss == [] then w else Apply(cfg, Run(cfg, w, ss[..|ss| - 1]), ss[|ss| - 1])
  }

  lemma RunStep(cfg: Config, w: World, ss: seq<Step>, k: nat)
    requires k < |ss|
    ensures Run(cfg, w, ss[..k + 1]) == Apply(cfg, Run(cfg, w, ss[..k]), ss[k])
  {
    assert ss[..k + 1][..k] == ss[..k];
  }

  // ---------------------------------------------------------------- lifecycle

  lemma StepIsLegal(cfg: Config, w: World, s: Step, e: EmailId)
    requires e in w.emails
    ensures e in Apply(cfg, w, s).emails
    ensures var to := Apply(cfg, w, s).emails[e].state;
            to != w.emails[e].state ==> CanTransition(w.emails[e].state, to)
  {
    assert CanTransition(New, Assigned);
  }

  /** No row disappears and every change of state, by whatever step, is an edge of the table:
      the run takes the email along a legal history. */
  lemma {:induction false} HistoriesAreLegal(cfg: Config, w: World, ss: seq<Step>, e: EmailId) returns (p: seq<HubState>)
    requires e in w.emails
    ensures e in Run(cfg, w, ss).emails
    ensures LegalPath(p) && |p| > 0
    ensures p[0] == w.emails[e].state && p[|p| - 1] == Run(cfg, w, ss).emails[e].state
    decreases |ss|
  {
    if ss == [] {
      p := [w.emails[e].state];
    } else {
      p := HistoriesAreLegal(cfg, w, ss[..|ss| - 1], e);
      var mid := Run(cfg, w, ss[..|ss| - 1]);
      StepIsLegal(cfg, mid, ss[|ss| - 1], e);
      var to := Run(cfg, w, ss).emails[e].state;
      p := if to == mid.emails[e].state then p else p + [to];
    }
  }

  predicate ReturnsToNew(s: Step, e: EmailId) {
    s.Moved? && s.e == e && s.to == New
  }

  lemma StepKeepsOutOfNew(cfg: Config, w: World, s: Step, e: EmailId)
    requires e in w.emails && w.emails[e].state != New && !ReturnsToNew(s, e)
    ensures e in Apply(cfg, w, s).emails && Apply(cfg, w, s).emails[e].state != New
  {}

  // Once out of NEW, an email stays out until some service moves it back.
  lemma {:induction false} StaysOutOfNew(cfg: Config, w: World, ss: seq<Step>, e: EmailId, i: nat, j: nat)
    requires i <= j <= |ss|
    requires e in Run(cfg, w, ss[..i]).emails && Run(cfg, w, ss[..i]).emails[e].state != New
    requires forall k :: i <= k < j ==> !ReturnsToNew(ss[k], e)
    ensures e in Run(cfg, w, ss[..j]).emails && Run(cfg, w, ss[..j]).emails[e].state != New
    decreases j
  {
    if i < j {
      StaysOutOfNew(cfg, w, ss, e, i, j - 1);
      RunStep(cfg, w, ss, j - 1);
      StepKeepsOutOfNew(cfg, Run(cfg, w, ss[..j - 1]), ss[j - 1], e);
    }
  }

  /** The engine assigns an email at most once per stay in NEW: between any two successful
      assignments of it some other service moved it back to NEW. */
  lemma OneAssignmentPerStayInNew(cfg: Config, w: World, ss: seq<Step>, i: nat, j: nat)
    requires i < j < |ss|
    requires Succeeds(cfg, Run(cfg, w, ss[..i]), ss[i]) && Succeeds(cfg, Run(cfg, w, ss[..j]), ss[j])
    requires ss[i].e == ss[j].e
    ensures exists k :: i < k < j && ReturnsToNew(ss[k], ss[i].e)
  {
    if forall k :: i < k < j ==> !ReturnsToNew(ss[k], ss[i].e) {
      RunStep(cfg, w, ss, i);
      StaysOutOfNew(cfg, w, ss, ss[i].e, i + 1, j);
      assert false;
    }
  }

  // ---------------------------------------------------------------- gate and capacity

  /** The engine takes an email exactly when it is unassigned in NEW and the agent passes the gate. */
  lemma TakesExactlyWhen(cfg: Config, w: World, e: EmailId, u: UserId, m: Moment)
    ensures Takes(cfg, w, e, u, true, m) <==>
      && e in w.emails && w.emails[e].state == New && w.emails[e].assignee == None
      && u in w.agents && w.agents[u].status == Online && w.agents[u].ticketCount + 1 <= w.agents[u].maxConcurrent
      && (exists seen :: w.agents[u].lastSeen == Some(seen) && m.now <= seen + cfg.ttl)
      && (u in m.inHours || !w.agents[u].autoAwayOutsideHours)
  {
    if u in w.agents {
      AssignableExactlyWhen(cfg.ttl, u, w.agents[u], m);
    }
  }

  /** A successful engine step never picks a stale, away or out-of-hours agent and never
      pushes the agent above max_concurrent_tickets. It changes no other agent, no other email,
      and appends exactly one audit row naming both. */
  lemma EngineStepPassesTheGate(cfg: Config, w: World, e: EmailId, u: UserId, m: Moment)
    requires Takes(cfg, w, e, u, true, m)
    ensures var w' := AssignTo(cfg, w, e, u, true, m);
            && w.agents[u].status == Online && m.now - w.agents[u].lastSeen.value <= cfg.ttl
            && (w.agents[u].autoAwayOutsideHours ==> u in m.inHours)
            && w'.agents[u].ticketCount == w.agents[u].ticketCount + 1 <= w'.agents[u].maxConcurrent
            && w'.agents[u].lastActivity == Some(m.now) && w'.agents[u].lastSeen == w.agents[u].lastSeen
            && w'.agents[u].status == w.agents[u].status && w'.agents[u].maxConcurrent == w.agents[u].maxConcurrent
            && w'.emails[e].assignee == Some(u) && w'.emails[e].state == Assigned
            && CanTransition(w.emails[e].state, w'.emails[e].state)
            && w'.emails[e].department == w.emails[e].department && w'.emails[e].queue == w.emails[e].queue
            && w'.emails[e].createdAt == w.emails[e].createdAt
            && w'.emails - {e} == w.emails - {e} && w'.agents - {u} == w.agents - {u}
            && w'.inbox.Keys == w.inbox.Keys && w'.inbox - {e} == w.inbox - {e}
            && w'.audit == w.audit + [AuditRow(e, u, m.now)]
            && w'.emails[e].firstAssignedAt == Some(w.emails[e].firstAssignedAt.GetOr(m.now))
            && (e in w.inbox ==> w'.inbox[e] == InboxCopy(Some(u), Pending, false))
  {
    assert CanTransition(New, Assigned);
  }

  function Nudges(ss: seq<Step>, u: UserId): nat {
    if ss == [] then 0
    else Nudges(ss[..|ss| - 1], u) + if ss[|ss| - 1].EmailTicket? && ss[|ss| - 1].u == u then 1 else 0
  }

  lemma StepKeepsCapacity(cfg: Config, w: World, s: Step, u: UserId)
    requires u in w.agents
    ensures var w' := Apply(cfg, w, s);
            && u in w'.agents && w'.agents[u].maxConcurrent == w.agents[u].maxConcurrent
            && (if s.EmailTicket? && s.u == u then w'.agents[u].ticketCount == w.agents[u].ticketCount + 1
                else w'.agents[u].ticketCount <= Max(w.agents[u].ticketCount, w.agents[u].maxConcurrent))
  {}

  /** Over every run an agent exceeds capacity by at most the number of email tickets counted
      to them: the engine and auto_assign_ticket by themselves never overshoot. */
  lemma {:induction false} CapacityIsKeptExceptForEmailTickets(cfg: Config, w: World, ss: seq<Step>, u: UserId)
    requires u in w.agents
    ensures var a := w.agents[u]; var w' := Run(cfg, w, ss);
            && u in w'.agents && w'.agents[u].maxConcurrent == a.maxConcurrent
            && w'.agents[u].ticketCount <= Max(a.ticketCount, a.maxConcurrent) + Nudges(ss, u)
    decreases |ss|
  {
    if ss != [] {
      CapacityIsKeptExceptForEmailTickets(cfg, w, ss[..|ss| - 1], u);
      StepKeepsCapacity(cfg, Run(cfg, w, ss[..|ss| - 1]), ss[|ss| - 1], u);
    }
  }

  /** An email ticket overshoots capacity exactly when the agent was already full, so the
      capacity bound holds of engine steps only. */
  lemma EmailTicketOvershootsExactlyWhenFull(w: World, t: TicketId, u: UserId, now: int)
    requires u in w.agents
    ensures var w' := NudgeForEmailTicket(w, t, u, now);
            w'.agents[u].ticketCount > w'.agents[u].maxConcurrent <==> w.agents[u].RemainingCapacity() == 0
  {}

  // ---------------------------------------------------------------- conservation

  function RowsFor(rows: seq<AuditRow>, u: UserId): nat {
    if rows == [] then 0 else RowsFor(rows[..|rows| - 1], u) + if rows[|rows| - 1].user == u then 1 else 0
  }

  function TicketRowsFor(rows: seq<TicketAuditRow>, u: UserId): nat {
    if rows == [] then 0 else TicketRowsFor(rows[..|rows| - 1], u) + if rows[|rows| - 1].user == u then 1 else 0
  }

  lemma RowsForSnoc(rows: seq<AuditRow>, r: AuditRow, u: UserId)
    ensures RowsFor(rows + [r], u) == RowsFor(rows, u) + if r.user == u then 1 else 0
  {
    assert (rows + [r])[..|rows|] == rows;
  }

  lemma TicketRowsForSnoc(rows: seq<TicketAuditRow>, r: TicketAuditRow, u: UserId)
    ensures TicketRowsFor(rows + [r], u) == TicketRowsFor(rows, u) + if r.user == u then 1 else 0
  {
    assert (rows + [r])[..|rows|] == rows;
  }

  // Ticket count minus the audit rows that explain it.
  function Unexplained(w: World, u: UserId): int
    requires u in w.agents
  {
    w.agents[u].ticketCount - RowsFor(w.audit, u) - TicketRowsFor(w.ticketAudit, u)
  }

  lemma AssignIsExplained(cfg: Config, w: World, e: EmailId, v: UserId, m: Moment, u: UserId)
    requires u in w.agents
    ensures u in AssignTo(cfg, w, e, v, true, m).agents
    ensures Unexplained(AssignTo(cfg, w, e, v, true, m), u) == Unexplained(w, u)
  {
    RowsForSnoc(w.audit, AuditRow(e, v, m.now), u);
  }

  // A counter increase for v that comes with a ticket audit row for v.
  lemma CountedRowIsExplained(w: World, w': World, t: TicketId, v: UserId, now: int, u: UserId)
    requires u in w.agents && v in w.agents && w'.agents == w.agents[v := Counted(w.agents[v], now)]
    requires w'.audit == w.audit && w'.ticketAudit == w.ticketAudit + [TicketAuditRow(t, v, now)]
    ensures Unexplained(w', u) == Unexplained(w, u)
  {
    TicketRowsForSnoc(w.ticketAudit, TicketAuditRow(t, v, now), u);
  }

  lemma TicketIsExplained(w: World, t: TicketId, v: UserId, now: int, u: UserId)
    requires u in w.agents
    ensures u in AssignTicket(w, t, v, now).agents
    ensures Unexplained(AssignTicket(w, t, v, now), u) == Unexplained(w, u)
  {
    if TicketTakes(w, v) {
      CountedRowIsExplained(w, AssignTicket(w, t, v, now), t, v, now, u);
    }
  }

  lemma EmailTicketIsExplained(w: World, t: TicketId, v: UserId, now: int, u: UserId)
    requires u in w.agents
    ensures u in NudgeForEmailTicket(w, t, v, now).agents
    ensures Unexplained(NudgeForEmailTicket(w, t, v, now), u) == Unexplained(w, u)
  {
    if v in w.agents {
      CountedRowIsExplained(w, NudgeForEmailTicket(w, t, v, now), t, v, now, u);
    } else {
      TicketRowsForSnoc(w.ticketAudit, TicketAuditRow(t, v, now), u);
    }
  }

  lemma StepIsExplained(cfg: Config, w: World, s: Step, u: UserId)
    requires u in w.agents
    ensures u in Apply(cfg, w, s).agents
    ensures Unexplained(Apply(cfg, w, s), u) == Unexplained(w, u)
  {
    match s
    case Assign(e, v, m) => AssignIsExplained(cfg, w, e, v, m, u);
    case Ticket(t, v, now) => TicketIsExplained(w, t, v, now, u);
    case EmailTicket(t, v, now) => EmailTicketIsExplained(w, t, v, now, u);
    case _ =>
  }

  /** Counter and audit trail agree: over any run, the rise of an agent's ticket count is the
      number of Hub audit rows plus ticket audit rows naming them that the run appended. */
  lemma {:induction false} CountsFollowTheAuditTrail(cfg: Config, w: World, ss: seq<Step>, u: UserId)
    requires u in w.agents
    ensures u in Run(cfg, w, ss).agents
    ensures Unexplained(Run(cfg, w, ss), u) == Unexplained(w, u)
    decreases |ss|
  {
    if ss != [] {
      CountsFollowTheAuditTrail(cfg, w, ss[..|ss| - 1], u);
      StepIsExplained(cfg, Run(cfg, w, ss[..|ss| - 1]), ss[|ss| - 1], u);
    }
  }

  ghost function Pick(s: set<UserId>): UserId
    requires s != {}
  {
    var u :| u in s; u
  }

  // Sum of current_ticket_count over all availability rows.
  ghost function TotalCount(a: map<UserId, Availability>): nat
    decreases |a|
  {
    if a.Keys == {} then 0
    else var u := Pick(a.Keys); a[u].ticketCount + TotalCount(a - {u})
  }

  lemma {:induction false} TotalRemove(a: map<UserId, Availability>, u: UserId)
    requires u in a
    ensures TotalCount(a) == a[u].ticketCount + TotalCount(a - {u})
    decreases |a|
  {
    var p := Pick(a.Keys);
    if p != u {
      TotalRemove(a - {p}, u);
      TotalRemove(a - {u}, p);
      assert a - {p} - {u} == a - {u} - {p};
    }
  }

  lemma TotalPut(a: map<UserId, Availability>, u: UserId, v: Availability)
    ensures TotalCount(a[u := v]) == v.ticketCount + TotalCount(a - {u})
    ensures u !in a ==> a - {u} == a
  {
    TotalRemove(a[u := v], u);
    assert a[u := v] - {u} == a - {u};
  }

  lemma {:induction false} TotalSameCounts(a: map<UserId, Availability>, b: map<UserId, Availability>)
    requires a.Keys == b.Keys
    requires forall u :: u in a ==> a[u].ticketCount == b[u].ticketCount
    ensures TotalCount(a) == TotalCount(b)
    decreases |a|
  {
    if a.Keys != {} {
      var p := Pick(a.Keys);
      TotalSameCounts(a - {p}, b - {p});
    }
  }

  // Emails that were held in NEW at `w`, or arrived since, and have left NEW.
  ghost function LeftNew(w: World, w': World): set<EmailId> {
    set e | e in w'.emails && w'.emails[e].state != New && (e !in w.emails || w.emails[e].state == New)
  }

  predicate EngineOnly(s: Step) {
    s.Park? || s.Assign? || s.Heartbeat? || s.Reaper?
  }

  lemma StepCounts(cfg: Config, w: World, s: Step)
    requires EngineOnly(s)
    ensures var w' := Apply(cfg, w, s);
            && TotalCount(w'.agents) == TotalCount(w.agents) + (if Succeeds(cfg, w, s) then 1 else 0)
            && |w'.audit| == |w.audit| + (if Succeeds(cfg, w, s) then 1 else 0)
  {
    var w' := Apply(cfg, w, s);
    match s
    case Park(_, _) =>
    case Reaper(now) => TotalSameCounts(w'.agents, w.agents);
    case Heartbeat(u, now) =>
      TotalPut(w.agents, u, w'.agents[u]);
      if u in w.agents { TotalRemove(w.agents, u); }
    case Assign(e, u, m) =>
      if Succeeds(cfg, w, s) {
        TotalPut(w.agents, u, w'.agents[u]);
        TotalRemove(w.agents, u);
      }
  }

  lemma StepLeavesNew(cfg: Config, w0: World, w: World, s: Step)
    requires EngineOnly(s) && w0.emails.Keys <= w.emails.Keys
    requires forall e :: e in w0.emails && w0.emails[e].state != New ==> w.emails[e].state != New
    ensures var w' := Apply(cfg, w, s);
            && w.emails.Keys <= w'.emails.Keys
            && LeftNew(w0, w') == LeftNew(w0, w) + (if Succeeds(cfg, w, s) then {s.e} else {})
            && (Succeeds(cfg, w, s) ==> s.e !in LeftNew(w0, w))
            && forall e :: e in w0.emails && w0.emails[e].state != New ==> w'.emails[e].state != New
  {
    var w' := Apply(cfg, w, s);
    if Succeeds(cfg, w, s) {
      assert forall e :: e in LeftNew(w0, w') <==> e == s.e || e in LeftNew(w0, w);
    }
  }

  /** Conservation over every run of arrivals, engine assignments, heartbeats and reaps:
      total rise of the ticket counters = audit rows appended = emails that left NEW. */
  lemma {:induction false} Conservation(cfg: Config, w: World, ss: seq<Step>)
    requires forall k :: 0 <= k < |ss| ==> EngineOnly(ss[k])
    ensures var w' := Run(cfg, w, ss);
            && |w'.audit| - |w.audit| == |LeftNew(w, w')|
            && TotalCount(w'.agents) - TotalCount(w.agents) == |LeftNew(w, w')|
            && w.emails.Keys <= w'.emails.Keys
            && forall e :: e in w.emails && w.emails[e].state != New ==> w'.emails[e].state != New
    decreases |ss|
  {
    if ss == [] {
      assert LeftNew(w, w) == {};
    } else {
      Conservation(cfg, w, ss[..|ss| - 1]);
      var mid := Run(cfg, w, ss[..|ss| - 1]);
      StepCounts(cfg, mid, ss[|ss| - 1]);
      StepLeavesNew(cfg, w, mid, ss[|ss| - 1]);
    }
  }
}
