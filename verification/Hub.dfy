// The tables of one tenant and the services that update them in place
// (apps/inbox_hub/assignment.py, apps/agents/presence.py, tasks.py and services.py).
module Hub {
  import opened Options
  import opened HubStateMachine
  import opened Presence
  import opened Assignment
  import opened AssignmentRuns
  import opened Selection
  import opened Drain
  import opened Sets

  class Tables {
    const cfg: Config
    var emails: map<EmailId, HubEmail>
    var inbox: map<EmailId, InboxCopy>
    var agents: map<UserId, Availability>
    var audit: seq<AuditRow>
    var ticketAudit: seq<TicketAuditRow>
    var owners: map<TicketId, UserId>

    function View(): World
      reads this
    {
      World(emails, inbox, agents, audit, ticketAudit, owners)
    }

    constructor (cfg: Config, w: World)
      ensures View() == w && this.cfg == cfg
    {
      this.cfg := cfg;
      emails, inbox, agents, audit := w.emails, w.inbox, w.agents, w.audit;
      ticketAudit, owners := w.ticketAudit, w.owners;
    }

    /** assign_to: lock the email, re-check it, lock the agent, re-check the gate, then write
        email, inbox copy, audit row and counter in one transaction. */
    method AssignEmail(e: EmailId, u: UserId, requireOnline: bool, m: Moment) returns (done: bool)
      requires e in emails
      modifies this
      ensures View() == AssignTo(cfg, old(View()), e, u, requireOnline, m)
      ensures done == Takes(cfg, old(View()), e, u, requireOnline, m)
    {
      var he := emails[e];
      if he.assignee.Some? || he.state != New {
        return false;
      }
      var locked := Row(View(), u);
      if requireOnline && (locked.None? || !IsAssignable(cfg.ttl, u, locked.value, m)) {
        return false;
      }
      he := he.(assignee := Some(u));
      if he.firstAssignedAt.None? {
        he := he.(firstAssignedAt := Some(m.now));
      }
      he := he.(state := Assigned);
      emails := emails[e := he];
      if e in inbox {
        inbox := inbox[e := InboxCopy(Some(u), Pending, false)];
      }
      audit := audit + [AuditRow(e, u, m.now)];
      if locked.Some? {
        agents := agents[u := Counted(locked.value, m.now)];
      }
      return true;
    }

    /** try_assign: the best assignable agent of the pool gets the email, or it stays held. */
    method TryAssign(e: EmailId, m: Moment) returns (chosen: Option<UserId>)
      requires e in emails
      modifies this
      ensures chosen.None? ==> View() == old(View())
      ensures chosen.Some? ==>
        && BestChoice(cfg, old(View()), old(emails[e]), m, StrategyChain(cfg, old(emails[e])), chosen)
        && Preferred(cfg, old(View()), old(emails[e]), m, StrategyChain(cfg, old(emails[e])), chosen)
        && Held(old(View()), e)
        && View() == AssignTo(cfg, old(View()), e, chosen.value, true, m)
        && emails[e].assignee == chosen
      ensures chosen.None? <==>
        !Held(old(View()), e) || forall v :: !MayGet(cfg, old(View()), old(emails[e]), m, v)
    {
      var best := SelectAgent(cfg, View(), emails[e], m);
      if best.None? {
        return None;
      }
      assert AssignableAt(cfg, View(), best.value, m);
      var done := AssignEmail(e, best.value, true, m);
      return if done then best else None;
    }

    // The loop of the drain: within the capacity every assignment is taken.
    method DrainHeld(held: seq<EmailId>, u: UserId, m: Moment) returns (taken: nat)
      requires AssignableAt(cfg, View(), u, m) && |held| <= agents[u].RemainingCapacity()
      requires Distinct(held) && forall e :: e in held ==> Held(View(), e)
      modifies this
      ensures View() == AssignAll(cfg, old(View()), held, u, m) && taken == |held|
    {
      ghost var w := View();
      taken := 0;
      for i := 0 to |held|
        invariant View() == AssignAll(cfg, w, held[..i], u, m) && taken == i
        invariant Drained(w, u, m, held[..i], View())
      {
        ghost var front, e := held[..i], held[i];
        assert e in held && e !in front && Held(w, e);
        DrainsOneMore(cfg, w, u, m, front, View(), e);
        assert held[..i + 1] == front + [e] && (front + [e])[..i] == front;
        var done := AssignEmail(held[i], u, true, m);
        if done {
          taken := taken + 1;
        }
      }
      assert held[..|held|] == held;
    }

    /** drain_department_backlog with nothing else committing in between. */
    method DrainBacklog(u: UserId, m: Moment) returns (taken: nat)
      modifies this
      ensures !cfg.autoAssign || !AssignableAt(cfg, old(View()), u, m) ==> View() == old(View()) && taken == 0
      ensures cfg.autoAssign && AssignableAt(cfg, old(View()), u, m) ==>
        exists held :: OldestFirst(cfg, old(View()), u, old(agents[u].RemainingCapacity()), held)
                       && View() == AssignAll(cfg, old(View()), held, u, m) && taken == |held|
    {
      if !cfg.autoAssign {
        return 0;
      }
      if u !in agents || !IsAssignable(cfg.ttl, u, agents[u], m) {
        return 0;
      }
      // The gate has already excluded a remaining capacity of zero.
      var remaining := agents[u].RemainingCapacity();
      var held := HeldEmails(cfg, View(), u, remaining);
      taken := DrainHeld(held, u, m);
    }

    /** touch_presence: stamp the heartbeat, promoting OFFLINE to ONLINE; the change of status,
        if any, is reported to the caller. */
    method TouchPresence(u: UserId, now: int) returns (change: Option<(AgentStatus, AgentStatus)>)
      modifies this`agents
      ensures View() == Touch(cfg, old(View()), u, now)
      ensures change.Some? <==> cfg.autoOnline && (u in old(agents) ==> old(agents[u].status) == Offline)
      ensures change.Some? ==> change.value == (Offline, Online)
      ensures u in agents && agents[u].lastSeen == agents[u].lastActivity == Some(now)
      ensures agents - {u} == old(agents) - {u}
      ensures u in old(agents) ==>
        && (change.Some? <==> agents[u].status != old(agents[u].status))
        && (old(agents[u].status) != Offline ==> agents[u].status == old(agents[u].status))
        && (old(agents[u].status) == Offline ==> agents[u].status == if cfg.autoOnline then Online else Offline)
        && agents[u].maxConcurrent == old(agents[u].maxConcurrent)
        && agents[u].ticketCount == old(agents[u].ticketCount)
        && agents[u].autoAwayOutsideHours == old(agents[u].autoAwayOutsideHours)
      ensures u !in old(agents) ==>
        && agents[u].status == (if cfg.autoOnline then Online else Offline)
        && agents[u].maxConcurrent == 10 && agents[u].ticketCount == 0 && !agents[u].autoAwayOutsideHours
    {
      if u !in agents {
        var status := if cfg.autoOnline then Online else Offline;
        agents := agents[u := Availability(status, DEFAULT_MAX_CONCURRENT, 0, Some(now), Some(now), false)];
        return if status == Online then Some((Offline, Online)) else None;
      }
      var oldStatus := agents[u].status;
      var newStatus := if cfg.autoOnline && oldStatus == Offline then Online else oldStatus;
      agents := agents[u := agents[u].(lastSeen := Some(now), lastActivity := Some(now), status := newStatus)];
      return if newStatus != oldStatus then Some((oldStatus, newStatus)) else None;
    }

    /** handle_live_heartbeat: a connect, or a heartbeat that brings the agent online, leaves an
        assignable agent either full or with no eligible held email; any other heartbeat only
        stamps presence. */
    method HandleLiveHeartbeat(u: UserId, m: Moment, isConnect: bool) returns (taken: nat)
      modifies this
      ensures var touched := Touch(cfg, old(View()), u, m.now);
        var drains := (isConnect || (cfg.autoOnline && (u in old(agents) ==> old(agents[u].status) == Offline)))
                      && cfg.autoAssign && AssignableAt(cfg, touched, u, m);
        && (!drains ==> View() == touched && taken == 0)
        && (drains ==>
              && u in agents && (agents[u].RemainingCapacity() == 0 || Backlog(cfg, View(), u) == {})
              && agents[u].ticketCount == touched.agents[u].ticketCount + taken
              && taken == Min(touched.agents[u].RemainingCapacity(), |Backlog(cfg, touched, u)|))
    {
      var change := TouchPresence(u, m.now);
      taken := 0;
      if isConnect || change.Some? {
        if u in agents && IsAssignable(cfg.ttl, u, agents[u], m) {
          ghost var w := View();
          taken := DrainBacklog(u, m);
          if cfg.autoAssign {
            ghost var held :| OldestFirst(cfg, w, u, w.agents[u].RemainingCapacity(), held)
                              && View() == AssignAll(cfg, w, held, u, m) && taken == |held|;
            DrainIsMaximalAndFifo(cfg, w, u, m, held);
          }
        }
      }
    }

    /** reap_stale_presence: the loop flips exactly the stale ONLINE rows to AWAY. */
    method ReapStalePresence(now: int) returns (reaped: nat)
      modifies this`agents
      ensures View() == ReapAll(cfg, old(View()), now)
      ensures reaped == |set u | u in old(agents) && IsStale(cfg.ttl, old(agents)[u], now)|
    {
      ghost var before := agents;
      var stale := set u | u in agents && IsStale(cfg.ttl, agents[u], now);
      ghost var all := stale;
      reaped := 0;
      while stale != {}
        invariant stale <= all && agents.Keys == before.Keys && reaped + |stale| == |all|
        invariant forall u :: u in before ==>
          agents[u] == if u in all - stale then before[u].(status := Away) else before[u]
      {
        var u :| u in stale;
        agents := agents[u := agents[u].(status := Away)];
        reaped := reaped + 1;
        stale := stale - {u};
      }
      assert agents == Reap(cfg.ttl, before, now);
    }

    /** get_available_agent: the queue's default assignee when available, else one of the
        available agents with the fewest tickets. */
    method GetAvailableAgent(preferred: Option<UserId>) returns (agent: Option<UserId>)
      ensures agent.None? <==> forall u :: u in agents ==> !TicketTakes(View(), u)
      ensures agent.Some? ==> TicketTakes(View(), agent.value)
      ensures forall u :: TicketTakes(View(), u) <==>
        u in agents && agents[u].status == Online && agents[u].ticketCount + 1 <= agents[u].maxConcurrent
      ensures preferred.Some? && TicketTakes(View(), preferred.value) ==> agent == preferred
      ensures agent.Some? && agent != preferred ==>
        forall u :: u in agents && TicketTakes(View(), u) ==> agents[agent.value].ticketCount <= agents[u].ticketCount
    {
      if preferred.Some? && TicketTakes(View(), preferred.value) {
        return preferred;
      }
      var pending := set u | u in agents && TicketTakes(View(), u);
      ghost var all := pending;
      agent := None;
      while pending != {}
        invariant pending <= all && (agent.None? ==> pending == all)
        invariant agent.Some? ==> agent.value in all
        invariant agent.Some? ==>
          forall u :: u in all - pending ==> agents[agent.value].ticketCount <= agents[u].ticketCount
      {
        var u :| u in pending;
        if agent.None? || agents[u].ticketCount < agents[agent.value].ticketCount {
          agent := Some(u);
        }
        pending := pending - {u};
      }
      assert forall u :: u in agents && TicketTakes(View(), u) ==> u in all;
    }

    /** auto_assign_ticket: never above capacity, and only agents who are ONLINE; the ticket, the
        counter and the audit trail record the same agent. */
    method AutoAssignTicket(t: TicketId, preferred: Option<UserId>, now: int) returns (agent: Option<UserId>)
      modifies this`agents, this`ticketAudit, this`owners
      ensures agent.Some? ==> TicketTakes(old(View()), agent.value)
                              && View() == AssignTicket(old(View()), t, agent.value, now)
                              && owners == old(owners)[t := agent.value]
                              && ticketAudit == old(ticketAudit) + [TicketAuditRow(t, agent.value, now)]
                              && agents - {agent.value} == old(agents) - {agent.value}
                              && agents[agent.value].ticketCount == old(agents)[agent.value].ticketCount + 1
                              && agents[agent.value].lastActivity == Some(now)
                              && old(agents)[agent.value].status == Online
                              && agents[agent.value].ticketCount <= agents[agent.value].maxConcurrent
      ensures agent.None? ==> View() == old(View()) && forall u :: u in agents ==> !TicketTakes(View(), u)
    {
      agent := GetAvailableAgent(preferred);
      if agent.None? {
        return;
      }
      var locked := agents[agent.value];
      if locked.status != Online || locked.ticketCount >= locked.maxConcurrent {
        return None;
      }
      agents := agents[agent.value := Counted(locked, now)];
      ticketAudit := ticketAudit + [TicketAuditRow(t, agent.value, now)];
      owners := owners[t := agent.value];
    }
  }
}
