// What one committed transaction of the Inbox Hub assignment engine does to the database
// (apps/inbox_hub/assignment.py, apps/agents/services.py, apps/agents/presence.py).
module Assignment {
  import opened Options
  import opened HubStateMachine
  import opened Presence

  type EmailId = nat
  type DeptId = nat
  type QueueId = nat
  type TicketId = nat

  datatype HubEmail = HubEmail(
    state: HubState,
    assignee: Option<UserId>,
    department: Option<DeptId>,
    queue: Option<QueueId>,
    createdAt: int,
    firstAssignedAt: Option<int>)

  // The agent-inbox columns of the wrapped original message.
  datatype InboxStatus = Pending | Linked | Actioned | Ignored
  datatype InboxCopy = InboxCopy(assignee: Option<UserId>, status: InboxStatus, isRead: bool)

  // HubEmailAssignment and TicketAssignment rows; both tables are append-only.
  datatype AuditRow = AuditRow(email: EmailId, user: UserId, at: int)
  datatype TicketAuditRow = TicketAuditRow(ticket: TicketId, user: UserId, at: int)

  datatype World = World(
    emails: map<EmailId, HubEmail>,
    inbox: map<EmailId, InboxCopy>,
    agents: map<UserId, Availability>,
    audit: seq<AuditRow>,
    ticketAudit: seq<TicketAuditRow>,
    owners: map<TicketId, UserId>)         // tickets.assignee, of the tickets that have one

  // Settings and membership tables the engine reads but never writes.
  datatype Config = Config(
    ttl: int,
    autoOnline: bool,
    autoAssign: bool,
    departmentMembers: set<(DeptId, UserId)>,
    agentMembers: set<UserId>,
    queueDepartment: map<QueueId, DeptId>,
    queueStrategy: map<QueueId, string>)

  predicate Held(w: World, e: EmailId) {
    e in w.emails && w.emails[e].state == New && w.emails[e].assignee.None?
  }

  predicate AssignableAt(cfg: Config, w: World, u: UserId, m: Moment) {
    u in w.agents && IsAssignable(cfg.ttl, u, w.agents[u], m)
  }

  // assign_to commits a change exactly when this holds; otherwise it returns None.
  predicate Takes(cfg: Config, w: World, e: EmailId, u: UserId, requireOnline: bool, m: Moment) {
    Held(w, e) && (requireOnline ==> AssignableAt(cfg, w, u, m))
  }

  function Counted(a: Availability, now: int): Availability {
    a.(ticketCount := a.ticketCount + 1, lastActivity := Some(now))
  }

  function AssignTo(cfg: Config, w: World, e: EmailId, u: UserId, requireOnline: bool, m: Moment): World {
    if !Takes(cfg, w, e, u, requireOnline, m) then w
    else
      var he := w.emails[e];
      w.(emails := w.emails[e := he.(assignee := Some(u), state := Assigned,
                                     firstAssignedAt := Some(he.firstAssignedAt.GetOr(m.now)))],
         inbox := if e in w.inbox then w.inbox[e := InboxCopy(Some(u), Pending, false)] else w.inbox,
         audit := w.audit + [AuditRow(e, u, m.now)],
         agents := if u in w.agents then w.agents[u := Counted(w.agents[u], m.now)] else w.agents)
  }

  // auto_assign_ticket after it has locked the agent row: status and capacity, no freshness.
  predicate TicketTakes(w: World, u: UserId) {
    u in w.agents && w.agents[u].status == Online && w.agents[u].ticketCount < w.agents[u].maxConcurrent
  }

  function AssignTicket(w: World, t: TicketId, u: UserId, now: int): World {
    if !TicketTakes(w, u) then w
    else w.(agents := w.agents[u := Counted(w.agents[u], now)],
            ticketAudit := w.ticketAudit + [TicketAuditRow(t, u, now)],
            owners := w.owners[t := u])
  }

  // auto_assign_email_ticket once it has picked u: it counts without looking at capacity.
  function NudgeForEmailTicket(w: World, t: TicketId, u: UserId, now: int): World {
    w.(agents := if u in w.agents then w.agents[u := Counted(w.agents[u], now)] else w.agents,
       ticketAudit := w.ticketAudit + [TicketAuditRow(t, u, now)],
       owners := w.owners[t := u])
  }

  function Row(w: World, u: UserId): Option<Availability> {
    if u in w.agents then Some(w.agents[u]) else None
  }

  function Touch(cfg: Config, w: World, u: UserId, now: int): World {
    w.(agents := w.agents[u := TouchedRow(cfg.autoOnline, Row(w, u), now)])
  }

  function ReapAll(cfg: Config, w: World, now: int): World {
    w.(agents := Reap(cfg.ttl, w.agents, now))
  }

  // Candidate pool of an email: its department, else its queue's department, else all agents.
  function DepartmentOf(cfg: Config, he: HubEmail): Option<DeptId> {
    if he.department.Some? then he.department
    else if he.queue.Some? && he.queue.value in cfg.queueDepartment then Some(cfg.queueDepartment[he.queue.value])
    else None
  }

  predicate InPool(cfg: Config, he: HubEmail, u: UserId) {
    match DepartmentOf(cfg, he)
    case Some(d) => (d, u) in cfg.departmentMembers
    case None => u in cfg.agentMembers
  }

  // Held emails an agent may drain: own departments, or no department at all.
  predicate Drainable(cfg: Config, w: World, u: UserId, e: EmailId) {
    && Held(w, e)
    && (w.emails[e].department.None? || (w.emails[e].department.value, u) in cfg.departmentMembers)
  }

  function Backlog(cfg: Config, w: World, u: UserId): set<EmailId> {
    set e | e in w.emails && Drainable(cfg, w, u, e)
  }
}
