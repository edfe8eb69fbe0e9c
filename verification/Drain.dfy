// Draining the held backlog to one agent (apps/inbox_hub/assignment.py, drain_department_backlog).
module Drain {
  import opened Options
  import opened HubStateMachine
  import opened Presence
  import opened Assignment
  import opened AssignmentRuns
  import opened Sets

  function CreatedAt(w: World, e: EmailId): int {
    if e in w.emails then w.emails[e].createdAt else 0
  }

  // What "oldest held emails first, at most limit" allows the query to return; emails created
  // at the same instant may come in any order.
  ghost predicate OldestFirst(cfg: Config, w: World, u: UserId, limit: nat, held: seq<EmailId>) {
    var backlog := Backlog(cfg, w, u);
    && Distinct(held)
    && (forall e :: e in held ==> e in backlog)
    && |held| == Min(limit, |backlog|)
    && (forall i, j :: 0 <= i < j < |held| ==> CreatedAt(w, held[i]) <= CreatedAt(w, held[j]))
    && forall e, h :: e in backlog && e !in held && h in held ==> CreatedAt(w, h) <= CreatedAt(w, e)
  }

  lemma {:induction false} OldestExists(w: World, s: set<EmailId>) returns (e: EmailId)
    requires s != {}
    ensures e in s && forall x :: x in s ==> CreatedAt(w, e) <= CreatedAt(w, x)
    decreases |s|
  {
    e :| e in s;
    var rest := s - {e};
    if rest == {} {
      assert s == {e};
    } else {
      var f := OldestExists(w, rest);
      e := if CreatedAt(w, e) <= CreatedAt(w, f) then e else f;
    }
  }

  method HeldEmails(cfg: Config, w: World, u: UserId, limit: nat) returns (held: seq<EmailId>)
    ensures OldestFirst(cfg, w, u, limit, held)
  {
    ghost var backlog := Backlog(cfg, w, u);
    var pending := Backlog(cfg, w, u);
    held := [];
    while |held| < limit && pending != {}
      invariant pending <= backlog && |held| + |pending| == |backlog|
      invariant |held| <= limit
      invariant forall e :: e in backlog <==> e in pending || e in held
      invariant forall e :: e in held ==> e !in pending
      invariant Distinct(held)
      invariant forall i, j :: 0 <= i < j < |held| ==> CreatedAt(w, held[i]) <= CreatedAt(w, held[j])
      invariant forall e, h :: e in pending && h in held ==> CreatedAt(w, h) <= CreatedAt(w, e)
      decreases |pending|
    {
      ghost var oldest := OldestExists(w, pending);
      var e :| e in pending && forall x :: x in pending ==> CreatedAt(w, e) <= CreatedAt(w, x);
      held := held + [e];
      pending := pending - {e};
    }
  }

  function AssignAll(cfg: Config, w: World, held: seq<EmailId>, u: UserId, m: Moment): World {
    if held == [] then w
    else AssignTo(cfg, AssignAll(cfg, w, held[..|held| - 1], u, m), held[|held| - 1], u, true, m)
  }

  // The audit rows a drain appends.
  function AuditOf(held: seq<EmailId>, u: UserId, now: int): seq<AuditRow> {
    seq(|held|, i requires 0 <= i < |held| => AuditRow(held[i], u, now))
  }

  // What draining these emails to u makes of w.
  ghost predicate Drained(w: World, u: UserId, m: Moment, held: seq<EmailId>, w': World)
    requires u in w.agents
  {
    && DrainedEmails(w, u, held, w') && DrainedAgents(w, u, |held|, w')
    && w'.audit == w.audit + AuditOf(held, u, m.now)
  }

  ghost predicate DrainedEmails(w: World, u: UserId, held: seq<EmailId>, w': World) {
    && w'.emails.Keys == w.emails.Keys
    && (forall e :: e in w.emails && e !in held ==> w'.emails[e] == w.emails[e])
    && (forall e :: e in held ==> e in w'.emails && w'.emails[e].assignee == Some(u) && w'.emails[e].state == Assigned)
  }

  predicate DrainedAgents(w: World, u: UserId, n: nat, w': World)
    requires u in w.agents
  {
    && u in w'.agents && w'.agents - {u} == w.agents - {u}
    && w'.agents[u] == w.agents[u].(ticketCount := w.agents[u].ticketCount + n, lastActivity := w'.agents[u].lastActivity)
  }

  lemma AssignDrains(cfg: Config, w: World, e: EmailId, u: UserId, m: Moment)
    requires Takes(cfg, w, e, u, true, m)
    ensures var w' := AssignTo(cfg, w, e, u, true, m);
      DrainedEmails(w, u, [e], w') && DrainedAgents(w, u, 1, w') && w'.audit == w.audit + [AuditRow(e, u, m.now)]
  {}

  lemma DrainedEmailsCompose(w: World, u: UserId, front: seq<EmailId>, mid: World, e: EmailId, w': World)
    requires DrainedEmails(w, u, front, mid) && DrainedEmails(mid, u, [e], w') && e !in front
    ensures DrainedEmails(w, u, front + [e], w')
  {}

  lemma DrainedAgentsCompose(w: World, u: UserId, n: nat, mid: World, w': World)
    requires u in w.agents && DrainedAgents(w, u, n, mid) && DrainedAgents(mid, u, 1, w')
    ensures DrainedAgents(w, u, n + 1, w')
  {}

  lemma AuditOfSnoc(front: seq<EmailId>, e: EmailId, u: UserId, now: int)
    ensures AuditOf(front + [e], u, now) == AuditOf(front, u, now) + [AuditRow(e, u, now)]
  {}

  // With capacity left the next assignment is taken, and drains one more email.
  lemma DrainsOneMore(cfg: Config, w: World, u: UserId, m: Moment, front: seq<EmailId>, mid: World, e: EmailId)
    requires AssignableAt(cfg, w, u, m) && Drained(w, u, m, front, mid)
    requires |front| < w.agents[u].RemainingCapacity() && Held(w, e) && e !in front
    ensures Takes(cfg, mid, e, u, true, m)
    ensures Drained(w, u, m, front + [e], AssignTo(cfg, mid, e, u, true, m))
  {
    AssignDrains(cfg, mid, e, u, m);
    DrainedEmailsCompose(w, u, front, mid, e, AssignTo(cfg, mid, e, u, true, m));
    DrainedAgentsCompose(w, u, |front|, mid, AssignTo(cfg, mid, e, u, true, m));
    AuditOfSnoc(front, e, u, m.now);
  }

  // As long as capacity lasts, every assignment of the drain is taken.
  lemma {:induction false} DrainPrefix(cfg: Config, w: World, u: UserId, m: Moment, held: seq<EmailId>)
    requires AssignableAt(cfg, w, u, m)
    requires Distinct(held) && forall e :: e in held ==> Held(w, e)
    requires |held| <= w.agents[u].RemainingCapacity()
    ensures Drained(w, u, m, held, AssignAll(cfg, w, held, u, m))
    decreases |held|
  {
    if held == [] {
      assert AuditOf(held, u, m.now) == [];
    } else {
      var front, e := held[..|held| - 1], held[|held| - 1];
      assert held == front + [e] && e in held && e !in front && Held(w, e);
      assert forall x :: x in front ==> x in held;
      DrainPrefix(cfg, w, u, m, front);
      DrainsOneMore(cfg, w, u, m, front, AssignAll(cfg, w, front, u, m), e);
    }
  }

  lemma BacklogShrinks(cfg: Config, w: World, u: UserId, held: seq<EmailId>, w': World)
    requires DrainedEmails(w, u, held, w')
    ensures Backlog(cfg, w', u) == Backlog(cfg, w, u) - Members(held)
  {}

  lemma OldestGoFirst(cfg: Config, w: World, u: UserId, limit: nat, held: seq<EmailId>)
    requires OldestFirst(cfg, w, u, limit, held)
    ensures forall e, f :: e in held && f in Backlog(cfg, w, u) && f !in held ==>
              e in w.emails && f in w.emails && w.emails[e].createdAt <= w.emails[f].createdAt
  {
    forall e, f | e in held && f in Backlog(cfg, w, u) && f !in held
      ensures e in w.emails && f in w.emails && w.emails[e].createdAt <= w.emails[f].createdAt
    {
      assert CreatedAt(w, e) <= CreatedAt(w, f);
    }
  }

  /** An undisturbed drain is maximal and first-in-first-out: it assigns exactly
      min(remaining capacity, backlog) emails, no email left behind is older than one assigned,
      and afterwards the agent is full or nothing eligible is held. */
  lemma DrainIsMaximalAndFifo(cfg: Config, w: World, u: UserId, m: Moment, held: seq<EmailId>)
    requires AssignableAt(cfg, w, u, m)
    requires OldestFirst(cfg, w, u, w.agents[u].RemainingCapacity(), held)
    ensures var w' := AssignAll(cfg, w, held, u, m);
      && u in w'.agents
      && w'.agents[u].ticketCount - w.agents[u].ticketCount
         == Min(w.agents[u].RemainingCapacity(), |Backlog(cfg, w, u)|) == |w'.audit| - |w.audit|
      && w'.emails.Keys == w.emails.Keys
      && (forall e :: e in w.emails && w'.emails[e] != w.emails[e] ==>
            e in Backlog(cfg, w, u) && w'.emails[e].assignee == Some(u) && w'.emails[e].state == Assigned)
      && (forall e, f :: e in Backlog(cfg, w, u) && f in Backlog(cfg, w, u)
            && e !in Backlog(cfg, w', u) && f in Backlog(cfg, w', u)
            ==> w.emails[e].createdAt <= w.emails[f].createdAt)
      && (w'.agents[u].RemainingCapacity() == 0 || Backlog(cfg, w', u) == {})
  {
    DrainPrefix(cfg, w, u, m, held);
    var w' := AssignAll(cfg, w, held, u, m);
    BacklogShrinks(cfg, w, u, held, w');
    OldestGoFirst(cfg, w, u, w.agents[u].RemainingCapacity(), held);
    MembersSize(held);
    if |held| == |Backlog(cfg, w, u)| {
      SubsetOfSameSize(Members(held), Backlog(cfg, w, u));
    }
  }

  /** The backlog of an agent: unassigned emails in NEW, of one of their departments or of none. */
  lemma BacklogExactlyWhen(cfg: Config, w: World, u: UserId, e: EmailId)
    ensures e in Backlog(cfg, w, u) <==>
      && e in w.emails && w.emails[e].state == New && w.emails[e].assignee == None
      && (w.emails[e].department == None || exists d :: w.emails[e].department == Some(d) && (d, u) in cfg.departmentMembers)
  {
    if e in w.emails && w.emails[e].department.Some? {
      assert w.emails[e].department == Some(w.emails[e].department.value);
    }
  }

  /** The drain and try_assign do not agree on who may get an email. An eligible held email goes to
      an agent outside the pool that try_assign would choose from exactly when it has no department
      and the agent neither belongs to its queue's department nor, when its queue has none either, is
      an agent member of the tenant. */
  lemma DrainedOutsideThePoolExactlyWhen(cfg: Config, w: World, u: UserId, e: EmailId)
    requires Drainable(cfg, w, u, e)
    ensures !InPool(cfg, w.emails[e], u) <==>
      && w.emails[e].department.None?
      && (match DepartmentOf(cfg, w.emails[e])
          case Some(d) => (d, u) !in cfg.departmentMembers
          case None => u !in cfg.agentMembers)
  {}

  /** It happens: a held email is queued for a department the agent is not in, so try_assign would
      never choose that agent; a drain gives it to them. */
  lemma DrainGivesAwayAnothersMail(cfg: Config, w: World, u: UserId, e: EmailId, q: QueueId, m: Moment)
    requires Drainable(cfg, w, u, e) && AssignableAt(cfg, w, u, m)
    requires w.emails[e].department.None? && w.emails[e].queue == Some(q) && q in cfg.queueDepartment
    requires (cfg.queueDepartment[q], u) !in cfg.departmentMembers
    ensures !InPool(cfg, w.emails[e], u)
    ensures var w' := AssignAll(cfg, w, [e], u, m); e in w'.emails && w'.emails[e].assignee == Some(u)
  {
    DrainPrefix(cfg, w, u, m, [e]);
    assert e in [e];
  }

  // ---------------------------------------------------------------- a disturbed drain

  // The same loop when other steps commit before each assignment: env[i] runs, then held[i]
  // is offered to u at ms[i]. The count is what drain_department_backlog returns.
  function DisturbedDrain(
    cfg: Config, w: World, held: seq<EmailId>, u: UserId, ms: seq<Moment>, env: seq<seq<Step>>): (World, nat)
    requires |env| == |ms| == |held|
  {
    if held == [] then (w, 0)
    else
      var k := |held| - 1;
      var (mid, n) := DisturbedDrain(cfg, w, held[..k], u, ms[..k], env[..k]);
      var before := Run(cfg, mid, env[k]);
      (AssignTo(cfg, before, held[k], u, true, ms[k]),
       if Takes(cfg, before, held[k], u, true, ms[k]) then n + 1 else n)
  }

  function Flatten(env: seq<seq<Step>>): seq<Step> {
    if env == [] then [] else Flatten(env[..|env| - 1]) + env[|env| - 1]
  }

  lemma {:induction false} NudgesOfConcat(a: seq<Step>, b: seq<Step>, u: UserId)
    ensures Nudges(a + b, u) == Nudges(a, u) + Nudges(b, u)
  {
    if b == [] {
      assert a + b == a;
    } else {
      NudgesOfConcat(a, b[..|b| - 1], u);
      assert (a + b)[..|a + b| - 1] == a + b[..|b| - 1];
    }
  }

  lemma {:induction false} DisturbedDrainIsBounded(
    cfg: Config, w: World, held: seq<EmailId>, u: UserId, ms: seq<Moment>, env: seq<seq<Step>>)
    requires |env| == |ms| == |held| && u in w.agents
    ensures var (w', n) := DisturbedDrain(cfg, w, held, u, ms, env);
      && n <= |held| && u in w'.agents
      && w'.agents[u].maxConcurrent == w.agents[u].maxConcurrent
      && w'.agents[u].ticketCount
         <= Max(w.agents[u].ticketCount, w.agents[u].maxConcurrent) + Nudges(Flatten(env), u)
    decreases |held|
  {
    if held != [] {
      var k := |held| - 1;
      DisturbedDrainIsBounded(cfg, w, held[..k], u, ms[..k], env[..k]);
      var mid := DisturbedDrain(cfg, w, held[..k], u, ms[..k], env[..k]).0;
      CapacityIsKeptExceptForEmailTickets(cfg, mid, env[k], u);
      NudgesOfConcat(Flatten(env[..k]), env[k], u);
    }
  }

  /** Whatever commits in between, a drain assigns at most the capacity the agent had left when it
      started, and unless email tickets were counted to the agent meanwhile they end within
      max_concurrent_tickets. */
  lemma DisturbedDrainStaysWithinCapacity(
    cfg: Config, w: World, held: seq<EmailId>, u: UserId, m: Moment, ms: seq<Moment>, env: seq<seq<Step>>)
    requires AssignableAt(cfg, w, u, m)
    requires OldestFirst(cfg, w, u, w.agents[u].RemainingCapacity(), held)
    requires |env| == |ms| == |held|
    ensures var (w', n) := DisturbedDrain(cfg, w, held, u, ms, env);
      && n <= w.agents[u].RemainingCapacity() && u in w'.agents
      && w'.agents[u].ticketCount <= w.agents[u].maxConcurrent + Nudges(Flatten(env), u)
  {
    DisturbedDrainIsBounded(cfg, w, held, u, ms, env);
  }
}
