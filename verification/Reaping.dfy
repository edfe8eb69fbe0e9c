// What the presence reaper changes for the assignment engine over whole runs
// (apps/agents/tasks.py, apps/agents/presence.py).
module Reaping {
  import opened Options
  import opened HubStateMachine
  import opened Presence
  import opened Assignment
  import opened AssignmentRuns

  // The rows a reaper running at t flips.
  function StaleAt(cfg: Config, w: World, t: int): set<UserId> {
    set u | u in w.agents && IsStale(cfg.ttl, w.agents[u], t)
  }

  // Steps at or after t that neither bring a heartbeat of one of these agents nor hand one of
  // them a ticket through auto_assign_ticket.
  predicate Quiet(s: Step, stale: set<UserId>, t: int) {
    match s
    case Assign(_, _, m) => t <= m.now
    case Heartbeat(u, _) => u !in stale
    case Ticket(_, u, _) => u !in stale
    case _ => true
  }

  // The row of a reaped agent beside the row of the same agent had there been no reaper.
  predicate SameButAway(ttl: int, a: Availability, b: Availability, t: int) {
    && (a.status == Online || a.status == Away) && b == a.(status := Away)
    && !a.PresenceFresh(ttl, t)
  }

  // The two worlds differ at most in the status of the reaped agents.
  ghost predicate Twins(cfg: Config, w: World, r: World, stale: set<UserId>, t: int) {
    && r == w.(agents := r.agents) && r.agents.Keys == w.agents.Keys && stale <= w.agents.Keys
    && forall u :: u in w.agents ==>
         if u in stale then SameButAway(cfg.ttl, w.agents[u], r.agents[u], t) else r.agents[u] == w.agents[u]
  }

  lemma TwinsAssignAlike(cfg: Config, w: World, r: World, stale: set<UserId>, t: int, u: UserId, m: Moment)
    requires Twins(cfg, w, r, stale, t) && t <= m.now
    ensures AssignableAt(cfg, r, u, m) <==> AssignableAt(cfg, w, u, m)
  {}

  lemma AssignKeepsTwins(
    cfg: Config, w: World, r: World, stale: set<UserId>, t: int, e: EmailId, u: UserId, m: Moment)
    requires Twins(cfg, w, r, stale, t) && t <= m.now
    ensures Twins(cfg, AssignTo(cfg, w, e, u, true, m), AssignTo(cfg, r, e, u, true, m), stale, t)
  {
    TwinsAssignAlike(cfg, w, r, stale, t, u, m);
    assert AssignableAt(cfg, w, u, m) ==> u !in stale && r.agents[u] == w.agents[u];
  }

  lemma ReapKeepsTwins(cfg: Config, w: World, r: World, stale: set<UserId>, t: int, now: int)
    requires Twins(cfg, w, r, stale, t)
    ensures Twins(cfg, ReapAll(cfg, w, now), ReapAll(cfg, r, now), stale, t)
  {}

  lemma CountKeepsTwins(cfg: Config, w: World, r: World, stale: set<UserId>, t: int, s: Step)
    requires Twins(cfg, w, r, stale, t) && Quiet(s, stale, t) && (s.Ticket? || s.EmailTicket?)
    ensures Twins(cfg, Apply(cfg, w, s), Apply(cfg, r, s), stale, t)
  {}

  lemma QuietStepKeepsTwins(cfg: Config, w: World, r: World, stale: set<UserId>, t: int, s: Step)
    requires Twins(cfg, w, r, stale, t) && Quiet(s, stale, t)
    ensures Twins(cfg, Apply(cfg, w, s), Apply(cfg, r, s), stale, t)
  {
    match s
    case Assign(e, u, m) => AssignKeepsTwins(cfg, w, r, stale, t, e, u, m);
    case Reaper(now) => ReapKeepsTwins(cfg, w, r, stale, t, now);
    case Ticket(_, _, _) => CountKeepsTwins(cfg, w, r, stale, t, s);
    case EmailTicket(_, _, _) => CountKeepsTwins(cfg, w, r, stale, t, s);
    case _ =>
  }

  lemma {:induction false} QuietRunKeepsTwins(cfg: Config, w: World, ss: seq<Step>, t: int)
    requires forall k :: 0 <= k < |ss| ==> Quiet(ss[k], StaleAt(cfg, w, t), t)
    ensures Twins(cfg, Run(cfg, w, ss), Run(cfg, ReapAll(cfg, w, t), ss), StaleAt(cfg, w, t), t)
    decreases |ss|
  {
    if ss != [] {
      var front := ss[..|ss| - 1];
      QuietRunKeepsTwins(cfg, w, front, t);
      QuietStepKeepsTwins(
        cfg, Run(cfg, w, front), Run(cfg, ReapAll(cfg, w, t), front), StaleAt(cfg, w, t), t, ss[|ss| - 1]);
    }
  }

  /** Reaping is invisible to the engine over every run in which no agent who was stale when
      reaped sends a heartbeat or is handed a ticket by auto_assign_ticket: emails, inbox copies,
      audit rows and counters develop alike, and at every moment the same agents are assignable. */
  lemma ReapingIsInvisibleUntilReconnect(cfg: Config, w: World, ss: seq<Step>, t: int, u: UserId, m: Moment)
    requires forall k :: 0 <= k < |ss| ==> Quiet(ss[k], StaleAt(cfg, w, t), t)
    requires t <= m.now
    ensures var a, b := Run(cfg, w, ss), Run(cfg, ReapAll(cfg, w, t), ss);
      && b == a.(agents := b.agents) && b.agents.Keys == a.agents.Keys
      && (AssignableAt(cfg, b, u, m) <==> AssignableAt(cfg, a, u, m))
      && (u in a.agents ==> b.agents[u] == a.agents[u].(status := b.agents[u].status))
  {
    QuietRunKeepsTwins(cfg, w, ss, t);
    TwinsAssignAlike(
      cfg, Run(cfg, w, ss), Run(cfg, ReapAll(cfg, w, t), ss), StaleAt(cfg, w, t), t, u, m);
  }

  /** It becomes visible with the first heartbeat of such an agent, and with nothing else: after
      it the run with the reaper differs from the run without it in the assignability of exactly
      that agent, who stays away; an agent that was fresh when the reaper ran is not affected. */
  lemma ReconnectShowsTheReap(
    cfg: Config, w: World, ss: seq<Step>, t: int, v: UserId, t2: int, u: UserId, m: Moment)
    requires forall k :: 0 <= k < |ss| ==> Quiet(ss[k], StaleAt(cfg, w, t), t)
    requires t <= m.now
    ensures var a := Apply(cfg, Run(cfg, w, ss), Heartbeat(v, t2));
      var b := Apply(cfg, Run(cfg, ReapAll(cfg, w, t), ss), Heartbeat(v, t2));
      AssignableAt(cfg, b, u, m) <==> AssignableAt(cfg, a, u, m) && !(u == v && u in StaleAt(cfg, w, t))
  {
    QuietRunKeepsTwins(cfg, w, ss, t);
  }

  /** The case without steps in between: reaped at t, back at t2. */
  lemma ReapedThenTouched(cfg: Config, w: World, u: UserId, t: int, t2: int, m: Moment)
    requires u in w.agents
    ensures AssignableAt(cfg, Touch(cfg, ReapAll(cfg, w, t), u, t2), u, m)
       <==> AssignableAt(cfg, Touch(cfg, w, u, t2), u, m) && !IsStale(cfg.ttl, w.agents[u], t)
  {}

  /** auto_assign_ticket has no freshness test, so for it the reaper changes who is available at
      once: it removes exactly the stale rows. */
  lemma ReapingStopsTicketsToStaleAgents(cfg: Config, w: World, u: UserId, t: int)
    requires u in w.agents
    ensures TicketTakes(ReapAll(cfg, w, t), u) <==> TicketTakes(w, u) && !IsStale(cfg.ttl, w.agents[u], t)
  {}

  /** The reconnect that handle_live_heartbeat means to serve: an agent whose last heartbeat was at
      0 comes back at 101. Had the reaper not run at 100 they would be assignable; since it has,
      their AWAY is taken for a choice of their own, and they are not. */
  lemma ReconnectAfterReapingIsNotServed(cfg: Config, w: World, u: UserId)
    requires cfg.ttl == 90 && w.agents == map[u := Availability(Online, 10, 0, Some(0), Some(0), false)]
    ensures var m := Moment(101, {});
      && AssignableAt(cfg, Run(cfg, w, [Heartbeat(u, 101)]), u, m)
      && !AssignableAt(cfg, Run(cfg, w, [Reaper(100), Heartbeat(u, 101)]), u, m)
  {
    assert Run(cfg, w, []) == w;
    assert [Heartbeat(u, 101)][..0] == [];
    var es := [Reaper(100), Heartbeat(u, 101)];
    assert es[..1] == [Reaper(100)] && es[..1][..0] == [];
    assert Run(cfg, w, es[..1]) == ReapAll(cfg, w, 100);
  }

  lemma StepKeepsBusy(cfg: Config, w: World, u: UserId, s: Step)
    requires u in w.agents && w.agents[u].status == Busy
    ensures u in Apply(cfg, w, s).agents && Apply(cfg, w, s).agents[u].status == Busy
    ensures s.Assign? && s.u == u ==> !Succeeds(cfg, w, s)
  {
    match s
    case Assign(_, _, _) =>
    case Heartbeat(_, _) =>
    case Reaper(_) =>
    case _ =>
  }

  /** BUSY is the agent's own choice and is kept: over every run a busy agent stays busy, heartbeats
      included, and takes no engine assignment. */
  lemma {:induction false} BusyAgentStaysBusy(cfg: Config, w: World, u: UserId, ss: seq<Step>)
    requires u in w.agents && w.agents[u].status == Busy
    ensures u in Run(cfg, w, ss).agents && Run(cfg, w, ss).agents[u].status == Busy
    ensures forall k :: 0 <= k < |ss| && ss[k].Assign? && ss[k].u == u ==> !Succeeds(cfg, Run(cfg, w, ss[..k]), ss[k])
    decreases |ss|
  {
    if ss != [] {
      var front := ss[..|ss| - 1];
      BusyAgentStaysBusy(cfg, w, u, front);
      StepKeepsBusy(cfg, Run(cfg, w, front), u, ss[|ss| - 1]);
      forall k | 0 <= k < |ss| && ss[k].Assign? && ss[k].u == u ensures !Succeeds(cfg, Run(cfg, w, ss[..k]), ss[k]) {
        if k < |front| {
          assert front[..k] == ss[..k] && front[k] == ss[k];
        }
      }
    }
  }

  lemma StepKeepsAway(cfg: Config, w: World, u: UserId, s: Step)
    requires u in w.agents && w.agents[u].status == Away
    ensures u in Apply(cfg, w, s).agents && Apply(cfg, w, s).agents[u].status == Away
  {
    match s
    case Assign(_, _, _) =>
    case Heartbeat(_, _) =>
    case Reaper(_) =>
    case _ =>
  }

  /** Nor does any number of heartbeats, or anything else the engine does, bring a reaped agent
      back: only a change of status by hand does, which is not a step here. */
  lemma {:induction false} ReapedAgentStaysAway(cfg: Config, w: World, u: UserId, t: int, ss: seq<Step>, m: Moment)
    requires u in StaleAt(cfg, w, t)
    ensures var w' := Run(cfg, ReapAll(cfg, w, t), ss);
      u in w'.agents && w'.agents[u].status == Away && !AssignableAt(cfg, w', u, m)
    decreases |ss|
  {
    if ss != [] {
      ReapedAgentStaysAway(cfg, w, u, t, ss[..|ss| - 1], m);
      StepKeepsAway(cfg, Run(cfg, ReapAll(cfg, w, t), ss[..|ss| - 1]), u, ss[|ss| - 1]);
    }
  }
}
