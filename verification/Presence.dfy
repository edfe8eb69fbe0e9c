// Agent availability rows and the gates computed from them (apps/agents/models.py).
module Presence {
  import opened Options

  type UserId = nat

  datatype AgentStatus = Online | Away | Busy | Offline

  datatype Availability = Availability(
    status: AgentStatus,
    maxConcurrent: nat,
    ticketCount: nat,
    lastSeen: Option<int>,
    lastActivity: Option<int>,
    autoAwayOutsideHours: bool)
  {
    function RemainingCapacity(): nat {
      if maxConcurrent <= ticketCount then 0 else maxConcurrent - ticketCount
    }

    predicate PresenceFresh(ttl: int, now: int) {
      lastSeen.Some? && now - lastSeen.value <= ttl
    }
  }

  // One reading of the clock: the time in seconds, and the agents whose configured
  // working hours include it.
  datatype Moment = Moment(now: int, inHours: set<UserId>)

  const DEFAULT_MAX_CONCURRENT := 10

  predicate IsAssignable(ttl: int, u: UserId, a: Availability, m: Moment) {
    && a.status == Online
    && a.RemainingCapacity() > 0
    && a.PresenceFresh(ttl, m.now)
    && (a.autoAwayOutsideHours ==> u in m.inHours)
  }

  // Rows the reaper selects (apps/agents/tasks.py).
  predicate IsStale(ttl: int, a: Availability, now: int) {
    a.status == Online && (a.lastSeen.None? || a.lastSeen.value < now - ttl)
  }

  function ReapRow(ttl: int, a: Availability, now: int): Availability {
    if IsStale(ttl, a, now) then a.(status := Away) else a
  }

  function Reap(ttl: int, agents: map<UserId, Availability>, now: int): map<UserId, Availability> {
    map u | u in agents :: ReapRow(ttl, agents[u], now)
  }

  // The row a heartbeat leaves behind (apps/agents/presence.py, touch_presence).
  function TouchedRow(autoOnline: bool, row: Option<Availability>, now: int): Availability {
    match row
    case None =>
      Availability(if autoOnline then Online else Offline, DEFAULT_MAX_CONCURRENT, 0, Some(now), Some(now), false)
    case Some(a) =>
      a.(status := if autoOnline && a.status == Offline then Online else a.status,
         lastSeen := Some(now), lastActivity := Some(now))
  }

  /** The gate in terms of the columns: ONLINE, a ticket short of the maximum, a heartbeat no older
      than the TTL, and inside working hours if the agent asked for that. */
  lemma AssignableExactlyWhen(ttl: int, u: UserId, a: Availability, m: Moment)
    ensures IsAssignable(ttl, u, a, m) <==>
      && a.status == Online && a.ticketCount + 1 <= a.maxConcurrent
      && (exists seen :: a.lastSeen == Some(seen) && m.now <= seen + ttl)
      && (u in m.inHours || !a.autoAwayOutsideHours)
  {
    assert a.lastSeen.Some? ==> a.lastSeen == Some(a.lastSeen.value);
  }

  /** The reaper and the freshness gate are exact complements: an ONLINE row is reaped at
      `now` if and only if its heartbeat is not fresh at `now`, so on the rows as they stand
      reaping changes nobody's assignability. What a later heartbeat makes of it is proved in
      module Reaping. */
  lemma ReapingKeepsCurrentAssignability(
    ttl: int, agents: map<UserId, Availability>, u: UserId, now: int, m: Moment)
    requires u in agents && now <= m.now
    ensures u in Reap(ttl, agents, now)
    ensures IsAssignable(ttl, u, Reap(ttl, agents, now)[u], m) <==> IsAssignable(ttl, u, agents[u], m)
    ensures agents[u].status == Online ==>
              (Reap(ttl, agents, now)[u].status == Away <==> !agents[u].PresenceFresh(ttl, now))
    ensures Reap(ttl, Reap(ttl, agents, now), now) == Reap(ttl, agents, now)
  {
    var once := Reap(ttl, agents, now);
    forall v | v in once ensures ReapRow(ttl, once[v], now) == once[v] {
      assert once[v] == ReapRow(ttl, agents[v], now);
    }
    assert Reap(ttl, once, now) == once;
  }
}
