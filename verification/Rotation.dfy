// Rotation of inbound-email tickets over the agents of a tenant: fewest open tickets first,
// then least recently assigned, never-assigned agents before all others
// (apps/agents/services.py, pick_email_agent and auto_assign_email_ticket).
module Rotation {
  import opened Options
  import opened Sets

  type Agent = nat
  type TicketId = nat

  // What the query annotates on each eligible agent.
  datatype Load = Load(open: nat, last: Option<int>)
  type Loads = map<Agent, Load>

  // order_by(open_ticket_count, last_assigned_at nulls first)
  predicate NoLater(a: Load, b: Load) {
    a.open < b.open || (a.open == b.open && (a.last.None? || (b.last.Some? && a.last.value <= b.last.value)))
  }

  // The query may return any of its least rows; nothing orders agents that tie on both keys.
  ghost predicate MayPick(l: Loads, a: Agent) {
    a in l && forall b :: b in l ==> NoLater(l[a], l[b])
  }

  function Given(l: Loads, a: Agent, at: int): Loads
    requires a in l
  {
    l[a := Load(l[a].open + 1, Some(at))]
  }

  // ---------------------------------------------------------------- runs

  // One assignment: who got the ticket, and the audit timestamp.
  datatype Pick = Pick(agent: Agent, at: int)

  predicate AllEligible(l: Loads, p: seq<Pick>) {
    forall i :: 0 <= i < |p| ==> p[i].agent in l
  }

  // The loads after the first k picks.
  function At(l: Loads, p: seq<Pick>, k: nat): (s: Loads)
    requires AllEligible(l, p) && k <= |p|
    ensures s.Keys == l.Keys
  {
    if k == 0 then l else Given(At(l, p, k - 1), p[k - 1].agent, p[k - 1].at)
  }

  ghost predicate GoodPick(l: Loads, p: seq<Pick>, i: nat)
    requires AllEligible(l, p) && i < |p|
  {
    MayPick(At(l, p, i), p[i].agent)
  }

  // A run with a fixed eligible set and no ticket closing.
  ghost predicate LegalPicks(l: Loads, p: seq<Pick>) {
    AllEligible(l, p) && forall i :: 0 <= i < |p| ==> GoodPick(l, p, i)
  }

  // Such a run under an advancing clock.
  ghost predicate IsRun(l: Loads, p: seq<Pick>) {
    && l != map[] && AllEligible(l, p)
    && (forall i :: 0 <= i < |p| ==> GoodPick(l, p, i))
    && (forall i, j :: 0 <= i < j < |p| ==> p[i].at < p[j].at)
  }

  predicate Within(l: Loads, d: nat, a: Agent, b: Agent) {
    a in l && b in l ==> l[a].open <= l[b].open + d
  }

  ghost predicate SpreadAtMost(l: Loads, d: nat) {
    forall a, b :: Within(l, d, a, b)
  }

  lemma SpreadStep(l: Loads, a: Agent, at: int, d: nat)
    requires MayPick(l, a) && SpreadAtMost(l, d) && d >= 1
    ensures SpreadAtMost(Given(l, a, at), d)
  {
    forall x, y ensures Within(Given(l, a, at), d, x, y) {
      assert Within(l, d, x, y);
      assert y in l ==> NoLater(l[a], l[y]);
    }
  }

  lemma SpreadWeakens(l: Loads, d: nat, e: nat)
    requires SpreadAtMost(l, d) && d <= e
    ensures SpreadAtMost(l, e)
  {
    forall x, y ensures Within(l, e, x, y) {
      assert Within(l, d, x, y);
    }
  }

  lemma StepAt(l: Loads, p: seq<Pick>, d: nat, k: nat)
    requires AllEligible(l, p) && k < |p| && GoodPick(l, p, k) && SpreadAtMost(At(l, p, k), d) && d >= 1
    ensures SpreadAtMost(At(l, p, k + 1), d)
  {
    SpreadStep(At(l, p, k), p[k].agent, p[k].at, d);
  }

  /** Balance: the spread of open counts never exceeds max(1, the initial spread). */
  lemma SpreadNeverGrows(l: Loads, p: seq<Pick>, d: nat, k: nat)
    requires LegalPicks(l, p) && SpreadAtMost(l, d) && k <= |p|
    ensures SpreadAtMost(At(l, p, k), Max(1, d))
  {
    var bound := Max(1, d);
    SpreadWeakens(l, d, bound);
    for j := 0 to k
      invariant SpreadAtMost(At(l, p, j), bound)
    {
      StepAt(l, p, bound, j);
    }
    assert SpreadAtMost(At(l, p, k), bound);
  }

  // ---------------------------------------------------------------- sets of picks

  // Who was picked from position i up to position j.
  function Picked(p: seq<Pick>, i: nat, j: nat): set<Agent>
    requires i <= j <= |p|
  {
    if i == j then {} else Picked(p, i, j - 1) + {p[j - 1].agent}
  }

  // Picks i..j go to different agents.
  predicate AllDifferent(p: seq<Pick>, i: nat, j: nat)
    requires i <= j <= |p|
  {
    forall x, y :: i <= x < y < j ==> p[x].agent != p[y].agent
  }

  lemma {:induction false} PickedAt(p: seq<Pick>, i: nat, j: nat)
    requires i <= j <= |p|
    ensures forall a :: a in Picked(p, i, j) <==> exists k :: i <= k < j && p[k].agent == a
    decreases j
  {
    if i < j {
      PickedAt(p, i, j - 1);
    }
  }

  lemma {:induction false} PickedSize(p: seq<Pick>, i: nat, j: nat)
    requires i <= j <= |p| && AllDifferent(p, i, j)
    ensures |Picked(p, i, j)| == j - i
    decreases j
  {
    if i < j {
      PickedSize(p, i, j - 1);
      PickedAt(p, i, j - 1);
    }
  }

  // |l| different picks are everybody.
  lemma FullRound(l: Loads, p: seq<Pick>, i: nat)
    requires AllEligible(l, p) && i + |l| <= |p| && AllDifferent(p, i, i + |l|)
    ensures Picked(p, i, i + |l|) == l.Keys
  {
    var all := Picked(p, i, i + |l|);
    PickedAt(p, i, i + |l|);
    PickedSize(p, i, i + |l|);
    assert |l.Keys| == |l|;
    SubsetOfSameSize(all, l.Keys);
  }

  // ---------------------------------------------------------------- round robin

  // Picks r..k belong to the current round: those agents have one ticket more than the others.
  ghost predicate Round(l: Loads, p: seq<Pick>, r: nat, k: nat, base: nat)
    requires AllEligible(l, p) && r <= k <= |p|
  {
    && AllDifferent(p, r, k)
    && forall a :: a in l ==> At(l, p, k)[a].open == base + if a in Picked(p, r, k) then 1 else 0
  }

  // One more pick inside an unfinished round goes to an agent not yet picked in it.
  lemma NextPickIsFresh(l: Loads, p: seq<Pick>, r: nat, k: nat, base: nat)
    requires IsRun(l, p) && r <= k < |p| && k - r < |l| && Round(l, p, r, k, base)
    ensures p[k].agent !in Picked(p, r, k)
  {
    var s := At(l, p, k);
    PickedSize(p, r, k);
    assert |l.Keys| == |l|;
    var waiting := SmallerSetMisses(Picked(p, r, k), l.Keys);
    assert s[waiting].open == base;
    assert GoodPick(l, p, k);
    assert NoLater(s[p[k].agent], s[waiting]);
  }

  lemma RoundGrows(l: Loads, p: seq<Pick>, r: nat, k: nat, base: nat)
    requires IsRun(l, p) && r <= k < |p| && k - r < |l| && Round(l, p, r, k, base)
    ensures p[k].agent !in Picked(p, r, k)
    ensures Round(l, p, r, k + 1, base)
  {
    NextPickIsFresh(l, p, r, k, base);
    assert AllDifferent(p, r, k + 1) by {
      PickedAt(p, r, k);
    }
    var s, s' := At(l, p, k), At(l, p, k + 1);
    assert s' == Given(s, p[k].agent, p[k].at);
    assert Picked(p, r, k + 1) == Picked(p, r, k) + {p[k].agent};
    forall a | a in l ensures s'[a].open == base + if a in Picked(p, r, k + 1) then 1 else 0 {
      assert s[a].open == base + if a in Picked(p, r, k) then 1 else 0;
    }
  }

  // After a full round everybody has one ticket more and a new round begins.
  lemma RoundCloses(l: Loads, p: seq<Pick>, r: nat, base: nat)
    requires AllEligible(l, p) && r + |l| <= |p| && Round(l, p, r, r + |l|, base)
    ensures Round(l, p, r + |l|, r + |l|, base + 1) && HasPreviousRound(l, p, r + |l|)
  {
    FullRound(l, p, r);
  }

  // The |l| picks before r, if any, were a full round.
  ghost predicate HasPreviousRound(l: Loads, p: seq<Pick>, r: nat)
    requires r <= |p|
  {
    r == 0 || (|l| <= r && AllDifferent(p, r - |l|, r))
  }

  lemma RoundOpens(l: Loads, p: seq<Pick>, base: nat)
    requires AllEligible(l, p) && forall a :: a in l ==> l[a].open == base
    ensures Round(l, p, 0, 0, base) && HasPreviousRound(l, p, 0)
  {}

  // Pick k belongs to the round that began at r: more picks of it are to come after k, and the
  // round before r was complete.
  ghost predicate InRound(l: Loads, p: seq<Pick>, r: nat, k: nat, base: nat)
    requires AllEligible(l, p) && k <= |p|
  {
    r <= k < r + |l| && HasPreviousRound(l, p, r) && Round(l, p, r, k, base)
  }

  lemma NextRound(l: Loads, p: seq<Pick>, r: nat, k: nat, base: nat) returns (r': nat, base': nat)
    requires IsRun(l, p) && k < |p| && InRound(l, p, r, k, base)
    ensures InRound(l, p, r', k + 1, base')
  {
    RoundGrows(l, p, r, k, base);
    if k + 1 == r + |l| {
      RoundCloses(l, p, r, base);
      r', base' := k + 1, base + 1;
    } else {
      r', base' := r, base;
    }
  }

  // From equal counts, the picks divide into rounds of |l|.
  lemma {:induction false} InRounds(l: Loads, p: seq<Pick>, k: nat, base: nat) returns (r: nat, b: nat)
    requires IsRun(l, p) && k <= |p|
    requires forall a :: a in l ==> l[a].open == base
    ensures InRound(l, p, r, k, b)
    decreases k
  {
    if k == 0 {
      RoundOpens(l, p, base);
      r, b := 0, base;
    } else {
      r, b := InRounds(l, p, k - 1, base);
      r, b := NextRound(l, p, r, k - 1, b);
    }
  }
}
