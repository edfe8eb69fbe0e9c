// The lifecycle of an Inbox Hub email (apps/inbox_hub/state_machine.py).
module HubStateMachine {

  datatype HubState =
    | New | Assigned | InProgress | PendingAgent | AwaitingCustomer
    | Escalated | Resolved | Converted | Dismissed

  const ALLOWED_TRANSITIONS: map<HubState, set<HubState>> := map[
    New := {Assigned, Escalated, Dismissed, Converted},
    Assigned := {New, InProgress, PendingAgent, AwaitingCustomer, Escalated, Resolved, Dismissed, Converted},
    InProgress := {PendingAgent, AwaitingCustomer, Escalated, Resolved, Dismissed, Converted},
    PendingAgent := {InProgress, AwaitingCustomer, Escalated, Resolved, Dismissed, Converted},
    AwaitingCustomer := {InProgress, PendingAgent, Escalated, Resolved, Dismissed, Converted},
    Escalated := {Assigned, InProgress, Resolved, Dismissed, Converted},
    Resolved := {InProgress, Converted, Dismissed},
    Converted := {},
    Dismissed := {}
  ]

  // States in which an assignee still carries the email (assignment.py, ACTIVE_STATES).
  const ACTIVE_STATES: set<HubState> := {New, Assigned, InProgress, PendingAgent, AwaitingCustomer, Escalated}

  predicate CanTransition(from: HubState, to: HubState) {
    from != to && from in ALLOWED_TRANSITIONS && to in ALLOWED_TRANSITIONS[from]
  }

  predicate Terminal(s: HubState) {
    s == Converted || s == Dismissed
  }

  /** The active states are all but the settled ones. */
  lemma ActiveUnlessSettled(s: HubState)
    ensures s in ACTIVE_STATES <==> s != Resolved && s != Converted && s != Dismissed
  {}

  /** The same table read the other way: from where each state can be entered. */
  lemma EnteredFrom(s: HubState)
    ensures CanTransition(s, New) <==> s == Assigned
    ensures CanTransition(s, Assigned) <==> s in {New, Escalated}
    ensures CanTransition(s, InProgress) <==> s in {Assigned, PendingAgent, AwaitingCustomer, Escalated, Resolved}
    ensures CanTransition(s, PendingAgent) <==> s in {Assigned, InProgress, AwaitingCustomer}
    ensures CanTransition(s, AwaitingCustomer) <==> s in {Assigned, InProgress, PendingAgent}
    ensures CanTransition(s, Escalated) <==> s in {New, Assigned, InProgress, PendingAgent, AwaitingCustomer}
    ensures CanTransition(s, Resolved) <==> s in {Assigned, InProgress, PendingAgent, AwaitingCustomer, Escalated}
    ensures CanTransition(s, Converted) <==> s != Converted && s != Dismissed
    ensures CanTransition(s, Dismissed) <==> s != Converted && s != Dismissed
  {}

  // A history of one email in which every change went through the table.
  ghost predicate LegalPath(p: seq<HubState>) {
    forall i :: 0 < i < |p| ==> CanTransition(p[i - 1], p[i])
  }

  // An email somebody has worked on.
  predicate Worked(s: HubState) {
    s in {InProgress, PendingAgent, AwaitingCustomer, Resolved}
  }

  /** A worked email returns to the NEW pool only by being escalated first and then
      assigned: no legal history goes back directly. */
  lemma {:induction false} WorkedMailReturnsToNewOnlyThroughEscalation(p: seq<HubState>)
    requires LegalPath(p) && |p| > 0
    requires Worked(p[0]) && p[|p| - 1] == New
    ensures exists i, j :: 0 < i < j < |p| - 1 && p[i] == Escalated && p[j] == Assigned
  {
    var rest := p[1..];
    assert CanTransition(p[0], p[1]);
    assert LegalPath(rest) by {
      forall i | 0 < i < |rest| ensures CanTransition(rest[i - 1], rest[i]) {
        assert CanTransition(p[i], p[i + 1]);
      }
    }
    assert |p| > 2 && CanTransition(p[1], p[2]);
    if Worked(p[1]) {
      WorkedMailReturnsToNewOnlyThroughEscalation(rest);
      var i, j :| 0 < i < j < |rest| - 1 && rest[i] == Escalated && rest[j] == Assigned;
      assert p[i + 1] == Escalated && p[j + 1] == Assigned;
    } else {
      assert p[1] == Escalated;
      var k := LastAssigned(rest);
      assert p[k + 1] == Assigned;
    }
  }

  // The state just before the final NEW is ASSIGNED.
  lemma LastAssigned(p: seq<HubState>) returns (k: nat)
    requires LegalPath(p) && |p| > 1 && p[0] != New && p[|p| - 1] == New
    ensures 0 <= k < |p| - 1 && p[k] == Assigned && (p[0] != Assigned ==> k > 0)
  {
    k := |p| - 2;
    assert CanTransition(p[k], p[k + 1]);
  }

  /** CONVERTED and DISMISSED are exactly the states a history cannot leave, and every other
      state can still be dismissed or converted in one step. */
  lemma TerminalExactlyWhenNoWayOut(s: HubState)
    ensures Terminal(s) <==> forall t :: !CanTransition(s, t)
    ensures !Terminal(s) ==> CanTransition(s, Converted) && CanTransition(s, Dismissed)
  {
    if !Terminal(s) {
      assert CanTransition(s, Dismissed);
    }
  }
}
