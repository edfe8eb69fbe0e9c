// The agent inbox: link, action and ignore under write-once stamps, disturbed by the engine
// handing mail to agents (apps/inbound_email/inbox_services.py, models.py and
// apps/inbox_hub/assignment.py).
module InboxWorkflow {
  import opened Options

  type UserId = nat
  type TicketId = nat

  datatype InboxStatus = Pending | Linked | Actioned | Ignored
  datatype InboxAction = OpenTicket | AssignTicket | CloseTicket

  datatype Row = Row(
    status: InboxStatus,
    linkedTicket: Option<TicketId>,
    linkedAt: Option<int>,
    linkedBy: Option<UserId>,
    actionedAt: Option<int>,
    actionedBy: Option<UserId>,
    action: Option<InboxAction>,
    assignee: Option<UserId>,
    isRead: bool)

  datatype Column =
    | StatusCol | LinkedTicketCol | LinkedAtCol | LinkedByCol
    | ActionedAtCol | ActionedByCol | ActionCol | AssigneeCol | IsReadCol

  // The guard of InboundEmail.save: compares the copy in memory with the stored row.
  predicate GuardPasses(stored: Row, copy: Row) {
    && (stored.actionedAt.Some? ==> copy.actionedAt == stored.actionedAt)
    && (stored.actionedBy.Some? ==> copy.actionedBy == stored.actionedBy)
    && (stored.linkedAt.Some? ==> copy.linkedAt == stored.linkedAt)
    && (stored.linkedBy.Some? ==> copy.linkedBy == stored.linkedBy)
  }

  // save(update_fields=...): only the named columns reach the row.
  function Written(stored: Row, copy: Row, columns: set<Column>): Row {
    Row(if StatusCol in columns then copy.status else stored.status,
        if LinkedTicketCol in columns then copy.linkedTicket else stored.linkedTicket,
        if LinkedAtCol in columns then copy.linkedAt else stored.linkedAt,
        if LinkedByCol in columns then copy.linkedBy else stored.linkedBy,
        if ActionedAtCol in columns then copy.actionedAt else stored.actionedAt,
        if ActionedByCol in columns then copy.actionedBy else stored.actionedBy,
        if ActionCol in columns then copy.action else stored.action,
        if AssigneeCol in columns then copy.assignee else stored.assignee,
        if IsReadCol in columns then copy.isRead else stored.isRead)
  }

  const LINK_COLUMNS: set<Column> := {LinkedTicketCol, LinkedAtCol, LinkedByCol, StatusCol}
  const ACTION_COLUMNS: set<Column> := {StatusCol, ActionedAtCol, ActionedByCol, ActionCol}
  const IGNORE_COLUMNS: set<Column> := {StatusCol}
  const ASSIGN_COLUMNS: set<Column> := {AssigneeCol, StatusCol, IsReadCol}

  // What a service is asked to do.
  datatype Request =
    | Link(ticket: Option<TicketId>, user: UserId)              // None: bad number, no tenant, no such ticket
    | Act(action: InboxAction, user: UserId, ticketRaises: bool) // ticketRaises: bad assignee, ticket service raises
    | Ignore
    | HandOver(to: UserId)                                    // assign_to

  // The copy after the service's own assignments, or None when one of its checks raises.
  function Prepared(copy: Row, r: Request, now: int): Option<Row> {
    match r
    case Link(ticket, user) =>
      if ticket.None? then None
      else Some(copy.(linkedTicket := ticket, linkedAt := Some(now), linkedBy := Some(user), status := Linked))
    case Act(action, user, ticketRaises) =>
      if copy.status == Actioned || copy.status != Linked || copy.linkedTicket.None? || ticketRaises then None
      else Some(copy.(status := Actioned, actionedAt := Some(now), actionedBy := Some(user), action := Some(action)))
    case Ignore =>
      if copy.status == Actioned || copy.status == Ignored then None else Some(copy.(status := Ignored))
    case HandOver(to) => Some(copy.(assignee := Some(to), status := Pending, isRead := false))
  }

  function ColumnsOf(r: Request): set<Column> {
    match r
    case Link(_, _) => LINK_COLUMNS
    case Act(_, _, _) => ACTION_COLUMNS
    case Ignore => IGNORE_COLUMNS
    case HandOver(_) => ASSIGN_COLUMNS
  }

  // The guard reads the row as `guarded`; no lock is taken.
  predicate Succeeds(guarded: Row, copy: Row, r: Request, now: int) {
    var p := Prepared(copy, r, now);
    p.Some? && GuardPasses(guarded, p.value)
  }

  // The UPDATE that follows meets the row as `stored`.
  function Commit(guarded: Row, stored: Row, copy: Row, r: Request, now: int): Row {
    if Succeeds(guarded, copy, r, now) then Written(stored, Prepared(copy, r, now).value, ColumnsOf(r)) else stored
  }

  // The same when nothing commits between the guard and the UPDATE.
  function Serve(stored: Row, copy: Row, r: Request, now: int): Row {
    Commit(stored, stored, copy, r, now)
  }

  /** What each request needs and what it stores, on current data: linking needs a ticket of the
      workspace and an unset link stamp; actioning a linked email with its ticket and no action stamp;
      ignoring an email neither actioned nor ignored; a hand-over nothing. Whatever a request does not
      name stays as it was. */
  lemma RequestsStoreExactly(r: Row, user: UserId, ticket: Option<TicketId>, a: InboxAction, raises: bool, now: int)
    requires r.linkedAt != Some(now) && r.actionedAt != Some(now)
    requires r.linkedAt.Some? == r.linkedBy.Some? && r.actionedAt.Some? == r.actionedBy.Some?
    ensures Succeeds(r, r, Link(ticket, user), now) <==> ticket.Some? && r.linkedAt == None
    ensures Succeeds(r, r, Link(ticket, user), now) ==>
      Serve(r, r, Link(ticket, user), now)
        == Row(Linked, ticket, Some(now), Some(user), r.actionedAt, r.actionedBy, r.action, r.assignee, r.isRead)
    ensures Succeeds(r, r, Act(a, user, raises), now) <==>
      r.status == Linked && r.linkedTicket.Some? && r.actionedAt == None && !raises
    ensures Succeeds(r, r, Act(a, user, raises), now) ==>
      Serve(r, r, Act(a, user, raises), now)
        == Row(Actioned, r.linkedTicket, r.linkedAt, r.linkedBy, Some(now), Some(user), Some(a), r.assignee, r.isRead)
    ensures Succeeds(r, r, Ignore, now) <==> r.status in {Pending, Linked}
    ensures Succeeds(r, r, Ignore, now) ==> Serve(r, r, Ignore, now) == r.(status := Ignored)
    ensures Succeeds(r, r, HandOver(user), now)
    ensures Serve(r, r, HandOver(user), now) == r.(status := Pending, assignee := Some(user), isRead := false)
  {}

  /** On a stale copy a request stores its own columns and nothing else: what others wrote to the
      remaining columns meanwhile survives. */
  lemma OtherColumnsSurvive(guarded: Row, stored: Row, copy: Row, user: UserId, ticket: Option<TicketId>, a: InboxAction, now: int)
    ensures var r := Commit(guarded, stored, copy, Link(ticket, user), now);
      r == stored || r == stored.(status := Linked, linkedTicket := ticket, linkedAt := Some(now), linkedBy := Some(user))
    ensures var r := Commit(guarded, stored, copy, Act(a, user, false), now);
      r == stored || r == stored.(status := Actioned, actionedAt := Some(now), actionedBy := Some(user), action := Some(a))
    ensures Commit(guarded, stored, copy, Ignore, now) in {stored, stored.(status := Ignored)}
    ensures Commit(guarded, stored, copy, HandOver(user), now)
            in {stored, stored.(status := Pending, assignee := Some(user), isRead := false)}
  {}

  // ---------------------------------------------------------------- runs

  // A request served from a copy loaded when the row was at version `seen`, whose guard read
  // version `guarded`.
  datatype Step = Step(seen: nat, guarded: nat, request: Request, now: int)

  // rows[k] is the stored row when the UPDATE of steps[k] runs.
  ghost predicate IsRun(rows: seq<Row>, steps: seq<Step>) {
    && |rows| == |steps| + 1
    && forall k :: 0 <= k < |steps| ==> StepAt(rows, steps, k)
  }

  ghost predicate StepAt(rows: seq<Row>, steps: seq<Step>, k: nat)
    requires k < |steps| && k + 1 < |rows|
  {
    && steps[k].seen <= steps[k].guarded <= k
    && rows[k + 1] == Commit(rows[steps[k].guarded], rows[k], rows[steps[k].seen], steps[k].request, steps[k].now)
  }

  ghost predicate SucceedsAt(rows: seq<Row>, steps: seq<Step>, k: nat)
    requires |rows| == |steps| + 1 && k < |steps|
  {
    && steps[k].seen <= steps[k].guarded <= k
    && Succeeds(rows[steps[k].guarded], rows[steps[k].seen], steps[k].request, steps[k].now)
  }

  // Two requests that write the same stamps.
  predicate SameStamps(a: Request, b: Request) {
    (a.Link? && b.Link?) || (a.Act? && b.Act?)
  }

  // No successful request writes stamps between the guard and the UPDATE of another successful
  // request for the same stamps.
  ghost predicate NoOverlap(rows: seq<Row>, steps: seq<Step>)
    requires |rows| == |steps| + 1
  {
    forall j, k :: 0 <= j < k < |steps| && steps[k].guarded <= j && SucceedsAt(rows, steps, j) && SucceedsAt(rows, steps, k)
      ==> !SameStamps(steps[j].request, steps[k].request)
  }

  // No two requests carry the same time.
  ghost predicate TimesDiffer(steps: seq<Step>) {
    forall i, j :: 0 <= i < j < |steps| ==> steps[i].now != steps[j].now
  }

  predicate Before(r: Row, now: int) {
    && (r.linkedAt.Some? ==> r.linkedAt.value < now)
    && (r.actionedAt.Some? ==> r.actionedAt.value < now)
  }

  // The stamps of `a` are still there in `b`.
  predicate StampsKept(a: Row, b: Row) {
    && (a.linkedAt.Some? ==> b.linkedAt == a.linkedAt)
    && (a.linkedBy.Some? ==> b.linkedBy == a.linkedBy)
    && (a.actionedAt.Some? ==> b.actionedAt == a.actionedAt)
    && (a.actionedBy.Some? ==> b.actionedBy == a.actionedBy)
  }

  // Requests that write the stamps of `r` are the only ones that change them.
  predicate SameStampsAs(r: Request, a: Row, b: Row) {
    && (r.Link? ==> b.linkedAt == a.linkedAt && b.linkedBy == a.linkedBy)
    && (r.Act? ==> b.actionedAt == a.actionedAt && b.actionedBy == a.actionedBy)
  }

  lemma StampsStayBetween(rows: seq<Row>, steps: seq<Step>, r: Request, i: nat, j: nat)
    requires IsRun(rows, steps) && i <= j < |rows|
    requires forall k :: i <= k < j && SucceedsAt(rows, steps, k) ==> !SameStamps(steps[k].request, r)
    ensures SameStampsAs(r, rows[i], rows[j])
  {
    for k := i to j
      invariant SameStampsAs(r, rows[i], rows[k])
    {
      assert StepAt(rows, steps, k);
      assert SucceedsAt(rows, steps, k) ==> !SameStamps(steps[k].request, r);
    }
  }

  lemma CommitKeepsStamps(guarded: Row, stored: Row, copy: Row, r: Request, now: int)
    requires SameStampsAs(r, guarded, stored)
    ensures StampsKept(stored, Commit(guarded, stored, copy, r, now))
  {}

  lemma StepKeepsStamps(rows: seq<Row>, steps: seq<Step>, k: nat)
    requires IsRun(rows, steps) && NoOverlap(rows, steps) && k < |steps|
    ensures StampsKept(rows[k], rows[k + 1])
  {
    assert StepAt(rows, steps, k);
    if SucceedsAt(rows, steps, k) {
      var s := steps[k];
      StampsStayBetween(rows, steps, s.request, s.guarded, k);
      CommitKeepsStamps(rows[s.guarded], rows[k], rows[s.seen], s.request, s.now);
    }
  }

  lemma StampsStayKept(rows: seq<Row>, steps: seq<Step>, i: nat, j: nat)
    requires IsRun(rows, steps) && NoOverlap(rows, steps) && i <= j < |rows|
    ensures StampsKept(rows[i], rows[j])
  {
    for k := i to j
      invariant StampsKept(rows[i], rows[k])
    {
      StepKeepsStamps(rows, steps, k);
    }
  }

  ghost predicate WriteOnce(rows: seq<Row>) {
    forall i, j :: 0 <= i <= j < |rows| ==> StampsKept(rows[i], rows[j])
  }

  // What a successful link or action leaves behind.
  predicate Stamped(r: Request, now: int, row: Row) {
    && (r.Link? ==> row.linkedAt == Some(now))
    && (r.Act? ==> row.actionedAt == Some(now))
  }

  lemma SuccessStamps(rows: seq<Row>, steps: seq<Step>, k: nat)
    requires IsRun(rows, steps) && k < |steps| && SucceedsAt(rows, steps, k)
    ensures Stamped(steps[k].request, steps[k].now, rows[k + 1])
  {
    assert StepAt(rows, steps, k);
  }

  /** Write-once stamps, exactly. In any run mixing link, action, ignore and engine assignment, on
      stale copies, a stamp once set never changes if and only if no successful request writes it
      between the guard's unlocked read and the UPDATE of another one. */
  lemma StampsNeverChange(rows: seq<Row>, steps: seq<Step>)
    requires IsRun(rows, steps) && TimesDiffer(steps)
    ensures WriteOnce(rows) <==> NoOverlap(rows, steps)
  {
    if NoOverlap(rows, steps) {
      forall i, j | 0 <= i <= j < |rows| ensures StampsKept(rows[i], rows[j]) {
        StampsStayKept(rows, steps, i, j);
      }
    }
    if WriteOnce(rows) {
      forall j, k | 0 <= j < k < |steps| && SucceedsAt(rows, steps, j) && SucceedsAt(rows, steps, k)
        ensures !SameStamps(steps[j].request, steps[k].request)
      {
        SuccessStamps(rows, steps, j);
        SuccessStamps(rows, steps, k);
        assert StampsKept(rows[j + 1], rows[k + 1]);
      }
    }
  }

  ghost predicate AtMostOnce(rows: seq<Row>, steps: seq<Step>)
    requires |rows| == |steps| + 1
  {
    forall i, j :: 0 <= i < j < |steps| && SucceedsAt(rows, steps, i) && SucceedsAt(rows, steps, j)
      ==> !SameStamps(steps[i].request, steps[j].request)
  }

  /** An email is linked at most once and actioned at most once in a run if and only if no two such
      requests overlap between guard and UPDATE; in particular whenever saves are atomic. */
  lemma ActionedAndLinkedAtMostOnce(rows: seq<Row>, steps: seq<Step>)
    requires IsRun(rows, steps) && TimesDiffer(steps)
    ensures AtMostOnce(rows, steps) <==> NoOverlap(rows, steps)
    ensures (forall k :: 0 <= k < |steps| ==> steps[k].guarded == k) ==> AtMostOnce(rows, steps)
  {
    if NoOverlap(rows, steps) {
      forall i, j | 0 <= i < j < |steps| && SucceedsAt(rows, steps, i) && SucceedsAt(rows, steps, j)
        ensures !SameStamps(steps[i].request, steps[j].request)
      {
        SuccessStamps(rows, steps, i);
        if i < steps[j].guarded {
          StampsStayKept(rows, steps, i + 1, steps[j].guarded);
        }
      }
    }
  }

  /** Both clauses do fail: two agents link the same email at once; both guards read the row before
      either UPDATE, both requests succeed, and the second stamp replaces the first. */
  lemma OverlappingLinksBothCommit(blank: Row)
    requires blank == Row(Pending, None, None, None, None, None, None, None, false)
    ensures var steps := [Step(0, 0, Link(Some(1), 100), 10), Step(0, 0, Link(Some(2), 200), 11)];
      var one := Commit(blank, blank, blank, steps[0].request, 10);
      var two := Commit(blank, one, blank, steps[1].request, 11);
      var rows := [blank, one, two];
      && IsRun(rows, steps) && TimesDiffer(steps)
      && SucceedsAt(rows, steps, 0) && SucceedsAt(rows, steps, 1)
      && one.linkedAt == Some(10) && two.linkedAt == Some(11) && two.linkedTicket == Some(2)
      && !WriteOnce(rows) && !AtMostOnce(rows, steps)
  {
    var steps := [Step(0, 0, Link(Some(1), 100), 10), Step(0, 0, Link(Some(2), 200), 11)];
    var one := Commit(blank, blank, blank, steps[0].request, 10);
    var rows := [blank, one, Commit(blank, one, blank, steps[1].request, 11)];
    assert StepAt(rows, steps, 0) && StepAt(rows, steps, 1);
    assert !StampsKept(rows[1], rows[2]);
    assert SucceedsAt(rows, steps, 0) && SucceedsAt(rows, steps, 1);
    assert SameStamps(steps[0].request, steps[1].request);
  }

  // ---------------------------------------------------------------- stranded mail

  // Can some continuation on current data still action this email?
  predicate Actionable(r: Row) {
    r.actionedAt.None? && r.actionedBy.None? &&
    ((r.linkedAt.None? && r.linkedBy.None?) || (r.status == Linked && r.linkedTicket.Some?))
  }

  predicate Consistent(r: Row) {
    r.linkedAt.Some? == r.linkedBy.Some? && r.actionedAt.Some? == r.actionedBy.Some?
  }

  // What keeps an email from being actioned: it has been, or its link is stamped but not in force.
  predicate Blocked(r: Row) {
    r.actionedAt.Some? || (r.linkedAt.Some? && !(r.status == Linked && r.linkedTicket.Some?))
  }

  // The stamps of this row are no later request's.
  ghost predicate OlderThanAll(r: Row, steps: seq<Step>, h: nat) {
    forall k :: h <= k < |steps| ==> r.linkedAt != Some(steps[k].now) && r.actionedAt != Some(steps[k].now)
  }

  lemma StaysBlocked(rows: seq<Row>, steps: seq<Step>, h: nat, k: nat)
    requires IsRun(rows, steps) && NoOverlap(rows, steps) && h <= k <= |steps|
    requires Blocked(rows[h]) && OlderThanAll(rows[h], steps, h)
    ensures Blocked(rows[k])
  {
    for j := h to k
      invariant Blocked(rows[j])
    {
      assert StepAt(rows, steps, j);
      StampsStayKept(rows, steps, h, j + 1);
      StampsStayKept(rows, steps, j, j + 1);
      if SucceedsAt(rows, steps, j) {
        SuccessStamps(rows, steps, j);
      }
    }
  }

  /** An email that is not actionable stays so, whatever requests follow on whatever copies; and the
      only request that can still action it is one whose copy was loaded before it became so. In
      particular, once the engine has handed over an email that was linked but not yet actioned, no
      request that loads it afterwards can ever action it. */
  lemma NotActionableForGood(rows: seq<Row>, steps: seq<Step>, h: nat, k: nat)
    requires IsRun(rows, steps) && NoOverlap(rows, steps) && TimesDiffer(steps) && h <= k < |steps|
    requires Consistent(rows[h]) && !Actionable(rows[h]) && OlderThanAll(rows[h], steps, h)
    ensures !Actionable(rows[k + 1])
    ensures SucceedsAt(rows, steps, k) && steps[k].request.Act? ==> steps[k].seen < h
  {
    StaysBlocked(rows, steps, h, k + 1);
    var s := steps[k];
    assert StepAt(rows, steps, k);
    if SucceedsAt(rows, steps, k) && s.request.Act? && h <= s.seen {
      StaysBlocked(rows, steps, h, s.seen);
      ActionedAndLinkedAtMostOnce(rows, steps);
      StampsStayBetween(rows, steps, s.request, h, s.guarded);
      StampsStayKept(rows, steps, s.seen, s.guarded);
      assert false;
    }
  }

  /** And such a request does succeed: of the two copies around a hand-over, an action on the one
      loaded before it passes and an action on the one loaded after it does not. */
  lemma OnlyTheOlderCopyActs(r: Row, to: UserId, action: InboxAction, user: UserId, t: int, now: int)
    requires r.status == Linked && r.linkedTicket.Some? && r.actionedAt.None? && r.actionedBy.None?
    ensures var act := Act(action, user, false); var after := Serve(r, r, HandOver(to), t);
      && Succeeds(after, r, act, now) && !Succeeds(after, after, act, now)
      && Serve(after, r, act, now).actionedAt == Some(now)
      && var steps := [Step(0, 0, HandOver(to), t), Step(0, 1, act, now)];
         IsRun([r, after, Serve(after, r, act, now)], steps) && NoOverlap([r, after, Serve(after, r, act, now)], steps)
  {
    var act, after := Act(action, user, false), Serve(r, r, HandOver(to), t);
    var rows, steps := [r, after, Serve(after, r, act, now)], [Step(0, 0, HandOver(to), t), Step(0, 1, act, now)];
    assert StepAt(rows, steps, 0) && StepAt(rows, steps, 1);
  }

  /** Conversely an actionable email can be actioned by at most two more requests. */
  lemma ActionableWithinTwoRequests(r: Row, ticket: TicketId, user: UserId, action: InboxAction, now: int)
    requires Actionable(r) && Before(r, now)
    ensures var act := Act(action, user, false);
      || Succeeds(r, r, act, now)
      || (var linked := Serve(r, r, Link(Some(ticket), user), now); Succeeds(linked, linked, act, now + 1))
  {}

  /** An engine assignment strands an email exactly when it was linked and not yet actioned. */
  lemma HandOverStrandsExactlyLinkedMail(r: Row, to: UserId, now: int)
    requires Consistent(r) && (r.status == Linked ==> r.linkedTicket.Some? && r.linkedAt.Some?)
    ensures Actionable(r) && !Actionable(Serve(r, r, HandOver(to), now))
       <==> r.status == Linked && r.linkedAt.Some? && r.actionedAt.None?
  {}

  // ---------------------------------------------------------------- the row

  class EmailRow {
    var row: Row

    constructor ()
      ensures row == Row(Pending, None, None, None, None, None, None, None, false)
    {
      row := Row(Pending, None, None, None, None, None, None, None, false);
    }

    // The guard reads the row, other transactions make `meanwhile` of it, then the UPDATE runs.
    method Save(copy: Row, columns: set<Column>, meanwhile: Row) returns (saved: bool)
      modifies this
      ensures saved <==> GuardPasses(old(row), copy)
      ensures row == if saved then Written(meanwhile, copy, columns) else meanwhile
    {
      var stored := row;
      row := meanwhile;
      if stored.actionedAt.Some? && copy.actionedAt != stored.actionedAt {
        return false;
      }
      if stored.actionedBy.Some? && copy.actionedBy != stored.actionedBy {
        return false;
      }
      if stored.linkedAt.Some? && copy.linkedAt != stored.linkedAt {
        return false;
      }
      if stored.linkedBy.Some? && copy.linkedBy != stored.linkedBy {
        return false;
      }
      row := Written(row, copy, columns);
      return true;
    }

    /** link_email_to_ticket on a copy loaded earlier. */
    method LinkToTicket(loaded: Row, ticket: Option<TicketId>, user: UserId, now: int, meanwhile: Row)
      returns (done: bool)
      modifies this
      ensures row == if Prepared(loaded, Link(ticket, user), now).None? then old(row)
                     else Commit(old(row), meanwhile, loaded, Link(ticket, user), now)
      ensures done <==> Succeeds(old(row), loaded, Link(ticket, user), now)
    {
      if ticket.None? {
        return false;
      }
      var copy := loaded;
      copy := copy.(linkedTicket := ticket);
      copy := copy.(linkedAt := Some(now));
      copy := copy.(linkedBy := Some(user));
      copy := copy.(status := Linked);
      done := Save(copy, LINK_COLUMNS, meanwhile);
    }

    /** action_email on a copy loaded earlier; a failing ticket service rolls everything back. */
    method ActionEmail(loaded: Row, action: InboxAction, user: UserId, ticketRaises: bool, now: int, meanwhile: Row)
      returns (done: bool)
      modifies this
      ensures row == if Prepared(loaded, Act(action, user, ticketRaises), now).None? then old(row)
                     else Commit(old(row), meanwhile, loaded, Act(action, user, ticketRaises), now)
      ensures done <==> Succeeds(old(row), loaded, Act(action, user, ticketRaises), now)
    {
      if loaded.status == Actioned {
        return false;
      }
      if loaded.status != Linked {
        return false;
      }
      if loaded.linkedTicket.None? {
        return false;
      }
      if ticketRaises {
        return false;
      }
      var copy := loaded;
      copy := copy.(status := Actioned);
      copy := copy.(actionedAt := Some(now));
      copy := copy.(actionedBy := Some(user));
      copy := copy.(action := Some(action));
      done := Save(copy, ACTION_COLUMNS, meanwhile);
    }

    /** ignore_email on a copy loaded earlier. */
    method IgnoreEmail(loaded: Row, now: int, meanwhile: Row) returns (done: bool)
      modifies this
      ensures row == if Prepared(loaded, Ignore, now).None? then old(row)
                     else Commit(old(row), meanwhile, loaded, Ignore, now)
      ensures done <==> Succeeds(old(row), loaded, Ignore, now)
    {
      if loaded.status == Actioned {
        return false;
      }
      if loaded.status == Ignored {
        return false;
      }
      done := Save(loaded.(status := Ignored), IGNORE_COLUMNS, meanwhile);
    }

    /** The part of assign_to that hands the original message to the agent's inbox. */
    method HandOverTo(loaded: Row, to: UserId, now: int, meanwhile: Row) returns (done: bool)
      modifies this
      ensures row == if Prepared(loaded, HandOver(to), now).None? then old(row)
                     else Commit(old(row), meanwhile, loaded, HandOver(to), now)
      ensures done <==> Succeeds(old(row), loaded, HandOver(to), now)
    {
      var copy := loaded.(assignee := Some(to));
      copy := copy.(status := Pending);
      copy := copy.(isRead := false);
      done := Save(copy, ASSIGN_COLUMNS, meanwhile);
    }
  }
}
