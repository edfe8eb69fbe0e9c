// One-shot reminder alerts with a re-arm watermark (apps/crm/tasks.py, models.py and views.py).
module Reminders {
  import opened Options
  import opened Sets

  type ReminderId = nat
  type TenantId = nat
  type UserId = nat

  datatype Reminder = Reminder(
    tenant: TenantId,
    assignee: Option<UserId>,
    scheduledAt: int,
    completedAt: Option<int>,
    cancelledAt: Option<int>,
    dueNotifiedAt: Option<int>)
  {
    predicate Live() {
      completedAt.None? && cancelledAt.None?
    }

    // The re-arm guard.
    predicate Armed() {
      dueNotifiedAt.None? || dueNotifiedAt.value < scheduledAt
    }

    // The filter of fire_due_reminders.
    predicate Due(now: int) {
      scheduledAt <= now && Live() && Armed()
    }
  }

  datatype Label = Completed | Cancelled | Overdue | Pending

  // Reminder.status
  function StatusOf(r: Reminder, now: int): Label {
    if r.completedAt.Some? then Completed
    else if r.cancelledAt.Some? then Cancelled
    else if r.scheduledAt < now then Overdue
    else Pending
  }

  // ReminderQuerySet.overdue and ReminderQuerySet.pending
  predicate InOverdue(r: Reminder, now: int) {
    r.scheduledAt < now && r.completedAt.None? && r.cancelledAt.None?
  }

  predicate InPending(r: Reminder) {
    r.completedAt.None? && r.cancelledAt.None?
  }

  // One alert: which reminder, its schedule on the copy that was claimed, and the notification time.
  datatype Alert = Alert(id: ReminderId, scheduled: int, notified: int)

  datatype Db = Db(reminders: Rows, alerts: seq<Alert>)

  datatype Event =
    | Create(id: ReminderId, tenant: TenantId, assignee: Option<UserId>, at: int)
    | Claim(id: ReminderId, now: int, fails: bool)    // one row of a tick: decides on a copy read earlier;
                                                      // `fails`: the notification raises after the claim
    | CompleteOne(id: ReminderId, now: int)           // complete: tests a copy read earlier
    | CancelOne(id: ReminderId, now: int)             // cancel: likewise
    | RescheduleOne(id: ReminderId, at: int)          // reschedule: likewise
    | Complete(ids: set<ReminderId>, now: int)        // bulk actions: one filtered UPDATE
    | Cancel(ids: set<ReminderId>, now: int)
    | Reschedule(ids: set<ReminderId>, at: int)
    | Reassign(ids: set<ReminderId>, to: UserId)
    | Patch(id: ReminderId, at: int)                  // raw update of scheduled_at

  type Rows = map<ReminderId, Reminder>

  function DueRows(rs: Rows, now: int, tenants: set<TenantId>): set<ReminderId> {
    set id | id in rs && rs[id].tenant in tenants && rs[id].Due(now)
  }

  /** The due query in terms of the columns. */
  lemma DueRowsExactlyWhen(rs: Rows, now: int, tenants: set<TenantId>, id: ReminderId)
    ensures id in DueRows(rs, now, tenants) <==>
      && id in rs && rs[id].tenant in tenants && rs[id].scheduledAt <= now
      && rs[id].completedAt == None && rs[id].cancelledAt == None
      && (rs[id].dueNotifiedAt == None || exists t :: rs[id].dueNotifiedAt == Some(t) && t < rs[id].scheduledAt)
  {
    assert id in rs && rs[id].dueNotifiedAt.Some? ==> rs[id].dueNotifiedAt == Some(rs[id].dueNotifiedAt.value);
  }

  // The rows an event changes. A tick and requests for a single reminder decide on `seen`, the table
  // as it was when they read their copy; everything else decides on the table as it is.
  function Selected(seen: Rows, rs: Rows, e: Event): set<ReminderId> {
    match e
    case Claim(id, now, _) => if id in rs && id in seen && seen[id].Due(now) then {id} else {}
    case CompleteOne(id, _) => if id in rs && id in seen && seen[id].Live() then {id} else {}
    case CancelOne(id, _) => if id in rs && id in seen && seen[id].Live() then {id} else {}
    case RescheduleOne(id, _) => if id in rs && id in seen && seen[id].completedAt.None? then {id} else {}
    case Complete(ids, _) => set id | id in rs && id in ids && rs[id].Live()
    case Cancel(ids, _) => set id | id in rs && id in ids && rs[id].Live()
    case Reschedule(ids, _) => set id | id in rs && id in ids && rs[id].completedAt.None?
    case Reassign(ids, _) => set id | id in rs && id in ids
    case Patch(id, at) => if id in rs then {id} else {}
    case Create(_, _, _, _) => {}
  }

  function Changed(r: Reminder, e: Event): Reminder {
    match e
    case Claim(_, now, _) => r.(dueNotifiedAt := Some(now))
    case CompleteOne(_, now) => r.(completedAt := Some(now))
    case CancelOne(_, now) => r.(cancelledAt := Some(now))
    case RescheduleOne(_, at) => r.(scheduledAt := at)
    case Complete(_, now) => r.(completedAt := Some(now))
    case Cancel(_, now) => r.(cancelledAt := Some(now))
    case Reschedule(_, at) => r.(scheduledAt := at)
    case Reassign(_, to) => r.(assignee := Some(to))
    case Patch(_, at) => r.(scheduledAt := at)
    case Create(_, _, _, _) => r
  }

  function Update(rs: Rows, chosen: set<ReminderId>, e: Event): Rows {
    map id | id in rs :: if id in chosen then Changed(rs[id], e) else rs[id]
  }

  // The alerts of one step: that of a claim whose notification does not fail.
  function Alerts(seen: Rows, rs: Rows, e: Event): seq<Alert> {
    if e.Claim? && !e.fails && e.id in Selected(seen, rs, e) then [Alert(e.id, seen[e.id].scheduledAt, e.now)] else []
  }

  // One step of the system.
  function Next(seen: Rows, db: Db, e: Event): Db {
    if e.Create? then
      if e.id in db.reminders then db
      else db.(reminders := db.reminders[e.id := Reminder(e.tenant, e.assignee, e.at, None, None, None)])
    else
      Db(Update(db.reminders, Selected(seen, db.reminders, e), e), db.alerts + Alerts(seen, db.reminders, e))
  }

  // dbs is a run: it starts empty, every step is one of the events, and step k decides on the
  // table as it was at some earlier moment seen[k].
  ghost predicate IsRun(dbs: seq<Db>, es: seq<Event>, seen: seq<nat>) {
    && |dbs| == |es| + 1 == |seen| + 1 && dbs[0] == Db(map[], [])
    && forall k :: 0 <= k < |es| ==> StepAt(dbs, es, seen, k)
  }

  ghost predicate StepAt(dbs: seq<Db>, es: seq<Event>, seen: seq<nat>, k: nat)
    requires k < |es| == |seen| && |dbs| == |es| + 1
  {
    seen[k] <= k && dbs[k + 1] == Next(dbs[seen[k]].reminders, dbs[k], es[k])
  }

  // ---------------------------------------------------------------- alerts

  // The rows step k changes.
  ghost function ChosenAt(dbs: seq<Db>, es: seq<Event>, seen: seq<nat>, k: nat): set<ReminderId>
    requires IsRun(dbs, es, seen) && k < |es|
  {
    assert StepAt(dbs, es, seen, k);
    Selected(dbs[seen[k]].reminders, dbs[k].reminders, es[k])
  }

  // Step k claims this reminder.
  ghost predicate Claims(dbs: seq<Db>, es: seq<Event>, seen: seq<nat>, k: nat, id: ReminderId)
    requires IsRun(dbs, es, seen) && k < |es|
  {
    es[k].Claim? && id in ChosenAt(dbs, es, seen, k)
  }

  // Between the read and the write of no claim does another claim of the same reminder fall.
  ghost predicate ClaimsApart(dbs: seq<Db>, es: seq<Event>, seen: seq<nat>)
    requires IsRun(dbs, es, seen)
  {
    forall j, k, id :: 0 <= j < k < |es| && seen[k] <= j ==>
      !(Claims(dbs, es, seen, j, id) && Claims(dbs, es, seen, k, id))
  }

  ghost predicate Interleaved(alerts: seq<Alert>) {
    && (forall i :: 0 <= i < |alerts| ==> alerts[i].scheduled <= alerts[i].notified)
    && (forall i, j :: 0 <= i < j < |alerts| && alerts[i].id == alerts[j].id ==>
          alerts[i].notified < alerts[j].scheduled)
  }

  // Every alert is no later than the recorded notification time of its reminder.
  predicate RecordedAt(rs: Rows, a: Alert) {
    a.id in rs && rs[a.id].dueNotifiedAt.Some? && a.notified <= rs[a.id].dueNotifiedAt.value
  }

  ghost predicate Recorded(db: Db) {
    forall i :: 0 <= i < |db.alerts| ==> RecordedAt(db.reminders, db.alerts[i])
  }

  ghost predicate Inv(db: Db) {
    Interleaved(db.alerts) && Recorded(db)
  }

  // What one step does to the watermark of one reminder and to the alerts.
  lemma StepOnAlerts(dbs: seq<Db>, es: seq<Event>, seen: seq<nat>, k: nat, id: ReminderId)
    requires IsRun(dbs, es, seen) && k < |es| && id in dbs[k].reminders
    ensures id in dbs[k + 1].reminders && dbs[k].alerts <= dbs[k + 1].alerts
    ensures !Claims(dbs, es, seen, k, id) ==>
      && dbs[k + 1].reminders[id].dueNotifiedAt == dbs[k].reminders[id].dueNotifiedAt
      && var after := dbs[k + 1].alerts; forall i :: |dbs[k].alerts| <= i < |after| ==> after[i].id != id
  {
    assert StepAt(dbs, es, seen, k);
  }

  // Without a claim in between, watermark and alerts of a reminder are as they were read.
  lemma UnclaimedSince(dbs: seq<Db>, es: seq<Event>, seen: seq<nat>, v: nat, k: nat, id: ReminderId)
    requires IsRun(dbs, es, seen) && v <= k < |dbs| && id in dbs[v].reminders
    requires forall j :: v <= j < k ==> !Claims(dbs, es, seen, j, id)
    ensures id in dbs[k].reminders && dbs[v].alerts <= dbs[k].alerts
    ensures dbs[k].reminders[id].dueNotifiedAt == dbs[v].reminders[id].dueNotifiedAt
    ensures forall i :: |dbs[v].alerts| <= i < |dbs[k].alerts| ==> dbs[k].alerts[i].id != id
  {
    for j := v to k
      invariant id in dbs[j].reminders && dbs[v].alerts <= dbs[j].alerts
      invariant dbs[j].reminders[id].dueNotifiedAt == dbs[v].reminders[id].dueNotifiedAt
      invariant forall i :: |dbs[v].alerts| <= i < |dbs[j].alerts| ==> dbs[j].alerts[i].id != id
    {
      StepOnAlerts(dbs, es, seen, j, id);
      assert forall i :: 0 <= i < |dbs[j].alerts| ==> dbs[j + 1].alerts[i] == dbs[j].alerts[i];
    }
  }

  // A claim that no other claim interferes with comes after all earlier alerts of its reminder.
  lemma ClaimIsLater(dbs: seq<Db>, es: seq<Event>, seen: seq<nat>, k: nat, id: ReminderId, i: nat)
    requires IsRun(dbs, es, seen) && ClaimsApart(dbs, es, seen) && k < |es| && Claims(dbs, es, seen, k, id)
    requires seen[k] <= k && Recorded(dbs[seen[k]])
    requires i < |dbs[k].alerts| && dbs[k].alerts[i].id == id
    ensures id in dbs[seen[k]].reminders
    ensures dbs[k].alerts[i].notified < dbs[seen[k]].reminders[id].scheduledAt <= es[k].now
  {
    var v := seen[k];
    UnclaimedSince(dbs, es, seen, v, k, id);
    assert i < |dbs[v].alerts| && dbs[v].alerts[i] == dbs[k].alerts[i];
    assert RecordedAt(dbs[v].reminders, dbs[v].alerts[i]);
  }

  // What a claim adds.
  lemma ClaimAppends(dbs: seq<Db>, es: seq<Event>, seen: seq<nat>, k: nat)
    requires IsRun(dbs, es, seen) && k < |es|
    ensures var before, after := dbs[k], dbs[k + 1];
      if es[k].Claim? && Claims(dbs, es, seen, k, es[k].id) then
        && seen[k] <= k && es[k].id in dbs[seen[k]].reminders && es[k].id in before.reminders
        && after.reminders == before.reminders[es[k].id := before.reminders[es[k].id].(dueNotifiedAt := Some(es[k].now))]
        && after.alerts == before.alerts +
             if es[k].fails then [] else [Alert(es[k].id, dbs[seen[k]].reminders[es[k].id].scheduledAt, es[k].now)]
      else
        && after.alerts == before.alerts
        && forall id :: id in before.reminders ==>
             id in after.reminders && after.reminders[id].dueNotifiedAt == before.reminders[id].dueNotifiedAt
  {
    assert StepAt(dbs, es, seen, k);
    if es[k].Claim? && Claims(dbs, es, seen, k, es[k].id) {
      assert dbs[k + 1].reminders.Keys == dbs[k].reminders.Keys;
    }
  }

  lemma StepKeepsInv(dbs: seq<Db>, es: seq<Event>, seen: seq<nat>, k: nat)
    requires IsRun(dbs, es, seen) && ClaimsApart(dbs, es, seen) && k < |es|
    requires Inv(dbs[k]) && (seen[k] <= k ==> Recorded(dbs[seen[k]]))
    ensures Inv(dbs[k + 1])
  {
    ClaimAppends(dbs, es, seen, k);
    var before, after := dbs[k], dbs[k + 1];
    if es[k].Claim? && Claims(dbs, es, seen, k, es[k].id) {
      var id := es[k].id;
      forall i | 0 <= i < |before.alerts| && before.alerts[i].id == id
        ensures before.alerts[i].notified < dbs[seen[k]].reminders[id].scheduledAt <= es[k].now
      {
        ClaimIsLater(dbs, es, seen, k, id, i);
      }
      forall i | 0 <= i < |after.alerts| ensures RecordedAt(after.reminders, after.alerts[i]) {
        assert i < |before.alerts| ==> after.alerts[i] == before.alerts[i] && RecordedAt(before.reminders, before.alerts[i]);
      }
    } else {
      forall i | 0 <= i < |after.alerts| ensures RecordedAt(after.reminders, after.alerts[i]) {
        assert RecordedAt(before.reminders, before.alerts[i]);
      }
    }
  }

  lemma RunKeepsInv(dbs: seq<Db>, es: seq<Event>, seen: seq<nat>, k: nat)
    requires IsRun(dbs, es, seen) && ClaimsApart(dbs, es, seen) && k < |dbs|
    ensures Inv(dbs[k])
  {
    for j := 0 to k
      invariant forall i :: 0 <= i <= j ==> Inv(dbs[i])
    {
      assert StepAt(dbs, es, seen, j);
      StepKeepsInv(dbs, es, seen, j);
    }
  }

  /** Over every run of ticks, forward and backward reschedules, raw patches, completions and
      cancellations, all of them on copies read at any earlier moment, whatever the clock shows and
      whichever notifications fail: as long as no two claims of one reminder overlap, its successive
      alerts satisfy s1 <= n1 < s2 <= n2 < ... */
  lemma AlertsInterleaveStrictly(dbs: seq<Db>, es: seq<Event>, seen: seq<nat>, k: nat, i: nat, j: nat)
    requires IsRun(dbs, es, seen) && ClaimsApart(dbs, es, seen)
    requires k < |dbs| && i < j < |dbs[k].alerts| && dbs[k].alerts[i].id == dbs[k].alerts[j].id
    ensures var a, b := dbs[k].alerts[i], dbs[k].alerts[j];
            a.scheduled <= a.notified < b.scheduled <= b.notified
  {
    RunKeepsInv(dbs, es, seen, k);
  }

  /** The condition cannot be dropped: two claims that overlap and read the same schedule always
      break the order, for the second one alerts for a time that the first has passed. */
  lemma OverlappingClaimsAlertTwice(dbs: seq<Db>, es: seq<Event>, seen: seq<nat>, j: nat, k: nat, id: ReminderId)
    requires IsRun(dbs, es, seen) && j < k < |es| && seen[j] <= j && seen[k] <= k
    requires Claims(dbs, es, seen, j, id) && Claims(dbs, es, seen, k, id) && !es[j].fails && !es[k].fails
    requires dbs[seen[j]].reminders[id].scheduledAt == dbs[seen[k]].reminders[id].scheduledAt
    ensures var a, b := |dbs[j].alerts|, |dbs[k].alerts|;
      && a < b < |dbs[k + 1].alerts|
      && dbs[k + 1].alerts[a] == Alert(id, dbs[seen[j]].reminders[id].scheduledAt, es[j].now)
      && dbs[k + 1].alerts[b] == Alert(id, dbs[seen[k]].reminders[id].scheduledAt, es[k].now)
      && !(dbs[k + 1].alerts[a].notified < dbs[k + 1].alerts[b].scheduled)
  {
    ClaimAppends(dbs, es, seen, j);
    ClaimAppends(dbs, es, seen, k);
    for m := j + 1 to k
      invariant dbs[j + 1].alerts <= dbs[m].alerts
    {
      ClaimAppends(dbs, es, seen, m);
    }
    assert dbs[j + 1].alerts[|dbs[j].alerts|] == dbs[k].alerts[|dbs[j].alerts|];
  }

  /** It does happen: two ticks read the due reminder before either claims it. */
  lemma OverlappingTicksAlertTwice(tenant: TenantId)
    ensures var es := [Create(0, tenant, None, 5), Claim(0, 6, false), Claim(0, 7, false)];
      var r := Reminder(tenant, None, 5, None, None, None);
      var dbs := [Db(map[], []), Db(map[0 := r], []), Db(map[0 := r.(dueNotifiedAt := Some(6))], [Alert(0, 5, 6)]),
                  Db(map[0 := r.(dueNotifiedAt := Some(7))], [Alert(0, 5, 6), Alert(0, 5, 7)])];
      IsRun(dbs, es, [0, 1, 1]) && !Interleaved(dbs[3].alerts)
  {
    var es := [Create(0, tenant, None, 5), Claim(0, 6, false), Claim(0, 7, false)];
    var r := Reminder(tenant, None, 5, None, None, None);
    var dbs := [Db(map[], []), Db(map[0 := r], []), Db(map[0 := r.(dueNotifiedAt := Some(6))], [Alert(0, 5, 6)]),
                Db(map[0 := r.(dueNotifiedAt := Some(7))], [Alert(0, 5, 6), Alert(0, 5, 7)])];
    assert StepAt(dbs, es, [0, 1, 1], 0);
    assert StepAt(dbs, es, [0, 1, 1], 1);
    assert StepAt(dbs, es, [0, 1, 1], 2);
    var a, b := dbs[3].alerts[0], dbs[3].alerts[1];
    assert a.id == b.id && !(a.notified < b.scheduled);
  }

  /** A claim takes exactly a reminder that was live, due and armed when read, alerts it unless the
      notification fails, and disarms it unless it has been rescheduled past the tick in the
      meantime; so a failure costs one alert and never repeats one. */
  lemma ClaimTakesExactlyTheArmed(dbs: seq<Db>, es: seq<Event>, seen: seq<nat>, k: nat)
    requires IsRun(dbs, es, seen) && k < |es| && es[k].Claim? && es[k].id in dbs[k].reminders
    ensures seen[k] <= k
    ensures var id, read := es[k].id, dbs[seen[k]].reminders;
      && (Claims(dbs, es, seen, k, id) <==>
            && id in read && read[id].scheduledAt <= es[k].now
            && read[id].completedAt == None && read[id].cancelledAt == None
            && (read[id].dueNotifiedAt == None
                || exists t :: read[id].dueNotifiedAt == Some(t) && t < read[id].scheduledAt))
      && (|dbs[k + 1].alerts| > |dbs[k].alerts| <==> Claims(dbs, es, seen, k, id) && !es[k].fails)
      && id in dbs[k + 1].reminders
      && (Claims(dbs, es, seen, k, id) ==>
            && dbs[k + 1].reminders[id] == dbs[k].reminders[id].(dueNotifiedAt := Some(es[k].now))
            && (dbs[k + 1].reminders[id].Armed() <==> es[k].now < dbs[k].reminders[id].scheduledAt)
            && (!es[k].fails ==>
                  dbs[k + 1].alerts == dbs[k].alerts + [Alert(id, read[id].scheduledAt, es[k].now)]))
  {
    assert StepAt(dbs, es, seen, k);
    if es[k].id in dbs[seen[k]].reminders && dbs[seen[k]].reminders[es[k].id].dueNotifiedAt.Some? {
      var r := dbs[seen[k]].reminders[es[k].id];
      assert r.dueNotifiedAt == Some(r.dueNotifiedAt.value);
    }
    ClaimAppends(dbs, es, seen, k);
    assert StepAt(dbs, es, seen, k);
  }

  // ---------------------------------------------------------------- completed or cancelled

  // Step k writes the completion, or the cancellation, of this reminder.
  ghost predicate Completes(dbs: seq<Db>, es: seq<Event>, seen: seq<nat>, k: nat, id: ReminderId)
    requires IsRun(dbs, es, seen) && k < |es|
  {
    (es[k].Complete? || es[k].CompleteOne?) && id in ChosenAt(dbs, es, seen, k)
  }

  ghost predicate Cancels(dbs: seq<Db>, es: seq<Event>, seen: seq<nat>, k: nat, id: ReminderId)
    requires IsRun(dbs, es, seen) && k < |es|
  {
    (es[k].Cancel? || es[k].CancelOne?) && id in ChosenAt(dbs, es, seen, k)
  }

  // No completion falls between the test and the write of a cancellation, and none the other way.
  ghost predicate Crosses(dbs: seq<Db>, es: seq<Event>, seen: seq<nat>, j: nat, k: nat, id: ReminderId)
    requires IsRun(dbs, es, seen) && j < k < |es|
  {
    && seen[k] <= j
    && ((Completes(dbs, es, seen, j, id) && Cancels(dbs, es, seen, k, id))
        || (Cancels(dbs, es, seen, j, id) && Completes(dbs, es, seen, k, id)))
  }

  ghost predicate NoCrossing(dbs: seq<Db>, es: seq<Event>, seen: seq<nat>)
    requires IsRun(dbs, es, seen)
  {
    forall j, k, id :: 0 <= j < k < |es| ==> !Crosses(dbs, es, seen, j, k, id)
  }

  lemma StepOnClosing(dbs: seq<Db>, es: seq<Event>, seen: seq<nat>, k: nat, id: ReminderId)
    requires IsRun(dbs, es, seen) && k < |es| && id in dbs[k].reminders
    ensures var r, r' := dbs[k].reminders[id], dbs[k + 1].reminders;
      && id in r'
      && (Completes(dbs, es, seen, k, id) ==> r'[id].completedAt.Some?)
      && (!Completes(dbs, es, seen, k, id) ==> r'[id].completedAt == r.completedAt)
      && (Cancels(dbs, es, seen, k, id) ==> r'[id].cancelledAt.Some?)
      && (!Cancels(dbs, es, seen, k, id) ==> r'[id].cancelledAt == r.cancelledAt)
  {
    assert StepAt(dbs, es, seen, k);
  }

  // A reminder once completed or cancelled stays so.
  lemma StaysClosed(dbs: seq<Db>, es: seq<Event>, seen: seq<nat>, k: nat, m: nat, id: ReminderId)
    requires IsRun(dbs, es, seen) && k <= m < |dbs| && id in dbs[k].reminders
    ensures id in dbs[m].reminders
    ensures dbs[k].reminders[id].completedAt.Some? ==> dbs[m].reminders[id].completedAt.Some?
    ensures dbs[k].reminders[id].cancelledAt.Some? ==> dbs[m].reminders[id].cancelledAt.Some?
  {
    for j := k to m
      invariant id in dbs[j].reminders
      invariant dbs[k].reminders[id].completedAt.Some? ==> dbs[j].reminders[id].completedAt.Some?
      invariant dbs[k].reminders[id].cancelledAt.Some? ==> dbs[j].reminders[id].cancelledAt.Some?
    {
      StepOnClosing(dbs, es, seen, j, id);
    }
  }

  // What no step in between has written is still as it was read.
  lemma StaysOpen(dbs: seq<Db>, es: seq<Event>, seen: seq<nat>, k: nat, m: nat, id: ReminderId)
    requires IsRun(dbs, es, seen) && k <= m < |dbs| && id in dbs[k].reminders
    ensures id in dbs[m].reminders
    ensures (forall j :: k <= j < m ==> !Completes(dbs, es, seen, j, id)) ==>
              dbs[m].reminders[id].completedAt == dbs[k].reminders[id].completedAt
    ensures (forall j :: k <= j < m ==> !Cancels(dbs, es, seen, j, id)) ==>
              dbs[m].reminders[id].cancelledAt == dbs[k].reminders[id].cancelledAt
  {
    for i := k to m
      invariant id in dbs[i].reminders
      invariant (forall j :: k <= j < i ==> !Completes(dbs, es, seen, j, id)) ==>
                  dbs[i].reminders[id].completedAt == dbs[k].reminders[id].completedAt
      invariant (forall j :: k <= j < i ==> !Cancels(dbs, es, seen, j, id)) ==>
                  dbs[i].reminders[id].cancelledAt == dbs[k].reminders[id].cancelledAt
    {
      StepOnClosing(dbs, es, seen, i, id);
    }
  }

  predicate Both(rs: Rows, id: ReminderId) {
    id in rs && rs[id].completedAt.Some? && rs[id].cancelledAt.Some?
  }

  lemma StepWithoutCrossing(dbs: seq<Db>, es: seq<Event>, seen: seq<nat>, k: nat, id: ReminderId)
    requires IsRun(dbs, es, seen) && NoCrossing(dbs, es, seen) && k < |es|
    requires !Both(dbs[k].reminders, id)
    ensures !Both(dbs[k + 1].reminders, id)
  {
    assert StepAt(dbs, es, seen, k);
    if id in dbs[k].reminders {
      StepOnClosing(dbs, es, seen, k, id);
      if es[k].CompleteOne? || es[k].CancelOne? {
        if id in ChosenAt(dbs, es, seen, k) {
          StaysOpen(dbs, es, seen, seen[k], k, id);
          forall j: nat | seen[k] <= j < k
            ensures es[k].CompleteOne? ==> !Cancels(dbs, es, seen, j, id)
            ensures es[k].CancelOne? ==> !Completes(dbs, es, seen, j, id)
          {
            assert !Crosses(dbs, es, seen, j, k, id);
          }
        }
      }
    }
  }

  lemma NeverBothWithoutCrossing(dbs: seq<Db>, es: seq<Event>, seen: seq<nat>, k: nat, id: ReminderId)
    requires IsRun(dbs, es, seen) && NoCrossing(dbs, es, seen) && k < |dbs|
    ensures !Both(dbs[k].reminders, id)
  {
    for j := 0 to k
      invariant !Both(dbs[j].reminders, id)
    {
      StepWithoutCrossing(dbs, es, seen, j, id);
    }
  }

  lemma CrossingMakesBoth(dbs: seq<Db>, es: seq<Event>, seen: seq<nat>, j: nat, k: nat, id: ReminderId)
    requires IsRun(dbs, es, seen) && j < k < |es| && Crosses(dbs, es, seen, j, k, id)
    ensures Both(dbs[k + 1].reminders, id)
  {
    assert StepAt(dbs, es, seen, j) && StepAt(dbs, es, seen, k);
    StepOnClosing(dbs, es, seen, j, id);
    StaysClosed(dbs, es, seen, j + 1, k, id);
    StepOnClosing(dbs, es, seen, k, id);
  }

  // The derived label says what the columns say, and agrees with the queryset filters.
  predicate LabelTrue(r: Reminder, now: int) {
    && (StatusOf(r, now) == Completed <==> r.completedAt.Some?)
    && (StatusOf(r, now) == Cancelled <==> r.cancelledAt.Some?)
    && (StatusOf(r, now) == Overdue <==> InOverdue(r, now))
    && (StatusOf(r, now) == Pending <==> InPending(r) && !InOverdue(r, now))
  }

  ghost predicate LabelsTrue(dbs: seq<Db>) {
    forall k, id, now: int :: 0 <= k < |dbs| && id in dbs[k].reminders ==> LabelTrue(dbs[k].reminders[id], now)
  }

  /** The labels partition all reminders at every moment of a run if and only if no completion falls
      between the unlocked test and the write of a cancellation of the same reminder, or the other
      way round. The filtered bulk updates never cross. */
  lemma LabelsPartition(dbs: seq<Db>, es: seq<Event>, seen: seq<nat>)
    requires IsRun(dbs, es, seen)
    ensures LabelsTrue(dbs) <==> NoCrossing(dbs, es, seen)
    ensures (forall k :: 0 <= k < |es| && (es[k].CompleteOne? || es[k].CancelOne?) ==> seen[k] == k) ==> LabelsTrue(dbs)
  {
    if NoCrossing(dbs, es, seen) {
      forall k, id, now: int | 0 <= k < |dbs| && id in dbs[k].reminders ensures LabelTrue(dbs[k].reminders[id], now) {
        NeverBothWithoutCrossing(dbs, es, seen, k, id);
      }
    } else {
      var j, k, id :| 0 <= j < k < |es| && Crosses(dbs, es, seen, j, k, id);
      CrossingMakesBoth(dbs, es, seen, j, k, id);
      assert !LabelTrue(dbs[k + 1].reminders[id], 0);
      if es[k].Complete? || es[k].Cancel? {
        BulkNeverCrosses(dbs, es, seen, j, k, id);
      }
    }
  }

  lemma BulkNeverCrosses(dbs: seq<Db>, es: seq<Event>, seen: seq<nat>, j: nat, k: nat, id: ReminderId)
    requires IsRun(dbs, es, seen) && j < k < |es| && (es[k].Complete? || es[k].Cancel?)
    ensures !Crosses(dbs, es, seen, j, k, id)
  {
    assert StepAt(dbs, es, seen, j) && StepAt(dbs, es, seen, k);
    if Completes(dbs, es, seen, j, id) || Cancels(dbs, es, seen, j, id) {
      StepOnClosing(dbs, es, seen, j, id);
      StaysClosed(dbs, es, seen, j + 1, k, id);
    }
  }

  /** It does happen: a completion and a cancellation both read the live reminder, both pass their
      test, and the reminder ends completed and cancelled. */
  lemma CrossedRequestsCloseTwice(tenant: TenantId)
    ensures var es := [Create(0, tenant, None, 5), CompleteOne(0, 7), CancelOne(0, 8)];
      var r := Reminder(tenant, None, 5, None, None, None);
      var dbs := [Db(map[], []), Db(map[0 := r], []), Db(map[0 := r.(completedAt := Some(7))], []),
                  Db(map[0 := r.(completedAt := Some(7), cancelledAt := Some(8))], [])];
      IsRun(dbs, es, [0, 1, 1]) && Both(dbs[3].reminders, 0)
  {
    var es := [Create(0, tenant, None, 5), CompleteOne(0, 7), CancelOne(0, 8)];
    var r := Reminder(tenant, None, 5, None, None, None);
    var dbs := [Db(map[], []), Db(map[0 := r], []), Db(map[0 := r.(completedAt := Some(7))], []),
                Db(map[0 := r.(completedAt := Some(7), cancelledAt := Some(8))], [])];
    assert StepAt(dbs, es, [0, 1, 1], 0);
    assert StepAt(dbs, es, [0, 1, 1], 1);
    assert StepAt(dbs, es, [0, 1, 1], 2);
  }

  // Closed since it was read: some step in between wrote a completion or a cancellation.
  ghost predicate ClosedBetween(dbs: seq<Db>, es: seq<Event>, seen: seq<nat>, v: nat, k: nat, id: ReminderId)
    requires IsRun(dbs, es, seen) && k <= |es|
  {
    exists j :: v <= j < k && (Completes(dbs, es, seen, j, id) || Cancels(dbs, es, seen, j, id))
  }

  lemma ClosedSinceRead(dbs: seq<Db>, es: seq<Event>, seen: seq<nat>, v: nat, k: nat, id: ReminderId)
    requires IsRun(dbs, es, seen) && v <= k <= |es| && id in dbs[v].reminders && dbs[v].reminders[id].Live()
    ensures id in dbs[k].reminders
    ensures !dbs[k].reminders[id].Live() <==> ClosedBetween(dbs, es, seen, v, k, id)
  {
    StaysOpen(dbs, es, seen, v, k, id);
    if ClosedBetween(dbs, es, seen, v, k, id) {
      var j :| v <= j < k && (Completes(dbs, es, seen, j, id) || Cancels(dbs, es, seen, j, id));
      StaysOpen(dbs, es, seen, v, j, id);
      StepOnClosing(dbs, es, seen, j, id);
      StaysClosed(dbs, es, seen, j + 1, k, id);
    }
  }

  /** An alert goes to a completed or cancelled reminder if and only if the completion or cancellation
      was written between the tick's read of the row and its claim. */
  lemma AlertToClosedExactlyWhen(dbs: seq<Db>, es: seq<Event>, seen: seq<nat>, k: nat, id: ReminderId)
    requires IsRun(dbs, es, seen) && k < |es| && Claims(dbs, es, seen, k, id)
    ensures seen[k] <= k && id in dbs[k].reminders
    ensures !dbs[k].reminders[id].Live() <==> ClosedBetween(dbs, es, seen, seen[k], k, id)
  {
    assert StepAt(dbs, es, seen, k);
    ClosedSinceRead(dbs, es, seen, seen[k], k, id);
  }

  /** So a reminder that is completed or cancelled at some moment is never claimed by a tick that
      reads it afterwards. */
  lemma NoAlertOnceClosed(dbs: seq<Db>, es: seq<Event>, seen: seq<nat>, c: nat, k: nat, id: ReminderId)
    requires IsRun(dbs, es, seen) && c < |dbs| && id in dbs[c].reminders && !dbs[c].reminders[id].Live()
    requires k < |es| && c <= seen[k]
    ensures !Claims(dbs, es, seen, k, id)
  {
    assert StepAt(dbs, es, seen, k);
    StaysClosed(dbs, es, seen, c, seen[k], id);
  }

  /** It does happen: a reminder completed between read and claim is still alerted. */
  lemma CompletedReminderIsAlerted(tenant: TenantId)
    ensures var es := [Create(0, tenant, None, 5), CompleteOne(0, 7), Claim(0, 6, false)];
      var r := Reminder(tenant, None, 5, None, None, None);
      var dbs := [Db(map[], []), Db(map[0 := r], []), Db(map[0 := r.(completedAt := Some(7))], []),
                  Db(map[0 := r.(completedAt := Some(7), dueNotifiedAt := Some(6))], [Alert(0, 5, 6)])];
      IsRun(dbs, es, [0, 1, 1])
  {
    var es := [Create(0, tenant, None, 5), CompleteOne(0, 7), Claim(0, 6, false)];
    var r := Reminder(tenant, None, 5, None, None, None);
    var dbs := [Db(map[], []), Db(map[0 := r], []), Db(map[0 := r.(completedAt := Some(7))], []),
                Db(map[0 := r.(completedAt := Some(7), dueNotifiedAt := Some(6))], [Alert(0, 5, 6)])];
    assert StepAt(dbs, es, [0, 1, 1], 0);
    assert StepAt(dbs, es, [0, 1, 1], 1);
    assert StepAt(dbs, es, [0, 1, 1], 2);
  }

  // What a bulk action makes of one reminder, column by column.
  predicate BulkChanges(was: Reminder, becomes: Reminder, e: Event, listed: bool) {
    var live := was.completedAt == None && was.cancelledAt == None;
    && becomes.tenant == was.tenant && becomes.dueNotifiedAt == was.dueNotifiedAt
    && becomes.completedAt == (if listed && e.Complete? && live then Some(e.now) else was.completedAt)
    && becomes.cancelledAt == (if listed && e.Cancel? && live then Some(e.now) else was.cancelledAt)
    && becomes.scheduledAt == (if listed && e.Reschedule? && was.completedAt == None then e.at else was.scheduledAt)
    && becomes.assignee == (if listed && e.Reassign? then Some(e.to) else was.assignee)
  }

  // ---------------------------------------------------------------- ticks among other transactions

  // What happened while a task ran: the claims it made, and None where other transactions committed.
  datatype Trace = Trace(dbs: seq<Db>, es: seq<Option<Event>>, seen: seq<nat>)

  type Others = (nat, Db) -> Db

  predicate KeepsRows(db: Db, db': Db) {
    db.reminders.Keys <= db'.reminders.Keys
  }

  // Other transactions may do anything to the tables but delete reminders.
  ghost predicate Tame(others: Others) {
    forall n, db :: KeepsRows(db, others(n, db))
  }

  ghost predicate TraceStep(t: Trace, k: nat)
    requires k < |t.es| == |t.seen| && |t.dbs| == |t.es| + 1
  {
    && t.seen[k] <= k && KeepsRows(t.dbs[k], t.dbs[k + 1])
    && (t.es[k].Some? ==> t.dbs[k + 1] == Next(t.dbs[t.seen[k]].reminders, t.dbs[k], t.es[k].value))
  }

  ghost predicate IsTrace(t: Trace, from: Db, to: Db) {
    && |t.dbs| == |t.es| + 1 == |t.seen| + 1 && t.dbs[0] == from && t.dbs[|t.es|] == to
    && forall k :: 0 <= k < |t.es| ==> TraceStep(t, k)
  }

  function Extend(t: Trace, e: Option<Event>, v: nat, db: Db): Trace {
    Trace(t.dbs + [db], t.es + [e], t.seen + [v])
  }

  ghost predicate Prefix(t: Trace, t': Trace) {
    t.dbs <= t'.dbs && t.es <= t'.es && t.seen <= t'.seen
  }

  lemma ExtendIsTrace(t: Trace, from: Db, to: Db, e: Option<Event>, v: nat, db: Db)
    requires IsTrace(t, from, to) && v <= |t.es| && KeepsRows(to, db)
    requires e.Some? ==> db == Next(t.dbs[v].reminders, to, e.value)
    ensures IsTrace(Extend(t, e, v, db), from, db) && Prefix(t, Extend(t, e, v, db))
  {
    var t' := Extend(t, e, v, db);
    forall k | 0 <= k < |t'.es| ensures TraceStep(t', k) {
      if k < |t.es| {
        assert TraceStep(t, k);
      }
    }
  }

  // From a to b the task claimed exactly these rows, once each, as it had read them at a.
  ghost predicate Sweep(t: Trace, a: nat, b: nat, due: set<ReminderId>, now: int, failing: set<ReminderId>) {
    && a <= b <= |t.es| == |t.seen|
    && (forall k :: a <= k < b ==> SweepStep(t, a, k, due, now, failing))
    && (forall id :: id in due ==> ClaimedIn(t, a, b, id))
    && (forall j, k :: a <= j < k < b && t.es[j].Some? ==> t.es[j] != t.es[k])
  }

  ghost predicate SweepStep(t: Trace, a: nat, k: nat, due: set<ReminderId>, now: int, failing: set<ReminderId>)
    requires k < |t.es| == |t.seen|
  {
    t.es[k].Some? ==>
      && t.es[k].value.Claim? && t.es[k].value.id in due
      && t.es[k].value == Claim(t.es[k].value.id, now, t.es[k].value.id in failing) && t.seen[k] == a
  }

  ghost predicate ClaimedIn(t: Trace, a: nat, b: nat, id: ReminderId)
    requires b <= |t.es|
  {
    exists k :: a <= k < b && t.es[k].Some? && t.es[k].value.Claim? && t.es[k].value.id == id
  }

  lemma SweepStays(t: Trace, t': Trace, a: nat, b: nat, due: set<ReminderId>, now: int, failing: set<ReminderId>)
    requires Sweep(t, a, b, due, now, failing) && Prefix(t, t') && |t'.es| == |t'.seen|
    ensures Sweep(t', a, b, due, now, failing)
  {
    assert forall k :: 0 <= k < |t.es| ==> t'.es[k] == t.es[k] && t'.seen[k] == t.seen[k];
    forall k | a <= k < b ensures SweepStep(t', a, k, due, now, failing) {
      assert SweepStep(t, a, k, due, now, failing);
    }
    forall id | id in due ensures ClaimedIn(t', a, b, id) {
      assert ClaimedIn(t, a, b, id);
    }
  }

  lemma SweepIdles(t: Trace, a: nat, due: set<ReminderId>, now: int, failing: set<ReminderId>, db: Db)
    requires Sweep(t, a, |t.es|, due, now, failing)
    ensures var t' := Extend(t, None, 0, db); Sweep(t', a, |t'.es|, due, now, failing)
  {
    var t', n := Extend(t, None, 0, db), |t.es|;
    forall k | a <= k < n + 1 ensures SweepStep(t', a, k, due, now, failing) {
      assert k < n ==> SweepStep(t, a, k, due, now, failing);
    }
    forall id | id in due ensures ClaimedIn(t', a, n + 1, id) {
      assert ClaimedIn(t, a, n, id);
      var k :| a <= k < n && t.es[k].Some? && t.es[k].value.Claim? && t.es[k].value.id == id;
      assert t'.es[k] == t.es[k];
    }
  }

  lemma SweepClaims(
    t: Trace, a: nat, due: set<ReminderId>, now: int, failing: set<ReminderId>, id: ReminderId, db: Db)
    requires Sweep(t, a, |t.es|, due, now, failing) && id !in due
    ensures var t' := Extend(t, Some(Claim(id, now, id in failing)), a, db);
            Sweep(t', a, |t'.es|, due + {id}, now, failing)
  {
    var t', n := Extend(t, Some(Claim(id, now, id in failing)), a, db), |t.es|;
    forall k | a <= k < n + 1 ensures SweepStep(t', a, k, due + {id}, now, failing) {
      assert k < n ==> SweepStep(t, a, k, due, now, failing);
    }
    forall x | x in due + {id} ensures ClaimedIn(t', a, n + 1, x) {
      if x in due {
        assert ClaimedIn(t, a, n, x);
        var k :| a <= k < n && t.es[k].Some? && t.es[k].value.Claim? && t.es[k].value.id == x;
        assert t'.es[k] == t.es[k];
      } else {
        assert t'.es[n].value.id == x;
      }
    }
    forall j, k | a <= j < k < n + 1 && t'.es[j].Some? ensures t'.es[j] != t'.es[k] {
      assert SweepStep(t, a, j, due, now, failing) && t'.es[j] == t.es[j];
    }
  }

  // Notifications that went out.
  function Sent(es: seq<Option<Event>>): nat {
    if es == [] then 0
    else
      var e := es[|es| - 1];
      Sent(es[..|es| - 1]) + if e.Some? && e.value.Claim? && !e.value.fails then 1 else 0
  }

  lemma SentSnoc(es: seq<Option<Event>>, e: Option<Event>)
    ensures Sent(es + [e]) == Sent(es) + if e.Some? && e.value.Claim? && !e.value.fails then 1 else 0
  {
    assert (es + [e])[..|es|] == es;
  }

  // Every active tenant is swept once, and the task claims nothing outside these sweeps.
  ghost predicate TickTrace(
    t: Trace, sweeps: map<TenantId, (nat, nat)>, tenants: set<TenantId>, now: int, failing: set<ReminderId>)
  {
    && sweeps.Keys == tenants
    && (forall x :: x in tenants ==> TenantSwept(t, sweeps[x], x, now, failing))
    && (forall k :: 0 <= k < |t.es| && t.es[k].Some? ==> InSweep(sweeps, k))
  }

  ghost predicate TenantSwept(t: Trace, span: (nat, nat), tenant: TenantId, now: int, failing: set<ReminderId>) {
    && span.0 < |t.dbs|
    && Sweep(t, span.0, span.1, DueRows(t.dbs[span.0].reminders, now, {tenant}), now, failing)
  }

  ghost predicate InSweep(sweeps: map<TenantId, (nat, nat)>, k: nat) {
    exists x :: x in sweeps && sweeps[x].0 <= k < sweeps[x].1
  }

  lemma TickTraceIdles(
    t: Trace, sweeps: map<TenantId, (nat, nat)>, tenants: set<TenantId>, now: int, failing: set<ReminderId>, db: Db)
    requires TickTrace(t, sweeps, tenants, now, failing) && |t.dbs| == |t.es| + 1 == |t.seen| + 1
    ensures TickTrace(Extend(t, None, 0, db), sweeps, tenants, now, failing)
  {
    var t' := Extend(t, None, 0, db);
    forall x | x in tenants ensures TenantSwept(t', sweeps[x], x, now, failing) {
      assert TenantSwept(t, sweeps[x], x, now, failing);
      SweepStays(t, t', sweeps[x].0, sweeps[x].1, DueRows(t.dbs[sweeps[x].0].reminders, now, {x}), now, failing);
    }
    forall k | 0 <= k < |t'.es| && t'.es[k].Some? ensures InSweep(sweeps, k) {
      assert t'.es[k] == t.es[k];
    }
  }

  lemma TickTraceGrows(
    t: Trace, t': Trace, sweeps: map<TenantId, (nat, nat)>, tenants: set<TenantId>, tenant: TenantId, now: int,
    failing: set<ReminderId>)
    requires TickTrace(t, sweeps, tenants, now, failing) && tenant !in tenants
    requires Prefix(t, t') && |t'.es| == |t'.seen| && |t.dbs| == |t.es| + 1
    requires TenantSwept(t', (|t.es|, |t'.es|), tenant, now, failing)
    ensures TickTrace(t', sweeps[tenant := (|t.es|, |t'.es|)], tenants + {tenant}, now, failing)
  {
    var sweeps' := sweeps[tenant := (|t.es|, |t'.es|)];
    forall x | x in tenants ensures TenantSwept(t', sweeps'[x], x, now, failing) {
      assert TenantSwept(t, sweeps[x], x, now, failing);
      SweepStays(t, t', sweeps[x].0, sweeps[x].1, DueRows(t.dbs[sweeps[x].0].reminders, now, {x}), now, failing);
    }
    forall k | 0 <= k < |t'.es| && t'.es[k].Some? ensures InSweep(sweeps', k) {
      if k < |t.es| {
        assert t'.es[k] == t.es[k] && InSweep(sweeps, k);
        var x :| x in sweeps && sweeps[x].0 <= k < sweeps[x].1;
        assert sweeps'[x] == sweeps[x];
      } else {
        assert sweeps'[tenant].0 <= k < sweeps'[tenant].1;
      }
    }
  }

  // ---------------------------------------------------------------- the table

  datatype Reply = Ok | BadRequest(detail: string) | NotFound

  class Table {
    var reminders: Rows
    var alerts: seq<Alert>

    constructor ()
      ensures View() == Db(map[], [])
    {
      reminders, alerts := map[], [];
    }

    function View(): Db
      reads this
    {
      Db(reminders, alerts)
    }

    // Other transactions commit.
    method Yield(others: Others, n: nat)
      modifies this
      ensures View() == others(n, old(View()))
    {
      var db := others(n, View());
      reminders, alerts := db.reminders, db.alerts;
    }

    // Claim first, then notify: the watermark is stamped before the alert goes out or fails to.
    method ClaimRow(copy: Reminder, id: ReminderId, now: int, fails: bool, ghost read: Rows) returns (notified: bool)
      requires id in read && read[id] == copy && copy.Due(now) && id in reminders
      modifies this
      ensures View() == Next(read, old(View()), Claim(id, now, fails))
      ensures notified <==> !fails
    {
      ghost var before := View();
      reminders := reminders[id := reminders[id].(dueNotifiedAt := Some(now))];
      assert reminders == Update(before.reminders, {id}, Claim(id, now, fails));
      if fails {
        return false;
      }
      alerts := alerts + [Alert(id, copy.scheduledAt, now)];
      return true;
    }

    /** The inner loop of fire_due_reminders: whatever others commit before each claim, exactly the
        rows that were due when read are claimed, once each. `n` counts the occasions. */
    method FireTenant(
      tenant: TenantId, now: int, failing: set<ReminderId>, others: Others, n: nat, ghost from: Db, ghost t: Trace)
      returns (notified: nat, n': nat, ghost t': Trace)
      requires Tame(others) && IsTrace(t, from, View())
      modifies this
      ensures IsTrace(t', from, View()) && Prefix(t, t')
      ensures TenantSwept(t', (|t.es|, |t'.es|), tenant, now, failing)
      ensures Sent(t'.es) == Sent(t.es) + notified
    {
      var read := reminders;
      var pending := DueRows(read, now, {tenant});
      ghost var due, a := pending, |t.es|;
      notified, n', t' := 0, n, t;
      while pending != {}
        invariant pending <= due && read == t.dbs[a].reminders && read.Keys <= reminders.Keys
        invariant IsTrace(t', from, View()) && Prefix(t, t') && a <= |t'.es|
        invariant Sweep(t', a, |t'.es|, due - pending, now, failing)
        invariant Sent(t'.es) == Sent(t.es) + notified
      {
        var id :| id in pending;
        t' := YieldDuring(others, n', from, t', a, due - pending, now, failing);
        assert t'.dbs[a] == t.dbs[a];
        var ok;
        ok, t' := ClaimDuring(read, id, now, failing, from, t', a, due - pending);
        assert due - pending + {id} == due - (pending - {id});
        pending := pending - {id};
        n' := n' + 1;
        if ok {
          notified := notified + 1;
        }
      }
      assert due - pending == due;
    }

    method ClaimDuring(
      read: Rows, id: ReminderId, now: int, failing: set<ReminderId>, ghost from: Db, ghost t: Trace, ghost a: nat,
      ghost due: set<ReminderId>)
      returns (notified: bool, ghost t': Trace)
      requires IsTrace(t, from, View()) && Sweep(t, a, |t.es|, due, now, failing) && t.dbs[a].reminders == read
      requires id in read && read[id].Due(now) && id in reminders && id !in due
      modifies this
      ensures IsTrace(t', from, View()) && Prefix(t, t') && Sweep(t', a, |t'.es|, due + {id}, now, failing)
      ensures Sent(t'.es) == Sent(t.es) + (if notified then 1 else 0) && old(reminders).Keys <= reminders.Keys
    {
      ghost var before, e := View(), Some(Claim(id, now, id in failing));
      notified := ClaimRow(read[id], id, now, id in failing, read);
      t' := Extend(t, e, a, View());
      ExtendIsTrace(t, from, before, e, a, View());
      SweepClaims(t, a, due, now, failing, id, View());
      SentSnoc(t.es, e);
    }

    method YieldDuring(
      others: Others, n: nat, ghost from: Db, ghost t: Trace, ghost a: nat, ghost due: set<ReminderId>, ghost now: int,
      ghost failing: set<ReminderId>)
      returns (ghost t': Trace)
      requires Tame(others) && IsTrace(t, from, View()) && Sweep(t, a, |t.es|, due, now, failing)
      modifies this
      ensures IsTrace(t', from, View()) && Prefix(t, t') && Sweep(t', a, |t'.es|, due, now, failing)
      ensures Sent(t'.es) == Sent(t.es) && old(reminders).Keys <= reminders.Keys
    {
      ghost var before := View();
      Yield(others, n);
      assert KeepsRows(before, others(n, before));
      t' := Extend(t, None, 0, View());
      ExtendIsTrace(t, from, before, None, 0, View());
      SweepIdles(t, a, due, now, failing, View());
      SentSnoc(t.es, None);
    }

    method YieldBetween(
      others: Others, n: nat, ghost from: Db, ghost t: Trace, ghost sweeps: map<TenantId, (nat, nat)>,
      ghost tenants: set<TenantId>, ghost now: int, ghost failing: set<ReminderId>)
      returns (ghost t': Trace)
      requires Tame(others) && IsTrace(t, from, View()) && TickTrace(t, sweeps, tenants, now, failing)
      modifies this
      ensures IsTrace(t', from, View()) && TickTrace(t', sweeps, tenants, now, failing) && Sent(t'.es) == Sent(t.es)
    {
      ghost var before := View();
      Yield(others, n);
      assert KeepsRows(before, others(n, before));
      t' := Extend(t, None, 0, View());
      ExtendIsTrace(t, from, before, None, 0, View());
      TickTraceIdles(t, sweeps, tenants, now, failing, View());
      SentSnoc(t.es, None);
    }

    /** fire_due_reminders: tenant by tenant, each read once; a notification that raises is passed
        over, and the number of notifications that went out is returned. */
    method FireDueReminders(now: int, activeTenants: set<TenantId>, failing: set<ReminderId>, others: Others)
      returns (notified: nat, ghost t: Trace, ghost sweeps: map<TenantId, (nat, nat)>)
      requires Tame(others)
      modifies this
      ensures IsTrace(t, old(View()), View()) && TickTrace(t, sweeps, activeTenants, now, failing)
      ensures notified == Sent(t.es)
    {
      ghost var from := View();
      t, sweeps := Trace([from], [], []), map[];
      var tenants, n := activeTenants, 0;
      notified := 0;
      while tenants != {}
        invariant tenants <= activeTenants && notified == Sent(t.es)
        invariant IsTrace(t, from, View()) && TickTrace(t, sweeps, activeTenants - tenants, now, failing)
      {
        var tenant :| tenant in tenants;
        t := YieldBetween(others, n, from, t, sweeps, activeTenants - tenants, now, failing);
        ghost var before := t;
        var k;
        k, n, t := FireTenant(tenant, now, failing, others, n + 1, from, before);
        TickTraceGrows(before, t, sweeps, activeTenants - tenants, tenant, now, failing);
        sweeps := sweeps[tenant := (|before.es|, |t.es|)];
        assert activeTenants - tenants + {tenant} == activeTenants - (tenants - {tenant});
        tenants := tenants - {tenant};
        notified := notified + k;
      }
      assert activeTenants - {} == activeTenants;
    }

    /** ReminderViewSet.complete on the copy get_object read from `seen`; rows are never deleted. */
    method MarkComplete(seen: Rows, id: ReminderId, now: int) returns (r: Reply)
      requires seen.Keys <= reminders.Keys
      modifies this`reminders
      ensures View() == Next(seen, old(View()), CompleteOne(id, now))
      ensures r == Ok <==> id in seen && seen[id].Live()
      ensures r == NotFound <==> id !in seen
      ensures r == Ok ==> reminders == old(reminders)[id := old(reminders)[id].(completedAt := Some(now))]
    {
      assert Update(reminders, {}, CompleteOne(id, now)) == reminders;
      if id !in seen {
        return NotFound;
      }
      if seen[id].completedAt.Some? {
        return BadRequest("Reminder is already completed.");
      }
      if seen[id].cancelledAt.Some? {
        return BadRequest("Cannot complete a cancelled reminder.");
      }
      reminders := reminders[id := reminders[id].(completedAt := Some(now))];
      return Ok;
    }

    /** ReminderViewSet.cancel, likewise. */
    method MarkCancelled(seen: Rows, id: ReminderId, now: int) returns (r: Reply)
      requires seen.Keys <= reminders.Keys
      modifies this`reminders
      ensures View() == Next(seen, old(View()), CancelOne(id, now))
      ensures r == Ok <==> id in seen && seen[id].Live()
      ensures r == NotFound <==> id !in seen
      ensures r == Ok ==> reminders == old(reminders)[id := old(reminders)[id].(cancelledAt := Some(now))]
    {
      assert Update(reminders, {}, CancelOne(id, now)) == reminders;
      if id !in seen {
        return NotFound;
      }
      if seen[id].completedAt.Some? {
        return BadRequest("Cannot cancel a completed reminder.");
      }
      if seen[id].cancelledAt.Some? {
        return BadRequest("Reminder is already cancelled.");
      }
      reminders := reminders[id := reminders[id].(cancelledAt := Some(now))];
      return Ok;
    }

    /** ReminderViewSet.reschedule: refused for completed reminders, allowed for cancelled ones. */
    method MoveTo(seen: Rows, id: ReminderId, at: int) returns (r: Reply)
      requires seen.Keys <= reminders.Keys
      modifies this`reminders
      ensures View() == Next(seen, old(View()), RescheduleOne(id, at))
      ensures r == Ok <==> id in seen && seen[id].completedAt.None?
      ensures r == NotFound <==> id !in seen
      ensures r == Ok ==> reminders == old(reminders)[id := old(reminders)[id].(scheduledAt := at)]
    {
      assert Update(reminders, {}, RescheduleOne(id, at)) == reminders;
      if id !in seen {
        return NotFound;
      }
      if seen[id].completedAt.Some? {
        return BadRequest("Cannot reschedule a completed reminder.");
      }
      reminders := reminders[id := reminders[id].(scheduledAt := at)];
      return Ok;
    }

    /** ReminderViewSet.bulk_action for the listed ids of the rows `visible` to the caller: refused
        unless they are all visible and listed once each, and for a reassignment unless the target
        is an active member; then one filtered update, and `updated` counts the rows it touched. */
    method BulkAction(listed: seq<ReminderId>, visible: set<ReminderId>, members: set<UserId>, e: Event)
      returns (r: Reply, updated: nat)
      requires e.Complete? || e.Cancel? || e.Reschedule? || e.Reassign?
      requires e.ids == Members(listed)
      modifies this`reminders
      ensures r == NotFound <==> !(Distinct(listed) && e.ids <= old(reminders).Keys * visible)
      ensures r == Ok <==> Distinct(listed) && e.ids <= old(reminders).Keys * visible && (e.Reassign? ==> e.to in members)
      ensures r == Ok ==> View() == Next(old(reminders), old(View()), e)
                          && updated == |Selected(old(reminders), old(reminders), e)|
      ensures r != Ok ==> View() == old(View()) && updated == 0
      ensures r == Ok ==> alerts == old(alerts) && reminders.Keys == old(reminders).Keys
      ensures r == Ok ==> forall id :: id in reminders ==>
        BulkChanges(old(reminders)[id], reminders[id], e, id in listed)
    {
      var found := set id | id in reminders && id in visible && id in listed;
      FoundAllWhen(listed, found);
      if |found| != |listed| {
        return NotFound, 0;
      }
      if e.Reassign? && e.to !in members {
        return BadRequest("Target user is not an active member of this tenant."), 0;
      }
      var rows := Selected(reminders, reminders, e);
      updated := |rows|;
      reminders := map id | id in reminders :: if id in rows then Changed(reminders[id], e) else reminders[id];
      r := Ok;
    }
  }

  // As many rows found as ids listed: all of them, and none listed twice.
  lemma FoundAllWhen(listed: seq<ReminderId>, found: set<ReminderId>)
    requires found <= Members(listed)
    ensures |found| == |listed| <==> Distinct(listed) && found == Members(listed)
  {
    MembersSize(listed);
    SubsetCardinality(found, Members(listed));
    if |found| == |Members(listed)| {
      SubsetOfSameSize(found, Members(listed));
    }
  }
}
