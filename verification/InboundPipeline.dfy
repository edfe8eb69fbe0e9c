// Processing of inbound email rows, one transaction per attempt
// (apps/inbound_email/services.py, tasks.py and models.py).
module InboundPipeline {
  import opened Options

  type RowId = nat
  type TenantId = nat
  type TicketId = nat

  datatype Status =
    | Pending | Processing | TicketCreated | ReplyAdded | ParkedInHub | Sent | Rejected | Bounced | Failed

  // f"in:{tenant.pk}:{message_id}"
  datatype Key = InKey(tenant: TenantId, messageId: string)

  datatype Row = Row(
    tenant: Option<TenantId>,
    messageId: string,
    sender: string,
    recipient: string,
    status: Status,
    key: Option<Key>,
    ticket: Option<TicketId>)

  // What an attempt did to the rest of the system. Hub parking and ticket creation are
  // single effects here.
  datatype EffectKind = Ticket | Reply | Park
  datatype Effect = Effect(row: RowId, kind: EffectKind)

  // A hard bounce on record; `failed` is the address that bounced.
  datatype BounceLog = BounceLog(row: RowId, tenant: Option<TenantId>, failed: string, ticket: Option<TicketId>)

  datatype Db = Db(
    rows: map<RowId, Row>,
    effects: seq<Effect>,
    contacts: set<(TenantId, string)>,
    bouncing: set<(TenantId, string)>,    // contacts flagged as bouncing
    bounceLogs: seq<BounceLog>)

  datatype Filter = Pass | DropBounce | DropOther

  // Everything an attempt depends on outside the row it processes.
  datatype Env = Env(
    filter: Filter,                       // run_all_filters, classify_email
    resolved: Option<TenantId>,           // resolve_tenant_from_address
    seesDuplicate: bool,                  // false: the row holding the key committed after the check
    systemUser: bool,                     // get_system_user finds somebody
    thread: Option<TicketId>,             // find_existing_ticket
    failedRecipient: string,              // the X-Failed-Recipients header, "" when absent
    bodyEmpty: bool,                      // nothing left after strip_quoted_reply
    hubEnabled: bool,
    newTicket: TicketId,
    raises: bool)                         // any later step raises

  datatype Outcome = Committed(db: Db) | RolledBack

  predicate Open(s: Status) {
    s == Pending || s == Processing
  }

  function HoldersOf(db: Db, id: RowId, k: Key): set<RowId> {
    set other | other in db.rows && other != id && db.rows[other].key == Some(k)
  }

  function Put(db: Db, id: RowId, row: Row): Db {
    db.(rows := db.rows[id := row])
  }

  // process_inbound_email after the key has been claimed.
  function Deliver(db: Db, id: RowId, row: Row, t: TenantId, env: Env): Outcome {
    if !env.systemUser || env.raises then RolledBack
    else
      var db' := db.(contacts := db.contacts + {(t, row.sender)});
      if env.thread.Some? then
        if env.bodyEmpty then Committed(Put(db', id, row.(status := Rejected)))
        else Committed(Put(db', id, row.(status := ReplyAdded, ticket := env.thread))
                         .(effects := db.effects + [Effect(id, Reply)]))
      else if env.hubEnabled then
        Committed(Put(db', id, row.(status := ParkedInHub)).(effects := db.effects + [Effect(id, Park)]))
      else
        Committed(Put(db', id, row.(status := TicketCreated, ticket := Some(env.newTicket)))
                    .(effects := db.effects + [Effect(id, Ticket)]))
  }

  // The idempotency check and claim. A row whose key was claimed by a concurrent transaction meets
  // the unique constraint; inside @transaction.atomic that always ends in a rollback.
  function Claim(db: Db, id: RowId, row: Row, t: TenantId, env: Env): Outcome {
    var k := InKey(t, row.messageId);
    if HoldersOf(db, id, k) != {} then
      if env.seesDuplicate then Committed(Put(db, id, row.(status := Rejected))) else RolledBack
    else Deliver(db, id, row.(key := Some(k)), t, env)
  }

  // The contacts of the tenant with the address that bounced.
  function Flagged(contacts: set<(TenantId, string)>, t: Option<TenantId>, to: string): set<(TenantId, string)> {
    if t.Some? && to != "" && (t.value, to) in contacts then {(t.value, to)} else {}
  }

  // The pipeline on a row that has been marked PROCESSING.
  function Pipe(db: Db, id: RowId, row: Row, env: Env): Outcome {
    if env.filter == DropBounce then
      var t := if row.tenant.Some? then row.tenant else env.resolved;
      var linked := if t.Some? then env.thread else None;
      var to := if env.failedRecipient != "" then env.failedRecipient else row.recipient;
      Committed(Put(db, id, row.(status := Bounced, tenant := t, ticket := if linked.Some? then linked else row.ticket))
                  .(bounceLogs := db.bounceLogs + [BounceLog(id, t, to, linked)],
                    bouncing := db.bouncing + Flagged(db.contacts, t, to)))
    else if env.filter == DropOther then Committed(Put(db, id, row.(status := Rejected)))
    else if row.tenant.None? && env.resolved.None? then Committed(Put(db, id, row.(status := Rejected)))
    else
      var t := if row.tenant.Some? then row.tenant.value else env.resolved.value;
      Claim(db, id, row.(tenant := Some(t)), t, env)
  }

  // One attempt.
  function Attempt(db: Db, id: RowId, env: Env): Outcome {
    if id !in db.rows then RolledBack
    else if !Open(db.rows[id].status) then Committed(db)
    else Pipe(db, id, db.rows[id].(status := Processing), env)
  }

  function Settle(db: Db, o: Outcome): Db {
    match o
    case Committed(db') => db'
    case RolledBack => db
  }

  // mark_inbound_failed: an unconditional update outside any transaction.
  function MarkFailed(db: Db, id: RowId): Db {
    if id in db.rows then Put(db, id, db.rows[id].(status := Failed)) else db
  }

  // ---------------------------------------------------------------- runs

  datatype Step =
    | Create(id: RowId, tenant: Option<TenantId>, messageId: string, sender: string, recipient: string)
    | Try(id: RowId, env: Env)
    | GiveUp(id: RowId)

  function Next(db: Db, s: Step): Db {
    match s
    case Create(id, t, m, from, to) =>
      if id in db.rows then db else Put(db, id, Row(t, m, from, to, Pending, None, None))
    case Try(id, env) => Settle(db, Attempt(db, id, env))
    case GiveUp(id) => MarkFailed(db, id)
  }

  function Run(db: Db, ss: seq<Step>): Db
    decreases |ss|
  {
    if ss == [] then db else Next(Run(db, ss[..|ss| - 1]), ss[|ss| - 1])
  }

  // The unique constraint on idempotency_key.
  ghost predicate KeysUnique(db: Db) {
    forall a, b :: a in db.rows && b in db.rows && a != b && db.rows[a].key.Some? ==> db.rows[a].key != db.rows[b].key
  }

  // Every effect belongs to a settled row that holds its own (tenant, message_id) key, and no
  // row has two.
  ghost predicate EffectsOwned(db: Db) {
    && (forall i :: 0 <= i < |db.effects| ==> OwnsEffect(db, db.effects[i].row))
    && (forall i, j :: 0 <= i < j < |db.effects| ==> db.effects[i].row != db.effects[j].row)
  }

  predicate OwnsEffect(db: Db, id: RowId) {
    && id in db.rows && !Open(db.rows[id].status) && db.rows[id].tenant.Some?
    && db.rows[id].key == Some(InKey(db.rows[id].tenant.value, db.rows[id].messageId))
  }

  // A row that may still be processed has claimed nothing.
  ghost predicate OpenRowsUnclaimed(db: Db) {
    forall id :: id in db.rows && Open(db.rows[id].status) ==> db.rows[id].key.None?
  }

  ghost predicate Valid(db: Db) {
    KeysUnique(db) && EffectsOwned(db) && OpenRowsUnclaimed(db)
  }

  // What no step ever does to a row: rename the message, release a claimed key, reopen it.
  predicate Later(a: Row, b: Row) {
    && b.messageId == a.messageId && b.sender == a.sender
    && (a.key.Some? ==> b.key == a.key)
    && (a.tenant.Some? ==> b.tenant == a.tenant)
    && (!Open(a.status) ==> !Open(b.status))
  }

  ghost predicate Extends(db: Db, db': Db) {
    && (forall id :: id in db.rows ==> id in db'.rows && Later(db.rows[id], db'.rows[id]))
    && db.effects <= db'.effects && db.contacts <= db'.contacts
  }

  // An attempt changes one row, and appends at most one effect, of that row.
  ghost predicate OneRowStep(db: Db, db': Db, id: RowId) {
    && id in db.rows && db'.rows.Keys == db.rows.Keys
    && (forall x :: x in db.rows && x != id ==> db'.rows[x] == db.rows[x])
    && Later(db.rows[id], db'.rows[id])
    && (db'.rows[id].key == db.rows[id].key
        || (db'.rows[id].key.Some? && HoldersOf(db, id, db'.rows[id].key.value) == {}))
    && (Open(db'.rows[id].status) ==> db'.rows[id].key.None?)
    && (db'.effects == db.effects
        || (|db'.effects| == |db.effects| + 1 && db'.effects[..|db.effects|] == db.effects
            && db'.effects[|db.effects|].row == id && Open(db.rows[id].status) && OwnsEffect(db', id)))
    && db.contacts <= db'.contacts
  }

  lemma DeliverIsOneRowStep(db: Db, id: RowId, row: Row, t: TenantId, env: Env)
    requires id in db.rows && Open(db.rows[id].status) && db.rows[id].key.None?
    requires row == db.rows[id].(status := Processing, tenant := Some(t), key := Some(InKey(t, db.rows[id].messageId)))
    requires db.rows[id].tenant.Some? ==> db.rows[id].tenant.value == t
    requires HoldersOf(db, id, InKey(t, db.rows[id].messageId)) == {}
    requires Deliver(db, id, row, t, env).Committed?
    ensures OneRowStep(db, Deliver(db, id, row, t, env).db, id)
  {}

  lemma AttemptIsOneRowStep(db: Db, id: RowId, env: Env)
    requires Valid(db) && Attempt(db, id, env).Committed?
    ensures Attempt(db, id, env).db == db || OneRowStep(db, Attempt(db, id, env).db, id)
  {
    if Open(db.rows[id].status) && env.filter == Pass && (db.rows[id].tenant.Some? || env.resolved.Some?) {
      var t := if db.rows[id].tenant.Some? then db.rows[id].tenant.value else env.resolved.value;
      var k := InKey(t, db.rows[id].messageId);
      if HoldersOf(db, id, k) == {} {
        DeliverIsOneRowStep(db, id, db.rows[id].(status := Processing, tenant := Some(t), key := Some(k)), t, env);
      }
    }
  }

  lemma OneRowStepKeepsKeysUnique(db: Db, db': Db, id: RowId)
    requires Valid(db) && OneRowStep(db, db', id)
    ensures KeysUnique(db') && OpenRowsUnclaimed(db')
  {
    if db'.rows[id].key != db.rows[id].key {
      var k := db'.rows[id].key.value;
      assert forall x :: x in db.rows && x != id && db.rows[x].key == Some(k) ==> x in HoldersOf(db, id, k);
    }
  }

  lemma OneRowStepKeepsEffectsOwned(db: Db, db': Db, id: RowId)
    requires Valid(db) && OneRowStep(db, db', id)
    ensures EffectsOwned(db') && db.effects <= db'.effects
  {
    forall i | 0 <= i < |db.effects| ensures db'.effects[i] == db.effects[i] && OwnsEffect(db', db.effects[i].row) {
      assert OwnsEffect(db, db.effects[i].row);
      if |db'.effects| > |db.effects| {
        assert db'.effects[i] == db'.effects[..|db.effects|][i];
      }
    }
  }

  lemma StepKeepsValid(db: Db, s: Step)
    requires Valid(db)
    ensures Valid(Next(db, s)) && Extends(db, Next(db, s))
  {
    var db' := Next(db, s);
    match s
    case Create(id, t, m, from, to) =>
      forall i | 0 <= i < |db.effects| ensures OwnsEffect(db', db.effects[i].row) {
        assert OwnsEffect(db, db.effects[i].row);
      }
    case Try(id, env) =>
      if Attempt(db, id, env).Committed? {
        AttemptIsOneRowStep(db, id, env);
        if db' != db {
          OneRowStepKeepsKeysUnique(db, db', id);
          OneRowStepKeepsEffectsOwned(db, db', id);
        }
      }
    case GiveUp(id) =>
      if id in db.rows {
        OneRowStepKeepsKeysUnique(db, db', id);
        OneRowStepKeepsEffectsOwned(db, db', id);
      }
  }

  /** Over every interleaving of deliveries, attempts, rollbacks, lost races and give-ups: claimed
      keys stay unique and are never released, rows are never reopened, and effects and contacts
      are never undone. */
  lemma {:induction false} RunsKeepValid(db: Db, ss: seq<Step>)
    requires Valid(db)
    ensures Valid(Run(db, ss)) && Extends(db, Run(db, ss))
    decreases |ss|
  {
    if ss != [] {
      RunsKeepValid(db, ss[..|ss| - 1]);
      StepKeepsValid(Run(db, ss[..|ss| - 1]), ss[|ss| - 1]);
    }
  }

  /** At most one row per (tenant, message_id), and that row at most once, ever produces a ticket,
      a reply or a parked email. */
  lemma AtMostOnceEffect(db: Db, ss: seq<Step>, i: nat, j: nat)
    requires Valid(db) && i < j < |Run(db, ss).effects|
    ensures var db' := Run(db, ss); var a, b := db'.effects[i].row, db'.effects[j].row;
      a in db'.rows && b in db'.rows
      && (db'.rows[a].tenant != db'.rows[b].tenant || db'.rows[a].messageId != db'.rows[b].messageId)
  {
    RunsKeepValid(db, ss);
    var db' := Run(db, ss);
    assert OwnsEffect(db', db'.effects[i].row) && OwnsEffect(db', db'.effects[j].row);
  }

  /** Only PENDING rows, and PROCESSING ones left by a dead worker, are processed, and a committed attempt
      leaves the row in neither state; any other row is left exactly as it is. */
  lemma ProcessedExactlyWhen(db: Db, id: RowId, env: Env)
    requires id in db.rows
    ensures db.rows[id].status !in {Pending, Processing} ==> Attempt(db, id, env) == Committed(db)
    ensures db.rows[id].status in {Pending, Processing} && Attempt(db, id, env).Committed? ==>
      id in Attempt(db, id, env).db.rows && Attempt(db, id, env).db.rows[id].status !in {Pending, Processing}
  {}

  /** Mail that a filter drops creates no ticket, reply, parked email or contact and claims no
      key. It ends BOUNCED exactly when classified as a bounce; then one log names the address that
      failed, and at most that address's existing contact is flagged. */
  lemma FilteredMailLeavesNoTrace(db: Db, id: RowId, env: Env)
    requires Valid(db) && id in db.rows && Open(db.rows[id].status) && env.filter != Pass
    ensures Attempt(db, id, env).Committed?
    ensures var db' := Attempt(db, id, env).db; var row := db.rows[id];
      && db'.effects == db.effects && db'.contacts == db.contacts && db'.rows[id].key.None?
      && db'.rows - {id} == db.rows - {id}
      && (env.filter == DropOther ==>
            db'.rows[id].status == Rejected && db'.bounceLogs == db.bounceLogs && db'.bouncing == db.bouncing)
      && (env.filter == DropBounce ==>
            && db'.rows[id].status == Bounced && |db'.bounceLogs| == |db.bounceLogs| + 1
            && var log := db'.bounceLogs[|db.bounceLogs|];
            && log.row == id && log.tenant == db'.rows[id].tenant
            && log.tenant == (if row.tenant.Some? then row.tenant else env.resolved)
            && (env.failedRecipient != "" ==> log.failed == env.failedRecipient)
            && (env.failedRecipient == "" ==> log.failed == row.recipient)
            && log.ticket == (if log.tenant.Some? then env.thread else None)
            && (log.ticket.Some? ==> db'.rows[id].ticket == log.ticket)
            && (log.ticket.None? ==> db'.rows[id].ticket == row.ticket)
            && (forall c :: c in db'.bouncing <==>
                  c in db.bouncing || (log.tenant == Some(c.0) && log.failed == c.1 && c.1 != "" && c in db.contacts)))
  {}

  predicate FiltersRow(s: Step, id: RowId) {
    s.Try? && s.id == id ==> s.env.filter != Pass
  }

  // No effect belongs to this row and it has claimed no key.
  ghost predicate Traceless(db: Db, id: RowId) {
    id in db.rows && db.rows[id].key.None? && forall i :: 0 <= i < |db.effects| ==> db.effects[i].row != id
  }

  lemma FilteredStepLeavesNoTrace(db: Db, s: Step, id: RowId)
    requires Valid(db) && Traceless(db, id) && FiltersRow(s, id)
    ensures Traceless(Next(db, s), id)
    ensures s.Try? && s.id == id ==> Next(db, s).contacts == db.contacts
  {
    if s.Try? && s.id == id {
      if Open(db.rows[id].status) {
        FilteredMailLeavesNoTrace(db, id, s.env);
      }
    } else if s.Try? && Attempt(db, s.id, s.env).Committed? {
      AttemptIsOneRowStep(db, s.id, s.env);
      var db' := Next(db, s);
      forall i | 0 <= i < |db'.effects| ensures db'.effects[i].row != id {
        assert i < |db.effects| ==> db'.effects[i] == db'.effects[..|db.effects|][i];
      }
    }
  }

  /** Over whole runs: a row whose every attempt is filtered never gets a ticket, reply, parked email
      or key, and none of its attempts creates a contact, whatever happens to other rows. */
  lemma {:induction false} FilteredForGood(db: Db, ss: seq<Step>, id: RowId)
    requires Valid(db) && id in db.rows && Open(db.rows[id].status)
    requires forall k :: 0 <= k < |ss| ==> FiltersRow(ss[k], id)
    ensures Traceless(Run(db, ss), id)
    ensures forall k :: 0 <= k < |ss| && ss[k].Try? && ss[k].id == id ==>
              Next(Run(db, ss[..k]), ss[k]).contacts == Run(db, ss[..k]).contacts
    decreases |ss|
  {
    if ss == [] {
      forall i | 0 <= i < |db.effects| ensures db.effects[i].row != id {
        assert OwnsEffect(db, db.effects[i].row);
      }
    } else {
      var front := ss[..|ss| - 1];
      FilteredForGood(db, front, id);
      RunsKeepValid(db, front);
      FilteredStepLeavesNoTrace(Run(db, front), ss[|ss| - 1], id);
      forall k | 0 <= k < |ss| && ss[k].Try? && ss[k].id == id
        ensures Next(Run(db, ss[..k]), ss[k]).contacts == Run(db, ss[..k]).contacts
      {
        if k < |front| {
          assert front[..k] == ss[..k] && front[k] == ss[k];
        }
      }
    }
  }

  /** An open, unfiltered row has an effect exactly when its tenant resolves, no other row holds
      its key, nothing raises, and it is not an empty reply; the effect follows threading first,
      then the Hub switch, and the row records it together with the claimed key. */
  lemma EffectExactlyWhen(db: Db, id: RowId, env: Env)
    requires Valid(db) && id in db.rows && Open(db.rows[id].status)
    ensures var db' := Settle(db, Attempt(db, id, env));
      var t := if db.rows[id].tenant.Some? then db.rows[id].tenant else env.resolved;
      var kind := if env.thread.Some? then Reply else if env.hubEnabled then Park else Ticket;
      (db'.effects != db.effects <==>
         env.filter == Pass && t.Some? && HoldersOf(db, id, InKey(t.value, db.rows[id].messageId)) == {}
         && env.systemUser && !env.raises && !(env.thread.Some? && env.bodyEmpty))
      && (db'.effects != db.effects ==>
            && db'.effects == db.effects + [Effect(id, kind)]
            && db'.rows[id].status == (match kind case Reply => ReplyAdded case Park => ParkedInHub case Ticket => TicketCreated)
            && db'.rows[id].ticket == (match kind case Reply => env.thread case Park => db.rows[id].ticket
                                       case Ticket => Some(env.newTicket))
            && db'.rows[id].key == Some(InKey(t.value, db.rows[id].messageId))
            && db'.contacts == db.contacts + {(t.value, db.rows[id].sender)})
  {}

  /** How every other attempt on an open, unfiltered row ends: it rolls back exactly when the system
      user is missing or a later step raises or the race for the key is lost, and is rejected, with
      no effect, for an unknown tenant, a known duplicate or an empty reply. */
  lemma OutcomeExactlyWhen(db: Db, id: RowId, env: Env)
    requires Valid(db) && id in db.rows && Open(db.rows[id].status) && env.filter == Pass
    ensures var t := if db.rows[id].tenant.Some? then db.rows[id].tenant else env.resolved;
      var held := t.Some? && exists other :: other in db.rows && other != id
                                && db.rows[other].key == Some(InKey(t.value, db.rows[id].messageId));
      && (Attempt(db, id, env).RolledBack? <==>
            t.Some? && ((held && !env.seesDuplicate) || (!held && (!env.systemUser || env.raises))))
      && (Attempt(db, id, env).Committed? ==>
            var db' := Attempt(db, id, env).db;
            && (db'.rows[id].status == Rejected <==>
                  t.None? || held || (env.thread.Some? && env.bodyEmpty))
            && (db'.rows[id].tenant == t) && db'.bounceLogs == db.bounceLogs && db'.bouncing == db.bouncing)
  {
    var t := if db.rows[id].tenant.Some? then db.rows[id].tenant else env.resolved;
    if t.Some? {
      var k := InKey(t.value, db.rows[id].messageId);
      assert forall other :: other in db.rows && other != id && db.rows[other].key == Some(k) ==> other in HoldersOf(db, id, k);
    }
  }

  /** A row whose key another row holds never has an effect: it is rejected when the duplicate check
      sees the holder, and when it does not the attempt rolls back, to be rejected on retry. */
  lemma DuplicatesAreNeverDelivered(db: Db, id: RowId, env: Env)
    requires Valid(db) && id in db.rows && Open(db.rows[id].status) && env.filter == Pass
    requires var t := if db.rows[id].tenant.Some? then db.rows[id].tenant else env.resolved;
             t.Some? && HoldersOf(db, id, InKey(t.value, db.rows[id].messageId)) != {}
    ensures Attempt(db, id, env).Committed? <==> env.seesDuplicate
    ensures var db' := Settle(db, Attempt(db, id, env));
      && db'.effects == db.effects && db'.contacts == db.contacts && db'.rows[id].key.None?
      && (env.seesDuplicate ==> db'.rows[id].status == Rejected)
      && (!env.seesDuplicate ==> db' == db)
  {}

  // ---------------------------------------------------------------- the task

  const MAX_RETRIES := 3

  // The attempts of one delivered task, from the given retry count on.
  function TaskFrom(db: Db, id: RowId, envs: seq<Env>, retries: nat): Db
    requires |envs| == MAX_RETRIES + 1 && retries <= MAX_RETRIES
    decreases MAX_RETRIES - retries
  {
    match Attempt(db, id, envs[retries])
    case Committed(db') => db'
    case RolledBack => if retries >= MAX_RETRIES then MarkFailed(db, id) else TaskFrom(db, id, envs, retries + 1)
  }

  lemma CommittedAttemptSettles(db: Db, id: RowId, env: Env)
    requires id in db.rows && Attempt(db, id, env).Committed?
    ensures var db' := Attempt(db, id, env).db;
      && id in db'.rows && !Open(db'.rows[id].status)
      && (Open(db.rows[id].status) ==> db'.rows[id].status != Failed)
  {}

  // All the attempts of an open row from this retry count on roll back.
  ghost predicate AllRollBack(db: Db, id: RowId, envs: seq<Env>, retries: nat)
    requires |envs| == MAX_RETRIES + 1
  {
    forall k :: retries <= k <= MAX_RETRIES ==> Attempt(db, id, envs[k]).RolledBack?
  }

  /** A delivered task always leaves its row settled; it is FAILED by the task exactly when all
      four attempts of an open row rolled back. */
  lemma {:induction false} TaskSettlesItsRow(db: Db, id: RowId, envs: seq<Env>, retries: nat)
    requires id in db.rows && |envs| == MAX_RETRIES + 1 && retries <= MAX_RETRIES
    ensures var db' := TaskFrom(db, id, envs, retries);
      && id in db'.rows && !Open(db'.rows[id].status)
      && (Open(db.rows[id].status) ==> (db'.rows[id].status == Failed <==> AllRollBack(db, id, envs, retries)))
    decreases MAX_RETRIES - retries
  {
    if Attempt(db, id, envs[retries]).Committed? {
      CommittedAttemptSettles(db, id, envs[retries]);
    } else if retries < MAX_RETRIES {
      TaskSettlesItsRow(db, id, envs, retries + 1);
    }
  }

  // What the pipeline computes for a row does not depend on the version of it still stored.
  lemma ClaimIgnoresStoredRow(db: Db, id: RowId, stored: Row, row: Row, t: TenantId, env: Env)
    requires id in db.rows
    ensures Claim(Put(db, id, stored), id, row, t, env) == Claim(db, id, row, t, env)
  {
    var db' := Put(db, id, stored);
    assert forall r :: Put(db', id, r).rows == Put(db, id, r).rows;
    assert HoldersOf(db', id, InKey(t, row.messageId)) == HoldersOf(db, id, InKey(t, row.messageId));
  }

  lemma PipeIgnoresStoredRow(db: Db, id: RowId, stored: Row, row: Row, env: Env)
    requires id in db.rows
    ensures Pipe(Put(db, id, stored), id, row, env) == Pipe(db, id, row, env)
  {
    var db' := Put(db, id, stored);
    assert forall r :: Put(db', id, r).rows == Put(db, id, r).rows;
    if row.tenant.Some? || env.resolved.Some? {
      var t := if row.tenant.Some? then row.tenant.value else env.resolved.value;
      ClaimIgnoresStoredRow(db, id, stored, row.(tenant := Some(t)), t, env);
    }
  }

  // ---------------------------------------------------------------- the tables

  class Pipeline {
    var rows: map<RowId, Row>
    var effects: seq<Effect>
    var contacts: set<(TenantId, string)>
    var bouncing: set<(TenantId, string)>
    var bounceLogs: seq<BounceLog>

    constructor ()
      ensures Valid(View()) && rows == map[] && effects == []
    {
      rows, effects, contacts, bouncing, bounceLogs := map[], [], {}, {}, [];
    }

    function View(): Db
      reads this
    {
      Db(rows, effects, contacts, bouncing, bounceLogs)
    }

    method SetStatus(id: RowId, status: Status)
      requires id in rows
      modifies this`rows
      ensures rows == old(rows)[id := old(rows)[id].(status := status)]
    {
      rows := rows[id := rows[id].(status := status)];
    }

    // Steps 3 to 6 inside the transaction; the result says whether an exception escaped.
    method Fulfil(id: RowId, t: TenantId, env: Env) returns (raised: bool)
      requires id in rows
      modifies this
      ensures raised <==> Deliver(old(View()), id, old(rows[id]), t, env).RolledBack?
      ensures !raised ==> View() == Deliver(old(View()), id, old(rows[id]), t, env).db
    {
      if !env.systemUser || env.raises {
        return true;
      }
      contacts := contacts + {(t, rows[id].sender)};
      if env.thread.Some? {
        if env.bodyEmpty {
          SetStatus(id, Rejected);
          return false;
        }
        rows := rows[id := rows[id].(ticket := env.thread)];
        SetStatus(id, ReplyAdded);
        effects := effects + [Effect(id, Reply)];
      } else if env.hubEnabled {
        SetStatus(id, ParkedInHub);
        effects := effects + [Effect(id, Park)];
      } else {
        rows := rows[id := rows[id].(ticket := Some(env.newTicket))];
        SetStatus(id, TicketCreated);
        effects := effects + [Effect(id, Ticket)];
      }
      return false;
    }

    method ClaimKey(id: RowId, t: TenantId, env: Env) returns (raised: bool)
      requires id in rows
      modifies this
      ensures raised <==> Claim(old(View()), id, old(rows[id]), t, env).RolledBack?
      ensures !raised ==> View() == Claim(old(View()), id, old(rows[id]), t, env).db
    {
      var k := InKey(t, rows[id].messageId);
      if HoldersOf(View(), id, k) != {} {
        if env.seesDuplicate {
          SetStatus(id, Rejected);
          return false;
        }
        return true;          // IntegrityError: the transaction can only roll back
      }
      rows := rows[id := rows[id].(key := Some(k))];
      raised := Fulfil(id, t, env);
    }

    method HandleBounce(id: RowId, env: Env)
      requires id in rows && env.filter == DropBounce
      modifies this`rows, this`bounceLogs, this`bouncing
      ensures Committed(View()) == Pipe(old(View()), id, old(rows[id]), env)
    {
      ghost var row := rows[id];
      SetStatus(id, Bounced);
      if rows[id].tenant.None? && env.resolved.Some? {
        rows := rows[id := rows[id].(tenant := env.resolved)];
      }
      var tenant := rows[id].tenant;
      assert rows == old(rows)[id := row.(status := Bounced, tenant := tenant)];
      var linked := LinkBounce(id, env);
      assert rows == old(rows)[id := row.(status := Bounced, tenant := tenant,
                                          ticket := if linked.Some? then linked else row.ticket)];
      var to := if env.failedRecipient == "" then rows[id].recipient else env.failedRecipient;
      bounceLogs := bounceLogs + [BounceLog(id, tenant, to, linked)];
      if tenant.Some? && to != "" && (tenant.value, to) in contacts {
        bouncing := bouncing + {(tenant.value, to)};
      }
    }

    // Best effort: the ticket of the thread, once the tenant is known.
    method LinkBounce(id: RowId, env: Env) returns (linked: Option<TicketId>)
      requires id in rows
      modifies this`rows
      ensures linked == if old(rows[id]).tenant.Some? then env.thread else None
      ensures rows == old(rows)[id := old(rows[id]).(ticket := if linked.Some? then linked else old(rows[id]).ticket)]
    {
      linked := None;
      if rows[id].tenant.Some? {
        linked := env.thread;
        if linked.Some? {
          rows := rows[id := rows[id].(ticket := linked)];
        }
      }
    }

    // The body of the try block.
    method RunSteps(id: RowId, env: Env) returns (raised: bool)
      requires id in rows
      modifies this
      ensures raised <==> Pipe(old(View()), id, old(rows[id]), env).RolledBack?
      ensures !raised ==> View() == Pipe(old(View()), id, old(rows[id]), env).db
    {
      if env.filter == DropBounce {
        HandleBounce(id, env);
        return false;
      } else if env.filter == DropOther {
        SetStatus(id, Rejected);
        return false;
      }
      if rows[id].tenant.None? {
        if env.resolved.None? {
          SetStatus(id, Rejected);
          return false;
        }
        ghost var unresolved := View();
        rows := rows[id := rows[id].(tenant := env.resolved)];
        ClaimIgnoresStoredRow(unresolved, id, rows[id], rows[id], env.resolved.value, env);
      }
      raised := ClaimKey(id, rows[id].tenant.value, env);
    }

    /** process_inbound_email: the steps update the row one by one, and an exception restores
        what the transaction started from. */
    method ProcessInboundEmail(id: RowId, env: Env) returns (raised: bool)
      requires Valid(View())
      modifies this
      ensures raised <==> Attempt(old(View()), id, env).RolledBack?
      ensures View() == Settle(old(View()), Attempt(old(View()), id, env))
    {
      if id !in rows {
        return true;
      }
      if !Open(rows[id].status) {
        return false;
      }
      var saved := View();
      SetStatus(id, Processing);
      PipeIgnoresStoredRow(saved, id, rows[id], rows[id], env);
      raised := RunSteps(id, env);
      if raised {
        rows, effects, contacts := saved.rows, saved.effects, saved.contacts;
        bouncing, bounceLogs := saved.bouncing, saved.bounceLogs;
      }
    }

    // The attempts of one delivered task.
    method RunTask(id: RowId, envs: seq<Env>)
      requires Valid(View()) && id in rows && |envs| == MAX_RETRIES + 1
      modifies this
      ensures View() == TaskFrom(old(View()), id, envs, 0)
    {
      var retries := 0;
      while true
        invariant retries <= MAX_RETRIES && View() == old(View())
        invariant TaskFrom(View(), id, envs, retries) == TaskFrom(View(), id, envs, 0)
        decreases MAX_RETRIES - retries
      {
        var raised := ProcessInboundEmail(id, envs[retries]);
        if !raised {
          return;
        }
        if retries >= MAX_RETRIES {
          SetStatus(id, Failed);
          return;
        }
        retries := retries + 1;
      }
    }

    /** process_inbound_email_task: up to MAX_RETRIES retries, then FAILED is written outside the
        transaction; either way the row is settled. */
    method ProcessTask(id: RowId, envs: seq<Env>)
      requires Valid(View()) && id in rows && |envs| == 4
      modifies this
      ensures View() == TaskFrom(old(View()), id, envs, 0)
      ensures Valid(View()) && id in rows && !Open(rows[id].status)
      ensures Open(old(rows[id].status)) ==>
        (rows[id].status == Failed <==> forall k :: 0 <= k < 4 ==> Attempt(old(View()), id, envs[k]).RolledBack?)
    {
      TaskSettlesItsRow(View(), id, envs, 0);
      TaskKeepsValid(View(), id, envs, 0);
      RunTask(id, envs);
    }
  }

  lemma {:induction false} TaskKeepsValid(db: Db, id: RowId, envs: seq<Env>, retries: nat)
    requires Valid(db) && id in db.rows && |envs| == MAX_RETRIES + 1 && retries <= MAX_RETRIES
    ensures Valid(TaskFrom(db, id, envs, retries))
    decreases MAX_RETRIES - retries
  {
    if Attempt(db, id, envs[retries]).RolledBack? {
      StepKeepsValid(db, GiveUp(id));
      if retries < MAX_RETRIES {
        TaskKeepsValid(db, id, envs, retries + 1);
      }
    } else {
      StepKeepsValid(db, Try(id, envs[retries]));
    }
  }
}
