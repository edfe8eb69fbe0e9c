# Verified model of the helpdesk core

A Dafny 4.11 model of the parts of the helpdesk in which state, retries and interleavings matter:
the Inbox Hub assignment engine and agent presence, the rotation of email tickets, the IMAP
poller, the inbound email pipeline, Stripe synchronisation, reminder alerts, the agent inbox,
routing rules, threading and text handling, and the custom-field index.
`dafny verify dfyconfig.toml` checks all of it.

## How it is organised

Code that updates rows is modelled twice. A `class` holds the tables and has one method per
service, with the branches, loops and order of writes of the source. Each method is proved equal
to a step function on an immutable snapshot (`View()`), and the step functions carry the theorems
about runs: every interleaving of steps, every crash point, every redelivery. Pure code is modelled
as functions, with lemmas about them.

| file | models |
|---|---|
| HubStateMachine, Presence | states of a Hub email; availability rows, the assignability gate, the reaper |
| Assignment, AssignmentRuns | `assign_to` and its neighbours as steps; theorems over all interleavings |
| Selection | the strategy chain and the choice of an agent |
| Drain | the backlog drain, alone and disturbed |
| Reaping | what the reaper changes over runs, up to and after a reconnect |
| Hub | the tables of one tenant and the services on them |
| Rotation, RoundRobin, EmailTickets | email tickets handed round the agents: the order and its rounds, why they repeat, and the tables behind them |
| ImapPoller | mailbox, watermark, crashes, duplicate rows |
| OverlappingPolls | several pollers at once on one watermark row and one table |
| InboundPipeline | one transaction per attempt, retries, idempotency keys |
| Billing | subscriptions, invoices, webhook replay markers |
| Reminders | one-shot alerts with a re-arm watermark |
| InboxWorkflow | link, action, ignore and hand-over under write-once stamps |
| Routing | match clauses, the ordered rule fold, persistence |
| Text, MessageIds, HeaderText, Threading, QuotedReply | string primitives; ids, headers, replies, quoting |
| ThemeMask | position-preserving masking in the theme checker |
| CustomFields | the typed index of custom field values |
| Options, Sets | small shared vocabulary |

## Where the code does not do what it says

Each of these is proved as an exact condition or a concrete run, in the members named.

- The reaper turns a stale ONLINE row into AWAY, and a heartbeat promotes only OFFLINE, keeping AWAY
  as a choice of the agent. So the reconnect that `handle_live_heartbeat` means to serve ("was
  stale-ONLINE, now fresh again") is served only if the reaper did not run in between; otherwise the
  agent stays unassignable until the status is changed by hand. Reaping is invisible to the engine
  up to the first heartbeat of an agent who was stale when reaped, and visible from then on
  (`Reaping.ReapingIsInvisibleUntilReconnect`, `ReconnectShowsTheReap`,
  `ReconnectAfterReapingIsNotServed`, `ReapedAgentStaysAway`).
- A mailbox first polled while empty (UIDNEXT 1) keeps `last_uid == 0`, is anchored a second time,
  and its first message is never ingested (`FirstMessageOfAnEmptyMailboxIsSkipped`,
  `SelectedMessageAttemptedIff`).
- A row whose ingest is cut off between creating it and queueing its processing task is stranded:
  fetching the message again meets the duplicate check, and nothing else in the poller queues it
  (`NewRowQueuedIff`, `ExistingRowsAreNeverQueued`, `RowOfACrashedPollIsStranded`).
- Polls take no lock, so polls that overlap can take the watermark back
  (`OverlappingPollsLowerTheWatermark`) and create two rows for one Message-ID, exactly when one
  creates its row between the other's check and CREATE (`OneRowPerMessageIdExactlyWhen`). They still
  never skip a message: what the watermark has passed was attempted (`OverlappingPollsSkipNothing`).
- `auto_assign_email_ticket` counts against the agent without a capacity check, so
  `max_concurrent_tickets` binds the engine and `auto_assign_ticket` only
  (`EmailTicketOvershootsExactlyWhenFull`, `CapacityIsKeptExceptForEmailTickets`).
- The routing engine's empty-match guard is meant to exclude catch-all rules;
  `{"subject_regex": ""}`, and a keyword list with the newline itself, are catch-alls
  (`CatchAllExactlyWhen`).
- The drain does not use the pool `try_assign` chooses from: it gives an email without a department
  to an agent who is neither in its queue's department nor, without one, an agent member
  (`DrainedOutsideThePoolExactlyWhen`, `DrainGivesAwayAnothersMail`).
- The engine resets `inbox_status` when it hands a message over. An email that was linked and not
  yet actioned can then never be linked again, because its link stamps are write-once, and it can be
  actioned only by a request whose copy was loaded before the hand-over
  (`HandOverStrandsExactlyLinkedMail`, `NotActionableForGood`, `OnlyTheOlderCopyActs`).
- The write-once guard of `InboundEmail.save` reads the stored row without a lock. Stamps are
  write-once, and emails linked and actioned at most once, if and only if no request writes the same
  stamps between another one's guard and its UPDATE; two agents who link at once both succeed and
  the second stamp replaces the first (`StampsNeverChange`, `ActionedAndLinkedAtMostOnce`,
  `OverlappingLinksBothCommit`).
- `complete` and `cancel` of a reminder test an unlocked copy and then write one column. No reminder
  is both completed and cancelled if and only if no such pair crosses (`LabelsPartition`,
  `CrossedRequestsCloseTwice`).
- A tick reads the due reminders first and claims them one by one later, unconditionally. A reminder
  completed or cancelled in between is still alerted, and only such a one
  (`AlertToClosedExactlyWhen`, `CompletedReminderIsAlerted`); two ticks that both read a reminder
  before either claims it alert it twice, and without such an overlap alerts interleave strictly
  (`OverlappingClaimsAlertTwice`, `OverlappingTicksAlertTwice`, `AlertsInterleaveStrictly`).
- `process_inbound_email` means to reject a row that loses the race for its idempotency key. The
  `IntegrityError` happens inside `@transaction.atomic`, so the transaction can only roll back; the
  row is rejected by a later attempt (`DuplicatesAreNeverDelivered`).
- A created or updated Stripe event whose plan or tenant cannot be resolved is acknowledged and
  marked as processed without any write. It is then lost: every redelivery inside the marker
  lifetime is skipped, even after the plan has been configured (`HandledWithoutRowExactlyWhen`,
  `RedeliveriesAreSkipped`, `CheckoutBeforePlanIsLost`). An invoice event that arrives before its
  subscription is lost in the same way (`HandledWithoutInvoiceExactlyWhen`,
  `InvoiceBeforeSubscriptionIsLost`).
- A sync meets a unique constraint when its id belongs to one tenant's row and its metadata names
  another tenant that has a row (`SyncRaisesExactlyWhen`).
- The number column of the custom-field index is numeric(20,6), which the validator does not know.
  `sync_custom_field_values` raises in the middle of its loop, leaving the rows half written, exactly
  when an indexed number parses but does not fit (too large, infinite, not a number) or an indexed
  date string names an impossible date; `display_value` is the encoded number exactly when that has
  at most six decimals (`Index.Sync`, `AcceptedButNotStorableWhen`, `OversizedAndNaNAreAccepted`,
  `NumberShownExactlyWhen`). The validator itself lets an exception escape on an impossible date, and
  on not-a-number in a field with bounds (`EscapesExactlyWhen`).
- `reschedule` is refused for completed reminders but accepted for cancelled ones (`Table.MoveTo`),
  and a bulk action that lists a visible reminder twice is refused as not found
  (`Table.BulkAction`).

## Conventions

- Each step reads the clock once. Working hours are the set of agents inside their hours at that
  moment. Timestamps are integers.
- One `Hub.Tables` object is one tenant, as every query there is filtered by tenant; the reaper's
  sweep over all tenants is the same step on each of them.
- `Moved` in `AssignmentRuns` is any other service that changes state through `assert_transition`,
  applied to the current row. `transition_hub_email` (apps/inbox_hub/services.py:303-311) asserts on
  an unlocked copy, so for those services `HistoriesAreLegal` assumes that nothing commits between
  the assertion and the save; the engine re-checks under the row lock and needs no such assumption.
- Atomic steps are: a reaper sweep, a heartbeat's read and update of its row, the body of `assign_to`, one attempt of the pipeline (it holds the row lock; the key race is
  modelled), one webhook delivery, one custom-field sync. In the drain every email is a step of its
  own, and `DisturbedDrain` lets other steps commit in between. Inbox saves, single reminder
  requests and the claims of a reminder tick are not atomic: they decide on a copy read earlier.
- Reminders are never deleted. Runs of a reminder table record for every step the version of the
  table it had read.
- The database rounds a number to a nearest multiple of 0.000001, ties in either direction.
- User ids are numbered in the order of their printed form, which the source uses as tie-break.
- The unique constraints are modelled where they can fire: a violating write raises.
- Regular expressions are arbitrary functions: a test for the quote delimiters and subject rules,
  ordered disjoint spans for the theme checker. Library conversions (`str`, `Decimal`,
  `parse_datetime`) are parameters too.
- Text is ASCII as far as whitespace and lower-casing are concerned.

## Model

| member | source | states |
|---|---|---|
| HubStateMachine.WorkedMailReturnsToNewOnlyThroughEscalation | apps/inbox_hub/state_machine.py:15-51 | every legal history that takes a worked email back to NEW goes through ESCALATED and later ASSIGNED |
| HubStateMachine.TerminalExactlyWhenNoWayOut | apps/inbox_hub/state_machine.py:15-44 | CONVERTED and DISMISSED are exactly the states without an exit; all others can be dismissed or converted in one step |
| HubStateMachine.EnteredFrom | apps/inbox_hub/state_machine.py:15-44 | the transition table read by target: for each state exactly the states it can be entered from |
| HubStateMachine.ActiveUnlessSettled | apps/inbox_hub/assignment.py:47-54 | the active states are all but RESOLVED, CONVERTED and DISMISSED |
| Presence.AssignableExactlyWhen | apps/agents/models.py:196-232 | assignable iff ONLINE, below the maximum, with a heartbeat no older than the TTL, and in working hours where the agent asks for that |
| Presence.ReapingKeepsCurrentAssignability | apps/agents/tasks.py:33-48 | on the rows as they stand reaping changes no one's assignability, at whatever later clock; an ONLINE row is reaped iff its heartbeat is not fresh; reaping twice is reaping once |
| Reaping.ReapingIsInvisibleUntilReconnect | apps/agents/tasks.py:33-48 | over every run without a heartbeat of, or an `auto_assign_ticket` to, an agent stale when reaped: the runs with and without the reaper have the same emails, audit rows and counters and the same assignable agents |
| Reaping.ReconnectShowsTheReap | apps/agents/presence.py:57-69 | after such a run, a heartbeat of v leaves the two runs different in the assignability of exactly v, and only if v was stale when reaped |
| Reaping.ReapedThenTouched | apps/agents/presence.py:57-69 | reaped, then back: assignable iff assignable without the reaper and not stale when it ran |
| Reaping.ReapedAgentStaysAway | apps/agents/presence.py:57-69 | no run of heartbeats, reaps and assignments brings a reaped agent back |
| Reaping.BusyAgentStaysBusy | apps/agents/presence.py:57-69 | over every run a BUSY agent stays BUSY, heartbeats included, and takes no engine assignment |
| Reaping.ReapingStopsTicketsToStaleAgents | apps/agents/services.py:131-137 | for `auto_assign_ticket`, which tests no freshness, reaping removes exactly the stale agents |
| Reaping.ReconnectAfterReapingIsNotServed | apps/agents/presence.py:102-107 | the concrete reconnect at 101 that is served without, and not served after, a reap at 100 |
| AssignmentRuns.HistoriesAreLegal | apps/inbox_hub/state_machine.py:47-59 | over every interleaving no email row disappears and each email follows a legal history |
| AssignmentRuns.OneAssignmentPerStayInNew | apps/inbox_hub/assignment.py:102-121 | between two engine assignments of one email some other service moved it back to NEW |
| AssignmentRuns.TakesExactlyWhen | apps/inbox_hub/assignment.py:102-121 | the engine takes an email iff it is unassigned in NEW and the agent's columns pass the gate |
| AssignmentRuns.EngineStepPassesTheGate | apps/inbox_hub/assignment.py:102-154 | an engine step picks an ONLINE agent with a fresh heartbeat inside their working hours, stays within capacity, appends one audit row naming both, updates the inbox copy and the counter, and touches no other column, email or agent |
| AssignmentRuns.CapacityIsKeptExceptForEmailTickets | apps/agents/services.py:123-153 | over every run an agent exceeds capacity by at most the number of email tickets counted to them |
| AssignmentRuns.EmailTicketOvershootsExactlyWhenFull | apps/agents/services.py:300-308 | counting an email ticket exceeds capacity iff the agent had none left |
| AssignmentRuns.CountsFollowTheAuditTrail | apps/inbox_hub/assignment.py:140-154 | over every run the rise of an agent's counter is the number of audit rows naming them |
| AssignmentRuns.Conservation | apps/inbox_hub/assignment.py:89-170 | over every run of arrivals, assignments, heartbeats and reaps: total rise of counters = audit rows appended = emails that left NEW |
| Selection.BestChoiceIsUnique | apps/inbox_hub/assignment.py:276-303 | at most one answer satisfies the specification of the choice, so row order is irrelevant |
| Selection.ChoiceIgnoresRedundantTokens | apps/inbox_hub/assignment.py:286-317 | deleting unknown and repeated strategy tokens never changes who is chosen |
| Selection.InsertSorted | apps/inbox_hub/assignment.py:286-303 | keeps the candidate list sorted by the strategy key and adds exactly one candidate |
| Selection.BestIsPreferred | apps/inbox_hub/assignment.py:252-303 | for every chain the least sort key is the agent the chain prefers among those who may get the email: by free capacity, active emails plus tickets, newest audit row, in the order of the tokens, then by id |
| Selection.DefaultChoice | apps/inbox_hub/assignment.py:286-317 | with the default chain nobody has more free capacity than the chosen agent; of those equal nobody carries less; of those nobody was assigned longer ago; of those the smallest id |
| Selection.DefaultChain | apps/inbox_hub/assignment.py:306-317 | an email without a queue strategy gets availability_aware, least_loaded, round_robin |
| Selection.ChainOfCode | apps/inbox_hub/assignment.py:306-317 | a strategy code is read as its tokens in order |
| Selection.SelectAgent | apps/inbox_hub/assignment.py:252-317 | returns None iff nobody may get the email, else the agent preferred to all others who may |
| Drain.HeldEmails | apps/inbox_hub/assignment.py:191-206 | the oldest eligible held emails, oldest first, exactly min(limit, backlog) of them |
| Drain.DrainIsMaximalAndFifo | apps/inbox_hub/assignment.py:173-217 | an undisturbed drain assigns exactly min(remaining capacity, backlog) emails, the oldest, only to this agent, and leaves the agent full or the backlog empty |
| Drain.DisturbedDrainStaysWithinCapacity | apps/inbox_hub/assignment.py:173-217 | whatever commits in between, a drain of the queried emails assigns at most the remaining capacity it started from, and the agent ends within max_concurrent_tickets but for email tickets |
| Drain.BacklogExactlyWhen | apps/inbox_hub/assignment.py:191-206 | the backlog of an agent is the unassigned emails in NEW of their departments or of none |
| Drain.DrainedOutsideThePoolExactlyWhen | apps/inbox_hub/assignment.py:191-249 | an eligible held email goes outside the pool of `try_assign` iff it has no department and the agent is neither in its queue's department nor, without one, an agent member |
| Drain.DrainGivesAwayAnothersMail | apps/inbox_hub/assignment.py:191-249 | the case: mail queued for a department is drained to an agent not in it |
| Hub.Tables.AssignEmail | apps/inbox_hub/assignment.py:89-170 | refines the assignment step on email, inbox copy, audit and counter; refuses exactly when the lock-and-recheck gate fails |
| Hub.Tables.TryAssign | apps/inbox_hub/assignment.py:64-86 | the email goes to the agent its chain prefers; nothing changes iff it is not held or nobody may get it |
| Hub.Tables.DrainBacklog | apps/inbox_hub/assignment.py:173-217 | the loop refines the drain of the oldest held emails and returns their number; no effect when switched off or the agent is not assignable |
| Hub.Tables.TouchPresence | apps/agents/presence.py:32-69 | stamps both times; promotes OFFLINE to ONLINE and keeps every other status and every other column; creates a row with 10 and 0; reports a change iff the stored status changed |
| Hub.Tables.HandleLiveHeartbeat | apps/agents/presence.py:72-111 | a connect or a promotion leaves an assignable agent full or without eligible held mail, having taken min(capacity, backlog); other heartbeats only stamp |
| Hub.Tables.ReapStalePresence | apps/agents/tasks.py:22-63 | the loop flips exactly the stale ONLINE rows and returns their number |
| Hub.Tables.GetAvailableAgent | apps/agents/services.py:24-57 | the queue's default assignee if available, else one with the fewest tickets among the available; None iff there are none |
| Hub.Tables.AutoAssignTicket | apps/agents/services.py:98-174 | an available agent within capacity becomes the ticket's assignee, with counter and audit row, or nothing changes because none is available |
| Rotation.SpreadNeverGrows | apps/agents/services.py:221-252 | with a fixed eligible set and nothing closing, the spread of open counts never exceeds max(1, initial spread) |
| RoundRobin.PicksRepeat | apps/agents/services.py:221-252 | from equal counts, pick k+n goes to the agent of pick k, whatever order the first ties fell in |
| RoundRobin.EveryWindowCoversAll | apps/agents/services.py:221-252 | from equal counts, every n consecutive picks cover all n agents exactly once |
| EmailTickets.AssigningIsGiven | apps/agents/services.py:288-298 | writing assignee and audit row is exactly one step of the abstract rotation on the annotated loads |
| EmailTickets.ClosingLowersTheLoad | apps/agents/services.py:231-239 | closing or deleting an open ticket lowers the load of its assignee by one and nobody else's |
| EmailTickets.ClosedTicketsDoNotCount | apps/agents/services.py:231-239 | a ticket that is not open counts for nobody, whoever it is assigned to |
| EmailTickets.LeastLoadMeans | apps/agents/services.py:221-252 | the query may return an agent iff nobody eligible has fewer open tickets and nobody with as many was assigned earlier |
| EmailTickets.TicketDesk.PickEmailAgent | apps/agents/services.py:182-252 | returns an agent member that is not offline, with the fewest tickets both assigned and open, and among those never assigned or assigned the longest ago; None iff all are offline |
| EmailTickets.TicketDesk.AutoAssignEmailTicket | apps/agents/services.py:255-314 | assigns only an unassigned ticket, to an agent the query may return, with ticket, audit row and counter updated together |
| ImapPoller.WatermarkIsSafe | apps/inbound_email/imap_poller.py:101-172 | over every run of one poller in an epoch from a positive watermark: it never falls, stays below UIDNEXT, nothing at or below it is fetched, fetches ascend, and all it passed was fetched |
| ImapPoller.CompletedPollMissesNothing | apps/inbound_email/imap_poller.py:127-172 | after a completed poll every message above the old watermark has been attempted, whatever failed, raised or crashed before |
| ImapPoller.SelectedMessageAttemptedIff | apps/inbound_email/imap_poller.py:103-125 | a completed poll attempts a message present at SELECT above the recorded watermark iff a positive watermark of this epoch was recorded |
| ImapPoller.FirstMessageOfAnEmptyMailboxIsSkipped | apps/inbound_email/imap_poller.py:116-121 | the run in which a mailbox first seen at UIDNEXT 1 loses its first message |
| ImapPoller.OneRowPerMessageId | apps/inbound_email/imap_poller.py:332-387 | over every run of one poller with crashes and resets, at most one InboundEmail per tenant and Message-ID |
| ImapPoller.ReingestDuplicatesIffNoMessageId | apps/inbound_email/imap_poller.py:332-368 | fetching a message again after its row was created adds a row iff it carries no Message-ID |
| ImapPoller.RowCreatedExactlyWhen | apps/inbound_email/imap_poller.py:311-387 | a fetched message gets a row iff it is readable, nothing raises before, and it has no Message-ID or its tenant has no row under that id; the row records tenant and id |
| ImapPoller.NewRowQueuedIff | apps/inbound_email/imap_poller.py:370-400 | a new row's task is queued by its own ingest iff nothing fails after the row exists |
| ImapPoller.ExistingRowsAreNeverQueued | apps/inbound_email/imap_poller.py:332-400 | over every run no later poll queues a row that exists already |
| ImapPoller.RowOfACrashedPollIsStranded | apps/inbound_email/imap_poller.py:332-400 | the concrete run: a crash after the row, then a clean poll that meets the duplicate |
| ImapPoller.Poller.LoadState | apps/inbound_email/imap_poller.py:187-202 | keeps the watermark of the same UIDVALIDITY, else starts at zero |
| ImapPoller.Poller.SearchNew | apps/inbound_email/imap_poller.py:127-146 | SEARCH `N:*`, the client-side filter and the numeric sort give exactly the UIDs above the watermark, ascending |
| ImapPoller.Poller.IngestOne | apps/inbound_email/imap_poller.py:311-409 | one fetch; row, flag and queued task as far as the steps get; nothing but the flag for a duplicate; the result says whether ingestion succeeded |
| ImapPoller.Poller.IngestBatch | apps/inbound_email/imap_poller.py:157-174 | the loop refines the protocol for every crash point: a failing message is passed over and the watermark saved after each |
| ImapPoller.Poller.PollMailbox | apps/inbound_email/imap_poller.py:59-174 | poll_once refines the protocol step on state, rows and fetches |
| OverlappingPolls.OverlappingPollsSkipNothing | apps/inbound_email/imap_poller.py:101-172 | with any number of pollers overlapping, crashing and overwriting the watermark: whatever the saved watermark has passed was attempted, and it stays between its start and UIDNEXT |
| OverlappingPolls.FinishedPollMissesNothing | apps/inbound_email/imap_poller.py:127-172 | a poll that ends its batch leaves every message of its SEARCH attempted, by itself or another |
| OverlappingPolls.AloneNeverLowers | apps/inbound_email/imap_poller.py:167-172 | a poll lowers the watermark only if another has saved since it loaded |
| OverlappingPolls.OverlappingPollsLowerTheWatermark | apps/inbound_email/imap_poller.py:167-172 | the concrete run in which the watermark goes from 3 to 2 |
| OverlappingPolls.OneRowPerMessageIdExactlyWhen | apps/inbound_email/imap_poller.py:356-387 | with any number of pollers the table is free of duplicates iff none creates a row between the exists() check and the CREATE of another for the same message |
| InboundPipeline.RunsKeepValid | apps/inbound_email/services.py:259-392 | over every interleaving, claimed keys are unique and never released, rows never reopened, effects and contacts never undone |
| InboundPipeline.AtMostOnceEffect | apps/inbound_email/services.py:323-366 | no two effects of any run belong to rows with the same tenant and message_id |
| InboundPipeline.FilteredMailLeavesNoTrace | apps/inbound_email/services.py:295-305 | one filtered attempt has no effect, contact or key; REJECTED, or BOUNCED with one log of the failed address (the recipient when none is named), its tenant and ticket, and exactly that address's contact flagged |
| InboundPipeline.ProcessedExactlyWhen | apps/inbound_email/services.py:281-295 | only PENDING and PROCESSING rows are processed, and a committed attempt settles them |
| InboundPipeline.FilteredForGood | apps/inbound_email/services.py:295-305 | over every run, a row whose every attempt is filtered never gets an effect or a key and none of its attempts creates a contact |
| InboundPipeline.EffectExactlyWhen | apps/inbound_email/services.py:307-366 | the exact condition for an effect, its kind, and the status, ticket, key and contact stored with it |
| InboundPipeline.OutcomeExactlyWhen | apps/inbound_email/services.py:307-377 | when an attempt on unfiltered mail rolls back, and when it ends REJECTED |
| InboundPipeline.DuplicatesAreNeverDelivered | apps/inbound_email/services.py:323-342 | a row whose key is held elsewhere has no effect: rejected when the check sees the holder, else rolled back |
| InboundPipeline.TaskSettlesItsRow | apps/inbound_email/tasks.py:36-65 | a task always settles its row; an open row ends FAILED iff all remaining attempts rolled back |
| InboundPipeline.Pipeline.ProcessInboundEmail | apps/inbound_email/services.py:259-377 | the stepwise updates commit exactly as specified and an exception restores the starting state |
| InboundPipeline.Pipeline.ClaimKey | apps/inbound_email/services.py:323-342 | refines the check-then-claim of the idempotency key including the lost race |
| InboundPipeline.Pipeline.Fulfil | apps/inbound_email/services.py:344-366 | refines contact, threading and the Hub switch |
| InboundPipeline.Pipeline.HandleBounce | apps/inbound_email/services.py:697-763 | BOUNCED, best-effort tenant and ticket, one log with the failed address, an existing contact of that address flagged |
| InboundPipeline.Pipeline.ProcessTask | apps/inbound_email/tasks.py:36-65 | the retry loop refines the sequence of attempts and leaves the row settled, FAILED iff all four attempts rolled back |
| Billing.SyncRaisesExactlyWhen | apps/billing/webhooks.py:123-163 | with no assumption on metadata, a sync violates a unique key iff its id belongs to another tenant's row while the metadata tenant has its own |
| Billing.RunsKeepKeys | apps/billing/webhooks.py:103-174 | over every run with consistent metadata: one row per tenant and per id, no uniqueness violation, rows keep identity and tenant, invoices stay attached |
| Billing.SyncIsIdempotent | apps/billing/webhooks.py:32-174 | synchronising twice is synchronising once |
| Billing.SyncedRowMirrorsStripe | apps/billing/webhooks.py:91-163 | a sync with plan and tenant leaves exactly one row under the id, and each column says what the event says |
| Billing.UpdateWithoutMetadataMirrors | apps/billing/webhooks.py:105-163 | an update without metadata refreshes the row it finds, keeping its tenant |
| Billing.LocalStatusSays | apps/billing/webhooks.py:76-88 | which Stripe statuses each local status stands for, unknown ones being INCOMPLETE |
| Billing.PlanOfItem | apps/billing/webhooks.py:40-74 | the plan is the first with that monthly price, else the first with that yearly price, else the first with that product |
| Billing.SyncedInvoiceMirrorsStripe | apps/billing/webhooks.py:219-258 | an invoice's amount times 100 is the cents sent and each other column is the event's or its default |
| Billing.ResubscribeRepointsTheRow | apps/billing/webhooks.py:143-158 | re-subscribing keeps row and invoices, and a late delete of the replaced id changes nothing |
| Billing.DeleteCancelsOnlyItsRow | apps/billing/webhooks.py:189-204 | a delete cancels exactly the row carrying the id |
| Billing.TablesAreFirstSuccesses | apps/billing/webhooks.py:305-329 | inside the marker lifetime, for any deliveries with redeliveries, failures and missing ids: the tables are those of applying only the first successful delivery of each id, by a reference that knows no markers, and the markers are exactly the ids delivered |
| Billing.KeptSucceedOncePerId | apps/billing/webhooks.py:305-329 | what that reference keeps has no id twice and each delivery in it succeeds on the tables left by those before |
| Billing.HandledWithoutRowExactlyWhen | apps/billing/webhooks.py:59-141 | an acknowledged created or updated event leaves no row under its id iff there was none and plan or tenant could not be resolved; it is marked all the same |
| Billing.HandledWithoutInvoiceExactlyWhen | apps/billing/webhooks.py:219-258 | an acknowledged invoice event leaves no invoice iff there was none and its subscription is missing or unknown; it is marked all the same |
| Billing.InvoiceBeforeSubscriptionIsLost | apps/billing/webhooks.py:219-233 | an invoice delivered before its subscription is skipped when delivered again after it |
| Billing.RedeliveriesAreSkipped | apps/billing/webhooks.py:305-323 | whatever is configured afterwards, every redelivery of a handled event inside the lifetime is skipped |
| Billing.CheckoutBeforePlanIsLost | apps/billing/webhooks.py:68-74 | the concrete event that is acknowledged before its plan exists and skipped for seven days afterwards |
| Billing.SkippedExactlyAfterSuccess | apps/billing/webhooks.py:305-329 | inside the marker lifetime a delivery is skipped iff an earlier one of its id was handled, and handled iff it is the first that succeeds |
| Billing.Tables.SyncSubscription | apps/billing/webhooks.py:32-174 | refines the sync step, leaving one row that mirrors the event column by column; raises without a write exactly when a unique key would break |
| Billing.Tables.SubscriptionDeleted | apps/billing/webhooks.py:189-204 | refines the cancel step |
| Billing.Tables.SaveInvoice | apps/billing/webhooks.py:219-258 | refines the invoice upsert with all its columns and defaults; raises on missing NOT NULL periods |
| Billing.Tables.Webhook | apps/billing/webhooks.py:280-329 | marker check, dispatch, and marker only after success |
| Reminders.AlertsInterleaveStrictly | apps/crm/tasks.py:65-104 | over every run in which reads and claims are separate steps and no two claims of a reminder overlap, its alerts satisfy s1 <= n1 < s2 <= n2, with failing notifications and stale copies |
| Reminders.OverlappingClaimsAlertTwice | apps/crm/tasks.py:65-104 | two overlapping claims that read the same schedule always break that order |
| Reminders.OverlappingTicksAlertTwice | apps/crm/tasks.py:65-104 | the concrete run of two ticks |
| Reminders.ClaimTakesExactlyTheArmed | apps/crm/tasks.py:65-104 | a claim takes exactly a reminder live, due and armed when read, alerts it unless the notification fails, and leaves it armed iff it has meanwhile been rescheduled past the tick |
| Reminders.AlertToClosedExactlyWhen | apps/crm/tasks.py:68-104 | a claim hits a closed reminder iff the completion or cancellation was written between the tick's read and the claim |
| Reminders.CompletedReminderIsAlerted | apps/crm/tasks.py:68-104 | the concrete run |
| Reminders.NoAlertOnceClosed | apps/crm/tasks.py:68-86 | a reminder closed at some moment is never claimed by a tick that reads it afterwards |
| Reminders.LabelsPartition | apps/crm/models.py:213-233 | the labels partition all reminders and agree with the queryset filters at every moment iff no completion falls between test and write of a cancellation, or the other way round; always if those requests are atomic |
| Reminders.CrossedRequestsCloseTwice | apps/crm/views.py:593-644 | the concrete run that leaves a reminder completed and cancelled |
| Reminders.Table.FireDueReminders | apps/crm/tasks.py:34-160 | whatever others commit between reads and claims: every active tenant is read once, exactly the rows due in that reading are claimed, once each, on the copies read, and the notifications that went out are counted |
| Reminders.Table.FireTenant | apps/crm/tasks.py:65-104 | the inner loop: one reading, one claim per due row, other transactions before each |
| Reminders.Table.MarkComplete | apps/crm/views.py:593-617 | completes exactly a reminder that was live when read, writing that column only; else refuses |
| Reminders.Table.MarkCancelled | apps/crm/views.py:620-644 | cancels exactly a reminder that was live when read, writing that column only; else refuses |
| Reminders.Table.MoveTo | apps/crm/views.py:647-680 | reschedules exactly a reminder that was not completed when read |
| Reminders.DueRowsExactlyWhen | apps/crm/tasks.py:65-86 | the due query in terms of the columns |
| Reminders.Table.BulkAction | apps/crm/views.py:683-760 | nothing unless all ids are visible and listed once and a new assignee is a member; then every listed reminder changes in the one column the action is about where its state permits, and is counted |
| InboxWorkflow.StampsNeverChange | apps/inbound_email/models.py:242-257 | in any run on stale copies and across engine resets, link and action stamps never change once set iff no successful request writes them between another's unlocked guard and its UPDATE |
| InboxWorkflow.RequestsStoreExactly | apps/inbound_email/inbox_services.py:32-233 | what each request needs and the whole row it leaves |
| InboxWorkflow.OtherColumnsSurvive | apps/inbound_email/models.py:242-257 | a save on a stale copy writes its own columns and leaves what others wrote to the rest |
| InboxWorkflow.ActionedAndLinkedAtMostOnce | apps/inbound_email/inbox_services.py:32-181 | an email is linked and actioned at most once in a run iff no two such requests overlap between guard and UPDATE; always if saves are atomic |
| InboxWorkflow.OverlappingLinksBothCommit | apps/inbound_email/models.py:242-257 | the concrete run in which two links succeed and the second stamp replaces the first |
| InboxWorkflow.NotActionableForGood | apps/inbound_email/inbox_services.py:116-181 | mail that is not actionable never becomes so again, and only an action whose copy was loaded before it became so can still succeed |
| InboxWorkflow.OnlyTheOlderCopyActs | apps/inbound_email/inbox_services.py:116-181 | around a hand-over, an action on the copy loaded before it succeeds and one on the copy loaded after it does not |
| InboxWorkflow.ActionableWithinTwoRequests | apps/inbound_email/inbox_services.py:32-181 | actionable mail can be actioned by at most two more requests |
| InboxWorkflow.HandOverStrandsExactlyLinkedMail | apps/inbox_hub/assignment.py:131-138 | a hand-over makes an email unactionable iff it was linked and not yet actioned |
| InboxWorkflow.EmailRow.Save | apps/inbound_email/models.py:242-257 | the guard refuses exactly a copy that would change a stamp it read; the UPDATE writes only the named columns of the row as others have left it meanwhile |
| InboxWorkflow.EmailRow.LinkToTicket | apps/inbound_email/inbox_services.py:32-71 | refines the link request on a possibly stale copy |
| InboxWorkflow.EmailRow.ActionEmail | apps/inbound_email/inbox_services.py:103-181 | refines the action request; any failure leaves the row unchanged |
| InboxWorkflow.EmailRow.IgnoreEmail | apps/inbound_email/inbox_services.py:213-233 | refines the ignore request |
| InboxWorkflow.EmailRow.HandOverTo | apps/inbox_hub/assignment.py:131-138 | refines the engine's hand-over |
| Routing.KeysNarrowValuesWiden | apps/inbox_hub/routing.py:50-86 | on a non-empty match an added key never widens and an added value never narrows |
| Routing.SenderClauseExactlyWhen | apps/inbox_hub/routing.py:60-70 | a sender name@dom is accepted iff dom is a listed domain or a subdomain of one, in any case and with leading @ ignored |
| Routing.LookalikeDomainIsRefused | apps/inbox_hub/routing.py:62-67 | a domain that merely ends in the listed one is refused |
| Routing.RecipientClauseExactlyWhen | apps/inbox_hub/routing.py:71-74 | a recipient loc@dom is accepted iff loc is listed, in any case |
| Routing.KeywordClauseExactlyWhen | apps/inbox_hub/routing.py:75-78 | accepted iff a listed non-empty keyword stands in the subject, the body or across the newline between, in any case |
| Routing.UnknownKeysMatchAll | apps/inbox_hub/routing.py:52-54 | a match without keys never matches, one of unknown keys only matches everything |
| Routing.CatchAllExactlyWhen | apps/inbox_hub/routing.py:50-86 | the exact condition under which a match accepts every email |
| Routing.EvaluationIsLastSet | apps/inbox_hub/routing.py:129-148 | each field is the last non-empty value among matching rules up to and including the first matching stop rule |
| Routing.IrrelevantRules | apps/inbox_hub/routing.py:129-148 | non-matching rules and rules after a matching stop rule change nothing |
| Routing.DefaultsOnlyFillGaps | apps/inbox_hub/routing.py:148-175 | the default department is the tenant's active default, else the only active one; the default queue is the department's; decided fields are kept |
| Routing.Router.Evaluate | apps/inbox_hub/routing.py:106-164 | the loop with its mutable locals refines the fold with defaults |
| Routing.Router.Apply | apps/inbox_hub/routing.py:177-199 | decided fields are stored, others kept, the columns that changed reported, at most one write |
| Routing.Router.ClassifyAndRoute | apps/inbox_hub/routing.py:92-104 | the row agrees with the decision afterwards; a row that already agrees is not written |
| Routing.RouteTwice | apps/inbox_hub/routing.py:92-104 | two runs in a row make the same decision, store what one run stores and write at most once, not at all if the row already agrees |
| QuotedReply.StripQuotedReply | apps/inbound_email/utils.py:119-158 | the loop with break and continue refines the recursive specification |
| QuotedReply.QuotedExactlyWhen | apps/inbound_email/utils.py:139-143 | a line is quoted iff its first character other than white space is ">" |
| QuotedReply.KeptIsSelection | apps/inbound_email/utils.py:141-156 | the kept lines are the in-order selection of the unquoted lines before the first delimiter |
| QuotedReply.OutputLinesAreKeptLines | apps/inbound_email/utils.py:141-158 | each output line is the kept line of its place up to trailing whitespace, neither quoted nor a delimiter; the rest was blank |
| QuotedReply.StrippingIsIdempotent | apps/inbound_email/utils.py:119-158 | stripping twice is stripping once, for any delimiter test |
| MessageIds.NormalizeStripsPadding | apps/inbound_email/utils.py:15-27 | whitespace and brackets around a clean id are removed exactly |
| MessageIds.ReferencesRoundTrip | apps/inbound_email/utils.py:30-42 | normalising the printed References gives back the id chain (section 3.6.4 of RFC 5322) |
| HeaderText.ExtractReadsRendered | apps/inbound_email/utils.py:50-70 | extract_header on rendered headers returns the normalised first value of that name in any case, or "" |
| HeaderText.UnfoldUndoesFolding | apps/inbound_email/utils.py:50-70 | however a value is folded, with a fold of its own kind at each break, unfolding joins its pieces with one blank (section 2.2.3 of RFC 5322) |
| Threading.ReplyFindsItsTicket | apps/inbound_email/threading.py:31-114 | a reply to any stored email of a ticket is matched by In-Reply-To; where that matches nothing, by the printed chain in References with any unmatched ids appended, also after later rows |
| Threading.TicketFoundExactly | apps/inbound_email/threading.py:31-144 | the ticket of the newest row In-Reply-To names; else of the most recent reference any row answers to; else the one of the number in the subject; else none |
| Threading.HistoryQuery | apps/inbound_email/threading.py:187-195 | selects the newest rows of the thread: at most the limit, in order, and any row left out is older than all of them |
| Threading.NewestIsUnique | apps/inbound_email/threading.py:187-195 | there is only one such selection |
| Threading.BuildThreadHeaders | apps/inbound_email/threading.py:167-207 | In-Reply-To names the newest id of the thread; the References read back as the newest ten ids, oldest first, ending in that id; neither header without history |
| ThemeMask.MaskingKeepsPositions | scripts/check_theme.py:85-134 | the whole composition keeps length and newlines and only turns characters into blanks |
| ThemeMask.MasksExactlyTheProtected | scripts/check_theme.py:90-134 | per file type, a character is blanked iff it lies in an HTML entity or in a region that this type protects |
| ThemeMask.NewlinesAreCounted | scripts/check_theme.py:137-147 | the line of a hit counts the line breaks before it |
| ThemeMask.EntitiesStayInvisible | scripts/check_theme.py:103-105 | no character of an HTML entity survives to be scanned, whatever later passes do |
| ThemeMask.HitIsVerbatim | scripts/check_theme.py:137-147 | a hit found in the masked text stands verbatim in the source at its position and line |
| ThemeMask.ScanFile | scripts/check_theme.py:137-147 | one hit per visible literal, in order, each verbatim in the source on the reported line |
| CustomFields.EncodesExactlyTheStorable | apps/custom_fields/services.py:168-224 | indexing a value raises iff it is a number that parses but does not fit the column, or a date string that names no date |
| CustomFields.OneColumnAndItIsShown | apps/custom_fields/models.py:177-188 | a written row fills exactly one typed column, none for null, and display_value shows it, numbers rounded to six places |
| CustomFields.NumberShownExactlyWhen | apps/custom_fields/models.py:136-142 | display_value equals the encoded number iff it has at most six decimals |
| CustomFields.FitsExactlyWhen | apps/custom_fields/models.py:136-142 | a number of at most six decimals fits the column iff it is below 10^14 in absolute value |
| CustomFields.AcceptsExactlyWhen | apps/custom_fields/validators.py:31-217 | what each field type accepts, with its limits, bounds and options |
| CustomFields.ValidatedValuesAreTyped | apps/custom_fields/validators.py:31-67 | validated non-empty numbers and checkboxes go to their own column or nowhere, never to the text column |
| CustomFields.AcceptedButNotStorableWhen | apps/custom_fields/validators.py:110-133 | an accepted value makes the indexer raise iff it is a number that does not fit the column |
| CustomFields.EscapesExactlyWhen | apps/custom_fields/validators.py:110-152 | the validator raises something other than ValidationError iff given an impossible date, or not-a-number in a field with a bound |
| CustomFields.OversizedAndNaNAreAccepted | apps/custom_fields/validators.py:110-133 | 1000000000000000 and NaN are accepted by an unbounded number field and cannot be written |
| CustomFields.SyncIsIdempotent | apps/custom_fields/services.py:63-132 | a second sync changes nothing and the result is determined |
| CustomFields.RowsMatchKeysOneToOne | apps/custom_fields/services.py:63-132 | the object's rows and the custom_data keys with an active definition correspond one to one |
| CustomFields.Index.BySlug | apps/custom_fields/services.py:84-91 | maps each slug to the one active field of the tenant and module |
| CustomFields.Index.Upsert | apps/custom_fields/services.py:96-114 | writes exactly the rows of the indexed fields, or stops at the first value that cannot be stored, keeping what it wrote |
| CustomFields.Index.Sync | apps/custom_fields/services.py:63-132 | raises iff some indexed value cannot be stored, and then some storable fields are written and nothing is deleted; otherwise the object's rows for the module are exactly the built ones and all other rows untouched |
| CustomFields.Index.Validate | apps/custom_fields/services.py:24-60 | an escaping exception ends it; otherwise the errors name exactly the active fields whose validator rejects |

## Left out

- HTTP layers, serializers, permissions, plan limits, admin and analytics: single-branch code without state of its own.
- Notifications, live broadcasts, activity and timeline logs, confirmation and CSAT mail, attachments, SLA timers: no model.
- Manual reassignment and conversion in the Hub (apps/inbox_hub/services.py) are not part of this model; state changes made there appear as `Moved` steps, its counter transfers do not appear.
- Recounting of `current_ticket_count` from the ticket table (apps/agents/services.py:60-95): a repair of the counter outside the conservation theorems.
- AssignmentRuns.Conservation: covers arrivals, engine assignments, heartbeats and reaps; ticket steps raise counters without a Hub audit row and are covered per agent by CountsFollowTheAuditTrail.
- InboundPipeline.FilteredMailLeavesNoTrace: the filter predicates are an abstract three-way result, and an exception inside a filter or the bounce handler is not modelled.
- InboundPipeline.EffectExactlyWhen: hub parking and ticket creation are single abstract effects that either happen or raise.
- The idempotency key is the pair of tenant and message_id, not its printed string.
- ImapPoller.OneRowPerMessageId: one poller at a time, as ImapPoller.WatermarkIsSafe; several are the subject of OverlappingPolls. The SMTP server (apps/inbound_email/smtp_server.py:112-127) creates its rows without any duplicate check and is not modelled; its duplicates meet the idempotency key of the pipeline. The alternative spellings `_read_response_code` searches are left out (a response code is readable or not).
- ImapPoller.Poller.IngestOne: the columns of the new row other than tenant and Message-ID, and the attachment files, are not modelled.
- Billing.RunsKeepKeys: assumes that one subscription id always carries the same metadata tenant; what happens without it is SyncRaisesExactlyWhen. The newest subscription is not claimed to win, since a stale update can repoint the row back.
- Billing.SkippedExactlyAfterSuccess: the cache keeps a marker for its whole lifetime; eviction and a failing cache write are not modelled. Signature checks and the HTTP status text are left out.
- The reaper's sweep is an atomic step. Escalation of overdue reminders and lead scoring are left out, and so is a due query that raises for one tenant.
- InboxWorkflow.ActionedAndLinkedAtMostOnce: assumes that no two requests carry the same time, since equal stamps pass the write-once guard.
- Reaping.ReapedAgentStaysAway: a change of status by hand is not a step of the model.
- Threading.ReplyFindsItsTicket: ids contain no whitespace and no outer angle brackets, and one id maps to one ticket per tenant; email rows are listed newest first, and the ticket number in a subject is given rather than parsed.
- HeaderText.ExtractReadsRendered: header names have no colon and do not start with a blank, and every line break inside a value is a fold.
- QuotedReply and the normalisers treat ASCII whitespace and letters; other Unicode whitespace and case are not modelled.
- ThemeMask: file discovery, the allowlist, the counts per file and the comparison with the stored baseline are left out.
- CustomFields.ValidatedValuesAreTyped: dates are excluded, since a date-only string passes validation and may be stored as text; JSON objects as values and malformed rule settings are not modelled.
- The custom-field signal layer, which skips empty maps, is left out: the agreement is that of the service function.
