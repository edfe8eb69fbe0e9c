// The UID watermark protocol between the poller and a shared mailbox
// (apps/inbound_email/imap_poller.py; sections 2.3.1.1 and 6.4.8 of RFC 3501).
module ImapPoller {
  import opened Options
  import opened Sets

  type Uid = nat
  type TenantId = nat

  // A message as the poller sees it: its normalised Message-ID ("" when it carries none) and
  // the tenant its recipient resolves to.
  datatype Message = Message(messageId: string, tenant: Option<TenantId>)

  // ---------------------------------------------------------------- the server

  datatype Mailbox = Mailbox(validity: nat, uidNext: Uid, messages: map<Uid, Message>)

  // UIDs start at 1 and stay below UIDNEXT.
  predicate WellFormed(mb: Mailbox) {
    mb.uidNext > 0 && forall u :: u in mb.messages ==> 0 < u < mb.uidNext
  }

  function Deliver(mb: Mailbox, msg: Message): Mailbox {
    mb.(uidNext := mb.uidNext + 1, messages := mb.messages[mb.uidNext := msg])
  }

  function DeliverAll(mb: Mailbox, late: seq<Message>): Mailbox {
    if late == [] then mb else Deliver(DeliverAll(mb, late[..|late| - 1]), late[|late| - 1])
  }

  // The messages with lo <= UID < hi, in ascending order.
  function Uids(mb: Mailbox, lo: Uid, hi: Uid): seq<Uid> {
    if hi <= lo then []
    else Uids(mb, lo, hi - 1) + if hi - 1 in mb.messages then [hi - 1] else []
  }

  // ---------------------------------------------------------------- the poller's tables

  // InboundEmail.message_id: the carried Message-ID, or a freshly minted one.
  datatype MessageKey = Carried(id: string) | Minted(serial: nat)
  datatype Row = Row(tenant: Option<TenantId>, key: MessageKey)

  datatype PollState = PollState(validity: nat, lastUid: Uid)

  // What became of a fetched message: `row` is the position of the row created for it. It is
  // flagged \Seen when a duplicate or when a row was created and nothing raised before.
  datatype Outcome = Nothing | Duplicate | Interrupted(row: nat) | Unqueued(row: nat) | Queued(row: nat)

  // One UID FETCH command: the UIDVALIDITY it was issued under, the UID asked for and the outcome.
  datatype Fetch = Fetch(validity: nat, uid: Uid, outcome: Outcome)

  datatype Tables = Tables(state: PollState, rows: seq<Row>, fetches: seq<Fetch>, ingested: nat)

  // What can go wrong while one message is ingested; saving attachments is what may raise after
  // the row exists, and a failing queue is only logged.
  datatype Fault = NoFault | NoBody | RaisesBeforeRow | RaisesAfterRow | QueueFails

  function FaultOf(faults: map<Uid, Fault>, u: Uid): Fault {
    if u in faults then faults[u] else NoFault
  }

  function KeyFor(msg: Message, rows: seq<Row>): MessageKey {
    if msg.messageId != "" then Carried(msg.messageId) else Minted(|rows|)
  }

  function IngestRows(rows: seq<Row>, msg: Message, fault: Fault): seq<Row> {
    var row := Row(msg.tenant, KeyFor(msg, rows));
    if fault == NoBody || fault == RaisesBeforeRow || row in rows then rows else rows + [row]
  }

  // _ingest_one on one UID of the search result; a message expunged meanwhile has no body. A row is
  // created, its attachments saved, the message flagged, and its task queued, in this order.
  function OutcomeOf(rows: seq<Row>, mb: Mailbox, u: Uid, fault: Fault): Outcome {
    if u !in mb.messages || fault == NoBody || fault == RaisesBeforeRow then Nothing
    else if Row(mb.messages[u].tenant, KeyFor(mb.messages[u], rows)) in rows then Duplicate
    else if fault == RaisesAfterRow then Interrupted(|rows|)
    else if fault == QueueFails then Unqueued(|rows|)
    else Queued(|rows|)
  }

  function Ingest(t: Tables, mb: Mailbox, u: Uid, faults: map<Uid, Fault>): Tables {
    var o := OutcomeOf(t.rows, mb, u, FaultOf(faults, u));
    t.(rows := if u in mb.messages then IngestRows(t.rows, mb.messages[u], FaultOf(faults, u)) else t.rows,
       fetches := t.fetches + [Fetch(mb.validity, u, o)],
       ingested := t.ingested + if o.Unqueued? || o.Queued? then 1 else 0)
  }

  function Advance(t: Tables, u: Uid): Tables {
    if u > t.state.lastUid then t.(state := t.state.(lastUid := u)) else t
  }

  function Process(t: Tables, mb: Mailbox, batch: seq<Uid>, faults: map<Uid, Fault>): Tables
  {
    if batch == [] then t
    else
      var u := batch[|batch| - 1];
      Advance(Ingest(Process(t, mb, batch[..|batch| - 1], faults), mb, u, faults), u)
  }

  // The process dies at the message with this index, before or after ingesting it, and in
  // either case before its watermark is saved.
  datatype Crash = Crash(index: nat, rowCreated: bool)

  datatype PollInput = PollInput(
    validityReadable: bool,
    uidNextReadable: bool,
    searchOk: bool,
    late: seq<Message>,            // arrives between SELECT and SEARCH
    faults: map<Uid, Fault>,
    crash: Option<Crash>)

  function Loaded(state: Option<PollState>, validity: nat): PollState {
    if state.Some? && state.value.validity == validity then state.value else PollState(validity, 0)
  }

  // The watermark a poll searches above.
  function Watermark(state: Option<PollState>, mb: Mailbox): Uid
    requires WellFormed(mb)
  {
    var loaded := Loaded(state, mb.validity);
    if loaded.lastUid == 0 then mb.uidNext - 1 else loaded.lastUid
  }

  function RunBatch(t: Tables, mb: Mailbox, batch: seq<Uid>, inp: PollInput): Tables
  {
    if inp.crash.Some? && inp.crash.value.index < |batch| then
      var done := Process(t, mb, batch[..inp.crash.value.index], inp.faults);
      if inp.crash.value.rowCreated then Ingest(done, mb, batch[inp.crash.value.index], inp.faults) else done
    else Process(t, mb, batch, inp.faults)
  }

  lemma {:induction false} DeliverAllKeeps(mb: Mailbox, late: seq<Message>)
    requires WellFormed(mb)
    ensures var mb' := DeliverAll(mb, late);
      && WellFormed(mb') && mb'.validity == mb.validity && mb'.uidNext == mb.uidNext + |late|
      && (forall u :: u < mb.uidNext ==> (u in mb'.messages <==> u in mb.messages))
      && (forall u :: mb.uidNext <= u < mb'.uidNext ==> u in mb'.messages)
    decreases |late|
  {
    if late != [] {
      DeliverAllKeeps(mb, late[..|late| - 1]);
    }
  }

  lemma {:induction false} UidsMembers(mb: Mailbox, lo: Uid, hi: Uid)
    ensures forall u :: u in Uids(mb, lo, hi) <==> lo <= u < hi && u in mb.messages
    decreases hi
  {
    if lo < hi {
      UidsMembers(mb, lo, hi - 1);
    }
  }

  predicate Ascending(q: seq<Uid>) {
    forall i, j :: 0 <= i < j < |q| ==> q[i] < q[j]
  }

  lemma {:induction false} UidsAscend(mb: Mailbox, lo: Uid, hi: Uid)
    ensures Ascending(Uids(mb, lo, hi))
    decreases hi
  {
    if lo < hi {
      UidsAscend(mb, lo, hi - 1);
      UidsMembers(mb, lo, hi - 1);
      var q := Uids(mb, lo, hi - 1);
      assert forall i :: 0 <= i < |q| ==> q[i] in q;
    }
  }

  // ---------------------------------------------------------------- the whole system

  datatype System = System(mb: Mailbox, state: Option<PollState>, rows: seq<Row>, fetches: seq<Fetch>)

  // The poller's tables once the watermark row is loaded and anchored.
  function Start(s: System, low: Uid): Tables {
    Tables(PollState(s.mb.validity, low), s.rows, s.fetches, 0)
  }

  // SEARCH and the batch loop, on a watermark row that has just been loaded and anchored.
  function PollBatch(s: System, inp: PollInput): Tables
    requires WellFormed(s.mb)
  {
    var mb, low := DeliverAll(s.mb, inp.late), Watermark(s.state, s.mb);
    RunBatch(Start(s, low), mb, Uids(mb, low + 1, mb.uidNext), inp)
  }

  // SELECT, load or reset the watermark row, anchor it, SEARCH, then the batch.
  function Poll(s: System, inp: PollInput): System
    requires WellFormed(s.mb)
  {
    var mb := DeliverAll(s.mb, inp.late);
    if !inp.validityReadable then s.(mb := mb)
    else if Loaded(s.state, s.mb.validity).lastUid == 0 && !inp.uidNextReadable then
      s.(mb := mb, state := Some(PollState(s.mb.validity, 0)))
    else if !inp.searchOk then s.(mb := mb, state := Some(PollState(s.mb.validity, Watermark(s.state, s.mb))))
    else
      var t := PollBatch(s, inp);
      System(mb, Some(t.state), t.rows, t.fetches)
  }

  datatype Event =
    | Arrive(msg: Message)
    | Expunge(uid: Uid)
    | Reset(renewed: Mailbox)      // UIDs re-issued under a larger UIDVALIDITY
    | PollOnce(inp: PollInput)

  function Next(s: System, e: Event): (s': System)
    requires WellFormed(s.mb)
    ensures WellFormed(s'.mb)
  {
    match e
    case Arrive(msg) => s.(mb := Deliver(s.mb, msg))
    case Expunge(u) => s.(mb := s.mb.(messages := s.mb.messages - {u}))
    case Reset(renewed) => if WellFormed(renewed) && renewed.validity > s.mb.validity then s.(mb := renewed) else s
    case PollOnce(inp) => DeliverAllKeeps(s.mb, inp.late); Poll(s, inp)
  }

  function Run(s: System, es: seq<Event>): (s': System)
    requires WellFormed(s.mb)
    ensures WellFormed(s'.mb)
    decreases |es|
  {
    if es == [] then s else Next(Run(s, es[..|es| - 1]), es[|es| - 1])
  }

  // ---------------------------------------------------------------- safety and completeness

  ghost predicate Fetched(fetches: seq<Fetch>, n: nat, v: nat, u: Uid) {
    exists i :: n <= i < |fetches| && fetches[i].validity == v && fetches[i].uid == u
  }

  // What holds of the system some time after it had the positive watermark `from` in the epoch
  // `v`, the first n fetches being older: nothing at or below `from` is fetched, fetches ascend,
  // the watermark stays between `from` and UIDNEXT, and whatever it has passed was fetched.
  ghost predicate Tracks(v: nat, from: Uid, n: nat, mb: Mailbox, st: PollState, fetches: seq<Fetch>) {
    && mb.validity == v == st.validity && 0 < from <= st.lastUid < mb.uidNext && n <= |fetches|
    && (forall i :: n <= i < |fetches| ==> fetches[i].validity == v && from < fetches[i].uid < mb.uidNext)
    && (forall i, j :: n <= i < j < |fetches| ==> fetches[i].uid <= fetches[j].uid)
    && (forall u :: u in mb.messages && from < u <= st.lastUid ==> Fetched(fetches, n, v, u))
    && (forall i, u :: n <= i < |fetches| && u in mb.messages && st.lastUid < u ==> fetches[i].uid <= u)
  }

  lemma FetchTracks(v: nat, from: Uid, n: nat, mb: Mailbox, st: PollState, fetches: seq<Fetch>, f: Fetch)
    requires WellFormed(mb) && Tracks(v, from, n, mb, st, fetches)
    requires f.validity == v && f.uid in mb.messages && st.lastUid < f.uid
    requires forall x :: x in mb.messages && st.lastUid < x ==> f.uid <= x
    ensures Tracks(v, from, n, mb, st, fetches + [f])
    ensures Tracks(v, from, n, mb, st.(lastUid := f.uid), fetches + [f])
  {
    var all := fetches + [f];
    assert all[|fetches|] == f && forall i :: 0 <= i < |fetches| ==> all[i] == fetches[i];
    forall u ensures Fetched(fetches, n, v, u) || u == f.uid ==> Fetched(all, n, v, u) {
      FetchedSnoc(fetches, f, n, v, u);
    }
  }

  lemma FetchedSnoc(fetches: seq<Fetch>, f: Fetch, n: nat, v: nat, u: Uid)
    requires n <= |fetches| && f.validity == v
    ensures Fetched(fetches, n, v, u) || u == f.uid ==> Fetched(fetches + [f], n, v, u)
  {
    var all := fetches + [f];
    if Fetched(fetches, n, v, u) {
      var i :| n <= i < |fetches| && fetches[i].validity == v && fetches[i].uid == u;
      assert all[i] == fetches[i];
    } else if u == f.uid {
      assert all[|fetches|] == f;
    }
  }

  lemma IngestTracks(v: nat, from: Uid, n: nat, mb: Mailbox, t: Tables, u: Uid, faults: map<Uid, Fault>)
    requires WellFormed(mb) && Tracks(v, from, n, mb, t.state, t.fetches)
    requires u in mb.messages && t.state.lastUid < u
    requires forall x :: x in mb.messages && t.state.lastUid < x ==> u <= x
    ensures var t' := Ingest(t, mb, u, faults);
      && Tracks(v, from, n, mb, t'.state, t'.fetches)
      && Tracks(v, from, n, mb, Advance(t', u).state, Advance(t', u).fetches)
      && Advance(t', u).state.lastUid == u
  {
    FetchTracks(v, from, n, mb, t.state, t.fetches, Fetch(mb.validity, u, OutcomeOf(t.rows, mb, u, FaultOf(faults, u))));
  }

  // The batch has been processed up to (not including) the UID `hi`.
  ghost predicate TracksTo(v: nat, from: Uid, n: nat, mb: Mailbox, t: Tables, hi: Uid) {
    && Tracks(v, from, n, mb, t.state, t.fetches) && t.state.lastUid < hi
    && forall x :: x in mb.messages && t.state.lastUid < x ==> hi <= x
  }

  lemma ProcessStep(
    v: nat, from: Uid, n: nat, mb: Mailbox, t: Tables, lo: Uid, hi: Uid, faults: map<Uid, Fault>)
    requires WellFormed(mb) && lo <= hi
    requires TracksTo(v, from, n, mb, Process(t, mb, Uids(mb, lo, hi), faults), hi)
    ensures TracksTo(v, from, n, mb, Process(t, mb, Uids(mb, lo, hi + 1), faults), hi + 1)
  {
    if hi in mb.messages {
      assert Uids(mb, lo, hi + 1)[..|Uids(mb, lo, hi + 1)| - 1] == Uids(mb, lo, hi);
      IngestTracks(v, from, n, mb, Process(t, mb, Uids(mb, lo, hi), faults), hi, faults);
    } else {
      assert Uids(mb, lo, hi + 1) == Uids(mb, lo, hi);
    }
  }

  lemma ProcessTracks(v: nat, from: Uid, n: nat, mb: Mailbox, t: Tables, hi: Uid, faults: map<Uid, Fault>)
    requires WellFormed(mb) && Tracks(v, from, n, mb, t.state, t.fetches) && t.state.lastUid < hi
    ensures TracksTo(v, from, n, mb, Process(t, mb, Uids(mb, t.state.lastUid + 1, hi), faults), hi)
  {
    var lo := t.state.lastUid + 1;
    for x := lo to hi
      invariant TracksTo(v, from, n, mb, Process(t, mb, Uids(mb, lo, x), faults), x)
    {
      ProcessStep(v, from, n, mb, t, lo, x, faults);
    }
  }

  // A prefix of the batch is the batch up to the next UID.
  lemma {:induction false} UidsPrefix(mb: Mailbox, lo: Uid, hi: Uid, k: nat)
    requires k < |Uids(mb, lo, hi)|
    ensures var q := Uids(mb, lo, hi); lo <= q[k] < hi && q[k] in mb.messages && q[..k] == Uids(mb, lo, q[k])
    decreases hi
  {
    var front, q := Uids(mb, lo, hi - 1), Uids(mb, lo, hi);
    if k < |front| {
      UidsPrefix(mb, lo, hi - 1, k);
      assert q[..k] == front[..k];
    } else {
      assert q[..k] == front;
    }
  }

  lemma BatchTracks(v: nat, from: Uid, n: nat, mb: Mailbox, t: Tables, inp: PollInput)
    requires WellFormed(mb) && Tracks(v, from, n, mb, t.state, t.fetches)
    ensures var t' := RunBatch(t, mb, Uids(mb, t.state.lastUid + 1, mb.uidNext), inp);
      && Tracks(v, from, n, mb, t'.state, t'.fetches) && t'.state.lastUid >= t.state.lastUid
      && (inp.crash.None? ==> forall u :: u in mb.messages ==> u <= t'.state.lastUid)
  {
    BatchGrows(t, mb, Uids(mb, t.state.lastUid + 1, mb.uidNext), inp);
    var lo := t.state.lastUid + 1;
    var batch := Uids(mb, lo, mb.uidNext);
    if inp.crash.Some? && inp.crash.value.index < |batch| {
      var k := inp.crash.value.index;
      UidsPrefix(mb, lo, mb.uidNext, k);
      ProcessTracks(v, from, n, mb, t, batch[k], inp.faults);
      IngestTracks(v, from, n, mb, Process(t, mb, batch[..k], inp.faults), batch[k], inp.faults);
    } else {
      ProcessTracks(v, from, n, mb, t, mb.uidNext, inp.faults);
    }
  }

  ghost predicate SystemTracks(v: nat, from: Uid, n: nat, s: System) {
    s.state.Some? && Tracks(v, from, n, s.mb, s.state.value, s.fetches)
  }

  // The poll reached the end of its batch.
  predicate Completes(inp: PollInput) {
    inp.validityReadable && inp.uidNextReadable && inp.searchOk && inp.crash.None?
  }

  // The poll gets as far as its batch.
  predicate Reaches(s: System, inp: PollInput) {
    inp.validityReadable && inp.searchOk && (inp.uidNextReadable || Loaded(s.state, s.mb.validity).lastUid != 0)
  }

  lemma PollReachesBatch(s: System, inp: PollInput)
    requires WellFormed(s.mb) && Reaches(s, inp)
    ensures var t := PollBatch(s, inp);
      Poll(s, inp) == System(DeliverAll(s.mb, inp.late), Some(t.state), t.rows, t.fetches)
  {}

  // Otherwise it leaves everything but the watermark row alone.
  lemma PollStopsEarly(s: System, inp: PollInput)
    requires WellFormed(s.mb) && !Reaches(s, inp)
    ensures var s' := Poll(s, inp); s' == s.(mb := s'.mb, state := s'.state) && s'.mb == DeliverAll(s.mb, inp.late)
    ensures Poll(s, inp).state ==
      if !inp.validityReadable then s.state
      else if inp.uidNextReadable || Loaded(s.state, s.mb.validity).lastUid != 0
      then Some(PollState(s.mb.validity, Watermark(s.state, s.mb))) else Some(PollState(s.mb.validity, 0))
  {}

  lemma LateArrivalsKeepTracks(v: nat, from: Uid, n: nat, s: System, late: seq<Message>)
    requires WellFormed(s.mb) && SystemTracks(v, from, n, s)
    ensures WellFormed(DeliverAll(s.mb, late))
    ensures Tracks(v, from, n, DeliverAll(s.mb, late), s.state.value, s.fetches)
  {
    DeliverAllKeeps(s.mb, late);
  }

  lemma PollBatchTracks(v: nat, from: Uid, n: nat, s: System, inp: PollInput)
    requires WellFormed(s.mb) && SystemTracks(v, from, n, s)
    ensures var t := PollBatch(s, inp); var mb := DeliverAll(s.mb, inp.late);
      && Tracks(v, from, n, mb, t.state, t.fetches) && t.state.lastUid >= s.state.value.lastUid
      && (inp.crash.None? ==> forall u :: u in mb.messages ==> u <= t.state.lastUid)
  {
    LateArrivalsKeepTracks(v, from, n, s, inp.late);
    BatchTracks(v, from, n, DeliverAll(s.mb, inp.late), Start(s, s.state.value.lastUid), inp);
  }

  lemma PollTracks(v: nat, from: Uid, n: nat, s: System, inp: PollInput)
    requires WellFormed(s.mb) && SystemTracks(v, from, n, s)
    ensures SystemTracks(v, from, n, Poll(s, inp))
    ensures Poll(s, inp).state.value.lastUid >= s.state.value.lastUid
    ensures Completes(inp) ==> forall u :: u in Poll(s, inp).mb.messages ==> u <= Poll(s, inp).state.value.lastUid
  {
    if Reaches(s, inp) {
      PollReachesBatch(s, inp);
      PollBatchTracks(v, from, n, s, inp);
    } else {
      PollStopsEarly(s, inp);
      LateArrivalsKeepTracks(v, from, n, s, inp.late);
    }
  }

  lemma {:induction false} ProcessGrows(t: Tables, mb: Mailbox, batch: seq<Uid>, faults: map<Uid, Fault>)
    ensures var t' := Process(t, mb, batch, faults);
      t'.state.lastUid >= t.state.lastUid && t'.state.validity == t.state.validity
    decreases |batch|
  {
    if batch != [] {
      ProcessGrows(t, mb, batch[..|batch| - 1], faults);
    }
  }

  lemma BatchGrows(t: Tables, mb: Mailbox, batch: seq<Uid>, inp: PollInput)
    ensures var t' := RunBatch(t, mb, batch, inp);
      t'.state.lastUid >= t.state.lastUid && t'.state.validity == t.state.validity
  {
    if inp.crash.Some? && inp.crash.value.index < |batch| {
      ProcessGrows(t, mb, batch[..inp.crash.value.index], inp.faults);
    } else {
      ProcessGrows(t, mb, batch, inp.faults);
    }
  }

  /** Watermark safety and completeness. From any moment at which the epoch has a positive
      watermark, over every run of arrivals, expunges, failed, crashed and completed polls that
      stays in the epoch: the watermark never falls and stays below UIDNEXT, no UID at or below it
      is fetched, fetches ascend, and every message the watermark has passed was fetched. */
  lemma {:induction false} WatermarkIsSafe(s: System, es: seq<Event>)
    requires WellFormed(s.mb) && s.state.Some? && s.state.value.validity == s.mb.validity
    requires 0 < s.state.value.lastUid < s.mb.uidNext
    requires forall i :: 0 <= i < |es| ==> !es[i].Reset?
    ensures SystemTracks(s.mb.validity, s.state.value.lastUid, |s.fetches|, Run(s, es))
    decreases |es|
  {
    if es != [] {
      WatermarkIsSafe(s, es[..|es| - 1]);
      var mid := Run(s, es[..|es| - 1]);
      if es[|es| - 1].PollOnce? {
        PollTracks(s.mb.validity, s.state.value.lastUid, |s.fetches|, mid, es[|es| - 1].inp);
      }
    }
  }

  /** Hence, once a poll completes, every message above the old watermark has been attempted,
      whatever the earlier polls of the run did and whatever ingesting each message raised. */
  lemma CompletedPollMissesNothing(s: System, es: seq<Event>, inp: PollInput, u: Uid)
    requires WellFormed(s.mb) && s.state.Some? && s.state.value.validity == s.mb.validity
    requires 0 < s.state.value.lastUid < s.mb.uidNext
    requires forall i :: 0 <= i < |es| ==> !es[i].Reset?
    requires Completes(inp)
    requires u in Poll(Run(s, es), inp).mb.messages && s.state.value.lastUid < u
    ensures Fetched(Poll(Run(s, es), inp).fetches, |s.fetches|, s.mb.validity, u)
  {
    WatermarkIsSafe(s, es);
    PollTracks(s.mb.validity, s.state.value.lastUid, |s.fetches|, Run(s, es), inp);
  }

  // ---------------------------------------------------------------- the first watermark

  lemma {:induction false} FetchesOfBatch(t: Tables, mb: Mailbox, batch: seq<Uid>, faults: map<Uid, Fault>)
    ensures var f := Process(t, mb, batch, faults).fetches;
      && |f| == |t.fetches| + |batch|
      && forall i :: |t.fetches| <= i < |f| ==> f[i].validity == mb.validity && f[i].uid == batch[i - |t.fetches|]
    decreases |batch|
  {
    if batch != [] {
      FetchesOfBatch(t, mb, batch[..|batch| - 1], faults);
    }
  }

  lemma FetchedByBatch(t: Tables, mb: Mailbox, batch: seq<Uid>, faults: map<Uid, Fault>, u: Uid)
    ensures Fetched(Process(t, mb, batch, faults).fetches, |t.fetches|, mb.validity, u) <==> u in batch
  {
    FetchesOfBatch(t, mb, batch, faults);
    var f := Process(t, mb, batch, faults).fetches;
    if u in batch {
      var i :| 0 <= i < |batch| && batch[i] == u;
      assert f[|t.fetches| + i].validity == mb.validity && f[|t.fetches| + i].uid == u;
    }
  }

  lemma RunFetches(t: Tables, mb: Mailbox, inp: PollInput, u: Uid)
    requires WellFormed(mb) && inp.crash.None?
    ensures Fetched(RunBatch(t, mb, Uids(mb, t.state.lastUid + 1, mb.uidNext), inp).fetches, |t.fetches|, mb.validity, u)
       <==> t.state.lastUid < u && u in mb.messages
  {
    UidsMembers(mb, t.state.lastUid + 1, mb.uidNext);
    FetchedByBatch(t, mb, Uids(mb, t.state.lastUid + 1, mb.uidNext), inp.faults, u);
  }

  lemma PollBatchFetches(s: System, inp: PollInput, u: Uid)
    requires WellFormed(s.mb) && inp.crash.None?
    ensures Fetched(PollBatch(s, inp).fetches, |s.fetches|, s.mb.validity, u)
       <==> Watermark(s.state, s.mb) < u && u in DeliverAll(s.mb, inp.late).messages
  {
    DeliverAllKeeps(s.mb, inp.late);
    RunFetches(Start(s, Watermark(s.state, s.mb)), DeliverAll(s.mb, inp.late), inp, u);
  }

  lemma PollFetches(s: System, inp: PollInput, u: Uid)
    requires WellFormed(s.mb) && Completes(inp)
    ensures Fetched(Poll(s, inp).fetches, |s.fetches|, s.mb.validity, u)
       <==> Watermark(s.state, s.mb) < u && u in Poll(s, inp).mb.messages
  {
    PollReachesBatch(s, inp);
    PollBatchFetches(s, inp, u);
  }

  /** Completeness needs the watermark to be positive. A completed poll attempts a message that
      was in the mailbox at SELECT, above the recorded watermark, exactly when a positive
      watermark of this epoch was already recorded; otherwise the poll anchors above it. */
  lemma SelectedMessageAttemptedIff(s: System, inp: PollInput, u: Uid)
    requires WellFormed(s.mb) && Completes(inp) && u in s.mb.messages
    requires s.state.Some? && s.state.value.validity == s.mb.validity ==> s.state.value.lastUid < u
    ensures Fetched(Poll(s, inp).fetches, |s.fetches|, s.mb.validity, u)
       <==> s.state.Some? && s.state.value.validity == s.mb.validity && s.state.value.lastUid > 0
  {
    DeliverAllKeeps(s.mb, inp.late);
    PollFetches(s, inp, u);
  }

  const CLEAN := PollInput(true, true, true, [], map[], None)

  /** The case in point: a mailbox first polled while empty is anchored again by the next poll,
      which therefore skips its very first message for good. */
  lemma FirstMessageOfAnEmptyMailboxIsSkipped(v: nat, msg: Message)
    ensures var s := System(Mailbox(v, 1, map[]), None, [], []);
            var s' := Run(s, [PollOnce(CLEAN), Arrive(msg), PollOnce(CLEAN)]);
            && s'.state == Some(PollState(v, 1)) && 1 in s'.mb.messages && s'.fetches == [] && s'.rows == []
  {
    var s := System(Mailbox(v, 1, map[]), None, [], []);
    var es := [PollOnce(CLEAN), Arrive(msg), PollOnce(CLEAN)];
    var one := Poll(s, CLEAN);
    assert Uids(s.mb, 1, 1) == [];
    assert one == s.(state := Some(PollState(v, 0)));
    assert Run(s, es[..1]) == one by { assert es[..1][..0] == []; assert Run(s, []) == s; }
    var two := one.(mb := Deliver(one.mb, msg));
    assert Run(s, es[..2]) == two by { assert es[..2][..1] == es[..1]; }
    assert Uids(two.mb, 2, 2) == [];
    assert es[..3][..2] == es[..2] && es[..3] == es;
  }

  // ---------------------------------------------------------------- duplicates

  // At most one InboundEmail per tenant and key.
  ghost predicate NoDuplicates(rows: seq<Row>) {
    && Distinct(rows)
    && forall i :: 0 <= i < |rows| && rows[i].key.Minted? ==> rows[i].key.serial < |rows|
  }

  lemma IngestKeepsUnique(rows: seq<Row>, msg: Message, fault: Fault)
    requires NoDuplicates(rows)
    ensures NoDuplicates(IngestRows(rows, msg, fault))
  {}

  lemma IngestKeepsUniqueAt(t: Tables, mb: Mailbox, u: Uid, faults: map<Uid, Fault>)
    requires NoDuplicates(t.rows)
    ensures NoDuplicates(Ingest(t, mb, u, faults).rows)
  {
    if u in mb.messages {
      IngestKeepsUnique(t.rows, mb.messages[u], FaultOf(faults, u));
    }
  }

  lemma {:induction false} ProcessKeepsUnique(t: Tables, mb: Mailbox, batch: seq<Uid>, faults: map<Uid, Fault>)
    requires NoDuplicates(t.rows)
    ensures NoDuplicates(Process(t, mb, batch, faults).rows)
    decreases |batch|
  {
    if batch != [] {
      var front, u := batch[..|batch| - 1], batch[|batch| - 1];
      ProcessKeepsUnique(t, mb, front, faults);
      IngestKeepsUniqueAt(Process(t, mb, front, faults), mb, u, faults);
    }
  }

  lemma BatchKeepsUnique(t: Tables, mb: Mailbox, batch: seq<Uid>, inp: PollInput)
    requires NoDuplicates(t.rows)
    ensures NoDuplicates(RunBatch(t, mb, batch, inp).rows)
  {
    if inp.crash.Some? && inp.crash.value.index < |batch| {
      var k := inp.crash.value.index;
      ProcessKeepsUnique(t, mb, batch[..k], inp.faults);
      IngestKeepsUniqueAt(Process(t, mb, batch[..k], inp.faults), mb, batch[k], inp.faults);
    } else {
      ProcessKeepsUnique(t, mb, batch, inp.faults);
    }
  }

  lemma PollKeepsUnique(s: System, inp: PollInput)
    requires WellFormed(s.mb) && NoDuplicates(s.rows)
    ensures NoDuplicates(Poll(s, inp).rows)
  {
    if Reaches(s, inp) {
      PollBatchKeepsUnique(s, inp);
      PollReachesBatch(s, inp);
    } else {
      PollStopsEarly(s, inp);
    }
  }

  lemma PollBatchKeepsUnique(s: System, inp: PollInput)
    requires WellFormed(s.mb) && NoDuplicates(s.rows)
    ensures NoDuplicates(PollBatch(s, inp).rows)
  {
    var mb, low := DeliverAll(s.mb, inp.late), Watermark(s.state, s.mb);
    BatchKeepsUnique(Start(s, low), mb, Uids(mb, low + 1, mb.uidNext), inp);
  }

  /** Over every run, resets and crashes included, there is at most one InboundEmail per tenant
      and Message-ID. */
  lemma {:induction false} OneRowPerMessageId(s: System, es: seq<Event>)
    requires WellFormed(s.mb) && NoDuplicates(s.rows)
    ensures NoDuplicates(Run(s, es).rows)
    decreases |es|
  {
    if es != [] {
      OneRowPerMessageId(s, es[..|es| - 1]);
      if es[|es| - 1].PollOnce? {
        PollKeepsUnique(Run(s, es[..|es| - 1]), es[|es| - 1].inp);
      }
    }
  }

  /** Fetching a message again after a crash that had created its row adds a second row exactly
      when the message carries no Message-ID. */
  lemma ReingestDuplicatesIffNoMessageId(rows: seq<Row>, msg: Message)
    requires NoDuplicates(rows)
    ensures var once := IngestRows(rows, msg, NoFault);
            |IngestRows(once, msg, NoFault)| > |once| <==> msg.messageId == ""
  {
    var once := IngestRows(rows, msg, NoFault);
    assert msg.messageId != "" ==> Row(msg.tenant, Carried(msg.messageId)) in once;
    IngestKeepsUnique(rows, msg, NoFault);
    assert Row(msg.tenant, Minted(|once|)) !in once;
  }

  // ---------------------------------------------------------------- queueing

  // Rows and fetches are only appended, and only rows created since t get queued.
  ghost predicate QueuesNewRowsOnly(t: Tables, t': Tables) {
    && t.rows <= t'.rows && t.fetches <= t'.fetches
    && forall k :: |t.fetches| <= k < |t'.fetches| && t'.fetches[k].outcome.Queued? ==> |t.rows| <= t'.fetches[k].outcome.row
  }

  lemma {:induction false} ProcessQueues(t: Tables, mb: Mailbox, batch: seq<Uid>, faults: map<Uid, Fault>)
    ensures QueuesNewRowsOnly(t, Process(t, mb, batch, faults))
    decreases |batch|
  {
    if batch != [] {
      ProcessQueues(t, mb, batch[..|batch| - 1], faults);
    }
  }

  lemma BatchQueues(t: Tables, mb: Mailbox, batch: seq<Uid>, inp: PollInput)
    ensures QueuesNewRowsOnly(t, RunBatch(t, mb, batch, inp))
  {
    if inp.crash.Some? && inp.crash.value.index < |batch| {
      ProcessQueues(t, mb, batch[..inp.crash.value.index], inp.faults);
    } else {
      ProcessQueues(t, mb, batch, inp.faults);
    }
  }

  // The processing task of the row at position i has been queued.
  ghost predicate QueuedRow(fetches: seq<Fetch>, i: nat) {
    exists k :: 0 <= k < |fetches| && fetches[k].outcome == Queued(i)
  }

  lemma QueuedBefore(t: Tables, t': Tables, i: nat)
    requires QueuesNewRowsOnly(t, t') && i < |t.rows|
    ensures QueuedRow(t'.fetches, i) <==> QueuedRow(t.fetches, i)
  {
    assert forall k :: 0 <= k < |t.fetches| ==> t'.fetches[k] == t.fetches[k];
  }

  lemma PollQueues(s: System, inp: PollInput)
    requires WellFormed(s.mb)
    ensures s.rows <= Poll(s, inp).rows
    ensures forall i :: 0 <= i < |s.rows| ==> (QueuedRow(Poll(s, inp).fetches, i) <==> QueuedRow(s.fetches, i))
  {
    if Reaches(s, inp) {
      var mb, low := DeliverAll(s.mb, inp.late), Watermark(s.state, s.mb);
      BatchQueues(Start(s, low), mb, Uids(mb, low + 1, mb.uidNext), inp);
      PollReachesBatch(s, inp);
      forall i | 0 <= i < |s.rows| ensures QueuedRow(Poll(s, inp).fetches, i) <==> QueuedRow(s.fetches, i) {
        QueuedBefore(Start(s, low), PollBatch(s, inp), i);
      }
    } else {
      PollStopsEarly(s, inp);
    }
  }

  /** A fetched message gets a row exactly when its body can be read, nothing raises before, and either
      it carries no Message-ID or its tenant has no row under that id; the row records both, a
      minted id standing in for a missing one. */
  lemma RowCreatedExactlyWhen(t: Tables, mb: Mailbox, u: Uid, faults: map<Uid, Fault>)
    requires NoDuplicates(t.rows)
    ensures var rows := Ingest(t, mb, u, faults).rows; var fault := if u in faults then faults[u] else NoFault;
      && (rows != t.rows <==>
            && u in mb.messages && fault != NoBody && fault != RaisesBeforeRow
            && (mb.messages[u].messageId == ""
                || Row(mb.messages[u].tenant, Carried(mb.messages[u].messageId)) !in t.rows))
      && (rows != t.rows ==>
            && |rows| == |t.rows| + 1 && rows[..|t.rows|] == t.rows
            && rows[|t.rows|].tenant == mb.messages[u].tenant
            && (mb.messages[u].messageId != "" ==> rows[|t.rows|].key == Carried(mb.messages[u].messageId))
            && (mb.messages[u].messageId == "" ==> rows[|t.rows|].key.Minted?))
  {}

  /** A new row's task is queued by the ingest that creates it exactly when nothing fails after the
      row exists. */
  lemma NewRowQueuedIff(t: Tables, mb: Mailbox, u: Uid, faults: map<Uid, Fault>)
    requires |Ingest(t, mb, u, faults).rows| > |t.rows| && !QueuedRow(t.fetches, |t.rows|)
    ensures QueuedRow(Ingest(t, mb, u, faults).fetches, |t.rows|) <==> FaultOf(faults, u) == NoFault
  {
    var f := Ingest(t, mb, u, faults).fetches;
    assert forall k :: 0 <= k < |t.fetches| ==> f[k] == t.fetches[k];
    assert f[|t.fetches|].outcome == OutcomeOf(t.rows, mb, u, FaultOf(faults, u));
  }

  /** And later polls never make up for it: over every run, resets and crashes included, a row that
      exists is queued at the end exactly if it was queued at the start, since fetching its message
      again meets the duplicate check. A row whose ingest failed in between is stranded. */
  lemma {:induction false} ExistingRowsAreNeverQueued(s: System, es: seq<Event>)
    requires WellFormed(s.mb)
    ensures s.rows <= Run(s, es).rows
    ensures forall i :: 0 <= i < |s.rows| ==> (QueuedRow(Run(s, es).fetches, i) <==> QueuedRow(s.fetches, i))
    decreases |es|
  {
    if es != [] {
      ExistingRowsAreNeverQueued(s, es[..|es| - 1]);
      if es[|es| - 1].PollOnce? {
        PollQueues(Run(s, es[..|es| - 1]), es[|es| - 1].inp);
      }
    }
  }

  // The batch is cut off at its first message, whose row exists by then.
  const DIES_AFTER_ROW := PollInput(true, true, true, [], map[2 := RaisesAfterRow], Some(Crash(0, true)))

  // Two messages, of which the first has been dealt with.
  function TwoMessages(v: nat, seen: Message, msg: Message): Mailbox {
    Mailbox(v, 3, map[1 := seen, 2 := msg])
  }

  lemma SecondIsNew(v: nat, seen: Message, msg: Message)
    ensures Uids(TwoMessages(v, seen, msg), 2, 3) == [2] && DeliverAll(TwoMessages(v, seen, msg), []) == TwoMessages(v, seen, msg)
  {
    assert Uids(TwoMessages(v, seen, msg), 2, 2) == [];
  }

  lemma OneMessage(t: Tables, mb: Mailbox, u: Uid, faults: map<Uid, Fault>)
    ensures [u][..0] == [] && Process(t, mb, [], faults) == t
    ensures Process(t, mb, [u], faults) == Advance(Ingest(t, mb, u, faults), u)
  {}

  // A poll that finds one new message and nothing else.
  lemma PollOfOne(s: System, inp: PollInput, u: Uid)
    requires WellFormed(s.mb) && Reaches(s, inp) && inp.late == [] && inp.crash.None?
    requires Uids(s.mb, Watermark(s.state, s.mb) + 1, s.mb.uidNext) == [u]
    ensures var t := Advance(Ingest(Start(s, Watermark(s.state, s.mb)), s.mb, u, inp.faults), u);
      Poll(s, inp) == System(s.mb, Some(t.state), t.rows, t.fetches)
  {
    PollReachesBatch(s, inp);
    OneMessage(Start(s, Watermark(s.state, s.mb)), s.mb, u, inp.faults);
  }

  // The same when the process dies at it, its row created.
  lemma CrashedPollOfOne(s: System, inp: PollInput, u: Uid)
    requires WellFormed(s.mb) && Reaches(s, inp) && inp.late == [] && inp.crash == Some(Crash(0, true))
    requires Uids(s.mb, Watermark(s.state, s.mb) + 1, s.mb.uidNext) == [u]
    ensures var t := Ingest(Start(s, Watermark(s.state, s.mb)), s.mb, u, inp.faults);
      Poll(s, inp) == System(s.mb, Some(t.state), t.rows, t.fetches)
  {
    PollReachesBatch(s, inp);
    OneMessage(Start(s, Watermark(s.state, s.mb)), s.mb, u, inp.faults);
  }

  lemma CrashAfterRow(v: nat, seen: Message, msg: Message)
    requires msg.messageId != ""
    ensures var mb := TwoMessages(v, seen, msg);
      Poll(System(mb, Some(PollState(v, 1)), [], []), DIES_AFTER_ROW)
      == System(mb, Some(PollState(v, 1)), [Row(msg.tenant, Carried(msg.messageId))], [Fetch(v, 2, Interrupted(0))])
  {
    SecondIsNew(v, seen, msg);
    CrashedPollOfOne(System(TwoMessages(v, seen, msg), Some(PollState(v, 1)), [], []), DIES_AFTER_ROW, 2);
  }

  lemma CleanPollMeetsDuplicate(v: nat, seen: Message, msg: Message, log: seq<Fetch>)
    requires msg.messageId != ""
    ensures var mb := TwoMessages(v, seen, msg); var rows := [Row(msg.tenant, Carried(msg.messageId))];
      Poll(System(mb, Some(PollState(v, 1)), rows, log), CLEAN)
      == System(mb, Some(PollState(v, 2)), rows, log + [Fetch(v, 2, Duplicate)])
  {
    var rows := [Row(msg.tenant, Carried(msg.messageId))];
    assert rows[0] in rows;
    SecondIsNew(v, seen, msg);
    PollOfOne(System(TwoMessages(v, seen, msg), Some(PollState(v, 1)), rows, log), CLEAN, 2);
  }

  /** The concrete case: the process dies between creating the row of message 2 and queueing its task.
      The next poll is clean, fetches the message again, meets the duplicate check and moves on. */
  lemma RowOfACrashedPollIsStranded(v: nat, seen: Message, msg: Message)
    requires msg.messageId != ""
    ensures var s := System(TwoMessages(v, seen, msg), Some(PollState(v, 1)), [], []);
            var s' := Poll(Poll(s, DIES_AFTER_ROW), CLEAN);
            && s'.state == Some(PollState(v, 2)) && s'.rows == [Row(msg.tenant, Carried(msg.messageId))]
            && s'.fetches == [Fetch(v, 2, Interrupted(0)), Fetch(v, 2, Duplicate)] && !QueuedRow(s'.fetches, 0)
  {
    CrashAfterRow(v, seen, msg);
    CleanPollMeetsDuplicate(v, seen, msg, [Fetch(v, 2, Interrupted(0))]);
  }

  // ---------------------------------------------------------------- the imperative poller

  // UID SEARCH lo:* always names the last message, even below lo (section 6.4.8 of RFC 3501).
  function Search(mb: Mailbox, lo: Uid): set<Uid> {
    set u | u in mb.messages && (lo <= u || forall x :: x in mb.messages ==> x <= u)
  }

  // The client-side filter that drops what SEARCH names at or below the watermark.
  function NewUids(found: set<Uid>, lastUid: Uid): set<Uid> {
    set u: Uid | u in found && lastUid < u
  }

  lemma {:induction false} SameAscending(p: seq<Uid>, q: seq<Uid>)
    requires Ascending(p) && Ascending(q)
    requires forall u :: u in p <==> u in q
    ensures p == q
    decreases |p|
  {
    assert q != [] ==> q[0] in q;
    if p != [] {
      assert p[|p| - 1] in p && p[|p| - 1] in q;
      assert q[|q| - 1] in q && q[|q| - 1] in p;
      SplitLast(p);
      SplitLast(q);
      assert p[|p| - 1] == q[|q| - 1];
      var p', q' := p[..|p| - 1], q[..|q| - 1];
      forall u ensures u in p' <==> u in q' {
        assert u in p' <==> u in p && u != p[|p| - 1];
        assert u in q' <==> u in q && u != q[|q| - 1];
      }
      SameAscending(p', q');
    }
  }

  lemma SplitLast(p: seq<Uid>)
    requires Ascending(p) && p != []
    ensures forall u :: u in p ==> u <= p[|p| - 1]
    ensures forall u :: u in p[..|p| - 1] <==> u in p && u != p[|p| - 1]
    ensures Ascending(p[..|p| - 1])
  {
    assert p == p[..|p| - 1] + [p[|p| - 1]];
  }

  // sorted(..., key=int)
  method SortUids(s: set<Uid>) returns (q: seq<Uid>)
    ensures Ascending(q)
    ensures forall u :: u in q <==> u in s
  {
    var pending := s;
    q := [];
    while pending != {}
      invariant pending <= s && forall u :: u in q <==> u in s - pending
      invariant Ascending(q)
      invariant forall u, x :: u in q && x in pending ==> u < x
    {
      ghost var least := LeastExists(pending);
      var u :| u in pending && forall x :: x in pending ==> u <= x;
      assert forall i :: 0 <= i < |q| ==> q[i] in q;
      q := q + [u];
      pending := pending - {u};
    }
  }

  lemma {:induction false} LeastExists(s: set<Uid>) returns (u: Uid)
    requires s != {}
    ensures u in s && forall x :: x in s ==> u <= x
    decreases |s|
  {
    u :| u in s;
    var rest := s - {u};
    if rest == {} {
      assert s == {u};
    } else {
      var x := LeastExists(rest);
      assert forall y :: y in s ==> y == u || y in rest;
      u := if u <= x then u else x;
    }
  }

  lemma ProcessNext(t: Tables, mb: Mailbox, batch: seq<Uid>, i: nat, faults: map<Uid, Fault>)
    requires i < |batch|
    ensures Process(t, mb, batch[..i + 1], faults)
            == Advance(Ingest(Process(t, mb, batch[..i], faults), mb, batch[i], faults), batch[i])
  {
    assert batch[..i + 1][..i] == batch[..i];
  }

  class Poller {
    var state: Option<PollState>       // the IMAPPollState row of this mailbox
    var rows: seq<Row>                 // InboundEmail rows, in order of creation
    var fetches: seq<Fetch>

    constructor ()
      ensures state == None && rows == [] && fetches == []
    {
      state, rows, fetches := None, [], [];
    }

    function View(mb: Mailbox): System
      reads this
    {
      System(mb, state, rows, fetches)
    }

    // _load_state
    method LoadState(validity: nat)
      modifies this`state
      ensures state == Some(Loaded(old(state), validity))
      ensures old(state).Some? && old(state).value.validity == validity ==> state == old(state)
      ensures old(state).None? || old(state).value.validity != validity ==> state == Some(PollState(validity, 0))
    {
      if state.None? {
        state := Some(PollState(validity, 0));
      } else if state.value.validity != validity {
        state := Some(PollState(validity, 0));
      }
    }

    // The part of poll_once before SEARCH: false when a needed UIDNEXT is unreadable.
    method LoadAndAnchor(mb: Mailbox, uidNextReadable: bool) returns (ok: bool)
      requires WellFormed(mb)
      modifies this`state
      ensures ok <==> Loaded(old(state), mb.validity).lastUid != 0 || uidNextReadable
      ensures state == Some(PollState(mb.validity, if ok then Watermark(old(state), mb) else 0))
    {
      LoadState(mb.validity);
      if state.value.lastUid == 0 {
        if !uidNextReadable {
          return false;
        }
        if mb.uidNext > 1 {
          state := Some(state.value.(lastUid := mb.uidNext - 1));
        }
      }
      return true;
    }

    /** _ingest_one: the row, the flag and the queued task as far as the steps get; an exception
        counts as "not ingested". */
    method IngestOne(mb: Mailbox, u: Uid, fault: Fault) returns (ok: bool)
      modifies this`rows, this`fetches
      ensures var o := OutcomeOf(old(rows), mb, u, fault);
        && fetches == old(fetches) + [Fetch(mb.validity, u, o)]
        && (ok <==> o.Queued? || o.Unqueued?)
        && (rows == old(rows) <==> o.Nothing? || o.Duplicate?)
      ensures rows == if u in mb.messages then IngestRows(old(rows), mb.messages[u], fault) else old(rows)
    {
      fetches := fetches + [Fetch(mb.validity, u, Nothing)];
      var last := |fetches| - 1;
      if u !in mb.messages || fault == NoBody || fault == RaisesBeforeRow {
        return false;
      }
      var msg := mb.messages[u];
      var row := Row(msg.tenant, KeyFor(msg, rows));
      if row in rows {
        fetches := fetches[last := Fetch(mb.validity, u, Duplicate)];
        return false;
      }
      rows := rows + [row];
      fetches := fetches[last := Fetch(mb.validity, u, Interrupted(|rows| - 1))];
      if fault == RaisesAfterRow {
        return false;
      }
      fetches := fetches[last := Fetch(mb.validity, u, Unqueued(|rows| - 1))];
      if fault != QueueFails {
        fetches := fetches[last := Fetch(mb.validity, u, Queued(|rows| - 1))];
      }
      return true;
    }

    // The for loop of poll_once. A crash leaves the tables as they are at that moment.
    method IngestBatch(mb: Mailbox, batch: seq<Uid>, inp: PollInput) returns (ingested: nat)
      requires state.Some?
      modifies this
      ensures state.Some?
      ensures var t := RunBatch(Tables(old(state.value), old(rows), old(fetches), 0), mb, batch, inp);
              state.value == t.state && rows == t.rows && fetches == t.fetches
              && (inp.crash.None? ==> ingested == t.ingested)
    {
      ghost var start := Tables(state.value, rows, fetches, 0);
      ingested := 0;
      for i := 0 to |batch|
        invariant state.Some?
        invariant inp.crash.Some? ==> i <= inp.crash.value.index || |batch| <= inp.crash.value.index
        invariant Tables(state.value, rows, fetches, ingested) == Process(start, mb, batch[..i], inp.faults)
      {
        var u := batch[i];
        ProcessNext(start, mb, batch, i, inp.faults);
        if inp.crash.Some? && inp.crash.value.index == i {
          if inp.crash.value.rowCreated {
            var done := IngestOne(mb, u, FaultOf(inp.faults, u));
          }
          return;
        }
        var ok := IngestOne(mb, u, FaultOf(inp.faults, u));
        if ok {
          ingested := ingested + 1;
        }
        if u > state.value.lastUid {
          state := Some(state.value.(lastUid := u));
        }
      }
      assert batch[..|batch|] == batch;
    }

    // UID SEARCH, the filter and the sort.
    method SearchNew(mb: Mailbox, lastUid: Uid) returns (batch: seq<Uid>)
      requires WellFormed(mb)
      ensures batch == Uids(mb, lastUid + 1, mb.uidNext)
    {
      batch := SortUids(NewUids(Search(mb, lastUid + 1), lastUid));
      UidsMembers(mb, lastUid + 1, mb.uidNext);
      UidsAscend(mb, lastUid + 1, mb.uidNext);
      SameAscending(batch, Uids(mb, lastUid + 1, mb.uidNext));
    }

    method SearchAndIngest(found: Mailbox, inp: PollInput) returns (ingested: nat)
      requires state.Some? && WellFormed(found)
      modifies this
      ensures state.Some?
      ensures var start := Tables(old(state.value), old(rows), old(fetches), 0);
              var t := RunBatch(start, found, Uids(found, start.state.lastUid + 1, found.uidNext), inp);
              state.value == t.state && rows == t.rows && fetches == t.fetches
    {
      var batch := SearchNew(found, state.value.lastUid);
      ingested := IngestBatch(found, batch, inp);
    }

    // poll_once once the mailbox's UIDVALIDITY has been read.
    method PollSelected(mb: Mailbox, inp: PollInput) returns (ingested: nat)
      requires WellFormed(mb) && inp.validityReadable
      modifies this
      ensures View(DeliverAll(mb, inp.late)) == Poll(old(View(mb)), inp)
    {
      ghost var s := View(mb);
      var anchored := LoadAndAnchor(mb, inp.uidNextReadable);
      if !anchored || !inp.searchOk {
        PollStopsEarly(s, inp);
        return 0;
      }
      DeliverAllKeeps(mb, inp.late);
      PollReachesBatch(s, inp);
      assert state == Some(Start(s, Watermark(s.state, mb)).state);
      ingested := SearchAndIngest(DeliverAll(mb, inp.late), inp);
    }

    /** poll_once refines the protocol step: SELECT shows `mb`, then the watermark row is loaded and
        anchored, SEARCH shows `mb` plus the late arrivals, and the loop ingests, saving the
        watermark after each message. */
    method PollMailbox(mb: Mailbox, inp: PollInput) returns (ingested: nat)
      requires WellFormed(mb)
      modifies this
      ensures View(DeliverAll(mb, inp.late)) == Poll(old(View(mb)), inp)
    {
      if !inp.validityReadable {
        return 0;
      }
      ingested := PollSelected(mb, inp);
    }
  }
}
