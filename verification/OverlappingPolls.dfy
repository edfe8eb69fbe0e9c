// Several pollers on one watermark row and one table of emails
// (apps/inbound_email/imap_poller.py): neither takes a lock.
module OverlappingPolls {
  import opened Options
  import opened Sets
  import opened ImapPoller

  type PollerId = nat

  // A poll under way: its own copy of last_uid, what its SEARCH left to do, the UIDNEXT of that
  // SEARCH, and whether the next message has been tried already.
  datatype Pending = Loaded(lastUid: Uid) | Searched(lastUid: Uid, rest: seq<Uid>, ceiling: Uid, tried: bool)

  // The epoch's mailbox, the saved watermark, the polls under way and the UIDs attempted so far.
  datatype Pool = Pool(mb: Mailbox, watermark: Uid, polls: map<PollerId, Pending>, attempted: set<Uid>)

  datatype Step =
    | Arrive(msg: Message)
    | Expunge(uid: Uid)
    | Load(p: PollerId)         // reads the watermark row
    | SearchAbove(p: PollerId)  // UID SEARCH above the copy
    | Try(p: PollerId)          // fetches and ingests the next message, whatever comes of it
    | Save(p: PollerId)         // writes the copy back: save(update_fields=["last_uid"])
    | Die(p: PollerId)          // finishes or crashes

  function Apply(w: Pool, s: Step): Pool {
    match s
    case Arrive(msg) => w.(mb := Deliver(w.mb, msg))
    case Expunge(u) => w.(mb := w.mb.(messages := w.mb.messages - {u}))
    case Load(p) => w.(polls := w.polls[p := Loaded(w.watermark)])
    case SearchAbove(p) =>
      if p in w.polls && w.polls[p].Loaded?
      then
        var last := w.polls[p].lastUid;
        w.(polls := w.polls[p := Searched(last, Uids(w.mb, last + 1, w.mb.uidNext), w.mb.uidNext, false)])
      else w
    case Try(p) =>
      if p in w.polls && w.polls[p].Searched? && w.polls[p].rest != []
      then w.(attempted := w.attempted + {w.polls[p].rest[0]}, polls := w.polls[p := w.polls[p].(tried := true)])
      else w
    case Save(p) =>
      if p in w.polls && w.polls[p].Searched? && w.polls[p].rest != [] && w.polls[p].tried
      then
        var q := w.polls[p];
        w.(watermark := q.rest[0], polls := w.polls[p := Searched(q.rest[0], q.rest[1..], q.ceiling, false)])
      else w
    case Die(p) => w.(polls := w.polls - {p})
  }

  function Run(w: Pool, ss: seq<Step>): Pool {
    if ss == [] then w else Apply(Run(w, ss[..|ss| - 1]), ss[|ss| - 1])
  }

  // Every message above `from` and up to x that is still there has been attempted.
  ghost predicate Passed(w: Pool, from: Uid, x: Uid) {
    forall u :: u in w.mb.messages && from < u <= x ==> u in w.attempted
  }

  // What a SEARCH leaves to do: ascending, above the copy, complete below its UIDNEXT.
  ghost predicate Complete(w: Pool, q: Pending)
    requires q.Searched?
  {
    && Ascending(q.rest) && q.ceiling <= w.mb.uidNext && q.lastUid < q.ceiling
    && (forall i :: 0 <= i < |q.rest| ==> q.lastUid < q.rest[i] < q.ceiling)
    && (forall u :: u in w.mb.messages && q.lastUid < u < q.ceiling ==> u in q.rest)
    && (q.tried ==> q.rest != [] && q.rest[0] in w.attempted)
  }

  ghost predicate Sound(w: Pool, from: Uid, q: Pending) {
    from <= q.lastUid < w.mb.uidNext && Passed(w, from, q.lastUid) && (q.Searched? ==> Complete(w, q))
  }

  ghost predicate Inv(w: Pool, from: Uid) {
    && WellFormed(w.mb) && 0 < from <= w.watermark < w.mb.uidNext && Passed(w, from, w.watermark)
    && forall p :: p in w.polls ==> Sound(w, from, w.polls[p])
  }

  lemma MailboxStep(w: Pool, from: Uid, s: Step)
    requires Inv(w, from) && (s.Arrive? || s.Expunge?)
    ensures Inv(Apply(w, s), from)
  {
    var w' := Apply(w, s);
    forall p | p in w'.polls ensures Sound(w', from, w'.polls[p]) {
      assert Sound(w, from, w.polls[p]);
    }
  }

  lemma SearchIsSound(w: Pool, from: Uid, last: Uid)
    requires WellFormed(w.mb) && from <= last < w.mb.uidNext && Passed(w, from, last)
    ensures Sound(w, from, Searched(last, Uids(w.mb, last + 1, w.mb.uidNext), w.mb.uidNext, false))
  {
    var q := Uids(w.mb, last + 1, w.mb.uidNext);
    UidsAscend(w.mb, last + 1, w.mb.uidNext);
    UidsMembers(w.mb, last + 1, w.mb.uidNext);
    assert forall i :: 0 <= i < |q| ==> q[i] in q;
  }

  lemma TryIsSound(w: Pool, from: Uid, p: PollerId)
    requires Inv(w, from) && p in w.polls && w.polls[p].Searched? && w.polls[p].rest != []
    ensures Inv(Apply(w, Try(p)), from)
  {
    var w' := Apply(w, Try(p));
    forall x | x in w'.polls ensures Sound(w', from, w'.polls[x]) {
      assert Sound(w, from, w.polls[x]);
    }
  }

  // A tried message is the least one above the copy, so moving the copy onto it skips nothing.
  lemma SaveIsSound(w: Pool, from: Uid, q: Pending)
    requires Sound(w, from, q) && q.Searched? && q.rest != [] && q.tried
    ensures Sound(w, from, Searched(q.rest[0], q.rest[1..], q.ceiling, false))
    ensures Passed(w, from, q.rest[0])
  {
    var u, tail := q.rest[0], q.rest[1..];
    assert forall i :: 0 <= i < |tail| ==> tail[i] == q.rest[i + 1];
    forall x | x in w.mb.messages && q.lastUid < x < q.ceiling ensures x == u || (u < x && x in tail) {
      var i :| 0 <= i < |q.rest| && q.rest[i] == x;
      assert i > 0 ==> tail[i - 1] == x;
    }
  }

  lemma PollStep(w: Pool, from: Uid, s: Step)
    requires Inv(w, from) && !s.Arrive? && !s.Expunge?
    ensures Inv(Apply(w, s), from)
  {
    match s
    case Load(_) =>
    case SearchAbove(p) =>
      if p in w.polls && w.polls[p].Loaded? {
        assert Sound(w, from, w.polls[p]);
        SearchIsSound(w, from, w.polls[p].lastUid);
      }
    case Try(p) =>
      if p in w.polls && w.polls[p].Searched? && w.polls[p].rest != [] {
        TryIsSound(w, from, p);
      }
    case Save(p) =>
      if p in w.polls && w.polls[p].Searched? && w.polls[p].rest != [] && w.polls[p].tried {
        assert Sound(w, from, w.polls[p]);
        SaveIsSound(w, from, w.polls[p]);
      }
    case Die(_) =>
  }

  /** However many polls overlap, crash and overwrite one another's watermark: over every run of an
      epoch from a positive watermark, each message the saved watermark has passed has been
      attempted, and the watermark stays between its start and UIDNEXT. */
  lemma {:induction false} OverlappingPollsSkipNothing(w: Pool, ss: seq<Step>)
    requires WellFormed(w.mb) && 0 < w.watermark < w.mb.uidNext && w.polls == map[]
    ensures Inv(Run(w, ss), w.watermark)
    decreases |ss|
  {
    if ss != [] {
      OverlappingPollsSkipNothing(w, ss[..|ss| - 1]);
      var mid, s := Run(w, ss[..|ss| - 1]), ss[|ss| - 1];
      if s.Arrive? || s.Expunge? {
        MailboxStep(mid, w.watermark, s);
      } else {
        PollStep(mid, w.watermark, s);
      }
    }
  }

  /** And a poll that comes to the end of its batch leaves every message of its SEARCH attempted, by
      itself or by another. */
  lemma FinishedPollMissesNothing(w: Pool, ss: seq<Step>, p: PollerId, u: Uid)
    requires WellFormed(w.mb) && 0 < w.watermark < w.mb.uidNext && w.polls == map[]
    requires p in Run(w, ss).polls && Run(w, ss).polls[p].Searched? && Run(w, ss).polls[p].rest == []
    requires u in Run(w, ss).mb.messages && w.watermark < u < Run(w, ss).polls[p].ceiling
    ensures u in Run(w, ss).attempted
  {
    OverlappingPollsSkipNothing(w, ss);
    assert Sound(Run(w, ss), w.watermark, Run(w, ss).polls[p]);
  }

  /** But the watermark is not monotone: of two polls that load it together, the slower one takes it
      back from 3 to 2, so messages are fetched again. */
  lemma OverlappingPollsLowerTheWatermark(v: nat, a: Message, b: Message, c: Message)
    ensures var mb := Mailbox(v, 4, map[1 := a, 2 := b, 3 := c]);
      var w := Pool(mb, 1, map[0 := Searched(1, [2, 3], 4, false), 1 := Searched(1, [2, 3], 4, false)], {});
      var w1 := Apply(Apply(Apply(Apply(w, Try(0)), Save(0)), Try(0)), Save(0));
      var w2 := Apply(Apply(w1, Try(1)), Save(1));
      && Inv(w, 1) && w1.watermark == 3 && w2.watermark == 2
  {
    var mb := Mailbox(v, 4, map[1 := a, 2 := b, 3 := c]);
    var w := Pool(mb, 1, map[0 := Searched(1, [2, 3], 4, false), 1 := Searched(1, [2, 3], 4, false)], {});
    assert forall u :: u in mb.messages && 1 < u < 4 ==> u in [2, 3];
    assert [2, 3][1..] == [3];
  }

  /** Whenever nobody else has saved since it loaded, a poll never lowers the watermark. */
  lemma AloneNeverLowers(w: Pool, from: Uid, p: PollerId)
    requires Inv(w, from) && p in w.polls && w.polls[p].lastUid == w.watermark
    ensures w.watermark <= Apply(w, Save(p)).watermark
  {
    assert Sound(w, from, w.polls[p]);
  }

  // ---------------------------------------------------------------- two ingestions of one message

  // One ingestion: the row it is for, and the version of the table its exists() check saw.
  datatype Receipt = Receipt(checked: nat, row: Row)

  // tables[k] is the table when the CREATE of receipt k runs, if it does.
  ghost predicate IsHistory(tables: seq<seq<Row>>, rs: seq<Receipt>) {
    && |tables| == |rs| + 1
    && forall k :: 0 <= k < |rs| ==> ReceiptAt(tables, rs, k)
  }

  predicate ReceiptAt(tables: seq<seq<Row>>, rs: seq<Receipt>, k: nat)
    requires |tables| == |rs| + 1 && k < |rs|
  {
    && rs[k].checked <= k
    && tables[k + 1] == if rs[k].row in tables[rs[k].checked] then tables[k] else tables[k] + [rs[k].row]
  }

  predicate Creates(tables: seq<seq<Row>>, rs: seq<Receipt>, k: nat)
    requires |tables| == |rs| + 1 && k < |rs|
  {
    rs[k].checked <= k && rs[k].row !in tables[rs[k].checked]
  }

  // No row is created between the check and the CREATE of another receipt of the same message.
  ghost predicate NoRace(tables: seq<seq<Row>>, rs: seq<Receipt>)
    requires |tables| == |rs| + 1
  {
    forall j, k :: 0 <= j < k < |rs| && rs[k].checked <= j && Creates(tables, rs, j) && Creates(tables, rs, k)
      ==> rs[j].row != rs[k].row
  }

  lemma TablesGrow(tables: seq<seq<Row>>, rs: seq<Receipt>, i: nat, j: nat)
    requires IsHistory(tables, rs) && i <= j < |tables|
    ensures tables[i] <= tables[j]
  {
    for k := i to j
      invariant tables[i] <= tables[k]
    {
      assert ReceiptAt(tables, rs, k);
    }
  }

  // A row that was not there at version i and is at j was created in between.
  lemma CreatedBetween(tables: seq<seq<Row>>, rs: seq<Receipt>, i: nat, j: nat, row: Row) returns (k: nat)
    requires IsHistory(tables, rs) && i <= j < |tables| && row !in tables[i] && row in tables[j]
    ensures i <= k < j && Creates(tables, rs, k) && rs[k].row == row
  {
    k := i;
    while row !in tables[k + 1]
      invariant i <= k < j && row !in tables[k]
      decreases j - k
    {
      assert ReceiptAt(tables, rs, k);
      k := k + 1;
    }
    assert ReceiptAt(tables, rs, k);
  }

  lemma StepStaysDistinct(tables: seq<seq<Row>>, rs: seq<Receipt>, k: nat)
    requires IsHistory(tables, rs) && NoRace(tables, rs) && k < |rs| && Distinct(tables[k])
    ensures Distinct(tables[k + 1])
  {
    assert ReceiptAt(tables, rs, k);
    if Creates(tables, rs, k) {
      if rs[k].row in tables[k] {
        var j := CreatedBetween(tables, rs, rs[k].checked, k, rs[k].row);
        assert false;
      }
      DistinctSnoc(tables[k], rs[k].row);
    }
  }

  lemma RaceMakesDuplicate(tables: seq<seq<Row>>, rs: seq<Receipt>, j: nat, k: nat)
    requires IsHistory(tables, rs) && j < k < |rs| && rs[j].row == rs[k].row
    requires Creates(tables, rs, j) && Creates(tables, rs, k)
    ensures !Distinct(tables[k + 1])
  {
    assert ReceiptAt(tables, rs, j) && ReceiptAt(tables, rs, k);
    TablesGrow(tables, rs, j + 1, k);
    assert tables[j + 1][|tables[j]|] == rs[j].row && tables[k][|tables[j]|] == rs[j].row;
    DistinctSnoc(tables[k], rs[k].row);
  }

  /** One row per tenant and Message-ID, exactly: however many pollers ingest at once, the table stays
      free of duplicates if and only if none creates a row between the exists() check and the CREATE
      of another one for the same message. */
  lemma OneRowPerMessageIdExactlyWhen(tables: seq<seq<Row>>, rs: seq<Receipt>)
    requires IsHistory(tables, rs) && Distinct(tables[0])
    ensures (forall k :: 0 <= k < |tables| ==> Distinct(tables[k])) <==> NoRace(tables, rs)
  {
    if NoRace(tables, rs) {
      for k := 0 to |rs|
        invariant forall i :: 0 <= i <= k ==> Distinct(tables[i])
      {
        StepStaysDistinct(tables, rs, k);
      }
    } else {
      var j, k :| 0 <= j < k < |rs| && rs[k].checked <= j && Creates(tables, rs, j) && Creates(tables, rs, k)
                  && rs[j].row == rs[k].row;
      RaceMakesDuplicate(tables, rs, j, k);
    }
  }
}
