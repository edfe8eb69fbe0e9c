// Matching replies to tickets and building reply headers (apps/inbound_email/threading.py).
module Threading {
  import opened Options
  import opened Text
  import opened MessageIds

  type TenantId = nat
  type TicketId = nat

  // Email rows in the table's default order, newest first.
  datatype Row = Row(tenant: Option<TenantId>, messageId: string, ticket: Option<TicketId>)

  datatype Reply = Reply(inReplyTo: string, references: string, subjectNumber: Option<nat>)

  const THREAD_LIMIT := 10

  // filter(tenant, message_id, ticket not null).first()
  function TicketOf(rows: seq<Row>, tenant: TenantId, id: string): Option<TicketId> {
    if rows == [] then None
    else if rows[0].tenant == Some(tenant) && rows[0].messageId == id && rows[0].ticket.Some? then rows[0].ticket
    else TicketOf(rows[1..], tenant, id)
  }

  function MatchByInReplyTo(rows: seq<Row>, tenant: TenantId, r: Reply): Option<TicketId> {
    if r.inReplyTo == "" then None else TicketOf(rows, tenant, r.inReplyTo)
  }

  // From the most recent reference to the oldest.
  function MatchIds(rows: seq<Row>, tenant: TenantId, ids: seq<string>): Option<TicketId> {
    if ids == [] then None
    else
      var t := TicketOf(rows, tenant, ids[|ids| - 1]);
      if t.Some? then t else MatchIds(rows, tenant, ids[..|ids| - 1])
  }

  function MatchByReferences(rows: seq<Row>, tenant: TenantId, r: Reply): Option<TicketId> {
    if r.references == "" then None else MatchIds(rows, tenant, Words(r.references))
  }

  function MatchBySubject(numbers: map<(TenantId, nat), TicketId>, tenant: TenantId, r: Reply): Option<TicketId> {
    if r.subjectNumber.None? || r.subjectNumber.value == 0 then None
    else if (tenant, r.subjectNumber.value) in numbers then Some(numbers[(tenant, r.subjectNumber.value)])
    else None
  }

  function FindExistingTicket(
    rows: seq<Row>, numbers: map<(TenantId, nat), TicketId>, tenant: TenantId, r: Reply): Option<TicketId>
  {
    var a := MatchByInReplyTo(rows, tenant, r);
    if a.Some? then a
    else
      var b := MatchByReferences(rows, tenant, r);
      if b.Some? then b else MatchBySubject(numbers, tenant, r)
  }

  // ---------------------------------------------------------------- which ticket is found

  // The first row, in the table's order, of this tenant and message id that has a ticket.
  predicate FirstWith(rows: seq<Row>, tenant: TenantId, id: string, i: int) {
    && 0 <= i < |rows| && Answers(rows[i], tenant, id)
    && forall j :: 0 <= j < i ==> !Answers(rows[j], tenant, id)
  }

  predicate Answers(row: Row, tenant: TenantId, id: string) {
    row.tenant == Some(tenant) && row.messageId == id && row.ticket != None
  }

  lemma {:induction false} TicketOfIsFirst(rows: seq<Row>, tenant: TenantId, id: string)
    ensures TicketOf(rows, tenant, id) == None <==> forall i :: 0 <= i < |rows| ==> !Answers(rows[i], tenant, id)
    ensures TicketOf(rows, tenant, id) != None ==>
      exists i :: FirstWith(rows, tenant, id, i) && rows[i].ticket == TicketOf(rows, tenant, id)
  {
    if rows != [] {
      if Answers(rows[0], tenant, id) {
        assert FirstWith(rows, tenant, id, 0);
      } else {
        var tail := rows[1..];
        TicketOfIsFirst(tail, tenant, id);
        assert forall j :: 1 <= j < |rows| ==> rows[j] == tail[j - 1];
        if TicketOf(tail, tenant, id) != None {
          var i :| FirstWith(tail, tenant, id, i) && tail[i].ticket == TicketOf(tail, tenant, id);
          assert FirstWith(rows, tenant, id, i + 1);
        }
      }
    }
  }

  // The last of the ids that any row answers to.
  ghost predicate LastAnswered(rows: seq<Row>, tenant: TenantId, ids: seq<string>, k: int) {
    && 0 <= k < |ids| && TicketOf(rows, tenant, ids[k]) != None
    && forall j :: k < j < |ids| ==> TicketOf(rows, tenant, ids[j]) == None
  }

  lemma {:induction false} MatchIdsIsLast(rows: seq<Row>, tenant: TenantId, ids: seq<string>)
    ensures MatchIds(rows, tenant, ids) == None <==> forall k :: 0 <= k < |ids| ==> TicketOf(rows, tenant, ids[k]) == None
    ensures MatchIds(rows, tenant, ids) != None ==>
      exists k :: LastAnswered(rows, tenant, ids, k) && MatchIds(rows, tenant, ids) == TicketOf(rows, tenant, ids[k])
  {
    if ids != [] {
      var n := |ids| - 1;
      if TicketOf(rows, tenant, ids[n]) != None {
        assert LastAnswered(rows, tenant, ids, n);
      } else {
        MatchIdsIsLast(rows, tenant, ids[..n]);
        assert forall k :: 0 <= k < n ==> ids[..n][k] == ids[k];
        if MatchIds(rows, tenant, ids[..n]) != None {
          var k :| LastAnswered(rows, tenant, ids[..n], k) && MatchIds(rows, tenant, ids[..n]) == TicketOf(rows, tenant, ids[..n][k]);
          assert LastAnswered(rows, tenant, ids, k);
        }
      }
    }
  }

  // Some row answers to the In-Reply-To header.
  ghost predicate Replied(rows: seq<Row>, tenant: TenantId, r: Reply) {
    r.inReplyTo != "" && exists i :: FirstWith(rows, tenant, r.inReplyTo, i)
  }

  // Some row answers to one of the references.
  ghost predicate Referred(rows: seq<Row>, tenant: TenantId, r: Reply) {
    exists k :: LastAnswered(rows, tenant, Words(r.references), k)
  }

  /** Which ticket a reply belongs to: that of the newest row its In-Reply-To names; without one, that of
      the most recent reference any row answers to; without one, that of the ticket number in its
      subject, which is never zero; else none. */
  lemma TicketFoundExactly(
    rows: seq<Row>, numbers: map<(TenantId, nat), TicketId>, tenant: TenantId, r: Reply)
    ensures var t := FindExistingTicket(rows, numbers, tenant, r);
      && (Replied(rows, tenant, r) ==> exists i :: FirstWith(rows, tenant, r.inReplyTo, i) && t == rows[i].ticket)
      && (!Replied(rows, tenant, r) && Referred(rows, tenant, r) ==>
            exists k :: LastAnswered(rows, tenant, Words(r.references), k)
                        && t == TicketOf(rows, tenant, Words(r.references)[k]))
      && (!Replied(rows, tenant, r) && !Referred(rows, tenant, r) ==>
            forall x :: t == Some(x) <==>
              exists n :: r.subjectNumber == Some(n) && n > 0 && (tenant, n) in numbers && numbers[(tenant, n)] == x)
  {
    TicketOfIsFirst(rows, tenant, r.inReplyTo);
    MatchIdsIsLast(rows, tenant, Words(r.references));
    assert Words("") == [];
    assert r.subjectNumber.Some? ==> r.subjectNumber == Some(r.subjectNumber.value);
  }

  // ---------------------------------------------------------------- outbound headers

  datatype Headers = Headers(messageId: string, inReplyTo: Option<string>, references: Option<string>)

  predicate InThread(row: Row, tenant: TenantId, ticket: TicketId) {
    row.tenant == Some(tenant) && row.ticket == Some(ticket) && row.messageId != ""
  }

  // The rows the history query selects: the first `limit` rows of the thread, by position in the
  // table's order, so that any row of the thread left out is older than all of them.
  ghost predicate Newest(rows: seq<Row>, tenant: TenantId, ticket: TicketId, limit: nat, p: seq<nat>) {
    && |p| <= limit
    && (forall k :: 0 <= k < |p| ==> p[k] < |rows| && InThread(rows[p[k]], tenant, ticket))
    && (forall k, m :: 0 <= k < m < |p| ==> p[k] < p[m])
    && (forall j :: 0 <= j < |rows| && InThread(rows[j], tenant, ticket) && j !in p ==>
          |p| == limit && forall k :: 0 <= k < |p| ==> p[k] < j)
  }

  // There is only one such selection, so the contracts below determine the headers.
  lemma NewestIsUnique(rows: seq<Row>, tenant: TenantId, ticket: TicketId, limit: nat, p: seq<nat>, q: seq<nat>)
    requires Newest(rows, tenant, ticket, limit, p) && Newest(rows, tenant, ticket, limit, q)
    ensures p == q
  {
    SelectionsAgree(rows, tenant, ticket, limit, p, q);
    SelectionsAgree(rows, tenant, ticket, limit, q, p);
  }

  lemma {:induction false} AgreeUpTo(
    rows: seq<Row>, tenant: TenantId, ticket: TicketId, limit: nat, p: seq<nat>, q: seq<nat>, k: nat)
    requires Newest(rows, tenant, ticket, limit, p) && Newest(rows, tenant, ticket, limit, q)
    requires k <= |p| && k <= |q|
    ensures p[..k] == q[..k]
  {
    if k > 0 {
      AgreeUpTo(rows, tenant, ticket, limit, p, q, k - 1);
      NoSmaller(rows, tenant, ticket, limit, p, q, k - 1);
      NoSmaller(rows, tenant, ticket, limit, q, p, k - 1);
      assert p[..k] == p[..k - 1] + [p[k - 1]] && q[..k] == q[..k - 1] + [q[k - 1]];
    }
  }

  lemma NoSmaller(
    rows: seq<Row>, tenant: TenantId, ticket: TicketId, limit: nat, p: seq<nat>, q: seq<nat>, k: nat)
    requires Newest(rows, tenant, ticket, limit, p) && Newest(rows, tenant, ticket, limit, q)
    requires k < |p| && k < |q| && p[..k] == q[..k]
    ensures q[k] <= p[k]
  {
    assert forall m :: 0 <= m < k ==> p[..k][m] == q[m];
  }

  lemma SelectionsAgree(
    rows: seq<Row>, tenant: TenantId, ticket: TicketId, limit: nat, p: seq<nat>, q: seq<nat>)
    requires Newest(rows, tenant, ticket, limit, p) && Newest(rows, tenant, ticket, limit, q)
    ensures |p| <= |q| && p[..|p|] == q[..|p|]
  {
    var n := if |q| < |p| then |q| else |p|;
    var next := if n < |p| then p[n] else |rows|;
    AgreeUpTo(rows, tenant, ticket, limit, p, q, n);
    assert forall m :: 0 <= m < n ==> p[..n][m] == q[m];
    assert n == |q| ==> next !in q;
  }

  method HistoryQuery(rows: seq<Row>, tenant: TenantId, ticket: TicketId, limit: nat) returns (p: seq<nat>)
    ensures Newest(rows, tenant, ticket, limit, p)
    ensures forall k :: 0 <= k < |p| ==>
      var row := rows[p[k]]; row.tenant == Some(tenant) && row.ticket == Some(ticket) && row.messageId != ""
    ensures forall j :: 0 <= j < |rows| && j !in p ==>
      ((rows[j].tenant == Some(tenant) && rows[j].ticket == Some(ticket) && rows[j].messageId != "") ==>
         |p| == limit && forall k :: 0 <= k < |p| ==> p[k] < j)
  {
    p := [];
    var i := 0;
    while i < |rows| && |p| < limit
      invariant i <= |rows| && |p| <= limit
      invariant forall k :: 0 <= k < |p| ==> p[k] < i && InThread(rows[p[k]], tenant, ticket)
      invariant forall k, m :: 0 <= k < m < |p| ==> p[k] < p[m]
      invariant forall j :: 0 <= j < i && InThread(rows[j], tenant, ticket) ==> j in p
    {
      if InThread(rows[i], tenant, ticket) {
        p := p + [i];
      }
      i := i + 1;
    }
  }

  // The selected ids, from the oldest to the newest.
  function OldestFirst(rows: seq<Row>, p: seq<nat>): seq<string>
    requires forall k :: 0 <= k < |p| ==> p[k] < |rows|
  {
    seq(|p|, k requires 0 <= k < |p| => rows[p[|p| - 1 - k]].messageId)
  }

  // What the headers of an outbound email to this ticket say: the reply header names the newest id
  // of the thread, and reading the reference chain back gives the newest ids, oldest first.
  ghost predicate HeadersFor(rows: seq<Row>, tenant: TenantId, ticket: TicketId, newId: string, h: Headers) {
    exists p: seq<nat> :: SaysHistory(rows, tenant, ticket, p, h) && h.messageId == Bracketed(newId)
  }

  ghost predicate SaysHistory(rows: seq<Row>, tenant: TenantId, ticket: TicketId, p: seq<nat>, h: Headers) {
    && Newest(rows, tenant, ticket, 10, p)
    && (p == [] ==> h.inReplyTo.None? && h.references.None?)
    && (p != [] ==>
          && h.inReplyTo.Some? && h.references.Some?
          && h.inReplyTo.value == Bracketed(rows[p[0]].messageId)
          && h.references.value == PrintReferences(OldestFirst(rows, p))
          && ((forall k :: 0 <= k < |p| ==> CleanId(rows[p[k]].messageId)) ==>
                && Words(NormalizeReferences(h.references.value)) == OldestFirst(rows, p)
                && NormalizeId(h.inReplyTo.value) == OldestFirst(rows, p)[|p| - 1]))
  }

  method BuildThreadHeaders(rows: seq<Row>, tenant: TenantId, ticket: TicketId, newId: string) returns (h: Headers)
    ensures HeadersFor(rows, tenant, ticket, newId, h)
  {
    h := Headers(Bracketed(newId), None, None);
    var recent := HistoryQuery(rows, tenant, ticket, THREAD_LIMIT);
    if recent == [] {
      assert SaysHistory(rows, tenant, ticket, recent, h);
      return;
    }
    h := h.(inReplyTo := Some(Bracketed(rows[recent[0]].messageId)));
    var chain := OldestFirst(rows, recent);
    h := h.(references := Some(PrintReferences(chain)));
    if forall k :: 0 <= k < |recent| ==> CleanId(rows[recent[k]].messageId) {
      ReferencesRoundTrip(chain);
      NormalizeBracketed(rows[recent[0]].messageId);
    }
    assert SaysHistory(rows, tenant, ticket, recent, h);
  }

  // ---------------------------------------------------------------- the round trip

  predicate Agree(a: Row, b: Row) {
    a.tenant == b.tenant && a.messageId == b.messageId ==> a.ticket.None? || b.ticket.None? || a.ticket == b.ticket
  }

  // Each message id belongs to one ticket per tenant.
  ghost predicate OneTicketPerId(rows: seq<Row>) {
    forall a, b :: a in rows && b in rows ==> Agree(a, b)
  }

  lemma {:induction false} TicketOfIsUnique(rows: seq<Row>, row: Row, tenant: TenantId)
    requires OneTicketPerId(rows) && row in rows && row.tenant == Some(tenant) && row.ticket.Some?
    ensures TicketOf(rows, tenant, row.messageId) == row.ticket
    decreases |rows|
  {
    assert rows[0] in rows && Agree(rows[0], row);
    if !(rows[0].tenant == Some(tenant) && rows[0].messageId == row.messageId && rows[0].ticket.Some?) {
      assert forall r :: r in rows[1..] ==> r in rows;
      TicketOfIsUnique(rows[1..], row, tenant);
    }
  }

  // References that no stored email answers to are passed over.
  lemma {:induction false} UnmatchedTailIsSkipped(rows: seq<Row>, tenant: TenantId, ids: seq<string>, tail: seq<string>)
    requires forall i :: 0 <= i < |tail| ==> TicketOf(rows, tenant, tail[i]).None?
    ensures MatchIds(rows, tenant, ids + tail) == MatchIds(rows, tenant, ids)
    decreases |tail|
  {
    if tail == [] {
      assert ids + tail == ids;
    } else {
      assert (ids + tail)[..|ids + tail| - 1] == ids + tail[..|tail| - 1];
      UnmatchedTailIsSkipped(rows, tenant, ids, tail[..|tail| - 1]);
    }
  }

  // What a client derives from an outbound email: section 3.6.4 of RFC 5322 has a reply repeat the
  // chain and append ids, first of all that of the email replied to.
  predicate ContinuesChain(r: Reply, chain: seq<string>, tail: seq<string>) {
    r.references == NormalizeReferences(PrintReferences(chain + tail))
  }

  /** Threading round trip. A reply to any stored email of a ticket is matched to that ticket by its
      In-Reply-To. When that header is missing or names an email that was never stored, the
      References printed for the ticket do it, also with further ids appended that match nothing,
      and after more rows have been added. */
  lemma ReplyFindsItsTicket(
    rows: seq<Row>, later: seq<Row>, numbers: map<(TenantId, nat), TicketId>, tenant: TenantId, ticket: TicketId,
    p: seq<nat>, tail: seq<string>, r: Reply)
    requires forall x :: x in later && x.messageId != "" ==> CleanId(x.messageId)
    requires (forall x :: x in rows ==> x in later) && OneTicketPerId(later)
    ensures forall row :: row in later && InThread(row, tenant, ticket)
              && r.inReplyTo == NormalizeId(Bracketed(row.messageId))
              ==> FindExistingTicket(later, numbers, tenant, r) == Some(ticket)
    ensures (Newest(rows, tenant, ticket, THREAD_LIMIT, p) && p != []
             && (forall i :: 0 <= i < |tail| ==> CleanId(tail[i]) && TicketOf(later, tenant, tail[i]).None?)
             && ContinuesChain(r, OldestFirst(rows, p), tail)
             && MatchByInReplyTo(later, tenant, r).None?)
            ==> FindExistingTicket(later, numbers, tenant, r) == Some(ticket)
  {
    forall row | row in later && InThread(row, tenant, ticket) && r.inReplyTo == NormalizeId(Bracketed(row.messageId))
      ensures FindExistingTicket(later, numbers, tenant, r) == Some(ticket)
    {
      NormalizeBracketed(row.messageId);
      TicketOfIsUnique(later, row, tenant);
    }
    if Newest(rows, tenant, ticket, THREAD_LIMIT, p) && p != []
       && (forall i :: 0 <= i < |tail| ==> CleanId(tail[i]) && TicketOf(later, tenant, tail[i]).None?)
       && ContinuesChain(r, OldestFirst(rows, p), tail) && MatchByInReplyTo(later, tenant, r).None?
    {
      ChainFindsTicket(rows, later, tenant, ticket, p, tail, r);
    }
  }

  lemma ChainFindsTicket(
    rows: seq<Row>, later: seq<Row>, tenant: TenantId, ticket: TicketId, p: seq<nat>, tail: seq<string>, r: Reply)
    requires forall x :: x in later && x.messageId != "" ==> CleanId(x.messageId)
    requires (forall x :: x in rows ==> x in later) && OneTicketPerId(later)
    requires Newest(rows, tenant, ticket, THREAD_LIMIT, p) && p != []
    requires forall i :: 0 <= i < |tail| ==> CleanId(tail[i]) && TicketOf(later, tenant, tail[i]).None?
    requires ContinuesChain(r, OldestFirst(rows, p), tail)
    ensures MatchByReferences(later, tenant, r) == Some(ticket)
  {
    var chain := OldestFirst(rows, p);
    var all := chain + tail;
    forall i | 0 <= i < |all| ensures CleanId(all[i]) {
      if i < |chain| {
        assert rows[p[|p| - 1 - i]] in rows;
      } else {
        assert all[i] == tail[i - |chain|];
      }
    }
    ReferencesRoundTrip(all);
    assert Words("") == [];
    UnmatchedTailIsSkipped(later, tenant, chain, tail);
    var newest := rows[p[0]];
    assert newest in rows && InThread(newest, tenant, ticket) && chain[|chain| - 1] == newest.messageId;
    TicketOfIsUnique(later, newest, tenant);
  }
}
