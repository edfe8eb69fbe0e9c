// Choosing an agent by the strategy chain (apps/inbox_hub/assignment.py, _select_agent).
module Selection {
  import opened Options
  import opened HubStateMachine
  import opened Presence
  import opened Assignment
  import opened Text

  const DEFAULT_STRATEGY := "availability_aware" + "|" + "least_loaded" + "|" + "round_robin"

  // What the sort key looks at for one candidate.
  datatype Metrics = Metrics(remaining: int, load: int, lastAssigned: int)

  function NonBlank(tokens: seq<string>): seq<string> {
    if tokens == [] then []
    else (if Strip(tokens[0]) == "" then [] else [Strip(tokens[0])]) + NonBlank(tokens[1..])
  }

  function StrategyChain(cfg: Config, he: HubEmail): seq<string> {
    var code :=
      if he.queue.Some? && he.queue.value in cfg.queueStrategy && cfg.queueStrategy[he.queue.value] != ""
      then cfg.queueStrategy[he.queue.value] else DEFAULT_STRATEGY;
    NonBlank(Split(code, '|'))
  }

  function Part(token: string, x: Metrics): Option<int> {
    if token == "availability_aware" then Some(-x.remaining)
    else if token == "least_loaded" then Some(x.load)
    else if token == "round_robin" then Some(x.lastAssigned)
    else None
  }

  function Parts(chain: seq<string>, x: Metrics): seq<int> {
    if chain == [] then []
    else (match Part(chain[0], x) case Some(v) => [v] case None => []) + Parts(chain[1..], x)
  }

  // User ids are numbered in the order of their printed form, the final tie-break.
  function SortKey(chain: seq<string>, x: Metrics, u: UserId): seq<int> {
    Parts(chain, x) + [u]
  }

  // Tuple comparison.
  predicate LexLess(a: seq<int>, b: seq<int>) {
    b != [] && (a == [] || a[0] < b[0] || (a[0] == b[0] && LexLess(a[1..], b[1..])))
  }

  function Carried(w: World, u: UserId): set<EmailId> {
    set e | e in w.emails && w.emails[e].assignee == Some(u) && w.emails[e].state in ACTIVE_STATES
  }

  function LastAssigned(rows: seq<AuditRow>, u: UserId): Option<int> {
    if rows == [] then None
    else
      var r, before := rows[|rows| - 1], LastAssigned(rows[..|rows| - 1], u);
      if r.user != u then before
      else Some(if before.Some? && before.value > r.at then before.value else r.at)
  }

  function MetricsOf(w: World, u: UserId): Metrics
    requires u in w.agents
  {
    Metrics(w.agents[u].RemainingCapacity(),
            |Carried(w, u)| + w.agents[u].ticketCount,
            LastAssigned(w.audit, u).GetOr(0))
  }

  function Candidates(cfg: Config, w: World, he: HubEmail, m: Moment): set<UserId> {
    set u | u in w.agents && InPool(cfg, he, u) && IsAssignable(cfg.ttl, u, w.agents[u], m)
  }

  function KeyOf(chain: seq<string>, w: World, u: UserId): seq<int>
    requires u in w.agents
  {
    SortKey(chain, MetricsOf(w, u), u)
  }

  // The answer the engine should give: nobody when nobody is assignable, else the least key.
  ghost predicate BestChoice(cfg: Config, w: World, he: HubEmail, m: Moment, chain: seq<string>, r: Option<UserId>) {
    var pool := Candidates(cfg, w, he, m);
    match r
    case None => pool == {}
    case Some(u) => u in pool && forall v :: v in pool && v != u ==> LexLess(KeyOf(chain, w, u), KeyOf(chain, w, v))
  }

  // ---------------------------------------------------------------- the order

  lemma {:induction false} LexTransitive(a: seq<int>, b: seq<int>, c: seq<int>)
    requires LexLess(a, b) && LexLess(b, c)
    ensures LexLess(a, c)
  {
    if a != [] && a[0] == b[0] == c[0] {
      LexTransitive(a[1..], b[1..], c[1..]);
    }
  }

  lemma {:induction false} LexTotal(a: seq<int>, b: seq<int>)
    ensures a == b || LexLess(a, b) || LexLess(b, a)
    ensures !(LexLess(a, b) && LexLess(b, a))
  {
    if a != [] && b != [] {
      LexTotal(a[1..], b[1..]);
      if a[0] == b[0] && a[1..] == b[1..] {
        assert a == [a[0]] + a[1..] && b == [b[0]] + b[1..];
      }
    }
  }

  // Different users never tie.
  lemma KeysDiffer(chain: seq<string>, w: World, u: UserId, v: UserId)
    requires u in w.agents && v in w.agents && u != v
    ensures KeyOf(chain, w, u) != KeyOf(chain, w, v)
  {
    var a, b := KeyOf(chain, w, u), KeyOf(chain, w, v);
    assert a[|a| - 1] == u && b[|b| - 1] == v;
  }

  /** The specification has at most one answer, so the result does not depend on the order
      in which the database returns the availability rows. */
  lemma BestChoiceIsUnique(
    cfg: Config, w: World, he: HubEmail, m: Moment, chain: seq<string>, r: Option<UserId>, s: Option<UserId>)
    requires BestChoice(cfg, w, he, m, chain, r) && BestChoice(cfg, w, he, m, chain, s)
    ensures r == s
  {
    if r.Some? && s.Some? && r != s {
      LexTotal(KeyOf(chain, w, r.value), KeyOf(chain, w, s.value));
    }
  }

  // ---------------------------------------------------------------- redundant strategy tokens

  predicate Known(token: string) {
    token == "availability_aware" || token == "least_loaded" || token == "round_robin"
  }

  // The chain without unknown tokens and without repetitions of an earlier token.
  function Essential(chain: seq<string>, seen: set<string>): seq<string> {
    if chain == [] then []
    else if Known(chain[0]) && chain[0] !in seen
    then [chain[0]] + Essential(chain[1..], seen + {chain[0]})
    else Essential(chain[1..], seen)
  }

  lemma {:induction false} RedundantTokensDoNotMatter(
    chain: seq<string>, seen: set<string>, x: Metrics, u: UserId, y: Metrics, v: UserId)
    requires forall t :: t in seen ==> Part(t, x) == Part(t, y)
    ensures LexLess(SortKey(chain, x, u), SortKey(chain, y, v))
       <==> LexLess(SortKey(Essential(chain, seen), x, u), SortKey(Essential(chain, seen), y, v))
  {
    if chain != [] {
      var t, rest := chain[0], chain[1..];
      if !Known(t) {
        RedundantTokensDoNotMatter(rest, seen, x, u, y, v);
        assert Parts(chain, x) == Parts(rest, x) && Parts(chain, y) == Parts(rest, y);
      } else {
        var a, b := Part(t, x).value, Part(t, y).value;
        assert SortKey(chain, x, u) == [a] + SortKey(rest, x, u);
        assert SortKey(chain, y, v) == [b] + SortKey(rest, y, v);
        if t in seen {
          RedundantTokensDoNotMatter(rest, seen, x, u, y, v);
        } else {
          var short := Essential(rest, seen + {t});
          assert Essential(chain, seen) == [t] + short;
          assert SortKey([t] + short, x, u) == [a] + SortKey(short, x, u);
          assert SortKey([t] + short, y, v) == [b] + SortKey(short, y, v);
          if a == b {
            RedundantTokensDoNotMatter(rest, seen + {t}, x, u, y, v);
          }
        }
      }
    }
  }

  /** Deleting unknown and repeated strategy tokens never changes who is chosen. */
  lemma ChoiceIgnoresRedundantTokens(
    cfg: Config, w: World, he: HubEmail, m: Moment, chain: seq<string>, r: Option<UserId>)
    ensures BestChoice(cfg, w, he, m, chain, r) <==> BestChoice(cfg, w, he, m, Essential(chain, {}), r)
  {
    forall u, v | u in w.agents && v in w.agents
      ensures LexLess(KeyOf(chain, w, u), KeyOf(chain, w, v))
         <==> LexLess(KeyOf(Essential(chain, {}), w, u), KeyOf(Essential(chain, {}), w, v))
    {
      RedundantTokensDoNotMatter(chain, {}, MetricsOf(w, u), u, MetricsOf(w, v), v);
    }
  }

  // ---------------------------------------------------------------- the algorithm

  predicate Sorted(chain: seq<string>, w: World, c: seq<UserId>) {
    && (forall i :: 0 <= i < |c| ==> c[i] in w.agents)
    && forall i, j :: 0 <= i < j < |c| ==> LexLess(KeyOf(chain, w, c[i]), KeyOf(chain, w, c[j]))
  }

  // ---------------------------------------------------------------- who is preferred

  // What an agent carries in the Hub: assigned emails that are not settled.
  function Unsettled(w: World, u: UserId): set<EmailId> {
    set e | e in w.emails && w.emails[e].assignee == Some(u) && w.emails[e].state !in {Resolved, Converted, Dismissed}
  }

  // t is the time of the newest audit row naming u, and 0 when there is none.
  ghost predicate Newest(w: World, u: UserId, t: int) {
    || ((exists i :: 0 <= i < |w.audit| && w.audit[i].user == u && w.audit[i].at == t)
        && forall i :: 0 <= i < |w.audit| && w.audit[i].user == u ==> w.audit[i].at <= t)
    || (t == 0 && forall i :: 0 <= i < |w.audit| ==> w.audit[i].user != u)
  }

  ghost predicate AssignedLongerAgo(w: World, u: UserId, v: UserId) {
    exists s, t :: Newest(w, u, s) && Newest(w, v, t) && s < t
  }

  ghost predicate AssignedAtOnce(w: World, u: UserId, v: UserId) {
    exists t :: Newest(w, u, t) && Newest(w, v, t)
  }

  function Free(w: World, u: UserId): int
    requires u in w.agents
  {
    w.agents[u].maxConcurrent - w.agents[u].ticketCount
  }

  function Load(w: World, u: UserId): nat
    requires u in w.agents
  {
    |Unsettled(w, u)| + w.agents[u].ticketCount
  }

  // The preference a chain expresses, for any order of its tokens: each in turn separates the agents
  // that those before it left equal, and the smaller id the ones left equal by all.
  ghost predicate Prefers(chain: seq<string>, w: World, u: UserId, v: UserId)
    requires u in w.agents && v in w.agents
  {
    if chain == [] then u < v
    else if chain[0] == "availability_aware" then
      Free(w, u) > Free(w, v) || (Free(w, u) == Free(w, v) && Prefers(chain[1..], w, u, v))
    else if chain[0] == "least_loaded" then
      Load(w, u) < Load(w, v) || (Load(w, u) == Load(w, v) && Prefers(chain[1..], w, u, v))
    else if chain[0] == "round_robin" then
      AssignedLongerAgo(w, u, v) || (AssignedAtOnce(w, u, v) && Prefers(chain[1..], w, u, v))
    else Prefers(chain[1..], w, u, v)
  }

  lemma CarriedIsUnsettled(w: World, u: UserId)
    ensures Carried(w, u) == Unsettled(w, u)
  {
    forall e | e in w.emails ensures e in Carried(w, u) <==> e in Unsettled(w, u) {
      ActiveUnlessSettled(w.emails[e].state);
    }
  }

  lemma {:induction false} LastAssignedIsNewest(rows: seq<AuditRow>, u: UserId)
    ensures var last := LastAssigned(rows, u);
      && (last.None? <==> forall i :: 0 <= i < |rows| ==> rows[i].user != u)
      && (last.Some? ==> exists i :: 0 <= i < |rows| && rows[i].user == u && rows[i].at == last.value)
      && (last.Some? ==> forall i :: 0 <= i < |rows| && rows[i].user == u ==> rows[i].at <= last.value)
  {
    if rows != [] {
      var front := rows[..|rows| - 1];
      LastAssignedIsNewest(front, u);
      assert forall i :: 0 <= i < |front| ==> rows[i] == front[i];
    }
  }

  lemma NewestIs(w: World, u: UserId, t: int)
    ensures Newest(w, u, t) <==> t == LastAssigned(w.audit, u).GetOr(0)
  {
    LastAssignedIsNewest(w.audit, u);
  }

  // The sort key expresses this preference.
  lemma {:induction false} KeyPrefers(chain: seq<string>, w: World, u: UserId, v: UserId)
    requires u in w.agents && v in w.agents
    requires w.agents[u].RemainingCapacity() > 0 && w.agents[v].RemainingCapacity() > 0
    ensures LexLess(KeyOf(chain, w, u), KeyOf(chain, w, v)) <==> Prefers(chain, w, u, v)
    decreases |chain|
  {
    var x, y := MetricsOf(w, u), MetricsOf(w, v);
    if chain != [] {
      var rest := chain[1..];
      KeyPrefers(rest, w, u, v);
      CarriedIsUnsettled(w, u);
      CarriedIsUnsettled(w, v);
      StampsCompare(w, u, v);
      if Part(chain[0], x).Some? {
        assert KeyOf(chain, w, u) == [Part(chain[0], x).value] + KeyOf(rest, w, u);
        assert KeyOf(chain, w, v) == [Part(chain[0], y).value] + KeyOf(rest, w, v);
      } else {
        assert KeyOf(chain, w, u) == KeyOf(rest, w, u) && KeyOf(chain, w, v) == KeyOf(rest, w, v);
      }
    }
  }

  lemma StampsCompare(w: World, u: UserId, v: UserId)
    ensures var s, t := LastAssigned(w.audit, u).GetOr(0), LastAssigned(w.audit, v).GetOr(0);
      (AssignedLongerAgo(w, u, v) <==> s < t) && (AssignedAtOnce(w, u, v) <==> s == t)
  {
    forall t ensures Newest(w, u, t) <==> t == LastAssigned(w.audit, u).GetOr(0) {
      NewestIs(w, u, t);
    }
    forall t ensures Newest(w, v, t) <==> t == LastAssigned(w.audit, v).GetOr(0) {
      NewestIs(w, v, t);
    }
    assert Newest(w, u, LastAssigned(w.audit, u).GetOr(0)) && Newest(w, v, LastAssigned(w.audit, v).GetOr(0));
  }

  // The agents among whom the engine chooses, in terms of memberships and columns.
  ghost predicate MayGet(cfg: Config, w: World, he: HubEmail, m: Moment, u: UserId) {
    && (if he.department.Some? then (he.department.value, u) in cfg.departmentMembers
        else if he.queue.Some? && he.queue.value in cfg.queueDepartment
        then (cfg.queueDepartment[he.queue.value], u) in cfg.departmentMembers
        else u in cfg.agentMembers)
    && u in w.agents && w.agents[u].status == Online && w.agents[u].ticketCount + 1 <= w.agents[u].maxConcurrent
    && (exists seen :: w.agents[u].lastSeen == Some(seen) && m.now <= seen + cfg.ttl)
    && (u in m.inHours || !w.agents[u].autoAwayOutsideHours)
  }

  lemma CandidatesMayGet(cfg: Config, w: World, he: HubEmail, m: Moment, u: UserId)
    ensures u in Candidates(cfg, w, he, m) <==> MayGet(cfg, w, he, m, u)
  {
    if u in w.agents {
      AssignableExactlyWhen(cfg.ttl, u, w.agents[u], m);
    }
  }

  // Nobody may get the email, or `r` may and is preferred to everybody else who may.
  ghost predicate Preferred(cfg: Config, w: World, he: HubEmail, m: Moment, chain: seq<string>, r: Option<UserId>) {
    match r
    case None => forall v :: !MayGet(cfg, w, he, m, v)
    case Some(u) =>
      && MayGet(cfg, w, he, m, u)
      && forall v :: MayGet(cfg, w, he, m, v) && v != u ==> Prefers(chain, w, u, v)
  }

  /** The least sort key is the preferred agent: for every chain, whatever the order of its tokens. */
  lemma BestIsPreferred(cfg: Config, w: World, he: HubEmail, m: Moment, chain: seq<string>, r: Option<UserId>)
    ensures BestChoice(cfg, w, he, m, chain, r) <==> Preferred(cfg, w, he, m, chain, r)
  {
    forall v ensures v in Candidates(cfg, w, he, m) <==> MayGet(cfg, w, he, m, v) {
      CandidatesMayGet(cfg, w, he, m, v);
    }
    if r.Some? && r.value in Candidates(cfg, w, he, m) {
      forall v | v in Candidates(cfg, w, he, m)
        ensures LexLess(KeyOf(chain, w, r.value), KeyOf(chain, w, v)) <==> Prefers(chain, w, r.value, v)
      {
        KeyPrefers(chain, w, r.value, v);
      }
    }
  }

  const DEFAULT_CHAIN := ["availability_aware", "least_loaded", "round_robin"]

  lemma DefaultPreference(w: World, u: UserId, v: UserId)
    requires u in w.agents && v in w.agents
    ensures Prefers(DEFAULT_CHAIN, w, u, v) <==>
      || Free(w, u) > Free(w, v)
      || (Free(w, u) == Free(w, v) && Load(w, u) < Load(w, v))
      || (Free(w, u) == Free(w, v) && Load(w, u) == Load(w, v) && AssignedLongerAgo(w, u, v))
      || (Free(w, u) == Free(w, v) && Load(w, u) == Load(w, v) && AssignedAtOnce(w, u, v) && u < v)
  {
    var two, three := ["least_loaded", "round_robin"], ["round_robin"];
    assert DEFAULT_CHAIN[1..] == two && two[1..] == three && three[1..] == [];
    assert Prefers(three, w, u, v) <==> AssignedLongerAgo(w, u, v) || (AssignedAtOnce(w, u, v) && u < v);
  }

  /** With the default chain: nobody who may get the email has more free capacity than the chosen
      agent; of those with as much, nobody carries less; of those, nobody was last assigned longer
      ago; of those, the chosen one has the smallest id. */
  lemma DefaultChoice(cfg: Config, w: World, he: HubEmail, m: Moment, u: UserId, v: UserId)
    requires he.queue.None? || he.queue.value !in cfg.queueStrategy || cfg.queueStrategy[he.queue.value] == ""
    requires BestChoice(cfg, w, he, m, StrategyChain(cfg, he), Some(u)) && MayGet(cfg, w, he, m, v)
    ensures u in w.agents && v in w.agents && Free(w, v) <= Free(w, u)
    ensures Free(w, v) == Free(w, u) ==> Load(w, u) <= Load(w, v)
    ensures Free(w, v) == Free(w, u) && Load(w, v) == Load(w, u) ==> !AssignedLongerAgo(w, v, u)
    ensures Free(w, v) == Free(w, u) && Load(w, v) == Load(w, u) && AssignedAtOnce(w, v, u) ==> u <= v
  {
    DefaultChain(cfg, he);
    BestIsPreferred(cfg, w, he, m, DEFAULT_CHAIN, Some(u));
    if v != u {
      DefaultPreference(w, u, v);
      StampsCompare(w, u, v);
      StampsCompare(w, v, u);
    } else {
      StampsCompare(w, u, u);
    }
  }

  // ---------------------------------------------------------------- reading the chain

  predicate IsToken(t: string) {
    t != "" && '|' !in t && !IsSpace(t[0]) && !IsSpace(t[|t| - 1])
  }

  lemma {:induction false} TokensSurvive(tokens: seq<string>)
    requires forall i :: 0 <= i < |tokens| ==> IsToken(tokens[i])
    ensures NonBlank(tokens) == tokens
  {
    if tokens != [] {
      TokensSurvive(tokens[1..]);
      TrimPadded("", tokens[0], "", IsSpace);
      assert "" + tokens[0] + "" == tokens[0];
      assert [tokens[0]] + tokens[1..] == tokens;
    }
  }

  /** A queue's strategy code is read as its tokens, in order; blank tokens are dropped. */
  lemma ChainOfCode(cfg: Config, he: HubEmail, tokens: seq<string>)
    requires tokens != [] && forall i :: 0 <= i < |tokens| ==> IsToken(tokens[i])
    requires he.queue.Some? && he.queue.value in cfg.queueStrategy && cfg.queueStrategy[he.queue.value] == Join(tokens, "|")
    ensures StrategyChain(cfg, he) == tokens
  {
    SplitJoin(tokens, '|');
    TokensSurvive(tokens);
    assert IsToken(tokens[0]) && Split("", '|') == [""];
  }

  lemma DefaultChain(cfg: Config, he: HubEmail)
    requires he.queue.None? || he.queue.value !in cfg.queueStrategy || cfg.queueStrategy[he.queue.value] == ""
    ensures StrategyChain(cfg, he) == ["availability_aware", "least_loaded", "round_robin"]
  {
    assert IsToken("availability_aware") && IsToken("least_loaded") && IsToken("round_robin");
    JoinThree("availability_aware", "least_loaded", "round_robin", "|");
    assert Join(DEFAULT_CHAIN, ['|']) == DEFAULT_STRATEGY;
    SplitJoin(DEFAULT_CHAIN, '|');
    TokensSurvive(DEFAULT_CHAIN);
  }

  lemma JoinThree(a: string, b: string, c: string, sep: string)
    ensures Join([a, b, c], sep) == a + sep + b + sep + c
  {
    assert [a, b, c][1..] == [b, c] && [b, c][1..] == [c];
    assert Join([b, c], sep) == b + sep + c;
    assert a + sep + (b + sep + c) == a + sep + b + sep + c;
  }

  // ---------------------------------------------------------------- sorting

  // One insertion of the in-place sort: the new candidate goes in front of the first larger one.
  method InsertSorted(chain: seq<string>, w: World, c: seq<UserId>, u: UserId) returns (s: seq<UserId>)
    requires Sorted(chain, w, c) && u in w.agents && u !in c
    ensures Sorted(chain, w, s) && forall v :: v in s <==> v == u || v in c
  {
    var k := 0;
    while k < |c| && LexLess(KeyOf(chain, w, c[k]), KeyOf(chain, w, u))
      invariant k <= |c|
      invariant forall i :: 0 <= i < k ==> LexLess(KeyOf(chain, w, c[i]), KeyOf(chain, w, u))
    {
      k := k + 1;
    }
    s := c[..k] + [u] + c[k..];
    forall i | k <= i < |c| ensures LexLess(KeyOf(chain, w, u), KeyOf(chain, w, c[i])) {
      KeysDiffer(chain, w, u, c[k]);
      LexTotal(KeyOf(chain, w, u), KeyOf(chain, w, c[k]));
      if k < i {
        LexTransitive(KeyOf(chain, w, u), KeyOf(chain, w, c[k]), KeyOf(chain, w, c[i]));
      }
    }
    assert forall v :: v in c <==> v in c[..k] || v in c[k..] by {
      assert c == c[..k] + c[k..];
    }
  }

  // candidates.sort(key=sort_key), the rows coming in an arbitrary order.
  method SortCandidates(chain: seq<string>, w: World, pool: set<UserId>) returns (s: seq<UserId>)
    requires pool <= w.agents.Keys
    ensures Sorted(chain, w, s) && forall u :: u in s <==> u in pool
  {
    var pending := pool;
    s := [];
    while pending != {}
      invariant pending <= pool
      invariant Sorted(chain, w, s)
      invariant forall u :: u in s <==> u in pool - pending
    {
      var u :| u in pending;
      s := InsertSorted(chain, w, s, u);
      pending := pending - {u};
    }
  }

  lemma FirstOfSortedIsBest(cfg: Config, w: World, he: HubEmail, m: Moment, chain: seq<string>, s: seq<UserId>)
    requires Sorted(chain, w, s) && forall u :: u in s <==> u in Candidates(cfg, w, he, m)
    ensures BestChoice(cfg, w, he, m, chain, if s == [] then None else Some(s[0]))
  {
    if s != [] {
      assert s[0] in s;
      forall v | v in Candidates(cfg, w, he, m) && v != s[0]
        ensures LexLess(KeyOf(chain, w, s[0]), KeyOf(chain, w, v))
      {
        assert v in s;
      }
    } else {
      assert forall u :: u in Candidates(cfg, w, he, m) ==> u in s;
    }
  }

  /** Gate, sort, take the first: the result is the agent the chain prefers. */
  method SelectAgent(cfg: Config, w: World, he: HubEmail, m: Moment) returns (chosen: Option<UserId>)
    ensures BestChoice(cfg, w, he, m, StrategyChain(cfg, he), chosen)
    ensures Preferred(cfg, w, he, m, StrategyChain(cfg, he), chosen)
  {
    var candidates := SortCandidates(StrategyChain(cfg, he), w, Candidates(cfg, w, he, m));
    FirstOfSortedIsBest(cfg, w, he, m, StrategyChain(cfg, he), candidates);
    chosen := if candidates == [] then None else Some(candidates[0]);
    BestIsPreferred(cfg, w, he, m, StrategyChain(cfg, he), chosen);
  }
}
