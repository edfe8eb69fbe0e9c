// Ordered routing rules of the Inbox Hub (apps/inbox_hub/routing.py).
module Routing {
  import opened Options
  import opened Text

  type DeptId = nat
  type QueueId = nat
  type RuleId = nat

  datatype Priority = Low | Normal | High | Urgent

  datatype Email = Email(sender: string, recipient: string, subject: string, body: string)

  // A JSON value under one key of RoutingRule.match.
  datatype Json = Absent | Null | Scalar(s: string) | List(items: seq<string>)

  // RoutingRule.match; `others` counts keys that the engine never looks at.
  datatype Match = Match(
    senderDomain: Json, recipientLocal: Json, keyword: Json, subjectRegex: Option<string>, others: nat)

  datatype RegexResult = Hit | Miss | Invalid
  type Search = (string, string) -> RegexResult

  datatype Rule = Rule(
    id: RuleId,
    match_: Match,
    department: Option<DeptId>,
    queue: Option<QueueId>,
    category: string,
    priority: Option<Priority>,
    stopOnMatch: bool)

  function AsList(v: Json): seq<string> {
    match v
    case Absent => []
    case Null => []
    case Scalar(s) => [s]
    case List(items) => items
  }

  predicate NonEmpty(m: Match) {
    !m.senderDomain.Absent? || !m.recipientLocal.Absent? || !m.keyword.Absent? || m.subjectRegex.Some? || m.others > 0
  }

  function SenderDomain(sender: string): string {
    if '@' in sender then var p := Split(sender, '@'); Lower(p[|p| - 1]) else ""
  }

  function RecipientLocal(recipient: string): string {
    if '@' in recipient then Lower(Split(recipient, '@')[0]) else ""
  }

  function Haystack(e: Email): string {
    Lower(e.subject + "\n" + e.body)
  }

  predicate IsAt(c: char) {
    c == '@'
  }

  function Domain(raw: string): string {
    TrimLeft(Lower(raw), IsAt)
  }

  predicate DomainMatches(domain: string, raw: string) {
    var d := Domain(raw);
    d != "" && (domain == d || EndsWith(domain, "." + d))
  }

  // One clause: an absent key does not restrict, a present key needs one of its values.
  predicate DomainClause(v: Json, e: Email) {
    v.Absent? || exists i :: 0 <= i < |AsList(v)| && DomainMatches(SenderDomain(e.sender), AsList(v)[i])
  }

  predicate LocalClause(v: Json, e: Email) {
    v.Absent? || exists i :: 0 <= i < |AsList(v)| && RecipientLocal(e.recipient) == Lower(AsList(v)[i])
  }

  predicate KeywordClause(v: Json, e: Email) {
    v.Absent? || exists i :: 0 <= i < |AsList(v)| && AsList(v)[i] != "" && Contains(Haystack(e), Lower(AsList(v)[i]))
  }

  predicate RegexClause(search: Search, regex: Option<string>, e: Email) {
    regex.None? || regex.value == "" || search(regex.value, e.subject) == Hit
  }

  // _rule_matches
  predicate RuleMatches(search: Search, m: Match, e: Email) {
    && NonEmpty(m)
    && DomainClause(m.senderDomain, e) && LocalClause(m.recipientLocal, e)
    && KeywordClause(m.keyword, e) && RegexClause(search, m.subjectRegex, e)
  }

  // ---------------------------------------------------------------- what a clause accepts

  // A value listed under a key: the scalar itself, or an element of the list; null lists nothing.
  predicate ListedIn(v: Json, raw: string) {
    v == Scalar(raw) || (v.List? && raw in v.items)
  }

  lemma AsListLists(v: Json, raw: string)
    ensures raw in AsList(v) <==> ListedIn(v, raw)
  {}

  // A listed domain names d: lower-cased, after any leading "@".
  predicate Names(raw: string, d: string) {
    && |d| <= |raw| && Lower(raw)[|raw| - |d|..] == d && (d == "" || d[0] != '@')
    && forall i :: 0 <= i < |raw| - |d| ==> raw[i] == '@'
  }

  lemma LowerAt(c: char)
    ensures LowerChar(c) == '@' <==> c == '@'
    ensures LowerChar(c) == '.' <==> c == '.'
  {}

  lemma DomainNames(raw: string, d: string)
    ensures Domain(raw) == d <==> Names(raw, d)
  {
    var low := Lower(raw);
    forall i | 0 <= i < |raw| ensures low[i] == '@' <==> raw[i] == '@' {
      LowerAt(raw[i]);
    }
    TrimLeftParts(low, IsAt);
    var n := |raw| - |Domain(raw)|;
    assert forall i :: 0 <= i < n ==> low[..n][i] == low[i];
    if Names(raw, d) {
      var k := |raw| - |d|;
      assert forall i :: 0 <= i < k ==> low[..k][i] == low[i];
      TrimLeftUnique(low[..k], d, IsAt);
      assert low == low[..k] + d;
    }
  }

  // The domain itself, or a subdomain of it.
  ghost predicate Under(domain: string, d: string) {
    domain == d || exists sub :: domain == sub + "." + d
  }

  lemma UnderWhen(domain: string, d: string)
    ensures Under(domain, d) <==> domain == d || EndsWith(domain, "." + d)
  {
    if EndsWith(domain, "." + d) {
      var sub := domain[..|domain| - |d| - 1];
      assert domain == sub + ("." + d) && sub + ("." + d) == sub + "." + d;
    }
    if sub :| domain == sub + "." + d {
      assert domain == sub + ("." + d);
    }
  }

  /** The sender_domain clause: of a sender name@dom it accepts exactly those whose domain is a listed
      one or a subdomain of one, in any case; a sender without "@" never. */
  lemma SenderClauseExactlyWhen(v: Json, e: Email, name: string, dom: string)
    requires !v.Absent? && '@' !in dom && e.sender == name + "@" + dom
    ensures DomainClause(v, e) <==>
      exists raw, d :: ListedIn(v, raw) && Names(raw, d) && d != "" && Under(Lower(dom), d)
  {
    LastPiece(name, dom);
    assert '@' in e.sender by { assert e.sender[|name|] == '@'; }
    forall raw ensures raw in AsList(v) <==> ListedIn(v, raw) {
      AsListLists(v, raw);
    }
    forall raw, d ensures Domain(raw) == d <==> Names(raw, d) {
      DomainNames(raw, d);
    }
    forall d ensures Under(Lower(dom), d) <==> Lower(dom) == d || EndsWith(Lower(dom), "." + d) {
      UnderWhen(Lower(dom), d);
    }
    if DomainClause(v, e) {
      var i :| 0 <= i < |AsList(v)| && DomainMatches(SenderDomain(e.sender), AsList(v)[i]);
      var raw := AsList(v)[i];
      assert ListedIn(v, raw) && Names(raw, Domain(raw)) && Under(Lower(dom), Domain(raw));
    }
    if raw, d :| ListedIn(v, raw) && Names(raw, d) && d != "" && Under(Lower(dom), d) {
      assert raw in AsList(v);
    }
  }

  lemma SenderWithoutDomainIsRefused(v: Json, e: Email)
    requires !v.Absent? && '@' !in e.sender
    ensures !DomainClause(v, e)
  {}

  // What split("@") leaves last and first.
  lemma {:induction false} LastPiece(name: string, dom: string)
    requires '@' !in dom
    ensures var p := Split(name + "@" + dom, '@'); p[|p| - 1] == dom
    decreases |name|
  {
    var s := name + "@" + dom;
    if name == [] {
      SplitSkipsPrefix(dom, "", '@');
      assert dom + "" == dom && s == "@" + dom && s[1..] == dom;
      assert Split("", '@') == [[]];
    } else {
      assert s[1..] == name[1..] + "@" + dom;
      LastPiece(name[1..], dom);
      assert s[0] == name[0];
      TwoPieces(name[1..], dom);
    }
  }

  lemma TwoPieces(name: string, dom: string)
    ensures |Split(name + "@" + dom, '@')| > 1
  {
    var s, p := name + "@" + dom, Split(name + "@" + dom, '@');
    JoinSplit(s, '@');
    SplitPieces(s, '@');
    var first := p[0];
    assert s[|name|] == '@' && first in p;
    assert |p| == 1 ==> Join(p, ['@']) == first;
  }

  lemma LookalikeIsNotUnder(sub: string, d: string)
    requires sub != "" && sub[|sub| - 1] != '.'
    ensures !Under(sub + d, d)
  {
    UnderWhen(sub + d, d);
    var tail := (sub + d)[|sub| - 1..];
    assert tail[0] == sub[|sub| - 1];
    assert EndsWith(sub + d, "." + d) ==> tail == "." + d;
  }

  /** A look-alike is refused: a domain that merely ends in the listed one is not a subdomain of it. */
  lemma LookalikeDomainIsRefused(e: Email, name: string, sub: string, d: string)
    requires e.sender == name + "@" + sub + d && '@' !in sub + d && d != ""
    requires sub != "" && sub[|sub| - 1] != '.'
    ensures !DomainClause(Scalar(d), e)
  {
    var dom := sub + d;
    assert e.sender == name + "@" + dom;
    SenderClauseExactlyWhen(Scalar(d), e, name, dom);
    LowerAt(sub[|sub| - 1]);
    LowerConcat(sub, d);
    LookalikeIsNotUnder(Lower(sub), Lower(d));
    forall raw, x | ListedIn(Scalar(d), raw) && Names(raw, x) && x != "" ensures x == Lower(d) {
      assert raw == d && d[0] in dom;
    }
  }

  /** The recipient_local clause: of a recipient loc@dom it accepts exactly those whose local part is
      listed, in any case. */
  lemma RecipientClauseExactlyWhen(v: Json, e: Email, loc: string, dom: string)
    requires !v.Absent? && '@' !in loc && e.recipient == loc + "@" + dom
    ensures LocalClause(v, e) <==> exists raw :: ListedIn(v, raw) && Lower(raw) == Lower(loc)
  {
    SplitSkipsPrefix(loc, "@" + dom, '@');
    assert loc + ("@" + dom) == e.recipient;
    assert ("@" + dom)[0] == '@' && e.recipient[|loc|] == '@';
    assert loc + [] == loc;
    forall raw ensures raw in AsList(v) <==> ListedIn(v, raw) {
      AsListLists(v, raw);
    }
    if LocalClause(v, e) {
      var i :| 0 <= i < |AsList(v)| && RecipientLocal(e.recipient) == Lower(AsList(v)[i]);
      assert ListedIn(v, AsList(v)[i]);
    }
  }

  // The words of raw stand, in any case, at this place of the subject, a newline and the body.
  predicate StandsAt(e: Email, raw: string, i: int) {
    var text := e.subject + "\n" + e.body;
    0 <= i <= |text| - |raw| && Lower(text[i..i + |raw|]) == Lower(raw)
  }

  /** The keyword clause accepts exactly when some listed non-empty keyword stands in the subject, in the
      body or across the newline between them, in any case. */
  lemma KeywordClauseExactlyWhen(v: Json, e: Email)
    requires !v.Absent?
    ensures KeywordClause(v, e) <==> exists raw, i :: ListedIn(v, raw) && raw != "" && StandsAt(e, raw, i)
  {
    var text := e.subject + "\n" + e.body;
    forall raw ensures raw in AsList(v) <==> ListedIn(v, raw) {
      AsListLists(v, raw);
    }
    forall raw ensures Contains(Haystack(e), Lower(raw)) <==> exists i :: StandsAt(e, raw, i) {
      ContainsWhen(Lower(text), Lower(raw));
      forall i ensures OccursAt(Lower(text), Lower(raw), i) <==> StandsAt(e, raw, i) {
        assert 0 <= i <= |text| - |raw| ==> Lower(text)[i..i + |raw|] == Lower(text[i..i + |raw|]);
      }
    }
    if KeywordClause(v, e) {
      var k :| 0 <= k < |AsList(v)| && AsList(v)[k] != "" && Contains(Haystack(e), Lower(AsList(v)[k]));
      var i :| StandsAt(e, AsList(v)[k], i);
      assert ListedIn(v, AsList(v)[k]);
    }
  }

  /** A match without any key never matches; one that has only keys the engine does not know matches
      everything. */
  lemma UnknownKeysMatchAll(search: Search, e: Email, others: nat)
    ensures RuleMatches(search, Match(Absent, Absent, Absent, None, others), e) <==> others > 0
  {}

  // ---------------------------------------------------------------- what a match can express

  // m' has the keys of m and possibly more.
  predicate AddsKeys(m: Match, m': Match) {
    && (m.senderDomain.Absent? || m'.senderDomain == m.senderDomain)
    && (m.recipientLocal.Absent? || m'.recipientLocal == m.recipientLocal)
    && (m.keyword.Absent? || m'.keyword == m.keyword)
    && (m.subjectRegex.None? || m'.subjectRegex == m.subjectRegex)
  }

  // v' is the same key with the same values and possibly more.
  predicate AddsValues(v: Json, v': Json) {
    v.Absent? == v'.Absent? && forall i :: 0 <= i < |AsList(v)| ==> AsList(v)[i] in AsList(v')
  }

  predicate AddsValuesEverywhere(m: Match, m': Match) {
    && AddsValues(m.senderDomain, m'.senderDomain) && AddsValues(m.recipientLocal, m'.recipientLocal)
    && AddsValues(m.keyword, m'.keyword) && m'.subjectRegex == m.subjectRegex && m'.others == m.others
  }

  /** For a non-empty match, adding a key never widens what it matches and adding a value to a
      key never narrows it. */
  lemma KeysNarrowValuesWiden(search: Search, m: Match, m': Match, e: Email)
    requires NonEmpty(m)
    ensures AddsKeys(m, m') && RuleMatches(search, m', e) ==> RuleMatches(search, m, e)
    ensures AddsValuesEverywhere(m, m') && RuleMatches(search, m, e) ==> RuleMatches(search, m', e)
  {}

  lemma LowerKeepsNewline(k: string)
    ensures Lower(k) == "\n" <==> k == "\n"
  {
    if |k| == 1 {
      assert k == [k[0]];
      assert Lower(k) == [LowerChar(k[0])];
    }
  }

  lemma {:induction false} ContainsMiddle(a: string, part: string, b: string)
    ensures Contains(a + part + b, part)
  {
    if a == [] {
      assert a + part + b == part + b;
    } else {
      assert (a + part + b)[1..] == a[1..] + part + b;
      ContainsMiddle(a[1..], part, b);
    }
  }

  lemma NewlineInHaystack(e: Email)
    ensures Contains(Haystack(e), "\n")
  {
    assert Lower(e.subject + "\n" + e.body) == Lower(e.subject) + "\n" + Lower(e.body);
    ContainsMiddle(Lower(e.subject), "\n", Lower(e.body));
  }

  // A lower-case local part longer than every listed value.
  function LongLocal(n: nat): string {
    seq(n, i => 'x')
  }

  function Longest(items: seq<string>): (n: nat)
    ensures forall i :: 0 <= i < |items| ==> |items[i]| <= n
  {
    if items == [] then 0
    else
      var rest := Longest(items[1..]);
      if |items[0]| > rest then |items[0]| else rest
  }

  lemma LocalOfLong(n: nat)
    ensures |RecipientLocal(LongLocal(n) + "@")| == n
  {
    SplitSkipsPrefix(LongLocal(n), "@", '@');
    assert Split("@", '@') == [[], []];
  }

  /** The empty-match guard does not rule out catch-all rules. A non-empty match accepts every
      email exactly when it has no sender_domain and no recipient_local key, its keyword key is
      absent or lists the newline itself, and its regex is absent, empty or hits every subject;
      {"subject_regex": ""} is one. */
  lemma CatchAllExactlyWhen(search: Search, m: Match)
    ensures (forall e :: RuleMatches(search, m, e)) <==>
      && NonEmpty(m) && m.senderDomain.Absent? && m.recipientLocal.Absent?
      && (m.keyword.Absent? || "\n" in AsList(m.keyword))
      && (m.subjectRegex.None? || m.subjectRegex.value == ""
          || forall s :: search(m.subjectRegex.value, s) == Hit)
  {
    if forall e :: RuleMatches(search, m, e) {
      CatchAllIsUnrestricted(search, m);
    } else if m.keyword.Absent? || "\n" in AsList(m.keyword) {
      var e :| !RuleMatches(search, m, e);
      NewlineInHaystack(e);
      LowerKeepsNewline("\n");
    }
  }

  lemma CatchAllIsUnrestricted(search: Search, m: Match)
    requires forall e :: RuleMatches(search, m, e)
    ensures NonEmpty(m) && m.senderDomain.Absent? && m.recipientLocal.Absent?
    ensures m.keyword.Absent? || "\n" in AsList(m.keyword)
    ensures m.subjectRegex.None? || m.subjectRegex.value == "" || forall s :: search(m.subjectRegex.value, s) == Hit
  {
    var blank := Email("", "", "", "");
    assert RuleMatches(search, m, blank);
    if !m.keyword.Absent? {
      assert Haystack(blank) == "\n";
      var i :| 0 <= i < |AsList(m.keyword)| && AsList(m.keyword)[i] != "" && Contains("\n", Lower(AsList(m.keyword)[i]));
      var k := AsList(m.keyword)[i];
      assert !Contains("\n"[1..], Lower(k));
      assert Lower(k) <= "\n" && Lower(k) == "\n"[..|k|];
      LowerKeepsNewline(k);
    }
    // No listed local part is as long as this one.
    var n := Longest(AsList(m.recipientLocal)) + 1;
    LocalOfLong(n);
    assert RuleMatches(search, m, Email("", LongLocal(n) + "@", "", ""));
    if m.subjectRegex.Some? && m.subjectRegex.value != "" {
      forall s ensures search(m.subjectRegex.value, s) == Hit {
        assert RuleMatches(search, m, Email("", "", s, ""));
      }
    }
  }

  // ---------------------------------------------------------------- evaluating the rules

  datatype Choice = Choice(
    department: Option<DeptId>,
    queue: Option<QueueId>,
    category: string,
    priority: Option<Priority>,
    matchedRule: Option<RuleId>)

  const NO_CHOICE := Choice(None, None, "", None, None)

  function Overlay(c: Choice, r: Rule): Choice {
    Choice(if r.department.Some? then r.department else c.department,
           if r.queue.Some? then r.queue else c.queue,
           if r.category != "" then r.category else c.category,
           if r.priority.Some? then r.priority else c.priority,
           Some(r.id))
  }

  // The rule loop, from the choice accumulated so far.
  function Fold(search: Search, rules: seq<Rule>, e: Email, c: Choice): Choice {
    if rules == [] then c
    else if !RuleMatches(search, rules[0].match_, e) then Fold(search, rules[1..], e, c)
    else if rules[0].stopOnMatch then Overlay(c, rules[0])
    else Fold(search, rules[1..], e, Overlay(c, rules[0]))
  }

  predicate Matches(search: Search, rules: seq<Rule>, e: Email, i: int) {
    0 <= i < |rules| && RuleMatches(search, rules[i].match_, e)
  }

  // Rules up to and including the first matching stop rule.
  predicate Considered(search: Search, rules: seq<Rule>, e: Email, i: int) {
    Matches(search, rules, e, i) && forall j :: 0 <= j < i && Matches(search, rules, e, j) ==> !rules[j].stopOnMatch
  }

  // `v` is the last value that a considered rule sets; `unset` when none sets any.
  ghost predicate LastSet<T(!new)>(
    search: Search, rules: seq<Rule>, e: Email, field: Rule -> T, unset: T, v: T)
  {
    || (v == unset && forall i :: Considered(search, rules, e, i) ==> field(rules[i]) == unset)
    || (v != unset && exists i :: Considered(search, rules, e, i) && field(rules[i]) == v
                                  && forall j :: i < j && Considered(search, rules, e, j) ==> field(rules[j]) == unset)
  }

  lemma ConsideredTail(search: Search, rules: seq<Rule>, e: Email, i: int)
    requires rules != []
    ensures Considered(search, rules, e, i) <==>
            if i == 0 then Matches(search, rules, e, 0)
            else !(Matches(search, rules, e, 0) && rules[0].stopOnMatch) && Considered(search, rules[1..], e, i - 1)
  {
    if i > 0 {
      assert forall j :: 0 <= j < i - 1 ==> (Matches(search, rules[1..], e, j) <==> Matches(search, rules, e, j + 1));
      assert forall j :: 1 <= j < i ==> (Matches(search, rules, e, j) <==> Matches(search, rules[1..], e, j - 1));
    }
  }

  // One field of the fold, generically.
  function FoldField<T(==)>(search: Search, rules: seq<Rule>, e: Email, field: Rule -> T, unset: T, c: T): T {
    if rules == [] then c
    else if !RuleMatches(search, rules[0].match_, e) then FoldField(search, rules[1..], e, field, unset, c)
    else
      var c' := if field(rules[0]) != unset then field(rules[0]) else c;
      if rules[0].stopOnMatch then c' else FoldField(search, rules[1..], e, field, unset, c')
  }

  lemma {:induction false} FoldByField(search: Search, rules: seq<Rule>, e: Email, c: Choice)
    ensures var r := Fold(search, rules, e, c);
      && r.department == FoldField(search, rules, e, (x: Rule) => x.department, None, c.department)
      && r.queue == FoldField(search, rules, e, (x: Rule) => x.queue, None, c.queue)
      && r.category == FoldField(search, rules, e, (x: Rule) => x.category, "", c.category)
      && r.priority == FoldField(search, rules, e, (x: Rule) => x.priority, None, c.priority)
      && r.matchedRule == FoldField(search, rules, e, (x: Rule) => Some(x.id), None, c.matchedRule)
    decreases |rules|
  {
    if rules != [] {
      FoldByField(search, rules[1..], e, c);
      FoldByField(search, rules[1..], e, Overlay(c, rules[0]));
    }
  }

  // Either no considered rule sets the field, or the fold returns the last value set.
  lemma {:induction false} FoldFieldIsLastSet<T(!new)>(
    search: Search, rules: seq<Rule>, e: Email, field: Rule -> T, unset: T, c: T)
    ensures var v := FoldField(search, rules, e, field, unset, c);
      || (v == c && forall i :: Considered(search, rules, e, i) ==> field(rules[i]) == unset)
      || (v != unset && exists i :: Considered(search, rules, e, i) && field(rules[i]) == v
                                    && forall j :: i < j && Considered(search, rules, e, j) ==> field(rules[j]) == unset)
    decreases |rules|
  {
    if rules != [] {
      var rest := rules[1..];
      forall i ensures Considered(search, rules, e, i) <==>
        if i == 0 then Matches(search, rules, e, 0)
        else !(Matches(search, rules, e, 0) && rules[0].stopOnMatch) && Considered(search, rest, e, i - 1)
      {
        ConsideredTail(search, rules, e, i);
      }
      var hit := Matches(search, rules, e, 0);
      var c' := if hit && field(rules[0]) != unset then field(rules[0]) else c;
      if hit && rules[0].stopOnMatch {
        assert hit ==> Considered(search, rules, e, 0);
      } else {
        FoldFieldIsLastSet(search, rest, e, field, unset, c');
        var v := FoldField(search, rest, e, field, unset, c');
        if v == c' && forall i :: Considered(search, rest, e, i) ==> field(rest[i]) == unset {
          assert forall i :: i > 0 && Considered(search, rules, e, i) ==> field(rules[i]) == field(rest[i - 1]);
          assert hit ==> Considered(search, rules, e, 0);
        } else {
          var i :| Considered(search, rest, e, i) && field(rest[i]) == v
                   && forall j :: i < j && Considered(search, rest, e, j) ==> field(rest[j]) == unset;
          assert Considered(search, rules, e, i + 1) && field(rules[i + 1]) == v;
          forall j | i + 1 < j && Considered(search, rules, e, j) ensures field(rules[j]) == unset {
            assert Considered(search, rest, e, j - 1);
          }
        }
      }
    }
  }

  /** Rule evaluation has a declarative reading: each field is the last non-empty value among the
      matching rules up to and including the first matching stop rule. */
  lemma EvaluationIsLastSet(search: Search, rules: seq<Rule>, e: Email)
    ensures var r := Fold(search, rules, e, NO_CHOICE);
      && LastSet(search, rules, e, (x: Rule) => x.department, None, r.department)
      && LastSet(search, rules, e, (x: Rule) => x.queue, None, r.queue)
      && LastSet(search, rules, e, (x: Rule) => x.category, "", r.category)
      && LastSet(search, rules, e, (x: Rule) => x.priority, None, r.priority)
      && LastSet(search, rules, e, (x: Rule) => Some(x.id), None, r.matchedRule)
  {
    FoldByField(search, rules, e, NO_CHOICE);
    FoldFieldIsLastSet(search, rules, e, (x: Rule) => x.department, None, None);
    FoldFieldIsLastSet(search, rules, e, (x: Rule) => x.queue, None, None);
    FoldFieldIsLastSet(search, rules, e, (x: Rule) => x.category, "", "");
    FoldFieldIsLastSet(search, rules, e, (x: Rule) => x.priority, None, None);
    FoldFieldIsLastSet(search, rules, e, (x: Rule) => Some(x.id), None, None);
  }

  /** Rules that do not match, and all rules after the first matching stop rule, are irrelevant. */
  lemma {:induction false} IrrelevantRules(search: Search, a: seq<Rule>, r: Rule, b: seq<Rule>, e: Email, c: Choice)
    ensures !RuleMatches(search, r.match_, e) ==>
              Fold(search, a + [r] + b, e, c) == Fold(search, a + b, e, c)
    ensures RuleMatches(search, r.match_, e) && r.stopOnMatch ==>
              Fold(search, a + [r] + b, e, c) == Fold(search, a + [r], e, c)
    decreases |a|
  {
    if a == [] {
      assert a + [r] + b == [r] + b && a + b == b && a + [r] == [r];
    } else {
      var t := a[1..];
      assert (a + [r] + b)[1..] == t + [r] + b && (a + b)[1..] == t + b && (a + [r])[1..] == t + [r];
      IrrelevantRules(search, t, r, b, e, c);
      IrrelevantRules(search, t, r, b, e, Overlay(c, a[0]));
    }
  }

  // ---------------------------------------------------------------- defaults and persistence

  datatype Config = Config(
    defaultDepartment: Option<DeptId>,      // TenantSettings.inbox_hub_default_department
    activeDepartments: seq<DeptId>,
    defaultQueue: map<DeptId, QueueId>)

  function DefaultDepartment(cfg: Config): Option<DeptId> {
    if cfg.defaultDepartment.Some? && cfg.defaultDepartment.value in cfg.activeDepartments then cfg.defaultDepartment
    else if |cfg.activeDepartments| == 1 then Some(cfg.activeDepartments[0])
    else None
  }

  function WithDefaults(cfg: Config, c: Choice): Choice {
    var d := if c.department.None? then DefaultDepartment(cfg) else c.department;
    var q := if c.queue.None? && d.Some? && d.value in cfg.defaultQueue then Some(cfg.defaultQueue[d.value]) else c.queue;
    c.(department := d, queue := q)
  }

  /** The defaults only fill gaps. Without a decided department the tenant's default one is taken if it
      is active, else the only active one if there is exactly one; without a decided queue, the
      default queue of the department, if any. */
  lemma DefaultsOnlyFillGaps(cfg: Config, c: Choice)
    ensures var d := WithDefaults(cfg, c);
      && d.category == c.category && d.priority == c.priority && d.matchedRule == c.matchedRule
      && (c.department.Some? ==> d.department == c.department)
      && (c.queue.Some? ==> d.queue == c.queue)
      && (c.department.None? ==> forall x :: d.department == Some(x) <==>
            || (cfg.defaultDepartment == Some(x) && x in cfg.activeDepartments)
            || (cfg.activeDepartments == [x]
                && (cfg.defaultDepartment.None? || cfg.defaultDepartment.value !in cfg.activeDepartments)))
      && (c.queue.None? ==> forall q :: d.queue == Some(q) <==>
            exists x :: d.department == Some(x) && x in cfg.defaultQueue && cfg.defaultQueue[x] == q)
  {
    var d := WithDefaults(cfg, c);
    assert d.department.Some? ==> d.department == Some(d.department.value);
    assert |cfg.activeDepartments| == 1 ==> cfg.activeDepartments == [cfg.activeDepartments[0]];
  }

  function Decide(search: Search, rules: seq<Rule>, cfg: Config, e: Email): Choice {
    WithDefaults(cfg, Fold(search, rules, e, NO_CHOICE))
  }

  datatype HubRow = HubRow(department: Option<DeptId>, queue: Option<QueueId>, category: string, priority: Priority)

  datatype Column = DepartmentCol | QueueCol | CategoryCol | PriorityCol

  // Columns in which the decision says something and the row says something else.
  function Differing(row: HubRow, c: Choice): set<Column> {
    (if c.department.Some? && row.department != c.department then {DepartmentCol} else {})
    + (if c.queue.Some? && row.queue != c.queue then {QueueCol} else {})
    + (if c.category != "" && row.category != c.category then {CategoryCol} else {})
    + (if c.priority.Some? && row.priority != c.priority.value then {PriorityCol} else {})
  }

  // What routing promises of the stored row: decided fields are stored, the others are kept.
  predicate Routed(before: HubRow, c: Choice, after: HubRow) {
    && after.department == (if c.department.Some? then c.department else before.department)
    && after.queue == (if c.queue.Some? then c.queue else before.queue)
    && after.category == (if c.category != "" then c.category else before.category)
    && after.priority == c.priority.GetOr(before.priority)
  }

  class Router {
    const search: Search
    const rules: seq<Rule>
    const cfg: Config
    const email: Email
    var row: HubRow
    var writes: nat                         // save() calls so far

    constructor (search: Search, rules: seq<Rule>, cfg: Config, email: Email, row: HubRow)
      ensures this.search == search && this.rules == rules && this.cfg == cfg && this.email == email
      ensures this.row == row && writes == 0
    {
      this.search, this.rules, this.cfg, this.email, this.row := search, rules, cfg, email, row;
      writes := 0;
    }

    /** RoutingEngine.evaluate: the loop over the ordered rules, then the defaults. */
    method Evaluate() returns (c: Choice)
      ensures c == Decide(search, rules, cfg, email)
    {
      c := NO_CHOICE;
      for i := 0 to |rules|
        invariant Fold(search, rules, email, NO_CHOICE) == Fold(search, rules[i..], email, c)
      {
        var r := rules[i];
        assert rules[i..][0] == r && rules[i..][1..] == rules[i + 1..];
        if !RuleMatches(search, r.match_, email) {
          continue;
        }
        c := c.(matchedRule := Some(r.id));
        if r.department.Some? {
          c := c.(department := r.department);
        }
        if r.queue.Some? {
          c := c.(queue := r.queue);
        }
        if r.category != "" {
          c := c.(category := r.category);
        }
        if r.priority.Some? {
          c := c.(priority := r.priority);
        }
        if r.stopOnMatch {
          break;
        }
      }
      if c.department.None? {
        c := c.(department := DefaultDepartment(cfg));
      }
      if c.queue.None? && c.department.Some? && c.department.value in cfg.defaultQueue {
        c := c.(queue := Some(cfg.defaultQueue[c.department.value]));
      }
    }

    /** RoutingEngine._apply: writes exactly the differing columns, once, and nothing when there
        are none. */
    method Apply(c: Choice) returns (updated: set<Column>)
      modifies this`row, this`writes
      ensures Routed(old(row), c, row)
      ensures updated == Differing(old(row), c)
      ensures DepartmentCol in updated <==> row.department != old(row).department
      ensures QueueCol in updated <==> row.queue != old(row).queue
      ensures CategoryCol in updated <==> row.category != old(row).category
      ensures PriorityCol in updated <==> row.priority != old(row).priority
      ensures writes == old(writes) + if updated == {} then 0 else 1
    {
      updated := {};
      if c.department.Some? && row.department != c.department {
        row := row.(department := c.department);
        updated := updated + {DepartmentCol};
      }
      if c.queue.Some? && row.queue != c.queue {
        row := row.(queue := c.queue);
        updated := updated + {QueueCol};
      }
      if c.category != "" && row.category != c.category {
        row := row.(category := c.category);
        updated := updated + {CategoryCol};
      }
      if c.priority.Some? && row.priority != c.priority.value {
        row := row.(priority := c.priority.value);
        updated := updated + {PriorityCol};
      }
      if updated == {} {
        return;
      }
      writes := writes + 1;
    }

    /** classify_and_route: once the stored row agrees with the decision, which is the case after
        any earlier run on the same rules and configuration, running it writes nothing. */
    method ClassifyAndRoute() returns (c: Choice)
      modifies this`row, this`writes
      ensures c == Decide(search, rules, cfg, email)
      ensures Routed(old(row), c, row) && Routed(row, c, row)
      ensures Routed(old(row), c, old(row)) ==> row == old(row) && writes == old(writes)
      ensures writes <= old(writes) + 1
    {
      c := Evaluate();
      var updated := Apply(c);
    }
  }

  /** Re-running classify_and_route decides the same, stores nothing new and writes nothing. */
  method RouteTwice(r: Router) returns (first: Choice, second: Choice)
    modifies r`row, r`writes
    ensures second == first == Decide(r.search, r.rules, r.cfg, r.email)
    ensures Routed(old(r.row), first, r.row)
    ensures r.writes <= old(r.writes) + 1
    ensures Routed(old(r.row), first, old(r.row)) ==> r.writes == old(r.writes)
  {
    first := r.ClassifyAndRoute();
    label routed:
    second := r.ClassifyAndRoute();
    assert r.row == old@routed(r.row) && r.writes == old@routed(r.writes);
  }
}
