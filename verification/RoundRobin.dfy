// Why the rotation is round robin: within the rounds, ties go to whoever was picked longest ago
// (apps/agents/services.py, pick_email_agent).
module RoundRobin {
  import opened Options
  import opened Rotation

  // An agent's audit stamp is that of their last pick.
  lemma {:induction false} StampOfLastPick(l: Loads, p: seq<Pick>, j: nat, k: nat)
    requires IsRun(l, p) && j < k <= |p| && p[j].agent !in Picked(p, j + 1, k)
    ensures At(l, p, k)[p[j].agent].last == Some(p[j].at)
    decreases k
  {
    if j + 1 < k {
      StampOfLastPick(l, p, j, k - 1);
    }
  }

  lemma PickedSplit(p: seq<Pick>, i: nat, m: nat, j: nat)
    requires i <= m <= j <= |p|
    ensures Picked(p, i, j) == Picked(p, i, m) + Picked(p, m, j)
    decreases j
  {
    if m < j {
      PickedSplit(p, i, m, j - 1);
    }
  }

  // An agent picked at j, among different picks up to r, and not from r on, is not picked after j.
  lemma NotSince(p: seq<Pick>, from: nat, r: nat, j: nat, k: nat)
    requires from <= j < r <= k <= |p| && AllDifferent(p, from, r) && p[j].agent !in Picked(p, r, k)
    ensures p[j].agent !in Picked(p, j + 1, k)
  {
    PickedAt(p, j + 1, r);
    PickedSplit(p, j + 1, r, k);
  }

  // Pick i+n went to the same agent as pick i.
  predicate Repeats(p: seq<Pick>, n: nat, i: int) {
    0 <= i && i + n < |p| && p[i + n].agent == p[i].agent
  }

  // So far this round repeats the previous one: the pick of n places ago is still to come, and
  // every agent still to come was picked n places ago or later.
  lemma StillToCome(p: seq<Pick>, n: nat, r: nat, k: nat, j: nat)
    requires n <= r <= k < r + n && k < |p| && AllDifferent(p, r - n, r) && r - n <= j < r
    requires forall i :: r - n <= i < k - n ==> Repeats(p, n, i)
    ensures p[k - n].agent !in Picked(p, r, k)
    ensures p[j].agent !in Picked(p, r, k) ==> k - n <= j
  {
    PickedAt(p, r, k);
    forall i | r <= i < k ensures p[i].agent != p[k - n].agent {
      assert Repeats(p, n, i - n);
    }
    if j < k - n {
      assert Repeats(p, n, j);
    }
  }

  // Between two agents with equal counts the query prefers the one picked earlier.
  lemma EarlierStampWins(l: Loads, p: seq<Pick>, k: nat, i: nat, j: nat)
    requires IsRun(l, p) && i <= j < k < |p| && p[k].agent == p[j].agent
    requires At(l, p, k)[p[i].agent] == Load(At(l, p, k)[p[j].agent].open, Some(p[i].at))
    requires At(l, p, k)[p[j].agent].last == Some(p[j].at)
    ensures i == j
  {
    assert GoodPick(l, p, k);
    assert NoLater(At(l, p, k)[p[j].agent], At(l, p, k)[p[i].agent]);
  }

  // Everybody was picked in the round before r.
  lemma PlaceInLastRound(l: Loads, p: seq<Pick>, r: nat, a: Agent) returns (j: nat)
    requires AllEligible(l, p) && |l| <= r <= |p| && AllDifferent(p, r - |l|, r) && a in l
    ensures r - |l| <= j < r && p[j].agent == a
  {
    FullRound(l, p, r - |l|);
    PickedAt(p, r - |l|, r);
    j :| r - |l| <= j < r && p[j].agent == a;
  }

  lemma DueIsNext(l: Loads, p: seq<Pick>, r: nat, k: nat, base: nat)
    requires IsRun(l, p) && |l| <= k < |p| && InRound(l, p, r, k, base)
    requires forall i :: r - |l| <= i < k - |l| ==> Repeats(p, |l|, i)
    ensures p[k].agent == p[k - |l|].agent
  {
    var n := |l|;
    var j := PlaceInLastRound(l, p, r, p[k].agent);
    NextPickIsFresh(l, p, r, k, base);
    StillToCome(p, n, r, k, j);
    NotSince(p, r - n, r, j, k);
    StampOfLastPick(l, p, j, k);
    NotSince(p, r - n, r, k - n, k);
    StampOfLastPick(l, p, k - n, k);
    EarlierStampWins(l, p, k, k - n, j);
  }

  /** Round robin: from equal counts, pick k+n goes to the same agent as pick k, whatever
      order the ties of the first round fell in. */
  lemma {:induction false} PicksRepeat(l: Loads, p: seq<Pick>, k: nat, base: nat)
    requires IsRun(l, p) && |l| <= k < |p|
    requires forall a :: a in l ==> l[a].open == base
    ensures p[k].agent == p[k - |l|].agent
    decreases k
  {
    var r, b := InRounds(l, p, k, base);
    forall i | r - |l| <= i < k - |l| ensures Repeats(p, |l|, i) {
      PicksRepeat(l, p, i + |l|, base);
    }
    DueIsNext(l, p, r, k, b);
  }

  /** Every n consecutive picks, wherever they start, cover all n agents exactly once. */
  lemma {:induction false} EveryWindowCoversAll(l: Loads, p: seq<Pick>, i: nat, base: nat)
    requires IsRun(l, p) && i + |l| <= |p|
    requires forall a :: a in l ==> l[a].open == base
    ensures AllDifferent(p, i, i + |l|) && Picked(p, i, i + |l|) == l.Keys
    decreases i
  {
    var n := |l|;
    if i == 0 {
      var r, b := InRounds(l, p, n, base);
    } else {
      EveryWindowCoversAll(l, p, i - 1, base);
      PicksRepeat(l, p, i + n - 1, base);
    }
    FullRound(l, p, i);
  }
}
