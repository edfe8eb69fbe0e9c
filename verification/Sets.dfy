// Counting facts about finite sets and duplicate-free sequences.
module Sets {

  predicate Distinct<T(==)>(s: seq<T>) {
    forall i, j :: 0 <= i < j < |s| ==> s[i] != s[j]
  }

  lemma {:induction false} SubsetCardinality<T>(a: set<T>, b: set<T>)
    requires a <= b
    ensures |a| <= |b|
  {
    if a != {} {
      var x :| x in a;
      SubsetCardinality(a - {x}, b - {x});
    }
  }

  lemma SubsetOfSameSize<T>(a: set<T>, b: set<T>)
    requires a <= b && |a| == |b|
    ensures a == b
  {
    forall x | x in b ensures x in a {
      if x !in a {
        SubsetCardinality(a, b - {x});
      }
    }
  }

  lemma SmallerSetMisses<T>(a: set<T>, b: set<T>) returns (x: T)
    requires |a| < |b|
    ensures x in b && x !in a
  {
    if b <= a {
      SubsetCardinality(b, a);
    }
    x :| x in b && x !in a;
  }

  function Members<T>(s: seq<T>): set<T> {
    set e | e in s
  }

  lemma DistinctSnoc<T>(s: seq<T>, e: T)
    ensures Distinct(s + [e]) <==> Distinct(s) && e !in s
  {
    var all := s + [e];
    assert all[|s|] == e && forall i :: 0 <= i < |s| ==> all[i] == s[i];
    if e in s {
      var i :| 0 <= i < |s| && s[i] == e;
      assert all[i] == all[|s|];
    }
  }

  lemma MembersSnoc<T>(s: seq<T>, e: T)
    ensures Members(s + [e]) == Members(s) + {e}
  {}

  /** A sequence has as many members as entries exactly when no entry is repeated. */
  lemma {:induction false} MembersSize<T>(s: seq<T>)
    ensures |Members(s)| <= |s|
    ensures |Members(s)| == |s| <==> Distinct(s)
  {
    if s != [] {
      var front, e := s[..|s| - 1], s[|s| - 1];
      assert s == front + [e];
      MembersSize(front);
      DistinctSnoc(front, e);
      MembersSnoc(front, e);
      if e in front {
        assert Members(front) + {e} == Members(front);
      }
    }
  }
}
