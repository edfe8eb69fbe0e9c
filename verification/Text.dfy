// The string operations the source takes from its standard library, on plain sequences.
module Text {

  // str.isspace() restricted to the ASCII range.
  predicate IsSpace(c: char) {
    c == ' ' || 9 as char <= c <= 13 as char || 28 as char <= c <= 31 as char
  }

  function LowerChar(c: char): char {
    if 'A' <= c <= 'Z' then c + 32 as char else c
  }

  function Lower(s: string): (r: string)
    ensures |r| == |s|
    ensures forall i :: 0 <= i < |s| ==> r[i] == LowerChar(s[i])
  {
    seq(|s|, i requires 0 <= i < |s| => LowerChar(s[i]))
  }

  function TrimLeft(s: string, drop: char -> bool): string {
    if s != [] && drop(s[0]) then TrimLeft(s[1..], drop) else s
  }

  function TrimRight(s: string, drop: char -> bool): string {
    if s != [] && drop(s[|s| - 1]) then TrimRight(s[..|s| - 1], drop) else s
  }

  function Trim(s: string, drop: char -> bool): string {
    TrimRight(TrimLeft(s, drop), drop)
  }

  function Strip(s: string): string {
    Trim(s, IsSpace)
  }

  function Rstrip(s: string): string {
    TrimRight(s, IsSpace)
  }

  // str.split(c): one more piece than there are separators, hence never empty.
  function Split(s: string, c: char): (r: seq<string>)
    ensures |r| > 0
  {
    if s == [] then [[]]
    else
      var rest := Split(s[1..], c);
      if s[0] == c then [[]] + rest else [[s[0]] + rest[0]] + rest[1..]
  }

  function Join(parts: seq<string>, sep: string): string {
    if |parts| == 0 then ""
    else if |parts| == 1 then parts[0]
    else parts[0] + sep + Join(parts[1..], sep)
  }

  predicate StartsWith(s: string, prefix: string) {
    prefix <= s
  }

  predicate EndsWith(s: string, suffix: string) {
    |suffix| <= |s| && s[|s| - |suffix|..] == suffix
  }

  predicate Contains(s: string, part: string) {
    part <= s || (s != [] && Contains(s[1..], part))
  }

  const UPPER_CASE := "ABCDEFGHIJKLMNOPQRSTUVWXYZ"
  const LOWER_CASE := "abcdefghijklmnopqrstuvwxyz"

  /** Lower-casing maps the letters of one alphabet to those of the other and keeps everything else. */
  lemma LowerCharIs(i: nat, c: char)
    ensures i < 26 ==> LowerChar(UPPER_CASE[i]) == LOWER_CASE[i]
    ensures c !in UPPER_CASE ==> LowerChar(c) == c
  {
    if 'A' <= c <= 'Z' {
      assert UPPER_CASE[c as int - 65] == c;
    }
  }

  /** White space is the blank, the tab, the line breaks and the four separators of ASCII. */
  lemma SpaceIs(c: char)
    ensures IsSpace(c) <==> c in {' ', '\t', '\n', '\r', 11 as char, 12 as char, 28 as char, 29 as char, 30 as char, 31 as char}
  {}

  lemma LowerConcat(a: string, b: string)
    ensures Lower(a + b) == Lower(a) + Lower(b)
  {}

  predicate OccursAt(s: string, part: string, i: int) {
    0 <= i <= |s| - |part| && s[i..i + |part|] == part
  }

  lemma OccursInTail(s: string, part: string, i: int)
    requires s != []
    ensures OccursAt(s[1..], part, i) ==> OccursAt(s, part, i + 1)
    ensures OccursAt(s, part, i) && i > 0 ==> OccursAt(s[1..], part, i - 1)
  {
    assert 0 <= i <= |s| - 1 - |part| ==> s[1..][i..i + |part|] == s[i + 1..i + 1 + |part|];
    assert 0 < i <= |s| - |part| ==> s[1..][i - 1..i - 1 + |part|] == s[i..i + |part|];
  }

  /** Containing is occurring somewhere. */
  lemma {:induction false} ContainsWhen(s: string, part: string)
    ensures Contains(s, part) <==> exists i :: OccursAt(s, part, i)
  {
    assert part <= s <==> OccursAt(s, part, 0);
    if s != [] {
      ContainsWhen(s[1..], part);
      if i :| OccursAt(s[1..], part, i) {
        OccursInTail(s, part, i);
      }
      if i :| OccursAt(s, part, i) {
        OccursInTail(s, part, i);
      }
    }
  }

  // ---------------------------------------------------------------- splitting and joining

  lemma {:induction false} SplitPieces(s: string, c: char)
    ensures forall p :: p in Split(s, c) ==> c !in p
  {
    if s != [] {
      SplitPieces(s[1..], c);
      var rest := Split(s[1..], c);
      forall p | p in Split(s, c) ensures c !in p {
        assert p == [] || p == [s[0]] + rest[0] || p in rest;
      }
    }
  }

  lemma {:induction false} JoinSplit(s: string, c: char)
    ensures Join(Split(s, c), [c]) == s
  {
    if s != [] {
      JoinSplit(s[1..], c);
      var rest := Split(s[1..], c);
      if s[0] == c {
        assert ([[]] + rest)[1..] == rest;
      } else if |rest| > 1 {
        assert ([[s[0]] + rest[0]] + rest[1..])[1..] == rest[1..];
      }
    }
  }

  lemma SplitFirstChar(s: string, c: char)
    requires s != [] && s[0] != c
    ensures Split(s, c) == [[s[0]] + Split(s[1..], c)[0]] + Split(s[1..], c)[1..]
  {}

  lemma {:induction false} SplitSkipsPrefix(p: string, s: string, c: char)
    requires c !in p
    ensures Split(p + s, c) == [p + Split(s, c)[0]] + Split(s, c)[1..]
    decreases |p|
  {
    if p == [] {
      assert p + s == s && p + Split(s, c)[0] == Split(s, c)[0];
    } else {
      SplitSkipsPrefix(p[1..], s, c);
      assert (p + s)[0] == p[0] && (p + s)[1..] == p[1..] + s;
      SplitFirstChar(p + s, c);
      assert [p[0]] + (p[1..] + Split(s, c)[0]) == p + Split(s, c)[0];
    }
  }

  lemma {:induction false} SplitJoin(parts: seq<string>, c: char)
    requires |parts| > 0
    requires forall p :: p in parts ==> c !in p
    ensures Split(Join(parts, [c]), c) == parts
  {
    if |parts| == 1 {
      SplitSkipsPrefix(parts[0], [], c);
      assert parts[0] + [] == parts[0];
    } else {
      SplitJoin(parts[1..], c);
      var tail := [c] + Join(parts[1..], [c]);
      assert tail[1..] == Join(parts[1..], [c]);
      assert Split(tail, c) == [[]] + parts[1..];
      SplitSkipsPrefix(parts[0], tail, c);
      assert parts[0] + [c] + Join(parts[1..], [c]) == parts[0] + tail;
      assert parts[0] + [] == parts[0];
    }
  }

  // ---------------------------------------------------------------- trimming

  predicate AllDropped(s: string, drop: char -> bool) {
    forall i :: 0 <= i < |s| ==> drop(s[i])
  }

  // TrimRight splits the string into what it keeps and a dropped tail.
  lemma {:induction false} TrimRightParts(s: string, drop: char -> bool)
    ensures var r := TrimRight(s, drop);
            && r <= s && AllDropped(s[|r|..], drop)
            && (r != [] ==> !drop(r[|r| - 1]))
  {
    if s != [] && drop(s[|s| - 1]) {
      TrimRightParts(s[..|s| - 1], drop);
      var r := TrimRight(s, drop);
      assert s[|r|..] == s[..|s| - 1][|r|..] + [s[|s| - 1]];
    }
  }

  lemma {:induction false} TrimLeftParts(s: string, drop: char -> bool)
    ensures var r := TrimLeft(s, drop);
            && |r| <= |s| && r == s[|s| - |r|..] && AllDropped(s[..|s| - |r|], drop)
            && (r != [] ==> !drop(r[0]))
  {
    if s != [] && drop(s[0]) {
      TrimLeftParts(s[1..], drop);
      var r := TrimLeft(s, drop);
      assert s[..|s| - |r|] == [s[0]] + s[1..][..|s| - 1 - |r|];
    }
  }

  // The two ways to say what TrimRight keeps agree.
  lemma {:induction false} TrimRightUnique(r: string, tail: string, drop: char -> bool)
    requires AllDropped(tail, drop) && (r != [] ==> !drop(r[|r| - 1]))
    ensures TrimRight(r + tail, drop) == r
  {
    if tail == [] {
      assert r + tail == r;
    } else {
      assert (r + tail)[..|r + tail| - 1] == r + tail[..|tail| - 1];
      TrimRightUnique(r, tail[..|tail| - 1], drop);
    }
  }

  lemma {:induction false} TrimLeftUnique(head: string, r: string, drop: char -> bool)
    requires AllDropped(head, drop) && (r != [] ==> !drop(r[0]))
    ensures TrimLeft(head + r, drop) == r
  {
    if head == [] {
      assert head + r == r;
    } else {
      assert (head + r)[1..] == head[1..] + r;
      TrimLeftUnique(head[1..], r, drop);
    }
  }

  // Padding on either side never changes what Trim returns.
  lemma TrimPadded(head: string, core: string, tail: string, drop: char -> bool)
    requires AllDropped(head, drop) && AllDropped(tail, drop)
    requires core != [] ==> !drop(core[0]) && !drop(core[|core| - 1])
    ensures Trim(head + core + tail, drop) == core
  {
    if core == [] {
      assert head + core + tail == (head + tail) + [];
      TrimLeftUnique(head + tail, [], drop);
    } else {
      assert head + core + tail == head + (core + tail);
      TrimLeftUnique(head, core + tail, drop);
      TrimRightUnique(core, tail, drop);
    }
  }

  // Every string is padding, core, padding.
  lemma TrimParts(s: string, drop: char -> bool) returns (head: string, tail: string)
    ensures s == head + Trim(s, drop) + tail
    ensures AllDropped(head, drop) && AllDropped(tail, drop)
    ensures var core := Trim(s, drop); core != [] ==> !drop(core[0]) && !drop(core[|core| - 1])
  {
    var l := TrimLeft(s, drop);
    TrimLeftParts(s, drop);
    TrimRightParts(l, drop);
    head, tail := s[..|s| - |l|], l[|TrimRight(l, drop)|..];
  }

  lemma TrimIdempotent(s: string, drop: char -> bool)
    ensures Trim(Trim(s, drop), drop) == Trim(s, drop)
  {
    var head, tail := TrimParts(s, drop);
    var core := Trim(s, drop);
    TrimPadded([], core, [], drop);
    assert [] + core + [] == core;
  }

  // Stripping the right end first makes no difference to strip().
  lemma StripOfRstrip(s: string)
    ensures Strip(Rstrip(s)) == Strip(s)
  {
    var r := Rstrip(s);
    TrimRightParts(s, IsSpace);
    var head, tail := TrimParts(r, IsSpace);
    var core := Strip(r);
    assert s == r + s[|r|..];
    assert s == head + core + (tail + s[|r|..]);
    TrimPadded(head, core, tail + s[|r|..], IsSpace);
  }
}
