// Reading one header out of raw header text, with folding (apps/inbound_email/utils.py,
// extract_header; the text is printed by apps/inbound_email/imap_poller.py).
module HeaderText {
  import opened Text
  import opened MessageIds

  predicate IsBlank(c: char) {
    c == ' ' || c == '\t'
  }

  function BlankRun(s: string): nat {
    if s != [] && IsBlank(s[0]) then 1 + BlankRun(s[1..]) else 0
  }

  // Length of the match of \r?\n([ \t]+) at the start of s, or 0.
  function FoldLength(s: string): (n: nat)
    ensures n <= |s|
  {
    BlankRunBound(if |s| >= 2 then s[2..] else []);
    BlankRunBound(if |s| >= 1 then s[1..] else []);
    if |s| >= 2 && s[0] == '\r' && s[1] == '\n' && BlankRun(s[2..]) > 0 then 2 + BlankRun(s[2..])
    else if |s| >= 1 && s[0] == '\n' && BlankRun(s[1..]) > 0 then 1 + BlankRun(s[1..])
    else 0
  }

  lemma BlankRunBound(s: string)
    ensures BlankRun(s) <= |s|
  {}

  // re.sub(r"\r?\n([ \t]+)", " ", s)
  function Unfold(s: string): string {
    if s == [] then []
    else if FoldLength(s) > 0 then " " + Unfold(s[FoldLength(s)..])
    else [s[0]] + Unfold(s[1..])
  }

  datatype Header = Header(name: string, value: string)

  function Line(h: Header): string {
    h.name + ": " + h.value
  }

  function Lines(hs: seq<Header>): seq<string> {
    if hs == [] then [] else [Line(hs[0])] + Lines(hs[1..])
  }

  // "\n".join(f"{k}: {v}" for k, v in msg.items())
  function Render(hs: seq<Header>): string {
    Join(Lines(hs), "\n")
  }

  function AfterColon(line: string): string {
    if line == [] then [] else if line[0] == ':' then line[1..] else AfterColon(line[1..])
  }

  function FirstValue(lines: seq<string>, target: string): string {
    if lines == [] then ""
    else if StartsWith(Lower(lines[0]), target) then NormalizeId(Strip(AfterColon(lines[0])))
    else FirstValue(lines[1..], target)
  }

  function ExtractHeader(raw: string, name: string): string {
    if raw == "" then "" else FirstValue(Split(Unfold(raw), '\n'), Lower(name) + ":")
  }

  // ---------------------------------------------------------------- unfolding

  predicate OneLine(s: string) {
    '\n' !in s && '\r' !in s
  }

  lemma {:induction false} UnfoldAfterPlain(s: string, t: string)
    requires OneLine(s)
    ensures Unfold(s + t) == s + Unfold(t)
    decreases |s|
  {
    if s == [] {
      assert s + t == t && s + Unfold(t) == Unfold(t);
    } else {
      assert (s + t)[0] == s[0] && (s + t)[1..] == s[1..] + t;
      UnfoldAfterPlain(s[1..], t);
      assert [s[0]] + (s[1..] + Unfold(t)) == s + Unfold(t);
    }
  }

  lemma {:induction false} BlankRunStops(a: string, t: string)
    requires t == [] || !IsBlank(t[0])
    ensures BlankRun(a + t) == BlankRun(a)
    decreases |a|
  {
    if a == [] {
      assert a + t == t;
    } else {
      assert (a + t)[1..] == a[1..] + t;
      BlankRunStops(a[1..], t);
    }
  }

  // A line break that starts a new header is never taken for a fold.
  lemma FoldLengthBeforeBreak(a: string, b: string)
    requires a != [] && (b == [] || !IsBlank(b[0]))
    ensures FoldLength(a + "\n" + b) == FoldLength(a)
  {
    var t := "\n" + b;
    assert a + "\n" + b == a + t;
    assert (a + t)[1..] == a[1..] + t;
    BlankRunStops(a[1..], t);
    if |a| >= 2 {
      assert (a + t)[2..] == a[2..] + t;
      BlankRunStops(a[2..], t);
    } else {
      assert (a + t)[1] == '\n' && (a + t)[2..] == b;
    }
  }

  // One step of unfolding: how much it consumes and what it emits.
  function Width(s: string): nat
    requires s != []
  {
    if FoldLength(s) > 0 then FoldLength(s) else 1
  }

  function Emitted(s: string): string
    requires s != []
  {
    if FoldLength(s) > 0 then " " else [s[0]]
  }

  lemma UnfoldStep(s: string)
    requires s != []
    ensures Width(s) <= |s| && Unfold(s) == Emitted(s) + Unfold(s[Width(s)..])
  {}

  lemma StepBeforeBreak(a: string, b: string)
    requires a != [] && (b == [] || !IsBlank(b[0]))
    ensures var s := a + "\n" + b;
      Width(s) == Width(a) <= |a| && Emitted(s) == Emitted(a) && s[Width(a)..] == a[Width(a)..] + "\n" + b
  {
    FoldLengthBeforeBreak(a, b);
  }

  lemma UnfoldBreakFirst(b: string)
    requires b == [] || !IsBlank(b[0])
    ensures Unfold("\n" + b) == "\n" + Unfold(b)
  {
    assert ("\n" + b)[1..] == b;
    BlankRunStops("", b);
    assert "" + b == b;
  }

  lemma Regroup(first: string, rest: string, b: string)
    ensures first + (rest + "\n" + b) == first + rest + "\n" + b
  {}

  lemma {:induction false} UnfoldAtBreak(a: string, b: string)
    requires b == [] || !IsBlank(b[0])
    ensures Unfold(a + "\n" + b) == Unfold(a) + "\n" + Unfold(b)
    decreases |a|
  {
    if a == [] {
      UnfoldBreakFirst(b);
      assert a + "\n" + b == "\n" + b;
      assert Unfold(a) + "\n" + Unfold(b) == "\n" + Unfold(b);
    } else {
      var rest := a[Width(a)..];
      StepBeforeBreak(a, b);
      UnfoldStep(a + "\n" + b);
      UnfoldStep(a);
      UnfoldAtBreak(rest, b);
      Regroup(Emitted(a), Unfold(rest), Unfold(b));
    }
  }

  // ---------------------------------------------------------------- finding the header

  predicate GoodName(name: string) {
    name != "" && OneLine(name) && ':' !in name && !IsBlank(name[0])
  }

  // A value whose line breaks are all folds.
  predicate GoodHeader(h: Header) {
    GoodName(h.name) && '\n' !in Unfold(h.value)
  }

  function UnfoldedLines(hs: seq<Header>): seq<string> {
    if hs == [] then [] else [hs[0].name + ": " + Unfold(hs[0].value)] + UnfoldedLines(hs[1..])
  }

  lemma UnfoldLine(h: Header)
    requires GoodHeader(h)
    ensures Unfold(Line(h)) == h.name + ": " + Unfold(h.value) && '\n' !in Unfold(Line(h))
  {
    UnfoldAfterPlain(h.name + ": ", h.value);
  }

  lemma RenderStartsWithName(hs: seq<Header>)
    requires hs != [] && GoodHeader(hs[0])
    ensures Render(hs) != "" && Render(hs)[0] == hs[0].name[0]
  {
    assert Lines(hs)[0] == Line(hs[0]);
  }

  lemma {:induction false} UnfoldRender(hs: seq<Header>)
    requires forall i :: 0 <= i < |hs| ==> GoodHeader(hs[i])
    ensures Unfold(Render(hs)) == Join(UnfoldedLines(hs), "\n")
    ensures forall l :: l in UnfoldedLines(hs) ==> '\n' !in l
    ensures |UnfoldedLines(hs)| == |hs| == |Lines(hs)|
    decreases |hs|
  {
    if hs != [] {
      UnfoldLine(hs[0]);
      UnfoldRender(hs[1..]);
      assert Lines(hs)[1..] == Lines(hs[1..]);
      assert UnfoldedLines(hs)[1..] == UnfoldedLines(hs[1..]);
      if |hs| > 1 {
        RenderStartsWithName(hs[1..]);
        UnfoldAtBreak(Line(hs[0]), Render(hs[1..]));
      }
    }
  }

  lemma LowerColon(s: string)
    ensures ':' in Lower(s) <==> ':' in s
  {
    if ':' in Lower(s) {
      var i :| 0 <= i < |s| && Lower(s)[i] == ':';
      assert s[i] == ':';
    }
    if ':' in s {
      var i :| 0 <= i < |s| && s[i] == ':';
      assert Lower(s)[i] == ':';
    }
  }

  // The prefix test on a rendered line is equality of names, ignoring case.
  lemma PrefixIsSameName(name: string, rest: string, wanted: string)
    requires ':' !in name && ':' !in wanted
    ensures StartsWith(Lower(name + ":" + rest), Lower(wanted) + ":") <==> Lower(name) == Lower(wanted)
  {
    var line, target := Lower(name + ":" + rest), Lower(wanted) + ":";
    LowerColon(name);
    LowerColon(wanted);
    assert line == Lower(name) + ":" + Lower(rest);
    assert line[|name|] == ':' && target[|wanted|] == ':';
    assert forall i :: 0 <= i < |wanted| ==> Lower(wanted)[i] != ':';
    assert forall i :: 0 <= i < |name| ==> Lower(name)[i] != ':';
    if target <= line {
      assert |wanted| == |name|;
      assert Lower(wanted) == line[..|wanted|] == Lower(name);
    }
  }

  lemma {:induction false} AfterColonOf(name: string, rest: string)
    requires ':' !in name
    ensures AfterColon(name + ":" + rest) == rest
    decreases |name|
  {
    var s := name + ":" + rest;
    if name == [] {
      assert s[1..] == rest;
    } else {
      assert s[1..] == name[1..] + ":" + rest;
      AfterColonOf(name[1..], rest);
    }
  }

  // The value of the first header of this name, ignoring case; "" when there is none.
  function Lookup(hs: seq<Header>, name: string): string {
    if hs == [] then ""
    else if Lower(hs[0].name) == Lower(name) then NormalizeId(Unfold(hs[0].value))
    else Lookup(hs[1..], name)
  }

  lemma NormalizeIgnoresPadding(s: string)
    ensures NormalizeId(Strip(" " + s)) == NormalizeId(s)
  {
    var head, tail := TrimParts(s, IsSpace);
    assert " " + s == (" " + head) + Strip(s) + tail;
    TrimPadded(" " + head, Strip(s), tail, IsSpace);
    TrimIdempotent(s, IsSpace);
  }

  lemma {:induction false} FirstValueIsLookup(hs: seq<Header>, name: string)
    requires (forall i :: 0 <= i < |hs| ==> GoodHeader(hs[i])) && ':' !in name
    ensures FirstValue(UnfoldedLines(hs), Lower(name) + ":") == Lookup(hs, name)
    decreases |hs|
  {
    if hs != [] {
      var rest := " " + Unfold(hs[0].value);
      assert hs[0].name + ": " + Unfold(hs[0].value) == hs[0].name + ":" + rest;
      PrefixIsSameName(hs[0].name, rest, name);
      AfterColonOf(hs[0].name, rest);
      NormalizeIgnoresPadding(Unfold(hs[0].value));
      FirstValueIsLookup(hs[1..], name);
      assert UnfoldedLines(hs)[1..] == UnfoldedLines(hs[1..]);
    }
  }

  /** Reading back what was printed: extract_header on rendered headers returns the normalised,
      unfolded value of the first header of that name in any case, or "" when there is none. */
  lemma ExtractReadsRendered(hs: seq<Header>, name: string)
    requires (forall i :: 0 <= i < |hs| ==> GoodHeader(hs[i])) && ':' !in name
    ensures ExtractHeader(Render(hs), name) == Lookup(hs, name)
  {
    if hs != [] {
      RenderStartsWithName(hs);
      UnfoldRender(hs);
      SplitJoin(UnfoldedLines(hs), '\n');
      FirstValueIsLookup(hs, name);
    }
  }

  // A fold: an optional CR, LF and at least one blank.
  predicate IsFold(f: string) {
    |f| >= 2 && (f[0] == '\n' || (f[0] == '\r' && f[1] == '\n' && |f| >= 3))
    && forall i :: (if f[0] == '\n' then 1 else 2) <= i < |f| ==> f[i] == ' ' || f[i] == '\t'
  }

  lemma {:induction false} AllBlankRun(s: string)
    requires forall i :: 0 <= i < |s| ==> IsBlank(s[i])
    ensures BlankRun(s) == |s|
    decreases |s|
  {
    if s != [] {
      AllBlankRun(s[1..]);
    }
  }

  lemma FoldLengthOfFold(f: string, rest: string)
    requires IsFold(f) && (rest == [] || !IsBlank(rest[0]))
    ensures FoldLength(f + rest) == |f|
  {
    var k := if f[0] == '\n' then 1 else 2;
    assert (f + rest)[k..] == f[k..] + rest;
    AllBlankRun(f[k..]);
    BlankRunStops(f[k..], rest);
  }

  // A value folded between its pieces, each break in its own way.
  function Folded(pieces: seq<string>, folds: seq<string>): string
    requires |pieces| == |folds| + 1
  {
    if folds == [] then pieces[0] else pieces[0] + folds[0] + Folded(pieces[1..], folds[1..])
  }

  predicate IsPiece(p: string) {
    OneLine(p) && p != "" && p[0] != ' ' && p[0] != '\t'
  }

  /** Folding is undone: however a value was folded, a fold of its own kind at each break, unfolding
      joins its pieces with one blank (section 2.2.3 of RFC 5322). */
  lemma {:induction false} UnfoldUndoesFolding(pieces: seq<string>, folds: seq<string>)
    requires |pieces| == |folds| + 1
    requires forall i :: 0 <= i < |folds| ==> IsFold(folds[i])
    requires forall i :: 0 <= i < |pieces| ==> IsPiece(pieces[i])
    ensures Unfold(Folded(pieces, folds)) == Join(pieces, " ")
    ensures '\n' !in Unfold(Folded(pieces, folds))
    decreases |folds|
  {
    var p := pieces[0];
    assert IsPiece(p);
    if folds == [] {
      UnfoldAfterPlain(p, "");
      assert p + "" == p && p + Unfold("") == p;
    } else {
      var fold, rest := folds[0], Folded(pieces[1..], folds[1..]);
      UnfoldUndoesFolding(pieces[1..], folds[1..]);
      assert IsPiece(pieces[1]) && rest[0] == pieces[1][0];
      UnfoldAfterPlain(p, fold + rest);
      assert p + fold + rest == p + (fold + rest);
      FoldLengthOfFold(fold, rest);
      assert (fold + rest)[|fold|..] == rest;
      assert p + (" " + Unfold(rest)) == p + " " + Unfold(rest);
    }
  }
}
