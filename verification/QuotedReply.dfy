// Stripping the quoted part of an email reply (apps/inbound_email/utils.py, strip_quoted_reply).
module QuotedReply {
  import opened Text

  // The delimiter patterns, as any test on the stripped line.
  type Delimiter = string -> bool

  predicate Quoted(line: string) {
    ">" <= Strip(line)
  }

  /** A line is quoted when its first character other than white space is ">". */
  lemma QuotedExactlyWhen(line: string)
    ensures Quoted(line) <==>
      exists i :: 0 <= i < |line| && line[i] == '>' && forall j :: 0 <= j < i ==> IsSpace(line[j])
  {
    var head, tail := TrimParts(line, IsSpace);
    var core := Strip(line);
    assert forall j :: 0 <= j < |head| ==> line[j] == head[j];
    assert core != [] ==> line[|head|] == core[0];
    assert core == [] ==> line == head + tail;
    assert core == [] ==> forall j :: 0 <= j < |tail| ==> line[|head| + j] == tail[j];
    assert Quoted(line) <==> core != [] && core[0] == '>';
  }

  predicate Starts(d: Delimiter, line: string) {
    !Quoted(line) && d(Strip(line))
  }

  // A line that survives.
  predicate Plain(d: Delimiter, line: string) {
    !Quoted(line) && !d(Strip(line))
  }

  function Kept(lines: seq<string>, d: Delimiter): seq<string> {
    if lines == [] then []
    else if Quoted(lines[0]) then Kept(lines[1..], d)
    else if d(Strip(lines[0])) then []
    else [lines[0]] + Kept(lines[1..], d)
  }

  function StripQuoted(body: string, d: Delimiter): string {
    if body == "" then "" else Rstrip(Join(Kept(Split(body, '\n'), d), "\n"))
  }

  method StripQuotedReply(body: string, d: Delimiter) returns (text: string)
    ensures text == StripQuoted(body, d)
  {
    if body == "" {
      return "";
    }
    var lines := Split(body, '\n');
    var result: seq<string> := [];
    for i := 0 to |lines|
      invariant Kept(lines, d) == result + Kept(lines[i..], d)
    {
      var line := lines[i];
      assert lines[i..][0] == line && lines[i..][1..] == lines[i + 1..];
      var stripped := Strip(line);
      if ">" <= stripped {
        continue;
      }
      if d(stripped) {
        assert result + [] == result;
        break;
      }
      result := result + [line];
    }
    assert lines[|lines|..] == [] && result + [] == result;
    return Rstrip(Join(result, "\n"));
  }

  // ---------------------------------------------------------------- what is kept

  // The positions of the kept lines, from line i on.
  function Picks(lines: seq<string>, d: Delimiter, i: nat): seq<nat>
    decreases |lines| - i
  {
    if i >= |lines| then []
    else if Quoted(lines[i]) then Picks(lines, d, i + 1)
    else if d(Strip(lines[i])) then []
    else [i] + Picks(lines, d, i + 1)
  }

  lemma {:induction false} PicksIncrease(lines: seq<string>, d: Delimiter, i: nat)
    ensures forall k :: 0 <= k < |Picks(lines, d, i)| ==> i <= Picks(lines, d, i)[k] < |lines|
    ensures forall k, m :: 0 <= k < m < |Picks(lines, d, i)| ==> Picks(lines, d, i)[k] < Picks(lines, d, i)[m]
    decreases |lines| - i
  {
    if i < |lines| {
      PicksIncrease(lines, d, i + 1);
    }
  }

  lemma {:induction false} KeptAtPicks(lines: seq<string>, d: Delimiter, i: nat)
    requires i <= |lines|
    ensures var p := Picks(lines, d, i);
      && |Kept(lines[i..], d)| == |p|
      && forall k :: 0 <= k < |p| ==>
           p[k] < |lines| && Kept(lines[i..], d)[k] == lines[p[k]] && Plain(d, lines[p[k]])
    decreases |lines| - i
  {
    if i < |lines| {
      KeptAtPicks(lines, d, i + 1);
      assert lines[i..][1..] == lines[i + 1..];
    }
  }

  // Where the first delimiter line is, at or after line i.
  function Cut(lines: seq<string>, d: Delimiter, i: nat): nat
    decreases |lines| - i
  {
    if i >= |lines| || Starts(d, lines[i]) then i else Cut(lines, d, i + 1)
  }

  lemma {:induction false} CutIsFirst(lines: seq<string>, d: Delimiter, i: nat)
    requires i <= |lines|
    ensures var c := Cut(lines, d, i);
      && i <= c <= |lines| && (c < |lines| ==> Starts(d, lines[c]))
      && (forall j :: i <= j < c ==> !Starts(d, lines[j]))
      && (forall j :: i <= j < c ==> j in Picks(lines, d, i) || Quoted(lines[j]))
      && (forall j :: j in Picks(lines, d, i) ==> j < c)
    decreases |lines| - i
  {
    if i < |lines| && !Starts(d, lines[i]) {
      CutIsFirst(lines, d, i + 1);
    }
  }

  /** The kept lines are an in-order selection of the lines before the first delimiter line, and
      every line before it that was not selected is quoted. */
  lemma KeptIsSelection(lines: seq<string>, d: Delimiter)
    ensures var kept, picks, cut := Kept(lines, d), Picks(lines, d, 0), Cut(lines, d, 0);
      && |kept| == |picks| && cut <= |lines| && (cut < |lines| ==> Starts(d, lines[cut]))
      && (forall k :: 0 <= k < |picks| ==> picks[k] < |lines| && kept[k] == lines[picks[k]] && Plain(d, lines[picks[k]]))
      && (forall k, m :: 0 <= k < m < |picks| ==> picks[k] < picks[m])
      && (forall j :: j in picks ==> j < cut)
      && (forall j :: 0 <= j < cut ==> j in picks || Quoted(lines[j]))
  {
    assert lines[0..] == lines;
    PicksIncrease(lines, d, 0);
    KeptAtPicks(lines, d, 0);
    CutIsFirst(lines, d, 0);
  }

  lemma {:induction false} AllPlainIsKept(lines: seq<string>, d: Delimiter)
    requires forall i :: 0 <= i < |lines| ==> Plain(d, lines[i])
    ensures Kept(lines, d) == lines
  {
    if lines != [] {
      AllPlainIsKept(lines[1..], d);
    }
  }

  // ---------------------------------------------------------------- the final rstrip

  lemma {:induction false} JoinSnoc(front: seq<string>, last: string, sep: string)
    requires front != []
    ensures Join(front + [last], sep) == Join(front, sep) + sep + last
  {
    if |front| == 1 {
      assert front + [last] == [front[0], last];
      assert [front[0], last][1..] == [last];
    } else {
      assert (front + [last])[1..] == front[1..] + [last];
      JoinSnoc(front[1..], last, sep);
      assert front[0] + sep + (Join(front[1..], sep) + sep + last) == (front[0] + sep + Join(front[1..], sep)) + sep + last;
    }
  }

  lemma RstripDropsBlankTail(s: string, tail: string)
    requires AllDropped(tail, IsSpace)
    ensures Rstrip(s + tail) == Rstrip(s)
  {
    TrimRightParts(s, IsSpace);
    var r := Rstrip(s);
    assert s + tail == r + (s[|r|..] + tail);
    TrimRightUnique(r, s[|r|..] + tail, IsSpace);
  }

  lemma RstripStopsAtText(s: string, last: string)
    requires Rstrip(last) != ""
    ensures Rstrip(s + last) == s + Rstrip(last)
  {
    TrimRightParts(last, IsSpace);
    var r := Rstrip(last);
    assert s + last == (s + r) + last[|r|..];
    TrimRightUnique(s + r, last[|r|..], IsSpace);
  }

  lemma BlankLastLine(front: seq<string>, last: string)
    requires Rstrip(last) == ""
    ensures Rstrip(Join(front + [last], "\n")) == Rstrip(Join(front, "\n"))
  {
    TrimRightParts(last, IsSpace);
    if front == [] {
      assert front + [last] == [last];
    } else {
      JoinSnoc(front, last, "\n");
      assert Join(front, "\n") + "\n" + last == Join(front, "\n") + ("\n" + last);
      RstripDropsBlankTail(Join(front, "\n"), "\n" + last);
    }
  }

  lemma TextLastLine(front: seq<string>, last: string)
    requires Rstrip(last) != ""
    ensures Rstrip(Join(front + [last], "\n")) == Join(front + [Rstrip(last)], "\n")
  {
    if front == [] {
      assert front + [last] == [last] && front + [Rstrip(last)] == [Rstrip(last)];
    } else {
      JoinSnoc(front, last, "\n");
      JoinSnoc(front, Rstrip(last), "\n");
      RstripStopsAtText(Join(front, "\n") + "\n", last);
    }
  }

  predicate OneLiners(lines: seq<string>) {
    forall i :: 0 <= i < |lines| ==> '\n' !in lines[i]
  }

  lemma SplitTextLastLine(front: seq<string>, last: string)
    requires OneLiners(front) && '\n' !in last && Rstrip(last) != ""
    ensures Split(Rstrip(Join(front + [last], "\n")), '\n') == front + [Rstrip(last)]
  {
    TextLastLine(front, last);
    TrimRightParts(last, IsSpace);
    var cut := front + [Rstrip(last)];
    SplitJoin(cut, '\n');
  }

  // Rstripping joined lines drops the blank lines at the end and rstrips the last other one.
  lemma {:induction false} RstripOfJoin(lines: seq<string>) returns (n: nat)
    requires OneLiners(lines)
    ensures n <= |lines| && forall i :: n <= i < |lines| ==> Rstrip(lines[i]) == ""
    ensures n == 0 ==> Rstrip(Join(lines, "\n")) == ""
    ensures n > 0 ==> Rstrip(lines[n - 1]) != "" &&
                      Split(Rstrip(Join(lines, "\n")), '\n') == lines[..n - 1] + [Rstrip(lines[n - 1])]
    decreases |lines|
  {
    if lines == [] {
      n := 0;
    } else {
      var front, last := lines[..|lines| - 1], lines[|lines| - 1];
      assert lines == front + [last];
      if Rstrip(last) == "" {
        n := RstripOfJoin(front);
        BlankLastLine(front, last);
        assert n > 0 ==> front[..n - 1] == lines[..n - 1];
      } else {
        n := |lines|;
        SplitTextLastLine(front, last);
      }
    }
  }

  lemma RstripTwice(s: string)
    ensures Rstrip(Rstrip(s)) == Rstrip(s)
  {
    TrimRightParts(s, IsSpace);
    TrimRightUnique(Rstrip(s), "", IsSpace);
    assert Rstrip(s) + "" == Rstrip(s);
  }

  // ---------------------------------------------------------------- the result

  // The lines of the stripped text.
  function OutputLines(text: string): seq<string> {
    if text == "" then [] else Split(text, '\n')
  }

  lemma KeptOneLiners(body: string, d: Delimiter)
    ensures OneLiners(Kept(Split(body, '\n'), d))
  {
    SplitPieces(body, '\n');
    KeptIsSelection(Split(body, '\n'), d);
  }

  lemma KeptLinesArePlain(body: string, d: Delimiter)
    ensures forall i :: 0 <= i < |Kept(Split(body, '\n'), d)| ==> Plain(d, Kept(Split(body, '\n'), d)[i])
  {
    KeptIsSelection(Split(body, '\n'), d);
  }

  lemma RstrippedIsPlain(d: Delimiter, line: string)
    requires Plain(d, line)
    ensures Plain(d, Rstrip(line)) && Rstrip(Rstrip(line)) == Rstrip(line)
  {
    StripOfRstrip(line);
    RstripTwice(line);
  }

  /** Every line of the result is the kept line of the same place, up to trailing whitespace, and
      so neither quoted nor a delimiter; the kept lines beyond the result are blank. */
  lemma OutputLinesAreKeptLines(body: string, d: Delimiter)
    requires body != ""
    ensures var out, kept := OutputLines(StripQuoted(body, d)), Kept(Split(body, '\n'), d);
      && |out| <= |kept|
      && (forall i :: 0 <= i < |out| ==> Rstrip(out[i]) == Rstrip(kept[i]) && Plain(d, out[i]))
      && (forall i :: |out| <= i < |kept| ==> Rstrip(kept[i]) == "")
  {
    var kept := Kept(Split(body, '\n'), d);
    KeptOneLiners(body, d);
    KeptLinesArePlain(body, d);
    var n := RstripOfJoin(kept);
    var text := Rstrip(Join(kept, "\n"));
    if n > 0 {
      RstrippedIsPlain(d, kept[n - 1]);
      var out := Split(text, '\n');
      assert out == kept[..n - 1] + [Rstrip(kept[n - 1])];
      assert text != "" by {
        assert out[n - 1] != "" && Split("", '\n') == [""];
      }
      forall i | 0 <= i < n ensures Rstrip(out[i]) == Rstrip(kept[i]) && Plain(d, out[i]) {
        assert Plain(d, kept[i]);
        assert i < n - 1 ==> out[i] == kept[i];
      }
      assert OutputLines(StripQuoted(body, d)) == out;
    }
  }

  /** strip_quoted_reply is idempotent, for any delimiter test on the stripped line. */
  lemma StrippingIsIdempotent(body: string, d: Delimiter)
    ensures StripQuoted(StripQuoted(body, d), d) == StripQuoted(body, d)
  {
    var text := StripQuoted(body, d);
    if text != "" {
      OutputLinesAreKeptLines(body, d);
      AllPlainIsKept(Split(text, '\n'), d);
      JoinSplit(text, '\n');
      RstripTwice(Join(Kept(Split(body, '\n'), d), "\n"));
    }
  }
}
