// Message-ID and References normalisation (apps/inbound_email/utils.py).
module MessageIds {
  import opened Text

  predicate IsAngle(c: char) {
    c == '<' || c == '>'
  }

  // raw.strip().strip("<>").strip()
  function NormalizeId(raw: string): string {
    Strip(Trim(Strip(raw), IsAngle))
  }

  // str.split() without arguments: the maximal runs without whitespace; `word` is the run so far.
  function WordsFrom(s: string, word: string): seq<string> {
    if s == [] then (if word == [] then [] else [word])
    else if IsSpace(s[0]) then (if word == [] then [] else [word]) + WordsFrom(s[1..], [])
    else WordsFrom(s[1..], word + [s[0]])
  }

  function Words(s: string): seq<string> {
    WordsFrom(s, [])
  }

  function NormalizeAll(ids: seq<string>): seq<string> {
    if ids == [] then [] else [NormalizeId(ids[0])] + NormalizeAll(ids[1..])
  }

  function NormalizeReferences(raw: string): string {
    if raw == "" then "" else Join(NormalizeAll(Words(raw)), " ")
  }

  predicate IsWord(s: string) {
    s != "" && forall i :: 0 <= i < |s| ==> !IsSpace(s[i])
  }

  // An id as stored: no whitespace, no angle bracket at either end.
  predicate CleanId(id: string) {
    IsWord(id) && !IsAngle(id[0]) && !IsAngle(id[|id| - 1])
  }

  function Bracketed(id: string): string {
    "<" + id + ">"
  }

  function BracketedAll(ids: seq<string>): seq<string> {
    if ids == [] then [] else [Bracketed(ids[0])] + BracketedAll(ids[1..])
  }

  // " ".join(f"<{id}>" for id in ids)
  function PrintReferences(ids: seq<string>): string {
    Join(BracketedAll(ids), " ")
  }

  /** Normalising strips exactly the padding: any whitespace, brackets and inner whitespace
      around a clean id give back the id. */
  lemma NormalizeStripsPadding(a: string, open: string, b: string, id: string, c: string, close: string, d: string)
    requires CleanId(id)
    requires AllDropped(a, IsSpace) && AllDropped(b, IsSpace) && AllDropped(c, IsSpace) && AllDropped(d, IsSpace)
    requires AllDropped(open, IsAngle) && AllDropped(close, IsAngle) && open != "" && close != ""
    ensures NormalizeId(a + (open + (b + id + c) + close) + d) == id
  {
    var core := b + id + c;
    assert IsAngle(open[0]) && IsAngle(close[|close| - 1]);
    TrimPadded(a, open + core + close, d, IsSpace);
    assert a + (open + core + close) + d == a + (open + (b + id + c) + close) + d;
    TrimPadded(open, core, close, IsAngle);
    TrimPadded(b, id, c, IsSpace);
  }

  lemma NormalizeBracketed(id: string)
    requires CleanId(id)
    ensures NormalizeId(Bracketed(id)) == id && NormalizeId(id) == id
  {
    NormalizeStripsPadding("", "<", "", id, "", ">", "");
    assert "" + ("<" + ("" + id + "") + ">") + "" == Bracketed(id);
    TrimPadded("", id, "", IsSpace);
    TrimPadded("", id, "", IsAngle);
    assert "" + id + "" == id;
  }

  lemma {:induction false} WordsOfRun(run: string, s: string, word: string)
    requires forall i :: 0 <= i < |run| ==> !IsSpace(run[i])
    ensures WordsFrom(run + s, word) == WordsFrom(s, word + run)
    decreases |run|
  {
    if run == [] {
      assert run + s == s && word + run == word;
    } else {
      assert (run + s)[1..] == run[1..] + s;
      WordsOfRun(run[1..], s, word + [run[0]]);
      assert word + [run[0]] + run[1..] == word + run;
    }
  }

  // Words inverts joining with single blanks.
  lemma {:induction false} WordsOfJoin(parts: seq<string>)
    requires forall i :: 0 <= i < |parts| ==> IsWord(parts[i])
    ensures Words(Join(parts, " ")) == parts
    decreases |parts|
  {
    if |parts| == 1 {
      WordsOfRun(parts[0], "", "");
      assert parts[0] + "" == parts[0] && "" + parts[0] == parts[0];
    } else if |parts| > 1 {
      var tail := Join(parts[1..], " ");
      WordsOfJoin(parts[1..]);
      WordsOfRun(parts[0], " " + tail, "");
      assert Join(parts, " ") == parts[0] + (" " + tail) && "" + parts[0] == parts[0];
      assert (" " + tail)[1..] == tail;
      assert [parts[0]] + parts[1..] == parts;
    }
  }

  lemma {:induction false} NormalizeBracketedAll(ids: seq<string>)
    requires forall i :: 0 <= i < |ids| ==> CleanId(ids[i])
    ensures NormalizeAll(BracketedAll(ids)) == ids && |BracketedAll(ids)| == |ids|
    ensures forall i :: 0 <= i < |ids| ==> BracketedAll(ids)[i] == Bracketed(ids[i])
    decreases |ids|
  {
    if ids != [] {
      NormalizeBracketedAll(ids[1..]);
      NormalizeBracketed(ids[0]);
      assert [ids[0]] + ids[1..] == ids;
    }
  }

  lemma BracketedIsWord(id: string)
    requires CleanId(id)
    ensures IsWord(Bracketed(id))
  {}

  lemma {:induction false} BracketedAllWords(ids: seq<string>)
    requires forall i :: 0 <= i < |ids| ==> CleanId(ids[i])
    ensures forall i :: 0 <= i < |BracketedAll(ids)| ==> IsWord(BracketedAll(ids)[i])
    decreases |ids|
  {
    if ids != [] {
      BracketedIsWord(ids[0]);
      BracketedAllWords(ids[1..]);
    }
  }

  lemma WordsOfPrinted(ids: seq<string>)
    requires forall i :: 0 <= i < |ids| ==> CleanId(ids[i])
    ensures Words(PrintReferences(ids)) == BracketedAll(ids)
  {
    BracketedAllWords(ids);
    WordsOfJoin(BracketedAll(ids));
  }

  lemma WordsOfStored(ids: seq<string>)
    requires forall i :: 0 <= i < |ids| ==> CleanId(ids[i])
    ensures Words(Join(ids, " ")) == ids
  {
    forall i | 0 <= i < |ids| ensures IsWord(ids[i]) {
      assert CleanId(ids[i]);
    }
    WordsOfJoin(ids);
  }

  /** Printing a chain of ids as a References header and normalising it again gives back the
      chain, and splitting what is stored gives its ids (section 3.6.4 of RFC 5322). */
  lemma ReferencesRoundTrip(ids: seq<string>)
    requires forall i :: 0 <= i < |ids| ==> CleanId(ids[i])
    ensures NormalizeReferences(PrintReferences(ids)) == Join(ids, " ")
    ensures Words(Join(ids, " ")) == ids
  {
    WordsOfPrinted(ids);
    WordsOfStored(ids);
    NormalizeBracketedAll(ids);
    if PrintReferences(ids) == "" {
      assert BracketedAll(ids) == Words("") == [];
    }
  }
}
