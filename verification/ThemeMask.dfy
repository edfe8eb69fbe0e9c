// Masking protected regions before the hex-colour scan (scripts/check_theme.py).
module ThemeMask {
  import opened Options

  // A regex match, as a half-open range of positions.
  datatype Span = Span(lo: nat, hi: nat)

  // A match of SCRIPT_BLOCK_RE with its three adjacent groups.
  datatype ScriptSpan = ScriptSpan(lo: nat, bodyLo: nat, bodyHi: nat, hi: nat)

  type Pattern = string -> seq<Span>

  datatype Patterns = Patterns(
    htmlEntity: Pattern, cssComment: Pattern, cssRootBlock: Pattern, cssDataBsBlock: Pattern,
    htmlComment: Pattern, djangoTag: Pattern, inputColor: Pattern, dataHexAttr: Pattern,
    scriptBlock: string -> seq<ScriptSpan>, jsLineComment: Pattern, hex: Pattern)

  // What finditer and sub guarantee: matches in order, without overlap, inside the text.
  predicate InOrder(text: string, from: nat, spans: seq<Span>)
    decreases |spans|
  {
    if spans == [] then from <= |text|
    else from <= spans[0].lo <= spans[0].hi <= |text| && InOrder(text, spans[0].hi, spans[1..])
  }

  predicate ScriptsInOrder(text: string, from: nat, spans: seq<ScriptSpan>)
    decreases |spans|
  {
    if spans == [] then from <= |text|
    else
      && from <= spans[0].lo <= spans[0].bodyLo <= spans[0].bodyHi <= spans[0].hi <= |text|
      && ScriptsInOrder(text, spans[0].hi, spans[1..])
  }

  ghost predicate Regular(p: Pattern) {
    forall text :: InOrder(text, 0, p(text))
  }

  ghost predicate AllRegular(p: Patterns) {
    && Regular(p.htmlEntity) && Regular(p.cssComment) && Regular(p.cssRootBlock) && Regular(p.cssDataBsBlock)
    && Regular(p.htmlComment) && Regular(p.djangoTag) && Regular(p.inputColor) && Regular(p.dataHexAttr)
    && Regular(p.jsLineComment) && Regular(p.hex)
    && forall text :: ScriptsInOrder(text, 0, p.scriptBlock(text))
  }

  // _blank_keep_newlines
  function Blank(s: string): string {
    seq(|s|, i requires 0 <= i < |s| => if s[i] == '\n' then '\n' else ' ')
  }

  // regex.sub(_blank_keep_newlines, text), from a position on
  function Sub(text: string, from: nat, spans: seq<Span>): string
    requires InOrder(text, from, spans)
    decreases |spans|
  {
    if spans == [] then text[from..]
    else
      text[from..spans[0].lo] + Blank(text[spans[0].lo..spans[0].hi]) + Sub(text, spans[0].hi, spans[1..])
  }

  function Mask(p: Pattern, text: string): string
    requires Regular(p)
  {
    Sub(text, 0, p(text))
  }

  // mask_js_comments
  function MaskJs(p: Patterns, text: string): string
    requires AllRegular(p)
  {
    Mask(p.jsLineComment, Mask(p.cssComment, text))
  }

  predicate GroupsInside(text: string, s: ScriptSpan) {
    s.lo <= s.bodyLo <= s.bodyHi <= s.hi <= |text|
  }

  // The replacement of one script block: both tags blanked, comments in the body masked.
  function MaskScript(p: Patterns, text: string, s: ScriptSpan): string
    requires AllRegular(p) && GroupsInside(text, s)
  {
    Blank(text[s.lo..s.bodyLo]) + MaskJs(p, text[s.bodyLo..s.bodyHi]) + Blank(text[s.bodyHi..s.hi])
  }

  // SCRIPT_BLOCK_RE.sub with the three-group replacement
  function SubScripts(p: Patterns, text: string, from: nat, spans: seq<ScriptSpan>): string
    requires AllRegular(p) && ScriptsInOrder(text, from, spans)
    decreases |spans|
  {
    if spans == [] then text[from..]
    else
      var s := spans[0];
      text[from..s.lo] + MaskScript(p, text, s) + SubScripts(p, text, s.hi, spans[1..])
  }

  function MaskCss(p: Patterns, text: string): string
    requires AllRegular(p)
  {
    Mask(p.cssDataBsBlock, Mask(p.cssRootBlock, Mask(p.cssComment, text)))
  }

  function MaskHtml(p: Patterns, text: string): string
    requires AllRegular(p)
  {
    var t := Mask(p.dataHexAttr, Mask(p.inputColor, Mask(p.djangoTag, Mask(p.htmlComment, text))));
    SubScripts(p, t, 0, p.scriptBlock(t))
  }

  function MaskProtected(p: Patterns, text: string, suffix: string): string
    requires AllRegular(p)
  {
    var t := Mask(p.htmlEntity, text);
    if suffix == ".css" then MaskCss(p, t)
    else if suffix == ".html" then MaskHtml(p, t)
    else if suffix == ".js" then MaskJs(p, t)
    else t
  }

  // ---------------------------------------------------------------- positions

  // b is a with some characters, never a newline, turned into blanks.
  predicate Blanked(a: string, b: string) {
    |a| == |b| && forall i :: 0 <= i < |a| ==> b[i] == a[i] || (b[i] == ' ' && a[i] != '\n')
  }

  lemma BlankedConcat(a: string, b: string, c: string, d: string)
    requires Blanked(a, b) && Blanked(c, d)
    ensures Blanked(a + c, b + d)
  {}

  lemma BlankedTransitive(a: string, b: string, c: string)
    requires Blanked(a, b) && Blanked(b, c)
    ensures Blanked(a, c)
  {}

  lemma {:induction false} SubBlanks(text: string, from: nat, spans: seq<Span>)
    requires InOrder(text, from, spans)
    ensures from <= |text| && Blanked(text[from..], Sub(text, from, spans))
    decreases |spans|
  {
    if spans != [] {
      var s := spans[0];
      SubBlanks(text, s.hi, spans[1..]);
      BlankedConcat(text[from..s.lo], text[from..s.lo], text[s.lo..s.hi], Blank(text[s.lo..s.hi]));
      BlankedConcat(text[from..s.lo] + text[s.lo..s.hi], text[from..s.lo] + Blank(text[s.lo..s.hi]),
                    text[s.hi..], Sub(text, s.hi, spans[1..]));
      assert text[from..] == text[from..s.lo] + text[s.lo..s.hi] + text[s.hi..];
    }
  }

  lemma MaskBlanks(p: Pattern, text: string)
    requires Regular(p)
    ensures Blanked(text, Mask(p, text))
  {
    assert InOrder(text, 0, p(text));
    SubBlanks(text, 0, p(text));
    assert text[0..] == text;
  }

  lemma MaskTwice(p: Pattern, q: Pattern, text: string)
    requires Regular(p) && Regular(q)
    ensures Blanked(text, Mask(q, Mask(p, text)))
  {
    MaskBlanks(p, text);
    MaskBlanks(q, Mask(p, text));
    BlankedTransitive(text, Mask(p, text), Mask(q, Mask(p, text)));
  }

  lemma MaskScriptBlanks(p: Patterns, text: string, s: ScriptSpan)
    requires AllRegular(p) && GroupsInside(text, s)
    ensures Blanked(text[s.lo..s.hi], MaskScript(p, text, s))
  {
    var open, body, close := text[s.lo..s.bodyLo], text[s.bodyLo..s.bodyHi], text[s.bodyHi..s.hi];
    MaskTwice(p.cssComment, p.jsLineComment, body);
    BlankedConcat(open, Blank(open), body, MaskJs(p, body));
    BlankedConcat(open + body, Blank(open) + MaskJs(p, body), close, Blank(close));
    assert text[s.lo..s.hi] == open + body + close;
  }

  lemma {:induction false} SubScriptsBlanks(p: Patterns, text: string, from: nat, spans: seq<ScriptSpan>)
    requires AllRegular(p) && ScriptsInOrder(text, from, spans)
    ensures from <= |text| && Blanked(text[from..], SubScripts(p, text, from, spans))
    decreases |spans|
  {
    if spans != [] {
      var s := spans[0];
      SubScriptsBlanks(p, text, s.hi, spans[1..]);
      MaskScriptBlanks(p, text, s);
      BlankedConcat(text[from..s.lo], text[from..s.lo], text[s.lo..s.hi], MaskScript(p, text, s));
      BlankedConcat(text[from..s.lo] + text[s.lo..s.hi], text[from..s.lo] + MaskScript(p, text, s),
                    text[s.hi..], SubScripts(p, text, s.hi, spans[1..]));
      assert text[from..] == text[from..s.lo] + text[s.lo..s.hi] + text[s.hi..];
    }
  }

  lemma MaskHtmlBlanks(p: Patterns, text: string)
    requires AllRegular(p)
    ensures Blanked(text, MaskHtml(p, text))
  {
    var one := Mask(p.djangoTag, Mask(p.htmlComment, text));
    var two := Mask(p.dataHexAttr, Mask(p.inputColor, one));
    MaskTwice(p.htmlComment, p.djangoTag, text);
    MaskTwice(p.inputColor, p.dataHexAttr, one);
    BlankedTransitive(text, one, two);
    SubScriptsBlanks(p, two, 0, p.scriptBlock(two));
    assert two[0..] == two;
    BlankedTransitive(text, two, MaskHtml(p, text));
  }

  lemma MaskCssBlanks(p: Patterns, text: string)
    requires AllRegular(p)
    ensures Blanked(text, MaskCss(p, text))
  {
    var one := Mask(p.cssRootBlock, Mask(p.cssComment, text));
    MaskTwice(p.cssComment, p.cssRootBlock, text);
    MaskBlanks(p.cssDataBsBlock, one);
    BlankedTransitive(text, one, MaskCss(p, text));
  }

  // What follows the first pass only blanks further.
  lemma LaterPassesBlank(p: Patterns, text: string, suffix: string)
    requires AllRegular(p)
    ensures Blanked(Mask(p.htmlEntity, text), MaskProtected(p, text, suffix))
  {
    var t := Mask(p.htmlEntity, text);
    MaskCssBlanks(p, t);
    MaskHtmlBlanks(p, t);
    MaskTwice(p.cssComment, p.jsLineComment, t);
  }

  /** The whole masking keeps positions: for any regexes with ordered disjoint matches, the result
      has the length of the source, the same newlines, and otherwise only turns characters into
      blanks. */
  lemma MaskingKeepsPositions(p: Patterns, text: string, suffix: string)
    requires AllRegular(p)
    ensures Blanked(text, MaskProtected(p, text, suffix))
    ensures forall i :: 0 <= i < |text| ==> (MaskProtected(p, text, suffix)[i] == '\n' <==> text[i] == '\n')
  {
    MaskBlanks(p.htmlEntity, text);
    LaterPassesBlank(p, text, suffix);
    BlankedTransitive(text, Mask(p.htmlEntity, text), MaskProtected(p, text, suffix));
  }

  lemma {:induction false} SubCovers(text: string, from: nat, spans: seq<Span>, k: nat, i: nat)
    requires InOrder(text, from, spans) && k < |spans| && spans[k].lo <= i < spans[k].hi
    ensures from <= i < |text| && |Sub(text, from, spans)| == |text| - from
    ensures Sub(text, from, spans)[i - from] == ' ' || Sub(text, from, spans)[i - from] == '\n'
    decreases |spans|
  {
    SubBlanks(text, from, spans);
    var s := spans[0];
    if k > 0 {
      SubCovers(text, s.hi, spans[1..], k - 1, i);
    }
  }

  /** What a pass protects stays invisible: no character inside an HTML entity survives to be
      scanned, whatever the later passes do. */
  lemma EntitiesStayInvisible(p: Patterns, text: string, suffix: string, k: nat, i: nat)
    requires AllRegular(p) && k < |p.htmlEntity(text)|
    requires p.htmlEntity(text)[k].lo <= i < p.htmlEntity(text)[k].hi
    ensures i < |text| == |MaskProtected(p, text, suffix)|
    ensures MaskProtected(p, text, suffix)[i] == ' ' || MaskProtected(p, text, suffix)[i] == '\n'
  {
    assert InOrder(text, 0, p.htmlEntity(text));
    SubCovers(text, 0, p.htmlEntity(text), k, i);
    LaterPassesBlank(p, text, suffix);
  }

  // ---------------------------------------------------------------- exactly what is masked

  predicate Covers(spans: seq<Span>, i: int) {
    exists k :: 0 <= k < |spans| && spans[k].lo <= i < spans[k].hi
  }

  function BlankChar(c: char): char {
    if c == '\n' then c else ' '
  }

  lemma {:induction false} SubMasksExactly(text: string, from: nat, spans: seq<Span>, i: nat)
    requires InOrder(text, from, spans) && from <= i < |text|
    ensures |Sub(text, from, spans)| == |text| - from
    ensures Sub(text, from, spans)[i - from] == if Covers(spans, i) then BlankChar(text[i]) else text[i]
    decreases |spans|
  {
    SubBlanks(text, from, spans);
    if spans != [] {
      var s, rest := spans[0], spans[1..];
      SubBlanks(text, s.hi, rest);
      LaterSpansLieBehind(text, s.hi, rest);
      assert Covers(spans, i) <==> s.lo <= i < s.hi || Covers(rest, i) by {
        assert forall k :: 1 <= k < |spans| ==> spans[k] == rest[k - 1];
        assert forall k :: 0 <= k < |rest| ==> rest[k] == spans[k + 1];
      }
      if s.hi <= i {
        SubMasksExactly(text, s.hi, rest, i);
      }
    }
  }

  lemma {:induction false} LaterSpansLieBehind(text: string, from: nat, spans: seq<Span>)
    requires InOrder(text, from, spans)
    ensures forall i :: i < from ==> !Covers(spans, i)
    decreases |spans|
  {
    if spans != [] {
      LaterSpansLieBehind(text, spans[0].hi, spans[1..]);
      forall i | i < from ensures !Covers(spans, i) {
        assert !Covers(spans[1..], i);
        assert forall k :: 1 <= k < |spans| ==> spans[k] == spans[1..][k - 1];
      }
    }
  }

  lemma MaskExactly(p: Pattern, text: string, i: nat)
    requires Regular(p) && i < |text|
    ensures |Mask(p, text)| == |text|
    ensures Mask(p, text)[i] == if Covers(p(text), i) then BlankChar(text[i]) else text[i]
  {
    assert InOrder(text, 0, p(text));
    SubMasksExactly(text, 0, p(text), i);
  }

  // Positions that the comment passes of a script cover.
  predicate CoveredInJs(p: Patterns, text: string, i: int)
    requires AllRegular(p)
  {
    Covers(p.cssComment(text), i) || Covers(p.jsLineComment(Mask(p.cssComment, text)), i)
  }

  lemma MaskJsExactly(p: Patterns, text: string, i: nat)
    requires AllRegular(p) && i < |text|
    ensures |MaskJs(p, text)| == |text|
    ensures MaskJs(p, text)[i] == if CoveredInJs(p, text, i) then BlankChar(text[i]) else text[i]
  {
    MaskExactly(p.cssComment, text, i);
    MaskExactly(p.jsLineComment, Mask(p.cssComment, text), i);
  }

  // Positions that one script block covers: its tags, and the comments in its body.
  predicate CoveredByScript(p: Patterns, text: string, s: ScriptSpan, i: int)
    requires AllRegular(p) && GroupsInside(text, s)
  {
    || s.lo <= i < s.bodyLo || s.bodyHi <= i < s.hi
    || (s.bodyLo <= i < s.bodyHi && CoveredInJs(p, text[s.bodyLo..s.bodyHi], i - s.bodyLo))
  }

  lemma MaskScriptExactly(p: Patterns, text: string, s: ScriptSpan, i: nat)
    requires AllRegular(p) && GroupsInside(text, s) && s.lo <= i < s.hi
    ensures |MaskScript(p, text, s)| == s.hi - s.lo
    ensures MaskScript(p, text, s)[i - s.lo] == if CoveredByScript(p, text, s, i) then BlankChar(text[i]) else text[i]
  {
    MaskScriptBlanks(p, text, s);
    MaskTwice(p.cssComment, p.jsLineComment, text[s.bodyLo..s.bodyHi]);
    if s.bodyLo <= i < s.bodyHi {
      MaskJsExactly(p, text[s.bodyLo..s.bodyHi], i - s.bodyLo);
    }
  }

  // Positions that some script block covers.
  predicate CoveredByScripts(p: Patterns, text: string, from: nat, spans: seq<ScriptSpan>, i: int)
    requires AllRegular(p) && ScriptsInOrder(text, from, spans)
    decreases |spans|
  {
    spans != [] && (CoveredByScript(p, text, spans[0], i) || CoveredByScripts(p, text, spans[0].hi, spans[1..], i))
  }

  lemma {:induction false} LaterScriptsLieBehind(p: Patterns, text: string, from: nat, spans: seq<ScriptSpan>, i: nat)
    requires AllRegular(p) && ScriptsInOrder(text, from, spans) && i < from
    ensures !CoveredByScripts(p, text, from, spans, i)
    decreases |spans|
  {
    if spans != [] {
      LaterScriptsLieBehind(p, text, spans[0].hi, spans[1..], i);
    }
  }

  lemma {:induction false} SubScriptsMasksExactly(p: Patterns, text: string, from: nat, spans: seq<ScriptSpan>, i: nat)
    requires AllRegular(p) && ScriptsInOrder(text, from, spans) && from <= i < |text|
    ensures |SubScripts(p, text, from, spans)| == |text| - from
    ensures SubScripts(p, text, from, spans)[i - from]
            == if CoveredByScripts(p, text, from, spans, i) then BlankChar(text[i]) else text[i]
    decreases |spans|
  {
    SubScriptsBlanks(p, text, from, spans);
    if spans != [] {
      var s, rest := spans[0], spans[1..];
      ScriptsSplit(p, text, from, spans, i);
      if s.hi <= i {
        SubScriptsMasksExactly(p, text, s.hi, rest, i);
      } else {
        LaterScriptsLieBehind(p, text, s.hi, rest, i);
        if s.lo <= i {
          MaskScriptExactly(p, text, s, i);
        }
      }
    }
  }

  // Where position i of the text lands: before the first block, in it, or after it.
  lemma ScriptsSplit(p: Patterns, text: string, from: nat, spans: seq<ScriptSpan>, i: nat)
    requires AllRegular(p) && ScriptsInOrder(text, from, spans) && spans != [] && from <= i < |text|
    ensures var s, all := spans[0], SubScripts(p, text, from, spans);
      && |all| == |text| - from && |MaskScript(p, text, s)| == s.hi - s.lo
      && |SubScripts(p, text, s.hi, spans[1..])| == |text| - s.hi
      && (i < s.lo ==> all[i - from] == text[i])
      && (s.lo <= i < s.hi ==> all[i - from] == MaskScript(p, text, s)[i - s.lo])
      && (s.hi <= i ==> all[i - from] == SubScripts(p, text, s.hi, spans[1..])[i - s.hi])
  {
    var s, rest := spans[0], spans[1..];
    SubScriptsBlanks(p, text, s.hi, rest);
    MaskScriptBlanks(p, text, s);
    PiecesAt(text[from..s.lo], MaskScript(p, text, s), SubScripts(p, text, s.hi, rest), i - from);
  }

  lemma PiecesAt(a: string, b: string, c: string, k: nat)
    requires k < |a| + |b| + |c|
    ensures (a + b + c)[k] == if k < |a| then a[k] else if k < |a| + |b| then b[k - |a|] else c[k - |a| - |b|]
  {}

  // The text after each pass of the HTML masking.
  function HtmlStage(p: Patterns, t: string): string
    requires AllRegular(p)
  {
    Mask(p.dataHexAttr, Mask(p.inputColor, Mask(p.djangoTag, Mask(p.htmlComment, t))))
  }

  // What a file of this type protects, given its text without HTML entities: comments, :root and
  // data-bs-theme blocks of a style sheet; comments, template tags, colour inputs, data attributes,
  // script tags and the comments of scripts of a page; comments of a script; nothing else.
  ghost predicate Protected(p: Patterns, t: string, suffix: string, i: int)
    requires AllRegular(p)
  {
    if suffix == ".css" then
      || Covers(p.cssComment(t), i)
      || Covers(p.cssRootBlock(Mask(p.cssComment, t)), i)
      || Covers(p.cssDataBsBlock(Mask(p.cssRootBlock, Mask(p.cssComment, t))), i)
    else if suffix == ".html" then
      || Covers(p.htmlComment(t), i)
      || Covers(p.djangoTag(Mask(p.htmlComment, t)), i)
      || Covers(p.inputColor(Mask(p.djangoTag, Mask(p.htmlComment, t))), i)
      || Covers(p.dataHexAttr(Mask(p.inputColor, Mask(p.djangoTag, Mask(p.htmlComment, t)))), i)
      || ScriptsCover(p, HtmlStage(p, t), i)
    else if suffix == ".js" then CoveredInJs(p, t, i)
    else false
  }

  ghost predicate ScriptsCover(p: Patterns, t: string, i: int)
    requires AllRegular(p)
  {
    ScriptsInOrder(t, 0, p.scriptBlock(t)) && CoveredByScripts(p, t, 0, p.scriptBlock(t), i)
  }

  lemma MaskCssExactly(p: Patterns, t: string, i: nat)
    requires AllRegular(p) && i < |t|
    ensures |MaskCss(p, t)| == |t|
    ensures MaskCss(p, t)[i] == if Protected(p, t, ".css", i) then BlankChar(t[i]) else t[i]
  {
    var one := Mask(p.cssComment, t);
    MaskExactly(p.cssComment, t, i);
    MaskExactly(p.cssRootBlock, one, i);
    MaskExactly(p.cssDataBsBlock, Mask(p.cssRootBlock, one), i);
  }

  lemma MaskHtmlExactly(p: Patterns, t: string, i: nat)
    requires AllRegular(p) && i < |t|
    ensures |MaskHtml(p, t)| == |t|
    ensures MaskHtml(p, t)[i] == if Protected(p, t, ".html", i) then BlankChar(t[i]) else t[i]
  {
    var one := Mask(p.htmlComment, t);
    var two := Mask(p.djangoTag, one);
    var three := Mask(p.inputColor, two);
    MaskExactly(p.htmlComment, t, i);
    MaskExactly(p.djangoTag, one, i);
    MaskExactly(p.inputColor, two, i);
    MaskExactly(p.dataHexAttr, three, i);
    SubScriptsMasksExactly(p, HtmlStage(p, t), 0, p.scriptBlock(HtmlStage(p, t)), i);
  }

  /** Exactly the protected positions are masked: a character of the result is the source's own unless
      it lies in an HTML entity or in a region that files of this type protect; newlines survive. */
  lemma MasksExactlyTheProtected(p: Patterns, text: string, suffix: string, i: nat)
    requires AllRegular(p) && i < |text|
    ensures |MaskProtected(p, text, suffix)| == |text|
    ensures MaskProtected(p, text, suffix)[i] ==
      if Covers(p.htmlEntity(text), i) || Protected(p, Mask(p.htmlEntity, text), suffix, i)
      then BlankChar(text[i]) else text[i]
  {
    var t := Mask(p.htmlEntity, text);
    MaskExactly(p.htmlEntity, text, i);
    if suffix == ".css" {
      MaskCssExactly(p, t, i);
    } else if suffix == ".html" {
      MaskHtmlExactly(p, t, i);
    } else if suffix == ".js" {
      MaskJsExactly(p, t, i);
    }
  }

  // ---------------------------------------------------------------- the scan

  function Newlines(s: string): nat {
    if s == [] then 0 else Newlines(s[..|s| - 1]) + if s[|s| - 1] == '\n' then 1 else 0
  }

  /** Newlines counts the line breaks. */
  lemma {:induction false} NewlinesAreCounted(s: string)
    ensures Newlines(s) == |set i | 0 <= i < |s| && s[i] == '\n'|
  {
    if s != [] {
      var front, n := s[..|s| - 1], |s| - 1;
      NewlinesAreCounted(front);
      var before := set i | 0 <= i < |front| && front[i] == '\n';
      var all := set i | 0 <= i < |s| && s[i] == '\n';
      assert all == before + if s[n] == '\n' then {n} else {};
    }
  }

  lemma {:induction false} BlankedNewlines(a: string, b: string)
    requires Blanked(a, b)
    ensures Newlines(a) == Newlines(b)
  {
    if a != [] {
      BlankedNewlines(a[..|a| - 1], b[..|b| - 1]);
    }
  }

  datatype Hit = Hit(line: nat, text: string)

  // A hex literal contains no blank.
  ghost predicate NoBlanks(hex: Pattern) {
    forall text, k, i :: 0 <= k < |hex(text)| && hex(text)[k].lo <= i < hex(text)[k].hi && i < |text| ==> text[i] != ' '
  }

  // The hit stands verbatim in the source at position `at`, on the reported line.
  predicate Verbatim(src: string, h: Hit, at: nat, size: int) {
    |h.text| == size && at + size <= |src| && src[at..at + size] == h.text && h.line == Newlines(src[..at]) + 1
  }

  lemma {:induction false} SpanInside(text: string, from: nat, spans: seq<Span>, k: nat)
    requires InOrder(text, from, spans) && k < |spans|
    ensures spans[k].lo <= spans[k].hi <= |text|
    decreases k
  {
    if k > 0 {
      SpanInside(text, spans[0].hi, spans[1..], k - 1);
    } else {
      assert InOrder(text, spans[0].hi, spans[1..]);
    }
  }

  lemma HitIsVerbatim(p: Patterns, src: string, suffix: string, k: nat)
    requires AllRegular(p) && NoBlanks(p.hex)
    requires k < |p.hex(MaskProtected(p, src, suffix))|
    ensures var masked := MaskProtected(p, src, suffix); var s := p.hex(masked)[k];
      && s.lo <= s.hi <= |masked|
      && Verbatim(src, Hit(Newlines(masked[..s.lo]) + 1, masked[s.lo..s.hi]), s.lo, s.hi - s.lo)
  {
    var masked := MaskProtected(p, src, suffix);
    var s := p.hex(masked)[k];
    MaskingKeepsPositions(p, src, suffix);
    assert InOrder(masked, 0, p.hex(masked));
    SpanInside(masked, 0, p.hex(masked), k);
    forall i | s.lo <= i < s.hi ensures masked[i] == src[i] {
      assert masked[i] != ' ';
    }
    assert masked[s.lo..s.hi] == src[s.lo..s.hi];
    BlankedNewlines(src[..s.lo], masked[..s.lo]);
  }

  /** scan_file: one hit per hex literal left visible, in order, each standing verbatim in the
      source on the reported line; an unreadable file has none. */
  method ScanFile(p: Patterns, src: Option<string>, suffix: string) returns (hits: seq<Hit>)
    requires AllRegular(p) && NoBlanks(p.hex)
    ensures src.None? ==> hits == []
    ensures src.Some? ==>
      var spans := p.hex(MaskProtected(p, src.value, suffix));
      && |hits| == |spans|
      && forall k :: 0 <= k < |hits| ==> Verbatim(src.value, hits[k], spans[k].lo, spans[k].hi - spans[k].lo)
  {
    hits := [];
    if src.None? {
      return;
    }
    var masked := MaskProtected(p, src.value, suffix);
    var spans := p.hex(masked);
    for i := 0 to |spans|
      invariant |hits| == i
      invariant forall k :: 0 <= k < i ==> Verbatim(src.value, hits[k], spans[k].lo, spans[k].hi - spans[k].lo)
    {
      HitIsVerbatim(p, src.value, suffix, i);
      var line := Newlines(masked[..spans[i].lo]) + 1;
      hits := hits + [Hit(line, masked[spans[i].lo..spans[i].hi])];
    }
  }
}
