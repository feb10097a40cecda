/** The span chunker of the evidence parser: paragraphs are found by a scan, and every paragraph is cut into
    trimmed spans of bounded length, at a space where the window has one. */
module EvidenceSpans {
  import opened Outcomes

  const MAX_SPAN_TEXT := 2000

  datatype Error = NoText | SpanTooLong

  datatype Span = Span(sequence: nat, start: nat, end: nat, text: string)

  datatype Range = Range(start: nat, end: nat)

  /** Python's whitespace: what `\s` matches and `strip` removes. */
  predicate IsSpace(c: char) {
    || '\t' <= c <= '\r' || '\U{1C}' <= c <= ' ' || c == '\U{85}' || c == '\U{A0}' || c == '\U{1680}'
    || '\U{2000}' <= c <= '\U{200A}' || c == '\U{2028}' || c == '\U{2029}' || c == '\U{202F}'
    || c == '\U{205F}' || c == '\U{3000}'
  }

  /** Nothing but whitespace in a window. */
  predicate Blank(s: string, lo: int, hi: int) {
    0 <= lo <= hi <= |s| && forall k :: lo <= k < hi ==> IsSpace(s[k])
  }

  /** The first solid position of a window, or its end. */
  function FirstSolid(s: string, lo: nat, hi: nat): (r: nat)
    requires lo <= hi <= |s|
    ensures lo <= r <= hi && Blank(s, lo, r) && (r < hi ==> !IsSpace(s[r]))
    decreases hi - lo
  {
    if lo == hi || !IsSpace(s[lo]) then lo else FirstSolid(s, lo + 1, hi)
  }

  /** The position after the last solid one of a window, or its start. */
  function AfterLastSolid(s: string, lo: nat, hi: nat): (r: nat)
    requires lo <= hi <= |s|
    ensures lo <= r <= hi && Blank(s, r, hi) && (r > lo ==> !IsSpace(s[r - 1]))
    decreases hi - lo
  {
    if lo == hi || !IsSpace(s[hi - 1]) then hi else AfterLastSolid(s, lo, hi - 1)
  }

  /** The window without its outer whitespace. */
  function Strip(s: string, lo: nat, hi: nat): string
    requires lo <= hi <= |s|
  {
    s[FirstSolid(s, lo, hi)..AfterLastSolid(s, FirstSolid(s, lo, hi), hi)]
  }

  /** The last space in a window, as `rfind` finds it. */
  function LastSpace(s: string, lo: nat, hi: nat): (r: int)
    requires lo <= hi <= |s|
    ensures r == -1 || (lo <= r < hi && s[r] == ' ')
    ensures forall k :: lo <= k < hi && s[k] == ' ' ==> k <= r
    decreases hi
  {
    if lo == hi then -1 else if s[hi - 1] == ' ' then hi - 1 else LastSpace(s, lo, hi - 1)
  }

  predicate OccursAt(s: string, part: string, k: int, hi: nat) {
    0 <= k && k + |part| <= hi <= |s| && s[k..k + |part|] == part
  }

  /** The first occurrence inside a window, as `find` finds it. */
  function FirstOccurrence(s: string, part: string, lo: nat, hi: nat): (r: int)
    requires hi <= |s|
    ensures r == -1 || (lo <= r && OccursAt(s, part, r, hi))
    ensures forall k :: lo <= k && OccursAt(s, part, k, hi) ==> 0 <= r <= k
    decreases hi - lo
  {
    if lo + |part| > hi then -1
    else if OccursAt(s, part, lo, hi) then lo
    else FirstOccurrence(s, part, lo + 1, hi)
  }

  // ---------- paragraphs ----------

  /** A line feed, blanks and another line feed start here. */
  predicate BlankLineAt(text: string, k: nat) {
    k < |text| && text[k] == '\n' && exists e :: k < e < |text| && text[e] == '\n' && Blank(text, k + 1, e)
  }

  predicate EndsParagraph(text: string, j: nat) {
    j < |text| && !IsSpace(text[j]) && (BlankLineAt(text, j + 1) || Blank(text, j + 1, |text|))
  }

  /** A paragraph starts at a solid position and ends after the least later position that ends one; it is that
      position alone when nothing solid follows. */
  predicate IsParagraph(text: string, p: Range) {
    && p.start < p.end <= |text| && !IsSpace(text[p.start]) && EndsParagraph(text, p.end - 1)
    && (forall j :: p.start < j < p.end - 1 ==> !EndsParagraph(text, j))
    && (p.end == p.start + 1 ==> Blank(text, p.end, |text|))
  }

  /** The next paragraph from a position on. */
  method NextParagraph(text: string, from: nat) returns (p: Option<Range>)
    requires from <= |text|
    ensures p.None? <==> Blank(text, from, |text|)
    ensures p.Some? ==> from <= p.value.start && Blank(text, from, p.value.start) && IsParagraph(text, p.value)
  {
    var start := FirstSolid(text, from, |text|);
    if start == |text| { return None; }
    var j := start + 1;
    while j < |text|
      invariant start < j <= |text|
      invariant forall k :: start < k < j ==> !EndsParagraph(text, k)
    {
      if EndsParagraph(text, j) { return Some(Range(start, j + 1)); }
      j := j + 1;
    }
    LastSolidEndsParagraph(text, start);
    return Some(Range(start, start + 1));
  }

  lemma LastSolidEndsParagraph(text: string, start: nat)
    requires start < |text|
    requires forall k :: start < k < |text| ==> !EndsParagraph(text, k)
    ensures Blank(text, start + 1, |text|)
  {
    var last := AfterLastSolid(text, start + 1, |text|);
    assert last > start + 1 ==> EndsParagraph(text, last - 1);
  }

  ghost predicate FirstBlankLineAfter(text: string, start: nat, k: nat) {
    start < k && BlankLineAt(text, k) && forall i :: start < i < k ==> !BlankLineAt(text, i)
  }

  /** A paragraph stops at the next blank line exactly when the character before that line is solid
      and, unless the paragraph would be that character alone, whatever follows; a paragraph of one
      character stops there only if nothing solid follows. */
  lemma StopsAtBlankLineExactly(text: string, p: Range, k: nat)
    requires IsParagraph(text, p) && FirstBlankLineAfter(text, p.start, k)
    ensures p.end == k <==> !IsSpace(text[k - 1]) && (k - 1 > p.start || Blank(text, k, |text|))
  {
    if !IsSpace(text[k - 1]) {
      assert EndsParagraph(text, k - 1);
      assert p.end > k ==> k - 1 <= p.start;
      assert p.start < p.end - 1 < k - 1 ==> !BlankLineAt(text, p.end);
    }
  }

  /** Without a later blank line a paragraph ends at the last solid position of the text. */
  lemma StopsAtLastSolid(text: string, p: Range)
    requires IsParagraph(text, p) && forall k :: p.start < k < |text| ==> !BlankLineAt(text, k)
    ensures Blank(text, p.end, |text|)
  {
    assert p.end < |text| ==> !BlankLineAt(text, p.end);
  }

  ghost predicate IsSolidBetween(text: string, k: int, e: int) {
    exists j :: k < j < e && 0 <= j < |text| && !IsSpace(text[j])
  }

  /** While every two line feeds after its start have something solid between them, a paragraph runs to the last solid
      position of the text. */
  lemma LinesStayTogether(text: string, p: Range)
    requires IsParagraph(text, p)
    requires forall k, e :: p.start < k < e < |text| && text[k] == '\n' && text[e] == '\n' ==> IsSolidBetween(text, k, e)
    ensures Blank(text, p.end, |text|)
  {
    forall k | p.start < k < |text| ensures !BlankLineAt(text, k) {
      forall e | k < e < |text| && text[k] == '\n' && text[e] == '\n' ensures !Blank(text, k + 1, e) {
        assert IsSolidBetween(text, k, e);
      }
    }
    StopsAtLastSolid(text, p);
  }

  /** A solid position followed by a line feed, whitespace and another line feed ends the paragraph, unless it is its
      first one. */
  lemma EmptyLineEnds(text: string, p: Range, k: nat, e: nat)
    requires IsParagraph(text, p) && p.start + 1 < k < e < |text| && !IsSpace(text[k - 1])
    requires text[k] == '\n' && text[e] == '\n' && forall j :: k < j < e ==> IsSpace(text[j])
    ensures p.end <= k
  {
    assert BlankLineAt(text, k);
    assert EndsParagraph(text, k - 1);
  }

  /** A one-character paragraph and a paragraph with a blank at the end of its last line both run on
      over the blank line, to the next paragraph. */
  lemma BlankLinesAreOverrun()
    ensures BlankLineAt("a\n\nc", 1) && IsParagraph("a\n\nc", Range(0, 4))
    ensures BlankLineAt("ab \n\nc", 3) && IsParagraph("ab \n\nc", Range(0, 6))
  {
    var one, two := "a\n\nc", "ab \n\nc";
    assert Blank(one, 2, 2) && one[2] == '\n';
    assert Blank(two, 4, 4) && two[4] == '\n';
    forall j | 0 < j < 5 ensures !EndsParagraph(two, j) {
      assert !IsSpace(two[5]);
      assert two[2] == ' ';
    }
  }

  // ---------- what a list of spans must satisfy ----------

  predicate SpanOk(text: string, s: Span, limit: nat) {
    && s.start < s.end <= |text| && s.text == text[s.start..s.end]
    && |s.text| <= limit && |s.text| <= 2000
    && !IsSpace(text[s.start]) && !IsSpace(text[s.end - 1])
    && (s.end < |text| && !IsSpace(text[s.end]) ==> ' ' !in s.text)
  }

  ghost predicate InParagraph(text: string, s: Span) {
    exists p: Range :: p.start <= s.start && s.end <= p.end && IsParagraph(text, p)
  }

  predicate Numbered(spans: seq<Span>) {
    forall i :: 0 <= i < |spans| ==> spans[i].sequence == i + 1
  }

  predicate Ordered(spans: seq<Span>) {
    forall i, j :: 0 <= i < j < |spans| ==> spans[i].end <= spans[j].start
  }

  predicate Holds(spans: seq<Span>, i: int, k: int) {
    0 <= i < |spans| && spans[i].start <= k < spans[i].end
  }

  /** Every solid position before the bound lies in a span. */
  ghost predicate Covered(text: string, spans: seq<Span>, bound: nat) {
    bound <= |text| && forall k :: 0 <= k < bound && !IsSpace(text[k]) ==> exists i :: Holds(spans, i, k)
  }

  ghost predicate SpansOk(text: string, spans: seq<Span>, limit: nat, bound: nat) {
    && Numbered(spans) && Ordered(spans) && Covered(text, spans, bound)
    && (forall s :: s in spans ==> SpanOk(text, s, limit) && InParagraph(text, s) && s.end <= bound)
  }

  lemma AddingASpan(text: string, spans: seq<Span>, limit: nat, bound: nat, s: Span, bound1: nat)
    requires SpansOk(text, spans, limit, bound) && Blank(text, bound, s.start) && Blank(text, s.end, bound1)
    requires SpanOk(text, s, limit) && InParagraph(text, s) && s.sequence == |spans| + 1
    ensures SpansOk(text, spans + [s], limit, bound1)
  {
    hide InParagraph;
    var longer := spans + [s];
    forall k | 0 <= k < bound1 && !IsSpace(text[k]) ensures exists i :: Holds(longer, i, k) {
      if k < bound {
        var i :| Holds(spans, i, k);
        assert Holds(longer, i, k);
      } else {
        assert Holds(longer, |spans|, k);
      }
    }
  }

  lemma SkippingBlanks(text: string, spans: seq<Span>, limit: nat, bound: nat, bound1: nat)
    requires SpansOk(text, spans, limit, bound) && Blank(text, bound, bound1)
    ensures SpansOk(text, spans, limit, bound1)
  {
    hide SpanOk, InParagraph;
  }

  // ---------- the chunk loop ----------

  /** The stripped window is found again at its first solid position. */
  lemma StrippedIsFound(s: string, lo: nat, end: nat, hi: nat)
    requires lo < end <= hi <= |s| && Strip(s, lo, end) != []
    ensures FirstOccurrence(s, Strip(s, lo, end), lo, hi) == FirstSolid(s, lo, end)
  {
    hide FirstOccurrence;
    var start := FirstSolid(s, lo, end);
    var chunk := Strip(s, lo, end);
    assert chunk[0] == s[start];
    assert OccursAt(s, chunk, start, hi);
    var at := FirstOccurrence(s, chunk, lo, hi);
    assert s[at..at + |chunk|][0] == s[at];
  }

  /** The next cut of a paragraph that stops at `stop`: the stop itself when it is within the limit, otherwise the
      last space strictly inside the limit, otherwise the limit. */
  ghost predicate IsNextCut(text: string, stop: nat, limit: nat, c: nat, d: nat) {
    && c < d <= stop <= |text|
    && if stop <= c + limit then d == stop
       else if exists k :: c < k < c + limit && text[k] == ' '
       then d < c + limit && text[d] == ' ' && forall k :: d < k < c + limit ==> text[k] != ' '
       else d == c + limit
  }

  /** The cuts of a paragraph up to some offset, each one the next after the one before. */
  ghost predicate AreCuts(text: string, p: Range, limit: nat, cuts: seq<nat>, offset: nat) {
    && cuts != [] && cuts[0] == p.start && cuts[|cuts| - 1] == offset
    && forall i :: 0 <= i < |cuts| - 1 ==> IsNextCut(text, p.end, limit, cuts[i], cuts[i + 1])
  }

  /** The window without its outer whitespace, which is not empty. */
  ghost predicate IsPiece(text: string, lo: int, hi: int, s: Span) {
    && 0 <= lo <= s.start < s.end <= hi <= |text| && s.text == text[s.start..s.end]
    && !IsSpace(text[s.start]) && !IsSpace(text[s.end - 1])
    && Blank(text, lo, s.start) && Blank(text, s.end, hi)
  }

  ghost predicate IsPieceAt(text: string, cuts: seq<nat>, i: int, s: Span) {
    0 <= i < |cuts| - 1 && IsPiece(text, cuts[i], cuts[i + 1], s)
  }

  /** Between this cut and the next there is nothing but whitespace, or one of the spans is the piece. */
  ghost predicate IsTaken(text: string, cuts: seq<nat>, i: int, spans: seq<Span>) {
    0 <= i < |cuts| - 1 && (Blank(text, cuts[i], cuts[i + 1]) || exists s :: s in spans && IsPieceAt(text, cuts, i, s))
  }

  /** The spans are exactly the pieces between the cuts that are not blank. */
  ghost predicate ArePieces(text: string, cuts: seq<nat>, spans: seq<Span>) {
    && (forall s :: s in spans ==> exists i :: IsPieceAt(text, cuts, i, s))
    && (forall i :: 0 <= i < |cuts| - 1 ==> IsTaken(text, cuts, i, spans))
  }

  /** A paragraph within the limit is one piece: itself. */
  lemma ShortParagraphIsOnePiece(text: string, p: Range, limit: nat, cuts: seq<nat>, spans: seq<Span>)
    requires IsParagraph(text, p) && p.end <= p.start + limit
    requires AreCuts(text, p, limit, cuts, p.end) && ArePieces(text, cuts, spans) && Ordered(spans)
    ensures |spans| == 1 && spans[0].start == p.start && spans[0].end == p.end
  {
    ShortParagraphHasTwoCuts(text, p, limit, cuts);
    assert IsTaken(text, cuts, 0, spans) && !IsSpace(text[p.start]);
    var s :| s in spans && IsPieceAt(text, cuts, 0, s);
    forall k | 0 <= k < |spans| ensures spans[k].start == p.start && spans[k].end == p.end {
      assert spans[k] in spans;
      var i :| IsPieceAt(text, cuts, i, spans[k]);
    }
    assert |spans| > 1 ==> Holds(spans, 0, p.start) && Holds(spans, 1, p.start);
  }

  lemma ShortParagraphHasTwoCuts(text: string, p: Range, limit: nat, cuts: seq<nat>)
    requires IsParagraph(text, p) && p.end <= p.start + limit && AreCuts(text, p, limit, cuts, p.end)
    ensures cuts == [p.start, p.end]
  {
    assert |cuts| > 1 ==> IsNextCut(text, p.end, limit, cuts[0], cuts[0 + 1]);
    assert |cuts| > 2 ==> IsNextCut(text, p.end, limit, cuts[1], cuts[1 + 1]);
  }

  /** The cuts are determined by the text, the paragraph and the limit. */
  lemma {:induction false} CutsAreUnique(text: string, p: Range, limit: nat, a: seq<nat>, b: seq<nat>, i: nat)
    requires AreCuts(text, p, limit, a, p.end) && AreCuts(text, p, limit, b, p.end) && i < |a|
    ensures i < |b| && a[i] == b[i]
  {
    if i > 0 {
      CutsAreUnique(text, p, limit, a, b, i - 1);
      assert IsNextCut(text, p.end, limit, a[i - 1], a[(i - 1) + 1]);
      if i < |b| { assert IsNextCut(text, p.end, limit, b[i - 1], b[(i - 1) + 1]); }
    }
  }

  lemma OneMorePiece(text: string, p: Range, limit: nat, cuts: seq<nat>, spans: seq<Span>, offset: nat, end: nat, s: Span)
    requires AreCuts(text, p, limit, cuts, offset) && ArePieces(text, cuts, spans)
    requires IsNextCut(text, p.end, limit, offset, end) && IsPiece(text, offset, end, s)
    ensures AreCuts(text, p, limit, cuts + [end], end) && ArePieces(text, cuts + [end], spans + [s])
  {
    hide IsPiece, IsNextCut;
    var more := cuts + [end];
    forall x | x in spans ensures exists i :: IsPieceAt(text, more, i, x) {
      var i :| IsPieceAt(text, cuts, i, x);
      assert IsPieceAt(text, more, i, x);
    }
    assert IsPieceAt(text, more, |cuts| - 1, s);
    forall i | 0 <= i < |more| - 1 ensures IsTaken(text, more, i, spans + [s]) {
      if i < |cuts| - 1 {
        assert IsTaken(text, cuts, i, spans);
        if !Blank(text, cuts[i], cuts[i + 1]) {
          var x :| x in spans && IsPieceAt(text, cuts, i, x);
          assert x in spans + [s] && IsPieceAt(text, more, i, x);
        }
      } else {
        assert s in spans + [s];
      }
    }
  }

  lemma OneMoreBlank(text: string, p: Range, limit: nat, cuts: seq<nat>, spans: seq<Span>, offset: nat, end: nat)
    requires AreCuts(text, p, limit, cuts, offset) && ArePieces(text, cuts, spans)
    requires IsNextCut(text, p.end, limit, offset, end) && Blank(text, offset, end)
    ensures AreCuts(text, p, limit, cuts + [end], end) && ArePieces(text, cuts + [end], spans)
  {
    hide IsPiece, IsNextCut;
    var more := cuts + [end];
    forall x | x in spans ensures exists i :: IsPieceAt(text, more, i, x) {
      var i :| IsPieceAt(text, cuts, i, x);
      assert IsPieceAt(text, more, i, x);
    }
    forall i | 0 <= i < |more| - 1 ensures IsTaken(text, more, i, spans) {
      if i < |cuts| - 1 {
        assert IsTaken(text, cuts, i, spans);
        if !Blank(text, cuts[i], cuts[i + 1]) {
          var x :| x in spans && IsPieceAt(text, cuts, i, x);
          assert IsPieceAt(text, more, i, x);
        }
      }
    }
  }

  // ---------- the layout of a whole text ----------

  datatype Cutting = Cutting(paragraph: Range, cuts: seq<nat>)

  /** The paragraphs of a text up to a bound, with nothing but whitespace around them, each with its cuts. */
  ghost predicate IsLayout(text: string, limit: nat, layout: seq<Cutting>, bound: nat) {
    && (forall i :: 0 <= i < |layout| ==>
          IsParagraph(text, layout[i].paragraph) && AreCuts(text, layout[i].paragraph, limit, layout[i].cuts, layout[i].paragraph.end))
    && (forall i :: 0 <= i < |layout| - 1 ==> Blank(text, layout[i].paragraph.end, layout[i + 1].paragraph.start))
    && (if layout == [] then Blank(text, 0, bound)
        else Blank(text, 0, layout[0].paragraph.start) && Blank(text, layout[|layout| - 1].paragraph.end, bound))
  }

  /** The spans, in order, are exactly the non-blank pieces of all paragraphs. */
  ghost predicate IsFilled(text: string, layout: seq<Cutting>, spans: seq<Span>) {
    && (forall s :: s in spans ==> exists n, i :: 0 <= n < |layout| && IsPieceAt(text, layout[n].cuts, i, s))
    && (forall n, i :: 0 <= n < |layout| && 0 <= i < |layout[n].cuts| - 1 ==> IsTaken(text, layout[n].cuts, i, spans))
  }

  ghost predicate IsChunked(text: string, limit: nat, spans: seq<Span>) {
    exists layout :: IsLayout(text, limit, layout, |text|) && IsFilled(text, layout, spans)
  }

  /** After these cuts comes a piece that is longer than a span may be. */
  ghost predicate IsLongPiece(text: string, p: Range, limit: nat, cuts: seq<nat>, end: nat, s: Span) {
    && cuts != [] && AreCuts(text, p, limit, cuts, cuts[|cuts| - 1]) && IsNextCut(text, p.end, limit, cuts[|cuts| - 1], end)
    && IsPiece(text, cuts[|cuts| - 1], end, s) && |s.text| > 2000
  }

  ghost predicate IsNextParagraph(text: string, limit: nat, layout: seq<Cutting>, p: Range) {
    IsParagraph(text, p) && IsLayout(text, limit, layout, p.start)
  }

  /** Some piece, with all paragraphs and cuts before it, is longer than a span may be. */
  ghost predicate HasLongPiece(text: string, limit: nat) {
    exists layout, p, cuts, end, s :: IsNextParagraph(text, limit, layout, p) && IsLongPiece(text, p, limit, cuts, end, s)
  }

  lemma LongPieceFound(text: string, p: Range, limit: nat, layout: seq<Cutting>, cuts: seq<nat>, offset: nat, end: nat, s: Span)
    requires IsParagraph(text, p) && IsLayout(text, limit, layout, p.start) && AreCuts(text, p, limit, cuts, offset)
    requires IsNextCut(text, p.end, limit, offset, end) && IsPiece(text, offset, end, s) && |s.text| > MAX_SPAN_TEXT
    ensures HasLongPiece(text, limit)
  {
    hide IsNextCut, IsPiece, IsParagraph, IsLayout;
    assert IsNextParagraph(text, limit, layout, p);
    assert IsLongPiece(text, p, limit, cuts, end, s);
  }

  lemma StaysTaken(text: string, cuts: seq<nat>, i: int, spans: seq<Span>, more: seq<Span>)
    requires IsTaken(text, cuts, i, spans) && forall s :: s in spans ==> s in more
    ensures IsTaken(text, cuts, i, more)
  {
  }

  lemma OneMoreParagraph(text: string, limit: nat, layout: seq<Cutting>, spans: seq<Span>, p: Range, cuts: seq<nat>, more: seq<Span>)
    requires IsLayout(text, limit, layout, p.start) && IsFilled(text, layout, spans)
    requires IsParagraph(text, p) && AreCuts(text, p, limit, cuts, p.end) && ArePieces(text, cuts, more)
    ensures IsLayout(text, limit, layout + [Cutting(p, cuts)], p.end)
    ensures IsFilled(text, layout + [Cutting(p, cuts)], spans + more)
  {
    var longer := layout + [Cutting(p, cuts)];
    LongerLayout(text, limit, layout, p, cuts);
    hide IsPiece, IsNextCut, IsParagraph, AreCuts, IsLayout;
    forall s | s in spans + more ensures exists n, i :: 0 <= n < |longer| && IsPieceAt(text, longer[n].cuts, i, s) {
      if s in spans {
        var n, i :| 0 <= n < |layout| && IsPieceAt(text, layout[n].cuts, i, s);
        assert IsPieceAt(text, longer[n].cuts, i, s);
      } else {
        var i :| IsPieceAt(text, cuts, i, s);
        assert IsPieceAt(text, longer[|layout|].cuts, i, s);
      }
    }
    forall n, i | 0 <= n < |longer| && 0 <= i < |longer[n].cuts| - 1 ensures IsTaken(text, longer[n].cuts, i, spans + more) {
      if n < |layout| {
        assert IsTaken(text, layout[n].cuts, i, spans);
        StaysTaken(text, layout[n].cuts, i, spans, spans + more);
      } else {
        assert IsTaken(text, cuts, i, more);
        StaysTaken(text, cuts, i, more, spans + more);
      }
    }
  }

  lemma LongerLayout(text: string, limit: nat, layout: seq<Cutting>, p: Range, cuts: seq<nat>)
    requires IsLayout(text, limit, layout, p.start) && IsParagraph(text, p) && AreCuts(text, p, limit, cuts, p.end)
    ensures IsLayout(text, limit, layout + [Cutting(p, cuts)], p.end)
  {
    hide IsParagraph, AreCuts;
    assert Blank(text, p.end, p.end) by { ParagraphEndsInside(text, p); }
  }

  lemma ParagraphEndsInside(text: string, p: Range)
    requires IsParagraph(text, p)
    ensures p.start < p.end <= |text|
  {
  }

  lemma LayoutSkipsBlanks(text: string, limit: nat, layout: seq<Cutting>, bound: nat, bound1: nat)
    requires IsLayout(text, limit, layout, bound) && Blank(text, bound, bound1)
    ensures IsLayout(text, limit, layout, bound1)
  {
    hide IsParagraph, AreCuts;
  }

  /** Where the window that starts at an offset of a paragraph ends: at its last space, unless it has none or
      reaches the end of the paragraph. */
  function WindowEnd(text: string, offset: nat, stop: nat, limit: nat): (end: nat)
    requires offset < stop <= |text| && limit >= 1
    ensures offset < end <= stop && end <= offset + limit
    ensures IsNextCut(text, stop, limit, offset, end)
  {
    var end := if stop <= offset + limit then stop else offset + limit;
    if end < stop then
      var boundary := LastSpace(text, offset, end);
      if boundary > offset then boundary else end
    else end
  }

  /** The span of one window. */
  lemma WindowGivesSpan(text: string, p: Range, offset: nat, limit: nat, s: Span)
    requires IsParagraph(text, p) && p.start <= offset < p.end <= |text| && limit >= 1
    requires var end := WindowEnd(text, offset, p.end, limit);
      && s.start == FirstSolid(text, offset, end)
      && s.text == Strip(text, offset, end) && s.text != []
      && s.end == s.start + |s.text|
    ensures |s.text| <= MAX_SPAN_TEXT ==> SpanOk(text, s, limit)
    ensures InParagraph(text, s)
    ensures Blank(text, offset, s.start) && Blank(text, s.end, WindowEnd(text, offset, p.end, limit))
    ensures IsPiece(text, offset, WindowEnd(text, offset, p.end, limit), s)
  {
    var end := WindowEnd(text, offset, p.end, limit);
    assert s.end == AfterLastSolid(text, s.start, end);
    assert p.end < |text| ==> IsSpace(text[p.end]);
  }

  /** Parsing covers the text: the spans are numbered in order, disjoint, trimmed, bounded, equal to their slice
      and never cross a paragraph, and every solid position lies in one of them; they are exactly the pieces
      between the cuts of the paragraphs. */
  method ParseSpans(text: string, limit: nat) returns (r: Result<seq<Span>, Error>)
    requires limit >= 1
    ensures r.Success? ==> r.value != [] && SpansOk(text, r.value, limit, |text|)
    ensures r == Failure(NoText) <==> Blank(text, 0, |text|)
    ensures r.Success? ==> IsChunked(text, limit, r.value)
    ensures r == Failure(SpanTooLong) ==> limit > 2000 && HasLongPiece(text, limit)
  {
    hide SpansOk, IsLayout, IsFilled, AreCuts, ArePieces, IsNextCut, IsPiece;
    var spans: seq<Span> := [];
    ghost var layout: seq<Cutting> := [];
    NothingYet(text, limit);
    var position := 0;
    var next := NextParagraph(text, 0);
    while next.Some?
      invariant position <= |text| && SpansOk(text, spans, limit, position)
      invariant IsLayout(text, limit, layout, position) && IsFilled(text, layout, spans)
      invariant next.None? <==> Blank(text, position, |text|)
      invariant next.Some? ==>
        position <= next.value.start && Blank(text, position, next.value.start) && IsParagraph(text, next.value)
      invariant spans == [] ==> position == 0
      invariant spans != [] ==> !Blank(text, 0, |text|)
      decreases |text| - position
    {
      var p := next.value;
      SkippingBlanks(text, spans, limit, position, p.start);
      LayoutSkipsBlanks(text, limit, layout, position, p.start);
      var found, cuts := ChunkParagraph(text, p, limit, spans, layout);
      if found.Failure? { return Failure(found.error); }
      OneMoreParagraph(text, limit, layout, spans, p, cuts, found.value[|spans|..]);
      assert found.value == spans + found.value[|spans|..];
      layout := layout + [Cutting(p, cuts)];
      spans, position := found.value, p.end;
      next := NextParagraph(text, position);
    }
    if spans == [] { return Failure(NoText); }
    SkippingBlanks(text, spans, limit, position, |text|);
    LayoutSkipsBlanks(text, limit, layout, position, |text|);
    return Success(spans);
  }

  lemma NothingYet(text: string, limit: nat)
    ensures SpansOk(text, [], limit, 0)
    ensures IsLayout(text, limit, [], 0) && IsFilled(text, [], [])
  {}

  /** The inner loop: appends the pieces between the cuts of one paragraph. */
  method ChunkParagraph(text: string, p: Range, limit: nat, before: seq<Span>, ghost layout: seq<Cutting>)
    returns (r: Result<seq<Span>, Error>, ghost cuts: seq<nat>)
    requires limit >= 1 && IsParagraph(text, p)
    requires SpansOk(text, before, limit, p.start) && IsLayout(text, limit, layout, p.start)
    ensures r.Success? ==> r.value != [] && SpansOk(text, r.value, limit, p.end)
    ensures r.Success? ==> before <= r.value && AreCuts(text, p, limit, cuts, p.end) && ArePieces(text, cuts, r.value[|before|..])
    ensures r.Failure? ==> r.error == SpanTooLong && limit > 2000 && HasLongPiece(text, limit)
  {
    hide SpansOk, SpanOk, InParagraph, EndsParagraph, AreCuts, ArePieces, IsNextCut, IsPiece, IsLayout, Strip;
    var more: seq<Span> := [];
    var offset := p.start;
    cuts := [p.start];
    NoPieceYet(text, p, limit);
    assert before + more == before;
    while offset < p.end
      invariant p.start <= offset <= p.end && SpansOk(text, before + more, limit, offset)
      invariant AreCuts(text, p, limit, cuts, offset) && ArePieces(text, cuts, more)
      invariant offset > p.start ==> before + more != []
    {
      var end := WindowEnd(text, offset, p.end, limit);
      var chunk := Strip(text, offset, end);
      if chunk != [] {
        var at := FirstOccurrence(text, chunk, offset, if end + 1 <= p.end then end + 1 else p.end);
        StrippedIsFound(text, offset, end, if end + 1 <= p.end then end + 1 else p.end);
        var s := Span(|before + more| + 1, at, at + |chunk|, chunk);
        WindowGivesSpan(text, p, offset, limit, s);
        if |chunk| > MAX_SPAN_TEXT {
          StripIsShort(text, offset, end);
          LongPieceFound(text, p, limit, layout, cuts, offset, end, s);
          return Failure(SpanTooLong), cuts;
        }
        AddingASpan(text, before + more, limit, offset, s, end);
        OneMorePiece(text, p, limit, cuts, more, offset, end, s);
        assert before + (more + [s]) == before + more + [s];
        more := more + [s];
      } else {
        FirstWindowIsSolid(text, p, offset, end);
        BlankWindow(text, offset, end);
        SkippingBlanks(text, before + more, limit, offset, end);
        OneMoreBlank(text, p, limit, cuts, more, offset, end);
      }
      cuts := cuts + [end];
      offset := if end >= offset + 1 then end else offset + 1;
    }
    assert (before + more)[|before|..] == more;
    return Success(before + more), cuts;
  }

  lemma NoPieceYet(text: string, p: Range, limit: nat)
    ensures AreCuts(text, p, limit, [p.start], p.start) && ArePieces(text, [p.start], [])
  {
  }

  lemma StripIsShort(text: string, lo: nat, hi: nat)
    requires lo < hi <= |text|
    ensures |Strip(text, lo, hi)| <= hi - lo
  {
  }

  lemma BlankWindow(text: string, lo: nat, hi: nat)
    requires lo < hi <= |text| && Strip(text, lo, hi) == []
    ensures Blank(text, lo, hi)
  {
  }

  lemma FirstWindowIsSolid(text: string, p: Range, offset: nat, end: nat)
    requires IsParagraph(text, p) && offset < end <= |text| && Strip(text, offset, end) == []
    ensures offset != p.start
  {
  }

  /** Every solid position lies in exactly one span. */
  lemma ExactlyOneSpan(text: string, spans: seq<Span>, limit: nat, k: nat)
    requires SpansOk(text, spans, limit, |text|) && k < |text| && !IsSpace(text[k])
    ensures exists i :: Holds(spans, i, k) && forall j :: Holds(spans, j, k) ==> j == i
  {
    hide SpanOk, InParagraph;
    var i :| Holds(spans, i, k);
  }
}
