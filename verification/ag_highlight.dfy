/**
 `highlightFor` / `generateHighlights` (the column arithmetic; the regular
 expression's occurrences are an input) and `currentMatchIndex`, its inverse
 on line numbers, with `open`, which uses that index.
 */
module AgHighlight {
  import opened Options
  import opened Text
  import opened LineSplit
  import opened AgTypes
  import opened AgRender

  /** A range on one line of the rendered document, columns `[startCol, endCol)`. */
  datatype Highlight = Highlight(line: nat, startCol: nat, endCol: nat)

  /** One occurrence of the pattern inside a match's text, `[start, end)`. */
  datatype Span = Span(start: nat, end: nat)

  /**
   `filePath.length + lineNo.toString().length + 2`: the width of the
   `filePath:lineNo:` prefix of the rendered line, so the text starts there.
   */
  function HighlightOffset(m: AgMatch): (offset: nat)
    ensures offset + |m.text| == |RenderMatch(m)|
    ensures RenderMatch(m)[offset..] == m.text
  {
    |m.filePath| + |Decimal(m.lineNo)| + 2
  }

  /** The highlight of text columns `[start, end)` of match number `matchIndex`; line 0 is the title. */
  function HighlightFor(m: AgMatch, matchIndex: nat, start: nat, end: nat): (h: Highlight)
    ensures h.line == matchIndex + 1
    ensures h.startCol + |m.text| == |RenderMatch(m)| + start && h.endCol + |m.text| == |RenderMatch(m)| + end
  {
    var offset := HighlightOffset(m);
    Highlight(matchIndex + 1, offset + start, offset + end)
  }

  /**
   A highlight lands on the rendered line of its match and covers exactly the
   occurrence it was computed from.
   */
  lemma HighlightCoversOccurrence(r: SearchResult, i: nat, start: nat, end: nat)
    requires SingleLineFields(r)
    requires i < |r.matches| && start <= end <= |r.matches[i].text|
    ensures var h := HighlightFor(r.matches[i], i, start, end);
            var lines := TextLines(RenderSearchResults(r));
            && h.line < |lines|
            && h.startCol <= h.endCol <= |lines[h.line]|
            && lines[h.line][h.startCol..h.endCol] == r.matches[i].text[start..end]
  {
    MatchOnLine(r, i);
    ColumnsOfText(TextLines(RenderSearchResults(r)), r.matches[i], i, start, end);
  }

  /** Columns `[offset + start, offset + end)` of a rendered match are `text[start..end]`. */
  lemma ColumnsOfText(lines: seq<string>, m: AgMatch, i: nat, start: nat, end: nat)
    requires start <= end <= |m.text|
    requires i + 1 < |lines| && lines[i + 1] == RenderMatch(m)
    ensures var h := HighlightFor(m, i, start, end);
            && h.line < |lines|
            && h.startCol <= h.endCol <= |lines[h.line]|
            && lines[h.line][h.startCol..h.endCol] == m.text[start..end]
  {
    var offset := HighlightOffset(m);
    var line := RenderMatch(m);
    assert line[offset + start..offset + end] == line[offset..][start..end];
  }

  /** The highlights of one match's occurrences, in order. */
  function MatchHighlights(m: AgMatch, i: nat, spans: seq<Span>): (hs: seq<Highlight>)
    ensures forall h | h in hs :: exists sp | sp in spans :: h == HighlightFor(m, i, sp.start, sp.end)
    ensures forall sp | sp in spans :: HighlightFor(m, i, sp.start, sp.end) in hs
    decreases |spans|
  {
    if spans == [] then []
    else
      var rest := MatchHighlights(m, i, spans[1..]);
      assert forall sp | sp in spans[1..] :: sp in spans;
      assert forall sp | sp in spans :: sp == spans[0] || sp in spans[1..];
      [HighlightFor(m, i, spans[0].start, spans[0].end)] + rest
  }

  /** The highlights of matches `i..`, each match's occurrences in order. */
  function HighlightsFrom(ms: seq<AgMatch>, occurrences: string -> seq<Span>, i: nat): (hs: seq<Highlight>)
    requires i <= |ms|
    ensures forall h | h in hs ::
              exists idx, sp | i <= idx < |ms| && sp in occurrences(ms[idx].text) ::
                h == HighlightFor(ms[idx], idx, sp.start, sp.end)
    ensures forall idx, sp | i <= idx < |ms| && sp in occurrences(ms[idx].text) ::
              HighlightFor(ms[idx], idx, sp.start, sp.end) in hs
    decreases |ms| - i
  {
    if i == |ms| then []
    else
      var here := MatchHighlights(ms[i], i, occurrences(ms[i].text));
      var rest := HighlightsFrom(ms, occurrences, i + 1);
      here + rest
  }

  /**
   `generateHighlights`: every occurrence of the pattern in every match's text,
   as a highlight of the rendered document, and nothing else.
   */
  function GenerateHighlights(r: SearchResult, occurrences: string -> seq<Span>): (hs: seq<Highlight>)
    ensures forall h | h in hs ::
              exists idx, sp | 0 <= idx < |r.matches| && sp in occurrences(r.matches[idx].text) ::
                h == HighlightFor(r.matches[idx], idx, sp.start, sp.end)
    ensures forall idx, sp | 0 <= idx < |r.matches| && sp in occurrences(r.matches[idx].text) ::
              HighlightFor(r.matches[idx], idx, sp.start, sp.end) in hs
  {
    HighlightsFrom(r.matches, occurrences, 0)
  }

  /** `provideDocumentHighlights`: nothing without a search result. */
  function ProvideHighlights(result: Option<SearchResult>, occurrences: string -> seq<Span>): (hs: Option<seq<Highlight>>)
    ensures hs.None? <==> result.None?
    ensures hs.Some? ==>
              forall h | h in hs.value ::
                exists idx, sp | 0 <= idx < |result.value.matches| && sp in occurrences(result.value.matches[idx].text) ::
                  h == HighlightFor(result.value.matches[idx], idx, sp.start, sp.end)
    ensures hs.Some? ==>
              forall idx, sp | 0 <= idx < |result.value.matches| && sp in occurrences(result.value.matches[idx].text) ::
                HighlightFor(result.value.matches[idx], idx, sp.start, sp.end) in hs.value
  {
    match result
    case None => None
    case Some(r) => Some(GenerateHighlights(r, occurrences))
  }

  /**
   `currentMatchIndex`: no editor or the title line gives nothing, cursor line
   `k >= 1` gives match index `k - 1`, with no check against the match count.
   */
  function CurrentMatchIndex(cursorLine: Option<nat>): (index: Option<nat>)
    ensures index.None? <==> cursorLine.None? || cursorLine.value < 1
    ensures index.Some? ==> index.value + 1 == cursorLine.value
  {
    match cursorLine
    case None => None
    case Some(line) => if line < 1 then None else Some(line - 1)
  }

  /** "a.rb:3:foo bar foo" on line 1: the two occurrences of "foo" start after the seven-character prefix. */
  lemma HighlightExample()
    ensures HighlightFor(AgMatch("a.rb", 3, "foo bar foo"), 0, 0, 3) == Highlight(1, 7, 10)
    ensures HighlightFor(AgMatch("a.rb", 3, "foo bar foo"), 0, 8, 11) == Highlight(1, 15, 18)
  {
    assert Decimal(3) == "3";
  }

  /** The index read back from a highlight's line is the match it was computed for. */
  lemma CurrentMatchIndexInvertsHighlight(m: AgMatch, i: nat, start: nat, end: nat)
    ensures CurrentMatchIndex(Some(HighlightFor(m, i, start, end).line)) == Some(i)
  {
  }

  /** What `open` does: nothing, open a match's file, or fail reading a missing match. */
  datatype OpenOutcome = NoTarget | OpenMatch(dirPath: string, m: AgMatch) | TypeError

  /**
   `open` as written: `matches[index]` is read without a bounds check, so on a
   line past the last match it is `undefined` and reading its `lineNo` throws.
   */
  function OpenAsWritten(result: Option<SearchResult>, cursorLine: Option<nat>): (o: OpenOutcome)
    ensures o == TypeError <==> result.Some? && cursorLine.Some? && cursorLine.value > |result.value.matches|
    ensures o.OpenMatch? ==>
              && result.Some? && cursorLine.Some? && 1 <= cursorLine.value
              && o.dirPath == result.value.dirPath && o.m == result.value.matches[cursorLine.value - 1]
  {
    var index := CurrentMatchIndex(cursorLine);
    if result.None? || index.None? then NoTarget
    else if index.value < |result.value.matches| then OpenMatch(result.value.dirPath, result.value.matches[index.value])
    else TypeError
  }

  /** On the footer line (and on the blank line of an empty result) `open` throws. */
  lemma OpenAsWrittenThrowsOnFooter(r: SearchResult)
    ensures OpenAsWritten(Some(r), Some(|r.matches| + 1)) == TypeError
  {
  }

  /**
   `open` with the bounds check it evidently intends: a match is opened exactly
   when the cursor is on one of the match lines.
   */
  function OpenTarget(result: Option<SearchResult>, cursorLine: Option<nat>): (target: Option<AgMatch>)
    ensures target.Some? <==>
              result.Some? && cursorLine.Some? && 1 <= cursorLine.value <= |result.value.matches|
    ensures target.Some? ==> target.value == result.value.matches[cursorLine.value - 1]
  {
    var index := CurrentMatchIndex(cursorLine);
    if result.None? || index.None? || index.value >= |result.value.matches| then None
    else Some(result.value.matches[index.value])
  }

  /** Where the source does not throw, the corrected `open` picks the same match. */
  lemma OpenTargetAgrees(result: Option<SearchResult>, cursorLine: Option<nat>)
    ensures OpenAsWritten(result, cursorLine) != TypeError ==>
              (OpenTarget(result, cursorLine).Some? <==> OpenAsWritten(result, cursorLine).OpenMatch?)
    ensures OpenAsWritten(result, cursorLine).OpenMatch? ==>
              OpenTarget(result, cursorLine) == Some(OpenAsWritten(result, cursorLine).m)
  {
  }

  /** The match the corrected `open` picks is the one rendered on the cursor's line. */
  lemma OpenTargetIsRenderedLine(r: SearchResult, cursorLine: nat)
    requires SingleLineFields(r)
    requires OpenTarget(Some(r), Some(cursorLine)).Some?
    ensures cursorLine < |TextLines(RenderSearchResults(r))|
    ensures TextLines(RenderSearchResults(r))[cursorLine] == RenderMatch(OpenTarget(Some(r), Some(cursorLine)).value)
  {
    MatchOnLine(r, cursorLine - 1);
  }

}
