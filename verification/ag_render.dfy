/**
 `renderSearchResults`: the search result as one text document, a title line,
 one line per match and a footer line.
 */
module AgRender {
  import opened Options
  import opened Text
  import opened LineSplit
  import opened AgTypes
  import opened AgParse

  /** `${filePath}:${lineNo}:${text}` */
  function RenderMatch(m: AgMatch): string {
    m.filePath + ":" + Decimal(m.lineNo) + ":" + m.text
  }

  function RenderTitle(inProgress: bool, pattern: string, dirPath: string): string {
    if inProgress then "--- Searching for " + pattern + " in " + dirPath + "... ---"
    else "--- Search results for " + pattern + " in " + dirPath + " ---"
  }

  function RenderFooter(inProgress: bool, matchCount: nat, truncated: bool): string {
    if inProgress then ""
    else if truncated then "(stopped after reaching " + Decimal(matchCount) + " results)"
    else "(" + Decimal(matchCount) + " results)"
  }

  /** `lines.join('\n')` */
  function JoinWith(lines: seq<string>): string {
    if lines == [] then []
    else if |lines| == 1 then lines[0]
    else lines[0] + "\n" + JoinWith(lines[1..])
  }

  /** `matches.map(renderMatch)` */
  function RenderMatches(ms: seq<AgMatch>): (lines: seq<string>)
    ensures |lines| == |ms|
    ensures forall i | 0 <= i < |ms| :: lines[i] == RenderMatch(ms[i])
  {
    if ms == [] then [] else [RenderMatch(ms[0])] + RenderMatches(ms[1..])
  }

  /**
   `renderSearchResults`. Split at `\n`, the document has the title on line
   0, match `i` on line `i + 1` and the footer last; with no match a blank
   line stands between title and footer.
   */
  function RenderSearchResults(r: SearchResult): (text: string)
    ensures SingleLineFields(r) ==> TextLines(text) == ExpectedLines(r)
  {
    var title := RenderTitle(r.inProgress, r.pattern, r.dirPath);
    var footer := RenderFooter(r.inProgress, |r.matches|, r.truncated);
    var text := title + "\n" + JoinWith(RenderMatches(r.matches)) + "\n" + footer;
    assert SingleLineFields(r) ==> TextLines(text) == ExpectedLines(r) by {
      if SingleLineFields(r) {
        FooterSingleLine(r.inProgress, |r.matches|, r.truncated);
        HeadSingleLine(r);
        HeadJoin(title, RenderMatches(r.matches), footer);
        assert RenderMatches(r.matches) == [] <==> r.matches == [];
        TakeLinesUnique(HeadLines(r), footer);
      }
    }
    text
  }

  /** `provideTextDocumentContent`: empty while there is no search result, the rendered result otherwise. */
  function ProvideContent(result: Option<SearchResult>): (text: string)
    ensures result.None? ==> text == []
    ensures result.Some? && SingleLineFields(result.value) ==> TextLines(text) == ExpectedLines(result.value)
  {
    match result
    case None => []
    case Some(r) => RenderSearchResults(r)
  }

  /**
   The lines of a document, split at every `\n`. The editor also breaks a
   line at `\r`; only `\n` is considered here.
   */
  function TextLines(text: string): seq<string> {
    var s := TakeLines(text);
    s.lines + [s.rest]
  }

  /** The pattern, the directory and every match field are single-line strings. */
  predicate SingleLineFields(r: SearchResult) {
    && NoNewline(r.pattern)
    && NoNewline(r.dirPath)
    && forall i | 0 <= i < |r.matches| :: NoNewline(r.matches[i].filePath) && NoNewline(r.matches[i].text)
  }

  lemma NoNewlineConcat(a: string, b: string)
    requires NoNewline(a) && NoNewline(b)
    ensures NoNewline(a + b)
  {
    assert forall i | |a| <= i < |a + b| :: (a + b)[i] == b[i - |a|];
  }

  lemma DigitsHaveNoNewline(s: string)
    requires AllDigits(s)
    ensures NoNewline(s)
  {
  }

  lemma RenderMatchSingleLine(m: AgMatch)
    requires NoNewline(m.filePath) && NoNewline(m.text)
    ensures NoNewline(RenderMatch(m))
  {
    DigitsHaveNoNewline(Decimal(m.lineNo));
    NoNewlineConcat(m.filePath, ":");
    NoNewlineConcat(m.filePath + ":", Decimal(m.lineNo));
    NoNewlineConcat(m.filePath + ":" + Decimal(m.lineNo), ":");
    NoNewlineConcat(m.filePath + ":" + Decimal(m.lineNo) + ":", m.text);
  }

  lemma TitleSingleLine(inProgress: bool, pattern: string, dirPath: string)
    requires NoNewline(pattern) && NoNewline(dirPath)
    ensures NoNewline(RenderTitle(inProgress, pattern, dirPath))
  {
    var head := if inProgress then "--- Searching for " else "--- Search results for ";
    var tail := if inProgress then "... ---" else " ---";
    NoNewlineConcat(head, pattern);
    NoNewlineConcat(head + pattern, " in ");
    NoNewlineConcat(head + pattern + " in ", dirPath);
    NoNewlineConcat(head + pattern + " in " + dirPath, tail);
  }

  lemma FooterSingleLine(inProgress: bool, matchCount: nat, truncated: bool)
    ensures NoNewline(RenderFooter(inProgress, matchCount, truncated))
  {
    var n := Decimal(matchCount);
    DigitsHaveNoNewline(n);
    NoNewlineConcat("(stopped after reaching ", n);
    NoNewlineConcat("(stopped after reaching " + n, " results)");
    NoNewlineConcat("(", n);
    NoNewlineConcat("(" + n, " results)");
  }

  /** Joining non-empty lines with `\n` and adding one more `\n` terminates every line. */
  lemma {:induction false} JoinWithTerminated(lines: seq<string>)
    requires lines != []
    ensures JoinWith(lines) + "\n" == JoinLines(lines)
    decreases |lines|
  {
    if |lines| == 1 {
      JoinOne(lines[0]);
    } else {
      JoinWithTerminated(lines[1..]);
      JoinLinesCons(lines[0], lines[1..]);
      assert [lines[0]] + lines[1..] == lines;
    }
  }

  lemma AllRenderedSingleLine(r: SearchResult)
    requires SingleLineFields(r)
    ensures AllNoNewline(RenderMatches(r.matches))
  {
    forall i | 0 <= i < |r.matches|
      ensures NoNewline(RenderMatches(r.matches)[i])
    {
      RenderMatchSingleLine(r.matches[i]);
    }
  }

  /** The lines of the title, the body and the footer, as the document shows them. */
  function ExpectedLines(r: SearchResult): seq<string> {
    [RenderTitle(r.inProgress, r.pattern, r.dirPath)]
      + (if r.matches == [] then [""] else RenderMatches(r.matches))
      + [RenderFooter(r.inProgress, |r.matches|, r.truncated)]
  }

  /** The lines of the document before the footer line. */
  function HeadLines(r: SearchResult): seq<string> {
    [RenderTitle(r.inProgress, r.pattern, r.dirPath)]
      + (if r.matches == [] then [""] else RenderMatches(r.matches))
  }

  lemma HeadSingleLine(r: SearchResult)
    requires SingleLineFields(r)
    ensures AllNoNewline(HeadLines(r))
  {
    TitleSingleLine(r.inProgress, r.pattern, r.dirPath);
    AllRenderedSingleLine(r);
    var title := RenderTitle(r.inProgress, r.pattern, r.dirPath);
    var body := if r.matches == [] then [""] else RenderMatches(r.matches);
    assert AllNoNewline([title]);
    assert AllNoNewline(body);
    AllNoNewlineAppend([title], body);
  }

  lemma HeadJoin(title: string, body: seq<string>, footer: string)
    ensures title + "\n" + JoinWith(body) + "\n" + footer
         == JoinLines([title] + (if body == [] then [""] else body)) + footer
  {
    if body == [] {
      JoinLinesCons(title, [""]);
      JoinOne("");
    } else {
      JoinWithTerminated(body);
      JoinLinesCons(title, body);
      assert title + "\n" + JoinWith(body) + "\n" + footer == title + "\n" + (JoinWith(body) + "\n") + footer;
    }
  }

  /** Match `i` is on line `i + 1` of the document. */
  lemma MatchOnLine(r: SearchResult, i: nat)
    requires SingleLineFields(r) && i < |r.matches|
    ensures i + 1 < |TextLines(RenderSearchResults(r))|
    ensures TextLines(RenderSearchResults(r))[i + 1] == RenderMatch(r.matches[i])
  {
  }

  /** Where the two colons of `p:d:t` sit. */
  lemma JoinedSplit(p: string, d: string, t: string)
    requires p != [] && d != [] && AllDigits(d)
    ensures var line := p + ":" + d + ":" + t;
            var k := |p|;
            var j := k + 1 + |d|;
            && IsSplit(line, k, j)
            && line[..k] == p
            && line[k + 1..j] == d
            && line[j + 1..] == t
  {
    var line := p + ":" + d + ":" + t;
    var k := |p|;
    var j := k + 1 + |d|;
    assert line[k + 1..j] == d;
    assert forall i | k < i < j :: line[i] == d[i - k - 1];
  }

  lemma JoinedNoTerminator(p: string, d: string, t: string)
    requires NoLineTerminator(p) && AllDigits(d) && NoLineTerminator(t)
    ensures NoLineTerminator(p + ":" + d + ":" + t)
  {
    var line := p + ":" + d + ":" + t;
    var k := |p|;
    var j := k + 1 + |d|;
    forall i | 0 <= i < |line|
      ensures !IsLineTerminator(line[i])
    {
      if i < k { assert line[i] == p[i]; }
      else if k < i < j { assert line[i] == d[i - k - 1]; }
      else if j < i { assert line[i] == t[i - j - 1]; }
    }
  }

  /** `p:d:t` with a colon-free path `p` and digits `d` parses as path `p`, number `d`, text `t`. */
  lemma ParseJoined(p: string, d: string, t: string)
    requires p != [] && d != [] && AllDigits(d)
    requires forall i | 0 <= i < |p| :: p[i] != ':'
    requires NoLineTerminator(p) && NoLineTerminator(t)
    ensures ParseAgOutputLine(p + ":" + d + ":" + t)
         == Some(AgMatch(p, DecimalValue(d), TruncateLine(t, MaxLineLength)))
  {
    var line := p + ":" + d + ":" + t;
    JoinedSplit(p, d, t);
    JoinedNoTerminator(p, d, t);
    assert line == p + (":" + d + ":" + t);
    NoSplitInPath(p, ":" + d + ":" + t);
    ParseFields(line, |p|, |p| + 1 + |d|, p, d, t);
  }

  /** The first split's three pieces are the parsed fields. */
  lemma ParseFields(line: string, k: nat, j: nat, p: string, d: string, t: string)
    requires NoLineTerminator(line) && IsSplit(line, k, j)
    requires forall k', j' | k' < k :: !IsSplit(line, k', j')
    requires line[..k] == p && line[k + 1..j] == d && line[j + 1..] == t
    ensures AllDigits(d)
    ensures ParseAgOutputLine(line) == Some(AgMatch(p, DecimalValue(d), TruncateLine(t, MaxLineLength)))
  {
    ParseAtFirstSplit(line, k, j);
  }

  /** No split closes its path inside a colon-free prefix. */
  lemma NoSplitInPath(p: string, rest: string)
    requires forall i | 0 <= i < |p| :: p[i] != ':'
    ensures forall k', j' | k' < |p| :: !IsSplit(p + rest, k', j')
  {
    forall k', j' | k' < |p|
      ensures !IsSplit(p + rest, k', j')
    {
      if 0 <= k' {
        assert (p + rest)[k'] == p[k'];
      }
    }
  }

  /**
   A rendered match line parses back to the match, provided the path holds no
   colon (else the parser's shortest-path rule may cut it earlier), neither
   field holds a line terminator and the text is within the 300-character limit.
   */
  lemma ParseRenderRoundTrip(m: AgMatch)
    requires m.filePath != [] && forall i | 0 <= i < |m.filePath| :: m.filePath[i] != ':'
    requires NoLineTerminator(m.filePath) && NoLineTerminator(m.text)
    requires |m.text| <= MaxLineLength
    ensures ParseAgOutputLine(RenderMatch(m)) == Some(m)
  {
    ParseJoined(m.filePath, Decimal(m.lineNo), m.text);
  }

  /** A typical line: the path, the line number and the text with its leading blanks. */
  lemma ParseExample()
    ensures ParseAgOutputLine("src/a.ts:42:  foo(bar)") == Some(AgMatch("src/a.ts", 42, "  foo(bar)"))
  {
    assert "src/a.ts:42:  foo(bar)" == "src/a.ts" + ":" + "42" + ":" + "  foo(bar)";
    assert DecimalValue("42") == 42 by {
      assert "42"[..1] == "4";
      assert ("4")[..0] == [];
    }
    ParseJoined("src/a.ts", "42", "  foo(bar)");
  }

  /** A line without the `path:digits:` shape is dropped. */
  lemma ParseRejectsExample()
    ensures ParseAgOutputLine("not-a-match-line") == None
  {
    var line := "not-a-match-line";
    assert forall i | 0 <= i < |line| :: line[i] != ':';
  }

  /** The path is the shortest prefix before a `:digits:`, so later colons stay in the text. */
  lemma ParseShortestPathExample()
    ensures ParseAgOutputLine("a:1:b:2:c") == Some(AgMatch("a", 1, "b:2:c"))
  {
    var line := "a:1:b:2:c";
    assert line == "a" + ":" + "1" + ":" + "b:2:c";
    assert DecimalValue("1") == 1 by {
      assert "1"[..0] == [];
    }
    ParseJoined("a", "1", "b:2:c");
  }

  /** A carriage return left before the `\n` makes the whole line fail to parse. */
  lemma ParseRejectsCarriageReturn(line: string)
    ensures ParseAgOutputLine(line + "\r") == None
  {
    assert IsLineTerminator((line + "\r")[|line|]);
  }

}
