/**
 `parseAgOutputLine` and `truncateLine`: one output line of the search tool,
 `path:lineNo:text`, read with the regular expression `^(.+?):(\d+):(.*)$`.
 */
module AgParse {
  import opened Options
  import opened Text
  import opened AgTypes

  /**
   `line.length > maxLength ? line.slice(0, maxLength - 3) + '...' : line`;
   the only caller passes 300.
   */
  function TruncateLine(line: string, maxLength: nat): (r: string)
    requires maxLength >= 3
    ensures |r| <= maxLength
    ensures |line| <= maxLength ==> r == line
    ensures |line| > maxLength ==>
              |r| == maxLength && r[..maxLength - 3] == line[..maxLength - 3] && r[maxLength - 3..] == "..."
  {
    if |line| > maxLength then line[..maxLength - 3] + "..." else line
  }

  /** A text already within the limit is left alone, so truncating twice changes nothing. */
  lemma TruncateIdempotent(line: string, maxLength: nat)
    requires maxLength >= 3
    ensures TruncateLine(TruncateLine(line, maxLength), maxLength) == TruncateLine(line, maxLength)
  {
  }

  /**
   The regular expression's split of `line` at colons `k` and `j`: the path is
   `line[..k]` (non-empty), the line number `line[k+1..j]` (non-empty digits),
   the text `line[j+1..]`.
   */
  predicate IsSplit(line: string, k: int, j: int) {
    && 1 <= k && k + 1 < j < |line|
    && line[k] == ':' && line[j] == ':'
    && forall i | k < i < j :: IsDigit(line[i])
  }

  /** The end of the maximal digit run that starts at `i`. */
  function DigitRunEnd(line: string, i: nat): (j: nat)
    requires i <= |line|
    ensures i <= j <= |line|
    ensures forall x | i <= x < j :: IsDigit(line[x])
    ensures j < |line| ==> !IsDigit(line[j])
    decreases |line| - i
  {
    if i < |line| && IsDigit(line[i]) then DigitRunEnd(line, i + 1) else i
  }

  /** Given the path's colon, the line number's closing colon is fixed: the end of the digit run. */
  lemma SplitClosesAtRunEnd(line: string, k: int, j: int)
    requires IsSplit(line, k, j)
    ensures j == DigitRunEnd(line, k + 1)
  {
  }

  /**
   The lazy `(.+?)` tries path lengths from `k` upward; the first that admits a
   split wins.
   */
  function FindSplit(line: string, k: nat): (r: Option<(nat, nat)>)
    requires k >= 1
    ensures r.Some? ==> k <= r.value.0 && IsSplit(line, r.value.0, r.value.1)
    ensures r.Some? ==> forall k', j' | k <= k' < r.value.0 :: !IsSplit(line, k', j')
    ensures r.None? ==> forall k', j' | k <= k' :: !IsSplit(line, k', j')
    decreases |line| - k
  {
    if k >= |line| then None
    else if line[k] == ':' && k + 1 < DigitRunEnd(line, k + 1) < |line| && line[DigitRunEnd(line, k + 1)] == ':' then
      Some((k, DigitRunEnd(line, k + 1)))
    else
      var r := FindSplit(line, k + 1);
      assert forall j' :: !IsSplit(line, k, j') by {
        forall j' | IsSplit(line, k, j')
          ensures false
        {
          SplitClosesAtRunEnd(line, k, j');
        }
      }
      r
  }

  /**
   `parseAgOutputLine`: a match exactly when the line has no line terminator
   and some split exists. `ParseAtFirstSplit` and `ParsedFromFirstSplit` say
   which fields it reads.
   */
  function ParseAgOutputLine(line: string): (r: Option<AgMatch>)
    ensures r.Some? <==> NoLineTerminator(line) && exists k, j :: IsSplit(line, k, j)
    ensures r.Some? ==> |r.value.text| <= MaxLineLength && r.value.filePath != []
  {
    if !NoLineTerminator(line) then None
    else
      match FindSplit(line, 1)
      case None => None
      case Some((k, j)) =>
        assert AllDigits(line[k + 1..j]);
        Some(AgMatch(line[..k], DecimalValue(line[k + 1..j]), TruncateLine(line[j + 1..], MaxLineLength)))
  }

  /** The parse is fixed by the first split, whatever follows it. */
  lemma ParseAtFirstSplit(line: string, k: nat, j: nat)
    requires NoLineTerminator(line) && IsSplit(line, k, j)
    requires forall k', j' | k' < k :: !IsSplit(line, k', j')
    ensures AllDigits(line[k + 1..j])
    ensures ParseAgOutputLine(line)
         == Some(AgMatch(line[..k], DecimalValue(line[k + 1..j]), TruncateLine(line[j + 1..], MaxLineLength)))
  {
    var f := FindSplit(line, 1);
    assert f.Some?;
    var k0, j0 := f.value.0, f.value.1;
    assert k0 == k;
    SplitClosesAtRunEnd(line, k, j);
    SplitClosesAtRunEnd(line, k0, j0);
  }

  /**
   A match is read at the first split: the shortest possible path, the digit
   run in base 10, and the rest with any further colons, truncated to 300
   characters.
   */
  lemma ParsedFromFirstSplit(line: string)
    requires ParseAgOutputLine(line).Some?
    ensures exists k, j ::
              && IsSplit(line, k, j)
              && (forall k', j' | k' < k :: !IsSplit(line, k', j'))
              && ParseAgOutputLine(line).value
                 == AgMatch(line[..k], DecimalValue(line[k + 1..j]), TruncateLine(line[j + 1..], MaxLineLength))
  {
    var f := FindSplit(line, 1);
    assert f.Some?;
    var k, j := f.value.0, f.value.1;
    ParseAtFirstSplit(line, k, j);
  }

}
