/**
 The carry-over line splitter of `spawnAg`: every stdout chunk is appended to
 a buffer, each complete `\n`-terminated line is cut off (without its `\n`)
 and the remainder stays buffered for the next chunk; on exit a non-empty
 remainder becomes one last line.
 */
module LineSplit {

  predicate NoNewline(s: string) {
    forall i | 0 <= i < |s| :: s[i] != '\n'
  }

  predicate AllNoNewline(lines: seq<string>) {
    forall i | 0 <= i < |lines| :: NoNewline(lines[i])
  }

  /** Each line followed by its `\n`, concatenated in order: the inverse of splitting. */
  function JoinLines(lines: seq<string>): string {
    if lines == [] then [] else lines[0] + "\n" + JoinLines(lines[1..])
  }

  /** Concatenation of all chunks in arrival order. */
  function Concat(chunks: seq<string>): string {
    if chunks == [] then [] else Concat(chunks[..|chunks| - 1]) + chunks[|chunks| - 1]
  }

  /** The first position at or after `from` holding `c`, or -1. */
  function IndexFrom(s: string, c: char, from: nat): (r: int)
    requires from <= |s|
    ensures r == -1 || from <= r < |s|
    ensures r >= 0 ==> s[r] == c && forall k | from <= k < r :: s[k] != c
    ensures r < 0 ==> forall k | from <= k < |s| :: s[k] != c
    decreases |s| - from
  {
    if from == |s| then -1
    else if s[from] == c then from
    else IndexFrom(s, c, from + 1)
  }

  /** `s.indexOf(c)`. */
  function IndexOf(s: string, c: char): (r: int)
    ensures -1 <= r < |s|
    ensures r >= 0 ==> s[r] == c && forall k | 0 <= k < r :: s[k] != c
    ensures r < 0 ==> forall k | 0 <= k < |s| :: s[k] != c
  {
    IndexFrom(s, c, 0)
  }

  lemma IndexOfIs(s: string, c: char, k: nat)
    requires k < |s| && s[k] == c
    requires forall j | 0 <= j < k :: s[j] != c
    ensures IndexOf(s, c) == k
  {
  }

  /** The complete lines of a buffer and the unterminated remainder. */
  datatype Split = Split(lines: seq<string>, rest: string)

  lemma JoinLinesCons(line: string, lines: seq<string>)
    ensures JoinLines([line] + lines) == line + "\n" + JoinLines(lines)
  {
    assert ([line] + lines)[1..] == lines;
  }

  lemma CutAt(buf: string, eol: nat)
    requires eol < |buf| && buf[eol] == '\n'
    ensures buf == buf[..eol] + "\n" + buf[eol + 1..]
  {
  }

  /** The loop of the stdout handler, run to completion on one buffer. */
  function TakeLines(buf: string): (r: Split)
    ensures AllNoNewline(r.lines) && NoNewline(r.rest)
    ensures JoinLines(r.lines) + r.rest == buf
    decreases |buf|
  {
    var eol := IndexOf(buf, '\n');
    if eol < 0 then Split([], buf)
    else
      var tail := TakeLines(buf[eol + 1..]);
      ConsLine(buf, eol, tail);
      Split([buf[..eol]] + tail.lines, tail.rest)
  }

  /** The line before the first `\n`, put in front of the split of the text after it. */
  lemma ConsLine(buf: string, eol: nat, tail: Split)
    requires eol < |buf| && buf[eol] == '\n' && forall k | 0 <= k < eol :: buf[k] != '\n'
    requires AllNoNewline(tail.lines) && JoinLines(tail.lines) + tail.rest == buf[eol + 1..]
    ensures AllNoNewline([buf[..eol]] + tail.lines)
    ensures JoinLines([buf[..eol]] + tail.lines) + tail.rest == buf
  {
    var line := buf[..eol];
    JoinLinesCons(line, tail.lines);
    CutAt(buf, eol);
    var all := [line] + tail.lines;
    forall i | 0 <= i < |all|
      ensures NoNewline(all[i])
    {
      if i > 0 { assert all[i] == tail.lines[i - 1]; }
    }
  }

  lemma JoinLinesAppend(a: seq<string>, b: seq<string>)
    ensures JoinLines(a + b) == JoinLines(a) + JoinLines(b)
  {
    if a != [] {
      assert (a + b)[1..] == a[1..] + b;
      JoinLinesAppend(a[1..], b);
    } else {
      assert a + b == b;
    }
  }

  /**
   A buffer has exactly one decomposition into newline-free lines, each
   followed by `\n`, and a newline-free remainder.
   */
  lemma {:induction false} TakeLinesUnique(lines: seq<string>, rest: string)
    requires AllNoNewline(lines) && NoNewline(rest)
    ensures TakeLines(JoinLines(lines) + rest) == Split(lines, rest)
    decreases |lines|
  {
    var buf := JoinLines(lines) + rest;
    if lines == [] {
      assert buf == rest;
    } else {
      var tailBuf := JoinLines(lines[1..]) + rest;
      assert buf == lines[0] + "\n" + tailBuf;
      var eol := |lines[0]|;
      assert buf[..eol] == lines[0];
      IndexOfIs(buf, '\n', eol);
      assert buf[eol + 1..] == tailBuf;
      TakeLinesUnique(lines[1..], rest);
      assert [lines[0]] + lines[1..] == lines;
    }
  }

  lemma JoinOne(line: string)
    ensures JoinLines([line]) == line + "\n"
  {
    assert [line][1..] == [];
  }

  /** One turn of the loop: the line before the first `\n` moves from the buffer to the lines. */
  lemma SnocLine(lines: seq<string>, rest: string, eol: nat)
    requires eol < |rest| && rest[eol] == '\n' && forall k | 0 <= k < eol :: rest[k] != '\n'
    requires AllNoNewline(lines)
    ensures AllNoNewline(lines + [rest[..eol]])
    ensures JoinLines(lines + [rest[..eol]]) + rest[eol + 1..] == JoinLines(lines) + rest
  {
    var line := rest[..eol];
    assert NoNewline(line) by {
      forall i | 0 <= i < |line| ensures line[i] != '\n' {
        assert line[i] == rest[i];
      }
    }
    assert AllNoNewline([line]);
    AllNoNewlineAppend(lines, [line]);
    JoinLinesAppend(lines, [line]);
    JoinOne(line);
    CutAt(rest, eol);
    var a := JoinLines(lines);
    assert a + (line + "\n") + rest[eol + 1..] == a + (line + "\n" + rest[eol + 1..]);
  }

  /**
   The stdout handler's loop as the source writes it: repeatedly find the
   first `\n`, cut the line before it and keep the text after it.
   */
  method DrainLines(previous: string) returns (lines: seq<string>, rest: string)
    ensures AllNoNewline(lines) && NoNewline(rest)
    ensures JoinLines(lines) + rest == previous
  {
    lines := [];
    rest := previous;
    var eol := IndexOf(rest, '\n');
    while eol >= 0
      invariant AllNoNewline(lines)
      invariant JoinLines(lines) + rest == previous
      invariant eol == IndexOf(rest, '\n')
      decreases |rest|
    {
      SnocLine(lines, rest, eol);
      lines := lines + [rest[..eol]];
      rest := rest[eol + 1..];
      eol := IndexOf(rest, '\n');
    }
  }

  /** What the splitter has emitted so far and what it still buffers. */
  datatype Splitter = Splitter(emitted: seq<string>, previous: string)

  /** One `data` event: append the chunk, emit every completed line. */
  function OnData(sp: Splitter, chunk: string): Splitter {
    var r := TakeLines(sp.previous + chunk);
    Splitter(sp.emitted + r.lines, r.rest)
  }

  /** The splitter after all chunks, starting from an empty buffer. */
  function Feed(chunks: seq<string>): Splitter {
    if chunks == [] then Splitter([], [])
    else OnData(Feed(chunks[..|chunks| - 1]), chunks[|chunks| - 1])
  }

  /** The final line the exit handler emits: the non-empty remainder, unless killed. */
  function Flush(sp: Splitter, killed: bool): (r: seq<string>)
    ensures |r| <= 1
    ensures r != [] <==> sp.previous != [] && !killed
    ensures r != [] ==> r[0] == sp.previous
  {
    if |sp.previous| > 0 && !killed then [sp.previous] else []
  }

  lemma AllNoNewlineAppend(a: seq<string>, b: seq<string>)
    requires AllNoNewline(a) && AllNoNewline(b)
    ensures AllNoNewline(a + b)
  {
    forall i | 0 <= i < |a + b|
      ensures NoNewline((a + b)[i])
    {
      if i < |a| { assert (a + b)[i] == a[i]; }
      else { assert (a + b)[i] == b[i - |a|]; }
    }
  }

  /** One `data` event keeps the text invariant of the splitter. */
  lemma OnDataPreservesText(sp: Splitter, chunk: string)
    requires AllNoNewline(sp.emitted)
    ensures AllNoNewline(OnData(sp, chunk).emitted) && NoNewline(OnData(sp, chunk).previous)
    ensures JoinLines(OnData(sp, chunk).emitted) + OnData(sp, chunk).previous
         == JoinLines(sp.emitted) + sp.previous + chunk
  {
    var r := TakeLines(sp.previous + chunk);
    JoinLinesAppend(sp.emitted, r.lines);
    AllNoNewlineAppend(sp.emitted, r.lines);
    var a, b := JoinLines(sp.emitted), JoinLines(r.lines);
    assert a + b + r.rest == a + (b + r.rest);
    assert a + (sp.previous + chunk) == a + sp.previous + chunk;
  }

  /**
   Lines emitted so far, each followed by `\n`, then the buffer, give back
   every chunk received, and nothing emitted contains a `\n`.
   */
  lemma {:induction false} FeedPreservesText(chunks: seq<string>)
    ensures AllNoNewline(Feed(chunks).emitted) && NoNewline(Feed(chunks).previous)
    ensures JoinLines(Feed(chunks).emitted) + Feed(chunks).previous == Concat(chunks)
  {
    if chunks != [] {
      var init := chunks[..|chunks| - 1];
      FeedPreservesText(init);
      OnDataPreservesText(Feed(init), chunks[|chunks| - 1]);
    }
  }

  /**
   The splitter's state after a stream is the split of the concatenated
   text, whatever the chunk boundaries were.
   */
  lemma FeedIsSplitOfConcat(chunks: seq<string>)
    ensures Feed(chunks) == Splitter(TakeLines(Concat(chunks)).lines, TakeLines(Concat(chunks)).rest)
  {
    FeedPreservesText(chunks);
    TakeLinesUnique(Feed(chunks).emitted, Feed(chunks).previous);
  }

  /** Chunking invariance, including the final flushed line. */
  lemma ChunkingInvariance(c1: seq<string>, c2: seq<string>)
    requires Concat(c1) == Concat(c2)
    ensures Feed(c1) == Feed(c2)
    ensures Feed(c1).emitted + Flush(Feed(c1), false) == Feed(c2).emitted + Flush(Feed(c2), false)
  {
    FeedIsSplitOfConcat(c1);
    FeedIsSplitOfConcat(c2);
  }

}
