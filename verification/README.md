# emacslike: search, find-file and project root, in Dafny

A model of the logic inside the emacslike VS Code extension. It covers three parts.

- **`ag` search.** A search runs `ag` in a directory, splits the process's stdout into lines and parses each line as `path:lineNo:text`. It keeps at most 1000 matches and renders the result as a text document: a title line, one line per match and a footer. It highlights pattern occurrences in that document and maps the cursor line back to a match. A search is refined as the user types and is killed when superseded. A one-second interval re-renders the document while the match count changes.
- **Find-file picker.** The picker lists a directory with directories first and a `..` entry. It navigates on `~`, `/` and "go to parent", and it turns the typed value into a path.
- **Project root.** `findProjectRoot` walks up from a directory to the nearest ancestor containing `.git`.

Modules follow the source:

| module | contents |
|---|---|
| `Text`, `Options` | digit strings and `Number.prototype.toString` / `parseInt` on line numbers; `Option` |
| `LineSplit` | the stdout line splitter with its carry-over buffer and the flush on exit |
| `AgTypes`, `AgParse` | match records, `parseAgOutputLine`, `truncateLine` |
| `AgRender`, `AgHighlight` | `renderSearchResults`, highlight columns, `currentMatchIndex`, `open` |
| `AgProc` | one `ag` process handle: the `running`/`killed` flags, `kill`, data and exit events |
| `AgInput` | the quick-pick guard and debounce |
| `AgSession`, `AgSessionProofs` | the session state machine and its invariants |
| `Paths`, `FindFile`, `ProjectRoot` | component paths, the find-file picker, `findProjectRoot` |

**The session.** Each `refineSearch` creates a new *generation*. A generation holds:
- a process handle;
- its refresh interval;
- the interval's `prevMatchCount`;
- the length of the `matches` array its closures captured.

`searchState` is the generation the session is subscribed to. Disposing the subscription turns it to `None`. Events of any other generation then reach nothing, because their emitters have no listener left. The process emits events while it is running: its exit handler flushes the remainder and fires `onExit`, then disposes both emitters.

In the source, a result that hit the 1000-match cap is marked `truncated` but stays `inProgress` until the killed process exits. A reading of the design under which truncation also ends `inProgress` does not match the code. The model follows the code: `ExitFinishes` is where `inProgress` ends.

## Model

| member | source | states |
|---|---|---|
| Text.Decimal | src/ag.ts:396 | the decimal string of a line number is non-empty, all digits, has no leading zero unless the number is 0, and reads back as the number |
| LineSplit.TakeLines | src/ag.ts:328-338 | the complete lines taken off a buffer contain no `\n`, and each line plus its `\n`, then the remainder, gives back the buffer |
| LineSplit.TakeLinesUnique | src/ag.ts:331-338 | the split is unique: splitting lines joined with their `\n` plus a newline-free remainder returns exactly those lines and that remainder |
| LineSplit.DrainLines | src/ag.ts:330-338 | the `indexOf('\n')` loop returns newline-free lines and a newline-free remainder that reassemble the buffer |
| LineSplit.Flush | src/ag.ts:341-345 | on exit, exactly one final line is emitted, the remainder itself, iff the remainder is non-empty and the handle was not killed |
| LineSplit.FeedPreservesText | src/ag.ts:327-338 | after any chunks, the emitted lines contain no `\n`, and emitted lines with their `\n` plus the buffer equal the concatenated chunks |
| LineSplit.FeedIsSplitOfConcat | src/ag.ts:327-338 | the splitter state after any chunks is the split of their concatenation |
| LineSplit.ChunkingInvariance | src/ag.ts:327-345 | two chunkings of the same output give the same lines, before and after the exit flush |
| AgParse.TruncateLine | src/ag.ts:366-368 | the result is at most `maxLength` long; a short line is unchanged; a long one is its first `maxLength - 3` characters followed by `...` |
| AgParse.TruncateIdempotent | src/ag.ts:366-368 | truncating twice is truncating once |
| AgParse.FindSplit | src/ag.ts:356 | the lazy `(.+?)` finds the first colon followed by digits and a colon, and no earlier one exists |
| AgParse.ParseAgOutputLine | src/ag.ts:355-364 | a line is accepted iff it has no JavaScript line terminator and splits as non-empty path, `:`, digits, `:`, text; an accepted match has a non-empty path and a text of at most 300 characters |
| AgParse.ParseAtFirstSplit | src/ag.ts:355-364 | at the first split, the parse yields exactly that path, the digits' value and the truncated rest |
| AgParse.ParsedFromFirstSplit | src/ag.ts:355-364 | every accepted line was read at a split with no earlier one: the shortest path, the digits' value as line number, the rest truncated to 300 characters |
| AgRender.RenderMatches | src/ag.ts:375 | one rendered line per match, in order |
| AgRender.ProvideContent | src/ag.ts:69-73 | no result gives an empty document; otherwise, when no field holds a `\n`, the document's lines are those of the rendered result |
| AgRender.RenderSearchResults | src/ag.ts:370-407 | when no field holds a `\n`, the document's lines are the title, one `path:lineNo:text` line per match (a single empty line when there are none), then the footer |
| AgRender.MatchOnLine | src/ag.ts:370-397 | match `i` is on document line `i + 1` |
| AgRender.ParseRenderRoundTrip | src/ag.ts:355-368 | parsing a rendered match gives the match back, for a colon-free path and a text of at most 300 characters without line terminators |
| AgRender.ParseShortestPathExample | src/ag.ts:356 | `a:1:b:2:c` parses as path `a`, line 1, text `b:2:c` |
| AgRender.ParseRejectsCarriageReturn | src/ag.ts:356 | a line ending in `\r` never parses |
| AgHighlight.HighlightOffset | src/ag.ts:469-471 | the offset plus the text's length is the rendered line's length, and the rendered line from the offset on is the text |
| AgHighlight.HighlightFor | src/ag.ts:463-478 | match `i` is highlighted on document line `i + 1`, and the columns are the occurrence's offsets shifted by the rendered prefix `path:lineNo:` |
| AgHighlight.HighlightCoversOccurrence | src/ag.ts:463-478 | the highlight for `[start, end)` of match `i` lies on document line `i + 1` and covers exactly `text[start..end]` |
| AgHighlight.GenerateHighlights | src/ag.ts:445-461 | every highlight comes from some match's occurrence, and every occurrence of every match is highlighted |
| AgHighlight.ProvideHighlights | src/ag.ts:74-78 | highlights are provided iff there is a result; then every highlight comes from an occurrence in some match and every occurrence of every match is highlighted |
| AgHighlight.CurrentMatchIndex | src/ag.ts:409-418 | no index for no editor or the title line; otherwise the cursor line minus one |
| AgHighlight.CurrentMatchIndexInvertsHighlight | src/ag.ts:409-418 | the cursor on the line of match `i` maps back to `i` |
| AgHighlight.HighlightExample | src/ag.ts:463-478 | in `a.rb:3:foo bar foo`, the occurrences of `foo` are columns 7-10 and 15-18 of line 1 |
| AgHighlight.OpenAsWrittenThrowsOnFooter | src/ag.ts:142-153 | as written, `open` with the cursor on the footer line dereferences a missing match |
| AgHighlight.OpenAsWritten | src/ag.ts:142-153 | as written, `open` fails exactly when a result exists and the cursor line lies past the last match; whenever it opens a match, it is match `line - 1` in the result's directory |
| AgHighlight.OpenTarget | src/ag.ts:142-153 | there is a target iff a result exists and the cursor is on a match line, and it is match `line - 1` |
| AgHighlight.OpenTargetAgrees | src/ag.ts:142-153 | wherever the source does not fail, it opens the same match as the corrected `open` |
| AgHighlight.OpenTargetIsRenderedLine | src/ag.ts:142-153 | the corrected target is the match rendered on the cursor's line |
| AgProc.Kill | src/ag.ts:304-311 | `kill` sets `killed`, and signals the process only on the first call while it is still running |
| AgProc.KillIdempotent | src/ag.ts:304-311 | killing twice is killing once |
| AgProc.Receive | src/ag.ts:328-338 | a chunk leaves the flags alone, and its lines plus the new buffer reassemble the old buffer plus the chunk |
| AgProc.Terminate | src/ag.ts:341-345 | exit clears `running`, and hands out the remainder iff it is non-empty and the handle was not killed |
| AgProc.RunProcOk | src/ag.ts:301-350 | in any event sequence, each process is signalled at most once, only while running, and `onExit` fires at most once; once the process has exited, no later event signals it or fires `onExit` again |
| AgProc.NothingAfterExit | src/ag.ts:341-350 | after the exit, no event restarts the handle, signals the process, fires `onExit` or emits a line |
| AgProc.KilledEmitsNothing | src/ag.ts:327-346 | once killed, a handle emits no further line, whatever chunks or exit follow |
| AgProc.ExitFiresAfterKill | src/ag.ts:301-350 | killing a running handle signals it once, and its later exit still fires `onExit` |
| AgProc.UnkilledFollowsSplitter | src/ag.ts:327-338 | an unkilled handle emits exactly the splitter's lines for its chunks |
| AgProc.CompleteRunEmitsAllLines | src/ag.ts:327-346 | when every chunk arrives before the exit event, an unkilled handle has emitted every line of its output, including an unterminated last line |
| AgProc.LateOutputDropped | src/ag.ts:341-350 | a complete line arriving after the exit event is never emitted, though the splitter alone would emit it |
| AgInput.GuardRejects | src/ag.ts:515-521 | short patterns and the current pattern are never searched while typing |
| AgInput.GuardAccepts | src/ag.ts:515-521 | a pattern of at least three characters that differs from the result's pattern (or with no result) is searched |
| AgInput.OnDidChangeValue | src/ag.ts:494-501 | typing cancels the pending timeout and schedules the value iff the guard admits it |
| AgInput.OnDidAccept | src/ag.ts:502-508 | enter cancels the timeout, refines iff the pattern changed (whatever its length) and hides |
| AgInput.OnDidHide | src/ag.ts:509-511 | hiding only cancels the timeout |
| AgInput.OnTimeout | src/ag.ts:497-499 | the timeout refines with the scheduled value |
| AgInput.InputKeepsPendingSearchable | src/ag.ts:494-511 | a scheduled search always holds a pattern of at least three characters |
| AgInput.AcceptIgnoresLength | src/ag.ts:502-506 | enter searches for `ab`, which typing never would |
| AgSession.KillSearch | src/ag.ts:270-279 | the corrected teardown unsubscribes, hides the status bar, kills the subscribed handle, also clears its interval (which the source does not), and touches no other generation or the result |
| AgSession.KillSearchAsWritten | src/ag.ts:270-279 | as written, teardown unsubscribes, hides the status bar and kills the subscribed handle, but leaves every interval, count and `prevMatchCount` as it was; other generations and the result are untouched |
| AgSession.StopSearch | src/ag.ts:177-182 | stopping kills the subscribed handle and changes nothing else |
| AgSession.OnMatch | src/ag.ts:245-253 | below 1000 matches the match is appended; at 1000 it is dropped, `truncated` is set and the handle killed |
| AgSession.Deliver | src/ag.ts:244-267 | a match from a generation that is not subscribed changes nothing; the subscribed one changes only its own generation |
| AgSession.DeliverOne | src/ag.ts:320-336 | a line reaches the match handler only while its handle runs unkilled and is subscribed; other generations stay untouched |
| AgSession.OnChunk | src/ag.ts:328-339 | a chunk keeps the subscription, status bar and render count, leaves the result alone unless the handle is subscribed and unkilled, touches no other generation, and leaves as buffer the remainder of the old buffer plus the chunk |
| AgSession.OnExit | src/ag.ts:341-350 | the handle stops running; for the subscribed running handle, the search ends: unsubscribed, status bar hidden, interval cleared, one render, result no longer in progress; for any other handle the session outside its own process is unchanged |
| AgSession.OnTick | src/ag.ts:237-242 | a tick renders at most once, only when its interval is set and the match count moved since the last tick, then records the count; nothing else changes |
| AgSession.InitSearch | src/ag.ts:205-217 | a fresh in-progress, untruncated, empty result for the directory and pattern, with any previous search torn down by the corrected teardown (handle killed, interval cleared) |
| AgSession.InitSearchAsWritten | src/ag.ts:205-217 | as written: the same fresh result, unsubscribed, with every interval left as it was |
| AgSession.StartSearch | src/ag.ts:222-268 | with a result: same directory, new pattern, no matches, in progress, a new subscribed generation with its interval set; without a result nothing happens |
| AgSession.RefineSearch | src/ag.ts:219-268 | the corrected teardown first (old handle killed, interval cleared), then the fresh result and generation; older generations stay as they were |
| AgSession.RefineSearchAsWritten | src/ag.ts:219-279 | as written, refining adds generations and leaves every existing interval as it was |
| AgSession.Refresh | src/ag.ts:170-175 | refresh reruns the current pattern in the same directory with no matches, subscribed to a new generation (with the corrected teardown), and does nothing without a result |
| AgSession.Show | src/ag.ts:103-119 | the corrected `show` (with the corrected teardown) gives a fresh in-progress, empty result for the directory and pattern, and subscribes to a search exactly when the pattern has at least three characters |
| AgSession.ShowAsWritten | src/ag.ts:103-119 | as written, `show` tears down with the source's teardown: no generation is removed, and every interval already set stays set |
| AgSession.Step | src/ag.ts:219-234 | an event adds at most one generation, and only a refinement adds one |
| AgSession.StepAsWritten | src/ag.ts:205-279 | with the teardown as written, the same bounds hold, and an interval set on a generation that is not subscribed stays set |
| AgSession.RunAsWritten | src/ag.ts:205-279 | with the teardown as written, generations are likewise only ever added, at most one per event |
| AgSession.Run | src/ag.ts:205-279 | generations are only ever added, at most one per event |
| AgSessionProofs.StepInv | src/ag.ts:205-279 | with the corrected teardown every event preserves the invariant: at most 1000 matches; truncated only with a killed subscribed handle; subscribed implies in progress with a running handle; the status bar shows iff subscribed; intervals only on the subscribed generation |
| AgSessionProofs.StepAsWrittenInv | src/ag.ts:205-279 | as written, every event preserves the same invariant except the clause about intervals |
| AgSessionProofs.Reachable | src/ag.ts:205-279 | with the corrected teardown, in every reachable session: at most 1000 matches; truncated only at exactly 1000; subscribed only while in progress; each process signalled at most once; no interval but the live one's |
| AgSessionProofs.ReachableAsWritten | src/ag.ts:205-279 | as written, in every reachable session: at most 1000 matches; truncated only at exactly 1000; subscribed only while in progress and with its interval set; each process signalled at most once; the status bar shows iff subscribed |
| AgSessionProofs.AtMostOneTimer | src/ag.ts:236-260 | with the corrected teardown, under the invariant at most one refresh interval is set |
| AgSessionProofs.SupersededEventsIgnored | src/ag.ts:263-279 | with the corrected teardown, output, exit and ticks of a superseded generation leave the result, subscription, status bar and render count untouched |
| AgSessionProofs.SupersededEventsIgnoredAsWritten | src/ag.ts:263-279 | as written, from any session, output, exit and ticks of a superseded generation leave the result, subscription and status bar untouched; output and exit never render, and a tick renders at most once |
| AgSessionProofs.KilledOutputIgnored | src/ag.ts:334 | output of a killed handle adds no match |
| AgSessionProofs.DeliverLinesAppends | src/ag.ts:245-253 | the live handle's lines turn into the first 1000 of the old matches followed by the parsed lines, in order; truncated iff the total exceeds 1000, and the handle is killed exactly then |
| AgSessionProofs.ChunkAppends | src/ag.ts:245-253 | a chunk of the live handle appends the parsed complete lines of buffer plus chunk, up to the cap |
| AgSessionProofs.ExitFinishes | src/ag.ts:254-260 | the live handle's exit (even after a kill) ends the search: unsubscribed, interval cleared, status bar hidden, not in progress, one render; a killed handle adds no final match |
| AgSessionProofs.ExitOnce | src/ag.ts:341-350 | a second exit event changes nothing |
| AgSessionProofs.FirstTickRenders | src/ag.ts:236-242 | the first tick of a new search always renders |
| AgSessionProofs.TickCoalesces | src/ag.ts:238-241 | a tick directly after a tick renders nothing |
| AgSessionProofs.StopThenExit | src/ag.ts:177-182 | stopping keeps every match, and the later exit finishes the search with those matches |
| AgSessionProofs.SupersededStep | src/ag.ts:237-279 | as written, no event subscribes a superseded generation again or changes its interval or match count, and a quiet leaked interval stays quiet |
| AgSessionProofs.SupersededRun | src/ag.ts:237-279 | the same holds over any sequence of events |
| AgSessionProofs.LeakedTimerNeverCleared | src/ag.ts:237-279 | as written, an interval left on a superseded generation is never cleared by any later event |
| AgSessionProofs.LeakedIntervalRendersOnce | src/ag.ts:237-242 | as written, after one tick of a leaked interval, whatever events follow, a later tick of it never renders |
| AgSessionProofs.RefineTwiceLeaksAsWritten | src/ag.ts:219-279 | as written, two refinements before the first process exits leave two intervals running, and the first is never cleared |
| AgSessionProofs.RefineTwiceCorrected | src/ag.ts:219-279 | with the corrected teardown only the second interval remains |
| AgSessionProofs.ShowAsWrittenNeverSearches | src/ag.ts:103-119 | as written, `show` starts no search for any pattern and leaves an in-progress result with no process |
| AgSessionProofs.ShowInv | src/ag.ts:103-119 | the corrected `show` keeps the invariant and subscribes to a new search for patterns of three or more characters |
| Paths.Dirname | src/findfile.ts:71 | `dirname` of `/` is `/`; otherwise the parent, i.e. the path minus its last component |
| Paths.Segments | src/findfile.ts:211 | the pieces contain no `/` and joined with `/` give back the string |
| Paths.Join | src/findfile.ts:211 | `path.join` of a normalized directory and any typed value is normalized |
| Paths.SegmentsOfJoin | src/findfile.ts:211 | splitting slash-free pieces joined with `/` gives those pieces |
| Paths.ResolveAppend | src/findfile.ts:211 | resolving in two steps is resolving the concatenated pieces |
| Paths.JoinName | src/findfile.ts:234 | joining a plain name appends it, and its `dirname` is the directory again |
| Paths.FormatRoundTrip | src/findfile.ts:211 | joining `/` with a path's string form gives the path |
| Paths.FormatIsRoot | src/findfile.ts:70 | a path is printed as `/` iff it is the root |
| FindFile.MakeEntry | src/findfile.ts:230-244 | the entry's full path is the dirent joined to its directory; a failed `stat` means broken symlink; a directory `stat` means directory; the label is icon, space, name |
| FindFile.LabelInjective | src/findfile.ts:242-255 | the icon mapping is injective: a label determines its entry type and name |
| FindFile.LabelDeterminesEntry | src/findfile.ts:230-255 | two entries with equal labels have the same type and name |
| FindFile.ParentFor | src/findfile.ts:257-263 | the `..` entry is a directory labelled `$(file-directory) ..` pointing at the parent |
| FindFile.ParentLabelIsUnique | src/findfile.ts:242-263 | no listed name gets the `..` label |
| FindFile.CmpEntries | src/findfile.ts:265-274 | a directory sorts before a non-directory and after is the reverse; within one class the label order decides |
| FindFile.CmpAntisymmetric | src/findfile.ts:265-274 | the entry order is antisymmetric when the label order is |
| FindFile.CmpTransitive | src/findfile.ts:265-274 | the entry order is transitive when the label order is |
| FindFile.SortEntries | src/findfile.ts:224-226 | the sort is a permutation of the entries and puts every directory before every non-directory |
| FindFile.SortEntriesSorted | src/findfile.ts:224-226 | when the label order ranks every two of the labels one way or the other, neighbours are in order |
| FindFile.ListFiles | src/findfile.ts:222-228 | one entry per dirent, plus `..` first unless the directory is `/`; the rest is a permutation of the dirents' entries; directories first |
| FindFile.ListingParentEntry | src/findfile.ts:227 | exactly the first entry of a non-root listing carries the `..` label, and none of a root listing |
| FindFile.ListingSorted | src/findfile.ts:224-227 | the entries after `..` are in order under a connex label order |
| FindFile.GoToParent | src/findfile.ts:68-72 | nothing happens at `/`; otherwise the directory becomes the parent, and the typed value stays |
| FindFile.GoToParentOfChild | src/findfile.ts:68-72 | going up from a child of a directory returns to that directory |
| FindFile.GoUpReachesRoot | src/findfile.ts:68-72 | as many steps up as the path is deep reach `/`, where it stays |
| FindFile.MaybeChangeTo | src/findfile.ts:192-207 | `~` (with HOME set) or `/` clears the value, switches to HOME or `/` and answers true; anything else answers false and changes nothing |
| FindFile.MaybeChangeToSettles | src/findfile.ts:192-207 | after a switch the value is empty, so the handler then does nothing |
| FindFile.PathFromCurrentValue | src/findfile.ts:209-214 | no path iff the value is empty; a path below a normalized directory is normalized |
| FindFile.PathFromPlainName | src/findfile.ts:209-214 | a plain name gives the child of the current directory |
| FindFile.PathFromAbsoluteValue | src/findfile.ts:209-214 | a value written as `/a/b` still joins below the current directory, as `path.join` does |
| ProjectRoot.GitMarker | src/utils.ts:21-23 | only `dir/.git` marks a project root |
| ProjectRoot.FindProjectRoot | src/utils.ts:12-19 | the result is `/` or a project root, is the input or an ancestor, and no directory from the input up to but excluding the result is a root |
| ProjectRoot.ProjectRootUnique | src/utils.ts:12-19 | at most one ancestor meets those three conditions |
| ProjectRoot.NearestRootMeetsSpec | src/utils.ts:12-19 | the reference walk (test the directory, then its parent, stop at `/`) meets those three conditions |
| ProjectRoot.FindsNearestRoot | src/utils.ts:12-19 | any answer meeting those conditions, the loop's included, is the reference walk's answer |
| ProjectRoot.RootIsItsOwn | src/utils.ts:14-16 | a root other than `/` is returned unchanged |
| ProjectRoot.InsideProject | src/utils.ts:12-19 | a directory below a root, with no root in between, finds that root |

## Left out

- VS Code plumbing is not modelled: quick picks, providers, the status bar item itself, `setContext`, opening and revealing documents, `getPeekColumn`, `extension.ts`. Only whether the status bar is shown, and a count of change notifications, are kept.
- The `ag` invocation is not modelled (`childProcess.spawn` and its arguments). The process is a stream of data chunks and one exit event, chosen by the caller of `Step`.
- Timer durations are not modelled. The refresh interval is the `Tick` event, and the debounce is an ordering of events.
- The user pattern's JavaScript regular-expression semantics are not modelled, including a zero-length match that never advances and an invalid pattern that throws. `GenerateHighlights` takes the occurrences in each text as a given function.
- `localeCompare` is the parameter `lc`. The sortedness lemmas assume only that `lc` ranks any two of the listed labels one way or the other.
- The filesystem is not modelled: `readdir`, `stat`, `existsSync`, `mkdir`, `open`, `rename`, `rmdir`, `unlink`. A `stat` outcome is part of each dirent, and `existsSync` is the parameter `present`.
- `select`, `openPartial`, `createDirectoryPartial`, `rename`, `remove`, `openSelected` and `getInitialDirectory` are not modelled: they only combine the modelled operations with filesystem and editor calls.
- AgParse.ParseAgOutputLine: line numbers are unbounded naturals, so `parseInt` precision loss and `toString` exponent form for huge numbers are not modelled.
- AgParse.TruncateLine: stated for `maxLength >= 3`, the only value used being 300. For smaller values `slice` with a negative end behaves differently.
- Strings are sequences of Unicode scalar values, not UTF-16 code units. Lengths, the 300-character truncation and highlight columns therefore count characters, and differ from the source for text outside the Basic Multilingual Plane.
- Paths are normalized absolute paths, as component sequences. A trailing `/` in a typed value (`path.join` keeps it) is not represented. `HOME` is taken to be a normalized path.
- ProjectRoot.FindProjectRoot: only absolute paths are modelled. For a relative path, `dirname` reaches `.`, and the loop never ends without a `.git` there.
- `dispose` of the whole search state is not modelled. Neither are `isActiveEditor` and the choice of search directory and initial pattern in `show`; they are inputs of `Show`.
- The document line of a match's source position (`lineNo - 1` in `open`) is not modelled, because it belongs to the editor.
- LineSplit.ChunkingInvariance: chunks are taken as already decoded strings. The source spawns `ag` with no stdout encoding, so each `Buffer` chunk is decoded as UTF-8 on its own when it is appended to the buffer. A multi-byte character split across two chunks then becomes replacement characters, and the lines do depend on the chunking. Byte-level decoding is not modelled.
- AgRender.RenderSearchResults: the document's lines are split at `\n` only. The editor also breaks a line at `\r`, so for a pattern or directory holding a `\r` (parsed matches never hold one) the editor shows more lines than stated here; AgRender.ProvideContent, AgRender.MatchOnLine and AgHighlight.HighlightCoversOccurrence share this reading.
- AgProc.CompleteRunEmitsAllLines: promised only when every chunk arrives before the exit event. Node can deliver stdout data after a process's `exit` event; the source drops such output, since the handle no longer emits once it has exited (AgProc.LateOutputDropped).
- The session with the corrected teardown, which also clears the interval of the search it tears down (see Findings), is what the members below describe. Under the teardown as written, the "no interval but the live one's" clause of the invariant does not hold.
- AgSession.KillSearch: uses the corrected teardown; the source as written is AgSession.KillSearchAsWritten.
- AgSession.InitSearch: uses the corrected teardown; the source as written is AgSession.InitSearchAsWritten.
- AgSession.RefineSearch: uses the corrected teardown; the source as written is AgSession.RefineSearchAsWritten.
- AgSession.Refresh: uses the corrected teardown.
- AgSession.Step: uses the corrected teardown; the source as written is AgSession.StepAsWritten.
- AgSession.Run: uses the corrected teardown; the source as written is AgSession.RunAsWritten.
- AgSessionProofs.StepInv: uses the corrected teardown; the source as written is AgSessionProofs.StepAsWrittenInv.
- AgSessionProofs.Reachable: uses the corrected teardown; the source as written is AgSessionProofs.ReachableAsWritten.
- AgSessionProofs.AtMostOneTimer: uses the corrected teardown.
- AgSessionProofs.SupersededEventsIgnored: uses the corrected teardown; the source as written is AgSessionProofs.SupersededEventsIgnoredAsWritten.
- AgSessionProofs.RefineTwiceCorrected: uses the corrected teardown; the source as written is AgSessionProofs.RefineTwiceLeaksAsWritten.
- AgSession.Show: the corrected `show`, which tests the pattern's length instead of comparing it with the pattern `initSearch` has just stored, with the corrected teardown; the source as written is AgSession.ShowAsWritten (see Findings).
- AgSessionProofs.ShowInv: uses the corrected teardown as well as the corrected `show` (see Findings).

## Findings

| source | as written | input that shows it | evidently intended | confidence | as-written member | corrected member |
|---|---|---|---|---|---|---|
| src/ag.ts:270-279 | `killSearch` kills the process and disposes the subscriptions, but never clears the refresh interval. Only the `onExit` handler clears it, and that handler has just been disposed. | refine to `abcd`, then refine to `abcde` before the first `ag` exits: the first interval keeps running for the life of the extension | teardown also clears the interval of the search it tears down | not executed | AgSessionProofs.RefineTwiceLeaksAsWritten | AgSessionProofs.RefineTwiceCorrected |
| src/ag.ts:142-153 | `open` indexes `matches` with the cursor line minus one without checking it against the number of matches | cursor on the footer line of a finished search with `n` matches (line `n + 1`): `matches[n]` is undefined, and reading `lineNo` throws | do nothing when the cursor is not on a match line | not executed | AgHighlight.OpenAsWrittenThrowsOnFooter | AgHighlight.OpenTarget |
| src/ag.ts:103-119 | `show` runs `initSearch` with the initial pattern first. It then asks `shouldSearchForPattern`, which compares that same pattern with the result's pattern, so the answer is always no. | `show` with a selected word such as `foo`: the document shows "Searching for foo" and no search ever runs | search for the initial pattern when it has at least three characters | not executed | AgSessionProofs.ShowAsWrittenNeverSearches | AgSession.Show |
