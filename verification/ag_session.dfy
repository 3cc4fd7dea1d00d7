/**
 The search session of the grep workflow: `initSearch`, `refineSearch`,
 `killSearch`, `stopSearch`, the `onMatch` / `onExit` subscriptions with the
 1000-match cap, and the refresh interval that re-renders only when the match
 count changed. Every `refineSearch` spawns a new generation; the session is
 subscribed to at most one of them (`searchState`), so events of a disposed
 generation reach no handler.
 */
module AgSession {
  import opened Options
  import opened LineSplit
  import opened AgTypes
  import opened AgParse
  import opened AgProc
  import opened AgInput

  /**
   What one `refineSearch` call created: the process, whether its refresh
   interval is still set, the interval's `prevMatchCount`, and the length of
   the `matches` array that call allocated.
   */
  datatype Gen = Gen(proc: Proc, timer: bool, prevMatchCount: int, count: nat)

  /** `searchResult`, `searchState` (the subscribed generation), the generations, the status bar, and `emitChange` calls. */
  datatype Session = Session(
    result: Option<SearchResult>,
    searchState: Option<nat>,
    gens: seq<Gen>,
    statusBar: bool,
    changes: nat)

  datatype Event =
    | Init(dirPath: string, pattern: string)
    | Refine(pattern: string)
    | Stop
    | Tick(gen: nat)
    | Chunk(gen: nat, data: string)
    | Exit(gen: nat)

  function Initial(): Session {
    Session(None, None, [], false, 0)
  }

  function FreshGen(): (g: Gen)
    ensures g.proc == Spawn() && g.timer && g.prevMatchCount < 0 && g.count == 0
  {
    Gen(Spawn(), true, -1, 0)
  }

  /** The facts tying the subscribed generation `g` to the result it writes into. */
  predicate Live(s: Session, g: nat) {
    && g < |s.gens|
    && s.result.Some?
    && s.result.value.inProgress
    && s.gens[g].proc.running
    && s.gens[g].timer
    && s.gens[g].count == |s.result.value.matches|
    && (s.result.value.truncated ==> s.gens[g].proc.killed)
  }

  predicate ResultOk(r: SearchResult) {
    |r.matches| <= MaxMatches && (r.truncated ==> |r.matches| == MaxMatches)
  }

  /**
   What the source keeps whichever teardown runs: the cap, well-formed
   handles, the status bar shown exactly while subscribed, and a subscribed
   generation that is live.
   */
  predicate CoreInv(s: Session) {
    && (s.result.Some? ==> ResultOk(s.result.value))
    && (forall g | 0 <= g < |s.gens| :: Wf(s.gens[g].proc))
    && s.statusBar == s.searchState.Some?
    && (s.searchState.Some? ==> Live(s, s.searchState.value))
  }

  /** No interval is set except the subscribed generation's: kept only by the corrected teardown. */
  predicate OnlyLiveTimer(s: Session) {
    forall g | 0 <= g < |s.gens| && s.gens[g].timer :: s.searchState == Some(g)
  }

  predicate Inv(s: Session) {
    CoreInv(s) && OnlyLiveTimer(s)
  }

  /** `searchState.proc.kill()` on generation `g`. */
  function KillGen(s: Session, g: nat): (t: Session)
    requires g < |s.gens|
    ensures t.result == s.result && t.searchState == s.searchState && t.statusBar == s.statusBar && t.changes == s.changes
    ensures |t.gens| == |s.gens| && t.gens[g] == s.gens[g].(proc := Kill(s.gens[g].proc))
    ensures forall g' | 0 <= g' < |s.gens| && g' != g :: t.gens[g'] == s.gens[g']
  {
    s.(gens := s.gens[g := s.gens[g].(proc := Kill(s.gens[g].proc))])
  }

  /**
   `killSearch`, tearing down the whole handle: kill the process, dispose the
   subscriptions, hide the status bar, forget `searchState`, and clear the
   refresh interval (the last step is missing from the source; see
   `KillSearchAsWritten`).
   */
  function KillSearch(s: Session): (t: Session)
    ensures t.searchState.None? && t.result == s.result && t.changes == s.changes && |t.gens| == |s.gens|
    ensures s.searchState.None? ==> t == s
    ensures s.searchState.Some? ==> !t.statusBar
    ensures s.searchState.Some? && s.searchState.value < |s.gens| ==>
              t.gens[s.searchState.value].proc == Kill(s.gens[s.searchState.value].proc)
              && !t.gens[s.searchState.value].timer
    ensures forall g' | 0 <= g' < |s.gens| && s.searchState != Some(g') :: t.gens[g'] == s.gens[g']
  {
    match s.searchState
    case None => s
    case Some(g) =>
      var gens := if g < |s.gens| then s.gens[g := s.gens[g].(proc := Kill(s.gens[g].proc), timer := false)] else s.gens;
      s.(gens := gens, statusBar := false, searchState := None)
  }

  /**
   `killSearch` as the source writes it: the interval created by
   `refineSearch` is cleared only by the `onExit` subscription, which this very
   call disposes.
   */
  function KillSearchAsWritten(s: Session): (t: Session)
    ensures t.searchState.None? && t.result == s.result && t.changes == s.changes && |t.gens| == |s.gens|
    ensures s.searchState.None? ==> t == s
    ensures s.searchState.Some? ==> !t.statusBar
    ensures s.searchState.Some? && s.searchState.value < |s.gens| ==>
              t.gens[s.searchState.value].proc == Kill(s.gens[s.searchState.value].proc)
    ensures forall g' | 0 <= g' < |s.gens| :: t.gens[g'].timer == s.gens[g'].timer
    ensures forall g' | 0 <= g' < |s.gens| :: t.gens[g'].count == s.gens[g'].count
    ensures forall g' | 0 <= g' < |s.gens| :: t.gens[g'].prevMatchCount == s.gens[g'].prevMatchCount
    ensures forall g' | 0 <= g' < |s.gens| && s.searchState != Some(g') :: t.gens[g'] == s.gens[g']
  {
    match s.searchState
    case None => s
    case Some(g) =>
      var gens := if g < |s.gens| then s.gens[g := s.gens[g].(proc := Kill(s.gens[g].proc))] else s.gens;
      s.(gens := gens, statusBar := false, searchState := None)
  }

  /** `stopSearch`: kill the subscribed process, keep everything recorded. */
  function StopSearch(s: Session): (t: Session)
    ensures t.result == s.result && t.searchState == s.searchState && t.statusBar == s.statusBar && t.changes == s.changes
    ensures |t.gens| == |s.gens|
    ensures s.searchState.Some? && s.searchState.value < |s.gens| ==>
              t.gens[s.searchState.value].proc == Kill(s.gens[s.searchState.value].proc)
    ensures forall g' | 0 <= g' < |s.gens| && s.searchState != Some(g') :: t.gens[g'] == s.gens[g']
  {
    match s.searchState
    case None => s
    case Some(g) => if g < |s.gens| then KillGen(s, g) else s
  }

  /**
   The `onMatch` subscription of generation `g`: append below the cap,
   otherwise stop the search and mark the result truncated.
   */
  function OnMatch(s: Session, g: nat, m: AgMatch): (t: Session)
    requires s.searchState == Some(g) && g < |s.gens|
    ensures t.searchState == s.searchState && t.statusBar == s.statusBar && t.changes == s.changes && |t.gens| == |s.gens|
    ensures s.result.None? ==> t == s
    ensures s.result.Some? ==>
              && t.result.Some?
              && t.result.value.pattern == s.result.value.pattern
              && t.result.value.dirPath == s.result.value.dirPath
              && t.result.value.inProgress == s.result.value.inProgress
    ensures s.result.Some? && |s.result.value.matches| < MaxMatches ==>
              t.result.value.matches == s.result.value.matches + [m]
              && t.result.value.truncated == s.result.value.truncated
              && t.gens[g].proc == s.gens[g].proc
              && t.gens[g].count == s.gens[g].count + 1
    ensures s.result.Some? && |s.result.value.matches| >= MaxMatches ==>
              t.result.value.matches == s.result.value.matches
              && t.result.value.truncated
              && t.gens[g].proc == Kill(s.gens[g].proc)
              && t.gens[g].count == s.gens[g].count
    ensures t.gens[g].timer == s.gens[g].timer && t.gens[g].prevMatchCount == s.gens[g].prevMatchCount
    ensures forall g' | 0 <= g' < |s.gens| && g' != g :: t.gens[g'] == s.gens[g']
  {
    match s.result
    case None => s
    case Some(r) =>
      if |r.matches| < MaxMatches then
        s.(result := Some(r.(matches := r.matches + [m])), gens := s.gens[g := s.gens[g].(count := s.gens[g].count + 1)])
      else
        var t := StopSearch(s);
        t.(result := Some(r.(truncated := true)))
  }

  /** A parsed match of generation `g`: handled only while the session is subscribed to `g`. */
  function Deliver(s: Session, g: nat, m: AgMatch): (t: Session)
    ensures s.searchState != Some(g) ==> t == s
    ensures |t.gens| == |s.gens| && t.searchState == s.searchState && t.statusBar == s.statusBar && t.changes == s.changes
    ensures forall g' | 0 <= g' < |s.gens| && g' != g :: t.gens[g'] == s.gens[g']
    ensures g < |s.gens| ==> t.gens[g].timer == s.gens[g].timer && t.gens[g].prevMatchCount == s.gens[g].prevMatchCount
    ensures g < |s.gens| ==> t.gens[g].proc == s.gens[g].proc || t.gens[g].proc == Kill(s.gens[g].proc)
  {
    if s.searchState == Some(g) && g < |s.gens| then OnMatch(s, g, m) else s
  }

  /** The lines one `data` event of generation `g` cut off, each checked against `killed` when its turn comes. */
  function DeliverLines(s: Session, g: nat, lines: seq<string>): (t: Session)
    ensures |t.gens| == |s.gens| && t.searchState == s.searchState && t.statusBar == s.statusBar && t.changes == s.changes
    ensures s.searchState != Some(g) ==> t == s
    ensures g < |s.gens| && s.gens[g].proc.killed ==> t == s
    ensures forall g' | 0 <= g' < |s.gens| && g' != g :: t.gens[g'] == s.gens[g']
    ensures g < |s.gens| ==> t.gens[g].timer == s.gens[g].timer && t.gens[g].prevMatchCount == s.gens[g].prevMatchCount
    ensures g < |s.gens| ==> t.gens[g].proc.previous == s.gens[g].proc.previous && t.gens[g].proc.running == s.gens[g].proc.running
    decreases |lines|
  {
    if lines == [] then s
    else DeliverLines(DeliverOne(s, g, lines[0]), g, lines[1..])
  }

  /**
   One complete line of generation `g`: parsed and delivered while its
   handle is running and not killed (the `!killed` test precedes every line).
   */
  function DeliverOne(s: Session, g: nat, line: string): (t: Session)
    ensures |t.gens| == |s.gens| && t.searchState == s.searchState && t.statusBar == s.statusBar && t.changes == s.changes
    ensures s.searchState != Some(g) ==> t == s
    ensures g >= |s.gens| || !Delivers(s.gens[g].proc) ==> t == s
    ensures ParseAgOutputLine(line).None? ==> t == s
    ensures s.searchState == Some(g) && g < |s.gens| && Delivers(s.gens[g].proc)
            && ParseAgOutputLine(line).Some? && s.result.Some? && |s.result.value.matches| < MaxMatches ==>
              t.result.Some? && t.result.value.matches == s.result.value.matches + [ParseAgOutputLine(line).value]
    ensures forall g' | 0 <= g' < |s.gens| && g' != g :: t.gens[g'] == s.gens[g']
    ensures g < |s.gens| ==> t.gens[g].timer == s.gens[g].timer && t.gens[g].prevMatchCount == s.gens[g].prevMatchCount
    ensures g < |s.gens| ==> t.gens[g].proc == s.gens[g].proc || t.gens[g].proc == Kill(s.gens[g].proc)
  {
    if g < |s.gens| && Delivers(s.gens[g].proc) then
      match ParseAgOutputLine(line)
      case None => s
      case Some(m) => Deliver(s, g, m)
    else s
  }

  /** stdout `data` of generation `g`. After the exit the emitters are gone and lines only drain the buffer. */
  function OnChunk(s: Session, g: nat, data: string): (t: Session)
    ensures |t.gens| == |s.gens| && t.searchState == s.searchState && t.statusBar == s.statusBar
    ensures t.changes == s.changes
    ensures s.searchState != Some(g) || (g < |s.gens| && s.gens[g].proc.killed) ==> t.result == s.result
    ensures forall g' | 0 <= g' < |s.gens| && g' != g :: t.gens[g'] == s.gens[g']
    ensures g < |s.gens| ==> t.gens[g].timer == s.gens[g].timer && t.gens[g].prevMatchCount == s.gens[g].prevMatchCount
    ensures g < |s.gens| && s.searchState != Some(g) ==> t.gens[g].count == s.gens[g].count
    ensures g < |s.gens| ==> t.gens[g].proc.previous == TakeLines(s.gens[g].proc.previous + data).rest
  {
    if g >= |s.gens| then s
    else
      var r := Receive(s.gens[g].proc, data);
      var s1 := s.(gens := s.gens[g := s.gens[g].(proc := r.0)]);
      DeliverLines(s1, g, r.1)
  }

  /** The `onExit` subscription: clear the interval, hide the status bar, finish the result, unsubscribe. */
  function ExitHandler(s: Session, g: nat): (t: Session)
    requires g < |s.gens|
  {
    var result := if s.result.Some? then Some(s.result.value.(inProgress := false)) else s.result;
    s.(gens := s.gens[g := s.gens[g].(timer := false)],
       statusBar := false,
       result := result,
       searchState := None,
       changes := s.changes + 1)
  }

  /**
   The process of generation `g` exits: flush the remainder, then fire
   `onExit` once. Only the subscribed generation's exit finishes the search.
   */
  function OnExit(s: Session, g: nat): (t: Session)
    ensures |t.gens| == |s.gens|
    ensures g < |s.gens| ==> !t.gens[g].proc.running
    ensures s.searchState != Some(g) ==>
              t.result == s.result && t.searchState == s.searchState && t.statusBar == s.statusBar && t.changes == s.changes
    ensures forall g' | 0 <= g' < |s.gens| && g' != g :: t.gens[g'] == s.gens[g']
    ensures s.searchState != Some(g) && g < |s.gens| ==>
              t.gens[g].timer == s.gens[g].timer && t.gens[g].count == s.gens[g].count
              && t.gens[g].prevMatchCount == s.gens[g].prevMatchCount
    ensures s.searchState == Some(g) && g < |s.gens| && s.gens[g].proc.running ==>
              && t.searchState.None? && !t.statusBar && !t.gens[g].timer && t.changes == s.changes + 1
              && (s.result.Some? ==> t.result.Some? && !t.result.value.inProgress && t.result.value.pattern == s.result.value.pattern)
  {
    if g >= |s.gens| || !s.gens[g].proc.running then s
    else
      var r := Terminate(s.gens[g].proc);
      var s1 := s.(gens := s.gens[g := s.gens[g].(proc := r.0)]);
      var s2 := DeliverLast(s1, g, r.1);
      if s2.searchState == Some(g) && g < |s2.gens| then ExitHandler(s2, g) else s2
  }

  /** The remainder flushed at exit, if any, goes through the same parse and delivery as any other line. */
  function DeliverLast(s: Session, g: nat, last: Option<string>): (t: Session)
    ensures s.searchState != Some(g) ==> t == s
    ensures |t.gens| == |s.gens| && t.searchState == s.searchState
    ensures forall g' | 0 <= g' < |s.gens| && g' != g :: t.gens[g'] == s.gens[g']
    ensures g < |s.gens| ==> t.gens[g].timer == s.gens[g].timer
  {
    match last
    case None => s
    case Some(line) =>
      match ParseAgOutputLine(line)
      case None => s
      case Some(m) => Deliver(s, g, m)
  }

  /** The refresh interval of generation `g` fires: render only if its match count moved. */
  function OnTick(s: Session, g: nat): (t: Session)
    ensures t.result == s.result && t.searchState == s.searchState && t.statusBar == s.statusBar
    ensures |t.gens| == |s.gens| && (t.changes == s.changes || t.changes == s.changes + 1)
    ensures t.changes != s.changes ==> g < |s.gens| && s.gens[g].timer && s.gens[g].prevMatchCount != s.gens[g].count
    ensures g < |s.gens| && s.gens[g].timer ==> t.gens[g].prevMatchCount == s.gens[g].count
    ensures g < |s.gens| ==> t.gens[g].(prevMatchCount := s.gens[g].prevMatchCount) == s.gens[g]
    ensures forall g' | 0 <= g' < |s.gens| && g' != g :: t.gens[g'] == s.gens[g']
  {
    if g < |s.gens| && s.gens[g].timer && s.gens[g].prevMatchCount != s.gens[g].count then
      s.(gens := s.gens[g := s.gens[g].(prevMatchCount := s.gens[g].count)], changes := s.changes + 1)
    else s
  }

  /** `initSearch`: tear down, then a fresh in-progress result with no process. */
  function InitSearch(s: Session, dirPath: string, pattern: string): (t: Session)
    ensures t.result == Some(SearchResult(dirPath, pattern, [], true, false))
    ensures t.searchState.None? && |t.gens| == |s.gens|
    ensures s.searchState.Some? && s.searchState.value < |s.gens| ==>
              t.gens[s.searchState.value].proc.killed && !t.gens[s.searchState.value].timer
  {
    var s1 := KillSearch(s);
    s1.(result := Some(SearchResult(dirPath, pattern, [], true, false)), changes := s1.changes + 1)
  }

  /**
   The part of `refineSearch` after the teardown: without a result nothing
   happens; otherwise the result keeps its directory, takes the new pattern,
   empties its matches, is in progress and not truncated, and a new
   generation is spawned and subscribed.
   */
  function StartSearch(s: Session, pattern: string): (t: Session)
    ensures |t.gens| >= |s.gens| && t.gens[..|s.gens|] == s.gens
    ensures s.result.None? ==> t == s
    ensures s.result.Some? ==>
              && t.result.Some?
              && t.result.value.dirPath == s.result.value.dirPath
              && t.result.value.pattern == pattern
              && t.result.value.matches == []
              && t.result.value.inProgress
              && !t.result.value.truncated
              && t.searchState == Some(|s.gens|)
              && t.statusBar
              && |t.gens| == |s.gens| + 1
              && t.gens[|s.gens|] == FreshGen()
  {
    match s.result
    case None => s
    case Some(r) =>
      s.(result := Some(r.(pattern := pattern, matches := [], inProgress := true, truncated := false)),
         changes := s.changes + 1,
         statusBar := true,
         gens := s.gens + [FreshGen()],
         searchState := Some(|s.gens|))
  }

  /**
   `refineSearch`: tear the previous handle down first (kill, unsubscribe,
   clear its interval), then start the new search.
   */
  function RefineSearch(s: Session, pattern: string): (t: Session)
    ensures |t.gens| >= |s.gens|
    ensures s.searchState.Some? && s.searchState.value < |s.gens| ==>
              t.gens[s.searchState.value].proc.killed && !t.gens[s.searchState.value].timer
    ensures s.result.None? ==> t.result.None? && t.searchState.None? && |t.gens| == |s.gens|
    ensures s.result.Some? ==>
              && t.result.Some?
              && t.result.value.dirPath == s.result.value.dirPath
              && t.result.value.pattern == pattern
              && t.result.value.matches == []
              && t.result.value.inProgress
              && !t.result.value.truncated
              && t.searchState == Some(|s.gens|)
              && |t.gens| == |s.gens| + 1
              && t.gens[|s.gens|] == FreshGen()
    ensures forall g' | 0 <= g' < |s.gens| && s.searchState != Some(g') :: t.gens[g'] == s.gens[g']
  {
    StartSearch(KillSearch(s), pattern)
  }

  /** `initSearch` as the source writes it, with the teardown that leaves the interval set. */
  function InitSearchAsWritten(s: Session, dirPath: string, pattern: string): (t: Session)
    ensures t.result == Some(SearchResult(dirPath, pattern, [], true, false))
    ensures t.searchState.None? && |t.gens| == |s.gens|
    ensures forall g' | 0 <= g' < |s.gens| :: t.gens[g'].timer == s.gens[g'].timer
  {
    var s1 := KillSearchAsWritten(s);
    s1.(result := Some(SearchResult(dirPath, pattern, [], true, false)), changes := s1.changes + 1)
  }

  /** `refineSearch` as the source writes it, with the teardown that leaves the interval set. */
  function RefineSearchAsWritten(s: Session, pattern: string): (t: Session)
    ensures |t.gens| >= |s.gens|
    ensures forall g' | 0 <= g' < |s.gens| :: t.gens[g'].timer == s.gens[g'].timer
  {
    StartSearch(KillSearchAsWritten(s), pattern)
  }

  /** `refresh`: search again for the current pattern. */
  function Refresh(s: Session): (t: Session)
    ensures s.result.None? ==> t == s
    ensures s.result.Some? ==>
              && t.result.Some?
              && t.result.value.pattern == s.result.value.pattern
              && t.result.value.dirPath == s.result.value.dirPath
              && t.result.value.matches == []
              && t.searchState == Some(|s.gens|)
  {
    match s.result
    case None => s
    case Some(r) => RefineSearch(s, r.pattern)
  }

  /**
   `show` as the source writes it: `initSearch` has already stored the
   initial pattern when the guard compares against it, so the guard never
   passes and no search is started. Its teardown is the source's, so every
   interval already set stays set.
   */
  function ShowAsWritten(s: Session, rootDir: string, initialPattern: string): (t: Session)
    ensures |t.gens| >= |s.gens|
    ensures forall g' | 0 <= g' < |s.gens| :: t.gens[g'].timer == s.gens[g'].timer
  {
    var s1 := InitSearchAsWritten(s, rootDir, initialPattern);
    if ShouldSearchForPattern(s1.result, initialPattern) then RefineSearchAsWritten(s1, initialPattern) else s1
  }

  /**
   `show` as evidently intended: a fresh result for the root directory and
   the initial pattern, searched at once when the pattern is long enough.
   */
  function Show(s: Session, rootDir: string, initialPattern: string): (t: Session)
    ensures t.result.Some?
    ensures t.result.value.dirPath == rootDir && t.result.value.pattern == initialPattern
    ensures t.result.value.matches == [] && t.result.value.inProgress && !t.result.value.truncated
    ensures t.searchState.Some? <==> |initialPattern| >= MinPatternLength
  {
    var s1 := InitSearch(s, rootDir, initialPattern);
    if |initialPattern| >= MinPatternLength then RefineSearch(s1, initialPattern) else s1
  }

  /**
   One event, with the corrected teardown. Generations are never removed, and
   only a refinement spawns a process.
   */
  function Step(s: Session, e: Event): (t: Session)
    ensures |s.gens| <= |t.gens| <= |s.gens| + 1
    ensures |t.gens| > |s.gens| ==> e.Refine?
  {
    match e
    case Init(dirPath, pattern) => InitSearch(s, dirPath, pattern)
    case Refine(pattern) => RefineSearch(s, pattern)
    case Stop => StopSearch(s)
    case Tick(g) => OnTick(s, g)
    case Chunk(g, data) => OnChunk(s, g, data)
    case Exit(g) => OnExit(s, g)
  }

  function Run(s: Session, events: seq<Event>): (t: Session)
    ensures |s.gens| <= |t.gens| <= |s.gens| + |events|
  {
    if events == [] then s else Step(Run(s, events[..|events| - 1]), events[|events| - 1])
  }

  /** One event as the source handles it: `initSearch` and `refineSearch` leave the old interval set. */
  function StepAsWritten(s: Session, e: Event): (t: Session)
    ensures |s.gens| <= |t.gens| <= |s.gens| + 1
    ensures |t.gens| > |s.gens| ==> e.Refine?
    ensures forall g | 0 <= g < |s.gens| && s.gens[g].timer && s.searchState != Some(g) :: t.gens[g].timer
  {
    match e
    case Init(dirPath, pattern) => InitSearchAsWritten(s, dirPath, pattern)
    case Refine(pattern) => RefineSearchAsWritten(s, pattern)
    case _ => Step(s, e)
  }

  function RunAsWritten(s: Session, events: seq<Event>): (t: Session)
    ensures |s.gens| <= |t.gens| <= |s.gens| + |events|
  {
    if events == [] then s else StepAsWritten(RunAsWritten(s, events[..|events| - 1]), events[|events| - 1])
  }

}
