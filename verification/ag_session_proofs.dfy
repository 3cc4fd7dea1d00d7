/**
 Properties of the search session: the invariant every event preserves (the
 1000-match cap, "subscribed implies in progress", at most one live refresh
 interval, at most one signal per process), supersession, the effect of a
 stream of lines on the matches, and the two source defects around `show`
 and the refresh interval.
 */
module AgSessionProofs {
  import opened Options
  import opened LineSplit
  import opened AgTypes
  import opened AgParse
  import opened AgProc
  import opened AgInput
  import opened AgSession

  predicate AllWf(gens: seq<Gen>) {
    forall g | 0 <= g < |gens| :: Wf(gens[g].proc)
  }

  lemma InitialInv()
    ensures Inv(Initial())
  {
  }

  /** Both teardowns keep the core invariant; the corrected one also leaves no interval set. */
  lemma KillSearchInv(s: Session)
    requires CoreInv(s)
    ensures CoreInv(KillSearch(s)) && CoreInv(KillSearchAsWritten(s))
    ensures OnlyLiveTimer(s) ==> forall g | 0 <= g < |KillSearch(s).gens| :: !KillSearch(s).gens[g].timer
  {
  }

  lemma InitSearchInv(s: Session, dirPath: string, pattern: string)
    requires CoreInv(s)
    ensures CoreInv(InitSearch(s, dirPath, pattern)) && CoreInv(InitSearchAsWritten(s, dirPath, pattern))
    ensures OnlyLiveTimer(s) ==> OnlyLiveTimer(InitSearch(s, dirPath, pattern))
  {
    KillSearchInv(s);
  }

  /** A new generation started on a torn-down session is live, and the only interval if none was left. */
  lemma StartSearchInv(s: Session, pattern: string)
    requires CoreInv(s) && s.searchState.None?
    ensures CoreInv(StartSearch(s, pattern))
    ensures (forall g | 0 <= g < |s.gens| :: !s.gens[g].timer) ==> OnlyLiveTimer(StartSearch(s, pattern))
  {
  }

  lemma RefineSearchInv(s: Session, pattern: string)
    requires CoreInv(s)
    ensures CoreInv(RefineSearch(s, pattern)) && CoreInv(RefineSearchAsWritten(s, pattern))
    ensures OnlyLiveTimer(s) ==> OnlyLiveTimer(RefineSearch(s, pattern))
  {
    KillSearchInv(s);
    StartSearchInv(KillSearch(s), pattern);
    StartSearchInv(KillSearchAsWritten(s), pattern);
  }

  lemma StopSearchInv(s: Session)
    requires CoreInv(s)
    ensures CoreInv(StopSearch(s))
    ensures OnlyLiveTimer(s) ==> OnlyLiveTimer(StopSearch(s))
  {
  }

  /** The subscribed generation's bookkeeping survives one handled match. */
  lemma OnMatchKeeps(s: Session, g: nat, m: AgMatch)
    requires s.searchState == Some(g) && g < |s.gens|
    requires s.result.Some? && ResultOk(s.result.value) && AllWf(s.gens)
    requires s.gens[g].count == |s.result.value.matches|
    requires s.result.value.truncated ==> s.gens[g].proc.killed
    ensures var t := OnMatch(s, g, m);
            && t.result.Some? && ResultOk(t.result.value) && AllWf(t.gens)
            && t.gens[g].count == |t.result.value.matches|
            && (t.result.value.truncated ==> t.gens[g].proc.killed)
            && t.gens[g].proc.running == s.gens[g].proc.running
  {
    var t := OnMatch(s, g, m);
    forall g' | 0 <= g' < |t.gens|
      ensures Wf(t.gens[g'].proc)
    {
      if g' != g { assert t.gens[g'] == s.gens[g']; }
    }
  }

  lemma DeliverInv(s: Session, g: nat, m: AgMatch)
    requires CoreInv(s)
    ensures CoreInv(Deliver(s, g, m))
  {
    if s.searchState == Some(g) && g < |s.gens| {
      OnMatchKeeps(s, g, m);
    }
  }

  lemma {:induction false} DeliverLinesInv(s: Session, g: nat, lines: seq<string>)
    requires CoreInv(s)
    ensures CoreInv(DeliverLines(s, g, lines))
    decreases |lines|
  {
    if lines != [] {
      if g < |s.gens| && Delivers(s.gens[g].proc) {
        match ParseAgOutputLine(lines[0])
        case None =>
        case Some(m) => DeliverInv(s, g, m);
      }
      DeliverLinesInv(DeliverOne(s, g, lines[0]), g, lines[1..]);
    }
  }

  /** A data event only replaces the buffer of its own handle: the core invariant still holds. */
  lemma ReceiveInv(s: Session, g: nat, data: string)
    requires CoreInv(s) && g < |s.gens|
    ensures CoreInv(s.(gens := s.gens[g := s.gens[g].(proc := Receive(s.gens[g].proc, data).0)]))
  {
    var s1 := s.(gens := s.gens[g := s.gens[g].(proc := Receive(s.gens[g].proc, data).0)]);
    forall g' | 0 <= g' < |s1.gens|
      ensures Wf(s1.gens[g'].proc)
    {
      if g' != g { assert s1.gens[g'] == s.gens[g']; }
    }
  }

  lemma OnChunkInv(s: Session, g: nat, data: string)
    requires CoreInv(s)
    ensures CoreInv(OnChunk(s, g, data))
    ensures OnlyLiveTimer(s) ==> OnlyLiveTimer(OnChunk(s, g, data))
  {
    if g < |s.gens| {
      var r := Receive(s.gens[g].proc, data);
      ReceiveInv(s, g, data);
      DeliverLinesInv(s.(gens := s.gens[g := s.gens[g].(proc := r.0)]), g, r.1);
    }
    var t := OnChunk(s, g, data);
    if OnlyLiveTimer(s) {
      forall g' | 0 <= g' < |t.gens| && t.gens[g'].timer
        ensures t.searchState == Some(g')
      {
        assert t.gens[g'].timer == s.gens[g'].timer;
      }
    }
  }

  lemma OnExitInv(s: Session, g: nat)
    requires CoreInv(s)
    ensures CoreInv(OnExit(s, g))
    ensures OnlyLiveTimer(s) ==> OnlyLiveTimer(OnExit(s, g))
  {
    if g < |s.gens| && s.gens[g].proc.running {
      var r := Terminate(s.gens[g].proc);
      var s1 := s.(gens := s.gens[g := s.gens[g].(proc := r.0)]);
      assert AllWf(s1.gens) by {
        forall g' | 0 <= g' < |s1.gens|
          ensures Wf(s1.gens[g'].proc)
        {
          if g' != g { assert s1.gens[g'] == s.gens[g']; }
        }
      }
      var s2 := DeliverLast(s1, g, r.1);
      var t := OnExit(s, g);
      if s.searchState == Some(g) {
        assert s2.result.Some? && ResultOk(s2.result.value) && AllWf(s2.gens) by {
          if r.1.Some? && ParseAgOutputLine(r.1.value).Some? {
            OnMatchKeeps(s1, g, ParseAgOutputLine(r.1.value).value);
          }
        }
        assert t == ExitHandler(s2, g);
        forall g' | 0 <= g' < |t.gens|
          ensures Wf(t.gens[g'].proc)
          ensures OnlyLiveTimer(s) ==> !t.gens[g'].timer
        {
          if g' != g { assert t.gens[g'] == s.gens[g']; }
        }
      } else {
        assert t == s1;
        if s.searchState.Some? {
          assert s1.gens[s.searchState.value] == s.gens[s.searchState.value];
        }
        if OnlyLiveTimer(s) {
          forall g' | 0 <= g' < |s1.gens| && s1.gens[g'].timer
            ensures s1.searchState == Some(g')
          {
            if g' != g { assert s1.gens[g'] == s.gens[g']; }
          }
        }
      }
    }
  }

  lemma OnTickInv(s: Session, g: nat)
    requires CoreInv(s)
    ensures CoreInv(OnTick(s, g))
    ensures OnlyLiveTimer(s) ==> OnlyLiveTimer(OnTick(s, g))
  {
    var t := OnTick(s, g);
    forall g' | 0 <= g' < |t.gens|
      ensures Wf(t.gens[g'].proc) && t.gens[g'].timer == s.gens[g'].timer && t.gens[g'].count == s.gens[g'].count
    {
      if g' != g { assert t.gens[g'] == s.gens[g']; }
      else { assert t.gens[g].(prevMatchCount := s.gens[g].prevMatchCount) == s.gens[g]; }
    }
  }

  /** Every event keeps the session invariant, given the corrected teardown. */
  lemma StepInv(s: Session, e: Event)
    requires Inv(s)
    ensures Inv(Step(s, e))
  {
    match e
    case Init(dirPath, pattern) => InitSearchInv(s, dirPath, pattern);
    case Refine(pattern) => RefineSearchInv(s, pattern);
    case Stop => StopSearchInv(s);
    case Tick(g) => OnTickInv(s, g);
    case Chunk(g, data) => OnChunkInv(s, g, data);
    case Exit(g) => OnExitInv(s, g);
  }

  /** Every event as the source handles it keeps the core invariant; only the interval clause is lost. */
  lemma StepAsWrittenInv(s: Session, e: Event)
    requires CoreInv(s)
    ensures CoreInv(StepAsWritten(s, e))
  {
    match e
    case Init(dirPath, pattern) => InitSearchInv(s, dirPath, pattern);
    case Refine(pattern) => RefineSearchInv(s, pattern);
    case Stop => StopSearchInv(s);
    case Tick(g) => OnTickInv(s, g);
    case Chunk(g, data) => OnChunkInv(s, g, data);
    case Exit(g) => OnExitInv(s, g);
  }

  lemma {:induction false} RunInv(events: seq<Event>)
    ensures Inv(Run(Initial(), events))
  {
    if events != [] {
      RunInv(events[..|events| - 1]);
      StepInv(Run(Initial(), events[..|events| - 1]), events[|events| - 1]);
    }
  }

  lemma {:induction false} RunAsWrittenInv(events: seq<Event>)
    ensures CoreInv(RunAsWritten(Initial(), events))
  {
    if events != [] {
      RunAsWrittenInv(events[..|events| - 1]);
      StepAsWrittenInv(RunAsWritten(Initial(), events[..|events| - 1]), events[|events| - 1]);
    }
  }

  /**
   In every session reachable with the corrected teardown: at most 1000
   matches, truncation only at exactly 1000, a live subscription only while
   in progress, each process signalled at most once, and no refresh interval
   other than the live one's.
   */
  lemma Reachable(events: seq<Event>)
    ensures var s := Run(Initial(), events);
            && (s.result.Some? ==> |s.result.value.matches| <= MaxMatches)
            && (s.result.Some? && s.result.value.truncated ==> |s.result.value.matches| == MaxMatches)
            && (s.searchState.Some? ==> s.result.Some? && s.result.value.inProgress)
            && (forall g | 0 <= g < |s.gens| :: s.gens[g].proc.osKills <= 1)
            && (forall g | 0 <= g < |s.gens| && s.gens[g].timer :: s.searchState == Some(g))
  {
    RunInv(events);
  }

  /**
   In every session the source itself can reach: the same cap, truncation,
   subscription and signal facts, and the subscribed generation's interval is
   set; intervals of superseded generations may be set too.
   */
  lemma ReachableAsWritten(events: seq<Event>)
    ensures var s := RunAsWritten(Initial(), events);
            && (s.result.Some? ==> |s.result.value.matches| <= MaxMatches)
            && (s.result.Some? && s.result.value.truncated ==> |s.result.value.matches| == MaxMatches)
            && (s.searchState.Some? ==> s.result.Some? && s.result.value.inProgress)
            && (s.searchState.Some? ==> s.searchState.value < |s.gens| && s.gens[s.searchState.value].timer)
            && (forall g | 0 <= g < |s.gens| :: s.gens[g].proc.osKills <= 1)
            && s.statusBar == s.searchState.Some?
  {
    RunAsWrittenInv(events);
  }

  /** With the corrected teardown at most one refresh interval is ever set. */
  lemma AtMostOneTimer(s: Session, g1: nat, g2: nat)
    requires Inv(s)
    requires g1 < |s.gens| && g2 < |s.gens| && s.gens[g1].timer && s.gens[g2].timer
    ensures g1 == g2
  {
  }

  // ---------------------------------------------------------------------------
  // Supersession and cancellation

  /**
   With the corrected teardown, output, exit and ticks of a generation the
   session is no longer subscribed to leave the result, the subscription, the
   status bar and the render count untouched.
   */
  lemma SupersededEventsIgnored(s: Session, e: Event)
    requires Inv(s)
    requires e.Tick? || e.Chunk? || e.Exit?
    requires s.searchState != Some(e.gen)
    ensures Step(s, e).result == s.result
    ensures Step(s, e).searchState == s.searchState
    ensures Step(s, e).statusBar == s.statusBar
    ensures Step(s, e).changes == s.changes
  {
  }

  /**
   As the source handles them, output and exit of a superseded generation
   change nothing visible; its leaked interval may still render, once per tick
   at most (see `LeakedIntervalRendersOnce` for how often overall).
   */
  lemma SupersededEventsIgnoredAsWritten(s: Session, e: Event)
    requires e.Tick? || e.Chunk? || e.Exit?
    requires s.searchState != Some(e.gen)
    ensures StepAsWritten(s, e).result == s.result
    ensures StepAsWritten(s, e).searchState == s.searchState
    ensures StepAsWritten(s, e).statusBar == s.statusBar
    ensures e.Chunk? || e.Exit? ==> StepAsWritten(s, e).changes == s.changes
    ensures StepAsWritten(s, e).changes <= s.changes + 1
  {
  }

  /** Once a handle is killed, its output adds no match. */
  lemma KilledOutputIgnored(s: Session, g: nat, data: string)
    requires g < |s.gens| && s.gens[g].proc.killed
    ensures OnChunk(s, g, data).result == s.result
    ensures OnChunk(s, g, data).searchState == s.searchState
  {
  }

  /**
   The exit of the live handle finishes the search even when it was killed:
   the subscription is gone, the interval cleared, the status bar hidden and
   the result no longer in progress; a killed handle adds no final match.
   */
  lemma ExitFinishes(s: Session, g: nat)
    requires CoreInv(s) && s.searchState == Some(g)
    ensures var t := OnExit(s, g);
            && t.searchState.None?
            && t.result.Some? && !t.result.value.inProgress
            && t.result.value.pattern == s.result.value.pattern
            && !t.gens[g].timer && !t.statusBar
            && t.changes == s.changes + 1
            && (s.gens[g].proc.killed ==> t.result.value.matches == s.result.value.matches)
  {
  }

  /** The process exits once: a second exit event changes nothing. */
  lemma ExitOnce(s: Session, g: nat)
    ensures OnExit(OnExit(s, g), g) == OnExit(s, g)
  {
  }

  // ---------------------------------------------------------------------------
  // What a stream of lines does to the matches

  /** The matches a sequence of output lines parses to, in order. */
  function ParseAll(lines: seq<string>): seq<AgMatch>
    decreases |lines|
  {
    if lines == [] then []
    else
      match ParseAgOutputLine(lines[0])
      case None => ParseAll(lines[1..])
      case Some(m) => [m] + ParseAll(lines[1..])
  }

  function Min(a: nat, b: nat): nat {
    if a < b then a else b
  }

  /**
   The live handle appends the parsed lines in arrival order until the cap:
   the matches become the first 1000 of old and new matches together; when
   more arrive, the result is truncated and the handle killed.
   */
  lemma {:induction false} DeliverLinesAppends(s: Session, g: nat, lines: seq<string>)
    requires CoreInv(s) && s.searchState == Some(g) && !s.gens[g].proc.killed
    ensures var all := s.result.value.matches + ParseAll(lines);
            var t := DeliverLines(s, g, lines);
            && t.result.Some?
            && t.result.value.matches == all[..Min(|all|, MaxMatches)]
            && (t.result.value.truncated <==> |all| > MaxMatches)
            && (t.gens[g].proc.killed <==> |all| > MaxMatches)
            && t.searchState == Some(g)
    decreases |lines|
  {
    var all := s.result.value.matches + ParseAll(lines);
    if lines == [] {
      assert all == s.result.value.matches;
    } else {
      var rest := lines[1..];
      match ParseAgOutputLine(lines[0])
      case None =>
        assert ParseAll(lines) == ParseAll(rest);
        DeliverLinesAppends(s, g, rest);
      case Some(m) =>
        assert ParseAll(lines) == [m] + ParseAll(rest);
        DeliverInv(s, g, m);
        if |s.result.value.matches| < MaxMatches {
          assert Deliver(s, g, m).result.value.matches + ParseAll(rest) == all;
          DeliverLinesAppends(Deliver(s, g, m), g, rest);
        } else {
          CapReached(s, g, m, rest);
        }
    }
  }

  /** A match arriving at the cap kills the handle, so nothing after it is appended either. */
  lemma CapReached(s: Session, g: nat, m: AgMatch, rest: seq<string>)
    requires CoreInv(s) && s.searchState == Some(g) && !s.gens[g].proc.killed
    requires |s.result.value.matches| >= MaxMatches
    ensures var all := s.result.value.matches + ([m] + ParseAll(rest));
            var t := DeliverLines(Deliver(s, g, m), g, rest);
            && t.result.Some?
            && t.result.value.matches == all[..MaxMatches]
            && t.result.value.truncated && |all| > MaxMatches
            && t.gens[g].proc.killed
            && t.searchState == Some(g)
  {
    var all := s.result.value.matches + ([m] + ParseAll(rest));
    assert all[..MaxMatches] == s.result.value.matches;
  }

  /** One chunk of the live handle: its complete lines are appended as above. */
  lemma ChunkAppends(s: Session, g: nat, data: string)
    requires CoreInv(s) && s.searchState == Some(g) && !s.gens[g].proc.killed
    ensures var lines := TakeLines(s.gens[g].proc.previous + data).lines;
            var all := s.result.value.matches + ParseAll(lines);
            var t := OnChunk(s, g, data);
            && t.result.Some?
            && t.result.value.matches == all[..Min(|all|, MaxMatches)]
            && (t.result.value.truncated <==> |all| > MaxMatches)
  {
    var r := Receive(s.gens[g].proc, data);
    var s1 := s.(gens := s.gens[g := s.gens[g].(proc := r.0)]);
    ReceiveInv(s, g, data);
    DeliverLinesAppends(s1, g, r.1);
  }

  // ---------------------------------------------------------------------------
  // The refresh interval

  /** The first tick of a new search always renders. */
  lemma FirstTickRenders(s: Session, pattern: string)
    requires s.result.Some?
    ensures var t := RefineSearch(s, pattern);
            OnTick(t, |s.gens|).changes == t.changes + 1
  {
  }

  /** A tick right after a tick renders nothing: renders happen only when the count moved. */
  lemma TickCoalesces(s: Session, g: nat)
    ensures OnTick(OnTick(s, g), g) == OnTick(s, g)
  {
  }

  /** Stopping keeps every recorded match, and the live handle's later exit finishes the search. */
  lemma StopThenExit(s: Session, g: nat)
    requires CoreInv(s) && s.searchState == Some(g)
    ensures StopSearch(s).result == s.result
    ensures var t := OnExit(StopSearch(s), g);
            t.result.value.matches == s.result.value.matches && !t.result.value.inProgress
  {
    StopSearchInv(s);
  }

  // ---------------------------------------------------------------------------
  // Source defect: the refresh interval of a superseded search is never cleared

  /** A generation whose interval is gone, or has already seen its current match count. */
  predicate Quiet(gen: Gen) {
    !gen.timer || gen.prevMatchCount == gen.count
  }

  /**
   As the source handles events, a generation the session is not subscribed
   to stays unsubscribed, keeps its interval flag and its match count, and a
   quiet one stays quiet: only its own `onExit` subscription could clear the
   interval, and only its own `onMatch` could move the count, and both are
   disposed.
   */
  lemma SupersededStep(s: Session, e: Event, g: nat)
    requires g < |s.gens| && s.searchState != Some(g)
    ensures var t := StepAsWritten(s, e);
            && g < |t.gens| && t.searchState != Some(g)
            && t.gens[g].timer == s.gens[g].timer
            && t.gens[g].count == s.gens[g].count
            && (Quiet(s.gens[g]) ==> Quiet(t.gens[g]))
  {
    match e
    case Init(_, _) =>
    case Refine(pattern) =>
      var s1 := KillSearchAsWritten(s);
      assert StartSearch(s1, pattern).gens[..|s1.gens|] == s1.gens;
      assert StartSearch(s1, pattern).gens[g] == s1.gens[g];
    case Stop =>
    case Tick(h) =>
      if h != g { assert OnTick(s, h).gens[g] == s.gens[g]; }
    case Chunk(h, data) =>
      if h != g { assert OnChunk(s, h, data).gens[g] == s.gens[g]; }
    case Exit(h) =>
      if h != g { assert OnExit(s, h).gens[g] == s.gens[g]; }
  }

  lemma {:induction false} SupersededRun(s: Session, events: seq<Event>, g: nat)
    requires g < |s.gens| && s.searchState != Some(g)
    ensures var t := RunAsWritten(s, events);
            && g < |t.gens| && t.searchState != Some(g)
            && t.gens[g].timer == s.gens[g].timer
            && t.gens[g].count == s.gens[g].count
            && (Quiet(s.gens[g]) ==> Quiet(t.gens[g]))
  {
    if events != [] {
      SupersededRun(s, events[..|events| - 1], g);
      SupersededStep(RunAsWritten(s, events[..|events| - 1]), events[|events| - 1], g);
    }
  }

  /**
   As written, an interval set for a generation the session is not
   subscribed to stays set whatever happens next.
   */
  lemma LeakedTimerNeverCleared(s: Session, events: seq<Event>, g: nat)
    requires g < |s.gens| && s.gens[g].timer && s.searchState != Some(g)
    ensures g < |RunAsWritten(s, events).gens| && RunAsWritten(s, events).gens[g].timer
    ensures RunAsWritten(s, events).searchState != Some(g)
  {
    SupersededRun(s, events, g);
  }

  /**
   The leaked interval renders at most once after its search was superseded:
   after its first tick it has seen the final match count, which no later
   event moves, so none of its later ticks renders.
   */
  lemma LeakedIntervalRendersOnce(s: Session, g: nat, events: seq<Event>)
    requires g < |s.gens| && s.searchState != Some(g)
    ensures var u := RunAsWritten(OnTick(s, g), events);
            g < |u.gens| && OnTick(u, g).changes == u.changes
  {
    var s1 := OnTick(s, g);
    assert Quiet(s1.gens[g]);
    SupersededRun(s1, events, g);
  }

  /**
   The defect, on concrete input: refine to "abcd", then refine again before
   that process exits. As written, the first interval stays set next to the
   second one, and no later event clears it.
   */
  lemma RefineTwiceLeaksAsWritten(events: seq<Event>)
    ensures var s0 := RefineSearch(InitSearch(Initial(), "/", "abc"), "abcd");
            var s1 := RefineSearchAsWritten(s0, "abcde");
            && s1.gens[0].timer && s1.gens[1].timer
            && RunAsWritten(s1, events).gens[0].timer
  {
    var s0 := RefineSearch(InitSearch(Initial(), "/", "abc"), "abcd");
    var s1 := RefineSearchAsWritten(s0, "abcde");
    assert s1.searchState == Some(1);
    LeakedTimerNeverCleared(s1, events, 0);
  }

  /** With the corrected teardown the same two refinements leave only the second interval set. */
  lemma RefineTwiceCorrected()
    ensures var s0 := RefineSearch(InitSearch(Initial(), "/", "abc"), "abcd");
            var s1 := RefineSearch(s0, "abcde");
            !s1.gens[0].timer && s1.gens[1].timer
  {
  }

  // ---------------------------------------------------------------------------
  // Source defect: `show` never starts the initial search

  /** As written, `show` leaves an in-progress result with no process behind it, for every pattern. */
  lemma ShowAsWrittenNeverSearches(s: Session, rootDir: string, initialPattern: string)
    ensures var t := ShowAsWritten(s, rootDir, initialPattern);
            && t.searchState.None?
            && |t.gens| == |s.gens|
            && t.result == Some(SearchResult(rootDir, initialPattern, [], true, false))
  {
  }

  /** The corrected `show` keeps the invariant and searches exactly for patterns of three or more characters. */
  lemma ShowInv(s: Session, rootDir: string, initialPattern: string)
    requires Inv(s)
    ensures Inv(Show(s, rootDir, initialPattern))
    ensures |initialPattern| >= MinPatternLength ==>
              Show(s, rootDir, initialPattern).searchState == Some(|s.gens|)
  {
    var s1 := InitSearch(s, rootDir, initialPattern);
    InitSearchInv(s, rootDir, initialPattern);
    if |initialPattern| >= MinPatternLength {
      RefineSearchInv(s1, initialPattern);
    }
  }

}
