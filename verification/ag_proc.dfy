/**
 One search-tool process as `spawnAg` wraps it: the `running` and `killed`
 flags, idempotent `kill`, the stdout carry-over buffer and the exit handler
 that flushes the remainder and fires `onExit`.
 */
module AgProc {
  import opened Options
  import opened LineSplit

  /**
   `running` turns false when the process exits; the match and exit emitters
   are disposed by the same exit handler, so outside it they are live exactly
   while `running` holds. `osKills` counts the signals sent to the process.
   */
  datatype Proc = Proc(running: bool, killed: bool, previous: string, osKills: nat)

  predicate Wf(p: Proc) {
    p.osKills <= 1 && (p.osKills == 1 ==> p.killed)
  }

  function Spawn(): (p: Proc)
    ensures p.running && !p.killed && p.previous == [] && Wf(p)
  {
    Proc(true, false, [], 0)
  }

  /**
   `kill`: only the first call has an effect; it marks the handle killed and
   signals the process if it has not exited yet.
   */
  function Kill(p: Proc): (q: Proc)
    ensures q.killed && q.running == p.running && q.previous == p.previous
    ensures q.osKills == if !p.killed && p.running then p.osKills + 1 else p.osKills
    ensures Wf(p) ==> Wf(q)
  {
    if p.killed then p
    else if p.running then p.(killed := true, osKills := p.osKills + 1)
    else p.(killed := true)
  }

  lemma KillIdempotent(p: Proc)
    ensures Kill(Kill(p)) == Kill(p)
  {
  }

  /** Whether a line cut off now reaches `onMatch`: not killed, emitters not disposed. */
  predicate Delivers(p: Proc) {
    p.running && !p.killed
  }

  /** The `data` handler's bookkeeping: the chunk is appended and complete lines are cut off. */
  function Receive(p: Proc, chunk: string): (r: (Proc, seq<string>))
    ensures r.0.running == p.running && r.0.killed == p.killed && r.0.osKills == p.osKills
    ensures AllNoNewline(r.1) && NoNewline(r.0.previous)
    ensures JoinLines(r.1) + r.0.previous == p.previous + chunk
  {
    var s := TakeLines(p.previous + chunk);
    (p.(previous := s.rest), s.lines)
  }

  /**
   The `exit` handler's bookkeeping: the process no longer runs, and the
   buffered remainder becomes a last line unless it is empty or the handle
   was killed.
   */
  function Terminate(p: Proc): (r: (Proc, Option<string>))
    ensures !r.0.running && r.0.killed == p.killed && r.0.osKills == p.osKills
    ensures r.1.Some? <==> p.previous != [] && !p.killed
    ensures r.1.Some? ==> r.1.value == p.previous
  {
    (p.(running := false), if |p.previous| > 0 && !p.killed then Some(p.previous) else None)
  }

  /** What reaches a process's listener: stdout chunks, the OS exit, and `kill` calls. */
  datatype ProcEvent = Data(chunk: string) | OsExit | KillCall

  /** A process with the lines passed to `onMatch` so far and the number of `onExit` firings. */
  datatype Trace = Trace(proc: Proc, lines: seq<string>, exits: nat)

  function Started(): Trace {
    Trace(Spawn(), [], 0)
  }

  function ProcStep(t: Trace, e: ProcEvent): Trace {
    match e
    case Data(chunk) =>
      var r := Receive(t.proc, chunk);
      Trace(r.0, t.lines + (if Delivers(t.proc) then r.1 else []), t.exits)
    case OsExit =>
      if !t.proc.running then t
      else
        var r := Terminate(t.proc);
        Trace(r.0, t.lines + (if r.1.Some? then [r.1.value] else []), t.exits + 1)
    case KillCall =>
      t.(proc := Kill(t.proc))
  }

  function RunProc(t: Trace, events: seq<ProcEvent>): Trace {
    if events == [] then t else ProcStep(RunProc(t, events[..|events| - 1]), events[|events| - 1])
  }

  predicate TraceOk(t: Trace) {
    Wf(t.proc) && t.exits == if t.proc.running then 0 else 1
  }

  /**
   From spawn on, the process is signalled at most once and only while running,
   and `onExit` fires at most once, exactly when the process has exited; once
   it has exited, no later event signals it or fires `onExit` again.
   */
  lemma {:induction false} RunProcOk(events: seq<ProcEvent>)
    ensures TraceOk(RunProc(Started(), events))
    ensures var t := RunProc(Started(), events);
            !t.proc.running ==>
              forall more :: RunProc(t, more).proc.osKills == t.proc.osKills && RunProc(t, more).exits == t.exits
  {
    if events != [] {
      RunProcOk(events[..|events| - 1]);
    }
    var t := RunProc(Started(), events);
    if !t.proc.running {
      forall more
        ensures RunProc(t, more).proc.osKills == t.proc.osKills && RunProc(t, more).exits == t.exits
      {
        NothingAfterExit(t, more);
      }
    }
  }

  /** After the exit, events still update the flags and the buffer, but never signal, never fire `onExit`. */
  lemma {:induction false} NothingAfterExit(t: Trace, events: seq<ProcEvent>)
    requires !t.proc.running
    ensures !RunProc(t, events).proc.running
    ensures RunProc(t, events).proc.osKills == t.proc.osKills
    ensures RunProc(t, events).exits == t.exits
    ensures RunProc(t, events).lines == t.lines
  {
    if events != [] {
      NothingAfterExit(t, events[..|events| - 1]);
    }
  }

  /** Once the handle is killed, no further line reaches `onMatch`. */
  lemma {:induction false} KilledEmitsNothing(t: Trace, events: seq<ProcEvent>)
    requires t.proc.killed
    ensures RunProc(t, events).proc.killed
    ensures RunProc(t, events).lines == t.lines
  {
    if events != [] {
      KilledEmitsNothing(t, events[..|events| - 1]);
    }
  }

  /** Killing does not swallow the exit: a killed running process still fires `onExit` once. */
  lemma ExitFiresAfterKill(t: Trace)
    requires TraceOk(t) && t.proc.running && !t.proc.killed
    ensures var u := RunProc(t, [KillCall, OsExit]);
            u.exits == 1 && u.proc.osKills == 1 && u.lines == t.lines
  {
    assert [KillCall, OsExit][..1] == [KillCall];
    assert [KillCall][..0] == [];
    assert RunProc(t, [KillCall]) == ProcStep(t, KillCall);
    assert RunProc(t, [KillCall, OsExit]) == ProcStep(ProcStep(t, KillCall), OsExit);
  }

  function DataEvents(chunks: seq<string>): (es: seq<ProcEvent>)
    ensures |es| == |chunks|
    ensures forall i | 0 <= i < |chunks| :: es[i] == Data(chunks[i])
  {
    if chunks == [] then [] else DataEvents(chunks[..|chunks| - 1]) + [Data(chunks[|chunks| - 1])]
  }

  /** While nobody kills it, the process hands its listener exactly what the splitter emits. */
  lemma {:induction false} UnkilledFollowsSplitter(chunks: seq<string>)
    ensures var t := RunProc(Started(), DataEvents(chunks));
            t.proc.running && !t.proc.killed && t.exits == 0
            && t.lines == Feed(chunks).emitted && t.proc.previous == Feed(chunks).previous
  {
    if chunks != [] {
      var init := chunks[..|chunks| - 1];
      UnkilledFollowsSplitter(init);
      assert DataEvents(chunks)[..|chunks| - 1] == DataEvents(init);
    }
  }

  /**
   Chunks followed by the exit: the listener sees every complete line and then
   the non-empty remainder, independently of how the output was chunked.
   */
  lemma CompleteRunEmitsAllLines(chunks: seq<string>)
    ensures var t := RunProc(Started(), DataEvents(chunks) + [OsExit]);
            t.lines == Feed(chunks).emitted + Flush(Feed(chunks), false) && t.exits == 1
  {
    UnkilledFollowsSplitter(chunks);
    var es := DataEvents(chunks) + [OsExit];
    assert es[..|es| - 1] == DataEvents(chunks);
  }

  /**
   Output that arrives after the `exit` event is lost: the exit handler has
   already flushed the buffer and disposed the emitters, so a complete line
   in a later chunk never reaches `onMatch`.
   */
  lemma LateOutputDropped(line: string)
    requires NoNewline(line)
    ensures RunProc(Started(), [OsExit, Data(line + "\n")]).lines == []
    ensures Feed([line + "\n"]).emitted == [line]
  {
    var es := [OsExit, Data(line + "\n")];
    assert es[..1] == [OsExit];
    assert [OsExit][..0] == [];
    assert RunProc(Started(), es) == ProcStep(ProcStep(Started(), OsExit), Data(line + "\n"));
    FeedOneLine(line);
  }

  /** A single chunk holding one complete line emits exactly that line. */
  lemma FeedOneLine(line: string)
    requires NoNewline(line)
    ensures Feed([line + "\n"]).emitted == [line]
  {
    assert [line + "\n"][..0] == [];
    assert AllNoNewline([line]);
    JoinOne(line);
    assert [] + (line + "\n") == JoinLines([line]) + [];
    TakeLinesUnique([line], []);
  }

}
