/**
 The pattern input: `shouldSearchForPattern` / `hasPatternChanged` and the
 debounce around `onDidChangeValue`, `onDidAccept` and `onDidHide` (the delay
 itself is not modelled, only which refinement is pending).
 */
module AgInput {
  import opened Options
  import opened AgTypes

  /** Shortest pattern a live edit searches for. */
  const MinPatternLength: nat := 3

  /** `pattern !== state.searchResult?.pattern`: with no result, every pattern is new. */
  function HasPatternChanged(result: Option<SearchResult>, pattern: string): bool {
    match result
    case None => true
    case Some(r) => pattern != r.pattern
  }

  /** The guard in front of a live search. */
  function ShouldSearchForPattern(result: Option<SearchResult>, pattern: string): bool {
    |pattern| >= MinPatternLength && HasPatternChanged(result, pattern)
  }

  /** A pattern of two characters, or the current pattern itself, never starts a live search. */
  lemma GuardRejects(result: Option<SearchResult>, pattern: string)
    ensures |pattern| < MinPatternLength ==> !ShouldSearchForPattern(result, pattern)
    ensures result.Some? && pattern == result.value.pattern ==> !ShouldSearchForPattern(result, pattern)
  {
  }

  /** Any other pattern of three or more characters passes, also before the first result exists. */
  lemma GuardAccepts(result: Option<SearchResult>, pattern: string)
    requires |pattern| >= MinPatternLength
    requires result.None? || pattern != result.value.pattern
    ensures ShouldSearchForPattern(result, pattern)
  {
  }

  /** The pending debounce timer, if any, and the pattern it will search for. */
  datatype Debounce = Debounce(pending: Option<string>)

  /** The debounce after an input event, a refinement to run now, and whether the input is dismissed. */
  datatype InputStep = InputStep(debounce: Debounce, refine: Option<string>, hide: bool)

  /** A keystroke: cancel the pending timer and arm a new one if the guard passes. */
  function OnDidChangeValue(d: Debounce, result: Option<SearchResult>, value: string): (o: InputStep)
    ensures o.refine.None? && !o.hide
    ensures o.debounce.pending.Some? <==> ShouldSearchForPattern(result, value)
    ensures o.debounce.pending.Some? ==> o.debounce.pending.value == value
  {
    InputStep(Debounce(if ShouldSearchForPattern(result, value) then Some(value) else None), None, false)
  }

  /** Enter: cancel the timer, refine at once if the pattern changed (length is not checked), dismiss. */
  function OnDidAccept(d: Debounce, result: Option<SearchResult>, value: string): (o: InputStep)
    ensures o.debounce.pending.None? && o.hide
    ensures o.refine.Some? <==> HasPatternChanged(result, value)
    ensures o.refine.Some? ==> o.refine.value == value
  {
    InputStep(Debounce(None), if HasPatternChanged(result, value) then Some(value) else None, true)
  }

  /** Dismissal: no timer survives the input box. */
  function OnDidHide(d: Debounce): (o: InputStep)
    ensures o.debounce.pending.None? && o.refine.None? && !o.hide
  {
    InputStep(Debounce(None), None, false)
  }

  /** The debounce timer fires: refine with the pattern captured when it was armed. */
  function OnTimeout(d: Debounce): (o: InputStep)
    ensures o.debounce.pending.None? && !o.hide
    ensures o.refine == d.pending
  {
    InputStep(Debounce(None), d.pending, false)
  }

  datatype InputEvent =
    | ChangeValue(value: string)
    | Accept(value: string)
    | Hide
    | Timeout

  function InputStepFor(d: Debounce, result: Option<SearchResult>, e: InputEvent): InputStep {
    match e
    case ChangeValue(v) => OnDidChangeValue(d, result, v)
    case Accept(v) => OnDidAccept(d, result, v)
    case Hide => OnDidHide(d)
    case Timeout => OnTimeout(d)
  }

  predicate PendingSearchable(d: Debounce) {
    d.pending.Some? ==> |d.pending.value| >= MinPatternLength
  }

  /**
   A pending timer only ever holds a searchable pattern, so a refinement from a
   live edit never has fewer than three characters.
   */
  lemma InputKeepsPendingSearchable(d: Debounce, result: Option<SearchResult>, e: InputEvent)
    requires PendingSearchable(d)
    ensures PendingSearchable(InputStepFor(d, result, e).debounce)
    ensures e.Timeout? && InputStepFor(d, result, e).refine.Some? ==>
              |InputStepFor(d, result, e).refine.value| >= MinPatternLength
  {
  }

  /** Enter refines with a short pattern too, as long as it differs from the current one. */
  lemma AcceptIgnoresLength(result: Option<SearchResult>)
    requires result.Some? && result.value.pattern != "ab"
    ensures OnDidAccept(Debounce(None), result, "ab").refine == Some("ab")
  {
  }

}
