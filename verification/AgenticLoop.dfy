/** The agentic loop: one LLM reply per iteration, with three counters that escalate. */
module AgenticLoop {
  import opened Json

  const WARN_AT: nat := 3
  const FORCE_TEXT_AT: nat := 5
  const TRUNCATIONS_TO_FORCE: nat := 3

  datatype Config = Config(maxIterations: nat, nudgeEnabled: bool, maxNudges: nat)

  datatype Message = User(text: string) | Assistant(text: string) | NudgeNotice | TruncationNotice | DuplicateWarning

  datatype Signal = Continue | Stop | Inject(text: string)

  /** What the LLM answered. A batch of calls is known here by its fingerprint; `truncated` is the finish
      reason `Length`. */
  datatype Reply =
    | Error
    | Text(text: string)
    | Calls(fingerprint: nat, content: Option<string>, truncated: bool)

  /** What became of a batch handed to the delegate. */
  datatype Execution = Failed | Returned | Finished(allFailed: bool)

  /** Everything the delegate does in one iteration. It may write `force_text` in the hooks around the LLM
      call and again while it handles the reply. */
  datatype Answer = Answer(
    signal: Signal,
    endsEarly: bool,
    hooksForce: Option<bool>,
    hasTools: bool,
    reply: Reply,
    handlingForce: Option<bool>,
    textReturns: bool,
    execution: Execution)

  datatype Ending =
    | Stopped
    | EndedEarly
    | LlmFailed
    | TextReturned
    | ExecutionFailed
    | ExecutionReturned
    | MaxIterations

  /** The calls the loop makes on the delegate, and what it does to the conversation, in order. */
  datatype Event =
    | LlmCalled(iteration: nat)
    | Pushed(message: Message)
    | Nudged(text: string)
    | Handled(text: string)
    | Discarded(iteration: nat)
    | Executing(iteration: nat)
    | Executed(fingerprint: nat, allFailed: bool)
    | Forced
    | AfterIteration(iteration: nat)

  // ---------------------------------------------------------------- one iteration

  datatype State = State(
    nudges: nat,
    truncations: nat,
    lastFingerprint: Option<nat>,
    consecutive: nat,
    forceText: bool,
    log: seq<Event>)
  {
    function Note(e: Event): State { this.(log := log + [e]) }

    function Forcing(): State { this.(forceText := true, log := log + [Forced]) }
  }

  datatype Progress = Going(state: State) | Ended(ending: Ending, state: State)

  function Written(before: bool, write: Option<bool>): bool {
    if write.Some? then write.value else before
  }

  function Start(forceText: bool): State { State(0, 0, None, 0, forceText, []) }

  function Step(intent: string -> bool, cfg: Config, s: State, a: Answer, i: nat): Progress {
    if a.signal.Stop? then Ended(Stopped, s)
    else
      var s := if a.signal.Inject? then s.Note(Pushed(User(a.signal.text))) else s;
      if a.endsEarly then Ended(EndedEarly, s)
      else
        var s := s.(forceText := Written(s.forceText, a.hooksForce)).Note(LlmCalled(i));
        StepReply(intent, cfg, s, a, i)
  }

  function StepReply(intent: string -> bool, cfg: Config, s: State, a: Answer, i: nat): Progress {
    match a.reply
    case Error => Ended(LlmFailed, s)
    case Text(text) =>
      if Nudges(intent, cfg, s, a, text) then Going(StepNudge(s, a, text, i)) else StepText(intent, s, a, text, i)
    case Calls(fp, content, truncated) =>
      if truncated then Going(StepTruncated(s, content, i)) else StepCalls(s, a, fp, i)
  }

  predicate Nudges(intent: string -> bool, cfg: Config, s: State, a: Answer, text: string) {
    cfg.nudgeEnabled && a.hasTools && !s.forceText && s.nudges < cfg.maxNudges && intent(text)
  }

  function StepNudge(s: State, a: Answer, text: string, i: nat): State {
    s.(nudges := s.nudges + 1, forceText := Written(s.forceText, a.handlingForce))
    .Note(Nudged(text)).Note(Pushed(Assistant(text))).Note(Pushed(NudgeNotice)).Note(AfterIteration(i))
  }

  function StepText(intent: string -> bool, s: State, a: Answer, text: string, i: nat): Progress {
    var s := s.(nudges := if intent(text) then s.nudges else 0,
                lastFingerprint := None, consecutive := 0,
                forceText := Written(s.forceText, a.handlingForce)).Note(Handled(text));
    if a.textReturns then Ended(TextReturned, s) else Going(s.Note(AfterIteration(i)))
  }

  function StepTruncated(s: State, content: Option<string>, i: nat): State {
    var s := s.(truncations := s.truncations + 1).Note(Discarded(i));
    var s := if content.Some? then s.Note(Pushed(Assistant(content.value))) else s;
    var s := s.Note(Pushed(TruncationNotice));
    var s := if s.truncations >= TRUNCATIONS_TO_FORCE then s.Forcing() else s;
    s.Note(AfterIteration(i))
  }

  function StepCalls(s: State, a: Answer, fp: nat, i: nat): Progress {
    var s := s.(nudges := 0, truncations := 0, forceText := Written(s.forceText, a.handlingForce)).Note(Executing(i));
    match a.execution
    case Failed => Ended(ExecutionFailed, s)
    case Returned => Ended(ExecutionReturned, s)
    case Finished(allFailed) =>
      var s := s.(lastFingerprint := Some(fp), consecutive := Recorded(s.lastFingerprint, s.consecutive, fp, allFailed))
               .Note(Executed(fp, allFailed));
      Going(Escalated(s, i))
  }

  function Escalated(s: State, i: nat): State {
    var s := if s.consecutive >= FORCE_TEXT_AT then s.Forcing() else s;
    var s := if s.consecutive >= WARN_AT then s.Note(Pushed(DuplicateWarning)) else s;
    s.Note(AfterIteration(i))
  }

  /** The tracker's count after a batch. */
  function Recorded(last: Option<nat>, count: nat, fp: nat, allFailed: bool): nat {
    if !allFailed then 0 else if last == Some(fp) then count + 1 else 1
  }

  /** Where the loop is after at most `n` iterations against the delegate `script`. */
  function Run(intent: string -> bool, cfg: Config, forceText: bool, script: nat -> Answer, n: nat): Progress {
    if n == 0 then Going(Start(forceText))
    else
      var p := Run(intent, cfg, forceText, script, n - 1);
      if p.Ended? then p else Step(intent, cfg, p.state, script(n), n)
  }

  function Messages(log: seq<Event>): seq<Message> {
    if log == [] then []
    else
      var rest := Messages(log[..|log| - 1]);
      var e := log[|log| - 1];
      if e.Pushed? then rest + [e.message] else rest
  }

  lemma {:induction false} MessagesOfConcat(a: seq<Event>, b: seq<Event>)
    ensures Messages(a + b) == Messages(a) + Messages(b)
  {
    if b == [] {
      assert a + b == a;
    } else {
      assert (a + b)[..|a + b| - 1] == a + b[..|b| - 1];
      MessagesOfConcat(a, b[..|b| - 1]);
    }
  }

  /** The messages are those pushed, in order: that of entry `j` comes after as many as were pushed before it. */
  lemma {:induction false} MessagesArePushed(log: seq<Event>, j: nat)
    requires j < |log| && log[j].Pushed?
    ensures |Messages(log[..j])| < |Messages(log)| && Messages(log)[|Messages(log[..j])|] == log[j].message
  {
    assert log == log[..j] + log[j..] && log[j..] == [log[j]] + log[j + 1..];
    MessagesOfConcat(log[..j], log[j..]);
    MessagesOfConcat([log[j]], log[j + 1..]);
    assert [log[j]][..0] == [] && Messages([log[j]]) == [log[j].message];
  }

  /** And there are no others. */
  lemma {:induction false} NothingElseIsSaid(log: seq<Event>)
    requires forall j | 0 <= j < |log| :: !log[j].Pushed?
    ensures Messages(log) == []
  {
    if log != [] { NothingElseIsSaid(log[..|log| - 1]); }
  }

  lemma StepNeverRunsOut(intent: string -> bool, cfg: Config, s: State, a: Answer, i: nat)
    ensures var p := Step(intent, cfg, s, a, i); p.Ended? ==> p.ending != MaxIterations
  {
  }

  // ---------------------------------------------------------------- the loop itself

  class DuplicateToolCallTracker {
    var lastFingerprint: Option<nat>
    var consecutiveCount: nat

    constructor ()
      ensures lastFingerprint == None && consecutiveCount == 0
    {
      lastFingerprint, consecutiveCount := None, 0;
    }

    method RecordWithFingerprint(fp: nat, allFailed: bool) returns (count: nat)
      modifies this
      ensures count == consecutiveCount == Recorded(old(lastFingerprint), old(consecutiveCount), fp, allFailed)
      ensures lastFingerprint == Some(fp)
    {
      if allFailed && lastFingerprint == Some(fp) {
        consecutiveCount := consecutiveCount + 1;
      } else if allFailed {
        lastFingerprint := Some(fp);
        consecutiveCount := 1;
      } else {
        Reset();
        lastFingerprint := Some(fp);
      }
      count := consecutiveCount;
    }

    method Reset()
      modifies this
      ensures lastFingerprint == None && consecutiveCount == 0
    {
      lastFingerprint := None;
      consecutiveCount := 0;
    }
  }

  class ReasoningContext {
    var messages: seq<Message>
    var forceText: bool
    var lastToolBatchAllFailed: bool
    /** The loop's calls and effects so far. */
    var log: seq<Event>
    /** The conversation before the loop started. */
    ghost var given: seq<Message>

    ghost predicate Valid()
      reads this
    {
      messages == given + Messages(log)
    }

    method Note(e: Event)
      requires Valid() && !e.Pushed?
      modifies this`log
      ensures Valid() && log == old(log) + [e]
    {
      assert (log + [e])[..|log|] == log;
      log := log + [e];
    }

    method Push(m: Message)
      requires Valid()
      modifies this`log, this`messages
      ensures Valid() && log == old(log) + [Pushed(m)]
    {
      assert (log + [Pushed(m)])[..|log|] == log;
      messages := messages + [m];
      log := log + [Pushed(m)];
    }
  }

  /** The state that the loop's variables stand for. */
  ghost function Abstract(ctx: ReasoningContext, tracker: DuplicateToolCallTracker, nudges: nat,
                          truncations: nat): State
    reads ctx, tracker
  {
    State(nudges, truncations, tracker.lastFingerprint, tracker.consecutiveCount, ctx.forceText, ctx.log)
  }

  lemma {:induction false} RunStays(intent: string -> bool, cfg: Config, forceText: bool, script: nat -> Answer,
      n: nat, m: nat)
    requires n <= m && Run(intent, cfg, forceText, script, n).Ended?
    ensures Run(intent, cfg, forceText, script, m) == Run(intent, cfg, forceText, script, n)
  {
    if n < m { RunStays(intent, cfg, forceText, script, n, m - 1); }
  }

  /** How a finished run shows in the result and in the context. */
  ghost predicate Reports(p: Progress, ending: Ending, ctx: ReasoningContext)
    reads ctx
  {
    && ending == (if p.Ended? then p.ending else MaxIterations)
    && ctx.log == p.state.log
    && ctx.forceText == p.state.forceText
  }

  /** A text reply: a nudge, or the delegate's handler. */
  method OnText(intent: string -> bool, cfg: Config, ctx: ReasoningContext, tracker: DuplicateToolCallTracker,
                nudges: nat, ghost truncations: nat, a: Answer, text: string, iteration: nat)
    returns (ended: bool, nudges': nat)
    requires ctx.Valid()
    modifies ctx`log, ctx`messages, ctx`forceText, tracker
    ensures ctx.Valid()
    ensures var s := old(Abstract(ctx, tracker, nudges, truncations));
            (if Nudges(intent, cfg, s, a, text) then Going(StepNudge(s, a, text, iteration))
                else StepText(intent, s, a, text, iteration))
            == if ended then Ended(TextReturned, Abstract(ctx, tracker, nudges', truncations))
               else Going(Abstract(ctx, tracker, nudges', truncations))
  {
    nudges' := nudges;
    if cfg.nudgeEnabled && a.hasTools && !ctx.forceText && nudges < cfg.maxNudges && intent(text) {
      nudges' := nudges + 1;
      OnNudge(ctx, tracker, nudges, truncations, a, text, iteration);
      return false, nudges';
    }
    if !intent(text) { nudges' := 0; }
    tracker.Reset();
    ctx.Note(Handled(text));
    ctx.forceText := Written(ctx.forceText, a.handlingForce);
    if a.textReturns { return true, nudges'; }
    ctx.Note(AfterIteration(iteration));
    ended := false;
  }

  /** The text is kept in the conversation, followed by the nudge. */
  method OnNudge(ctx: ReasoningContext, tracker: DuplicateToolCallTracker, ghost nudges: nat, ghost truncations: nat,
                 a: Answer, text: string, iteration: nat)
    requires ctx.Valid()
    modifies ctx`log, ctx`messages, ctx`forceText
    ensures ctx.Valid()
    ensures Abstract(ctx, tracker, nudges + 1, truncations) ==
            StepNudge(old(Abstract(ctx, tracker, nudges, truncations)), a, text, iteration)
  {
    ctx.Note(Nudged(text));
    ctx.forceText := Written(ctx.forceText, a.handlingForce);
    ctx.Push(Assistant(text));
    ctx.Push(NudgeNotice);
    ctx.Note(AfterIteration(iteration));
  }

  /** What is said of a discarded batch. */
  method Discard(ctx: ReasoningContext, content: Option<string>, iteration: nat)
    requires ctx.Valid()
    modifies ctx`log, ctx`messages
    ensures ctx.Valid()
    ensures ctx.log == old(ctx.log) + [Discarded(iteration)]
                       + (if content.Some? then [Pushed(Assistant(content.value))] else []) + [Pushed(TruncationNotice)]
  {
    ctx.Note(Discarded(iteration));
    if content.Some? { ctx.Push(Assistant(content.value)); }
    ctx.Push(TruncationNotice);
  }

  /** Text is forced at the third truncated batch. */
  method ForceAtLimit(ctx: ReasoningContext, truncations: nat, iteration: nat)
    requires ctx.Valid()
    modifies ctx`log, ctx`forceText
    ensures ctx.Valid()
    ensures ctx.forceText == (old(ctx.forceText) || truncations >= TRUNCATIONS_TO_FORCE)
    ensures ctx.log == old(ctx.log) + (if truncations >= TRUNCATIONS_TO_FORCE then [Forced] else [])
                       + [AfterIteration(iteration)]
  {
    if truncations >= TRUNCATIONS_TO_FORCE {
      ctx.forceText := true;
      ctx.Note(Forced);
    }
    ctx.Note(AfterIteration(iteration));
  }

  lemma TruncatedAs(s: State, content: Option<string>, i: nat)
    ensures var n := s.truncations + 1;
            StepTruncated(s, content, i) ==
            s.(truncations := n, forceText := s.forceText || n >= TRUNCATIONS_TO_FORCE,
               log := s.log + [Discarded(i)] + (if content.Some? then [Pushed(Assistant(content.value))] else [])
                   + [Pushed(TruncationNotice)] + (if n >= TRUNCATIONS_TO_FORCE then [Forced] else [])
                   + [AfterIteration(i)])
  {
    var log := s.log + [Discarded(i)];
    assert log + [] == log;
    var told := if content.Some? then log + [Pushed(Assistant(content.value))] else log;
    var noticed := told + [Pushed(TruncationNotice)];
    assert noticed + [] == noticed;
  }

  /** A batch cut off by the output limit: discarded, with a notice. */
  method OnTruncated(ctx: ReasoningContext, tracker: DuplicateToolCallTracker, ghost nudges: nat, truncations: nat,
                     content: Option<string>, iteration: nat)
    returns (truncations': nat)
    requires ctx.Valid()
    modifies ctx`log, ctx`messages, ctx`forceText
    ensures ctx.Valid()
    ensures Abstract(ctx, tracker, nudges, truncations') ==
            StepTruncated(old(Abstract(ctx, tracker, nudges, truncations)), content, iteration)
  {
    truncations' := truncations + 1;
    TruncatedAs(Abstract(ctx, tracker, nudges, truncations), content, iteration);
    Discard(ctx, content, iteration);
    ForceAtLimit(ctx, truncations', iteration);
  }

  /** A whole batch: executed, then weighed by the tracker. */
  method OnCalls(ctx: ReasoningContext, tracker: DuplicateToolCallTracker, ghost nudges: nat, ghost truncations: nat,
                 a: Answer, fingerprint: nat, iteration: nat)
    returns (ended: Option<Ending>)
    requires ctx.Valid()
    modifies ctx`log, ctx`messages, ctx`forceText, ctx`lastToolBatchAllFailed, tracker
    ensures ctx.Valid()
    ensures StepCalls(old(Abstract(ctx, tracker, nudges, truncations)), a, fingerprint, iteration) ==
            if ended.Some? then Ended(ended.value, Abstract(ctx, tracker, 0, 0))
                else Going(Abstract(ctx, tracker, 0, 0))
  {
    ctx.lastToolBatchAllFailed := false;
    ctx.Note(Executing(iteration));
    ctx.forceText := Written(ctx.forceText, a.handlingForce);
    match a.execution {
      case Failed => return Some(ExecutionFailed);
      case Returned => return Some(ExecutionReturned);
      case Finished(allFailed) => ctx.lastToolBatchAllFailed := allFailed;
    }
    ctx.Note(Executed(fingerprint, ctx.lastToolBatchAllFailed));
    var dupCount := tracker.RecordWithFingerprint(fingerprint, ctx.lastToolBatchAllFailed);
    Escalate(ctx, tracker, dupCount, iteration);
    ended := None;
  }

  /** Warns of a repeated failing batch, and forces text after too many. */
  method Escalate(ctx: ReasoningContext, tracker: DuplicateToolCallTracker, dupCount: nat, iteration: nat)
    requires ctx.Valid() && dupCount == tracker.consecutiveCount
    modifies ctx`log, ctx`messages, ctx`forceText
    ensures ctx.Valid()
    ensures Abstract(ctx, tracker, 0, 0) == Escalated(old(Abstract(ctx, tracker, 0, 0)), iteration)
  {
    if dupCount >= FORCE_TEXT_AT {
      ctx.forceText := true;
      ctx.Note(Forced);
      ctx.Push(DuplicateWarning);
    } else if dupCount >= WARN_AT {
      ctx.Push(DuplicateWarning);
    }
    ctx.Note(AfterIteration(iteration));
  }

  /** The body of the loop. */
  method Iterate(intent: string -> bool, cfg: Config, ctx: ReasoningContext, tracker: DuplicateToolCallTracker,
                 nudges: nat, truncations: nat, a: Answer, iteration: nat)
    returns (ended: Option<Ending>, nudges': nat, truncations': nat)
    requires ctx.Valid()
    modifies ctx`log, ctx`messages, ctx`forceText, ctx`lastToolBatchAllFailed, tracker
    ensures ctx.Valid()
    ensures Step(intent, cfg, old(Abstract(ctx, tracker, nudges, truncations)), a, iteration) ==
            if ended.Some? then Ended(ended.value, Abstract(ctx, tracker, nudges', truncations'))
            else Going(Abstract(ctx, tracker, nudges', truncations'))
  {
    match a.signal {
      case Continue =>
      case Stop => return Some(Stopped), nudges, truncations;
      case Inject(text) => ctx.Push(User(text));
    }
    if a.endsEarly { return Some(EndedEarly), nudges, truncations; }
    ctx.forceText := Written(ctx.forceText, a.hooksForce);
    ctx.Note(LlmCalled(iteration));
    ended, nudges', truncations' := OnReply(intent, cfg, ctx, tracker, nudges, truncations, a, iteration);
  }

  /** What follows the model's reply. */
  method OnReply(intent: string -> bool, cfg: Config, ctx: ReasoningContext, tracker: DuplicateToolCallTracker,
                 nudges: nat, truncations: nat, a: Answer, iteration: nat)
    returns (ended: Option<Ending>, nudges': nat, truncations': nat)
    requires ctx.Valid()
    modifies ctx`log, ctx`messages, ctx`forceText, ctx`lastToolBatchAllFailed, tracker
    ensures ctx.Valid()
    ensures StepReply(intent, cfg, old(Abstract(ctx, tracker, nudges, truncations)), a, iteration) ==
            if ended.Some? then Ended(ended.value, Abstract(ctx, tracker, nudges', truncations'))
            else Going(Abstract(ctx, tracker, nudges', truncations'))
  {
    ended, nudges', truncations' := None, nudges, truncations;
    match a.reply {
      case Error => ended := Some(LlmFailed);
      case Text(text) =>
        var returned;
        returned, nudges' := OnText(intent, cfg, ctx, tracker, nudges, truncations, a, text, iteration);
        if returned { ended := Some(TextReturned); }
      case Calls(fingerprint, content, truncated) =>
        if truncated {
          truncations' := OnTruncated(ctx, tracker, nudges, truncations, content, iteration);
        } else {
          ended := OnCalls(ctx, tracker, nudges, truncations, a, fingerprint, iteration);
          nudges', truncations' := 0, 0;
        }
    }
  }

  method RunAgenticLoop(intent: string -> bool, cfg: Config, script: nat -> Answer,
      ctx: ReasoningContext) returns (ending: Ending)
    requires ctx.log == [] && ctx.Valid()
    modifies ctx
    ensures Reports(Run(intent, cfg, old(ctx.forceText), script, cfg.maxIterations), ending, ctx)
    ensures ending == MaxIterations <==> Run(intent, cfg, old(ctx.forceText), script, cfg.maxIterations).Going?
    ensures ctx.Valid() && ctx.given == old(ctx.given)
  {
    ghost var force0 := ctx.forceText;
    var nudges, truncations := 0, 0;
    var tracker := new DuplicateToolCallTracker();
    for iteration := 1 to cfg.maxIterations + 1
      invariant fresh(tracker)
      invariant Run(intent, cfg, force0, script, iteration - 1) == Going(Abstract(ctx, tracker, nudges, truncations))
      invariant ctx.Valid() && ctx.given == old(ctx.given)
    {
      var ended;
      ended, nudges, truncations := Iterate(intent, cfg, ctx, tracker, nudges, truncations, script(iteration),
          iteration);
      if ended.Some? {
        assert Run(intent, cfg, force0, script, iteration) ==
            Ended(ended.value, Abstract(ctx, tracker, nudges, truncations));
        RunStays(intent, cfg, force0, script, iteration, cfg.maxIterations);
        StepNeverRunsOut(intent, cfg, Run(intent, cfg, force0, script, iteration - 1).state, script(iteration),
          iteration);
        return ended.value;
      }
    }
    ending := MaxIterations;
  }
}
