/** What the loop's counters and escalations mean, over the whole history of a run. */
module LoopHistory {
  import opened Json
  import opened AgenticLoop

  // ---------------------------------------------------------------- the history

  /** The executed batches and the texts handed to the delegate. Nudged texts and discarded batches do
      not count. */
  function Relevant(log: seq<Event>): (rel: seq<Event>)
    ensures forall i | 0 <= i < |rel| :: rel[i].Executed? || rel[i].Handled?
  {
    if log == [] then []
    else
      var rest := Relevant(log[..|log| - 1]);
      var e := log[|log| - 1];
      if e.Executed? || e.Handled? then rest + [e] else rest
  }

  /** The last `m` entries are failing batches with one fingerprint. */
  ghost predicate SameFailing(rel: seq<Event>, m: nat)
    requires m <= |rel|
  {
    m == 0 || exists fp :: forall i | |rel| - m <= i < |rel| :: rel[i] == Executed(fp, true)
  }

  /** `n` is the length of the longest such ending. */
  ghost predicate LongestRun(rel: seq<Event>, n: nat) {
    n <= |rel| && SameFailing(rel, n) && forall m | n < m <= |rel| :: !SameFailing(rel, m)
  }

  function EndRun(rel: seq<Event>): nat {
    if rel == [] then 0
    else
      var e := rel[|rel| - 1];
      if !e.Executed? || !e.allFailed then 0
      else if |rel| > 1 && rel[|rel| - 2] == e then 1 + EndRun(rel[..|rel| - 1])
      else 1
  }

  lemma SameFailingShrinks(rel: seq<Event>, m: nat)
    requires 1 < m <= |rel|
    ensures SameFailing(rel, m) ==> rel[|rel| - 2] == rel[|rel| - 1] && SameFailing(rel[..|rel| - 1], m - 1)
  {
    if SameFailing(rel, m) {
      var fp :| forall i | |rel| - m <= i < |rel| :: rel[i] == Executed(fp, true);
      var front := rel[..|rel| - 1];
      assert forall i | |front| - (m - 1) <= i < |front| :: front[i] == Executed(fp, true);
    }
  }

  lemma {:induction false} EndRunIsLongest(rel: seq<Event>)
    ensures LongestRun(rel, EndRun(rel))
  {
    if rel == [] { return; }
    var n, e, front := EndRun(rel), rel[|rel| - 1], rel[..|rel| - 1];
    if n == 0 { return; }
    assert e == Executed(e.fingerprint, true);
    assert forall i | |rel| - 1 <= i < |rel| :: rel[i] == e;
    if n > 1 {
      EndRunIsLongest(front);
      var fp :| forall i | |front| - (n - 1) <= i < |front| :: front[i] == Executed(fp, true);
      assert front[|front| - 1] == e;
      assert forall i | |rel| - n <= i < |rel| :: rel[i] == Executed(fp, true);
    }
    forall m | n < m <= |rel| ensures !SameFailing(rel, m) {
      SameFailingShrinks(rel, m);
    }
  }

  /** Truncated batches since the last batch that was executed. */
  function TruncatedSince(log: seq<Event>): nat {
    if log == [] || log[|log| - 1].Executing? then 0
    else TruncatedSince(log[..|log| - 1]) + if log[|log| - 1].Discarded? then 1 else 0
  }

  /** Nudges since the last executed batch or handled text without tool intent. */
  function NudgesSince(intent: string -> bool, log: seq<Event>): nat {
    if log == [] then 0
    else
      var e := log[|log| - 1];
      if e.Executing? || (e.Handled? && !intent(e.text)) then 0
      else NudgesSince(intent, log[..|log| - 1]) + if e.Nudged? then 1 else 0
  }

  // ---------------------------------------------------------------- the counters, event by event

  datatype Counters = Counters(nudges: nat, truncations: nat, lastFingerprint: Option<nat>, consecutive: nat)

  function CountersOf(s: State): Counters {
    Counters(s.nudges, s.truncations, s.lastFingerprint, s.consecutive)
  }

  function Count(intent: string -> bool, c: Counters, e: Event): Counters {
    match e
    case Nudged(_) => c.(nudges := c.nudges + 1)
    case Handled(text) => c.(nudges := if intent(text) then c.nudges else 0, lastFingerprint := None, consecutive := 0)
    case Discarded(_) => c.(truncations := c.truncations + 1)
    case Executing(_) => c.(nudges := 0, truncations := 0)
    case Executed(fp, allFailed) =>
      c.(lastFingerprint := Some(fp), consecutive := Recorded(c.lastFingerprint, c.consecutive, fp, allFailed))
    case _ => c
  }

  function CountAll(intent: string -> bool, log: seq<Event>): Counters {
    if log == [] then Counters(0, 0, None, 0)
    else Count(intent, CountAll(intent, log[..|log| - 1]), log[|log| - 1])
  }

  /** The last relevant entry is what the tracker remembers. */
  predicate Remembers(last: Option<nat>, rel: seq<Event>) {
    if rel == [] || rel[|rel| - 1].Handled? then last == None
    else rel[|rel| - 1].Executed? && last == Some(rel[|rel| - 1].fingerprint)
  }

  /** Counting event by event gives what the whole history says. */
  lemma {:induction false} CountsAreHistory(intent: string -> bool, log: seq<Event>)
    ensures var c := CountAll(intent, log);
            && c.consecutive == EndRun(Relevant(log)) && Remembers(c.lastFingerprint, Relevant(log))
            && c.truncations == TruncatedSince(log)
            && c.nudges == NudgesSince(intent, log)
  {
    if log != [] {
      var front, e := log[..|log| - 1], log[|log| - 1];
      CountsAreHistory(intent, front);
      if e.Executed? { EndRunSnoc(Relevant(front), e); }
      if e.Handled? { assert EndRun(Relevant(front) + [e]) == 0; }
    }
  }

  lemma EndRunSnoc(rel: seq<Event>, e: Event)
    requires e.Executed? && forall i | 0 <= i < |rel| :: rel[i].Executed? || rel[i].Handled?
    ensures forall last | Remembers(last, rel) ::
        EndRun(rel + [e]) == Recorded(last, EndRun(rel), e.fingerprint, e.allFailed)
  {
    assert (rel + [e])[..|rel|] == rel;
  }

  // ---------------------------------------------------------------- the protocol

  /** The iteration under way. */
  function Current(log: seq<Event>): nat {
    if log == [] then 1
    else
      var e := log[|log| - 1];
      if e.AfterIteration? then e.iteration + 1 else Current(log[..|log| - 1])
  }

  /** Whether text is forced after one more event: the loop forces it, and the delegate may write it around the LLM call
      and while it handles the reply. */
  function ForcedBy(script: nat -> Answer, forced: bool, i: nat, e: Event): bool {
    match e
    case LlmCalled(_) => if script(i).hooksForce.Some? then script(i).hooksForce.value else forced
    case Forced => true
    case _ =>
      if (e.Nudged? || e.Handled? || e.Executing?) && script(i).handlingForce.Some? then script(i).handlingForce.value
      else forced
  }

  /** Whether text is forced at the end of a history. */
  function TextForced(force: bool, script: nat -> Answer, log: seq<Event>): bool {
    if log == [] then force
    else
      var front := log[..|log| - 1];
      ForcedBy(script, TextForced(force, script, front), Current(front), log[|log| - 1])
  }

  /** Whether the text of an answer is nudged. */
  predicate Nudging(intent: string -> bool, cfg: Config, a: Answer, nudges: nat, forced: bool) {
    && a.reply.Text? && intent(a.reply.text)
    && cfg.nudgeEnabled && a.hasTools && !forced && nudges < cfg.maxNudges
  }

  /** What comes after a history of iteration `i`, with these counters; `None` when the run ends. */
  function Due(intent: string -> bool, cfg: Config, a: Answer, i: nat, c: Counters, forced: bool, past: seq<Event>):
      Option<Event>
  {
    if past == [] || past[|past| - 1].AfterIteration? then
      if a.signal.Stop? then None
      else if a.signal.Inject? then Some(Pushed(User(a.signal.text)))
      else if a.endsEarly then None
      else Some(LlmCalled(i))
    else match past[|past| - 1]
      case LlmCalled(_) =>
        (match a.reply
         case Error => None
         case Text(text) => Some(if Nudging(intent, cfg, a, c.nudges, forced) then Nudged(text) else Handled(text))
         case Calls(_, _, truncated) => Some(if truncated then Discarded(i) else Executing(i)))
      case Nudged(text) => Some(Pushed(Assistant(text)))
      case Handled(_) => if a.textReturns then None else Some(AfterIteration(i))
      case Discarded(_) =>
        Some(Pushed(if a.reply.Calls? && a.reply.content.Some? then Assistant(a.reply.content.value)
            else TruncationNotice))
      case Executing(_) =>
        if a.reply.Calls? && a.execution.Finished? then Some(Executed(a.reply.fingerprint, a.execution.allFailed))
        else None
      case Executed(_, _) =>
        if c.consecutive >= 5 then Some(Forced)
        else if c.consecutive >= 3 then Some(Pushed(DuplicateWarning))
        else Some(AfterIteration(i))
      case Forced =>
        Some(if |past| > 1 && past[|past| - 2].Executed? then Pushed(DuplicateWarning) else AfterIteration(i))
      case Pushed(User(_)) => if a.endsEarly then None else Some(LlmCalled(i))
      case Pushed(Assistant(_)) =>
        Some(Pushed(if |past| > 1 && past[|past| - 2].Nudged? then NudgeNotice else TruncationNotice))
      case Pushed(TruncationNotice) => Some(if c.truncations >= 3 then Forced else AfterIteration(i))
      case Pushed(_) => Some(AfterIteration(i))
      case AfterIteration(_) => None
  }

  /** How a run ends that ends after this history. */
  function EndingAfter(a: Answer, past: seq<Event>): Ending {
    if past == [] || past[|past| - 1].AfterIteration? then (if a.signal.Stop? then Stopped else EndedEarly)
    else match past[|past| - 1]
      case Pushed(_) => EndedEarly
      case LlmCalled(_) => LlmFailed
      case Handled(_) => TextReturned
      case Executing(_) => if a.execution.Failed? then ExecutionFailed else ExecutionReturned
      case _ => MaxIterations
  }

  /** What comes after a history, and how a run that ends there ends, by the history alone. */
  function NextEvent(intent: string -> bool, cfg: Config, force: bool, script: nat -> Answer, past: seq<Event>):
      Option<Event>
  {
    var c := Counters(NudgesSince(intent, past), TruncatedSince(past), None, EndRun(Relevant(past)));
    Due(intent, cfg, script(Current(past)), Current(past), c, TextForced(force, script, past), past)
  }

  /** What comes after a history by its counters, counted event by event. */
  function DueAfter(intent: string -> bool, cfg: Config, force: bool, script: nat -> Answer, past: seq<Event>):
      Option<Event>
  {
    Due(intent, cfg, script(Current(past)), Current(past), CountAll(intent, past), TextForced(force, script, past),
      past)
  }

  /** Every event is the one due after those before it, and the nudges stay within the limit. */
  predicate Conforms(intent: string -> bool, cfg: Config, force: bool, script: nat -> Answer, log: seq<Event>) {
    log == [] ||
      var front, e := log[..|log| - 1], log[|log| - 1];
      && Conforms(intent, cfg, force, script, front)
      && DueAfter(intent, cfg, force, script, front) == Some(e)
      && CountAll(intent, log).nudges <= cfg.maxNudges
  }

  ghost predicate Faithful(intent: string -> bool, cfg: Config, force: bool, script: nat -> Answer, s: State) {
    && CountersOf(s) == CountAll(intent, s.log)
    && s.forceText == TextForced(force, script, s.log)
    && Conforms(intent, cfg, force, script, s.log)
  }

  predicate AtStart(s: State, i: nat)
    requires i > 0
  {
    if i == 1 then s.log == [] else s.log != [] && s.log[|s.log| - 1] == AfterIteration(i - 1)
  }

  /** Between iterations, or where a run ends. */
  predicate Rests(log: seq<Event>) {
    log == [] ||
      var e := log[|log| - 1];
      e.AfterIteration? || e.LlmCalled? || e.Handled? || e.Executing? || (e.Pushed? && e.message.User?)
  }

  // ---------------------------------------------------------------- one event at a time

  /** The executed batch is the one replied. */
  predicate IsReply(e: Event, reply: Reply)
    requires e.Executed?
  {
    reply.Calls? && e.fingerprint == reply.fingerprint
  }

  /** The loop, in iteration `i`, goes from `s` to `s'` by the event `e`. */
  ghost predicate Move(intent: string -> bool, cfg: Config, script: nat -> Answer, i: nat, s: State, e: Event,
      s': State) {
    && s'.log == s.log + [e]
    && CountersOf(s') == Count(intent, CountersOf(s), e)
    && Current(s.log) == i && s'.forceText == ForcedBy(script, s.forceText, i, e)
    && Due(intent, cfg, script(i), i, CountersOf(s), s.forceText, s.log) == Some(e)
    && (e.Nudged? ==> !s.forceText && s.nudges < cfg.maxNudges)
    && (e == Forced ==> s'.forceText)
    && (e.Executing? ==> e.iteration == i && script(i).reply.Calls? && !script(i).reply.truncated)
    && (e.Discarded? ==> e.iteration == i && script(i).reply.Calls? && script(i).reply.truncated)
    && (e.Executed? ==> s.log != [] && s.log[|s.log| - 1] == Executing(i) && IsReply(e, script(i).reply))
    && (s.forceText && !s'.forceText ==> script(i).hooksForce == Some(false) || script(i).handlingForce == Some(false))
  }

  /** What every move keeps, for an iteration `i`. */
  ghost predicate Kept(keeps: State -> bool, intent: string -> bool, cfg: Config, script: nat -> Answer, i: nat) {
    forall s, e, s' :: keeps(s) && Move(intent, cfg, script, i, s, e, s') ==> keeps(s')
  }

  lemma MoveKeeps(keeps: State -> bool, intent: string -> bool, cfg: Config, script: nat -> Answer, i: nat, s: State,
      e: Event, s': State)
    requires Kept(keeps, intent, cfg, script, i) && keeps(s) && Move(intent, cfg, script, i, s, e, s')
    ensures keeps(s') && Current(s'.log) == if e.AfterIteration? then e.iteration + 1 else i
  {
    assert s'.log[..|s'.log| - 1] == s.log;
  }

  lemma NudgeMoves(keeps: State -> bool, intent: string -> bool, cfg: Config, script: nat -> Answer, i: nat, s: State,
      text: string)
    requires Kept(keeps, intent, cfg, script, i) && keeps(s) && s.log != [] && s.log[|s.log| - 1] == LlmCalled(i)
    requires Current(s.log) == i
    requires script(i).reply == Text(text) && Nudges(intent, cfg, s, script(i), text)
    ensures keeps(StepNudge(s, script(i), text, i))
  {
    var s1 := s.(nudges := s.nudges + 1, forceText := Written(s.forceText, script(i).handlingForce)).Note(Nudged(text));
    MoveKeeps(keeps, intent, cfg, script, i, s, Nudged(text), s1);
    NudgedMoves(keeps, intent, cfg, script, i, s1, text);
  }

  lemma NudgedMoves(keeps: State -> bool, intent: string -> bool, cfg: Config, script: nat -> Answer, i: nat, s: State,
      text: string)
    requires Kept(keeps, intent, cfg, script, i) && keeps(s) && s.log != [] && s.log[|s.log| - 1] == Nudged(text)
    requires Current(s.log) == i
    ensures keeps(s.Note(Pushed(Assistant(text))).Note(Pushed(NudgeNotice)).Note(AfterIteration(i)))
  {
    var s2 := s.Note(Pushed(Assistant(text)));
    MoveKeeps(keeps, intent, cfg, script, i, s, Pushed(Assistant(text)), s2);
    var s3 := s2.Note(Pushed(NudgeNotice));
    MoveKeeps(keeps, intent, cfg, script, i, s2, Pushed(NudgeNotice), s3);
    MoveKeeps(keeps, intent, cfg, script, i, s3, AfterIteration(i), s3.Note(AfterIteration(i)));
  }

  lemma TextMoves(keeps: State -> bool, intent: string -> bool, cfg: Config, script: nat -> Answer, i: nat, s: State,
      text: string)
    requires Kept(keeps, intent, cfg, script, i) && keeps(s) && s.log != [] && s.log[|s.log| - 1] == LlmCalled(i)
    requires Current(s.log) == i
    requires script(i).reply == Text(text) && !Nudges(intent, cfg, s, script(i), text)
    ensures keeps(StepText(intent, s, script(i), text, i).state)
  {
    var s1 := s.(nudges := if intent(text) then s.nudges else 0, lastFingerprint := None, consecutive := 0,
                 forceText := Written(s.forceText, script(i).handlingForce)).Note(Handled(text));
    MoveKeeps(keeps, intent, cfg, script, i, s, Handled(text), s1);
    if !script(i).textReturns {
      MoveKeeps(keeps, intent, cfg, script, i, s1, AfterIteration(i), s1.Note(AfterIteration(i)));
    }
  }

  lemma TruncatedMoves(keeps: State -> bool, intent: string -> bool, cfg: Config, script: nat -> Answer, i: nat,
      s: State)
    requires Kept(keeps, intent, cfg, script, i) && keeps(s) && s.log != [] && s.log[|s.log| - 1] == LlmCalled(i)
    requires Current(s.log) == i
    requires script(i).reply.Calls? && script(i).reply.truncated
    ensures keeps(StepTruncated(s, script(i).reply.content, i))
  {
    var content := script(i).reply.content;
    var s1 := s.(truncations := s.truncations + 1).Note(Discarded(i));
    MoveKeeps(keeps, intent, cfg, script, i, s, Discarded(i), s1);
    DiscardedMoves(keeps, intent, cfg, script, i, s1);
    var s2 := if content.Some? then s1.Note(Pushed(Assistant(content.value))) else s1;
    NoticedMoves(keeps, intent, cfg, script, i, s2.Note(Pushed(TruncationNotice)));
  }

  lemma DiscardedMoves(keeps: State -> bool, intent: string -> bool, cfg: Config, script: nat -> Answer, i: nat,
      s: State)
    requires Kept(keeps, intent, cfg, script, i) && keeps(s) && s.log != [] && s.log[|s.log| - 1] == Discarded(i)
    requires Current(s.log) == i && script(i).reply.Calls?
    ensures var content := script(i).reply.content;
            var told := if content.Some? then s.Note(Pushed(Assistant(content.value))) else s;
            var s' := told.Note(Pushed(TruncationNotice));
            keeps(s') && Current(s'.log) == i
  {
    var content := script(i).reply.content;
    var s2 := if content.Some? then s.Note(Pushed(Assistant(content.value))) else s;
    if content.Some? { MoveKeeps(keeps, intent, cfg, script, i, s, Pushed(Assistant(content.value)), s2); }
    MoveKeeps(keeps, intent, cfg, script, i, s2, Pushed(TruncationNotice), s2.Note(Pushed(TruncationNotice)));
  }

  lemma NoticedMoves(keeps: State -> bool, intent: string -> bool, cfg: Config, script: nat -> Answer, i: nat, s: State)
    requires Kept(keeps, intent, cfg, script, i) && keeps(s) && s.log != []
        && s.log[|s.log| - 1] == Pushed(TruncationNotice) && Current(s.log) == i
    ensures keeps((if s.truncations >= TRUNCATIONS_TO_FORCE then s.Forcing() else s).Note(AfterIteration(i)))
  {
    var s' := if s.truncations >= TRUNCATIONS_TO_FORCE then s.Forcing() else s;
    if s.truncations >= TRUNCATIONS_TO_FORCE { MoveKeeps(keeps, intent, cfg, script, i, s, Forced, s'); }
    MoveKeeps(keeps, intent, cfg, script, i, s', AfterIteration(i), s'.Note(AfterIteration(i)));
  }

  lemma CallsMoves(keeps: State -> bool, intent: string -> bool, cfg: Config, script: nat -> Answer, i: nat, s: State)
    requires Kept(keeps, intent, cfg, script, i) && keeps(s) && s.log != [] && s.log[|s.log| - 1] == LlmCalled(i)
    requires Current(s.log) == i
    requires script(i).reply.Calls? && !script(i).reply.truncated
    ensures keeps(StepCalls(s, script(i), script(i).reply.fingerprint, i).state)
  {
    var a, fp := script(i), script(i).reply.fingerprint;
    var s1 := s.(nudges := 0, truncations := 0, forceText := Written(s.forceText, a.handlingForce)).Note(Executing(i));
    MoveKeeps(keeps, intent, cfg, script, i, s, Executing(i), s1);
    if a.execution.Finished? {
      var e := Executed(fp, a.execution.allFailed);
      var s2 := s1.(lastFingerprint := Some(fp),
          consecutive := Recorded(s1.lastFingerprint, s1.consecutive, fp, e.allFailed)).Note(e);
      MoveKeeps(keeps, intent, cfg, script, i, s1, e, s2);
      EscalationMoves(keeps, intent, cfg, script, i, s2);
    }
  }

  lemma EscalationMoves(keeps: State -> bool, intent: string -> bool, cfg: Config, script: nat -> Answer, i: nat,
      s: State)
    requires Kept(keeps, intent, cfg, script, i) && keeps(s) && s.log != [] && s.log[|s.log| - 1].Executed?
    requires Current(s.log) == i
    ensures keeps(Escalated(s, i))
  {
    var s3 := if s.consecutive >= FORCE_TEXT_AT then s.Forcing() else s;
    if s.consecutive >= FORCE_TEXT_AT { MoveKeeps(keeps, intent, cfg, script, i, s, Forced, s3); }
    var s4 := if s.consecutive >= WARN_AT then s3.Note(Pushed(DuplicateWarning)) else s3;
    if s.consecutive >= WARN_AT { MoveKeeps(keeps, intent, cfg, script, i, s3, Pushed(DuplicateWarning), s4); }
    MoveKeeps(keeps, intent, cfg, script, i, s4, AfterIteration(i), s4.Note(AfterIteration(i)));
  }

  lemma ReplyMoves(keeps: State -> bool, intent: string -> bool, cfg: Config, script: nat -> Answer, i: nat, s: State)
    requires Kept(keeps, intent, cfg, script, i) && keeps(s) && s.log != [] && s.log[|s.log| - 1] == LlmCalled(i)
    requires Current(s.log) == i
    ensures keeps(StepReply(intent, cfg, s, script(i), i).state)
  {
    match script(i).reply
    case Error =>
    case Text(text) =>
      if Nudges(intent, cfg, s, script(i), text) {
        NudgeMoves(keeps, intent, cfg, script, i, s, text);
      } else {
        TextMoves(keeps, intent, cfg, script, i, s, text);
      }
    case Calls(_, _, truncated) =>
      if truncated {
        TruncatedMoves(keeps, intent, cfg, script, i, s);
      } else {
        CallsMoves(keeps, intent, cfg, script, i, s);
      }
  }

  /** The iteration up to the LLM's answer. */
  lemma CallMoves(keeps: State -> bool, intent: string -> bool, cfg: Config, script: nat -> Answer, i: nat, s: State)
      returns (s': State)
    requires Kept(keeps, intent, cfg, script, i) && keeps(s) && Current(s.log) == i
    requires s.log == [] || s.log[|s.log| - 1].AfterIteration?
    requires !script(i).signal.Stop? && !script(i).endsEarly
    ensures keeps(s') && Current(s'.log) == i && s'.log != [] && s'.log[|s'.log| - 1] == LlmCalled(i)
    ensures Step(intent, cfg, s, script(i), i) == StepReply(intent, cfg, s', script(i), i)
  {
    var a := script(i);
    var s1 := if a.signal.Inject? then s.Note(Pushed(User(a.signal.text))) else s;
    if a.signal.Inject? { MoveKeeps(keeps, intent, cfg, script, i, s, Pushed(User(a.signal.text)), s1); }
    s' := s1.(forceText := Written(s1.forceText, a.hooksForce)).Note(LlmCalled(i));
    MoveKeeps(keeps, intent, cfg, script, i, s1, LlmCalled(i), s');
  }

  lemma StepMoves(keeps: State -> bool, intent: string -> bool, cfg: Config, script: nat -> Answer, i: nat, s: State)
    requires i > 0 && Kept(keeps, intent, cfg, script, i) && keeps(s) && AtStart(s, i)
    ensures keeps(Step(intent, cfg, s, script(i), i).state)
  {
    var a := script(i);
    if a.signal.Stop? {
    } else if a.endsEarly {
      if a.signal.Inject? {
        var s1 := s.Note(Pushed(User(a.signal.text)));
        MoveKeeps(keeps, intent, cfg, script, i, s, Pushed(User(a.signal.text)), s1);
      }
    } else {
      var s' := CallMoves(keeps, intent, cfg, script, i, s);
      ReplyMoves(keeps, intent, cfg, script, i, s');
    }
  }

  lemma ReplyRests(intent: string -> bool, cfg: Config, s: State, a: Answer, i: nat)
    requires i > 0 && s.log != [] && s.log[|s.log| - 1] == LlmCalled(i)
    ensures var p := StepReply(intent, cfg, s, a, i); Rests(p.state.log) && (p.Going? ==> AtStart(p.state, i + 1))
  {
    match a.reply
    case Error =>
    case Text(text) => if Nudges(intent, cfg, s, a, text) { assert StepNudge(s, a, text, i).log != []; }
    case Calls(fp, content, truncated) =>
      if truncated {
        assert StepTruncated(s, content, i).log != [];
      } else {
        assert StepCalls(s, a, fp, i).state.log != [];
      }
  }

  /** Induction over runs: what every move keeps holds at every point of every run. */
  lemma {:induction false} RunKeeps(keeps: State -> bool, intent: string -> bool, cfg: Config, force: bool,
      script: nat -> Answer, n: nat)
    requires keeps(Start(force)) && forall i: nat :: Kept(keeps, intent, cfg, script, i)
    ensures var p := Run(intent, cfg, force, script, n);
            keeps(p.state) && Rests(p.state.log) && (p.Going? ==> AtStart(p.state, n + 1))
  {
    if n > 0 {
      RunKeeps(keeps, intent, cfg, force, script, n - 1);
      var p := Run(intent, cfg, force, script, n - 1);
      if p.Going? {
        StepMoves(keeps, intent, cfg, script, n, p.state);
        StepRests(intent, cfg, p.state, script(n), n);
      }
    }
  }

  lemma StepRests(intent: string -> bool, cfg: Config, s: State, a: Answer, i: nat)
    requires i > 0 && AtStart(s, i)
    ensures var p := Step(intent, cfg, s, a, i); Rests(p.state.log) && (p.Going? ==> AtStart(p.state, i + 1))
  {
    if !a.signal.Stop? && !a.endsEarly {
      var s1 := if a.signal.Inject? then s.Note(Pushed(User(a.signal.text))) else s;
      ReplyRests(intent, cfg, s1.(forceText := Written(s1.forceText, a.hooksForce)).Note(LlmCalled(i)), a, i);
    }
  }

  lemma RunIsFaithful(intent: string -> bool, cfg: Config, force: bool, script: nat -> Answer, n: nat)
    ensures var p := Run(intent, cfg, force, script, n);
            Faithful(intent, cfg, force, script, p.state) && Rests(p.state.log)
  {
    var keeps := s => Faithful(intent, cfg, force, script, s);
    forall i: nat, s, e, s' | keeps(s) && Move(intent, cfg, script, i, s, e, s') ensures keeps(s') {
      assert s'.log[..|s'.log| - 1] == s.log;
    }
    RunKeeps(keeps, intent, cfg, force, script, n);
  }

  // ---------------------------------------------------------------- what holds of every run

  lemma {:induction false} ConformsAt(intent: string -> bool, cfg: Config, force: bool, script: nat -> Answer,
      log: seq<Event>, j: nat)
    requires Conforms(intent, cfg, force, script, log) && j < |log|
    ensures DueAfter(intent, cfg, force, script, log[..j]) == Some(log[j])
    ensures CountAll(intent, log[..j]).nudges <= cfg.maxNudges
    decreases |log|
  {
    var front := log[..|log| - 1];
    if j < |front| {
      ConformsAt(intent, cfg, force, script, front, j);
      assert front[..j] == log[..j];
    } else if front != [] {
      ConformsAt(intent, cfg, force, script, front, |front| - 1);
    }
  }

  /** At every point of every run the tracker's count is the length of the longest ending run of failing
      batches with one fingerprint, the truncation counter counts the truncated batches since the last
      executed one, and no more nudges than allowed lie between two resets. */
  lemma CountersAreHistory(intent: string -> bool, cfg: Config, force: bool, script: nat -> Answer, n: nat)
    ensures var s := Run(intent, cfg, force, script, n).state;
            && LongestRun(Relevant(s.log), s.consecutive)
            && s.truncations == TruncatedSince(s.log)
            && s.nudges == NudgesSince(intent, s.log)
            && forall j | 0 <= j <= |s.log| :: NudgesSince(intent, s.log[..j]) <= cfg.maxNudges
  {
    RunIsFaithful(intent, cfg, force, script, n);
    var s := Run(intent, cfg, force, script, n).state;
    CountsAreHistory(intent, s.log);
    EndRunIsLongest(Relevant(s.log));
    forall j | 0 <= j <= |s.log| ensures NudgesSince(intent, s.log[..j]) <= cfg.maxNudges {
      CountsAreHistory(intent, s.log[..j]);
      if j < |s.log| { ConformsAt(intent, cfg, force, script, s.log, j); } else { assert s.log[..j] == s.log; }
    }
  }

  /** With `run` the longest ending run of failing batches with one fingerprint, entry `j` an executed batch:
      text mode is forced, and a warning pushed, when it is 5 or more; only a warning at 3 or 4; else
      neither. */
  ghost predicate EscalatesAt(log: seq<Event>, j: nat, run: nat) {
    && j + 1 < |log|
    && (log[j + 1] == Forced <==> run >= 5)
    && (log[j + 1] == Pushed(DuplicateWarning) <==> 3 <= run < 5)
    && (log[j + 1].AfterIteration? <==> run < 3)
    && (run >= 5 ==> j + 2 < |log| && log[j + 2] == Pushed(DuplicateWarning))
  }

  lemma LongestRunIsUnique(rel: seq<Event>, run: nat)
    requires LongestRun(rel, run)
    ensures run == EndRun(rel)
  {
    EndRunIsLongest(rel);
  }

  lemma ConformingEscalates(intent: string -> bool, cfg: Config, force: bool, script: nat -> Answer, log: seq<Event>,
      j: nat, c: Counters)
    requires Conforms(intent, cfg, force, script, log) && Rests(log) && j < |log| && log[j].Executed?
        && c == CountAll(intent, log[..j + 1])
    ensures EscalatesAt(log, j, c.consecutive)
  {
    assert j + 1 < |log|;
    ConformsAt(intent, cfg, force, script, log, j + 1);
    assert log[..j + 1][j] == log[j];
    if c.consecutive >= 5 {
      assert j + 2 < |log|;
      ConformsAt(intent, cfg, force, script, log, j + 2);
      assert log[..j + 2][j + 1] == Forced && log[..j + 2][j] == log[j];
    }
  }

  /** Every executed batch escalates by the run that it ends. */
  lemma DuplicatesEscalate(intent: string -> bool, cfg: Config, force: bool, script: nat -> Answer, n: nat, j: nat,
      run: nat)
    requires var log := Run(intent, cfg, force, script, n).state.log;
             j < |log| && log[j].Executed? && LongestRun(Relevant(log[..j + 1]), run)
    ensures EscalatesAt(Run(intent, cfg, force, script, n).state.log, j, run)
  {
    var log := Run(intent, cfg, force, script, n).state.log;
    RunIsFaithful(intent, cfg, force, script, n);
    CountsAreHistory(intent, log[..j + 1]);
    LongestRunIsUnique(Relevant(log[..j + 1]), run);
    ConformingEscalates(intent, cfg, force, script, log, j, CountAll(intent, log[..j + 1]));
  }

  /** A duplicate warning is pushed nowhere else. */
  lemma WarningsOnlyAfterBatches(intent: string -> bool, cfg: Config, force: bool, script: nat -> Answer, n: nat,
      j: nat)
    requires var log := Run(intent, cfg, force, script, n).state.log; j < |log| && log[j] == Pushed(DuplicateWarning)
    ensures var log := Run(intent, cfg, force, script, n).state.log;
            j > 0 && (log[j - 1].Executed? || (j > 1 && log[j - 1] == Forced && log[j - 2].Executed?))
  {
    RunIsFaithful(intent, cfg, force, script, n);
    ConformsAt(intent, cfg, force, script, Run(intent, cfg, force, script, n).state.log, j);
  }

  lemma ForcedIsDue(intent: string -> bool, cfg: Config, a: Answer, i: nat, c: Counters, forced: bool,
      past: seq<Event>)
    requires past != []
    ensures Due(intent, cfg, a, i, c, forced, past) == Some(Forced) <==>
              || (past[|past| - 1].Executed? && c.consecutive >= 5)
              || (past[|past| - 1] == Pushed(TruncationNotice) && c.truncations >= 3)
  {
  }

  /** The loop forces text mode after a failing batch that ends a run of 5 or more, and after the notice of
      a truncated batch that is at least the third since the last executed batch, whatever lies between;
      and nowhere else. */
  lemma ForcedExactlyThen(intent: string -> bool, cfg: Config, force: bool, script: nat -> Answer, n: nat, j: nat)
    requires j + 1 < |Run(intent, cfg, force, script, n).state.log|
    ensures var log := Run(intent, cfg, force, script, n).state.log;
            log[j + 1] == Forced <==>
              || (log[j].Executed? && EndRun(Relevant(log[..j + 1])) >= 5)
              || (log[j] == Pushed(TruncationNotice) && TruncatedSince(log[..j + 1]) >= 3)
  {
    var log := Run(intent, cfg, force, script, n).state.log;
    RunIsFaithful(intent, cfg, force, script, n);
    var past := log[..j + 1];
    CountsAreHistory(intent, past);
    ConformsAt(intent, cfg, force, script, log, j + 1);
    assert past[j] == log[j];
    ForcedIsDue(intent, cfg, script(Current(past)), Current(past), CountAll(intent, past),
      TextForced(force, script, past), past);
  }

  /** A delegate that does nothing but answer with a batch that does not fail. */
  predicate Quiet(a: Answer) {
    && a.signal.Continue? && !a.endsEarly && a.hooksForce.None? && a.handlingForce.None?
    && a.reply.Calls? && a.execution == Finished(false)
  }

  predicate NotForced(p: Progress, truncations: nat) {
    p.Going? && p.state.truncations == truncations && !p.state.forceText && Forced !in p.state.log
  }

  lemma QuietStep(intent: string -> bool, cfg: Config, s: State, a: Answer, i: nat)
    requires Quiet(a) && NotForced(Going(s), s.truncations) && (a.reply.truncated ==> s.truncations < 2)
    ensures NotForced(Step(intent, cfg, s, a, i), if a.reply.truncated then s.truncations + 1 else 0)
  {
  }

  /** Two truncated batches, one executed, one truncated: three in the run, but text mode is not forced. */
  lemma TruncationsDoNotAccumulate(intent: string -> bool, cfg: Config, script: nat -> Answer)
    requires forall i | 1 <= i <= 4 :: Quiet(script(i)) && (script(i).reply.truncated <==> i != 3)
    ensures NotForced(Run(intent, cfg, false, script, 4), 1)
  {
    var p0, p1 := Run(intent, cfg, false, script, 0), Run(intent, cfg, false, script, 1);
    var p2, p3 := Run(intent, cfg, false, script, 2), Run(intent, cfg, false, script, 3);
    QuietStep(intent, cfg, p0.state, script(1), 1);
    QuietStep(intent, cfg, p1.state, script(2), 2);
    QuietStep(intent, cfg, p2.state, script(3), 3);
    QuietStep(intent, cfg, p3.state, script(4), 4);
  }

  // ---------------------------------------------------------------- bounds and order

  datatype Ledger = Ledger(llm: seq<nat>, after: seq<nat>, pushes: nat)

  function Enter(l: Ledger, e: Event): Ledger {
    match e
    case LlmCalled(i) => l.(llm := l.llm + [i])
    case AfterIteration(i) => l.(after := l.after + [i])
    case Pushed(_) => l.(pushes := l.pushes + 1)
    case _ => l
  }

  /** The iterations of the LLM calls, those that `after_iteration` saw, and the number of messages. */
  function LedgerOf(log: seq<Event>): Ledger {
    if log == [] then Ledger([], [], 0) else Enter(LedgerOf(log[..|log| - 1]), log[|log| - 1])
  }

  /** The account of a longer history, as a rule about an account `L`. */
  ghost predicate Accounts(ledger: seq<Event> -> Ledger) {
    forall log, e :: ledger(log + [e]) == Enter(ledger(log), e)
  }

  lemma LedgerAccounts()
    ensures Accounts(LedgerOf)
  {
    forall log, e ensures LedgerOf(log + [e]) == Enter(LedgerOf(log), e) {
      assert (log + [e])[..|log + [e]| - 1] == log;
    }
  }

  function Upto(n: nat): seq<nat> { seq(n, j => j + 1) }

  ghost predicate InOrder(l: Ledger, going: bool, n: nat) {
    && l.pushes <= 3 * n
    && if going then l.llm == l.after == Upto(n)
       else exists k | 0 <= k < n :: l.after == Upto(k) && (l.llm == Upto(k) || l.llm == Upto(k + 1))
  }

  /** What one iteration adds. */
  ghost predicate Adds(l: Ledger, m: Ledger, going: bool, i: nat) {
    && m.pushes <= l.pushes + 3
    && (m.llm == l.llm + [i] || (!going && m.llm == l.llm))
    && m.after == if going then l.after + [i] else l.after
  }

  /** What handling the reply adds. */
  ghost predicate ReplyAdds(l: Ledger, m: Ledger, going: bool, i: nat) {
    m.pushes <= l.pushes + 2 && m.llm == l.llm && m.after == if going then l.after + [i] else l.after
  }

  lemma NudgeAdds(ledger: seq<Event> -> Ledger, s: State, a: Answer, text: string, i: nat)
    requires Accounts(ledger)
    ensures ReplyAdds(ledger(s.log), ledger(StepNudge(s, a, text, i).log), true, i)
  {
  }

  lemma TextAdds(ledger: seq<Event> -> Ledger, intent: string -> bool, s: State, a: Answer, text: string, i: nat)
    requires Accounts(ledger)
    ensures var p := StepText(intent, s, a, text, i); ReplyAdds(ledger(s.log), ledger(p.state.log), p.Going?, i)
  {
  }

  lemma TruncatedAdds(ledger: seq<Event> -> Ledger, s: State, content: Option<string>, i: nat)
    requires Accounts(ledger)
    ensures ReplyAdds(ledger(s.log), ledger(StepTruncated(s, content, i).log), true, i)
  {
  }

  lemma CallsAdd(ledger: seq<Event> -> Ledger, s: State, a: Answer, fp: nat, i: nat)
    requires Accounts(ledger)
    ensures var p := StepCalls(s, a, fp, i); ReplyAdds(ledger(s.log), ledger(p.state.log), p.Going?, i)
  {
    var s1 := s.(nudges := 0, truncations := 0, forceText := Written(s.forceText, a.handlingForce)).Note(Executing(i));
    if a.execution.Finished? {
      var failed := a.execution.allFailed;
      var s2 := s1.(lastFingerprint := Some(fp),
          consecutive := Recorded(s1.lastFingerprint, s1.consecutive, fp, failed))
                .Note(Executed(fp, failed));
      EscalationAdds(ledger, s2, i);
    }
  }

  lemma EscalationAdds(ledger: seq<Event> -> Ledger, s: State, i: nat)
    requires Accounts(ledger)
    ensures ledger(Escalated(s, i).log) == Ledger(ledger(s.log).llm, ledger(s.log).after + [i], ledger(s.log).pushes
        + if s.consecutive >= WARN_AT then 1 else 0)
  {
  }

  lemma StepAdds(ledger: seq<Event> -> Ledger, intent: string -> bool, cfg: Config, s: State, a: Answer, i: nat)
    requires Accounts(ledger)
    ensures var p := Step(intent, cfg, s, a, i); Adds(ledger(s.log), ledger(p.state.log), p.Going?, i)
  {
    if a.signal.Stop? { return; }
    var s1 := if a.signal.Inject? then s.Note(Pushed(User(a.signal.text))) else s;
    if a.endsEarly { return; }
    var s2 := s1.(forceText := Written(s1.forceText, a.hooksForce)).Note(LlmCalled(i));
    assert ledger(s2.log).pushes <= ledger(s.log).pushes + 1 && ledger(s2.log).llm == ledger(s.log).llm + [i]
        && ledger(s2.log).after == ledger(s.log).after;
    match a.reply
    case Error =>
    case Text(text) =>
      if Nudges(intent, cfg, s2, a, text) {
        NudgeAdds(ledger, s2, a, text, i);
      } else {
        TextAdds(ledger, intent, s2, a, text, i);
      }
    case Calls(fp, content, truncated) =>
      if truncated { TruncatedAdds(ledger, s2, content, i); } else { CallsAdd(ledger, s2, a, fp, i); }
  }

  lemma OneMoreInOrder(l: Ledger, m: Ledger, going: bool, n: nat)
    requires n > 0 && InOrder(l, true, n - 1) && Adds(l, m, going, n)
    ensures InOrder(m, going, n)
  {
    assert Upto(n - 1) + [n] == Upto(n);
    assert Upto(n - 1 + 1) == Upto(n);
  }

  ghost predicate StepsAdd(ledger: seq<Event> -> Ledger, intent: string -> bool, cfg: Config) {
    forall s, a, i :: var p := Step(intent, cfg, s, a, i); Adds(ledger(s.log), ledger(p.state.log), p.Going?, i)
  }

  lemma {:induction false} RunAdds(ledger: seq<Event> -> Ledger, intent: string -> bool, cfg: Config, force: bool,
      script: nat -> Answer, n: nat)
    requires StepsAdd(ledger, intent, cfg) && ledger([]) == Ledger([], [], 0)
    ensures var p := Run(intent, cfg, force, script, n); InOrder(ledger(p.state.log), p.Going?, n)
  {
    if n > 0 {
      RunAdds(ledger, intent, cfg, force, script, n - 1);
      var p := Run(intent, cfg, force, script, n - 1);
      if p.Going? {
        var q := Step(intent, cfg, p.state, script(n), n);
        OneMoreInOrder(ledger(p.state.log), ledger(q.state.log), q.Going?, n);
      }
    }
  }

  /** In at most `n` iterations the LLM is called at most once in each, `after_iteration` sees 1, 2, ... in
      order with none left out, and the loop pushes at most three messages an iteration. */
  lemma CallsInOrder(intent: string -> bool, cfg: Config, force: bool, script: nat -> Answer, n: nat)
    ensures var p := Run(intent, cfg, force, script, n); InOrder(LedgerOf(p.state.log), p.Going?, n)
  {
    LedgerAccounts();
    forall s, a, i ensures var p := Step(intent, cfg, s, a, i); Adds(LedgerOf(s.log), LedgerOf(p.state.log),
        p.Going?, i) {
      StepAdds(LedgerOf, intent, cfg, s, a, i);
    }
    RunAdds(LedgerOf, intent, cfg, force, script, n);
  }

  // ---------------------------------------------------------------- truncated batches and forced text

  /** A batch is handed to the delegate, or discarded, only in the iteration whose reply it was, according
      to whether the reply was truncated. */
  ghost predicate RightlyRouted(log: seq<Event>, script: nat -> Answer) {
    forall j | 0 <= j < |log| ::
      && (log[j].Executing? ==> script(log[j].iteration).reply.Calls? && !script(log[j].iteration).reply.truncated)
      && (log[j].Discarded? ==> script(log[j].iteration).reply.Calls? && script(log[j].iteration).reply.truncated)
  }

  /** A batch whose finish reason is `Length` is never executed. */
  lemma TruncatedNeverExecuted(intent: string -> bool, cfg: Config, force: bool, script: nat -> Answer, n: nat)
    ensures RightlyRouted(Run(intent, cfg, force, script, n).state.log, script)
  {
    RunKeeps((s: State) => RightlyRouted(s.log, script), intent, cfg, force, script, n);
  }

  /** The delegate never turns text mode off. */
  ghost predicate NeverClears(script: nat -> Answer) {
    forall i :: script(i).hooksForce != Some(false) && script(i).handlingForce != Some(false)
  }

  /** Once text mode was forced it is on, and no nudge comes after. */
  ghost predicate Sticks(s: State) {
    && (Forced in s.log ==> s.forceText)
    && forall i, j | 0 <= i < j < |s.log| :: s.log[i] == Forced ==> !s.log[j].Nudged?
  }

  /** The loop itself never clears `force_text`: against a delegate that does not either, text mode once
      forced stays on, and nothing is nudged after. */
  lemma ForcedTextSticks(intent: string -> bool, cfg: Config, force: bool, script: nat -> Answer, n: nat)
    requires NeverClears(script)
    ensures Sticks(Run(intent, cfg, force, script, n).state)
    ensures force ==> Run(intent, cfg, force, script, n).state.forceText
  {
    RunKeeps((s: State) => Sticks(s) && (force ==> s.forceText), intent, cfg, force, script, n);
  }

  // ---------------------------------------------------------------- the width of the counters

  predicate Within(s: State, bound: nat) {
    s.nudges <= bound && s.truncations <= bound && s.consecutive <= bound
  }

  lemma ReplyIsWithin(intent: string -> bool, cfg: Config, s: State, a: Answer, i: nat, bound: nat)
    requires Within(s, bound)
    ensures Within(StepReply(intent, cfg, s, a, i).state, bound + 1)
  {
  }

  /** No counter exceeds the number of iterations, so the source's `u32` counters never overflow in a run of
      fewer than 2^32 of them. */
  lemma {:induction false} RunIsWithin(intent: string -> bool, cfg: Config, force: bool, script: nat -> Answer, n: nat)
    ensures Within(Run(intent, cfg, force, script, n).state, n)
  {
    if n > 0 {
      RunIsWithin(intent, cfg, force, script, n - 1);
      var p := Run(intent, cfg, force, script, n - 1);
      var a := script(n);
      if p.Going? && !a.signal.Stop? && !a.endsEarly {
        var s := if a.signal.Inject? then p.state.Note(Pushed(User(a.signal.text))) else p.state;
        ReplyIsWithin(intent, cfg, s.(forceText := Written(s.forceText, a.hooksForce)).Note(LlmCalled(n)), a, n, n - 1);
      }
    }
  }
}
