/** Every event of a run, and how it ends, by the history alone. */
module LoopProtocol {
  import opened Json
  import opened AgenticLoop
  import opened LoopHistory

  lemma NextIsDue(intent: string -> bool, cfg: Config, force: bool, script: nat -> Answer, past: seq<Event>)
    ensures NextEvent(intent, cfg, force, script, past) == DueAfter(intent, cfg, force, script, past)
  {
    CountsAreHistory(intent, past);
  }

  lemma CurrentNote(s: State, e: Event)
    ensures Current(s.Note(e).log) == if e.AfterIteration? then e.iteration + 1 else Current(s.log)
  {
    assert s.Note(e).log[..|s.log|] == s.log;
  }

  /** Nothing is due, and the ending is the one of this history. */
  predicate EndsHere(intent: string -> bool, cfg: Config, a: Answer, i: nat, p: Progress) {
    p.Ended? ==>
      && Current(p.state.log) == i && p.ending == EndingAfter(a, p.state.log)
      && Due(intent, cfg, a, i, CountersOf(p.state), p.state.forceText, p.state.log) == None
  }

  lemma TextEnds(intent: string -> bool, cfg: Config, s: State, a: Answer, i: nat)
    requires Current(s.log) == i && a.reply.Text?
    ensures EndsHere(intent, cfg, a, i, StepText(intent, s, a, a.reply.text, i))
  {
    CurrentNote(s, Handled(a.reply.text));
  }

  lemma CallsEnd(intent: string -> bool, cfg: Config, s: State, a: Answer, i: nat)
    requires Current(s.log) == i && a.reply.Calls?
    ensures EndsHere(intent, cfg, a, i, StepCalls(s, a, a.reply.fingerprint, i))
  {
    if !a.execution.Finished? { CurrentNote(s, Executing(i)); }
  }

  lemma ReplyEnds(intent: string -> bool, cfg: Config, s: State, a: Answer, i: nat)
    requires Current(s.log) == i && s.log != [] && s.log[|s.log| - 1] == LlmCalled(i)
    ensures EndsHere(intent, cfg, a, i, StepReply(intent, cfg, s, a, i))
  {
    if a.reply.Text? {
      TextEnds(intent, cfg, s, a, i);
    } else if a.reply.Calls? && !a.reply.truncated {
      CallsEnd(intent, cfg, s, a, i);
    }
  }

  lemma StepEnds(intent: string -> bool, cfg: Config, s: State, a: Answer, i: nat)
    requires Current(s.log) == i && (s.log == [] || s.log[|s.log| - 1].AfterIteration?)
    ensures EndsHere(intent, cfg, a, i, Step(intent, cfg, s, a, i))
  {
    if !a.signal.Stop? {
      var s1 := if a.signal.Inject? then s.Note(Pushed(User(a.signal.text))) else s;
      if a.signal.Inject? { CurrentNote(s, Pushed(User(a.signal.text))); }
      if !a.endsEarly {
        CurrentNote(s1, LlmCalled(i));
        ReplyEnds(intent, cfg, s1.(forceText := Written(s1.forceText, a.hooksForce)).Note(LlmCalled(i)), a, i);
      }
    }
  }

  predicate EndsOrRests(intent: string -> bool, cfg: Config, script: nat -> Answer, n: nat, p: Progress) {
    if p.Ended? then EndsHere(intent, cfg, script(Current(p.state.log)), Current(p.state.log), p)
    else AtStart(p.state, n + 1)
  }

  lemma StillEnds(intent: string -> bool, cfg: Config, script: nat -> Answer, n: nat, p: Progress)
    requires n > 0 && p.Ended? && EndsOrRests(intent, cfg, script, n - 1, p)
    ensures EndsOrRests(intent, cfg, script, n, p)
  {
  }

  lemma {:induction false} RunEnds(intent: string -> bool, cfg: Config, force: bool, script: nat -> Answer, n: nat)
    ensures EndsOrRests(intent, cfg, script, n, Run(intent, cfg, force, script, n))
  {
    if n > 0 {
      RunEnds(intent, cfg, force, script, n - 1);
      var p := Run(intent, cfg, force, script, n - 1);
      if p.Going? {
        StepGoesOn(intent, cfg, p.state, script, n);
        NextStep(intent, cfg, force, script, n);
      } else {
        StillEnds(intent, cfg, script, n, p);
      }
    }
  }

  lemma StepGoesOn(intent: string -> bool, cfg: Config, s: State, script: nat -> Answer, i: nat)
    requires i > 0 && AtStart(s, i)
    ensures EndsOrRests(intent, cfg, script, i, Step(intent, cfg, s, script(i), i))
  {
    StepEnds(intent, cfg, s, script(i), i);
    StepRests(intent, cfg, s, script(i), i);
  }

  /** Each event is the one that the history before it calls for. */
  ghost predicate Determined(intent: string -> bool, cfg: Config, force: bool, script: nat -> Answer, log: seq<Event>) {
    forall j | 0 <= j < |log| :: NextEvent(intent, cfg, force, script, log[..j]) == Some(log[j])
  }

  /** Every event of every run is the one that the history before it calls for, and text is forced when the history says
      so. A run ends only where its history calls for nothing, in the way the history tells; or it is between two
      iterations. */
  lemma RunIsDetermined(intent: string -> bool, cfg: Config, force: bool, script: nat -> Answer, n: nat)
    ensures var p := Run(intent, cfg, force, script, n);
            && Determined(intent, cfg, force, script, p.state.log)
            && p.state.forceText == TextForced(force, script, p.state.log)
            && if p.Ended? then
                 && NextEvent(intent, cfg, force, script, p.state.log) == None
                 && p.ending == EndingAfter(script(Current(p.state.log)), p.state.log)
               else AtStart(p.state, n + 1)
  {
    var p := Run(intent, cfg, force, script, n);
    var log := p.state.log;
    RunIsFaithful(intent, cfg, force, script, n);
    RunEnds(intent, cfg, force, script, n);
    forall j | 0 <= j < |log| ensures NextEvent(intent, cfg, force, script, log[..j]) == Some(log[j]) {
      ConformsAt(intent, cfg, force, script, log, j);
      NextIsDue(intent, cfg, force, script, log[..j]);
    }
    NextIsDue(intent, cfg, force, script, log);
  }

  lemma {:induction false} OneContinuation(next: seq<Event> -> Option<Event>, a: seq<Event>, b: seq<Event>)
    requires forall j | 0 <= j < |a| :: next(a[..j]) == Some(a[j])
    requires forall j | 0 <= j < |b| :: next(b[..j]) == Some(b[j])
    requires |a| <= |b|
    ensures a == b[..|a|]
    decreases |a|
  {
    if a != [] {
      var n := |a| - 1;
      var front := a[..n];
      forall j | 0 <= j < n ensures next(front[..j]) == Some(front[j]) { assert front[..j] == a[..j]; }
      OneContinuation(next, front, b);
      assert next(a[..n]) == Some(a[n]) && next(b[..n]) == Some(b[n]);
      assert a == front + [a[n]] && b[..n + 1] == b[..n] + [b[n]];
    }
  }

  /** There is one such history of each length. */
  lemma OneHistory(intent: string -> bool, cfg: Config, force: bool, script: nat -> Answer, a: seq<Event>,
      b: seq<Event>)
    requires Determined(intent, cfg, force, script, a) && Determined(intent, cfg, force, script, b) && |a| <= |b|
    ensures a == b[..|a|]
  {
    OneContinuation(past => NextEvent(intent, cfg, force, script, past), a, b);
  }

  // ---------------------------------------------------------------- what follows the LLM's answer

  /** The delegate's last write before this history's end, or the loop's own, leaves text unforced. */
  predicate MayNudge(intent: string -> bool, cfg: Config, force: bool, script: nat -> Answer, past: seq<Event>,
      text: string)
  {
    && cfg.nudgeEnabled && script(Current(past)).hasTools && intent(text)
    && !TextForced(force, script, past) && NudgesSince(intent, past) < cfg.maxNudges
  }

  /** A text is nudged exactly when nudging is on, there are tools, the text has intent, text is not forced by then, and
      fewer nudges than the limit lie since the last reset; and else it is handed to the delegate. */
  lemma TextIsNudgedExactlyWhen(intent: string -> bool, cfg: Config, force: bool, script: nat -> Answer, n: nat, j: nat,
      i: nat, text: string)
    requires var log := Run(intent, cfg, force, script, n).state.log; j < |log| && log[j] == LlmCalled(i)
    requires script(i).reply == Text(text)
    ensures var log := Run(intent, cfg, force, script, n).state.log;
            && j + 1 < |log| && Current(log[..j + 1]) == i
            && (log[j + 1] == Nudged(text) <==> MayNudge(intent, cfg, force, script, log[..j + 1], text))
            && (log[j + 1] == Handled(text) <==> !MayNudge(intent, cfg, force, script, log[..j + 1], text))
  {
    CalledInIts(intent, cfg, force, script, n, j, i);
  }

  lemma DueCall(intent: string -> bool, cfg: Config, a: Answer, i: nat, c: Counters, forced: bool, past: seq<Event>,
      k: nat)
    requires Due(intent, cfg, a, i, c, forced, past) == Some(LlmCalled(k))
    ensures k == i
  {
  }

  lemma CallsItsIteration(intent: string -> bool, cfg: Config, force: bool, script: nat -> Answer, past: seq<Event>,
      i: nat)
    requires NextEvent(intent, cfg, force, script, past) == Some(LlmCalled(i))
    ensures Current(past) == i
  {
    var now := Current(past);
    var c := Counters(NudgesSince(intent, past), TruncatedSince(past), None, EndRun(Relevant(past)));
    DueCall(intent, cfg, script(now), now, c, TextForced(force, script, past), past, i);
  }

  lemma AfterCall(intent: string -> bool, cfg: Config, force: bool, script: nat -> Answer, past: seq<Event>, i: nat)
    requires past != [] && past[|past| - 1] == LlmCalled(i) && Current(past) == i
    ensures NextEvent(intent, cfg, force, script, past) == None <==> script(i).reply.Error?
  {
  }

  lemma CurrentAt(log: seq<Event>, j: nat, i: nat)
    requires j < |log| && log[j] == LlmCalled(i) && Current(log[..j]) == i
    ensures Current(log[..j + 1]) == i && log[..j + 1][j] == LlmCalled(i)
  {
    assert log[..j + 1][..j] == log[..j];
  }

  lemma CalledInIts(intent: string -> bool, cfg: Config, force: bool, script: nat -> Answer, n: nat, j: nat, i: nat)
    requires var log := Run(intent, cfg, force, script, n).state.log; j < |log| && log[j] == LlmCalled(i)
    ensures var log := Run(intent, cfg, force, script, n).state.log;
            && Current(log[..j + 1]) == i && (j + 1 == |log| ==> script(i).reply.Error?)
            && (j + 1 < |log| ==> NextEvent(intent, cfg, force, script, log[..j + 1]) == Some(log[j + 1]))
  {
    var log := Run(intent, cfg, force, script, n).state.log;
    RunIsDetermined(intent, cfg, force, script, n);
    CallsItsIteration(intent, cfg, force, script, log[..j], i);
    CurrentAt(log, j, i);
    if j + 1 == |log| {
      assert log[..j + 1] == log;
      AfterCall(intent, cfg, force, script, log, i);
    }
  }

  /** A batch is discarded exactly when the reply was cut off, and else executed. */
  lemma BatchIsDiscardedExactlyWhen(intent: string -> bool, cfg: Config, force: bool, script: nat -> Answer, n: nat,
      j: nat, i: nat)
    requires var log := Run(intent, cfg, force, script, n).state.log; j < |log| && log[j] == LlmCalled(i)
    requires script(i).reply.Calls?
    ensures var log := Run(intent, cfg, force, script, n).state.log;
            j + 1 < |log| && log[j + 1] == if script(i).reply.truncated then Discarded(i) else Executing(i)
  {
    CalledInIts(intent, cfg, force, script, n, j, i);
  }

  // ---------------------------------------------------------------- which answer ends a run

  /** The iteration gets as far as the LLM's answer. */
  predicate Answers(a: Answer) { !a.signal.Stop? && !a.endsEarly }

  /** The ending is the one of this answer. */
  predicate EndsBy(a: Answer, p: Progress, nudged: bool) {
    && (p.Ended? && p.ending == Stopped <==> a.signal.Stop?)
    && (p.Ended? && p.ending == EndedEarly <==> !a.signal.Stop? && a.endsEarly)
    && (p.Ended? && p.ending == LlmFailed <==> Answers(a) && a.reply.Error?)
    && (p.Ended? && p.ending == TextReturned <==> Answers(a) && a.reply.Text? && !nudged && a.textReturns)
    && (p.Ended? && p.ending == ExecutionFailed <==>
          Answers(a) && a.reply.Calls? && !a.reply.truncated && a.execution.Failed?)
    && (p.Ended? && p.ending == ExecutionReturned <==>
          Answers(a) && a.reply.Calls? && !a.reply.truncated && a.execution.Returned?)
    && !(p.Ended? && p.ending == MaxIterations)
  }

  lemma StepEndsBy(intent: string -> bool, cfg: Config, s: State, a: Answer, i: nat, nudged: bool)
    requires a.reply.Text? ==>
               nudged == Nudging(intent, cfg, a, s.nudges,
                   if a.hooksForce.Some? then a.hooksForce.value else s.forceText)
    ensures EndsBy(a, Step(intent, cfg, s, a, i), nudged)
  {
  }

  lemma Between(intent: string -> bool, cfg: Config, force: bool, script: nat -> Answer, n: nat)
    requires Run(intent, cfg, force, script, n).Going?
    ensures var s := Run(intent, cfg, force, script, n).state;
            && s.nudges == NudgesSince(intent, s.log) && s.forceText == TextForced(force, script, s.log)
            && AtStart(s, n + 1)
  {
    RunIsDetermined(intent, cfg, force, script, n);
    CountersAreHistory(intent, cfg, force, script, n);
  }

  /** Each ending comes of exactly one kind of answer, and of every other answer the run goes on: a text ends it when
      the delegate returns and the text is not nudged, a whole batch when its execution fails or returns. */
  lemma EndsExactlyWhen(intent: string -> bool, cfg: Config, force: bool, script: nat -> Answer, n: nat)
    requires n > 0 && Run(intent, cfg, force, script, n - 1).Going?
    ensures var a, past := script(n), Run(intent, cfg, force, script, n - 1).state.log;
            var nudged := a.reply.Text? && MayNudge(intent, cfg, force, script, past + [LlmCalled(n)], a.reply.text);
            EndsBy(a, Run(intent, cfg, force, script, n), nudged)
  {
    var a, s := script(n), Run(intent, cfg, force, script, n - 1).state;
    Between(intent, cfg, force, script, n - 1);
    var nudged := a.reply.Text? && MayNudge(intent, cfg, force, script, s.log + [LlmCalled(n)], a.reply.text);
    NudgingIs(intent, cfg, force, script, s, n, nudged);
    StepEndsBy(intent, cfg, s, a, n, nudged);
    NextStep(intent, cfg, force, script, n);
  }

  lemma NextStep(intent: string -> bool, cfg: Config, force: bool, script: nat -> Answer, n: nat)
    requires n > 0 && Run(intent, cfg, force, script, n - 1).Going?
    ensures Run(intent, cfg, force, script, n) ==
            Step(intent, cfg, Run(intent, cfg, force, script, n - 1).state, script(n), n)
  {
  }

  lemma NudgingIs(intent: string -> bool, cfg: Config, force: bool, script: nat -> Answer, s: State, n: nat,
      nudged: bool)
    requires n > 0 && AtStart(s, n)
    requires s.nudges == NudgesSince(intent, s.log) && s.forceText == TextForced(force, script, s.log)
    requires var a := script(n);
             nudged == (a.reply.Text? && MayNudge(intent, cfg, force, script, s.log + [LlmCalled(n)], a.reply.text))
    ensures var a := script(n);
            nudged == Nudging(intent, cfg, a, s.nudges,
                if a.hooksForce.Some? then a.hooksForce.value else s.forceText)
  {
    CallKeepsIteration(s.forceText, s.log, n);
    CallForces(force, script, s.log, n);
    CallIsNoNudge(intent, s.log, n);
  }

  lemma CallKeepsIteration(force: bool, past: seq<Event>, n: nat)
    requires n > 0 && AtStart(State(0, 0, None, 0, force, past), n)
    ensures Current(past) == n == Current(past + [LlmCalled(n)])
  {
    assert (past + [LlmCalled(n)])[..|past|] == past;
  }

  lemma CallForces(force: bool, script: nat -> Answer, past: seq<Event>, n: nat)
    requires Current(past) == n
    ensures var w := script(n).hooksForce;
            TextForced(force, script, past + [LlmCalled(n)]) ==
            if w.Some? then w.value else TextForced(force, script, past)
  {
    var log := past + [LlmCalled(n)];
    assert log[..|log| - 1] == past && log[|log| - 1] == LlmCalled(n);
  }

  lemma CallIsNoNudge(intent: string -> bool, past: seq<Event>, n: nat)
    ensures NudgesSince(intent, past + [LlmCalled(n)]) == NudgesSince(intent, past)
  {
    var log := past + [LlmCalled(n)];
    assert log[..|log| - 1] == past && log[|log| - 1] == LlmCalled(n);
  }
}
