/** The loop's run of duplicates in terms of the batches themselves: it counts batches that are equal up to the order of
    argument keys. */
module LoopBatches {
  import opened AgenticLoop
  import opened LoopHistory
  import opened CanonicalJson

  /** What there is in the history: a text handed to the delegate, or the batch of an iteration, executed. */
  datatype Happening = Spoken | Batch(iteration: nat, allFailed: bool)

  function Happenings(log: seq<Event>): seq<Happening> {
    if log == [] then []
    else
      var front, e := log[..|log| - 1], log[|log| - 1];
      if e.Handled? then Happenings(front) + [Spoken]
      else if e.Executed? && front != [] && front[|front| - 1].Executing? then
        Happenings(front) + [Batch(front[|front| - 1].iteration, e.allFailed)]
      else Happenings(front)
  }

  /** The happening that an entry of the history is. */
  predicate IsThat(e: Event, h: Happening, script: nat -> Answer) {
    match h
    case Spoken => e.Handled?
    case Batch(i, allFailed) => e.Executed? && e.allFailed == allFailed && IsReply(e, script(i).reply)
  }

  ghost predicate Linked(log: seq<Event>, script: nat -> Answer) {
    && |Happenings(log)| == |Relevant(log)|
    && forall x | 0 <= x < |Relevant(log)| :: IsThat(Relevant(log)[x], Happenings(log)[x], script)
  }

  lemma OneMoreLinked(log: seq<Event>, e: Event, script: nat -> Answer, i: nat)
    requires Linked(log, script)
    requires e.Executed? ==> log != [] && log[|log| - 1] == Executing(i) && IsReply(e, script(i).reply)
    ensures Linked(log + [e], script)
  {
    assert (log + [e])[..|log|] == log;
  }

  lemma RunIsLinked(intent: string -> bool, cfg: Config, force: bool, script: nat -> Answer, n: nat)
    ensures Linked(Run(intent, cfg, force, script, n).state.log, script)
  {
    var keeps := (s: State) => Linked(s.log, script);
    forall i: nat, s, e, s' | keeps(s) && Move(intent, cfg, script, i, s, e, s') ensures keeps(s') {
      OneMoreLinked(s.log, e, script, i);
    }
    RunKeeps(keeps, intent, cfg, force, script, n);
  }

  // ---------------------------------------------------------------- equal batches

  /** The replies carry the fingerprints of the batches, and different streams of this run have different hashes. */
  ghost predicate Fingerprinted(h: Hashing, script: nat -> Answer, batches: nat -> seq<ToolCall>) {
    && CanonicalJson.Faithful(h)
    && (forall i | script(i).reply.Calls? ::
          DistinctBatch(batches(i)) && script(i).reply.fingerprint == h.finish(Fed(h, batches(i))))
    && (forall i, j | script(i).reply.Calls? && script(j).reply.Calls?
        && h.finish(Fed(h, batches(i))) == h.finish(Fed(h, batches(j))) ::
          Fed(h, batches(i)) == Fed(h, batches(j)))
  }

  /** The last `m` happenings are failing batches, any two of them the same up to the order of argument keys. */
  ghost predicate EqualFailing(hs: seq<Happening>, m: nat, batches: nat -> seq<ToolCall>)
    requires m <= |hs|
  {
    && (forall x | |hs| - m <= x < |hs| :: hs[x].Batch? && hs[x].allFailed)
    && (forall x, y | |hs| - m <= x < |hs| && |hs| - m <= y < |hs| ::
          SameBatch(batches(hs[x].iteration), batches(hs[y].iteration)))
  }

  ghost predicate LongestEqual(hs: seq<Happening>, n: nat, batches: nat -> seq<ToolCall>) {
    n <= |hs| && EqualFailing(hs, n, batches) && forall m | n < m <= |hs| :: !EqualFailing(hs, m, batches)
  }

  lemma SameFingerprint(h: Hashing, script: nat -> Answer, batches: nat -> seq<ToolCall>, i: nat, j: nat)
    requires Fingerprinted(h, script, batches) && script(i).reply.Calls? && script(j).reply.Calls?
    ensures script(i).reply.fingerprint == script(j).reply.fingerprint <==> SameBatch(batches(i), batches(j))
  {
    FedCharacterisesBatch(h, batches(i), batches(j));
  }

  lemma FailingAreEqual(h: Hashing, script: nat -> Answer, batches: nat -> seq<ToolCall>, log: seq<Event>, m: nat)
    requires Fingerprinted(h, script, batches) && Linked(log, script) && m <= |Relevant(log)|
    ensures SameFailing(Relevant(log), m) <==> EqualFailing(Happenings(log), m, batches)
  {
    var rel, hs := Relevant(log), Happenings(log);
    var first := |rel| - m;
    if m > 0 && SameFailing(rel, m) {
      var fp :| forall x | first <= x < |rel| :: rel[x] == Executed(fp, true);
      forall x | first <= x < |rel| ensures hs[x].Batch? && hs[x].allFailed
          && IsReply(rel[x], script(hs[x].iteration).reply) {
        assert IsThat(rel[x], hs[x], script);
      }
      forall x, y | first <= x < |hs| && first <= y < |hs|
        ensures SameBatch(batches(hs[x].iteration), batches(hs[y].iteration))
      {
        SameFingerprint(h, script, batches, hs[x].iteration, hs[y].iteration);
      }
    }
    if m > 0 && EqualFailing(hs, m, batches) {
      var last := |rel| - 1;
      assert IsThat(rel[last], hs[last], script);
      forall x | first <= x < |rel| ensures rel[x] == Executed(rel[last].fingerprint, true) {
        assert IsThat(rel[x], hs[x], script);
        SameFingerprint(h, script, batches, hs[x].iteration, hs[last].iteration);
      }
    }
  }

  /** At the end of every run the tracker's count is the length of the longest ending run of failing batches that are
      the same calls up to the order of argument keys. */
  lemma CountIsOfEqualBatches(h: Hashing, batches: nat -> seq<ToolCall>, intent: string -> bool, cfg: Config,
                              force: bool,
                              script: nat -> Answer, n: nat)
    requires Fingerprinted(h, script, batches)
    ensures var s := Run(intent, cfg, force, script, n).state; LongestEqual(Happenings(s.log), s.consecutive, batches)
  {
    var s := Run(intent, cfg, force, script, n).state;
    RunIsLinked(intent, cfg, force, script, n);
    CountersAreHistory(intent, cfg, force, script, n);
    forall m: nat | m <= |Relevant(s.log)|
      ensures SameFailing(Relevant(s.log), m) <==> EqualFailing(Happenings(s.log), m, batches)
    {
      FailingAreEqual(h, script, batches, s.log, m);
    }
  }

  /** And after every executed batch the escalation is by the number of batches equal to it, up to the order of keys,
      that ended the history then. */
  lemma EqualBatchesEscalate(h: Hashing, batches: nat -> seq<ToolCall>, intent: string -> bool, cfg: Config,
                             force: bool,
                             script: nat -> Answer, n: nat, j: nat, run: nat)
    requires Fingerprinted(h, script, batches)
    requires var log := Run(intent, cfg, force, script, n).state.log;
             j < |log| && log[j].Executed? && LongestEqual(Happenings(log[..j + 1]), run, batches)
    ensures EscalatesAt(Run(intent, cfg, force, script, n).state.log, j, run)
  {
    var log := Run(intent, cfg, force, script, n).state.log;
    RunIsLinked(intent, cfg, force, script, n);
    LinkedBefore(log, script, j + 1);
    var past := log[..j + 1];
    forall m: nat | m <= |Relevant(past)| ensures SameFailing(Relevant(past), m) <==>
        EqualFailing(Happenings(past), m, batches) {
      FailingAreEqual(h, script, batches, past, m);
    }
    DuplicatesEscalate(intent, cfg, force, script, n, j, run);
  }

  lemma {:induction false} LinkedBefore(log: seq<Event>, script: nat -> Answer, n: nat)
    requires Linked(log, script) && n <= |log|
    ensures Linked(log[..n], script)
    decreases |log|
  {
    if n == |log| {
      assert log[..n] == log;
    } else {
      var front := log[..|log| - 1];
      AsMany(front);
      FrontIsLinked(log, script);
      LinkedBefore(front, script, n);
      assert front[..n] == log[..n];
    }
  }

  lemma {:induction false} AsMany(log: seq<Event>)
    ensures |Happenings(log)| <= |Relevant(log)|
  {
    if log != [] { AsMany(log[..|log| - 1]); }
  }

  lemma FrontIsLinked(log: seq<Event>, script: nat -> Answer)
    requires log != [] && Linked(log, script)
    ensures Linked(log[..|log| - 1], script)
  {
    var front := log[..|log| - 1];
    AsMany(front);
    forall x | 0 <= x < |Relevant(front)| ensures IsThat(Relevant(front)[x], Happenings(front)[x], script) {
      assert Relevant(front)[x] == Relevant(log)[x] && Happenings(front)[x] == Happenings(log)[x];
    }
  }
}
