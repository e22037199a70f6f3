/** What the tenants are given: the rows and open operations by the history of steps alone, and the answer to each
    step. */
module TenantService {
  import opened Json
  import opened Tenant

  // ---------------------------------------------------------------- the history

  /** A step that makes a row under the key when there is none, and that row. */
  function Makes(step: Step, key: Key): Option<Row> {
    if step.Create? && step.key == key then Some(Row(step.user, step.channel, step.data))
    else if step.Ensure? && key == Key(Conversations, step.id) then Some(Row(step.user, step.channel, ""))
    else None
  }

  /** A step that deletes the row, after these steps. */
  predicate Deletes(steps: seq<Step>, step: Step, key: Key)
    decreases |steps|, 2
  {
    step == SystemDelete(key) || (step.Act? && OpenCall(steps, step.user, step.task) == Some(Pending(key, Delete)))
  }

  /** What a step writes to the row, after these steps. */
  function Writes(steps: seq<Step>, step: Step, key: Key): Option<string>
    decreases |steps|, 2
  {
    if step.SystemWrite? && step.key == key then Some(step.data)
    else if step.Act? && OpenCall(steps, step.user, step.task).Some? then
      var p := OpenCall(steps, step.user, step.task).value;
      if p.key == key && p.call.Write? then Some(p.call.data) else None
    else None
  }

  /** The row under a key: made when the key was free, written since, gone when deleted. */
  function RowAt(steps: seq<Step>, key: Key): Option<Row>
    decreases |steps|, 0
  {
    if steps == [] then None
    else
      var front, last := steps[..|steps| - 1], steps[|steps| - 1];
      match RowAt(front, key)
      case None => Makes(last, key)
      case Some(row) =>
        if Deletes(front, last, key) then None
        else if Writes(front, last, key).Some? then Some(row.(data := Writes(front, last, key).value))
        else Some(row)
  }

  predicate Owns(steps: seq<Step>, user: User, key: Key)
    decreases |steps|, 1
  {
    RowAt(steps, key).Some? && RowAt(steps, key).value.owner == user
  }

  /** The operation open under a number: the last one checked there whose check passed, unless it was called since. */
  function OpenCall(steps: seq<Step>, user: User, task: nat): Option<Pending>
    decreases |steps|, 1
  {
    if steps == [] then None
    else
      var front, last := steps[..|steps| - 1], steps[|steps| - 1];
      match OpenCall(front, user, task)
      case None =>
        if last.Check? && last.user == user && last.task == task && Owns(front, user, last.key)
        then Some(Pending(last.key, last.call)) else None
      case Some(p) => if last == Act(user, task) then None else Some(p)
  }

  predicate HoldsRow(sys: System, steps: seq<Step>, key: Key) {
    RowAt(steps, key) == if key in sys.rows then Some(sys.rows[key]) else None
  }

  predicate HoldsCall(sys: System, steps: seq<Step>, user: User, task: nat) {
    OpenCall(steps, user, task) == if (user, task) in sys.pending then Some(sys.pending[(user, task)]) else None
  }

  /** The system holds what the history says. */
  ghost predicate Holds(sys: System, steps: seq<Step>) {
    (forall key :: HoldsRow(sys, steps, key)) && (forall user, task: nat :: HoldsCall(sys, steps, user, task))
  }

  lemma RowsHold(sys: System, steps: seq<Step>, step: Step, key: Key)
    requires Holds(sys, steps)
    ensures HoldsRow(Take(sys, step), steps + [step], key)
  {
    assert (steps + [step])[..|steps|] == steps && HoldsRow(sys, steps, key);
    if step.Act? { assert HoldsCall(sys, steps, step.user, step.task); }
  }

  lemma CallsHold(sys: System, steps: seq<Step>, step: Step, user: User, task: nat)
    requires Holds(sys, steps)
    ensures HoldsCall(Take(sys, step), steps + [step], user, task)
  {
    assert (steps + [step])[..|steps|] == steps && HoldsCall(sys, steps, user, task);
    if step.Check? { assert HoldsRow(sys, steps, step.key); }
  }

  /** After every run. */
  lemma {:induction false} RunHolds(steps: seq<Step>)
    ensures Holds(Run(steps), steps)
  {
    if steps != [] {
      var front, last := steps[..|steps| - 1], steps[|steps| - 1];
      assert steps == front + [last];
      RunHolds(front);
      forall key ensures HoldsRow(Run(steps), steps, key) { RowsHold(Run(front), front, last, key); }
      forall user, task: nat ensures HoldsCall(Run(steps), steps, user, task) {
        CallsHold(Run(front), front, last, user, task);
      }
    }
  }

  // ---------------------------------------------------------------- the answers

  /** The key is listed exactly when it is of the table and the user's, with its row. */
  predicate ListsRightly(steps: seq<Step>, user: User, table: Table, rows: map<Key, Row>, key: Key) {
    && (key in rows <==> key.table == table && Owns(steps, user, key))
    && (key in rows ==> RowAt(steps, key) == Some(rows[key]))
  }

  /** What the user of a step is told, after these steps; `None` when nothing. */
  ghost predicate Answers(steps: seq<Step>, step: Step, answer: Option<Answer>)
    requires !IsSystem(step)
  {
    match step
    case Create(_, key, _, _) => answer == Some(if RowAt(steps, key).None? then Done(key) else Taken(key))
    case Ensure(user, id, channel) =>
      var key := Key(Conversations, id);
      answer == Some(Ensured(key, RowAt(steps, key).None?
          || (Owns(steps, user, key) && RowAt(steps, key).value.channel == channel)))
    case Fetch(user, key) =>
      answer == Some(if Owns(steps, user, key) then Shown(key, RowAt(steps, key).value) else Absent(key))
    case List(user, table) =>
      && answer.Some? && answer.value.Listed?
      && forall key :: ListsRightly(steps, user, table, answer.value.rows, key)
    case Check(user, task, key, call) =>
      answer == if Owns(steps, user, key) || OpenCall(steps, user, task).Some? then None
                else Some(if call == Reason then Absent(key) else NotFound(key))
    case Act(user, task) =>
      match OpenCall(steps, user, task)
      case None => answer == None
      case Some(p) =>
        answer == Some(
          if RowAt(steps, p.key).None? then Gone(p.key)
          else if p.call.Write? || p.call.Delete? then Done(p.key)
          else Shown(p.key, RowAt(steps, p.key).value))
  }

  lemma ActAnswers(sys: System, steps: seq<Step>, user: User, task: nat)
    requires Holds(sys, steps)
    ensures HoldsCall(sys, steps, user, task)
    ensures OpenCall(steps, user, task).Some? ==> HoldsRow(sys, steps, OpenCall(steps, user, task).value.key)
  {
  }

  lemma ListAnswers(sys: System, steps: seq<Step>, user: User, table: Table)
    requires Holds(sys, steps)
    ensures forall key :: ListsRightly(steps, user, table, OwnedBy(sys.rows, table, user), key)
  {
    forall key ensures ListsRightly(steps, user, table, OwnedBy(sys.rows, table, user), key) {
      assert HoldsRow(sys, steps, key);
    }
  }

  lemma StepAnswers(sys: System, steps: seq<Step>, step: Step) returns (answer: Option<Answer>)
    requires Holds(sys, steps) && !IsSystem(step)
    ensures Answers(steps, step, answer)
    ensures Take(sys, step).answers == if answer.Some? then Tell(sys, step.user, answer.value).answers else sys.answers
  {
    var told := Told(Take(sys, step), step.user);
    answer := if told == Told(sys, step.user) then None else Some(told[|told| - 1]);
    match step
    case Create(_, key, _, _) => assert HoldsRow(sys, steps, key);
    case Ensure(_, id, _) => assert HoldsRow(sys, steps, Key(Conversations, id));
    case Fetch(_, key) => assert HoldsRow(sys, steps, key);
    case List(user, table) => ListAnswers(sys, steps, user, table);
    case Check(user, task, key, _) => assert HoldsRow(sys, steps, key) && HoldsCall(sys, steps, user, task);
    case Act(user, task) => ActAnswers(sys, steps, user, task);
  }

  /** Every step of every run is answered by the history, and nobody else is told anything. */
  lemma EveryStepIsAnswered(steps: seq<Step>, step: Step) returns (answer: Option<Answer>)
    requires !IsSystem(step)
    ensures Answers(steps, step, answer)
    ensures Told(Run(steps + [step]), step.user) ==
            Told(Run(steps), step.user) + if answer.Some? then [answer.value] else []
    ensures forall user | user != step.user :: Told(Run(steps + [step]), user) == Told(Run(steps), user)
  {
    RunHolds(steps);
    RunSnoc(steps, step);
    answer := StepAnswers(Run(steps), steps, step);
  }

  // ---------------------------------------------------------------- the life of a row

  /** The text last written to the row in the steps of `after`, and `data` if none was. */
  function LastWritten(before: seq<Step>, after: seq<Step>, key: Key, data: string): string {
    if after == [] then data
    else
      var front := after[..|after| - 1];
      match Writes(before + front, after[|after| - 1], key)
      case Some(text) => text
      case None => LastWritten(before, front, key, data)
  }

  ghost predicate NeverDeleted(before: seq<Step>, after: seq<Step>, key: Key) {
    forall i | 0 <= i < |after| :: !Deletes(before + after[..i], after[i], key)
  }

  /** A row made under a free key is there until it is deleted, with its owner and channel and what was last written. */
  lemma {:induction false} RowLives(before: seq<Step>, make: Step, after: seq<Step>, key: Key)
    requires RowAt(before, key).None? && Makes(make, key).Some? && NeverDeleted(before + [make], after, key)
    ensures var row := Makes(make, key).value;
            RowAt(before + [make] + after, key) ==
            Some(row.(data := LastWritten(before + [make], after, key, row.data)))
    decreases |after|
  {
    var made, all := before + [make], before + [make] + after;
    if after == [] {
      assert all == made && made[..|before|] == before;
    } else {
      var front := after[..|after| - 1];
      assert all[..|all| - 1] == made + front;
      forall i | 0 <= i < |front| ensures !Deletes(made + front[..i], front[i], key) {
        assert front[..i] == after[..i];
      }
      RowLives(before, make, front, key);
    }
  }

  /** As long as it lives, its owner is served: every fetch shows it, every listing of its table has it, every check on
      a free number passes; and every other user is refused, in the same words as for a row that is not there. */
  lemma OwnerIsServed(before: seq<Step>, make: Step, after: seq<Step>, key: Key, user: User, task: nat, call: Call)
      returns (fetched: Answer, listed: map<Key, Row>, refused: Option<Answer>)
    requires RowAt(before, key).None? && Makes(make, key).Some? && NeverDeleted(before + [make], after, key)
    ensures var steps, row := before + [make] + after, Makes(make, key).value;
            var now := row.(data := LastWritten(before + [make], after, key, row.data));
            && fetched == (if user == row.owner then Shown(key, now) else Absent(key))
            && (key in listed <==> user == row.owner) && (key in listed ==> listed[key] == now)
            && Told(Run(steps + [Fetch(user, key)]), user) == Told(Run(steps), user) + [fetched]
            && Told(Run(steps + [List(user, key.table)]), user) == Told(Run(steps), user) + [Listed(listed)]
            && (OpenCall(steps, user, task).None? ==>
                  && OpenCall(steps + [Check(user, task, key, call)], user, task)
                     == (if user == row.owner then Some(Pending(key, call)) else None)
                  && Told(Run(steps + [Check(user, task, key, call)]), user) == Told(Run(steps), user)
                     + if user == row.owner then [] else [if call == Reason then Absent(key) else NotFound(key)])
  {
    var steps := before + [make] + after;
    RowLives(before, make, after, key);
    var f := EveryStepIsAnswered(steps, Fetch(user, key));
    var l := EveryStepIsAnswered(steps, List(user, key.table));
    refused := EveryStepIsAnswered(steps, Check(user, task, key, call));
    fetched, listed := f.value, l.value.rows;
    assert ListsRightly(steps, user, key.table, listed, key);
    assert (steps + [Check(user, task, key, call)])[..|steps|] == steps;
  }

  lemma {:induction false} StaysOpen(steps: seq<Step>, between: seq<Step>, user: User, task: nat)
    requires OpenCall(steps, user, task).Some? && Act(user, task) !in between
    ensures OpenCall(steps + between, user, task) == OpenCall(steps, user, task)
    decreases |between|
  {
    if between == [] {
      assert steps + between == steps;
    } else {
      var front := between[..|between| - 1];
      assert (steps + between)[..|steps + between| - 1] == steps + front;
      StaysOpen(steps, front, user, task);
    }
  }

  /** And the call that its owner makes, once checked, takes effect on the row as it is by then, whatever others do in
      between. */
  lemma OwnCallTakesEffect(steps: seq<Step>, between: seq<Step>, user: User, task: nat, key: Key, call: Call)
    requires Owns(steps, user, key) && OpenCall(steps, user, task).None? && Act(user, task) !in between
    ensures var mid := steps + [Check(user, task, key, call)] + between;
            var row := RowAt(mid, key);
            RowAt(mid + [Act(user, task)], key) ==
            if row.None? || call.Delete? then None
            else if call.Write? then Some(row.value.(data := call.data))
            else row
  {
    var check, act := Check(user, task, key, call), Act(user, task);
    var checked := steps + [check];
    assert checked[..|steps|] == steps;
    StaysOpen(checked, between, user, task);
    var mid := checked + between;
    assert (mid + [act])[..|mid|] == mid;
    assert OpenCall(mid, user, task) == Some(Pending(key, call));
  }
}
