/** Tenant isolation: an ownership check, then a call on the shared database, with anything in between. */
module Tenant {
  import opened Json

  type User = string

  datatype Table = Jobs | SandboxJobs | Routines | Conversations

  datatype Key = Key(table: Table, id: nat)

  /** The owner is fixed when the row is created; no update writes it. */
  datatype Row = Row(owner: User, channel: string, data: string)

  /** The call made after the check. `Reason` is the read whose refusal is an empty answer, not an error. */
  datatype Call = Read | Reason | Write(data: string) | Delete

  /** An operation whose check has passed and whose call is still to come. */
  datatype Pending = Pending(key: Key, call: Call)

  datatype Answer =
    | Shown(key: Key, row: Row)
    | Listed(rows: map<Key, Row>)
    | Done(key: Key)
    | Absent(key: Key)
    | NotFound(key: Key)
    | Gone(key: Key)
    | Taken(key: Key)
    | Ensured(key: Key, writable: bool)

  /** A user may have many operations open, each under a number; `answers` is what each user was told, in
      order. */
  datatype System = System(
    rows: map<Key, Row>,
    pending: map<(User, nat), Pending>,
    answers: map<User, seq<Answer>>)

  const EMPTY := System(map[], map[], map[])

  /** `Create` is under an id that the database draws, `Ensure` under one that the caller names. The last two
      are steps of the system itself, which is not confined to one user. */
  datatype Step =
    | Create(user: User, key: Key, channel: string, data: string)
    | Ensure(user: User, id: nat, channel: string)
    | Fetch(user: User, key: Key)
    | List(user: User, table: Table)
    | Check(user: User, task: nat, key: Key, call: Call)
    | Act(user: User, task: nat)
    | SystemWrite(key: Key, data: string)
    | SystemDelete(key: Key)

  predicate IsOwnedBy(rows: map<Key, Row>, key: Key, user: User) {
    key in rows && rows[key].owner == user
  }

  function OwnedBy(rows: map<Key, Row>, table: Table, user: User): map<Key, Row> {
    map key | key in rows && key.table == table && rows[key].owner == user :: rows[key]
  }

  function Told(sys: System, user: User): seq<Answer> {
    if user in sys.answers then sys.answers[user] else []
  }

  function Tell(sys: System, user: User, answer: Answer): System {
    sys.(answers := sys.answers[user := Told(sys, user) + [answer]])
  }

  function Refusal(key: Key, call: Call): Answer {
    if call.Reason? then Absent(key) else NotFound(key)
  }

  function Overwritten(rows: map<Key, Row>, key: Key, data: string): map<Key, Row> {
    if key in rows then rows[key := rows[key].(data := data)] else rows
  }

  /** The second half of an operation: the call names the row only by its id. */
  function Called(sys: System, user: User, key: Key, call: Call): System {
    if key !in sys.rows then Tell(sys, user, Gone(key))
    else
      match call
      case Write(data) => Tell(sys.(rows := Overwritten(sys.rows, key, data)), user, Done(key))
      case Delete => Tell(sys.(rows := sys.rows - {key}), user, Done(key))
      case _ => Tell(sys, user, Shown(key, sys.rows[key]))
  }

  function Added(sys: System, key: Key, row: Row): System { sys.(rows := sys.rows[key := row]) }

  function Take(sys: System, step: Step): System {
    match step
    case Create(user, key, channel, data) =>
      if key in sys.rows then Tell(sys, user, Taken(key))
          else Tell(Added(sys, key, Row(user, channel, data)), user, Done(key))
    case Ensure(user, id, channel) =>
      var key := Key(Conversations, id);
      if key in sys.rows then
        Tell(sys, user, Ensured(key, sys.rows[key].owner == user && sys.rows[key].channel == channel))
      else Tell(Added(sys, key, Row(user, channel, "")), user, Ensured(key, true))
    case Fetch(user, key) =>
      Tell(sys, user, if IsOwnedBy(sys.rows, key, user) then Shown(key, sys.rows[key]) else Absent(key))
    case List(user, table) => Tell(sys, user, Listed(OwnedBy(sys.rows, table, user)))
    case Check(user, task, key, call) =>
      if (user, task) in sys.pending then sys
      else if IsOwnedBy(sys.rows, key, user) then sys.(pending := sys.pending[(user, task) := Pending(key, call)])
      else Tell(sys, user, Refusal(key, call))
    case Act(user, task) =>
      if (user, task) !in sys.pending then sys
      else
        var p := sys.pending[(user, task)];
        Called(sys.(pending := sys.pending - {(user, task)}), user, p.key, p.call)
    case SystemWrite(key, data) => sys.(rows := Overwritten(sys.rows, key, data))
    case SystemDelete(key) => sys.(rows := sys.rows - {key})
  }

  function Run(steps: seq<Step>): System {
    if steps == [] then EMPTY else Take(Run(steps[..|steps| - 1]), steps[|steps| - 1])
  }

  // ---------------------------------------------------------------- the operations

  /** The database that all scopes share. Between a scope's `Check` and its `Act` other scopes may call anything. */
  class Database {
    var rows: map<Key, Row>
    var pending: map<(User, nat), Pending>
    var answers: map<User, seq<Answer>>

    function Contents(): System
      reads this
    {
      System(rows, pending, answers)
    }

    method Say(user: User, answer: Answer)
      modifies this`answers
      ensures Contents() == Tell(old(Contents()), user, answer)
    {
      answers := answers[user := (if user in answers then answers[user] else []) + [answer]];
    }

    method Get(user: User, key: Key)
      modifies this`answers
      ensures Contents() == Take(old(Contents()), Fetch(user, key))
    {
      if key in rows && rows[key].owner == user {
        Say(user, Shown(key, rows[key]));
      } else {
        Say(user, Absent(key));
      }
    }

    method Add(user: User, key: Key, channel: string, data: string)
      modifies this`rows, this`answers
      ensures Contents() == Take(old(Contents()), Create(user, key, channel, data))
    {
      if key in rows {
        Say(user, Taken(key));
      } else {
        rows := rows[key := Row(user, channel, data)];
        Say(user, Done(key));
      }
    }

    /** Inserts the row, or refreshes it for the same owner and channel, and tells whether either was done. */
    method EnsureConversation(user: User, id: nat, channel: string)
      modifies this`rows, this`answers
      ensures Contents() == Take(old(Contents()), Ensure(user, id, channel))
    {
      var key := Key(Conversations, id);
      if key !in rows {
        rows := rows[key := Row(user, channel, "")];
        Say(user, Ensured(key, true));
      } else if rows[key].owner == user && rows[key].channel == channel {
        Say(user, Ensured(key, true));
      } else {
        Say(user, Ensured(key, false));
      }
    }

    method ListOwned(user: User, table: Table)
      modifies this`answers
      ensures Contents() == Take(old(Contents()), List(user, table))
    {
      Say(user, Listed(OwnedBy(rows, table, user)));
    }

    method VerifyOwnership(user: User, task: nat, key: Key, call: Call)
      modifies this`pending, this`answers
      ensures Contents() == Take(old(Contents()), Check(user, task, key, call))
    {
      if (user, task) in pending { return; }
      if key in rows && rows[key].owner == user {
        pending := pending[(user, task) := Pending(key, call)];
      } else if call.Reason? {
        Say(user, Absent(key));
      } else {
        Say(user, NotFound(key));
      }
    }

    method Perform(user: User, task: nat)
      modifies this`rows, this`pending, this`answers
      ensures Contents() == Take(old(Contents()), Act(user, task))
    {
      if (user, task) !in pending { return; }
      var p := pending[(user, task)];
      pending := pending - {(user, task)};
      if p.key !in rows {
        Say(user, Gone(p.key));
        return;
      }
      var row := rows[p.key];
      match p.call {
        case Write(data) =>
          rows := rows[p.key := row.(data := data)];
          Say(user, Done(p.key));
        case Delete =>
          rows := rows - {p.key};
          Say(user, Done(p.key));
        case _ =>
          Say(user, Shown(p.key, row));
      }
    }
  }

  // ---------------------------------------------------------------- isolation

  /** The id that a step makes a row under, if there is none. */
  function Claimed(step: Step): Option<Key> {
    match step
    case Create(_, key, _, _) => Some(key)
    case Ensure(_, id, _) => Some(Key(Conversations, id))
    case _ => None
  }

  /** A check that passed still stands. */
  ghost predicate Sound(sys: System) {
    forall t | t in sys.pending :: sys.pending[t].key in sys.rows ==> sys.rows[sys.pending[t].key].owner == t.0
  }

  /** The step gives the user an id under which another user has an operation open. */
  ghost predicate HandsOver(sys: System, step: Step) {
    && Claimed(step).Some? && Claimed(step).value !in sys.rows
    && exists t :: t in sys.pending && t.0 != step.user && sys.pending[t].key == Claimed(step).value
  }

  ghost predicate NoHandover(steps: seq<Step>) {
    steps == [] ||
      var front := steps[..|steps| - 1];
      NoHandover(front) && !HandsOver(Run(front), steps[|steps| - 1])
  }

  predicate Concerns(answer: Answer, user: User) {
    match answer
    case Shown(_, row) => row.owner == user
    case Listed(rows) => forall k | k in rows :: rows[k].owner == user
    case _ => true
  }

  /** Every row any user was shown is that user's. */
  ghost predicate Isolated(sys: System) {
    forall u, i | u in sys.answers && 0 <= i < |sys.answers[u]| :: Concerns(sys.answers[u][i], u)
  }

  lemma TellingOwnIsIsolated(sys: System, user: User, answer: Answer)
    requires Isolated(sys) && Concerns(answer, user)
    ensures Isolated(Tell(sys, user, answer))
  {
  }

  lemma ClaimIsSound(sys: System, step: Step)
    requires Sound(sys) && Claimed(step).Some?
    ensures Sound(Take(sys, step)) <==> !HandsOver(sys, step)
  {
    var key := Claimed(step).value;
    if HandsOver(sys, step) {
      var t :| t in sys.pending && t.0 != step.user && sys.pending[t].key == key;
      assert t in Take(sys, step).pending;
    }
  }

  /** A step keeps the passed checks exactly when it hands no id over. */
  lemma StepIsSound(sys: System, step: Step)
    requires Sound(sys)
    ensures Sound(Take(sys, step)) <==> !HandsOver(sys, step)
  {
    if Claimed(step).Some? { ClaimIsSound(sys, step); }
  }

  lemma StepIsIsolated(sys: System, step: Step)
    requires Sound(sys) && Isolated(sys)
    ensures Isolated(Take(sys, step))
  {
    if Take(sys, step).answers != sys.answers {
      var answer := AnswerIsOwn(sys, step);
      TellingOwnIsIsolated(sys, step.user, answer);
      SameAnswersAreIsolated(Tell(sys, step.user, answer), Take(sys, step));
    } else {
      SameAnswersAreIsolated(sys, Take(sys, step));
    }
  }

  lemma SameAnswersAreIsolated(a: System, b: System)
    requires Isolated(a) && a.answers == b.answers
    ensures Isolated(b)
  {
  }

  lemma AnswerIsOwn(sys: System, step: Step) returns (answer: Answer)
    requires Sound(sys) && Take(sys, step).answers != sys.answers
    ensures !IsSystem(step) && Concerns(answer, step.user)
    ensures Take(sys, step).answers == Tell(sys, step.user, answer).answers
  {
    var told := Told(Take(sys, step), step.user);
    answer := told[|told| - 1];
    if step.Act? { CallIsOwn(sys, step.user, step.task); }
  }

  lemma CallIsOwn(sys: System, user: User, task: nat)
    requires Sound(sys) && (user, task) in sys.pending
    ensures var key := sys.pending[(user, task)].key; key in sys.rows ==> sys.rows[key].owner == user
  {
  }

  /** In every interleaving of the operations of all users and of the system, in which no id is handed over. */
  lemma {:induction false} RunsAreIsolated(steps: seq<Step>)
    requires NoHandover(steps)
    ensures Sound(Run(steps)) && Isolated(Run(steps))
  {
    if steps != [] {
      var front, last := steps[..|steps| - 1], steps[|steps| - 1];
      RunsAreIsolated(front);
      StepIsSound(Run(front), last);
      StepIsIsolated(Run(front), last);
    }
  }

  predicate IsSystem(step: Step) {
    step.SystemWrite? || step.SystemDelete?
  }

  lemma StepLeavesOthersRows(sys: System, step: Step, key: Key)
    requires Sound(sys) && !IsSystem(step) && key in sys.rows && sys.rows[key].owner != step.user
    ensures key in Take(sys, step).rows && Take(sys, step).rows[key] == sys.rows[key]
  {
  }

  /** In every such run, a user's step leaves the rows of every other user as they are. */
  lemma OthersRowsUnchanged(steps: seq<Step>, step: Step, key: Key)
    requires NoHandover(steps) && !IsSystem(step)
    requires var rows := Run(steps).rows; key in rows && rows[key].owner != step.user
    ensures var rows := Run(steps + [step]).rows; key in rows && rows[key] == Run(steps).rows[key]
  {
    RunsAreIsolated(steps);
    RunSnoc(steps, step);
    StepLeavesOthersRows(Run(steps), step, key);
  }

  lemma RunSnoc(steps: seq<Step>, step: Step)
    ensures Run(steps + [step]) == Take(Run(steps), step)
  {
    assert (steps + [step])[..|steps|] == steps;
  }

  /** And once an id is handed over, the open operation goes through on the new owner's row. */
  lemma HandoverGoesThrough(sys: System, step: Step, t: (User, nat))
    requires Claimed(step).Some? && Claimed(step).value !in sys.rows
    requires t in sys.pending && t.0 != step.user && sys.pending[t].key == Claimed(step).value
    ensures var key, call, after := Claimed(step).value, sys.pending[t].call, Take(Take(sys, step), Act(t.0, t.1));
            match call
            case Write(data) => IsOwnedBy(after.rows, key, step.user) && after.rows[key].data == data
            case Delete => key !in after.rows
            case _ => !Isolated(after)
  {
    var key, call, mid := Claimed(step).value, sys.pending[t].call, Take(sys, step);
    assert IsOwnedBy(mid.rows, key, step.user) && mid.pending == sys.pending && (t.0, t.1) == t;
    if call.Read? || call.Reason? {
      var told := Told(Take(mid, Act(t.0, t.1)), t.0);
      assert told[|told| - 1] == Shown(key, mid.rows[key]);
    }
  }

  // ---------------------------------------------------------------- non-interference

  ghost predicate SameRows(a: map<Key, Row>, b: map<Key, Row>, user: User) {
    forall k :: (IsOwnedBy(a, k, user) <==> IsOwnedBy(b, k, user)) && (IsOwnedBy(a, k, user) ==> a[k] == b[k])
  }

  ghost predicate SamePending(a: map<(User, nat), Pending>, b: map<(User, nat), Pending>, user: User) {
    forall t: nat ::
      ((user, t) in a <==> (user, t) in b) && ((user, t) in a ==> a[(user, t)] == b[(user, t)])
  }

  /** The same rows of the user, the same open operations, the same answers. */
  ghost predicate SameFor(a: System, b: System, user: User) {
    SameRows(a.rows, b.rows, user) && SamePending(a.pending, b.pending, user) && Told(a, user) == Told(b, user)
  }

  lemma RowsStaySame(a: map<Key, Row>, b: map<Key, Row>, user: User, key: Key, row: Row, data: string)
    requires SameRows(a, b, user)
    ensures SameRows(a - {key}, b - {key}, user)
    ensures SameRows(Overwritten(a, key, data), Overwritten(b, key, data), user)
    ensures SameRows(a[key := row], b[key := row], user)
  {
    assert IsOwnedBy(a, key, user) <==> IsOwnedBy(b, key, user);
  }

  lemma OwnRowsAreListed(a: map<Key, Row>, b: map<Key, Row>, table: Table, user: User)
    requires SameRows(a, b, user)
    ensures OwnedBy(a, table, user) == OwnedBy(b, table, user)
  {
    forall k ensures k in OwnedBy(a, table, user) <==> k in OwnedBy(b, table, user) {
      assert IsOwnedBy(a, k, user) <==> IsOwnedBy(b, k, user);
    }
    forall k | k in OwnedBy(a, table, user) ensures OwnedBy(a, table, user)[k] == OwnedBy(b, table, user)[k] {
      assert IsOwnedBy(a, k, user);
    }
  }

  lemma SameForIsTransitive(a: System, b: System, c: System, user: User)
    requires SameFor(a, b, user) && SameFor(b, c, user)
    ensures SameFor(a, c, user)
  {
    forall k ensures (IsOwnedBy(a.rows, k, user) <==> IsOwnedBy(c.rows, k, user))
        && (IsOwnedBy(a.rows, k, user) ==> a.rows[k] == c.rows[k]) {
      assert IsOwnedBy(a.rows, k, user) <==> IsOwnedBy(b.rows, k, user);
    }
  }

  /** What another user does to the rows of their own, or under an id not in use. */
  lemma OthersRowsDoNotShow(rows: map<Key, Row>, key: Key, row: Row, data: string, user: User)
    requires !IsOwnedBy(rows, key, user)
    ensures row.owner != user ==> SameRows(rows[key := row], rows, user)
    ensures SameRows(rows - {key}, rows, user)
    ensures SameRows(Overwritten(rows, key, data), rows, user)
  {
  }

  lemma OthersCallIsInvisible(sys: System, other: User, key: Key, call: Call, user: User)
    requires other != user && !IsOwnedBy(sys.rows, key, user)
    ensures SameFor(Called(sys, other, key, call), sys, user)
  {
    OthersRowsDoNotShow(sys.rows, key, Row(other, "", ""), if call.Write? then call.data else "", user);
  }

  /** Another user's step is not visible to this one. */
  lemma OthersStepIsInvisible(sys: System, step: Step, user: User)
    requires Sound(sys) && !IsSystem(step) && step.user != user
    ensures SameFor(Take(sys, step), sys, user)
  {
    if Claimed(step).Some? {
      OthersClaimIsInvisible(sys, step, user);
    } else if step.Act? && (step.user, step.task) in sys.pending {
      var p := sys.pending[(step.user, step.task)];
      var rest := sys.(pending := sys.pending - {(step.user, step.task)});
      OthersCallIsInvisible(rest, step.user, p.key, p.call, user);
      SameForIsTransitive(Take(sys, step), rest, sys, user);
    }
  }

  lemma OthersClaimIsInvisible(sys: System, step: Step, user: User)
    requires Claimed(step).Some? && step.user != user
    ensures SameFor(Take(sys, step), sys, user)
  {
    var key := Claimed(step).value;
    if key !in sys.rows {
      var row := Row(step.user, step.channel, if step.Create? then step.data else "");
      OthersRowsDoNotShow(sys.rows, key, row, "", user);
    }
  }

  /** A call on a row of the user's own does the same in both. */
  lemma OwnCallIsTheSame(a: System, b: System, user: User, key: Key, call: Call)
    requires SameFor(a, b, user)
    requires key in a.rows ==> a.rows[key].owner == user
    requires key in b.rows ==> b.rows[key].owner == user
    ensures SameFor(Called(a, user, key, call), Called(b, user, key, call), user)
  {
    assert IsOwnedBy(a.rows, key, user) <==> IsOwnedBy(b.rows, key, user);
    RowsStaySame(a.rows, b.rows, user, key, Row(user, "", ""), if call.Write? then call.data else "");
  }

  lemma OwnActIsTheSame(a: System, b: System, user: User, task: nat)
    requires Sound(a) && OnlyOwn(b, user) && SameFor(a, b, user)
    ensures SameFor(Take(a, Act(user, task)), Take(b, Act(user, task)), user)
  {
    assert (user, task) in a.pending <==> (user, task) in b.pending;
    if (user, task) in a.pending {
      var p := a.pending[(user, task)];
      OwnCallIsTheSame(
        a.(pending := a.pending - {(user, task)}), b.(pending := b.pending - {(user, task)}), user, p.key, p.call);
    }
  }

  /** Nothing is in the system but the user's. */
  ghost predicate OnlyOwn(sys: System, user: User) {
    && (forall k | k in sys.rows :: sys.rows[k].owner == user)
    && (forall t | t in sys.pending :: t.0 == user)
  }

  lemma OwnStepKeepsOnlyOwn(sys: System, step: Step, user: User)
    requires OnlyOwn(sys, user) && (IsSystem(step) || step.user == user)
    ensures OnlyOwn(Take(sys, step), user)
  {
  }

  /** The user claims an id that another user's row has. */
  predicate Collides(sys: System, step: Step, user: User) {
    Claimed(step).Some? && step.user == user && Claimed(step).value in sys.rows
        && sys.rows[Claimed(step).value].owner != user
  }

  lemma OwnClaimIsTheSame(a: System, b: System, step: Step, user: User)
    requires OnlyOwn(b, user) && SameFor(a, b, user) && Claimed(step).Some? && step.user == user
        && !Collides(a, step, user)
    ensures SameFor(Take(a, step), Take(b, step), user)
  {
    var key := Claimed(step).value;
    assert IsOwnedBy(a.rows, key, user) <==> IsOwnedBy(b.rows, key, user);
    assert key in a.rows <==> key in b.rows;
    RowsStaySame(a.rows, b.rows, user, key, Row(user, step.channel, if step.Create? then step.data else ""), "");
  }

  lemma OwnStepIsTheSame(a: System, b: System, step: Step, user: User)
    requires Sound(a) && OnlyOwn(b, user) && SameFor(a, b, user)
    requires (IsSystem(step) || step.user == user) && !Collides(a, step, user)
    ensures SameFor(Take(a, step), Take(b, step), user)
  {
    match step
    case Create(_, _, _, _) => OwnClaimIsTheSame(a, b, step, user);
    case Ensure(_, _, _) => OwnClaimIsTheSame(a, b, step, user);
    case Act(_, task) => OwnActIsTheSame(a, b, user, task);
    case _ => OwnQueryIsTheSame(a, b, step, user);
  }

  lemma OwnQueryIsTheSame(a: System, b: System, step: Step, user: User)
    requires SameFor(a, b, user) && (IsSystem(step) || step.user == user) && Claimed(step).None? && !step.Act?
    ensures SameFor(Take(a, step), Take(b, step), user)
  {
    match step
    case Fetch(_, key) => assert IsOwnedBy(a.rows, key, user) <==> IsOwnedBy(b.rows, key, user);
    case List(_, table) => OwnRowsAreListed(a.rows, b.rows, table, user);
    case Check(_, task, key, _) =>
      assert IsOwnedBy(a.rows, key, user) <==> IsOwnedBy(b.rows, key, user);
      assert (user, task) in a.pending <==> (user, task) in b.pending;
    case SystemWrite(key, data) => RowsStaySame(a.rows, b.rows, user, key, Row(user, "", data), data);
    case SystemDelete(key) => RowsStaySame(a.rows, b.rows, user, key, Row(user, "", ""), "");
  }

  /** The user was told different things, as the answer of number `n`. */
  ghost predicate DifferAt(a: System, b: System, user: User, n: nat) {
    n < |Told(a, user)| && n < |Told(b, user)| && Told(a, user)[n] != Told(b, user)[n]
  }

  lemma CollisionShows(a: System, b: System, step: Step, user: User)
    requires OnlyOwn(b, user) && SameFor(a, b, user) && Collides(a, step, user)
    ensures DifferAt(Take(a, step), Take(b, step), user, |Told(a, user)|)
  {
    var key := Claimed(step).value;
    assert IsOwnedBy(a.rows, key, user) <==> IsOwnedBy(b.rows, key, user);
    assert key !in b.rows;
  }

  lemma AnswersGrow(sys: System, step: Step, user: User)
    ensures Told(sys, user) <= Told(Take(sys, step), user)
  {
  }

  lemma DifferenceStays(a: System, b: System, step: Step, user: User, n: nat)
    requires DifferAt(a, b, user, n)
    ensures DifferAt(Take(a, step), Take(b, step), user, n) && DifferAt(Take(a, step), b, user, n)
  {
    AnswersGrow(a, step, user);
    AnswersGrow(b, step, user);
  }

  /** The run without the other users. */
  function Purged(steps: seq<Step>, user: User): seq<Step> {
    if steps == [] then []
    else
      var last := steps[|steps| - 1];
      Purged(steps[..|steps| - 1], user) + if IsSystem(last) || last.user == user then [last] else []
  }

  /** The user claims an id that another user's row has at the time. */
  predicate EverCollides(steps: seq<Step>, user: User) {
    steps != [] &&
      var front := steps[..|steps| - 1];
      EverCollides(front, user) || Collides(Run(front), steps[|steps| - 1], user)
  }

  lemma PurgedRun(front: seq<Step>, last: Step, user: User)
    ensures var before := Run(Purged(front, user));
            Run(Purged(front + [last], user)) == if IsSystem(last) || last.user == user then Take(before, last)
                else before
  {
    assert (front + [last])[..|front|] == front;
    if IsSystem(last) || last.user == user {
      RunSnoc(Purged(front, user), last);
    } else {
      assert Purged(front, user) + [] == Purged(front, user);
    }
  }

  /** The two runs are alike for the user, or told them different things. */
  ghost predicate Compared(a: System, b: System, user: User, collided: bool) {
    && OnlyOwn(b, user)
    && (if collided then exists n :: DifferAt(a, b, user, n) else SameFor(a, b, user))
  }

  /** One more step, on the states before it. */
  lemma Unwind(a: System, b: System, last: Step, user: User, collided: bool)
    requires Sound(a) && Compared(a, b, user, collided)
    ensures Compared(Take(a, last), if IsSystem(last) || last.user == user then Take(b, last) else b, user,
                     collided || Collides(a, last, user))
  {
    if IsSystem(last) || last.user == user { OwnStepKeepsOnlyOwn(b, last, user); }
    if collided {
      var n :| DifferAt(a, b, user, n);
      DifferenceStays(a, b, last, user, n);
    } else if Collides(a, last, user) {
      CollisionShows(a, b, last, user);
    } else if IsSystem(last) || last.user == user {
      OwnStepIsTheSame(a, b, last, user);
    } else {
      OthersStepIsInvisible(a, last, user);
      SameForIsTransitive(Take(a, last), a, b, user);
    }
  }

  lemma {:induction false} RunsCompare(steps: seq<Step>, user: User)
    requires NoHandover(steps)
    ensures Compared(Run(steps), Run(Purged(steps, user)), user, EverCollides(steps, user))
  {
    if steps != [] {
      var front, last := steps[..|steps| - 1], steps[|steps| - 1];
      assert steps == front + [last];
      RunsCompare(front, user);
      RunsAreIsolated(front);
      Unwind(Run(front), Run(Purged(front, user)), last, user, EverCollides(front, user));
      RunSnoc(front, last);
      PurgedRun(front, last, user);
    }
  }

  /** In every run in which no id is handed over: what a user holds and is told is what it would be had no
      other user taken a step, exactly when the user never claims an id that another user's row has. */
  lemma NonInterference(steps: seq<Step>, user: User)
    requires NoHandover(steps)
    ensures SameFor(Run(steps), Run(Purged(steps, user)), user) <==> !EverCollides(steps, user)
  {
    RunsCompare(steps, user);
  }

  // ---------------------------------------------------------------- runs in which it fails

  /** Naming another user's conversation tells that the id is in use. */
  lemma EnsureShowsOthers(alice: User, bob: User, id: nat)
    requires alice != bob
    ensures var steps := [Create(bob, Key(Conversations, id), "web", ""), Ensure(alice, id, "web")];
            !SameFor(Run(steps), Run(Purged(steps, alice)), alice)
  {
    var first := Create(bob, Key(Conversations, id), "web", "");
    var steps := [first, Ensure(alice, id, "web")];
    assert steps[..1] == [first] && [first][..0] == [];
    assert Run([first]) == Take(EMPTY, first);
    assert Collides(Run(steps[..1]), steps[1], alice);
    assert !HandsOver(EMPTY, first) && !HandsOver(Run([first]), steps[1]);
    NonInterference(steps, alice);
  }

  /** An operation is open on a conversation when its owner is deleted with all rows; then another user names
      the id. */
  function Handover(alice: User, bob: User, id: nat): seq<Step> {
    var key := Key(Conversations, id);
    [Ensure(alice, id, "web"), Check(alice, 0, key, Read), SystemDelete(key), Ensure(bob, id, "web")]
  }

  lemma HandedOver(alice: User, bob: User, id: nat)
    requires alice != bob
    ensures var sys, key := Run(Handover(alice, bob, id)[..3]), Key(Conversations, id);
            key !in sys.rows && (alice, 0) in sys.pending && sys.pending[(alice, 0)] == Pending(key, Read)
  {
    var steps, key := Handover(alice, bob, id), Key(Conversations, id);
    assert steps[..3][..2] == steps[..2] && steps[..2][..1] == steps[..1] && steps[..1][..0] == [];
    var s1 := Take(EMPTY, steps[0]);
    assert Run(steps[..1]) == s1;
    assert IsOwnedBy(s1.rows, key, alice) && s1.pending == map[];
    var s2 := Run(steps[..2]);
    assert s2 == Take(s1, steps[1]);
    assert (alice, 0) in s2.pending && s2.pending[(alice, 0)] == Pending(key, Read);
    assert Run(steps[..3]) == Take(s2, steps[2]);
  }

  /** Then the check has passed on the old row and the call falls on the new one. */
  lemma ReuseBreaksIsolation(alice: User, bob: User, id: nat)
    requires alice != bob
    ensures !Isolated(Run(Handover(alice, bob, id) + [Act(alice, 0)]))
  {
    var steps := Handover(alice, bob, id);
    HandedOver(alice, bob, id);
    assert steps == steps[..3] + [steps[3]];
    RunSnoc(steps[..3], steps[3]);
    RunSnoc(steps, Act(alice, 0));
    HandoverGoesThrough(Run(steps[..3]), steps[3], (alice, 0));
  }
}
