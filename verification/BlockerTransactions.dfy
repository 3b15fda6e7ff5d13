/**
 Blocker commands, Task commands, escalation sweeps and acknowledgements running concurrently, one
 statement at a time under READ COMMITTED. A Blocker command locks its Task and then the Blocker; a
 sweep locks only the Blockers it is about to escalate. Locks are held to the end of the transaction.
 */
module BlockerTransactions {
  import opened Prelude
  import T = TaskStates
  import B = Blockers

  type Id = nat
  type Tx = nat
  type Time = B.Time

  datatype Job =
    | TaskJob(task: Id, command: T.TaskCommand)
    | BlockerJob(blocker: Id, move: B.Command)
    | SweepJob(now: Time)
    | AckJob(alert: Id)

  /** How far a transaction has got; `rest` are the candidates a sweep has still to go through. */
  datatype Phase =
    | Begun
    | Owning
    | Loaded
    | Cleared
    | Closing
    | Picking(rest: seq<Id>)
    | Asking(rest: seq<Id>, timer: int)
    | Rechecking(rest: seq<Id>, timer: int)
    | Raising(rest: seq<Id>, timer: int)
    | Done

  /** Uncommitted work: row images, new alerts, alerts resolved (and when), alerts acknowledged. */
  datatype Txn = Txn(job: Job, phase: Phase, taskLock: Option<Id>, held: set<Id>,
                     tw: map<Id, T.TaskStatus>, bw: map<Id, B.Blocker>,
                     raised: map<Id, B.Alert>, resolves: map<Id, Time>, acks: set<Id>)

  datatype State = State(tasks: map<Id, T.TaskStatus>, blockers: map<Id, B.Blocker>, alerts: map<Id, B.Alert>,
                         open: map<Tx, Txn>)

  datatype Step =
    | CreateTask(task: Id)
    | Begin(t: Tx, job: Job)
    | LockTask(t: Tx, task: Id)
    | WriteTask(t: Tx, created: Id, now: Time)
    | LockBlocker(t: Tx)
    | ResolveAlerts(t: Tx, now: Time)
    | WriteBlocker(t: Tx, actor: Id, team: Option<Id>, assignee: Option<Id>, now: Time)
    | Settle(t: Tx)
    | SelectOpen(t: Tx, ids: seq<Id>)
    | Skip(t: Tx, timer: int)
    | Consider(t: Tx, timer: int)
    | LockCandidate(t: Tx)
    | Recheck(t: Tx)
    | Raise(t: Tx, alert: Id)
    | EndSweep(t: Tx)
    | Acknowledge(t: Tx)
    | Commit(t: Tx)
    | Rollback(t: Tx)

  // ---- the machine ------------------------------------------------------------------------------

  /** The Task a job locks first; a Blocker is read unlocked to learn it. */
  ghost predicate Locks(s: State, job: Job, k: Id) {
    || (job.TaskJob? && job.task == k && k in s.tasks)
    || (job.BlockerJob? && job.blocker in s.blockers && s.blockers[job.blocker].task == k)
  }

  ghost function BegunTxn(job: Job): Txn {
    Txn(job, Begun, None, {}, map[], map[], map[], map[], {})
  }

  ghost function Moved(move: B.Command, r: B.Blocker, actor: Id, team: Option<Id>, assignee: Option<Id>, now: Time): B.Blocker {
    match move
    case Assign => B.AssignedRow(r, team, assignee)
    case Start => B.StartedRow(r, actor, now)
    case Resolve => B.ResolvedRow(r, now)
    case Verify => B.ClosedRow(r, now)
  }

  ghost predicate Ripe(s: State, x: Txn, b: Id, timer: int) {
    x.job.SweepJob? && b in s.blockers && s.blockers[b].blockedAt + 60 * timer <= x.job.now
  }

  ghost predicate Marked(s: State, x: Txn, b: Id) {
    B.HasUnresolved(s.alerts, b) || B.HasUnresolved(x.raised, b)
  }

  ghost predicate Init(s: State) {
    s == State(map[], map[], map[], map[])
  }

  /** Whether a statement may run, but for the Task row's lock. */
  ghost predicate Possible(s: State, step: Step) {
    match step
    case CreateTask(k) => k !in s.tasks
    case Begin(t, job) => t !in s.open
    case LockTask(t, k) =>
      t in s.open && s.open[t].phase == Begun && Locks(s, s.open[t].job, k)
    case WriteTask(t, created, now) =>
      && t in s.open && s.open[t].phase == Owning && s.open[t].job.TaskJob? && s.open[t].job.task in s.tasks
      && T.Legal(s.open[t].job.command, s.tasks[s.open[t].job.task])
      && (s.open[t].job.command == T.Block ==>
            created !in s.blockers && forall u :: u in s.open ==> created !in s.open[u].bw)
    case LockBlocker(t) =>
      && t in s.open && s.open[t].phase == Owning && s.open[t].job.BlockerJob? && s.open[t].job.blocker in s.blockers
      && forall u :: u in s.open && u != t ==> s.open[t].job.blocker !in s.open[u].held
    case ResolveAlerts(t, now) =>
      && t in s.open && s.open[t].phase == Loaded && s.open[t].job.BlockerJob? && s.open[t].job.move == B.Assign
      && s.open[t].job.blocker in s.blockers && s.blockers[s.open[t].job.blocker].status == B.Open
    case WriteBlocker(t, actor, team, assignee, now) =>
      && t in s.open && s.open[t].job.BlockerJob? && s.open[t].job.blocker in s.blockers
      && B.Legal(s.open[t].job.move, s.blockers[s.open[t].job.blocker].status)
      && s.open[t].phase == if s.blockers[s.open[t].job.blocker].status == B.Open then Cleared else Loaded
    case Settle(t) => t in s.open && s.open[t].phase == Closing
    case SelectOpen(t, ids) =>
      && t in s.open && s.open[t].phase == Begun && s.open[t].job.SweepJob? && T.Ascending(ids)
      && forall b :: b in ids ==> b in s.blockers && s.blockers[b].status == B.Open
    case Skip(t, timer) =>
      && t in s.open && s.open[t].phase.Picking? && s.open[t].phase.rest != []
      && (!Ripe(s, s.open[t], s.open[t].phase.rest[0], timer) || Marked(s, s.open[t], s.open[t].phase.rest[0]))
    case Consider(t, timer) =>
      && t in s.open && s.open[t].phase.Picking? && s.open[t].phase.rest != []
      && Ripe(s, s.open[t], s.open[t].phase.rest[0], timer) && !Marked(s, s.open[t], s.open[t].phase.rest[0])
    case LockCandidate(t) =>
      && t in s.open && s.open[t].phase.Asking? && s.open[t].phase.rest != [] && s.open[t].phase.rest[0] in s.blockers
      && forall u :: u in s.open && u != t ==> s.open[t].phase.rest[0] !in s.open[u].held
    case Recheck(t) => t in s.open && s.open[t].phase.Rechecking? && s.open[t].phase.rest != []
    case Raise(t, alert) =>
      && t in s.open && s.open[t].phase.Raising? && s.open[t].phase.rest != [] && s.open[t].job.SweepJob?
      && alert !in s.alerts && forall u :: u in s.open ==> alert !in s.open[u].raised
    case EndSweep(t) => t in s.open && s.open[t].phase == Picking([])
    case Acknowledge(t) =>
      && t in s.open && s.open[t].phase == Begun && s.open[t].job.AckJob?
      && s.open[t].job.alert in s.alerts && !s.alerts[s.open[t].job.alert].acknowledged
    case Commit(t) => t in s.open && s.open[t].phase == Done
    case Rollback(t) => t in s.open
  }

  ghost predicate TaskFree(s: State, t: Tx, k: Id) {
    forall u :: u in s.open && u != t ==> s.open[u].taskLock != Some(k)
  }

  /** Whether a statement may run. `guard` is false only to show what the Task row's lock is for. */
  ghost predicate Enabled(guard: bool, s: State, step: Step) {
    Possible(s, step) && (guard && step.LockTask? ==> TaskFree(s, step.t, step.task))
  }

  ghost function Put(s: State, t: Tx, x: Txn): State {
    s.(open := s.open[t := x])
  }

  ghost function Touched(r: B.Alert, a: Id, x: Txn): B.Alert {
    r.(resolvedAt := if a in x.resolves && r.resolvedAt == None then Some(x.resolves[a]) else r.resolvedAt,
       acknowledged := r.acknowledged || a in x.acks)
  }

  /** The alerts once x has committed. */
  ghost function Merged(alerts: map<Id, B.Alert>, x: Txn): map<Id, B.Alert> {
    map a | a in alerts.Keys + x.raised.Keys :: Touched(if a in x.raised then x.raised[a] else alerts[a], a, x)
  }

  /** The statements that change nothing but their transaction's own record. */
  ghost predicate Own(step: Step) {
    !step.CreateTask? && !step.Commit? && !step.Rollback?
  }

  /** The record of a transaction after a statement of its own. */
  ghost function After(s: State, step: Step): Txn
    requires Own(step) && Possible(s, step)
  {
    match step
    case Begin(t, job) => BegunTxn(job)
    case LockTask(t, k) => s.open[t].(phase := Owning, taskLock := Some(k))
    case WriteTask(t, created, now) =>
      var x := s.open[t];
      x.(phase := Done, tw := map[x.job.task := T.Target(x.job.command)],
         bw := if x.job.command == T.Block then map[created := B.NewBlocker(x.job.task, now)] else map[])
    case LockBlocker(t) => s.open[t].(phase := Loaded, held := {s.open[t].job.blocker})
    case ResolveAlerts(t, now) =>
      var b := s.open[t].job.blocker;
      s.open[t].(phase := Cleared,
                 resolves := map a | a in s.alerts && s.alerts[a].blocker == b && s.alerts[a].resolvedAt == None :: now)
    case WriteBlocker(t, _, _, _, _) => WrittenTxn(s, s.open[t], step)
    case Settle(t) => Settled(s, s.open[t])
    case SelectOpen(t, ids) => s.open[t].(phase := Picking(ids))
    case Skip(t, timer) => Next1(s.open[t])
    case Consider(t, timer) => s.open[t].(phase := Asking(s.open[t].phase.rest, timer))
    case LockCandidate(t) =>
      var x := s.open[t];
      var y := x.(held := x.held + {x.phase.rest[0]});
      if s.blockers[x.phase.rest[0]].status == B.Open then y.(phase := Rechecking(x.phase.rest, x.phase.timer)) else Next1(y)
    case Recheck(t) =>
      var x := s.open[t];
      if Marked(s, x, x.phase.rest[0]) then Next1(x) else x.(phase := Raising(x.phase.rest, x.phase.timer))
    case Raise(t, alert) =>
      var x := s.open[t];
      Next1(x.(raised := x.raised[alert := B.Alert(x.phase.rest[0], x.job.now, x.phase.timer, false, None)]))
    case EndSweep(t) => s.open[t].(phase := Done)
    case Acknowledge(t) => s.open[t].(phase := Done, acks := {s.open[t].job.alert})
  }

  ghost function Committed(s: State, t: Tx): State
    requires t in s.open
  {
    State(s.tasks + s.open[t].tw, s.blockers + s.open[t].bw, Merged(s.alerts, s.open[t]), s.open - {t})
  }

  ghost function Apply(s: State, step: Step): State
    requires Possible(s, step)
  {
    match step
    case CreateTask(k) => s.(tasks := s.tasks[k := T.NotStarted])
    case Commit(t) => Committed(s, t)
    case Rollback(t) => s.(open := s.open - {t})
    case _ => Put(s, step.t, After(s, step))
  }

  /** The sweep goes on to its next candidate. */
  ghost function Next1(x: Txn): Txn
    requires x.phase.Picking? || x.phase.Asking? || x.phase.Rechecking? || x.phase.Raising?
    requires x.phase.rest != []
  {
    x.(phase := Picking(x.phase.rest[1..]))
  }

  /** After closing: the Task resumes if it is BLOCKED and the transaction sees no active Blocker left. */
  ghost function Settled(s: State, x: Txn): Txn {
    if x.taskLock.Some? && x.taskLock.value in s.tasks && s.tasks[x.taskLock.value] == T.Blocked
       && !B.SomeActive(s.blockers + x.bw, x.taskLock.value)
    then x.(phase := Done, tw := map[x.taskLock.value := T.InProgress])
    else x.(phase := Done)
  }

  // ---- invariant --------------------------------------------------------------------------------

  /** Only the locked Task is written, and Blockers only under their Task's lock. */
  ghost predicate TaskPart(tasks: map<Id, T.TaskStatus>, blockers: map<Id, B.Blocker>, x: Txn) {
    && (x.taskLock.Some? ==> x.taskLock.value in tasks)
    && (x.taskLock.Some? && x.job.TaskJob? ==> x.taskLock.value == x.job.task)
    && (x.taskLock.Some? && x.job.BlockerJob? ==>
          x.job.blocker in blockers && blockers[x.job.blocker].task == x.taskLock.value)
    && (x.phase.Owning? || x.phase.Loaded? || x.phase.Cleared? || x.phase.Closing? ==> x.taskLock.Some?)
    && (x.taskLock == None ==> x.tw == map[] && x.bw == map[])
    && (x.job.SweepJob? || x.job.AckJob? ==> x.taskLock == None)
    && (x.phase.Closing? ==> x.tw == map[] && x.job.BlockerJob? && x.job.move == B.Verify)
    && (forall k :: k in x.tw ==> x.taskLock == Some(k))
  }

  ghost predicate RowPart(blockers: map<Id, B.Blocker>, x: Txn) {
    && x.held <= blockers.Keys
    && (forall b :: b in x.bw ==> Some(x.bw[b].task) == x.taskLock)
    && (x.phase.Loaded? || x.phase.Cleared? || x.phase.Closing? ==> x.job.BlockerJob? && x.job.blocker in x.held)
    && (x.phase.Loaded? || x.phase.Cleared? || x.phase.Owning? ==> x.bw == map[] && x.tw == map[])
    && (x.phase.Begun? ==> x.held == {} && x.taskLock == None)
    && (if x.job.BlockerJob? then
          forall b :: b in x.bw ==>
            && b == x.job.blocker && b in x.held && b in blockers && x.bw[b].task == blockers[b].task
            && x.bw[b].blockedAt == blockers[b].blockedAt && x.bw[b].status != B.Open
            && B.Stage(blockers[b].status) <= B.Stage(x.bw[b].status)
            && (x.bw[b].status == B.Closed ==> x.job.move == B.Verify)
        else forall b :: b in x.bw ==> x.job.TaskJob? && b !in blockers && x.bw[b].status == B.Open)
  }

  /** A new alert is for a locked, OPEN, never escalated Blocker, and not early. */
  ghost predicate RaisedOk(blockers: map<Id, B.Blocker>, alerts: map<Id, B.Alert>, x: Txn, r: B.Alert) {
    && r.blocker in x.held && B.AlertOk(r, blockers) && r.resolvedAt == None && Unescalated(alerts, r.blocker)
  }

  ghost predicate Unescalated(alerts: map<Id, B.Alert>, b: Id) {
    forall a :: a in alerts ==> alerts[a].blocker != b
  }

  /** Exactly the unresolved alerts of the Blocker have been resolved. */
  ghost predicate ResolvesAll(alerts: map<Id, B.Alert>, x: Txn)
    requires x.job.BlockerJob?
  {
    forall a :: a in alerts && alerts[a].blocker == x.job.blocker ==> (alerts[a].resolvedAt == None <==> a in x.resolves)
  }

  ghost predicate AlertPart(blockers: map<Id, B.Blocker>, alerts: map<Id, B.Alert>, x: Txn) {
    && (forall a :: a in x.raised ==> a !in alerts && x.job.SweepJob? && RaisedOk(blockers, alerts, x, x.raised[a]))
    && (forall a, c :: a in x.raised && c in x.raised && x.raised[a].blocker == x.raised[c].blocker ==> a == c)
    && (forall a :: a in x.resolves ==>
          && x.job.BlockerJob? && x.job.blocker in x.held && a in alerts && alerts[a].blocker == x.job.blocker
          && (x.phase.Cleared? || x.job.blocker in x.bw))
    && (x.phase.Begun? || x.phase.Owning? || x.phase.Loaded? ==> x.resolves == map[])
    && (x.phase.Begun? ==> x.raised == map[])
    && (x.job.BlockerJob? && (x.phase.Cleared? || x.bw != map[]) ==> ResolvesAll(alerts, x))
  }

  ghost predicate SweepPart(blockers: map<Id, B.Blocker>, alerts: map<Id, B.Alert>, x: Txn) {
    && (x.phase.Picking? || x.phase.Asking? || x.phase.Rechecking? || x.phase.Raising? ==>
          x.job.SweepJob? && forall i :: 0 <= i < |x.phase.rest| ==> x.phase.rest[i] in blockers)
    && (x.phase.Asking? || x.phase.Rechecking? || x.phase.Raising? ==>
          x.phase.rest != [] && blockers[x.phase.rest[0]].blockedAt + 60 * x.phase.timer <= x.job.now)
    && (x.phase.Rechecking? || x.phase.Raising? ==>
          x.phase.rest[0] in x.held && blockers[x.phase.rest[0]].status == B.Open)
    && (x.phase.Raising? ==> Unescalated(alerts, x.phase.rest[0]) && Unescalated(x.raised, x.phase.rest[0]))
  }

  /** A Blocker command writes its Task only to resume it, and only when no active Blocker is left. */
  ghost predicate ResumePart(blockers: map<Id, B.Blocker>, x: Txn) {
    x.job.BlockerJob? && x.tw != map[] ==>
      && x.job.move == B.Verify && x.taskLock.Some? && x.tw == map[x.taskLock.value := T.InProgress]
      && !B.SomeActive(blockers + x.bw, x.taskLock.value)
  }

  /** Once done, a transaction leaves its Task backed if it leaves it BLOCKED. */
  ghost predicate BackedPart(tasks: map<Id, T.TaskStatus>, blockers: map<Id, B.Blocker>, x: Txn) {
    x.phase == Done && x.taskLock.Some? && x.taskLock.value in tasks + x.tw && (tasks + x.tw)[x.taskLock.value] == T.Blocked
    ==> B.SomeActive(blockers + x.bw, x.taskLock.value)
  }

  ghost predicate TxnOk(s: State, x: Txn) {
    && TaskPart(s.tasks, s.blockers, x) && RowPart(s.blockers, x) && AlertPart(s.blockers, s.alerts, x)
    && SweepPart(s.blockers, s.alerts, x) && BackedPart(s.tasks, s.blockers, x)
    && ResumePart(s.blockers, x)
  }

  ghost predicate Compatible(x: Txn, y: Txn) {
    && (x.taskLock.Some? ==> x.taskLock != y.taskLock)
    && x.held !! y.held && x.bw.Keys !! y.bw.Keys && x.raised.Keys !! y.raised.Keys
  }

  ghost predicate TablesOk(tasks: map<Id, T.TaskStatus>, blockers: map<Id, B.Blocker>, alerts: map<Id, B.Alert>) {
    && (forall b :: b in blockers ==> blockers[b].task in tasks)
    && B.BlockedIsBacked(tasks, blockers) && B.AlertsOk(alerts, blockers)
  }

  ghost predicate Inv(s: State) {
    && TablesOk(s.tasks, s.blockers, s.alerts)
    && (forall t :: t in s.open ==> TxnOk(s, s.open[t]))
    && (forall t, u :: t in s.open && u in s.open && t != u ==> Compatible(s.open[t], s.open[u]))
  }

  // ---- a transaction's own statements -----------------------------------------------------------

  /** A transaction's record is judged by the tables alone. */
  lemma SameTables(s: State, s': State, x: Txn)
    requires TxnOk(s, x) && s'.tasks == s.tasks && s'.blockers == s.blockers && s'.alerts == s.alerts
    ensures TxnOk(s', x)
  {
  }

  /** A step that changes only t's own record keeps the invariant if t's record stays right. */
  lemma PutKeepsInv(s: State, t: Tx, x: Txn, s': State)
    requires Inv(s) && TxnOk(s, x) && s' == Put(s, t, x)
    requires forall u :: u in s.open && u != t ==> Compatible(x, s.open[u]) && Compatible(s.open[u], x)
    ensures Inv(s')
  {
    forall u | u in s'.open
      ensures TxnOk(s', s'.open[u])
    {
      var y := if u == t then x else s.open[u];
      assert TxnOk(s, y);
      SameTables(s, s', y);
    }
  }

  /** What a statement of t may rely on: the tables and its own record. */
  ghost predicate Ready(s: State, step: Step) {
    && Own(step) && Enabled(true, s, step) && TablesOk(s.tasks, s.blockers, s.alerts)
    && (step.t in s.open ==> TxnOk(s, s.open[step.t]))
  }

  lemma TaskStepOk(s: State, step: Step)
    requires Ready(s, step) && (step.LockTask? || step.WriteTask?)
    ensures TxnOk(s, After(s, step))
  {
    var y := After(s, step);
    if step.WriteTask? && y.job.command == T.Block {
      assert B.Active(s.blockers + y.bw, step.created, y.job.task);
    }
  }

  lemma BlockerStepOk(s: State, step: Step)
    requires Ready(s, step) && (step.LockBlocker? || step.ResolveAlerts?)
    ensures TxnOk(s, After(s, step))
  {
  }

  /** Writing a Blocker past OPEN, its alerts having been resolved. */
  lemma WrittenAlerts(s: State, x: Txn, row: B.Blocker)
    requires TxnOk(s, x) && TablesOk(s.tasks, s.blockers, s.alerts) && x.job.BlockerJob? && x.job.blocker in s.blockers
    requires x.phase == if s.blockers[x.job.blocker].status == B.Open then Cleared else Loaded
    ensures ResolvesAll(s.alerts, x.(bw := map[x.job.blocker := row]))
  {
    assert forall a :: a in s.alerts ==> B.AlertOk(s.alerts[a], s.blockers);
  }

  lemma WriteBlockerOk(s: State, step: Step)
    requires Ready(s, step) && step.WriteBlocker?
    ensures TxnOk(s, After(s, step))
  {
    var x := s.open[step.t];
    var y := WrittenTxn(s, x, step);
    WrittenRowsOk(s, x, step);
    WrittenAlerts(s, x, y.bw[x.job.blocker]);
    WrittenIsBacked(s, x, y, x.job.blocker);
    assert AlertPart(s.blockers, s.alerts, y);
  }

  ghost function WrittenTxn(s: State, x: Txn, step: Step): Txn
    requires step.WriteBlocker? && x.job.BlockerJob? && x.job.blocker in s.blockers
  {
    x.(phase := if x.job.move == B.Verify then Closing else Done,
       bw := map[x.job.blocker := Moved(x.job.move, s.blockers[x.job.blocker], step.actor, step.team, step.assignee, step.now)])
  }

  lemma WrittenRowsOk(s: State, x: Txn, step: Step)
    requires step.WriteBlocker? && x.job.BlockerJob? && x.job.blocker in s.blockers && TxnOk(s, x)
    requires B.Legal(x.job.move, s.blockers[x.job.blocker].status) && (x.phase == Loaded || x.phase == Cleared)
    ensures var y := WrittenTxn(s, x, step);
            TaskPart(s.tasks, s.blockers, y) && RowPart(s.blockers, y) && SweepPart(s.blockers, s.alerts, y) && ResumePart(s.blockers, y)
  {
  }

  lemma WrittenIsBacked(s: State, x: Txn, y: Txn, b: Id)
    requires TablesOk(s.tasks, s.blockers, s.alerts) && b in s.blockers && y.tw == map[] && y.bw.Keys == {b}
    requires y.bw[b].task == s.blockers[b].task && (y.phase == Done ==> y.bw[b].status != B.Closed)
    ensures BackedPart(s.tasks, s.blockers, y)
  {
    if y.phase == Done {
      assert s.blockers + y.bw == s.blockers[b := y.bw[b]] && s.tasks + y.tw == s.tasks;
      B.WriteKeepsBacked(s.tasks, s.blockers, b, y.bw[b]);
    }
  }

  lemma SettledTaskOk(s: State, x: Txn)
    requires TxnOk(s, x) && x.phase == Closing
    ensures var y := Settled(s, x);
            TaskPart(s.tasks, s.blockers, y) && ResumePart(s.blockers, y) && BackedPart(s.tasks, s.blockers, y)
  {
    assert s.tasks + x.tw == s.tasks;
  }

  lemma SettledRowsOk(s: State, x: Txn)
    requires TxnOk(s, x) && x.phase == Closing
    ensures var y := Settled(s, x);
            RowPart(s.blockers, y) && AlertPart(s.blockers, s.alerts, y) && SweepPart(s.blockers, s.alerts, y)
  {
  }

  lemma SettleOk(s: State, step: Step)
    requires Ready(s, step) && step.Settle?
    ensures TxnOk(s, After(s, step))
  {
    SettledTaskOk(s, s.open[step.t]);
    SettledRowsOk(s, s.open[step.t]);
  }

  ghost predicate Sweeping(p: Phase) {
    p.Picking? || p.Asking? || p.Rechecking? || p.Raising? || p.Done?
  }

  /** A sweep going on to another phase, with no lock given up, has only its own part to keep. */
  lemma SweepMove(s: State, x: Txn, y: Txn)
    requires TxnOk(s, x) && x.job.SweepJob? && Sweeping(y.phase) && y == x.(phase := y.phase, held := y.held)
    requires x.held <= y.held <= s.blockers.Keys && SweepPart(s.blockers, s.alerts, y)
    ensures TxnOk(s, y)
  {
  }

  lemma SelectOk(s: State, step: Step)
    requires Ready(s, step) && step.SelectOpen?
    ensures TxnOk(s, After(s, step))
  {
    SweepMove(s, s.open[step.t], After(s, step));
  }

  lemma PickOk(s: State, step: Step)
    requires Ready(s, step) && (step.Skip? || step.Consider?)
    ensures TxnOk(s, After(s, step))
  {
    SweepMove(s, s.open[step.t], After(s, step));
  }

  lemma EndOk(s: State, step: Step)
    requires Ready(s, step) && step.EndSweep?
    ensures TxnOk(s, After(s, step))
  {
    SweepMove(s, s.open[step.t], After(s, step));
  }

  lemma LockCandidateOk(s: State, step: Step)
    requires Ready(s, step) && step.LockCandidate?
    ensures TxnOk(s, After(s, step))
  {
    SweepMove(s, s.open[step.t], After(s, step));
  }

  lemma RecheckOk(s: State, step: Step)
    requires Ready(s, step) && step.Recheck?
    ensures TxnOk(s, After(s, step))
  {
    var x := s.open[step.t];
    if !Marked(s, x, x.phase.rest[0]) {
      B.UnmarkedMeansNeverEscalated(s.alerts, s.blockers, x.phase.rest[0]);
    }
    SweepMove(s, x, After(s, step));
  }

  /** The new alert beside the sweep's earlier ones. */
  lemma RaisedAlerts(s: State, step: Step)
    requires Ready(s, step) && step.Raise?
    ensures AlertPart(s.blockers, s.alerts, After(s, step))
  {
  }

  lemma RaiseOk(s: State, step: Step)
    requires Ready(s, step) && step.Raise?
    ensures TxnOk(s, After(s, step))
  {
    RaisedAlerts(s, step);
  }

  lemma BeginOrAckOk(s: State, step: Step)
    requires Ready(s, step) && (step.Begin? || step.Acknowledge?)
    ensures TxnOk(s, After(s, step))
  {
  }

  ghost predicate OfSweep(step: Step) {
    step.SelectOpen? || step.Skip? || step.Consider? || step.LockCandidate? || step.Recheck? || step.Raise? || step.EndSweep?
  }

  lemma SweepStepOk(s: State, step: Step)
    requires Ready(s, step) && OfSweep(step)
    ensures TxnOk(s, After(s, step))
  {
    if step.SelectOpen? {
      SelectOk(s, step);
    } else if step.LockCandidate? {
      LockCandidateOk(s, step);
    } else if step.Recheck? {
      RecheckOk(s, step);
    } else if step.Raise? {
      RaiseOk(s, step);
    } else if step.EndSweep? {
      EndOk(s, step);
    } else {
      PickOk(s, step);
    }
  }

  lemma OwnStepOk(s: State, step: Step)
    requires Ready(s, step)
    ensures TxnOk(s, After(s, step))
  {
    if OfSweep(step) {
      SweepStepOk(s, step);
    } else if step.Begin? || step.Acknowledge? {
      BeginOrAckOk(s, step);
    } else if step.LockTask? || step.WriteTask? {
      TaskStepOk(s, step);
    } else if step.WriteBlocker? {
      WriteBlockerOk(s, step);
    } else if step.Settle? {
      SettleOk(s, step);
    } else {
      BlockerStepOk(s, step);
    }
  }

  /** Statements that take a lock or hand out a fresh id. */
  lemma ClaimsAreCompatible(s: State, step: Step, u: Tx)
    requires Own(step) && Enabled(true, s, step) && u in s.open && u != step.t && step.t in s.open
    requires step.LockTask? || step.LockBlocker? || step.LockCandidate? || step.Raise?
    requires Compatible(s.open[step.t], s.open[u])
    ensures Compatible(After(s, step), s.open[u])
  {
  }

  lemma BlockerWritesAreCompatible(s: State, step: Step, u: Tx)
    requires Own(step) && Enabled(true, s, step) && u in s.open && u != step.t && step.t in s.open
    requires step.WriteTask? || step.WriteBlocker?
    requires Compatible(s.open[step.t], s.open[u]) && RowPart(s.blockers, s.open[step.t]) && RowPart(s.blockers, s.open[u])
    ensures Compatible(After(s, step), s.open[u])
  {
  }

  lemma OwnStepCompatible(s: State, step: Step, u: Tx)
    requires Own(step) && Enabled(true, s, step) && u in s.open && u != step.t
    requires step.t in s.open ==>
               && Compatible(s.open[step.t], s.open[u]) && RowPart(s.blockers, s.open[step.t]) && RowPart(s.blockers, s.open[u])
    ensures Compatible(After(s, step), s.open[u])
  {
    if step.LockTask? || step.LockBlocker? || step.LockCandidate? || step.Raise? {
      ClaimsAreCompatible(s, step, u);
    } else if step.WriteTask? || step.WriteBlocker? {
      BlockerWritesAreCompatible(s, step, u);
    }
  }

  lemma CompatibleBothWays(x: Txn, y: Txn)
    requires Compatible(x, y)
    ensures Compatible(y, x)
  {
  }

  // ---- commit -----------------------------------------------------------------------------------

  lemma MergedAt(alerts: map<Id, B.Alert>, x: Txn, a: Id)
    requires a in alerts || a in x.raised
    ensures a in Merged(alerts, x)
            && Merged(alerts, x)[a] == Touched(if a in x.raised then x.raised[a] else alerts[a], a, x)
  {
  }

  /** A commit leaves the Blockers another transaction has locked, and their alerts, as they were. */
  lemma CommitMissesHeld(s: State, x: Txn, y: Txn, b: Id)
    requires TxnOk(s, x) && TxnOk(s, y) && Compatible(x, y) && b in y.held
    ensures b in s.blockers && (s.blockers + x.bw)[b] == s.blockers[b]
    ensures forall a :: a in Merged(s.alerts, x) && Merged(s.alerts, x)[a].blocker == b ==>
              a in s.alerts && s.alerts[a].blocker == b && Merged(s.alerts, x)[a].resolvedAt == s.alerts[a].resolvedAt
  {
  }

  lemma CommitKeepsTaskPart(s: State, x: Txn, y: Txn)
    requires TxnOk(s, x) && TxnOk(s, y) && Compatible(x, y)
    ensures TaskPart(s.tasks + x.tw, s.blockers + x.bw, y) && RowPart(s.blockers + x.bw, y)
  {
  }

  lemma CommitKeepsRaised(s: State, x: Txn, y: Txn, a: Id)
    requires TxnOk(s, x) && TxnOk(s, y) && Compatible(x, y) && a in y.raised
    ensures a !in Merged(s.alerts, x) && RaisedOk(s.blockers + x.bw, Merged(s.alerts, x), y, y.raised[a])
  {
    CommitMissesHeld(s, x, y, y.raised[a].blocker);
  }

  lemma CommitKeepsResolves(s: State, x: Txn, y: Txn)
    requires TxnOk(s, x) && TxnOk(s, y) && Compatible(x, y) && y.job.BlockerJob? && y.job.blocker in y.held
    ensures ResolvesAll(s.alerts, y) ==> ResolvesAll(Merged(s.alerts, x), y)
    ensures forall a :: a in y.resolves ==>
              a in Merged(s.alerts, x) && Merged(s.alerts, x)[a].blocker == y.job.blocker
  {
    CommitMissesHeld(s, x, y, y.job.blocker);
    forall a | a in y.resolves
      ensures a in Merged(s.alerts, x) && Merged(s.alerts, x)[a].blocker == y.job.blocker
    {
      MergedAt(s.alerts, x, a);
    }
  }

  lemma CommitKeepsAlertPart(s: State, x: Txn, y: Txn)
    requires TxnOk(s, x) && TxnOk(s, y) && Compatible(x, y)
    ensures AlertPart(s.blockers + x.bw, Merged(s.alerts, x), y)
  {
    forall a | a in y.raised
      ensures a !in Merged(s.alerts, x) && RaisedOk(s.blockers + x.bw, Merged(s.alerts, x), y, y.raised[a])
    {
      CommitKeepsRaised(s, x, y, a);
    }
    if y.job.BlockerJob? && y.job.blocker in y.held {
      CommitKeepsResolves(s, x, y);
    }
  }

  lemma CommitKeepsSweepPart(s: State, x: Txn, y: Txn)
    requires Inv(s) && TxnOk(s, x) && TxnOk(s, y) && Compatible(x, y)
    ensures SweepPart(s.blockers + x.bw, Merged(s.alerts, x), y)
  {
    if y.phase.Rechecking? || y.phase.Raising? {
      CommitMissesHeld(s, x, y, y.phase.rest[0]);
    }
  }

  lemma CommitKeepsBackedPart(s: State, x: Txn, y: Txn)
    requires Inv(s) && TxnOk(s, x) && TxnOk(s, y) && Compatible(x, y) && Compatible(y, x)
    ensures BackedPart(s.tasks + x.tw, s.blockers + x.bw, y)
  {
    if y.phase == Done && y.taskLock.Some? {
      var k := y.taskLock.value;
      if B.SomeActive(s.blockers + y.bw, k) {
        var b :| b in s.blockers + y.bw && B.Active(s.blockers + y.bw, b, k);
        assert b !in x.bw;
        assert B.Active((s.blockers + x.bw) + y.bw, b, k);
      }
      assert k !in x.tw;
    }
  }

  lemma CommitKeepsResumePart(s: State, x: Txn, y: Txn)
    requires TxnOk(s, x) && TxnOk(s, y) && Compatible(x, y) && Compatible(y, x)
    ensures ResumePart(s.blockers + x.bw, y)
  {
    if y.taskLock.Some? {
      var k := y.taskLock.value;
      if b :| b in (s.blockers + x.bw) + y.bw && B.Active((s.blockers + x.bw) + y.bw, b, k) {
        assert B.Active(s.blockers + y.bw, b, k);
      }
    }
  }

  /** What commits leaves every BLOCKED Task with an active Blocker. */
  lemma CommitKeepsBacked(s: State, x: Txn)
    requires TablesOk(s.tasks, s.blockers, s.alerts) && TxnOk(s, x) && x.phase == Done
    ensures B.BlockedIsBacked(s.tasks + x.tw, s.blockers + x.bw)
  {
    forall k | k in s.tasks + x.tw && (s.tasks + x.tw)[k] == T.Blocked
      ensures B.SomeActive(s.blockers + x.bw, k)
    {
      if x.taskLock != Some(k) {
        var b :| b in s.blockers && B.Active(s.blockers, b, k);
        assert B.Active(s.blockers + x.bw, b, k);
      }
    }
  }

  lemma CommitKeepsAlert(s: State, x: Txn, a: Id)
    requires TablesOk(s.tasks, s.blockers, s.alerts) && TxnOk(s, x) && x.phase == Done
    requires a in s.alerts || a in x.raised
    ensures B.AlertOk(Merged(s.alerts, x)[a], s.blockers + x.bw)
  {
    MergedAt(s.alerts, x, a);
    if a in x.raised {
      assert RaisedOk(s.blockers, s.alerts, x, x.raised[a]);
    } else {
      assert B.AlertOk(s.alerts[a], s.blockers);
    }
  }

  lemma CommitKeepsTables(s: State, x: Txn)
    requires TablesOk(s.tasks, s.blockers, s.alerts) && TxnOk(s, x) && x.phase == Done
    ensures TablesOk(s.tasks + x.tw, s.blockers + x.bw, Merged(s.alerts, x))
  {
    CommitKeepsBacked(s, x);
    var after := Merged(s.alerts, x);
    forall a | a in after
      ensures B.AlertOk(after[a], s.blockers + x.bw)
    {
      CommitKeepsAlert(s, x, a);
    }
    forall a, c | a in after && c in after && after[a].blocker == after[c].blocker
      ensures a == c
    {
      MergedAt(s.alerts, x, a);
      MergedAt(s.alerts, x, c);
    }
  }

  lemma CommitKeepsTxn(s: State, t: Tx, u: Tx)
    requires Inv(s) && t in s.open && u in s.open && u != t
    ensures TxnOk(Committed(s, t), s.open[u])
  {
    var x, y := s.open[t], s.open[u];
    assert TxnOk(s, x) && TxnOk(s, y) && Compatible(x, y) && Compatible(y, x);
    CommitKeepsTaskPart(s, x, y);
    CommitKeepsAlertPart(s, x, y);
    CommitKeepsSweepPart(s, x, y);
    CommitKeepsBackedPart(s, x, y);
    CommitKeepsResumePart(s, x, y);
  }

  lemma CommitKeepsInv(s: State, t: Tx)
    requires Inv(s) && t in s.open && s.open[t].phase == Done
    ensures Inv(Committed(s, t))
  {
    assert TxnOk(s, s.open[t]);
    CommitKeepsTables(s, s.open[t]);
    forall u | u in s.open && u != t
      ensures TxnOk(Committed(s, t), s.open[u])
    {
      CommitKeepsTxn(s, t, u);
    }
  }

  lemma NewTaskKeepsInv(s: State, k: Id)
    requires Inv(s) && Enabled(true, s, CreateTask(k))
    ensures Inv(Apply(s, CreateTask(k)))
  {
    forall t | t in s.open
      ensures TxnOk(Apply(s, CreateTask(k)), s.open[t])
    {
      assert TxnOk(s, s.open[t]);
    }
  }

  lemma OwnStepKeepsInv(s: State, step: Step)
    requires Inv(s) && Own(step) && Enabled(true, s, step)
    ensures Inv(Put(s, step.t, After(s, step)))
  {
    OwnStepOk(s, step);
    forall u | u in s.open && u != step.t
      ensures Compatible(After(s, step), s.open[u]) && Compatible(s.open[u], After(s, step))
    {
      OwnStepCompatible(s, step, u);
      CompatibleBothWays(After(s, step), s.open[u]);
    }
    PutKeepsInv(s, step.t, After(s, step), Put(s, step.t, After(s, step)));
  }

  lemma StepKeepsInv(s: State, step: Step, s': State)
    requires Inv(s) && Next(true, s, step, s')
    ensures Inv(s')
  {
    if Own(step) {
      OwnStepKeepsInv(s, step);
    } else if step.CreateTask? {
      NewTaskKeepsInv(s, step.task);
    } else if step.Commit? {
      CommitKeepsInv(s, step.t);
    }
  }

  // ---- whole runs -------------------------------------------------------------------------------

  ghost predicate Next(guard: bool, s: State, step: Step, s': State) {
    Enabled(guard, s, step) && s' == Apply(s, step)
  }

  ghost predicate Run(guard: bool, states: seq<State>, steps: seq<Step>) {
    && |states| == |steps| + 1 && Init(states[0])
    && forall i, j :: 0 <= i < |steps| && j == i + 1 ==> Next(guard, states[i], steps[i], states[j])
  }

  lemma {:induction false} RunKeepsInv(states: seq<State>, steps: seq<Step>, i: nat)
    requires Run(true, states, steps) && i < |states|
    ensures Inv(states[i])
  {
    if i > 0 {
      RunKeepsInv(states, steps, i - 1);
      assert Next(true, states[i - 1], steps[i - 1], states[i]);
      StepKeepsInv(states[i - 1], steps[i - 1], states[i]);
    }
  }

  /** In every committed state of every interleaving, a BLOCKED Task has a Blocker that is not CLOSED. */
  lemma BlockedMeansBacked(states: seq<State>, steps: seq<Step>, i: nat, k: Id)
    requires Run(true, states, steps) && i < |states|
    requires k in states[i].tasks && states[i].tasks[k] == T.Blocked
    ensures B.SomeActive(states[i].blockers, k)
  {
    RunKeepsInv(states, steps, i);
  }

  /** An escalation alert is never early, it is unresolved exactly while its Blocker is OPEN, and it is the only one. */
  lemma EscalatedOnceAndDue(states: seq<State>, steps: seq<Step>, i: nat, a: Id)
    requires Run(true, states, steps) && i < |states| && a in states[i].alerts
    ensures var r, blockers := states[i].alerts[a], states[i].blockers;
            && r.blocker in blockers
            && blockers[r.blocker].blockedAt + 60 * r.timer <= r.raisedAt
            && (r.resolvedAt == None <==> blockers[r.blocker].status == B.Open)
            && forall c :: c in states[i].alerts && states[i].alerts[c].blocker == r.blocker ==> c == a
  {
    RunKeepsInv(states, steps, i);
    assert B.AlertOk(states[i].alerts[a], states[i].blockers);
  }

  /** One step: Blockers and alerts are never lost, Blockers only move forward, alerts stay resolved. */
  ghost predicate Forward(s: State, s': State) {
    && (forall b :: b in s.blockers ==> BlockerForward(s, s', b))
    && (forall a :: a in s.alerts ==> AlertForward(s, s', a))
  }

  ghost predicate BlockerForward(s: State, s': State, b: Id)
    requires b in s.blockers
  {
    && b in s'.blockers && s'.blockers[b].task == s.blockers[b].task && s'.blockers[b].blockedAt == s.blockers[b].blockedAt
    && B.Stage(s.blockers[b].status) <= B.Stage(s'.blockers[b].status)
  }

  ghost predicate AlertForward(s: State, s': State, a: Id)
    requires a in s.alerts
  {
    && a in s'.alerts && s'.alerts[a].blocker == s.alerts[a].blocker && s'.alerts[a].raisedAt == s.alerts[a].raisedAt
    && s'.alerts[a].timer == s.alerts[a].timer
    && (s.alerts[a].resolvedAt.Some? ==> s'.alerts[a].resolvedAt == s.alerts[a].resolvedAt)
    && (s.alerts[a].acknowledged ==> s'.alerts[a].acknowledged)
  }

  lemma OnlyCommitsChangeRows(s: State, step: Step)
    requires Enabled(true, s, step) && !step.Commit?
    ensures Apply(s, step).blockers == s.blockers && Apply(s, step).alerts == s.alerts
  {
  }

  lemma StepForward(s: State, step: Step, s': State)
    requires Inv(s) && Next(true, s, step, s')
    ensures Forward(s, s')
  {
    if step.Commit? {
      assert TxnOk(s, s.open[step.t]);
      CommitForward(s, step.t);
    } else {
      OnlyCommitsChangeRows(s, step);
      SameRowsForward(s, s');
    }
  }

  lemma SameRowsForward(s: State, s': State)
    requires s'.blockers == s.blockers && s'.alerts == s.alerts
    ensures Forward(s, s')
  {
  }

  lemma CommitForward(s: State, t: Tx)
    requires t in s.open && TxnOk(s, s.open[t]) && s.open[t].phase == Done
    ensures Forward(s, Committed(s, t))
  {
    var x, s' := s.open[t], Committed(s, t);
    forall a | a in s.alerts
      ensures AlertForward(s, s', a)
    {
      MergedAt(s.alerts, x, a);
    }
    forall b | b in s.blockers
      ensures BlockerForward(s, s', b)
    {
    }
  }

  lemma StepForwardAt(states: seq<State>, steps: seq<Step>, i: nat)
    requires Run(true, states, steps) && i + 1 < |states|
    ensures Forward(states[i], states[i + 1])
  {
    RunKeepsInv(states, steps, i);
    assert Next(true, states[i], steps[i], states[i + 1]);
    StepForward(states[i], steps[i], states[i + 1]);
  }

  /** OPEN is never re-entered, and no Blocker, alert or resolution is ever undone. */
  lemma {:induction false} OnlyForward(states: seq<State>, steps: seq<Step>, i: nat, j: nat)
    requires Run(true, states, steps) && i <= j < |states|
    ensures Forward(states[i], states[j])
    decreases j
  {
    if i < j {
      OnlyForward(states, steps, i, j - 1);
      StepForwardAt(states, steps, j - 1);
    }
  }

  /** Over its whole life a Blocker is escalated at most once, whatever sweeps overlap. */
  lemma OneEscalationInALife(states: seq<State>, steps: seq<Step>, i: nat, j: nat, a: Id, c: Id)
    requires Run(true, states, steps) && i <= j < |states|
    requires a in states[i].alerts && c in states[j].alerts && states[i].alerts[a].blocker == states[j].alerts[c].blocker
    ensures a == c && states[j].alerts[c].raisedAt == states[i].alerts[a].raisedAt
  {
    OnlyForward(states, steps, i, j);
    assert AlertForward(states[i], states[j], a);
    EscalatedOnceAndDue(states, steps, j, a);
  }

  lemma ActiveAfterCommit(s: State, x: Txn, k: Id)
    requires TablesOk(s.tasks, s.blockers, s.alerts) && TxnOk(s, x) && x.phase == Done
    requires k in s.tasks && s.tasks[k] == T.Blocked && !B.SomeActive(s.blockers + x.bw, k)
    ensures x.job.BlockerJob? && x.job.move == B.Verify && x.taskLock == Some(k) && (s.tasks + x.tw)[k] == T.InProgress
  {
    CommitKeepsBacked(s, x);
    var b :| b in s.blockers && B.Active(s.blockers, b, k);
    assert b in x.bw || B.Active(s.blockers + x.bw, b, k);
  }

  lemma CommitResumes(s: State, t: Tx, k: Id)
    requires Inv(s) && t in s.open && s.open[t].phase == Done && k in s.tasks && s.tasks[k] == T.Blocked
    ensures var x := s.open[t];
            var resumed, backed := (s.tasks + x.tw)[k] == T.InProgress, B.SomeActive(s.blockers + x.bw, k);
            var byVerify := x.job.BlockerJob? && x.job.move == B.Verify;
            && (!backed ==> byVerify && resumed)
            && (byVerify && (s.tasks + x.tw)[k] != T.Blocked ==> resumed && !backed)
            && ((s.tasks + x.tw)[k] != T.Blocked && !byVerify ==> x.job.TaskJob?)
  {
    var x := s.open[t];
    assert TxnOk(s, x);
    if !B.SomeActive(s.blockers + x.bw, k) {
      ActiveAfterCommit(s, x, k);
    }
  }

  lemma OnlyCommitsChangeTasks(s: State, step: Step, k: Id)
    requires Enabled(true, s, step) && !step.Commit? && k in s.tasks
    ensures k in Apply(s, step).tasks && Apply(s, step).tasks[k] == s.tasks[k]
  {
  }

  /** A BLOCKED Task resumes by itself in exactly the verify that closes its last active Blocker. */
  lemma LastVerifyResumes(states: seq<State>, steps: seq<Step>, i: nat, k: Id)
    requires Run(true, states, steps) && i < |steps|
    requires k in states[i].tasks && states[i].tasks[k] == T.Blocked
    ensures k in states[i + 1].tasks
    ensures var s, s', step := states[i], states[i + 1], steps[i];
            var byVerify := step.Commit? && step.t in s.open && s.open[step.t].job.BlockerJob? && s.open[step.t].job.move == B.Verify;
            && (!B.SomeActive(s'.blockers, k) ==> byVerify && s'.tasks[k] == T.InProgress)
            && (byVerify && s'.tasks[k] != T.Blocked ==> s'.tasks[k] == T.InProgress && !B.SomeActive(s'.blockers, k))
            && (s'.tasks[k] != T.Blocked && !byVerify ==> step.Commit? && s.open[step.t].job.TaskJob?)
  {
    RunKeepsInv(states, steps, i);
    var s, step := states[i], steps[i];
    assert Next(true, s, step, states[i + 1]);
    if step.Commit? {
      CommitResumes(s, step.t, k);
    } else {
      BlockedMeansBacked(states, steps, i, k);
      OnlyCommitsChangeRows(s, step);
      OnlyCommitsChangeTasks(s, step, k);
    }
  }

  // ---- deadlock freedom -------------------------------------------------------------------------

  /** Blockers are locked in ascending order by a sweep, and after its Task by a command. */
  ghost predicate OrderOk(x: Txn) {
    && (x.phase == Begun ==> x.taskLock == None && x.held == {})
    && (x.phase == Owning ==> x.held == {})
    && (x.taskLock.Some? ==> !x.job.SweepJob?)
    && (x.phase.Picking? || x.phase.Asking? || x.phase.Rechecking? || x.phase.Raising? ==>
          && x.job.SweepJob? && T.Ascending(x.phase.rest)
          && forall h, i :: h in x.held && 0 <= i < |x.phase.rest| ==>
               h < x.phase.rest[i] || (i == 0 && h == x.phase.rest[0] && (x.phase.Rechecking? || x.phase.Raising?)))
  }

  lemma NextKeepsOrder(x: Txn)
    requires x.phase.Picking? || x.phase.Asking? || x.phase.Rechecking? || x.phase.Raising?
    requires OrderOk(x) && x.phase.rest != []
    ensures OrderOk(Next1(x)) && OrderOk(Next1(x.(held := x.held + {x.phase.rest[0]})))
  {
  }

  lemma SweepKeepsOrder(s: State, step: Step)
    requires step.Skip? || step.LockCandidate? || step.Recheck? || step.Raise?
    requires Enabled(true, s, step) && OrderOk(s.open[step.t])
    ensures OrderOk(After(s, step))
  {
    var x := s.open[step.t];
    NextKeepsOrder(x);
    if step.Raise? {
      NextKeepsOrder(x.(raised := x.raised[step.alert := B.Alert(x.phase.rest[0], x.job.now, x.phase.timer, false, None)]));
    }
  }

  lemma OwnKeepsOrder(s: State, step: Step)
    requires Own(step) && Enabled(true, s, step) && (step.t in s.open ==> OrderOk(s.open[step.t]))
    ensures OrderOk(After(s, step))
  {
    if step.Skip? || step.LockCandidate? || step.Recheck? || step.Raise? {
      SweepKeepsOrder(s, step);
    }
  }

  ghost predicate AllInOrder(s: State) {
    forall t :: t in s.open ==> OrderOk(s.open[t])
  }

  lemma OwnKeepsAllInOrder(s: State, step: Step)
    requires AllInOrder(s) && Own(step) && Enabled(true, s, step)
    ensures AllInOrder(Put(s, step.t, After(s, step)))
  {
    OwnKeepsOrder(s, step);
  }

  lemma StepKeepsOrder(s: State, step: Step)
    requires AllInOrder(s) && Enabled(true, s, step)
    ensures AllInOrder(Apply(s, step))
  {
    if Own(step) {
      OwnKeepsAllInOrder(s, step);
    }
  }

  lemma {:induction false} RunKeepsOrder(states: seq<State>, steps: seq<Step>, i: nat)
    requires Run(true, states, steps) && i < |states|
    ensures AllInOrder(states[i])
  {
    if i > 0 {
      RunKeepsOrder(states, steps, i - 1);
      assert Next(true, states[i - 1], steps[i - 1], states[i]);
      StepKeepsOrder(states[i - 1], steps[i - 1]);
    }
  }

  /** t's next lock is held by u: a Task's, or a Blocker's. */
  ghost predicate WaitsFor(s: State, t: Tx, u: Tx) {
    && t in s.open && u in s.open && t != u
    && var x, y := s.open[t], s.open[u];
       || (x.phase == Begun && y.taskLock.Some? && Locks(s, x.job, y.taskLock.value))
       || (x.phase == Owning && x.job.BlockerJob? && x.job.blocker in y.held)
       || (x.phase.Asking? && x.phase.rest != [] && x.phase.rest[0] in y.held)
  }

  /** A lock statement that cannot run waits for somebody: these are all the waits there are. */
  lemma BlockedMeansWaiting(s: State, t: Tx, step: Step)
    requires t in s.open && !Enabled(true, s, step)
    requires match step
             case LockTask(a, k) => a == t && s.open[t].phase == Begun && Locks(s, s.open[t].job, k)
             case LockBlocker(a) => a == t && s.open[t].phase == Owning && s.open[t].job.BlockerJob?
                                    && s.open[t].job.blocker in s.blockers
             case LockCandidate(a) => a == t && s.open[t].phase.Asking? && s.open[t].phase.rest != []
                                      && s.open[t].phase.rest[0] in s.blockers
             case _ => false
    ensures exists u :: WaitsFor(s, t, u)
  {
    match step
    case LockTask(_, k) =>
      var u :| u in s.open && u != t && s.open[u].taskLock == Some(k);
      assert WaitsFor(s, t, u);
    case LockBlocker(_) =>
      var u :| u in s.open && u != t && s.open[t].job.blocker in s.open[u].held;
      assert WaitsFor(s, t, u);
    case LockCandidate(_) =>
      var u :| u in s.open && u != t && s.open[t].phase.rest[0] in s.open[u].held;
      assert WaitsFor(s, t, u);
  }

  /** How far along the lock order the awaited lock is. */
  ghost function Rank(x: Txn): nat {
    if x.phase.Asking? && x.phase.rest != [] then x.phase.rest[0] + 1
    else if x.phase == Owning && x.job.BlockerJob? then x.job.blocker + 1
    else 0
  }

  lemma WaitingClimbs(s: State, t: Tx, u: Tx, v: Tx)
    requires AllInOrder(s) && WaitsFor(s, t, u) && WaitsFor(s, u, v)
    ensures Rank(s.open[t]) < Rank(s.open[u])
  {
    assert OrderOk(s.open[t]) && OrderOk(s.open[u]);
  }

  ghost predicate WaitCycle(s: State, c: seq<Tx>) {
    && |c| > 0 && WaitsFor(s, c[|c| - 1], c[0])
    && forall i, j :: 0 <= i && j == i + 1 && j < |c| ==> WaitsFor(s, c[i], c[j])
  }

  lemma {:induction false} RanksClimb(s: State, c: seq<Tx>, i: nat)
    requires AllInOrder(s) && WaitCycle(s, c) && i < |c|
    ensures c[0] in s.open && c[i] in s.open && (if i > 0 then Rank(s.open[c[0]]) < Rank(s.open[c[i]]) else true)
  {
    if i > 0 {
      RanksClimb(s, c, i - 1);
      assert WaitsFor(s, c[i - 1], c[i]);
      if i < |c| - 1 {
        assert WaitsFor(s, c[i], c[i + 1]);
      }
      WaitingClimbs(s, c[i - 1], c[i], if i < |c| - 1 then c[i + 1] else c[0]);
    }
  }

  /** Sweeps, Blocker commands and Task commands never reach a set of transactions waiting on each other's locks. */
  lemma NoDeadlock(states: seq<State>, steps: seq<Step>, i: nat, c: seq<Tx>)
    requires Run(true, states, steps) && i < |states|
    ensures !WaitCycle(states[i], c)
  {
    RunKeepsOrder(states, steps, i);
    var s := states[i];
    if WaitCycle(s, c) {
      RanksClimb(s, c, |c| - 1);
      if |c| > 1 {
        assert WaitsFor(s, c[0], c[1]);
        WaitingClimbs(s, c[|c| - 1], c[0], c[1]);
      }
    }
  }

  // ---- a transaction with no other beside it ----------------------------------------------------

  ghost predicate By(t: Tx, states: seq<State>, steps: seq<Step>, i: nat)
    requires |states| == |steps| + 1 && i < |steps|
  {
    !steps[i].CreateTask? && steps[i].t == t && Enabled(true, states[i], steps[i]) && states[i + 1] == Apply(states[i], steps[i])
  }

  ghost predicate Path(t: Tx, states: seq<State>, steps: seq<Step>) {
    |states| == |steps| + 1 && forall i: nat :: i < |steps| ==> By(t, states, steps, i)
  }

  /** Some statements of one transaction, one after another, lead from the one state to the other. */
  ghost predicate Leads(t: Tx, s: State, s': State) {
    exists states: seq<State>, steps: seq<Step> :: Path(t, states, steps) && states[0] == s && states[|steps|] == s'
  }

  lemma LeadsNowhere(t: Tx, s: State)
    ensures Leads(t, s, s)
  {
    var none: seq<Step> := [];
    assert Path(t, [s], none);
  }

  lemma LeadsOn(t: Tx, s: State, step: Step, s': State)
    requires Enabled(true, s, step) && !step.CreateTask? && step.t == t && Leads(t, Apply(s, step), s')
    ensures Leads(t, s, s')
  {
    var states: seq<State>, steps: seq<Step> :| Path(t, states, steps) && states[0] == Apply(s, step) && states[|steps|] == s';
    var states', steps' := [s] + states, [step] + steps;
    forall i: nat | i < |steps'|
      ensures By(t, states', steps', i)
    {
      assert i > 0 ==> By(t, states, steps, i - 1);
    }
    assert Path(t, states', steps');
  }

  /** One statement of the only open transaction. */
  lemma Does(s: State, t: Tx, x: Txn, step: Step, y: Txn, s': State)
    requires s.open == map[t := x] && Own(step) && step.t == t && Enabled(true, s, step) && After(s, step) == y
    requires Leads(t, s.(open := map[t := y]), s')
    ensures Leads(t, s, s')
  {
    assert map[t := x][t := y] == map[t := y];
    LeadsOn(t, s, step, s');
  }

  lemma Begins(s: State, t: Tx, job: Job, s': State)
    requires s.open == map[] && Leads(t, s.(open := map[t := BegunTxn(job)]), s')
    ensures Leads(t, s, s')
  {
    var none: map<Tx, Txn> := map[];
    assert none[t := BegunTxn(job)] == map[t := BegunTxn(job)];
    LeadsOn(t, s, Begin(t, job), s');
  }

  lemma Commits(s: State, t: Tx, x: Txn)
    requires s.open == map[t := x] && x.phase == Done
    ensures Leads(t, s, State(s.tasks + x.tw, s.blockers + x.bw, Merged(s.alerts, x), map[]))
  {
    LeadsNowhere(t, State(s.tasks + x.tw, s.blockers + x.bw, Merged(s.alerts, x), map[]));
    LeadsOn(t, s, Commit(t), State(s.tasks + x.tw, s.blockers + x.bw, Merged(s.alerts, x), map[]));
  }

  lemma MergedIs(alerts: map<Id, B.Alert>, x: Txn)
    requires x.resolves == map[] && x.acks == {}
    ensures Merged(alerts, x) == alerts + x.raised
  {
  }

  lemma LocksItsTask(s: State, t: Tx, job: Job, k: Id, s': State)
    requires s.open == map[] && Locks(s, job, k)
    requires Leads(t, s.(open := map[t := BegunTxn(job).(phase := Owning, taskLock := Some(k))]), s')
    ensures Leads(t, s, s')
  {
    var x := BegunTxn(job);
    Does(s.(open := map[t := x]), t, x, LockTask(t, k), x.(phase := Owning, taskLock := Some(k)), s');
    Begins(s, t, job, s');
  }

  // Each statement, one at a time.

  lemma WritesTask(s: State, t: Tx, x: Txn, k: Id, c: T.TaskCommand, created: Id, now: Time, s': State)
    requires s.open == map[t := x] && x.phase == Owning && x.job == TaskJob(k, c) && x.bw == map[]
    requires k in s.tasks && T.Legal(c, s.tasks[k]) && created !in s.blockers
    requires Leads(t, s.(open := map[t := x.(phase := Done, tw := map[k := T.Target(c)],
                                          bw := if c == T.Block then map[created := B.NewBlocker(k, now)] else map[])]), s')
    ensures Leads(t, s, s')
  {
    Does(s, t, x, WriteTask(t, created, now), After(s, WriteTask(t, created, now)), s');
  }

  lemma LocksItsBlocker(s: State, t: Tx, x: Txn, b: Id, move: B.Command, s': State)
    requires s.open == map[t := x] && x.phase == Owning && x.job == BlockerJob(b, move) && b in s.blockers
    requires Leads(t, s.(open := map[t := x.(phase := Loaded, held := {b})]), s')
    ensures Leads(t, s, s')
  {
    Does(s, t, x, LockBlocker(t), x.(phase := Loaded, held := {b}), s');
  }

  ghost function Clearing(alerts: map<Id, B.Alert>, b: Id, now: Time): map<Id, Time> {
    map a | a in alerts && alerts[a].blocker == b && alerts[a].resolvedAt == None :: now
  }

  lemma ResolvesAlerts(s: State, t: Tx, x: Txn, b: Id, now: Time, s': State)
    requires s.open == map[t := x] && x.phase == Loaded && x.job == BlockerJob(b, B.Assign) && b in s.blockers && s.blockers[b].status == B.Open
    requires Leads(t, s.(open := map[t := x.(phase := Cleared, resolves := Clearing(s.alerts, b, now))]), s')
    ensures Leads(t, s, s')
  {
    Does(s, t, x, ResolveAlerts(t, now), x.(phase := Cleared, resolves := Clearing(s.alerts, b, now)), s');
  }

  lemma WritesRow(s: State, t: Tx, x: Txn, b: Id, write: Step, s': State)
    requires write.WriteBlocker? && write.t == t && s.open == map[t := x] && x.job.BlockerJob? && x.job.blocker == b && b in s.blockers
    requires B.Legal(x.job.move, s.blockers[b].status) && x.phase == if s.blockers[b].status == B.Open then Cleared else Loaded
    requires Leads(t, s.(open := map[t := WrittenTxn(s, x, write)]), s')
    ensures Leads(t, s, s')
  {
    Does(s, t, x, write, WrittenTxn(s, x, write), s');
  }

  lemma SettlesTask(s: State, t: Tx, x: Txn, s': State)
    requires s.open == map[t := x] && x.phase == Closing && Leads(t, s.(open := map[t := Settled(s, x)]), s')
    ensures Leads(t, s, s')
  {
    Does(s, t, x, Settle(t), Settled(s, x), s');
  }

  lemma Considers(s: State, t: Tx, x: Txn, b: Id, ids: seq<Id>, timer: int, s': State)
    requires s.open == map[t := x] && x.job.SweepJob? && x.phase == Picking([b] + ids) && b in s.blockers
    requires s.blockers[b].blockedAt + 60 * timer <= x.job.now && !Marked(s, x, b)
    requires Leads(t, s.(open := map[t := x.(phase := Asking([b] + ids, timer))]), s')
    ensures Leads(t, s, s')
  {
    Does(s, t, x, Consider(t, timer), x.(phase := Asking([b] + ids, timer)), s');
  }

  lemma Skips(s: State, t: Tx, x: Txn, b: Id, ids: seq<Id>, timer: int, s': State)
    requires s.open == map[t := x] && x.job.SweepJob? && x.phase == Picking([b] + ids) && b in s.blockers
    requires s.blockers[b].blockedAt + 60 * timer > x.job.now || Marked(s, x, b)
    requires Leads(t, s.(open := map[t := x.(phase := Picking(ids))]), s')
    ensures Leads(t, s, s')
  {
    assert ([b] + ids)[1..] == ids;
    Does(s, t, x, Skip(t, timer), x.(phase := Picking(ids)), s');
  }

  lemma LocksCandidate(s: State, t: Tx, x: Txn, b: Id, ids: seq<Id>, timer: int, s': State)
    requires s.open == map[t := x] && x.phase == Asking([b] + ids, timer) && b in s.blockers && s.blockers[b].status == B.Open
    requires Leads(t, s.(open := map[t := x.(phase := Rechecking([b] + ids, timer), held := x.held + {b})]), s')
    ensures Leads(t, s, s')
  {
    Does(s, t, x, LockCandidate(t), x.(phase := Rechecking([b] + ids, timer), held := x.held + {b}), s');
  }

  lemma Rechecks(s: State, t: Tx, x: Txn, b: Id, ids: seq<Id>, timer: int, s': State)
    requires s.open == map[t := x] && x.phase == Rechecking([b] + ids, timer) && !Marked(s, x, b)
    requires Leads(t, s.(open := map[t := x.(phase := Raising([b] + ids, timer))]), s')
    ensures Leads(t, s, s')
  {
    Does(s, t, x, Recheck(t), x.(phase := Raising([b] + ids, timer)), s');
  }

  lemma Raises(s: State, t: Tx, x: Txn, b: Id, ids: seq<Id>, timer: int, alert: Id, s': State)
    requires s.open == map[t := x] && x.job.SweepJob? && x.phase == Raising([b] + ids, timer) && alert !in s.alerts && alert !in x.raised
    requires Leads(t, s.(open := map[t := x.(phase := Picking(ids), raised := x.raised[alert := B.Alert(b, x.job.now, timer, false, None)])]), s')
    ensures Leads(t, s, s')
  {
    assert ([b] + ids)[1..] == ids;
    Does(s, t, x, Raise(t, alert), x.(phase := Picking(ids), raised := x.raised[alert := B.Alert(b, x.job.now, timer, false, None)]), s');
  }

  lemma EndsSweep(s: State, t: Tx, x: Txn, s': State)
    requires s.open == map[t := x] && x.phase == Picking([]) && Leads(t, s.(open := map[t := x.(phase := Done)]), s')
    ensures Leads(t, s, s')
  {
    Does(s, t, x, EndSweep(t), x.(phase := Done), s');
  }

  /** A Task command alone moves its Task; blocking it adds the OPEN Blocker that backs it. */
  lemma TaskCommandAlone(s: State, t: Tx, k: Id, c: T.TaskCommand, created: Id, now: Time)
    requires s.open == map[] && k in s.tasks && T.Legal(c, s.tasks[k]) && created !in s.blockers
    ensures Leads(t, s, s.(tasks := s.tasks[k := T.Target(c)],
                               blockers := if c == T.Block then s.blockers[created := B.Blocker(k, B.Open, 1, None, None, now, None, None, None, None)]
                                           else s.blockers))
  {
    var s' := s.(tasks := s.tasks[k := T.Target(c)],
                 blockers := if c == T.Block then s.blockers[created := B.Blocker(k, B.Open, 1, None, None, now, None, None, None, None)]
                             else s.blockers);
    var x := BegunTxn(TaskJob(k, c)).(phase := Owning, taskLock := Some(k));
    var y := x.(phase := Done, tw := map[k := T.Target(c)], bw := if c == T.Block then map[created := B.NewBlocker(k, now)] else map[]);
    MergedIs(s.alerts, y);
    assert s.alerts + y.raised == s.alerts && s.tasks + y.tw == s'.tasks && s.blockers + y.bw == s'.blockers;
    Commits(s.(open := map[t := y]), t, y);
    WritesTask(s.(open := map[t := x]), t, x, k, c, created, now, s');
    LocksItsTask(s, t, TaskJob(k, c), k, s');
  }

  /** What a Blocker command makes of its Blocker. */
  ghost predicate RowMoved(move: B.Command, r: B.Blocker, r': B.Blocker, actor: Id, team: Option<Id>, assignee: Option<Id>, now: Time) {
    match move
    case Assign => r' == r.(status := B.Assigned, team := if team.Some? then team else r.team, owner := assignee, version := r.version + 1)
    case Start => r' == r.(status := B.InProgress, claimedAt := Some(now), owner := if r.owner == None then Some(actor) else r.owner, version := r.version + 1)
    case Resolve => r' == r.(status := B.Resolved, resolvedAt := Some(now), version := r.version + 1)
    case Verify => r' == r.(status := B.Closed, verifiedAt := Some(now), closedAt := Some(now), version := r.version + 2)
  }

  /** The alerts once a Blocker that was OPEN has left it. */
  ghost predicate AlertsLeft(alerts: map<Id, B.Alert>, after: map<Id, B.Alert>, b: Id, leaves: bool, now: Time) {
    after.Keys == alerts.Keys && forall a :: a in alerts ==>
      after[a] == if leaves && alerts[a].blocker == b && alerts[a].resolvedAt == None then alerts[a].(resolvedAt := Some(now)) else alerts[a]
  }

  /** Its Task once a command is done with a Blocker: the last active one, verified, takes it out of BLOCKED. */
  ghost predicate TaskAfter(s: State, tasks: map<Id, T.TaskStatus>, b: Id, k: Id, move: B.Command)
    requires k in s.tasks
  {
    tasks == if move == B.Verify && s.tasks[k] == T.Blocked
                && (forall c :: c in s.blockers && s.blockers[c].task == k && c != b ==> s.blockers[c].status == B.Closed)
             then s.tasks[k := T.InProgress] else s.tasks
  }

  lemma SettledIs(s: State, x: Txn, b: Id, k: Id, row: B.Blocker)
    requires b in s.blockers && s.blockers[b].task == k == row.task && row.status == B.Closed && k in s.tasks
    requires x.taskLock == Some(k) && x.tw == map[] && x.bw == map[b := row]
    ensures var z := Settled(s, x);
            && z == x.(phase := Done, tw := z.tw)
            && TaskAfter(s, s.tasks + z.tw, b, k, B.Verify)
  {
    B.CloseLeaves(s.blockers, b, row);
    assert s.blockers + x.bw == s.blockers[b := row];
    assert s.tasks + x.tw == s.tasks && s.tasks + map[k := T.InProgress] == s.tasks[k := T.InProgress];
  }

  /** From the Blocker row's lock on: the row, and for a verification the Task. */
  lemma WritesBlocker(s: State, t: Tx, x: Txn, b: Id, k: Id, write: Step) returns (z: Txn)
    requires write.WriteBlocker? && write.t == t && s.open == map[t := x] && x.job.BlockerJob? && x.job.blocker == b
    requires x.taskLock == Some(k) && k in s.tasks && x.tw == map[] && b in s.blockers && s.blockers[b].task == k
    requires B.Legal(x.job.move, s.blockers[b].status) && x.phase == if s.blockers[b].status == B.Open then Cleared else Loaded
    ensures z.resolves == x.resolves && z.raised == x.raised && z.acks == x.acks && z.bw.Keys == {b}
    ensures RowMoved(x.job.move, s.blockers[b], z.bw[b], write.actor, write.team, write.assignee, write.now)
    ensures TaskAfter(s, s.tasks + z.tw, b, k, x.job.move)
    ensures Leads(t, s, State(s.tasks + z.tw, s.blockers + z.bw, Merged(s.alerts, z), map[]))
  {
    var y := WrittenTxn(s, x, write);
    z := y;
    if x.job.move == B.Verify {
      SettledIs(s, y, b, k, y.bw[b]);
      z := Settled(s, y);
    } else {
      assert s.tasks + y.tw == s.tasks;
    }
    Commits(s.(open := map[t := z]), t, z);
    if x.job.move == B.Verify {
      SettlesTask(s.(open := map[t := y]), t, y, State(s.tasks + z.tw, s.blockers + z.bw, Merged(s.alerts, z), map[]));
    }
    WritesRow(s, t, x, b, write, State(s.tasks + z.tw, s.blockers + z.bw, Merged(s.alerts, z), map[]));
  }

  lemma ClearedAre(alerts: map<Id, B.Alert>, x: Txn, b: Id, leaves: bool, now: Time)
    requires x.raised == map[] && x.acks == {} && x.resolves == if leaves then Clearing(alerts, b, now) else map[]
    ensures AlertsLeft(alerts, Merged(alerts, x), b, leaves, now)
  {
  }

  /** A Blocker command with both its rows locked and the alerts of an OPEN Blocker resolved. */
  ghost function Armed(s: State, b: Id, move: B.Command, now: Time): Txn
    requires b in s.blockers
  {
    var x := BegunTxn(BlockerJob(b, move)).(phase := Loaded, taskLock := Some(s.blockers[b].task), held := {b});
    if s.blockers[b].status == B.Open then x.(phase := Cleared, resolves := Clearing(s.alerts, b, now)) else x
  }

  lemma GetsReady(s: State, t: Tx, b: Id, move: B.Command, now: Time, s': State)
    requires s.open == map[] && b in s.blockers && B.Legal(move, s.blockers[b].status)
    requires Leads(t, s.(open := map[t := Armed(s, b, move, now)]), s')
    ensures Leads(t, s, s')
  {
    var k := s.blockers[b].task;
    var x0 := BegunTxn(BlockerJob(b, move)).(phase := Owning, taskLock := Some(k));
    var x1 := x0.(phase := Loaded, held := {b});
    if s.blockers[b].status == B.Open {
      ResolvesAlerts(s.(open := map[t := x1]), t, x1, b, now, s');
    }
    LocksItsBlocker(s.(open := map[t := x0]), t, x0, b, move, s');
    LocksItsTask(s, t, BlockerJob(b, move), k, s');
  }

  /** A Blocker command alone does what the serial command does to the Blocker, its alerts and its Task. */
  lemma BlockerCommandAlone(s: State, t: Tx, b: Id, move: B.Command, actor: Id, team: Option<Id>, assignee: Option<Id>, now: Time)
    returns (s': State)
    requires s.open == map[] && b in s.blockers && s.blockers[b].task in s.tasks && B.Legal(move, s.blockers[b].status)
    ensures Leads(t, s, s') && s'.open == map[] && s'.blockers.Keys == s.blockers.Keys
    ensures forall c :: c in s.blockers && c != b ==> s'.blockers[c] == s.blockers[c]
    ensures RowMoved(move, s.blockers[b], s'.blockers[b], actor, team, assignee, now)
    ensures TaskAfter(s, s'.tasks, b, s.blockers[b].task, move)
    ensures AlertsLeft(s.alerts, s'.alerts, b, s.blockers[b].status == B.Open, now)
  {
    var x := Armed(s, b, move, now);
    var z := WritesBlocker(s.(open := map[t := x]), t, x, b, s.blockers[b].task, WriteBlocker(t, actor, team, assignee, now));
    s' := State(s.tasks + z.tw, s.blockers + z.bw, Merged(s.alerts, z), map[]);
    ClearedAre(s.alerts, z, b, s.blockers[b].status == B.Open, now);
    GetsReady(s, t, b, move, now, s');
  }

  /** An acknowledgement alone marks its alert and nothing else. */
  lemma AcknowledgementAlone(s: State, t: Tx, a: Id)
    requires s.open == map[] && a in s.alerts && !s.alerts[a].acknowledged
    ensures Leads(t, s, s.(alerts := s.alerts[a := s.alerts[a].(acknowledged := true)]))
  {
    var s' := s.(alerts := s.alerts[a := s.alerts[a].(acknowledged := true)]);
    var x := BegunTxn(AckJob(a));
    var y := x.(phase := Done, acks := {a});
    assert Merged(s.alerts, y) == s'.alerts && s.tasks + y.tw == s.tasks && s.blockers + y.bw == s.blockers;
    Commits(s.(open := map[t := y]), t, y);
    Does(s.(open := map[t := x]), t, x, Acknowledge(t), y, s');
    Begins(s, t, AckJob(a), s');
  }

  // ---- a sweep with no other transaction beside it ----------------------------------------------

  /** A sweep before its next candidate: what it has raised is what the serial loop has raised by then. */
  ghost predicate InStep(s: State, x: Txn, base: Id, seen: seq<Id>, todo: seq<Id>, ids: seq<Id>, now: Time, timer: map<Id, int>) {
    && x.job == SweepJob(now) && x.phase == Picking(todo)
    && x.tw == map[] && x.bw == map[] && x.resolves == map[] && x.acks == {} && x.raised.Keys !! s.alerts.Keys
    && (forall b :: b in todo ==> b in s.blockers && s.blockers[b].status == B.Open && b in timer)
    && B.Swept(s.blockers, s.alerts, s.alerts + x.raised, base, seen, ids, now, timer)
  }

  lemma MarkedIs(s: State, x: Txn, b: Id)
    requires x.raised.Keys !! s.alerts.Keys
    ensures Marked(s, x, b) <==> B.HasUnresolved(s.alerts + x.raised, b)
  {
    var all := s.alerts + x.raised;
    if a :| a in s.alerts && s.alerts[a].blocker == b && s.alerts[a].resolvedAt == None {
      assert all[a] == s.alerts[a];
    }
    if a :| a in x.raised && x.raised[a].blocker == b && x.raised[a].resolvedAt == None {
      assert all[a] == x.raised[a];
    }
  }

  /** A candidate that is due and unmarked is locked, checked again and escalated. */
  lemma RaisesNext(s: State, t: Tx, x: Txn, b: Id, ids: seq<Id>, timer: int, alert: Id, s': State)
    requires s.open == map[t := x] && x.phase == Picking([b] + ids) && x.job.SweepJob?
    requires b in s.blockers && s.blockers[b].status == B.Open && s.blockers[b].blockedAt + 60 * timer <= x.job.now && !Marked(s, x, b)
    requires alert !in s.alerts && alert !in x.raised
    requires Leads(t, s.(open := map[t := x.(phase := Picking(ids), held := x.held + {b},
                                          raised := x.raised[alert := B.Alert(b, x.job.now, timer, false, None)])]), s')
    ensures Leads(t, s, s')
  {
    var x1 := x.(phase := Asking([b] + ids, timer));
    var x2 := x1.(phase := Rechecking([b] + ids, timer), held := x.held + {b});
    var x3 := x2.(phase := Raising([b] + ids, timer));
    Raises(s.(open := map[t := x3]), t, x3, b, ids, timer, alert, s');
    Rechecks(s.(open := map[t := x2]), t, x2, b, ids, timer, s');
    LocksCandidate(s.(open := map[t := x1]), t, x1, b, ids, timer, s');
    Considers(s, t, x, b, ids, timer, s');
  }

  ghost predicate IsDue(s: State, x: Txn, b: Id, now: Time, timer: map<Id, int>) {
    b in s.blockers && b in timer && s.blockers[b].blockedAt + 60 * timer[b] <= now && !Marked(s, x, b)
  }

  /** The sweep once it is through with its candidate b. */
  ghost function Passed(s: State, x: Txn, b: Id, todo: seq<Id>, alert: Id, now: Time, timer: map<Id, int>): Txn {
    if IsDue(s, x, b, now, timer)
    then x.(phase := Picking(todo), held := x.held + {b}, raised := x.raised[alert := B.Alert(b, now, timer[b], false, None)])
    else x.(phase := Picking(todo))
  }

  lemma Passes(s: State, t: Tx, x: Txn, base: Id, seen: seq<Id>, b: Id, todo: seq<Id>, ids: seq<Id>, now: Time, timer: map<Id, int>, s': State)
    requires s.open == map[t := x] && InStep(s, x, base, seen, [b] + todo, ids, now, timer)
    requires Leads(t, s.(open := map[t := Passed(s, x, b, todo, base + |ids|, now, timer)]), s')
    ensures Leads(t, s, s')
  {
    assert b in [b] + todo;
    if IsDue(s, x, b, now, timer) {
      assert base + |ids| !in s.alerts + x.raised;
      RaisesNext(s, t, x, b, todo, timer[b], base + |ids|, s');
    } else {
      Skips(s, t, x, b, todo, timer[b], s');
    }
  }

  lemma HeadComesNext(seen: seq<Id>, todo: seq<Id>)
    requires T.Ascending(seen + todo) && todo != []
    ensures forall x :: x in seen ==> x < todo[0]
  {
    forall x | x in seen
      ensures x < todo[0]
    {
      var i :| 0 <= i < |seen| && seen[i] == x;
      assert (seen + todo)[i] == x && (seen + todo)[|seen|] == todo[0];
    }
  }

  lemma StaysInStep(s: State, x: Txn, base: Id, seen: seq<Id>, b: Id, todo: seq<Id>, ids: seq<Id>, now: Time, timer: map<Id, int>)
    requires InStep(s, x, base, seen, [b] + todo, ids, now, timer) && forall e :: e in seen ==> e < b
    ensures InStep(s, Passed(s, x, b, todo, base + |ids|, now, timer), base, seen + [b], todo,
                   if IsDue(s, x, b, now, timer) then ids + [b] else ids, now, timer)
  {
    MarkedIs(s, x, b);
    assert b in [b] + todo;
    var y := Passed(s, x, b, todo, base + |ids|, now, timer);
    if IsDue(s, x, b, now, timer) {
      B.SweepHit(s.blockers, s.alerts, s.alerts + x.raised, base, seen, ids, now, timer, b);
      assert (s.alerts + x.raised)[base + |ids| := B.Alert(b, now, timer[b], false, None)] == s.alerts + y.raised;
    } else {
      B.SweepMiss(s.blockers, s.alerts, s.alerts + x.raised, base, seen, ids, now, timer, b);
    }
  }

  lemma SweepEnds(s: State, t: Tx, x: Txn)
    requires s.open == map[t := x] && x.phase == Picking([]) && x.tw == map[] && x.bw == map[] && x.resolves == map[] && x.acks == {}
    ensures Leads(t, s, s.(open := map[], alerts := s.alerts + x.raised))
  {
    var y := x.(phase := Done);
    MergedIs(s.alerts, y);
    assert s.tasks + y.tw == s.tasks && s.blockers + y.bw == s.blockers;
    Commits(s.(open := map[t := y]), t, y);
    EndsSweep(s, t, x, s.(open := map[], alerts := s.alerts + x.raised));
  }

  lemma {:induction false} SweepsOn(s: State, t: Tx, x: Txn, base: Id, seen: seq<Id>, todo: seq<Id>, ids: seq<Id>, now: Time, timer: map<Id, int>)
    returns (s': State, all: seq<Id>)
    requires s.open == map[t := x] && InStep(s, x, base, seen, todo, ids, now, timer) && T.Ascending(seen + todo)
    ensures Leads(t, s, s') && s' == s.(open := map[], alerts := s'.alerts)
    ensures B.Swept(s.blockers, s.alerts, s'.alerts, base, seen + todo, all, now, timer)
    decreases |todo|
  {
    if todo == [] {
      assert seen + todo == seen;
      s', all := s.(open := map[], alerts := s.alerts + x.raised), ids;
      SweepEnds(s, t, x);
    } else {
      var b, later := todo[0], todo[1..];
      HeadComesNext(seen, todo);
      assert todo == [b] + later && (seen + [b]) + later == seen + todo;
      StaysInStep(s, x, base, seen, b, later, ids, now, timer);
      var y := Passed(s, x, b, later, base + |ids|, now, timer);
      s', all := SweepsOn(s.(open := map[t := y]), t, y, base, seen + [b], later, if IsDue(s, x, b, now, timer) then ids + [b] else ids, now, timer);
      Passes(s, t, x, base, seen, b, later, ids, now, timer, s');
    }
  }

  /** A sweep alone raises what the serial loop raises, under the same ids: one alert for each due unmarked candidate. */
  lemma SweepAlone(s: State, t: Tx, candidates: seq<Id>, base: Id, now: Time, timer: map<Id, int>)
    returns (s': State, escalated: seq<Id>)
    requires s.open == map[] && T.Ascending(candidates) && B.AlertsOk(s.alerts, s.blockers) && forall a :: a in s.alerts ==> a < base
    requires forall b :: b in candidates ==> b in s.blockers && s.blockers[b].status == B.Open && b in timer
    ensures Leads(t, s, s') && s' == s.(alerts := s'.alerts)
    ensures B.Swept(s.blockers, s.alerts, s'.alerts, base, candidates, escalated, now, timer)
  {
    var x := BegunTxn(SweepJob(now));
    var y := x.(phase := Picking(candidates));
    assert s.alerts + y.raised == s.alerts && [] + candidates == candidates;
    s', escalated := SweepsOn(s.(open := map[t := y]), t, y, base, [], candidates, [], now, timer);
    Does(s.(open := map[t := x]), t, x, SelectOpen(t, candidates), y, s');
    Begins(s, t, SweepJob(now), s');
  }
}
