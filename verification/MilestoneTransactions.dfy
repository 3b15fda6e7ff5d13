/**
 Task commands, Milestone creations, confirmations and MISSED sweeps running concurrently, one statement
 at a time under READ COMMITTED. Row locks are held to the end of the transaction. A contribution row
 holds a key-share lock on its Task (its foreign key), which a Task command's FOR UPDATE conflicts with.
 */
module MilestoneTransactions {
  import opened Prelude
  import T = TaskStates
  import M = Milestones

  type Id = nat
  type Tx = nat

  datatype Job =
    | TaskJob(task: Id, command: T.TaskCommand)
    | CreateJob(milestone: Id)
    | ConfirmJob(confirming: Id)
    | SweepJob

  /** A Milestone row with its contribution rows, which are written once, with it. */
  datatype MRow = MRow(m: M.Milestone, from: seq<M.Contribution>)

  /** `todo` lists the Milestones still to lock and write, in order; the head may be locked already. */
  datatype Txn = Txn(job: Job, taskLocked: bool, shares: set<Id>, held: set<Id>,
                     tw: map<Id, T.TaskStatus>, mw: map<Id, MRow>, todo: Option<seq<Id>>)

  datatype State = State(tasks: map<Id, T.TaskStatus>, milestones: map<Id, MRow>, open: map<Tx, Txn>)

  datatype Step =
    | CreateTask(task: Id)
    | Begin(t: Tx, job: Job)
    | LockTask(t: Tx)
    | WriteStatus(t: Tx)
    | SelectMilestones(t: Tx, ids: seq<Id>)
    | SelectOverdue(t: Tx, ids: seq<Id>, at: M.Time)
    | LockMilestone(t: Tx)
    | WriteMilestone(t: Tx, autoAllowed: bool, now: M.Time)
    | InsertMilestone(t: Tx, mode: M.Mode, targetAt: Option<M.Time>)
    | InsertContribution(t: Tx, task: Id, required: bool)
    | DeriveNew(t: Tx, autoAllowed: bool, now: M.Time)
    | Commit(t: Tx)
    | Rollback(t: Tx)

  ghost function TaskLocks(x: Txn): set<Id> {
    if x.job.TaskJob? && x.taskLocked then {x.job.task} else {}
  }

  ghost predicate Known(from: seq<M.Contribution>, tasks: map<Id, T.TaskStatus>) {
    forall i :: 0 <= i < |from| ==> from[i].0 in tasks
  }

  ghost predicate Overdue(r: MRow, at: M.Time) {
    r.m.targetAt.Some? && r.m.targetAt.value <= at && !M.Terminal(r.m.status)
  }

  ghost function NewRow(mode: M.Mode, targetAt: Option<M.Time>): MRow {
    MRow(M.NewMilestone(mode, targetAt), [])
  }

  /** What a job makes of the locked Milestone row it is at. */
  ghost function Written(job: Job, r: MRow, tasks: map<Id, T.TaskStatus>, autoAllowed: bool, now: M.Time): MRow
    requires Known(r.from, tasks)
  {
    match job
    case TaskJob(_, _) => MRow(M.Recomputed(r.m, M.StatesOf(r.from, tasks), autoAllowed, now), r.from)
    case CreateJob(_) => r
    case ConfirmJob(_) => MRow(M.Confirmed(r.m, now), r.from)
    case SweepJob => if M.Terminal(r.m.status) then r else MRow(M.MissedRow(r.m), r.from)
  }

  ghost predicate Init(s: State) {
    s == State(map[], map[], map[])
  }

  /** Whether a statement may run. `fk` is false only to show what the foreign key's lock is for. */
  ghost predicate Enabled(fk: bool, s: State, step: Step) {
    match step
    case CreateTask(k) => k !in s.tasks
    case Begin(t, job) =>
      && t !in s.open
      && (job.CreateJob? ==> job.milestone !in s.milestones
                             && forall u :: u in s.open ==> s.open[u].job != job)
      && (job.ConfirmJob? ==> job.confirming in s.milestones)
    case LockTask(t) =>
      && t in s.open && s.open[t].job.TaskJob? && !s.open[t].taskLocked && s.open[t].job.task in s.tasks
      && forall u :: u in s.open && u != t ==>
           && s.open[t].job.task !in TaskLocks(s.open[u])
           && (fk ==> s.open[t].job.task !in s.open[u].shares)
    case WriteStatus(t) =>
      && t in s.open && s.open[t].job.TaskJob? && s.open[t].taskLocked && s.open[t].tw == map[]
      && s.open[t].job.task in s.tasks && T.Legal(s.open[t].job.command, s.tasks[s.open[t].job.task])
    case SelectMilestones(t, ids) =>
      && t in s.open && s.open[t].job.TaskJob? && s.open[t].job.task in s.open[t].tw && s.open[t].todo == None
      && T.Ascending(ids)
      && (forall m :: m in ids <==> m in s.milestones && M.ContributesTo(s.open[t].job.task, s.milestones[m].from))
    case SelectOverdue(t, ids, at) =>
      && t in s.open && s.open[t].job == SweepJob && s.open[t].todo == None
      && T.Ascending(ids) && forall m :: m in ids ==> m in s.milestones && Overdue(s.milestones[m], at)
    case LockMilestone(t) =>
      && t in s.open && s.open[t].todo.Some? && s.open[t].todo.value != []
      && s.open[t].todo.value[0] !in s.open[t].held
      && forall u :: u in s.open && u != t ==> s.open[t].todo.value[0] !in s.open[u].held
    case WriteMilestone(t, autoAllowed, now) =>
      && t in s.open && !s.open[t].job.CreateJob? && s.open[t].todo.Some? && s.open[t].todo.value != []
      && s.open[t].todo.value[0] in s.open[t].held && s.open[t].todo.value[0] in s.milestones
      && Known(s.milestones[s.open[t].todo.value[0]].from, s.tasks)
      && (s.open[t].job.ConfirmJob? ==> s.milestones[s.open[t].todo.value[0]].m.status == M.ReadyForConfirmation)
    case InsertMilestone(t, mode, targetAt) =>
      t in s.open && s.open[t].job.CreateJob? && s.open[t].mw == map[] && s.open[t].todo == None
    case InsertContribution(t, task, required) =>
      && t in s.open && s.open[t].job.CreateJob? && s.open[t].job.milestone in s.open[t].mw && s.open[t].todo == None
      && task in s.tasks
      && (fk ==> forall u :: u in s.open && u != t ==> task !in TaskLocks(s.open[u]))
    case DeriveNew(t, autoAllowed, now) =>
      && t in s.open && s.open[t].job.CreateJob? && s.open[t].job.milestone in s.open[t].mw && s.open[t].todo == None
      && Known(s.open[t].mw[s.open[t].job.milestone].from, s.tasks)
    case Commit(t) => t in s.open && s.open[t].todo == Some([])
    case Rollback(t) => t in s.open
  }

  ghost function Put(s: State, t: Tx, x: Txn): State {
    s.(open := s.open[t := x])
  }

  /** The transaction after it has written the Milestone at the head of its list. */
  ghost function AfterWrite(x: Txn, r: MRow): Txn
    requires x.todo.Some? && x.todo.value != []
  {
    x.(mw := x.mw[x.todo.value[0] := r], todo := Some(x.todo.value[1..]))
  }

  /** The statements that change nothing but their transaction's own record. */
  ghost predicate Own(step: Step) {
    !step.CreateTask? && !step.Commit? && !step.Rollback?
  }

  /** The record of a transaction after a statement of its own. */
  ghost function After(s: State, step: Step): Txn
    requires Own(step) && Enabled(false, s, step)
  {
    match step
    case Begin(t, job) => Txn(job, false, {}, {}, map[], map[], if job.ConfirmJob? then Some([job.confirming]) else None)
    case LockTask(t) => s.open[t].(taskLocked := true)
    case WriteStatus(t) => s.open[t].(tw := map[s.open[t].job.task := T.Target(s.open[t].job.command)])
    case SelectMilestones(t, ids) => s.open[t].(todo := Some(ids))
    case SelectOverdue(t, ids, at) => s.open[t].(todo := Some(ids))
    case LockMilestone(t) => s.open[t].(held := s.open[t].held + {s.open[t].todo.value[0]})
    case WriteMilestone(t, autoAllowed, now) =>
      var x := s.open[t];
      AfterWrite(x, Written(x.job, s.milestones[x.todo.value[0]], s.tasks + x.tw, autoAllowed, now))
    case InsertMilestone(t, mode, targetAt) => s.open[t].(mw := map[s.open[t].job.milestone := NewRow(mode, targetAt)])
    case InsertContribution(t, task, required) =>
      var x := s.open[t];
      var r := x.mw[x.job.milestone];
      x.(shares := x.shares + {task}, mw := x.mw[x.job.milestone := r.(from := r.from + [(task, required)])])
    case DeriveNew(t, autoAllowed, now) =>
      var x := s.open[t];
      var r := x.mw[x.job.milestone];
      x.(mw := x.mw[x.job.milestone := MRow(M.Recomputed(r.m, M.StatesOf(r.from, s.tasks), autoAllowed, now), r.from)],
         todo := Some([]))
  }

  ghost function Apply(s: State, step: Step): State
    requires Enabled(false, s, step)
  {
    match step
    case CreateTask(k) => s.(tasks := s.tasks[k := T.NotStarted])
    case Commit(t) => State(s.tasks + s.open[t].tw, s.milestones + s.open[t].mw, s.open - {t})
    case Rollback(t) => s.(open := s.open - {t})
    case _ => Put(s, step.t, After(s, step))
  }

  // ---- invariant --------------------------------------------------------------------------------

  ghost predicate AllSound(tasks: map<Id, T.TaskStatus>, ms: map<Id, MRow>) {
    forall m :: m in ms ==> Known(ms[m].from, tasks) && M.Sound(ms[m].m, M.StatesOf(ms[m].from, tasks))
  }

  /** Two open transactions hold no conflicting locks and create different Milestones. */
  ghost predicate Compatible(x: Txn, y: Txn) {
    && TaskLocks(x) !! TaskLocks(y) && TaskLocks(x) !! y.shares && x.shares !! TaskLocks(y)
    && x.held !! y.held
    && (x.job.CreateJob? ==> x.job != y.job)
  }

  /** A Task command writes only its locked Task, and only a legal move. */
  ghost predicate TaskWriteOk(tasks: map<Id, T.TaskStatus>, x: Txn) {
    forall k :: k in x.tw ==>
      k in TaskLocks(x) && k in tasks && T.Legal(x.job.command, tasks[k]) && x.tw[k] == T.Target(x.job.command)
  }

  /** Milestone images in hand are up to date with the Tasks as this transaction sees them. */
  ghost predicate ImagesOk(tasks: map<Id, T.TaskStatus>, ms: map<Id, MRow>, x: Txn) {
    if x.job.CreateJob? then
      && x.held == {} && x.tw == map[] && x.job.milestone !in ms && x.mw.Keys <= {x.job.milestone}
      && (x.todo.Some? ==> x.todo == Some([]))
      && (x.job.milestone in x.mw ==>
            var r := x.mw[x.job.milestone];
            && Known(r.from, tasks)
            && (forall i :: 0 <= i < |r.from| ==> r.from[i].0 in x.shares)
            && (if x.todo.Some? then M.Sound(r.m, M.StatesOf(r.from, tasks)) else r.m.status == M.NotStarted && !r.m.autoConfirmed))
    else
      && x.shares == {} && x.held <= ms.Keys && x.mw.Keys <= x.held
      && forall m :: m in x.mw ==>
           && x.mw[m].from == ms[m].from && Known(ms[m].from, tasks)
           && M.Sound(x.mw[m].m, M.StatesOf(x.mw[m].from, tasks + x.tw))
           && (M.Terminal(ms[m].m.status) ==> x.mw[m] == ms[m])
  }

  /** The Milestones still to do come in ascending order, after every lock already held. */
  ghost predicate OrderOk(ms: map<Id, MRow>, x: Txn) {
    if x.todo.None? then x.held == {}
    else
      var rest := x.todo.value;
      && T.Ascending(rest)
      && (forall i :: 0 <= i < |rest| ==> rest[i] in ms)
      && (forall l, i :: l in x.held && 0 <= i < |rest| ==> l < rest[i] || (i == 0 && l == rest[0]))
  }

  /** A Task command that has selected its Milestones has missed none. */
  ghost predicate CoverageOk(ms: map<Id, MRow>, x: Txn) {
    x.job.TaskJob? && x.todo.Some? ==>
      && x.job.task in x.tw
      && forall m :: m in ms && M.ContributesTo(x.job.task, ms[m].from) ==> m in x.todo.value || m in x.mw
  }

  ghost predicate TxnOk(tasks: map<Id, T.TaskStatus>, ms: map<Id, MRow>, x: Txn) {
    TaskWriteOk(tasks, x) && ImagesOk(tasks, ms, x) && OrderOk(ms, x) && CoverageOk(ms, x)
  }

  ghost predicate Inv(s: State) {
    && AllSound(s.tasks, s.milestones)
    && (forall t :: t in s.open ==> TxnOk(s.tasks, s.milestones, s.open[t]))
    && (forall t, u :: t in s.open && u in s.open && t != u ==> Compatible(s.open[t], s.open[u]))
  }

  /** A step that changes only t's own record keeps the invariant if t's record stays right. */
  lemma PutKeepsInv(s: State, t: Tx, x: Txn)
    requires Inv(s) && TxnOk(s.tasks, s.milestones, x)
    requires forall u :: u in s.open && u != t ==> Compatible(x, s.open[u]) && Compatible(s.open[u], x)
    ensures Inv(Put(s, t, x))
  {
  }

  lemma EarnedInView(tasks: map<Id, T.TaskStatus>, r: MRow, x: Txn)
    requires Known(r.from, tasks) && M.Sound(r.m, M.StatesOf(r.from, tasks)) && TaskWriteOk(tasks, x)
    ensures Known(r.from, tasks + x.tw) && M.Earned(r.m, M.StatesOf(r.from, tasks + x.tw))
  {
    if x.tw == map[] {
      assert tasks + x.tw == tasks;
    } else {
      var k :| k in x.tw;
      assert tasks + x.tw == tasks[k := T.Target(x.job.command)];
      M.MovesKeepEarned(r.m, r.from, tasks, k, x.job.command);
    }
  }

  lemma WrittenIsSound(tasks: map<Id, T.TaskStatus>, x: Txn, r: MRow, autoAllowed: bool, now: M.Time)
    requires Known(r.from, tasks) && M.Sound(r.m, M.StatesOf(r.from, tasks)) && TaskWriteOk(tasks, x)
    requires !x.job.CreateJob? && (x.job.ConfirmJob? ==> r.m.status == M.ReadyForConfirmation)
    ensures Known(r.from, tasks + x.tw)
    ensures var w := Written(x.job, r, tasks + x.tw, autoAllowed, now);
            && w.from == r.from && M.Sound(w.m, M.StatesOf(r.from, tasks + x.tw))
            && (M.Terminal(r.m.status) ==> w == r)
  {
    EarnedInView(tasks, r, x);
    if x.job.TaskJob? {
      M.RecomputedIsSound(r.m, M.StatesOf(r.from, tasks + x.tw), autoAllowed, now);
    }
  }

  lemma AfterWriteOk(tasks: map<Id, T.TaskStatus>, ms: map<Id, MRow>, x: Txn, r: MRow)
    requires TxnOk(tasks, ms, x) && !x.job.CreateJob? && x.todo.Some? && x.todo.value != []
    requires x.todo.value[0] in x.held && x.todo.value[0] in ms
    requires var m := x.todo.value[0];
             && r.from == ms[m].from && Known(ms[m].from, tasks) && Known(r.from, tasks + x.tw)
             && M.Sound(r.m, M.StatesOf(r.from, tasks + x.tw)) && (M.Terminal(ms[m].m.status) ==> r == ms[m])
    ensures TxnOk(tasks, ms, AfterWrite(x, r))
  {
    var y := AfterWrite(x, r);
    assert x.todo.value == [x.todo.value[0]] + y.todo.value;
    assert OrderOk(ms, y);
    assert CoverageOk(ms, y);
  }

  lemma WriteKeepsTxn(s: State, step: Step)
    requires Inv(s) && Enabled(true, s, step) && step.WriteMilestone?
    ensures TxnOk(s.tasks, s.milestones, After(s, step))
  {
    var x := s.open[step.t];
    var r := s.milestones[x.todo.value[0]];
    assert TxnOk(s.tasks, s.milestones, x);
    WrittenIsSound(s.tasks, x, r, step.autoAllowed, step.now);
    AfterWriteOk(s.tasks, s.milestones, x, Written(x.job, r, s.tasks + x.tw, step.autoAllowed, step.now));
  }

  lemma ContributionKeepsTxn(s: State, step: Step)
    requires Inv(s) && Enabled(true, s, step) && step.InsertContribution?
    ensures TxnOk(s.tasks, s.milestones, After(s, step))
  {
    assert TxnOk(s.tasks, s.milestones, s.open[step.t]);
  }

  lemma DeriveKeepsTxn(s: State, step: Step)
    requires Inv(s) && Enabled(true, s, step) && step.DeriveNew?
    ensures TxnOk(s.tasks, s.milestones, After(s, step))
  {
    var x := s.open[step.t];
    assert TxnOk(s.tasks, s.milestones, x);
    var r := x.mw[x.job.milestone];
    M.RecomputedIsSound(r.m, M.StatesOf(r.from, s.tasks), step.autoAllowed, step.now);
  }

  // ---- commit -----------------------------------------------------------------------------------

  /** What x commits touches no contributor of a Milestone image another transaction has in hand. */
  lemma CommitMissesImages(ms: map<Id, MRow>, tasks: map<Id, T.TaskStatus>, x: Txn, y: Txn, m: Id, k: Id)
    requires TxnOk(tasks, ms, x) && TxnOk(tasks, ms, y) && Compatible(x, y) && Compatible(y, x) && x.todo == Some([])
    requires m in y.mw && (y.job.CreateJob? ==> m == y.job.milestone) && k in x.tw
    ensures !M.ContributesTo(k, y.mw[m].from)
  {
  }

  lemma SameStates(from: seq<M.Contribution>, a: map<Id, T.TaskStatus>, b: map<Id, T.TaskStatus>)
    requires Known(from, a) && Known(from, b)
    requires forall k :: M.ContributesTo(k, from) ==> a[k] == b[k]
    ensures M.StatesOf(from, a) == M.StatesOf(from, b)
  {
    forall i | 0 <= i < |from|
      ensures a[from[i].0] == b[from[i].0]
    {
      assert M.ContributesTo(from[i].0, from);
    }
  }

  lemma CommitKeepsImages(tasks: map<Id, T.TaskStatus>, ms: map<Id, MRow>, x: Txn, y: Txn)
    requires TxnOk(tasks, ms, x) && TxnOk(tasks, ms, y) && Compatible(x, y) && Compatible(y, x) && x.todo == Some([])
    ensures ImagesOk(tasks + x.tw, ms + x.mw, y)
  {
    var tasks', ms' := tasks + x.tw, ms + x.mw;
    forall m | m in y.mw && (y.job.CreateJob? ==> m == y.job.milestone)
      ensures Known(y.mw[m].from, tasks') && M.StatesOf(y.mw[m].from, tasks' + y.tw) == M.StatesOf(y.mw[m].from, tasks + y.tw)
      ensures !y.job.CreateJob? ==> m in ms && m !in x.mw
    {
      forall k | M.ContributesTo(k, y.mw[m].from)
        ensures (tasks' + y.tw)[k] == (tasks + y.tw)[k]
      {
        if k in x.tw {
          CommitMissesImages(ms, tasks, x, y, m, k);
        }
      }
      SameStates(y.mw[m].from, tasks' + y.tw, tasks + y.tw);
    }
    if y.job.CreateJob? {
      assert tasks' + y.tw == tasks' && tasks + y.tw == tasks;
    }
  }

  lemma CommitKeepsRest(tasks: map<Id, T.TaskStatus>, ms: map<Id, MRow>, x: Txn, y: Txn)
    requires TxnOk(tasks, ms, x) && TxnOk(tasks, ms, y) && Compatible(x, y) && Compatible(y, x) && x.todo == Some([])
    ensures TaskWriteOk(tasks + x.tw, y) && OrderOk(ms + x.mw, y) && CoverageOk(ms + x.mw, y)
  {
    forall m | y.job.TaskJob? && y.todo.Some? && m in ms + x.mw && M.ContributesTo(y.job.task, (ms + x.mw)[m].from)
      ensures m in y.todo.value || m in y.mw
    {
    }
  }

  lemma CommitKeepsSound(tasks: map<Id, T.TaskStatus>, ms: map<Id, MRow>, x: Txn)
    requires AllSound(tasks, ms) && TxnOk(tasks, ms, x) && x.todo == Some([])
    ensures AllSound(tasks + x.tw, ms + x.mw)
  {
    forall m | m in ms + x.mw
      ensures Known((ms + x.mw)[m].from, tasks + x.tw)
      ensures M.Sound((ms + x.mw)[m].m, M.StatesOf((ms + x.mw)[m].from, tasks + x.tw))
    {
      if m in x.mw {
        if x.job.CreateJob? {
          assert tasks + x.tw == tasks;
        }
      } else {
        assert forall k :: k in x.tw ==> !M.ContributesTo(k, ms[m].from);
        SameStates(ms[m].from, tasks + x.tw, tasks);
      }
    }
  }

  lemma CommitKeepsInv(s: State, t: Tx)
    requires Inv(s) && Enabled(true, s, Commit(t))
    ensures Inv(Apply(s, Commit(t)))
  {
    var x := s.open[t];
    assert TxnOk(s.tasks, s.milestones, x);
    CommitKeepsSound(s.tasks, s.milestones, x);
    forall u | u in s.open && u != t
      ensures TxnOk(s.tasks + x.tw, s.milestones + x.mw, s.open[u])
    {
      assert TxnOk(s.tasks, s.milestones, s.open[u]) && Compatible(x, s.open[u]) && Compatible(s.open[u], x);
      CommitKeepsImages(s.tasks, s.milestones, x, s.open[u]);
      CommitKeepsRest(s.tasks, s.milestones, x, s.open[u]);
    }
  }

  lemma NewTaskKeepsTxn(s: State, k: Id, x: Txn)
    requires k !in s.tasks && TxnOk(s.tasks, s.milestones, x)
    ensures TxnOk(s.tasks[k := T.NotStarted], s.milestones, x)
  {
    var tasks' := s.tasks[k := T.NotStarted];
    forall m | m in x.mw && Known(x.mw[m].from, s.tasks)
      ensures M.StatesOf(x.mw[m].from, tasks') == M.StatesOf(x.mw[m].from, s.tasks)
      ensures M.StatesOf(x.mw[m].from, tasks' + x.tw) == M.StatesOf(x.mw[m].from, s.tasks + x.tw)
    {
      SameStates(x.mw[m].from, tasks', s.tasks);
      SameStates(x.mw[m].from, tasks' + x.tw, s.tasks + x.tw);
    }
  }

  lemma NewTaskKeepsInv(s: State, k: Id)
    requires Inv(s) && Enabled(true, s, CreateTask(k))
    ensures Inv(Apply(s, CreateTask(k)))
  {
    var tasks' := s.tasks[k := T.NotStarted];
    forall m | m in s.milestones
      ensures Known(s.milestones[m].from, tasks') && M.Sound(s.milestones[m].m, M.StatesOf(s.milestones[m].from, tasks'))
    {
      SameStates(s.milestones[m].from, tasks', s.tasks);
    }
    forall t | t in s.open
      ensures TxnOk(tasks', s.milestones, s.open[t])
    {
      NewTaskKeepsTxn(s, k, s.open[t]);
    }
  }

  /** Locking and selecting statements. */
  lemma LockKeepsTxn(s: State, step: Step)
    requires Enabled(true, s, step)
    requires step.LockTask? || step.WriteStatus? || step.SelectMilestones? || step.SelectOverdue?
             || step.LockMilestone? || step.InsertMilestone?
    requires TxnOk(s.tasks, s.milestones, s.open[step.t])
    ensures TxnOk(s.tasks, s.milestones, After(s, step))
  {
  }

  lemma OwnStepTxnOk(s: State, step: Step)
    requires Inv(s) && Enabled(true, s, step) && Own(step)
    ensures TxnOk(s.tasks, s.milestones, After(s, step))
  {
    if step.Begin? {
    } else if step.WriteMilestone? {
      WriteKeepsTxn(s, step);
    } else if step.InsertContribution? {
      ContributionKeepsTxn(s, step);
    } else if step.DeriveNew? {
      DeriveKeepsTxn(s, step);
    } else {
      assert TxnOk(s.tasks, s.milestones, s.open[step.t]);
      LockKeepsTxn(s, step);
    }
  }

  lemma OwnStepCompatible(s: State, step: Step, u: Tx)
    requires Enabled(true, s, step) && Own(step) && u in s.open && u != step.t
    requires step.t in s.open ==> Compatible(s.open[step.t], s.open[u]) && Compatible(s.open[u], s.open[step.t])
    ensures Compatible(After(s, step), s.open[u]) && Compatible(s.open[u], After(s, step))
  {
  }

  lemma StepKeepsInv(s: State, step: Step)
    requires Inv(s) && Enabled(true, s, step)
    ensures Inv(Apply(s, step))
  {
    if Own(step) {
      OwnStepTxnOk(s, step);
      forall u | u in s.open && u != step.t
        ensures Compatible(After(s, step), s.open[u]) && Compatible(s.open[u], After(s, step))
      {
        OwnStepCompatible(s, step, u);
      }
      PutKeepsInv(s, step.t, After(s, step));
    } else if step.CreateTask? {
      NewTaskKeepsInv(s, step.task);
    } else if step.Commit? {
      CommitKeepsInv(s, step.t);
    }
  }

  // ---- whole runs -------------------------------------------------------------------------------

  ghost predicate Next(fk: bool, s: State, step: Step, s': State) {
    Enabled(fk, s, step) && s' == Apply(s, step)
  }

  ghost predicate Run(fk: bool, states: seq<State>, steps: seq<Step>) {
    && |states| == |steps| + 1 && Init(states[0])
    && forall i, j :: 0 <= i && j == i + 1 && j < |states| ==> Next(fk, states[i], steps[i], states[j])
  }

  lemma {:induction false} RunKeepsInv(states: seq<State>, steps: seq<Step>, i: nat)
    requires Run(true, states, steps) && i < |states|
    ensures Inv(states[i])
  {
    if i > 0 {
      RunKeepsInv(states, steps, i - 1);
      StepKeepsInv(states[i - 1], steps[i - 1]);
      assert Next(true, states[i - 1], steps[i - 1], states[i]);
    }
  }

  /** In every committed state of every interleaving, every Milestone's status is what its Tasks derive. */
  lemma NeverStale(states: seq<State>, steps: seq<Step>, i: nat, m: Id)
    requires Run(true, states, steps) && i < |states| && m in states[i].milestones
    ensures Known(states[i].milestones[m].from, states[i].tasks)
    ensures var cs := M.StatesOf(states[i].milestones[m].from, states[i].tasks);
            M.DeriveTarget(states[i].milestones[m].m.status, cs) == states[i].milestones[m].m.status
  {
    RunKeepsInv(states, steps, i);
  }

  /** READY and ACHIEVED always mean every required Task is COMPLETED; automatic confirmation needs one. */
  lemma ReadyMeansDone(states: seq<State>, steps: seq<Step>, i: nat, m: Id)
    requires Run(true, states, steps) && i < |states| && m in states[i].milestones
    requires states[i].milestones[m].m.status == M.ReadyForConfirmation || states[i].milestones[m].m.status == M.Achieved
    ensures forall k :: (k, true) in states[i].milestones[m].from ==>
              k in states[i].tasks && states[i].tasks[k] == T.Completed
    ensures states[i].milestones[m].m.autoConfirmed ==> exists k :: (k, true) in states[i].milestones[m].from
  {
    RunKeepsInv(states, steps, i);
    var from := states[i].milestones[m].from;
    var cs := M.StatesOf(from, states[i].tasks);
    forall k | (k, true) in from
      ensures k in states[i].tasks && states[i].tasks[k] == T.Completed
    {
      var j :| 0 <= j < |from| && from[j] == (k, true);
      assert cs[j] == (states[i].tasks[k], true);
    }
    if states[i].milestones[m].m.autoConfirmed {
      var j :| 0 <= j < |cs| && cs[j].1;
      assert (from[j].0, true) in from;
    }
  }

  lemma StepKeepsTerminal(s: State, step: Step, s': State, m: Id)
    requires Inv(s) && Next(true, s, step, s')
    requires m in s.milestones && M.Terminal(s.milestones[m].m.status)
    ensures m in s'.milestones && s'.milestones[m] == s.milestones[m]
  {
    if step.Commit? {
      assert TxnOk(s.tasks, s.milestones, s.open[step.t]);
    }
  }

  lemma TerminalOneMore(states: seq<State>, steps: seq<Step>, i: nat, m: Id)
    requires Run(true, states, steps) && i + 1 < |states|
    requires m in states[i].milestones && M.Terminal(states[i].milestones[m].m.status)
    ensures m in states[i + 1].milestones && states[i + 1].milestones[m] == states[i].milestones[m]
  {
    RunKeepsInv(states, steps, i);
    assert Next(true, states[i], steps[i], states[i + 1]);
    StepKeepsTerminal(states[i], steps[i], states[i + 1], m);
  }

  /** ACHIEVED and MISSED are never left: a Milestone confirmed before a sweep locks it stays ACHIEVED. */
  lemma {:induction false} TerminalForever(states: seq<State>, steps: seq<Step>, i: nat, j: nat, m: Id)
    requires Run(true, states, steps) && i <= j < |states|
    requires m in states[i].milestones && M.Terminal(states[i].milestones[m].m.status)
    ensures m in states[j].milestones && states[j].milestones[m] == states[i].milestones[m]
    decreases j
  {
    if i < j {
      TerminalForever(states, steps, i, j - 1, m);
      TerminalOneMore(states, steps, j - 1, m);
    }
  }

  // ---- deadlock freedom -------------------------------------------------------------------------

  /** t's next statement needs a lock that u holds. A creation may be about to contribute any Task. */
  ghost predicate WaitsFor(s: State, t: Tx, u: Tx) {
    && t in s.open && u in s.open && t != u
    && var x, y := s.open[t], s.open[u];
       || (x.job.TaskJob? && !x.taskLocked && (x.job.task in TaskLocks(y) || x.job.task in y.shares))
       || (x.job.CreateJob? && x.todo.None? && TaskLocks(y) != {})
       || (x.todo.Some? && x.todo.value != [] && x.todo.value[0] !in x.held && x.todo.value[0] in y.held)
  }

  /** A lock statement that cannot run waits for somebody: these are all the waits there are. */
  lemma BlockedMeansWaiting(s: State, t: Tx, step: Step)
    requires t in s.open && !Enabled(true, s, step)
    requires match step
             case LockTask(a) => a == t && s.open[t].job.TaskJob? && !s.open[t].taskLocked && s.open[t].job.task in s.tasks
             case LockMilestone(a) => a == t && s.open[t].todo.Some? && s.open[t].todo.value != []
                                      && s.open[t].todo.value[0] !in s.open[t].held
             case InsertContribution(a, k, _) => a == t && s.open[t].job.CreateJob? && s.open[t].todo.None? && k in s.tasks
                                                 && s.open[t].job.milestone in s.open[t].mw
             case _ => false
    ensures exists u :: WaitsFor(s, t, u)
  {
    match step
    case LockTask(_) =>
      var u :| u in s.open && u != t
               && (s.open[t].job.task in TaskLocks(s.open[u]) || s.open[t].job.task in s.open[u].shares);
      assert WaitsFor(s, t, u);
    case LockMilestone(_) =>
      var u :| u in s.open && u != t && s.open[t].todo.value[0] in s.open[u].held;
      assert WaitsFor(s, t, u);
    case InsertContribution(_, k, _) =>
      var u :| u in s.open && u != t && k in TaskLocks(s.open[u]);
      assert WaitsFor(s, t, u);
  }

  /** How far along the lock order a waiting transaction has got. */
  ghost function Rank(x: Txn): nat {
    if x.todo.Some? && x.todo.value != [] then x.todo.value[0] + 2
    else if x.job.CreateJob? then 1
    else 0
  }

  /** Waiting on a transaction that is itself waiting means waiting on one further along. */
  lemma WaitingClimbs(s: State, t: Tx, u: Tx, v: Tx)
    requires Inv(s) && WaitsFor(s, t, u) && WaitsFor(s, u, v)
    ensures Rank(s.open[t]) < Rank(s.open[u])
  {
    assert TxnOk(s.tasks, s.milestones, s.open[t]) && TxnOk(s.tasks, s.milestones, s.open[u]);
  }

  ghost predicate WaitCycle(s: State, c: seq<Tx>) {
    && |c| > 0 && WaitsFor(s, c[|c| - 1], c[0])
    && forall i, j :: 0 <= i && j == i + 1 && j < |c| ==> WaitsFor(s, c[i], c[j])
  }

  lemma {:induction false} RanksClimb(s: State, c: seq<Tx>, i: nat)
    requires Inv(s) && WaitCycle(s, c) && i < |c|
    ensures c[0] in s.open && c[i] in s.open && Rank(s.open[c[0]]) <= Rank(s.open[c[i]])
    ensures i > 0 ==> Rank(s.open[c[0]]) < Rank(s.open[c[i]])
  {
    if i > 0 {
      RanksClimb(s, c, i - 1);
      assert WaitsFor(s, c[i - 1], c[i]);
      if i < |c| - 1 {
        assert WaitsFor(s, c[i], c[i + 1]);
      }
      WaitingClimbs(s, c[i - 1], c[i], if i < |c| - 1 then c[i + 1] else c[0]);
    }
  }

  /** No interleaving ever reaches a set of transactions waiting on each other's locks. */
  lemma NoDeadlock(states: seq<State>, steps: seq<Step>, i: nat, c: seq<Tx>)
    requires Run(true, states, steps) && i < |states|
    ensures !WaitCycle(states[i], c)
  {
    RunKeepsInv(states, steps, i);
    var s := states[i];
    if WaitCycle(s, c) {
      RanksClimb(s, c, |c| - 1);
      if |c| > 1 {
        assert WaitsFor(s, c[0], c[1]);
        WaitingClimbs(s, c[|c| - 1], c[0], c[1]);
      }
    }
  }

  // ---- what the foreign key's lock is for -------------------------------------------------------

  ghost predicate Reachable(fk: bool, s: State) {
    exists states: seq<State>, steps: seq<Step> :: Run(fk, states, steps) && states[|states| - 1] == s
  }

  lemma Start(fk: bool)
    ensures Reachable(fk, State(map[], map[], map[]))
  {
    assert Run(fk, [State(map[], map[], map[])], []);
  }

  lemma OneMore(fk: bool, s: State, step: Step)
    requires Reachable(fk, s) && Enabled(fk, s, step)
    ensures Reachable(fk, Apply(s, step))
  {
    var states: seq<State>, steps: seq<Step> :| Run(fk, states, steps) && states[|states| - 1] == s;
    assert Run(fk, states + [Apply(s, step)], steps + [step]);
  }

  const LOCKING: Txn := Txn(TaskJob(1, T.Start), true, {}, {}, map[], map[], None)
  const STARTING: Txn := Txn(TaskJob(1, T.Start), true, {}, {}, map[1 := T.InProgress], map[], Some([]))
  const CREATING: Txn := Txn(CreateJob(5), false, {}, {}, map[], map[], None)

  lemma LockedIsReachable()
    ensures Reachable(false, State(map[1 := T.NotStarted], map[], map[7 := LOCKING]))
  {
    var tasks := map[1 := T.NotStarted];
    var s1 := State(tasks, map[], map[]);
    var s2 := State(tasks, map[], map[7 := LOCKING.(taskLocked := false)]);
    assert Reachable(false, s1) by {
      Start(false);
      OneMore(false, State(map[], map[], map[]), CreateTask(1));
      assert Apply(State(map[], map[], map[]), CreateTask(1)) == s1;
    }
    OneMore(false, s1, Begin(7, TaskJob(1, T.Start)));
    assert Apply(s1, Begin(7, TaskJob(1, T.Start))) == s2;
    OneMore(false, s2, LockTask(7));
    assert Apply(s2, LockTask(7)) == State(tasks, map[], map[7 := LOCKING]);
  }

  /** Task 1 is being started and has found no Milestone to re-derive. */
  lemma StartedIsReachable()
    ensures Reachable(false, State(map[1 := T.NotStarted], map[], map[7 := STARTING, 8 := CREATING]))
  {
    var tasks := map[1 := T.NotStarted];
    var wrote := LOCKING.(tw := map[1 := T.InProgress]);
    var s3 := State(tasks, map[], map[7 := LOCKING]);
    var s4 := State(tasks, map[], map[7 := wrote]);
    var s5 := State(tasks, map[], map[7 := STARTING]);
    var s6 := State(tasks, map[], map[7 := STARTING, 8 := CREATING]);
    assert Reachable(false, s5) by {
      LockedIsReachable();
      OneMore(false, s3, WriteStatus(7));
      assert Apply(s3, WriteStatus(7)) == s4;
      OneMore(false, s4, SelectMilestones(7, []));
      assert Apply(s4, SelectMilestones(7, [])) == s5;
    }
    OneMore(false, s5, Begin(8, CreateJob(5)));
    assert Apply(s5, Begin(8, CreateJob(5))) == s6;
  }

  const WAITING: MRow := MRow(M.Milestone(M.NotStarted, M.Manual, None, 1, None, None, false), [(1, true)])
  const CONTRIBUTING: Txn := Txn(CreateJob(5), false, {1}, {}, map[], map[5 := WAITING], None)

  /** Without the share lock, a Milestone may take Task 1 as a contributor while its status is being written. */
  lemma ContributingIsReachable()
    ensures Reachable(false, State(map[1 := T.NotStarted], map[], map[7 := STARTING, 8 := CONTRIBUTING]))
  {
    var tasks := map[1 := T.NotStarted];
    StartedIsReachable();
    var s6 := State(tasks, map[], map[7 := STARTING, 8 := CREATING]);
    var inserted := CREATING.(mw := map[5 := NewRow(M.Manual, None)]);
    var s7 := State(tasks, map[], map[7 := STARTING, 8 := inserted]);
    assert Reachable(false, s7) by {
      OneMore(false, s6, InsertMilestone(8, M.Manual, None));
      assert Apply(s6, InsertMilestone(8, M.Manual, None)) == s7;
    }
    OneMore(false, s7, InsertContribution(8, 1, true));
    assert inserted.shares + {1} == {1} && NewRow(M.Manual, None).from + [(1, true)] == WAITING.from;
    assert inserted.mw[5 := WAITING] == map[5 := WAITING];
    assert Apply(s7, InsertContribution(8, 1, true)) == State(tasks, map[], map[7 := STARTING, 8 := CONTRIBUTING]);
  }

  const DERIVED: Txn := CONTRIBUTING.(todo := Some([]))

  /** It is derived from the Task's old status. */
  lemma DerivedIsReachable()
    ensures Reachable(false, State(map[1 := T.NotStarted], map[], map[7 := STARTING, 8 := DERIVED]))
  {
    var tasks := map[1 := T.NotStarted];
    var none: map<Id, MRow> := map[];
    var s8 := State(tasks, none, map[7 := STARTING, 8 := CONTRIBUTING]);
    ContributingIsReachable();
    OneMore(false, s8, DeriveNew(8, false, 0));
    assert M.StatesOf(WAITING.from, tasks)[0] == (T.NotStarted, true);
    assert M.Recomputed(WAITING.m, M.StatesOf(WAITING.from, tasks), false, 0) == WAITING.m;
    assert CONTRIBUTING.mw[5 := WAITING] == map[5 := WAITING];
    assert Apply(s8, DeriveNew(8, false, 0)) == State(tasks, none, map[7 := STARTING, 8 := DERIVED]);
  }

  /** And it commits first. */
  lemma CreatedMeanwhile()
    ensures Reachable(false, State(map[1 := T.NotStarted], map[5 := WAITING], map[7 := STARTING]))
  {
    var tasks := map[1 := T.NotStarted];
    var none: map<Id, MRow> := map[];
    var s9 := State(tasks, none, map[7 := STARTING, 8 := DERIVED]);
    DerivedIsReachable();
    OneMore(false, s9, Commit(8));
    assert none + map[5 := WAITING] == map[5 := WAITING];
    assert Apply(s9, Commit(8)) == State(tasks, map[5 := WAITING], map[7 := STARTING]);
  }

  /** Without the foreign key's share lock a created Milestone can stay stale: nothing re-derives it. */
  lemma UnsharedCreationGoesStale()
    ensures exists s, m :: Reachable(false, s) && m in s.milestones && Known(s.milestones[m].from, s.tasks)
              && M.DeriveTarget(s.milestones[m].m.status, M.StatesOf(s.milestones[m].from, s.tasks)) != s.milestones[m].m.status
              && s.open == map[]
  {
    var m := WAITING;
    CreatedMeanwhile();
    var s10 := State(map[1 := T.NotStarted], map[5 := m], map[7 := STARTING]);
    OneMore(false, s10, Commit(7));
    var s11 := Apply(s10, Commit(7));
    var cs := M.StatesOf(m.from, s11.tasks);
    assert cs[0] == (T.InProgress, true);
    assert M.DeriveTarget(m.m.status, cs) == M.InProgress;
    assert 5 in s11.milestones && s11.milestones[5] == m;
  }

  // ---- a transaction with no other beside it ----------------------------------------------------

  /** What each job makes of a Milestone row: it re-derives it, confirms it, or marks it missed while it is open. */
  lemma WrittenIs(job: Job, r: MRow, tasks: map<Id, T.TaskStatus>, autoAllowed: bool, now: M.Time)
    requires Known(r.from, tasks)
    ensures var r' := Written(job, r, tasks, autoAllowed, now);
            && r'.from == r.from
            && match job
               case TaskJob(_, _) => M.Progressed(r.m, r'.m, M.StatesOf(r.from, tasks), autoAllowed, now)
               case CreateJob(_) => r' == r
               case ConfirmJob(_) =>
                 r'.m == r.m.(status := M.Achieved, version := r.m.version + 1, achievedAt := Some(now), autoConfirmed := false)
               case SweepJob =>
                 r'.m == if r.m.status == M.Achieved || r.m.status == M.Missed then r.m
                         else r.m.(status := M.Missed, version := r.m.version + 1)
  {
    M.RecomputedProgresses(r.m, M.StatesOf(r.from, tasks), autoAllowed, now);
  }

  ghost predicate By(t: Tx, states: seq<State>, steps: seq<Step>, i: nat)
    requires |states| == |steps| + 1 && i < |steps|
  {
    !steps[i].CreateTask? && steps[i].t == t && Enabled(true, states[i], steps[i]) && states[i + 1] == Apply(states[i], steps[i])
  }

  ghost predicate Path(t: Tx, states: seq<State>, steps: seq<Step>) {
    |states| == |steps| + 1 && forall i: nat :: i < |steps| ==> By(t, states, steps, i)
  }

  /** Some statements of one transaction, one after another, lead from the one state to the other. */
  ghost predicate Leads(t: Tx, s: State, s': State) {
    exists states: seq<State>, steps: seq<Step> :: Path(t, states, steps) && states[0] == s && states[|steps|] == s'
  }

  lemma LeadsNowhere(t: Tx, s: State)
    ensures Leads(t, s, s)
  {
    var none: seq<Step> := [];
    assert Path(t, [s], none);
  }

  lemma LeadsOn(t: Tx, s: State, step: Step, s': State)
    requires Enabled(true, s, step) && !step.CreateTask? && step.t == t && Leads(t, Apply(s, step), s')
    ensures Leads(t, s, s')
  {
    var states: seq<State>, steps: seq<Step> :| Path(t, states, steps) && states[0] == Apply(s, step) && states[|steps|] == s';
    var states', steps' := [s] + states, [step] + steps;
    forall i: nat | i < |steps'|
      ensures By(t, states', steps', i)
    {
      assert i > 0 ==> By(t, states, steps, i - 1);
    }
    assert Path(t, states', steps');
  }

  /** One statement of the only open transaction. */
  lemma Does(s: State, t: Tx, x: Txn, step: Step, y: Txn, s': State)
    requires s.open == map[t := x] && Own(step) && step.t == t && Enabled(true, s, step) && After(s, step) == y
    requires Leads(t, s.(open := map[t := y]), s')
    ensures Leads(t, s, s')
  {
    assert map[t := x][t := y] == map[t := y];
    LeadsOn(t, s, step, s');
  }

  lemma Begins(s: State, t: Tx, job: Job, s': State)
    requires s.open == map[] && Enabled(true, s, Begin(t, job))
    requires Leads(t, s.(open := map[t := After(s, Begin(t, job))]), s')
    ensures Leads(t, s, s')
  {
    var none: map<Tx, Txn> := map[];
    assert none[t := After(s, Begin(t, job))] == map[t := After(s, Begin(t, job))];
    LeadsOn(t, s, Begin(t, job), s');
  }

  lemma Commits(s: State, t: Tx, x: Txn)
    requires s.open == map[t := x] && x.todo == Some([])
    ensures Leads(t, s, State(s.tasks + x.tw, s.milestones + x.mw, map[]))
  {
    LeadsNowhere(t, State(s.tasks + x.tw, s.milestones + x.mw, map[]));
    LeadsOn(t, s, Commit(t), State(s.tasks + x.tw, s.milestones + x.mw, map[]));
  }

  /** Each of these rows as the job leaves it; `auto` are the Milestones for which confirmation may be automatic. */
  ghost function AllWritten(job: Job, ms: map<Id, MRow>, ids: seq<Id>, tasks: map<Id, T.TaskStatus>, auto: set<Id>, now: M.Time): map<Id, MRow>
    requires forall m :: m in ids ==> m in ms && Known(ms[m].from, tasks)
  {
    map m | m in ids :: Written(job, ms[m], tasks, m in auto, now)
  }

  ghost predicate Writable(s: State, x: Txn, ids: seq<Id>) {
    && !x.job.CreateJob? && T.Ascending(ids)
    && forall m :: m in ids ==>
         && m in s.milestones && m !in x.held && Known(s.milestones[m].from, s.tasks)
         && (x.job.ConfirmJob? ==> s.milestones[m].m.status == M.ReadyForConfirmation)
  }

  lemma TailIsWritable(s: State, x: Txn, ids: seq<Id>)
    requires Writable(s, x, ids) && ids != []
    ensures Writable(s, x.(held := x.held + {ids[0]}), ids[1..])
  {
    forall m | m in ids[1..]
      ensures m in ids && m != ids[0]
    {
      var i :| 0 <= i < |ids[1..]| && ids[1..][i] == m;
      assert ids[i + 1] == m;
    }
  }

  lemma WritesLocked(s: State, t: Tx, x: Txn, ids: seq<Id>, autoAllowed: bool, now: M.Time, s': State)
    requires s.open == map[t := x] && x.todo == Some(ids) && ids != [] && ids[0] in x.held && !x.job.CreateJob?
    requires ids[0] in s.milestones && Known(s.milestones[ids[0]].from, s.tasks)
    requires x.job.ConfirmJob? ==> s.milestones[ids[0]].m.status == M.ReadyForConfirmation
    requires var r := Written(x.job, s.milestones[ids[0]], s.tasks + x.tw, autoAllowed, now);
             Leads(t, s.(open := map[t := AfterWrite(x, r)]), s')
    ensures Leads(t, s, s')
  {
    var r := Written(x.job, s.milestones[ids[0]], s.tasks + x.tw, autoAllowed, now);
    Does(s, t, x, WriteMilestone(t, autoAllowed, now), AfterWrite(x, r), s');
  }

  /** The head of the list: locked, then written. */
  lemma WritesHead(s: State, t: Tx, x: Txn, ids: seq<Id>, auto: set<Id>, now: M.Time, s': State)
    requires s.open == map[t := x] && x.todo == Some(ids) && ids != [] && Writable(s, x, ids)
    requires var r := Written(x.job, s.milestones[ids[0]], s.tasks + x.tw, ids[0] in auto, now);
             Leads(t, s.(open := map[t := AfterWrite(x.(held := x.held + {ids[0]}), r)]), s')
    ensures Leads(t, s, s')
  {
    var y := x.(held := x.held + {ids[0]});
    WritesLocked(s.(open := map[t := y]), t, y, ids, ids[0] in auto, now, s');
    Does(s, t, x, LockMilestone(t), y, s');
  }

  lemma WrittenLater(job: Job, ms: map<Id, MRow>, ids: seq<Id>, tasks: map<Id, T.TaskStatus>, auto: set<Id>, now: M.Time, mw: map<Id, MRow>)
    requires ids != [] && forall m :: m in ids ==> m in ms && Known(ms[m].from, tasks)
    ensures mw[ids[0] := Written(job, ms[ids[0]], tasks, ids[0] in auto, now)] + AllWritten(job, ms, ids[1..], tasks, auto, now)
            == mw + AllWritten(job, ms, ids, tasks, auto, now)
  {
    assert forall m :: m in ids <==> m == ids[0] || m in ids[1..];
    var head := Written(job, ms[ids[0]], tasks, ids[0] in auto, now);
    var left := mw[ids[0] := head] + AllWritten(job, ms, ids[1..], tasks, auto, now);
    var right := mw + AllWritten(job, ms, ids, tasks, auto, now);
    assert left.Keys == right.Keys && forall m :: m in left ==> left[m] == right[m];
  }

  lemma {:induction false} WritesAll(s: State, t: Tx, x: Txn, ids: seq<Id>, auto: set<Id>, now: M.Time)
    requires s.open == map[t := x] && x.todo == Some(ids) && Writable(s, x, ids)
    ensures Leads(t, s, State(s.tasks + x.tw, s.milestones + (x.mw + AllWritten(x.job, s.milestones, ids, s.tasks + x.tw, auto, now)), map[]))
    decreases |ids|
  {
    var s' := State(s.tasks + x.tw, s.milestones + (x.mw + AllWritten(x.job, s.milestones, ids, s.tasks + x.tw, auto, now)), map[]);
    if ids == [] {
      assert x.mw + AllWritten(x.job, s.milestones, ids, s.tasks + x.tw, auto, now) == x.mw;
      Commits(s, t, x);
    } else {
      var y := x.(held := x.held + {ids[0]});
      var r := Written(x.job, s.milestones[ids[0]], s.tasks + x.tw, ids[0] in auto, now);
      TailIsWritable(s, x, ids);
      WrittenLater(x.job, s.milestones, ids, s.tasks + x.tw, auto, now, x.mw);
      WritesAll(s.(open := map[t := AfterWrite(y, r)]), t, AfterWrite(y, r), ids[1..], auto, now);
      WritesHead(s, t, x, ids, auto, now, s');
    }
  }

  lemma TaskSelects(s: State, t: Tx, x: Txn, k: Id, c: T.TaskCommand, ids: seq<Id>, s': State)
    requires s.open == map[t := x] && x == Txn(TaskJob(k, c), true, {}, {}, map[k := T.Target(c)], map[], None)
    requires T.Ascending(ids) && forall m :: m in ids <==> m in s.milestones && M.ContributesTo(k, s.milestones[m].from)
    requires Leads(t, s.(open := map[t := x.(todo := Some(ids))]), s')
    ensures Leads(t, s, s')
  {
    Does(s, t, x, SelectMilestones(t, ids), x.(todo := Some(ids)), s');
  }

  lemma TaskWrites(s: State, t: Tx, x: Txn, k: Id, c: T.TaskCommand, s': State)
    requires s.open == map[t := x] && x == Txn(TaskJob(k, c), true, {}, {}, map[], map[], None)
    requires k in s.tasks && T.Legal(c, s.tasks[k])
    requires Leads(t, s.(open := map[t := x.(tw := map[k := T.Target(c)])]), s')
    ensures Leads(t, s, s')
  {
    Does(s, t, x, WriteStatus(t), x.(tw := map[k := T.Target(c)]), s');
  }

  lemma TaskMoves(s: State, t: Tx, k: Id, c: T.TaskCommand, s': State)
    requires s.open == map[] && k in s.tasks && T.Legal(c, s.tasks[k])
    requires Leads(t, s.(open := map[t := Txn(TaskJob(k, c), true, {}, {}, map[k := T.Target(c)], map[], None)]), s')
    ensures Leads(t, s, s')
  {
    var x0 := Txn(TaskJob(k, c), false, {}, {}, map[], map[], None);
    var x1 := x0.(taskLocked := true);
    TaskWrites(s.(open := map[t := x1]), t, x1, k, c, s');
    Does(s.(open := map[t := x0]), t, x0, LockTask(t), x1, s');
    Begins(s, t, TaskJob(k, c), s');
  }

  lemma TaskPrelude(s: State, t: Tx, k: Id, c: T.TaskCommand, ids: seq<Id>, s': State)
    requires s.open == map[] && k in s.tasks && T.Legal(c, s.tasks[k])
    requires T.Ascending(ids) && forall m :: m in ids <==> m in s.milestones && M.ContributesTo(k, s.milestones[m].from)
    requires Leads(t, s.(open := map[t := Txn(TaskJob(k, c), true, {}, {}, map[k := T.Target(c)], map[], Some(ids))]), s')
    ensures Leads(t, s, s')
  {
    var x := Txn(TaskJob(k, c), true, {}, {}, map[k := T.Target(c)], map[], None);
    TaskSelects(s.(open := map[t := x]), t, x, k, c, ids, s');
    TaskMoves(s, t, k, c, s');
  }

  lemma RederivedAre(ms: map<Id, MRow>, k: Id, c: T.TaskCommand, ids: seq<Id>, tasks: map<Id, T.TaskStatus>, auto: set<Id>, now: M.Time)
    requires forall m :: m in ids ==> m in ms && Known(ms[m].from, tasks)
    ensures var after := ms + AllWritten(TaskJob(k, c), ms, ids, tasks, auto, now);
            && after.Keys == ms.Keys
            && forall m :: m in ms ==>
                 if m in ids then
                   && after[m].from == ms[m].from
                   && M.Progressed(ms[m].m, after[m].m, M.StatesOf(ms[m].from, tasks), m in auto, now)
                 else after[m] == ms[m]
  {
    forall m | m in ids
      ensures var r := Written(TaskJob(k, c), ms[m], tasks, m in auto, now);
              r.from == ms[m].from && M.Progressed(ms[m].m, r.m, M.StatesOf(ms[m].from, tasks), m in auto, now)
    {
      WrittenIs(TaskJob(k, c), ms[m], tasks, m in auto, now);
    }
  }

  /** A Task command alone moves the Task and re-derives exactly the Milestones it contributes to. */
  lemma TaskCommandAlone(s: State, t: Tx, k: Id, c: T.TaskCommand, ids: seq<Id>, auto: set<Id>, now: M.Time) returns (s': State)
    requires s.open == map[] && k in s.tasks && T.Legal(c, s.tasks[k])
    requires forall m :: m in s.milestones ==> Known(s.milestones[m].from, s.tasks)
    requires T.Ascending(ids) && forall m :: m in ids <==> m in s.milestones && M.ContributesTo(k, s.milestones[m].from)
    ensures Leads(t, s, s') && s'.open == map[] && s'.tasks == s.tasks[k := T.Target(c)] && s'.milestones.Keys == s.milestones.Keys
    ensures forall m :: m in s.milestones ==>
              if M.ContributesTo(k, s.milestones[m].from) then
                && s'.milestones[m].from == s.milestones[m].from && Known(s.milestones[m].from, s'.tasks)
                && M.Progressed(s.milestones[m].m, s'.milestones[m].m, M.StatesOf(s.milestones[m].from, s'.tasks), m in auto, now)
              else s'.milestones[m] == s.milestones[m]
  {
    var x := Txn(TaskJob(k, c), true, {}, {}, map[k := T.Target(c)], map[], Some(ids));
    var tasks := s.tasks[k := T.Target(c)];
    assert tasks == s.tasks + x.tw;
    var written := AllWritten(x.job, s.milestones, ids, tasks, auto, now);
    s' := State(tasks, s.milestones + written, map[]);
    assert x.mw + written == written;
    WritesAll(s.(open := map[t := x]), t, x, ids, auto, now);
    TaskPrelude(s, t, k, c, ids, s');
    RederivedAre(s.milestones, k, c, ids, tasks, auto, now);
  }

  /** A confirmation alone makes the waiting Milestone ACHIEVED, by hand. */
  lemma ConfirmationAlone(s: State, t: Tx, m: Id, now: M.Time)
    requires s.open == map[] && m in s.milestones && Known(s.milestones[m].from, s.tasks)
    requires s.milestones[m].m.status == M.ReadyForConfirmation
    ensures var r := s.milestones[m].m;
            Leads(t, s, s.(milestones := s.milestones[m := MRow(
              r.(status := M.Achieved, version := r.version + 1, achievedAt := Some(now), autoConfirmed := false), s.milestones[m].from)]))
  {
    var r := s.milestones[m].m;
    var s' := s.(milestones := s.milestones[m := MRow(
                   r.(status := M.Achieved, version := r.version + 1, achievedAt := Some(now), autoConfirmed := false), s.milestones[m].from)]);
    var x := Txn(ConfirmJob(m), false, {}, {}, map[], map[], Some([m]));
    assert s.tasks + x.tw == s.tasks;
    var written := AllWritten(x.job, s.milestones, [m], s.tasks, {}, now);
    WrittenIs(x.job, s.milestones[m], s.tasks, false, now);
    assert s.milestones + (x.mw + written) == s'.milestones;
    WritesAll(s.(open := map[t := x]), t, x, [m], {}, now);
    Begins(s, t, ConfirmJob(m), s');
  }

  lemma SweepPrelude(s: State, t: Tx, ids: seq<Id>, at: M.Time, s': State)
    requires s.open == map[] && T.Ascending(ids) && forall m :: m in ids ==> m in s.milestones && Overdue(s.milestones[m], at)
    requires Leads(t, s.(open := map[t := Txn(SweepJob, false, {}, {}, map[], map[], Some(ids))]), s')
    ensures Leads(t, s, s')
  {
    var x := Txn(SweepJob, false, {}, {}, map[], map[], None);
    Does(s.(open := map[t := x]), t, x, SelectOverdue(t, ids, at), x.(todo := Some(ids)), s');
    Begins(s, t, SweepJob, s');
  }

  lemma MissedAre(ms: map<Id, MRow>, ids: seq<Id>, tasks: map<Id, T.TaskStatus>, at: M.Time)
    requires forall m :: m in ids ==> m in ms && Overdue(ms[m], at) && Known(ms[m].from, tasks)
    ensures var after := ms + AllWritten(SweepJob, ms, ids, tasks, {}, at);
            && after.Keys == ms.Keys
            && forall m :: m in ms ==>
                 after[m] == if m in ids then ms[m].(m := ms[m].m.(status := M.Missed, version := ms[m].m.version + 1)) else ms[m]
  {
    forall m | m in ids
      ensures Written(SweepJob, ms[m], tasks, false, at) == ms[m].(m := ms[m].m.(status := M.Missed, version := ms[m].m.version + 1))
    {
      WrittenIs(SweepJob, ms[m], tasks, false, at);
    }
  }

  /** A sweep alone marks exactly the Milestones it selected as MISSED. */
  lemma SweepAlone(s: State, t: Tx, ids: seq<Id>, at: M.Time) returns (s': State)
    requires s.open == map[] && T.Ascending(ids)
    requires forall m :: m in ids ==> m in s.milestones && Overdue(s.milestones[m], at) && Known(s.milestones[m].from, s.tasks)
    ensures Leads(t, s, s') && s'.open == map[] && s'.tasks == s.tasks && s'.milestones.Keys == s.milestones.Keys
    ensures forall m :: m in s.milestones ==>
              s'.milestones[m] == if m in ids then s.milestones[m].(m := s.milestones[m].m.(status := M.Missed, version := s.milestones[m].m.version + 1))
                                  else s.milestones[m]
  {
    var x := Txn(SweepJob, false, {}, {}, map[], map[], Some(ids));
    assert s.tasks + x.tw == s.tasks;
    var written := AllWritten(x.job, s.milestones, ids, s.tasks, {}, at);
    s' := State(s.tasks, s.milestones + written, map[]);
    assert x.mw + written == written;
    WritesAll(s.(open := map[t := x]), t, x, ids, {}, at);
    SweepPrelude(s, t, ids, at, s');
    MissedAre(s.milestones, ids, s.tasks, at);
  }

  /** The contributions of a creation, one statement each, then the derivation and the commit. */
  lemma {:induction false} Contributes(s: State, t: Tx, x: Txn, m: Id, row: M.Milestone, from: seq<M.Contribution>, i: nat,
                                       autoAllowed: bool, now: M.Time)
    requires s.open == map[t := x] && x.job == CreateJob(m) && x.tw == map[] && x.todo == None && i <= |from| && Known(from, s.tasks)
    requires x.mw == map[m := MRow(row, from[..i])]
    ensures Leads(t, s, State(s.tasks, s.milestones[m := MRow(M.Recomputed(row, M.StatesOf(from, s.tasks), autoAllowed, now), from)], map[]))
    decreases |from| - i
  {
    var s' := State(s.tasks, s.milestones[m := MRow(M.Recomputed(row, M.StatesOf(from, s.tasks), autoAllowed, now), from)], map[]);
    if i == |from| {
      assert from[..i] == from;
      DerivesNew(s, t, x, m, row, from, autoAllowed, now);
    } else {
      var y := x.(shares := x.shares + {from[i].0}, mw := map[m := MRow(row, from[..i + 1])]);
      Contributes(s.(open := map[t := y]), t, y, m, row, from, i + 1, autoAllowed, now);
      ContributesOne(s, t, x, m, row, from, i, s');
    }
  }

  lemma ContributesOne(s: State, t: Tx, x: Txn, m: Id, row: M.Milestone, from: seq<M.Contribution>, i: nat, s': State)
    requires s.open == map[t := x] && x.job == CreateJob(m) && x.todo == None && i < |from| && from[i].0 in s.tasks
    requires x.mw == map[m := MRow(row, from[..i])]
    requires Leads(t, s.(open := map[t := x.(shares := x.shares + {from[i].0}, mw := map[m := MRow(row, from[..i + 1])])]), s')
    ensures Leads(t, s, s')
  {
    var y := x.(shares := x.shares + {from[i].0}, mw := map[m := MRow(row, from[..i + 1])]);
    assert from[..i + 1] == from[..i] + [from[i]] && x.mw[m := MRow(row, from[..i + 1])] == y.mw;
    Does(s, t, x, InsertContribution(t, from[i].0, from[i].1), y, s');
  }

  lemma DerivesNew(s: State, t: Tx, x: Txn, m: Id, row: M.Milestone, from: seq<M.Contribution>, autoAllowed: bool, now: M.Time)
    requires s.open == map[t := x] && x.job == CreateJob(m) && x.tw == map[] && x.todo == None && Known(from, s.tasks)
    requires x.mw == map[m := MRow(row, from)]
    ensures Leads(t, s, State(s.tasks, s.milestones[m := MRow(M.Recomputed(row, M.StatesOf(from, s.tasks), autoAllowed, now), from)], map[]))
  {
    var derived := MRow(M.Recomputed(row, M.StatesOf(from, s.tasks), autoAllowed, now), from);
    var y := x.(mw := map[m := derived], todo := Some([]));
    assert x.mw[m := derived] == y.mw && s.tasks + y.tw == s.tasks && s.milestones + y.mw == s.milestones[m := derived];
    Commits(s.(open := map[t := y]), t, y);
    Does(s, t, x, DeriveNew(t, autoAllowed, now), y, State(s.tasks, s.milestones[m := derived], map[]));
  }

  /** A creation alone adds the Milestone with all its contributions, derived from their Tasks at once. */
  lemma CreationAlone(s: State, t: Tx, m: Id, mode: M.Mode, targetAt: Option<M.Time>, from: seq<M.Contribution>, autoAllowed: bool, now: M.Time)
    returns (row: M.Milestone)
    requires s.open == map[] && m !in s.milestones && Known(from, s.tasks)
    ensures Leads(t, s, State(s.tasks, s.milestones[m := MRow(row, from)], map[]))
    ensures M.Progressed(M.Milestone(M.NotStarted, mode, targetAt, 1, None, None, false), row, M.StatesOf(from, s.tasks), autoAllowed, now)
  {
    var new0 := M.NewMilestone(mode, targetAt);
    row := M.Recomputed(new0, M.StatesOf(from, s.tasks), autoAllowed, now);
    M.RecomputedProgresses(new0, M.StatesOf(from, s.tasks), autoAllowed, now);
    var s' := State(s.tasks, s.milestones[m := MRow(row, from)], map[]);
    var x0 := After(s, Begin(t, CreateJob(m)));
    var x1 := x0.(mw := map[m := MRow(new0, from[..0])]);
    assert from[..0] == [];
    Contributes(s.(open := map[t := x1]), t, x1, m, new0, from, 0, autoAllowed, now);
    Does(s.(open := map[t := x0]), t, x0, InsertMilestone(t, mode, targetAt), x1, s');
    Begins(s, t, CreateJob(m), s');
  }
}
