/**
 What the Task row's lock is for: a run from the empty store in which, without that lock, two verifies of
 sibling Blockers leave their Task BLOCKED with no active Blocker. One lemma for each statement of the run.
 */
module BlockerWitness {
  import opened Prelude
  import T = TaskStates
  import B = Blockers
  import opened BlockerTransactions

  /** The store can get into this state. `guard` says whether the Task row is locked. */
  ghost predicate Reachable(guard: bool, s: State) {
    exists states: seq<State>, steps: seq<Step> :: Run(guard, states, steps) && states[|states| - 1] == s
  }

  lemma OneMore(guard: bool, s: State, step: Step)
    requires Reachable(guard, s) && Enabled(guard, s, step)
    ensures Reachable(guard, Apply(s, step))
  {
    var states: seq<State>, steps: seq<Step> :| Run(guard, states, steps) && states[|states| - 1] == s;
    assert Run(guard, states + [Apply(s, step)], steps + [step]);
  }

  /** Whatever a store with the lock can do, one without it can do. */
  lemma Unguarded(s: State)
    requires Reachable(true, s)
    ensures Reachable(false, s)
  {
    var states: seq<State>, steps: seq<Step> :| Run(true, states, steps) && states[|states| - 1] == s;
    forall i, j | 0 <= i < |steps| && j == i + 1
      ensures Next(false, states[i], steps[i], states[j])
    {
      assert Next(true, states[i], steps[i], states[j]);
    }
    assert Run(false, states, steps);
  }

  ghost function Store(tasks: map<Id, T.TaskStatus>, blockers: map<Id, B.Blocker>, open: map<Tx, Txn>): State {
    State(tasks, blockers, map[], open)
  }

  /** One statement of t, seen as a new record for t. */
  lemma OneStatement(guard: bool, s: State, t: Tx, x: Txn, step: Step, y: Txn)
    requires Reachable(guard, s.(open := s.open[t := x])) && Enabled(guard, s.(open := s.open[t := x]), step)
    requires Apply(s.(open := s.open[t := x]), step) == Put(s.(open := s.open[t := x]), t, y)
    ensures Reachable(guard, s.(open := s.open[t := y]))
  {
    OneMore(guard, s.(open := s.open[t := x]), step);
    assert s.open[t := x][t := y] == s.open[t := y];
  }

  lemma Begins(guard: bool, s: State, t: Tx, job: Job)
    requires Reachable(guard, s) && t !in s.open
    ensures Reachable(guard, s.(open := s.open[t := BegunTxn(job)]))
  {
    OneMore(guard, s, Begin(t, job));
  }

  ghost function Owning(job: Job, k: Id): Txn {
    BegunTxn(job).(phase := Phase.Owning, taskLock := Some(k))
  }

  lemma LocksTask(guard: bool, s: State, t: Tx, job: Job, k: Id)
    requires Reachable(guard, s.(open := s.open[t := BegunTxn(job)])) && t !in s.open && Locks(s, job, k)
    requires guard ==> s.open == map[]
    ensures Reachable(guard, s.(open := s.open[t := Owning(job, k)]))
  {
    OneStatement(guard, s, t, BegunTxn(job), LockTask(t, k), Owning(job, k));
  }

  // ---- a transaction alone ----------------------------------------------------------------------

  ghost function TaskDone(k: Id, c: T.TaskCommand, created: Id): Txn {
    Owning(TaskJob(k, c), k).(phase := Done, tw := map[k := T.Target(c)],
                              bw := if c == T.Block then map[created := B.NewBlocker(k, 0)] else map[])
  }

  lemma WritesTask(s: State, k: Id, c: T.TaskCommand, created: Id)
    requires Reachable(true, s.(open := s.open[7 := Owning(TaskJob(k, c), k)])) && s.open == map[]
    requires k in s.tasks && T.Legal(c, s.tasks[k]) && created !in s.blockers
    ensures Reachable(true, s.(open := s.open[7 := TaskDone(k, c, created)]))
  {
    OneStatement(true, s, 7, Owning(TaskJob(k, c), k), WriteTask(7, created, 0), TaskDone(k, c, created));
  }

  /** A commit, in a store without alerts, of a transaction that has touched none. */
  lemma Commits(guard: bool, s: State, t: Tx, x: Txn)
    requires Reachable(guard, s.(open := s.open[t := x])) && t !in s.open && s.alerts == map[]
    requires x.phase == Done && x.raised == map[]
    ensures Reachable(guard, s.(tasks := s.tasks + x.tw, blockers := s.blockers + x.bw))
  {
    OneMore(guard, s.(open := s.open[t := x]), Commit(t));
    assert Merged(map[], x) == map[] && s.open[t := x] - {t} == s.open;
  }

  lemma TaskRuns(s: State, k: Id, c: T.TaskCommand, created: Id)
    requires Reachable(true, s) && s.open == map[] && s.alerts == map[]
    requires k in s.tasks && T.Legal(c, s.tasks[k]) && created !in s.blockers
    ensures Reachable(true, s.(tasks := s.tasks + map[k := T.Target(c)], blockers := s.blockers + TaskDone(k, c, created).bw))
  {
    Begins(true, s, 7, TaskJob(k, c));
    LocksTask(true, s, 7, TaskJob(k, c), k);
    WritesTask(s, k, c, created);
    Commits(true, s, 7, TaskDone(k, c, created));
  }

  ghost function Loaded(b: Id, move: B.Command): Txn {
    Owning(BlockerJob(b, move), 1).(phase := Phase.Loaded, held := {b})
  }

  lemma LocksBlocker(guard: bool, s: State, t: Tx, b: Id, move: B.Command)
    requires Reachable(guard, s.(open := s.open[t := Owning(BlockerJob(b, move), 1)])) && t !in s.open
    requires b in s.blockers && forall u :: u in s.open ==> b !in s.open[u].held
    ensures Reachable(guard, s.(open := s.open[t := Loaded(b, move)]))
  {
    OneStatement(guard, s, t, Owning(BlockerJob(b, move), 1), LockBlocker(t), Loaded(b, move));
  }

  ghost function Clear(b: Id): Txn {
    Loaded(b, B.Assign).(phase := Cleared)
  }

  lemma ClearsAlerts(s: State, b: Id)
    requires Reachable(true, s.(open := s.open[7 := Loaded(b, B.Assign)])) && s.open == map[] && s.alerts == map[]
    requires b in s.blockers && s.blockers[b].status == B.Open
    ensures Reachable(true, s.(open := s.open[7 := Clear(b)]))
  {
    var cleared := Apply(s.(open := s.open[7 := Loaded(b, B.Assign)]), ResolveAlerts(7, 0)).open[7];
    assert cleared.resolves == map[];
    OneStatement(true, s, 7, Loaded(b, B.Assign), ResolveAlerts(7, 0), Clear(b));
  }

  ghost function Wrote(x: Txn, b: Id, row: B.Blocker): Txn {
    x.(phase := if x.job.BlockerJob? && x.job.move == B.Verify then Closing else Done, bw := map[b := row])
  }

  lemma WritesBlocker(guard: bool, s: State, t: Tx, x: Txn, b: Id, move: B.Command, now: Time)
    requires Reachable(guard, s.(open := s.open[t := x])) && t !in s.open && x.job == BlockerJob(b, move)
    requires b in s.blockers && B.Legal(move, s.blockers[b].status)
    requires x.phase == if s.blockers[b].status == B.Open then Cleared else Phase.Loaded
    ensures Reachable(guard, s.(open := s.open[t := Wrote(x, b, Moved(move, s.blockers[b], 9, None, Some(9), now))]))
  {
    var y := Wrote(x, b, Moved(move, s.blockers[b], 9, None, Some(9), now));
    OneStatement(guard, s, t, x, WriteBlocker(t, 9, None, Some(9), now), y);
  }

  lemma BlockerLoads(s: State, b: Id, move: B.Command)
    requires Reachable(true, s) && s.open == map[] && b in s.blockers && s.blockers[b].task == 1
    ensures Reachable(true, s.(open := s.open[7 := Loaded(b, move)]))
  {
    Begins(true, s, 7, BlockerJob(b, move));
    LocksTask(true, s, 7, BlockerJob(b, move), 1);
    LocksBlocker(true, s, 7, b, move);
  }

  lemma BlockerRuns(s: State, b: Id, move: B.Command, now: Time)
    requires Reachable(true, s) && s.open == map[] && s.alerts == map[] && b in s.blockers && s.blockers[b].task == 1
    requires move != B.Verify && B.Legal(move, s.blockers[b].status)
    ensures Reachable(true, s.(blockers := s.blockers + map[b := Moved(move, s.blockers[b], 9, None, Some(9), now)]))
  {
    BlockerLoads(s, b, move);
    var x := Loaded(b, move);
    if s.blockers[b].status == B.Open {
      ClearsAlerts(s, b);
      x := Clear(b);
    }
    WritesBlocker(true, s, 7, x, b, move, now);
    var y := Wrote(x, b, Moved(move, s.blockers[b], 9, None, Some(9), now));
    Commits(true, s, 7, y);
    assert s.tasks + y.tw == s.tasks;
  }

  // ---- two Blockers, both resolved --------------------------------------------------------------

  ghost const NEW: B.Blocker := B.NewBlocker(1, 0)
  ghost const FIXED: B.Blocker := B.Blocker(1, B.Resolved, 4, None, Some(9), 0, Some(1), Some(2), None, None)
  ghost const SHUT: B.Blocker := B.ClosedRow(FIXED, 3)

  lemma BlockedOnce()
    ensures Reachable(true, Store(map[1 := T.Blocked], map[2 := NEW], map[]))
  {
    var s0 := Store(map[], map[], map[]);
    assert Run(true, [s0], []);
    OneMore(true, s0, CreateTask(1));
    var s1 := Store(map[1 := T.NotStarted], map[], map[]);
    assert Apply(s0, CreateTask(1)) == s1;
    TaskRuns(s1, 1, T.Start, 0);
    assert map[1 := T.NotStarted] + map[1 := T.InProgress] == map[1 := T.InProgress];
    var s2 := Store(map[1 := T.InProgress], map[], map[]);
    TaskRuns(s2, 1, T.Block, 2);
    assert map[1 := T.InProgress] + map[1 := T.Blocked] == map[1 := T.Blocked];
    assert s2.blockers + map[2 := NEW] == map[2 := NEW];
  }

  /** Resumed by an override and blocked again: two Blockers. */
  lemma BlockedTwice()
    ensures Reachable(true, Store(map[1 := T.Blocked], map[2 := NEW, 3 := NEW], map[]))
  {
    BlockedOnce();
    var s1 := Store(map[1 := T.Blocked], map[2 := NEW], map[]);
    TaskRuns(s1, 1, T.Resume, 0);
    assert map[1 := T.Blocked] + map[1 := T.InProgress] == map[1 := T.InProgress];
    assert s1.blockers + map[] == s1.blockers;
    var s2 := Store(map[1 := T.InProgress], map[2 := NEW], map[]);
    TaskRuns(s2, 1, T.Block, 3);
    assert map[1 := T.InProgress] + map[1 := T.Blocked] == map[1 := T.Blocked];
    assert s2.blockers + map[3 := NEW] == map[2 := NEW, 3 := NEW];
  }

  /** Assigned, started and resolved. */
  lemma Fixed(blockers: map<Id, B.Blocker>, b: Id)
    requires b in blockers && blockers[b] == NEW && Reachable(true, Store(map[1 := T.Blocked], blockers, map[]))
    ensures Reachable(true, Store(map[1 := T.Blocked], blockers[b := FIXED], map[]))
  {
    var s := Store(map[1 := T.Blocked], blockers, map[]);
    var routed := B.AssignedRow(NEW, None, Some(9));
    var started := B.StartedRow(routed, 9, 1);
    BlockerRuns(s, b, B.Assign, 0);
    assert blockers + map[b := routed] == blockers[b := routed];
    BlockerRuns(s.(blockers := blockers[b := routed]), b, B.Start, 1);
    assert blockers[b := routed] + map[b := started] == blockers[b := started];
    BlockerRuns(s.(blockers := blockers[b := started]), b, B.Resolve, 2);
    assert blockers[b := started] + map[b := FIXED] == blockers[b := FIXED];
  }

  ghost const TWO_FIXED: State := Store(map[1 := T.Blocked], map[2 := FIXED, 3 := FIXED], map[])

  lemma TwoFixedIsReachable()
    ensures Reachable(true, TWO_FIXED)
  {
    BlockedTwice();
    Fixed(map[2 := NEW, 3 := NEW], 2);
    assert map[2 := NEW, 3 := NEW][2 := FIXED] == map[2 := FIXED, 3 := NEW];
    Fixed(map[2 := FIXED, 3 := NEW], 3);
    assert map[2 := FIXED, 3 := NEW][3 := FIXED] == map[2 := FIXED, 3 := FIXED];
  }

  // ---- two verifies at once ---------------------------------------------------------------------

  /** A verify that has closed its Blocker, and has not looked at the others yet. */
  ghost function Shut(b: Id): Txn {
    Loaded(b, B.Verify).(phase := Closing, bw := map[b := SHUT])
  }

  /** One verify gets as far as having closed its Blocker, whether or not the other has begun. */
  lemma ShutFrom(open: map<Tx, Txn>, t: Tx, b: Id)
    requires t !in open && (b == 2 || b == 3) && forall u :: u in open ==> b !in open[u].held
    requires Reachable(false, TWO_FIXED.(open := open))
    ensures Reachable(false, TWO_FIXED.(open := open[t := Shut(b)]))
  {
    var s := TWO_FIXED.(open := open);
    Begins(false, s, t, BlockerJob(b, B.Verify));
    LocksTask(false, s, t, BlockerJob(b, B.Verify), 1);
    LocksBlocker(false, s, t, b, B.Verify);
    WritesBlocker(false, s, t, Loaded(b, B.Verify), b, B.Verify, 3);
    assert Wrote(Loaded(b, B.Verify), b, SHUT) == Shut(b);
  }

  lemma SeesTheOther(b: Id)
    requires b == 2 || b == 3
    ensures Settled(TWO_FIXED, Shut(b)) == Shut(b).(phase := Done)
  {
    assert B.Active(TWO_FIXED.blockers + Shut(b).bw, 5 - b, 1);
  }

  lemma Settles(open: map<Tx, Txn>, t: Tx, b: Id)
    requires t !in open && (b == 2 || b == 3) && Reachable(false, TWO_FIXED.(open := open[t := Shut(b)]))
    ensures Reachable(false, TWO_FIXED.(open := open[t := Shut(b).(phase := Done)]))
  {
    SeesTheOther(b);
    assert Settled(TWO_FIXED.(open := open[t := Shut(b)]), Shut(b)) == Settled(TWO_FIXED, Shut(b));
    OneStatement(false, TWO_FIXED.(open := open), t, Shut(b), Settle(t), Shut(b).(phase := Done));
  }

  lemma BothSettle()
    ensures Reachable(false, TWO_FIXED.(open := map[7 := Shut(2).(phase := Done)][8 := Shut(3).(phase := Done)]))
  {
    var none: map<Tx, Txn> := map[];
    var a := Shut(2).(phase := Done);
    TwoFixedIsReachable();
    Unguarded(TWO_FIXED);
    ShutFrom(none, 7, 2);
    ShutFrom(none[7 := Shut(2)], 8, 3);
    assert none[7 := Shut(2)][8 := Shut(3)] == none[8 := Shut(3)][7 := Shut(2)];
    Settles(none[8 := Shut(3)], 7, 2);
    assert none[8 := Shut(3)][7 := a] == none[7 := a][8 := Shut(3)];
    Settles(none[7 := a], 8, 3);
  }

  ghost const STRANDED: State := Store(map[1 := T.Blocked], map[2 := SHUT, 3 := SHUT], map[])

  lemma BothCommit()
    ensures Reachable(false, STRANDED)
  {
    var a, b := Shut(2).(phase := Done), Shut(3).(phase := Done);
    BothSettle();
    assert map[7 := a][8 := b] == map[8 := b][7 := a];
    Commits(false, TWO_FIXED.(open := map[8 := b]), 7, a);
    assert TWO_FIXED.tasks + a.tw == TWO_FIXED.tasks && TWO_FIXED.blockers + a.bw == map[2 := SHUT, 3 := FIXED];
    var s := Store(map[1 := T.Blocked], map[2 := SHUT, 3 := FIXED], map[]);
    assert s.(open := s.open[8 := b]) == s.(open := map[8 := b]);
    Commits(false, s, 8, b);
    assert s.tasks + b.tw == s.tasks && s.blockers + b.bw == map[2 := SHUT, 3 := SHUT];
  }

  /**
   Without the Task row's lock, two sibling verifies can leave a BLOCKED Task without any active Blocker. No
   command applies to either Blocker any more, and the Task cannot be blocked again: no verify will resume it.
   */
  lemma UnlockedVerifiesStrandTheTask()
    ensures Reachable(false, STRANDED) && STRANDED.open == map[]
    ensures STRANDED.tasks[1] == T.Blocked && !B.SomeActive(STRANDED.blockers, 1)
    ensures forall b, move :: b in STRANDED.blockers ==> !B.Legal(move, STRANDED.blockers[b].status)
    ensures !T.Legal(T.Block, STRANDED.tasks[1])
  {
    BothCommit();
  }
}
