/**
 Event commands, Application commands and Event creations running concurrently, one statement at a time under
 READ COMMITTED. An Event command locks its Event row and, for the bulk side effects, the Applications it takes
 along one by one. An Application command locks its Application and reads its Event without a lock. Creating an
 Event under a parent takes the share lock of its foreign key on the parent row, which waits for an Event command's
 lock. What each command decides and writes is the specification's step, on what it has read.
 */
module EventTransactions {
  import opened Prelude
  import opened DrEvents

  type Tx = nat

  /** How far a transaction has got; `todo` are the Applications a bulk command has still to lock. */
  datatype Phase = Begun | Held | Seen(event: Event) | Owning | Moving(todo: set<Id>) | Done

  datatype Txn = Txn(call: Call, phase: Phase, eventLock: Option<Id>, parentLock: Option<Id>, held: set<Id>,
                     ew: map<Id, Event>, aw: map<Id, Application>, vw: Option<ValidationWrite>)

  datatype State = State(rows: Rows, open: map<Tx, Txn>)

  datatype Statement =
    | Begin(t: Tx, call: Call)
    | Create(t: Tx)
    | LockApp(t: Tx)
    | ReadEvent(t: Tx)
    | DecideApp(t: Tx)
    | LockEvent(t: Tx)
    | DecideEvent(t: Tx)
    | LockNext(t: Tx, app: Id)
    | EndMoving(t: Tx)
    | Commit(t: Tx)
    | Rollback(t: Tx)

  /** The command is about one existing Event. */
  ghost predicate OnEvent(op: Op) {
    !OnApplication(op) && !op.CreateEvent?
  }

  // ---- what a bulk command takes along ----------------------------------------------------------

  ghost predicate Takes(op: Op, a: Application) {
    (op.StartFailover? && a.event == op.event && a.status == NotStarted)
    || (op.StartFailback? && a.event == op.event && a.status == AppFailedOver && a.failbackRequired)
  }

  ghost function CutOf(c: Call): Time {
    if c.op.StartFailover? && c.op.cutAt.Some? then c.op.cutAt.value else c.now
  }

  ghost function Taken(c: Call, a: Application): Application {
    match c.op
    case StartFailover(e, _) => a.(status := Recovering, slaStartAt := Some(CutOf(c)), version := a.version + 1, updatedAt := c.now)
    case StartFailback(e) => a.(status := AppFailbackInProgress, version := a.version + 1, updatedAt := c.now)
    case _ => a
  }

  ghost function TakenBy(rows: Rows, op: Op): set<Id> {
    set a | a in rows.apps && Takes(op, rows.apps[a])
  }

  // ---- the machine ------------------------------------------------------------------------------

  /** What an Application command sees: the committed rows, with its Event as it read it. */
  ghost function SeenBy(rows: Rows, x: Txn): Rows
    requires OnApplication(x.call.op) && x.phase.Seen? && x.call.op.app in rows.apps
  {
    rows.(events := rows.events[rows.apps[x.call.op.app].event := x.phase.event])
  }

  ghost predicate Enabled(s: State, step: Statement) {
    match step
    case Begin(t, call) => t !in s.open
    case Create(t) =>
      && t in s.open && s.open[t].phase == Begun && s.open[t].call.op.CreateEvent? && Step(s.rows, s.open[t].call).Ok?
      && forall u :: u in s.open ==>
           && s.open[t].call.op.created !in s.open[u].ew && s.open[t].call.op.apps.Keys !! s.open[u].aw.Keys
           && (s.open[t].call.op.parent.Some? ==> s.open[u].eventLock != s.open[t].call.op.parent)
    case LockApp(t) =>
      && t in s.open && s.open[t].phase == Begun && OnApplication(s.open[t].call.op) && s.open[t].call.op.app in s.rows.apps
      && forall u :: u in s.open && u != t ==> s.open[t].call.op.app !in s.open[u].held
    case ReadEvent(t) =>
      && t in s.open && s.open[t].phase == Held && OnApplication(s.open[t].call.op) && s.open[t].call.op.app in s.rows.apps
      && s.rows.apps[s.open[t].call.op.app].event in s.rows.events
      && !Terminal(s.rows.events[s.rows.apps[s.open[t].call.op.app].event].status)
    case DecideApp(t) =>
      && t in s.open && s.open[t].phase.Seen? && OnApplication(s.open[t].call.op) && s.open[t].call.op.app in s.rows.apps
      && Step(SeenBy(s.rows, s.open[t]), s.open[t].call).Ok?
    case LockEvent(t) =>
      && t in s.open && s.open[t].phase == Begun && OnEvent(s.open[t].call.op) && s.open[t].call.op.event in s.rows.events
      && forall u :: u in s.open && u != t ==>
           s.open[u].eventLock != Some(s.open[t].call.op.event) && s.open[u].parentLock != Some(s.open[t].call.op.event)
    case DecideEvent(t) =>
      t in s.open && s.open[t].phase == Owning && OnEvent(s.open[t].call.op) && Step(s.rows, s.open[t].call).Ok?
    case LockNext(t, a) =>
      && t in s.open && s.open[t].phase.Moving? && a in s.open[t].phase.todo && a in s.rows.apps
      && forall u :: u in s.open && u != t ==> a !in s.open[u].held
    case EndMoving(t) => t in s.open && s.open[t].phase == Moving({})
    case Commit(t) => t in s.open && s.open[t].phase == Done
    case Rollback(t) => t in s.open
  }

  ghost function BegunTxn(call: Call): Txn {
    Txn(call, Begun, None, None, {}, map[], map[], None)
  }

  ghost function Created(rows: Rows, x: Txn): Txn
    requires x.call.op.CreateEvent? && Step(rows, x.call).Ok?
  {
    var op := x.call.op;
    x.(phase := Done, parentLock := op.parent, ew := map[op.created := NewEvent(op.parent, x.call.now)],
       aw := map a | a in op.apps :: NewApplication(op.created, op.apps[a], x.call.now))
  }

  ghost function AppDecided(rows: Rows, x: Txn): Txn
    requires OnApplication(x.call.op) && x.phase.Seen? && x.call.op.app in rows.apps
    requires Step(SeenBy(rows, x), x.call).Ok?
  {
    var eff := EffectOf(SeenBy(rows, x), x.call);
    x.(phase := Done, aw := map[x.call.op.app := eff.row], vw := Some(eff.validation))
  }

  ghost function EventDecided(rows: Rows, x: Txn): Txn
    requires OnEvent(x.call.op) && Step(rows, x.call).Ok?
  {
    var op := x.call.op;
    x.(phase := if op.StartFailover? || op.StartFailback? then Moving(TakenBy(rows, op)) else Done,
       ew := map[op.event := Step(rows, x.call).value.events[op.event]])
  }

  /** A row is locked, and taken along if it still matches. */
  ghost function TookNext(rows: Rows, x: Txn, a: Id): Txn
    requires x.phase.Moving? && a in rows.apps
  {
    var y := x.(phase := Moving(x.phase.todo - {a}), held := x.held + {a});
    if Takes(x.call.op, rows.apps[a]) then y.(aw := x.aw[a := Taken(x.call, rows.apps[a])]) else y
  }

  ghost function CommittedRows(rows: Rows, x: Txn): Rows {
    Rows(rows.events + x.ew, rows.apps + x.aw, if x.vw.Some? then WithValidation(rows.validations, x.vw.value) else rows.validations)
  }

  ghost function Put(s: State, t: Tx, x: Txn): State {
    s.(open := s.open[t := x])
  }

  /** The statements that change nothing but their transaction's own record. */
  ghost predicate Own(step: Statement) {
    !step.Commit? && !step.Rollback?
  }

  /** The record of a transaction after a statement of its own. */
  ghost function After(s: State, step: Statement): Txn
    requires Own(step) && Enabled(s, step)
  {
    match step
    case Begin(t, call) => BegunTxn(call)
    case Create(t) => Created(s.rows, s.open[t])
    case LockApp(t) => s.open[t].(phase := Held, held := {s.open[t].call.op.app})
    case ReadEvent(t) => s.open[t].(phase := Seen(s.rows.events[s.rows.apps[s.open[t].call.op.app].event]))
    case DecideApp(t) => AppDecided(s.rows, s.open[t])
    case LockEvent(t) => s.open[t].(phase := Owning, eventLock := Some(s.open[t].call.op.event))
    case DecideEvent(t) => EventDecided(s.rows, s.open[t])
    case LockNext(t, a) => TookNext(s.rows, s.open[t], a)
    case EndMoving(t) => s.open[t].(phase := Done)
  }

  ghost function Apply(s: State, step: Statement): State
    requires Enabled(s, step)
  {
    match step
    case Commit(t) => State(CommittedRows(s.rows, s.open[t]), s.open - {t})
    case Rollback(t) => s.(open := s.open - {t})
    case _ => Put(s, step.t, After(s, step))
  }

  // ---- invariant --------------------------------------------------------------------------------

  ghost predicate RowFits(rows: Rows, a: Id)
    requires a in rows.apps
  {
    && rows.apps[a].event in rows.events && AppFits(rows.events[rows.apps[a].event], rows.apps[a])
    && PendingOk(rows.validations, a, rows.apps[a].status)
  }

  ghost predicate ValidationOk(rows: Rows, v: Validation) {
    v.application in rows.apps && DecisionOk(v)
  }

  /** The joint invariant without its time stamps. */
  ghost predicate RowsFit(rows: Rows) {
    && (forall e :: e in rows.events ==> EventFits(rows.events[e]))
    && (forall a :: a in rows.apps ==> RowFits(rows, a))
    && (forall i :: 0 <= i < |rows.validations| ==> ValidationOk(rows, rows.validations[i]))
  }

  /** How an Event command may move its Event. */
  ghost predicate Moves(op: Op, e: Event, e': Event) {
    && !Terminal(e.status) && EventFits(e) && EventFits(e') && e'.parent == e.parent && (op.Close? <==> e'.status == Closed)
    && (if op.StartFailover? then e.networkCutAt == None && e'.networkCutAt.Some? else e'.networkCutAt == e.networkCutAt)
    && (if op.StartFailback? then e'.failbackStartedAt.Some? else e'.failbackStartedAt == e.failbackStartedAt)
  }

  /** The Application is the same one: only its status, stamps and version may differ. */
  ghost predicate SameApp(a: Application, a': Application) {
    a'.event == a.event && a'.failbackRequired == a.failbackRequired
  }

  ghost predicate WriteOk(rows: Rows, a: Id, w: ValidationWrite) {
    match w
    case Appended(v) => v.application == a && DecisionOk(v)
    case Replaced(at, v) => at < |rows.validations| && rows.validations[at].application == a && v.application == a && DecisionOk(v)
  }

  /** An Application command: everything it writes is about its locked Application and fits the committed Event. */
  ghost predicate AppTxnOk(rows: Rows, x: Txn)
    requires OnApplication(x.call.op)
  {
    var a := x.call.op.app;
    && x.ew == map[] && x.eventLock == None && x.parentLock == None
    && (x.phase == Begun || x.phase == Held || x.phase.Seen? || x.phase == Done)
    && (if x.phase == Begun then x.held == {} else x.held == {a} && a in rows.apps)
    && (if x.phase == Done then
          && x.aw.Keys == {a} && x.vw.Some? && WriteOk(rows, a, x.vw.value) && SameApp(rows.apps[a], x.aw[a])
          && rows.apps[a].event in rows.events && rows.apps[a].status != NotStarted
          && AppFits(rows.events[rows.apps[a].event], x.aw[a])
          && PendingOk(WithValidation(rows.validations, x.vw.value), a, x.aw[a].status)
        else x.aw == map[] && x.vw == None)
  }

  ghost predicate Todo(x: Txn, a: Id) {
    x.phase.Moving? && a in x.phase.todo
  }

  /** The Event's image, once an Event command has decided. */
  ghost predicate ImageOk(rows: Rows, x: Txn)
    requires OnEvent(x.call.op) && x.call.op.event in rows.events
  {
    var e := x.call.op.event;
    && x.ew.Keys == {e} && Moves(x.call.op, rows.events[e], x.ew[e])
    && (x.ew[e].status == Closed && x.ew[e].failbackStartedAt == None ==>
          forall a :: a in rows.apps && rows.apps[a].event == e ==> !rows.apps[a].failbackRequired)
    && (x.ew[e].status == Closed ==> ChildrenFinished(rows.events, e))
    && (x.call.op.StartFailover? ==> x.ew[e].networkCutAt == Some(CutOf(x.call)))
  }

  ghost predicate FitsImage(rows: Rows, x: Txn, a: Id)
    requires OnEvent(x.call.op) && x.call.op.event in x.ew && a in rows.apps
  {
    Todo(x, a) || AppFits(x.ew[x.call.op.event], if a in x.aw then x.aw[a] else rows.apps[a])
  }

  /** Every Application of the Event fits its image or is still to be taken along. */
  ghost predicate AllFit(rows: Rows, x: Txn)
    requires OnEvent(x.call.op) && x.call.op.event in x.ew
  {
    forall a :: a in rows.apps && rows.apps[a].event == x.call.op.event ==> FitsImage(rows, x, a)
  }

  ghost predicate TakenOk(rows: Rows, x: Txn)
    requires OnEvent(x.call.op)
  {
    && x.held <= rows.apps.Keys && x.aw.Keys <= x.held
    && (forall a :: a in x.aw ==>
          && SameApp(rows.apps[a], x.aw[a]) && rows.apps[a].event == x.call.op.event
          && PendingOk(rows.validations, a, x.aw[a].status))
    && (forall a :: Todo(x, a) ==> a in rows.apps && a !in x.aw && rows.apps[a].event == x.call.op.event)
  }

  ghost predicate EventTxnOk(rows: Rows, x: Txn)
    requires OnEvent(x.call.op)
  {
    && x.vw == None && x.parentLock == None && (x.phase == Begun || x.phase == Owning || x.phase.Moving? || x.phase == Done)
    && (if x.phase == Begun then x.eventLock == None else x.eventLock == Some(x.call.op.event) && x.call.op.event in rows.events)
    && TakenOk(rows, x)
    && (if x.phase.Moving? || x.phase == Done then ImageOk(rows, x) && AllFit(rows, x)
        else x.ew == map[] && x.aw == map[] && x.held == {})
  }

  ghost predicate CreateTxnOk(rows: Rows, x: Txn)
    requires x.call.op.CreateEvent?
  {
    && x.vw == None && x.held == {} && x.eventLock == None && (x.phase == Begun || x.phase == Done)
    && (if x.phase == Done then
          && x.ew.Keys == {x.call.op.created} && x.call.op.created !in rows.events && EventFits(x.ew[x.call.op.created])
          && x.ew[x.call.op.created].parent == x.parentLock
          && x.aw.Keys !! rows.apps.Keys
          && forall a :: a in x.aw ==>
               && x.aw[a].event == x.call.op.created && x.aw[a].status == NotStarted
               && AppFits(x.ew[x.call.op.created], x.aw[a])
        else x.ew == map[] && x.aw == map[] && x.parentLock == None)
  }

  ghost predicate TxnOk(rows: Rows, x: Txn) {
    if OnApplication(x.call.op) then AppTxnOk(rows, x)
    else if OnEvent(x.call.op) then EventTxnOk(rows, x)
    else CreateTxnOk(rows, x)
  }

  ghost predicate Compatible(x: Txn, y: Txn) {
    && (x.eventLock.Some? ==> x.eventLock != y.eventLock && x.eventLock != y.parentLock)
    && (y.eventLock.Some? ==> y.eventLock != x.parentLock)
    && x.held !! y.held && x.ew.Keys !! y.ew.Keys && x.aw.Keys !! y.aw.Keys
  }

  ghost predicate Inv(s: State) {
    && RowsFit(s.rows)
    && (forall t :: t in s.open ==> TxnOk(s.rows, s.open[t]))
    && (forall t, u :: t in s.open && u in s.open && t != u ==> Compatible(s.open[t], s.open[u]))
  }

  // ---- a transaction's own statements -----------------------------------------------------------

  /** An Application that fits its Event still fits it after a move, if a direct close leaves no failback outstanding. */
  lemma MoveFits(op: Op, e: Event, e': Event, a: Application)
    requires Moves(op, e, e') && !op.StartFailover? && AppFits(e, a)
    requires e'.status == Closed && e'.failbackStartedAt == None ==> !a.failbackRequired
    ensures AppFits(e', a)
  {
  }

  lemma AppDecidedOk(rows: Rows, x: Txn)
    requires RowsFit(rows) && OnApplication(x.call.op) && AppTxnOk(rows, x) && x.phase.Seen? && Step(SeenBy(rows, x), x.call).Ok?
    ensures AppTxnOk(rows, AppDecided(rows, x))
  {
    var a := x.call.op.app;
    var view := SeenBy(rows, x);
    assert RowFits(rows, a);
    assert LockedSince(view, rows, a);
    LandedFits(view, rows, x.call);
    LandedPending(view, rows, x.call);
    DecidedWrite(rows, x);
  }

  lemma DecidedWrite(rows: Rows, x: Txn)
    requires RowsFit(rows) && OnApplication(x.call.op) && AppTxnOk(rows, x) && x.phase.Seen? && Step(SeenBy(rows, x), x.call).Ok?
    ensures var eff := EffectOf(SeenBy(rows, x), x.call);
            WriteOk(rows, x.call.op.app, eff.validation) && SameApp(rows.apps[x.call.op.app], eff.row)
            && rows.apps[x.call.op.app].status != NotStarted
  {
  }

  lemma EventMoves(rows: Rows, c: Call)
    requires OnEvent(c.op) && Step(rows, c).Ok? && forall e :: e in rows.events ==> EventFits(rows.events[e])
    ensures c.op.event in rows.events && Moves(c.op, rows.events[c.op.event], Step(rows, c).value.events[c.op.event])
  {
  }

  lemma DecidedClose(rows: Rows, c: Call)
    requires OnEvent(c.op) && Step(rows, c).Ok? && c.op.event in rows.events
    ensures var e' := Step(rows, c).value.events[c.op.event];
            && (e'.status == Closed ==> ChildrenFinished(rows.events, c.op.event))
            && (e'.status == Closed && e'.failbackStartedAt == None && EventFits(rows.events[c.op.event]) ==>
                  forall a :: a in rows.apps && rows.apps[a].event == c.op.event ==> !rows.apps[a].failbackRequired)
  {
  }

  lemma EventDecidedOk(rows: Rows, x: Txn)
    requires RowsFit(rows) && OnEvent(x.call.op) && EventTxnOk(rows, x) && x.phase == Owning && Step(rows, x.call).Ok?
    ensures EventTxnOk(rows, EventDecided(rows, x))
  {
    var e, y := x.call.op.event, EventDecided(rows, x);
    EventMoves(rows, x.call);
    DecidedClose(rows, x.call);
    forall a | a in rows.apps && rows.apps[a].event == e
      ensures FitsImage(rows, y, a)
    {
      assert RowFits(rows, a);
      if !x.call.op.StartFailover? {
        MoveFits(x.call.op, rows.events[e], y.ew[e], rows.apps[a]);
      }
    }
  }

  lemma TakenFits(rows: Rows, x: Txn, a: Id)
    requires RowsFit(rows) && OnEvent(x.call.op) && EventTxnOk(rows, x) && x.phase.Moving? && a in rows.apps
    requires Takes(x.call.op, rows.apps[a])
    ensures AppFits(x.ew[x.call.op.event], Taken(x.call, rows.apps[a]))
    ensures PendingOk(rows.validations, a, Taken(x.call, rows.apps[a]).status) && SameApp(rows.apps[a], Taken(x.call, rows.apps[a]))
  {
    assert RowFits(rows, a);
  }

  lemma TookNextTaken(rows: Rows, x: Txn, a: Id)
    requires RowsFit(rows) && OnEvent(x.call.op) && EventTxnOk(rows, x) && Todo(x, a) && a in rows.apps
    ensures TakenOk(rows, TookNext(rows, x, a))
  {
    if Takes(x.call.op, rows.apps[a]) {
      TakenFits(rows, x, a);
    }
  }

  lemma TookNextFits(rows: Rows, x: Txn, a: Id)
    requires RowsFit(rows) && OnEvent(x.call.op) && EventTxnOk(rows, x) && Todo(x, a) && a in rows.apps
    ensures AllFit(rows, TookNext(rows, x, a))
  {
    var e, y := x.call.op.event, TookNext(rows, x, a);
    assert RowFits(rows, a);
    if Takes(x.call.op, rows.apps[a]) {
      TakenFits(rows, x, a);
    } else if !x.call.op.StartFailover? {
      MoveFits(x.call.op, rows.events[e], x.ew[e], rows.apps[a]);
    }
    forall b | b in rows.apps && rows.apps[b].event == e && b != a
      ensures FitsImage(rows, y, b)
    {
      assert FitsImage(rows, x, b);
    }
  }

  lemma TookNextOk(rows: Rows, x: Txn, a: Id)
    requires RowsFit(rows) && OnEvent(x.call.op) && EventTxnOk(rows, x) && Todo(x, a) && a in rows.apps
    ensures EventTxnOk(rows, TookNext(rows, x, a))
  {
    TookNextTaken(rows, x, a);
    TookNextFits(rows, x, a);
  }

  lemma CreatedOk(rows: Rows, x: Txn)
    requires x.call.op.CreateEvent? && CreateTxnOk(rows, x) && x.phase == Begun && Step(rows, x.call).Ok?
    ensures CreateTxnOk(rows, Created(rows, x))
  {
  }

  lemma LockStepOk(s: State, step: Statement)
    requires RowsFit(s.rows) && Enabled(s, step) && (step.LockApp? || step.ReadEvent? || step.LockEvent?)
    requires TxnOk(s.rows, s.open[step.t])
    ensures TxnOk(s.rows, After(s, step))
  {
  }

  lemma MovingEnds(rows: Rows, x: Txn)
    requires OnEvent(x.call.op) && EventTxnOk(rows, x) && x.phase == Moving({})
    ensures EventTxnOk(rows, x.(phase := Done))
  {
    var y := x.(phase := Done);
    forall a | a in rows.apps && rows.apps[a].event == x.call.op.event
      ensures FitsImage(rows, y, a)
    {
      assert FitsImage(rows, x, a);
    }
  }

  lemma OwnStepOk(s: State, step: Statement)
    requires RowsFit(s.rows) && Enabled(s, step) && Own(step) && (step.t in s.open ==> TxnOk(s.rows, s.open[step.t]))
    ensures TxnOk(s.rows, After(s, step))
  {
    match step
    case Begin(_, _) =>
    case Create(t) => CreatedOk(s.rows, s.open[t]);
    case DecideApp(t) => AppDecidedOk(s.rows, s.open[t]);
    case DecideEvent(t) => EventDecidedOk(s.rows, s.open[t]);
    case LockNext(t, a) => TookNextOk(s.rows, s.open[t], a);
    case EndMoving(t) => MovingEnds(s.rows, s.open[t]);
    case _ => LockStepOk(s, step);
  }

  lemma LocksAreCompatible(s: State, step: Statement, u: Tx)
    requires Enabled(s, step) && (step.LockApp? || step.LockEvent? || step.LockNext?)
    requires u in s.open && u != step.t && TxnOk(s.rows, s.open[u])
    requires Compatible(s.open[step.t], s.open[u]) && TxnOk(s.rows, s.open[step.t])
    ensures Compatible(After(s, step), s.open[u])
  {
  }

  lemma WritesAreCompatible(s: State, step: Statement, u: Tx)
    requires Enabled(s, step) && (step.Create? || step.DecideApp? || step.DecideEvent?)
    requires u in s.open && u != step.t && TxnOk(s.rows, s.open[u])
    requires Compatible(s.open[step.t], s.open[u]) && TxnOk(s.rows, s.open[step.t])
    ensures Compatible(After(s, step), s.open[u])
  {
  }

  lemma OwnStepCompatible(s: State, step: Statement, u: Tx)
    requires Enabled(s, step) && Own(step) && u in s.open && u != step.t && TxnOk(s.rows, s.open[u])
    requires step.t in s.open ==> Compatible(s.open[step.t], s.open[u]) && TxnOk(s.rows, s.open[step.t])
    ensures Compatible(After(s, step), s.open[u])
  {
    match step
    case Begin(_, _) =>
    case ReadEvent(_) =>
    case EndMoving(_) =>
    case LockApp(_) => LocksAreCompatible(s, step, u);
    case LockEvent(_) => LocksAreCompatible(s, step, u);
    case LockNext(_, _) => LocksAreCompatible(s, step, u);
    case _ => WritesAreCompatible(s, step, u);
  }

  lemma CompatibleBothWays(x: Txn, y: Txn)
    requires Compatible(x, y)
    ensures Compatible(y, x)
  {
  }

  // ---- commit -----------------------------------------------------------------------------------

  /** A write about one Application leaves the pending Validations of the others as they were. */
  lemma PendingElsewhere(rows: Rows, a: Id, w: ValidationWrite, b: Id, status: AppStatus)
    requires WriteOk(rows, a, w) && a != b
    ensures PendingOk(WithValidation(rows.validations, w), b, status) <==> PendingOk(rows.validations, b, status)
  {
    var vs, vs' := rows.validations, WithValidation(rows.validations, w);
    assert forall i :: 0 <= i < |vs| ==> (IsPending(vs'[i], b) <==> IsPending(vs[i], b));
    if i :| 0 <= i < |vs| && IsPending(vs[i], b) {
      assert IsPending(vs'[i], b);
    }
    if i :| 0 <= i < |vs'| && IsPending(vs'[i], b) {
      assert i < |vs| && IsPending(vs[i], b);
    }
  }

  lemma AppCommitFits(rows: Rows, x: Txn, b: Id)
    requires RowsFit(rows) && OnApplication(x.call.op) && AppTxnOk(rows, x) && x.phase == Done && b in CommittedRows(rows, x).apps
    ensures RowFits(CommittedRows(rows, x), b)
  {
    var a := x.call.op.app;
    assert rows.events + x.ew == rows.events;
    if b != a {
      assert RowFits(rows, b);
      PendingElsewhere(rows, a, x.vw.value, b, rows.apps[b].status);
    }
  }

  lemma EventCommitFits(rows: Rows, x: Txn, b: Id)
    requires RowsFit(rows) && OnEvent(x.call.op) && EventTxnOk(rows, x) && x.phase == Done && b in CommittedRows(rows, x).apps
    ensures RowFits(CommittedRows(rows, x), b)
  {
    assert b in rows.apps && RowFits(rows, b);
    var e := x.call.op.event;
    if rows.apps[b].event == e {
      assert FitsImage(rows, x, b);
    }
  }

  lemma CreateCommitFits(rows: Rows, x: Txn, b: Id)
    requires RowsFit(rows) && x.call.op.CreateEvent? && CreateTxnOk(rows, x) && x.phase == Done && b in CommittedRows(rows, x).apps
    ensures RowFits(CommittedRows(rows, x), b)
  {
    if b in rows.apps {
      assert RowFits(rows, b);
    } else {
      assert forall i :: 0 <= i < |rows.validations| ==> ValidationOk(rows, rows.validations[i]);
    }
  }

  lemma CommitFits(rows: Rows, x: Txn, b: Id)
    requires RowsFit(rows) && TxnOk(rows, x) && x.phase == Done && b in CommittedRows(rows, x).apps
    ensures RowFits(CommittedRows(rows, x), b)
  {
    if OnApplication(x.call.op) {
      AppCommitFits(rows, x, b);
    } else if OnEvent(x.call.op) {
      EventCommitFits(rows, x, b);
    } else {
      CreateCommitFits(rows, x, b);
    }
  }

  lemma CommitKeepsValidations(rows: Rows, x: Txn, i: nat)
    requires RowsFit(rows) && TxnOk(rows, x) && x.phase == Done && i < |CommittedRows(rows, x).validations|
    ensures ValidationOk(CommittedRows(rows, x), CommittedRows(rows, x).validations[i])
  {
    if i < |rows.validations| {
      assert ValidationOk(rows, rows.validations[i]);
    }
  }

  lemma CommitKeepsEvents(rows: Rows, x: Txn, e: Id)
    requires RowsFit(rows) && TxnOk(rows, x) && x.phase == Done && e in CommittedRows(rows, x).events
    ensures EventFits(CommittedRows(rows, x).events[e])
  {
  }

  lemma CommitKeepsRows(rows: Rows, x: Txn)
    requires RowsFit(rows) && TxnOk(rows, x) && x.phase == Done
    ensures RowsFit(CommittedRows(rows, x))
  {
    var after := CommittedRows(rows, x);
    forall e | e in after.events
      ensures EventFits(after.events[e])
    {
      CommitKeepsEvents(rows, x, e);
    }
    forall b | b in after.apps
      ensures RowFits(after, b)
    {
      CommitFits(rows, x, b);
    }
    forall i | 0 <= i < |after.validations|
      ensures ValidationOk(after, after.validations[i])
    {
      CommitKeepsValidations(rows, x, i);
    }
  }

  /** What a commit leaves alone: Applications that another transaction has locked, but for their Event. */
  lemma CommitMisses(rows: Rows, x: Txn, y: Txn, a: Id)
    requires TxnOk(rows, x) && x.phase == Done && Compatible(x, y) && a in y.held && a in rows.apps
    ensures a in CommittedRows(rows, x).apps && CommittedRows(rows, x).apps[a] == rows.apps[a]
    ensures OnApplication(x.call.op) ==> x.call.op.app != a
  {
  }

  /** An Event that another transaction moves on still fits the Applications it does not take along. */
  lemma MovedUnder(rows: Rows, x: Txn, e: Id, a: Id, row: Application)
    requires OnEvent(x.call.op) && EventTxnOk(rows, x) && (x.phase.Moving? || x.phase == Done) && x.call.op.event == e
    requires a in rows.apps && rows.apps[a].event == e && SameApp(rows.apps[a], row)
    requires rows.apps[a].status != NotStarted && AppFits(rows.events[e], rows.apps[a]) && AppFits(rows.events[e], row)
    ensures AppFits(x.ew[e], row)
  {
    MoveFits(x.call.op, rows.events[e], x.ew[e], row);
  }

  lemma CommitKeepsApp(rows: Rows, x: Txn, y: Txn)
    requires RowsFit(rows) && TxnOk(rows, x) && x.phase == Done && Compatible(x, y) && OnApplication(y.call.op) && AppTxnOk(rows, y)
    ensures AppTxnOk(CommittedRows(rows, x), y)
  {
    var a := y.call.op.app;
    if y.phase != Begun {
      CommitMisses(rows, x, y, a);
    }
    if y.phase == Done {
      assert RowFits(rows, a);
      var e := rows.apps[a].event;
      if OnApplication(x.call.op) {
        PendingWithBoth(rows, x, y);
      } else if OnEvent(x.call.op) && x.call.op.event == e {
        MovedUnder(rows, x, e, a, y.aw[a]);
      }
    }
  }

  /** Two Application commands write about different Applications, so each finds what it expects. */
  lemma PendingWithBoth(rows: Rows, x: Txn, y: Txn)
    requires OnApplication(x.call.op) && AppTxnOk(rows, x) && x.phase == Done
    requires OnApplication(y.call.op) && AppTxnOk(rows, y) && y.phase == Done && x.call.op.app != y.call.op.app
    ensures WriteOk(CommittedRows(rows, x), y.call.op.app, y.vw.value)
    ensures PendingOk(WithValidation(CommittedRows(rows, x).validations, y.vw.value), y.call.op.app, y.aw[y.call.op.app].status)
  {
    var a, status := y.call.op.app, y.aw[y.call.op.app].status;
    var vs1 := WithValidation(rows.validations, x.vw.value);
    var alone, both := WithValidation(rows.validations, y.vw.value), WithValidation(vs1, y.vw.value);
    assert forall i :: 0 <= i < |rows.validations| ==> (IsPending(both[i], a) <==> IsPending(alone[i], a));
    PendingMoved(alone, both, |rows.validations|, a, status);
  }

  /** Pending Validations matched up: the same among the first n, and after them one or none on both sides. */
  lemma PendingMoved(vs: seq<Validation>, vs': seq<Validation>, n: nat, a: Id, status: AppStatus)
    requires n <= |vs| <= |vs'| && |vs| <= n + 1 && |vs'| <= n + 2 && PendingOk(vs, a, status)
    requires forall i :: 0 <= i < n ==> (IsPending(vs'[i], a) <==> IsPending(vs[i], a))
    requires |vs| == n ==> forall i :: n <= i < |vs'| ==> !IsPending(vs'[i], a)
    requires |vs| == n + 1 ==> vs'[|vs'| - 1] == vs[n] && forall i :: n <= i < |vs'| - 1 ==> !IsPending(vs'[i], a)
    ensures PendingOk(vs', a, status)
  {
    if i :| 0 <= i < |vs| && IsPending(vs[i], a) {
      assert IsPending(vs'[if i < n then i else |vs'| - 1], a);
    }
    forall i, j | 0 <= i < |vs'| && 0 <= j < |vs'| && IsPending(vs'[i], a) && IsPending(vs'[j], a)
      ensures i == j
    {
      assert IsPending(vs[if i < n then i else n], a) && IsPending(vs[if j < n then j else n], a);
    }
    if status != TechnicalValidation && status != AppFailbackInProgress {
      forall i | 0 <= i < |vs'|
        ensures !IsPending(vs'[i], a)
      {
        assert i < n ==> !IsPending(vs[i], a);
      }
    }
  }

  lemma AppCommitUnderEvent(rows: Rows, x: Txn, y: Txn, a: Id)
    requires RowsFit(rows) && OnApplication(x.call.op) && AppTxnOk(rows, x) && x.phase == Done && Compatible(x, y)
    requires OnEvent(y.call.op) && EventTxnOk(rows, y) && (y.phase.Moving? || y.phase == Done)
    requires a in rows.apps && rows.apps[a].event == y.call.op.event
    ensures a in CommittedRows(rows, x).apps && FitsImage(CommittedRows(rows, x), y, a)
    ensures a in y.aw ==> PendingOk(CommittedRows(rows, x).validations, a, y.aw[a].status) && a != x.call.op.app
  {
    assert RowFits(rows, a);
    assert FitsImage(rows, y, a);
    if a == x.call.op.app {
      MovedUnder(rows, y, y.call.op.event, a, x.aw[a]);
    } else if a in y.aw {
      PendingElsewhere(rows, x.call.op.app, x.vw.value, a, y.aw[a].status);
    }
  }

  lemma AppCommitKeepsTaken(rows: Rows, x: Txn, y: Txn)
    requires OnApplication(x.call.op) && AppTxnOk(rows, x) && x.phase == Done && Compatible(x, y)
    requires OnEvent(y.call.op) && TakenOk(rows, y)
    ensures TakenOk(CommittedRows(rows, x), y)
  {
    forall a | a in y.aw
      ensures PendingOk(CommittedRows(rows, x).validations, a, y.aw[a].status) && a != x.call.op.app
    {
      PendingElsewhere(rows, x.call.op.app, x.vw.value, a, y.aw[a].status);
    }
  }

  lemma AppCommitKeepsImage(rows: Rows, x: Txn, y: Txn)
    requires OnApplication(x.call.op) && AppTxnOk(rows, x) && x.phase == Done
    requires OnEvent(y.call.op) && y.call.op.event in rows.events && ImageOk(rows, y)
    ensures CommittedRows(rows, x).events == rows.events && ImageOk(CommittedRows(rows, x), y)
  {
    assert rows.events + x.ew == rows.events;
  }

  lemma AppCommitKeepsEvent(rows: Rows, x: Txn, y: Txn)
    requires RowsFit(rows) && OnApplication(x.call.op) && AppTxnOk(rows, x) && x.phase == Done && Compatible(x, y)
    requires OnEvent(y.call.op) && EventTxnOk(rows, y)
    ensures EventTxnOk(CommittedRows(rows, x), y)
  {
    assert rows.events + x.ew == rows.events;
    AppCommitKeepsTaken(rows, x, y);
    if y.phase.Moving? || y.phase == Done {
      AppCommitKeepsImage(rows, x, y);
      forall a | a in CommittedRows(rows, x).apps && CommittedRows(rows, x).apps[a].event == y.call.op.event
        ensures FitsImage(CommittedRows(rows, x), y, a)
      {
        AppCommitUnderEvent(rows, x, y, a);
      }
    }
  }

  /** A commit about another Event touches neither this one nor its Applications. */
  lemma OtherCommitMisses(rows: Rows, x: Txn, y: Txn)
    requires !OnApplication(x.call.op) && TxnOk(rows, x) && x.phase == Done && Compatible(x, y)
    requires OnEvent(y.call.op) && EventTxnOk(rows, y) && y.phase != Begun
    ensures y.call.op.event in CommittedRows(rows, x).events
    ensures CommittedRows(rows, x).events[y.call.op.event] == rows.events[y.call.op.event]
    ensures forall a :: a in CommittedRows(rows, x).apps && CommittedRows(rows, x).apps[a].event == y.call.op.event ==>
              a in rows.apps && CommittedRows(rows, x).apps[a] == rows.apps[a]
  {
  }

  /** Nor does it leave this Event with an unfinished child: a new one would have waited for its parent's lock. */
  lemma OtherCommitKeepsChildren(rows: Rows, x: Txn, y: Txn)
    requires !OnApplication(x.call.op) && TxnOk(rows, x) && x.phase == Done && Compatible(x, y)
    requires OnEvent(y.call.op) && y.eventLock == Some(y.call.op.event) && ChildrenFinished(rows.events, y.call.op.event)
    ensures ChildrenFinished(CommittedRows(rows, x).events, y.call.op.event)
  {
  }

  lemma OtherCommitKeepsTaken(rows: Rows, x: Txn, y: Txn)
    requires !OnApplication(x.call.op) && TxnOk(rows, x) && x.phase == Done && Compatible(x, y)
    requires OnEvent(y.call.op) && TakenOk(rows, y)
    ensures TakenOk(CommittedRows(rows, x), y)
  {
  }

  lemma OtherCommitKeepsEvent(rows: Rows, x: Txn, y: Txn)
    requires !OnApplication(x.call.op) && TxnOk(rows, x) && x.phase == Done && Compatible(x, y)
    requires OnEvent(y.call.op) && EventTxnOk(rows, y)
    ensures EventTxnOk(CommittedRows(rows, x), y)
  {
    var after, e := CommittedRows(rows, x), y.call.op.event;
    OtherCommitKeepsTaken(rows, x, y);
    if y.phase != Begun {
      OtherCommitMisses(rows, x, y);
      if y.phase != Owning {
        if y.ew[e].status == Closed {
          OtherCommitKeepsChildren(rows, x, y);
        }
        forall a | a in after.apps && after.apps[a].event == e
          ensures FitsImage(after, y, a)
        {
          assert FitsImage(rows, y, a);
        }
      }
    }
  }

  lemma CommitKeepsCreate(rows: Rows, x: Txn, y: Txn)
    requires TxnOk(rows, x) && x.phase == Done && Compatible(x, y) && y.call.op.CreateEvent? && CreateTxnOk(rows, y)
    ensures CreateTxnOk(CommittedRows(rows, x), y)
  {
  }

  lemma CommitKeepsTxn(rows: Rows, x: Txn, y: Txn)
    requires RowsFit(rows) && TxnOk(rows, x) && x.phase == Done && TxnOk(rows, y) && Compatible(x, y)
    ensures TxnOk(CommittedRows(rows, x), y)
  {
    if OnApplication(y.call.op) {
      CommitKeepsApp(rows, x, y);
    } else if OnEvent(y.call.op) {
      if OnApplication(x.call.op) {
        AppCommitKeepsEvent(rows, x, y);
      } else {
        OtherCommitKeepsEvent(rows, x, y);
      }
    } else {
      CommitKeepsCreate(rows, x, y);
    }
  }

  lemma CommitKeepsInv(s: State, t: Tx)
    requires Inv(s) && Enabled(s, Commit(t))
    ensures Inv(Apply(s, Commit(t)))
  {
    assert TxnOk(s.rows, s.open[t]);
    CommitKeepsRows(s.rows, s.open[t]);
    forall u | u in s.open && u != t
      ensures TxnOk(CommittedRows(s.rows, s.open[t]), s.open[u])
    {
      assert TxnOk(s.rows, s.open[u]) && Compatible(s.open[t], s.open[u]);
      CommitKeepsTxn(s.rows, s.open[t], s.open[u]);
    }
  }

  lemma PutKeepsInv(s: State, t: Tx, x: Txn)
    requires Inv(s) && TxnOk(s.rows, x)
    requires forall u :: u in s.open && u != t ==> Compatible(x, s.open[u]) && Compatible(s.open[u], x)
    ensures Inv(Put(s, t, x))
  {
  }

  lemma OwnStepKeepsInv(s: State, step: Statement)
    requires Inv(s) && Enabled(s, step) && Own(step)
    ensures Inv(Put(s, step.t, After(s, step)))
  {
    OwnStepOk(s, step);
    forall u | u in s.open && u != step.t
      ensures Compatible(After(s, step), s.open[u]) && Compatible(s.open[u], After(s, step))
    {
      assert TxnOk(s.rows, s.open[u]);
      OwnStepCompatible(s, step, u);
      CompatibleBothWays(After(s, step), s.open[u]);
    }
    PutKeepsInv(s, step.t, After(s, step));
  }

  lemma OwnStepIsPut(s: State, step: Statement)
    requires Enabled(s, step) && Own(step)
    ensures Apply(s, step) == Put(s, step.t, After(s, step))
  {
  }

  lemma StepKeepsInv(s: State, step: Statement)
    requires Inv(s) && Enabled(s, step)
    ensures Inv(Apply(s, step))
  {
    if step.Commit? {
      CommitKeepsInv(s, step.t);
    } else if Own(step) {
      OwnStepKeepsInv(s, step);
      OwnStepIsPut(s, step);
    }
  }

  // ---- whole runs -------------------------------------------------------------------------------

  ghost predicate Follows(s: State, step: Statement, s': State) {
    Enabled(s, step) && s' == Apply(s, step)
  }

  ghost predicate Runs(states: seq<State>, steps: seq<Statement>) {
    && |states| == |steps| + 1 && states[0] == State(Rows(map[], map[], []), map[])
    && forall i, j :: 0 <= i < |steps| && j == i + 1 ==> Follows(states[i], steps[i], states[j])
  }

  lemma {:induction false} RunKeepsInv(states: seq<State>, steps: seq<Statement>, i: nat)
    requires Runs(states, steps) && i < |states|
    ensures Inv(states[i])
  {
    if i > 0 {
      RunKeepsInv(states, steps, i - 1);
      assert Follows(states[i - 1], steps[i - 1], states[i]);
      StepKeepsInv(states[i - 1], steps[i - 1]);
    }
  }

  /**
   In every committed state of every interleaving, an Application's status fits its Event's, it has as many pending
   Validations as its status says, and every decision is by someone other than the submitter.
   */
  lemma EventAndApplicationsStillAgree(states: seq<State>, steps: seq<Statement>, i: nat, a: Id)
    requires Runs(states, steps) && i < |states| && a in states[i].rows.apps
    ensures var rows := states[i].rows;
            && rows.apps[a].event in rows.events && EventFits(rows.events[rows.apps[a].event])
            && AppFits(rows.events[rows.apps[a].event], rows.apps[a]) && PendingOk(rows.validations, a, rows.apps[a].status)
            && forall k :: 0 <= k < |rows.validations| ==> DecisionOk(rows.validations[k])
  {
    RunKeepsInv(states, steps, i);
    assert RowFits(states[i].rows, a);
    assert forall k :: 0 <= k < |states[i].rows.validations| ==> ValidationOk(states[i].rows, states[i].rows.validations[k]);
  }

  // ---- what is left of the freeze ---------------------------------------------------------------

  /** A transaction that has read the Application's Event before it ended, and may still write the Application. */
  ghost predicate Armed(x: Txn, a: Id) {
    OnApplication(x.call.op) && x.call.op.app == a && (x.phase.Seen? || x.phase == Done)
  }

  /** The transaction that, alone, may still write the Application: it has it locked and has read its Event. */
  ghost predicate ArmedIn(s: State, t: Tx, a: Id) {
    t in s.open && Armed(s.open[t], a)
  }

  /** The Application's Event has ended, and nobody who read it before is left. */
  ghost predicate Settled(s: State, a: Id) {
    Frozen(s.rows, a) && forall t :: t in s.open ==> !Armed(s.open[t], a)
  }

  /** Only a transaction armed beforehand changes a frozen Application. */
  lemma OnlyArmedChange(rows: Rows, x: Txn, a: Id)
    requires RowsFit(rows) && TxnOk(rows, x) && x.phase == Done && Frozen(rows, a)
    ensures Frozen(CommittedRows(rows, x), a)
    ensures !Armed(x, a) ==> CommittedRows(rows, x).apps[a] == rows.apps[a]
  {
    assert RowFits(rows, a);
  }

  lemma CommitDisarms(s: State, t: Tx, a: Id)
    requires Inv(s) && Enabled(s, Commit(t)) && Frozen(s.rows, a) && CommittedRows(s.rows, s.open[t]).apps != s.rows.apps
    requires a in CommittedRows(s.rows, s.open[t]).apps && CommittedRows(s.rows, s.open[t]).apps[a] != s.rows.apps[a]
    ensures Settled(Apply(s, Commit(t)), a)
  {
    assert TxnOk(s.rows, s.open[t]);
    OnlyArmedChange(s.rows, s.open[t], a);
    forall u | u in s.open && u != t
      ensures !Armed(s.open[u], a)
    {
      assert TxnOk(s.rows, s.open[u]) && Compatible(s.open[t], s.open[u]);
    }
  }

  lemma OwnStepArmsNobody(s: State, step: Statement, a: Id)
    requires Enabled(s, step) && Own(step) && Frozen(s.rows, a)
    requires step.t in s.open ==> !Armed(s.open[step.t], a) && TxnOk(s.rows, s.open[step.t])
    ensures !Armed(After(s, step), a)
  {
  }

  lemma OwnStepKeepsCall(s: State, step: Statement)
    requires Enabled(s, step) && Own(step) && step.t in s.open
    ensures After(s, step).call == s.open[step.t].call
  {
  }

  lemma ArmedByOwnStep(s: State, step: Statement, a: Id)
    requires Inv(s) && Enabled(s, step) && Own(step) && Frozen(s.rows, a) && Armed(After(s, step), a)
    ensures ArmedIn(s, step.t, a) && After(s, step).call == s.open[step.t].call
  {
    if step.t in s.open {
      assert TxnOk(s.rows, s.open[step.t]);
      OwnStepKeepsCall(s, step);
    }
    if !ArmedIn(s, step.t, a) {
      OwnStepArmsNobody(s, step, a);
    }
  }

  /** Once its Event has ended nobody gets to write the Application who could not do so before. */
  lemma ArmedWasArmed(s: State, step: Statement, s': State, t: Tx, a: Id)
    requires Inv(s) && Follows(s, step, s') && Frozen(s.rows, a) && ArmedIn(s', t, a)
    ensures ArmedIn(s, t, a) && s'.open[t].call == s.open[t].call
  {
    if Own(step) && step.t == t {
      ArmedByOwnStep(s, step, a);
    }
  }

  lemma ArmedAt(states: seq<State>, steps: seq<Statement>, i: nat, t: Tx, a: Id)
    requires Runs(states, steps) && i + 1 < |states| && Frozen(states[i].rows, a) && ArmedIn(states[i + 1], t, a)
    ensures ArmedIn(states[i], t, a) && states[i].open[t].call == states[i + 1].open[t].call
  {
    RunKeepsInv(states, steps, i);
    assert Follows(states[i], steps[i], states[i + 1]);
    ArmedWasArmed(states[i], steps[i], states[i + 1], t, a);
  }

  lemma {:induction false} ArmedSinceTheEnd(states: seq<State>, steps: seq<Statement>, i: nat, j: nat, t: Tx, a: Id)
    requires Runs(states, steps) && i <= j < |states| && Frozen(states[i].rows, a) && ArmedIn(states[j], t, a)
    ensures ArmedIn(states[i], t, a) && states[i].open[t].call == states[j].open[t].call
    decreases j
  {
    if i < j {
      FrozenForGood(states, steps, i, j - 1, a);
      ArmedAt(states, steps, j - 1, t, a);
      ArmedSinceTheEnd(states, steps, i, j - 1, t, a);
    }
  }

  lemma ChangeIsAnArmedCommit(s: State, step: Statement, a: Id)
    requires Inv(s) && Enabled(s, step) && Frozen(s.rows, a)
    requires a in Apply(s, step).rows.apps && Apply(s, step).rows.apps[a] != s.rows.apps[a]
    ensures step.Commit? && ArmedIn(s, step.t, a)
  {
    if step.Commit? {
      assert TxnOk(s.rows, s.open[step.t]);
      OnlyArmedChange(s.rows, s.open[step.t], a);
    } else if Own(step) {
      OwnStepIsPut(s, step);
    }
  }

  lemma CommitKeepsSettled(s: State, step: Statement, a: Id)
    requires Inv(s) && Enabled(s, step) && step.Commit? && Settled(s, a)
    ensures Settled(Apply(s, step), a) && Apply(s, step).rows.apps[a] == s.rows.apps[a]
  {
    assert TxnOk(s.rows, s.open[step.t]);
    OnlyArmedChange(s.rows, s.open[step.t], a);
  }

  lemma OwnStepKeepsSettled(s: State, step: Statement, a: Id)
    requires Inv(s) && Enabled(s, step) && Own(step) && Settled(s, a)
    ensures Settled(Put(s, step.t, After(s, step)), a)
  {
    if step.t in s.open {
      assert TxnOk(s.rows, s.open[step.t]);
    }
    OwnStepArmsNobody(s, step, a);
  }

  lemma StepKeepsSettled(s: State, step: Statement, a: Id)
    requires Inv(s) && Enabled(s, step) && Settled(s, a)
    ensures Settled(Apply(s, step), a) && Apply(s, step).rows.apps[a] == s.rows.apps[a]
  {
    if step.Commit? {
      CommitKeepsSettled(s, step, a);
    } else if Own(step) {
      OwnStepKeepsSettled(s, step, a);
    }
  }

  lemma StepKeepsFrozen(s: State, step: Statement, a: Id)
    requires Inv(s) && Enabled(s, step) && Frozen(s.rows, a)
    ensures Frozen(Apply(s, step).rows, a)
    ensures Apply(s, step).rows.apps[a] != s.rows.apps[a] ==> Settled(Apply(s, step), a)
  {
    if step.Commit? {
      assert TxnOk(s.rows, s.open[step.t]);
      OnlyArmedChange(s.rows, s.open[step.t], a);
      if CommittedRows(s.rows, s.open[step.t]).apps[a] != s.rows.apps[a] {
        CommitDisarms(s, step.t, a);
      }
    } else if Own(step) {
      OwnStepIsPut(s, step);
    }
  }

  lemma SettledAt(states: seq<State>, steps: seq<Statement>, i: nat, a: Id)
    requires Runs(states, steps) && i + 1 < |states| && Settled(states[i], a)
    ensures Settled(states[i + 1], a) && states[i + 1].rows.apps[a] == states[i].rows.apps[a]
  {
    RunKeepsInv(states, steps, i);
    assert Follows(states[i], steps[i], states[i + 1]);
    StepKeepsSettled(states[i], steps[i], a);
  }

  lemma FrozenAt(states: seq<State>, steps: seq<Statement>, i: nat, a: Id)
    requires Runs(states, steps) && i + 1 < |states| && Frozen(states[i].rows, a)
    ensures Frozen(states[i + 1].rows, a)
    ensures states[i + 1].rows.apps[a] != states[i].rows.apps[a] ==> Settled(states[i + 1], a)
  {
    RunKeepsInv(states, steps, i);
    assert Follows(states[i], steps[i], states[i + 1]);
    StepKeepsFrozen(states[i], steps[i], a);
  }

  lemma {:induction false} SettledForGood(states: seq<State>, steps: seq<Statement>, i: nat, j: nat, a: Id)
    requires Runs(states, steps) && i <= j < |states| && Settled(states[i], a)
    ensures Settled(states[j], a) && states[j].rows.apps[a] == states[i].rows.apps[a]
    decreases j
  {
    if i < j {
      SettledForGood(states, steps, i, j - 1, a);
      SettledAt(states, steps, j - 1, a);
    }
  }

  lemma {:induction false} FrozenForGood(states: seq<State>, steps: seq<Statement>, i: nat, j: nat, a: Id)
    requires Runs(states, steps) && i <= j < |states| && Frozen(states[i].rows, a)
    ensures Frozen(states[j].rows, a)
    decreases j
  {
    if i < j {
      FrozenForGood(states, steps, i, j - 1, a);
      FrozenAt(states, steps, j - 1, a);
    }
  }

  /** The change is the commit of a command that, when the Event ended, held the Application and had read the Event. */
  lemma LandsFromBeforeTheEnd(states: seq<State>, steps: seq<Statement>, i: nat, j: nat, a: Id)
    requires Runs(states, steps) && i <= j < |steps| && Frozen(states[i].rows, a)
    requires a in states[j].rows.apps && a in states[j + 1].rows.apps && states[j + 1].rows.apps[a] != states[j].rows.apps[a]
    ensures steps[j].Commit? && ArmedIn(states[i], steps[j].t, a)
    ensures states[i].open[steps[j].t].held == {a} && steps[j].t in states[j].open
            && states[i].open[steps[j].t].call == states[j].open[steps[j].t].call
  {
    RunKeepsInv(states, steps, i);
    RunKeepsInv(states, steps, j);
    FrozenForGood(states, steps, i, j, a);
    assert Follows(states[j], steps[j], states[j + 1]);
    ChangeIsAnArmedCommit(states[j], steps[j], a);
    ArmedSinceTheEnd(states, steps, i, j, steps[j].t, a);
    assert TxnOk(states[i].rows, states[i].open[steps[j].t]);
  }

  /**
   After its Event has ended an Application changes at most once more in any interleaving: in the commit of a
   command that already had it locked and had read the Event when the Event ended. From then on it is frozen.
   */
  lemma AtMostOneLandsAfterTheEnd(states: seq<State>, steps: seq<Statement>, i: nat, j: nat, k: nat, a: Id)
    requires Runs(states, steps) && i <= j < k < |states| && Frozen(states[i].rows, a)
    ensures Frozen(states[j].rows, a) && Frozen(states[j + 1].rows, a) && Frozen(states[k].rows, a)
    ensures states[j + 1].rows.apps[a] != states[j].rows.apps[a] ==>
              && states[k].rows.apps[a] == states[j + 1].rows.apps[a]
              && steps[j].Commit? && ArmedIn(states[i], steps[j].t, a) && states[i].open[steps[j].t].held == {a}
              && steps[j].t in states[j].open && states[j].open[steps[j].t].call == states[i].open[steps[j].t].call
  {
    FrozenForGood(states, steps, i, j, a);
    FrozenForGood(states, steps, i, k, a);
    FrozenAt(states, steps, j, a);
    if states[j + 1].rows.apps[a] != states[j].rows.apps[a] {
      SettledForGood(states, steps, j + 1, k, a);
      LandsFromBeforeTheEnd(states, steps, i, j, a);
    }
  }

  // ---- ended Events -----------------------------------------------------------------------------

  lemma StepKeepsEnded(s: State, step: Statement, e: Id)
    requires Inv(s) && Enabled(s, step) && e in s.rows.events && Terminal(s.rows.events[e].status)
    ensures e in Apply(s, step).rows.events && Apply(s, step).rows.events[e] == s.rows.events[e]
  {
    if step.Commit? {
      assert TxnOk(s.rows, s.open[step.t]);
    } else if Own(step) {
      OwnStepIsPut(s, step);
    }
  }

  lemma EndedAt(states: seq<State>, steps: seq<Statement>, i: nat, e: Id)
    requires Runs(states, steps) && i + 1 < |states| && e in states[i].rows.events && Terminal(states[i].rows.events[e].status)
    ensures e in states[i + 1].rows.events && states[i + 1].rows.events[e] == states[i].rows.events[e]
  {
    RunKeepsInv(states, steps, i);
    assert Follows(states[i], steps[i], states[i + 1]);
    StepKeepsEnded(states[i], steps[i], e);
  }

  /** The Event itself is final once it has ended, however commands interleave. */
  lemma {:induction false} EndedEventsAreFinal(states: seq<State>, steps: seq<Statement>, i: nat, j: nat, e: Id)
    requires Runs(states, steps) && i <= j < |states|
    requires e in states[i].rows.events && Terminal(states[i].rows.events[e].status)
    ensures e in states[j].rows.events && states[j].rows.events[e] == states[i].rows.events[e]
    decreases j
  {
    if i < j {
      EndedEventsAreFinal(states, steps, i, j - 1, e);
      EndedAt(states, steps, j - 1, e);
    }
  }

  // ---- the children of a closed Event -----------------------------------------------------------

  ghost predicate ChildOf(e: Event, parent: Id) {
    e.parent == Some(parent)
  }

  /** No open transaction is about to commit a child of e. */
  ghost predicate NoneUnderWay(s: State, e: Id) {
    forall u, c :: u in s.open && c in s.open[u].ew ==> !ChildOf(s.open[u].ew[c], e)
  }

  /** What stands in the way of new children while a close is deciding and committing. */
  lemma NoChildUnderWay(rows: Rows, x: Txn, y: Txn, c: Id)
    requires x.call.op.Close? && x.eventLock == Some(x.call.op.event) && ChildrenFinished(rows.events, x.call.op.event)
    requires TxnOk(rows, y) && Compatible(x, y) && c in y.ew
    ensures !ChildOf(y.ew[c], x.call.op.event)
  {
  }

  lemma CommitOfClose(s: State, t: Tx)
    requires Inv(s) && Enabled(s, Commit(t)) && s.open[t].call.op.Close?
    ensures ChildrenFinished(s.rows.events, s.open[t].call.op.event)
    ensures forall u, c :: u in s.open && u != t && c in s.open[u].ew ==> !ChildOf(s.open[u].ew[c], s.open[t].call.op.event)
  {
    assert TxnOk(s.rows, s.open[t]);
    forall u, c | u in s.open && u != t && c in s.open[u].ew
      ensures !ChildOf(s.open[u].ew[c], s.open[t].call.op.event)
    {
      assert TxnOk(s.rows, s.open[u]) && Compatible(s.open[t], s.open[u]);
      NoChildUnderWay(s.rows, s.open[t], s.open[u], c);
    }
  }

  /**
   When a close commits, every child of its Event has ended, and none is being created or moved: the insert of a
   child waits for its parent's row. So the children there are stay as they are, and any other is inserted later.
   */
  lemma ClosesOverEndedChildren(states: seq<State>, steps: seq<Statement>, i: nat, j: nat, t: Tx)
    requires Runs(states, steps) && i < j < |states| && steps[i] == Commit(t)
    requires t in states[i].open && states[i].open[t].call.op.Close?
    ensures var e := states[i].open[t].call.op.event;
            && (forall c :: c in states[i].rows.events && ChildOf(states[i].rows.events[c], e) ==>
                  && Terminal(states[i].rows.events[c].status)
                  && c in states[j].rows.events && states[j].rows.events[c] == states[i].rows.events[c])
            && NoneUnderWay(states[i + 1], e)
  {
    var e := states[i].open[t].call.op.event;
    RunKeepsInv(states, steps, i);
    assert Follows(states[i], steps[i], states[i + 1]);
    CommitOfClose(states[i], t);
    forall c | c in states[i].rows.events && ChildOf(states[i].rows.events[c], e)
      ensures Terminal(states[i].rows.events[c].status)
      ensures c in states[j].rows.events && states[j].rows.events[c] == states[i].rows.events[c]
    {
      EndedEventsAreFinal(states, steps, i, j, c);
    }
  }

  // ---- a command with no other beside it --------------------------------------------------------

  ghost predicate By(t: Tx, states: seq<State>, steps: seq<Statement>, i: nat)
    requires |states| == |steps| + 1 && i < |steps|
  {
    steps[i].t == t && Enabled(states[i], steps[i]) && states[i + 1] == Apply(states[i], steps[i])
  }

  ghost predicate Path(t: Tx, states: seq<State>, steps: seq<Statement>) {
    |states| == |steps| + 1 && forall i: nat :: i < |steps| ==> By(t, states, steps, i)
  }

  /** Some statements of one transaction, one after another, lead from the one state to the other. */
  ghost predicate Leads(t: Tx, s: State, s': State) {
    exists states: seq<State>, steps: seq<Statement> :: Path(t, states, steps) && states[0] == s && states[|steps|] == s'
  }

  lemma LeadsNowhere(t: Tx, s: State)
    ensures Leads(t, s, s)
  {
    var none: seq<Statement> := [];
    assert Path(t, [s], none);
  }

  lemma LeadsOn(t: Tx, s: State, step: Statement, s': State)
    requires Enabled(s, step) && step.t == t && Leads(t, Apply(s, step), s')
    ensures Leads(t, s, s')
  {
    var states: seq<State>, steps: seq<Statement> :| Path(t, states, steps) && states[0] == Apply(s, step) && states[|steps|] == s';
    var states', steps' := [s] + states, [step] + steps;
    forall i: nat | i < |steps'|
      ensures By(t, states', steps', i)
    {
      assert i > 0 ==> By(t, states, steps, i - 1);
    }
    assert Path(t, states', steps');
  }

  /** What a bulk command takes along of these Applications. */
  ghost function TakenOf(rows: Rows, c: Call, todo: set<Id>): map<Id, Application>
    requires todo <= rows.apps.Keys
  {
    map a | a in todo && Takes(c.op, rows.apps[a]) :: Taken(c, rows.apps[a])
  }

  lemma Commits(rows: Rows, t: Tx, x: Txn, after: Rows)
    requires x.phase == Done && CommittedRows(rows, x) == after
    ensures Leads(t, State(rows, map[t := x]), State(after, map[]))
  {
    assert Apply(State(rows, map[t := x]), Commit(t)) == State(after, map[]);
    LeadsNowhere(t, State(after, map[]));
    LeadsOn(t, State(rows, map[t := x]), Commit(t), State(after, map[]));
  }

  /** One statement of the only open transaction. */
  lemma Does(rows: Rows, t: Tx, x: Txn, step: Statement, y: Txn, s': State)
    requires Own(step) && step.t == t && Enabled(State(rows, map[t := x]), step) && After(State(rows, map[t := x]), step) == y
    requires Leads(t, State(rows, map[t := y]), s')
    ensures Leads(t, State(rows, map[t := x]), s')
  {
    var s := State(rows, map[t := x]);
    assert map[t := x][t := y] == map[t := y];
    LeadsOn(t, s, step, s');
  }

  lemma LocksNext(rows: Rows, t: Tx, x: Txn, a: Id, s': State)
    requires x.phase.Moving? && a in x.phase.todo && a in rows.apps
    requires Leads(t, State(rows, map[t := TookNext(rows, x, a)]), s')
    ensures Leads(t, State(rows, map[t := x]), s')
  {
    Does(rows, t, x, LockNext(t, a), TookNext(rows, x, a), s');
  }

  lemma EndsMoving(rows: Rows, t: Tx, x: Txn, s': State)
    requires x.phase == Moving({}) && Leads(t, State(rows, map[t := x.(phase := Done)]), s')
    ensures Leads(t, State(rows, map[t := x]), s')
  {
    Does(rows, t, x, EndMoving(t), x.(phase := Done), s');
  }

  lemma DecidesEvent(rows: Rows, t: Tx, x: Txn, s': State)
    requires x.phase == Owning && OnEvent(x.call.op) && Step(rows, x.call).Ok?
    requires Leads(t, State(rows, map[t := EventDecided(rows, x)]), s')
    ensures Leads(t, State(rows, map[t := x]), s')
  {
    Does(rows, t, x, DecideEvent(t), EventDecided(rows, x), s');
  }

  lemma LocksEvent(rows: Rows, t: Tx, c: Call, s': State)
    requires OnEvent(c.op) && c.op.event in rows.events
    requires Leads(t, State(rows, map[t := BegunTxn(c).(phase := Owning, eventLock := Some(c.op.event))]), s')
    ensures Leads(t, State(rows, map[t := BegunTxn(c)]), s')
  {
    Does(rows, t, BegunTxn(c), LockEvent(t), BegunTxn(c).(phase := Owning, eventLock := Some(c.op.event)), s');
  }

  lemma TakenLater(rows: Rows, x: Txn, todo: set<Id>, a: Id)
    requires x.phase == Moving(todo) && todo <= rows.apps.Keys && a in todo
    ensures TookNext(rows, x, a).(aw := TookNext(rows, x, a).aw + TakenOf(rows, x.call, todo - {a})).aw == x.aw + TakenOf(rows, x.call, todo)
  {
  }

  lemma SameCommit(rows: Rows, x: Txn, y: Txn)
    requires x.ew == y.ew && x.aw == y.aw && x.vw == y.vw
    ensures CommittedRows(rows, x) == CommittedRows(rows, y)
  {
  }

  /** Alone, a bulk command gets every lock and takes along every Application on its list that qualifies. */
  lemma {:induction false} TakesAll(rows: Rows, t: Tx, x: Txn, todo: set<Id>, after: Rows)
    requires x.phase == Moving(todo) && todo <= rows.apps.Keys
    requires CommittedRows(rows, x.(aw := x.aw + TakenOf(rows, x.call, todo))) == after
    ensures Leads(t, State(rows, map[t := x]), State(after, map[]))
    decreases todo
  {
    if todo == {} {
      assert x.aw + TakenOf(rows, x.call, todo) == x.aw;
      SameCommit(rows, x.(phase := Done), x.(aw := x.aw + TakenOf(rows, x.call, todo)));
      Commits(rows, t, x.(phase := Done), after);
      EndsMoving(rows, t, x, State(after, map[]));
    } else {
      var a :| a in todo;
      var y := TookNext(rows, x, a);
      TakenLater(rows, x, todo, a);
      SameCommit(rows, y.(aw := y.aw + TakenOf(rows, x.call, todo - {a})), x.(aw := x.aw + TakenOf(rows, x.call, todo)));
      TakesAll(rows, t, y, todo - {a}, after);
      LocksNext(rows, t, x, a, State(after, map[]));
    }
  }

  lemma EventRowsAre(rows: Rows, c: Call)
    requires OnEvent(c.op) && Step(rows, c).Ok?
    ensures var x := BegunTxn(c).(phase := Owning, eventLock := Some(c.op.event));
            var y := EventDecided(rows, x);
            CommittedRows(rows, y.(aw := y.aw + TakenOf(rows, c, TakenBy(rows, c.op)))) == Step(rows, c).value
  {
    var taken := TakenOf(rows, c, TakenBy(rows, c.op));
    var after := Step(rows, c).value;
    assert rows.events + map[c.op.event := after.events[c.op.event]] == after.events;
    assert rows.apps + (map[] + taken) == after.apps;
  }

  lemma EventCommandAlone(rows: Rows, t: Tx, c: Call)
    requires OnEvent(c.op) && Step(rows, c).Ok? && c.op.event in rows.events
    ensures Leads(t, State(rows, map[t := BegunTxn(c)]), State(Step(rows, c).value, map[]))
  {
    var x := BegunTxn(c).(phase := Owning, eventLock := Some(c.op.event));
    var y := EventDecided(rows, x);
    var after := Step(rows, c).value;
    EventRowsAre(rows, c);
    if c.op.StartFailover? || c.op.StartFailback? {
      TakesAll(rows, t, y, TakenBy(rows, c.op), after);
    } else {
      assert TakenBy(rows, c.op) == {} && y.aw + TakenOf(rows, c, {}) == y.aw;
      Commits(rows, t, y, after);
    }
    DecidesEvent(rows, t, x, State(after, map[]));
    LocksEvent(rows, t, c, State(after, map[]));
  }

  lemma AppRowsAre(rows: Rows, x: Txn)
    requires OnApplication(x.call.op) && x.phase.Seen? && x.call.op.app in rows.apps && Step(rows, x.call).Ok?
    requires rows.apps[x.call.op.app].event in rows.events && x.phase.event == rows.events[rows.apps[x.call.op.app].event]
    requires x.ew == map[] && x.aw == map[] && x.vw == None
    ensures SeenBy(rows, x) == rows && CommittedRows(rows, AppDecided(rows, x)) == Step(rows, x.call).value
  {
    assert SeenBy(rows, x).events == rows.events;
  }

  lemma AppCommandAlone(rows: Rows, t: Tx, c: Call)
    requires OnApplication(c.op) && Step(rows, c).Ok?
    requires c.op.app in rows.apps && rows.apps[c.op.app].event in rows.events
    requires !Terminal(rows.events[rows.apps[c.op.app].event].status)
    ensures Leads(t, State(rows, map[t := BegunTxn(c)]), State(Step(rows, c).value, map[]))
  {
    var after := Step(rows, c).value;
    var x0 := BegunTxn(c);
    var x1 := x0.(phase := Held, held := {c.op.app});
    var x2 := x1.(phase := Seen(rows.events[rows.apps[c.op.app].event]));
    AppRowsAre(rows, x2);
    var x3 := AppDecided(rows, x2);
    Commits(rows, t, x3, after);
    Does(rows, t, x2, DecideApp(t), x3, State(after, map[]));
    Does(rows, t, x1, ReadEvent(t), x2, State(after, map[]));
    Does(rows, t, x0, LockApp(t), x1, State(after, map[]));
  }

  lemma CreationAlone(rows: Rows, t: Tx, c: Call)
    requires c.op.CreateEvent? && Step(rows, c).Ok?
    ensures Leads(t, State(rows, map[t := BegunTxn(c)]), State(Step(rows, c).value, map[]))
  {
    var y := Created(rows, BegunTxn(c));
    assert CommittedRows(rows, y) == Step(rows, c).value;
    Commits(rows, t, y, Step(rows, c).value);
    Does(rows, t, BegunTxn(c), Create(t), y, State(Step(rows, c).value, map[]));
  }

  /** Statement by statement, an accepted command that runs alone commits exactly what the serial command does. */
  lemma AloneIsTheCommand(rows: Rows, t: Tx, c: Call)
    requires Step(rows, c).Ok?
    ensures Leads(t, State(rows, map[]), State(Step(rows, c).value, map[]))
  {
    if OnApplication(c.op) {
      AppCommandAlone(rows, t, c);
    } else if c.op.CreateEvent? {
      CreationAlone(rows, t, c);
    } else {
      EventCommandAlone(rows, t, c);
    }
    assert Apply(State(rows, map[]), Begin(t, c)) == State(rows, map[t := BegunTxn(c)]);
    LeadsOn(t, State(rows, map[]), Begin(t, c), State(Step(rows, c).value, map[]));
  }
}
