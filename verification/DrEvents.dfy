/**
 DR Events and their DR Applications: what each command does to the committed rows, and what holds over
 every run of commands. Each command is one serial transaction here.
 */
module DrEvents {
  import opened Prelude

  type Id = nat
  type Time = int

  datatype EventStatus = Planned | Active | FailoverInProgress | FailedOver | FailbackInProgress | Closed | Cancelled

  datatype AppStatus =
    | NotStarted | Recovering | TechnicalValidation | AppFailedOver | AppFailbackInProgress | Completed

  datatype Event = Event(parent: Option<Id>, status: EventStatus, version: nat, updatedAt: Time,
                         networkCutAt: Option<Time>, failbackStartedAt: Option<Time>,
                         completedAt: Option<Time>, cancelledAt: Option<Time>)

  datatype Application = Application(event: Id, status: AppStatus, failbackRequired: bool, version: nat,
                                     slaStartAt: Option<Time>, technicalValidatedAt: Option<Time>, updatedAt: Time)

  datatype ValidationStatus = Pending | Approved | Rejected

  datatype Validation = Validation(application: Id, submitter: Id, status: ValidationStatus, validator: Option<Id>)

  datatype Rows = Rows(events: map<Id, Event>, apps: map<Id, Application>, validations: seq<Validation>)

  /**
   Guards that rest on other components come in as booleans; `unresolved` is what the look-ups of the Applications
   in scope, of their tiers and of the plan raise, if anything.
   */
  datatype Op =
    | CreateEvent(created: Id, parent: Option<Id>, apps: map<Id, bool>, unresolved: Option<Error>)
    | Activate(event: Id, hardStops: bool, unoverridable: bool, reason: bool)
    | StartFailover(event: Id, cutAt: Option<Time>)
    | MarkFailedOver(event: Id)
    | StartFailback(event: Id)
    | Close(event: Id, monitoring: bool, exception: Option<bool>, mayExcept: bool)
    | Cancel(event: Id, reason: bool)
    | Submit(app: Id, actor: Id, unfinished: bool, reason: bool)
    | Validate(app: Id, actor: Id, approve: bool, note: bool)

  /**
   A call reads the clock before it writes and again when it stamps what it wrote. `validate` makes its first
   reading before it has locked anything, so `now` may be any earlier time.
   */
  datatype Call = Call(op: Op, authorized: bool, expected: nat, now: Time, end: Time)

  datatype Error =
    | EventNotFound | ApplicationNotFound | AuthorizationRequired | ConcurrencyConflict | InvalidTransition
    | ReadinessHardStop | CutOutOfBounds | ChildNotTerminal | FailbackStillRequired | MonitoringWarning
    | ReasonRequired | TasksUnfinished | SelfValidation | NoteRequired | AlreadyExists
    | TierNotFound | PlanVersionRequired

  predicate Terminal(s: EventStatus) {
    s == Closed || s == Cancelled
  }

  predicate LegalMove(from: EventStatus, to: EventStatus) {
    match to
    case Active => from == Planned
    case FailoverInProgress => from == Active
    case FailedOver => from == FailoverInProgress
    case FailbackInProgress => from == FailedOver
    case Closed => from == FailedOver || from == FailbackInProgress
    case Cancelled => !Terminal(from)
    case Planned => false
  }

  /** The documented DR Event machine. */
  ghost const EVENT_MOVES: set<(EventStatus, EventStatus)> := {
    (Planned, Active), (Active, FailoverInProgress), (FailoverInProgress, FailedOver), (FailedOver, FailbackInProgress),
    (FailedOver, Closed), (FailbackInProgress, Closed),
    (Planned, Cancelled), (Active, Cancelled), (FailoverInProgress, Cancelled), (FailedOver, Cancelled),
    (FailbackInProgress, Cancelled)}

  /** The documented DR Application machine. */
  ghost const APP_MOVES: set<(AppStatus, AppStatus)> := {
    (NotStarted, Recovering), (Recovering, TechnicalValidation), (TechnicalValidation, Recovering),
    (TechnicalValidation, AppFailedOver), (TechnicalValidation, Completed), (AppFailedOver, AppFailbackInProgress),
    (AppFailbackInProgress, Completed)}

  lemma LegalMovesAreDocumented(from: EventStatus, to: EventStatus)
    ensures LegalMove(from, to) <==> (from, to) in EVENT_MOVES
    ensures Terminal(from) <==> forall s :: (from, s) !in EVENT_MOVES
  {
    if !Terminal(from) {
      assert (from, Cancelled) in EVENT_MOVES;
    }
  }

  // ---- rows a command writes --------------------------------------------------------------------

  function NewEvent(parent: Option<Id>, at: Time): Event {
    Event(parent, Planned, 1, at, None, None, None, None)
  }

  function NewApplication(event: Id, failbackRequired: bool, at: Time): Application {
    Application(event, NotStarted, failbackRequired, 1, None, None, at)
  }

  function Moved(e: Event, to: EventStatus, at: Time): Event {
    e.(status := to, version := e.version + 1, updatedAt := at)
  }

  function Recovered(a: Application, e: Id, cut: Time, now: Time): Application {
    if a.event == e && a.status == NotStarted
    then a.(status := Recovering, slaStartAt := Some(cut), version := a.version + 1, updatedAt := now)
    else a
  }

  function FailingBack(a: Application, e: Id, now: Time): Application {
    if a.event == e && a.status == AppFailedOver && a.failbackRequired
    then a.(status := AppFailbackInProgress, version := a.version + 1, updatedAt := now)
    else a
  }

  function Validated(a: Application, approve: bool, now: Time, end: Time): Application {
    var failback := a.status == AppFailbackInProgress;
    var status :=
      if approve then (if failback || !a.failbackRequired then Completed else AppFailedOver)
      else if failback then a.status else Recovering;
    a.(status := status, version := a.version + 1, updatedAt := end,
       technicalValidatedAt := if approve && !failback then Some(now) else a.technicalValidatedAt)
  }

  predicate IsPending(v: Validation, app: Id) {
    v.application == app && v.status == Pending
  }

  /** The first pending Validation of an Application at or after i. */
  function PendingFrom(vs: seq<Validation>, app: Id, i: nat): (r: Option<nat>)
    requires i <= |vs|
    ensures r.Some? ==> i <= r.value < |vs| && IsPending(vs[r.value], app) && forall j :: i <= j < r.value ==> !IsPending(vs[j], app)
    ensures r == None ==> forall j :: i <= j < |vs| ==> !IsPending(vs[j], app)
    decreases |vs| - i
  {
    if i == |vs| then None
    else if IsPending(vs[i], app) then Some(i)
    else PendingFrom(vs, app, i + 1)
  }

  // ---- the commands -----------------------------------------------------------------------------

  predicate ChildrenFinished(events: map<Id, Event>, e: Id) {
    forall c :: c in events && events[c].parent == Some(e) ==> Terminal(events[c].status)
  }

  predicate FailbackPending(apps: map<Id, Application>, e: Id) {
    exists a :: a in apps && apps[a].event == e && apps[a].failbackRequired
  }

  /** The guards every Event command shares: authorization comes before existence. */
  function EventRefusal(events: map<Id, Event>, e: Id, c: Call, to: EventStatus): (r: Option<Error>)
    ensures r == None <==> c.authorized && e in events && events[e].version == c.expected && LegalMove(events[e].status, to)
  {
    if !c.authorized then Some(AuthorizationRequired)
    else if e !in events then Some(EventNotFound)
    else if events[e].version != c.expected then Some(ConcurrencyConflict)
    else if !LegalMove(events[e].status, to) then Some(InvalidTransition)
    else None
  }

  /** The guards every Application command shares: a terminal Event stops them before authorization. */
  function AppRefusal(s: Rows, a: Id, c: Call): (r: Option<Error>)
    ensures r == None ==> a in s.apps && s.apps[a].event in s.events && !Terminal(s.events[s.apps[a].event].status)
                          && c.authorized && s.apps[a].version == c.expected
  {
    if a !in s.apps then Some(ApplicationNotFound)
    else if s.apps[a].event !in s.events || Terminal(s.events[s.apps[a].event].status) then Some(InvalidTransition)
    else if !c.authorized then Some(AuthorizationRequired)
    else if s.apps[a].version != c.expected then Some(ConcurrencyConflict)
    else None
  }

  function CloseRefusal(s: Rows, op: Op): (r: Option<Error>)
    requires op.Close? && op.event in s.events
    ensures r == None ==> ChildrenFinished(s.events, op.event)
    ensures r == None && s.events[op.event].status == FailedOver ==> !FailbackPending(s.apps, op.event)
  {
    if !ChildrenFinished(s.events, op.event) then Some(ChildNotTerminal)
    else if s.events[op.event].status == FailedOver && FailbackPending(s.apps, op.event) then Some(FailbackStillRequired)
    else if op.monitoring && op.exception == None then Some(MonitoringWarning)
    else if op.monitoring && !op.exception.value then Some(ReasonRequired)
    else if op.monitoring && !op.mayExcept then Some(AuthorizationRequired)
    else None
  }

  /** What a call does to the rows, or the error it raises. */
  ghost function Step(s: Rows, c: Call): Outcome<Rows, Error> {
    match c.op
    case CreateEvent(e, parent, apps, unresolved) =>
      if !c.authorized then Failed(AuthorizationRequired)
      else if parent.Some? && parent.value !in s.events then Failed(EventNotFound)
      else if unresolved.Some? then Failed(unresolved.value)
      else if e in s.events || !(apps.Keys !! s.apps.Keys) then Failed(AlreadyExists)
      else Ok(s.(events := s.events[e := NewEvent(parent, c.now)],
                 apps := s.apps + (map a | a in apps :: NewApplication(e, apps[a], c.now))))
    case Activate(e, hardStops, unoverridable, reason) =>
      var refused := EventRefusal(s.events, e, c, Active);
      if refused.Some? then Failed(refused.value)
      else if hardStops && (!reason || unoverridable) then Failed(ReadinessHardStop)
      else Ok(s.(events := s.events[e := Moved(s.events[e], Active, c.end)]))
    case StartFailover(e, cutAt) =>
      var refused := EventRefusal(s.events, e, c, FailoverInProgress);
      if refused.Some? then Failed(refused.value)
      else
        var cut := if cutAt.Some? then cutAt.value else c.now;
        if cut < s.events[e].updatedAt || cut > c.now then Failed(CutOutOfBounds)
        else Ok(s.(events := s.events[e := Moved(s.events[e], FailoverInProgress, c.end).(networkCutAt := Some(cut))],
                   apps := map a | a in s.apps :: Recovered(s.apps[a], e, cut, c.now)))
    case MarkFailedOver(e) =>
      var refused := EventRefusal(s.events, e, c, FailedOver);
      if refused.Some? then Failed(refused.value)
      else Ok(s.(events := s.events[e := Moved(s.events[e], FailedOver, c.end)]))
    case StartFailback(e) =>
      var refused := EventRefusal(s.events, e, c, FailbackInProgress);
      if refused.Some? then Failed(refused.value)
      else Ok(s.(events := s.events[e := Moved(s.events[e], FailbackInProgress, c.end).(failbackStartedAt := Some(c.now))],
                 apps := map a | a in s.apps :: FailingBack(s.apps[a], e, c.now)))
    case Close(e, _, _, _) =>
      var refused := EventRefusal(s.events, e, c, Closed);
      if refused.Some? then Failed(refused.value)
      else if CloseRefusal(s, c.op).Some? then Failed(CloseRefusal(s, c.op).value)
      else Ok(s.(events := s.events[e := Moved(s.events[e], Closed, c.end).(completedAt := Some(c.now))]))
    case Cancel(e, reason) =>
      if !reason then Failed(ReasonRequired)
      else
        var refused := EventRefusal(s.events, e, c, Cancelled);
        if refused.Some? then Failed(refused.value)
        else Ok(s.(events := s.events[e := Moved(s.events[e], Cancelled, c.end).(cancelledAt := Some(c.now))]))
    case Submit(a, actor, unfinished, reason) =>
      var refused := AppRefusal(s, a, c);
      if refused.Some? then Failed(refused.value)
      else if s.apps[a].status != Recovering && s.apps[a].status != AppFailbackInProgress then Failed(InvalidTransition)
      else if PendingFrom(s.validations, a, 0).Some? then Failed(InvalidTransition)
      else if unfinished && !reason then Failed(TasksUnfinished)
      else
        var row := s.apps[a];
        Ok(s.(apps := s.apps[a := row.(status := if row.status == Recovering then TechnicalValidation else row.status,
                                       version := row.version + 1, updatedAt := c.end)],
              validations := s.validations + [Validation(a, actor, Pending, None)]))
    case Validate(a, actor, approve, note) =>
      var refused := AppRefusal(s, a, c);
      if refused.Some? then Failed(refused.value)
      else if s.apps[a].status != TechnicalValidation && s.apps[a].status != AppFailbackInProgress then Failed(InvalidTransition)
      else
        var p := PendingFrom(s.validations, a, 0);
        if p == None then Failed(InvalidTransition)
        else if s.validations[p.value].submitter == actor then Failed(SelfValidation)
        else if !approve && !note then Failed(NoteRequired)
        else
          var v := s.validations[p.value].(status := if approve then Approved else Rejected, validator := Some(actor));
          Ok(s.(apps := s.apps[a := Validated(s.apps[a], approve, c.now, c.end)], validations := s.validations[p.value := v]))
  }

  // ---- when a call is accepted, in plain terms --------------------------------------------------

  /** A creation is refused for authority, its parent, what the look-ups raise, or an id that is taken: in this order. */
  lemma CreationIs(s: Rows, c: Call)
    requires c.op.CreateEvent?
    ensures var op, r := c.op, Step(s, c);
            var parentThere := op.parent.Some? ==> op.parent.value in s.events;
            && (!c.authorized ==> r == Failed(AuthorizationRequired))
            && (c.authorized && !parentThere ==> r == Failed(EventNotFound))
            && (c.authorized && parentThere && op.unresolved.Some? ==> r == Failed(op.unresolved.value))
            && (r.Ok? <==> c.authorized && parentThere && op.unresolved == None && op.created !in s.events && op.apps.Keys !! s.apps.Keys)
            && (r.Ok? ==>
                  && r.value.events == s.events[op.created := Event(op.parent, Planned, 1, c.now, None, None, None, None)]
                  && r.value.apps.Keys == s.apps.Keys + op.apps.Keys && r.value.validations == s.validations
                  && (forall a :: a in s.apps ==> r.value.apps[a] == s.apps[a])
                  && forall a :: a in op.apps ==>
                       r.value.apps[a] == Application(op.created, NotStarted, op.apps[a], 1, None, None, c.now))
  {
  }

  /**
   A close is accepted exactly with no unfinished child, with nothing to fail back if it is direct, and with
   monitoring Tasks finished or excepted with a reason by someone who may; the guards speak in this order.
   */
  lemma CloseIs(s: Rows, c: Call)
    requires c.op.Close? && c.authorized && c.op.event in s.events && s.events[c.op.event].version == c.expected
    requires s.events[c.op.event].status == FailedOver || s.events[c.op.event].status == FailbackInProgress
    ensures var e, op, r := c.op.event, c.op, Step(s, c);
            var children := exists d :: d in s.events && s.events[d].parent == Some(e)
                                        && s.events[d].status != Closed && s.events[d].status != Cancelled;
            var failback := s.events[e].status == FailedOver && exists a :: a in s.apps && s.apps[a].event == e && s.apps[a].failbackRequired;
            && (r == Failed(ChildNotTerminal) <==> children)
            && (r == Failed(FailbackStillRequired) <==> !children && failback)
            && (r == Failed(MonitoringWarning) <==> !children && !failback && op.monitoring && op.exception == None)
            && (r == Failed(ReasonRequired) <==> !children && !failback && op.monitoring && op.exception == Some(false))
            && (r == Failed(AuthorizationRequired) <==>
                  !children && !failback && op.monitoring && op.exception == Some(true) && !op.mayExcept)
            && (r.Ok? <==> !children && !failback && (op.monitoring ==> op.exception == Some(true) && op.mayExcept))
  {
  }

  /** A decision needs a live Event, authority, the version, a phase, a pending Validation of another's, and a note to reject. */
  lemma DecisionIs(s: Rows, c: Call)
    requires c.op.Validate?
    ensures var a, r := c.op.app, Step(s, c);
            var live := a in s.apps && s.apps[a].event in s.events
                        && s.events[s.apps[a].event].status != Closed && s.events[s.apps[a].event].status != Cancelled;
            var called := live && c.authorized && s.apps[a].version == c.expected
                          && (s.apps[a].status == TechnicalValidation || s.apps[a].status == AppFailbackInProgress);
            && (r == Failed(ApplicationNotFound) <==> a !in s.apps)
            && (a in s.apps && !live ==> r == Failed(InvalidTransition))
            && (r == Failed(AuthorizationRequired) <==> live && !c.authorized)
            && (r == Failed(ConcurrencyConflict) <==> live && c.authorized && s.apps[a].version != c.expected)
            && (r == Failed(SelfValidation) <==> called && exists p :: FirstPending(s.validations, a, p) && s.validations[p].submitter == c.op.actor)
            && (r == Failed(NoteRequired) <==>
                  called && !c.op.approve && !c.op.note
                  && exists p :: FirstPending(s.validations, a, p) && s.validations[p].submitter != c.op.actor)
            && (r.Ok? <==>
                  called && (c.op.approve || c.op.note)
                  && exists p :: FirstPending(s.validations, a, p) && s.validations[p].submitter != c.op.actor)
  {
    if p :| FirstPending(s.validations, c.op.app, p) {
      assert IsPending(s.validations[p], c.op.app);
    }
    var found := PendingFrom(s.validations, c.op.app, 0);
    if found.Some? {
      assert FirstPending(s.validations, c.op.app, found.value);
    }
  }

  /** The Application's first pending Validation. */
  ghost predicate FirstPending(vs: seq<Validation>, a: Id, p: int) {
    && 0 <= p < |vs| && vs[p].application == a && vs[p].status == Pending
    && forall q :: 0 <= q < p ==> !IsPending(vs[q], a)
  }

  // ---- invariant --------------------------------------------------------------------------------

  /** The rows, the latest time read, and when each Event was activated: the last two are history. */
  datatype World = World(rows: Rows, clock: Time, activated: map<Id, Time>)

  /** An Event's status and stamps fit together. */
  ghost predicate EventFits(e: Event) {
    && (e.status == Planned || e.status == Active ==> e.networkCutAt == None)
    && (e.status == FailoverInProgress || e.status == FailedOver || e.status == FailbackInProgress || e.status == Closed ==>
          e.networkCutAt.Some?)
    && (e.status == FailbackInProgress ==> e.failbackStartedAt.Some?)
    && (e.failbackStartedAt.Some? ==> e.networkCutAt.Some? && (e.status == FailbackInProgress || Terminal(e.status)))
  }

  ghost predicate EventOk(e: Event, clock: Time, activated: Option<Time>) {
    && EventFits(e) && e.updatedAt <= clock
    && (e.status == Active ==> activated == Some(e.updatedAt))
    && (e.networkCutAt.Some? ==> activated.Some? && activated.value <= e.networkCutAt.value <= clock)
  }

  /** An Application's status fits its Event's. */
  ghost predicate AppFits(e: Event, a: Application) {
    && (a.status == NotStarted <==> e.networkCutAt == None)
    && a.slaStartAt == e.networkCutAt
    && (a.status == AppFailbackInProgress ==> e.failbackStartedAt.Some? && a.failbackRequired)
    && (a.status == AppFailedOver ==> a.failbackRequired)
    && (a.status == Completed && e.failbackStartedAt == None ==> !a.failbackRequired)
    && (e.status == Closed && e.failbackStartedAt == None ==> !a.failbackRequired)
    && (a.technicalValidatedAt.Some? <==> a.status == AppFailedOver || a.status == AppFailbackInProgress || a.status == Completed)
  }

  /** How an Application stands to its Event, its stamps included. */
  ghost predicate AppOk(e: Event, a: Application, clock: Time) {
    && AppFits(e, a)
    && (a.technicalValidatedAt.Some? ==> a.technicalValidatedAt.value <= clock)
  }

  /** TECHNICAL_VALIDATION has exactly one pending Validation, FAILBACK_IN_PROGRESS at most one, others none. */
  ghost predicate PendingOk(vs: seq<Validation>, app: Id, status: AppStatus) {
    && (status == TechnicalValidation ==> exists i :: 0 <= i < |vs| && IsPending(vs[i], app))
    && (forall i, j :: 0 <= i < |vs| && 0 <= j < |vs| && IsPending(vs[i], app) && IsPending(vs[j], app) ==> i == j)
    && (status != TechnicalValidation && status != AppFailbackInProgress ==>
          forall i :: 0 <= i < |vs| ==> !IsPending(vs[i], app))
  }

  ghost predicate DecisionOk(v: Validation) {
    v.status != Pending ==> v.validator.Some? && v.validator != Some(v.submitter)
  }

  ghost function At(activated: map<Id, Time>, e: Id): Option<Time> {
    if e in activated then Some(activated[e]) else None
  }

  ghost predicate Inv(w: World) {
    && (forall e :: e in w.rows.events ==> EventOk(w.rows.events[e], w.clock, At(w.activated, e)))
    && (forall a :: a in w.rows.apps ==> RowOk(w, a))
    && (forall i :: 0 <= i < |w.rows.validations| ==>
          w.rows.validations[i].application in w.rows.apps && DecisionOk(w.rows.validations[i]))
  }

  ghost predicate RowOk(w: World, a: Id)
    requires a in w.rows.apps
  {
    && w.rows.apps[a].event in w.rows.events
    && AppOk(w.rows.events[w.rows.apps[a].event], w.rows.apps[a], w.clock)
    && PendingOk(w.rows.validations, a, w.rows.apps[a].status)
  }

  ghost function Later(t: Time, u: Time): Time {
    if t <= u then u else t
  }

  /** One accepted or refused call. Its first reading may be older than what earlier calls have written. */
  ghost predicate Next(w: World, c: Call, w': World) {
    && c.now <= c.end && w'.clock == Later(w.clock, c.end)
    && match Step(w.rows, c)
       case Ok(rows) => w'.rows == rows && w'.activated == (if c.op.Activate? then w.activated[c.op.event := c.end] else w.activated)
       case Failed(_) => w'.rows == w.rows && w'.activated == w.activated
  }

  /** The Application commands touch one Application and its Validations; the others touch no Validation. */
  ghost predicate OnApplication(op: Op) {
    op.Submit? || op.Validate?
  }

  /** The Event a lifecycle command is about. */
  ghost predicate About(op: Op, e: Id) {
    !OnApplication(op) && !op.CreateEvent? && op.event == e
  }

  lemma EventMovesOk(w: World, c: Call, w': World, e: Id)
    requires Next(w, c, w') && Step(w.rows, c).Ok? && About(c.op, e) && e in w.rows.events && e in w'.rows.events
    requires EventOk(w.rows.events[e], w.clock, At(w.activated, e))
    ensures EventOk(w'.rows.events[e], w'.clock, At(w'.activated, e))
  {
  }

  lemma EventStaysOk(w: World, c: Call, w': World, e: Id)
    requires Next(w, c, w') && e in w'.rows.events
    requires e in w.rows.events ==> EventOk(w.rows.events[e], w.clock, At(w.activated, e))
    ensures EventOk(w'.rows.events[e], w'.clock, At(w'.activated, e))
  {
    if Step(w.rows, c).Ok? && About(c.op, e) {
      EventMovesOk(w, c, w', e);
    }
  }

  /** An Event moving on takes along an Application that no Application command has touched. */
  lemma AppStaysOk(w: World, c: Call, w': World, a: Id)
    requires Next(w, c, w') && Step(w.rows, c).Ok? && !OnApplication(c.op) && !c.op.CreateEvent? && a in w'.rows.apps
    requires a in w.rows.apps && RowOk(w, a)
    requires EventOk(w.rows.events[w.rows.apps[a].event], w.clock, At(w.activated, w.rows.apps[a].event))
    ensures w'.rows.apps[a].event in w'.rows.events
    ensures AppOk(w'.rows.events[w'.rows.apps[a].event], w'.rows.apps[a], w'.clock)
  {
    if c.op.StartFailover? || c.op.StartFailback? {
      TakenAlongStaysOk(w, c, w', a);
    }
  }

  lemma TakenAlongStaysOk(w: World, c: Call, w': World, a: Id)
    requires Next(w, c, w') && Step(w.rows, c).Ok? && (c.op.StartFailover? || c.op.StartFailback?)
    requires a in w.rows.apps && RowOk(w, a)
    requires EventOk(w.rows.events[w.rows.apps[a].event], w.clock, At(w.activated, w.rows.apps[a].event))
    ensures a in w'.rows.apps && w'.rows.apps[a].event in w'.rows.events
    ensures AppOk(w'.rows.events[w'.rows.apps[a].event], w'.rows.apps[a], w'.clock)
  {
  }

  lemma CreateKeepsRow(w: World, c: Call, w': World, a: Id)
    requires Inv(w) && Next(w, c, w') && Step(w.rows, c).Ok? && c.op.CreateEvent? && a in w'.rows.apps
    ensures RowOk(w', a)
  {
    if a in w.rows.apps {
      assert RowOk(w, a);
    }
  }

  lemma PendingStaysOk(w: World, c: Call, w': World, a: Id)
    requires Next(w, c, w') && Step(w.rows, c).Ok? && !OnApplication(c.op) && !c.op.CreateEvent? && a in w'.rows.apps
    requires a in w.rows.apps && RowOk(w, a)
    ensures PendingOk(w'.rows.validations, a, w'.rows.apps[a].status)
  {
  }

  lemma SubmitKeepsRow(w: World, c: Call, w': World, a: Id)
    requires Next(w, c, w') && Step(w.rows, c).Ok? && c.op.Submit? && a in w.rows.apps && RowOk(w, a)
    ensures a in w'.rows.apps && RowOk(w', a)
  {
    var vs, vs' := w.rows.validations, w'.rows.validations;
    assert vs' == vs + [vs'[|vs|]];
    assert forall i :: 0 <= i < |vs| ==> vs'[i] == vs[i];
  }

  lemma ValidateKeepsRow(w: World, c: Call, w': World, a: Id)
    requires Next(w, c, w') && Step(w.rows, c).Ok? && c.op.Validate? && a in w.rows.apps && RowOk(w, a)
    requires EventOk(w.rows.events[w.rows.apps[a].event], w.clock, At(w.activated, w.rows.apps[a].event))
    ensures a in w'.rows.apps && RowOk(w', a)
  {
    var vs, vs' := w.rows.validations, w'.rows.validations;
    var p := PendingFrom(vs, c.op.app, 0).value;
    assert |vs'| == |vs| && forall i :: 0 <= i < |vs| && i != p ==> vs'[i] == vs[i];
    if w.rows.apps[a].status == TechnicalValidation && a != c.op.app {
      var i :| 0 <= i < |vs| && IsPending(vs[i], a);
      assert IsPending(vs'[i], a);
    }
  }

  lemma RowStaysOk(w: World, c: Call, w': World, a: Id)
    requires Next(w, c, w') && Step(w.rows, c).Ok? && !c.op.CreateEvent? && a in w.rows.apps && RowOk(w, a)
    requires EventOk(w.rows.events[w.rows.apps[a].event], w.clock, At(w.activated, w.rows.apps[a].event))
    ensures a in w'.rows.apps && RowOk(w', a)
  {
    if c.op.Submit? {
      SubmitKeepsRow(w, c, w', a);
    } else if c.op.Validate? {
      ValidateKeepsRow(w, c, w', a);
    } else {
      AppStaysOk(w, c, w', a);
      PendingStaysOk(w, c, w', a);
    }
  }

  lemma RefusedKeepsRow(w: World, c: Call, w': World, a: Id)
    requires Next(w, c, w') && Step(w.rows, c).Failed? && a in w.rows.apps && RowOk(w, a)
    ensures a in w'.rows.apps && RowOk(w', a)
  {
  }

  lemma OnlyCreateAdds(w: World, c: Call, w': World, a: Id)
    requires Next(w, c, w') && a in w'.rows.apps && (c.op.CreateEvent? ==> Step(w.rows, c).Failed?)
    ensures a in w.rows.apps
  {
  }

  lemma EveryRowStaysOk(w: World, c: Call, w': World, a: Id)
    requires Inv(w) && Next(w, c, w') && a in w'.rows.apps
    ensures RowOk(w', a)
  {
    var done := Step(w.rows, c);
    if done.Ok? && c.op.CreateEvent? {
      CreateKeepsRow(w, c, w', a);
    } else {
      OnlyCreateAdds(w, c, w', a);
      assert RowOk(w, a);
      if done.Ok? {
        var e := w.rows.apps[a].event;
        assert EventOk(w.rows.events[e], w.clock, At(w.activated, e));
        RowStaysOk(w, c, w', a);
      } else {
        RefusedKeepsRow(w, c, w', a);
      }
    }
  }

  lemma StepKeepsInv(w: World, c: Call, w': World)
    requires Inv(w) && Next(w, c, w')
    ensures Inv(w')
  {
    forall e | e in w'.rows.events
      ensures EventOk(w'.rows.events[e], w'.clock, At(w'.activated, e))
    {
      EventStaysOk(w, c, w', e);
    }
    forall a | a in w'.rows.apps
      ensures RowOk(w', a)
    {
      EveryRowStaysOk(w, c, w', a);
    }
    ValidationsStayOk(w, c, w');
  }

  lemma ValidationsStayOk(w: World, c: Call, w': World)
    requires Inv(w) && Next(w, c, w')
    ensures forall i :: 0 <= i < |w'.rows.validations| ==>
              w'.rows.validations[i].application in w'.rows.apps && DecisionOk(w'.rows.validations[i])
  {
    forall i | 0 <= i < |w'.rows.validations|
      ensures w'.rows.validations[i].application in w'.rows.apps && DecisionOk(w'.rows.validations[i])
    {
      if i < |w.rows.validations| {
        assert w.rows.validations[i].application in w.rows.apps && DecisionOk(w.rows.validations[i]);
      }
      ValidationStaysOk(w, c, w', i);
    }
  }

  lemma ValidationStaysOk(w: World, c: Call, w': World, i: nat)
    requires Next(w, c, w') && i < |w'.rows.validations|
    requires i < |w.rows.validations| ==> w.rows.validations[i].application in w.rows.apps && DecisionOk(w.rows.validations[i])
    ensures w'.rows.validations[i].application in w'.rows.apps && DecisionOk(w'.rows.validations[i])
  {
  }

  // ---- whole runs -------------------------------------------------------------------------------

  ghost predicate Run(worlds: seq<World>, calls: seq<Call>) {
    && |worlds| == |calls| + 1 && worlds[0].rows == Rows(map[], map[], []) && worlds[0].activated == map[]
    && forall i, j :: 0 <= i < |calls| && j == i + 1 ==> Next(worlds[i], calls[i], worlds[j])
  }

  lemma {:induction false} RunKeepsInv(worlds: seq<World>, calls: seq<Call>, i: nat)
    requires Run(worlds, calls) && i < |worlds|
    ensures Inv(worlds[i])
  {
    if i > 0 {
      RunKeepsInv(worlds, calls, i - 1);
      assert Next(worlds[i - 1], calls[i - 1], worlds[i]);
      StepKeepsInv(worlds[i - 1], calls[i - 1], worlds[i]);
    }
  }

  /** In every reachable state an Application's status fits its Event's. */
  lemma EventAndApplicationsAgree(worlds: seq<World>, calls: seq<Call>, i: nat, a: Id)
    requires Run(worlds, calls) && i < |worlds| && a in worlds[i].rows.apps
    ensures worlds[i].rows.apps[a].event in worlds[i].rows.events
    ensures var app := worlds[i].rows.apps[a];
            var e := worlds[i].rows.events[app.event];
            && (e.status == Planned || e.status == Active ==> app.status == NotStarted)
            && (app.status == NotStarted ==> e.status == Planned || e.status == Active || e.status == Cancelled)
            && (app.status == AppFailbackInProgress ==>
                  e.failbackStartedAt.Some? && (e.status == FailbackInProgress || Terminal(e.status)))
            && (app.status == Completed && e.failbackStartedAt == None ==> !app.failbackRequired)
            && (e.status == Closed && e.failbackStartedAt == None ==> !app.failbackRequired)
  {
    RunKeepsInv(worlds, calls, i);
    assert RowOk(worlds[i], a);
    var e := worlds[i].rows.apps[a].event;
    assert EventOk(worlds[i].rows.events[e], worlds[i].clock, At(worlds[i].activated, e));
  }

  /** The network cut comes after the activation and is the same instant for every SLA, in every run. */
  lemma RecoveryTimesAreOrdered(worlds: seq<World>, calls: seq<Call>, i: nat, a: Id)
    requires Run(worlds, calls) && i < |worlds| && a in worlds[i].rows.apps
    ensures worlds[i].rows.apps[a].event in worlds[i].rows.events
    ensures var app := worlds[i].rows.apps[a];
            var e := worlds[i].rows.events[app.event];
            && app.slaStartAt == e.networkCutAt
            && (app.status == NotStarted <==> e.networkCutAt == None)
            && (e.networkCutAt.Some? ==>
                  app.event in worlds[i].activated && worlds[i].activated[app.event] <= e.networkCutAt.value)
            && (app.technicalValidatedAt.Some? ==> e.networkCutAt.Some? && app.technicalValidatedAt.value <= worlds[i].clock)
  {
    RunKeepsInv(worlds, calls, i);
    assert RowOk(worlds[i], a);
    var e := worlds[i].rows.apps[a].event;
    assert EventOk(worlds[i].rows.events[e], worlds[i].clock, At(worlds[i].activated, e));
  }

  /**
   A network cut is accepted exactly between the activation of the Event and now, and it is the SLA start
   of every Application of the Event, all of which begin recovering; nothing else changes.
   */
  lemma FailoverStartsEverything(worlds: seq<World>, calls: seq<Call>, i: nat)
    requires Run(worlds, calls) && i < |calls| && calls[i].op.StartFailover?
    ensures var c, w, w' := calls[i], worlds[i], worlds[i + 1];
            var e, cut := c.op.event, if c.op.cutAt.Some? then c.op.cutAt.value else c.now;
            && (Step(w.rows, c).Ok? <==>
                  c.authorized && e in w.rows.events && w.rows.events[e].status == Active
                  && w.rows.events[e].version == c.expected && e in w.activated && w.activated[e] <= cut <= c.now)
            && (Step(w.rows, c).Ok? ==>
                  forall a :: a in w.rows.apps ==>
                    && a in w'.rows.apps
                    && (w.rows.apps[a].event == e ==> w'.rows.apps[a].status == Recovering && w'.rows.apps[a].slaStartAt == Some(cut))
                    && (w.rows.apps[a].event != e ==> w'.rows.apps[a] == w.rows.apps[a]))
  {
    var c, w := calls[i], worlds[i];
    RunKeepsInv(worlds, calls, i);
    assert Next(w, c, worlds[i + 1]);
    var e := c.op.event;
    if e in w.rows.events {
      assert EventOk(w.rows.events[e], w.clock, At(w.activated, e));
      forall a | a in w.rows.apps && w.rows.apps[a].event == e
        ensures w.rows.events[e].status == Active ==> w.rows.apps[a].status == NotStarted
      {
        assert RowOk(w, a);
      }
    }
  }

  /** Validation records: as many pending ones as the status says, each decision by someone else. */
  lemma ValidationsAreKept(worlds: seq<World>, calls: seq<Call>, i: nat, a: Id)
    requires Run(worlds, calls) && i < |worlds| && a in worlds[i].rows.apps
    ensures var vs := worlds[i].rows.validations;
            var pending := set k | 0 <= k < |vs| && IsPending(vs[k], a) :: k;
            match worlds[i].rows.apps[a].status
            case TechnicalValidation => |pending| == 1
            case AppFailbackInProgress => |pending| <= 1
            case _ => pending == {}
    ensures forall k :: 0 <= k < |worlds[i].rows.validations| ==> DecisionOk(worlds[i].rows.validations[k])
  {
    RunKeepsInv(worlds, calls, i);
    assert RowOk(worlds[i], a);
    var vs := worlds[i].rows.validations;
    var pending := set k | 0 <= k < |vs| && IsPending(vs[k], a) :: k;
    if k :| 0 <= k < |vs| && IsPending(vs[k], a) {
      assert k in pending && pending == {k};
    }
  }

  /** A decision settles the Application's one pending Validation, and nothing else of anybody's. */
  lemma DecisionSettlesTheOnePending(worlds: seq<World>, calls: seq<Call>, i: nat) returns (k: nat)
    requires Run(worlds, calls) && i < |calls| && calls[i].op.Validate? && Step(worlds[i].rows, calls[i]).Ok?
    ensures var op, s, s' := calls[i].op, worlds[i].rows, worlds[i + 1].rows;
            && k < |s.validations| && IsPending(s.validations[k], op.app) && s.validations[k].submitter != op.actor
            && |s'.validations| == |s.validations|
            && s'.validations[k] == Validation(op.app, s.validations[k].submitter, if op.approve then Approved else Rejected, Some(op.actor))
            && (forall l :: 0 <= l < |s.validations| && l != k ==> s'.validations[l] == s.validations[l])
            && (forall l :: 0 <= l < |s'.validations| ==> !IsPending(s'.validations[l], op.app))
            && s'.events == s.events && s'.apps.Keys == s.apps.Keys
            && forall a :: a in s.apps && a != op.app ==> s'.apps[a] == s.apps[a]
  {
    RunKeepsInv(worlds, calls, i);
    assert Next(worlds[i], calls[i], worlds[i + 1]);
    assert RowOk(worlds[i], calls[i].op.app);
    k := PendingFrom(worlds[i].rows.validations, calls[i].op.app, 0).value;
  }

  // ---- the documented moves ---------------------------------------------------------------------

  /** What an accepted decision makes of its Application, in each phase, with and without failback to come. */
  lemma DecisionMoves(s: Rows, c: Call)
    requires c.op.Validate? && Step(s, c).Ok?
    ensures var before, after := s.apps[c.op.app], Step(s, c).value.apps[c.op.app];
            && (before.status == TechnicalValidation || before.status == AppFailbackInProgress)
            && after.status == (if before.status == AppFailbackInProgress then (if c.op.approve then Completed else AppFailbackInProgress)
                                else if !c.op.approve then Recovering
                                else if before.failbackRequired then AppFailedOver else Completed)
            && after == before.(status := after.status, version := before.version + 1, updatedAt := c.end,
                                technicalValidatedAt := if c.op.approve && before.status == TechnicalValidation then Some(c.now)
                                                        else before.technicalValidatedAt)
  {
  }

  /** Which call moved the Application. */
  ghost predicate MovedBy(c: Call, a: Id, before: Application, after: AppStatus) {
    match after
    case NotStarted => false
    case Recovering =>
      if before.status == NotStarted then c.op.StartFailover? && c.op.event == before.event
      else c.op.Validate? && c.op.app == a && !c.op.approve
    case TechnicalValidation => c.op.Submit? && c.op.app == a
    case AppFailedOver => c.op.Validate? && c.op.app == a && c.op.approve && before.failbackRequired
    case AppFailbackInProgress => c.op.StartFailback? && c.op.event == before.event && before.failbackRequired
    case Completed => c.op.Validate? && c.op.app == a && c.op.approve
  }

  lemma StepMovesApp(w: World, c: Call, w': World, a: Id)
    requires Next(w, c, w') && a in w.rows.apps && RowOk(w, a)
    ensures a in w'.rows.apps
    ensures w'.rows.apps[a].status != w.rows.apps[a].status ==>
              && Step(w.rows, c).Ok? && (w.rows.apps[a].status, w'.rows.apps[a].status) in APP_MOVES
              && MovedBy(c, a, w.rows.apps[a], w'.rows.apps[a].status)
  {
  }

  /**
   In every run an Application moves along the documented machine only, each time by the call that the documents
   name: it becomes COMPLETED, and leaves failback, in an accepted approval and in nothing else.
   */
  lemma ApplicationsMoveAsDocumented(worlds: seq<World>, calls: seq<Call>, i: nat, a: Id)
    requires Run(worlds, calls) && i < |calls| && a in worlds[i].rows.apps
    ensures a in worlds[i + 1].rows.apps
    ensures var before, after := worlds[i].rows.apps[a], worlds[i + 1].rows.apps[a];
            after.status != before.status ==>
              && Step(worlds[i].rows, calls[i]).Ok? && (before.status, after.status) in APP_MOVES
              && MovedBy(calls[i], a, before, after.status)
              && (after.status == Completed || before.status == AppFailbackInProgress ==>
                    calls[i].op.Validate? && calls[i].op.app == a && calls[i].op.approve && after.status == Completed)
  {
    RunKeepsInv(worlds, calls, i);
    assert Next(worlds[i], calls[i], worlds[i + 1]);
    assert RowOk(worlds[i], a);
    StepMovesApp(worlds[i], calls[i], worlds[i + 1], a);
  }

  ghost predicate EventMovedBy(op: Op, e: Id, to: EventStatus) {
    match to
    case Planned => false
    case Active => op.Activate? && op.event == e
    case FailoverInProgress => op.StartFailover? && op.event == e
    case FailedOver => op.MarkFailedOver? && op.event == e
    case FailbackInProgress => op.StartFailback? && op.event == e
    case Closed => op.Close? && op.event == e
    case Cancelled => op.Cancel? && op.event == e
  }

  /** One move of an Event: one version, and the stamp that belongs to the new status. */
  ghost predicate Stamped(e: Event, e': Event, c: Call) {
    e' == e.(status := e'.status, version := e.version + 1, updatedAt := c.end,
             networkCutAt := if c.op.StartFailover? then Some(if c.op.cutAt.Some? then c.op.cutAt.value else c.now) else e.networkCutAt,
             failbackStartedAt := if c.op.StartFailback? then Some(c.now) else e.failbackStartedAt,
             completedAt := if c.op.Close? then Some(c.now) else e.completedAt,
             cancelledAt := if c.op.Cancel? then Some(c.now) else e.cancelledAt)
  }

  /** In every run an Event moves along the documented machine only, by the call named for it, and is stamped for it. */
  lemma EventsMoveAsDocumented(worlds: seq<World>, calls: seq<Call>, i: nat, e: Id)
    requires Run(worlds, calls) && i < |calls| && e in worlds[i].rows.events
    ensures e in worlds[i + 1].rows.events
    ensures var before, after := worlds[i].rows.events[e], worlds[i + 1].rows.events[e];
            && (after != before <==> after.status != before.status)
            && (after != before ==>
                  && Step(worlds[i].rows, calls[i]).Ok? && (before.status, after.status) in EVENT_MOVES
                  && EventMovedBy(calls[i].op, e, after.status) && Stamped(before, after, calls[i]))
  {
    assert Next(worlds[i], calls[i], worlds[i + 1]);
    if Step(worlds[i].rows, calls[i]).Ok? {
      StepMovesEvent(worlds[i].rows, calls[i], e);
    }
  }

  lemma StepMovesEvent(s: Rows, c: Call, e: Id)
    requires e in s.events && Step(s, c).Ok?
    ensures e in Step(s, c).value.events
    ensures var before, after := s.events[e], Step(s, c).value.events[e];
            if About(c.op, e) then
              (before.status, after.status) in EVENT_MOVES && EventMovedBy(c.op, e, after.status) && Stamped(before, after, c)
            else after == before
  {
  }

  ghost predicate HasApproval(vs: seq<Validation>, a: Id) {
    exists k :: 0 <= k < |vs| && vs[k].application == a && vs[k].status == Approved
  }

  lemma ApprovalIsKept(worlds: seq<World>, calls: seq<Call>, i: nat, a: Id)
    requires Run(worlds, calls) && i < |calls| && HasApproval(worlds[i].rows.validations, a)
    ensures HasApproval(worlds[i + 1].rows.validations, a)
  {
    KeptAt(worlds, calls, i);
    var k :| 0 <= k < |worlds[i].rows.validations| && worlds[i].rows.validations[k].application == a
             && worlds[i].rows.validations[k].status == Approved;
    assert worlds[i + 1].rows.validations[k] == worlds[i].rows.validations[k];
  }

  lemma ApprovalIsRecorded(s: Rows, c: Call)
    requires c.op.Validate? && c.op.approve && Step(s, c).Ok?
    ensures HasApproval(Step(s, c).value.validations, c.op.app)
  {
    var p := PendingFrom(s.validations, c.op.app, 0).value;
    assert Step(s, c).value.validations[p].status == Approved;
  }

  /** An Application that was ever validated, COMPLETED ones above all, has an APPROVED Validation by someone else. */
  lemma {:induction false} CompletedIsApproved(worlds: seq<World>, calls: seq<Call>, i: nat, a: Id)
    requires Run(worlds, calls) && i < |worlds| && a in worlds[i].rows.apps
    requires worlds[i].rows.apps[a].status == AppFailedOver || worlds[i].rows.apps[a].status == AppFailbackInProgress
             || worlds[i].rows.apps[a].status == Completed
    ensures HasApproval(worlds[i].rows.validations, a)
  {
    if i > 0 {
      var w, c := worlds[i - 1], calls[i - 1];
      assert Next(w, c, worlds[i]);
      if a !in w.rows.apps {
        NotNewlyValidated(w, c, worlds[i], a);
      }
      ApplicationsMoveAsDocumented(worlds, calls, i - 1, a);
      if c.op.Validate? && c.op.approve && c.op.app == a && Step(w.rows, c).Ok? {
        ApprovalIsRecorded(w.rows, c);
      } else {
        CompletedIsApproved(worlds, calls, i - 1, a);
        ApprovalIsKept(worlds, calls, i - 1, a);
      }
    }
  }

  lemma NotNewlyValidated(w: World, c: Call, w': World, a: Id)
    requires Next(w, c, w') && a in w'.rows.apps && a !in w.rows.apps
    ensures w'.rows.apps[a].status == NotStarted
  {
  }

  // ---- what is never undone ---------------------------------------------------------------------

  ghost predicate EventKept(e: Event, e': Event) {
    && e'.parent == e.parent
    && (e.networkCutAt.Some? ==> e'.networkCutAt == e.networkCutAt)
    && (e.failbackStartedAt.Some? ==> e'.failbackStartedAt == e.failbackStartedAt)
    && (Terminal(e.status) ==> e' == e)
  }

  ghost predicate AppKept(a: Application, a': Application) {
    && a'.event == a.event && a'.failbackRequired == a.failbackRequired
    && a.version <= a'.version && (a'.version == a.version ==> a' == a)
    && (a.slaStartAt.Some? ==> a'.slaStartAt == a.slaStartAt)
    && (a.technicalValidatedAt.Some? ==> a'.technicalValidatedAt == a.technicalValidatedAt)
  }

  ghost predicate Frozen(s: Rows, a: Id) {
    a in s.apps && s.apps[a].event in s.events && Terminal(s.events[s.apps[a].event].status)
  }

  /** Rows are never lost, stamps never rewritten, and an ended Event keeps everything of its own. */
  ghost predicate Kept(s: Rows, s': Rows) {
    && (forall e :: e in s.events ==> e in s'.events && EventKept(s.events[e], s'.events[e]))
    && (forall a :: a in s.apps ==> a in s'.apps && AppKept(s.apps[a], s'.apps[a]))
    && (forall a :: Frozen(s, a) ==> a in s'.apps && s'.apps[a] == s.apps[a])
    && (forall a :: a in s'.apps && a !in s.apps ==> s'.apps[a].event !in s.events)
    && ValidationsKept(s, s')
  }

  ghost predicate ValidationsKept(s: Rows, s': Rows) {
    && |s.validations| <= |s'.validations|
    && (forall i :: 0 <= i < |s.validations| ==>
          && s'.validations[i].application == s.validations[i].application
          && s'.validations[i].submitter == s.validations[i].submitter
          && (s.validations[i].status != Pending || Frozen(s, s.validations[i].application) ==>
                s'.validations[i] == s.validations[i]))
    && (forall i :: |s.validations| <= i < |s'.validations| ==> !Frozen(s, s'.validations[i].application))
  }

  lemma MoveKeepsEvent(w: World, c: Call, w': World, e: Id)
    requires Next(w, c, w') && e in w.rows.events && EventOk(w.rows.events[e], w.clock, At(w.activated, e))
    requires Step(w.rows, c).Ok? && About(c.op, e)
    ensures e in w'.rows.events && EventKept(w.rows.events[e], w'.rows.events[e])
  {
  }

  lemma StepKeepsEvent(w: World, c: Call, w': World, e: Id)
    requires Next(w, c, w') && e in w.rows.events && EventOk(w.rows.events[e], w.clock, At(w.activated, e))
    ensures e in w'.rows.events && EventKept(w.rows.events[e], w'.rows.events[e])
  {
    if Step(w.rows, c).Ok? && About(c.op, e) {
      MoveKeepsEvent(w, c, w', e);
    }
  }

  lemma StepKeepsApp(w: World, c: Call, w': World, a: Id)
    requires Next(w, c, w') && a in w.rows.apps && RowOk(w, a)
    ensures a in w'.rows.apps && AppKept(w.rows.apps[a], w'.rows.apps[a])
  {
  }

  lemma StepKeepsFrozen(w: World, c: Call, w': World, a: Id)
    requires Next(w, c, w') && Frozen(w.rows, a)
    ensures a in w'.rows.apps && w'.rows.apps[a] == w.rows.apps[a]
  {
  }

  lemma StepKeepsValidations(w: World, c: Call, w': World)
    requires Next(w, c, w')
    ensures ValidationsKept(w.rows, w'.rows)
    ensures forall a :: a in w'.rows.apps && a !in w.rows.apps ==> w'.rows.apps[a].event !in w.rows.events
  {
  }

  lemma StepKept(w: World, c: Call, w': World)
    requires Inv(w) && Next(w, c, w')
    ensures Kept(w.rows, w'.rows)
  {
    StepKeepsValidations(w, c, w');
    forall e | e in w.rows.events
      ensures e in w'.rows.events && EventKept(w.rows.events[e], w'.rows.events[e])
    {
      StepKeepsEvent(w, c, w', e);
    }
    forall a | a in w.rows.apps
      ensures a in w'.rows.apps && AppKept(w.rows.apps[a], w'.rows.apps[a])
      ensures Frozen(w.rows, a) ==> w'.rows.apps[a] == w.rows.apps[a]
    {
      StepKeepsApp(w, c, w', a);
      if Frozen(w.rows, a) {
        StepKeepsFrozen(w, c, w', a);
      }
    }
  }

  lemma FrozenStays(s: Rows, s': Rows, a: Id)
    requires Kept(s, s') && Frozen(s, a)
    ensures Frozen(s', a)
  {
    assert EventKept(s.events[s.apps[a].event], s'.events[s.apps[a].event]);
  }

  lemma KeptTwice(s: Rows, m: Rows, s': Rows)
    requires Kept(s, m) && Kept(m, s')
    ensures Kept(s, s')
  {
    forall a | Frozen(s, a)
      ensures Frozen(m, a) && s'.apps[a] == s.apps[a]
    {
      FrozenStays(s, m, a);
    }
    assert ValidationsKept(s, s');
  }

  lemma KeptAt(worlds: seq<World>, calls: seq<Call>, i: nat)
    requires Run(worlds, calls) && i < |calls|
    ensures Kept(worlds[i].rows, worlds[i + 1].rows)
  {
    RunKeepsInv(worlds, calls, i);
    assert Next(worlds[i], calls[i], worlds[i + 1]);
    StepKept(worlds[i], calls[i], worlds[i + 1]);
  }

  lemma KeptSelf(s: Rows)
    ensures Kept(s, s)
  {
  }

  /** Over any run: time stamps are written once, an ended Event freezes itself, its Applications and their Validations. */
  lemma {:induction false} NeverUndone(worlds: seq<World>, calls: seq<Call>, i: nat, j: nat)
    requires Run(worlds, calls) && i <= j < |worlds|
    ensures Kept(worlds[i].rows, worlds[j].rows)
    decreases j
  {
    if i < j {
      NeverUndone(worlds, calls, i, j - 1);
      KeptAt(worlds, calls, j - 1);
      KeptTwice(worlds[i].rows, worlds[j - 1].rows, worlds[j].rows);
    } else {
      KeptSelf(worlds[i].rows);
    }
  }

  // ---- the Event tree ---------------------------------------------------------------------------

  /** Every child an Event had when it was closed is finished then and stays exactly as it was. */
  lemma ClosedOverFinishedChildren(worlds: seq<World>, calls: seq<Call>, i: nat, j: nat, child: Id)
    requires Run(worlds, calls) && i < j < |worlds| && calls[i].op.Close? && Step(worlds[i].rows, calls[i]).Ok?
    requires child in worlds[i].rows.events && worlds[i].rows.events[child].parent == Some(calls[i].op.event)
    ensures Terminal(worlds[i].rows.events[child].status) && child in worlds[j].rows.events
            && worlds[j].rows.events[child] == worlds[i].rows.events[child]
  {
    NeverUndone(worlds, calls, i, j);
    assert EventKept(worlds[i].rows.events[child], worlds[j].rows.events[child]);
  }

  // ---- failback ---------------------------------------------------------------------------------

  ghost predicate InOrPastFailback(s: AppStatus) {
    s == AppFailbackInProgress || s == Completed
  }

  lemma StepMissesFailback(w: World, c: Call, w': World, a: Id)
    requires Next(w, c, w') && a in w.rows.apps && w.rows.apps[a].failbackRequired && RowOk(w, a)
    requires var e := w.rows.apps[a].event;
             w.rows.events[e].failbackStartedAt.Some? && EventOk(w.rows.events[e], w.clock, At(w.activated, e))
    requires !InOrPastFailback(w.rows.apps[a].status)
    ensures a in w'.rows.apps && !InOrPastFailback(w'.rows.apps[a].status)
  {
  }

  lemma MissesFailbackAt(worlds: seq<World>, calls: seq<Call>, i: nat, a: Id)
    requires Run(worlds, calls) && i < |calls| && a in worlds[i].rows.apps && worlds[i].rows.apps[a].failbackRequired
    requires worlds[i].rows.apps[a].event in worlds[i].rows.events
             && worlds[i].rows.events[worlds[i].rows.apps[a].event].failbackStartedAt.Some?
    requires !InOrPastFailback(worlds[i].rows.apps[a].status)
    ensures a in worlds[i + 1].rows.apps && !InOrPastFailback(worlds[i + 1].rows.apps[a].status)
  {
    RunKeepsInv(worlds, calls, i);
    assert Next(worlds[i], calls[i], worlds[i + 1]);
    assert RowOk(worlds[i], a);
    var e := worlds[i].rows.apps[a].event;
    assert EventOk(worlds[i].rows.events[e], worlds[i].clock, At(worlds[i].activated, e));
    StepMissesFailback(worlds[i], calls[i], worlds[i + 1], a);
  }

  lemma {:induction false} NeverFailsBack(worlds: seq<World>, calls: seq<Call>, i: nat, j: nat, a: Id)
    requires Run(worlds, calls) && i <= j < |worlds| && a in worlds[i].rows.apps && worlds[i].rows.apps[a].failbackRequired
    requires worlds[i].rows.apps[a].event in worlds[i].rows.events
             && worlds[i].rows.events[worlds[i].rows.apps[a].event].failbackStartedAt.Some?
    requires !InOrPastFailback(worlds[i].rows.apps[a].status)
    ensures a in worlds[j].rows.apps && !InOrPastFailback(worlds[j].rows.apps[a].status)
    decreases j
  {
    if i < j {
      NeverFailsBack(worlds, calls, i, j - 1, a);
      NeverUndone(worlds, calls, i, j - 1);
      var e := worlds[i].rows.apps[a].event;
      assert EventKept(worlds[i].rows.events[e], worlds[j - 1].rows.events[e]);
      assert AppKept(worlds[i].rows.apps[a], worlds[j - 1].rows.apps[a]);
      MissesFailbackAt(worlds, calls, j - 1, a);
    }
  }

  /**
   `start_failback` takes along exactly the failback-required Applications that are FAILED_OVER at that
   moment. Any other failback-required one is never in failback and never COMPLETED, whatever follows.
   */
  lemma FailbackTakesExactlyTheFailedOver(worlds: seq<World>, calls: seq<Call>, i: nat, j: nat, a: Id)
    requires Run(worlds, calls) && i < j < |worlds| && calls[i].op.StartFailback? && Step(worlds[i].rows, calls[i]).Ok?
    requires a in worlds[i].rows.apps && worlds[i].rows.apps[a].event == calls[i].op.event
    requires worlds[i].rows.apps[a].failbackRequired
    ensures a in worlds[i + 1].rows.apps && a in worlds[j].rows.apps
    ensures worlds[i + 1].rows.apps[a].status == AppFailbackInProgress <==> worlds[i].rows.apps[a].status == AppFailedOver
    ensures InOrPastFailback(worlds[j].rows.apps[a].status) ==> worlds[i].rows.apps[a].status == AppFailedOver
  {
    RunKeepsInv(worlds, calls, i);
    assert Next(worlds[i], calls[i], worlds[i + 1]);
    assert RowOk(worlds[i], a);
    var e := calls[i].op.event;
    assert EventOk(worlds[i].rows.events[e], worlds[i].clock, At(worlds[i].activated, e));
    NeverUndone(worlds, calls, i + 1, j);
    if worlds[i].rows.apps[a].status != AppFailedOver {
      NeverFailsBack(worlds, calls, i + 1, j, a);
    }
  }

  // ---- two things that can happen ---------------------------------------------------------------

  ghost predicate Reachable(w: World) {
    exists worlds: seq<World>, calls: seq<Call> :: Run(worlds, calls) && worlds[|worlds| - 1] == w
  }

  lemma OneMore(w: World, c: Call, w': World)
    requires Reachable(w) && Next(w, c, w')
    ensures Reachable(w')
  {
    var worlds: seq<World>, calls: seq<Call> :| Run(worlds, calls) && worlds[|worlds| - 1] == w;
    assert Run(worlds + [w'], calls + [c]);
  }

  ghost function EventAt(status: EventStatus, version: nat): Event {
    Event(None, status, version, 0, if version > 2 then Some(0) else None, if version > 4 then Some(0) else None,
          if status == Closed then Some(0) else None, None)
  }

  ghost function AppAt(status: AppStatus, version: nat): Application {
    Application(1, status, true, version, if version > 1 then Some(0) else None, if version > 3 then Some(0) else None, 0)
  }

  ghost function WorldAt(e: Event, a: Application, vs: seq<Validation>): World {
    World(Rows(map[1 := e], map[10 := a], vs), 0, if e.version > 1 then map[1 := 0] else map[])
  }

  ghost const ASKED: Validation := Validation(10, 3, Pending, None)
  ghost const DECIDED: Validation := Validation(10, 3, Approved, Some(4))

  ghost function Now(op: Op, expected: nat): Call { Call(op, true, expected, 0, 0) }

  lemma ActiveIsReachable()
    ensures Reachable(WorldAt(EventAt(Active, 2), AppAt(NotStarted, 1), []))
  {
    var none: map<Id, Application> := map[];
    var w0 := World(Rows(map[], none, []), 0, map[]);
    var w1 := WorldAt(EventAt(Planned, 1), AppAt(NotStarted, 1), []);
    assert Reachable(w1) by {
      assert Run([w0], []);
      assert none + map[10 := AppAt(NotStarted, 1)] == map[10 := AppAt(NotStarted, 1)];
      OneMore(w0, Now(CreateEvent(1, None, map[10 := true], None), 0), w1);
    }
    OneMore(w1, Now(Activate(1, false, false, false), 1), WorldAt(EventAt(Active, 2), AppAt(NotStarted, 1), []));
  }

  lemma RecoveringIsReachable()
    ensures Reachable(WorldAt(EventAt(FailoverInProgress, 3), AppAt(Recovering, 2), []))
  {
    ActiveIsReachable();
    var w2 := WorldAt(EventAt(Active, 2), AppAt(NotStarted, 1), []);
    OneMore(w2, Now(StartFailover(1, None), 2), WorldAt(EventAt(FailoverInProgress, 3), AppAt(Recovering, 2), []));
  }

  lemma FailedOverIsReachable()
    ensures Reachable(WorldAt(EventAt(FailedOver, 4), AppAt(TechnicalValidation, 3), [ASKED]))
  {
    var w3 := WorldAt(EventAt(FailoverInProgress, 3), AppAt(Recovering, 2), []);
    var w4 := WorldAt(EventAt(FailoverInProgress, 3), AppAt(TechnicalValidation, 3), [ASKED]);
    assert Reachable(w4) by {
      RecoveringIsReachable();
      OneMore(w3, Now(Submit(10, 3, false, false), 2), w4);
    }
    OneMore(w4, Now(MarkFailedOver(1), 3), WorldAt(EventAt(FailedOver, 4), AppAt(TechnicalValidation, 3), [ASKED]));
  }

  lemma LateValidationIsReachable()
    ensures Reachable(WorldAt(EventAt(FailbackInProgress, 5), AppAt(AppFailedOver, 4), [DECIDED]))
  {
    var w5 := WorldAt(EventAt(FailedOver, 4), AppAt(TechnicalValidation, 3), [ASKED]);
    var w6 := WorldAt(EventAt(FailbackInProgress, 5), AppAt(TechnicalValidation, 3), [ASKED]);
    assert Reachable(w6) by {
      FailedOverIsReachable();
      OneMore(w5, Now(StartFailback(1), 4), w6);
    }
    assert PendingFrom([ASKED], 10, 0) == Some(0) && [ASKED][0 := DECIDED] == [DECIDED];
    OneMore(w6, Now(Validate(10, 4, true, false), 3), WorldAt(EventAt(FailbackInProgress, 5), AppAt(AppFailedOver, 4), [DECIDED]));
  }

  /**
   An Event can close after failback with an Application that still needs failback (it was validated too
   late to be taken along), and a new child can be created under it although it is CLOSED.
   */
  lemma ClosedWithFailbackOutstanding()
    ensures exists w :: Reachable(w) && w.rows.events == map[1 := EventAt(Closed, 6), 2 := NewEvent(Some(1), 0)]
              && w.rows.apps == map[10 := AppAt(AppFailedOver, 4)]
  {
    var w7 := WorldAt(EventAt(FailbackInProgress, 5), AppAt(AppFailedOver, 4), [DECIDED]);
    var w8 := WorldAt(EventAt(Closed, 6), AppAt(AppFailedOver, 4), [DECIDED]);
    assert Reachable(w8) by {
      LateValidationIsReachable();
      OneMore(w7, Now(Close(1, false, None, false), 5), w8);
    }
    ChildOfClosed(w8);
  }

  lemma ChildOfClosed(w: World)
    requires Reachable(w) && w == WorldAt(EventAt(Closed, 6), AppAt(AppFailedOver, 4), [DECIDED])
    ensures exists w' :: Reachable(w') && w'.rows.events == map[1 := EventAt(Closed, 6), 2 := NewEvent(Some(1), 0)]
              && w'.rows.apps == map[10 := AppAt(AppFailedOver, 4)]
  {
    var none: map<Id, bool> := map[];
    var events := map[1 := EventAt(Closed, 6), 2 := NewEvent(Some(1), 0)];
    var made := Step(w.rows, Now(CreateEvent(2, Some(1), none, None), 0)).value;
    assert made.apps == w.rows.apps;
    assert w.rows.events[2 := NewEvent(Some(1), 0)] == events;
    OneMore(w, Now(CreateEvent(2, Some(1), none, None), 0), World(Rows(events, w.rows.apps, [DECIDED]), 0, map[1 := 0]));
  }

  // ---- how a close leaves things ----------------------------------------------------------------

  ghost predicate AllFailedBack(s: Rows, e: Id) {
    forall a :: a in s.apps && s.apps[a].event == e && s.apps[a].failbackRequired ==> s.apps[a].status == Completed
  }

  lemma CloseMovesNoApplication(w: World, c: Call, w': World)
    requires Next(w, c, w') && c.op.Close? && Step(w.rows, c).Ok?
    ensures w'.rows.apps == w.rows.apps && c.op.event in w'.rows.events && Terminal(w'.rows.events[c.op.event].status)
  {
  }

  /**
   An accepted close leaves no failback outstanding, then and for ever after, if and only if every Application
   that requires failback is COMPLETED when it is called: nothing outstanding is ever made up for.
   */
  lemma CloseLeavesNothingOutstandingExactly(worlds: seq<World>, calls: seq<Call>, i: nat, j: nat)
    requires Run(worlds, calls) && i < j < |worlds| && calls[i].op.Close? && Step(worlds[i].rows, calls[i]).Ok?
    ensures AllFailedBack(worlds[j].rows, calls[i].op.event) <==> AllFailedBack(worlds[i].rows, calls[i].op.event)
  {
    var e := calls[i].op.event;
    assert Next(worlds[i], calls[i], worlds[i + 1]);
    CloseMovesNoApplication(worlds[i], calls[i], worlds[i + 1]);
    NeverUndone(worlds, calls, i + 1, j);
    EndedKeepsFailback(worlds[i + 1].rows, worlds[j].rows, e);
  }

  lemma EndedKeepsFailback(s: Rows, s': Rows, e: Id)
    requires Kept(s, s') && e in s.events && Terminal(s.events[e].status)
    ensures AllFailedBack(s', e) <==> AllFailedBack(s, e)
  {
    forall a | a in s.apps && s.apps[a].event == e
      ensures a in s'.apps && s'.apps[a] == s.apps[a]
    {
      assert Frozen(s, a);
    }
    forall a | a in s'.apps && s'.apps[a].event == e
      ensures a in s.apps
    {
    }
  }

  /** A child of a closed Event that is not finished was created after the close. */
  lemma UnfinishedChildCameLater(worlds: seq<World>, calls: seq<Call>, i: nat, j: nat, child: Id)
    requires Run(worlds, calls) && i < j < |worlds| && calls[i].op.Close? && Step(worlds[i].rows, calls[i]).Ok?
    requires child in worlds[j].rows.events && worlds[j].rows.events[child].parent == Some(calls[i].op.event)
    requires !Terminal(worlds[j].rows.events[child].status)
    ensures child !in worlds[i].rows.events
  {
    if child in worlds[i].rows.events {
      NeverUndone(worlds, calls, i, j);
      assert EventKept(worlds[i].rows.events[child], worlds[j].rows.events[child]);
      ClosedOverFinishedChildren(worlds, calls, i, j, child);
    }
  }

  // ---- when the validation stamp follows the network cut ----------------------------------------

  /** The technical validation is stamped before the SLA start, which is the network cut. */
  ghost predicate Misordered(a: Application) {
    a.slaStartAt.Some? && a.technicalValidatedAt.Some? && a.technicalValidatedAt.value < a.slaStartAt.value
  }

  /** An accepted technical approval whose clock reading is older than the SLA start that it finds under its lock. */
  ghost predicate EarlyApproval(s: Rows, c: Call, a: Id) {
    && c.op.Validate? && c.op.approve && c.op.app == a && Step(s, c).Ok?
    && s.apps[a].status == TechnicalValidation && s.apps[a].slaStartAt.Some? && c.now < s.apps[a].slaStartAt.value
  }

  lemma StepMisorders(w: World, c: Call, w': World, a: Id)
    requires Next(w, c, w') && a in w.rows.apps && RowOk(w, a)
    ensures a in w'.rows.apps
    ensures Misordered(w'.rows.apps[a]) <==> Misordered(w.rows.apps[a]) || EarlyApproval(w.rows, c, a)
  {
  }

  lemma NewIsInOrder(w: World, c: Call, w': World, a: Id)
    requires Next(w, c, w') && a in w'.rows.apps && a !in w.rows.apps
    ensures !Misordered(w'.rows.apps[a]) && !EarlyApproval(w.rows, c, a)
  {
  }

  lemma MisordersAt(worlds: seq<World>, calls: seq<Call>, i: nat, a: Id)
    requires Run(worlds, calls) && i < |calls| && a in worlds[i + 1].rows.apps
    ensures Misordered(worlds[i + 1].rows.apps[a]) <==>
              (a in worlds[i].rows.apps && Misordered(worlds[i].rows.apps[a])) || EarlyApproval(worlds[i].rows, calls[i], a)
  {
    assert Next(worlds[i], calls[i], worlds[i + 1]);
    if a in worlds[i].rows.apps {
      RunKeepsInv(worlds, calls, i);
      assert RowOk(worlds[i], a);
      StepMisorders(worlds[i], calls[i], worlds[i + 1], a);
    } else {
      NewIsInOrder(worlds[i], calls[i], worlds[i + 1], a);
    }
  }

  lemma EarlyApprovalMisorders(worlds: seq<World>, calls: seq<Call>, k: nat, i: nat, a: Id)
    requires Run(worlds, calls) && k < i < |worlds| && EarlyApproval(worlds[k].rows, calls[k], a)
    ensures a in worlds[i].rows.apps && Misordered(worlds[i].rows.apps[a])
  {
    NeverUndone(worlds, calls, k, k + 1);
    MisordersAt(worlds, calls, k, a);
    NeverUndone(worlds, calls, k + 1, i);
    assert AppKept(worlds[k + 1].rows.apps[a], worlds[i].rows.apps[a]);
  }

  lemma {:induction false} MisorderedBy(worlds: seq<World>, calls: seq<Call>, i: nat, a: Id) returns (k: nat)
    requires Run(worlds, calls) && i < |worlds| && a in worlds[i].rows.apps && Misordered(worlds[i].rows.apps[a])
    ensures k < i && EarlyApproval(worlds[k].rows, calls[k], a)
  {
    k := i - 1;
    MisordersAt(worlds, calls, k, a);
    if !EarlyApproval(worlds[k].rows, calls[k], a) {
      k := MisorderedBy(worlds, calls, k, a);
    }
  }

  /** The stamps of an Application are out of order if and only if some approval of it was early. */
  lemma MisorderedExactly(worlds: seq<World>, calls: seq<Call>, i: nat, a: Id)
    requires Run(worlds, calls) && i < |worlds| && a in worlds[i].rows.apps
    ensures Misordered(worlds[i].rows.apps[a]) <==> exists k :: 0 <= k < i && EarlyApproval(worlds[k].rows, calls[k], a)
  {
    if Misordered(worlds[i].rows.apps[a]) {
      var k := MisorderedBy(worlds, calls, i, a);
    } else {
      forall k | 0 <= k < i
        ensures !EarlyApproval(worlds[k].rows, calls[k], a)
      {
        if EarlyApproval(worlds[k].rows, calls[k], a) {
          EarlyApprovalMisorders(worlds, calls, k, i, a);
        }
      }
    }
  }

  /** Before the call read the clock, the Application had been committed with the version that the call expects. */
  ghost predicate SawTheVersion(worlds: seq<World>, calls: seq<Call>, k: nat, a: Id)
    requires k < |calls| < |worlds|
  {
    exists j :: 0 <= j <= k && VersionShown(worlds[j], calls[k], a)
  }

  ghost predicate VersionShown(w: World, c: Call, a: Id) {
    a in w.rows.apps && w.rows.apps[a].version == c.expected && w.clock <= c.now
  }

  lemma CutIsPast(worlds: seq<World>, calls: seq<Call>, j: nat, a: Id)
    requires Run(worlds, calls) && j < |worlds| && a in worlds[j].rows.apps && worlds[j].rows.apps[a].slaStartAt.Some?
    ensures worlds[j].rows.apps[a].slaStartAt.value <= worlds[j].clock
  {
    RunKeepsInv(worlds, calls, j);
    assert RowOk(worlds[j], a);
    var e := worlds[j].rows.apps[a].event;
    assert EventOk(worlds[j].rows.events[e], worlds[j].clock, At(worlds[j].activated, e));
  }

  lemma SeenIsNotEarly(worlds: seq<World>, calls: seq<Call>, k: nat, a: Id)
    requires Run(worlds, calls) && k < |calls| && SawTheVersion(worlds, calls, k, a)
    ensures !EarlyApproval(worlds[k].rows, calls[k], a)
  {
    var j :| 0 <= j <= k && VersionShown(worlds[j], calls[k], a);
    NeverUndone(worlds, calls, j, k);
    assert AppKept(worlds[j].rows.apps[a], worlds[k].rows.apps[a]);
    if worlds[j].rows.apps[a].slaStartAt.Some? {
      CutIsPast(worlds, calls, j, a);
    }
  }

  /**
   Where every approval comes from a caller that had read the version it sends, technical validation follows the
   network cut in every run, however old the clock readings of other commands are.
   */
  lemma ReadersValidateAfterTheCut(worlds: seq<World>, calls: seq<Call>, i: nat, a: Id)
    requires Run(worlds, calls) && i < |worlds| && a in worlds[i].rows.apps
    requires forall k :: 0 <= k < i && calls[k].op.Validate? && calls[k].op.app == a ==> SawTheVersion(worlds, calls, k, a)
    ensures var app := worlds[i].rows.apps[a];
            app.technicalValidatedAt.Some? ==>
              && app.event in worlds[i].rows.events && worlds[i].rows.events[app.event].networkCutAt.Some?
              && worlds[i].rows.events[app.event].networkCutAt.value <= app.technicalValidatedAt.value
  {
    RecoveryTimesAreOrdered(worlds, calls, i, a);
    MisorderedExactly(worlds, calls, i, a);
    forall k | 0 <= k < i
      ensures !EarlyApproval(worlds[k].rows, calls[k], a)
    {
      if calls[k].op.Validate? && calls[k].op.app == a {
        SeenIsNotEarly(worlds, calls, k, a);
      }
    }
  }

  /** A reachable Application validated before the cut: the approval read the clock first and guessed the version. */
  lemma ValidatedBeforeTheCut() returns (w: World, c: Call, w': World)
    ensures Reachable(w) && Reachable(w') && Next(w, c, w') && EarlyApproval(w.rows, c, 10)
    ensures 10 in w'.rows.apps && Misordered(w'.rows.apps[10])
  {
    w := WorldAt(EventAt(FailedOver, 4), AppAt(TechnicalValidation, 3), [ASKED]);
    c := Call(Validate(10, 4, true, false), true, 3, -1, 0);
    assert PendingFrom([ASKED], 10, 0) == Some(0);
    w' := World(Step(w.rows, c).value, 0, w.activated);
    FailedOverIsReachable();
    OneMore(w, c, w');
  }

  // ---- an Application command that lands late ---------------------------------------------------

  datatype ValidationWrite = Appended(v: Validation) | Replaced(at: nat, v: Validation)

  /** What an accepted Application command writes. */
  datatype Effect = Effect(row: Application, validation: ValidationWrite)

  ghost function EffectOf(s: Rows, c: Call): Effect
    requires OnApplication(c.op) && Step(s, c).Ok?
  {
    var after := Step(s, c).value;
    Effect(after.apps[c.op.app],
           if c.op.Submit? then Appended(after.validations[|s.validations|])
           else
             var p := PendingFrom(s.validations, c.op.app, 0).value;
             Replaced(p, after.validations[p]))
  }

  ghost function WithValidation(vs: seq<Validation>, w: ValidationWrite): seq<Validation> {
    match w
    case Appended(v) => vs + [v]
    case Replaced(at, v) => if at < |vs| then vs[at := v] else vs
  }

  /** The stored rows once the writes have landed. */
  ghost function Landed(stored: Rows, a: Id, e: Effect): Rows {
    stored.(apps := stored.apps[a := e.row], validations := WithValidation(stored.validations, e.validation))
  }

  /** On the rows it was decided on, landing is the command's step. */
  lemma LandingAtOnceIsTheStep(s: Rows, c: Call)
    requires OnApplication(c.op) && Step(s, c).Ok?
    ensures Landed(s, c.op.app, EffectOf(s, c)) == Step(s, c).value
  {
  }

  /** The lock on an Application: its row and its Validations are as they were read; others may have moved. */
  ghost predicate LockedSince(read: Rows, stored: Rows, a: Id) {
    && a in read.apps && a in stored.apps && stored.apps[a] == read.apps[a] && |read.validations| <= |stored.validations|
    && (forall i :: 0 <= i < |read.validations| ==>
          stored.validations[i].application == read.validations[i].application
          && (read.validations[i].application == a ==> stored.validations[i] == read.validations[i]))
    && (forall i :: |read.validations| <= i < |stored.validations| ==> stored.validations[i].application != a)
  }

  /**
   An Application command locks its Application but reads its Event without a lock. Landing on later rows, it
   breaks the freeze of an ended Event if and only if the Event has ended by then, and it touches one Application.
   */
  lemma LandingBreaksTheFreezeExactly(read: Rows, stored: Rows, c: Call)
    requires OnApplication(c.op) && Step(read, c).Ok? && LockedSince(read, stored, c.op.app)
    requires stored.apps[c.op.app].event in stored.events
    ensures var a, after := c.op.app, Landed(stored, c.op.app, EffectOf(read, c));
            && (Frozen(stored, a) && after.apps[a] != stored.apps[a] <==> Terminal(stored.events[stored.apps[a].event].status))
            && after.events == stored.events && after.apps.Keys == stored.apps.Keys
            && forall b :: b in stored.apps && b != a ==> after.apps[b] == stored.apps[b]
  {
  }

  lemma LandedPending(read: Rows, stored: Rows, c: Call)
    requires OnApplication(c.op) && Step(read, c).Ok? && LockedSince(read, stored, c.op.app)
    requires PendingOk(stored.validations, c.op.app, stored.apps[c.op.app].status)
    ensures PendingOk(Landed(stored, c.op.app, EffectOf(read, c)).validations, c.op.app, EffectOf(read, c).row.status)
  {
    var vs, vs' := stored.validations, Landed(stored, c.op.app, EffectOf(read, c)).validations;
    var eff := EffectOf(read, c).validation;
    match eff
    case Appended(v) =>
      assert forall i :: 0 <= i < |read.validations| ==> !IsPending(read.validations[i], c.op.app);
      assert forall i :: 0 <= i < |vs| ==> vs'[i] == vs[i] && !IsPending(vs[i], c.op.app);
      assert vs'[|vs|] == v;
    case Replaced(at, v) =>
      assert IsPending(vs[at], c.op.app) && forall i :: 0 <= i < |vs| && i != at ==> vs'[i] == vs[i];
  }

  lemma LandedIndices(read: Rows, stored: Rows, c: Call, b: Id)
    requires OnApplication(c.op) && Step(read, c).Ok? && LockedSince(read, stored, c.op.app) && b != c.op.app
    ensures var vs, vs' := stored.validations, Landed(stored, c.op.app, EffectOf(read, c)).validations;
            && |vs| <= |vs'|
            && (forall i :: 0 <= i < |vs| ==> (IsPending(vs'[i], b) <==> IsPending(vs[i], b)))
            && forall i :: |vs| <= i < |vs'| ==> !IsPending(vs'[i], b)
  {
  }

  lemma LandedOthersPending(read: Rows, stored: Rows, c: Call, b: Id, status: AppStatus)
    requires OnApplication(c.op) && Step(read, c).Ok? && LockedSince(read, stored, c.op.app)
    requires b != c.op.app && PendingOk(stored.validations, b, status)
    ensures PendingOk(Landed(stored, c.op.app, EffectOf(read, c)).validations, b, status)
  {
    var vs, vs' := stored.validations, Landed(stored, c.op.app, EffectOf(read, c)).validations;
    LandedIndices(read, stored, c, b);
    if status == TechnicalValidation {
      var i :| 0 <= i < |vs| && IsPending(vs[i], b);
      assert IsPending(vs'[i], b);
    }
  }

  /** The Event may have moved on under the command; the Application it leaves still fits. */
  lemma LandedFits(read: Rows, stored: Rows, c: Call)
    requires OnApplication(c.op) && Step(read, c).Ok? && LockedSince(read, stored, c.op.app)
    requires stored.apps[c.op.app].event in stored.events
    requires AppFits(stored.events[stored.apps[c.op.app].event], stored.apps[c.op.app])
    ensures AppFits(stored.events[stored.apps[c.op.app].event], EffectOf(read, c).row)
  {
  }

  lemma LandedStamp(w: World, w': World, c: Call)
    requires OnApplication(c.op) && Step(w.rows, c).Ok? && LockedSince(w.rows, w'.rows, c.op.app)
    requires RowOk(w, c.op.app) && RowOk(w', c.op.app) && Kept(w.rows, w'.rows)
    requires EventOk(w.rows.events[w.rows.apps[c.op.app].event], w.clock, At(w.activated, w.rows.apps[c.op.app].event))
    requires c.now <= c.end
    ensures AppOk(w'.rows.events[w'.rows.apps[c.op.app].event], EffectOf(w.rows, c).row, Later(w'.clock, c.end))
  {
    LandedFits(w.rows, w'.rows, c);
    var e := w.rows.apps[c.op.app].event;
    assert EventKept(w.rows.events[e], w'.rows.events[e]);
  }

  lemma LandedDecision(s: Rows, c: Call, stored: Rows, i: nat)
    requires OnApplication(c.op) && Step(s, c).Ok? && LockedSince(s, stored, c.op.app)
    requires i < |Landed(stored, c.op.app, EffectOf(s, c)).validations|
    requires i < |stored.validations| ==> stored.validations[i].application in stored.apps && DecisionOk(stored.validations[i])
    ensures var v := Landed(stored, c.op.app, EffectOf(s, c)).validations[i];
            v.application in stored.apps && DecisionOk(v)
  {
  }

  lemma LandedValidations(w: World, w': World, c: Call)
    requires Inv(w') && OnApplication(c.op) && Step(w.rows, c).Ok? && LockedSince(w.rows, w'.rows, c.op.app)
    ensures var after := Landed(w'.rows, c.op.app, EffectOf(w.rows, c));
            forall i :: 0 <= i < |after.validations| ==> after.validations[i].application in after.apps && DecisionOk(after.validations[i])
  {
    var after := Landed(w'.rows, c.op.app, EffectOf(w.rows, c));
    forall i | 0 <= i < |after.validations|
      ensures after.validations[i].application in after.apps && DecisionOk(after.validations[i])
    {
      LandedDecision(w.rows, c, w'.rows, i);
    }
  }

  lemma LandedEventsOk(w: World, clock: Time)
    requires Inv(w) && w.clock <= clock
    ensures forall e :: e in w.rows.events ==> EventOk(w.rows.events[e], clock, At(w.activated, e))
  {
    forall e | e in w.rows.events
      ensures EventOk(w.rows.events[e], clock, At(w.activated, e))
    {
      assert EventOk(w.rows.events[e], w.clock, At(w.activated, e));
    }
  }

  /** The command was accepted on rows in which its Application stood right to its Event. */
  ghost predicate ReadOk(w: World, c: Call) {
    && OnApplication(c.op) && Step(w.rows, c).Ok? && RowOk(w, c.op.app)
    && EventOk(w.rows.events[w.rows.apps[c.op.app].event], w.clock, At(w.activated, w.rows.apps[c.op.app].event))
  }

  lemma LandedOtherOk(w: World, w': World, c: Call, b: Id)
    requires OnApplication(c.op) && Step(w.rows, c).Ok? && LockedSince(w.rows, w'.rows, c.op.app)
    requires b in w'.rows.apps && b != c.op.app && RowOk(w', b)
    ensures RowOk(World(Landed(w'.rows, c.op.app, EffectOf(w.rows, c)), Later(w'.clock, c.end), w'.activated), b)
  {
    LandedOthersPending(w.rows, w'.rows, c, b, w'.rows.apps[b].status);
  }

  lemma LandedRowsOk(w: World, w': World, c: Call, b: Id)
    requires ReadOk(w, c) && Inv(w') && Kept(w.rows, w'.rows) && c.now <= c.end
    requires LockedSince(w.rows, w'.rows, c.op.app) && b in w'.rows.apps
    ensures RowOk(World(Landed(w'.rows, c.op.app, EffectOf(w.rows, c)), Later(w'.clock, c.end), w'.activated), b)
  {
    assert RowOk(w', b);
    if b == c.op.app {
      LandedRowOk(w, w', c);
    } else {
      LandedOtherOk(w, w', c, b);
    }
  }

  lemma LandedAppsOk(w: World, w': World, c: Call)
    requires ReadOk(w, c) && Inv(w') && Kept(w.rows, w'.rows) && c.now <= c.end
    requires LockedSince(w.rows, w'.rows, c.op.app)
    ensures var after := World(Landed(w'.rows, c.op.app, EffectOf(w.rows, c)), Later(w'.clock, c.end), w'.activated);
            forall b :: b in after.rows.apps ==> RowOk(after, b)
  {
    var after := World(Landed(w'.rows, c.op.app, EffectOf(w.rows, c)), Later(w'.clock, c.end), w'.activated);
    forall b | b in after.rows.apps
      ensures RowOk(after, b)
    {
      assert b in w'.rows.apps;
      LandedRowsOk(w, w', c, b);
    }
  }

  /**
   The freeze is all that a late landing can break: the status and stamps of every Application still fit its
   Event's, pending Validations are still as many as the status says, and decisions are by someone else.
   */
  lemma LandingKeepsTheRest(w: World, w': World, c: Call)
    requires ReadOk(w, c) && Inv(w') && Kept(w.rows, w'.rows) && c.now <= c.end
    requires LockedSince(w.rows, w'.rows, c.op.app)
    ensures Inv(World(Landed(w'.rows, c.op.app, EffectOf(w.rows, c)), Later(w'.clock, c.end), w'.activated))
  {
    LandedEventsOk(w', Later(w'.clock, c.end));
    LandedValidations(w, w', c);
    LandedAppsOk(w, w', c);
  }

  lemma LandedRowOk(w: World, w': World, c: Call)
    requires OnApplication(c.op) && Step(w.rows, c).Ok? && LockedSince(w.rows, w'.rows, c.op.app)
    requires RowOk(w, c.op.app) && RowOk(w', c.op.app) && Kept(w.rows, w'.rows)
    requires EventOk(w.rows.events[w.rows.apps[c.op.app].event], w.clock, At(w.activated, w.rows.apps[c.op.app].event))
    requires c.now <= c.end
    ensures RowOk(World(Landed(w'.rows, c.op.app, EffectOf(w.rows, c)), Later(w'.clock, c.end), w'.activated), c.op.app)
  {
    LandedStamp(w, w', c);
    LandedPending(w.rows, w'.rows, c);
    assert EffectOf(w.rows, c).row.event == w'.rows.apps[c.op.app].event;
  }

  ghost const READ_BY_BOTH: World := WorldAt(EventAt(FailbackInProgress, 5), AppAt(TechnicalValidation, 3), [ASKED])
  ghost const CLOSED_MEANWHILE: World := WorldAt(EventAt(Closed, 6), AppAt(TechnicalValidation, 3), [ASKED])

  lemma ReadByBothIsReachable()
    ensures Reachable(READ_BY_BOTH)
  {
    FailedOverIsReachable();
    OneMore(WorldAt(EventAt(FailedOver, 4), AppAt(TechnicalValidation, 3), [ASKED]), Now(StartFailback(1), 4), READ_BY_BOTH);
  }

  lemma ClosesMeanwhile()
    ensures var close := Now(Close(1, false, None, false), 5);
            Next(READ_BY_BOTH, close, CLOSED_MEANWHILE) && Step(READ_BY_BOTH.rows, close).Ok?
  {
  }

  lemma ValidationIsDecided()
    ensures Step(READ_BY_BOTH.rows, Now(Validate(10, 4, true, false), 3)).Ok?
  {
    assert PendingFrom([ASKED], 10, 0) == Some(0);
  }

  /** A run in which a validation, decided before its Event closed, lands after it. */
  lemma ValidationLandsAfterTheClose() returns (w: World, w': World, close: Call, c: Call)
    ensures Reachable(w) && Next(w, close, w') && close.op.Close? && Step(w.rows, close).Ok?
    ensures OnApplication(c.op) && Step(w.rows, c).Ok? && LockedSince(w.rows, w'.rows, c.op.app) && Frozen(w'.rows, c.op.app)
  {
    w, w' := READ_BY_BOTH, CLOSED_MEANWHILE;
    close, c := Now(Close(1, false, None, false), 5), Now(Validate(10, 4, true, false), 3);
    ReadByBothIsReachable();
    ClosesMeanwhile();
    ValidationIsDecided();
  }
}
