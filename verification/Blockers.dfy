/** Blockers, the Task they hold up, and the alerts their escalation raises. */
module Blockers {
  import opened Prelude
  import T = TaskStates

  type Id = nat
  /** Seconds; timers are in minutes. */
  type Time = int

  datatype Status = Open | Assigned | InProgress | Resolved | Verified | Closed

  datatype Blocker = Blocker(task: Id, status: Status, version: nat, team: Option<Id>, owner: Option<Id>,
                             blockedAt: Time, claimedAt: Option<Time>, resolvedAt: Option<Time>,
                             verifiedAt: Option<Time>, closedAt: Option<Time>)

  datatype Task = Task(event: Id, status: T.TaskStatus, version: nat)

  /** An escalation alert; `timer` is the timer in minutes that had run out when it was raised. */
  datatype Alert = Alert(blocker: Id, raisedAt: Time, timer: int, acknowledged: bool, resolvedAt: Option<Time>)

  datatype Command = Assign | Start | Resolve | Verify

  datatype Error =
    | NotFound | AuthorizationRequired | ConcurrencyConflict | InvalidTransition
    | RoutingRequired | TeamNotFound | UserNotFound | RoutingMismatch | ReasonRequired

  predicate Legal(c: Command, s: Status) {
    match c
    case Assign => s == Open || s == Assigned
    case Start => s == Assigned
    case Resolve => s == InProgress
    case Verify => s == Resolved
  }

  /** How far a status is along OPEN, ASSIGNED, IN_PROGRESS, RESOLVED, VERIFIED, CLOSED. */
  ghost function Stage(s: Status): nat {
    match s
    case Open => 0
    case Assigned => 1
    case InProgress => 2
    case Resolved => 3
    case Verified => 4
    case Closed => 5
  }

  /** The documented Blocker machine, and re-routing; VERIFIED is passed through within one command. */
  ghost const MOVES: set<(Status, Status)> := {
    (Open, Assigned), (Assigned, Assigned), (Assigned, InProgress), (InProgress, Resolved), (Resolved, Closed)}

  function Target(c: Command): Status {
    match c
    case Assign => Assigned
    case Start => InProgress
    case Resolve => Resolved
    case Verify => Closed
  }

  lemma CommandsMakeTheMoves(s: Status, t: Status)
    ensures (exists c :: Legal(c, s) && Target(c) == t) <==> (s, t) in MOVES
  {
    if (s, t) in MOVES {
      var c := if t == Assigned then Assign else if t == InProgress then Start else if t == Resolved then Resolve else Verify;
      assert Legal(c, s) && Target(c) == t;
    }
  }

  // ---- the rows a command writes ----------------------------------------------------------------

  /** A plain Team routing clears a previous resolver; a plain resolver routing keeps the Team. */
  function AssignedRow(r: Blocker, team: Option<Id>, assignee: Option<Id>): Blocker {
    r.(status := Assigned, team := if team.Some? then team else r.team, owner := assignee, version := r.version + 1)
  }

  function StartedRow(r: Blocker, actor: Id, now: Time): Blocker {
    r.(status := InProgress, claimedAt := Some(now), owner := if r.owner.Some? then r.owner else Some(actor),
       version := r.version + 1)
  }

  function ResolvedRow(r: Blocker, now: Time): Blocker {
    r.(status := Resolved, resolvedAt := Some(now), version := r.version + 1)
  }

  /** VERIFIED and then CLOSED: two writes, two versions. */
  function ClosedRow(r: Blocker, now: Time): Blocker {
    r.(status := Closed, verifiedAt := Some(now), closedAt := Some(now), version := r.version + 2)
  }

  function NewBlocker(task: Id, now: Time): Blocker {
    Blocker(task, Open, 1, None, None, now, None, None, None, None)
  }

  /** The guards every command shares, in their order. */
  function Refusal(blockers: map<Id, Blocker>, b: Id, authorized: bool, expected: nat, c: Command): (r: Option<Error>)
    ensures r == None <==> b in blockers && authorized && blockers[b].version == expected && Legal(c, blockers[b].status)
    ensures r == Some(NotFound) <==> b !in blockers
    ensures r == Some(AuthorizationRequired) <==> b in blockers && !authorized
    ensures r == Some(ConcurrencyConflict) <==> b in blockers && authorized && blockers[b].version != expected
    ensures r.Some? ==> r == Some(NotFound) || r == Some(AuthorizationRequired) || r == Some(ConcurrencyConflict) || r == Some(InvalidTransition)
  {
    if b !in blockers then Some(NotFound)
    else if !authorized then Some(AuthorizationRequired)
    else if blockers[b].version != expected then Some(ConcurrencyConflict)
    else if !Legal(c, blockers[b].status) then Some(InvalidTransition)
    else None
  }

  // ---- what holds of committed rows -------------------------------------------------------------

  predicate Active(blockers: map<Id, Blocker>, b: Id, k: Id) {
    b in blockers && blockers[b].task == k && blockers[b].status != Closed
  }

  predicate SomeActive(blockers: map<Id, Blocker>, k: Id) {
    exists b :: b in blockers && Active(blockers, b, k)
  }

  predicate HasUnresolved(alerts: map<Id, Alert>, b: Id) {
    exists a :: a in alerts && alerts[a].blocker == b && alerts[a].resolvedAt == None
  }

  lemma MarkedMeans(alerts: map<Id, Alert>)
    ensures forall b :: !HasUnresolved(alerts, b) <==> forall a :: a in alerts && alerts[a].blocker == b ==> alerts[a].resolvedAt.Some?
  {
  }

  ghost predicate BlockedIsBacked(tasks: map<Id, T.TaskStatus>, blockers: map<Id, Blocker>) {
    forall k :: k in tasks && tasks[k] == T.Blocked ==> SomeActive(blockers, k)
  }

  /** An alert was not early, and it is unresolved exactly as long as its Blocker is OPEN. */
  ghost predicate AlertOk(alert: Alert, blockers: map<Id, Blocker>) {
    && alert.blocker in blockers
    && (alert.resolvedAt == None <==> blockers[alert.blocker].status == Open)
    && blockers[alert.blocker].blockedAt + 60 * alert.timer <= alert.raisedAt
  }

  ghost predicate AlertsOk(alerts: map<Id, Alert>, blockers: map<Id, Blocker>) {
    && (forall a :: a in alerts ==> AlertOk(alerts[a], blockers))
    && (forall a, c :: a in alerts && c in alerts && alerts[a].blocker == alerts[c].blocker ==> a == c)
  }

  /** With every alert unresolved exactly while its Blocker is OPEN, the marker means "ever escalated". */
  lemma UnmarkedMeansNeverEscalated(alerts: map<Id, Alert>, blockers: map<Id, Blocker>, b: Id)
    requires AlertsOk(alerts, blockers) && b in blockers && blockers[b].status == Open && !HasUnresolved(alerts, b)
    ensures forall a :: a in alerts ==> alerts[a].blocker != b
  {
  }

  function Resolved1(a: Alert, b: Id, at: Time): Alert {
    if a.blocker == b && a.resolvedAt == None then a.(resolvedAt := Some(at)) else a
  }

  /** `after` is `before` and one new alert for each of `ids`, under consecutive new ids. */
  ghost predicate RaisedFor(before: map<Id, Alert>, after: map<Id, Alert>, base: Id, ids: seq<Id>, now: Time, timer: map<Id, int>) {
    && (forall a :: a in after <==> a in before || base <= a < base + |ids|)
    && (forall a :: a in before ==> a < base && after[a] == before[a])
    && (forall i :: 0 <= i < |ids| ==> ids[i] in timer && after[base + i] == Alert(ids[i], now, timer[ids[i]], false, None))
  }

  lemma RaiseOne(before: map<Id, Alert>, mid: map<Id, Alert>, base: Id, ids: seq<Id>, now: Time, timer: map<Id, int>, b: Id)
    requires RaisedFor(before, mid, base, ids, now, timer) && b in timer
    ensures RaisedFor(before, mid[base + |ids| := Alert(b, now, timer[b], false, None)], base, ids + [b], now, timer)
  {
  }

  /** A sweep's next alert keeps every alert right. */
  lemma RaiseKeepsOk(alerts: map<Id, Alert>, blockers: map<Id, Blocker>, a: Id, b: Id, now: Time, timer: int)
    requires AlertsOk(alerts, blockers) && a !in alerts && b in blockers && blockers[b].status == Open
    requires !HasUnresolved(alerts, b) && blockers[b].blockedAt + 60 * timer <= now
    ensures AlertsOk(alerts[a := Alert(b, now, timer, false, None)], blockers)
    ensures forall c :: HasUnresolved(alerts[a := Alert(b, now, timer, false, None)], c) <==> HasUnresolved(alerts, c) || c == b
  {
    UnmarkedMeansNeverEscalated(alerts, blockers, b);
    var after := alerts[a := Alert(b, now, timer, false, None)];
    assert after[a].blocker == b && after[a].resolvedAt == None;
    assert forall c :: c in alerts ==> after[c] == alerts[c];
  }

  ghost predicate Ripe(blockers: map<Id, Blocker>, b: Id, now: Time, timer: map<Id, int>) {
    b in blockers && b in timer && blockers[b].blockedAt + 60 * timer[b] <= now
  }

  /** A sweep that has been through `seen` has escalated `ids`: the ripe and unmarked ones among them. */
  ghost predicate Swept(blockers: map<Id, Blocker>, before: map<Id, Alert>, after: map<Id, Alert>, base: Id,
                        seen: seq<Id>, ids: seq<Id>, now: Time, timer: map<Id, int>)
  {
    && T.Ascending(ids) && AlertsOk(after, blockers) && RaisedFor(before, after, base, ids, now, timer)
    && (forall b :: b in ids <==> b in seen && Ripe(blockers, b, now, timer) && !HasUnresolved(before, b))
    && (forall b :: HasUnresolved(after, b) <==> HasUnresolved(before, b) || b in ids)
  }

  lemma SweepHit(blockers: map<Id, Blocker>, before: map<Id, Alert>, after: map<Id, Alert>, base: Id,
                 seen: seq<Id>, ids: seq<Id>, now: Time, timer: map<Id, int>, b: Id)
    requires Swept(blockers, before, after, base, seen, ids, now, timer)
    requires b in blockers && blockers[b].status == Open && forall x :: x in seen ==> x < b
    requires Ripe(blockers, b, now, timer) && !HasUnresolved(after, b)
    ensures Swept(blockers, before, after[base + |ids| := Alert(b, now, timer[b], false, None)],
                  base, seen + [b], ids + [b], now, timer)
  {
    T.AscendingSnoc(ids, b);
    RaiseOne(before, after, base, ids, now, timer, b);
    RaiseKeepsOk(after, blockers, base + |ids|, b, now, timer[b]);
  }

  lemma SweepMiss(blockers: map<Id, Blocker>, before: map<Id, Alert>, after: map<Id, Alert>, base: Id,
                  seen: seq<Id>, ids: seq<Id>, now: Time, timer: map<Id, int>, b: Id)
    requires Swept(blockers, before, after, base, seen, ids, now, timer)
    requires forall x :: x in seen ==> x < b
    requires Ripe(blockers, b, now, timer) ==> HasUnresolved(after, b)
    ensures Swept(blockers, before, after, base, seen + [b], ids, now, timer)
  {
  }

  /** The sweep's loop over its candidates, in id order: check the timer, check for an alert, escalate. */
  method Escalate(blockers: map<Id, Blocker>, candidates: seq<Id>, alerts: map<Id, Alert>, base: Id, now: Time, timer: map<Id, int>)
    returns (escalated: seq<Id>, after: map<Id, Alert>)
    requires T.Ascending(candidates) && AlertsOk(alerts, blockers) && forall a :: a in alerts ==> a < base
    requires forall b :: b in candidates ==> b in blockers && blockers[b].status == Open && b in timer
    ensures Swept(blockers, alerts, after, base, candidates, escalated, now, timer)
  {
    escalated, after := [], alerts;
    for i := 0 to |candidates|
      invariant Swept(blockers, alerts, after, base, candidates[..i], escalated, now, timer)
    {
      var b := candidates[i];
      assert b in candidates;
      T.AscendingPrefix(candidates, i);
      if blockers[b].blockedAt + 60 * timer[b] <= now && !HasUnresolved(after, b) {
        SweepHit(blockers, alerts, after, base, candidates[..i], escalated, now, timer, b);
        after := after[base + |escalated| := Alert(b, now, timer[b], false, None)];
        escalated := escalated + [b];
      } else {
        SweepMiss(blockers, alerts, after, base, candidates[..i], escalated, now, timer, b);
      }
    }
    assert candidates[..|candidates|] == candidates;
  }

  ghost function Statuses(tasks: map<Id, Task>): map<Id, T.TaskStatus> {
    map k | k in tasks :: tasks[k].status
  }

  /** Writing a Blocker that stays active backs every Task that was backed. */
  lemma WriteKeepsBacked(tasks: map<Id, T.TaskStatus>, blockers: map<Id, Blocker>, b: Id, row: Blocker)
    requires BlockedIsBacked(tasks, blockers) && row.status != Closed
    requires b in blockers ==> blockers[b].task == row.task
    ensures BlockedIsBacked(tasks, blockers[b := row])
  {
    forall k | k in tasks && tasks[k] == T.Blocked
      ensures SomeActive(blockers[b := row], k)
    {
      var c :| c in blockers && Active(blockers, c, k);
      assert Active(blockers[b := row], c, k);
    }
  }

  /** Closing a Blocker leaves every other Task backed. */
  lemma CloseKeepsOthersBacked(tasks: map<Id, T.TaskStatus>, blockers: map<Id, Blocker>, b: Id, row: Blocker)
    requires BlockedIsBacked(tasks, blockers) && b in blockers && blockers[b].task == row.task
    ensures forall k :: k in tasks && tasks[k] == T.Blocked && k != row.task ==> SomeActive(blockers[b := row], k)
  {
    forall k | k in tasks && tasks[k] == T.Blocked && k != row.task
      ensures SomeActive(blockers[b := row], k)
    {
      var c :| c in blockers && Active(blockers, c, k);
      assert Active(blockers[b := row], c, k);
    }
  }

  lemma CloseLeaves(blockers: map<Id, Blocker>, b: Id, row: Blocker)
    requires b in blockers && blockers[b].task == row.task && row.status == Closed
    ensures SomeActive(blockers[b := row], row.task) <==>
              exists c :: c in blockers && blockers[c].task == row.task && c != b && blockers[c].status != Closed
  {
    var after := blockers[b := row];
    if c :| c in blockers && blockers[c].task == row.task && c != b && blockers[c].status != Closed {
      assert Active(after, c, row.task);
    }
    if c :| c in after && Active(after, c, row.task) {
      assert Active(blockers, c, row.task);
    }
  }

  /** A Blocker written past OPEN keeps the alerts right once its unresolved alert is resolved. */
  lemma LeaveOpenKeepsAlerts(alerts: map<Id, Alert>, blockers: map<Id, Blocker>, b: Id, row: Blocker, at: Time)
    requires AlertsOk(alerts, blockers) && b in blockers && row.status != Open && row.blockedAt == blockers[b].blockedAt
    ensures AlertsOk(map a | a in alerts :: Resolved1(alerts[a], b, at), blockers[b := row])
    ensures !HasUnresolved(map a | a in alerts :: Resolved1(alerts[a], b, at), b)
    ensures blockers[b].status != Open ==> alerts == map a | a in alerts :: Resolved1(alerts[a], b, at)
  {
    if blockers[b].status != Open {
      assert forall a :: a in alerts ==> AlertOk(alerts[a], blockers);
    }
  }

  datatype Directory = Directory(teams: set<Id>, activeUsers: set<Id>, members: set<(Id, Id)>)

  /** The routing guards of `assign`, in their order. */
  function RoutingRefusal(d: Directory, team: Option<Id>, assignee: Option<Id>): (r: Option<Error>)
    ensures r == None <==>
              && (team.Some? || assignee.Some?)
              && (team.Some? ==> team.value in d.teams)
              && (assignee.Some? ==> assignee.value in d.activeUsers)
              && (team.Some? && assignee.Some? ==> (team.value, assignee.value) in d.members)
    ensures r == Some(RoutingRequired) <==> team == None && assignee == None
    ensures r == Some(TeamNotFound) <==> team.Some? && team.value !in d.teams
    ensures r == Some(UserNotFound) <==>
              (team.Some? ==> team.value in d.teams) && assignee.Some? && assignee.value !in d.activeUsers
    ensures r.Some? ==> r == Some(RoutingRequired) || r == Some(TeamNotFound) || r == Some(UserNotFound) || r == Some(RoutingMismatch)
  {
    if team == None && assignee == None then Some(RoutingRequired)
    else if team.Some? && team.value !in d.teams then Some(TeamNotFound)
    else if assignee.Some? && assignee.value !in d.activeUsers then Some(UserNotFound)
    else if assignee.Some? && team.Some? && (team.value, assignee.value) !in d.members then Some(RoutingMismatch)
    else None
  }

  class BlockerStore {
    var tasks: map<Id, Task>
    var blockers: map<Id, Blocker>
    var alerts: map<Id, Alert>
    /** Events that are CLOSED or CANCELLED. */
    var finished: set<Id>
    var nextBlocker: Id
    var nextAlert: Id

    ghost predicate Valid()
      reads this
    {
      && (forall b :: b in blockers ==> b < nextBlocker && blockers[b].task in tasks)
      && (forall a :: a in alerts ==> a < nextAlert)
      && BlockedIsBacked(Statuses(tasks), blockers)
      && AlertsOk(alerts, blockers)
    }

    constructor ()
      ensures Valid() && tasks == map[] && blockers == map[] && alerts == map[]
    {
      tasks, blockers, alerts, finished, nextBlocker, nextAlert := map[], map[], map[], {}, 0, 0;
    }

    /** IN_PROGRESS -> BLOCKED together with the Blocker that backs it. */
    method BlockTask(k: Id, authorized: bool, expected: nat, reason: bool, now: Time) returns (r: Outcome<Id, Error>)
      requires Valid()
      modifies this`tasks, this`blockers, this`nextBlocker
      ensures Valid()
      ensures r.Ok? <==> k in old(tasks) && authorized && old(tasks)[k].version == expected
                         && old(tasks)[k].status == T.InProgress && reason
      ensures r == Failed(NotFound) <==> k !in old(tasks)
      ensures r == Failed(AuthorizationRequired) <==> k in old(tasks) && !authorized
      ensures r == Failed(ConcurrencyConflict) <==> k in old(tasks) && authorized && old(tasks)[k].version != expected
      ensures r == Failed(InvalidTransition) <==>
                k in old(tasks) && authorized && old(tasks)[k].version == expected && old(tasks)[k].status != T.InProgress
      ensures r == Failed(ReasonRequired) <==>
                k in old(tasks) && authorized && old(tasks)[k].version == expected && old(tasks)[k].status == T.InProgress && !reason
      ensures r.Failed? ==> tasks == old(tasks) && blockers == old(blockers)
      ensures r.Ok? ==>
                && r.value !in old(blockers)
                && blockers == old(blockers)[r.value := Blocker(k, Open, 1, None, None, now, None, None, None, None)]
                && tasks == old(tasks)[k := old(tasks)[k].(status := T.Blocked, version := expected + 1)]
    {
      if k !in tasks { return Failed(NotFound); }
      if !authorized { return Failed(AuthorizationRequired); }
      if tasks[k].version != expected { return Failed(ConcurrencyConflict); }
      if tasks[k].status != T.InProgress { return Failed(InvalidTransition); }
      if !reason { return Failed(ReasonRequired); }
      WriteKeepsBacked(Statuses(tasks), blockers, nextBlocker, NewBlocker(k, now));
      r := Ok(nextBlocker);
      blockers := blockers[nextBlocker := NewBlocker(k, now)];
      tasks := tasks[k := tasks[k].(status := T.Blocked, version := expected + 1)];
      nextBlocker := nextBlocker + 1;
      assert Active(blockers, r.value, k);
    }

    /** A manual resume: an override (with a reason) leaves the active Blockers as they are. */
    method ResumeTask(k: Id, authorized: bool, expected: nat, reason: bool, mayOverride: bool) returns (r: Outcome<(), Error>)
      requires Valid()
      modifies this`tasks
      ensures Valid()
      ensures r.Ok? <==> k in old(tasks) && authorized && old(tasks)[k].version == expected
                         && old(tasks)[k].status == T.Blocked
                         && ((exists c :: c in blockers && blockers[c].task == k && blockers[c].status != Closed) ==> reason && mayOverride)
      ensures r == Failed(ReasonRequired) <==>
                k in old(tasks) && authorized && old(tasks)[k].version == expected && old(tasks)[k].status == T.Blocked
                && !reason && exists c :: c in blockers && blockers[c].task == k && blockers[c].status != Closed
      ensures r.Failed? ==> r.error == NotFound || r.error == AuthorizationRequired || r.error == ConcurrencyConflict
                            || r.error == InvalidTransition || r.error == ReasonRequired
      ensures r == Failed(NotFound) <==> k !in old(tasks)
      ensures r == Failed(ConcurrencyConflict) <==> k in old(tasks) && authorized && old(tasks)[k].version != expected
      ensures r == Failed(InvalidTransition) <==>
                k in old(tasks) && authorized && old(tasks)[k].version == expected && old(tasks)[k].status != T.Blocked
      ensures tasks == if r.Ok? then old(tasks)[k := old(tasks)[k].(status := T.InProgress, version := expected + 1)]
                       else old(tasks)
    {
      if k !in tasks { return Failed(NotFound); }
      if !authorized { return Failed(AuthorizationRequired); }
      if tasks[k].version != expected { return Failed(ConcurrencyConflict); }
      if tasks[k].status != T.Blocked { return Failed(InvalidTransition); }
      var none := !SomeActive(blockers, k);
      if !none && !reason { return Failed(ReasonRequired); }
      if !none && !mayOverride { return Failed(AuthorizationRequired); }
      tasks := tasks[k := tasks[k].(status := T.InProgress, version := expected + 1)];
      r := Ok(());
    }

    /** OPEN or ASSIGNED -> ASSIGNED. Leaving OPEN resolves the Blocker's escalation alert. */
    method Assign(b: Id, authorized: bool, expected: nat, d: Directory, team: Option<Id>, assignee: Option<Id>, now: Time)
      returns (r: Outcome<(), Error>)
      requires Valid()
      modifies this`blockers, this`alerts
      ensures Valid()
      ensures var refused := Refusal(old(blockers), b, authorized, expected, Command.Assign);
              var unroutable := RoutingRefusal(d, team, assignee);
              && (r.Ok? <==> refused == None && unroutable == None)
              && (refused.Some? ==> r == Failed(refused.value))
              && (refused == None && unroutable.Some? ==> r == Failed(unroutable.value))
      ensures r.Failed? ==> blockers == old(blockers) && alerts == old(alerts)
      ensures r.Ok? ==> b in old(blockers) && (old(blockers)[b].status == Open || old(blockers)[b].status == Assigned)
      ensures r.Ok? ==> blockers == old(blockers)[b := old(blockers)[b].(
                          status := Assigned, owner := assignee, team := if team.Some? then team else old(blockers)[b].team,
                          version := expected + 1)]
      ensures r.Ok? ==> alerts.Keys == old(alerts).Keys && forall a :: a in alerts ==>
                alerts[a] == if old(alerts)[a].blocker == b && old(alerts)[a].resolvedAt == None
                             then old(alerts)[a].(resolvedAt := Some(now)) else old(alerts)[a]
    {
      var refused := Refusal(blockers, b, authorized, expected, Command.Assign);
      if refused.Some? { return Failed(refused.value); }
      var unroutable := RoutingRefusal(d, team, assignee);
      if unroutable.Some? { return Failed(unroutable.value); }
      WriteKeepsBacked(Statuses(tasks), blockers, b, AssignedRow(blockers[b], team, assignee));
      LeaveOpenKeepsAlerts(alerts, blockers, b, AssignedRow(blockers[b], team, assignee), now);
      if blockers[b].status == Open {
        alerts := map a | a in alerts :: Resolved1(alerts[a], b, now);
      }
      blockers := blockers[b := AssignedRow(blockers[b], team, assignee)];
      r := Ok(());
    }

    method Start(b: Id, authorized: bool, expected: nat, actor: Id, now: Time) returns (r: Outcome<(), Error>)
      requires Valid()
      modifies this`blockers
      ensures Valid()
      ensures var refused := Refusal(old(blockers), b, authorized, expected, Command.Start);
              if refused.Some? then r == Failed(refused.value) && blockers == old(blockers)
              else
                && r == Ok(()) && b in old(blockers) && old(blockers)[b].status == Assigned
                && blockers == old(blockers)[b := old(blockers)[b].(
                     status := InProgress, claimedAt := Some(now), version := expected + 1,
                     owner := if old(blockers)[b].owner == None then Some(actor) else old(blockers)[b].owner)]
    {
      var refused := Refusal(blockers, b, authorized, expected, Command.Start);
      if refused.Some? { return Failed(refused.value); }
      WriteKeepsBacked(Statuses(tasks), blockers, b, StartedRow(blockers[b], actor, now));
      var owner := if blockers[b].owner.Some? then blockers[b].owner else Some(actor);
      blockers := blockers[b := blockers[b].(status := InProgress, claimedAt := Some(now), owner := owner,
                                             version := blockers[b].version + 1)];
      r := Ok(());
    }

    method Resolve(b: Id, authorized: bool, expected: nat, now: Time) returns (r: Outcome<(), Error>)
      requires Valid()
      modifies this`blockers
      ensures Valid()
      ensures var refused := Refusal(old(blockers), b, authorized, expected, Command.Resolve);
              if refused.Some? then r == Failed(refused.value) && blockers == old(blockers)
              else
                && r == Ok(()) && b in old(blockers) && old(blockers)[b].status == InProgress
                && blockers == old(blockers)[b := old(blockers)[b].(status := Resolved, resolvedAt := Some(now), version := expected + 1)]
    {
      var refused := Refusal(blockers, b, authorized, expected, Command.Resolve);
      if refused.Some? { return Failed(refused.value); }
      WriteKeepsBacked(Statuses(tasks), blockers, b, ResolvedRow(blockers[b], now));
      blockers := blockers[b := blockers[b].(status := Resolved, resolvedAt := Some(now), version := blockers[b].version + 1)];
      r := Ok(());
    }

    /** RESOLVED -> VERIFIED -> CLOSED; the Task resumes exactly if this closed its last active Blocker. */
    method Verify(b: Id, authorized: bool, expected: nat, now: Time) returns (r: Outcome<(), Error>)
      requires Valid()
      modifies this`blockers, this`tasks
      ensures Valid()
      ensures var refused := Refusal(old(blockers), b, authorized, expected, Command.Verify);
              if refused.Some? then r == Failed(refused.value) && blockers == old(blockers) && tasks == old(tasks)
              else
                && r == Ok(()) && b in old(blockers) && old(blockers)[b].status == Resolved
                && blockers == old(blockers)[b := old(blockers)[b].(
                     status := Closed, verifiedAt := Some(now), closedAt := Some(now), version := expected + 2)]
                && var k := old(blockers)[b].task;
                   && k in old(tasks)
                   && tasks == if old(tasks)[k].status == T.Blocked
                                  && (forall c :: c in old(blockers) && old(blockers)[c].task == k && c != b ==> old(blockers)[c].status == Closed)
                               then old(tasks)[k := old(tasks)[k].(status := T.InProgress, version := old(tasks)[k].version + 1)]
                               else old(tasks)
    {
      var refused := Refusal(blockers, b, authorized, expected, Command.Verify);
      if refused.Some? { return Failed(refused.value); }
      ghost var before, row := blockers, ClosedRow(blockers[b], now);
      var k := blockers[b].task;
      blockers := blockers[b := blockers[b].(status := Verified, verifiedAt := Some(now), version := blockers[b].version + 1)];
      blockers := blockers[b := blockers[b].(status := Closed, closedAt := Some(now), version := blockers[b].version + 1)];
      r := Ok(());
      assert blockers == before[b := row];
      CloseLeaves(before, b, row);
      CloseKeepsOthersBacked(Statuses(tasks), before, b, row);
      var none := !SomeActive(blockers, k);
      if tasks[k].status == T.Blocked && none {
        tasks := tasks[k := tasks[k].(status := T.InProgress, version := tasks[k].version + 1)];
      }
      forall j | j in Statuses(tasks) && Statuses(tasks)[j] == T.Blocked
        ensures SomeActive(blockers, j)
      {
        assert j in Statuses(old(tasks)) && Statuses(old(tasks))[j] == T.Blocked;
      }
    }

    // ---- the escalation sweep ---------------------------------------------------------------------

    /** A candidate: OPEN, its Task not finished, its Event not finished. */
    predicate Candidate(b: Id)
      reads this
    {
      && b in blockers && blockers[b].status == Open && blockers[b].task in tasks
      && !T.Terminal(tasks[blockers[b].task].status) && tasks[blockers[b].task].event !in finished
    }

    ghost predicate Due(b: Id, now: Time, timer: map<Id, int>)
      reads this
    {
      Candidate(b) && b in timer && blockers[b].blockedAt + 60 * timer[b] <= now
    }

    /** Running alone, a sweep escalates every due unmarked Blocker, nothing else, and leaves none. */
    method EscalateDueBlockers(now: Time, timer: map<Id, int>) returns (escalated: seq<Id>)
      requires Valid() && forall b :: Candidate(b) ==> b in timer
      modifies this`alerts, this`nextAlert
      ensures Valid() && T.Ascending(escalated)
      ensures forall b :: b in escalated <==>
                && b in blockers && blockers[b].status == Open && b in timer && blockers[b].blockedAt + 60 * timer[b] <= now
                && blockers[b].task in tasks && tasks[blockers[b].task].event !in finished
                && tasks[blockers[b].task].status != T.Completed && tasks[blockers[b].task].status != T.Cancelled
                && forall a :: a in old(alerts) && old(alerts)[a].blocker == b ==> old(alerts)[a].resolvedAt.Some?
      ensures RaisedFor(old(alerts), alerts, old(nextAlert), escalated, now, timer)
      ensures forall b :: Due(b, now, timer) ==> HasUnresolved(alerts, b)
    {
      var candidates := T.SortedIds(set b | b in blockers && Candidate(b));
      MarkedMeans(alerts);
      escalated, alerts := Escalate(blockers, candidates, alerts, nextAlert, now, timer);
      nextAlert := nextAlert + |escalated|;
    }
  }
}
