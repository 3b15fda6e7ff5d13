/** The DR Event and DR Application commands as they update their rows in place. */
module DrEventStore {
  import opened Prelude
  import opened DrEvents

  /** What a command did is what the specification's step does, or nothing at all. */
  ghost predicate Did(before: Rows, c: Call, r: Outcome<(), Error>, after: Rows) {
    match Step(before, c)
    case Ok(rows) => r == Ok(()) && after == rows
    case Failed(e) => r == Failed(e) && after == before
  }

  /** The guards of an Event command, each in its turn. */
  ghost predicate RefusedInTurn(r: Outcome<(), Error>, authorized: bool, found: bool, current: bool, legal: bool) {
    && (!authorized ==> r == Failed(AuthorizationRequired))
    && (authorized && !found ==> r == Failed(EventNotFound))
    && (authorized && found && !current ==> r == Failed(ConcurrencyConflict))
    && (authorized && found && current && !legal ==> r == Failed(InvalidTransition))
  }

  ghost predicate Current(events: map<Id, Event>, e: Id, expected: nat) {
    e in events && events[e].version == expected
  }

  ghost predicate Is(events: map<Id, Event>, e: Id, s: EventStatus) {
    e in events && events[e].status == s
  }

  /** The guards of an Application command, each in its turn; `live` says that its Event has not ended. */
  ghost predicate AppRefusedInTurn(r: Outcome<(), Error>, s: Rows, a: Id, authorized: bool, expected: nat, live: bool) {
    && (a !in s.apps <==> r == Failed(ApplicationNotFound))
    && (a in s.apps && !live ==> r == Failed(InvalidTransition))
    && (a in s.apps && live && !authorized ==> r == Failed(AuthorizationRequired))
    && (a in s.apps && live && authorized && s.apps[a].version != expected ==> r == Failed(ConcurrencyConflict))
  }

  ghost predicate EventLives(s: Rows, a: Id) {
    && a in s.apps && s.apps[a].event in s.events
    && s.events[s.apps[a].event].status != Closed && s.events[s.apps[a].event].status != Cancelled
  }

  class Store {
    var events: map<Id, Event>
    var apps: map<Id, Application>
    var validations: seq<Validation>

    ghost function View(): Rows
      reads this
    {
      Rows(events, apps, validations)
    }

    constructor ()
      ensures View() == Rows(map[], map[], [])
    {
      events, apps, validations := map[], map[], [];
    }

    /** The Event row first, then one row for each Application in scope. */
    method CreateEvent(e: Id, parent: Option<Id>, scope: map<Id, bool>, unresolved: Option<Error>, authorized: bool, now: Time)
      returns (r: Outcome<(), Error>)
      modifies this
      ensures Did(old(View()), Call(Op.CreateEvent(e, parent, scope, unresolved), authorized, 0, now, now), r, View())
    {
      if !authorized { return Failed(AuthorizationRequired); }
      if parent.Some? && parent.value !in events { return Failed(EventNotFound); }
      if unresolved.Some? { return Failed(unresolved.value); }
      if e in events || !(scope.Keys !! apps.Keys) { return Failed(AlreadyExists); }
      ghost var before := apps;
      events := events[e := NewEvent(parent, now)];
      var todo := scope.Keys;
      while todo != {}
        invariant todo <= scope.Keys && apps.Keys == before.Keys + (scope.Keys - todo)
        invariant validations == old(validations) && events == old(events)[e := NewEvent(parent, now)]
        invariant forall a :: a in before ==> apps[a] == before[a]
        invariant forall a :: a in scope && a !in todo ==> apps[a] == NewApplication(e, scope[a], now)
        decreases todo
      {
        var a :| a in todo;
        apps := apps[a := NewApplication(e, scope[a], now)];
        todo := todo - {a};
      }
      assert apps == before + map a | a in scope :: NewApplication(e, scope[a], now);
      r := Ok(());
    }

    /** The shared tail: one status change, one version. */
    method Finish(e: Id, end: Time)
      requires e in events
      modifies this`events
      ensures events == old(events)[e := old(events)[e].(version := old(events)[e].version + 1, updatedAt := end)]
    {
      events := events[e := events[e].(version := events[e].version + 1, updatedAt := end)];
    }

    method Activate(e: Id, hardStops: bool, unoverridable: bool, reason: bool, authorized: bool, expected: nat, now: Time, end: Time)
      returns (r: Outcome<(), Error>)
      modifies this
      ensures Did(old(View()), Call(Op.Activate(e, hardStops, unoverridable, reason), authorized, expected, now, end), r, View())
      ensures RefusedInTurn(r, authorized, e in old(events), Current(old(events), e, expected), Is(old(events), e, Planned))
      ensures r == Failed(ReadinessHardStop) <==>
                authorized && Current(old(events), e, expected) && Is(old(events), e, Planned) && hardStops && (!reason || unoverridable)
      ensures r.Ok? <==> authorized && Current(old(events), e, expected) && Is(old(events), e, Planned)
                         && (hardStops ==> reason && !unoverridable)
      ensures r.Ok? ==> apps == old(apps) && validations == old(validations)
                        && events == old(events)[e := old(events)[e].(status := Active, version := expected + 1, updatedAt := end)]
    {
      if !authorized { return Failed(AuthorizationRequired); }
      if e !in events { return Failed(EventNotFound); }
      if events[e].version != expected { return Failed(ConcurrencyConflict); }
      if events[e].status != Planned { return Failed(InvalidTransition); }
      if hardStops {
        if !reason { return Failed(ReadinessHardStop); }
        if unoverridable { return Failed(ReadinessHardStop); }
      }
      events := events[e := events[e].(status := Active)];
      Finish(e, end);
      r := Ok(());
    }

    /** The bulk side effect of `start_failover`, one Application row at a time. */
    method RecoverApplications(e: Id, cut: Time, now: Time)
      modifies this`apps
      ensures apps == map a | a in old(apps) :: Recovered(old(apps)[a], e, cut, now)
    {
      ghost var before := apps;
      var todo := set a | a in apps && apps[a].event == e && apps[a].status == NotStarted;
      while todo != {}
        invariant apps.Keys == before.Keys && todo <= apps.Keys
        invariant forall a :: a in apps ==> apps[a] == if a in todo then before[a] else Recovered(before[a], e, cut, now)
        invariant forall a :: a in todo ==> before[a].event == e && before[a].status == NotStarted
        decreases todo
      {
        var a :| a in todo;
        apps := apps[a := apps[a].(status := Recovering, slaStartAt := Some(cut), version := apps[a].version + 1, updatedAt := now)];
        todo := todo - {a};
      }
    }

    /** The bulk side effect of `start_failback`. */
    method FailBackApplications(e: Id, now: Time)
      modifies this`apps
      ensures apps == map a | a in old(apps) :: FailingBack(old(apps)[a], e, now)
    {
      ghost var before := apps;
      var todo := set a | a in apps && apps[a].event == e && apps[a].status == AppFailedOver && apps[a].failbackRequired;
      while todo != {}
        invariant apps.Keys == before.Keys && todo <= apps.Keys
        invariant forall a :: a in apps ==> apps[a] == if a in todo then before[a] else FailingBack(before[a], e, now)
        invariant forall a :: a in todo ==>
                    before[a].event == e && before[a].status == AppFailedOver && before[a].failbackRequired
        decreases todo
      {
        var a :| a in todo;
        apps := apps[a := apps[a].(status := AppFailbackInProgress, version := apps[a].version + 1, updatedAt := now)];
        todo := todo - {a};
      }
    }

    /** The Event moves, and every NOT_STARTED Application in its scope with it, one row at a time. */
    method StartFailover(e: Id, cutAt: Option<Time>, authorized: bool, expected: nat, now: Time, end: Time)
      returns (r: Outcome<(), Error>)
      modifies this
      ensures Did(old(View()), Call(Op.StartFailover(e, cutAt), authorized, expected, now, end), r, View())
      ensures RefusedInTurn(r, authorized, e in old(events), Current(old(events), e, expected), Is(old(events), e, Active))
      ensures var cut := if cutAt.Some? then cutAt.value else now;
              && (r.Ok? <==> authorized && Current(old(events), e, expected) && Is(old(events), e, Active)
                             && old(events)[e].updatedAt <= cut <= now)
              && (r.Ok? ==>
                    && events == old(events)[e := old(events)[e].(status := FailoverInProgress, networkCutAt := Some(cut),
                                                                  version := expected + 1, updatedAt := end)]
                    && apps.Keys == old(apps).Keys && validations == old(validations)
                    && forall a :: a in apps ==>
                         apps[a] == if old(apps)[a].event == e && old(apps)[a].status == NotStarted
                                    then old(apps)[a].(status := Recovering, slaStartAt := Some(cut),
                                                       version := old(apps)[a].version + 1, updatedAt := now)
                                    else old(apps)[a])
    {
      if !authorized { return Failed(AuthorizationRequired); }
      if e !in events { return Failed(EventNotFound); }
      if events[e].version != expected { return Failed(ConcurrencyConflict); }
      if events[e].status != Active { return Failed(InvalidTransition); }
      var cut := if cutAt.Some? then cutAt.value else now;
      if cut < events[e].updatedAt || cut > now { return Failed(CutOutOfBounds); }
      events := events[e := events[e].(status := FailoverInProgress, networkCutAt := Some(cut))];
      RecoverApplications(e, cut, now);
      Finish(e, end);
      r := Ok(());
    }

    method MarkFailedOver(e: Id, authorized: bool, expected: nat, now: Time, end: Time) returns (r: Outcome<(), Error>)
      modifies this
      ensures Did(old(View()), Call(Op.MarkFailedOver(e), authorized, expected, now, end), r, View())
      ensures RefusedInTurn(r, authorized, e in old(events), Current(old(events), e, expected), Is(old(events), e, FailoverInProgress))
      ensures r.Ok? <==> authorized && Current(old(events), e, expected) && Is(old(events), e, FailoverInProgress)
      ensures r.Ok? ==> apps == old(apps) && validations == old(validations)
                        && events == old(events)[e := old(events)[e].(status := FailedOver, version := expected + 1, updatedAt := end)]
    {
      if !authorized { return Failed(AuthorizationRequired); }
      if e !in events { return Failed(EventNotFound); }
      if events[e].version != expected { return Failed(ConcurrencyConflict); }
      if events[e].status != FailoverInProgress { return Failed(InvalidTransition); }
      events := events[e := events[e].(status := FailedOver)];
      Finish(e, end);
      r := Ok(());
    }

    /** The Event moves, and with it every FAILED_OVER Application that requires failback. */
    method StartFailback(e: Id, authorized: bool, expected: nat, now: Time, end: Time) returns (r: Outcome<(), Error>)
      modifies this
      ensures Did(old(View()), Call(Op.StartFailback(e), authorized, expected, now, end), r, View())
      ensures RefusedInTurn(r, authorized, e in old(events), Current(old(events), e, expected), Is(old(events), e, FailedOver))
      ensures r.Ok? <==> authorized && Current(old(events), e, expected) && Is(old(events), e, FailedOver)
      ensures r.Ok? ==>
                && events == old(events)[e := old(events)[e].(status := FailbackInProgress, failbackStartedAt := Some(now),
                                                              version := expected + 1, updatedAt := end)]
                && apps.Keys == old(apps).Keys && validations == old(validations)
                && forall a :: a in apps ==>
                     apps[a] == if old(apps)[a].event == e && old(apps)[a].status == AppFailedOver && old(apps)[a].failbackRequired
                                then old(apps)[a].(status := AppFailbackInProgress, version := old(apps)[a].version + 1, updatedAt := now)
                                else old(apps)[a]
    {
      if !authorized { return Failed(AuthorizationRequired); }
      if e !in events { return Failed(EventNotFound); }
      if events[e].version != expected { return Failed(ConcurrencyConflict); }
      if events[e].status != FailedOver { return Failed(InvalidTransition); }
      events := events[e := events[e].(status := FailbackInProgress, failbackStartedAt := Some(now))];
      FailBackApplications(e, now);
      Finish(e, end);
      r := Ok(());
    }

    method HasNonTerminalChildren(e: Id) returns (found: bool)
      ensures found <==> exists c :: c in events && events[c].parent == Some(e) && events[c].status != Closed && events[c].status != Cancelled
    {
      found := exists c <- events :: events[c].parent == Some(e) && !Terminal(events[c].status);
    }

    method Close(e: Id, monitoring: bool, exception: Option<bool>, mayExcept: bool, authorized: bool, expected: nat, now: Time, end: Time)
      returns (r: Outcome<(), Error>)
      modifies this
      ensures Did(old(View()), Call(Op.Close(e, monitoring, exception, mayExcept), authorized, expected, now, end), r, View())
    {
      if !authorized { return Failed(AuthorizationRequired); }
      if e !in events { return Failed(EventNotFound); }
      if events[e].version != expected { return Failed(ConcurrencyConflict); }
      if events[e].status != FailedOver && events[e].status != FailbackInProgress { return Failed(InvalidTransition); }
      var unfinished := HasNonTerminalChildren(e);
      if unfinished { return Failed(ChildNotTerminal); }
      if events[e].status == FailedOver {
        if exists a <- apps :: apps[a].event == e && apps[a].failbackRequired { return Failed(FailbackStillRequired); }
      }
      if monitoring {
        if exception == None { return Failed(MonitoringWarning); }
        if !exception.value { return Failed(ReasonRequired); }
        if !mayExcept { return Failed(AuthorizationRequired); }
      }
      events := events[e := events[e].(status := Closed, completedAt := Some(now))];
      Finish(e, end);
      r := Ok(());
    }

    method Cancel(e: Id, reason: bool, authorized: bool, expected: nat, now: Time, end: Time) returns (r: Outcome<(), Error>)
      modifies this
      ensures Did(old(View()), Call(Op.Cancel(e, reason), authorized, expected, now, end), r, View())
      ensures var legal := e in old(events) && old(events)[e].status != Closed && old(events)[e].status != Cancelled;
              && (r == Failed(ReasonRequired) <==> !reason)
              && (reason ==> RefusedInTurn(r, authorized, e in old(events), Current(old(events), e, expected), legal))
              && (r.Ok? <==> reason && authorized && Current(old(events), e, expected) && legal)
      ensures r.Ok? ==> apps == old(apps) && validations == old(validations)
                        && events == old(events)[e := old(events)[e].(status := Cancelled, cancelledAt := Some(now),
                                                                      version := expected + 1, updatedAt := end)]
    {
      if !reason { return Failed(ReasonRequired); }
      if !authorized { return Failed(AuthorizationRequired); }
      if e !in events { return Failed(EventNotFound); }
      if events[e].version != expected { return Failed(ConcurrencyConflict); }
      if Terminal(events[e].status) { return Failed(InvalidTransition); }
      events := events[e := events[e].(status := Cancelled, cancelledAt := Some(now))];
      Finish(e, end);
      r := Ok(());
    }

    method SubmitValidation(a: Id, actor: Id, unfinished: bool, reason: bool, authorized: bool, expected: nat, now: Time, end: Time)
      returns (r: Outcome<(), Error>)
      modifies this
      ensures Did(old(View()), Call(Op.Submit(a, actor, unfinished, reason), authorized, expected, now, end), r, View())
      ensures AppRefusedInTurn(r, old(View()), a, authorized, expected, EventLives(old(View()), a))
      ensures var pending := exists p :: 0 <= p < |old(validations)| && old(validations)[p].application == a && old(validations)[p].status == Pending;
              var phase := a in old(apps) && (old(apps)[a].status == Recovering || old(apps)[a].status == AppFailbackInProgress);
              var called := a in old(apps) && EventLives(old(View()), a) && authorized && old(apps)[a].version == expected && phase;
              && (r == Failed(TasksUnfinished) <==> called && !pending && unfinished && !reason)
              && (r.Ok? <==> called && !pending && (unfinished ==> reason))
      ensures r.Ok? ==>
                && events == old(events) && validations == old(validations) + [Validation(a, actor, Pending, None)]
                && apps == old(apps)[a := old(apps)[a].(
                     status := if old(apps)[a].status == Recovering then TechnicalValidation else AppFailbackInProgress,
                     version := expected + 1, updatedAt := end)]
    {
      if a !in apps { return Failed(ApplicationNotFound); }
      if apps[a].event !in events || Terminal(events[apps[a].event].status) { return Failed(InvalidTransition); }
      if !authorized { return Failed(AuthorizationRequired); }
      if apps[a].version != expected { return Failed(ConcurrencyConflict); }
      if apps[a].status != Recovering && apps[a].status != AppFailbackInProgress { return Failed(InvalidTransition); }
      if PendingFrom(validations, a, 0).Some? {
        assert IsPending(validations[PendingFrom(validations, a, 0).value], a);
        return Failed(InvalidTransition);
      }
      if unfinished && !reason { return Failed(TasksUnfinished); }
      if apps[a].status == Recovering {
        apps := apps[a := apps[a].(status := TechnicalValidation)];
      }
      validations := validations + [Validation(a, actor, Pending, None)];
      apps := apps[a := apps[a].(version := apps[a].version + 1, updatedAt := end)];
      r := Ok(());
    }

    method Validate(a: Id, actor: Id, approve: bool, note: bool, authorized: bool, expected: nat, now: Time, end: Time)
      returns (r: Outcome<(), Error>)
      modifies this
      ensures Did(old(View()), Call(Op.Validate(a, actor, approve, note), authorized, expected, now, end), r, View())
    {
      if a !in apps { return Failed(ApplicationNotFound); }
      if apps[a].event !in events || Terminal(events[apps[a].event].status) { return Failed(InvalidTransition); }
      if !authorized { return Failed(AuthorizationRequired); }
      if apps[a].version != expected { return Failed(ConcurrencyConflict); }
      if apps[a].status != TechnicalValidation && apps[a].status != AppFailbackInProgress { return Failed(InvalidTransition); }
      var p := PendingFrom(validations, a, 0);
      if p == None { return Failed(InvalidTransition); }
      var v := validations[p.value];
      if v.submitter == actor { return Failed(SelfValidation); }
      if !approve && !note { return Failed(NoteRequired); }
      var failback := apps[a].status == AppFailbackInProgress;
      if approve {
        apps := apps[a := apps[a].(status := if failback || !apps[a].failbackRequired then Completed else AppFailedOver)];
        if !failback {
          apps := apps[a := apps[a].(technicalValidatedAt := Some(now))];
        }
      } else if !failback {
        apps := apps[a := apps[a].(status := Recovering)];
      }
      validations := validations[p.value := v.(status := if approve then Approved else Rejected, validator := Some(actor))];
      apps := apps[a := apps[a].(version := apps[a].version + 1, updatedAt := end)];
      r := Ok(());
    }
  }
}
