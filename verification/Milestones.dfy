/**
 A Milestone's status as a cache over its contributing Tasks: the pure derivation, the row changes
 `recompute`, `confirm` and `miss` make, and the loops that apply them in id order.
 */
module Milestones {
  import opened Prelude
  import T = TaskStates

  type Id = nat
  type Time = int

  datatype Status = NotStarted | InProgress | AtRisk | ReadyForConfirmation | Achieved | Missed

  datatype Mode = Manual | Automatic

  /** `autoConfirmed` is what the MILESTONE_ACHIEVED audit row records. */
  datatype Milestone = Milestone(
    status: Status, mode: Mode, targetAt: Option<Time>, version: nat,
    readyAt: Option<Time>, achievedAt: Option<Time>, autoConfirmed: bool)

  /** A contributing Task's status, and whether the Milestone requires it. */
  type Contributors = seq<(T.TaskStatus, bool)>

  predicate Terminal(s: Status) {
    s == Achieved || s == Missed
  }

  predicate AllRequiredDone(cs: Contributors) {
    forall i :: 0 <= i < |cs| && cs[i].1 ==> cs[i].0 == T.Completed
  }

  predicate SomeRequired(cs: Contributors) {
    exists i :: 0 <= i < |cs| && cs[i].1
  }

  predicate SomeRequiredBlocked(cs: Contributors) {
    exists i :: 0 <= i < |cs| && cs[i].1 && cs[i].0 == T.Blocked
  }

  predicate SomeMoved(cs: Contributors) {
    exists i :: 0 <= i < |cs| && cs[i].0 != T.NotStarted
  }

  predicate DerivedLegal(from: Status, to: Status) {
    match from
    case NotStarted => to == InProgress || to == AtRisk || to == ReadyForConfirmation
    case InProgress => to == AtRisk || to == ReadyForConfirmation
    case AtRisk => to == InProgress || to == ReadyForConfirmation
    case ReadyForConfirmation => false
    case Achieved => false
    case Missed => false
  }

  /** Where the contributing Tasks put a Milestone that is `current`. */
  function DeriveTarget(current: Status, cs: Contributors): Status {
    var target :=
      if AllRequiredDone(cs) then ReadyForConfirmation
      else if SomeRequiredBlocked(cs) then AtRisk
      else if SomeMoved(cs) then InProgress
      else NotStarted;
    if DerivedLegal(current, target) then target else current
  }

  /** What the derivation asks of the contributors, without its own vocabulary. */
  ghost predicate Finished(cs: Contributors) {
    forall i :: 0 <= i < |cs| && cs[i].1 ==> cs[i].0 == T.Completed
  }

  ghost predicate HeldUp(cs: Contributors) {
    exists i :: 0 <= i < |cs| && cs[i].1 && cs[i].0 == T.Blocked
  }

  ghost predicate Begun(cs: Contributors) {
    exists i :: 0 <= i < |cs| && cs[i].0 != T.NotStarted
  }

  /**
   The derived status, each one exactly: READY when every required Task is COMPLETED, AT_RISK when one is BLOCKED,
   IN_PROGRESS once any has moved. With none of these an open status stays; the others always do.
   */
  lemma DerivedIs(s: Status, cs: Contributors)
    ensures s == ReadyForConfirmation || s == Achieved || s == Missed ==> DeriveTarget(s, cs) == s
    ensures s == NotStarted || s == InProgress || s == AtRisk ==>
              && (DeriveTarget(s, cs) == ReadyForConfirmation <==> Finished(cs))
              && (DeriveTarget(s, cs) == AtRisk <==> !Finished(cs) && (HeldUp(cs) || (s == AtRisk && !Begun(cs))))
              && (DeriveTarget(s, cs) == InProgress <==> !Finished(cs) && !HeldUp(cs) && (Begun(cs) || s == InProgress))
              && (DeriveTarget(s, cs) == NotStarted <==> !Finished(cs) && !HeldUp(cs) && !Begun(cs) && s == NotStarted)
  {
  }

  /** Deriving twice is deriving once: a recomputed status is up to date. */
  lemma DeriveIsStable(current: Status, cs: Contributors)
    ensures DeriveTarget(DeriveTarget(current, cs), cs) == DeriveTarget(current, cs)
  {
  }

  /**
   Exactly what an up-to-date open Milestone says about its Tasks: it is waiting for confirmation or some
   required Task is unfinished; it is at risk if a required Task is blocked, and if it still says
   NOT_STARTED then no Task has moved.
   */
  lemma StableMeans(s: Status, cs: Contributors)
    requires s == NotStarted || s == InProgress || s == AtRisk
    ensures DeriveTarget(s, cs) == s <==>
            && !AllRequiredDone(cs)
            && (SomeRequiredBlocked(cs) ==> s == AtRisk)
            && (s == NotStarted ==> !SomeMoved(cs))
            && (s == AtRisk && SomeMoved(cs) ==> SomeRequiredBlocked(cs))
  {
  }

  /** The row after `recompute` under the row lock. */
  function Recomputed(m: Milestone, cs: Contributors, autoAllowed: bool, now: Time): Milestone {
    if Terminal(m.status) then m
    else
      var target := DeriveTarget(m.status, cs);
      var derived :=
        if target == m.status then m
        else m.(status := target, version := m.version + 1,
                readyAt := if target == ReadyForConfirmation then Some(now) else m.readyAt);
      if derived.status == ReadyForConfirmation && m.mode == Automatic && SomeRequired(cs) && autoAllowed then
        derived.(status := Achieved, version := derived.version + 1, achievedAt := Some(now), autoConfirmed := true)
      else derived
  }

  function Confirmed(m: Milestone, now: Time): Milestone {
    m.(status := Achieved, version := m.version + 1, achievedAt := Some(now), autoConfirmed := false)
  }

  function MissedRow(m: Milestone): Milestone {
    m.(status := Missed, version := m.version + 1)
  }

  /** The status is current, and READY or ACHIEVED was earned. */
  ghost predicate Sound(m: Milestone, cs: Contributors) {
    && DeriveTarget(m.status, cs) == m.status
    && (m.status == ReadyForConfirmation || m.status == Achieved ==> AllRequiredDone(cs))
    && (m.autoConfirmed ==> m.status == Achieved && SomeRequired(cs))
  }

  /** What a row must satisfy before its contributors move; their finished Tasks stay finished. */
  ghost predicate Earned(m: Milestone, cs: Contributors) {
    && (m.status == ReadyForConfirmation || m.status == Achieved ==> AllRequiredDone(cs))
    && (m.autoConfirmed ==> m.status == Achieved && SomeRequired(cs))
  }

  /** Up to date, and not missed: READY or ACHIEVED exactly when every required Task is COMPLETED. */
  lemma SoundMeans(m: Milestone, cs: Contributors)
    requires Sound(m, cs) && m.status != Missed
    ensures m.status == ReadyForConfirmation || m.status == Achieved <==> Finished(cs)
  {
    DerivedIs(m.status, cs);
  }

  lemma RecomputedIsSound(m: Milestone, cs: Contributors, autoAllowed: bool, now: Time)
    requires Earned(m, cs)
    ensures Sound(Recomputed(m, cs, autoAllowed, now), cs)
    ensures Terminal(m.status) ==> Recomputed(m, cs, autoAllowed, now) == m
    ensures Recomputed(m, cs, autoAllowed, now).version >= m.version
    ensures Recomputed(m, cs, autoAllowed, now) == m <==> Recomputed(m, cs, autoAllowed, now).version == m.version
  {
  }

  /**
   A row and what re-deriving it may leave: READY is entered when every required Task is COMPLETED, ACHIEVED in the
   same breath if confirmation is automatic and something is required, each stamped then and only then.
   */
  ghost predicate Progressed(m: Milestone, after: Milestone, cs: Contributors, autoAllowed: bool, now: Time) {
    var ready := m.status == ReadyForConfirmation || Finished(cs);
    var auto := m.mode == Automatic && autoAllowed && exists i :: 0 <= i < |cs| && cs[i].1;
    && after.mode == m.mode && after.targetAt == m.targetAt
    && if m.status == Achieved || m.status == Missed then after == m
       else
         && after.status != Missed
         && (after.status == Achieved <==> ready && auto)
         && (after.status == ReadyForConfirmation <==> ready && !auto)
         && (after.status == AtRisk <==> !ready && (HeldUp(cs) || (m.status == AtRisk && !Begun(cs))))
         && (after.status == NotStarted <==> !ready && !HeldUp(cs) && !Begun(cs) && m.status == NotStarted)
         && after.readyAt == (if ready && m.status != ReadyForConfirmation then Some(now) else m.readyAt)
         && after.achievedAt == (if after.status == Achieved then Some(now) else m.achievedAt)
         && after.autoConfirmed == (after.status == Achieved || m.autoConfirmed)
         && after.version == m.version + (if after.status == m.status then 0 else 1)
                             + (if after.status == Achieved && m.status != ReadyForConfirmation then 1 else 0)
  }

  lemma RecomputedProgresses(m: Milestone, cs: Contributors, autoAllowed: bool, now: Time)
    ensures Progressed(m, Recomputed(m, cs, autoAllowed, now), cs, autoAllowed, now)
  {
    DerivedIs(m.status, cs);
  }

  ghost function Swept(ms: map<Id, Milestone>, missed: seq<Id>): map<Id, Milestone> {
    map m | m in ms :: if m in missed then ms[m].(status := Missed, version := ms[m].version + 1) else ms[m]
  }

  datatype MilestoneError =
    | MilestoneNotFound | AuthorizationRequired | ConcurrencyConflict | InvalidTransition | AutoConfirmNotAllowed
    | TaskNotFound | NotAdmitted

  /** A contribution: the Task and whether it is required. */
  type Contribution = (Id, bool)

  function StatesOf(contributions: seq<Contribution>, tasks: map<Id, T.TaskStatus>): (cs: Contributors)
    requires forall i :: 0 <= i < |contributions| ==> contributions[i].0 in tasks
    ensures |cs| == |contributions|
    ensures forall i :: 0 <= i < |cs| ==> cs[i] == (tasks[contributions[i].0], contributions[i].1)
  {
    seq(|contributions|, i requires 0 <= i < |contributions| => (tasks[contributions[i].0], contributions[i].1))
  }

  predicate ContributesTo(task: Id, contributions: seq<Contribution>) {
    exists i :: 0 <= i < |contributions| && contributions[i].0 == task
  }

  /** A status written to a Task that does not contribute changes nothing. */
  lemma OtherTasksDoNotMatter(contributions: seq<Contribution>, tasks: map<Id, T.TaskStatus>, task: Id, s: T.TaskStatus)
    requires forall i :: 0 <= i < |contributions| ==> contributions[i].0 in tasks
    requires !ContributesTo(task, contributions)
    ensures StatesOf(contributions, tasks[task := s]) == StatesOf(contributions, tasks)
  {
  }

  /** A legal Task move never takes back what a Milestone has earned. */
  lemma MovesKeepEarned(m: Milestone, contributions: seq<Contribution>, tasks: map<Id, T.TaskStatus>, task: Id, c: T.TaskCommand)
    requires forall i :: 0 <= i < |contributions| ==> contributions[i].0 in tasks
    requires task in tasks && T.Legal(c, tasks[task]) && Earned(m, StatesOf(contributions, tasks))
    ensures Earned(m, StatesOf(contributions, tasks[task := T.Target(c)]))
  {
    var before, after := StatesOf(contributions, tasks), StatesOf(contributions, tasks[task := T.Target(c)]);
    if AllRequiredDone(before) {
      forall i | 0 <= i < |after| && after[i].1
        ensures after[i].0 == T.Completed
      {
        assert before[i].1 && before[i].0 == T.Completed;
      }
    }
    if SomeRequired(before) {
      var i :| 0 <= i < |before| && before[i].1;
      assert after[i].1;
    }
  }

  function NewMilestone(mode: Mode, targetAt: Option<Time>): Milestone {
    Milestone(NotStarted, mode, targetAt, 1, None, None, false)
  }

  /** The longer overdue one, by id among equals. */
  ghost predicate DueBefore(ms: map<Id, Milestone>, x: Id, y: Id) {
    && x in ms && y in ms && ms[x].targetAt.Some? && ms[y].targetAt.Some?
    && (ms[x].targetAt.value < ms[y].targetAt.value || (ms[x].targetAt.value == ms[y].targetAt.value && x < y))
  }

  /** Its target has come and it is neither ACHIEVED nor MISSED. */
  ghost predicate PastTarget(ms: map<Id, Milestone>, id: Id, now: Time) {
    && id in ms && ms[id].targetAt.Some? && ms[id].targetAt.value <= now
    && ms[id].status != Achieved && ms[id].status != Missed
  }

  class MilestoneStore {
    var tasks: map<Id, T.TaskStatus>
    var milestones: map<Id, Milestone>
    var contributions: map<Id, seq<Contribution>>

    ghost predicate WellFormed()
      reads this
    {
      && contributions.Keys == milestones.Keys
      && forall m, i :: m in contributions && 0 <= i < |contributions[m]| ==> contributions[m][i].0 in tasks
    }

    /** Every Milestone's stored status is the one its Tasks derive. */
    ghost predicate UpToDate()
      reads this
    {
      WellFormed() && forall m :: m in milestones ==> Sound(milestones[m], StatesOf(contributions[m], tasks))
    }

    constructor ()
      ensures UpToDate() && tasks == map[] && milestones == map[] && contributions == map[]
    {
      tasks, milestones, contributions := map[], map[], map[];
    }

    method Recompute(id: Id, autoAllowed: bool, now: Time)
      requires WellFormed()
      modifies this`milestones
      ensures milestones == if id in old(milestones)
                            then old(milestones)[id := Recomputed(old(milestones)[id], StatesOf(contributions[id], tasks), autoAllowed, now)]
                            else old(milestones)
    {
      if id !in milestones || Terminal(milestones[id].status) {
        assert id in milestones ==> milestones[id := milestones[id]] == milestones;
        return;
      }
      var m := milestones[id];
      var cs := StatesOf(contributions[id], tasks);
      var target := DeriveTarget(m.status, cs);
      if target != m.status {
        m := m.(status := target);
        if target == ReadyForConfirmation {
          m := m.(readyAt := Some(now));
        }
        m := m.(version := m.version + 1);
      }
      if m.status == ReadyForConfirmation && target == ReadyForConfirmation && m.mode == Automatic
         && SomeRequired(cs) && autoAllowed {
        m := m.(status := Achieved, achievedAt := Some(now), autoConfirmed := true);
        m := m.(version := m.version + 1);
      }
      milestones := milestones[id := m];
    }

    /** A new Milestone, derived from its Tasks at once. AUTOMATIC mode needs the policy to allow it. */
    method Create(id: Id, mode: Mode, targetAt: Option<Time>, from: seq<Contribution>, autoAllowed: bool, now: Time)
      returns (r: Outcome<Milestone, MilestoneError>)
      requires UpToDate() && id !in milestones
      requires forall i :: 0 <= i < |from| ==> from[i].0 in tasks
      modifies this`milestones, this`contributions
      ensures UpToDate()
      ensures r.Ok? <==> mode == Automatic ==> autoAllowed
      ensures r.Failed? ==> milestones == old(milestones) && contributions == old(contributions)
      ensures r.Ok? ==> contributions == old(contributions)[id := from]
      ensures r.Ok? ==> milestones == old(milestones)[id := r.value]
      ensures r.Ok? ==> Progressed(Milestone(NotStarted, mode, targetAt, 1, None, None, false), r.value, StatesOf(from, tasks),
                                   autoAllowed, now)
    {
      if mode == Automatic && !autoAllowed {
        return Failed(AutoConfirmNotAllowed);
      }
      var m := NewMilestone(mode, targetAt);
      milestones := milestones[id := m];
      contributions := contributions[id := from];
      Recompute(id, autoAllowed, now);
      RecomputedProgresses(m, StatesOf(from, tasks), autoAllowed, now);
      RecomputedIsSound(m, StatesOf(from, tasks), autoAllowed, now);
      return Ok(milestones[id]);
    }

    method MilestoneIdsForTask(task: Id) returns (ids: seq<Id>)
      requires WellFormed()
      ensures T.Ascending(ids)
      ensures forall m :: m in ids <==> m in milestones && exists i :: 0 <= i < |contributions[m]| && contributions[m][i].0 == task
    {
      ids := T.SortedIds(set m | m in milestones && ContributesTo(task, contributions[m]));
    }

    /**
     Re-derives, in id order, just the Milestones this Task contributes to. If only this Task's status moved
     since the store was up to date, the whole store is up to date again.
     */
    method OnTaskChanged(task: Id, autoAllowed: map<Id, bool>, now: Time)
      requires WellFormed()
      requires forall m :: m in milestones ==> Earned(milestones[m], StatesOf(contributions[m], tasks))
      requires forall m :: m in milestones && !ContributesTo(task, contributions[m])
                 ==> Sound(milestones[m], StatesOf(contributions[m], tasks))
      modifies this`milestones
      ensures UpToDate()
      ensures milestones.Keys == old(milestones).Keys
      ensures forall m :: m in milestones ==>
                milestones[m] == if ContributesTo(task, contributions[m])
                                 then Recomputed(old(milestones)[m], StatesOf(contributions[m], tasks), m in autoAllowed && autoAllowed[m], now)
                                 else old(milestones)[m]
    {
      var ids := MilestoneIdsForTask(task);
      for i := 0 to |ids|
        invariant milestones.Keys == old(milestones).Keys
        invariant forall m :: m in milestones ==>
                    milestones[m] == if m in ids[..i]
                                     then Recomputed(old(milestones)[m], StatesOf(contributions[m], tasks), m in autoAllowed && autoAllowed[m], now)
                                     else old(milestones)[m]
      {
        Recompute(ids[i], ids[i] in autoAllowed && autoAllowed[ids[i]], now);
        assert ids[..i + 1] == ids[..i] + [ids[i]];
        assert ids[i] !in ids[..i];
      }
      assert ids[..|ids|] == ids;
      forall m | m in milestones
        ensures Sound(milestones[m], StatesOf(contributions[m], tasks))
      {
        assert m in ids <==> ContributesTo(task, contributions[m]);
        if m in ids {
          RecomputedIsSound(old(milestones)[m], StatesOf(contributions[m], tasks), m in autoAllowed && autoAllowed[m], now);
        }
      }
    }

    /**
     A Task command, status write and re-derivation in one transaction. `admitted` stands for its authority,
     version and own guards (readiness, reason, evidence, validator), which this store does not hold.
     */
    method ChangeTask(task: Id, command: T.TaskCommand, admitted: bool, autoAllowed: map<Id, bool>, now: Time)
      returns (r: Outcome<T.TaskStatus, MilestoneError>)
      requires UpToDate()
      modifies this`tasks, this`milestones
      ensures UpToDate()
      ensures r.Ok? <==> task in old(tasks) && admitted && T.Legal(command, old(tasks)[task])
      ensures r == Failed(TaskNotFound) <==> task !in old(tasks)
      ensures r == Failed(NotAdmitted) <==> task in old(tasks) && !admitted
      ensures r.Ok? ==> tasks == old(tasks)[task := T.Target(command)] && r.value == T.Target(command)
      ensures r.Failed? ==> tasks == old(tasks) && milestones == old(milestones)
      ensures milestones.Keys == old(milestones).Keys
      ensures forall m :: m in milestones && (forall i :: 0 <= i < |contributions[m]| ==> contributions[m][i].0 != task) ==>
                milestones[m] == old(milestones)[m]
      ensures r.Ok? ==> forall m :: m in milestones && (exists i :: 0 <= i < |contributions[m]| && contributions[m][i].0 == task) ==>
                Progressed(old(milestones)[m], milestones[m], StatesOf(contributions[m], tasks), m in autoAllowed && autoAllowed[m], now)
      ensures r.Ok? ==> forall m :: m in milestones && old(milestones)[m].status != Missed ==>
                (milestones[m].status == ReadyForConfirmation || milestones[m].status == Achieved
                 <==> Finished(StatesOf(contributions[m], tasks)))
    {
      if task !in tasks {
        return Failed(TaskNotFound);
      }
      if !admitted {
        return Failed(NotAdmitted);
      }
      if !T.Legal(command, tasks[task]) {
        return Failed(InvalidTransition);
      }
      forall m | m in milestones
        ensures Earned(milestones[m], StatesOf(contributions[m], tasks[task := T.Target(command)]))
        ensures !ContributesTo(task, contributions[m]) ==>
                  Sound(milestones[m], StatesOf(contributions[m], tasks[task := T.Target(command)]))
      {
        MovesKeepEarned(milestones[m], contributions[m], tasks, task, command);
        if !ContributesTo(task, contributions[m]) {
          OtherTasksDoNotMatter(contributions[m], tasks, task, T.Target(command));
        }
      }
      tasks := tasks[task := T.Target(command)];
      OnTaskChanged(task, autoAllowed, now);
      forall m | m in milestones && milestones[m].status != Missed
        ensures milestones[m].status == ReadyForConfirmation || milestones[m].status == Achieved
                <==> Finished(StatesOf(contributions[m], tasks))
      {
        SoundMeans(milestones[m], StatesOf(contributions[m], tasks));
      }
      forall m | m in milestones
        ensures Progressed(old(milestones)[m], Recomputed(old(milestones)[m], StatesOf(contributions[m], tasks),
                                                          m in autoAllowed && autoAllowed[m], now),
                           StatesOf(contributions[m], tasks), m in autoAllowed && autoAllowed[m], now)
      {
        RecomputedProgresses(old(milestones)[m], StatesOf(contributions[m], tasks), m in autoAllowed && autoAllowed[m], now);
      }
      return Ok(T.Target(command));
    }

    /** READY_FOR_CONFIRMATION -> ACHIEVED by a person. */
    method Confirm(id: Id, expectedVersion: nat, authorized: bool, now: Time) returns (r: Outcome<Milestone, MilestoneError>)
      requires UpToDate()
      modifies this`milestones
      ensures UpToDate()
      ensures r.Ok? <==> id in old(milestones) && authorized && old(milestones)[id].version == expectedVersion
                         && old(milestones)[id].status == ReadyForConfirmation
      ensures r == Failed(MilestoneNotFound) <==> id !in old(milestones)
      ensures r == Failed(AuthorizationRequired) <==> id in old(milestones) && !authorized
      ensures r == Failed(ConcurrencyConflict) <==> id in old(milestones) && authorized && old(milestones)[id].version != expectedVersion
      ensures r.Ok? ==> r.value == old(milestones)[id].(status := Achieved, achievedAt := Some(now), autoConfirmed := false,
                                                        version := expectedVersion + 1)
                        && milestones == old(milestones)[id := r.value]
      ensures r.Failed? ==> milestones == old(milestones)
    {
      if id !in milestones {
        return Failed(MilestoneNotFound);
      }
      if !authorized {
        return Failed(AuthorizationRequired);
      }
      if milestones[id].version != expectedVersion {
        return Failed(ConcurrencyConflict);
      }
      if milestones[id].status != ReadyForConfirmation {
        return Failed(InvalidTransition);
      }
      var m := milestones[id].(status := Achieved, achievedAt := Some(now), autoConfirmed := false);
      m := m.(version := m.version + 1);
      milestones := milestones[id := m];
      return Ok(m);
    }

    method Miss(id: Id) returns (r: Outcome<Milestone, MilestoneError>)
      requires UpToDate()
      modifies this`milestones
      ensures UpToDate()
      ensures r.Ok? <==> id in old(milestones) && old(milestones)[id].status != Achieved && old(milestones)[id].status != Missed
      ensures r == Failed(MilestoneNotFound) <==> id !in old(milestones)
      ensures r.Ok? ==> r.value == old(milestones)[id].(status := Missed, version := old(milestones)[id].version + 1)
                        && milestones == old(milestones)[id := r.value]
      ensures r.Failed? ==> milestones == old(milestones)
    {
      if id !in milestones {
        return Failed(MilestoneNotFound);
      }
      if Terminal(milestones[id].status) {
        return Failed(InvalidTransition);
      }
      var m := milestones[id].(status := Missed);
      m := m.(version := m.version + 1);
      milestones := milestones[id := m];
      return Ok(m);
    }

    predicate Overdue(id: Id, now: Time)
      reads this
    {
      id in milestones && milestones[id].targetAt.Some? && milestones[id].targetAt.value <= now && !Terminal(milestones[id].status)
    }

    function TargetOf(id: Id): Time
      reads this
    {
      if id in milestones && milestones[id].targetAt.Some? then milestones[id].targetAt.value else 0
    }

    /** `ORDER BY target_at, id`. */
    predicate Sooner(a: Id, b: Id)
      reads this
    {
      TargetOf(a) < TargetOf(b) || (TargetOf(a) == TargetOf(b) && a < b)
    }

    method Soonest(ids: set<Id>, now: Time) returns (id: Id)
      requires ids != {} && forall x :: x in ids ==> Overdue(x, now)
      ensures id in ids && forall x :: x in ids && x != id ==> Sooner(id, x)
    {
      id :| id in ids;
      var rest := ids - {id};
      while rest != {}
        invariant rest <= ids && id in ids && id !in rest
        invariant forall x :: x in ids && x !in rest && x != id ==> Sooner(id, x)
        decreases rest
      {
        var x :| x in rest;
        rest := rest - {x};
        if Sooner(x, id) {
          id := x;
        }
      }
    }

    /** At most `limit` overdue ids, the longest overdue ones. */
    method OverdueIds(now: Time, limit: nat) returns (ids: set<Id>)
      ensures forall x :: x in ids ==> PastTarget(milestones, x, now)
      ensures |ids| <= limit
      ensures |ids| < limit ==> forall x :: PastTarget(milestones, x, now) ==> x in ids
      ensures forall x, y :: x in ids && PastTarget(milestones, y, now) && y !in ids ==> DueBefore(milestones, x, y)
    {
      var rest := set x | x in milestones && Overdue(x, now);
      ids := {};
      while rest != {} && |ids| < limit
        invariant forall x :: x in ids ==> Overdue(x, now) && x !in rest
        invariant forall x :: x in rest ==> Overdue(x, now)
        invariant forall x :: Overdue(x, now) ==> x in ids || x in rest
        invariant |ids| <= limit
        invariant forall x, y :: x in ids && y in rest ==> Sooner(x, y)
        decreases rest
      {
        var next := Soonest(rest, now);
        ids := ids + {next};
        rest := rest - {next};
      }
    }

    /** Marks each listed Milestone MISSED, one row at a time. */
    method MissAll(ids: seq<Id>) returns (missed: seq<Id>)
      requires UpToDate() && T.Ascending(ids)
      requires forall x :: x in ids ==> x in milestones && !Terminal(milestones[x].status)
      modifies this`milestones
      ensures UpToDate() && missed == ids && milestones == Swept(old(milestones), ids)
    {
      missed := [];
      NothingSwept(milestones);
      for i := 0 to |ids|
        invariant UpToDate() && missed == ids[..i] && milestones == Swept(old(milestones), ids[..i])
      {
        SweptOneMore(old(milestones), ids, i);
        var r := Miss(ids[i]);
        if r.Failed? {
          continue;
        }
        missed := missed + [ids[i]];
      }
      assert ids[..|ids|] == ids;
    }

    /** The MISSED sweep: selects by target, locks and writes in id order. */
    method SweepMissed(now: Time) returns (missed: seq<Id>)
      requires UpToDate()
      modifies this`milestones
      ensures UpToDate()
      ensures T.Ascending(missed) && |missed| <= 500
      ensures forall x :: x in missed ==> PastTarget(old(milestones), x, now)
      ensures |missed| < 500 ==> forall x :: PastTarget(old(milestones), x, now) ==> x in missed
      ensures forall x, y :: x in missed && PastTarget(old(milestones), y, now) && y !in missed ==> DueBefore(old(milestones), x, y)
      ensures milestones == Swept(old(milestones), missed)
    {
      var due := OverdueIds(now, 500);
      var ids := T.SortedIds(due);
      AscendingSize(ids, due);
      missed := MissAll(ids);
    }
  }

  lemma NothingSwept(ms: map<Id, Milestone>)
    ensures Swept(ms, []) == ms
  {
  }

  lemma SweptOneMore(ms: map<Id, Milestone>, ids: seq<Id>, i: nat)
    requires T.Ascending(ids) && i < |ids| && ids[i] in ms
    ensures ids[i] in ids && ids[..i + 1] == ids[..i] + [ids[i]]
    ensures Swept(ms, ids[..i])[ids[i]] == ms[ids[i]]
    ensures Swept(ms, ids[..i + 1]) == Swept(ms, ids[..i])[ids[i] := ms[ids[i]].(status := Missed, version := ms[ids[i]].version + 1)]
  {
    assert ids[..i + 1] == ids[..i] + [ids[i]];
    assert ids[i] !in ids[..i];
  }

  /** A strictly ascending list is as long as the set it lists. */
  lemma {:induction false} AscendingSize(s: seq<Id>, ids: set<Id>)
    requires T.Ascending(s) && forall x :: x in s <==> x in ids
    ensures |s| == |ids|
    decreases |s|
  {
    if s == [] {
      assert ids == {};
    } else {
      var last := s[|s| - 1];
      AscendingSize(s[..|s| - 1], ids - {last});
    }
  }
}
