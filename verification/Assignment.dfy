/** Versioned writes to one Task, and the Manager-precedence exception to them. */
module Assignment {
  import opened Prelude
  import T = TaskStates

  type Id = nat
  type Time = int

  datatype Field =
    | Title | Description | ExpectedDuration | SortOrder
    | EvidenceRequired | EvidenceMinCount | NoteRequired | SpecificValidation

  datatype Task = Task(status: T.TaskStatus, fields: map<Field, int>, assignee: Option<Id>, version: nat, updatedAt: Time)

  datatype Authority = Admin | Coordinator | WorkStreamLead | Manager | InScope | TeamMember | Volunteered

  datatype Action = Assigned | TookOn | Updated | Moved(command: T.TaskCommand) | Noted

  /** An audit row of the Task. Rows such as a recorded override carry no version. */
  datatype Change = Change(version: Option<nat>, action: Action, actor: Id, authority: Option<Authority>)

  datatype Error =
    | NotFound | UserNotFound | AuthorizationRequired | ConcurrencyConflict | NotAssignable
    | AlreadyAssigned | FieldsLocked | InvalidTransition | GuardFailed

  predicate Requirement(f: Field) {
    f == EvidenceRequired || f == EvidenceMinCount || f == NoteRequired || f == SpecificValidation
  }

  // ---- the audit trail --------------------------------------------------------------------------

  predicate After(c: Change, version: nat) {
    c.version.Some? && c.version.value > version
  }

  /** The versioned rows past a version, oldest first. */
  function ChangesAfter(audit: seq<Change>, version: nat): seq<Change> {
    if audit == [] then []
    else
      var rest := ChangesAfter(audit[..|audit| - 1], version);
      var c := audit[|audit| - 1];
      if After(c, version) then rest + [c] else rest
  }

  predicate Yields(c: Change) {
    c.action == Assigned && (c.authority == Some(Admin) || c.authority == Some(Coordinator))
  }

  /** No row of a version past this one but assignments under Admin or Coordinator authority. */
  ghost predicate OnlyYieldingSince(audit: seq<Change>, version: nat) {
    forall i :: 0 <= i < |audit| && audit[i].version.Some? && audit[i].version.value > version ==>
      audit[i].action == Assigned && (audit[i].authority == Some(Admin) || audit[i].authority == Some(Coordinator))
  }

  ghost predicate Open(status: T.TaskStatus) {
    status != T.Completed && status != T.Cancelled
  }

  /** Every version since the expected one is an assignment under Admin or Coordinator authority. */
  predicate YieldsToManager(changes: seq<Change>, expected: nat, current: nat) {
    && |changes| == current - expected
    && (forall i :: 0 <= i < |changes| ==> changes[i].version == Some(expected + 1 + i))
    && (forall i :: 0 <= i < |changes| ==> Yields(changes[i]))
  }

  /** The version the trail has reached; a Task is created at version 1. */
  ghost function Latest(audit: seq<Change>): (n: nat)
    ensures n >= 1
  {
    if audit == [] then 1
    else
      var c := audit[|audit| - 1];
      if c.version.Some? && c.version.value > 0 then c.version.value else Latest(audit[..|audit| - 1])
  }

  /** Every versioned change has exactly one row, and in order. */
  ghost predicate Gapless(audit: seq<Change>) {
    audit == [] || (
      && Gapless(audit[..|audit| - 1])
      && (audit[|audit| - 1].version.Some? ==> audit[|audit| - 1].version.value == Latest(audit[..|audit| - 1]) + 1))
  }

  lemma {:induction false} ChangesAre(audit: seq<Change>, version: nat)
    requires Gapless(audit)
    ensures var cs := ChangesAfter(audit, version);
            && (version >= 1 ==> |cs| == if version < Latest(audit) then Latest(audit) - version else 0)
            && (version == 0 ==> |cs| == Latest(audit) - 1)
            && forall i :: 0 <= i < |cs| ==> cs[i] in audit && cs[i].version == Some((if version == 0 then 1 else version) + 1 + i)
  {
    if audit != [] {
      var init := audit[..|audit| - 1];
      ChangesAre(init, version);
      assert forall c :: c in init ==> c in audit;
    }
  }

  lemma {:induction false} InChanges(audit: seq<Change>, version: nat, i: nat)
    requires i < |audit| && After(audit[i], version)
    ensures audit[i] in ChangesAfter(audit, version)
  {
    if i < |audit| - 1 {
      InChanges(audit[..|audit| - 1], version, i);
    }
  }

  /** On a gapless trail the exception comes down to: nothing but Admin and Coordinator assignments since. */
  lemma YieldsExactly(audit: seq<Change>, expected: nat)
    requires Gapless(audit)
    ensures YieldsToManager(ChangesAfter(audit, expected), expected, Latest(audit)) <==>
              1 <= expected <= Latest(audit) && OnlyYieldingSince(audit, expected)
  {
    var cs := ChangesAfter(audit, expected);
    ChangesAre(audit, expected);
    if YieldsToManager(cs, expected, Latest(audit)) {
      forall i | 0 <= i < |audit| && After(audit[i], expected)
        ensures Yields(audit[i])
      {
        InChanges(audit, expected, i);
      }
    }
    if OnlyYieldingSince(audit, expected) {
      forall k | 0 <= k < |cs|
        ensures Yields(cs[k])
      {
        var i :| 0 <= i < |audit| && audit[i] == cs[k];
        assert After(audit[i], expected);
      }
    }
  }

  // ---- the past of a Task -----------------------------------------------------------------------

  ghost predicate SameButAssignee(a: Task, b: Task) {
    a.status == b.status && a.fields == b.fields
  }

  /** `past` holds the row of every version; an assignment changed nothing but the assignee. */
  ghost predicate Recorded(audit: seq<Change>, past: map<nat, Task>) {
    && (forall v :: 1 <= v <= Latest(audit) ==> v in past && past[v].version == v)
    && forall i, v :: 0 <= i < |audit| && audit[i].version == Some(v) && v > 1 && v in past && v - 1 in past ==>
         (audit[i].action == Assigned || audit[i].action == TookOn) ==> SameButAssignee(past[v - 1], past[v])
  }

  lemma {:induction false} RowFor(audit: seq<Change>, v: nat) returns (i: nat)
    requires Gapless(audit) && 2 <= v <= Latest(audit)
    ensures i < |audit| && audit[i].version == Some(v)
  {
    i := |audit| - 1;
    if audit[i].version != Some(v) {
      i := RowFor(audit[..|audit| - 1], v);
    }
  }

  /** A stale Manager assignment loses no update: everything but the assignee is as the Manager saw it. */
  lemma {:induction false} NothingLost(audit: seq<Change>, past: map<nat, Task>, expected: nat, current: nat)
    requires Gapless(audit) && Recorded(audit, past) && 1 <= expected <= current <= Latest(audit)
    requires OnlyYieldingSince(audit, expected)
    ensures expected in past && current in past && SameButAssignee(past[expected], past[current])
  {
    if expected < current {
      NothingLost(audit, past, expected, current - 1);
      var i := RowFor(audit, current);
      assert After(audit[i], expected);
    }
  }

  lemma TrailGrows(audit: seq<Change>, past: map<nat, Task>, c: Change, row: Task)
    requires Gapless(audit) && Recorded(audit, past)
    requires c.version == Some(Latest(audit) + 1) && row.version == Latest(audit) + 1
    requires c.action == Assigned || c.action == TookOn ==> SameButAssignee(past[Latest(audit)], row)
    ensures Gapless(audit + [c]) && Latest(audit + [c]) == row.version && Recorded(audit + [c], past[row.version := row])
  {
    TrailStaysGapless(audit, c);
    VersionsBounded(audit);
  }

  lemma TrailStaysGapless(audit: seq<Change>, c: Change)
    requires Gapless(audit) && (c.version == None || c.version == Some(Latest(audit) + 1))
    ensures Gapless(audit + [c]) && Latest(audit + [c]) == if c.version.Some? then Latest(audit) + 1 else Latest(audit)
  {
    assert (audit + [c])[..|audit|] == audit;
  }

  lemma NoteKeepsTrail(audit: seq<Change>, past: map<nat, Task>, c: Change)
    requires Gapless(audit) && Recorded(audit, past) && c.version == None
    ensures Gapless(audit + [c]) && Latest(audit + [c]) == Latest(audit) && Recorded(audit + [c], past)
  {
    TrailStaysGapless(audit, c);
  }

  lemma {:induction false} VersionsBounded(audit: seq<Change>)
    requires Gapless(audit)
    ensures forall i :: 0 <= i < |audit| && audit[i].version.Some? ==> 2 <= audit[i].version.value <= Latest(audit)
  {
    if audit != [] {
      VersionsBounded(audit[..|audit| - 1]);
    }
  }

  class TaskRow {
    var status: T.TaskStatus
    var fields: map<Field, int>
    var assignee: Option<Id>
    var version: nat
    var updatedAt: Time
    var audit: seq<Change>
    /** The row as it was at every version. */
    ghost var past: map<nat, Task>

    ghost function View(): Task
      reads this
    {
      Task(status, fields, assignee, version, updatedAt)
    }

    ghost predicate Valid()
      reads this
    {
      Gapless(audit) && Latest(audit) == version && Recorded(audit, past) && version in past && past[version] == View()
    }

    constructor (given: map<Field, int>, to: Option<Id>, now: Time)
      ensures Valid() && version == 1 && audit == []
    {
      status, fields, assignee, version, updatedAt, audit := T.NotStarted, given, to, 1, now, [];
      past := map[1 := Task(T.NotStarted, given, to, 1, now)];
    }

    /** The version bump, the stamp and the one versioned audit row of a change already made to the fields. */
    method Finish(action: Action, actor: Id, authority: Option<Authority>, now: Time)
      requires Gapless(audit) && Latest(audit) == version && Recorded(audit, past) && version in past
      requires action == Assigned || action == TookOn ==> SameButAssignee(past[version], View())
      modifies this`version, this`updatedAt, this`audit, this`past
      ensures Valid() && View() == old(View()).(version := old(version) + 1, updatedAt := now)
      ensures audit == old(audit) + [Change(Some(version), action, actor, authority)]
      ensures past == old(past)[version := View()]
    {
      version := version + 1;
      updatedAt := now;
      TrailGrows(audit, past, Change(Some(version), action, actor, authority), View());
      audit := audit + [Change(Some(version), action, actor, authority)];
      past := past[version := View()];
    }

    /**
     Accepted at the expected version, or stale from the Owning Team's Manager over nothing but Admin and
     Coordinator assignments. A stale write that is accepted finds everything but the assignee as it was.
     */
    method Assign(actor: Id, to: Id, expected: nat, visible: bool, active: bool, sameTeam: bool,
                  authority: Option<Authority>, manager: bool, now: Time)
      returns (r: Outcome<(), Error>)
      requires Valid()
      modifies this
      ensures Valid()
      ensures r.Ok? <==>
                && visible && active && authority.Some? && Open(old(status))
                && (expected == old(version)
                    || (1 <= expected < old(version) && sameTeam && manager && OnlyYieldingSince(old(audit), expected)))
      ensures r.Failed? || (expected == old(version) && old(assignee) == Some(to)) ==>
                View() == old(View()) && audit == old(audit)
      ensures r.Ok? && (expected != old(version) || old(assignee) != Some(to)) ==>
                && View() == old(View()).(assignee := Some(to), version := old(version) + 1, updatedAt := now)
                && audit == old(audit) + [Change(Some(version), Assigned, actor,
                                                 if expected == old(version) then authority else Some(Manager))]
      ensures r.Ok? && expected != old(version) ==> expected in old(past) && SameButAssignee(old(past)[expected], View())
      ensures r == Failed(NotFound) <==> !visible
      ensures r == Failed(UserNotFound) <==> visible && !active
      ensures r == Failed(AuthorizationRequired) <==> visible && active && authority == None
      ensures r == Failed(ConcurrencyConflict) <==>
                && visible && active && authority.Some? && expected != old(version)
                && !(1 <= expected < old(version) && sameTeam && manager && OnlyYieldingSince(old(audit), expected))
      ensures r.Failed? && visible && active && authority.Some? ==> r.error == ConcurrencyConflict || r.error == NotAssignable
    {
      if !visible { return Failed(NotFound); }
      if !active { return Failed(UserNotFound); }
      if authority == None { return Failed(AuthorizationRequired); }
      var precedence := false;
      if version != expected {
        var changes := if expected < version then ChangesAfter(audit, expected) else [];
        YieldsExactly(audit, expected);
        if !(sameTeam && expected < version && manager && YieldsToManager(changes, expected, version)) {
          return Failed(ConcurrencyConflict);
        }
        precedence := true;
        NothingLost(audit, past, expected, version);
      }
      if T.Terminal(status) { return Failed(NotAssignable); }
      if !precedence && assignee == Some(to) { return Ok(()); }
      assignee := Some(to);
      Finish(Assigned, actor, if precedence then Some(Manager) else authority, now);
      r := Ok(());
    }

    method Volunteer(actor: Id, expected: nat, visible: bool, executor: bool, now: Time) returns (r: Outcome<(), Error>)
      requires Valid()
      modifies this
      ensures Valid()
      ensures r.Ok? <==> visible && executor && expected == old(version) && Open(old(status)) && old(assignee) == None
      ensures r == Failed(NotFound) <==> !visible
      ensures r == Failed(AuthorizationRequired) <==> visible && !executor
      ensures r == Failed(ConcurrencyConflict) <==> visible && executor && expected != old(version)
      ensures r == Failed(NotAssignable) <==> visible && executor && expected == old(version) && !Open(old(status))
      ensures r.Failed? && visible && executor && expected == old(version) && Open(old(status)) ==> r.error == AlreadyAssigned
      ensures r.Failed? ==> View() == old(View()) && audit == old(audit)
      ensures r.Ok? ==>
                && View() == old(View()).(assignee := Some(actor), version := old(version) + 1, updatedAt := now)
                && audit == old(audit) + [Change(Some(version), TookOn, actor, Some(Volunteered))]
    {
      if !visible { return Failed(NotFound); }
      if !executor { return Failed(AuthorizationRequired); }
      if version != expected { return Failed(ConcurrencyConflict); }
      if T.Terminal(status) { return Failed(NotAssignable); }
      if assignee.Some? { return Failed(AlreadyAssigned); }
      assignee := Some(actor);
      Finish(TookOn, actor, Some(Volunteered), now);
      r := Ok(());
    }

    /** Values equal to the current ones are dropped; nothing left means no write and no version. */
    method UpdateMetadata(actor: Id, changes: map<Field, int>, expected: nat, visible: bool, authorized: bool, now: Time)
      returns (r: Outcome<(), Error>)
      requires Valid()
      modifies this
      ensures Valid()
      ensures r.Ok? <==> visible && authorized && expected == old(version) && Open(old(status))
                         && (old(status) == T.ReadyForValidation ==>
                               forall f :: f in changes ==>
                                 f != EvidenceRequired && f != EvidenceMinCount && f != NoteRequired && f != SpecificValidation)
      ensures r == Failed(NotFound) <==> !visible
      ensures r == Failed(AuthorizationRequired) <==> visible && !authorized
      ensures r == Failed(ConcurrencyConflict) <==> visible && authorized && expected != old(version)
      ensures r.Failed? && visible && authorized && expected == old(version) ==> r.error == FieldsLocked
      ensures fields == if r.Ok? then old(fields) + changes else old(fields)
      ensures fields == old(fields) ==> View() == old(View()) && audit == old(audit)
      ensures fields != old(fields) ==>
                && View() == old(View()).(fields := fields, version := old(version) + 1, updatedAt := now)
                && audit == old(audit) + [Change(Some(version), Updated, actor, None)]
    {
      if !visible { return Failed(NotFound); }
      if !authorized { return Failed(AuthorizationRequired); }
      if version != expected { return Failed(ConcurrencyConflict); }
      if T.Terminal(status) { return Failed(FieldsLocked); }
      if status == T.ReadyForValidation && exists f <- changes :: Requirement(f) { return Failed(FieldsLocked); }
      var changed := map f | f in changes && !(f in fields && fields[f] == changes[f]) :: changes[f];
      r := Ok(());
      assert fields + changes == fields + changed;
      if changed == map[] {
        assert fields + changed == fields;
        return;
      }
      var f :| f in changed;
      assert (fields + changed)[f] == changed[f];
      fields := fields + changed;
      Finish(Updated, actor, None, now);
    }

    /**
     A lifecycle command: it moves the status and nothing else. `guarded` says that its own guards hold
     (readiness or override, reason, evidence and note, validator), which come after legality.
     */
    method ChangeStatus(actor: Id, command: T.TaskCommand, expected: nat, visible: bool, authorized: bool, guarded: bool, now: Time)
      returns (r: Outcome<(), Error>)
      requires Valid()
      modifies this
      ensures Valid()
      ensures r.Ok? <==> visible && authorized && expected == old(version) && T.Legal(command, old(status)) && guarded
      ensures r == Failed(NotFound) <==> !visible
      ensures r == Failed(AuthorizationRequired) <==> visible && !authorized
      ensures r == Failed(ConcurrencyConflict) <==> visible && authorized && expected != old(version)
      ensures r == Failed(InvalidTransition) <==>
                visible && authorized && expected == old(version) && !T.Legal(command, old(status))
      ensures r == Failed(GuardFailed) <==>
                visible && authorized && expected == old(version) && T.Legal(command, old(status)) && !guarded
      ensures r.Failed? ==> View() == old(View()) && audit == old(audit)
      ensures r.Ok? ==>
                && View() == old(View()).(status := T.Target(command), version := old(version) + 1, updatedAt := now)
                && audit == old(audit) + [Change(Some(version), Moved(command), actor, None)]
    {
      if !visible { return Failed(NotFound); }
      if !authorized { return Failed(AuthorizationRequired); }
      if version != expected { return Failed(ConcurrencyConflict); }
      if !T.Legal(command, status) { return Failed(InvalidTransition); }
      if !guarded { return Failed(GuardFailed); }
      status := T.Target(command);
      Finish(Moved(command), actor, None, now);
      r := Ok(());
    }

    /** A Task audit row without a version, such as a recorded override: the exception never sees it. */
    method Note(actor: Id)
      requires Valid()
      modifies this`audit
      ensures Valid() && audit == old(audit) + [Change(None, Noted, actor, None)]
    {
      NoteKeepsTrail(audit, past, Change(None, Noted, actor, None));
      audit := audit + [Change(None, Noted, actor, None)];
    }
  }
}
