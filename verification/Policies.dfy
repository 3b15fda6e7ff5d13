/** The append-only policy store: one active row for each definition and scope, and what `resolve` makes of it. */
module Policies {
  import opened Prelude

  type Id = nat
  type Time = int
  type Value = int

  datatype ScopeKind = Application | WorkStream | DrEvent | Global

  datatype Scope = Scope(kind: ScopeKind, id: Option<Id>)

  datatype Row = Row(definition: Id, scope: Scope, value: Value, supersededAt: Option<Time>)

  datatype Definition = Definition(id: Id, default: Value)

  datatype Write = Write(definition: Id, scope: Scope, value: Value)

  datatype Error = AuthorizationRequired | KeyNotConfigurable | KeyNotFound

  const LOCKED_KEY: string := "readiness.dependency_graph_acyclic"

  // ---- rows against the history of writes -------------------------------------------------------

  /** The value last written to a definition and scope. */
  ghost function Last(log: seq<Write>, d: Id, scope: Scope): Option<Value> {
    if log == [] then None
    else
      var w := log[|log| - 1];
      if w.definition == d && w.scope == scope then Some(w.value) else Last(log[..|log| - 1], d, scope)
  }

  /** `v` is the last value that any write in the history gave this definition and scope. */
  ghost predicate LastGiven(log: seq<Write>, d: Id, scope: Scope, v: Value) {
    exists i :: 0 <= i < |log| && log[i] == Write(d, scope, v) && forall j :: i < j < |log| ==> log[j].definition != d || log[j].scope != scope
  }

  ghost predicate NeverGiven(log: seq<Write>, d: Id, scope: Scope) {
    forall i :: 0 <= i < |log| ==> log[i].definition != d || log[i].scope != scope
  }

  lemma {:induction false} LastIs(log: seq<Write>, d: Id, scope: Scope)
    ensures match Last(log, d, scope)
            case None => NeverGiven(log, d, scope)
            case Some(v) => LastGiven(log, d, scope, v)
  {
    if log != [] {
      var front, w := log[..|log| - 1], log[|log| - 1];
      LastIs(front, d, scope);
      if w.definition == d && w.scope == scope {
        assert log[|log| - 1] == Write(d, scope, w.value);
      } else if Last(front, d, scope).Some? {
        var i :| 0 <= i < |front| && front[i] == Write(d, scope, Last(front, d, scope).value)
                 && forall j :: i < j < |front| ==> front[j].definition != d || front[j].scope != scope;
        assert log[i] == front[i] && forall j :: i < j < |front| ==> log[j] == front[j];
      }
    }
  }

  predicate Active(rows: map<Id, Row>, id: Id, d: Id, scope: Scope) {
    id in rows && rows[id].definition == d && rows[id].scope == scope && rows[id].supersededAt == None
  }

  /** The slot's one active row, if any, carries the last value written to it. */
  ghost predicate SlotOk(rows: map<Id, Row>, log: seq<Write>, d: Id, scope: Scope) {
    && (forall id, other :: Active(rows, id, d, scope) && Active(rows, other, d, scope) ==> id == other)
    && match Last(log, d, scope)
       case None => forall id :: !Active(rows, id, d, scope)
       case Some(v) => exists id :: Active(rows, id, d, scope) && rows[id].value == v
  }

  ghost predicate Agrees(rows: map<Id, Row>, log: seq<Write>) {
    forall d, scope :: SlotOk(rows, log, d, scope)
  }

  /** One new row for the write; what was active in its slot is superseded now; every other row is as before. */
  ghost predicate Replaced(before: map<Id, Row>, after: map<Id, Row>, created: Id, w: Write, now: Time) {
    && created !in before && after.Keys == before.Keys + {created}
    && after[created] == Row(w.definition, w.scope, w.value, None)
    && forall id :: id in before ==>
         after[id] == if before[id].definition == w.definition && before[id].scope == w.scope && before[id].supersededAt == None
                      then before[id].(supersededAt := Some(now)) else before[id]
  }

  lemma SupersedingReplaces(rows: map<Id, Row>, log: seq<Write>, previous: Option<Id>, created: Id, w: Write, now: Time)
    requires SlotOk(rows, log, w.definition, w.scope) && created !in rows && IsPrevious(rows, previous, w.definition, w.scope)
    ensures Replaced(rows, Superseding(rows, previous, created, w, now), created, w, now)
  {
    forall id | id in rows
      ensures previous == Some(id) <==> rows[id].definition == w.definition && rows[id].scope == w.scope && rows[id].supersededAt == None
    {
      assert Active(rows, id, w.definition, w.scope) <==>
             rows[id].definition == w.definition && rows[id].scope == w.scope && rows[id].supersededAt == None;
    }
  }

  /** The rows after a write that supersedes `previous` and adds `created`. */
  ghost function Superseding(rows: map<Id, Row>, previous: Option<Id>, created: Id, w: Write, now: Time): map<Id, Row>
    requires previous.Some? ==> previous.value in rows
  {
    var marked := if previous.Some? then rows[previous.value := rows[previous.value].(supersededAt := Some(now))] else rows;
    marked[created := Row(w.definition, w.scope, w.value, None)]
  }

  /** `previous` is the slot's active row, or the slot has none. */
  ghost predicate IsPrevious(rows: map<Id, Row>, previous: Option<Id>, d: Id, scope: Scope) {
    if previous.Some? then Active(rows, previous.value, d, scope) else forall id :: !Active(rows, id, d, scope)
  }

  lemma WriteKeepsSlot(rows: map<Id, Row>, log: seq<Write>, previous: Option<Id>, created: Id, w: Write, now: Time, d: Id, scope: Scope)
    requires SlotOk(rows, log, d, scope) && created !in rows && IsPrevious(rows, previous, w.definition, w.scope)
    ensures SlotOk(Superseding(rows, previous, created, w, now), log + [w], d, scope)
  {
    var after := Superseding(rows, previous, created, w, now);
    assert (log + [w])[..|log|] == log;
    if w.definition == d && w.scope == scope {
      assert Active(after, created, d, scope) && after[created].value == w.value;
      forall id | Active(after, id, d, scope)
        ensures id == created
      {
        assert id != created ==> Active(rows, id, d, scope);
      }
    } else {
      assert forall id :: Active(after, id, d, scope) <==> Active(rows, id, d, scope);
      if Last(log, d, scope).Some? {
        var id :| Active(rows, id, d, scope) && rows[id].value == Last(log, d, scope).value;
        assert Active(after, id, d, scope) && after[id] == rows[id];
      }
    }
  }

  lemma {:induction false} LastOver(a: seq<Write>, b: seq<Write>, d: Id, scope: Scope)
    ensures Last(a + b, d, scope) == if Last(b, d, scope).Some? then Last(b, d, scope) else Last(a, d, scope)
  {
    if b == [] {
      assert a + b == a;
    } else {
      assert (a + b)[..|a + b| - 1] == a + b[..|b| - 1];
      LastOver(a, b[..|b| - 1], d, scope);
    }
  }

  lemma WriteKeepsAgrees(rows: map<Id, Row>, log: seq<Write>, previous: Option<Id>, created: Id, w: Write, now: Time)
    requires Agrees(rows, log) && created !in rows && IsPrevious(rows, previous, w.definition, w.scope)
    ensures Agrees(Superseding(rows, previous, created, w, now), log + [w])
  {
    forall d, scope
      ensures SlotOk(Superseding(rows, previous, created, w, now), log + [w], d, scope)
    {
      WriteKeepsSlot(rows, log, previous, created, w, now, d, scope);
    }
  }

  /** Rows are only ever added or superseded once; a superseded row is final. */
  ghost predicate AppendOnly(rows: map<Id, Row>, after: map<Id, Row>) {
    forall id :: id in rows ==>
      && id in after && after[id].(supersededAt := None) == rows[id].(supersededAt := None)
      && (rows[id].supersededAt.Some? ==> after[id] == rows[id])
  }

  // ---- resolution -------------------------------------------------------------------------------

  /** The scopes a caller names, most specific first; GLOBAL always counts. */
  ghost function Given(event: Option<Id>, workStream: Option<Id>, application: Option<Id>): seq<Scope> {
    (if application.Some? then [Scope(Application, application)] else [])
    + (if workStream.Some? then [Scope(WorkStream, workStream)] else [])
    + (if event.Some? then [Scope(DrEvent, event)] else [])
    + [Scope(Global, None)]
  }

  /** What resolution should give: the last write at the first of these scopes that has one, else the default. */
  ghost function Effective(log: seq<Write>, d: Definition, scopes: seq<Scope>): Value {
    if scopes == [] then d.default
    else if Last(log, d.id, scopes[0]).Some? then Last(log, d.id, scopes[0]).value
    else Effective(log, d, scopes[1..])
  }

  /** The scope is named and has no value of its own, or is not named. */
  ghost predicate Silent(log: seq<Write>, d: Id, kind: ScopeKind, id: Option<Id>) {
    id.Some? ==> NeverGiven(log, d, Scope(kind, id))
  }

  /** An Application's value beats its Work Stream's, that beats the Event's, that beats the global one, that the default. */
  ghost predicate Governs(log: seq<Write>, d: Definition, event: Option<Id>, workStream: Option<Id>, application: Option<Id>, v: Value) {
    if !Silent(log, d.id, Application, application) then LastGiven(log, d.id, Scope(Application, application), v)
    else if !Silent(log, d.id, WorkStream, workStream) then LastGiven(log, d.id, Scope(WorkStream, workStream), v)
    else if !Silent(log, d.id, DrEvent, event) then LastGiven(log, d.id, Scope(DrEvent, event), v)
    else if !NeverGiven(log, d.id, Scope(Global, None)) then LastGiven(log, d.id, Scope(Global, None), v)
    else v == d.default
  }

  lemma NeverOrLast(log: seq<Write>, d: Id, scope: Scope)
    ensures Last(log, d, scope) == None <==> NeverGiven(log, d, scope)
    ensures Last(log, d, scope).Some? ==> LastGiven(log, d, scope, Last(log, d, scope).value)
  {
    LastIs(log, d, scope);
    if v :| LastGiven(log, d, scope, v) {
      assert !NeverGiven(log, d, scope);
    }
  }

  lemma SkipUnnamed(log: seq<Write>, d: Definition, named: bool, scope: Scope, rest: seq<Scope>)
    ensures var all := (if named then [scope] else []) + rest;
            Effective(log, d, all) == if named && Last(log, d.id, scope).Some? then Last(log, d.id, scope).value else Effective(log, d, rest)
  {
    assert ([scope] + rest)[1..] == rest && [] + rest == rest;
  }

  lemma MostSpecificWins(log: seq<Write>, d: Definition, event: Option<Id>, workStream: Option<Id>, application: Option<Id>)
    ensures Governs(log, d, event, workStream, application, Effective(log, d, Given(event, workStream, application)))
  {
    var global := [Scope(Global, None)];
    var byEvent := (if event.Some? then [Scope(DrEvent, event)] else []) + global;
    var byStream := (if workStream.Some? then [Scope(WorkStream, workStream)] else []) + byEvent;
    var all := (if application.Some? then [Scope(Application, application)] else []) + byStream;
    assert Given(event, workStream, application) == all;
    SkipUnnamed(log, d, application.Some?, Scope(Application, application), byStream);
    SkipUnnamed(log, d, workStream.Some?, Scope(WorkStream, workStream), byEvent);
    SkipUnnamed(log, d, event.Some?, Scope(DrEvent, event), global);
    SkipUnnamed(log, d, true, Scope(Global, None), []);
    NeverOrLast(log, d.id, Scope(Application, application));
    NeverOrLast(log, d.id, Scope(WorkStream, workStream));
    NeverOrLast(log, d.id, Scope(DrEvent, event));
    NeverOrLast(log, d.id, Scope(Global, None));
  }

  /** What resolution reads off the rows: the active value at the first of these scopes that has one, else the default. */
  ghost function FirstActive(rows: map<Id, Row>, d: Definition, scopes: seq<Scope>): Value {
    if scopes == [] then d.default
    else if exists id :: Active(rows, id, d.id, scopes[0]) then
      var id :| Active(rows, id, d.id, scopes[0]);
      rows[id].value
    else FirstActive(rows, d, scopes[1..])
  }

  /** Rows in step with the history of writes resolve to what the history says. */
  lemma {:induction false} FirstActiveIsEffective(rows: map<Id, Row>, log: seq<Write>, d: Definition, scopes: seq<Scope>)
    requires Agrees(rows, log)
    ensures FirstActive(rows, d, scopes) == Effective(log, d, scopes)
  {
    if scopes != [] {
      assert SlotOk(rows, log, d.id, scopes[0]);
      FirstActiveIsEffective(rows, log, d, scopes[1..]);
    }
  }

  /** A dictionary holds the active value of each scope that has one. */
  ghost predicate HoldsActive(rows: map<Id, Row>, d: Id, byScope: map<Scope, Value>) {
    && (forall scope :: scope in byScope ==> exists id :: Active(rows, id, d, scope) && rows[id].value == byScope[scope])
    && (forall scope, id :: Active(rows, id, d, scope) ==> scope in byScope)
  }

  /** The active rows of a definition, as a dictionary by scope. */
  method ByScope(rows: map<Id, Row>, d: Id) returns (byScope: map<Scope, Value>)
    ensures HoldsActive(rows, d, byScope)
  {
    byScope := map[];
    var rest := rows.Keys;
    while rest != {}
      invariant rest <= rows.Keys
      invariant forall scope :: scope in byScope ==> exists id :: Active(rows, id, d, scope) && rows[id].value == byScope[scope]
      invariant forall scope, id :: Active(rows, id, d, scope) && id !in rest ==> scope in byScope
      decreases rest
    {
      var id :| id in rest;
      rest := rest - {id};
      if rows[id].definition == d && rows[id].supersededAt == None {
        assert Active(rows, id, d, rows[id].scope);
        byScope := byScope[rows[id].scope := rows[id].value];
      }
    }
  }

  const PRECEDENCE: seq<ScopeKind> := [Application, WorkStream, DrEvent, Global]

  function ScopeId(kind: ScopeKind, event: Option<Id>, workStream: Option<Id>, application: Option<Id>): Option<Id> {
    match kind
    case Application => application
    case WorkStream => workStream
    case DrEvent => event
    case Global => None
  }

  /** The scopes from the k-th kind on. */
  ghost function GivenFrom(k: nat, event: Option<Id>, workStream: Option<Id>, application: Option<Id>): seq<Scope>
    requires k <= 4
    decreases 4 - k
  {
    if k == 4 then []
    else
      var id := ScopeId(PRECEDENCE[k], event, workStream, application);
      (if PRECEDENCE[k] != Global && id == None then [] else [Scope(PRECEDENCE[k], id)])
      + GivenFrom(k + 1, event, workStream, application)
  }

  lemma GivenIsAll(event: Option<Id>, workStream: Option<Id>, application: Option<Id>)
    ensures GivenFrom(0, event, workStream, application) == Given(event, workStream, application)
  {
    var byEvent, byStream := GivenFrom(2, event, workStream, application), GivenFrom(1, event, workStream, application);
    assert GivenFrom(3, event, workStream, application) == [Scope(Global, None)];
    assert byEvent == (if event.Some? then [Scope(DrEvent, event)] else []) + [Scope(Global, None)];
    assert byStream == (if workStream.Some? then [Scope(WorkStream, workStream)] else []) + byEvent;
  }

  /** The dictionary says what the history says about a scope. */
  lemma ActiveIsLast(rows: map<Id, Row>, log: seq<Write>, d: Id, byScope: map<Scope, Value>, scope: Scope)
    requires Agrees(rows, log) && HoldsActive(rows, d, byScope)
    ensures Last(log, d, scope) == if scope in byScope then Some(byScope[scope]) else None
  {
    assert SlotOk(rows, log, d, scope);
  }

  /** One kind of scope: not named, or the last write there counts if there is one. */
  lemma EffectiveFrom(log: seq<Write>, d: Definition, k: nat, event: Option<Id>, workStream: Option<Id>, application: Option<Id>)
    requires k < 4
    ensures var id := ScopeId(PRECEDENCE[k], event, workStream, application);
            var here := if PRECEDENCE[k] != Global && id == None then None else Last(log, d.id, Scope(PRECEDENCE[k], id));
            Effective(log, d, GivenFrom(k, event, workStream, application)) ==
              if here.Some? then here.value else Effective(log, d, GivenFrom(k + 1, event, workStream, application))
  {
    var id := ScopeId(PRECEDENCE[k], event, workStream, application);
    var rest := GivenFrom(k + 1, event, workStream, application);
    if PRECEDENCE[k] != Global && id == None {
      assert GivenFrom(k, event, workStream, application) == rest;
    } else {
      assert GivenFrom(k, event, workStream, application) == [Scope(PRECEDENCE[k], id)] + rest;
      assert ([Scope(PRECEDENCE[k], id)] + rest)[1..] == rest;
    }
  }

  /** The most specific scope with an active row wins. On a store that agrees with its history that is the last write. */
  method PickEffective(rows: map<Id, Row>, ghost log: seq<Write>, d: Definition, event: Option<Id>, workStream: Option<Id>, application: Option<Id>)
    returns (v: Value)
    requires Agrees(rows, log)
    ensures v == Effective(log, d, Given(event, workStream, application))
    ensures Governs(log, d, event, workStream, application, v)
  {
    var byScope := ByScope(rows, d.id);
    MostSpecificWins(log, d, event, workStream, application);
    GivenIsAll(event, workStream, application);
    for k := 0 to 4
      invariant Effective(log, d, GivenFrom(k, event, workStream, application)) == Effective(log, d, Given(event, workStream, application))
    {
      var kind := PRECEDENCE[k];
      var id := ScopeId(kind, event, workStream, application);
      EffectiveFrom(log, d, k, event, workStream, application);
      if kind != Global && id == None {
        continue;
      }
      var scope := Scope(kind, id);
      ActiveIsLast(rows, log, d.id, byScope, scope);
      if scope in byScope {
        return byScope[scope];
      }
    }
    v := d.default;
  }

  class PolicyStore {
    const definitions: map<string, Definition>
    var rows: map<Id, Row>
    var nextRow: Id
    ghost var log: seq<Write>

    ghost predicate Valid()
      reads this
    {
      Agrees(rows, log) && forall id :: id in rows ==> id < nextRow
    }

    constructor (definitions: map<string, Definition>)
      ensures Valid() && log == [] && this.definitions == definitions
    {
      this.definitions := definitions;
      rows, nextRow, log := map[], 0, [];
    }

    method SetPolicyValue(key: string, value: Value, scope: Scope, authorized: bool, now: Time) returns (r: Outcome<Id, Error>)
      requires Valid()
      modifies this
      ensures Valid() && AppendOnly(old(rows), rows)
      ensures r == Failed(AuthorizationRequired) <==> !authorized
      ensures r == Failed(KeyNotConfigurable) <==> authorized && key == "readiness.dependency_graph_acyclic"
      ensures r == Failed(KeyNotFound) <==> authorized && key != "readiness.dependency_graph_acyclic" && key !in definitions
      ensures r.Failed? ==> rows == old(rows) && log == old(log)
      ensures r.Ok? ==> log == old(log) + [Write(definitions[key].id, scope, value)]
                        && Replaced(old(rows), rows, r.value, Write(definitions[key].id, scope, value), now)
    {
      if !authorized { return Failed(AuthorizationRequired); }
      if key == LOCKED_KEY { return Failed(KeyNotConfigurable); }
      if key !in definitions { return Failed(KeyNotFound); }
      var d := definitions[key].id;
      ghost var w, before := Write(d, scope, value), rows;
      var actives := set id | id in rows && Active(rows, id, d, scope);
      var previous := None;
      if actives != {} {
        var id :| id in actives;
        previous := Some(id);
      }
      assert forall id :: Active(rows, id, d, scope) ==> id in actives;
      assert IsPrevious(rows, previous, d, scope);
      WriteKeepsAgrees(rows, log, previous, nextRow, w, now);
      SupersedingReplaces(rows, log, previous, nextRow, w, now);
      if previous.Some? {
        rows := rows[previous.value := rows[previous.value].(supersededAt := Some(now))];
      }
      rows := rows[nextRow := Row(d, scope, value, None)];
      assert rows == Superseding(before, previous, nextRow, w, now);
      log := log + [w];
      r := Ok(nextRow);
      nextRow := nextRow + 1;
    }

    /** The last write at the most specific scope named, else the default; nothing for an unknown key. */
    method Resolve(key: string, event: Option<Id>, workStream: Option<Id>, application: Option<Id>) returns (v: Option<Value>)
      requires Valid()
      ensures v.Some? <==> key in definitions
      ensures v.Some? ==> Governs(log, definitions[key], event, workStream, application, v.value)
    {
      if key !in definitions { return None; }
      var value := PickEffective(rows, log, definitions[key], event, workStream, application);
      v := Some(value);
    }
  }
}

/**
 Writers of policy values running concurrently under READ COMMITTED. A transaction may set several values: for
 each it takes the advisory lock of the definition and scope, reads the active row under its own writes, and
 writes. Locks are held to the end of the transaction.
 */
module PolicyTransactions {
  import opened Prelude
  import P = Policies

  type Id = nat
  type Tx = nat
  type Slot = (Id, P.Scope)

  datatype Phase = Idle | Locked(w: P.Write) | Read(w: P.Write, previous: Option<Id>)

  /** Locks held, what it is at, uncommitted row images, and the writes they stand for. */
  datatype Txn = Txn(locks: set<Slot>, phase: Phase, images: map<Id, P.Row>, writes: seq<P.Write>)

  datatype State = State(rows: map<Id, P.Row>, log: seq<P.Write>, open: map<Tx, Txn>)

  datatype Step =
    | Begin(t: Tx)
    | Lock(t: Tx, w: P.Write)
    | ReadActive(t: Tx, previous: Option<Id>)
    | Write(t: Tx, created: Id, now: P.Time)
    | Commit(t: Tx)
    | Rollback(t: Tx)

  ghost function SlotOf(w: P.Write): Slot {
    (w.definition, w.scope)
  }

  /** `guard` is false only to show what the advisory lock is for. */
  ghost predicate Enabled(guard: bool, s: State, step: Step) {
    match step
    case Begin(t) => t !in s.open
    case Lock(t, w) =>
      && t in s.open && s.open[t].phase == Idle
      && (guard ==> forall u :: u in s.open && u != t ==> SlotOf(w) !in s.open[u].locks)
    case ReadActive(t, previous) =>
      && t in s.open && s.open[t].phase.Locked?
      && P.IsPrevious(s.rows + s.open[t].images, previous, s.open[t].phase.w.definition, s.open[t].phase.w.scope)
    case Write(t, created, now) =>
      && t in s.open && s.open[t].phase.Read? && created !in s.rows
      && (s.open[t].phase.previous.Some? ==> s.open[t].phase.previous.value in s.rows + s.open[t].images)
      && forall u :: u in s.open ==> created !in s.open[u].images
    case Commit(t) => t in s.open && s.open[t].phase == Idle
    case Rollback(t) => t in s.open
  }

  /** The row images of a write: the new row, and the one it supersedes. */
  ghost function Images(view: map<Id, P.Row>, previous: Option<Id>, created: Id, w: P.Write, now: P.Time): map<Id, P.Row>
    requires previous.Some? ==> previous.value in view
  {
    var superseded := if previous.Some? then map[previous.value := view[previous.value].(supersededAt := Some(now))] else map[];
    superseded[created := P.Row(w.definition, w.scope, w.value, None)]
  }

  ghost function Apply(s: State, step: Step): State
    requires Enabled(false, s, step)
  {
    match step
    case Begin(t) => s.(open := s.open[t := Txn({}, Idle, map[], [])])
    case Lock(t, w) => s.(open := s.open[t := s.open[t].(locks := s.open[t].locks + {SlotOf(w)}, phase := Locked(w))])
    case ReadActive(t, previous) => s.(open := s.open[t := s.open[t].(phase := Read(s.open[t].phase.w, previous))])
    case Write(t, created, now) =>
      var x := s.open[t];
      s.(open := s.open[t := Wrote(s.rows, x, created, now)])
    case Commit(t) => State(s.rows + s.open[t].images, s.log + s.open[t].writes, s.open - {t})
    case Rollback(t) => s.(open := s.open - {t})
  }

  ghost function Wrote(rows: map<Id, P.Row>, x: Txn, created: Id, now: P.Time): Txn
    requires x.phase.Read? && (x.phase.previous.Some? ==> x.phase.previous.value in rows + x.images)
  {
    x.(phase := Idle, writes := x.writes + [x.phase.w],
       images := x.images + Images(rows + x.images, x.phase.previous, created, x.phase.w, now))
  }

  // ---- invariant --------------------------------------------------------------------------------

  /** The slots a transaction has locked are in step with the writes as it sees them. */
  ghost predicate LockedOk(rows: map<Id, P.Row>, log: seq<P.Write>, x: Txn) {
    forall d, scope :: (d, scope) in x.locks ==> P.SlotOk(rows + x.images, log + x.writes, d, scope)
  }

  /** It writes only slots it has locked, and only as an append-only table allows. */
  ghost predicate ImagesOk(rows: map<Id, P.Row>, x: Txn) {
    && (forall id :: id in x.images ==> (x.images[id].definition, x.images[id].scope) in x.locks)
    && P.AppendOnly(rows, rows + x.images)
    && (forall i :: 0 <= i < |x.writes| ==> SlotOf(x.writes[i]) in x.locks)
  }

  ghost predicate PhaseOk(rows: map<Id, P.Row>, x: Txn) {
    match x.phase
    case Idle => true
    case Locked(w) => SlotOf(w) in x.locks
    case Read(w, previous) => SlotOf(w) in x.locks && P.IsPrevious(rows + x.images, previous, w.definition, w.scope)
  }

  ghost predicate TxnOk(rows: map<Id, P.Row>, log: seq<P.Write>, x: Txn) {
    LockedOk(rows, log, x) && ImagesOk(rows, x) && PhaseOk(rows, x)
  }

  ghost predicate Compatible(x: Txn, y: Txn) {
    x.locks !! y.locks && x.images.Keys !! y.images.Keys
  }

  ghost predicate Inv(s: State) {
    && P.Agrees(s.rows, s.log)
    && (forall t :: t in s.open ==> TxnOk(s.rows, s.log, s.open[t]))
    && (forall t, u :: t in s.open && u in s.open && t != u ==> Compatible(s.open[t], s.open[u]))
  }

  // ---- a transaction's own statements -----------------------------------------------------------

  lemma {:induction false} NoWriteNoLast(writes: seq<P.Write>, d: Id, scope: P.Scope)
    requires forall i :: 0 <= i < |writes| ==> SlotOf(writes[i]) != (d, scope)
    ensures P.Last(writes, d, scope) == None
  {
    if writes != [] {
      NoWriteNoLast(writes[..|writes| - 1], d, scope);
    }
  }

  /** A slot is in step if neither its rows nor its writes have changed. */
  lemma SameSlot(rows: map<Id, P.Row>, log: seq<P.Write>, rows': map<Id, P.Row>, log': seq<P.Write>, d: Id, scope: P.Scope)
    requires P.SlotOk(rows, log, d, scope) && P.Last(log', d, scope) == P.Last(log, d, scope)
    requires forall id :: P.Active(rows', id, d, scope) <==> P.Active(rows, id, d, scope)
    requires forall id :: P.Active(rows, id, d, scope) && P.Active(rows', id, d, scope) ==> rows'[id] == rows[id]
    ensures P.SlotOk(rows', log', d, scope)
  {
    if P.Last(log, d, scope).Some? {
      var id :| P.Active(rows, id, d, scope) && rows[id].value == P.Last(log, d, scope).value;
      assert P.Active(rows', id, d, scope);
    }
  }

  /** Rows outside a transaction's locks are as if it were not there. */
  lemma UnlockedSlot(rows: map<Id, P.Row>, log: seq<P.Write>, x: Txn, d: Id, scope: P.Scope)
    requires P.SlotOk(rows, log, d, scope) && ImagesOk(rows, x) && (d, scope) !in x.locks
    ensures P.SlotOk(rows + x.images, log + x.writes, d, scope)
  {
    NoWriteNoLast(x.writes, d, scope);
    P.LastOver(log, x.writes, d, scope);
    SameSlot(rows, log, rows + x.images, log + x.writes, d, scope);
  }

  lemma LockOk(rows: map<Id, P.Row>, log: seq<P.Write>, x: Txn, w: P.Write)
    requires P.Agrees(rows, log) && TxnOk(rows, log, x)
    ensures TxnOk(rows, log, x.(locks := x.locks + {SlotOf(w)}, phase := Locked(w)))
  {
    assert P.SlotOk(rows, log, w.definition, w.scope);
    if SlotOf(w) !in x.locks {
      UnlockedSlot(rows, log, x, w.definition, w.scope);
    }
  }

  lemma WroteView(rows: map<Id, P.Row>, x: Txn, created: Id, now: P.Time)
    requires PhaseOk(rows, x) && x.phase.Read?
    ensures var y := Wrote(rows, x, created, now);
            rows + y.images == P.Superseding(rows + x.images, x.phase.previous, created, x.phase.w, now)
  {
  }

  lemma WroteImages(rows: map<Id, P.Row>, x: Txn, created: Id, now: P.Time)
    requires ImagesOk(rows, x) && PhaseOk(rows, x) && x.phase.Read? && created !in rows && created !in x.images
    ensures ImagesOk(rows, Wrote(rows, x, created, now))
  {
  }

  lemma WroteSlots(rows: map<Id, P.Row>, log: seq<P.Write>, x: Txn, created: Id, now: P.Time)
    requires LockedOk(rows, log, x) && PhaseOk(rows, x) && x.phase.Read? && created !in rows && created !in x.images
    ensures LockedOk(rows, log, Wrote(rows, x, created, now))
  {
    var y := Wrote(rows, x, created, now);
    WroteView(rows, x, created, now);
    assert log + y.writes == (log + x.writes) + [x.phase.w];
    forall d: Id, scope | (d, scope) in y.locks
      ensures P.SlotOk(rows + y.images, log + y.writes, d, scope)
    {
      P.WriteKeepsSlot(rows + x.images, log + x.writes, x.phase.previous, created, x.phase.w, now, d, scope);
    }
  }

  lemma WriteOk(rows: map<Id, P.Row>, log: seq<P.Write>, x: Txn, created: Id, now: P.Time)
    requires TxnOk(rows, log, x) && x.phase.Read? && created !in rows && created !in x.images
    ensures TxnOk(rows, log, Wrote(rows, x, created, now))
  {
    WroteImages(rows, x, created, now);
    WroteSlots(rows, log, x, created, now);
  }

  /** What a write adds to a transaction's own view of the table, in every reachable state. */
  lemma WriteReplaces(s: State, t: Tx, created: Id, now: P.Time)
    requires Inv(s) && Enabled(true, s, Write(t, created, now))
    ensures P.Replaced(s.rows + s.open[t].images, s.rows + Apply(s, Write(t, created, now)).open[t].images, created, s.open[t].phase.w, now)
    ensures Apply(s, Write(t, created, now)).open[t].writes == s.open[t].writes + [s.open[t].phase.w]
  {
    var x := s.open[t];
    assert TxnOk(s.rows, s.log, x) && SlotOf(x.phase.w) in x.locks;
    WroteView(s.rows, x, created, now);
    P.SupersedingReplaces(s.rows + x.images, s.log + x.writes, x.phase.previous, created, x.phase.w, now);
  }

  // ---- commit -----------------------------------------------------------------------------------

  lemma CommitKeepsAgrees(rows: map<Id, P.Row>, log: seq<P.Write>, x: Txn)
    requires P.Agrees(rows, log) && TxnOk(rows, log, x)
    ensures P.Agrees(rows + x.images, log + x.writes)
  {
    forall d: Id, scope
      ensures P.SlotOk(rows + x.images, log + x.writes, d, scope)
    {
      assert P.SlotOk(rows, log, d, scope);
      if (d, scope) !in x.locks {
        UnlockedSlot(rows, log, x, d, scope);
      }
    }
  }

  lemma CommitKeepsSlot(rows: map<Id, P.Row>, log: seq<P.Write>, x: Txn, y: Txn, d: Id, scope: P.Scope)
    requires TxnOk(rows, log, x) && TxnOk(rows, log, y) && Compatible(x, y) && (d, scope) in y.locks
    ensures P.SlotOk((rows + x.images) + y.images, (log + x.writes) + y.writes, d, scope)
    ensures forall id :: P.Active((rows + x.images) + y.images, id, d, scope) <==> P.Active(rows + y.images, id, d, scope)
  {
    NoWriteNoLast(x.writes, d, scope);
    P.LastOver(log, x.writes, d, scope);
    P.LastOver(log + x.writes, y.writes, d, scope);
    P.LastOver(log, y.writes, d, scope);
    assert P.SlotOk(rows + y.images, log + y.writes, d, scope);
    SameSlot(rows + y.images, log + y.writes, (rows + x.images) + y.images, (log + x.writes) + y.writes, d, scope);
  }

  lemma CommitKeepsTxn(rows: map<Id, P.Row>, log: seq<P.Write>, x: Txn, y: Txn)
    requires TxnOk(rows, log, x) && TxnOk(rows, log, y) && Compatible(x, y)
    ensures TxnOk(rows + x.images, log + x.writes, y)
  {
    forall d, scope | (d, scope) in y.locks
      ensures P.SlotOk((rows + x.images) + y.images, (log + x.writes) + y.writes, d, scope)
      ensures forall id :: P.Active((rows + x.images) + y.images, id, d, scope) <==> P.Active(rows + y.images, id, d, scope)
    {
      CommitKeepsSlot(rows, log, x, y, d, scope);
    }
  }

  lemma CommitKeepsInv(s: State, t: Tx)
    requires Inv(s) && Enabled(true, s, Commit(t))
    ensures Inv(Apply(s, Commit(t)))
  {
    assert TxnOk(s.rows, s.log, s.open[t]);
    CommitKeepsAgrees(s.rows, s.log, s.open[t]);
    forall u | u in s.open && u != t
      ensures TxnOk(s.rows + s.open[t].images, s.log + s.open[t].writes, s.open[u])
    {
      assert Compatible(s.open[t], s.open[u]) && TxnOk(s.rows, s.log, s.open[u]);
      CommitKeepsTxn(s.rows, s.log, s.open[t], s.open[u]);
    }
  }

  lemma OwnStepOk(s: State, step: Step)
    requires P.Agrees(s.rows, s.log) && Enabled(true, s, step) && !step.Commit? && !step.Rollback?
    requires step.t in s.open ==> TxnOk(s.rows, s.log, s.open[step.t])
    ensures TxnOk(s.rows, s.log, Apply(s, step).open[step.t])
  {
    match step
    case Begin(t) => assert s.rows + map[] == s.rows;
    case Lock(t, w) => LockOk(s.rows, s.log, s.open[t], w);
    case ReadActive(_, _) =>
    case Write(t, created, now) => WriteOk(s.rows, s.log, s.open[t], created, now);
  }

  lemma OwnStepCompatible(s: State, step: Step, u: Tx)
    requires Enabled(true, s, step) && !step.Commit? && !step.Rollback? && u in s.open && u != step.t
    requires step.t in s.open ==> Compatible(s.open[step.t], s.open[u]) && ImagesOk(s.rows, s.open[step.t]) && ImagesOk(s.rows, s.open[u])
    requires step.t in s.open ==> PhaseOk(s.rows, s.open[step.t])
    ensures Compatible(Apply(s, step).open[step.t], s.open[u]) && Compatible(s.open[u], Apply(s, step).open[step.t])
  {
  }

  lemma StepKeepsInv(s: State, step: Step)
    requires Inv(s) && Enabled(true, s, step)
    ensures Inv(Apply(s, step))
  {
    if step.Commit? {
      CommitKeepsInv(s, step.t);
    } else if !step.Rollback? {
      OwnStepOk(s, step);
      forall u | u in s.open && u != step.t
        ensures Compatible(Apply(s, step).open[step.t], s.open[u]) && Compatible(s.open[u], Apply(s, step).open[step.t])
      {
        if step.t in s.open {
          assert TxnOk(s.rows, s.log, s.open[step.t]) && TxnOk(s.rows, s.log, s.open[u]);
        }
        OwnStepCompatible(s, step, u);
      }
    }
  }

  lemma StepAppendsOnly(s: State, step: Step)
    requires Inv(s) && Enabled(true, s, step)
    ensures P.AppendOnly(s.rows, Apply(s, step).rows) && s.log <= Apply(s, step).log
  {
    if step.Commit? {
      assert TxnOk(s.rows, s.log, s.open[step.t]);
    }
  }

  // ---- whole runs -------------------------------------------------------------------------------

  ghost predicate Next(guard: bool, s: State, step: Step, s': State) {
    Enabled(guard, s, step) && s' == Apply(s, step)
  }

  ghost predicate Run(guard: bool, states: seq<State>, steps: seq<Step>) {
    && |states| == |steps| + 1 && states[0] == State(map[], [], map[])
    && forall i, j :: 0 <= i < |steps| && j == i + 1 ==> Next(guard, states[i], steps[i], states[j])
  }

  lemma {:induction false} RunKeepsInv(states: seq<State>, steps: seq<Step>, i: nat)
    requires Run(true, states, steps) && i < |states|
    ensures Inv(states[i])
  {
    if i > 0 {
      RunKeepsInv(states, steps, i - 1);
      assert Next(true, states[i - 1], steps[i - 1], states[i]);
      StepKeepsInv(states[i - 1], steps[i - 1]);
    }
  }

  /**
   In every committed state a definition and scope has an active row exactly if some write to it has committed;
   then it has one, and it carries the last committed write.
   */
  lemma OneActiveValue(states: seq<State>, steps: seq<Step>, i: nat, d: Id, scope: P.Scope)
    requires Run(true, states, steps) && i < |states|
    ensures (exists id :: P.Active(states[i].rows, id, d, scope)) <==> P.Last(states[i].log, d, scope).Some?
    ensures forall a, b :: P.Active(states[i].rows, a, d, scope) && P.Active(states[i].rows, b, d, scope) ==>
              a == b && P.Last(states[i].log, d, scope) == Some(states[i].rows[a].value)
  {
    RunKeepsInv(states, steps, i);
    assert P.SlotOk(states[i].rows, states[i].log, d, scope);
  }

  /** Resolution on the committed rows gives the last committed write at the most specific scope named, else the default. */
  lemma ResolveIsLastWrite(states: seq<State>, steps: seq<Step>, i: nat, d: P.Definition, event: Option<Id>, workStream: Option<Id>, application: Option<Id>)
    requires Run(true, states, steps) && i < |states|
    ensures P.FirstActive(states[i].rows, d, P.Given(event, workStream, application))
            == P.Effective(states[i].log, d, P.Given(event, workStream, application))
    ensures P.Governs(states[i].log, d, event, workStream, application,
                      P.FirstActive(states[i].rows, d, P.Given(event, workStream, application)))
  {
    P.MostSpecificWins(states[i].log, d, event, workStream, application);
    RunKeepsInv(states, steps, i);
    P.FirstActiveIsEffective(states[i].rows, states[i].log, d, P.Given(event, workStream, application));
  }

  /** Rows are never lost or rewritten, only superseded, and a superseded row is final. */
  lemma {:induction false} SupersededIsFinal(states: seq<State>, steps: seq<Step>, i: nat, j: nat)
    requires Run(true, states, steps) && i <= j < |states|
    ensures P.AppendOnly(states[i].rows, states[j].rows)
    decreases j
  {
    if i < j {
      SupersededIsFinal(states, steps, i, j - 1);
      RunKeepsInv(states, steps, j - 1);
      assert Next(true, states[j - 1], steps[j - 1], states[j]);
      StepAppendsOnly(states[j - 1], steps[j - 1]);
    }
  }

  // ---- what the advisory lock is for ------------------------------------------------------------

  ghost predicate Reachable(guard: bool, s: State) {
    exists states: seq<State>, steps: seq<Step> :: Run(guard, states, steps) && states[|states| - 1] == s
  }

  lemma OneMore(guard: bool, s: State, step: Step)
    requires Reachable(guard, s) && Enabled(guard, s, step)
    ensures Reachable(guard, Apply(s, step))
  {
    var states: seq<State>, steps: seq<Step> :| Run(guard, states, steps) && states[|states| - 1] == s;
    assert Run(guard, states + [Apply(s, step)], steps + [step]);
  }

  const FIRST: P.Write := P.Write(1, P.Scope(P.Global, None), 10)
  const SECOND: P.Write := P.Write(1, P.Scope(P.Global, None), 20)

  ghost function Writer(w: P.Write, created: Id): Txn {
    Txn({SlotOf(w)}, Idle, map[created := P.Row(w.definition, w.scope, w.value, None)], [w])
  }

  /** One writer gets as far as its insert while the table is still empty. */
  lemma WrittenFrom(open: map<Tx, Txn>, t: Tx, w: P.Write, created: Id)
    requires Reachable(false, State(map[], [], open)) && t !in open && forall u :: u in open ==> created !in open[u].images
    ensures Reachable(false, State(map[], [], open[t := Writer(w, created)]))
  {
    var none: map<Id, P.Row> := map[];
    var idle := Txn({}, Idle, none, []);
    var locked := Txn({SlotOf(w)}, Locked(w), none, []);
    var read := Txn({SlotOf(w)}, Read(w, None), none, []);
    assert Reachable(false, State(none, [], open[t := locked])) by {
      OneMore(false, State(none, [], open), Begin(t));
      OneMore(false, State(none, [], open[t := idle]), Lock(t, w));
      assert idle.locks + {SlotOf(w)} == {SlotOf(w)} && open[t := idle][t := locked] == open[t := locked];
    }
    assert Reachable(false, State(none, [], open[t := read])) by {
      OneMore(false, State(none, [], open[t := locked]), ReadActive(t, None));
      assert open[t := locked][t := read] == open[t := read];
    }
    OneMore(false, State(none, [], open[t := read]), Write(t, created, 0));
    WroteIs(read, w, created);
    assert open[t := read][t := Writer(w, created)] == open[t := Writer(w, created)];
  }

  lemma WroteIs(read: Txn, w: P.Write, created: Id)
    requires read == Txn({SlotOf(w)}, Read(w, None), map[], [])
    ensures Wrote(map[], read, created, 0) == Writer(w, created)
  {
    assert Wrote(map[], read, created, 0).images == Writer(w, created).images;
  }

  /** Without the lock, two first writes to one slot can both stay active. */
  lemma UnlockedWritersLeaveTwoActive()
    ensures exists s, a, b :: Reachable(false, s) && a != b
              && P.Active(s.rows, a, FIRST.definition, FIRST.scope) && P.Active(s.rows, b, FIRST.definition, FIRST.scope)
  {
    var none: map<Tx, Txn> := map[];
    assert Run(false, [State(map[], [], none)], []);
    WrittenFrom(none, 7, FIRST, 1);
    WrittenFrom(none[7 := Writer(FIRST, 1)], 8, SECOND, 2);
    var s := State(map[], [], none[7 := Writer(FIRST, 1)][8 := Writer(SECOND, 2)]);
    OneMore(false, s, Commit(7));
    var s1 := Apply(s, Commit(7));
    OneMore(false, s1, Commit(8));
    var s2 := Apply(s1, Commit(8));
    assert P.Active(s2.rows, 1, FIRST.definition, FIRST.scope) && P.Active(s2.rows, 2, FIRST.definition, FIRST.scope);
  }
}
