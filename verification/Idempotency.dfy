/** The stored outcome of a command, by idempotency key, user and route. */
module Idempotency {
  import opened Prelude

  type Time = int
  /** Request hashes and bodies are compared, never looked into. */
  type Hash = int
  type Body = int

  datatype Key = Key(key: string, user: nat, route: string)

  datatype Row = Row(hash: Hash, status: Option<nat>, body: Option<Body>, createdAt: Time, expiresAt: Time)

  datatype Error = KeyRequired | Mismatch | InProgress

  datatype Context = Context(key: Key, replay: Option<(nat, Option<Body>)>)

  /** 24 hours, in seconds. */
  const VALIDITY: Time := 86400

  function InFlight(hash: Hash, now: Time): Row {
    Row(hash, None, None, now, now + VALIDITY)
  }

  datatype Decision = Refuse(error: Error) | Replay(status: nat, body: Option<Body>) | Execute

  /** What the row found for a key means for a request; an expired row is as good as none. */
  function Decide(row: Option<Row>, hash: Hash, now: Time): (d: Decision)
    ensures d.Execute? <==> row == None || row.value.expiresAt <= now
    ensures d == Refuse(Mismatch) <==> row.Some? && now < row.value.expiresAt && row.value.hash != hash
    ensures d == Refuse(InProgress) <==> row.Some? && now < row.value.expiresAt && row.value.hash == hash && row.value.status == None
    ensures d.Replay? <==> row.Some? && now < row.value.expiresAt && row.value.hash == hash && row.value.status.Some?
    ensures d.Replay? ==> row.value.status == Some(d.status) && row.value.body == d.body
    ensures d != Refuse(KeyRequired)
  {
    if row == None || row.value.expiresAt <= now then Execute
    else if row.value.hash != hash then Refuse(Mismatch)
    else if row.value.status == None then Refuse(InProgress)
    else Replay(row.value.status.value, row.value.body)
  }

  class KeyTable {
    var rows: map<Key, Row>

    constructor ()
      ensures rows == map[]
    {
      rows := map[];
    }

    ghost function Found(key: Key): Option<Row>
      reads this
    {
      if key in rows then Some(rows[key]) else None
    }

    /** `lostRace`: another transaction inserted the same key since this one looked. */
    method Require(header: Option<string>, user: nat, route: string, hash: Hash, now: Time, lostRace: bool)
      returns (r: Outcome<Context, Error>)
      modifies this
      ensures header == None || header == Some("") ==> r == Failed(KeyRequired) && rows == old(rows)
      ensures header.Some? && header != Some("") ==>
                var key := Key(header.value, user, route);
                match Decide(old(Found(key)), hash, now)
                case Refuse(e) => r == Failed(e) && rows == old(rows)
                case Replay(status, body) => r == Ok(Context(key, Some((status, body)))) && rows == old(rows)
                case Execute =>
                  if key !in old(rows) && lostRace then r == Failed(InProgress) && rows == old(rows)
                  else r == Ok(Context(key, None)) && rows == old(rows)[key := Row(hash, None, None, now, now + 86400)]
    {
      if header == None || header == Some("") { return Failed(KeyRequired); }
      var key := Key(header.value, user, route);
      if key in rows && rows[key].expiresAt > now {
        if rows[key].hash != hash { return Failed(Mismatch); }
        if rows[key].status == None { return Failed(InProgress); }
        return Ok(Context(key, Some((rows[key].status.value, rows[key].body))));
      }
      if key in rows {
        rows := rows[key := rows[key].(hash := hash, status := None, body := None)];
        rows := rows[key := rows[key].(createdAt := now, expiresAt := now + VALIDITY)];
        return Ok(Context(key, None));
      }
      if lostRace { return Failed(InProgress); }
      rows := rows[key := InFlight(hash, now)];
      r := Ok(Context(key, None));
    }

    /** Stores the outcome, so that a later request with the same hash gets it verbatim until the row expires. */
    method Complete(ctx: Context, status: nat, body: Body)
      modifies this
      ensures ctx.replay.Some? || ctx.key !in old(rows) ==> rows == old(rows)
      ensures ctx.replay == None && ctx.key in old(rows) ==>
                && rows == old(rows)[ctx.key := old(rows)[ctx.key].(status := Some(status), body := Some(body))]
                && forall now :: now < old(rows)[ctx.key].expiresAt ==>
                     Decide(Found(ctx.key), old(rows)[ctx.key].hash, now) == Replay(status, Some(body))
    {
      if ctx.replay.Some? { return; }
      if ctx.key !in rows { return; }
      rows := rows[ctx.key := rows[ctx.key].(status := Some(status))];
      rows := rows[ctx.key := rows[ctx.key].(body := Some(body))];
    }
  }
}

/**
 Requests with idempotency keys running concurrently under READ COMMITTED: a lookup that waits for the
 row's lock, an insert that waits for an uncommitted insert of the same key, and a commit that follows
 the stored outcome, as every command route does.
 */
module IdempotencyTransactions {
  import opened Prelude
  import I = Idempotency

  type Tx = nat

  datatype Phase =
    | Begun
    | Inserting
    | Executing
    | Completed
    | Ending(reply: I.Decision)

  /** `since` counts the replies logged before the request began; `row` is its uncommitted row image. */
  datatype Txn = Txn(key: I.Key, hash: I.Hash, now: I.Time, since: nat, phase: Phase, locked: bool, row: Option<I.Row>)

  /** A reply, in the order in which they are given. An execution is logged by its commit. */
  datatype Entry = Entry(key: I.Key, hash: I.Hash, now: I.Time, since: nat, executed: bool, reply: I.Decision)

  /** `last` says which entry executed a key last: history, for the statements below. */
  datatype State = State(rows: map<I.Key, I.Row>, last: map<I.Key, nat>, log: seq<Entry>, open: map<Tx, Txn>)

  datatype Step =
    | Begin(t: Tx, key: I.Key, hash: I.Hash, now: I.Time)
    | Look(t: Tx)
    | Insert(t: Tx)
    | Complete(t: Tx, status: nat, body: I.Body)
    | Commit(t: Tx)
    | Reply(t: Tx)
    | Rollback(t: Tx)

  ghost predicate Init(s: State) {
    s == State(map[], map[], [], map[])
  }

  /** No other transaction has the row of this key locked or inserted. */
  ghost predicate Free(s: State, t: Tx, key: I.Key) {
    forall u :: u in s.open && u != t && s.open[u].locked ==> s.open[u].key != key
  }

  ghost predicate Enabled(s: State, step: Step) {
    match step
    case Begin(t, key, hash, now) => t !in s.open
    case Look(t) => t in s.open && s.open[t].phase == Begun && (s.open[t].key in s.rows ==> Free(s, t, s.open[t].key))
    case Insert(t) => t in s.open && s.open[t].phase == Inserting && Free(s, t, s.open[t].key)
    case Complete(t, status, body) => t in s.open && s.open[t].phase == Executing && s.open[t].row.Some?
    case Commit(t) => t in s.open && s.open[t].phase == Completed && s.open[t].row.Some? && s.open[t].row.value.status.Some?
    case Reply(t) => t in s.open && s.open[t].phase.Ending?
    case Rollback(t) => t in s.open
  }

  /** A lookup locks the row it finds, and resets it in place if it has expired. */
  ghost function Looked(s: State, x: Txn): Txn {
    if x.key !in s.rows then x.(phase := Inserting)
    else
      match I.Decide(Some(s.rows[x.key]), x.hash, x.now)
      case Execute => x.(phase := Executing, locked := true, row := Some(I.InFlight(x.hash, x.now)))
      case d => x.(phase := Ending(d), locked := true)
  }

  /** An insert either finds a row committed since the lookup, and fails, or takes the key. */
  ghost function Inserted(s: State, x: Txn): Txn {
    if x.key in s.rows then x.(phase := Ending(I.Refuse(I.InProgress)))
    else x.(phase := Executing, locked := true, row := Some(I.InFlight(x.hash, x.now)))
  }

  ghost function EntryOf(x: Txn, executed: bool, reply: I.Decision): Entry {
    Entry(x.key, x.hash, x.now, x.since, executed, reply)
  }

  ghost function Apply(s: State, step: Step): State
    requires Enabled(s, step)
  {
    match step
    case Begin(t, key, hash, now) => s.(open := s.open[t := Txn(key, hash, now, |s.log|, Begun, false, None)])
    case Look(t) => s.(open := s.open[t := Looked(s, s.open[t])])
    case Insert(t) => s.(open := s.open[t := Inserted(s, s.open[t])])
    case Complete(t, status, body) =>
      var x := s.open[t];
      s.(open := s.open[t := x.(phase := Completed, row := Some(x.row.value.(status := Some(status), body := Some(body))))])
    case Commit(t) =>
      var x := s.open[t];
      State(s.rows[x.key := x.row.value], s.last[x.key := |s.log|],
            s.log + [EntryOf(x, true, I.Replay(x.row.value.status.value, x.row.value.body))], s.open - {t})
    case Reply(t) => State(s.rows, s.last, s.log + [EntryOf(s.open[t], false, s.open[t].phase.reply)], s.open - {t})
    case Rollback(t) => s.(open := s.open - {t})
  }

  // ---- invariant --------------------------------------------------------------------------------

  /** The row that an execution leaves. */
  ghost function Left(e: Entry): I.Row
    requires e.reply.Replay?
  {
    I.Row(e.hash, Some(e.reply.status), e.reply.body, e.now, e.now + I.VALIDITY)
  }

  ghost predicate Ran(log: seq<Entry>, i: nat, key: I.Key) {
    i < |log| && log[i].executed && log[i].key == key
  }

  /** Committed rows are exactly what the last execution of their key left. */
  ghost predicate RowsOk(rows: map<I.Key, I.Row>, last: map<I.Key, nat>, log: seq<Entry>) {
    && last.Keys == rows.Keys
    && (forall k :: k in rows ==> Ran(log, last[k], k) && log[last[k]].reply.Replay? && rows[k] == Left(log[last[k]]))
    && (forall i: nat, k :: Ran(log, i, k) ==> k in last && i <= last[k])
  }

  /** Executions of one key are at least the validity period apart. */
  ghost predicate Spaced(log: seq<Entry>) {
    forall i: nat, j: nat, k :: i < j && Ran(log, i, k) && Ran(log, j, k) ==> log[i].now + I.VALIDITY <= log[j].now
  }

  /** What a reply that did not execute says about the last execution of its key before it. */
  ghost predicate EntryOk(log: seq<Entry>, j: nat, e: Entry) {
    && e.since <= j <= |log|
    && (!e.executed ==> exists i: nat :: Explains(log, i, j, e))
  }

  ghost predicate Explains(log: seq<Entry>, i: nat, j: nat, e: Entry) {
    && i < j <= |log| && Ran(log, i, e.key) && (forall l: nat :: i < l < j ==> !Ran(log, l, e.key))
    && match e.reply
       case Replay(status, body) => log[i].hash == e.hash && log[i].reply == e.reply && e.now < log[i].now + I.VALIDITY
       case Refuse(error) =>
         if error == I.InProgress then forall l: nat :: l < e.since ==> !Ran(log, l, e.key)
         else error == I.Mismatch && log[i].hash != e.hash && e.now < log[i].now + I.VALIDITY
       case Execute => false
  }

  ghost predicate LogOk(log: seq<Entry>) {
    forall j :: 0 <= j < |log| ==> EntryOk(log, j, log[j])
  }

  ghost predicate TxnOk(rows: map<I.Key, I.Row>, log: seq<Entry>, x: Txn) {
    && x.since <= |log|
    && (x.phase == Begun ==> !x.locked)
    && (x.phase == Inserting ==> !x.locked && NoneBefore(log, x))
    && (x.phase == Executing || x.phase == Completed ==>
          && x.locked && x.row.Some? && x.row.value.hash == x.hash
          && x.row.value.createdAt == x.now && x.row.value.expiresAt == x.now + I.VALIDITY
          && (x.key in rows ==> rows[x.key].expiresAt <= x.now))
    && (x.phase.Ending? ==>
          && x.key in rows && !x.phase.reply.Execute?
          && if x.locked then x.phase.reply == I.Decide(Some(rows[x.key]), x.hash, x.now)
             else x.phase.reply == I.Refuse(I.InProgress) && NoneBefore(log, x))
  }

  ghost predicate NoneBefore(log: seq<Entry>, x: Txn) {
    forall l: nat :: l < x.since ==> !Ran(log, l, x.key)
  }

  ghost predicate Inv(s: State) {
    && RowsOk(s.rows, s.last, s.log) && Spaced(s.log) && LogOk(s.log)
    && (forall t :: t in s.open ==> TxnOk(s.rows, s.log, s.open[t]))
    && (forall t, u :: t in s.open && u in s.open && t != u && s.open[t].locked && s.open[u].locked ==> s.open[t].key != s.open[u].key)
  }

  // ---- steps keep it ----------------------------------------------------------------------------

  lemma RanBefore(log: seq<Entry>, e: Entry, i: nat, k: I.Key)
    ensures i < |log| ==> (Ran(log + [e], i, k) <==> Ran(log, i, k))
    ensures i == |log| ==> (Ran(log + [e], i, k) <==> e.executed && e.key == k)
  {
  }

  lemma ExplainsStill(log: seq<Entry>, e: Entry, i: nat, j: nat, f: Entry)
    requires Explains(log, i, j, f) && f.since <= |log|
    ensures Explains(log + [e], i, j, f)
  {
    assert forall l: nat :: l < |log| ==> (Ran(log + [e], l, f.key) <==> Ran(log, l, f.key));
  }

  lemma LogGrows(log: seq<Entry>, e: Entry)
    requires LogOk(log) && EntryOk(log, |log|, e)
    ensures LogOk(log + [e])
  {
    forall j | 0 <= j < |log + [e]|
      ensures EntryOk(log + [e], j, (log + [e])[j])
    {
      var f := if j < |log| then log[j] else e;
      assert EntryOk(log, j, f);
      if !f.executed {
        var i: nat :| Explains(log, i, j, f);
        ExplainsStill(log, e, i, j, f);
      }
    }
  }

  lemma TxnUnmoved(rows: map<I.Key, I.Row>, log: seq<Entry>, e: Entry, x: Txn)
    requires TxnOk(rows, log, x)
    ensures TxnOk(rows, log + [e], x)
  {
    assert forall l: nat :: l < |log| ==> (Ran(log + [e], l, x.key) <==> Ran(log, l, x.key));
  }

  lemma TxnSurvivesCommit(rows: map<I.Key, I.Row>, log: seq<Entry>, x: Txn, k: I.Key, row: I.Row)
    requires TxnOk(rows, log, x) && (x.locked ==> x.key != k)
    ensures TxnOk(rows[k := row], log, x)
  {
  }

  /** A reply repeats what the last execution of its key stored, or names what is wrong. */
  lemma ReplyIsExplained(s: State, x: Txn)
    requires RowsOk(s.rows, s.last, s.log) && TxnOk(s.rows, s.log, x) && x.phase.Ending?
    ensures EntryOk(s.log, |s.log|, EntryOf(x, false, x.phase.reply))
  {
    assert Explains(s.log, s.last[x.key], |s.log|, EntryOf(x, false, x.phase.reply));
  }

  lemma ReplyKeepsRows(s: State, e: Entry)
    requires RowsOk(s.rows, s.last, s.log) && Spaced(s.log) && !e.executed
    ensures RowsOk(s.rows, s.last, s.log + [e]) && Spaced(s.log + [e])
  {
    forall i: nat, k | Ran(s.log + [e], i, k)
      ensures Ran(s.log, i, k)
    {
      RanBefore(s.log, e, i, k);
    }
  }

  lemma CommitKeepsRows(s: State, x: Txn, e: Entry)
    requires RowsOk(s.rows, s.last, s.log) && TxnOk(s.rows, s.log, x) && x.phase == Completed
    requires x.row.value.status.Some? && e == EntryOf(x, true, I.Replay(x.row.value.status.value, x.row.value.body))
    ensures RowsOk(s.rows[x.key := x.row.value], s.last[x.key := |s.log|], s.log + [e])
  {
    assert forall i: nat, k :: i < |s.log| ==> (Ran(s.log + [e], i, k) <==> Ran(s.log, i, k));
  }

  /** The row that was found had expired, so what it executed is at least a validity period ago. */
  lemma CommitKeepsSpaced(s: State, x: Txn, e: Entry)
    requires RowsOk(s.rows, s.last, s.log) && Spaced(s.log) && TxnOk(s.rows, s.log, x) && x.phase == Completed
    requires e.executed && e.key == x.key && e.now == x.now
    ensures Spaced(s.log + [e])
  {
    var log' := s.log + [e];
    forall i: nat, j: nat, k | i < j && Ran(log', i, k) && Ran(log', j, k)
      ensures log'[i].now + I.VALIDITY <= log'[j].now
    {
      RanBefore(s.log, e, i, k);
      RanBefore(s.log, e, j, k);
      if j == |s.log| && i < s.last[k] {
        assert Ran(s.log, s.last[k], k);
      }
    }
  }

  lemma CommitKeepsInv(s: State, t: Tx)
    requires Inv(s) && Enabled(s, Commit(t))
    ensures Inv(Apply(s, Commit(t)))
  {
    var x := s.open[t];
    assert TxnOk(s.rows, s.log, x);
    var e := EntryOf(x, true, I.Replay(x.row.value.status.value, x.row.value.body));
    CommitKeepsRows(s, x, e);
    CommitKeepsSpaced(s, x, e);
    LogGrows(s.log, e);
    forall u | u in s.open && u != t
      ensures TxnOk(s.rows[x.key := x.row.value], s.log + [e], s.open[u])
    {
      TxnSurvivesCommit(s.rows, s.log, s.open[u], x.key, x.row.value);
      TxnUnmoved(s.rows[x.key := x.row.value], s.log, e, s.open[u]);
    }
  }

  lemma ReplyKeepsInv(s: State, t: Tx)
    requires Inv(s) && Enabled(s, Reply(t))
    ensures Inv(Apply(s, Reply(t)))
  {
    var x := s.open[t];
    assert TxnOk(s.rows, s.log, x);
    var e := EntryOf(x, false, x.phase.reply);
    ReplyIsExplained(s, x);
    ReplyKeepsRows(s, e);
    LogGrows(s.log, e);
    forall u | u in s.open && u != t
      ensures TxnOk(s.rows, s.log + [e], s.open[u])
    {
      TxnUnmoved(s.rows, s.log, e, s.open[u]);
    }
  }

  lemma OwnStepKeepsInv(s: State, step: Step)
    requires Inv(s) && Enabled(s, step) && !step.Commit? && !step.Reply?
    ensures Inv(Apply(s, step))
  {
    if step.t in s.open {
      assert TxnOk(s.rows, s.log, s.open[step.t]);
    }
    if !step.Rollback? {
      assert TxnOk(s.rows, s.log, Apply(s, step).open[step.t]);
    }
  }

  // ---- whole runs -------------------------------------------------------------------------------

  ghost predicate Next(s: State, step: Step, s': State) {
    Enabled(s, step) && s' == Apply(s, step)
  }

  ghost predicate Run(states: seq<State>, steps: seq<Step>) {
    && |states| == |steps| + 1 && Init(states[0])
    && forall i, j :: 0 <= i < |steps| && j == i + 1 ==> Next(states[i], steps[i], states[j])
  }

  lemma {:induction false} RunKeepsInv(states: seq<State>, steps: seq<Step>, i: nat)
    requires Run(states, steps) && i < |states|
    ensures Inv(states[i])
  {
    if i > 0 {
      RunKeepsInv(states, steps, i - 1);
      assert Next(states[i - 1], steps[i - 1], states[i]);
      var step := steps[i - 1];
      if step.Commit? {
        CommitKeepsInv(states[i - 1], step.t);
      } else if step.Reply? {
        ReplyKeepsInv(states[i - 1], step.t);
      } else {
        OwnStepKeepsInv(states[i - 1], step);
      }
    }
  }

  /** However requests interleave, a command runs at most once in any 24 hours for its key. */
  lemma OncePerValidity(states: seq<State>, steps: seq<Step>, n: nat, i: nat, j: nat, k: I.Key)
    requires Run(states, steps) && n < |states|
    requires i < j && Ran(states[n].log, i, k) && Ran(states[n].log, j, k)
    ensures states[n].log[i].now + I.VALIDITY <= states[n].log[j].now
  {
    RunKeepsInv(states, steps, n);
  }

  /** No committed row lacks an outcome, so a lookup never answers that a request is in progress. */
  lemma CommittedMeansComplete(states: seq<State>, steps: seq<Step>, n: nat, k: I.Key, hash: I.Hash, now: I.Time)
    requires Run(states, steps) && n < |states| && k in states[n].rows
    ensures states[n].rows[k].status.Some? && I.Decide(Some(states[n].rows[k]), hash, now) != I.Refuse(I.InProgress)
  {
    RunKeepsInv(states, steps, n);
  }

  /**
   A request that began after an execution committed, within its 24 hours, never executes. If that was
   still the last execution when it was answered, it got the stored outcome verbatim, or, with another
   hash, a mismatch.
   */
  lemma RepliesReplay(states: seq<State>, steps: seq<Step>, n: nat, i: nat, j: nat, k: I.Key)
    requires Run(states, steps) && n < |states|
    requires i < j < |states[n].log| && Ran(states[n].log, i, k) && states[n].log[j].key == k && i < states[n].log[j].since
    requires states[n].log[j].now < states[n].log[i].now + I.VALIDITY
    ensures !states[n].log[j].executed && states[n].log[j].reply != I.Refuse(I.InProgress)
    ensures (forall l: nat :: i < l < j ==> !Ran(states[n].log, l, k)) ==>
              states[n].log[j].reply ==
                if states[n].log[j].hash == states[n].log[i].hash then states[n].log[i].reply else I.Refuse(I.Mismatch)
  {
    RunKeepsInv(states, steps, n);
    var log := states[n].log;
    assert EntryOk(log, j, log[j]);
    if log[j].executed {
      assert Ran(log, j, k);
    } else {
      var e: nat :| Explains(log, e, j, log[j]);
      assert i <= e;
    }
  }

  /** Every reply that is not an execution repeats or refuses on behalf of one that committed before it. */
  lemma NothingFromNowhere(states: seq<State>, steps: seq<Step>, n: nat, j: nat)
    requires Run(states, steps) && n < |states| && j < |states[n].log| && !states[n].log[j].executed
    ensures exists i: nat :: Explains(states[n].log, i, j, states[n].log[j])
  {
    RunKeepsInv(states, steps, n);
    assert EntryOk(states[n].log, j, states[n].log[j]);
  }

  // ---- a request with no other beside it --------------------------------------------------------

  ghost predicate By(t: Tx, states: seq<State>, steps: seq<Step>, i: nat)
    requires |states| == |steps| + 1 && i < |steps|
  {
    steps[i].t == t && Enabled(states[i], steps[i]) && states[i + 1] == Apply(states[i], steps[i])
  }

  ghost predicate Path(t: Tx, states: seq<State>, steps: seq<Step>) {
    |states| == |steps| + 1 && forall i: nat :: i < |steps| ==> By(t, states, steps, i)
  }

  /** Some statements of one transaction, one after another, lead from the one state to the other. */
  ghost predicate Leads(t: Tx, s: State, s': State) {
    exists states: seq<State>, steps: seq<Step> :: Path(t, states, steps) && states[0] == s && states[|steps|] == s'
  }

  lemma LeadsNowhere(t: Tx, s: State)
    ensures Leads(t, s, s)
  {
    var none: seq<Step> := [];
    assert Path(t, [s], none);
  }

  lemma LeadsOn(t: Tx, s: State, step: Step, s': State)
    requires Enabled(s, step) && step.t == t && Leads(t, Apply(s, step), s')
    ensures Leads(t, s, s')
  {
    var states: seq<State>, steps: seq<Step> :| Path(t, states, steps) && states[0] == Apply(s, step) && states[|steps|] == s';
    var states', steps' := [s] + states, [step] + steps;
    forall i: nat | i < |steps'|
      ensures By(t, states', steps', i)
    {
      assert i > 0 ==> By(t, states, steps, i - 1);
    }
    assert Path(t, states', steps');
  }

  lemma CompletedAndCommitted(s: State, t: Tx, x: Txn, status: nat, body: I.Body, s': State)
    requires x.phase == Executing && x.row == Some(I.InFlight(x.hash, x.now)) && s.open == map[t := x]
    requires s'.rows == s.rows[x.key := I.Row(x.hash, Some(status), Some(body), x.now, x.now + 86400)]
    requires s'.last == s.last[x.key := |s.log|] && s'.open == map[]
    requires s'.log == s.log + [Entry(x.key, x.hash, x.now, x.since, true, I.Replay(status, Some(body)))]
    ensures Leads(t, s, s')
  {
    var s1 := Apply(s, Complete(t, status, body));
    assert Apply(s1, Commit(t)) == s';
    LeadsNowhere(t, s');
    LeadsOn(t, s1, Commit(t), s');
    LeadsOn(t, s, Complete(t, status, body), s');
  }

  ghost function RowFor(s: State, key: I.Key): Option<I.Row> {
    if key in s.rows then Some(s.rows[key]) else None
  }

  /** A request alone that finds no live row executes once and leaves its outcome for 24 hours. */
  lemma AloneExecutes(s: State, t: Tx, key: I.Key, hash: I.Hash, now: I.Time, status: nat, body: I.Body)
    requires s.open == map[] && I.Decide(RowFor(s, key), hash, now).Execute?
    ensures Leads(t, s,
            State(s.rows[key := I.Row(hash, Some(status), Some(body), now, now + 86400)], s.last[key := |s.log|],
                        s.log + [Entry(key, hash, now, |s.log|, true, I.Replay(status, Some(body)))], map[]))
  {
    var s' := State(s.rows[key := I.Row(hash, Some(status), Some(body), now, now + 86400)], s.last[key := |s.log|],
                    s.log + [Entry(key, hash, now, |s.log|, true, I.Replay(status, Some(body)))], map[]);
    var s1 := Apply(s, Begin(t, key, hash, now));
    var s2 := Apply(s1, Look(t));
    var executing := Txn(key, hash, now, |s.log|, Executing, true, Some(I.InFlight(hash, now)));
    var s3 := s.(open := map[t := executing]);
    CompletedAndCommitted(s3, t, executing, status, body, s');
    if key in s.rows {
      assert s2 == s3;
    } else {
      assert Apply(s2, Insert(t)) == s3;
      LeadsOn(t, s2, Insert(t), s');
    }
    LeadsOn(t, s1, Look(t), s');
    LeadsOn(t, s, Begin(t, key, hash, now), s');
  }

  /** One that finds a live row is answered from it, and writes nothing. */
  lemma AloneIsAnswered(s: State, t: Tx, key: I.Key, hash: I.Hash, now: I.Time)
    requires s.open == map[] && !I.Decide(RowFor(s, key), hash, now).Execute?
    ensures Leads(t, s,
                  State(s.rows, s.last, s.log + [Entry(key, hash, now, |s.log|, false, I.Decide(RowFor(s, key), hash, now))], map[]))
  {
    var s' := State(s.rows, s.last, s.log + [Entry(key, hash, now, |s.log|, false, I.Decide(RowFor(s, key), hash, now))], map[]);
    var s1 := Apply(s, Begin(t, key, hash, now));
    var s2 := Apply(s1, Look(t));
    assert Apply(s2, Reply(t)) == s';
    LeadsNowhere(t, s');
    LeadsOn(t, s2, Reply(t), s');
    LeadsOn(t, s1, Look(t), s');
    LeadsOn(t, s, Begin(t, key, hash, now), s');
  }
}
