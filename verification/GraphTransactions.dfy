/**
 Concurrent dependency writers: API edges, gates, Milestone creation and import accepts, interleaved
 statement by statement. A transaction sees the committed rows under its own writes (READ COMMITTED);
 the per-Event advisory lock is held to the end of the transaction.
 */
module GraphTransactions {
  import opened Prelude
  import opened Digraph
  import opened DependencyRows

  type Tx = nat

  /** An open transaction: locks held, uncommitted row images, and the edge whose cycle check just passed. */
  datatype Txn = Txn(locks: set<Id>, writes: map<Id, Row>, passed: Option<(Id, Edge)>)

  datatype State = State(committed: map<Id, Row>, open: map<Tx, Txn>)

  datatype Step =
    | Begin(t: Tx)
    | LockGraph(t: Tx, event: Id)
    | CheckPasses(t: Tx, event: Id, edge: Edge)
    | InsertLink(t: Tx, id: Id, link: Link)
    | InsertContributions(t: Tx, event: Id, milestone: Node, links: map<Id, Link>)
    | SoftDelete(t: Tx, id: Id)
    | Commit(t: Tx)
    | Rollback(t: Tx)

  ghost function View(s: State, t: Tx): map<Id, Row>
    requires t in s.open
  {
    s.committed + s.open[t].writes
  }

  ghost predicate Init(s: State) {
    s.committed == map[] && s.open == map[]
  }

  ghost predicate FreshRow(s: State, id: Id) {
    id !in s.committed && forall u :: u in s.open ==> id !in s.open[u].writes
  }

  ghost predicate Untouching(rows: map<Id, Row>, n: Node) {
    forall id :: id in rows ==> Ends(rows[id].link).src != n && Ends(rows[id].link).dst != n
  }

  /** A new Milestone's id is new to every row, committed or not. */
  ghost predicate FreshNode(s: State, n: Node) {
    Untouching(s.committed, n) && forall u :: u in s.open ==> Untouching(s.open[u].writes, n)
  }

  ghost predicate ContributionsInto(links: map<Id, Link>, milestone: Node) {
    forall id :: id in links ==> links[id].Contribution? && links[id].into == milestone && links[id].task != milestone
  }

  ghost function RowsOf(links: map<Id, Link>, event: Id): map<Id, Row> {
    map id | id in links :: Row(event, links[id], false)
  }

  /** The state after t buffers some row images; any passed check is used up. */
  ghost function Buffered(s: State, t: Tx, rows: map<Id, Row>): State
    requires t in s.open
  {
    s.(open := s.open[t := s.open[t].(writes := s.open[t].writes + rows, passed := None)])
  }

  /** Whether a statement may run now. `locking` is false only to show what holding the lock is for. */
  ghost predicate Enabled(locking: bool, s: State, step: Step) {
    match step
    case Begin(t) => t !in s.open
    case LockGraph(t, event) =>
      t in s.open && forall u :: u in s.open && u != t ==> event !in s.open[u].locks
    case CheckPasses(t, event, edge) =>
      t in s.open && (locking ==> event in s.open[t].locks) && !Reaches(Edges(View(s, t), event), edge.dst, edge.src)
    case InsertLink(t, id, link) =>
      && t in s.open && FreshRow(s, id) && !link.Contribution?
      && s.open[t].passed.Some? && s.open[t].passed.value.1 == Ends(link)
    case InsertContributions(t, event, milestone, links) =>
      && t in s.open && event in s.open[t].locks && FreshNode(s, milestone)
      && (forall id :: id in links ==> FreshRow(s, id)) && ContributionsInto(links, milestone)
    case SoftDelete(t, id) =>
      t in s.open && id in View(s, t) && View(s, t)[id].event in s.open[t].locks
    case Commit(t) => t in s.open
    case Rollback(t) => t in s.open
  }

  /** What the statement does. */
  ghost function Apply(s: State, step: Step): State
    requires Enabled(false, s, step)
  {
    match step
    case Begin(t) => s.(open := s.open[t := Txn({}, map[], None)])
    case LockGraph(t, event) => s.(open := s.open[t := s.open[t].(locks := s.open[t].locks + {event})])
    case CheckPasses(t, event, edge) => s.(open := s.open[t := s.open[t].(passed := Some((event, edge)))])
    case InsertLink(t, id, link) => Buffered(s, t, map[id := Row(s.open[t].passed.value.0, link, false)])
    case InsertContributions(t, event, milestone, links) => Buffered(s, t, RowsOf(links, event))
    case SoftDelete(t, id) => Buffered(s, t, map[id := View(s, t)[id].(deleted := true)])
    case Commit(t) => State(View(s, t), s.open - {t})
    case Rollback(t) => s.(open := s.open - {t})
  }

  /** One statement of one transaction. */
  ghost predicate Next(locking: bool, s: State, step: Step, s': State) {
    Enabled(locking, s, step) && s' == Apply(s, step)
  }

  /** A finite execution from the empty store. */
  ghost predicate Run(locking: bool, states: seq<State>, steps: seq<Step>) {
    && |states| == |steps| + 1 && Init(states[0])
    && forall i, j :: 0 <= i && j == i + 1 && j < |states| ==> Next(locking, states[i], steps[i], states[j])
  }

  // ---- invariant --------------------------------------------------------------------------------

  ghost predicate LocksDisjoint(s: State) {
    forall t, u, event :: t in s.open && u in s.open && t != u && event in s.open[t].locks ==> event !in s.open[u].locks
  }

  /** Uncommitted rows belong to Events their transaction has locked, and never move between Events. */
  ghost predicate WritesLocked(s: State) {
    && (forall t, id :: t in s.open && id in s.open[t].writes ==> s.open[t].writes[id].event in s.open[t].locks)
    && (forall t, id :: t in s.open && id in s.open[t].writes && id in s.committed ==>
          s.open[t].writes[id].event == s.committed[id].event)
    && (forall t, u, id :: t in s.open && u in s.open && t != u && id in s.open[t].writes ==> id !in s.open[u].writes)
  }

  ghost predicate HolderAcyclic(s: State, t: Tx)
    requires t in s.open
  {
    && (forall event :: event in s.open[t].locks ==> Acyclic(Edges(View(s, t), event)))
    && (s.open[t].passed.Some? ==>
          var (event, edge) := s.open[t].passed.value;
          event in s.open[t].locks && !Reaches(Edges(View(s, t), event), edge.dst, edge.src))
  }

  ghost predicate Inv(s: State) {
    && LocksDisjoint(s) && WritesLocked(s) && AllAcyclic(s.committed)
    && forall t :: t in s.open ==> HolderAcyclic(s, t)
  }

  lemma SameEdges(a: map<Id, Row>, b: map<Id, Row>, event: Id)
    requires forall id :: Live(a, event, id) ==> id in b && b[id] == a[id]
    requires forall id :: Live(b, event, id) ==> id in a && a[id] == b[id]
    ensures Edges(a, event) == Edges(b, event)
  {
    forall e
      ensures e in Edges(a, event) <==> e in Edges(b, event)
    {
      if e in Edges(a, event) {
        var id :| id in a && Live(a, event, id) && Traversed(a[id].link) && Ends(a[id].link) == e;
        assert Live(b, event, id);
      }
      if e in Edges(b, event) {
        var id :| id in b && Live(b, event, id) && Traversed(b[id].link) && Ends(b[id].link) == e;
        assert Live(a, event, id);
      }
    }
  }

  /** A transaction that has not locked an Event sees its committed graph. */
  lemma UnlockedView(s: State, t: Tx, event: Id)
    requires WritesLocked(s) && t in s.open && event !in s.open[t].locks
    ensures Edges(View(s, t), event) == Edges(s.committed, event)
  {
    SameEdges(View(s, t), s.committed, event);
  }

  lemma KeepsLock(s: State, t: Tx, event: Id, s': State)
    requires Inv(s) && Next(true, s, LockGraph(t, event), s')
    ensures Inv(s')
  {
    forall u | u in s'.open
      ensures HolderAcyclic(s', u)
    {
      assert View(s', u) == View(s, u);
      assert HolderAcyclic(s, u);
      if u == t && event !in s.open[t].locks {
        UnlockedView(s, t, event);
        assert Acyclic(Edges(s.committed, event));
      }
    }
  }

  ghost predicate LockedAcyclic(view: map<Id, Row>, locks: set<Id>) {
    forall event :: event in locks ==> Acyclic(Edges(view, event))
  }

  lemma InsertIntoView(view: map<Id, Row>, locks: set<Id>, id: Id, event: Id, link: Link)
    requires LockedAcyclic(view, locks) && id !in view
    requires !Reaches(Edges(view, event), Ends(link).dst, Ends(link).src)
    ensures LockedAcyclic(view[id := Row(event, link, false)], locks)
  {
    var after := view[id := Row(event, link, false)];
    forall e | e in locks
      ensures Acyclic(Edges(after, e))
    {
      InsertedEdges(view, id, Row(event, link, false), e);
      if e == event {
        EdgeKeepsAcyclic(Edges(view, e), Ends(link));
        SubgraphAcyclic(Edges(view, e) + {Ends(link)}, Edges(after, e));
      } else {
        assert Edges(after, e) == Edges(view, e);
      }
    }
  }

  lemma ContributionsIntoView(view: map<Id, Row>, locks: set<Id>, event: Id, milestone: Node, links: map<Id, Link>)
    requires LockedAcyclic(view, locks) && Untouching(view, milestone) && ContributionsInto(links, milestone)
    requires forall id :: id in links ==> id !in view
    ensures LockedAcyclic(view + RowsOf(links, event), locks)
  {
    var after := view + RowsOf(links, event);
    forall e | e in locks
      ensures Acyclic(Edges(after, e))
    {
      var into := set x | x in Edges(after, e) && x.dst == milestone && x.src != milestone;
      FreshSinkKeepsAcyclic(Edges(view, e), into, milestone);
      forall x | x in Edges(after, e)
        ensures x in Edges(view, e) + into
      {
        var id :| id in after && Live(after, e, id) && Traversed(after[id].link) && Ends(after[id].link) == x;
        if id !in links {
          assert Live(view, e, id);
        }
      }
      SubgraphAcyclic(Edges(view, e) + into, Edges(after, e));
    }
  }

  lemma DeleteFromView(view: map<Id, Row>, locks: set<Id>, id: Id)
    requires LockedAcyclic(view, locks) && id in view
    ensures LockedAcyclic(view[id := view[id].(deleted := true)], locks)
  {
    var after := view[id := view[id].(deleted := true)];
    forall e | e in locks
      ensures Acyclic(Edges(after, e))
    {
      DeletedEdges(view, id, e);
      SubgraphAcyclic(Edges(view, e), Edges(after, e));
    }
  }

  /** What the lock and the fresh ids give a writer: its rows are its own to write. */
  ghost predicate MayWrite(s: State, t: Tx, rows: map<Id, Row>)
    requires t in s.open
  {
    forall id :: id in rows ==>
      && rows[id].event in s.open[t].locks
      && (id in s.committed ==> s.committed[id].event == rows[id].event)
      && forall u :: u in s.open && u != t ==> id !in s.open[u].writes
  }

  lemma BufferedShape(s: State, t: Tx, rows: map<Id, Row>)
    requires LocksDisjoint(s) && WritesLocked(s) && t in s.open && MayWrite(s, t, rows)
    ensures LocksDisjoint(Buffered(s, t, rows)) && WritesLocked(Buffered(s, t, rows))
  {
  }

  lemma BufferedView(s: State, t: Tx, rows: map<Id, Row>, u: Tx)
    requires t in s.open && LockedAcyclic(View(s, t) + rows, s.open[t].locks)
    requires u in s.open && HolderAcyclic(s, u)
    ensures HolderAcyclic(Buffered(s, t, rows), u)
  {
    var s' := Buffered(s, t, rows);
    if u == t {
      assert View(s', t) == View(s, t) + rows;
    } else {
      assert View(s', u) == View(s, u);
    }
  }

  lemma BufferedInv(s: State, t: Tx, rows: map<Id, Row>)
    requires Inv(s) && t in s.open && MayWrite(s, t, rows)
    requires LockedAcyclic(View(s, t) + rows, s.open[t].locks)
    ensures Inv(Buffered(s, t, rows))
  {
    BufferedShape(s, t, rows);
    var s' := Buffered(s, t, rows);
    forall u | u in s'.open
      ensures HolderAcyclic(s', u)
    {
      BufferedView(s, t, rows, u);
    }
  }

  lemma InsertView(s: State, t: Tx, id: Id, link: Link)
    requires t in s.open && HolderAcyclic(s, t) && id !in View(s, t)
    requires s.open[t].passed.Some? && s.open[t].passed.value.1 == Ends(link)
    ensures LockedAcyclic(View(s, t) + map[id := Row(s.open[t].passed.value.0, link, false)], s.open[t].locks)
  {
    var event := s.open[t].passed.value.0;
    InsertIntoView(View(s, t), s.open[t].locks, id, event, link);
    assert View(s, t) + map[id := Row(event, link, false)] == View(s, t)[id := Row(event, link, false)];
  }

  lemma DeleteView(s: State, t: Tx, id: Id)
    requires t in s.open && HolderAcyclic(s, t) && id in View(s, t)
    ensures LockedAcyclic(View(s, t) + map[id := View(s, t)[id].(deleted := true)], s.open[t].locks)
  {
    var row := View(s, t)[id].(deleted := true);
    DeleteFromView(View(s, t), s.open[t].locks, id);
    assert View(s, t) + map[id := row] == View(s, t)[id := row];
  }

  lemma MayDelete(s: State, t: Tx, id: Id)
    requires LocksDisjoint(s) && WritesLocked(s) && t in s.open
    requires id in View(s, t) && View(s, t)[id].event in s.open[t].locks
    ensures MayWrite(s, t, map[id := View(s, t)[id].(deleted := true)])
  {
  }

  /** What a transaction commits is acyclic: by its checks where it holds the lock, as it was elsewhere. */
  lemma ViewIsAcyclic(s: State, t: Tx)
    requires WritesLocked(s) && AllAcyclic(s.committed) && t in s.open && HolderAcyclic(s, t)
    ensures AllAcyclic(View(s, t))
  {
    forall event {:trigger Edges(View(s, t), event)}
      ensures Acyclic(Edges(View(s, t), event))
    {
      if event !in s.open[t].locks {
        UnlockedView(s, t, event);
        assert Acyclic(Edges(s.committed, event));
      }
    }
  }

  lemma CommitShape(s: State, t: Tx, s': State)
    requires LocksDisjoint(s) && WritesLocked(s) && t in s.open && s' == State(View(s, t), s.open - {t})
    ensures LocksDisjoint(s') && WritesLocked(s')
  {
  }

  /** A commit of t leaves the graphs that another transaction has locked as it sees them. */
  lemma CommitHolder(s: State, t: Tx, u: Tx, s': State)
    requires LocksDisjoint(s) && WritesLocked(s) && t in s.open && s' == State(View(s, t), s.open - {t})
    requires u in s.open && u != t && HolderAcyclic(s, u)
    ensures HolderAcyclic(s', u)
  {
    forall event | event in s.open[u].locks
      ensures Edges(View(s', u), event) == Edges(View(s, u), event)
    {
      SameEdges(View(s', u), View(s, u), event);
    }
  }

  lemma KeepsCommit(s: State, t: Tx, s': State)
    requires Inv(s) && Next(true, s, Commit(t), s')
    ensures Inv(s')
  {
    assert HolderAcyclic(s, t);
    ViewIsAcyclic(s, t);
    CommitShape(s, t, s');
    forall u | u in s'.open
      ensures HolderAcyclic(s', u)
    {
      assert HolderAcyclic(s, u);
      CommitHolder(s, t, u, s');
    }
  }

  lemma KeepsInsert(s: State, t: Tx, id: Id, link: Link, s': State)
    requires Inv(s) && Next(true, s, InsertLink(t, id, link), s')
    ensures Inv(s')
  {
    assert HolderAcyclic(s, t);
    InsertView(s, t, id, link);
    BufferedInv(s, t, map[id := Row(s.open[t].passed.value.0, link, false)]);
  }

  lemma KeepsContributions(s: State, t: Tx, event: Id, milestone: Node, links: map<Id, Link>, s': State)
    requires Inv(s) && Next(true, s, InsertContributions(t, event, milestone, links), s')
    ensures Inv(s')
  {
    assert HolderAcyclic(s, t);
    ContributionsIntoView(View(s, t), s.open[t].locks, event, milestone, links);
    BufferedInv(s, t, RowsOf(links, event));
  }

  lemma KeepsDelete(s: State, t: Tx, id: Id, s': State)
    requires Inv(s) && Next(true, s, SoftDelete(t, id), s')
    ensures Inv(s')
  {
    assert HolderAcyclic(s, t);
    DeleteView(s, t, id);
    MayDelete(s, t, id);
    BufferedInv(s, t, map[id := View(s, t)[id].(deleted := true)]);
  }

  /** Steps that write no row leave every surviving view as it was. */
  lemma KeepsViews(s: State, step: Step, s': State)
    requires Inv(s) && Next(true, s, step, s')
    requires step.Begin? || step.CheckPasses? || step.Rollback?
    ensures Inv(s')
  {
    forall u | u in s'.open
      ensures HolderAcyclic(s', u)
    {
      if u in s.open {
        assert HolderAcyclic(s, u);
        KeepsView(s, step, s', u);
      } else {
        assert s'.open[u].locks == {} && s'.open[u].passed == None;
      }
    }
  }

  lemma KeepsView(s: State, step: Step, s': State, u: Tx)
    requires Next(true, s, step, s') && u in s.open && u in s'.open && HolderAcyclic(s, u)
    requires step.Begin? || step.CheckPasses? || step.Rollback?
    ensures HolderAcyclic(s', u)
  {
    assert View(s', u) == View(s, u);
  }

  lemma StepKeepsInv(s: State, step: Step, s': State)
    requires Inv(s) && Next(true, s, step, s')
    ensures Inv(s')
  {
    match step
    case Begin(t) => KeepsViews(s, step, s');
    case LockGraph(t, event) => KeepsLock(s, t, event, s');
    case CheckPasses(t, event, edge) => KeepsViews(s, step, s');
    case InsertLink(t, id, link) => KeepsInsert(s, t, id, link, s');
    case InsertContributions(t, event, milestone, links) => KeepsContributions(s, t, event, milestone, links, s');
    case SoftDelete(t, id) => KeepsDelete(s, t, id, s');
    case Commit(t) => KeepsCommit(s, t, s');
    case Rollback(t) => KeepsViews(s, step, s');
  }

  lemma {:induction false} RunKeepsInv(states: seq<State>, steps: seq<Step>, i: nat)
    requires Run(true, states, steps) && i < |states|
    ensures Inv(states[i])
  {
    if i == 0 {
      EmptyAcyclic();
      assert forall event :: Edges(states[0].committed, event) == {};
    } else {
      RunKeepsInv(states, steps, i - 1);
      StepKeepsInv(states[i - 1], steps[i - 1], states[i]);
    }
  }

  /** Some execution ends in this state. */
  ghost predicate Reachable(locking: bool, s: State) {
    exists states: seq<State>, steps: seq<Step> :: Run(locking, states, steps) && states[|states| - 1] == s
  }

  /** In every interleaving of any writers, every committed graph of every Event is acyclic. */
  lemma NeverCommitsACycle(s: State, event: Id)
    requires Reachable(true, s)
    ensures Acyclic(Edges(s.committed, event))
  {
    var states: seq<State>, steps: seq<Step> :| Run(true, states, steps) && states[|states| - 1] == s;
    RunKeepsInv(states, steps, |states| - 1);
  }

  /** And so is the full graph of an Event whose live contributions are all required. */
  lemma NeverCommitsAFullCycle(s: State, event: Id)
    requires Reachable(true, s)
    requires forall id :: id in s.committed && Live(s.committed, event, id) ==> Traversed(s.committed[id].link)
    ensures Acyclic(AllEdges(s.committed, event))
  {
    NeverCommitsACycle(s, event);
    RequiredOnlyIsWhole(s.committed, event);
  }

  // ---- what the guarantee rests on, and where it stops ------------------------------------------

  lemma Start(locking: bool, s: State)
    requires Init(s)
    ensures Reachable(locking, s)
  {
    assert Run(locking, [s], []);
  }

  lemma OneMore(locking: bool, s: State, step: Step)
    requires Reachable(locking, s) && Enabled(locking, s, step)
    ensures Reachable(locking, Apply(s, step))
  {
    var states: seq<State>, steps: seq<Step> :| Run(locking, states, steps) && states[|states| - 1] == s;
    assert Run(locking, states + [Apply(s, step)], steps + [step]);
  }

  lemma TwoCycle(es: set<Edge>, a: Node, b: Node)
    requires Edge(a, b) in es && Edge(b, a) in es
    ensures !Acyclic(es)
  {
    assert IsPath(es, [a, b, a]);
  }

  lemma NoEdgesNoReach(es: set<Edge>, a: Node, b: Node)
    requires a != b && es == {}
    ensures !Reaches(es, a, b)
  {
    EmptyAcyclic();
    RankedIsAcyclic(es + {Edge(b, a)}, map[b := 0, a := 1]);
    EdgeKeepsAcyclic(es, Edge(b, a));
  }

  const OPTIONAL_LINK: map<Id, Row> := map[10 := Row(0, Contribution(1, 2, false), false)]
  const GATE_LINK: map<Id, Row> := map[11 := Row(0, Gate(2, 1, Hard), false)]
  const CONTRIBUTED: State := State(map[], map[7 := Txn({0}, OPTIONAL_LINK, None)])

  lemma ContributedIsReachable()
    ensures Reachable(true, CONTRIBUTED)
  {
    var none: map<Id, Row> := map[];
    var s0 := State(none, map[]);
    var s1 := State(none, map[7 := Txn({}, none, None)]);
    var s2 := State(none, map[7 := Txn({0}, none, None)]);
    assert Reachable(true, s2) by {
      Start(true, s0);
      OneMore(true, s0, Begin(7));
      assert Apply(s0, Begin(7)) == s1;
      OneMore(true, s1, LockGraph(7, 0));
      assert s1.open[7].locks + {0} == {0};
      assert Apply(s1, LockGraph(7, 0)) == s2;
    }
    var insert := InsertContributions(7, 0, 2, map[10 := Contribution(1, 2, false)]);
    OneMore(true, s2, insert);
    assert none + RowsOf(insert.links, 0) == OPTIONAL_LINK;
    assert Apply(s2, insert) == CONTRIBUTED;
  }

  const GATED: State := State(map[], map[7 := Txn({0}, OPTIONAL_LINK + GATE_LINK, None)])

  lemma GatedIsReachable()
    ensures Reachable(true, GATED)
  {
    var checked := State(map[], map[7 := Txn({0}, OPTIONAL_LINK, Some((0, Edge(2, 1))))]);
    assert Reachable(true, checked) by {
      ContributedIsReachable();
      NoEdgesNoReach(Edges(View(CONTRIBUTED, 7), 0), 1, 2);
      OneMore(true, CONTRIBUTED, CheckPasses(7, 0, Edge(2, 1)));
      assert Apply(CONTRIBUTED, CheckPasses(7, 0, Edge(2, 1))) == checked;
    }
    OneMore(true, checked, InsertLink(7, 11, Gate(2, 1, Hard)));
    assert Apply(checked, InsertLink(7, 11, Gate(2, 1, Hard))) == GATED;
  }

  /** Milestone 2 may gate Task 1, its own optional contributor: with optional links counted there is a cycle. */
  lemma OptionalContributionsMayCycle()
    ensures exists s :: Reachable(true, s) && !Acyclic(AllEdges(s.committed, 0))
  {
    GatedIsReachable();
    var both := OPTIONAL_LINK + GATE_LINK;
    OneMore(true, GATED, Commit(7));
    assert Apply(GATED, Commit(7)) == State(both, map[]);
    assert Live(both, 0, 10) && Live(both, 0, 11);
    TwoCycle(AllEdges(both, 0), 1, 2);
  }

  const AB_LINK: map<Id, Row> := map[10 := Row(0, TaskEdge(1, 2, Hard), false)]
  const BA_LINK: map<Id, Row> := map[11 := Row(0, TaskEdge(2, 1, Hard), false)]
  const BOTH_CHECKED: State :=
    State(map[], map[7 := Txn({}, map[], Some((0, Edge(1, 2)))), 8 := Txn({}, map[], Some((0, Edge(2, 1))))])

  lemma BothCheckedIsReachable()
    ensures Reachable(false, BOTH_CHECKED)
  {
    var idle := Txn({}, map[], None);
    var s0 := State(map[], map[]);
    var s1 := State(map[], map[7 := idle]);
    var s2 := State(map[], map[7 := idle, 8 := idle]);
    var s3 := State(map[], map[7 := idle.(passed := Some((0, Edge(1, 2)))), 8 := idle]);
    assert Reachable(false, s2) by {
      Start(false, s0);
      OneMore(false, s0, Begin(7));
      assert Apply(s0, Begin(7)) == s1;
      OneMore(false, s1, Begin(8));
      assert Apply(s1, Begin(8)) == s2;
    }
    assert Reachable(false, s3) by {
      NoEdgesNoReach(Edges(View(s2, 7), 0), 2, 1);
      OneMore(false, s2, CheckPasses(7, 0, Edge(1, 2)));
      assert Apply(s2, CheckPasses(7, 0, Edge(1, 2))) == s3;
    }
    NoEdgesNoReach(Edges(View(s3, 8), 0), 1, 2);
    OneMore(false, s3, CheckPasses(8, 0, Edge(2, 1)));
    assert Apply(s3, CheckPasses(8, 0, Edge(2, 1))) == BOTH_CHECKED;
  }

  const BOTH_WROTE: State := State(map[], map[7 := Txn({}, AB_LINK, None), 8 := Txn({}, BA_LINK, None)])

  lemma BothWroteIsReachable()
    ensures Reachable(false, BOTH_WROTE)
  {
    var none: map<Id, Row> := map[];
    assert none + AB_LINK == AB_LINK && none + BA_LINK == BA_LINK;
    var s5 := State(map[], map[7 := Txn({}, AB_LINK, None), 8 := Txn({}, map[], Some((0, Edge(2, 1))))]);
    assert Reachable(false, s5) by {
      BothCheckedIsReachable();
      OneMore(false, BOTH_CHECKED, InsertLink(7, 10, TaskEdge(1, 2, Hard)));
      assert Apply(BOTH_CHECKED, InsertLink(7, 10, TaskEdge(1, 2, Hard))) == s5;
    }
    OneMore(false, s5, InsertLink(8, 11, TaskEdge(2, 1, Hard)));
    assert Apply(s5, InsertLink(8, 11, TaskEdge(2, 1, Hard))) == BOTH_WROTE;
  }

  /** Without the per-Event lock, two adds of opposite edges both pass their check and both commit. */
  lemma UnlockedWritersCommitACycle()
    ensures exists s :: Reachable(false, s) && !Acyclic(Edges(s.committed, 0))
  {
    var s7 := State(AB_LINK, map[8 := Txn({}, BA_LINK, None)]);
    var s8 := State(AB_LINK + BA_LINK, map[]);
    assert Reachable(false, s8) by {
      BothWroteIsReachable();
      OneMore(false, BOTH_WROTE, Commit(7));
      assert Apply(BOTH_WROTE, Commit(7)) == s7;
      OneMore(false, s7, Commit(8));
      assert Apply(s7, Commit(8)) == s8;
    }
    assert Live(s8.committed, 0, 10) && Live(s8.committed, 0, 11);
    TwoCycle(Edges(s8.committed, 0), 1, 2);
  }

  // ---- a transaction with no other beside it ----------------------------------------------------

  ghost predicate By(t: Tx, states: seq<State>, steps: seq<Step>, i: nat)
    requires |states| == |steps| + 1 && i < |steps|
  {
    steps[i].t == t && Enabled(true, states[i], steps[i]) && states[i + 1] == Apply(states[i], steps[i])
  }

  ghost predicate Path(t: Tx, states: seq<State>, steps: seq<Step>) {
    |states| == |steps| + 1 && forall i: nat :: i < |steps| ==> By(t, states, steps, i)
  }

  /** Some statements of one transaction, one after another, lead from the one state to the other. */
  ghost predicate Leads(t: Tx, s: State, s': State) {
    exists states: seq<State>, steps: seq<Step> :: Path(t, states, steps) && states[0] == s && states[|steps|] == s'
  }

  lemma LeadsNowhere(t: Tx, s: State)
    ensures Leads(t, s, s)
  {
    var none: seq<Step> := [];
    assert Path(t, [s], none);
  }

  lemma LeadsOn(t: Tx, s: State, step: Step, s': State)
    requires Enabled(true, s, step) && step.t == t && Leads(t, Apply(s, step), s')
    ensures Leads(t, s, s')
  {
    var states: seq<State>, steps: seq<Step> :| Path(t, states, steps) && states[0] == Apply(s, step) && states[|steps|] == s';
    var states', steps' := [s] + states, [step] + steps;
    forall i: nat | i < |steps'|
      ensures By(t, states', steps', i)
    {
      assert i > 0 ==> By(t, states, steps, i - 1);
    }
    assert Path(t, states', steps');
  }

  lemma Commits(t: Tx, rows: map<Id, Row>, x: Txn, after: map<Id, Row>)
    requires rows + x.writes == after
    ensures Leads(t, State(rows, map[t := x]), State(after, map[]))
  {
    LeadsNowhere(t, State(after, map[]));
    assert Apply(State(rows, map[t := x]), Commit(t)) == State(after, map[]);
    LeadsOn(t, State(rows, map[t := x]), Commit(t), State(after, map[]));
  }

  lemma Locked(t: Tx, rows: map<Id, Row>, event: Id, s': State)
    requires Leads(t, State(rows, map[t := Txn({event}, map[], None)]), s')
    ensures Leads(t, State(rows, map[]), s')
  {
    var none: map<Tx, Txn> := map[];
    assert {} + {event} == {event} && none[t := Txn({}, map[], None)] == map[t := Txn({}, map[], None)];
    LeadsOn(t, State(rows, map[t := Txn({}, map[], None)]), LockGraph(t, event), s');
    LeadsOn(t, State(rows, map[]), Begin(t), s');
  }

  /** A link that closes no cycle, written alone, is one more live row of its Event. */
  lemma LinkAlone(t: Tx, rows: map<Id, Row>, event: Id, id: Id, link: Link)
    requires id !in rows && !link.Contribution? && !Reaches(Edges(rows, event), Ends(link).dst, Ends(link).src)
    ensures Leads(t, State(rows, map[]), State(rows[id := Row(event, link, false)], map[]))
  {
    var s' := State(rows[id := Row(event, link, false)], map[]);
    var x1 := Txn({event}, map[], None);
    var x2 := x1.(passed := Some((event, Ends(link))));
    var x3 := x1.(writes := map[id := Row(event, link, false)]);
    Commits(t, rows, x3, s'.committed);
    assert x2.writes + x3.writes == x3.writes && map[t := x2][t := x3] == map[t := x3];
    LeadsOn(t, State(rows, map[t := x2]), InsertLink(t, id, link), s');
    assert rows + x1.writes == rows && map[t := x1][t := x2] == map[t := x2];
    LeadsOn(t, State(rows, map[t := x1]), CheckPasses(t, event, Ends(link)), s');
    Locked(t, rows, event, s');
  }

  /** A new Milestone's contributions, written alone, are live rows of its Event, required or not. */
  lemma ContributionsAlone(t: Tx, rows: map<Id, Row>, event: Id, milestone: Node, links: map<Id, Link>)
    requires Untouching(rows, milestone) && links.Keys !! rows.Keys && ContributionsInto(links, milestone)
    ensures Leads(t, State(rows, map[]), State(rows + map id | id in links :: Row(event, links[id], false), map[]))
  {
    var added := map id | id in links :: Row(event, links[id], false);
    var s' := State(rows + added, map[]);
    var x := Txn({event}, map[], None);
    var y := x.(writes := added);
    Commits(t, rows, y, s'.committed);
    assert x.writes + added == added && map[t := x][t := y] == map[t := y];
    LeadsOn(t, State(rows, map[t := x]), InsertContributions(t, event, milestone, links), s');
    Locked(t, rows, event, s');
  }

  /** A removal alone marks its row deleted and leaves the others. */
  lemma RemovalAlone(t: Tx, rows: map<Id, Row>, id: Id)
    requires id in rows
    ensures Leads(t, State(rows, map[]), State(rows[id := rows[id].(deleted := true)], map[]))
  {
    var s' := State(rows[id := rows[id].(deleted := true)], map[]);
    var x := Txn({rows[id].event}, map[], None);
    var y := x.(writes := map[id := rows[id].(deleted := true)]);
    Commits(t, rows, y, s'.committed);
    assert rows + x.writes == rows && x.writes + y.writes == y.writes && map[t := x][t := y] == map[t := y];
    LeadsOn(t, State(rows, map[t := x]), SoftDelete(t, id), s');
    Locked(t, rows, rows[id].event, s');
  }
}
