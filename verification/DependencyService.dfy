/**
 The dependency writers as one transaction runs them: the store it sees, the lock it takes, and each
 command's checks in order. A command that fails leaves every row as it was.
 */
module DependencyService {
  import opened Prelude
  import opened Digraph
  import opened DependencyRows

  datatype DependencyError =
    | SelfDependency
    | EventNotFound
    | TaskNotFound
    | MilestoneNotFound
    | DependencyNotFound
    | CrossEvent
    | AuthorizationRequired
    | DependencyExists
    | DependencyCycle(path: seq<Node>)
    | CrossEventReference
    | DuplicateContribution
    | ContextRequired
    | UserNotFound
    | AutoConfirmNotAllowed

  datatype NodeKind = TaskNode | MilestoneNode

  /** A live Task or Milestone and the Event it belongs to. Both kinds share one id space. */
  datatype NodeInfo = NodeInfo(kind: NodeKind, event: Id)

  /** Who is asking: the Events they can see and the Tasks whose upstream they may change. */
  datatype Actor = Actor(sees: set<Id>, manages: set<Node>)

  /**
   What a request for a Milestone says besides its Tasks: whether it names a Work Stream or Application, whether
   those are the Event's, whether its owner exists, and whether its confirmation mode is allowed.
   */
  datatype Form = Form(context: bool, contextHere: bool, ownerKnown: bool, modeAllowed: bool)

  /** What adding a gate to an Event's own Milestone and Task can be refused for. */
  ghost predicate GateRefusal(e: DependencyError) {
    e.AuthorizationRequired? || e.DependencyExists? || e.DependencyCycle?
  }

  ghost predicate LeadsToContributor(rows: map<Id, Row>, event: Id, contributions: seq<(Node, bool)>, gated: Node) {
    exists c :: (c, true) in contributions && Reaches(Edges(rows, event), gated, c)
  }

  /** A path into a fresh node comes through one of the edges that were just drawn into it. */
  lemma {:induction false} IntoFreshNode(es: set<Edge>, extra: set<Edge>, n: Node, p: seq<Node>)
    requires Untouched(es, n) && IsPath(es + extra, p) && |p| > 1 && p[|p| - 1] == n && p[0] != n
    requires forall e :: e in extra ==> e.src == n || e.dst == n
    ensures exists c :: Edge(c, n) in extra && Reaches(es, p[0], c)
    decreases |p|
  {
    assert Edge(p[0], p[1]) in es + extra;
    if p[1] == n {
      ReachesSelf(es, p[0]);
      assert Edge(p[0], n) in extra;
    } else {
      var rest := p[1..];
      assert IsPath(es + extra, rest);
      IntoFreshNode(es, extra, n, rest);
      var c :| Edge(c, n) in extra && Reaches(es, p[1], c);
      ReachesStep(es, p[0], p[1]);
      ReachesTrans(es, p[0], p[1], c);
    }
  }

  ghost function IntoEdges(contributions: seq<(Node, bool)>, m: Node): set<Edge> {
    set i | 0 <= i < |contributions| && contributions[i].1 :: Edge(contributions[i].0, m)
  }

  ghost function GateEdges(gates: seq<(Node, Strength)>, m: Node): set<Edge> {
    set i | 0 <= i < |gates| :: Edge(m, gates[i].0)
  }

  ghost predicate Distinct<T>(s: seq<(Node, T)>) {
    forall i, j :: 0 <= i < j < |s| ==> s[i].0 != s[j].0
  }

  /** A new Milestone is reachable from a Task exactly when the Task already led to a required contributor. */
  lemma NewMilestoneReached(rows: map<Id, Row>, event: Id, contributions: seq<(Node, bool)>, gates: seq<(Node, Strength)>,
                            m: Node, g: Node)
    requires Untouched(Edges(rows, event), m) && g != m
    requires forall i :: 0 <= i < |gates| ==> gates[i].0 != m
    ensures Reaches(Edges(rows, event) + IntoEdges(contributions, m) + GateEdges(gates, m), g, m)
            <==> LeadsToContributor(rows, event, contributions, g)
  {
    var es, extra := Edges(rows, event), IntoEdges(contributions, m) + GateEdges(gates, m);
    assert es + IntoEdges(contributions, m) + GateEdges(gates, m) == es + extra;
    if Reaches(es + extra, g, m) {
      var p :| PathFromTo(es + extra, p, g, m);
      IntoFreshNode(es, extra, m, p);
      var c: Node :| Edge(c, m) in extra && Reaches(es, g, c);
      var i :| 0 <= i < |contributions| && contributions[i].1 && Edge(contributions[i].0, m) == Edge(c, m);
      assert contributions[i] == (c, true);
    }
    if LeadsToContributor(rows, event, contributions, g) {
      var c :| (c, true) in contributions && Reaches(es, g, c);
      var i :| 0 <= i < |contributions| && contributions[i] == (c, true);
      assert Edge(contributions[i].0, m) in extra;
      ReachesMono(es, es + extra, g, c);
      ReachesStep(es + extra, c, m);
      ReachesTrans(es + extra, g, c, m);
    }
  }

  /** Each of these is a live Task of the Event. */
  ghost predicate TasksOf<T>(nodes: map<Node, NodeInfo>, event: Id, named: seq<(Node, T)>) {
    forall i :: 0 <= i < |named| ==> named[i].0 in nodes && nodes[named[i].0] == NodeInfo(TaskNode, event)
  }

  // ---- the rows a new Milestone brings ----------------------------------------------------------

  ghost function ContributionLinks(contributions: seq<(Node, bool)>, m: Node): (links: seq<Link>)
    ensures |links| == |contributions|
  {
    seq(|contributions|, i requires 0 <= i < |contributions| => Contribution(contributions[i].0, m, contributions[i].1))
  }

  ghost function GateLinks(gates: seq<(Node, Strength)>, m: Node): (links: seq<Link>)
    ensures |links| == |gates|
  {
    seq(|gates|, j requires 0 <= j < |gates| => Gate(m, gates[j].0, gates[j].1))
  }

  /** Every row from before as it was, one live row for each link under consecutive new ids, and no other row. */
  ghost predicate Added(before: map<Id, Row>, after: map<Id, Row>, base: Id, event: Id, links: seq<Link>) {
    && (forall id :: id in after <==> id in before || base <= id < base + |links|)
    && (forall id :: id in before ==> id < base && after[id] == before[id])
    && (forall i :: 0 <= i < |links| ==> after[base + i] == Row(event, links[i], false))
  }

  lemma AddedOneMore(before: map<Id, Row>, after: map<Id, Row>, base: Id, event: Id, links: seq<Link>, link: Link)
    requires Added(before, after, base, event, links)
    ensures Added(before, after[base + |links| := Row(event, link, false)], base, event, links + [link])
  {
  }

  lemma AddedTwice(before: map<Id, Row>, mid: map<Id, Row>, after: map<Id, Row>, base: Id, next: Id, event: Id, links: seq<Link>, more: seq<Link>)
    requires Added(before, mid, base, event, links) && Added(mid, after, next, event, more) && next == base + |links|
    ensures Added(before, after, base, event, links + more)
  {
    forall i | 0 <= i < |links + more|
      ensures after[base + i] == Row(event, (links + more)[i], false)
    {
      if i < |links| {
        assert base + i in mid;
      }
    }
  }

  lemma AddedEdge(before: map<Id, Row>, after: map<Id, Row>, base: Id, event: Id, links: seq<Link>, e: Edge)
    requires Added(before, after, base, event, links)
    ensures e in Edges(after, event) <==> e in Edges(before, event) || exists i :: 0 <= i < |links| && Traversed(links[i]) && Ends(links[i]) == e
  {
    if e in Edges(after, event) {
      var id :| id in after && Live(after, event, id) && Traversed(after[id].link) && Ends(after[id].link) == e;
      if id in before {
        assert Live(before, event, id);
      } else {
        assert after[base + (id - base)] == Row(event, links[id - base], false);
      }
    }
    if e in Edges(before, event) {
      var id :| id in before && Live(before, event, id) && Traversed(before[id].link) && Ends(before[id].link) == e;
      assert Live(after, event, id) && after[id] == before[id];
    }
    if i :| 0 <= i < |links| && Traversed(links[i]) && Ends(links[i]) == e {
      assert Live(after, event, base + i) && after[base + i] == Row(event, links[i], false);
    }
  }

  /** Of the contributions the required ones are edges. */
  lemma ContributionEdges(before: map<Id, Row>, after: map<Id, Row>, base: Id, event: Id, contributions: seq<(Node, bool)>, m: Node)
    requires Added(before, after, base, event, ContributionLinks(contributions, m))
    ensures Edges(after, event) == Edges(before, event) + IntoEdges(contributions, m)
  {
    var links := ContributionLinks(contributions, m);
    forall e
      ensures e in Edges(after, event) <==> e in Edges(before, event) || e in IntoEdges(contributions, m)
    {
      AddedEdge(before, after, base, event, links, e);
      assert forall i :: 0 <= i < |links| ==> (Traversed(links[i]) <==> contributions[i].1) && Ends(links[i]) == Edge(contributions[i].0, m);
    }
  }

  lemma GateRowEdges(before: map<Id, Row>, after: map<Id, Row>, base: Id, event: Id, gates: seq<(Node, Strength)>, m: Node)
    requires Added(before, after, base, event, GateLinks(gates, m))
    ensures Edges(after, event) == Edges(before, event) + GateEdges(gates, m)
  {
    var links := GateLinks(gates, m);
    forall e
      ensures e in Edges(after, event) <==> e in Edges(before, event) || e in GateEdges(gates, m)
    {
      AddedEdge(before, after, base, event, links, e);
      assert forall i :: 0 <= i < |links| ==> Traversed(links[i]) && Ends(links[i]) == Edge(m, gates[i].0);
    }
  }

  lemma NoRowTouches(rows: map<Id, Row>, event: Id, m: Node)
    requires forall id :: id in rows ==> Ends(rows[id].link).src != m && Ends(rows[id].link).dst != m
    ensures Untouched(Edges(rows, event), m)
  {
  }

  class GraphSession {
    var nodes: map<Node, NodeInfo>
    var rows: map<Id, Row>
    var locks: set<Id>
    var nextNode: Node
    var nextRow: Id

    /** Ids are never reused, and a row joins nodes of its own Event. */
    ghost predicate Valid()
      reads this
    {
      && (forall n :: n in nodes ==> n < nextNode)
      && (forall id :: id in rows ==>
            && id < nextRow
            && Ends(rows[id].link).src in nodes && Ends(rows[id].link).dst in nodes
            && nodes[Ends(rows[id].link).src].event == rows[id].event == nodes[Ends(rows[id].link).dst].event)
    }

    predicate IsTask(n: Node)
      reads this
    {
      n in nodes && nodes[n].kind == TaskNode
    }

    predicate IsMilestone(n: Node)
      reads this
    {
      n in nodes && nodes[n].kind == MilestoneNode
    }

    constructor ()
      ensures Valid() && nodes == map[] && rows == map[] && locks == {}
    {
      nodes, rows, locks, nextNode, nextRow := map[], map[], {}, 0, 0;
    }

    method LockGraph(event: Id)
      modifies this`locks
      ensures locks == old(locks) + {event}
    {
      locks := locks + {event};
    }

    method LinkAlreadyThere(event: Id, e: Edge) returns (found: bool)
      ensures found <==> LinkExists(rows, event, e)
    {
      found := false;
      var rest := rows.Keys;
      while rest != {}
        invariant rest <= rows.Keys
        invariant found <==> exists id :: id in rows && id !in rest && Live(rows, event, id)
                                          && !rows[id].link.Contribution? && Ends(rows[id].link) == e
        decreases rest
      {
        var id :| id in rest;
        rest := rest - {id};
        if rows[id].event == event && !rows[id].deleted && !rows[id].link.Contribution? && Ends(rows[id].link) == e {
          found := true;
        }
      }
    }

    /** The shared tail of both adds: duplicate check, cycle check, insert, all under the graph lock. */
    method AddChecked(event: Id, link: Link) returns (r: Outcome<Id, DependencyError>)
      requires Valid() && event in locks && !link.Contribution?
      requires Ends(link).src in nodes && nodes[Ends(link).src].event == event
      requires Ends(link).dst in nodes && nodes[Ends(link).dst].event == event
      modifies this`rows, this`nextRow
      ensures Valid()
      ensures r.Ok? <==> !LinkExists(old(rows), event, Ends(link))
                         && !Reaches(Edges(old(rows), event), Ends(link).dst, Ends(link).src)
      ensures r.Ok? ==> r.value !in old(rows) && rows == old(rows)[r.value := Row(event, link, false)]
      ensures r.Ok? ==> Edges(rows, event) == Edges(old(rows), event) + {Ends(link)}
      ensures r.Failed? ==> rows == old(rows)
      ensures r == Failed(DependencyExists) <==> LinkExists(old(rows), event, Ends(link))
      ensures r.Failed? && r.error != DependencyExists ==>
                r.error.DependencyCycle? && ShortestCycle(Edges(rows, event), Ends(link).src, Ends(link).dst, r.error.path)
      ensures AllAcyclic(old(rows)) ==> AllAcyclic(rows)
      ensures nextRow == (if r.Ok? then old(nextRow) + 1 else old(nextRow)) && (r.Ok? ==> r.value == old(nextRow))
    {
      var linked := LinkAlreadyThere(event, Ends(link));
      if linked {
        return Failed(DependencyExists);
      }
      var cycle := FindCyclePath(rows, event, Ends(link).src, Ends(link).dst);
      if cycle.Some? {
        return Failed(DependencyCycle(cycle.value));
      }
      InsertedEdges(rows, nextRow, Row(event, link, false), event);
      if AllAcyclic(rows) {
        CheckedInsertKeepsAcyclic(rows, nextRow, event, link);
      }
      r := Ok(nextRow);
      rows := rows[nextRow := Row(event, link, false)];
      nextRow := nextRow + 1;
    }

    ghost predicate SeesTask(actor: Actor, n: Node)
      reads this
    {
      n in nodes && nodes[n].kind == TaskNode && nodes[n].event in actor.sees
    }

    ghost predicate SeesMilestone(actor: Actor, n: Node)
      reads this
    {
      n in nodes && nodes[n].kind == MilestoneNode && nodes[n].event in actor.sees
    }

    /** The ends are visible, of one Event, and the actor may change what the successor waits for. */
    ghost predicate MayLink(actor: Actor, visible: bool, predecessor: Node, successor: Node)
      reads this
      requires visible ==> predecessor in nodes && successor in nodes
    {
      visible && nodes[predecessor].event == nodes[successor].event && successor in actor.manages
    }

    /** Each error exactly in its turn: self, not found, cross-Event, authority, duplicate, cycle. */
    method AddTaskDependency(actor: Actor, predecessor: Node, successor: Node, strength: Strength)
      returns (r: Outcome<Id, DependencyError>)
      requires Valid()
      modifies this`rows, this`nextRow, this`locks
      ensures Valid()
      ensures r.Failed? ==> rows == old(rows)
      ensures r == Failed(SelfDependency) <==> predecessor == successor
      ensures var visible := SeesTask(actor, predecessor) && SeesTask(actor, successor);
              && (r == Failed(TaskNotFound) <==> predecessor != successor && !visible)
              && (r == Failed(CrossEvent) <==>
                    predecessor != successor && visible && nodes[predecessor].event != nodes[successor].event)
              && (r == Failed(AuthorizationRequired) <==>
                    predecessor != successor && visible && nodes[predecessor].event == nodes[successor].event
                    && successor !in actor.manages)
              && (r == Failed(DependencyExists) <==>
                    predecessor != successor && MayLink(actor, visible, predecessor, successor)
                    && LinkExists(old(rows), nodes[successor].event, Edge(predecessor, successor)))
              && (r.Failed? && predecessor != successor && MayLink(actor, visible, predecessor, successor) ==>
                    r.error == DependencyExists || r.error.DependencyCycle?)
              && (r.Ok? <==>
                    predecessor != successor && MayLink(actor, visible, predecessor, successor)
                    && !LinkExists(old(rows), nodes[successor].event, Edge(predecessor, successor))
                    && !Reaches(Edges(old(rows), nodes[successor].event), successor, predecessor))
      ensures r.Ok? ==>
                && nodes[successor].event in locks && r.value !in old(rows)
                && rows == old(rows)[r.value := Row(nodes[successor].event, TaskEdge(predecessor, successor, strength), false)]
      ensures r.Failed? && r.error.DependencyCycle? ==>
                SeesTask(actor, successor)
                && ShortestCycle(Edges(rows, nodes[successor].event), predecessor, successor, r.error.path)
      ensures AllAcyclic(old(rows)) ==> AllAcyclic(rows)
    {
      if predecessor == successor {
        return Failed(SelfDependency);
      }
      if !IsTask(predecessor) || nodes[predecessor].event !in actor.sees
         || !IsTask(successor) || nodes[successor].event !in actor.sees {
        return Failed(TaskNotFound);
      }
      var event := nodes[successor].event;
      if nodes[predecessor].event != event {
        return Failed(CrossEvent);
      }
      if successor !in actor.manages {
        return Failed(AuthorizationRequired);
      }
      LockGraph(event);
      r := AddChecked(event, TaskEdge(predecessor, successor, strength));
    }

    method AddMilestoneGate(actor: Actor, milestone: Node, successor: Node, strength: Strength)
      returns (r: Outcome<Id, DependencyError>)
      requires Valid()
      modifies this`rows, this`nextRow, this`locks
      ensures Valid()
      ensures r.Failed? ==> rows == old(rows)
      ensures var visible := SeesTask(actor, successor) && SeesMilestone(actor, milestone);
              && (r == Failed(TaskNotFound) <==> !SeesTask(actor, successor))
              && (r == Failed(MilestoneNotFound) <==> SeesTask(actor, successor) && !SeesMilestone(actor, milestone))
              && (r == Failed(CrossEvent) <==> visible && nodes[milestone].event != nodes[successor].event)
              && (r == Failed(AuthorizationRequired) <==>
                    visible && nodes[milestone].event == nodes[successor].event && successor !in actor.manages)
              && (r == Failed(DependencyExists) <==>
                    MayLink(actor, visible, milestone, successor)
                    && LinkExists(old(rows), nodes[successor].event, Edge(milestone, successor)))
              && (r.Failed? && MayLink(actor, visible, milestone, successor) ==> r.error == DependencyExists || r.error.DependencyCycle?)
              && (r.Ok? <==>
                    MayLink(actor, visible, milestone, successor)
                    && !LinkExists(old(rows), nodes[successor].event, Edge(milestone, successor))
                    && !Reaches(Edges(old(rows), nodes[successor].event), successor, milestone))
      ensures r.Ok? ==>
                && nodes[successor].event in locks && r.value !in old(rows)
                && rows == old(rows)[r.value := Row(nodes[successor].event, Gate(milestone, successor, strength), false)]
                && Edges(rows, nodes[successor].event) == Edges(old(rows), nodes[successor].event) + {Edge(milestone, successor)}
      ensures r.Failed? && r.error.DependencyCycle? ==>
                SeesTask(actor, successor)
                && ShortestCycle(Edges(rows, nodes[successor].event), milestone, successor, r.error.path)
      ensures AllAcyclic(old(rows)) ==> AllAcyclic(rows)
      ensures old(locks) <= locks && nextRow == (if r.Ok? then old(nextRow) + 1 else old(nextRow)) && (r.Ok? ==> r.value == old(nextRow))
    {
      if !IsTask(successor) || nodes[successor].event !in actor.sees {
        return Failed(TaskNotFound);
      }
      if !IsMilestone(milestone) || nodes[milestone].event !in actor.sees {
        return Failed(MilestoneNotFound);
      }
      var event := nodes[successor].event;
      if nodes[milestone].event != event {
        return Failed(CrossEvent);
      }
      if successor !in actor.manages {
        return Failed(AuthorizationRequired);
      }
      LockGraph(event);
      r := AddChecked(event, Gate(milestone, successor, strength));
    }

    /** Both removals: a soft delete under the lock. A gate's Event is its successor's, which is the row's. */
    method RemoveLink(actor: Actor, id: Id, gate: bool) returns (r: Outcome<Id, DependencyError>)
      requires Valid()
      modifies this`rows, this`locks
      ensures Valid()
      ensures r.Ok? <==> && id in old(rows) && !old(rows)[id].deleted
                         && (if gate then old(rows)[id].link.Gate? else old(rows)[id].link.TaskEdge?)
                         && old(rows)[id].event in actor.sees && Ends(old(rows)[id].link).dst in actor.manages
      ensures r == Failed(AuthorizationRequired) <==>
                && id in old(rows) && !old(rows)[id].deleted
                && (if gate then old(rows)[id].link.Gate? else old(rows)[id].link.TaskEdge?)
                && old(rows)[id].event in actor.sees && Ends(old(rows)[id].link).dst !in actor.manages
      ensures r.Failed? ==> r.error == AuthorizationRequired || r.error == DependencyNotFound
      ensures r.Ok? ==> rows == old(rows)[id := old(rows)[id].(deleted := true)] && rows[id].event in locks && r.value == id
      ensures r.Failed? ==> rows == old(rows)
      ensures AllAcyclic(old(rows)) ==> AllAcyclic(rows)
    {
      if id !in rows || rows[id].deleted || (if gate then !rows[id].link.Gate? else !rows[id].link.TaskEdge?)
         || rows[id].event !in actor.sees {
        return Failed(DependencyNotFound);
      }
      if Ends(rows[id].link).dst !in actor.manages {
        return Failed(AuthorizationRequired);
      }
      LockGraph(rows[id].event);
      if AllAcyclic(rows) {
        DeleteKeepsAcyclic(rows, id);
      }
      rows := rows[id := rows[id].(deleted := true)];
      return Ok(id);
    }

    method InsertContribution(event: Id, m: Node, task: Node, required: bool)
      requires Valid() && IsMilestone(m) && IsTask(task) && nodes[m].event == event == nodes[task].event
      requires forall id :: id in rows ==> Ends(rows[id].link).src != m
      modifies this`rows, this`nextRow
      ensures Valid() && nextRow == old(nextRow) + 1
      ensures old(nextRow) !in old(rows) && rows == old(rows)[old(nextRow) := Row(event, Contribution(task, m, required), false)]
      ensures Edges(rows, event) == Edges(old(rows), event) + if required then {Edge(task, m)} else {}
      ensures AllAcyclic(old(rows)) ==> AllAcyclic(rows)
    {
      var row := Row(event, Contribution(task, m, required), false);
      InsertedEdges(rows, nextRow, row, event);
      if AllAcyclic(rows) {
        NoWayOut(Edges(rows, event), m, task);
        CheckedInsertKeepsAcyclic(rows, nextRow, event, row.link);
      }
      rows := rows[nextRow := row];
      nextRow := nextRow + 1;
    }

    /** One more row after those already added. */
    method InsertNext(event: Id, m: Node, task: Node, required: bool, ghost rows0: map<Id, Row>, ghost base: Id, ghost links: seq<Link>)
      requires Valid() && IsMilestone(m) && IsTask(task) && nodes[m].event == event == nodes[task].event
      requires forall id :: id in rows ==> Ends(rows[id].link).src != m
      requires Added(rows0, rows, base, event, links) && nextRow == base + |links|
      modifies this`rows, this`nextRow
      ensures Valid() && nextRow == old(nextRow) + 1
      ensures Added(rows0, rows, base, event, links + [Contribution(task, m, required)])
      ensures forall id :: id in rows ==> Ends(rows[id].link).src != m
      ensures AllAcyclic(old(rows)) ==> AllAcyclic(rows)
    {
      AddedOneMore(rows0, rows, base, event, links, Contribution(task, m, required));
      InsertContribution(event, m, task, required);
    }

    /** Writes the new Milestone's contribution rows; a Task named twice breaks their primary key. */
    method WriteContributions(event: Id, m: Node, contributions: seq<(Node, bool)>) returns (ok: bool)
      requires Valid() && IsMilestone(m) && nodes[m].event == event
      requires forall i :: 0 <= i < |contributions| ==> IsTask(contributions[i].0) && nodes[contributions[i].0].event == event
      requires forall id :: id in rows ==> Ends(rows[id].link).src != m
      modifies this`rows, this`nextRow
      ensures Valid() && old(nextRow) <= nextRow
      ensures ok <==> Distinct(contributions)
      ensures ok ==> Edges(rows, event) == Edges(old(rows), event) + IntoEdges(contributions, m)
      ensures ok ==> Added(old(rows), rows, old(nextRow), event, ContributionLinks(contributions, m))
                     && nextRow == old(nextRow) + |contributions|
      ensures ok ==> forall id :: id in rows ==> Ends(rows[id].link).src != m
      ensures AllAcyclic(old(rows)) ==> AllAcyclic(rows)
    {
      var i := 0;
      ghost var rows0 := rows;
      while i < |contributions|
        invariant Valid() && nextRow == old(nextRow) + i && i <= |contributions| && Distinct(contributions[..i])
        invariant Added(rows0, rows, old(nextRow), event, ContributionLinks(contributions[..i], m))
        invariant forall id :: id in rows ==> Ends(rows[id].link).src != m
        invariant AllAcyclic(rows0) ==> AllAcyclic(rows)
      {
        if exists j :: 0 <= j < i && contributions[j].0 == contributions[i].0 {
          return false;
        }
        OneMoreContribution(contributions, m, i);
        DistinctExtends(contributions, i);
        InsertNext(event, m, contributions[i].0, contributions[i].1, rows0, old(nextRow), ContributionLinks(contributions[..i], m));
        i := i + 1;
      }
      assert contributions[..i] == contributions;
      ContributionEdges(rows0, rows, old(nextRow), event, contributions, m);
      return true;
    }

    method GateOne(actor: Actor, event: Id, m: Node, g: Node, strength: Strength, ghost before: map<Id, Row>, ghost base: Id,
                   ghost links: seq<Link>) returns (r: Outcome<Id, DependencyError>)
      requires Added(before, rows, base, event, links) && nextRow == base + |links|
      requires Valid() && IsMilestone(m) && nodes[m].event == event && event in actor.sees && event in locks
      requires IsTask(g) && nodes[g].event == event
      modifies this`rows, this`nextRow, this`locks
      ensures Valid() && old(nextRow) <= nextRow && event in locks && (r.Failed? ==> GateRefusal(r.error))
      ensures r.Ok? ==> nextRow == old(nextRow) + 1 && Added(before, rows, base, event, links + [Gate(m, g, strength)])
      ensures r.Ok? <==> g in actor.manages && !LinkExists(old(rows), event, Edge(m, g)) && !Reaches(Edges(old(rows), event), g, m)
      ensures r.Ok? ==> Edges(rows, event) == Edges(old(rows), event) + {Edge(m, g)}
      ensures r.Ok? ==> forall x :: LinkExists(rows, event, Edge(m, x)) <==> LinkExists(old(rows), event, Edge(m, x)) || x == g
      ensures AllAcyclic(old(rows)) ==> AllAcyclic(rows)
    {
      ghost var was := rows;
      r := AddMilestoneGate(actor, m, g, strength);
      if r.Ok? {
        OneMoreLink(was, r.value, event, Gate(m, g, strength));
        AddedOneMore(before, was, base, event, links, Gate(m, g, strength));
      }
    }

    /** The j-th gate after the earlier ones: refused for a cycle exactly if its Task leads to a required contributor. */
    method GateNext(actor: Actor, event: Id, m: Node, ghost rows0: map<Id, Row>, ghost contributions: seq<(Node, bool)>,
                    ghost before: map<Id, Row>, ghost base: Id, gates: seq<(Node, Strength)>, j: nat)
      returns (r: Outcome<Id, DependencyError>)
      requires Valid() && IsMilestone(m) && nodes[m].event == event && event in actor.sees && event in locks
      requires j < |gates| && nodes[m].event == event && forall i :: 0 <= i < |gates| ==> IsTask(gates[i].0) && nodes[gates[i].0].event == event
      requires Untouched(Edges(rows0, event), m) && Edges(before, event) == Edges(rows0, event) + IntoEdges(contributions, m)
      requires Added(before, rows, base, event, GateLinks(gates[..j], m)) && nextRow == base + j
      modifies this`rows, this`nextRow, this`locks
      ensures Valid() && old(nextRow) <= nextRow && event in locks && (r.Failed? ==> GateRefusal(r.error))
      ensures r.Ok? <==> gates[j].0 in actor.manages && !LinkExists(old(rows), event, Edge(m, gates[j].0))
                         && !LeadsToContributor(rows0, event, contributions, gates[j].0)
      ensures r.Ok? ==> nextRow == base + j + 1 && Added(before, rows, base, event, GateLinks(gates[..j + 1], m))
      ensures r.Ok? ==> forall x :: LinkExists(rows, event, Edge(m, x)) <==> LinkExists(old(rows), event, Edge(m, x)) || x == gates[j].0
      ensures AllAcyclic(old(rows)) ==> AllAcyclic(rows)
    {
      GateRowEdges(before, rows, base, event, gates[..j], m);
      NewMilestoneReached(rows0, event, contributions, gates[..j], m, gates[j].0);
      OneMoreGateLink(gates, m, j);
      r := GateOne(actor, event, m, gates[j].0, gates[j].1, before, base, GateLinks(gates[..j], m));
    }

    /** Gates the new Milestone one Task at a time, each through the checked add; stops at the first refusal. */
    method WriteGates(actor: Actor, event: Id, m: Node, ghost rows0: map<Id, Row>, ghost contributions: seq<(Node, bool)>,
                      gates: seq<(Node, Strength)>) returns (r: Outcome<Node, DependencyError>)
      requires Valid() && IsMilestone(m) && nodes[m].event == event && event in actor.sees && event in locks
      requires forall i :: 0 <= i < |gates| ==> IsTask(gates[i].0) && nodes[gates[i].0].event == event
      requires Untouched(Edges(rows0, event), m)
      requires Edges(rows, event) == Edges(rows0, event) + IntoEdges(contributions, m)
      requires forall id :: id in rows ==> Ends(rows[id].link).src != m
      modifies this`rows, this`nextRow, this`locks
      ensures Valid() && old(nextRow) <= nextRow && event in locks && (r.Failed? ==> GateRefusal(r.error))
      ensures r.Ok? <==> Distinct(gates) && forall i :: 0 <= i < |gates| ==>
                           gates[i].0 in actor.manages && !LeadsToContributor(rows0, event, contributions, gates[i].0)
      ensures r.Ok? ==> r.value == m
                        && Edges(rows, event) == Edges(rows0, event) + IntoEdges(contributions, m) + GateEdges(gates, m)
                        && Added(old(rows), rows, old(nextRow), event, GateLinks(gates, m))
      ensures AllAcyclic(old(rows)) ==> AllAcyclic(rows)
    {
      var j := 0;
      ghost var done: set<Node> := {};
      while j < |gates|
        invariant Valid() && j <= |gates| && event in locks && nextRow == old(nextRow) + j
        invariant Added(old(rows), rows, old(nextRow), event, GateLinks(gates[..j], m))
        invariant Distinct(gates[..j]) && Gated(rows, event, m, gates, j, done)
        invariant forall x :: x in done ==> x in actor.manages && !LeadsToContributor(rows0, event, contributions, x)
        invariant AllAcyclic(old(rows)) ==> AllAcyclic(rows)
      {
        var g := gates[j].0;
        DistinctExtends(gates, j);
        ghost var before := rows;
        var added := GateNext(actor, event, m, rows0, contributions, old(rows), old(nextRow), gates, j);
        if added.Failed? {
          if g in actor.manages && !LeadsToContributor(rows0, event, contributions, g) {
            GatedTwice(before, event, m, gates, j, done);
          }
          return Failed(added.error);
        }
        GatedOneMore(before, rows, event, m, gates, j, done);
        done := done + {g};
        j := j + 1;
      }
      assert gates[..j] == gates;
      GateRowEdges(old(rows), rows, old(nextRow), event, gates, m);
      return Ok(m);
    }

    predicate TasksHere<T>(event: Id, named: seq<(Node, T)>)
      reads this
    {
      forall i :: 0 <= i < |named| ==> IsTask(named[i].0) && nodes[named[i].0].event == event
    }

    /** The contributions, then the gates, of a Milestone that no row mentions yet; a failure may leave some of them. */
    method WriteLinks(actor: Actor, event: Id, m: Node, contributions: seq<(Node, bool)>, gates: seq<(Node, Strength)>)
      returns (r: Outcome<Node, DependencyError>)
      requires Valid() && IsMilestone(m) && nodes[m].event == event && event in actor.sees && event in locks
      requires TasksHere(event, contributions) && TasksHere(event, gates)
      requires forall id :: id in rows ==> Ends(rows[id].link).src != m && Ends(rows[id].link).dst != m
      modifies this`rows, this`nextRow, this`locks
      ensures Valid() && old(nextRow) <= nextRow && event in locks
      ensures r.Failed? ==> r.error.DuplicateContribution? || GateRefusal(r.error)
      ensures r == Failed(DuplicateContribution) <==> !Distinct(contributions)
      ensures r.Ok? <==>
                && Distinct(contributions) && Distinct(gates)
                && forall i :: 0 <= i < |gates| ==>
                     gates[i].0 in actor.manages && !LeadsToContributor(old(rows), event, contributions, gates[i].0)
      ensures r.Ok? ==>
                && r.value == m && Edges(rows, event) == Edges(old(rows), event) + IntoEdges(contributions, m) + GateEdges(gates, m)
                && Added(old(rows), rows, old(nextRow), event, ContributionLinks(contributions, m) + GateLinks(gates, m))
      ensures AllAcyclic(old(rows)) ==> AllAcyclic(rows)
    {
      NoRowTouches(rows, event, m);
      var written := WriteContributions(event, m, contributions);
      ghost var mid, next := rows, nextRow;
      if !written {
        return Failed(DuplicateContribution);
      }
      r := WriteGates(actor, event, m, old(rows), contributions, gates);
      if r.Ok? {
        AddedTwice(old(rows), mid, rows, old(nextRow), next, event, ContributionLinks(contributions, m), GateLinks(gates, m));
      }
    }

    /** The rows of an admitted request, under the graph lock; whatever fails, nothing is left behind. */
    method WriteMilestone(actor: Actor, event: Id, contributions: seq<(Node, bool)>, gates: seq<(Node, Strength)>)
      returns (r: Outcome<Node, DependencyError>)
      requires Valid() && event in actor.sees && TasksHere(event, contributions) && TasksHere(event, gates)
      modifies this
      ensures Valid()
      ensures r.Failed? ==> rows == old(rows) && nodes == old(nodes) && (r.error.DuplicateContribution? || GateRefusal(r.error))
      ensures r == Failed(DuplicateContribution) <==> !Distinct(contributions)
      ensures r.Ok? <==>
                && Distinct(contributions) && Distinct(gates)
                && forall i :: 0 <= i < |gates| ==>
                     gates[i].0 in actor.manages && !LeadsToContributor(old(rows), event, contributions, gates[i].0)
      ensures r.Ok? ==> r.value !in old(nodes) && nodes == old(nodes)[r.value := NodeInfo(MilestoneNode, event)] && event in locks
      ensures r.Ok? ==> Edges(rows, event)
                        == Edges(old(rows), event) + IntoEdges(contributions, r.value) + GateEdges(gates, r.value)
      ensures r.Ok? ==> Added(old(rows), rows, old(nextRow), event, ContributionLinks(contributions, r.value) + GateLinks(gates, r.value))
      ensures AllAcyclic(old(rows)) ==> AllAcyclic(rows)
    {
      var rows0, nodes0 := rows, nodes;
      LockGraph(event);
      var m := nextNode;
      nextNode := nextNode + 1;
      nodes := nodes[m := NodeInfo(MilestoneNode, event)];
      r := WriteLinks(actor, event, m, contributions, gates);
      if r.Failed? {
        rows, nodes := rows0, nodes0;
      }
    }

    /**
     A Milestone with its contributions and gates, each error in its turn. Whatever fails, the request leaves nothing
     behind; gates are refused for a cycle exactly when a gated Task already leads to a required contributor.
     */
    method CreateMilestone(actor: Actor, event: Id, form: Form, mayCreate: bool, contributions: seq<(Node, bool)>,
                           gates: seq<(Node, Strength)>) returns (r: Outcome<Node, DependencyError>)
      requires Valid()
      modifies this
      ensures Valid()
      ensures r.Failed? ==> rows == old(rows) && nodes == old(nodes)
      ensures r == Failed(EventNotFound) <==> event !in actor.sees
      ensures r == Failed(ContextRequired) <==> event in actor.sees && !form.context
      ensures var here := form.contextHere && TasksOf(old(nodes), event, contributions) && TasksOf(old(nodes), event, gates);
              && (r == Failed(CrossEventReference) <==> event in actor.sees && form.context && !here)
              && (r == Failed(UserNotFound) <==> event in actor.sees && form.context && here && !form.ownerKnown)
              && (event in actor.sees && form.context && here && form.ownerKnown && !mayCreate ==> r == Failed(AuthorizationRequired))
              && (r == Failed(AutoConfirmNotAllowed) <==>
                    event in actor.sees && form.context && here && form.ownerKnown && mayCreate && !form.modeAllowed)
      ensures r == Failed(DuplicateContribution) <==>
                && event in actor.sees && form.context && form.contextHere
                && TasksOf(old(nodes), event, contributions) && TasksOf(old(nodes), event, gates)
                && form.ownerKnown && mayCreate && form.modeAllowed && !Distinct(contributions)
      ensures r.Ok? <==>
                && event in actor.sees && form.context && form.contextHere
                && TasksOf(old(nodes), event, contributions) && TasksOf(old(nodes), event, gates)
                && form.ownerKnown && mayCreate && form.modeAllowed && Distinct(contributions) && Distinct(gates)
                && (forall i :: 0 <= i < |gates| ==>
                      gates[i].0 in actor.manages && !LeadsToContributor(old(rows), event, contributions, gates[i].0))
      ensures r.Ok? ==> r.value !in old(nodes) && nodes == old(nodes)[r.value := NodeInfo(MilestoneNode, event)] && event in locks
      ensures r.Ok? ==> Edges(rows, event)
                        == Edges(old(rows), event) + IntoEdges(contributions, r.value) + GateEdges(gates, r.value)
      ensures r.Ok? ==> Added(old(rows), rows, old(nextRow), event, ContributionLinks(contributions, r.value) + GateLinks(gates, r.value))
      ensures AllAcyclic(old(rows)) ==> AllAcyclic(rows)
    {
      if event !in actor.sees { return Failed(EventNotFound); }
      if !form.context { return Failed(ContextRequired); }
      if !form.contextHere || !TasksHere(event, contributions) || !TasksHere(event, gates) { return Failed(CrossEventReference); }
      if !form.ownerKnown { return Failed(UserNotFound); }
      if !mayCreate { return Failed(AuthorizationRequired); }
      if !form.modeAllowed { return Failed(AutoConfirmNotAllowed); }
      r := WriteMilestone(actor, event, contributions, gates);
    }
  }

  /** The Tasks gated so far are exactly the targets of the new Milestone's gates. */
  ghost predicate Gated(rows: map<Id, Row>, event: Id, m: Node, gates: seq<(Node, Strength)>, j: nat, done: set<Node>) {
    && j <= |gates| && (forall i :: 0 <= i < j ==> gates[i].0 in done)
    && (forall x :: x in done ==> exists i :: 0 <= i < j && gates[i].0 == x)
    && (forall x :: LinkExists(rows, event, Edge(m, x)) <==> x in done)
  }

  lemma GatedTwice(rows: map<Id, Row>, event: Id, m: Node, gates: seq<(Node, Strength)>, j: nat, done: set<Node>)
    requires Gated(rows, event, m, gates, j, done) && j < |gates| && gates[j].0 in done
    ensures !Distinct(gates)
  {
    var i :| 0 <= i < j && gates[i].0 == gates[j].0;
  }

  lemma GatedOneMore(before: map<Id, Row>, after: map<Id, Row>, event: Id, m: Node, gates: seq<(Node, Strength)>, j: nat, done: set<Node>)
    requires Gated(before, event, m, gates, j, done) && j < |gates|
    requires forall x :: LinkExists(after, event, Edge(m, x)) <==> LinkExists(before, event, Edge(m, x)) || x == gates[j].0
    ensures Gated(after, event, m, gates, j + 1, done + {gates[j].0})
  {
  }

  lemma NoWayOut(es: set<Edge>, m: Node, n: Node)
    requires forall e :: e in es ==> e.src != m
    requires m != n
    ensures !Reaches(es, m, n)
  {
    forall p | PathFromTo(es, p, m, n)
      ensures Edge(p[0], p[1]) in es
    {
    }
  }

  lemma OneMoreContribution(contributions: seq<(Node, bool)>, m: Node, i: nat)
    requires i < |contributions|
    ensures ContributionLinks(contributions[..i + 1], m)
            == ContributionLinks(contributions[..i], m) + [Contribution(contributions[i].0, m, contributions[i].1)]
  {
  }

  lemma OneMoreGateLink(gates: seq<(Node, Strength)>, m: Node, j: nat)
    requires j < |gates|
    ensures GateLinks(gates[..j + 1], m) == GateLinks(gates[..j], m) + [Gate(m, gates[j].0, gates[j].1)]
  {
  }

  lemma DistinctExtends<T>(s: seq<(Node, T)>, j: nat)
    requires j < |s| && Distinct(s[..j])
    ensures Distinct(s[..j + 1]) <==> forall i :: 0 <= i < j ==> s[i].0 != s[j].0
  {
    if Distinct(s[..j + 1]) {
      forall i | 0 <= i < j
        ensures s[i].0 != s[j].0
      {
        assert s[..j + 1][i].0 != s[..j + 1][j].0;
      }
    }
  }

  lemma OneMoreLink(rows: map<Id, Row>, id: Id, event: Id, link: Link)
    requires id !in rows && !link.Contribution?
    ensures forall e :: LinkExists(rows[id := Row(event, link, false)], event, e)
                        <==> LinkExists(rows, event, e) || e == Ends(link)
  {
    var after := rows[id := Row(event, link, false)];
    forall e
      ensures LinkExists(after, event, e) <==> LinkExists(rows, event, e) || e == Ends(link)
    {
      if LinkExists(rows, event, e) {
        var i :| i in rows && Live(rows, event, i) && !rows[i].link.Contribution? && Ends(rows[i].link) == e;
        assert Live(after, event, i);
      }
      assert Live(after, event, id);
    }
  }
}
