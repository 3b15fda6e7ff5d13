/**
 The rows that span an Event's dependency graph, and the graph they span: Task edges of either strength,
 Milestone gates and required contributions. Optional contributions are stored but are not edges.
 */
module DependencyRows {
  import opened Prelude
  import opened Digraph
  import opened CycleCheck

  type Id = nat

  datatype Strength = Hard | Advisory

  datatype Link =
    | TaskEdge(predecessor: Node, successor: Node, strength: Strength)
    | Gate(milestone: Node, gated: Node, strength: Strength)
    | Contribution(task: Node, into: Node, required: bool)

  /** One stored row. Removal is soft: the row stays and is marked deleted. */
  datatype Row = Row(event: Id, link: Link, deleted: bool)

  function Ends(l: Link): Edge {
    match l
    case TaskEdge(p, s, _) => Edge(p, s)
    case Gate(m, t, _) => Edge(m, t)
    case Contribution(t, m, _) => Edge(t, m)
  }

  predicate Traversed(l: Link) {
    l.Contribution? ==> l.required
  }

  ghost predicate Live(rows: map<Id, Row>, event: Id, id: Id) {
    id in rows && rows[id].event == event && !rows[id].deleted
  }

  /** The edges the cycle check walks. */
  ghost function Edges(rows: map<Id, Row>, event: Id): set<Edge> {
    set id | id in rows && Live(rows, event, id) && Traversed(rows[id].link) :: Ends(rows[id].link)
  }

  /** Every live link as an edge, optional contributions included. */
  ghost function AllEdges(rows: map<Id, Row>, event: Id): set<Edge> {
    set id | id in rows && Live(rows, event, id) :: Ends(rows[id].link)
  }

  ghost predicate LinkExists(rows: map<Id, Row>, event: Id, e: Edge) {
    exists id :: id in rows && Live(rows, event, id) && !rows[id].link.Contribution? && Ends(rows[id].link) == e
  }

  ghost predicate AllAcyclic(rows: map<Id, Row>) {
    forall event :: Acyclic(Edges(rows, event))
  }

  /** Task edges and gates of either strength, and required contributions, each from what comes first. */
  ghost predicate Draws(l: Link, e: Edge) {
    || (l.TaskEdge? && l.predecessor == e.src && l.successor == e.dst)
    || (l.Gate? && l.milestone == e.src && l.gated == e.dst)
    || (l.Contribution? && l.required && l.task == e.src && l.into == e.dst)
  }

  /** The Event's edges as the list the algorithms take. */
  method LiveGraphEdges(rows: map<Id, Row>, event: Id) returns (edges: seq<Edge>)
    ensures EdgeSet(edges) == Edges(rows, event)
    ensures forall e :: e in edges <==> exists id :: id in rows && rows[id].event == event && !rows[id].deleted && Draws(rows[id].link, e)
  {
    edges := [];
    var rest := rows.Keys;
    while rest != {}
      invariant rest <= rows.Keys
      invariant forall e :: e in edges <==>
                  exists id :: id in rows && id !in rest && Live(rows, event, id) && Traversed(rows[id].link)
                               && Ends(rows[id].link) == e
      decreases rest
    {
      var id :| id in rest;
      rest := rest - {id};
      if rows[id].event == event && !rows[id].deleted && Traversed(rows[id].link) {
        edges := edges + [Ends(rows[id].link)];
      }
    }
    forall e
      ensures e in Edges(rows, event) <==> exists id :: id in rows && rows[id].event == event && !rows[id].deleted && Draws(rows[id].link, e)
    {
      assert forall id :: id in rows ==> (Draws(rows[id].link, e) <==> Traversed(rows[id].link) && Ends(rows[id].link) == e);
    }
  }

  method FindCyclePath(rows: map<Id, Row>, event: Id, predecessor: Node, successor: Node) returns (cycle: Option<seq<Node>>)
    ensures cycle.Some? <==> Reaches(Edges(rows, event), successor, predecessor)
    ensures cycle.Some? ==> ShortestCycle(Edges(rows, event), predecessor, successor, cycle.value)
  {
    var edges := LiveGraphEdges(rows, event);
    cycle := CyclePath(edges, predecessor, successor);
  }

  /** A shortest closed walk that starts with the proposed edge; of those the one with the smallest ids. */
  ghost predicate ShortestCycle(es: set<Edge>, predecessor: Node, successor: Node, cycle: seq<Node>) {
    && |cycle| > 1 && cycle[0] == predecessor && PathFromTo(es, cycle[1..], successor, predecessor)
    && (forall q :: PathFromTo(es, q, successor, predecessor) ==> |cycle| <= |q| + 1)
    && First(es, cycle[1..], successor, predecessor)
  }

  /** The readiness check's view of the graph. */
  method EventGraphHasCycle(rows: map<Id, Row>, event: Id) returns (cyclic: bool)
    ensures cyclic <==> !Acyclic(Edges(rows, event))
  {
    var edges := LiveGraphEdges(rows, event);
    cyclic := HasCycle(edges);
  }

  lemma InsertedEdges(rows: map<Id, Row>, id: Id, row: Row, event: Id)
    requires id !in rows
    ensures Edges(rows[id := row], event) ==
            Edges(rows, event) + if row.event == event && !row.deleted && Traversed(row.link) then {Ends(row.link)} else {}
  {
    var after := rows[id := row];
    forall e | e in Edges(rows, event)
      ensures e in Edges(after, event)
    {
      var i :| i in rows && Live(rows, event, i) && Traversed(rows[i].link) && Ends(rows[i].link) == e;
      assert after[i] == rows[i];
    }
    assert after[id] == row;
  }

  lemma DeletedEdges(rows: map<Id, Row>, id: Id, event: Id)
    requires id in rows
    ensures Edges(rows[id := rows[id].(deleted := true)], event) <= Edges(rows, event)
  {
  }

  /** One checked link leaves every Event's graph acyclic. */
  lemma CheckedInsertKeepsAcyclic(rows: map<Id, Row>, id: Id, event: Id, link: Link)
    requires AllAcyclic(rows) && id !in rows
    requires !Reaches(Edges(rows, event), Ends(link).dst, Ends(link).src)
    ensures AllAcyclic(rows[id := Row(event, link, false)])
  {
    var after := rows[id := Row(event, link, false)];
    forall e {:trigger Edges(after, e)}
      ensures Acyclic(Edges(after, e))
    {
      InsertedEdges(rows, id, Row(event, link, false), e);
      if e == event {
        EdgeKeepsAcyclic(Edges(rows, e), Ends(link));
        SubgraphAcyclic(Edges(rows, e) + {Ends(link)}, Edges(after, e));
      } else {
        assert Edges(rows, e) + {} == Edges(rows, e);
      }
    }
  }

  lemma DeleteKeepsAcyclic(rows: map<Id, Row>, id: Id)
    requires AllAcyclic(rows) && id in rows
    ensures AllAcyclic(rows[id := rows[id].(deleted := true)])
  {
    var after := rows[id := rows[id].(deleted := true)];
    forall e {:trigger Edges(after, e)}
      ensures Acyclic(Edges(after, e))
    {
      DeletedEdges(rows, id, e);
      SubgraphAcyclic(Edges(rows, e), Edges(after, e));
    }
  }

  // ---- optional contributions -------------------------------------------------------------------

  lemma InsertedAllEdges(rows: map<Id, Row>, id: Id, event: Id, link: Link)
    requires id !in rows
    ensures AllEdges(rows[id := Row(event, link, false)], event) == AllEdges(rows, event) + {Ends(link)}
  {
    var after := rows[id := Row(event, link, false)];
    forall e | e in AllEdges(rows, event)
      ensures e in AllEdges(after, event)
    {
      var i :| i in rows && Live(rows, event, i) && Ends(rows[i].link) == e;
      assert after[i] == rows[i];
    }
    assert after[id] == Row(event, link, false);
  }

  /**
   With optional contributions counted, a link keeps the graph free of cycles exactly when its successor does
   not lead back over any live link at all: a wider test than the one that is made.
   */
  lemma FullGraphStaysAcyclicExactly(rows: map<Id, Row>, id: Id, event: Id, link: Link)
    requires id !in rows && Acyclic(AllEdges(rows, event))
    ensures Acyclic(AllEdges(rows[id := Row(event, link, false)], event)) <==>
              !Reaches(AllEdges(rows, event), Ends(link).dst, Ends(link).src)
  {
    InsertedAllEdges(rows, id, event, link);
    EdgeKeepsAcyclic(AllEdges(rows, event), Ends(link));
  }

  /** Where every live contribution is required, the graph that is checked is the whole graph. */
  lemma RequiredOnlyIsWhole(rows: map<Id, Row>, event: Id)
    requires forall id :: id in rows && Live(rows, event, id) ==> Traversed(rows[id].link)
    ensures AllEdges(rows, event) == Edges(rows, event)
  {
    forall e | e in AllEdges(rows, event)
      ensures e in Edges(rows, event)
    {
      var i :| i in rows && Live(rows, event, i) && Ends(rows[i].link) == e;
    }
  }
}
