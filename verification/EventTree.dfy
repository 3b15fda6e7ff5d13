/** The Events under an Event, found level by level along live child links. */
module EventTree {
  import opened Prelude
  import opened Digraph

  /** A stored Event as the tree query sees it; parent links may form any graph. */
  datatype Link = Link(parent: Option<Node>, deleted: bool)

  ghost predicate LiveChild(rows: map<Node, Link>, child: Node, parent: Node) {
    child in rows && !rows[child].deleted && rows[child].parent == Some(parent)
  }

  ghost function ChildEdges(rows: map<Node, Link>): set<Edge> {
    set c | c in rows && !rows[c].deleted && rows[c].parent.Some? :: Edge(rows[c].parent.value, c)
  }

  lemma {:induction false} ClosedHoldsAll(es: set<Edge>, seen: set<Node>, p: seq<Node>)
    requires IsPath(es, p) && p[0] in seen
    requires forall e :: e in es && e.src in seen ==> e.dst in seen
    ensures p[|p| - 1] in seen
  {
    if |p| > 1 {
      assert Edge(p[0], p[1]) in es;
      ClosedHoldsAll(es, seen, p[1..]);
    }
  }

  /** The live children of a level, in some order. */
  method ChildrenOf(rows: map<Node, Link>, level: seq<Node>) returns (children: set<Node>)
    ensures forall c :: c in children <==> exists p :: p in level && LiveChild(rows, c, p)
  {
    children := set c | c in rows && !rows[c].deleted && rows[c].parent.Some? && rows[c].parent.value in level;
    forall c
      ensures c in children <==> exists p :: p in level && LiveChild(rows, c, p)
    {
      if c in children {
        assert LiveChild(rows, c, rows[c].parent.value);
      }
    }
  }

  method Listed(s: set<Node>) returns (r: seq<Node>)
    ensures forall x :: x in r <==> x in s
    ensures forall i, j :: 0 <= i < j < |r| ==> r[i] != r[j]
  {
    r := [];
    var rest := s;
    while rest != {}
      invariant rest <= s && forall x :: x in r <==> x in s && x !in rest
      invariant forall i, j :: 0 <= i < j < |r| ==> r[i] != r[j]
      decreases rest
    {
      var x :| x in rest;
      rest := rest - {x};
      assert x !in r;
      r := r + [x];
    }
  }

  /** Each level is reached, and everything that hangs from an earlier level has been seen. */
  ghost predicate Descending(rows: map<Node, Link>, start: Node, seen: set<Node>, frontier: seq<Node>) {
    && start in seen && seen <= rows.Keys + {start} && (forall x :: x in frontier ==> x in seen)
    && (forall x :: x in seen ==> Reaches(ChildEdges(rows), start, x))
    && (forall c, p :: LiveChild(rows, c, p) && p in seen && p !in frontier ==> c in seen)
  }

  lemma NextLevel(rows: map<Node, Link>, start: Node, seen: set<Node>, frontier: seq<Node>, children: set<Node>, next: seq<Node>)
    requires Descending(rows, start, seen, frontier)
    requires forall c :: c in children <==> exists p :: p in frontier && LiveChild(rows, c, p)
    requires forall x :: x in next <==> x in children - seen
    ensures Descending(rows, start, seen + children, next)
  {
    var es := ChildEdges(rows);
    forall c | c in children
      ensures c in rows && Reaches(es, start, c)
    {
      var p :| p in frontier && LiveChild(rows, c, p);
      assert Edge(p, c) in es;
      ReachesStep(es, p, c);
      ReachesTrans(es, start, p, c);
    }
    forall c, p | LiveChild(rows, c, p) && p in seen + children && p !in next
      ensures c in seen + children
    {
      if p in frontier {
        assert c in children;
      }
    }
  }

  /** The Event and everything reachable through live child links, each once, whatever the links are. */
  method ListDescendantEventIds(rows: map<Node, Link>, start: Node) returns (ids: seq<Node>)
    ensures forall x :: x in ids <==> Reaches(ChildEdges(rows), start, x)
    ensures forall i, j :: 0 <= i < j < |ids| ==> ids[i] != ids[j]
  {
    var seen, frontier := {start}, [start];
    ReachesSelf(ChildEdges(rows), start);
    while frontier != []
      invariant Descending(rows, start, seen, frontier)
      decreases rows.Keys + {start} - seen, |frontier|
    {
      var children := ChildrenOf(rows, frontier);
      var next := Listed(children - seen);
      NextLevel(rows, start, seen, frontier, children, next);
      if next != [] {
        assert next[0] in children - seen;
        assert next[0] in seen + children && next[0] in rows.Keys + {start} - seen;
      } else {
        forall x | x in children
          ensures x in seen
        {
          assert x in seen || x in children - seen;
        }
        assert seen + children == seen;
      }
      frontier := next;
      seen := seen + children;
    }
    forall x | Reaches(ChildEdges(rows), start, x)
      ensures x in seen
    {
      AllSeen(rows, start, seen, x);
    }
    ids := Listed(seen);
  }

  lemma AllSeen(rows: map<Node, Link>, start: Node, seen: set<Node>, x: Node)
    requires Descending(rows, start, seen, []) && Reaches(ChildEdges(rows), start, x)
    ensures x in seen
  {
    var es := ChildEdges(rows);
    var p :| PathFromTo(es, p, start, x);
    forall e | e in es && e.src in seen
      ensures e.dst in seen
    {
      assert LiveChild(rows, e.dst, e.src);
    }
    ClosedHoldsAll(es, seen, p);
  }
}
