/**
 Directed graphs over Task and Milestone ids, and what it takes to keep one acyclic.

 The two facts every dependency writer relies on are here: one edge keeps the graph acyclic exactly
 when its successor does not already reach its predecessor, and edges into a brand-new node always do.
 */
module Digraph {
  type Node = nat

  datatype Edge = Edge(src: Node, dst: Node)

  ghost predicate IsPath(es: set<Edge>, p: seq<Node>) {
    |p| > 0 && forall i, j :: 0 <= i && j == i + 1 && j < |p| ==> Edge(p[i], p[j]) in es
  }

  ghost predicate PathFromTo(es: set<Edge>, p: seq<Node>, a: Node, b: Node) {
    IsPath(es, p) && p[0] == a && p[|p| - 1] == b
  }

  /** b can be reached from a over zero or more edges. */
  ghost predicate Reaches(es: set<Edge>, a: Node, b: Node) {
    exists p :: PathFromTo(es, p, a, b)
  }

  /** No walk over one or more edges comes back to where it started. */
  ghost predicate Acyclic(es: set<Edge>) {
    forall p :: IsPath(es, p) && |p| > 1 ==> p[0] != p[|p| - 1]
  }

  lemma PathConcat(es: set<Edge>, p: seq<Node>, q: seq<Node>)
    requires IsPath(es, p) && IsPath(es, q) && p[|p| - 1] == q[0]
    ensures PathFromTo(es, p + q[1..], p[0], q[|q| - 1])
  {
  }

  lemma PathSlice(es: set<Edge>, p: seq<Node>, i: nat, j: nat)
    requires IsPath(es, p) && i <= j < |p|
    ensures PathFromTo(es, p[i..j + 1], p[i], p[j])
  {
  }

  lemma ReachesTrans(es: set<Edge>, a: Node, b: Node, c: Node)
    requires Reaches(es, a, b) && Reaches(es, b, c)
    ensures Reaches(es, a, c)
  {
    var p :| PathFromTo(es, p, a, b);
    var q :| PathFromTo(es, q, b, c);
    PathConcat(es, p, q);
  }

  lemma ReachesStep(es: set<Edge>, a: Node, b: Node)
    requires Edge(a, b) in es
    ensures Reaches(es, a, b)
  {
    assert PathFromTo(es, [a, b], a, b);
  }

  lemma ReachesMono(es: set<Edge>, fs: set<Edge>, a: Node, b: Node)
    requires es <= fs
    ensures Reaches(es, a, b) ==> Reaches(fs, a, b)
  {
    if Reaches(es, a, b) {
      var p :| PathFromTo(es, p, a, b);
      assert PathFromTo(fs, p, a, b);
    }
  }

  lemma ReachesSelf(es: set<Edge>, a: Node)
    ensures Reaches(es, a, a)
  {
    assert PathFromTo(es, [a], a, a);
  }

  /** A path in a graph with one more edge either avoids it, or gets to its source and on from its target. */
  lemma {:induction false} PathSplit(es: set<Edge>, e: Edge, p: seq<Node>)
    requires IsPath(es + {e}, p)
    ensures IsPath(es, p) || (Reaches(es, p[0], e.src) && Reaches(es, e.dst, p[|p| - 1]))
    decreases |p|
  {
    if |p| == 1 {
    } else {
      var rest := p[1..];
      assert IsPath(es + {e}, rest);
      PathSplit(es, e, rest);
      assert Edge(p[0], p[1]) in es + {e};
      if Edge(p[0], p[1]) in es {
        if IsPath(es, rest) {
          assert IsPath(es, p);
        } else {
          ReachesStep(es, p[0], p[1]);
          ReachesTrans(es, p[0], p[1], e.src);
        }
      } else {
        ReachesSelf(es, p[0]);
        if IsPath(es, rest) {
          assert PathFromTo(es, rest, e.dst, p[|p| - 1]);
        }
      }
    }
  }

  /** Adding one edge to an acyclic graph closes a cycle exactly when its target already reaches its source. */
  lemma EdgeKeepsAcyclic(es: set<Edge>, e: Edge)
    requires Acyclic(es)
    ensures Acyclic(es + {e}) <==> !Reaches(es, e.dst, e.src)
  {
    if Reaches(es, e.dst, e.src) {
      var p :| PathFromTo(es, p, e.dst, e.src);
      var c := [e.src] + p;
      assert IsPath(es + {e}, c) && c[0] == c[|c| - 1];
    } else {
      forall p | IsPath(es + {e}, p) && |p| > 1
        ensures p[0] != p[|p| - 1]
      {
        PathSplit(es, e, p);
        if !IsPath(es, p) && p[0] == p[|p| - 1] {
          ReachesTrans(es, e.dst, p[0], e.src);
        }
      }
    }
  }

  lemma SubgraphAcyclic(es: set<Edge>, fs: set<Edge>)
    requires Acyclic(es) && fs <= es
    ensures Acyclic(fs)
  {
    forall p | IsPath(fs, p) && |p| > 1
      ensures p[0] != p[|p| - 1]
    {
      assert IsPath(es, p);
    }
  }

  lemma EmptyAcyclic()
    ensures Acyclic({})
  {
    var es: set<Edge> := {};
    forall p | IsPath(es, p) && |p| > 1
      ensures p[0] != p[|p| - 1]
    {
      assert Edge(p[0], p[1]) !in es;
    }
  }

  ghost predicate Untouched(es: set<Edge>, n: Node) {
    forall e :: e in es ==> e.src != n && e.dst != n
  }

  /** Any number of edges into a node nothing touches yet keep the graph acyclic. */
  lemma FreshSinkKeepsAcyclic(es: set<Edge>, into: set<Edge>, n: Node)
    requires Acyclic(es) && Untouched(es, n)
    requires forall e :: e in into ==> e.dst == n && e.src != n
    ensures Acyclic(es + into)
  {
    forall p | IsPath(es + into, p) && |p| > 1
      ensures p[0] != p[|p| - 1]
    {
      forall i | 0 <= i < |p| - 1
        ensures p[i] != n
      {
        var j := i + 1;
        assert Edge(p[i], p[j]) in es + into;
      }
      if p[|p| - 1] != n {
        forall i, j | 0 <= i && j == i + 1 && j < |p|
          ensures Edge(p[i], p[j]) in es
        {
          assert Edge(p[i], p[j]) in es + into;
        }
        assert IsPath(es, p);
      }
    }
  }

  /** A rank that grows along every edge rules out cycles. */
  lemma RankedIsAcyclic(es: set<Edge>, rank: map<Node, nat>)
    requires forall e :: e in es ==> e.src in rank && e.dst in rank && rank[e.src] < rank[e.dst]
    ensures Acyclic(es)
  {
    forall p | IsPath(es, p) && |p| > 1
      ensures p[0] != p[|p| - 1]
    {
      RankGrows(es, rank, p);
    }
  }

  lemma {:induction false} RankGrows(es: set<Edge>, rank: map<Node, nat>, p: seq<Node>)
    requires forall e :: e in es ==> e.src in rank && e.dst in rank && rank[e.src] < rank[e.dst]
    requires IsPath(es, p) && |p| > 1
    ensures p[0] in rank && p[|p| - 1] in rank && rank[p[0]] < rank[p[|p| - 1]]
    decreases |p|
  {
    assert Edge(p[0], p[1]) in es;
    if |p| > 2 {
      assert IsPath(es, p[1..]);
      RankGrows(es, rank, p[1..]);
    }
  }

  ghost predicate HasPredecessorIn(es: set<Edge>, s: set<Node>, n: Node) {
    exists m :: m in s && Edge(m, n) in es
  }

  /** The node lies on a cycle, or a cycle leads to it. */
  ghost predicate OnOrBehindCycle(es: set<Edge>, n: Node) {
    exists c :: IsPath(es, c) && |c| > 1 && c[0] == c[|c| - 1] && Reaches(es, c[0], n)
  }

  /** Where nodes each have a predecessor among themselves, each of them lies on or behind a cycle. */
  lemma PredecessorClosedHasCycle(es: set<Edge>, s: set<Node>, n: Node)
    requires n in s
    requires forall m :: m in s ==> HasPredecessorIn(es, s, m)
    ensures OnOrBehindCycle(es, n) && !Acyclic(es)
  {
    var w := WalkBack(es, s, n, |s|);
    var i, j := Pigeonhole(w, s);
    PathSlice(es, w, i, j);
    PathSlice(es, w, i, |w| - 1);
    var c := w[i..j + 1];
    assert IsPath(es, c) && |c| > 1 && c[0] == c[|c| - 1] && Reaches(es, c[0], n);
  }

  lemma {:induction false} WalkBack(es: set<Edge>, s: set<Node>, n: Node, k: nat) returns (w: seq<Node>)
    requires n in s
    requires forall m :: m in s ==> HasPredecessorIn(es, s, m)
    ensures |w| == k + 1 && IsPath(es, w) && w[k] == n && forall i :: 0 <= i < |w| ==> w[i] in s
  {
    if k == 0 {
      w := [n];
    } else {
      var v := WalkBack(es, s, n, k - 1);
      assert HasPredecessorIn(es, s, v[0]);
      var m :| m in s && Edge(m, v[0]) in es;
      w := [m] + v;
    }
  }

  /** A walk longer than the set it stays in repeats a node. */
  lemma {:induction false} Pigeonhole(w: seq<Node>, s: set<Node>) returns (i: nat, j: nat)
    requires |w| > |s| && forall k :: 0 <= k < |w| ==> w[k] in s
    ensures i < j < |w| && w[i] == w[j]
    decreases |w|
  {
    var last := w[|w| - 1];
    if k :| 0 <= k < |w| - 1 && w[k] == last {
      i, j := k, |w| - 1;
    } else {
      var front := w[..|w| - 1];
      forall k | 0 <= k < |front|
        ensures front[k] in s - {last}
      {
        assert front[k] == w[k];
      }
      i, j := Pigeonhole(front, s - {last});
    }
  }
}
