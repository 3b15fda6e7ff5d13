/**
 The two graph algorithms behind dependency writes and the activation readiness check:
 a breadth-first search for the cycle a proposed edge would close, and Kahn's algorithm.
 */
module CycleCheck {
  import opened Prelude
  import opened Digraph

  function EdgeSet(edges: seq<Edge>): set<Edge> {
    set e | e in edges
  }

  /** The successor list of one node, in the order its edges are listed, repetitions kept. */
  function SuccessorList(edges: seq<Edge>, n: Node): (r: seq<Node>)
    ensures forall m :: m in r <==> Edge(n, m) in edges
  {
    if edges == [] then []
    else
      var front, last := edges[..|edges| - 1], edges[|edges| - 1];
      var r := SuccessorList(front, n);
      assert edges == front + [last];
      if last.src == n then r + [last.dst] else r
  }

  /** The grouping loop both algorithms start with. */
  method GroupBySource(edges: seq<Edge>) returns (successors: map<Node, seq<Node>>)
    ensures forall n :: (if n in successors then successors[n] else []) == SuccessorList(edges, n)
  {
    successors := map[];
    for i := 0 to |edges|
      invariant forall n :: (if n in successors then successors[n] else []) == SuccessorList(edges[..i], n)
    {
      assert edges[..i + 1][..i] == edges[..i];
      var e := edges[i];
      var listed := if e.src in successors then successors[e.src] else [];
      successors := successors[e.src := listed + [e.dst]];
    }
    assert edges[..|edges|] == edges;
  }

  function Insert(x: Node, s: seq<Node>): (r: seq<Node>)
    ensures forall y :: y in r <==> y == x || y in s
  {
    if s == [] || x <= s[0] then [x] + s else [s[0]] + Insert(x, s[1..])
  }

  ghost predicate Ascending(s: seq<Node>) {
    forall i, j :: 0 <= i < j < |s| ==> s[i] <= s[j]
  }

  lemma {:induction false} InsertAscends(x: Node, s: seq<Node>)
    requires Ascending(s)
    ensures Ascending(Insert(x, s))
  {
    if s != [] && s[0] < x {
      assert Ascending(s[1..]);
      InsertAscends(x, s[1..]);
      var rest := Insert(x, s[1..]);
      forall i | 0 <= i < |rest|
        ensures s[0] <= rest[i]
      {
        assert rest[i] in rest && (rest[i] in s[1..] ==> exists k :: 0 < k < |s| && s[k] == rest[i]);
      }
      assert Insert(x, s) == [s[0]] + rest;
    }
  }

  /** The ids in ascending order, the order the search visits siblings in. */
  function Sorted(s: seq<Node>): (r: seq<Node>)
    ensures Ascending(r) && forall y :: y in r <==> y in s
  {
    if s == [] then []
    else
      InsertAscends(s[0], Sorted(s[1..]));
      Insert(s[0], Sorted(s[1..]))
  }

  // ---- breadth-first search ---------------------------------------------------------------------

  /** A discovered node is the root, or one deeper than a discovered node with an edge to it. */
  ghost predicate Hangs(es: set<Edge>, root: Node, parent: map<Node, Option<Node>>, depth: map<Node, nat>, v: Node) {
    v in parent ==>
      v in depth &&
      match parent[v]
      case None => v == root
      case Some(u) => u in parent && u in depth && Edge(u, v) in es && depth[v] == depth[u] + 1
  }

  ghost predicate Tree(es: set<Edge>, root: Node, parent: map<Node, Option<Node>>, depth: map<Node, nat>) {
    && parent.Keys == depth.Keys
    && root in parent && parent[root] == None && depth[root] == 0
    && (forall v {:trigger Hangs(es, root, parent, depth, v)} :: Hangs(es, root, parent, depth, v))
  }

  /** Every discovered node is finished or queued; the queue is shallowest first, at most two depths deep. */
  ghost predicate Queue(queue: seq<Node>, depth: map<Node, nat>, done: set<Node>) {
    && (forall i :: 0 <= i < |queue| ==> queue[i] in depth)
    && (queue != [] ==> forall v :: v in depth ==> depth[v] <= depth[queue[0]] + 1)
    && (forall i, j :: 0 <= i < j < |queue| ==> depth[queue[i]] <= depth[queue[j]])
    && (forall v :: v in depth ==> v in done || v in queue)
    && done <= depth.Keys
  }

  /** Successors of a finished node are discovered, at most one deeper. */
  ghost predicate Expanded(es: set<Edge>, depth: map<Node, nat>, done: set<Node>) {
    forall e :: e in es && e.src in done && e.src in depth ==> e.dst in depth && depth[e.dst] <= depth[e.src] + 1
  }

  // ---- which of the shortest paths is found -----------------------------------------------------

  /** Of two walks of one length, the one with the smaller id where they part. */
  ghost predicate Before(p: seq<Node>, q: seq<Node>) {
    |p| == |q| && exists k :: 0 <= k < |p| && p[..k] == q[..k] && p[k] < q[k]
  }

  /** The walk comes first among those of its length between the same ends. */
  ghost predicate First(es: set<Edge>, p: seq<Node>, a: Node, b: Node) {
    PathFromTo(es, p, a, b) && forall q :: PathFromTo(es, q, a, b) && |q| == |p| ==> q == p || Before(p, q)
  }

  lemma BeforeTrans(p: seq<Node>, q: seq<Node>, r: seq<Node>)
    requires Before(p, q) && Before(q, r)
    ensures Before(p, r)
  {
    var i :| 0 <= i < |p| && p[..i] == q[..i] && p[i] < q[i];
    var j :| 0 <= j < |q| && q[..j] == r[..j] && q[j] < r[j];
    var k := if i < j then i else j;
    assert p[..i][..k] == q[..i][..k] && q[..j][..k] == r[..j][..k];
    assert i < j ==> q[..j][k] == r[..j][k];
    assert j < i ==> p[..i][k] == q[..i][k];
    assert p[..k] == r[..k] && p[k] < r[k];
  }

  lemma BeforeExtends(p: seq<Node>, a: Node, q: seq<Node>, b: Node)
    requires Before(p, q) || (p == q && a < b)
    ensures Before(p + [a], q + [b])
  {
    if Before(p, q) {
      var k :| 0 <= k < |p| && p[..k] == q[..k] && p[k] < q[k];
      assert (p + [a])[..k] == (q + [b])[..k];
    } else {
      assert (p + [a])[..|p|] == (q + [b])[..|p|];
    }
  }

  /** A discovered node has the walk its parent links spell, its parent is done, and no walk of that length comes first. */
  ghost predicate Walked(es: set<Edge>, root: Node, parent: map<Node, Option<Node>>, depth: map<Node, nat>,
                         walk: map<Node, seq<Node>>, done: set<Node>, v: Node) {
    v in walk ==>
      && v in depth && v in parent && |walk[v]| == depth[v] + 1 && First(es, walk[v], root, v)
      && match parent[v]
         case None => walk[v] == [v]
         case Some(u) => u in walk && u in done && walk[v] == walk[u] + [v]
  }

  ghost predicate Walks(es: set<Edge>, root: Node, parent: map<Node, Option<Node>>, depth: map<Node, nat>,
                        walk: map<Node, seq<Node>>, done: set<Node>) {
    && walk.Keys == depth.Keys == parent.Keys
    && forall v {:trigger Walked(es, root, parent, depth, walk, done, v)} :: Walked(es, root, parent, depth, walk, done, v)
  }

  /** u is nearer than x, or as near with an earlier walk. */
  ghost predicate Ahead(depth: map<Node, nat>, walk: map<Node, seq<Node>>, u: Node, x: Node) {
    && u in depth && x in depth && u in walk && x in walk
    && (depth[u] < depth[x] || (depth[u] == depth[x] && Before(walk[u], walk[x])))
  }

  /** The queue is in the order of its nodes' walks, behind all that is done. */
  ghost predicate InOrder(depth: map<Node, nat>, walk: map<Node, seq<Node>>, queue: seq<Node>, done: set<Node>) {
    && (forall i, j {:trigger Ahead(depth, walk, queue[i], queue[j])} :: 0 <= i < j < |queue| ==> Ahead(depth, walk, queue[i], queue[j]))
    && (forall u, j {:trigger Ahead(depth, walk, u, queue[j])} :: u in done && 0 <= j < |queue| ==> Ahead(depth, walk, u, queue[j]))
  }

  /** A node at the head of the queue is as deep as the shortest path to it is long. */
  lemma {:induction false} HeadIsShortest(es: set<Edge>, root: Node, parent: map<Node, Option<Node>>,
                                          depth: map<Node, nat>, queue: seq<Node>, done: set<Node>, q: seq<Node>, k: nat)
    requires Tree(es, root, parent, depth) && Queue(queue, depth, done) && Expanded(es, depth, done)
    requires queue != [] && IsPath(es, q) && q[0] == root && k < |q|
    requires k <= depth[queue[0]]
    ensures q[k] in depth && depth[q[k]] <= k
  {
    if k > 0 {
      HeadIsShortest(es, root, parent, depth, queue, done, q, k - 1);
      assert Edge(q[k - 1], q[k]) in es;
      assert depth[q[k - 1]] < depth[queue[0]];
      assert q[k - 1] in done;
    }
  }

  /** Once the queue is empty, everything reachable has been discovered and finished. */
  lemma {:induction false} ExhaustedIsClosed(es: set<Edge>, root: Node, depth: map<Node, nat>, done: set<Node>, q: seq<Node>)
    requires Queue([], depth, done) && Expanded(es, depth, done) && root in depth
    requires IsPath(es, q) && q[0] == root
    ensures q[|q| - 1] in done
    decreases |q|
  {
    if |q| > 1 {
      var front := q[..|q| - 1];
      assert IsPath(es, front);
      ExhaustedIsClosed(es, root, depth, done, front);
      assert Edge(q[|q| - 2], q[|q| - 1]) in es;
    }
  }

  /** Walks the parent links back from a found node; the result runs from the root to it. */
  method TraceBack(es: set<Edge>, ghost root: Node, parent: map<Node, Option<Node>>, ghost depth: map<Node, nat>,
                   ghost walk: map<Node, seq<Node>>, ghost done: set<Node>, node: Node)
    returns (path: seq<Node>)
    requires Tree(es, root, parent, depth) && Walks(es, root, parent, depth, walk, done) && node in parent
    ensures PathFromTo(es, path, root, node) && |path| == depth[node] + 1
    ensures path == walk[node]
  {
    path := [];
    var cursor := Some(node);
    while cursor.Some?
      invariant cursor.Some? ==> cursor.value in parent && |path| + depth[cursor.value] == depth[node]
      invariant cursor.Some? && path == [] ==> cursor.value == node
      invariant path != [] ==> IsPath(es, path) && path[|path| - 1] == node
      invariant cursor.Some? && path != [] ==> Edge(cursor.value, path[0]) in es
      invariant cursor.None? ==> path != [] && path[0] == root && |path| == depth[node] + 1
      invariant walk[node] == if cursor.Some? then walk[cursor.value] + path else path
      decreases if cursor.Some? then 1 + depth[cursor.value] else 0
    {
      assert Hangs(es, root, parent, depth, cursor.value) && Walked(es, root, parent, depth, walk, done, cursor.value);
      path := [cursor.value] + path;
      cursor := parent[cursor.value];
    }
  }

  /** The search state between two dequeues. */
  ghost predicate Searching(es: set<Edge>, root: Node, parent: map<Node, Option<Node>>,
                            depth: map<Node, nat>, queue: seq<Node>, done: set<Node>) {
    Tree(es, root, parent, depth) && Queue(queue, depth, done) && Expanded(es, depth, done)
  }

  /** What the discovery of the successors of `node` must keep while it runs. */
  ghost predicate Discovering(es: set<Edge>, root: Node, node: Node, parent: map<Node, Option<Node>>,
                              depth: map<Node, nat>, queue: seq<Node>, done: set<Node>) {
    && Tree(es, root, parent, depth) && Queue(queue, depth, done)
    && node in depth && node in done
    && (forall v :: v in depth ==> depth[v] <= depth[node] + 1)
    && (queue != [] ==> depth[node] <= depth[queue[0]])
  }

  lemma DiscoverOne(es: set<Edge>, root: Node, node: Node, parent: map<Node, Option<Node>>,
                    depth: map<Node, nat>, queue: seq<Node>, done: set<Node>, nxt: Node)
    requires Discovering(es, root, node, parent, depth, queue, done)
    requires Edge(node, nxt) in es && nxt !in parent
    ensures nxt !in depth
    ensures Discovering(es, root, node, parent[nxt := Some(node)], depth[nxt := depth[node] + 1], queue + [nxt], done)
  {
    var parent1, depth1 := parent[nxt := Some(node)], depth[nxt := depth[node] + 1];
    forall v {:trigger Hangs(es, root, parent1, depth1, v)}
      ensures Hangs(es, root, parent1, depth1, v)
    {
      assert Hangs(es, root, parent, depth, v);
    }
  }

  /** Parents are done, and walks and queue are in order. */
  ghost predicate Ranked(es: set<Edge>, root: Node, parent: map<Node, Option<Node>>, depth: map<Node, nat>,
                         walk: map<Node, seq<Node>>, queue: seq<Node>, done: set<Node>) {
    Walks(es, root, parent, depth, walk, done) && InOrder(depth, walk, queue, done)
  }

  /** Everything done came before the node whose turn it is. */
  ghost predicate Turn(node: Node, depth: map<Node, nat>, walk: map<Node, seq<Node>>, done: set<Node>) {
    forall u {:trigger Ahead(depth, walk, u, node)} :: u in done && u != node ==> Ahead(depth, walk, u, node)
  }

  lemma OrderOfTheRest(depth: map<Node, nat>, walk: map<Node, seq<Node>>, queue: seq<Node>, done: set<Node>)
    requires InOrder(depth, walk, queue, done) && queue != []
    ensures InOrder(depth, walk, queue[1..], done + {queue[0]})
    ensures queue[0] !in done && Turn(queue[0], depth, walk, done + {queue[0]})
  {
    var node, rest, done' := queue[0], queue[1..], done + {queue[0]};
    assert !Ahead(depth, walk, node, node);
    forall i, j | 0 <= i < j < |rest|
      ensures Ahead(depth, walk, rest[i], rest[j])
    {
      assert Ahead(depth, walk, queue[i + 1], queue[j + 1]);
    }
    forall u, j | u in done' && 0 <= j < |rest|
      ensures Ahead(depth, walk, u, rest[j])
    {
      assert Ahead(depth, walk, u, queue[j + 1]);
    }
    forall u | u in done
      ensures Ahead(depth, walk, u, node)
    {
      assert Ahead(depth, walk, u, queue[0]);
    }
  }

  lemma TakesTurn(es: set<Edge>, root: Node, parent: map<Node, Option<Node>>, depth: map<Node, nat>,
                  walk: map<Node, seq<Node>>, queue: seq<Node>, done: set<Node>)
    requires Ranked(es, root, parent, depth, walk, queue, done) && queue != []
    ensures Ranked(es, root, parent, depth, walk, queue[1..], done + {queue[0]})
    ensures Turn(queue[0], depth, walk, done + {queue[0]})
    ensures forall x :: x in parent ==> parent[x] != Some(queue[0])
  {
    OrderOfTheRest(depth, walk, queue, done);
    forall v
      ensures Walked(es, root, parent, depth, walk, done + {queue[0]}, v)
      ensures v in parent ==> parent[v] != Some(queue[0])
    {
      assert Walked(es, root, parent, depth, walk, done, v);
    }
  }

  /** The first walk to a node just found is the first walk to the node it is found from, and one step more. */
  lemma FirstReached(es: set<Edge>, root: Node, parent: map<Node, Option<Node>>, depth: map<Node, nat>,
                     walk: map<Node, seq<Node>>, queue: seq<Node>, done: set<Node>, nxt: Node)
    requires Searching(es, root, parent, depth, queue, done) && Ranked(es, root, parent, depth, walk, queue, done)
    requires queue != [] && Edge(queue[0], nxt) in es && nxt !in depth
    ensures First(es, walk[queue[0]] + [nxt], root, nxt)
  {
    var node := queue[0];
    var p := walk[node] + [nxt];
    assert Walked(es, root, parent, depth, walk, done, node);
    forall q | PathFromTo(es, q, root, nxt) && |q| == |p|
      ensures q == p || Before(p, q)
    {
      var k: nat := depth[node];
      var u, front := q[k], q[..k + 1];
      assert PathFromTo(es, front, root, u) && q == front + [nxt];
      HeadIsShortest(es, root, parent, depth, queue, done, q, k);
      assert Edge(q[k], q[k + 1]) in es;
      var j :| 0 <= j < |queue| && queue[j] == u;
      assert Walked(es, root, parent, depth, walk, done, u);
      if j > 0 {
        assert Ahead(depth, walk, queue[0], queue[j]);
        if front != walk[u] {
          BeforeTrans(walk[node], walk[u], front);
        }
      }
      if front != walk[node] {
        BeforeExtends(walk[node], nxt, front, nxt);
      }
    }
  }

  /** A node found later in one turn, or in a later turn, has a later walk. */
  lemma FoundLater(es: set<Edge>, root: Node, node: Node, parent: map<Node, Option<Node>>, depth: map<Node, nat>,
                   walk: map<Node, seq<Node>>, queue: seq<Node>, done: set<Node>, nxt: Node, x: Node)
    requires Ranked(es, root, parent, depth, walk, queue, done) && Turn(node, depth, walk, done) && node in done && node in walk
    requires forall x :: x in parent && parent[x] == Some(node) ==> x < nxt
    requires x in depth && depth[x] == depth[node] + 1
    ensures x in walk && Before(walk[x], walk[node] + [nxt])
  {
    assert Walked(es, root, parent, depth, walk, done, node) && Walked(es, root, parent, depth, walk, done, x);
    var u := parent[x].value;
    assert Walked(es, root, parent, depth, walk, done, u);
    assert u != node ==> Ahead(depth, walk, u, node);
    BeforeExtends(walk[u], x, walk[node], nxt);
  }

  lemma RankOneMore(es: set<Edge>, root: Node, node: Node, parent: map<Node, Option<Node>>, depth: map<Node, nat>,
                    walk: map<Node, seq<Node>>, queue: seq<Node>, done: set<Node>, nxt: Node)
    requires Ranked(es, root, parent, depth, walk, queue, done) && Turn(node, depth, walk, done)
    requires node in done && node in depth && done <= depth.Keys && nxt !in depth
    requires forall x :: x in queue ==> x in depth && depth[x] <= depth[node] + 1
    requires First(es, walk[node] + [nxt], root, nxt)
    requires forall x :: x in parent && parent[x] == Some(node) ==> x < nxt
    ensures Ranked(es, root, parent[nxt := Some(node)], depth[nxt := depth[node] + 1], walk[nxt := walk[node] + [nxt]], queue + [nxt], done)
    ensures Turn(node, depth[nxt := depth[node] + 1], walk[nxt := walk[node] + [nxt]], done)
  {
    var parent1, depth1, walk1 := parent[nxt := Some(node)], depth[nxt := depth[node] + 1], walk[nxt := walk[node] + [nxt]];
    var queue1 := queue + [nxt];
    assert Walked(es, root, parent, depth, walk, done, node);
    forall v
      ensures Walked(es, root, parent1, depth1, walk1, done, v)
    {
      assert Walked(es, root, parent, depth, walk, done, v);
    }
    forall u | u in done && u != node
      ensures Ahead(depth1, walk1, u, node)
    {
      assert Ahead(depth, walk, u, node);
    }
    forall i, j | 0 <= i < j < |queue1|
      ensures Ahead(depth1, walk1, queue1[i], queue1[j])
    {
      if j < |queue| {
        assert Ahead(depth, walk, queue[i], queue[j]);
      } else if depth[queue[i]] == depth[node] + 1 {
        FoundLater(es, root, node, parent, depth, walk, queue, done, nxt, queue[i]);
      }
    }
    forall u, j | u in done && 0 <= j < |queue1|
      ensures Ahead(depth1, walk1, u, queue1[j])
    {
      if j < |queue| {
        assert Ahead(depth, walk, u, queue[j]);
      } else {
        assert u != node ==> Ahead(depth, walk, u, node);
      }
    }
  }

  ghost predicate Grows(before: map<Node, nat>, after: map<Node, nat>) {
    forall v {:trigger v in after} {:trigger after[v]} :: v in before ==> v in after && after[v] == before[v]
  }

  lemma GrowsByOne(before: map<Node, nat>, after: map<Node, nat>, n: Node, d: nat)
    requires Grows(before, after) && n !in after
    ensures Grows(before, after[n := d])
  {
  }

  /** What was found from `node` has smaller ids than what is still to be found. */
  ghost predicate Smaller(parent: map<Node, Option<Node>>, node: Node, rest: seq<Node>) {
    forall x, k :: x in parent && parent[x] == Some(node) && 0 <= k < |rest| && rest[k] !in parent ==> x < rest[k]
  }

  lemma SmallerRest(parent: map<Node, Option<Node>>, node: Node, next: seq<Node>, i: nat)
    requires Ascending(next) && i < |next| && Smaller(parent, node, next[i..])
    ensures Smaller(if next[i] in parent then parent else parent[next[i] := Some(node)], node, next[i + 1..])
    ensures next[i] !in parent ==> forall x :: x in parent && parent[x] == Some(node) ==> x < next[i]
  {
    var rest := next[i + 1..];
    assert next[i..][0] == next[i];
    forall k | 0 <= k < |rest|
      ensures rest[k] == next[i..][k + 1] == next[i + 1 + k]
    {
    }
  }

  /** The search state while the successors of `node` are looked at. */
  ghost predicate Turning(es: set<Edge>, root: Node, node: Node, parent: map<Node, Option<Node>>, depth: map<Node, nat>,
                          walk: map<Node, seq<Node>>, queue: seq<Node>, done: set<Node>) {
    Discovering(es, root, node, parent, depth, queue, done) && Ranked(es, root, parent, depth, walk, queue, done) && Turn(node, depth, walk, done)
  }

  ghost predicate FirstOnes(es: set<Edge>, root: Node, p: seq<Node>, next: seq<Node>, depth: map<Node, nat>) {
    forall m {:trigger First(es, p + [m], root, m)} :: m in next && m !in depth ==> First(es, p + [m], root, m)
  }

  lemma TurningOneMore(es: set<Edge>, root: Node, node: Node, parent: map<Node, Option<Node>>, depth: map<Node, nat>,
                       walk: map<Node, seq<Node>>, queue: seq<Node>, done: set<Node>, nxt: Node)
    requires Turning(es, root, node, parent, depth, walk, queue, done)
    requires Edge(node, nxt) in es && nxt !in parent && First(es, walk[node] + [nxt], root, nxt)
    requires forall x :: x in parent && parent[x] == Some(node) ==> x < nxt
    ensures nxt !in depth
    ensures Turning(es, root, node, parent[nxt := Some(node)], depth[nxt := depth[node] + 1], walk[nxt := walk[node] + [nxt]], queue + [nxt], done)
  {
    DiscoverOne(es, root, node, parent, depth, queue, done, nxt);
    RankOneMore(es, root, node, parent, depth, walk, queue, done, nxt);
  }

  /** The first i of `next` have been found, and what was found before still is. */
  ghost predicate Found(depth0: map<Node, nat>, depth: map<Node, nat>, next: seq<Node>, i: nat, nodes: set<Node>) {
    Grows(depth0, depth) && depth.Keys <= nodes && i <= |next| && forall j :: 0 <= j < i ==> next[j] in depth
  }

  lemma FoundNext(depth0: map<Node, nat>, before: map<Node, nat>, depth: map<Node, nat>, next: seq<Node>, i: nat, nodes: set<Node>)
    requires i < |next| && next[i] in nodes && Found(depth0, before, next, i, nodes)
    requires Grows(depth0, depth) && depth.Keys == before.Keys + {next[i]}
    ensures Found(depth0, depth, next, i + 1, nodes)
  {
  }

  /** The inner loop: enqueue each successor of `node` that was not seen before. */
  method Discover(es: set<Edge>, ghost root: Node, node: Node, next: seq<Node>, ghost nodes: set<Node>,
                  parent0: map<Node, Option<Node>>, ghost depth0: map<Node, nat>, ghost walk0: map<Node, seq<Node>>, queue0: seq<Node>,
                  ghost done: set<Node>)
    returns (parent: map<Node, Option<Node>>, ghost depth: map<Node, nat>, ghost walk: map<Node, seq<Node>>, queue: seq<Node>)
    requires Turning(es, root, node, parent0, depth0, walk0, queue0, done)
    requires Ascending(next) && FirstOnes(es, root, walk0[node], next, depth0) && Smaller(parent0, node, next)
    requires forall m :: m in next ==> Edge(node, m) in es && m in nodes
    requires depth0.Keys <= nodes
    ensures Turning(es, root, node, parent, depth, walk, queue, done)
    ensures Grows(depth0, depth)
    ensures forall m :: m in next ==> m in depth
    ensures depth.Keys <= nodes
    ensures |queue| - |queue0| == |depth| - |depth0|
  {
    parent, depth, walk, queue := parent0, depth0, walk0, queue0;
    assert next[0..] == next;
    for i := 0 to |next|
      invariant Turning(es, root, node, parent, depth, walk, queue, done) && walk[node] == walk0[node]
      invariant Found(depth0, depth, next, i, nodes) && |queue| - |queue0| == |depth| - |depth0|
      invariant Smaller(parent, node, next[i..])
    {
      SmallerRest(parent, node, next, i);
      assert next[i] !in depth0 ==> First(es, walk0[node] + [next[i]], root, next[i]);
      ghost var before := depth;
      parent, depth, walk, queue := DiscoverNext(es, root, node, next[i], parent, depth, walk, queue, done, depth0);
      FoundNext(depth0, before, depth, next, i, nodes);
    }
  }

  /** One successor: enqueued unless it was seen before. */
  method DiscoverNext(es: set<Edge>, ghost root: Node, node: Node, nxt: Node,
                      parent0: map<Node, Option<Node>>, ghost depth0: map<Node, nat>, ghost walk0: map<Node, seq<Node>>, queue0: seq<Node>,
                      ghost done: set<Node>, ghost before: map<Node, nat>)
    returns (parent: map<Node, Option<Node>>, ghost depth: map<Node, nat>, ghost walk: map<Node, seq<Node>>, queue: seq<Node>)
    requires Turning(es, root, node, parent0, depth0, walk0, queue0, done) && Edge(node, nxt) in es
    requires nxt !in depth0 ==> First(es, walk0[node] + [nxt], root, nxt)
    requires nxt !in parent0 ==> forall x :: x in parent0 && parent0[x] == Some(node) ==> x < nxt
    requires Grows(before, depth0)
    ensures Turning(es, root, node, parent, depth, walk, queue, done) && walk[node] == walk0[node]
    ensures Grows(before, depth) && depth.Keys == depth0.Keys + {nxt}
    ensures |queue| - |queue0| == |depth| - |depth0|
    ensures parent == if nxt in parent0 then parent0 else parent0[nxt := Some(node)]
  {
    parent, depth, walk, queue := parent0, depth0, walk0, queue0;
    if nxt !in parent {
      TurningOneMore(es, root, node, parent, depth, walk, queue, done, nxt);
      GrowsByOne(before, depth, nxt, depth[node] + 1);
      parent := parent[nxt := Some(node)];
      depth := depth[nxt := depth[node] + 1];
      walk := walk[nxt := walk[node] + [nxt]];
      queue := queue + [nxt];
    }
  }

  /** When every successor of a node has been discovered, the node is finished. */
  lemma Finished(es: set<Edge>, node: Node, before: map<Node, nat>, after: map<Node, nat>, done: set<Node>)
    requires Expanded(es, before, done) && done <= before.Keys && node in before
    requires Grows(before, after)
    requires forall e :: e in es && e.src == node ==> e.dst in after
    requires forall v :: v in after ==> after[v] <= after[node] + 1
    ensures Expanded(es, after, done + {node})
  {
  }

  lemma {:induction false} SubsetSize(a: set<Node>, b: set<Node>)
    requires a <= b
    ensures |a| <= |b|
  {
    if a != {} {
      var x :| x in a;
      SubsetSize(a - {x}, b - {x});
    }
  }

  lemma Dequeued(es: set<Edge>, root: Node, parent: map<Node, Option<Node>>, depth: map<Node, nat>, queue: seq<Node>, done: set<Node>)
    requires Searching(es, root, parent, depth, queue, done) && queue != []
    ensures Discovering(es, root, queue[0], parent, depth, queue[1..], done + {queue[0]})
  {
  }

  lemma FoundIsShortest(es: set<Edge>, root: Node, parent: map<Node, Option<Node>>, depth: map<Node, nat>,
                        queue: seq<Node>, done: set<Node>, q: seq<Node>)
    requires Searching(es, root, parent, depth, queue, done) && queue != []
    requires PathFromTo(es, q, root, queue[0])
    ensures depth[queue[0]] + 1 <= |q|
  {
    if |q| - 1 < depth[queue[0]] {
      HeadIsShortest(es, root, parent, depth, queue, done, q, |q| - 1);
    }
  }

  /** The head of the queue comes off: its turn begins, and what it leads to is found by the first walk there is. */
  lemma TurnBegins(es: set<Edge>, root: Node, parent: map<Node, Option<Node>>, depth: map<Node, nat>, walk: map<Node, seq<Node>>,
                   queue: seq<Node>, done: set<Node>, next: seq<Node>)
    requires Searching(es, root, parent, depth, queue, done) && Ranked(es, root, parent, depth, walk, queue, done) && queue != []
    requires forall m :: m in next ==> Edge(queue[0], m) in es
    ensures Turning(es, root, queue[0], parent, depth, walk, queue[1..], done + {queue[0]})
    ensures FirstOnes(es, root, walk[queue[0]], next, depth) && Smaller(parent, queue[0], next)
  {
    Dequeued(es, root, parent, depth, queue, done);
    TakesTurn(es, root, parent, depth, walk, queue, done);
    forall m | m in next && m !in depth
      ensures First(es, walk[queue[0]] + [m], root, m)
    {
      FirstReached(es, root, parent, depth, walk, queue, done, m);
    }
  }

  /** One node taken off the queue and expanded. */
  method Visit(es: set<Edge>, ghost root: Node, ghost nodes: set<Node>, next: seq<Node>,
               parent0: map<Node, Option<Node>>, ghost depth0: map<Node, nat>, ghost walk0: map<Node, seq<Node>>, queue0: seq<Node>,
               ghost done0: set<Node>)
    returns (parent: map<Node, Option<Node>>, ghost depth: map<Node, nat>, ghost walk: map<Node, seq<Node>>, queue: seq<Node>)
    requires Searching(es, root, parent0, depth0, queue0, done0) && Ranked(es, root, parent0, depth0, walk0, queue0, done0) && queue0 != []
    requires Ascending(next) && forall m :: m in next <==> Edge(queue0[0], m) in es
    requires depth0.Keys <= nodes && forall e :: e in es ==> e.dst in nodes
    ensures Searching(es, root, parent, depth, queue, done0 + {queue0[0]}) && Ranked(es, root, parent, depth, walk, queue, done0 + {queue0[0]})
    ensures depth.Keys <= nodes && |queue| + 1 - |queue0| == |depth| - |depth0|
  {
    var node := queue0[0];
    TurnBegins(es, root, parent0, depth0, walk0, queue0, done0, next);
    parent, depth, walk, queue := Discover(es, root, node, next, nodes, parent0, depth0, walk0, queue0[1..], done0 + {node});
    Finished(es, node, depth0, depth, done0);
  }

  lemma SearchBegins(es: set<Edge>, root: Node)
    ensures Searching(es, root, map[root := None], map[root := 0], [root], {})
    ensures Ranked(es, root, map[root := None], map[root := 0], map[root := [root]], [root], {})
  {
    var parent: map<Node, Option<Node>>, depth: map<Node, nat>, walk := map[root := None], map[root := 0], map[root := [root]];
    assert forall v :: Hangs(es, root, parent, depth, v);
    assert PathFromTo(es, [root], root, root);
    assert forall q :: PathFromTo(es, q, root, root) && |q| == 1 ==> q == [root];
    assert forall v :: Walked(es, root, parent, depth, walk, {}, v);
  }

  /** The walk to the head of the queue: none is shorter, and of those as short it comes first. */
  lemma HeadIsFirst(es: set<Edge>, root: Node, parent: map<Node, Option<Node>>, depth: map<Node, nat>,
                    walk: map<Node, seq<Node>>, queue: seq<Node>, done: set<Node>)
    requires Searching(es, root, parent, depth, queue, done) && Ranked(es, root, parent, depth, walk, queue, done) && queue != []
    ensures First(es, walk[queue[0]], root, queue[0])
    ensures forall q :: PathFromTo(es, q, root, queue[0]) ==> |walk[queue[0]]| <= |q|
  {
    assert Walked(es, root, parent, depth, walk, done, queue[0]);
    forall q | PathFromTo(es, q, root, queue[0])
      ensures |walk[queue[0]]| <= |q|
    {
      FoundIsShortest(es, root, parent, depth, queue, done, q);
    }
  }

  /** Nothing that was never taken off the queue can be reached. */
  lemma NeverTakenIsUnreachable(es: set<Edge>, root: Node, depth: map<Node, nat>, done: set<Node>, n: Node)
    requires Queue([], depth, done) && Expanded(es, depth, done) && root in depth && n !in done
    ensures !Reaches(es, root, n)
  {
    forall q | PathFromTo(es, q, root, n)
      ensures false
    {
      ExhaustedIsClosed(es, root, depth, done, q);
    }
  }

  /**
   The cycle that `predecessor -> successor` would close, as [predecessor, successor, ..., predecessor],
   or None. It is found exactly when there is one, it is a real cycle, no shorter one exists, and among the
   shortest ones it is the one with the smallest ids.
   */
  method CyclePath(edges: seq<Edge>, predecessor: Node, successor: Node) returns (cycle: Option<seq<Node>>)
    ensures cycle.Some? <==> Reaches(EdgeSet(edges), successor, predecessor)
    ensures cycle.Some? ==>
              |cycle.value| > 1 && cycle.value[0] == predecessor
              && PathFromTo(EdgeSet(edges), cycle.value[1..], successor, predecessor)
    ensures cycle.Some? ==>
              forall q :: PathFromTo(EdgeSet(edges), q, successor, predecessor) ==> |cycle.value| <= |q| + 1
    ensures cycle.Some? ==> First(EdgeSet(edges), cycle.value[1..], successor, predecessor)
  {
    ghost var es := EdgeSet(edges);
    ghost var nodes := {successor} + set e | e in es :: e.dst;
    var successors := GroupBySource(edges);
    var parent: map<Node, Option<Node>> := map[successor := None];
    var queue := [successor];
    ghost var depth: map<Node, nat> := map[successor := 0];
    ghost var walk: map<Node, seq<Node>> := map[successor := [successor]];
    ghost var done: set<Node> := {};
    ghost var finished: nat := 0;
    SearchBegins(es, successor);
    while queue != []
      invariant Searching(es, successor, parent, depth, queue, done) && Ranked(es, successor, parent, depth, walk, queue, done)
      invariant predecessor !in done
      invariant depth.Keys <= nodes
      invariant finished + |queue| == |depth|
      decreases |nodes| - finished
    {
      SubsetSize(depth.Keys, nodes);
      var node := queue[0];
      if node == predecessor {
        HeadIsFirst(es, successor, parent, depth, walk, queue, done);
        var path := TraceBack(EdgeSet(edges), successor, parent, depth, walk, done, node);
        cycle := Some([predecessor] + path);
        assert cycle.value[1..] == path;
        return;
      }
      var next := Sorted(if node in successors then successors[node] else []);
      parent, depth, walk, queue := Visit(EdgeSet(edges), successor, nodes, next, parent, depth, walk, queue, done);
      done := done + {node};
      finished := finished + 1;
    }
    NeverTakenIsUnreachable(es, successor, depth, done, predecessor);
    return None;
  }

  // ---- Kahn's algorithm -------------------------------------------------------------------------

  /** How many listed edges into `n` come from a node not removed yet. */
  ghost function Pending(edges: seq<Edge>, gone: set<Node>, n: Node): nat {
    if edges == [] then 0
    else
      var last := edges[|edges| - 1];
      Pending(edges[..|edges| - 1], gone, n) + if last.dst == n && last.src !in gone then 1 else 0
  }

  lemma {:induction false} NothingPending(edges: seq<Edge>, gone: set<Node>, n: Node)
    ensures Pending(edges, gone, n) == 0 <==> forall e :: e in edges && e.dst == n ==> e.src in gone
  {
    if edges != [] {
      var front, last := edges[..|edges| - 1], edges[|edges| - 1];
      NothingPending(front, gone, n);
      assert edges == front + [last];
    }
  }

  /** Removing a node settles exactly as many edges into `n` as its successor list names `n`. */
  lemma {:induction false} RemovalSettles(edges: seq<Edge>, gone: set<Node>, node: Node, n: Node)
    requires node !in gone
    ensures Pending(edges, gone, n) == Pending(edges, gone + {node}, n) + multiset(SuccessorList(edges, node))[n]
  {
    if edges != [] {
      var front, last := edges[..|edges| - 1], edges[|edges| - 1];
      RemovalSettles(front, gone, node, n);
      assert edges == front + [last];
    }
  }

  ghost predicate Counted(edges: seq<Edge>, nodes: set<Node>, gone: set<Node>, left: seq<Node>, indegree: map<Node, nat>) {
    forall n :: n in nodes && n !in gone ==>
      n in indegree && indegree[n] == Pending(edges, gone, n) + multiset(left)[n]
  }

  /** The queue is exactly the nodes still in the graph that wait on nothing, each once. */
  ghost predicate Free(nodes: set<Node>, gone: set<Node>, indegree: map<Node, nat>, queue: seq<Node>) {
    && (forall n :: n in queue ==> n in nodes && n !in gone && n in indegree && indegree[n] == 0)
    && (forall n :: n in nodes && n !in gone && n in indegree && indegree[n] == 0 ==> n in queue)
    && (forall i, j :: 0 <= i < j < |queue| ==> queue[i] != queue[j])
  }

  /** The removal order puts every edge's source before its target. */
  ghost predicate Ordered(edges: seq<Edge>, gone: set<Node>, rank: map<Node, nat>) {
    && rank.Keys == gone
    && (forall n :: n in rank ==> rank[n] < |gone|)
    && (forall e :: e in edges && e.dst in gone ==> e.src in rank && rank[e.src] < rank[e.dst])
  }

  method CountEdges(edges: seq<Edge>) returns (nodes: set<Node>, indegree: map<Node, nat>)
    ensures nodes == (set e | e in edges :: e.src) + set e | e in edges :: e.dst
    ensures Counted(edges, nodes, {}, [], indegree)
  {
    nodes, indegree := {}, map[];
    for i := 0 to |edges|
      invariant nodes == (set e | e in edges[..i] :: e.src) + set e | e in edges[..i] :: e.dst
      invariant forall n :: (if n in indegree then indegree[n] else 0) == Pending(edges[..i], {}, n)
    {
      var e := edges[i];
      assert edges[..i + 1][..i] == edges[..i] && edges[..i + 1] == edges[..i] + [e];
      indegree := indegree[e.dst := (if e.dst in indegree then indegree[e.dst] else 0) + 1];
      nodes := nodes + {e.src, e.dst};
    }
    assert edges[..|edges|] == edges;
    indegree := indegree + map n | n in nodes && n !in indegree :: 0;
  }

  method InitialQueue(nodes: set<Node>, indegree: map<Node, nat>) returns (queue: seq<Node>)
    requires nodes <= indegree.Keys
    ensures Free(nodes, {}, indegree, queue)
  {
    queue := [];
    var rest := nodes;
    while rest != {}
      invariant rest <= nodes && Free(nodes - rest, {}, indegree, queue)
      decreases rest
    {
      var n :| n in rest;
      rest := rest - {n};
      if indegree[n] == 0 {
        queue := queue + [n];
      }
    }
    assert nodes - rest == nodes;
  }

  lemma OneLess(edges: seq<Edge>, nodes: set<Node>, gone: set<Node>, next: seq<Node>, indegree: map<Node, nat>)
    requires Counted(edges, nodes, gone, next, indegree) && next != [] && next[0] in nodes && next[0] !in gone
    ensures indegree[next[0]] > 0
    ensures Counted(edges, nodes, gone, next[1..], indegree[next[0] := indegree[next[0]] - 1])
  {
    assert next == [next[0]] + next[1..];
  }

  lemma FreeAfterOne(nodes: set<Node>, gone: set<Node>, n: Node, indegree: map<Node, nat>, queue: seq<Node>)
    requires Free(nodes, gone, indegree, queue) && n in nodes && n !in gone && n in indegree && indegree[n] > 0
    ensures Free(nodes, gone, indegree[n := indegree[n] - 1], if indegree[n] == 1 then queue + [n] else queue)
  {
    assert n !in queue;
  }

  lemma ReleaseNext(edges: seq<Edge>, nodes: set<Node>, gone: set<Node>, next: seq<Node>, i: nat, indegree: map<Node, nat>, queue: seq<Node>)
    requires i < |next| && next[i] in nodes && next[i] !in gone
    requires Counted(edges, nodes, gone, next[i..], indegree) && Free(nodes, gone, indegree, queue)
    ensures next[i] in indegree && indegree[next[i]] > 0
    ensures Counted(edges, nodes, gone, next[i + 1..], indegree[next[i] := indegree[next[i]] - 1])
    ensures Free(nodes, gone, indegree[next[i] := indegree[next[i]] - 1], if indegree[next[i]] == 1 then queue + [next[i]] else queue)
  {
    assert next[i..][0] == next[i] && next[i..][1..] == next[i + 1..];
    OneLess(edges, nodes, gone, next[i..], indegree);
    FreeAfterOne(nodes, gone, next[i], indegree, queue);
  }

  /** One node's outgoing edges are struck off, and the nodes they were the last to hold join the queue. */
  method Release(edges: seq<Edge>, ghost nodes: set<Node>, ghost gone: set<Node>, next: seq<Node>,
                 indegree0: map<Node, nat>, queue0: seq<Node>)
    returns (indegree: map<Node, nat>, queue: seq<Node>)
    requires Counted(edges, nodes, gone, next, indegree0) && Free(nodes, gone, indegree0, queue0)
    requires forall n :: n in next ==> n in nodes && n !in gone
    ensures Counted(edges, nodes, gone, [], indegree) && Free(nodes, gone, indegree, queue)
  {
    indegree, queue := indegree0, queue0;
    for i := 0 to |next|
      invariant Counted(edges, nodes, gone, next[i..], indegree) && Free(nodes, gone, indegree, queue)
    {
      var nxt := next[i];
      assert nxt in next;
      ReleaseNext(edges, nodes, gone, next, i, indegree, queue);
      indegree := indegree[nxt := indegree[nxt] - 1];
      if indegree[nxt] == 0 {
        queue := queue + [nxt];
      }
    }
  }

  lemma RankOne(edges: seq<Edge>, gone: set<Node>, rank: map<Node, nat>, node: Node)
    requires Ordered(edges, gone, rank) && node !in gone && Pending(edges, gone, node) == 0
    ensures Ordered(edges, gone + {node}, rank[node := |gone|])
    ensures forall n :: n in SuccessorList(edges, node) ==> n !in gone + {node}
  {
    NothingPending(edges, gone, node);
  }

  lemma SettleAll(edges: seq<Edge>, nodes: set<Node>, gone: set<Node>, indegree: map<Node, nat>, node: Node)
    requires Counted(edges, nodes, gone, [], indegree) && node !in gone
    ensures Counted(edges, nodes, gone + {node}, SuccessorList(edges, node), indegree)
  {
    forall n | n in nodes && n !in gone + {node}
      ensures indegree[n] == Pending(edges, gone + {node}, n) + multiset(SuccessorList(edges, node))[n]
    {
      RemovalSettles(edges, gone, node, n);
    }
  }

  /** A node that never became free waits on another such node: each node left lies on or behind a cycle. */
  lemma LeftoverIsCyclic(edges: seq<Edge>, nodes: set<Node>, gone: set<Node>, indegree: map<Node, nat>)
    requires nodes == (set e | e in edges :: e.src) + set e | e in edges :: e.dst
    requires Counted(edges, nodes, gone, [], indegree) && Free(nodes, gone, indegree, [])
    ensures forall n :: n in nodes - gone ==> OnOrBehindCycle(EdgeSet(edges), n)
    ensures nodes - gone != {} ==> !Acyclic(EdgeSet(edges))
  {
    forall n | n in nodes - gone
      ensures HasPredecessorIn(EdgeSet(edges), nodes - gone, n)
    {
      NothingPending(edges, gone, n);
      assert Pending(edges, gone, n) != 0;
      var e :| e in edges && e.dst == n && e.src !in gone;
      assert Edge(e.src, n) in EdgeSet(edges);
    }
    forall n | n in nodes - gone
      ensures OnOrBehindCycle(EdgeSet(edges), n) && !Acyclic(EdgeSet(edges))
    {
      PredecessorClosedHasCycle(EdgeSet(edges), nodes - gone, n);
    }
  }

  lemma DequeuedFree(nodes: set<Node>, gone: set<Node>, indegree: map<Node, nat>, queue: seq<Node>)
    requires Free(nodes, gone, indegree, queue) && queue != []
    ensures Free(nodes, gone + {queue[0]}, indegree, queue[1..])
  {
  }

  lemma AllRemovedIsAcyclic(edges: seq<Edge>, nodes: set<Node>, rank: map<Node, nat>)
    requires nodes == (set e | e in edges :: e.src) + set e | e in edges :: e.dst
    requires Ordered(edges, nodes, rank)
    ensures Acyclic(EdgeSet(edges))
  {
    forall e | e in EdgeSet(edges)
      ensures e.src in rank && e.dst in rank && rank[e.src] < rank[e.dst]
    {
      assert e.dst in nodes;
    }
    RankedIsAcyclic(EdgeSet(edges), rank);
  }

  lemma {:induction false} ProperSubsetSmaller(a: set<Node>, b: set<Node>)
    requires a <= b
    ensures a != b <==> |a| != |b|
  {
    if x :| x in b && x !in a {
      SubsetSize(a, b - {x});
    }
  }

  /** The nodes gone so far can be ranked along the edges, and the counts and the queue fit what is left. */
  ghost predicate Peeled(edges: seq<Edge>, nodes: set<Node>, gone: set<Node>, indegree: map<Node, nat>, queue: seq<Node>,
                         rank: map<Node, nat>)
  {
    && Counted(edges, nodes, gone, [], indegree) && Free(nodes, gone, indegree, queue)
    && gone <= nodes && Ordered(edges, gone, rank)
  }

  /** Takes the head of the queue away, with its outgoing edges. */
  method RemoveOne(edges: seq<Edge>, successors: map<Node, seq<Node>>, ghost nodes: set<Node>, ghost gone: set<Node>,
                   indegree: map<Node, nat>, queue: seq<Node>, ghost rank: map<Node, nat>)
    returns (indegree': map<Node, nat>, queue': seq<Node>, ghost gone': set<Node>, ghost rank': map<Node, nat>)
    requires Peeled(edges, nodes, gone, indegree, queue, rank) && queue != []
    requires forall n :: n in successors ==> successors[n] == SuccessorList(edges, n)
    requires forall n :: n !in successors ==> SuccessorList(edges, n) == []
    requires forall e :: e in edges ==> e.dst in nodes
    ensures Peeled(edges, nodes, gone', indegree', queue', rank')
    ensures gone' == gone + {queue[0]} && queue[0] !in gone && queue[0] in nodes
  {
    var node := queue[0];
    assert Pending(edges, gone, node) == 0;
    RankOne(edges, gone, rank, node);
    SettleAll(edges, nodes, gone, indegree, node);
    DequeuedFree(nodes, gone, indegree, queue);
    rank' := rank[node := |gone|];
    gone' := gone + {node};
    var next := if node in successors then successors[node] else [];
    forall n | n in next
      ensures n in nodes
    {
      assert Edge(node, n) in edges;
    }
    indegree', queue' := Release(edges, nodes, gone', next, indegree, queue[1..]);
  }

  /** True exactly when the edges contain a directed cycle. */
  method HasCycle(edges: seq<Edge>) returns (cyclic: bool)
    ensures cyclic <==> !Acyclic(EdgeSet(edges))
  {
    var successors := GroupBySource(edges);
    var nodes, indegree := CountEdges(edges);
    var queue := InitialQueue(nodes, indegree);
    var removed := 0;
    ghost var gone: set<Node> := {};
    ghost var rank: map<Node, nat> := map[];
    while queue != []
      invariant Peeled(edges, nodes, gone, indegree, queue, rank) && removed == |gone|
      decreases nodes - gone
    {
      indegree, queue, gone, rank := RemoveOne(edges, successors, nodes, gone, indegree, queue, rank);
      removed := removed + 1;
    }
    ProperSubsetSmaller(gone, nodes);
    if gone == nodes {
      AllRemovedIsAcyclic(edges, nodes, rank);
    } else {
      LeftoverIsCyclic(edges, nodes, gone, indegree);
    }
    return removed != |nodes|;
  }
}
