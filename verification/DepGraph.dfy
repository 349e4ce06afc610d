/** Resolving the `after` and `before` declarations of services into a start order. */
module DepGraph {
  import opened Graph

  const MAX_COUNT := 32
  const MAX_DEPS := 8

  /** The part of a service definition that the graph looks at. */
  datatype Def = Def(name: string, after: seq<string>, before: seq<string>)

  /** The index of the first service with this name, or |defs| if there is none. */
  function Find(defs: seq<Def>, name: string): (i: nat)
    ensures i <= |defs| && (i < |defs| ==> defs[i].name == name)
    ensures forall k :: 0 <= k < i ==> defs[k].name != name
  {
    if defs == [] then 0 else if defs[0].name == name then 0 else 1 + Find(defs[1..], name)
  }

  ghost predicate Known(defs: seq<Def>, names: seq<string>) {
    forall a :: 0 <= a < |names| ==> Find(defs, names[a]) < |defs|
  }

  /** Every name that a service refers to exists. */
  ghost predicate AllKnown(defs: seq<Def>) {
    forall i :: 0 <= i < |defs| ==> Known(defs, defs[i].after) && Known(defs, defs[i].before)
  }

  /** Service `u` must start before service `v`. */
  ghost predicate Before(defs: seq<Def>, u: nat, v: nat)
    requires u < |defs| && v < |defs|
  {
    || (exists a :: 0 <= a < |defs[v].after| && Find(defs, defs[v].after[a]) == u)
    || (exists b :: 0 <= b < |defs[u].before| && Find(defs, defs[u].before[b]) == v)
  }

  /** All the edges of the graph. */
  ghost function EdgesOf(defs: seq<Def>): Edges {
    set u, v | 0 <= u < |defs| && 0 <= v < |defs| && Before(defs, u, v) :: (u, v)
  }

  /** The `after` indices of each service, at most MAX_DEPS of them. */
  ghost function DepsOf(defs: seq<Def>, i: nat): seq<nat>
    requires i < |defs|
  {
    var n := if |defs[i].after| < MAX_DEPS then |defs[i].after| else MAX_DEPS;
    seq(n, a requires 0 <= a < n => Find(defs, defs[i].after[a]))
  }

  class DepGraph {
    const defs: seq<Def>
    const edge: array2<bool>        // edge[i, j]: service i must start before service j
    const indegree: array<int>
    var deps: seq<seq<nat>>         // the resolved `after` indices of each service

    ghost predicate Shape()
      reads this
    {
      && |defs| <= MAX_COUNT && edge.Length0 == edge.Length1 == MAX_COUNT && indegree.Length == MAX_COUNT
    }

    /** The matrix holds the edges `e`, and the in-degrees count them. */
    ghost predicate Holds(e: Edges)
      requires Shape()
      reads this, edge, indegree
    {
      && Inside(e, |defs|)
      && (forall i, j :: 0 <= i < |defs| && 0 <= j < |defs| ==> (edge[i, j] <==> (i, j) in e))
      && (forall j :: 0 <= j < |defs| ==> indegree[j] == |Preds(e, |defs|, j)|)
    }

    constructor (services: seq<Def>)
      requires |services| <= MAX_COUNT
      ensures Shape() && defs == services && fresh(edge) && fresh(indegree)
    {
      defs, deps := services, [];
      edge := new bool[MAX_COUNT, MAX_COUNT];
      indegree := new int[MAX_COUNT];
    }

    method ServiceFind(name: string) returns (i: nat)
      ensures i == Find(defs, name)
    {
      i := 0;
      while i < |defs|
        invariant i <= |defs|
        invariant forall k :: 0 <= k < i ==> defs[k].name != name
      {
        if defs[i].name == name { break; }
        i := i + 1;
      }
      FindIsFirst(defs, name, i);
    }

    /** Adds an edge once. */
    method AddEdge(u: nat, v: nat, ghost e: Edges)
      requires Shape() && u < |defs| && v < |defs| && Holds(e)
      modifies edge, indegree
      ensures Holds(e + {(u, v)})
    {
      PredsAdd(e, |defs|, u, v);
      if !edge[u, v] {
        edge[u, v] := true;
        indegree[v] := indegree[v] + 1;
      }
    }

    /** Enters the edges of service `i`'s `after` names; stops at a name that does not exist. `part(a)` are
        the edges known after `a` names. */
    method ResolveAfter(i: nat, ghost part: nat -> Edges) returns (ok: bool, indices: seq<nat>)
      requires Shape() && i < |defs| && Holds(part(0))
      requires forall a: nat :: a < |defs[i].after| ==> AfterStep(defs, i, part, a)
      modifies edge, indegree
      ensures ok <==> Known(defs, defs[i].after)
      ensures ok ==> Holds(part(|defs[i].after|)) && indices == DepsOf(defs, i)
    {
      indices := [];
      var names := defs[i].after;
      for a := 0 to |names|
        invariant forall k :: 0 <= k < a ==> Find(defs, names[k]) < |defs|
        invariant Holds(part(a)) && |indices| == (if a < MAX_DEPS then a else MAX_DEPS)
        invariant forall k :: 0 <= k < |indices| ==> indices[k] == Find(defs, names[k])
      {
        var dep := ServiceFind(names[a]);
        if dep == |defs| { return false, indices; }
        assert AfterStep(defs, i, part, a);
        AddEdge(dep, i, part(a));
        if |indices| < MAX_DEPS { indices := indices + [dep]; }
      }
      return true, indices;
    }

    /** Enters the edges of service `i`'s `before` names; stops at a name that does not exist. */
    method ResolveBefore(i: nat, ghost part: nat -> Edges) returns (ok: bool)
      requires Shape() && i < |defs| && Holds(part(0))
      requires forall b: nat :: b < |defs[i].before| ==> BeforeStep(defs, i, part, b)
      modifies edge, indegree
      ensures ok <==> Known(defs, defs[i].before)
      ensures ok ==> Holds(part(|defs[i].before|))
    {
      var names := defs[i].before;
      for b := 0 to |names|
        invariant forall k :: 0 <= k < b ==> Find(defs, names[k]) < |defs|
        invariant Holds(part(b))
      {
        var target := ServiceFind(names[b]);
        if target == |defs| { return false; }
        assert BeforeStep(defs, i, part, b);
        AddEdge(i, target, part(b));
      }
      return true;
    }

    /** Resolves all names of one service. */
    method Resolve(i: nat) returns (ok: bool, indices: seq<nat>)
      requires Shape() && i < |defs| && Holds(Part(defs, i, 0, 0))
      modifies edge, indegree
      ensures ok <==> Known(defs, defs[i].after) && Known(defs, defs[i].before)
      ensures ok ==> Holds(Part(defs, i + 1, 0, 0)) && indices == DepsOf(defs, i)
    {
      ghost var after := (x: nat) => Part(defs, i, x, 0);
      forall a: nat | a < |defs[i].after| ensures AfterStep(defs, i, after, a) { PartAfter(defs, i, a); }
      ok, indices := ResolveAfter(i, after);
      if !ok { return; }
      ghost var before := (x: nat) => Part(defs, i, |defs[i].after|, x);
      forall b: nat | b < |defs[i].before| ensures BeforeStep(defs, i, before, b) { PartBefore(defs, i, b); }
      ok := ResolveBefore(i, before);
      PartNext(defs, i);
    }

    /** Resolves all names and fills the matrix; fails exactly when a name does not exist or the
        declared order has a cycle. */
    method Build() returns (r: int)
      requires Shape()
      modifies this`deps, edge, indegree
      ensures r == 0 || r == -1
      ensures r == 0 <==> AllKnown(defs) && Acyclic(EdgesOf(defs))
      ensures r == 0 ==> Holds(EdgesOf(defs))
      ensures r == 0 ==> |deps| == |defs| && forall i :: 0 <= i < |defs| ==> deps[i] == DepsOf(defs, i)
    {
      Clear();
      deps := [];
      for i := 0 to |defs|
        invariant Shape() && Holds(Part(defs, i, 0, 0)) && |deps| == i
        invariant forall k :: 0 <= k < i ==> Known(defs, defs[k].after) && Known(defs, defs[k].before)
        invariant forall k :: 0 <= k < i ==> deps[k] == DepsOf(defs, k)
      {
        var ok, indices := Resolve(i);
        if !ok { return -1; }
        deps := deps + [indices];
      }
      PartAll(defs);
      var cyclic := HasCycle(EdgesOf(defs));
      return if cyclic then -1 else 0;
    }

    method Clear()
      requires Shape()
      modifies edge, indegree
      ensures Holds(Part(defs, 0, 0, 0))
    {
      forall i, j | 0 <= i < MAX_COUNT && 0 <= j < MAX_COUNT { edge[i, j] := false; }
      forall j | 0 <= j < MAX_COUNT { indegree[j] := 0; }
      PartNone(defs);
    }

    // ------------------------------------------------- Kahn's algorithm

    /** Lists the services whose turn comes, and returns the counts that are left at the end. */
    method RunKahn(ghost e: Edges) returns (order: seq<nat>, left: array<nat>)
      requires Shape() && Holds(e)
      ensures fresh(left) && left.Length == MAX_COUNT
      ensures Kahn(e, |defs|, order, Elems(order), left[..|defs|])
    {
      var n := |defs|;
      var queue := new nat[MAX_COUNT];
      left := new nat[MAX_COUNT](_ => 0);
      var tail := Seed(queue, left, e);
      var head := 0;
      ghost var done := {};
      assert Elems(queue[..tail][..head]) == done;
      while head < tail
        invariant head <= tail <= n && done == Elems(queue[..tail][..head])
        invariant Kahn(e, n, queue[..tail], done, left[..n])
        decreases n - head
      {
        tail, done := VisitSuccessors(queue, left, head, tail, e, done);
        head := head + 1;
      }
      order := queue[..tail];
      assert order[..head] == order;
    }

    /** Copies the in-degrees and queues every service without a predecessor. */
    method Seed(queue: array<nat>, left: array<nat>, ghost e: Edges) returns (tail: nat)
      requires Shape() && Holds(e) && queue.Length == MAX_COUNT && left.Length == MAX_COUNT && queue != left
      modifies queue, left
      ensures tail <= |defs| && Kahn(e, |defs|, queue[..tail], {}, left[..|defs|])
    {
      var n := |defs|;
      for i := 0 to n
        invariant forall j :: 0 <= j < i ==> left[j] == indegree[j]
      {
        left[i] := indegree[i];
      }
      tail := 0;
      for i := 0 to n
        invariant tail <= i
        invariant Seeded(e, n, queue[..tail], left[..n], i)
      {
        SeedNext(e, n, queue[..tail], left[..n], i);
        if left[i] == 0 {
          queue[tail] := i;
          tail := tail + 1;
          assert queue[..tail] == queue[..tail - 1] + [i];
        }
      }
      SeedDone(e, n, queue[..tail], left[..n]);
    }

    /** Lowers the counts of the successors of the service at the head of the queue. */
    method VisitSuccessors(queue: array<nat>, left: array<nat>, head: nat, tail: nat, ghost e: Edges,
                           ghost done: set<nat>)
      returns (tail': nat, ghost done': set<nat>)
      requires Shape() && Holds(e) && queue.Length == MAX_COUNT && left.Length == MAX_COUNT
      requires queue != left && head < tail <= |defs|
      requires Kahn(e, |defs|, queue[..tail], done, left[..|defs|]) && done == Elems(queue[..tail][..head])
      modifies queue, left
      ensures tail <= tail' <= |defs|
      ensures Kahn(e, |defs|, queue[..tail'], done', left[..|defs|]) && done' == Elems(queue[..tail'][..head + 1])
    {
      var n := |defs|;
      var node := queue[head];
      ghost var q := queue[..tail];
      Dequeue(e, n, q, head, left[..n]);
      tail' := VisitFrom(queue, left, tail, node, e, done);
      AllVisited(e, n, queue[..tail'], done, node, left[..n]);
      SamePrefix(q, queue[..tail']);
      ElemsNext(q, queue[..tail'], head);
      done' := done + {node};
    }

    method VisitFrom(queue: array<nat>, left: array<nat>, tail: nat, node: nat, ghost e: Edges, ghost done: set<nat>)
      returns (tail': nat)
      requires Shape() && Holds(e) && queue.Length == MAX_COUNT && left.Length == MAX_COUNT && queue != left
      requires tail <= |defs| && Visiting(e, |defs|, queue[..tail], done, node, left[..|defs|], 0)
      modifies queue, left
      ensures tail <= tail' <= |defs| && forall k :: 0 <= k < tail ==> queue[k] == old(queue[k])
      ensures Visiting(e, |defs|, queue[..tail'], done, node, left[..|defs|], |defs|)
    {
      tail' := tail;
      for j := 0 to |defs|
        invariant tail <= tail' <= |defs| && forall k :: 0 <= k < tail ==> queue[k] == old(queue[k])
        invariant Visiting(e, |defs|, queue[..tail'], done, node, left[..|defs|], j)
      {
        tail' := VisitOne(queue, left, tail', node, j, e, done);
      }
    }

    method VisitOne(queue: array<nat>, left: array<nat>, tail: nat, node: nat, j: nat, ghost e: Edges,
                    ghost done: set<nat>)
      returns (tail': nat)
      requires Shape() && Holds(e) && queue.Length == MAX_COUNT && left.Length == MAX_COUNT && queue != left
      requires tail <= |defs| && j < |defs| && Visiting(e, |defs|, queue[..tail], done, node, left[..|defs|], j)
      modifies queue, left
      ensures tail <= tail' <= |defs| && forall k :: 0 <= k < tail ==> queue[k] == old(queue[k])
      ensures Visiting(e, |defs|, queue[..tail'], done, node, left[..|defs|], j + 1)
    {
      if edge[node, j] {
        tail' := Lower(queue, left, tail, node, j, e, done);
      } else {
        VisitOther(e, |defs|, queue[..tail], done, node, left[..|defs|], j);
        tail' := tail;
      }
    }

    method Lower(queue: array<nat>, left: array<nat>, tail: nat, node: nat, j: nat, ghost e: Edges,
                 ghost done: set<nat>)
      returns (tail': nat)
      requires Shape() && queue.Length == MAX_COUNT && left.Length == MAX_COUNT && queue != left
      requires tail <= |defs| && j < |defs|
      requires Visiting(e, |defs|, queue[..tail], done, node, left[..|defs|], j) && (node, j) in e
      modifies queue, left
      ensures tail <= tail' <= |defs| && forall k :: 0 <= k < tail ==> queue[k] == old(queue[k])
      ensures Visiting(e, |defs|, queue[..tail'], done, node, left[..|defs|], j + 1)
    {
      var n := |defs|;
      ghost var q, d := queue[..tail], left[..n];
      SuccessorWaits(e, n, q, done, node, d, j);
      var count := Decrement(left, n, j);
      tail' := tail;
      if count == 0 {
        VisitLast(e, n, q, done, node, d, j);
        QueueRoom(e, n, q + [j]);
        tail' := Append(queue, tail, j);
      } else {
        VisitSuccessor(e, n, q, done, node, d, j);
      }
    }

    static method Append(queue: array<nat>, tail: nat, j: nat) returns (tail': nat)
      requires tail < queue.Length
      modifies queue
      ensures tail' == tail + 1 && queue[..tail'] == old(queue[..tail]) + [j]
      ensures forall k :: 0 <= k < tail ==> queue[k] == old(queue[k])
    {
      queue[tail] := j;
      tail' := tail + 1;
    }

    static method Decrement(left: array<nat>, n: nat, j: nat) returns (count: nat)
      requires j < n <= left.Length && left[j] > 0
      modifies left
      ensures count == old(left[..n])[j] - 1 && left[..n] == old(left[..n])[j := count]
    {
      left[j] := left[j] - 1;
      count := left[j];
    }

    /** Whether the graph has a cycle. */
    method HasCycle(ghost e: Edges) returns (cyclic: bool)
      requires Shape() && Holds(e)
      ensures cyclic <==> !Acyclic(e)
    {
      var order, left := RunKahn(e);
      CompleteIffAcyclic(e, |defs|, order, left[..|defs|]);
      cyclic := |order| != |defs|;
    }

    /** The services whose count is not zero. */
    static method Waiting(left: array<nat>, n: nat) returns (blocked: seq<nat>)
      requires n <= left.Length
      ensures forall v: nat :: v in blocked <==> v < n && left[..n][v] > 0
    {
      blocked := [];
      for i := 0 to n
        invariant forall v: nat :: v in blocked <==> v < i && left[v] > 0
      {
        if left[i] > 0 { blocked := blocked + [i]; }
      }
    }

    /** A start order of all services in which every edge points forward; if there is a cycle, the
        services reported are exactly those on or behind one. */
    method TopoSort(max_count: nat, ghost e: Edges) returns (count: int, order: seq<nat>, blocked: seq<nat>)
      requires Shape() && Holds(e)
      ensures count >= 0 <==> |defs| <= max_count && Acyclic(e)
      ensures count >= 0 ==> count == |defs| && Topological(e, |defs|, order)
      ensures count < 0 && |defs| <= max_count ==>
        forall v: nat :: v in blocked <==> v < |defs| && BehindCycle(e, v)
    {
      order, blocked := [], [];
      if max_count < |defs| { return -1, order, blocked; }
      var left;
      order, left := RunKahn(e);
      var n := |defs|;
      CompleteIffAcyclic(e, n, order, left[..n]);
      if |order| != n {
        blocked := Waiting(left, n);
        BlockedAreBehind(e, n, order, left[..n], blocked);
        return -1, order, blocked;
      }
      return n, order, blocked;
    }
  }

  // ------------------------------------------------------------- lemmas

  /** The edges declared by the services below `i` and by the first `a` and `b` names of service `i`. */
  ghost function Part(defs: seq<Def>, i: nat, a: nat, b: nat): Edges {
    set u, v | 0 <= u < |defs| && 0 <= v < |defs| && PartBeforeUp(defs, u, v, i, a, b) :: (u, v)
  }

  ghost predicate PartBeforeUp(defs: seq<Def>, u: nat, v: nat, i: nat, a: nat, b: nat)
    requires u < |defs| && v < |defs|
  {
    || (exists x :: 0 <= x < |defs[v].after| && (v < i || (v == i && x < a)) && Find(defs, defs[v].after[x]) == u)
    || (exists y :: 0 <= y < |defs[u].before| && (u < i || (u == i && y < b)) && Find(defs, defs[u].before[y]) == v)
  }

  /** The next `after` name adds its edge. */
  ghost predicate AfterStep(defs: seq<Def>, i: nat, part: nat -> Edges, a: nat)
    requires i < |defs| && a < |defs[i].after|
  {
    var u := Find(defs, defs[i].after[a]);
    u < |defs| ==> part(a + 1) == part(a) + {(u, i)}
  }

  /** The next `before` name adds its edge. */
  ghost predicate BeforeStep(defs: seq<Def>, i: nat, part: nat -> Edges, b: nat)
    requires i < |defs| && b < |defs[i].before|
  {
    var v := Find(defs, defs[i].before[b]);
    v < |defs| ==> part(b + 1) == part(b) + {(i, v)}
  }

  lemma PartNone(defs: seq<Def>)
    ensures Part(defs, 0, 0, 0) == {}
    ensures forall j :: 0 <= j < |defs| ==> Preds(Part(defs, 0, 0, 0), |defs|, j) == {}
  {
  }

  lemma PartAfter(defs: seq<Def>, i: nat, a: nat)
    requires i < |defs| && a < |defs[i].after|
    ensures Find(defs, defs[i].after[a]) < |defs| ==>
              Part(defs, i, a + 1, 0) == Part(defs, i, a, 0) + {(Find(defs, defs[i].after[a]), i)}
  {
  }

  lemma PartBefore(defs: seq<Def>, i: nat, b: nat)
    requires i < |defs| && b < |defs[i].before|
    ensures Find(defs, defs[i].before[b]) < |defs| ==>
              Part(defs, i, |defs[i].after|, b + 1)
              == Part(defs, i, |defs[i].after|, b) + {(i, Find(defs, defs[i].before[b]))}
  {
  }

  lemma PartNext(defs: seq<Def>, i: nat)
    requires i < |defs|
    ensures Part(defs, i, |defs[i].after|, |defs[i].before|) == Part(defs, i + 1, 0, 0)
  {
  }

  lemma PartAll(defs: seq<Def>)
    ensures Part(defs, |defs|, 0, 0) == EdgesOf(defs)
  {
  }

  /** The services below `i` have been looked at for the initial queue. */
  ghost predicate Seeded(e: Edges, n: nat, q: seq<nat>, d: seq<int>, i: nat) {
    && |d| == n && Ordered(e, n, q) && (forall j :: 0 <= j < n ==> d[j] == |Preds(e, n, j)|)
    && (forall j :: 0 <= j < i && j < n ==> (j in q <==> d[j] == 0))
    && (forall k :: 0 <= k < |q| ==> q[k] < i)
  }

  lemma SeedNext(e: Edges, n: nat, q: seq<nat>, d: seq<int>, i: nat)
    requires Seeded(e, n, q, d, i) && i < n
    ensures d[i] != 0 ==> Seeded(e, n, q, d, i + 1)
    ensures d[i] == 0 ==> Seeded(e, n, q + [i], d, i + 1)
  {
    assert i !in q;
    if d[i] == 0 {
      assert Preds(e, n, i) == {};
      Enqueue(e, n, q, i);
    }
  }

  lemma SeedDone(e: Edges, n: nat, q: seq<nat>, d: seq<int>)
    requires Seeded(e, n, q, d, n)
    ensures Kahn(e, n, q, {}, d)
  {
    forall j | 0 <= j < n ensures d[j] == Pending(e, n, {}, j) {
      assert Preds(e, n, j) - {} == Preds(e, n, j);
    }
  }

  lemma SamePrefix(q: seq<nat>, r: seq<nat>)
    requires |q| <= |r| && forall k :: 0 <= k < |q| ==> r[k] == q[k]
    ensures r[..|q|] == q
  {
  }

  lemma QueueRoom(e: Edges, n: nat, q: seq<nat>)
    requires Ordered(e, n, q)
    ensures |q| <= n
  {
    OrderedDistinct(e, n, q);
    DistinctBound(q, n);
  }

  lemma BlockedAreBehind(e: Edges, n: nat, q: seq<nat>, d: seq<int>, blocked: seq<nat>)
    requires Inside(e, n) && Kahn(e, n, q, Elems(q), d)
    requires forall v: nat :: v in blocked <==> v < n && d[v] > 0
    ensures forall v: nat :: v in blocked <==> v < n && BehindCycle(e, v)
  {
    forall v: nat ensures v in blocked <==> v < n && BehindCycle(e, v) {
      if v < n { Leftover(e, n, q, d, v); }
    }
  }


  lemma {:induction false} FindIsFirst(defs: seq<Def>, name: string, i: nat)
    requires i <= |defs| && (i < |defs| ==> defs[i].name == name)
    requires forall k :: 0 <= k < i ==> defs[k].name != name
    ensures Find(defs, name) == i
  {
  }

  lemma PredsAdd(e: Edges, n: nat, u: nat, v: nat)
    requires u < n && v < n
    ensures forall j :: 0 <= j < n && j != v ==> Preds(e + {(u, v)}, n, j) == Preds(e, n, j)
    ensures Preds(e + {(u, v)}, n, v) == Preds(e, n, v) + {u}
    ensures (u, v) !in e ==> |Preds(e + {(u, v)}, n, v)| == |Preds(e, n, v)| + 1
  {
    assert Preds(e + {(u, v)}, n, v) == Preds(e, n, v) + {u};
    assert (u, v) !in e ==> u !in Preds(e, n, v);
    forall j | 0 <= j < n && j != v ensures Preds(e + {(u, v)}, n, j) == Preds(e, n, j) { }
  }
}
