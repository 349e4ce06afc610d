/** Finite directed graphs on the nodes 0..n-1, and the order that Kahn's algorithm builds. */
module Graph {

  type Edges = set<(nat, nat)>

  ghost predicate Inside(e: Edges, n: nat) {
    forall u, v {:trigger (u, v) in e} :: (u, v) in e ==> u < n && v < n
  }

  /** The predecessors of node `j`. */
  ghost function Preds(e: Edges, n: nat, j: nat): set<nat> {
    set i | 0 <= i < n && (i, j) in e
  }

  ghost function Elems(q: seq<nat>): set<nat> { set x | x in q }

  ghost predicate Distinct(q: seq<nat>) {
    forall i, j :: 0 <= i < j < |q| ==> q[i] != q[j]
  }

  /** The step from p[k] to p[k + 1] follows an edge. */
  ghost predicate Step(e: Edges, p: seq<nat>, k: nat)
    requires k + 1 < |p|
  {
    (p[k], p[k + 1]) in e
  }

  ghost predicate Walk(e: Edges, p: seq<nat>) {
    |p| > 0 && forall k :: 0 <= k < |p| - 1 ==> Step(e, p, k)
  }

  ghost predicate Cycle(e: Edges, p: seq<nat>) {
    Walk(e, p) && |p| >= 2 && p[0] == p[|p| - 1]
  }

  ghost predicate Acyclic(e: Edges) {
    forall p :: !Cycle(e, p)
  }

  ghost predicate WalkBetween(e: Edges, p: seq<nat>, u: nat, v: nat) {
    Walk(e, p) && p[0] == u && p[|p| - 1] == v
  }

  /** Node `v` lies on a cycle or behind one. */
  ghost predicate BehindCycle(e: Edges, v: nat) {
    exists c, p :: Cycle(e, c) && WalkBetween(e, p, c[0], v)
  }

  /** `q` lists all nodes once, each after all its predecessors. */
  ghost predicate Topological(e: Edges, n: nat, q: seq<nat>) {
    && |q| == n && Distinct(q) && (forall k :: 0 <= k < n ==> q[k] < n)
    && forall i, j :: 0 <= i < n && 0 <= j < n && (q[i], q[j]) in e ==> i < j
  }

  // ---------------------------------------------------------- pigeonhole

  ghost function Range(n: nat): (r: set<nat>)
    ensures forall x: nat :: x in r <==> x < n
    ensures |r| == n
  {
    if n == 0 then {} else Range(n - 1) + {n - 1}
  }

  lemma {:induction false} DistinctSize(q: seq<nat>)
    requires Distinct(q)
    ensures |Elems(q)| == |q|
    decreases |q|
  {
    if q != [] {
      var m := |q| - 1;
      DistinctSize(q[..m]);
      assert Elems(q) == Elems(q[..m]) + {q[m]};
      assert q[m] !in q[..m];
    } else {
      assert Elems(q) == {};
    }
  }

  lemma SubsetSize(a: set<nat>, b: set<nat>)
    requires a <= b
    ensures |a| <= |b| && (|a| == |b| ==> a == b)
  {
    assert b == a + (b - a);
    assert |b| == |a| + |b - a|;
  }

  /** A list of distinct nodes has at most `n` entries; with `n` entries it has all nodes. */
  lemma DistinctBound(q: seq<nat>, n: nat)
    requires Distinct(q) && forall k :: 0 <= k < |q| ==> q[k] < n
    ensures |q| <= n
    ensures |q| == n ==> forall x: nat :: x < n ==> x in q
  {
    DistinctSize(q);
    assert Elems(q) <= Range(n);
    SubsetSize(Elems(q), Range(n));
    if |q| == n {
      forall x: nat | x < n ensures x in q { assert x in Elems(q); }
    }
  }

  /** More than `n` nodes contain a repetition. */
  lemma Repetition(p: seq<nat>, n: nat) returns (a: nat, b: nat)
    requires |p| > n && forall k :: 0 <= k < |p| ==> p[k] < n
    ensures a < b < |p| && p[a] == p[b]
  {
    if Distinct(p) { DistinctBound(p, n); }
    a, b :| 0 <= a < b < |p| && p[a] == p[b];
  }

  // --------------------------------------------------- Kahn's invariants

  /** How many predecessors of `j` are not in `done`. */
  ghost function Pending(e: Edges, n: nat, done: set<nat>, j: nat): nat {
    |Preds(e, n, j) - done|
  }

  /** The list has distinct nodes, each after all its predecessors. */
  ghost predicate Ordered(e: Edges, n: nat, q: seq<nat>) {
    forall k :: 0 <= k < |q| ==> Placed(e, n, q, k)
  }

  ghost predicate Placed(e: Edges, n: nat, q: seq<nat>, k: nat)
    requires k < |q|
  {
    q[k] < n && q[k] !in q[..k] && Preds(e, n, q[k]) <= Elems(q[..k])
  }

  lemma OrderedDistinct(e: Edges, n: nat, q: seq<nat>)
    requires Ordered(e, n, q)
    ensures Distinct(q) && forall k :: 0 <= k < |q| ==> q[k] < n
  {
    forall j | 0 <= j < |q| ensures q[j] < n && forall i :: 0 <= i < j ==> q[i] != q[j] {
      assert Placed(e, n, q, j);
      forall i | 0 <= i < j ensures q[i] != q[j] { assert q[..j][i] == q[i]; }
    }
  }

  /** The queue holds exactly the nodes with count zero. */
  ghost predicate ZeroQueued(n: nat, q: seq<nat>, d: seq<int>) {
    |d| == n && forall j :: 0 <= j < n ==> (j in q <==> d[j] == 0)
  }

  /** Between two dequeuings the counts are those of the predecessors not yet dequeued. */
  ghost predicate Kahn(e: Edges, n: nat, q: seq<nat>, done: set<nat>, d: seq<int>) {
    && Ordered(e, n, q) && ZeroQueued(n, q, d)
    && forall j :: 0 <= j < n ==> d[j] == Pending(e, n, done, j)
  }

  /** While the successors of a dequeued node are visited, those below `m` count it as done. */
  ghost predicate Visiting(e: Edges, n: nat, q: seq<nat>, done: set<nat>, node: nat, d: seq<int>, m: nat) {
    && Ordered(e, n, q) && ZeroQueued(n, q, d) && node < n && node !in done && done + {node} <= Elems(q)
    && Counts(e, n, done, node, d, m)
  }

  ghost predicate Counts(e: Edges, n: nat, done: set<nat>, node: nat, d: seq<int>, m: nat) {
    && |d| == n
    && (forall j :: 0 <= j < m && j < n ==> d[j] == Pending(e, n, done + {node}, j))
    && (forall j :: m <= j < n ==> d[j] == Pending(e, n, done, j))
  }

  lemma CountNext(e: Edges, n: nat, done: set<nat>, node: nat, d: seq<int>, m: nat)
    requires Counts(e, n, done, node, d, m) && m < n && node < n && node !in done
    ensures (node, m) !in e ==> Counts(e, n, done, node, d, m + 1)
    ensures (node, m) in e ==> Counts(e, n, done, node, d[m := d[m] - 1], m + 1) && d[m] > 0
    ensures (node, m) in e && d[m] == 1 ==> Preds(e, n, m) <= done + {node}
  {
    PendingStep(e, n, done, node, m);
    if (node, m) in e && d[m] == 1 { NoneMissing(e, n, done + {node}, m); }
  }

  lemma PendingStep(e: Edges, n: nat, done: set<nat>, node: nat, j: nat)
    requires node < n && node !in done
    ensures Pending(e, n, done + {node}, j) == Pending(e, n, done, j) - if (node, j) in e then 1 else 0
  {
    var before, after := Preds(e, n, j) - done, Preds(e, n, j) - (done + {node});
    if (node, j) in e {
      assert node in before && after == before - {node};
    } else {
      assert after == before;
    }
  }

  /** Visiting a node without an edge from the dequeued one changes nothing. */
  lemma VisitOther(e: Edges, n: nat, q: seq<nat>, done: set<nat>, node: nat, d: seq<int>, m: nat)
    requires Visiting(e, n, q, done, node, d, m) && m < n && (node, m) !in e
    ensures Visiting(e, n, q, done, node, d, m + 1)
  {
    CountNext(e, n, done, node, d, m);
  }

  /** The target of an edge from the dequeued node still waits. */
  lemma SuccessorWaits(e: Edges, n: nat, q: seq<nat>, done: set<nat>, node: nat, d: seq<int>, m: nat)
    requires Visiting(e, n, q, done, node, d, m) && m < n && (node, m) in e
    ensures d[m] > 0 && m !in q
  {
    CountNext(e, n, done, node, d, m);
  }

  /** An edge lowers the count of its target. */
  lemma VisitSuccessor(e: Edges, n: nat, q: seq<nat>, done: set<nat>, node: nat, d: seq<int>, m: nat)
    requires Visiting(e, n, q, done, node, d, m) && m < n && (node, m) in e && d[m] > 1
    ensures Visiting(e, n, q, done, node, d[m := d[m] - 1], m + 1)
  {
    CountNext(e, n, done, node, d, m);
  }

  /** When the count reaches zero the target joins the queue. */
  lemma VisitLast(e: Edges, n: nat, q: seq<nat>, done: set<nat>, node: nat, d: seq<int>, m: nat)
    requires Visiting(e, n, q, done, node, d, m) && m < n && (node, m) in e && d[m] == 1
    ensures Visiting(e, n, q + [m], done, node, d[m := 0], m + 1)
  {
    CountNext(e, n, done, node, d, m);
    Enqueue(e, n, q, m);
    Joined(n, q, d, m);
    assert Elems(q) <= Elems(q + [m]);
  }

  lemma NoneMissing(e: Edges, n: nat, done: set<nat>, j: nat)
    requires Pending(e, n, done, j) == 0
    ensures Preds(e, n, j) <= done
  {
    forall x | x in Preds(e, n, j) ensures x in done {
      assert x !in done ==> x in Preds(e, n, j) - done;
    }
  }

  lemma Joined(n: nat, q: seq<nat>, d: seq<int>, m: nat)
    requires ZeroQueued(n, q, d) && m < n
    ensures ZeroQueued(n, q + [m], d[m := 0])
  {
  }

  lemma Enqueue(e: Edges, n: nat, q: seq<nat>, m: nat)
    requires Ordered(e, n, q) && m < n && m !in q && Preds(e, n, m) <= Elems(q)
    ensures Ordered(e, n, q + [m])
  {
    var r := q + [m];
    forall k | 0 <= k < |r| ensures Placed(e, n, r, k) {
      assert k < |q| ==> Placed(e, n, q, k);
      assert r[..k] == if k < |q| then q[..k] else q;
    }
  }

  /** Taking the next node from the queue starts a visit of its successors. */
  lemma Dequeue(e: Edges, n: nat, q: seq<nat>, h: nat, d: seq<int>)
    requires h < |q| && Kahn(e, n, q, Elems(q[..h]), d)
    ensures Visiting(e, n, q, Elems(q[..h]), q[h], d, 0)
    ensures Elems(q[..h]) + {q[h]} == Elems(q[..h + 1])
  {
    assert Placed(e, n, q, h);
    ElemsNext(q, q, h);
  }

  /** When all nodes have been visited, the dequeued one counts as done. */
  lemma AllVisited(e: Edges, n: nat, q: seq<nat>, done: set<nat>, node: nat, d: seq<int>)
    requires Visiting(e, n, q, done, node, d, n)
    ensures Kahn(e, n, q, done + {node}, d)
  {
  }

  lemma ElemsNext(q: seq<nat>, r: seq<nat>, h: nat)
    requires h < |q| <= |r| && r[..|q|] == q
    ensures Elems(r[..h + 1]) == Elems(q[..h]) + {q[h]}
  {
    assert r[..h + 1] == q[..h] + [q[h]];
  }

  // -------------------------------------------------------------- results

  /** A node in the queue has everything that leads to it in the queue, earlier. */
  lemma {:induction false} WalkQueued(e: Edges, n: nat, q: seq<nat>, p: seq<nat>, k: nat) returns (i: nat)
    requires Inside(e, n) && Ordered(e, n, q) && Walk(e, p) && k < |q| && q[k] == p[|p| - 1]
    ensures i + |p| - 1 <= k && q[i] == p[0]
    decreases |p|
  {
    if |p| == 1 {
      i := k;
    } else {
      var m := |p| - 2;
      assert Step(e, p, m);
      assert Placed(e, n, q, k);
      assert p[m] in Elems(q[..k]);
      var j :| 0 <= j < k && q[j] == p[m];
      Slice(e, p, 0, m + 1);
      assert p[0..m + 1] == p[..m + 1];
      i := WalkQueued(e, n, q, p[..m + 1], j);
    }
  }

  /** Every node of `left` has a predecessor in `left`. */
  ghost predicate Stuck(e: Edges, left: set<nat>) {
    forall v {:trigger HasPred(e, left, v)} :: v in left ==> HasPred(e, left, v)
  }

  ghost predicate HasPred(e: Edges, left: set<nat>, v: nat) {
    exists u :: u in left && (u, v) in e
  }

  /** The nodes outside the finished queue. */
  ghost function Left(n: nat, q: seq<nat>): set<nat> { Range(n) - Elems(q) }

  lemma LeftIsStuck(e: Edges, n: nat, q: seq<nat>, d: seq<int>)
    requires Kahn(e, n, q, Elems(q), d)
    ensures Stuck(e, Left(n, q))
  {
    forall v | v in Left(n, q) ensures HasPred(e, Left(n, q), v) {
      assert Pending(e, n, Elems(q), v) != 0;
      var u :| u in Preds(e, n, v) - Elems(q);
      assert u in Left(n, q);
    }
  }

  /** So one can walk back inside it for any number of steps. */
  lemma {:induction false} BackWalk(e: Edges, left: set<nat>, v: nat, len: nat) returns (p: seq<nat>)
    requires Stuck(e, left) && v in left
    ensures Walk(e, p) && |p| == len + 1 && p[len] == v
    ensures forall k :: 0 <= k <= len ==> p[k] in left
    decreases len
  {
    if len == 0 {
      p := [v];
    } else {
      assert HasPred(e, left, v);
      var u :| u in left && (u, v) in e;
      var r := BackWalk(e, left, u, len - 1);
      p := r + [v];
      Extend(e, r, v);
    }
  }

  lemma Extend(e: Edges, r: seq<nat>, v: nat)
    requires Walk(e, r) && (r[|r| - 1], v) in e
    ensures Walk(e, r + [v])
  {
    forall k | 0 <= k < |r| ensures Step(e, r + [v], k) { assert k < |r| - 1 ==> Step(e, r, k); }
  }

  lemma Slice(e: Edges, p: seq<nat>, a: nat, b: nat)
    requires Walk(e, p) && a < b <= |p|
    ensures Walk(e, p[a..b])
  {
    var r := p[a..b];
    forall k | 0 <= k < |r| - 1 ensures Step(e, r, k) { assert Step(e, p, a + k); }
  }

  lemma CutWalk(e: Edges, p: seq<nat>, a: nat, b: nat)
    requires Walk(e, p) && a < b < |p| && p[a] == p[b]
    ensures Cycle(e, p[a..b + 1]) && WalkBetween(e, p[a..], p[a], p[|p| - 1])
  {
    Slice(e, p, a, b + 1);
    Slice(e, p, a, |p|);
    assert p[a..|p|] == p[a..];
  }

  /** The nodes that never enter the queue are exactly those on or behind a cycle. */
  lemma Leftover(e: Edges, n: nat, q: seq<nat>, d: seq<int>, v: nat)
    requires Inside(e, n) && Kahn(e, n, q, Elems(q), d) && v < n
    ensures v !in q <==> BehindCycle(e, v)
  {
    if v !in q {
      LeftIsStuck(e, n, q, d);
      CycleBehind(e, n, Left(n, q), v);
    } else if BehindCycle(e, v) {
      QueuedNotBehind(e, n, q, v);
    }
  }

  lemma CycleBehind(e: Edges, n: nat, left: set<nat>, v: nat)
    requires Stuck(e, left) && v in left && left <= Range(n)
    ensures BehindCycle(e, v)
  {
    var p := BackWalk(e, left, v, n);
    var a, b := Repetition(p, n);
    CutWalk(e, p, a, b);
    assert p[a..b + 1][0] == p[a];
  }

  lemma QueuedNotBehind(e: Edges, n: nat, q: seq<nat>, v: nat)
    requires Inside(e, n) && Ordered(e, n, q) && v in q
    ensures !BehindCycle(e, v)
  {
    if BehindCycle(e, v) {
      var c, p :| Cycle(e, c) && WalkBetween(e, p, c[0], v);
      var k :| 0 <= k < |q| && q[k] == v;
      var i := WalkQueued(e, n, q, p, k);
      var j := WalkQueued(e, n, q, c, i);
      OrderedDistinct(e, n, q);
      SamePlace(q, i, j);
    }
  }

  lemma SamePlace(q: seq<nat>, i: nat, j: nat)
    requires Distinct(q) && i < |q| && j < |q| && q[i] == q[j]
    ensures i == j
  {
  }

  /** The queue takes in all nodes exactly when the graph has no cycle, and then lists them in order. */
  lemma CompleteIffAcyclic(e: Edges, n: nat, q: seq<nat>, d: seq<int>)
    requires Inside(e, n) && Kahn(e, n, q, Elems(q), d)
    ensures |q| <= n && (|q| == n <==> Acyclic(e))
    ensures |q| == n ==> Topological(e, n, q)
  {
    OrderedDistinct(e, n, q);
    DistinctBound(q, n);
    if |q| == n {
      forall c ensures !Cycle(e, c) {
        if Cycle(e, c) {
          assert Step(e, c, 0);
          assert WalkBetween(e, [c[0]], c[0], c[0]);
          Leftover(e, n, q, d, c[0]);
        }
      }
      forall i, j | 0 <= i < n && 0 <= j < n && (q[i], q[j]) in e ensures i < j {
        assert Placed(e, n, q, j);
        assert q[i] in Elems(q[..j]);
        var k :| 0 <= k < j && q[k] == q[i];
        SamePlace(q, i, k);
      }
    } else {
      var v := Missing(q, n);
      Leftover(e, n, q, d, v);
    }
  }

  lemma Missing(q: seq<nat>, n: nat) returns (v: nat)
    requires |q| < n
    ensures v < n && v !in q
  {
    if forall x: nat :: x < n ==> x in q {
      assert Range(n) <= Elems(q);
      SubsetSize(Range(n), Elems(q));
      ElemsSize(q);
    }
    v :| 0 <= v < n && v !in q;
  }

  lemma {:induction false} ElemsSize(q: seq<nat>)
    ensures |Elems(q)| <= |q|
    decreases |q|
  {
    if q != [] {
      ElemsSize(q[..|q| - 1]);
      assert Elems(q) == Elems(q[..|q| - 1]) + {q[|q| - 1]};
    } else {
      assert Elems(q) == {};
    }
  }
}
