/**
  Directed graphs given as an edge list over known node ids: walks, cycles, and the two
  certificates the graph tools produce, a finishing order and a topological order.
 */
module Graph {
  import opened Prelude
  import opened Sorting

  datatype Edge = Edge(src: string, dst: string)

  /** An edge counts when both of its ends are known. */
  predicate Linked(ids: set<string>, edges: seq<Edge>, u: string, v: string) {
    u in ids && v in ids && Edge(u, v) in edges
  }

  ghost predicate Walk(ids: set<string>, edges: seq<Edge>, w: seq<string>) {
    forall i :: 0 <= i < |w| - 1 ==> Linked(ids, edges, w[i], w[i+1])
  }

  ghost predicate Cycle(ids: set<string>, edges: seq<Edge>, w: seq<string>) {
    |w| >= 2 && Walk(ids, edges, w) && w[0] == w[|w|-1]
  }

  ghost predicate HasCycle(ids: set<string>, edges: seq<Edge>) {
    exists w :: Cycle(ids, edges, w)
  }

  lemma WalkSlice(ids: set<string>, edges: seq<Edge>, w: seq<string>, lo: nat, hi: nat)
    requires Walk(ids, edges, w) && lo <= hi <= |w|
    ensures Walk(ids, edges, w[lo..hi])
  {
    var slice := w[lo..hi];
    forall k | 0 <= k < |slice| - 1 ensures Linked(ids, edges, slice[k], slice[k+1]) {
      assert Linked(ids, edges, w[lo+k], w[lo+k+1]);
    }
  }

  lemma WalkCons(ids: set<string>, edges: seq<Edge>, u: string, w: seq<string>)
    requires Walk(ids, edges, w) && w != [] && Linked(ids, edges, u, w[0])
    ensures Walk(ids, edges, [u] + w)
  {
    var longer := [u] + w;
    forall k | 0 <= k < |longer| - 1 ensures Linked(ids, edges, longer[k], longer[k+1]) {
      if k > 0 {
        assert Linked(ids, edges, w[k-1], w[k]);
      }
    }
  }

  /** Some walk leads from a node of a cycle to `v`. */
  ghost predicate BehindCycle(ids: set<string>, edges: seq<Edge>, v: string) {
    exists c, w :: Cycle(ids, edges, c) && LeadsFrom(ids, edges, c, w, v)
  }

  ghost predicate LeadsFrom(ids: set<string>, edges: seq<Edge>, c: seq<string>, w: seq<string>, v: string) {
    w != [] && Walk(ids, edges, w) && w[0] in c && w[|w|-1] == v
  }

  /** The successors of `u`, one entry per edge, in edge order. */
  function Successors(ids: set<string>, edges: seq<Edge>, u: string): seq<string> {
    if edges == [] then []
    else
      var last := edges[|edges|-1];
      Successors(ids, edges[..|edges|-1], u) + if last.src == u && last.dst in ids then [last.dst] else []
  }

  lemma SuccessorsInOrder(ids: set<string>, a: seq<Edge>, b: seq<Edge>, u: string)
    ensures Successors(ids, a + b, u) == Successors(ids, a, u) + Successors(ids, b, u)
    ensures |a| == 1 ==> Successors(ids, a, u) == if a[0].src == u && a[0].dst in ids then [a[0].dst] else []
  {
    var one := (e: Edge) => if e.src == u && e.dst in ids then [e.dst] else [];
    var all := (edges: seq<Edge>) => Successors(ids, edges, u);
    EachInTurn(one, all, a, b);
    assert |a| == 1 ==> a[..0] == [];
  }

  lemma {:induction false} SuccessorsAreLinked(ids: set<string>, edges: seq<Edge>, u: string)
    requires u in ids
    ensures forall v :: v in Successors(ids, edges, u) <==> Linked(ids, edges, u, v)
  {
    if edges == [] {
    } else {
      SuccessorsAreLinked(ids, edges[..|edges|-1], u);
      assert edges == edges[..|edges|-1] + [edges[|edges|-1]];
    }
  }

  function IndexOf<T(==)>(xs: seq<T>, x: T): (i: nat)
    requires x in xs
    ensures i < |xs| && xs[i] == x
    ensures forall j :: 0 <= j < i ==> xs[j] != x
  {
    if xs[0] == x then 0 else 1 + IndexOf(xs[1..], x)
  }

  // ---------------------------------------------------------------------------
  // A finishing order: every successor of a listed node is listed before it
  // ---------------------------------------------------------------------------

  ghost predicate FinishingOrder(ids: set<string>, edges: seq<Edge>, done: seq<string>) {
    forall i, v :: 0 <= i < |done| && Linked(ids, edges, done[i], v) ==> v in done[..i]
  }

  /** Along a walk the finishing index falls at every step. */
  lemma {:induction false} WalkDescends(ids: set<string>, edges: seq<Edge>, done: seq<string>, w: seq<string>)
    requires FinishingOrder(ids, edges, done) && Walk(ids, edges, w)
    requires w != [] && w[0] in done
    ensures w[|w|-1] in done && IndexOf(done, w[|w|-1]) + |w| - 1 <= IndexOf(done, w[0])
  {
    if |w| == 1 {
    } else {
      var i := IndexOf(done, w[0]);
      assert Linked(ids, edges, w[0], w[1]);
      assert w[1] in done[..i];
      assert IndexOf(done, w[1]) < i;
      WalkSlice(ids, edges, w, 1, |w|);
      WalkDescends(ids, edges, done, w[1..]);
    }
  }

  /** A graph whose every node is finished has no cycle. */
  lemma FinishedIsAcyclic(ids: set<string>, edges: seq<Edge>, done: seq<string>)
    requires FinishingOrder(ids, edges, done) && ids <= Elements(done)
    ensures !HasCycle(ids, edges)
  {
    forall w ensures !Cycle(ids, edges, w) {
      if Walk(ids, edges, w) && |w| >= 2 {
        assert Linked(ids, edges, w[0], w[1]);
        assert w[0] in Elements(done);
        WalkDescends(ids, edges, done, w);
      }
    }
  }

  // ---------------------------------------------------------------------------
  // A topological order that may stop short
  // ---------------------------------------------------------------------------

  /** Distinct known nodes, each after all its predecessors. */
  ghost predicate Ordered(ids: set<string>, edges: seq<Edge>, order: seq<string>) {
    && Distinct(order) && Elements(order) <= ids
    && (forall i, u :: 0 <= i < |order| && Linked(ids, edges, u, order[i]) ==> u in order[..i])
  }

  /** `v` waits for a predecessor that is not listed. */
  ghost predicate Stalled(ids: set<string>, edges: seq<Edge>, order: seq<string>, v: string) {
    exists u :: Linked(ids, edges, u, v) && u !in order
  }

  /** An order that goes as far as it can: whatever it leaves out is stalled. */
  ghost predicate Topological(ids: set<string>, edges: seq<Edge>, order: seq<string>) {
    && Ordered(ids, edges, order)
    && (forall v {:trigger Stalled(ids, edges, order, v)} :: v in ids && v !in order ==> Stalled(ids, edges, order, v))
  }

  /** A walk that ends in the order lies in it entirely, at rising positions. */
  lemma {:induction false} WalkRises(ids: set<string>, edges: seq<Edge>, order: seq<string>, w: seq<string>)
    requires Ordered(ids, edges, order) && Walk(ids, edges, w) && w != [] && w[|w|-1] in order
    ensures forall x :: x in w ==> x in order
    ensures IndexOf(order, w[0]) + |w| - 1 <= IndexOf(order, w[|w|-1])
  {
    if |w| == 1 {
    } else {
      var n := |w| - 1;
      var i := IndexOf(order, w[n]);
      assert Linked(ids, edges, w[n-1], w[n]);
      assert w[n-1] in order[..i];
      assert IndexOf(order, w[n-1]) < i;
      WalkSlice(ids, edges, w, 0, n);
      WalkRises(ids, edges, order, w[..n]);
    }
  }

  lemma NothingBehindCycleIsListed(ids: set<string>, edges: seq<Edge>, order: seq<string>, v: string)
    requires Ordered(ids, edges, order) && BehindCycle(ids, edges, v)
    ensures v !in order
  {
    var c, w :| Cycle(ids, edges, c) && LeadsFrom(ids, edges, c, w, v);
    if v in order {
      WalkRises(ids, edges, order, w);
      CycleNotListed(ids, edges, order, c, w[0]);
    }
  }

  lemma CycleNotListed(ids: set<string>, edges: seq<Edge>, order: seq<string>, c: seq<string>, x: string)
    requires Ordered(ids, edges, order) && Cycle(ids, edges, c) && x in c
    ensures x !in order
  {
    if x in order {
      var k := IndexOf(c, x);
      WalkSlice(ids, edges, c, 0, k + 1);
      WalkRises(ids, edges, order, c[..k+1]);
      assert c[0] in c[..k+1];
      WalkRises(ids, edges, order, c);
    }
  }

  lemma ClosesCycle(ids: set<string>, edges: seq<Edge>, u: string, w: seq<string>)
    requires u in w && Walk(ids, edges, [u] + w)
    ensures BehindCycle(ids, edges, w[|w|-1])
  {
    var longer := [u] + w;
    var c := longer[..IndexOf(w, u) + 2];
    WalkSlice(ids, edges, longer, 0, IndexOf(w, u) + 2);
    assert c[0] == u;
    assert LeadsFrom(ids, edges, c, longer, w[|w|-1]);
  }

  /** From a left-out node, walk back over left-out predecessors until one repeats. */
  lemma {:induction false} WalkBack(ids: set<string>, edges: seq<Edge>, order: seq<string>, w: seq<string>)
    requires Topological(ids, edges, order) && Walk(ids, edges, w) && w != [] && Distinct(w)
    requires forall x :: x in w ==> x in ids && x !in order
    ensures BehindCycle(ids, edges, w[|w|-1])
    decreases |ids| - |w|
  {
    DistinctFits(w, ids);
    assert Stalled(ids, edges, order, w[0]);
    var u :| Linked(ids, edges, u, w[0]) && u !in order;
    var longer := [u] + w;
    WalkCons(ids, edges, u, w);
    if u in w {
      ClosesCycle(ids, edges, u, w);
    } else {
      DistinctFits(longer, ids);
      WalkBack(ids, edges, order, longer);
    }
  }

  /** The nodes left out of the order are exactly those reachable from a cycle. */
  lemma OmittedExactly(ids: set<string>, edges: seq<Edge>, order: seq<string>, v: string)
    requires Topological(ids, edges, order) && v in ids
    ensures v !in order <==> BehindCycle(ids, edges, v)
  {
    if v !in order {
      WalkBack(ids, edges, order, [v]);
    }
    if BehindCycle(ids, edges, v) {
      NothingBehindCycleIsListed(ids, edges, order, v);
    }
  }

  /** The order is complete exactly when the graph has no cycle. */
  lemma CompleteExactly(ids: set<string>, edges: seq<Edge>, order: seq<string>)
    requires Topological(ids, edges, order)
    ensures |order| == |ids| <==> !HasCycle(ids, edges)
    ensures |order| == |ids| ==> Elements(order) == ids
  {
    DistinctFits(order, ids);
    if HasCycle(ids, edges) {
      var c :| Cycle(ids, edges, c);
      assert Linked(ids, edges, c[0], c[1]);
      CycleNotListed(ids, edges, order, c, c[0]);
      assert c[0] in ids && c[0] !in Elements(order);
    } else {
      forall v | v in ids ensures v in Elements(order) {
        if v !in order {
          OmittedExactly(ids, edges, order, v);
        }
      }
      assert Elements(order) == ids;
      DistinctCount(order);
    }
  }

  lemma {:induction false} DistinctCount<T>(xs: seq<T>)
    requires Distinct(xs)
    ensures |Elements(xs)| == |xs|
  {
    if xs == [] {
    } else {
      var rest := xs[..|xs|-1];
      assert xs == rest + [xs[|xs|-1]];
      assert Elements(xs) == Elements(rest) + {xs[|xs|-1]};
      DistinctCount(rest);
    }
  }

  // ---------------------------------------------------------------------------
  // The order among nodes that are ready at the same time
  // ---------------------------------------------------------------------------

  /** How much of the order has to stand before `v` is ready: up to its last predecessor in it. */
  function ReadyAfter(ids: set<string>, edges: seq<Edge>, order: seq<string>, v: string): (k: nat)
    ensures k <= |order|
    ensures forall i :: k <= i < |order| ==> !Linked(ids, edges, order[i], v)
    ensures k > 0 ==> Linked(ids, edges, order[k-1], v)
  {
    if order == [] then 0
    else
      var last := |order| - 1;
      if Linked(ids, edges, order[last], v) then |order| else ReadyAfter(ids, edges, order[..last], v)
  }

  /** First come, first served: `u` was ready before `v`, or with it and has the smaller name. */
  ghost predicate Before(ids: set<string>, edges: seq<Edge>, order: seq<string>, u: string, v: string) {
    var a, b := ReadyAfter(ids, edges, order, u), ReadyAfter(ids, edges, order, v);
    a < b || (a == b && LexLe(u, v))
  }

  ghost predicate InTurn(ids: set<string>, edges: seq<Edge>, order: seq<string>, listed: seq<string>) {
    forall i, j :: 0 <= i < j < |listed| ==> Before(ids, edges, order, listed[i], listed[j])
  }

  /** A common beginning that already holds every predecessor fixes when a node is ready. */
  lemma {:induction false} ReadyFixed(ids: set<string>, edges: seq<Edge>, order: seq<string>, k: nat, v: string)
    requires k <= |order| && forall i :: k <= i < |order| ==> !Linked(ids, edges, order[i], v)
    ensures ReadyAfter(ids, edges, order, v) == ReadyAfter(ids, edges, order[..k], v)
  {
    if k < |order| {
      var last := |order| - 1;
      ReadyFixed(ids, edges, order[..last], k, v);
      assert order[..last][..k] == order[..k];
    } else {
      assert order[..k] == order;
    }
  }

  lemma NotAgain(order: seq<string>, k: nat, i: nat)
    requires Distinct(order) && k <= i < |order|
    ensures order[i] !in order[..k]
  {
  }

  lemma ReadyInBoth(ids: set<string>, edges: seq<Edge>, a: seq<string>, b: seq<string>, k: nat, x: string)
    requires Ordered(ids, edges, a) && Ordered(ids, edges, b) && k < |a| && k < |b| && a[..k] == b[..k] && a[k] == x
    ensures ReadyAfter(ids, edges, a, x) == ReadyAfter(ids, edges, b, x)
  {
    forall i | k <= i < |a| ensures !Linked(ids, edges, a[i], x) {
      NotAgain(a, k, i);
    }
    forall i | k <= i < |b| ensures !Linked(ids, edges, b[i], x) {
      NotAgain(b, k, i);
    }
    ReadyFixed(ids, edges, a, k, x);
    ReadyFixed(ids, edges, b, k, x);
  }

  lemma SameNext(ids: set<string>, edges: seq<Edge>, a: seq<string>, b: seq<string>, k: nat)
    requires Ordered(ids, edges, a) && Ordered(ids, edges, b) && Elements(a) == Elements(b)
    requires InTurn(ids, edges, a, a) && InTurn(ids, edges, b, b)
    requires k < |a| && k < |b| && a[..k] == b[..k]
    ensures a[k] == b[k]
  {
    var x, y := a[k], b[k];
    ReadyInBoth(ids, edges, a, b, k, x);
    ReadyInBoth(ids, edges, b, a, k, y);
    assert y in Elements(a) && x in Elements(b);
    var i :| 0 <= i < |a| && a[i] == y;
    var j :| 0 <= j < |b| && b[j] == x;
    forall m | 0 <= m < k ensures a[m] == b[m] {
      assert a[..k][m] == b[..k][m];
    }
    if i != k {
      assert j != k;
      assert Before(ids, edges, a, a[k], a[i]) && Before(ids, edges, b, b[k], b[j]);
      LexOrder();
    }
  }

  lemma {:induction false} SameStart(ids: set<string>, edges: seq<Edge>, a: seq<string>, b: seq<string>, k: nat)
    requires Ordered(ids, edges, a) && Ordered(ids, edges, b) && Elements(a) == Elements(b)
    requires InTurn(ids, edges, a, a) && InTurn(ids, edges, b, b)
    requires k <= |a| == |b|
    ensures a[..k] == b[..k]
  {
    if k > 0 {
      SameStart(ids, edges, a, b, k - 1);
      SameNext(ids, edges, a, b, k - 1);
      assert a[..k] == a[..k-1] + [a[k-1]] && b[..k] == b[..k-1] + [b[k-1]];
    }
  }

  /** There is only one order that goes as far as it can and serves each node in its turn. */
  lemma OrderIsDetermined(ids: set<string>, edges: seq<Edge>, a: seq<string>, b: seq<string>)
    requires Topological(ids, edges, a) && InTurn(ids, edges, a, a)
    requires Topological(ids, edges, b) && InTurn(ids, edges, b, b)
    ensures a == b
  {
    forall v | v in ids ensures v in Elements(a) <==> v in Elements(b) {
      OmittedExactly(ids, edges, a, v);
      OmittedExactly(ids, edges, b, v);
    }
    assert Elements(a) == Elements(b);
    DistinctCount(a);
    DistinctCount(b);
    SameStart(ids, edges, a, b, |a|);
    assert a[..|a|] == a && b[..|a|] == b;
  }
}
