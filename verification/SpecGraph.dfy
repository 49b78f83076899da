/**
  The requirements-graph tool: expands dependencies into edges, validates them with a
  three-colour depth-first search, and orders them with Kahn's algorithm.
 */
module SpecGraph {
  import opened Prelude
  import opened Sorting
  import opened Graph

  datatype Node = Node(id: string, phase: string, dependsOn: seq<string>, dependsOnPhases: seq<string>,
    blocks: seq<string>)

  datatype Problem =
    | UnknownDependency(node: string, target: string)
    | UnknownBlock(node: string, target: string)
    | DependencyCycle(path: seq<string>)

  function Ids(nodes: seq<Node>): set<string> {
    set n | n in nodes :: n.id
  }

  // ---------------------------------------------------------------------------
  // build: the expansion of dependencies into edges
  // ---------------------------------------------------------------------------

  /** Feature `d` is a dependency of `n`: named directly, or a member of a phase `n` names. */
  ghost predicate DependsOn(nodes: seq<Node>, n: Node, d: string) {
    d != n.id && (d in n.dependsOn || exists m :: m in nodes && m.id == d && m.phase in n.dependsOnPhases)
  }

  /** The members of a phase. */
  function Members(nodes: seq<Node>, phase: string): set<string> {
    set m | m in nodes && m.phase == phase :: m.id
  }

  method ByPhase(nodes: seq<Node>) returns (byPhase: map<string, set<string>>)
    ensures forall p :: p in byPhase ==> byPhase[p] == Members(nodes, p)
    ensures forall p :: p !in byPhase ==> Members(nodes, p) == {}
  {
    byPhase := map[];
    var i := 0;
    while i < |nodes|
      invariant 0 <= i <= |nodes|
      invariant forall p :: p in byPhase ==> byPhase[p] == Members(nodes[..i], p)
      invariant forall p :: p !in byPhase ==> Members(nodes[..i], p) == {}
    {
      var n := nodes[i];
      assert nodes[..i+1] == nodes[..i] + [n];
      forall p ensures Members(nodes[..i+1], p) == Members(nodes[..i], p) + if p == n.phase then {n.id} else {} {
      }
      byPhase := byPhase[n.phase := (if n.phase in byPhase then byPhase[n.phase] else {}) + {n.id}];
      i := i + 1;
    }
    assert nodes[..|nodes|] == nodes;
  }

  /** Everything `n` depends on. */
  function Dependencies(nodes: seq<Node>, n: Node): (ds: set<string>)
    ensures forall d :: d in ds <==> DependsOn(nodes, n, d)
  {
    Elements(n.dependsOn) + (set m | m in nodes && m.phase in n.dependsOnPhases :: m.id) - {n.id}
  }

  /** The resolved dependencies of one node, sorted and without the node itself. */
  method Resolve(nodes: seq<Node>, n: Node, byPhase: map<string, set<string>>) returns (resolved: seq<string>)
    requires forall p :: p in byPhase ==> byPhase[p] == Members(nodes, p)
    requires forall p :: p !in byPhase ==> Members(nodes, p) == {}
    ensures resolved == SortedSet(Dependencies(nodes, n))
    ensures forall d :: d in resolved <==> DependsOn(nodes, n, d)
  {
    var expanded := set d | d in n.dependsOn;
    var i := 0;
    while i < |n.dependsOnPhases|
      invariant 0 <= i <= |n.dependsOnPhases|
      invariant forall d :: d in expanded <==>
        d in n.dependsOn || exists m :: m in nodes && m.id == d && m.phase in n.dependsOnPhases[..i]
    {
      var phase := n.dependsOnPhases[i];
      var more := if phase in byPhase then byPhase[phase] else {};
      assert more == Members(nodes, phase);
      assert n.dependsOnPhases[..i+1] == n.dependsOnPhases[..i] + [phase];
      expanded := expanded + more;
      i := i + 1;
    }
    assert n.dependsOnPhases[..i] == n.dependsOnPhases;
    assert forall d :: d in expanded - {n.id} <==> DependsOn(nodes, n, d);
    assert expanded - {n.id} == Dependencies(nodes, n);
    resolved := SortedKeys(expanded - {n.id});
    assert forall d :: d in resolved <==> d in Elements(resolved);
  }

  ghost predicate KnownTargets(ids: set<string>, edges: seq<Edge>) {
    forall e :: e in edges ==> e.dst in ids
  }

  function EdgesInto(dst: string, srcs: seq<string>): (edges: seq<Edge>)
    ensures |edges| == |srcs| && forall k :: 0 <= k < |srcs| ==> edges[k] == Edge(srcs[k], dst)
  {
    seq(|srcs|, k requires 0 <= k < |srcs| => Edge(srcs[k], dst))
  }

  /** The edges into the listed nodes: node by node, and for each node by dependency. */
  ghost function EdgesOf(nodes: seq<Node>, some: seq<Node>): seq<Edge> {
    if some == [] then []
    else
      var n := some[|some|-1];
      EdgesOf(nodes, some[..|some|-1]) + EdgesInto(n.id, SortedSet(Dependencies(nodes, n)))
  }

  lemma {:induction false} EdgesOfMembers(nodes: seq<Node>, some: seq<Node>, e: Edge)
    ensures e in EdgesOf(nodes, some) <==> exists n :: n in some && n.id == e.dst && DependsOn(nodes, n, e.src)
  {
    if some == [] {
    } else {
      var last := some[|some|-1];
      assert some == some[..|some|-1] + [last];
      EdgesOfMembers(nodes, some[..|some|-1], e);
      EdgesIntoMembers(last.id, Dependencies(nodes, last), e);
    }
  }

  /** Edges are listed node by node, and for one node by dependency. */
  lemma EdgesInOrder(nodes: seq<Node>, a: seq<Node>, b: seq<Node>)
    ensures EdgesOf(nodes, a + b) == EdgesOf(nodes, a) + EdgesOf(nodes, b)
    ensures |a| == 1 ==>
              var ds := SortedSet(Dependencies(nodes, a[0]));
              |EdgesOf(nodes, a)| == |ds| && forall k :: 0 <= k < |ds| ==> EdgesOf(nodes, a)[k] == Edge(ds[k], a[0].id)
  {
    var one := (n: Node) => EdgesInto(n.id, SortedSet(Dependencies(nodes, n)));
    var all := (some: seq<Node>) => EdgesOf(nodes, some);
    EachInTurn(one, all, a, b);
    assert |a| == 1 ==> a[..0] == [];
  }

  lemma EdgesIntoMembers(dst: string, deps: set<string>, e: Edge)
    ensures e in EdgesInto(dst, SortedSet(deps)) <==> e.dst == dst && e.src in deps
  {
    var srcs := SortedSet(deps);
    assert e.src in deps <==> e.src in Elements(srcs);
    if e.dst == dst && e.src in deps {
      var k := IndexOf(srcs, e.src);
      assert EdgesInto(dst, srcs)[k] == e;
    }
  }

  /** Features have distinct ids, so no edge is listed twice. */
  lemma {:induction false} EdgesDistinct(nodes: seq<Node>, some: seq<Node>)
    requires forall i, j :: 0 <= i < j < |some| ==> some[i].id != some[j].id
    ensures Distinct(EdgesOf(nodes, some))
  {
    if some == [] {
    } else {
      var n := |some| - 1;
      var before, more := EdgesOf(nodes, some[..n]), EdgesInto(some[n].id, SortedSet(Dependencies(nodes, some[n])));
      EdgesDistinct(nodes, some[..n]);
      forall e | e in before ensures e.dst != some[n].id {
        EdgesOfMembers(nodes, some[..n], e);
      }
      JoinDistinct(before, more);
    }
  }

  lemma JoinDistinct(a: seq<Edge>, b: seq<Edge>)
    requires Distinct(a) && Distinct(b) && forall e :: e in a ==> e !in b
    ensures Distinct(a + b)
  {
    forall i, j | 0 <= i < j < |a + b| ensures (a + b)[i] != (a + b)[j] {
      if i < |a| <= j {
        assert a[i] in a && b[j - |a|] in b;
      }
    }
  }

  method BuildEdges(nodes: seq<Node>) returns (edges: seq<Edge>)
    ensures edges == EdgesOf(nodes, nodes) && KnownTargets(Ids(nodes), edges)
    ensures forall e :: e in edges <==>
              exists n :: && n in nodes && n.id == e.dst && e.src != n.id
                          && (e.src in n.dependsOn ||
                              exists m :: m in nodes && m.id == e.src && m.phase in n.dependsOnPhases)
  {
    var byPhase := ByPhase(nodes);
    edges := [];
    var i := 0;
    while i < |nodes|
      invariant 0 <= i <= |nodes| && edges == EdgesOf(nodes, nodes[..i])
    {
      var resolved := Resolve(nodes, nodes[i], byPhase);
      assert nodes[..i+1][..i] == nodes[..i];
      edges := edges + EdgesInto(nodes[i].id, resolved);
      i := i + 1;
    }
    assert nodes[..i] == nodes;
    forall e ensures e in edges <==> exists n :: n in nodes && n.id == e.dst && DependsOn(nodes, n, e.src) {
      EdgesOfMembers(nodes, nodes, e);
    }
  }

  // ---------------------------------------------------------------------------
  // validate: dangling references and the three-colour search
  // ---------------------------------------------------------------------------

  method Adjacency(ids: set<string>, edges: seq<Edge>) returns (adj: map<string, seq<string>>)
    requires KnownTargets(ids, edges)
    ensures adj.Keys == ids && forall u :: u in ids ==> adj[u] == Successors(ids, edges, u)
  {
    adj := map u | u in ids :: [];
    var i := 0;
    while i < |edges|
      invariant 0 <= i <= |edges|
      invariant adj.Keys == ids && forall u :: u in ids ==> adj[u] == Successors(ids, edges[..i], u)
    {
      var e := edges[i];
      assert e in edges;
      assert edges[..i+1][..i] == edges[..i];
      if e.src in adj {
        adj := adj[e.src := adj[e.src] + [e.dst]];
      }
      i := i + 1;
    }
    assert edges[..i] == edges;
  }

  datatype Color = White | Grey | Black

  /** The state `dfs` closes over. */
  class CycleSearch {
    ghost const ids: set<string>
    ghost const edges: seq<Edge>
    const adj: map<string, seq<string>>
    var color: map<string, Color>
    var stack: seq<string>
    var errors: seq<Problem>
    /** The nodes in the order they turned black. */
    ghost var finished: seq<string>

    /** What `adj` means; it never changes. */
    ghost predicate Faithful() {
      adj.Keys == ids && forall u, v :: u in ids ==> (v in adj[u] <==> Linked(ids, edges, u, v))
    }

    ghost predicate Valid()
      reads this
    {
      && Faithful() && color.Keys == ids
      && Distinct(stack) && Walk(ids, edges, stack)
      && (forall u :: u in ids ==> (color[u] == Grey <==> u in stack))
      && (forall u :: u in stack ==> u in ids)
      && (forall u :: u in ids ==> (color[u] == Black <==> u in finished))
      && FinishingOrder(ids, edges, finished)
    }

    ghost function Whites(): set<string>
      reads this
    {
      set u | u in color && color[u] == White
    }

    constructor (ghost ids: set<string>, ghost edges: seq<Edge>, adj: map<string, seq<string>>, errors: seq<Problem>)
      requires adj.Keys == ids && forall u, v :: u in ids ==> (v in adj[u] <==> Linked(ids, edges, u, v))
      ensures Valid() && this.ids == ids && this.edges == edges && this.adj == adj
      ensures stack == [] && this.errors == errors
    {
      this.ids, this.edges, this.adj, this.errors := ids, edges, adj, errors;
      color := map u | u in adj :: White;
      stack, finished := [], [];
    }

    /** One more problem was reported, and it is a cycle of the graph. */
    ghost predicate CycleReported(before: seq<Problem>)
      reads this
    {
      |errors| == |before| + 1 && before <= errors
      && errors[|before|].DependencyCycle? && Cycle(ids, edges, errors[|before|].path)
    }

    ghost predicate Grown(before: seq<string>)
      reads this
    {
      forall x :: x in before ==> x in finished
    }

    /** Turn `u` grey and put it on the path. */
    method Enter(u: string)
      requires Valid() && u in ids && color[u] == White
      requires stack != [] ==> Linked(ids, edges, stack[|stack|-1], u)
      modifies this`color, this`stack
      ensures Valid() && stack == old(stack) + [u] && stack[..|stack|-1] == old(stack) && Whites() < old(Whites())
    {
      assert u in old(Whites());
      if stack == [] {
        assert [] + [u] == [u];
      } else {
        WalkSnoc(ids, edges, stack, u);
      }
      color := color[u := Grey];
      stack := stack + [u];
    }

    /** Take `u` off the path and turn it black, once all its successors are. */
    method Leave(u: string)
      requires Valid() && stack != [] && stack[|stack|-1] == u
      requires forall v :: Linked(ids, edges, u, v) ==> v in finished
      modifies this`color, this`stack, this`finished
      ensures Valid() && stack == old(stack)[..|old(stack)|-1]
      ensures finished == old(finished) + [u] && u in finished && Grown(old(finished)) && Whites() == old(Whites())
    {
      WalkSlice(ids, edges, stack, 0, |stack| - 1);
      FinishOne(ids, edges, finished, u);
      stack := stack[..|stack|-1];
      color := color[u := Black];
      finished := finished + [u];
      assert Whites() == old(Whites());
    }

    /** The path from the earlier visit of `v` back to `v` is a cycle. */
    method Report(v: string)
      requires Valid() && v in stack && Linked(ids, edges, stack[|stack|-1], v)
      modifies this`errors
      ensures CycleReported(old(errors))
    {
      var j := IndexOf(stack, v);
      WalkSlice(ids, edges, stack, j, |stack|);
      WalkSnoc(ids, edges, stack[j..], v);
      errors := errors + [DependencyCycle(stack[j..] + [v])];
      assert Cycle(ids, edges, stack[j..] + [v]);
    }

    /** One successor of the node at the end of the path: a grey one closes a cycle, a white
        one is searched, a black one is left. */
    method Visit(v: string) returns (found: bool)
      requires Valid() && stack != [] && Linked(ids, edges, stack[|stack|-1], v)
      modifies this
      ensures found ==> CycleReported(old(errors))
      ensures !found ==>
        && Valid() && errors == old(errors) && stack == old(stack)
        && v in finished && Grown(old(finished)) && Whites() <= old(Whites())
      decreases Whites(), 1
    {
      found := false;
      if color[v] == Grey {
        Report(v);
        return true;
      }
      if color[v] == White {
        found := Dfs(v);
      }
    }

    method Dfs(u: string) returns (found: bool)
      requires Valid() && u in ids && color[u] == White
      requires stack != [] ==> Linked(ids, edges, stack[|stack|-1], u)
      modifies this
      ensures found ==> CycleReported(old(errors))
      ensures !found ==>
        && Valid() && errors == old(errors) && stack == old(stack)
        && u in finished && Grown(old(finished)) && Whites() < old(Whites())
      decreases Whites(), 0
    {
      Enter(u);
      found := VisitAll(u);
      if !found {
        Leave(u);
      }
    }

    /** Visit the successors of the node at the end of the path, until one closes a cycle. */
    method VisitAll(u: string) returns (found: bool)
      requires Valid() && stack != [] && stack[|stack|-1] == u
      modifies this
      ensures found ==> CycleReported(old(errors))
      ensures !found ==>
        && Valid() && errors == old(errors) && stack == old(stack)
        && (forall v :: Linked(ids, edges, u, v) ==> v in finished) && Grown(old(finished)) && Whites() <= old(Whites())
      decreases Whites(), 2
    {
      var i := 0;
      while i < |adj[u]|
        invariant 0 <= i <= |adj[u]|
        invariant Valid() && errors == old(errors) && stack == old(stack)
        invariant Grown(old(finished)) && Whites() <= old(Whites())
        invariant forall k :: 0 <= k < i ==> adj[u][k] in finished
      {
        found := Visit(adj[u][i]);
        if found {
          return;
        }
        i := i + 1;
      }
      found := false;
    }
  }

  lemma FinishOne(ids: set<string>, edges: seq<Edge>, done: seq<string>, u: string)
    requires FinishingOrder(ids, edges, done) && forall v :: Linked(ids, edges, u, v) ==> v in done
    ensures FinishingOrder(ids, edges, done + [u])
  {
    var more := done + [u];
    forall i, v | 0 <= i < |more| && Linked(ids, edges, more[i], v) ensures v in more[..i] {
      if i < |done| {
        assert more[..i] == done[..i];
      } else {
        assert more[..i] == done;
      }
    }
  }

  lemma WalkSnoc(ids: set<string>, edges: seq<Edge>, w: seq<string>, v: string)
    requires w != [] && Walk(ids, edges, w) && Linked(ids, edges, w[|w|-1], v)
    ensures Walk(ids, edges, w + [v])
  {
    var longer := w + [v];
    forall k | 0 <= k < |longer| - 1 ensures Linked(ids, edges, longer[k], longer[k+1]) {
      if k < |w| - 1 {
        assert Linked(ids, edges, w[k], w[k+1]);
      }
    }
  }

  /** The dangling references, in reporting order. */
  function Dangling(ids: set<string>, nodes: seq<Node>): seq<Problem> {
    if nodes == [] then []
    else
      var n := nodes[|nodes|-1];
      Dangling(ids, nodes[..|nodes|-1]) + (UnknownDeps(ids, n, n.dependsOn) + UnknownBlocks(ids, n, n.blocks))
  }

  function UnknownDeps(ids: set<string>, n: Node, ds: seq<string>): seq<Problem> {
    if ds == [] then []
    else UnknownDeps(ids, n, ds[..|ds|-1]) + if ds[|ds|-1] in ids then [] else [UnknownDependency(n.id, ds[|ds|-1])]
  }

  function UnknownBlocks(ids: set<string>, n: Node, bs: seq<string>): seq<Problem> {
    if bs == [] then []
    else UnknownBlocks(ids, n, bs[..|bs|-1]) + if bs[|bs|-1] in ids then [] else [UnknownBlock(n.id, bs[|bs|-1])]
  }

  lemma {:induction false} UnknownsExactly(ids: set<string>, n: Node, ds: seq<string>, e: Problem)
    ensures e in UnknownDeps(ids, n, ds) <==>
              e.UnknownDependency? && e.node == n.id && e.target in ds && e.target !in ids
    ensures e in UnknownBlocks(ids, n, ds) <==> e.UnknownBlock? && e.node == n.id && e.target in ds && e.target !in ids
  {
    if ds == [] {
    } else {
      UnknownsExactly(ids, n, ds[..|ds|-1], e);
      assert ds == ds[..|ds|-1] + [ds[|ds|-1]];
    }
  }

  /** Some feature called `id` depends on `d` by name, or blocks it, and no feature is called `d`. */
  ghost predicate DanglingDependency(nodes: seq<Node>, id: string, d: string) {
    (exists n :: n in nodes && n.id == id && d in n.dependsOn) && forall m :: m in nodes ==> m.id != d
  }

  ghost predicate DanglingBlock(nodes: seq<Node>, id: string, b: string) {
    (exists n :: n in nodes && n.id == id && b in n.blocks) && forall m :: m in nodes ==> m.id != b
  }

  lemma {:induction false} DanglingMembers(ids: set<string>, nodes: seq<Node>, e: Problem)
    ensures e in Dangling(ids, nodes) <==>
              !e.DependencyCycle? && e.target !in ids &&
              exists n :: && n in nodes && n.id == e.node
                          && e.target in if e.UnknownBlock? then n.blocks else n.dependsOn
  {
    if nodes == [] {
    } else {
      var rest, n := nodes[..|nodes|-1], nodes[|nodes|-1];
      assert nodes == rest + [n];
      DanglingMembers(ids, rest, e);
      UnknownsExactly(ids, n, n.dependsOn, e);
      UnknownsExactly(ids, n, n.blocks, e);
    }
  }

  /** The dangling references reported are exactly those there are, and no cycle is among them. */
  lemma DanglingExactly(nodes: seq<Node>)
    ensures forall id, d :: UnknownDependency(id, d) in Dangling(Ids(nodes), nodes) <==>
              DanglingDependency(nodes, id, d)
    ensures forall id, b :: UnknownBlock(id, b) in Dangling(Ids(nodes), nodes) <==> DanglingBlock(nodes, id, b)
    ensures forall e :: e in Dangling(Ids(nodes), nodes) ==> !e.DependencyCycle?
  {
    var ids := Ids(nodes);
    forall id, d ensures UnknownDependency(id, d) in Dangling(ids, nodes) <==> DanglingDependency(nodes, id, d) {
      DanglingMembers(ids, nodes, UnknownDependency(id, d));
    }
    forall id, b ensures UnknownBlock(id, b) in Dangling(ids, nodes) <==> DanglingBlock(nodes, id, b) {
      DanglingMembers(ids, nodes, UnknownBlock(id, b));
    }
    forall e | e in Dangling(ids, nodes) ensures !e.DependencyCycle? {
      DanglingMembers(ids, nodes, e);
    }
  }

  /** They come feature by feature in the order read, and for each feature reference by
      reference, dependencies first: the report of a list is that of its parts, one after the
      other, down to single references. */
  lemma DanglingInOrder(ids: set<string>, before: seq<Node>, after: seq<Node>)
    ensures Dangling(ids, before + after) == Dangling(ids, before) + Dangling(ids, after)
  {
    var one := (n: Node) => UnknownDeps(ids, n, n.dependsOn) + UnknownBlocks(ids, n, n.blocks);
    var all := (nodes: seq<Node>) => Dangling(ids, nodes);
    EachInTurn(one, all, before, after);
  }

  lemma OneFeatureInOrder(ids: set<string>, n: Node)
    ensures Dangling(ids, [n]) == Dangling(ids, [n.(blocks := [])]) + Dangling(ids, [n.(dependsOn := [])])
  {
    JustOne(ids, n);
    JustOne(ids, n.(blocks := []));
    JustOne(ids, n.(dependsOn := []));
    SameName(ids, n, n.(blocks := []), n.dependsOn);
    SameName(ids, n, n.(dependsOn := []), n.blocks);
  }

  lemma OneMoreReference(ids: set<string>, n: Node, ds: seq<string>, d: string)
    ensures Dangling(ids, [n.(blocks := [], dependsOn := ds + [d])]) ==
              Dangling(ids, [n.(blocks := [], dependsOn := ds)]) +
                if d in ids then [] else [UnknownDependency(n.id, d)]
    ensures Dangling(ids, [n.(dependsOn := [], blocks := ds + [d])]) ==
              Dangling(ids, [n.(dependsOn := [], blocks := ds)]) + if d in ids then [] else [UnknownBlock(n.id, d)]
  {
    OnlyOneKind(ids, n, ds);
    OnlyOneKind(ids, n, ds + [d]);
    OneMore(ids, n, ds, d);
  }

  lemma OnlyOneKind(ids: set<string>, n: Node, ds: seq<string>)
    ensures Dangling(ids, [n.(blocks := [], dependsOn := ds)]) == UnknownDeps(ids, n, ds)
    ensures Dangling(ids, [n.(dependsOn := [], blocks := ds)]) == UnknownBlocks(ids, n, ds)
  {
    var deps, blocks := n.(blocks := [], dependsOn := ds), n.(dependsOn := [], blocks := ds);
    JustOne(ids, deps);
    JustOne(ids, blocks);
    SameName(ids, n, deps, ds);
    SameName(ids, n, blocks, ds);
  }

  lemma OneMore(ids: set<string>, n: Node, ds: seq<string>, d: string)
    ensures UnknownDeps(ids, n, ds + [d]) ==
              UnknownDeps(ids, n, ds) + if d in ids then [] else [UnknownDependency(n.id, d)]
    ensures UnknownBlocks(ids, n, ds + [d]) ==
              UnknownBlocks(ids, n, ds) + if d in ids then [] else [UnknownBlock(n.id, d)]
  {
    assert (ds + [d])[..|ds|] == ds;
  }

  lemma JustOne(ids: set<string>, n: Node)
    ensures Dangling(ids, [n]) == UnknownDeps(ids, n, n.dependsOn) + UnknownBlocks(ids, n, n.blocks)
  {
    assert [n][..0] == [];
  }

  lemma {:induction false} SameName(ids: set<string>, m: Node, n: Node, ds: seq<string>)
    requires m.id == n.id
    ensures UnknownDeps(ids, m, ds) == UnknownDeps(ids, n, ds) && UnknownBlocks(ids, m, ds) == UnknownBlocks(ids, n, ds)
  {
    if ds == [] {
    } else {
      SameName(ids, m, n, ds[..|ds|-1]);
    }
  }

  method ReportNode(ids: set<string>, n: Node) returns (errors: seq<Problem>)
    ensures errors == UnknownDeps(ids, n, n.dependsOn) + UnknownBlocks(ids, n, n.blocks)
  {
    var deps: seq<Problem> := [];
    var j := 0;
    while j < |n.dependsOn|
      invariant 0 <= j <= |n.dependsOn| && deps == UnknownDeps(ids, n, n.dependsOn[..j])
    {
      assert n.dependsOn[..j+1][..j] == n.dependsOn[..j];
      if n.dependsOn[j] !in ids {
        deps := deps + [UnknownDependency(n.id, n.dependsOn[j])];
      }
      j := j + 1;
    }
    assert n.dependsOn[..j] == n.dependsOn;
    var blocks: seq<Problem> := [];
    j := 0;
    while j < |n.blocks|
      invariant 0 <= j <= |n.blocks| && blocks == UnknownBlocks(ids, n, n.blocks[..j])
    {
      assert n.blocks[..j+1][..j] == n.blocks[..j];
      if n.blocks[j] !in ids {
        blocks := blocks + [UnknownBlock(n.id, n.blocks[j])];
      }
      j := j + 1;
    }
    assert n.blocks[..j] == n.blocks;
    errors := deps + blocks;
  }

  method ReportDangling(nodes: seq<Node>) returns (errors: seq<Problem>)
    ensures errors == Dangling(Ids(nodes), nodes)
    ensures forall id, d :: UnknownDependency(id, d) in errors <==> DanglingDependency(nodes, id, d)
    ensures forall id, b :: UnknownBlock(id, b) in errors <==> DanglingBlock(nodes, id, b)
  {
    var ids := Ids(nodes);
    DanglingExactly(nodes);
    errors := [];
    var i := 0;
    while i < |nodes|
      invariant 0 <= i <= |nodes| && errors == Dangling(ids, nodes[..i])
    {
      var more := ReportNode(ids, nodes[i]);
      assert nodes[..i+1][..i] == nodes[..i];
      errors := errors + more;
      i := i + 1;
    }
    assert nodes[..i] == nodes;
  }

  /** The dangling references come first; a cycle of the graph follows exactly when there is one. */
  ghost predicate ValidationReport(nodes: seq<Node>, edges: seq<Edge>, errors: seq<Problem>) {
    var ids, dangling := Ids(nodes), Dangling(Ids(nodes), nodes);
    if HasCycle(ids, edges) then
      && |errors| == |dangling| + 1 && dangling <= errors
      && errors[|dangling|].DependencyCycle? && Cycle(ids, edges, errors[|dangling|].path)
    else errors == dangling
  }

  /** A closed walk over known features. */
  ghost predicate Loop(nodes: seq<Node>, edges: seq<Edge>, path: seq<string>) {
    && |path| >= 2 && path[0] == path[|path|-1]
    && forall i, j :: 0 <= i < j == i + 1 < |path| ==>
         Edge(path[i], path[j]) in edges && path[i] in Ids(nodes) && path[j] in Ids(nodes)
  }

  /** Every dangling reference is in the report and the report names no other. A path reported
      as a cycle is one. */
  lemma ReportNames(nodes: seq<Node>, edges: seq<Edge>, errors: seq<Problem>)
    requires ValidationReport(nodes, edges, errors)
    ensures forall id, d :: UnknownDependency(id, d) in errors <==> DanglingDependency(nodes, id, d)
    ensures forall id, b :: UnknownBlock(id, b) in errors <==> DanglingBlock(nodes, id, b)
    ensures forall path :: DependencyCycle(path) in errors ==> Loop(nodes, edges, path)
  {
    var dangling := Dangling(Ids(nodes), nodes);
    DanglingExactly(nodes);
    if HasCycle(Ids(nodes), edges) {
      assert errors == dangling + [errors[|dangling|]];
    }
    forall path | DependencyCycle(path) in errors ensures Loop(nodes, edges, path) {
      assert DependencyCycle(path) !in dangling;
      var last := errors[|dangling|];
      assert last == DependencyCycle(path);
      forall i, j | 0 <= i < j == i + 1 < |path| ensures Linked(Ids(nodes), edges, path[i], path[j]) {
        assert Linked(Ids(nodes), edges, last.path[i], last.path[i+1]);
      }
    }
    forall e: Problem | !e.DependencyCycle? ensures e in errors <==> e in dangling {
    }
  }

  method Validate(nodes: seq<Node>, edges: seq<Edge>) returns (errors: seq<Problem>)
    requires KnownTargets(Ids(nodes), edges)
    ensures ValidationReport(nodes, edges, errors)
    ensures forall id, d :: UnknownDependency(id, d) in errors <==> DanglingDependency(nodes, id, d)
    ensures forall id, b :: UnknownBlock(id, b) in errors <==> DanglingBlock(nodes, id, b)
    ensures forall path :: DependencyCycle(path) in errors ==> Loop(nodes, edges, path)
  {
    errors := ReportDangling(nodes);
    var ids := Ids(nodes);
    var adj := Adjacency(ids, edges);
    LinkedAdjacency(ids, edges, adj);
    var search := new CycleSearch(ids, edges, adj, errors);
    var found := SearchAll(nodes, search);
    errors := search.errors;
    Reported(nodes, edges, search, found);
    ReportNames(nodes, edges, errors);
  }

  lemma Reported(nodes: seq<Node>, edges: seq<Edge>, search: CycleSearch, found: bool)
    requires search.ids == Ids(nodes) && search.edges == edges
    requires found ==> search.CycleReported(Dangling(Ids(nodes), nodes))
    requires !found ==> search.Valid() && search.errors == Dangling(Ids(nodes), nodes) &&
                        search.ids <= Elements(search.finished)
    ensures ValidationReport(nodes, edges, search.errors)
  {
    if found {
      assert HasCycle(Ids(nodes), edges);
    } else {
      FinishedIsAcyclic(Ids(nodes), edges, search.finished);
    }
  }

  lemma LinkedAdjacency(ids: set<string>, edges: seq<Edge>, adj: map<string, seq<string>>)
    requires adj.Keys == ids && forall u :: u in ids ==> adj[u] == Successors(ids, edges, u)
    ensures forall u, v :: u in ids ==> (v in adj[u] <==> Linked(ids, edges, u, v))
  {
    forall u, v | u in ids ensures v in adj[u] <==> Linked(ids, edges, u, v) {
      SuccessorsAreLinked(ids, edges, u);
    }
  }

  /** Start a search from every node still white, until one finds a cycle. */
  method SearchAll(nodes: seq<Node>, search: CycleSearch) returns (found: bool)
    requires search.Valid() && search.stack == [] && search.ids == Ids(nodes)
    modifies search
    ensures found ==> search.CycleReported(old(search.errors))
    ensures !found ==> search.Valid() && search.errors == old(search.errors) && search.ids <= Elements(search.finished)
  {
    var i := 0;
    while i < |nodes|
      invariant 0 <= i <= |nodes|
      invariant search.Valid() && search.stack == [] && search.errors == old(search.errors)
      invariant forall k :: 0 <= k < i ==> nodes[k].id in search.finished
    {
      var id := nodes[i].id;
      assert id in Ids(nodes);
      if search.color[id] == White {
        found := search.Dfs(id);
        if found {
          return;
        }
      }
      i := i + 1;
    }
    found := false;
  }

  // ---------------------------------------------------------------------------
  // topo_order
  // ---------------------------------------------------------------------------

  /** The number of edges into `v` whose source is known and not yet done. */
  function Remaining(ids: set<string>, edges: seq<Edge>, v: string, done: set<string>): nat {
    if edges == [] then 0
    else
      var e := edges[|edges|-1];
      Remaining(ids, edges[..|edges|-1], v, done) + if e.dst == v && e.src in ids && e.src !in done then 1 else 0
  }

  lemma {:induction false} NoneRemaining(ids: set<string>, edges: seq<Edge>, v: string, done: set<string>)
    requires v in ids
    ensures Remaining(ids, edges, v, done) == 0 <==> forall u :: Linked(ids, edges, u, v) ==> u in done
  {
    if edges == [] {
    } else {
      var rest, e := edges[..|edges|-1], edges[|edges|-1];
      assert edges == rest + [e];
      NoneRemaining(ids, rest, v, done);
      if e.dst == v && e.src in ids && e.src !in done {
        assert Linked(ids, edges, e.src, v);
      }
      assert forall u :: Linked(ids, rest, u, v) ==> Linked(ids, edges, u, v);
    }
  }

  /** Finishing `u` removes exactly its edges from what each node waits for. */
  lemma {:induction false} RemainingAfter(ids: set<string>, edges: seq<Edge>, v: string, done: set<string>, u: string)
    requires u in ids && u !in done && v in ids
    ensures Remaining(ids, edges, v, done) ==
              Remaining(ids, edges, v, done + {u}) + multiset(Successors(ids, edges, u))[v]
  {
    if edges == [] {
    } else {
      RemainingAfter(ids, edges[..|edges|-1], v, done, u);
    }
  }

  /** Successor lists and edge counts of the edges read so far. */
  ghost predicate Tallied(ids: set<string>, edges: seq<Edge>, indeg: map<string, int>, adj: map<string, seq<string>>) {
    && adj.Keys == ids && indeg.Keys == ids
    && (forall u :: u in ids ==> adj[u] == Successors(ids, edges, u))
    && (forall v :: v in ids ==> indeg[v] == Remaining(ids, edges, v, {}))
  }

  lemma TallyNone(ids: set<string>, indeg: map<string, int>, adj: map<string, seq<string>>)
    requires adj == (map u | u in ids :: []) && indeg == (map v | v in ids :: 0)
    ensures Tallied(ids, [], indeg, adj)
  {
  }

  lemma TallyOne(ids: set<string>, edges: seq<Edge>, i: nat, indeg: map<string, int>, adj: map<string, seq<string>>)
    requires i < |edges| && Tallied(ids, edges[..i], indeg, adj)
    ensures var e := edges[i];
            if e.src in adj && e.dst in indeg
            then Tallied(ids, edges[..i+1], indeg[e.dst := indeg[e.dst] + 1], adj[e.src := adj[e.src] + [e.dst]])
            else Tallied(ids, edges[..i+1], indeg, adj)
  {
    var e := edges[i];
    assert edges[..i+1][..i] == edges[..i];
  }

  method InDegrees(ids: set<string>, edges: seq<Edge>) returns (indeg: map<string, int>, adj: map<string, seq<string>>)
    ensures Tallied(ids, edges, indeg, adj)
  {
    indeg, adj := map v | v in ids :: 0, map u | u in ids :: [];
    TallyNone(ids, indeg, adj);
    for i := 0 to |edges|
      invariant Tallied(ids, edges[..i], indeg, adj)
    {
      TallyOne(ids, edges, i, indeg, adj);
      if edges[i].src in adj && edges[i].dst in indeg {
        adj := adj[edges[i].src := adj[edges[i].src] + [edges[i].dst]];
        indeg := indeg[edges[i].dst := indeg[edges[i].dst] + 1];
      }
    }
    assert edges[..|edges|] == edges;
  }

  /** Kahn's bookkeeping between two nodes: `indeg` counts what each node still waits for, and
      a node is listed or queued exactly when that count is zero. */
  ghost predicate Counting(ids: set<string>, edges: seq<Edge>, order: seq<string>, queue: seq<string>,
                           indeg: map<string, int>)
  {
    && Distinct(order + queue) && indeg.Keys == ids
    && (forall v :: v in order || v in queue ==> v in ids)
    && (forall v :: v in ids ==> indeg[v] == Remaining(ids, edges, v, Elements(order)))
    && (forall v :: v in ids ==> (v in order || v in queue <==> indeg[v] == 0))
  }

  lemma CountingEnds(ids: set<string>, edges: seq<Edge>, order: seq<string>, indeg: map<string, int>)
    requires Counting(ids, edges, order, [], indeg) && Ordered(ids, edges, order)
    ensures Topological(ids, edges, order)
  {
    forall v | v in ids && v !in order ensures Stalled(ids, edges, order, v) {
      NoneRemaining(ids, edges, v, Elements(order));
      var u :| Linked(ids, edges, u, v) && u !in Elements(order);
    }
  }

  lemma OrderedGrows(ids: set<string>, edges: seq<Edge>, order: seq<string>, u: string)
    requires Ordered(ids, edges, order) && u in ids && u !in order && Remaining(ids, edges, u, Elements(order)) == 0
    ensures Ordered(ids, edges, order + [u])
  {
    NoneRemaining(ids, edges, u, Elements(order));
    var more := order + [u];
    forall i, p | 0 <= i < |more| && Linked(ids, edges, p, more[i]) ensures p in more[..i] {
      assert more[..i] == order[..i];
      if i == |order| {
        assert order[..i] == order && p in Elements(order);
      }
    }
  }

  function Occurrences(xs: seq<string>, v: string): nat {
    if xs == [] then 0 else (if xs[0] == v then 1 else 0) + Occurrences(xs[1..], v)
  }

  lemma {:induction false} OccurrencesCount(xs: seq<string>, v: string)
    ensures Occurrences(xs, v) == multiset(xs)[v]
  {
    if xs == [] {
    } else {
      assert xs == [xs[0]] + xs[1..];
      OccurrencesCount(xs[1..], v);
    }
  }

  /** The same, while the edges to `pending` are still to be subtracted. */
  ghost predicate Releasing(ids: set<string>, edges: seq<Edge>, listed: seq<string>, queue: seq<string>,
                            indeg: map<string, int>, pending: seq<string>)
  {
    && Distinct(listed + queue) && indeg.Keys == ids
    && (forall v :: v in listed || v in queue ==> v in ids)
    && (forall v :: v in ids ==> indeg[v] == Remaining(ids, edges, v, Elements(listed)) + Occurrences(pending, v))
    && (forall v :: v in ids ==> (v in listed || v in queue <==> indeg[v] == 0))
  }

  lemma ReleaseBegins(ids: set<string>, edges: seq<Edge>, order: seq<string>, u: string, successors: seq<string>,
                      queue: seq<string>, indeg: map<string, int>)
    requires u in ids && Counting(ids, edges, order, [u] + queue, indeg)
    requires multiset(successors) == multiset(Successors(ids, edges, u))
    ensures Releasing(ids, edges, order + [u], queue, indeg, successors)
    ensures forall v :: v in successors ==> v in ids
  {
    var listed := order + [u];
    assert u in [u] + queue;
    assert Elements(listed) == Elements(order) + {u};
    assert order + ([u] + queue) == listed + queue;
    QueueFits(ids, order, [u] + queue);
    forall v | v in ids
      ensures Remaining(ids, edges, v, Elements(order)) ==
                Remaining(ids, edges, v, Elements(listed)) + Occurrences(successors, v)
    {
      RemainingAfter(ids, edges, v, Elements(order), u);
      OccurrencesCount(successors, v);
    }
    forall v | v in ids ensures v in listed || v in queue <==> indeg[v] == 0 {
      assert v in listed || v in queue <==> v in order || v in [u] + queue;
    }
    SuccessorsAreLinked(ids, edges, u);
    forall v | v in successors ensures v in ids {
      assert v in multiset(successors);
      assert v in Successors(ids, edges, u);
      assert Linked(ids, edges, u, v);
    }
  }

  lemma ReleaseOne(ids: set<string>, edges: seq<Edge>, listed: seq<string>, queue: seq<string>,
                   indeg: map<string, int>, pending: seq<string>)
    requires pending != [] && pending[0] in ids && Releasing(ids, edges, listed, queue, indeg, pending)
    ensures var v := pending[0];
            Releasing(ids, edges, listed,
                      if indeg[v] == 1 then queue + [v] else queue, indeg[v := indeg[v] - 1], pending[1..])
  {
    var v := pending[0];
    assert v !in listed && v !in queue;
    assert listed + (queue + [v]) == (listed + queue) + [v];
  }

  lemma ReleaseEnds(ids: set<string>, edges: seq<Edge>, listed: seq<string>, queue: seq<string>,
                    indeg: map<string, int>)
    requires Releasing(ids, edges, listed, queue, indeg, [])
    ensures Counting(ids, edges, listed, queue, indeg)
  {
  }

  /** Everything listed or queued had its turn before the successors still to be looked at,
      which come in the order of their names. */
  ghost predicate Placing(ids: set<string>, edges: seq<Edge>, listed: seq<string>, queue: seq<string>,
                          pending: seq<string>)
  {
    && InTurn(ids, edges, listed, listed + queue) && SortedBy(pending, LexLe)
    && (forall v :: v in pending ==> ReadyAfter(ids, edges, listed, v) == |listed|)
    && (forall u, v :: u in listed + queue && v in pending ==> Before(ids, edges, listed, u, v))
  }

  lemma PlacingBegins(ids: set<string>, edges: seq<Edge>, order: seq<string>, u: string, successors: seq<string>,
                      queue: seq<string>, indeg: map<string, int>)
    requires u in ids && Counting(ids, edges, order, [u] + queue, indeg)
    requires InTurn(ids, edges, order, order + ([u] + queue))
    requires SortedBy(successors, LexLe) && forall v :: v in successors ==> Linked(ids, edges, u, v)
    ensures Placing(ids, edges, order + [u], queue, successors)
  {
    var listed := order + [u];
    assert listed + queue == order + ([u] + queue);
    QueueFits(ids, order, [u] + queue);
    assert listed[..|order|] == order;
    forall v | v in listed + queue ensures ReadyAfter(ids, edges, listed, v) == ReadyAfter(ids, edges, order, v) {
      assert v in order || v in [u] + queue;
      NoneRemaining(ids, edges, v, Elements(order));
      assert !Linked(ids, edges, u, v);
    }
    var all := listed + queue;
    forall i, j | 0 <= i < j < |all| ensures Before(ids, edges, listed, all[i], all[j]) {
      assert all[i] in all && all[j] in all;
      assert Before(ids, edges, order, all[i], all[j]);
    }
  }

  lemma PlaceOne(ids: set<string>, edges: seq<Edge>, listed: seq<string>, queue: seq<string>, pending: seq<string>)
    requires pending != [] && Placing(ids, edges, listed, queue, pending)
    ensures Placing(ids, edges, listed, queue, pending[1..])
    ensures Placing(ids, edges, listed, queue + [pending[0]], pending[1..])
  {
    var all, more := listed + queue, listed + (queue + [pending[0]]);
    assert more == all + [pending[0]];
    forall i, j | 0 <= i < j < |more| ensures Before(ids, edges, listed, more[i], more[j]) {
      assert more[i] == all[i] && all[i] in all;
    }
    forall u, v | u in more && v in pending[1..] ensures Before(ids, edges, listed, u, v) {
      var k :| 0 <= k < |pending[1..]| && pending[1..][k] == v;
      assert pending[k+1] == v;
      LexOrder();
    }
  }

  /** Process the successors of the node just listed: lower each count once per edge and queue
      the nodes whose count reaches zero. */
  method Release(ids: set<string>, ghost edges: seq<Edge>, ghost listed: seq<string>, successors: seq<string>,
                 queue: seq<string>, indeg: map<string, int>) returns (queue': seq<string>, indeg': map<string, int>)
    requires Releasing(ids, edges, listed, queue, indeg, successors)
    requires Placing(ids, edges, listed, queue, successors)
    requires forall v :: v in successors ==> v in ids
    ensures Counting(ids, edges, listed, queue', indeg')
    ensures InTurn(ids, edges, listed, listed + queue')
  {
    queue', indeg' := queue, indeg;
    var pending := successors;
    while pending != []
      invariant Releasing(ids, edges, listed, queue', indeg', pending)
      invariant Placing(ids, edges, listed, queue', pending)
      invariant forall v :: v in pending ==> v in ids
      decreases |pending|
    {
      var v := pending[0];
      ReleaseOne(ids, edges, listed, queue', indeg', pending);
      PlaceOne(ids, edges, listed, queue', pending);
      indeg' := indeg'[v := indeg'[v] - 1];
      queue' := if indeg'[v] == 0 then queue' + [v] else queue';
      pending := pending[1..];
    }
    ReleaseEnds(ids, edges, listed, queue', indeg');
  }

  lemma CountingBegins(ids: set<string>, edges: seq<Edge>, queue: seq<string>, indeg: map<string, int>,
                       adj: map<string, seq<string>>)
    requires Tallied(ids, edges, indeg, adj)
    requires Distinct(queue) && Elements(queue) == set v | v in ids && indeg[v] == 0
    ensures Counting(ids, edges, [], queue, indeg)
  {
    forall v ensures v in queue <==> v in ids && indeg[v] == 0 {
      assert v in queue <==> v in Elements(queue);
    }
    assert [] + queue == queue && Elements<string>([]) == {};
  }

  lemma TakeNext(ids: set<string>, edges: seq<Edge>, order: seq<string>, queue: seq<string>, indeg: map<string, int>)
    requires queue != [] && Counting(ids, edges, order, queue, indeg) && Ordered(ids, edges, order)
    ensures var u := queue[0];
            && u in ids && |order| < |ids| && queue == [u] + queue[1..]
            && Ordered(ids, edges, order + [u])
  {
    assert queue[0] in queue;
    QueueFits(ids, order, queue);
    OrderedGrows(ids, edges, order, queue[0]);
  }

  lemma TurnBegins(ids: set<string>, edges: seq<Edge>, queue: seq<string>)
    requires SortedBy(queue, LexLe)
    ensures InTurn(ids, edges, [], [] + queue)
  {
    assert [] + queue == queue;
  }

  lemma SortedSuccessors(ids: set<string>, edges: seq<Edge>, u: string, successors: seq<string>)
    requires u in ids && successors == Sort(Successors(ids, edges, u), LexLe)
    ensures multiset(successors) == multiset(Successors(ids, edges, u)) && SortedBy(successors, LexLe)
    ensures forall v :: v in successors ==> Linked(ids, edges, u, v)
  {
    SortPermutes(Successors(ids, edges, u), LexLe);
    LexOrder();
    SortSorts(Successors(ids, edges, u), LexLe);
    SuccessorsAreLinked(ids, edges, u);
  }

  /** The same in terms of the edges: a known feature is listed exactly when everything known it
      depends on is, and then it comes after it. */
  lemma OrderMeans(nodes: seq<Node>, edges: seq<Edge>, order: seq<string>)
    requires Topological(Ids(nodes), edges, order)
    ensures Distinct(order)
    ensures forall v :: v in order <==>
              v in Ids(nodes) && forall u :: u in Ids(nodes) && Edge(u, v) in edges ==> u in order
    ensures forall i, j :: 0 <= i < |order| && 0 <= j < |order| && Edge(order[i], order[j]) in edges ==> i < j
  {
    var ids := Ids(nodes);
    forall v ensures v in order <==> v in ids && forall u :: u in ids && Edge(u, v) in edges ==> u in order {
      if v in order {
        assert v in Elements(order);
        var i := IndexOf(order, v);
        forall u | u in ids && Edge(u, v) in edges ensures u in order {
          assert Linked(ids, edges, u, order[i]);
        }
      } else if v in ids {
        assert Stalled(ids, edges, order, v);
      }
    }
    forall i, j | 0 <= i < |order| && 0 <= j < |order| && Edge(order[i], order[j]) in edges ensures i < j {
      assert order[i] in Elements(order) && order[j] in Elements(order);
      assert Linked(ids, edges, order[i], order[j]);
      assert order[i] in order[..j];
    }
  }

  /** Everything that holds between two nodes. */
  ghost predicate Midway(ids: set<string>, edges: seq<Edge>, order: seq<string>, queue: seq<string>,
                         indeg: map<string, int>)
  {
    Counting(ids, edges, order, queue, indeg) && Ordered(ids, edges, order) && InTurn(ids, edges, order, order + queue)
  }

  lemma NextTaken(ids: set<string>, edges: seq<Edge>, order: seq<string>, queue: seq<string>, indeg: map<string, int>,
                  successors: seq<string>)
    requires queue != [] && Midway(ids, edges, order, queue, indeg)
    requires successors == Sort(Successors(ids, edges, queue[0]), LexLe)
    ensures |order| < |ids| && Ordered(ids, edges, order + [queue[0]])
    ensures Releasing(ids, edges, order + [queue[0]], queue[1..], indeg, successors)
    ensures Placing(ids, edges, order + [queue[0]], queue[1..], successors)
    ensures forall v :: v in successors ==> v in ids
  {
    var u := queue[0];
    TakeNext(ids, edges, order, queue, indeg);
    SortedSuccessors(ids, edges, u, successors);
    ReleaseBegins(ids, edges, order, u, successors, queue[1..], indeg);
    PlacingBegins(ids, edges, order, u, successors, queue[1..], indeg);
  }

  method TopoOrder(nodes: seq<Node>, edges: seq<Edge>) returns (order: seq<string>)
    ensures Topological(Ids(nodes), edges, order)
    ensures InTurn(Ids(nodes), edges, order, order)
    ensures forall v :: v in order <==>
              v in Ids(nodes) && forall u :: u in Ids(nodes) && Edge(u, v) in edges ==> u in order
    ensures forall i, j :: 0 <= i < |order| && 0 <= j < |order| && Edge(order[i], order[j]) in edges ==> i < j
  {
    var ids := Ids(nodes);
    var indeg, adj := InDegrees(ids, edges);
    var queue := SortedKeys(set v | v in ids && indeg[v] == 0);
    order := [];
    CountingBegins(ids, edges, queue, indeg, adj);
    TurnBegins(ids, edges, queue);
    while queue != []
      invariant Midway(ids, edges, order, queue, indeg)
      decreases |ids| - |order|
    {
      assert queue[0] in queue;
      var successors := Sort(adj[queue[0]], LexLe);
      NextTaken(ids, edges, order, queue, indeg, successors);
      order := order + [queue[0]];
      queue, indeg := Release(ids, edges, order, successors, queue[1..], indeg);
    }
    CountingEnds(ids, edges, order, indeg);
    assert order + queue == order;
    OrderMeans(nodes, edges, order);
  }

  lemma QueueFits(ids: set<string>, order: seq<string>, queue: seq<string>)
    requires Distinct(order + queue) && queue != [] && forall v :: v in order || v in queue ==> v in ids
    ensures |order| < |ids| && queue[0] !in order
  {
    var all := order + queue;
    assert all[|order|] == queue[0];
    assert forall i :: 0 <= i < |order| ==> order[i] == all[i];
    DistinctFits(all, ids);
  }

  // ---------------------------------------------------------------------------
  // The whole tool
  // ---------------------------------------------------------------------------

  /** What a user of the generated graph relies on: the edges are exactly the dependencies,
      a cycle is reported exactly when the order is incomplete, and a report without errors
      means that every feature named anywhere is known, and comes with an order of all
      features, each after everything it depends on. */
  ghost predicate SoundGraph(nodes: seq<Node>, edges: seq<Edge>, errors: seq<Problem>, order: seq<string>) {
    && (forall n, d :: n in nodes && d in Ids(nodes) && DependsOn(nodes, n, d) ==> Edge(d, n.id) in edges)
    && (|order| < |Ids(nodes)| <==> exists e :: e in errors && e.DependencyCycle?)
    && (errors == [] ==>
          && (forall n, d :: n in nodes && (d in n.dependsOn || d in n.blocks) ==> d in Ids(nodes))
          && Elements(order) == Ids(nodes) && Distinct(order)
          && forall n, d :: n in nodes && DependsOn(nodes, n, d) ==>
               d in order && n.id in order && IndexOf(order, d) < IndexOf(order, n.id))
  }

  lemma NoDangling(nodes: seq<Node>)
    requires Dangling(Ids(nodes), nodes) == []
    ensures forall n, d :: n in nodes && (d in n.dependsOn || d in n.blocks) ==> d in Ids(nodes)
  {
    forall n, d | n in nodes && (d in n.dependsOn || d in n.blocks) ensures d in Ids(nodes) {
      DanglingMembers(Ids(nodes), nodes, UnknownDependency(n.id, d));
      DanglingMembers(Ids(nodes), nodes, UnknownBlock(n.id, d));
    }
  }

  method Run(nodes: seq<Node>) returns (edges: seq<Edge>, errors: seq<Problem>, order: seq<string>)
    ensures SoundGraph(nodes, edges, errors, order)
    ensures Topological(Ids(nodes), edges, order) && InTurn(Ids(nodes), edges, order, order)
    ensures ValidationReport(nodes, edges, errors)
  {
    edges := BuildEdges(nodes);
    errors := Validate(nodes, edges);
    order := TopoOrder(nodes, edges);
    Agreement(nodes, edges, errors, order);
  }

  /** The search and the ordering agree, and a clean report makes the order usable. */
  lemma Agreement(nodes: seq<Node>, edges: seq<Edge>, errors: seq<Problem>, order: seq<string>)
    requires forall e :: e in edges <==> exists n :: n in nodes && n.id == e.dst && DependsOn(nodes, n, e.src)
    requires ValidationReport(nodes, edges, errors) && Topological(Ids(nodes), edges, order)
    ensures SoundGraph(nodes, edges, errors, order)
  {
    var ids := Ids(nodes);
    DistinctFits(order, ids);
    CompleteExactly(ids, edges, order);
    DanglingExactly(nodes);
    if HasCycle(ids, edges) {
      assert errors[|Dangling(ids, nodes)|] in errors;
    }
    forall n, d | n in nodes && DependsOn(nodes, n, d) ensures Edge(d, n.id) in edges {
      assert Edge(d, n.id).dst == n.id && Edge(d, n.id).src == d;
    }
    if errors == [] {
      NoDangling(nodes);
      forall n, d | n in nodes && DependsOn(nodes, n, d)
        ensures d in order && n.id in order && IndexOf(order, d) < IndexOf(order, n.id)
      {
        assert n.id in Elements(order);
        var i := IndexOf(order, n.id);
        assert Linked(ids, edges, d, order[i]);
        assert d in order[..i];
      }
    }
  }
}
