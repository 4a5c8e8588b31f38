/** The graph that the nodes' input lists describe: cycles and components. */
module Graphs {
  import opened Sets

  /** Input lists of the configured nodes. */
  type Inputs = map<string, seq<string>>

  /** Every input is a configured node. */
  ghost predicate Closed(g: Inputs) {
    forall n, k :: n in g && 0 <= k < |g[n]| ==> g[n][k] in g
  }

  ghost predicate Distinct(s: seq<string>) {
    forall j, k :: 0 <= j < k < |s| ==> s[j] != s[k]
  }

  ghost predicate Walk(g: Inputs, p: seq<string>) {
    forall j :: 0 <= j < |p| - 1 ==> p[j] in g && p[j + 1] in g[p[j]]
  }

  /** No walk against the arrows comes back to where it started. */
  ghost predicate Acyclic(g: Inputs) {
    forall p: seq<string> :: |p| >= 2 && Walk(g, p) ==> p[0] != p[|p| - 1]
  }

  ghost predicate HasInputIn(g: Inputs, s: set<string>, n: string) {
    n in g && exists k :: 0 <= k < |g[n]| && g[n][k] in s
  }

  /** A walk of any length inside a set in which every node has an input in the set. */
  lemma LongWalk(g: Inputs, s: set<string>, start: string, len: nat) returns (p: seq<string>)
    requires start in s && forall n :: n in s ==> HasInputIn(g, s, n)
    ensures |p| == len + 1 && Walk(g, p) && forall j :: 0 <= j < |p| ==> p[j] in s
  {
    if len == 0 {
      return [start];
    }
    var q := LongWalk(g, s, start, len - 1);
    var last := q[|q| - 1];
    assert HasInputIn(g, s, last);
    var k :| 0 <= k < |g[last]| && g[last][k] in s;
    p := q + [g[last][k]];
    WalkExtends(g, q, g[last][k]);
  }

  lemma WalkExtends(g: Inputs, q: seq<string>, m: string)
    requires |q| >= 1 && Walk(g, q) && q[|q| - 1] in g && m in g[q[|q| - 1]]
    ensures Walk(g, q + [m])
  {
    var p := q + [m];
    forall j | 0 <= j < |p| - 1 ensures p[j] in g && p[j + 1] in g[p[j]] {
      if j < |q| - 1 {
        assert p[j] == q[j] && p[j + 1] == q[j + 1];
      }
    }
  }

  lemma {:induction false} Pigeonhole(s: set<string>, p: seq<string>) returns (i: nat, j: nat)
    requires |p| > |s| && forall k :: 0 <= k < |p| ==> p[k] in s
    ensures i < j < |p| && p[i] == p[j]
  {
    var last := p[|p| - 1];
    if k :| 0 <= k < |p| - 1 && p[k] == last {
      return k, |p| - 1;
    }
    i, j := Pigeonhole(s - {last}, p[..|p| - 1]);
  }

  lemma ClosedWalk(g: Inputs, s: set<string>, start: string) returns (q: seq<string>)
    requires start in s && forall n :: n in s ==> HasInputIn(g, s, n)
    ensures |q| >= 2 && Walk(g, q) && q[0] == q[|q| - 1]
  {
    var p := LongWalk(g, s, start, |s|);
    var i, j := Pigeonhole(s, p);
    q := p[i..j + 1];
    WalkPart(g, p, i, j + 1);
  }

  /** In an acyclic graph every non-empty set of nodes has one without inputs in the set. */
  lemma HasMinimal(g: Inputs, s: set<string>)
    requires Acyclic(g) && s <= g.Keys && s != {}
    ensures exists n :: n in s && !HasInputIn(g, s, n)
  {
    if forall n :: n in s ==> HasInputIn(g, s, n) {
      var start :| start in s;
      var q := ClosedWalk(g, s, start);
      assert false;
    }
  }

  lemma WalkPart(g: Inputs, p: seq<string>, i: nat, j: nat)
    requires Walk(g, p) && i <= j <= |p|
    ensures Walk(g, p[i..j])
  {
    var q := p[i..j];
    forall k | 0 <= k < |q| - 1 ensures q[k] in g && q[k + 1] in g[q[k]] {
      assert q[k] == p[i + k] && q[k + 1] == p[i + k + 1];
    }
  }

  function ToSet(s: seq<string>): set<string> {
    set x | x in s
  }

  lemma {:induction false} CardOfSeq(s: seq<string>)
    ensures |ToSet(s)| <= |s|
    ensures |ToSet(s)| == |s| <==> Distinct(s)
  {
    if s != [] {
      var init, last := s[..|s| - 1], s[|s| - 1];
      CardOfSeq(init);
      assert s == init + [last];
      assert ToSet(s) == ToSet(init) + {last};
      if last in init {
        var k :| 0 <= k < |init| && init[k] == last;
        assert s[k] == s[|s| - 1];
        assert ToSet(s) == ToSet(init);
      } else {
        assert Distinct(init) ==> Distinct(s);
      }
    }
  }

  /** As many different keys as entries: the list has no repetition and all of it is covered. */
  lemma FullCover(keys: set<string>, s: seq<string>)
    requires keys <= ToSet(s)
    ensures |keys| <= |s|
    ensures |keys| == |s| <==> Distinct(s) && keys == ToSet(s)
  {
    CardOfSeq(s);
    SubsetCard(keys, ToSet(s));
  }

  // ---------- weakly connected components ----------

  type Adjacency = map<string, set<string>>

  /** Pairs of a node and one of its inputs. */
  function Edges(g: Inputs): set<(string, string)> {
    set n, m | n in g && m in g[n] :: (n, m)
  }

  ghost predicate Joined(edges: set<(string, string)>, x: string, y: string) {
    (x, y) in edges || (y, x) in edges
  }

  /** a is the undirected graph with these nodes, the ends of these edges, and the edges both ways. */
  ghost predicate Represents(a: Adjacency, nodes: set<string>, edges: set<(string, string)>) {
    && (forall x :: x in a <==> x in nodes || exists y :: Joined(edges, x, y))
    && (forall x, y :: x in a ==> (y in a[x] <==> Joined(edges, x, y)))
  }

  ghost predicate Symmetric(a: Adjacency) {
    forall n, m :: n in a && m in a[n] ==> m in a && n in a[m]
  }

  lemma RepresentsIsSymmetric(a: Adjacency, nodes: set<string>, edges: set<(string, string)>)
    requires Represents(a, nodes, edges)
    ensures Symmetric(a)
  {
    forall n, m | n in a && m in a[n] ensures m in a && n in a[m] {
      assert Joined(edges, n, m);
      assert Joined(edges, m, n);
    }
  }

  /** A path that follows inputs or consumers at each step. */
  ghost predicate Path(a: Adjacency, p: seq<string>) {
    forall j :: 0 <= j < |p| - 1 ==> p[j] in a && p[j + 1] in a[p[j]]
  }

  ghost predicate PathBetween(a: Adjacency, p: seq<string>, x: string, y: string) {
    |p| >= 1 && p[0] == x && p[|p| - 1] == y && Path(a, p)
  }

  ghost predicate Linked(a: Adjacency, x: string, y: string) {
    exists p :: PathBetween(a, p, x, y)
  }

  lemma LinkedSelf(a: Adjacency, x: string)
    ensures Linked(a, x, x)
  {
    assert PathBetween(a, [x], x, x);
  }

  lemma LinkedStep(a: Adjacency, x: string, y: string, z: string)
    requires Linked(a, x, y) && y in a && z in a[y]
    ensures Linked(a, x, z)
  {
    var p :| PathBetween(a, p, x, y);
    var q := p + [z];
    forall j | 0 <= j < |q| - 1 ensures q[j] in a && q[j + 1] in a[q[j]] {
      if j < |p| - 1 {
        assert q[j] == p[j] && q[j + 1] == p[j + 1];
      }
    }
    assert PathBetween(a, q, x, z);
  }

  /** A set closed under neighbours is not left by a path. */
  lemma {:induction false} ClosedKeepsPath(a: Adjacency, c: set<string>, p: seq<string>)
    requires Path(a, p) && |p| >= 1 && p[0] in c
    requires forall n :: n in c && n in a ==> a[n] <= c
    ensures p[|p| - 1] in c
  {
    if |p| > 1 {
      var q := p[..|p| - 1];
      assert Path(a, q) by {
        forall j | 0 <= j < |q| - 1 ensures q[j] in a && q[j + 1] in a[q[j]] {
          assert p[j] == q[j] && p[j + 1] == q[j + 1];
        }
      }
      ClosedKeepsPath(a, c, q);
      assert p[|p| - 2] == q[|q| - 1];
      assert p[|p| - 1] == p[|p| - 2 + 1];
    }
  }

  /** Closed under neighbours, and all of it reached from one node. */
  ghost predicate IsComponent(a: Adjacency, c: set<string>) {
    && c <= a.Keys
    && (forall n :: n in c ==> a[n] <= c)
    && exists root :: root in c && forall n :: n in c ==> Linked(a, root, n)
  }

  lemma {:induction false} Reverse(a: Adjacency, x: string, y: string, p: seq<string>)
    requires Symmetric(a) && PathBetween(a, p, x, y)
    ensures Linked(a, y, x)
  {
    var q := seq(|p|, i requires 0 <= i < |p| => p[|p| - 1 - i]);
    forall j | 0 <= j < |q| - 1 ensures q[j] in a && q[j + 1] in a[q[j]] {
      var k := |p| - 2 - j;
      assert p[k] in a && p[k + 1] in a[p[k]];
    }
    assert PathBetween(a, q, y, x);
  }

  lemma {:induction false} LinkedTransitive(a: Adjacency, x: string, y: string, z: string, p: seq<string>)
    requires Linked(a, x, y) && PathBetween(a, p, y, z)
    ensures Linked(a, x, z)
    decreases |p|
  {
    if |p| > 1 {
      assert p[0] in a && p[0 + 1] in a[p[0]];
      LinkedStep(a, x, y, p[1]);
      var q := p[1..];
      forall j | 0 <= j < |q| - 1 ensures q[j] in a && q[j + 1] in a[q[j]] {
        assert p[j + 1] in a && p[j + 1 + 1] in a[p[j + 1]];
      }
      LinkedTransitive(a, x, p[1], z, q);
    }
  }

  /** Two nodes share a component exactly when a path joins them. */
  lemma ComponentIsLinked(a: Adjacency, c: set<string>, x: string, y: string)
    requires Symmetric(a) && IsComponent(a, c) && x in c
    ensures y in c <==> Linked(a, x, y)
  {
    if y in c {
      var root :| root in c && forall n :: n in c ==> Linked(a, root, n);
      var p :| PathBetween(a, p, root, x);
      Reverse(a, root, x, p);
      assert Linked(a, root, y);
      var q :| PathBetween(a, q, root, y);
      LinkedTransitive(a, x, root, y, q);
    }
    if Linked(a, x, y) {
      var p :| PathBetween(a, p, x, y);
      ClosedKeepsPath(a, c, p);
    }
  }

  lemma AddEdge(a: Adjacency, nodes: set<string>, edges: set<(string, string)>, n: string, m: string)
    requires n in nodes && Represents(a, nodes, edges)
    ensures var b := a[m := (if m in a then a[m] else {}) + {n}];
            n in b && Represents(b[n := b[n] + {m}], nodes, edges + {(n, m)})
  {
    var b := a[m := (if m in a then a[m] else {}) + {n}];
    var c := b[n := b[n] + {m}];
    var more := edges + {(n, m)};
    forall x, y ensures Joined(more, x, y) <==> Joined(edges, x, y) || (x == n && y == m) || (x == m && y == n) {
    }
    assert Joined(more, n, m) && Joined(more, m, n);
    forall x ensures x in c <==> x in nodes || exists y :: Joined(more, x, y) {
      if y :| Joined(edges, x, y) {
        assert Joined(more, x, y);
      }
    }
    forall x, y | x in c ensures y in c[x] <==> Joined(more, x, y) {
      if x !in a {
        assert !Joined(edges, x, y);
      }
    }
  }

  function PairsOf(n: string, inputs: seq<string>): set<(string, string)> {
    set m | m in inputs :: (n, m)
  }

  method EnterInputs(graph0: Adjacency, n: string, inputs: seq<string>,
                     ghost nodes: set<string>, ghost edges0: set<(string, string)>) returns (graph: Adjacency)
    requires n in nodes && Represents(graph0, nodes, edges0)
    ensures Represents(graph, nodes, edges0 + PairsOf(n, inputs))
  {
    graph := graph0;
    ghost var edges := edges0;
    for k := 0 to |inputs|
      invariant Represents(graph, nodes, edges)
      invariant edges == edges0 + PairsOf(n, inputs[..k])
    {
      var m := inputs[k];
      AddEdge(graph, nodes, edges, n, m);
      assert inputs[..k + 1] == inputs[..k] + [m];
      graph := graph[m := (if m in graph then graph[m] else {}) + {n}];
      graph := graph[n := graph[n] + {m}];
      edges := edges + {(n, m)};
    }
    assert inputs[..|inputs|] == inputs;
  }

  method BuildGraph(g: Inputs) returns (graph: Adjacency)
    ensures Represents(graph, g.Keys, Edges(g))
  {
    graph := map n | n in g :: {};
    ghost var edges: set<(string, string)> := {};
    var todo := g.Keys;
    while todo != {}
      invariant todo <= g.Keys
      invariant Represents(graph, g.Keys, edges)
      invariant edges == set n, m | n in g.Keys - todo && m in g[n] :: (n, m)
    {
      var n :| n in todo;
      graph := EnterInputs(graph, n, g[n], g.Keys, edges);
      edges := edges + PairsOf(n, g[n]);
      todo := todo - {n};
    }
    assert edges == Edges(g);
  }

  method AnyOrder(s: set<string>) returns (r: seq<string>)
    ensures ToSet(r) == s
  {
    r := [];
    var todo := s;
    while todo != {}
      invariant todo <= s && ToSet(r) == s - todo
    {
      var x :| x in todo;
      assert ToSet(r + [x]) == ToSet(r) + {x};
      r := r + [x];
      todo := todo - {x};
    }
  }

  ghost predicate Partition(s: set<string>, cs: seq<set<string>>) {
    && (forall n :: n in s <==> exists i :: 0 <= i < |cs| && n in cs[i])
    && (forall i, j :: 0 <= i < j < |cs| ==> cs[i] !! cs[j])
  }

  method Explore(graph: Adjacency, node: string, seen0: set<string>) returns (component: set<string>)
    requires Symmetric(graph) && node in graph && node !in seen0 && seen0 <= graph.Keys
    requires forall n :: n in seen0 ==> graph[n] <= seen0
    ensures IsComponent(graph, component) && node in component && component !! seen0
  {
    var seen := seen0;
    component := {};
    var stack := [node];
    LinkedSelf(graph, node);
    while stack != []
      invariant seen == seen0 + component && component !! seen0
      invariant component <= graph.Keys
      invariant forall n :: n in component ==> Linked(graph, node, n)
      invariant forall n :: n in stack ==> n in graph && n !in seen0 && Linked(graph, node, n)
      invariant forall n, m :: n in component && m in graph[n] ==> m in component || m in stack
      invariant node in component || node in stack
      decreases graph.Keys - seen, |stack|
    {
      var current := stack[|stack| - 1];
      assert stack == stack[..|stack| - 1] + [current];
      stack := stack[..|stack| - 1];
      if current in seen {
        continue;
      }
      seen := seen + {current};
      component := component + {current};
      var next := AnyOrder(graph[current] - seen);
      forall n | n in next ensures n in graph && n !in seen0 && Linked(graph, node, n) {
        assert n in ToSet(next);
        LinkedStep(graph, node, current, n);
      }
      forall m | m in graph[current] ensures m in component || m in next {
        assert m !in seen0;
        assert m !in component ==> m in ToSet(next);
      }
      stack := stack + next;
    }
  }

  method WeaklyConnectedComponents(graph: Adjacency) returns (cs: seq<set<string>>)
    requires Symmetric(graph)
    ensures Components(graph, cs)
  {
    cs := [];
    var seen: set<string> := {};
    var todo := graph.Keys;
    while todo != {}
      invariant todo <= graph.Keys && graph.Keys - todo <= seen <= graph.Keys
      invariant Partition(seen, cs)
      invariant forall i :: 0 <= i < |cs| ==> IsComponent(graph, cs[i])
      invariant forall n :: n in seen ==> graph[n] <= seen
    {
      var node :| node in todo;
      todo := todo - {node};
      if node in seen {
        continue;
      }
      var component := Explore(graph, node, seen);
      PartitionGrows(seen, cs, component);
      seen := seen + component;
      cs := cs + [component];
    }
    assert seen == graph.Keys;
  }

  lemma PartitionGrows(s: set<string>, cs: seq<set<string>>, c: set<string>)
    requires Partition(s, cs) && c !! s
    ensures Partition(s + c, cs + [c])
  {
    var ds := cs + [c];
    forall n ensures n in s + c <==> exists i :: 0 <= i < |ds| && n in ds[i] {
      if n in s {
        var i :| 0 <= i < |cs| && n in cs[i];
        assert n in ds[i];
      }
      if n in c {
        assert n in ds[|cs|];
      }
    }
    forall i, j | 0 <= i < j < |ds| ensures ds[i] !! ds[j] {
      if j == |cs| {
        assert forall n :: n in ds[i] ==> n in s;
      }
    }
  }

  lemma SameBlock(s: set<string>, cs: seq<set<string>>, x: string, i: nat, j: nat)
    requires Partition(s, cs) && i < |cs| && j < |cs| && x in cs[i] && x in cs[j]
    ensures i == j
  {
  }

  ghost predicate InOneBlock(cs: seq<set<string>>, x: string, y: string) {
    exists i :: 0 <= i < |cs| && x in cs[i] && y in cs[i]
  }

  lemma OneBlock(s: set<string>, cs: seq<set<string>>, i: nat, x: string, y: string)
    requires Partition(s, cs) && i < |cs| && x in cs[i]
    ensures InOneBlock(cs, x, y) <==> y in cs[i]
  {
    if InOneBlock(cs, x, y) {
      var j: nat :| j < |cs| && x in cs[j] && y in cs[j];
      SameBlock(s, cs, x, i, j);
    }
  }

  ghost predicate Components(graph: Adjacency, cs: seq<set<string>>) {
    Partition(graph.Keys, cs) && forall i :: 0 <= i < |cs| ==> IsComponent(graph, cs[i])
  }

  lemma BlockOf(graph: Adjacency, cs: seq<set<string>>, x: string) returns (i: nat)
    requires Components(graph, cs) && x in graph
    ensures i < |cs| && x in cs[i] && IsComponent(graph, cs[i])
  {
    assert exists j :: 0 <= j < |cs| && x in cs[j];
    i :| 0 <= i < |cs| && x in cs[i];
  }

  /** The blocks that the search yields are exactly the classes of the relation
      "joined by a path of inputs, in either direction". */
  lemma BlocksAreExact(graph: Adjacency, cs: seq<set<string>>, x: string, y: string)
    requires Symmetric(graph) && Components(graph, cs) && x in graph
    ensures InOneBlock(cs, x, y) <==> Linked(graph, x, y)
  {
    var i := BlockOf(graph, cs, x);
    ComponentIsLinked(graph, cs[i], x, y);
    OneBlock(graph.Keys, cs, i, x, y);
  }
}
