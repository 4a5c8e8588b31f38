/** What the loader of a configuration checks and computes: that the graph has no
    cycle, and what changed since the configuration that ran before. */
module RunConfig {
  import opened Options
  import opened Graphs
  import opened StartupPlanner
  import PlannerTheorems

  // ---------- cycles ----------

  /** The first k inputs of one node that are configured nodes, as often as they are listed. */
  function KnownUpTo(g: Inputs, inputs: seq<string>, k: nat): multiset<string>
    requires k <= |inputs|
  {
    if k == 0 then multiset{}
    else if inputs[k - 1] in g then KnownUpTo(g, inputs, k - 1) + multiset{inputs[k - 1]}
    else KnownUpTo(g, inputs, k - 1)
  }

  function Known(g: Inputs, inputs: seq<string>): multiset<string> {
    KnownUpTo(g, inputs, |inputs|)
  }

  lemma {:induction false} KnownAre(g: Inputs, inputs: seq<string>, k: nat)
    requires k <= |inputs|
    ensures forall x :: x in KnownUpTo(g, inputs, k) <==> x in inputs[..k] && x in g
  {
    if k > 0 {
      KnownAre(g, inputs, k - 1);
      assert inputs[..k] == inputs[..k - 1] + [inputs[k - 1]];
    }
  }

  /** For each node, other nodes, as often as an edge joins them. */
  type EdgeMap = map<string, multiset<string>>

  /** nodes are those that have i as an input, each as often as it does. */
  ghost predicate Consumers(g: Inputs, ins: EdgeMap, i: string, nodes: multiset<string>)
    requires ins.Keys == g.Keys
  {
    forall m :: nodes[m] == if m in g then ins[m][i] else 0
  }

  ghost predicate Mirror(g: Inputs, ins: EdgeMap, outs: EdgeMap) {
    && ins.Keys == g.Keys && outs.Keys == g.Keys
    && (forall i {:trigger Consumers(g, ins, i, outs[i])} :: i in g ==> Consumers(g, ins, i, outs[i]))
  }

  method EnterEdge(g: Inputs, n: string, i: string, ins0: EdgeMap, outs0: EdgeMap) returns (ins: EdgeMap, outs: EdgeMap)
    requires n in g && Mirror(g, ins0, outs0)
    ensures Mirror(g, ins, outs)
    ensures ins == if i in g then ins0[n := ins0[n] + multiset{i}] else ins0
  {
    ins, outs := ins0, outs0;
    if i in g {
      EdgeEntered(g, ins, outs, n, i);
      outs := outs[i := outs[i] + multiset{n}];
      ins := ins[n := ins[n] + multiset{i}];
    }
  }

  lemma EdgeEntered(g: Inputs, ins: EdgeMap, outs: EdgeMap, n: string, i: string)
    requires Mirror(g, ins, outs) && n in g && i in g
    ensures Mirror(g, ins[n := ins[n] + multiset{i}], outs[i := outs[i] + multiset{n}])
  {
    var ins', outs' := ins[n := ins[n] + multiset{i}], outs[i := outs[i] + multiset{n}];
    forall j | j in g ensures Consumers(g, ins', j, outs'[j]) {
      assert Consumers(g, ins, j, outs[j]);
      ConsumersGrow(g, ins, j, outs[j], n, i);
    }
  }

  lemma ConsumersGrow(g: Inputs, ins: EdgeMap, j: string, nodes: multiset<string>, n: string, i: string)
    requires ins.Keys == g.Keys && n in g && Consumers(g, ins, j, nodes)
    ensures Consumers(g, ins[n := ins[n] + multiset{i}], j, if j == i then nodes + multiset{n} else nodes)
  {
  }

  /** ins is ins0 after the first k inputs of n. */
  ghost predicate Entering(g: Inputs, ins0: EdgeMap, ins: EdgeMap, n: string, k: nat)
    requires n in g && k <= |g[n]|
  {
    && ins0.Keys == ins.Keys == g.Keys && ins[n] == KnownUpTo(g, g[n], k)
    && forall m :: m in g && m != n ==> ins[m] == ins0[m]
  }

  lemma EnteringNext(g: Inputs, ins0: EdgeMap, ins: EdgeMap, ins': EdgeMap, n: string, k: nat)
    requires n in g && k < |g[n]| && Entering(g, ins0, ins, n, k)
    requires ins' == if g[n][k] in g then ins[n := ins[n] + multiset{g[n][k]}] else ins
    ensures Entering(g, ins0, ins', n, k + 1)
  {
  }

  method EnterEdges(g: Inputs, n: string, ins0: EdgeMap, outs0: EdgeMap) returns (ins: EdgeMap, outs: EdgeMap)
    requires n in g && Mirror(g, ins0, outs0) && ins0[n] == multiset{}
    ensures Mirror(g, ins, outs) && Entering(g, ins0, ins, n, |g[n]|)
  {
    ins, outs := ins0, outs0;
    for k := 0 to |g[n]|
      invariant Mirror(g, ins, outs) && Entering(g, ins0, ins, n, k)
    {
      ghost var before := ins;
      ins, outs := EnterEdge(g, n, g[n][k], ins, outs);
      EnteringNext(g, ins0, before, ins, n, k);
    }
  }

  method BuildEdges(g: Inputs) returns (ins: EdgeMap, outs: EdgeMap)
    ensures Mirror(g, ins, outs) && forall n :: n in g ==> ins[n] == Known(g, g[n])
  {
    ins, outs := NoneYet(g), NoneYet(g);
    var todo := g.Keys;
    NoneMirrored(g);
    while todo != {}
      invariant todo <= g.Keys && Mirror(g, ins, outs) && Entered(g, ins, todo)
    {
      var n :| n in todo;
      ghost var before := ins;
      ins, outs := EnterEdges(g, n, ins, outs);
      OneEntered(g, before, ins, todo, n);
      todo := todo - {n};
    }
  }

  function NoneYet(g: Inputs): EdgeMap {
    map n | n in g :: multiset{}
  }

  lemma NoneMirrored(g: Inputs)
    ensures Mirror(g, NoneYet(g), NoneYet(g)) && Entered(g, NoneYet(g), g.Keys)
  {
    forall i | i in g ensures Consumers(g, NoneYet(g), i, NoneYet(g)[i]) {
    }
  }

  ghost predicate Entered(g: Inputs, ins: EdgeMap, todo: set<string>) {
    ins.Keys == g.Keys && forall n :: n in g ==> ins[n] == if n in todo then multiset{} else Known(g, g[n])
  }

  lemma OneEntered(g: Inputs, ins: EdgeMap, ins': EdgeMap, todo: set<string>, n: string)
    requires Entered(g, ins, todo) && n in todo && n in g && ins'.Keys == g.Keys && ins'[n] == Known(g, g[n])
    requires forall m :: m in g && m != n ==> ins'[m] == ins[m]
    ensures Entered(g, ins', todo - {n})
  {
  }

  /** order lists nodes after all their inputs. */
  ghost predicate Topological(g: Inputs, order: seq<string>) {
    && (forall j :: 0 <= j < |order| ==> order[j] in g)
    && (forall j, x :: 0 <= j < |order| && x in g[order[j]] && x in g ==> x in order[..j])
    && Distinct(order)
  }

  lemma TopologicalGrows(g: Inputs, order: seq<string>, n: string)
    requires Topological(g, order) && n in g && n !in order
    requires forall x :: x in g[n] && x in g ==> x in order
    ensures Topological(g, order + [n])
  {
    var longer := order + [n];
    forall j, x | 0 <= j < |longer| && x in g[longer[j]] && x in g ensures x in longer[..j] {
      assert longer[..j] == order[..j];
      assert order[..|order|] == order;
    }
  }

  /** A walk goes down in the order. */
  lemma {:induction false} WalkDescends(g: Inputs, order: seq<string>, p: seq<string>, a: nat) returns (b: nat)
    requires Topological(g, order) && Walk(g, p) && |p| >= 1 && forall j :: 0 <= j < |p| ==> p[j] in g
    requires a < |order| && order[a] == p[0]
    ensures b < |order| && order[b] == p[|p| - 1] && b + |p| <= a + 1
    decreases |p|
  {
    if |p| == 1 {
      b := a;
    } else {
      assert p[0] in g && p[0 + 1] in g[p[0]];
      assert p[1] in order[..a];
      var c :| 0 <= c < a && order[c] == p[1];
      WalkPart(g, p, 1, |p|);
      b := WalkDescends(g, order, p[1..], c);
    }
  }

  lemma TopologicalIsAcyclic(g: Inputs, order: seq<string>)
    requires Topological(g, order) && ToSet(order) == g.Keys
    ensures Acyclic(g)
  {
    forall p: seq<string> | |p| >= 2 && Walk(g, p) ensures p[0] != p[|p| - 1] {
      if p[0] == p[|p| - 1] {
        assert p[0] in g && p[0 + 1] in g[p[0]];
        assert forall j :: 0 <= j < |p| - 1 ==> p[j] in g;
        assert p[0] in ToSet(order);
        var a :| 0 <= a < |order| && order[a] == p[0];
        var b := WalkDescends(g, order, p, a);
        assert false;
      }
    }
  }

  /** What is left of a node's inputs when done have been taken. */
  ghost predicate Left(all: multiset<string>, left: multiset<string>, done: seq<string>) {
    forall x :: left[x] == if x in done then 0 else all[x]
  }

  /** The same while n is being taken, with c edges to it still to be removed. */
  ghost predicate Leaving(all: multiset<string>, left: multiset<string>, done: seq<string>, n: string, c: nat) {
    forall x :: left[x] == if x == n then c else if x in done then 0 else all[x]
  }

  /** What the search for a topological order keeps: done nodes have no edges left, and
      the open ones are those that only wait to be taken. */
  ghost predicate Sorting(g: Inputs, all: EdgeMap, ins: EdgeMap, outs: EdgeMap, open: set<string>, order: seq<string>) {
    && all.Keys == ins.Keys == outs.Keys == g.Keys && Topological(g, order) && Waiting(g, ins, open, order)
    && OutsLeft(g, all, outs, order)
    && (forall m {:trigger Left(all[m], ins[m], order)} :: m in g ==> Left(all[m], ins[m], order))
  }

  ghost predicate Waiting(g: Inputs, ins: EdgeMap, open: set<string>, order: seq<string>)
    requires ins.Keys == g.Keys
  {
    && open <= g.Keys && (forall n :: n in open ==> n !in order)
    && (forall n :: n in g ==> (ins[n] == multiset{} <==> n in open || n in order))
  }

  /** n is taken, and of its edges those to rest are left. */
  ghost predicate Taking(g: Inputs, all: EdgeMap, ins: EdgeMap, order: seq<string>, n: string, rest: multiset<string>)
    requires all.Keys == ins.Keys == g.Keys
  {
    forall m {:trigger rest[m]} {:trigger ins[m]} :: m in g ==> Leaving(all[m], ins[m], order, n, rest[m])
  }

  lemma StartTaking(g: Inputs, all: EdgeMap, ins: EdgeMap, order: seq<string>, n: string, rest: multiset<string>)
    requires all.Keys == ins.Keys == g.Keys && n !in order && Consumers(g, all, n, rest)
    requires forall m :: m in g ==> Left(all[m], ins[m], order)
    ensures Taking(g, all, ins, order, n, rest)
  {
    forall m | m in g ensures Leaving(all[m], ins[m], order, n, rest[m]) {
      assert Left(all[m], ins[m], order);
    }
  }

  lemma RemoveOne(g: Inputs, all: EdgeMap, ins: EdgeMap, order: seq<string>, n: string, rest: multiset<string>,
                  m: string)
    requires all.Keys == ins.Keys == g.Keys && m in rest && m in g && Taking(g, all, ins, order, n, rest)
    ensures n in ins[m]
    ensures Taking(g, all, ins[m := ins[m] - multiset{n}], order, n, rest - multiset{m})
  {
    var less := ins[m := ins[m] - multiset{n}];
    assert Leaving(all[m], ins[m], order, n, rest[m]);
    forall x | x in g ensures Leaving(all[x], less[x], order, n, (rest - multiset{m})[x]) {
      assert Leaving(all[x], ins[x], order, n, rest[x]);
    }
  }

  lemma Taken(g: Inputs, all: EdgeMap, ins: EdgeMap, order: seq<string>, n: string)
    requires all.Keys == ins.Keys == g.Keys && Taking(g, all, ins, order, n, multiset{})
    ensures forall m :: m in g ==> Left(all[m], ins[m], order + [n])
  {
    forall m | m in g ensures Left(all[m], ins[m], order + [n]) {
      assert Leaving(all[m], ins[m], order, n, multiset{}[m]);
    }
  }

  /** While n is taken, nodes without inputs left are open, done, or n. */
  ghost predicate WaitingBut(g: Inputs, ins: EdgeMap, open: set<string>, order: seq<string>, n: string)
    requires ins.Keys == g.Keys
  {
    && open <= g.Keys && n !in open && (forall m :: m in open ==> m !in order)
    && (forall m :: m in g ==> (ins[m] == multiset{} <==> m in open || m in order || m == n))
  }

  lemma WaitingGrows(g: Inputs, ins: EdgeMap, open: set<string>, order: seq<string>, n: string, m: string)
    requires ins.Keys == g.Keys && WaitingBut(g, ins, open, order, n) && m in g && n in ins[m]
    ensures var less := ins[m := ins[m] - multiset{n}];
            WaitingBut(g, less, if less[m] == multiset{} then open + {m} else open, order, n)
  {
  }

  lemma InitiallySorting(g: Inputs, all: EdgeMap, outs: EdgeMap, open: set<string>)
    requires Mirror(g, all, outs) && open == set n | n in g && all[n] == multiset{}
    ensures Sorting(g, all, all, outs, open, [])
  {
    forall n | n in g ensures Consumers(g, all, n, outs[n]) && Left(all[n], all[n], []) {
    }
  }

  method RemoveEdge(ghost g: Inputs, ghost all: EdgeMap, ins0: EdgeMap, open0: set<string>, ghost order: seq<string>,
                    n: string, ghost rest: multiset<string>, m: string) returns (ins: EdgeMap, open: set<string>)
    requires all.Keys == ins0.Keys == g.Keys && m in rest && m in g
    requires Taking(g, all, ins0, order, n, rest) && WaitingBut(g, ins0, open0, order, n)
    ensures ins.Keys == g.Keys && Taking(g, all, ins, order, n, rest - multiset{m})
    ensures WaitingBut(g, ins, open, order, n)
  {
    RemoveOne(g, all, ins0, order, n, rest, m);
    WaitingGrows(g, ins0, open0, order, n, m);
    ins, open := ins0[m := ins0[m] - multiset{n}], open0;
    if ins[m] == multiset{} {
      open := open + {m};
    }
  }

  method TakeNode(g: Inputs, ghost all: EdgeMap, ins0: EdgeMap, outs0: EdgeMap, open0: set<string>,
                  ghost order: seq<string>, n: string)
    returns (ins: EdgeMap, outs: EdgeMap, open: set<string>)
    requires Sorting(g, all, ins0, outs0, open0, order) && n in open0 && AreInputs(g, all)
    ensures Sorting(g, all, ins, outs, open, order + [n])
  {
    ins, open := ins0, open0 - {n};
    assert Consumers(g, all, n, outs0[n]);
    StartTaking(g, all, ins0, order, n, outs0[n]);
    var rest := outs0[n];
    while rest != multiset{}
      invariant rest <= outs0[n] && ins.Keys == g.Keys
      invariant Taking(g, all, ins, order, n, rest) && WaitingBut(g, ins, open, order, n)
    {
      var m :| m in rest;
      ins, open := RemoveEdge(g, all, ins, open, order, n, rest, m);
      rest := rest - multiset{m};
    }
    outs := outs0[n := multiset{}];
    NodeTaken(g, all, ins0, ins, outs0, open0, open, order, n);
  }

  lemma NodeTaken(g: Inputs, all: EdgeMap, ins0: EdgeMap, ins: EdgeMap, outs: EdgeMap, open0: set<string>,
                  open: set<string>,
                  order: seq<string>, n: string)
    requires Sorting(g, all, ins0, outs, open0, order) && n in open0 && AreInputs(g, all)
    requires ins.Keys == g.Keys && Taking(g, all, ins, order, n, multiset{}) && WaitingBut(g, ins, open, order, n)
    ensures Sorting(g, all, ins, outs[n := multiset{}], open, order + [n])
  {
    Taken(g, all, ins, order, n);
    OrderTaken(g, all, ins0, order, n);
    WaitingAgain(g, ins, open, order, n);
    OutsTaken(g, all, outs, order, n);
  }

  lemma OrderTaken(g: Inputs, all: EdgeMap, ins: EdgeMap, order: seq<string>, n: string)
    requires AreInputs(g, all) && ins.Keys == g.Keys && Topological(g, order) && n in g && n !in order
    requires ins[n] == multiset{} && Left(all[n], ins[n], order)
    ensures Topological(g, order + [n])
  {
    InputsAreDone(g, all, ins, order, n);
    TopologicalGrows(g, order, n);
  }

  ghost predicate OutsLeft(g: Inputs, all: EdgeMap, outs: EdgeMap, order: seq<string>)
    requires all.Keys == outs.Keys == g.Keys
  {
    && (forall n :: n in g && n in order ==> outs[n] == multiset{})
    && (forall n {:trigger Consumers(g, all, n, outs[n])} :: n in g && n !in order ==> Consumers(g, all, n, outs[n]))
  }

  lemma OutsTaken(g: Inputs, all: EdgeMap, outs: EdgeMap, order: seq<string>, n: string)
    requires all.Keys == outs.Keys == g.Keys && n in g && OutsLeft(g, all, outs, order)
    ensures OutsLeft(g, all, outs[n := multiset{}], order + [n])
  {
    forall m | m in g && m !in order + [n] ensures Consumers(g, all, m, outs[n := multiset{}][m]) {
      assert m !in order && m != n;
      assert Consumers(g, all, m, outs[m]);
    }
  }

  lemma WaitingAgain(g: Inputs, ins: EdgeMap, open: set<string>, order: seq<string>, n: string)
    requires ins.Keys == g.Keys && WaitingBut(g, ins, open, order, n)
    ensures Waiting(g, ins, open, order + [n])
  {
  }

  /** all holds the nodes' inputs. */
  ghost predicate AreInputs(g: Inputs, all: EdgeMap) {
    all.Keys == g.Keys && forall n :: n in g ==> all[n] == Known(g, g[n])
  }

  lemma InputsAreDone(g: Inputs, all: EdgeMap, ins: EdgeMap, order: seq<string>, n: string)
    requires AreInputs(g, all) && n in g && n in ins && ins[n] == multiset{} && Left(all[n], ins[n], order)
    ensures forall x :: x in g[n] && x in g ==> x in order
  {
    KnownAre(g, g[n], |g[n]|);
    assert g[n][..|g[n]|] == g[n];
    forall x | x in g[n] && x in g ensures x in order {
      assert x in all[n] && ins[n][x] == 0;
    }
  }

  lemma SomeInputLeft(g: Inputs, all: EdgeMap, left: multiset<string>, order: seq<string>, n: string)
    requires AreInputs(g, all) && n in g && Left(all[n], left, order) && left != multiset{}
    ensures HasInputIn(g, g.Keys - ToSet(order), n)
  {
    var x :| x in left;
    KnownAre(g, g[n], |g[n]|);
    assert g[n][..|g[n]|] == g[n];
    assert left[x] > 0 && x !in order && x in all[n];
    var k :| 0 <= k < |g[n]| && g[n][k] == x;
  }

  ghost predicate NoEdges(g: Inputs, ins: EdgeMap, outs: EdgeMap)
    requires ins.Keys == outs.Keys == g.Keys
  {
    forall n :: n in g ==> ins[n] == multiset{} && outs[n] == multiset{}
  }

  lemma AcyclicIsSorted(g: Inputs, all: EdgeMap, ins: EdgeMap, outs: EdgeMap, order: seq<string>)
    requires Sorting(g, all, ins, outs, {}, order) && AreInputs(g, all) && Acyclic(g)
    ensures NoEdges(g, ins, outs)
  {
    var rest := g.Keys - ToSet(order);
    forall n | n in rest ensures HasInputIn(g, rest, n) {
      assert Left(all[n], ins[n], order);
      SomeInputLeft(g, all, ins[n], order, n);
    }
    if rest != {} {
      HasMinimal(g, rest);
      assert false;
    }
    forall n | n in g ensures ins[n] == multiset{} && outs[n] == multiset{} {
      assert n !in rest;
    }
  }

  lemma SortedIsAcyclic(g: Inputs, all: EdgeMap, ins: EdgeMap, outs: EdgeMap, order: seq<string>)
    requires Sorting(g, all, ins, outs, {}, order) && NoEdges(g, ins, outs)
    ensures Acyclic(g)
  {
    forall n | n in g ensures n in ToSet(order) {
      assert ins[n] == multiset{};
    }
    assert ToSet(order) == g.Keys;
    TopologicalIsAcyclic(g, order);
  }

  lemma Verdict(g: Inputs, all: EdgeMap, ins: EdgeMap, outs: EdgeMap, order: seq<string>)
    requires Sorting(g, all, ins, outs, {}, order) && AreInputs(g, all)
    ensures NoEdges(g, ins, outs) <==> Acyclic(g)
  {
    if NoEdges(g, ins, outs) {
      SortedIsAcyclic(g, all, ins, outs, order);
    } else if Acyclic(g) {
      AcyclicIsSorted(g, all, ins, outs, order);
    }
  }

  method CountEdges(ghost g: Inputs, ins: EdgeMap, outs: EdgeMap) returns (nedges: nat)
    requires ins.Keys == outs.Keys == g.Keys
    ensures nedges == 0 <==> NoEdges(g, ins, outs)
  {
    nedges := 0;
    var todo := ins.Keys;
    while todo != {}
      invariant todo <= ins.Keys
      invariant nedges == 0 <==> forall n :: n in ins && n !in todo ==> ins[n] == multiset{} && outs[n] == multiset{}
    {
      var n :| n in todo;
      todo := todo - {n};
      nedges := nedges + |ins[n]| + |outs[n]|;
    }
  }

  lemma ToSetOne(order: seq<string>, n: string)
    ensures ToSet(order + [n]) == ToSet(order) + {n}
  {
  }

  /** `_detect_cycles`, by taking nodes whose inputs have all been taken. */
  method DetectCycles(g: Inputs) returns (ok: bool)
    ensures ok <==> Acyclic(g)
  {
    var ins, outs := BuildEdges(g);
    ghost var all := ins;
    var open := set n | n in g && ins[n] == multiset{};
    ghost var order: seq<string> := [];
    InitiallySorting(g, ins, outs, open);
    while open != {}
      invariant AreInputs(g, all) && Sorting(g, all, ins, outs, open, order)
      decreases g.Keys - ToSet(order)
    {
      var n :| n in open;
      assert n in g.Keys - ToSet(order);
      ins, outs, open := TakeNode(g, all, ins, outs, open, order, n);
      ToSetOne(order, n);
      order := order + [n];
    }
    var nedges := CountEdges(g, ins, outs);
    ok := nedges == 0;
    Verdict(g, all, ins, outs, order);
  }

  // ---------- changes ----------

  datatype NodeConfig = NodeConfig(nodeclass: string, inputs: seq<string>, output: bool)
  type NodeConfigs = map<string, NodeConfig>

  predicate Kept(mine: NodeConfigs, other: NodeConfigs, n: string) {
    n in mine && n in other && mine[n].nodeclass == other[n].nodeclass
  }

  /** The changes from other, the configuration before, to mine. */
  ghost predicate IsChange(mine: NodeConfigs, other: Option<NodeConfigs>, c: Change) {
    var n := c.nodename;
    match other
    case None => c == Change(n, ADDED, "") && n in mine
    case Some(o) =>
      match c.kind
      case ADDED => c.detail == "" && n in mine && !Kept(mine, o, n)
      case DELETED => c.detail == "" && n in o && !Kept(mine, o, n)
      case INPUT_ADDED => Kept(mine, o, n) && c.detail in mine[n].inputs && c.detail !in o[n].inputs
      case INPUT_DELETED => Kept(mine, o, n) && c.detail in o[n].inputs && c.detail !in mine[n].inputs
      case OUTPUT_ENABLED => c.detail == "" && Kept(mine, o, n) && mine[n].output && !o[n].output
      case OUTPUT_DISABLED => c.detail == "" && Kept(mine, o, n) && !mine[n].output && o[n].output
  }

  method AppendAll(changes0: seq<Change>, names: set<string>, kind: Kind) returns (changes: seq<Change>)
    ensures forall c :: c in changes <==> c in changes0 || (c.nodename in names && c.kind == kind && c.detail == "")
  {
    changes := changes0;
    var todo := names;
    while todo != {}
      invariant todo <= names
      invariant forall c :: c in changes <==>
        c in changes0 || (c.nodename in names - todo && c.kind == kind && c.detail == "")
    {
      var n :| n in todo;
      todo := todo - {n};
      changes := changes + [Change(n, kind, "")];
    }
  }

  method AppendInputs(changes0: seq<Change>, n: string, inputs: set<string>, kind: Kind) returns (changes: seq<Change>)
    ensures forall c :: c in changes <==> c in changes0 || (c.nodename == n && c.kind == kind && c.detail in inputs)
  {
    changes := changes0;
    var todo := inputs;
    while todo != {}
      invariant todo <= inputs
      invariant forall c :: c in changes <==>
        c in changes0 || (c.nodename == n && c.kind == kind && c.detail in inputs - todo)
    {
      var i :| i in todo;
      todo := todo - {i};
      changes := changes + [Change(n, kind, i)];
    }
  }

  ghost predicate KeptChange(mine: NodeConfigs, o: NodeConfigs, c: Change) {
    IsChange(mine, Some(o), c) && Kept(mine, o, c.nodename) && c.kind != ADDED && c.kind != DELETED
  }

  method CompareNode(changes0: seq<Change>, mine: NodeConfigs, o: NodeConfigs, n: string) returns (changes: seq<Change>)
    requires Kept(mine, o, n)
    ensures forall c :: c in changes <==> c in changes0 || (c.nodename == n && KeptChange(mine, o, c))
  {
    var myInputs, otherInputs := ToSet(mine[n].inputs), ToSet(o[n].inputs);
    changes := AppendInputs(changes0, n, myInputs - otherInputs, INPUT_ADDED);
    changes := AppendInputs(changes, n, otherInputs - myInputs, INPUT_DELETED);
    if mine[n].output == o[n].output {
      return;
    }
    changes := changes + [Change(n, if mine[n].output then OUTPUT_ENABLED else OUTPUT_DISABLED, "")];
  }

  /** `compute_changes`: nothing is missed and nothing made up. */
  method ComputeChanges(mine: NodeConfigs, other: Option<NodeConfigs>) returns (changes: seq<Change>)
    ensures forall c :: c in changes <==> IsChange(mine, other, c)
  {
    match other {
      case None =>
        changes := AppendAll([], mine.Keys, ADDED);
      case Some(o) =>
        var untouched := set n | n in mine && Kept(mine, o, n);
        changes := AppendAll([], o.Keys - untouched, DELETED);
        changes := AppendAll(changes, mine.Keys - untouched, ADDED);
        ghost var renewed := changes;
        var todo := untouched;
        while todo != {}
          invariant todo <= untouched
          invariant forall c :: c in changes <==>
            c in renewed || (c.nodename in untouched - todo && KeptChange(mine, o, c))
        {
          var n :| n in todo;
          todo := todo - {n};
          changes := CompareNode(changes, mine, o, n);
        }
    }
  }

  /** The new configuration can be read off the old one and the changes: which nodes there are, which are
      the same node as before, and the inputs and output of those. */
  lemma ChangesTellAll(mine: NodeConfigs, o: NodeConfigs, changes: seq<Change>, n: string)
    requires forall c :: c in changes <==> IsChange(mine, Some(o), c)
    ensures n in mine <==> Change(n, ADDED, "") in changes || (n in o && Change(n, DELETED, "") !in changes)
    ensures Change(n, ADDED, "") in changes <==> n in mine && !(n in o && o[n].nodeclass == mine[n].nodeclass)
    ensures n in mine && n in o && o[n].nodeclass == mine[n].nodeclass ==>
              && Change(n, DELETED, "") !in changes
              && (forall i :: i in mine[n].inputs <==>
                    Change(n, INPUT_ADDED, i) in changes ||
                    (i in o[n].inputs && Change(n, INPUT_DELETED, i) !in changes))
              && (mine[n].output <==>
                    Change(n, OUTPUT_ENABLED, "") in changes ||
                    (o[n].output && Change(n, OUTPUT_DISABLED, "") !in changes))
  {
  }

  function InputLists(nodes: NodeConfigs): Inputs {
    map n | n in nodes :: nodes[n].inputs
  }

  /** What the planner takes for granted of the changes it is given. */
  lemma ChangesAreTrue(mine: NodeConfigs, other: Option<NodeConfigs>, changes: seq<Change>)
    requires forall c :: c in changes <==> IsChange(mine, other, c)
    ensures PlannerTheorems.TrueChanges(InputLists(mine), changes)
  {
  }
}
