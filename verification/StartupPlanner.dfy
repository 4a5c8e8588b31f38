/** Choosing each node's start-up command from the checkpoints that the nodes
    report and the changes made to the configuration. */
module StartupPlanner {
  import opened Options
  import opened Commands
  import opened Graphs

  datatype NodeInfo = NodeInfo(checkpoint: Option<string>, isSource: bool)
  datatype Kind = ADDED | DELETED | INPUT_ADDED | INPUT_DELETED | OUTPUT_ENABLED | OUTPUT_DISABLED
  datatype Change = Change(nodename: string, kind: Kind, detail: string)
  type Infos = map<string, NodeInfo>

  // ---------- what the decision depends on ----------

  ghost predicate Changed(changes: seq<Change>, n: string, kind: Kind) {
    exists c :: c in changes && c.nodename == n && c.kind == kind
  }

  ghost predicate AnyChange(sg: set<string>, changes: seq<Change>) {
    exists c :: c in changes && c.nodename in sg
  }

  /** a was added to the inputs of some node of the component. */
  ghost predicate NewInput(sg: set<string>, changes: seq<Change>, a: string) {
    exists c :: c in changes && c.nodename in sg && c.kind == INPUT_ADDED && c.detail == a
  }

  /** Information about every node of the component and every input added to one;
      anything missing is a KeyError in the original. */
  ghost predicate Informed(sg: set<string>, changes: seq<Change>, infos: Infos) {
    && sg <= infos.Keys
    && forall c :: c in changes && c.nodename in sg && c.kind == INPUT_ADDED ==> c.detail in infos
  }

  ghost predicate NoCheckpoint(sg: set<string>, infos: Infos)
    requires sg <= infos.Keys
  {
    forall n :: n in sg ==> infos[n].checkpoint.None?
  }

  ghost predicate OneCheckpoint(sg: set<string>, infos: Infos)
    requires sg <= infos.Keys
  {
    forall n, m :: n in sg && m in sg ==> infos[n].checkpoint == infos[m].checkpoint
  }

  function SourcesAt(sg: set<string>, infos: Infos, q: Option<string>): set<string>
    requires sg <= infos.Keys
  {
    set n | n in sg && infos[n].checkpoint == q && infos[n].isSource
  }

  /** A checkpoint held in the component that as many sources hold as any other. */
  ghost predicate IsQuorum(sg: set<string>, infos: Infos, q: string)
    requires sg <= infos.Keys
  {
    && (exists n :: n in sg && infos[n].checkpoint == Some(q))
    && forall n :: n in sg && infos[n].checkpoint.Some? ==>
         |SourcesAt(sg, infos, infos[n].checkpoint)| <= |SourcesAt(sg, infos, Some(q))|
  }

  ghost predicate Invalid(changes: seq<Change>, infos: Infos, q: string, n: string)
    requires n in infos
  {
    || (infos[n].checkpoint != Some(q) && infos[n].checkpoint != None)
    || (infos[n].checkpoint.None? && !Changed(changes, n, ADDED))
    || Changed(changes, n, INPUT_DELETED)
  }

  ghost predicate AnyInvalid(sg: set<string>, changes: seq<Change>, infos: Infos, q: string)
    requires sg <= infos.Keys
  {
    exists n :: n in sg && Invalid(changes, infos, q, n)
  }

  /** Only sources were added, as nodes or as inputs. */
  ghost predicate OnlySourcesAdded(sg: set<string>, changes: seq<Change>, infos: Infos)
    requires Informed(sg, changes, infos)
  {
    && (forall n :: n in sg && Changed(changes, n, ADDED) ==> infos[n].isSource)
    && (forall a :: NewInput(sg, changes, a) ==> infos[a].isSource)
  }

  ghost function KeepSources(infos: Infos, q: string, n: string): Command
    requires n in infos
  {
    if infos[n].isSource && infos[n].checkpoint == Some(q) then Rebuild else Reset
  }

  ghost function DecideAt(sg: set<string>, changes: seq<Change>, infos: Infos, q: string, n: string): Command
    requires Informed(sg, changes, infos) && n in sg
  {
    if AnyInvalid(sg, changes, infos, q) then
      if Invalid(changes, infos, q, n) then Reset else KeepSources(infos, q, n)
    else if OnlySourcesAdded(sg, changes, infos) then
      if Changed(changes, n, ADDED) then Reset
      else if NewInput(sg, changes, n) then Rebuild
      else Initialize
    else KeepSources(infos, q, n)
  }

  ghost function Decide(sg: set<string>, changes: seq<Change>, infos: Infos, q: string, n: string): Command
    requires Informed(sg, changes, infos) && n in sg
  {
    if NoCheckpoint(sg, infos) then Reset
    else if OneCheckpoint(sg, infos) && !AnyChange(sg, changes) then Initialize
    else DecideAt(sg, changes, infos, q, n)
  }

  ghost predicate PlanFor(sg: set<string>, changes: seq<Change>, infos: Infos, q: string, plan: map<string, Command>)
    requires Informed(sg, changes, infos) && sg <= plan.Keys
  {
    && (NoCheckpoint(sg, infos) || IsQuorum(sg, infos, q))
    && forall n :: n in sg ==> plan[n] == Decide(sg, changes, infos, q, n)
  }

  /** A plan the component can get; ties between checkpoints may break either way. */
  ghost predicate IsPlan(sg: set<string>, changes: seq<Change>, infos: Infos, plan: map<string, Command>)
    requires Informed(sg, changes, infos)
  {
    sg <= plan.Keys && exists q :: PlanFor(sg, changes, infos, q, plan)
  }

  // ---------- the planner ----------

  /** checkpoints[c]: the nodes that hold c, and how many of them are sources. */
  datatype CheckpointNodes = CheckpointNodes(nodes: set<string>, numSources: nat)
  type Checkpoints = map<Option<string>, CheckpointNodes>

  function NodesAt(sg: set<string>, infos: Infos, c: Option<string>): set<string>
    requires sg <= infos.Keys
  {
    set n | n in sg && infos[n].checkpoint == c
  }

  ghost predicate IsGroup(cn: CheckpointNodes, sg: set<string>, infos: Infos, c: Option<string>)
    requires sg <= infos.Keys
  {
    cn.nodes == NodesAt(sg, infos, c) && cn.nodes != {} && cn.numSources == |SourcesAt(sg, infos, c)|
  }

  ghost predicate Groups(checkpoints: Checkpoints, sg: set<string>, infos: Infos)
    requires sg <= infos.Keys
  {
    && (forall n :: n in sg ==> infos[n].checkpoint in checkpoints)
    && (forall c :: c in checkpoints ==> IsGroup(checkpoints[c], sg, infos, c))
  }

  function Enter(checkpoints: Checkpoints, n: string, info: NodeInfo): Checkpoints {
    var c := info.checkpoint;
    var old_ := if c in checkpoints then checkpoints[c] else CheckpointNodes({}, 0);
    checkpoints[c := CheckpointNodes(old_.nodes + {n}, if info.isSource then old_.numSources + 1 else old_.numSources)]
  }

  method GroupByCheckpoint(sg: set<string>, infos: Infos) returns (checkpoints: Checkpoints)
    requires sg <= infos.Keys
    ensures Groups(checkpoints, sg, infos)
  {
    checkpoints := map[];
    var todo := sg;
    ghost var done: set<string> := {};
    while todo != {}
      invariant todo !! done && todo + done == sg
      invariant Groups(checkpoints, done, infos)
    {
      var n :| n in todo;
      GroupsGrow(checkpoints, done, infos, n);
      checkpoints := Enter(checkpoints, n, infos[n]);
      todo := todo - {n};
      done := done + {n};
    }
    assert done == sg;
  }

  lemma GroupsGrow(checkpoints: Checkpoints, done: set<string>, infos: Infos, n: string)
    requires done <= infos.Keys && n in infos && n !in done && Groups(checkpoints, done, infos)
    ensures Groups(Enter(checkpoints, n, infos[n]), done + {n}, infos)
  {
    var after := Enter(checkpoints, n, infos[n]);
    forall c | c in after ensures IsGroup(after[c], done + {n}, infos, c) {
      if c == infos[n].checkpoint {
        OwnGroupGrows(checkpoints, done, infos, n);
      } else {
        OtherGroupStays(checkpoints[c], done, infos, n, c);
      }
    }
  }

  lemma OwnGroupGrows(checkpoints: Checkpoints, done: set<string>, infos: Infos, n: string)
    requires done <= infos.Keys && n in infos && n !in done && Groups(checkpoints, done, infos)
    ensures var chkp := infos[n].checkpoint; IsGroup(Enter(checkpoints, n, infos[n])[chkp], done + {n}, infos, chkp)
  {
    var chkp := infos[n].checkpoint;
    GroupGrows(done, infos, n, chkp);
    if chkp !in checkpoints {
      assert SourcesAt(done, infos, chkp) == {} == NodesAt(done, infos, chkp);
    } else {
      assert IsGroup(checkpoints[chkp], done, infos, chkp);
    }
  }

  lemma OtherGroupStays(group: CheckpointNodes, done: set<string>, infos: Infos, n: string, c: Option<string>)
    requires done <= infos.Keys && n in infos && infos[n].checkpoint != c && IsGroup(group, done, infos, c)
    ensures IsGroup(group, done + {n}, infos, c)
  {
    assert SourcesAt(done + {n}, infos, c) == SourcesAt(done, infos, c);
    assert NodesAt(done + {n}, infos, c) == NodesAt(done, infos, c);
  }

  lemma GroupGrows(sg: set<string>, infos: Infos, n: string, c: Option<string>)
    requires sg <= infos.Keys && n in infos && n !in sg && infos[n].checkpoint == c
    ensures |SourcesAt(sg + {n}, infos, c)| == |SourcesAt(sg, infos, c)| + if infos[n].isSource then 1 else 0
    ensures NodesAt(sg + {n}, infos, c) == NodesAt(sg, infos, c) + {n}
  {
    assert SourcesAt(sg + {n}, infos, c) == SourcesAt(sg, infos, c) + if infos[n].isSource then {n} else {};
  }

  /** The head of the checkpoints sorted by their number of sources. */
  method MostCommon(checkpoints: Checkpoints, ghost sg: set<string>, ghost infos: Infos) returns (q: string)
    requires sg <= infos.Keys && Groups(checkpoints, sg, infos) && !NoCheckpoint(sg, infos)
    ensures IsQuorum(sg, infos, q)
  {
    var todo := checkpoints.Keys - {None};
    ghost var someone :| someone in sg && infos[someone].checkpoint.Some?;
    assert infos[someone].checkpoint in todo;
    var best :| best in todo;
    todo := todo - {best};
    while todo != {}
      invariant todo <= checkpoints.Keys - {None} && best in checkpoints && best.Some?
      invariant forall c :: c in checkpoints && c != None && c !in todo ==>
        checkpoints[c].numSources <= checkpoints[best].numSources
    {
      var c :| c in todo;
      todo := todo - {c};
      if checkpoints[c].numSources > checkpoints[best].numSources {
        best := c;
      }
    }
    q := best.value;
    forall n | n in sg && infos[n].checkpoint.Some?
      ensures |SourcesAt(sg, infos, infos[n].checkpoint)| <= |SourcesAt(sg, infos, Some(q))|
    {
      assert checkpoints[infos[n].checkpoint].numSources <= checkpoints[best].numSources;
    }
  }

  method HasChange(changes: seq<Change>, n: string, kind: Kind) returns (found: bool)
    ensures found <==> Changed(changes, n, kind)
  {
    for k := 0 to |changes|
      invariant forall j :: 0 <= j < k ==> !(changes[j].nodename == n && changes[j].kind == kind)
    {
      if changes[k].nodename == n && changes[k].kind == kind {
        return true;
      }
    }
    found := false;
  }

  method FindInvalid(sg: set<string>, changes: seq<Change>, infos: Infos, checkpoints: Checkpoints, q: string)
    returns (invalid: set<string>)
    requires sg <= infos.Keys && Groups(checkpoints, sg, infos) && Some(q) in checkpoints
    ensures invalid == set n | n in sg && Invalid(changes, infos, q, n)
  {
    invalid := {};
    var todo := sg;
    while todo != {}
      invariant todo <= sg
      invariant invalid == set n | n in sg - todo && Invalid(changes, infos, q, n)
    {
      var n :| n in todo;
      todo := todo - {n};
      var atNone := None in checkpoints && n in checkpoints[None].nodes;
      if n !in checkpoints[Some(q)].nodes && !atNone {
        invalid := invalid + {n};
        continue;
      }
      var added := HasChange(changes, n, ADDED);
      if !added && atNone {
        invalid := invalid + {n};
        continue;
      }
      var ideleted := HasChange(changes, n, INPUT_DELETED);
      if ideleted {
        invalid := invalid + {n};
      }
    }
  }

  /** The two passes over the changes: added nodes, and inputs added to nodes. */
  method FindAdded(sg: set<string>, changes: seq<Change>, infos: Infos)
    returns (onlySources: bool, addedNodes: set<string>, addedInputs: set<string>)
    requires Informed(sg, changes, infos)
    ensures onlySources <==> OnlySourcesAdded(sg, changes, infos)
    ensures onlySources ==> addedNodes == set n | n in sg && Changed(changes, n, ADDED)
    ensures forall a :: a in addedInputs <==> NewInput(sg, changes, a)
  {
    onlySources, addedNodes, addedInputs := true, {}, {};
    var todo := sg;
    while todo != {}
      invariant todo <= sg && onlySources
      invariant addedNodes == set n | n in sg - todo && Changed(changes, n, ADDED)
      invariant forall n :: n in addedNodes ==> infos[n].isSource
    {
      var n :| n in todo;
      todo := todo - {n};
      var added := HasChange(changes, n, ADDED);
      if added {
        if !infos[n].isSource {
          onlySources := false;
          assert Changed(changes, n, ADDED);
          break;
        }
        addedNodes := addedNodes + {n};
      }
    }
    ghost var nodesOnly := onlySources;
    assert onlySources ==> forall n :: n in sg && Changed(changes, n, ADDED) ==> n in addedNodes;
    for k := 0 to |changes|
      invariant forall a :: a in addedInputs <==> NewInput(sg, changes[..k], a)
      invariant onlySources <==> nodesOnly && forall a :: a in addedInputs ==> infos[a].isSource
      invariant forall a :: a in addedInputs ==> a in infos
    {
      var c := changes[k];
      assert changes[..k + 1] == changes[..k] + [c];
      if c.nodename in sg && c.kind == INPUT_ADDED {
        if !infos[c.detail].isSource {
          onlySources := false;
        }
        addedInputs := addedInputs + {c.detail};
        assert NewInput(sg, changes[..k + 1], c.detail);
      }
      forall a | NewInput(sg, changes[..k], a) ensures NewInput(sg, changes[..k + 1], a) {
        var d :| d in changes[..k] && d.nodename in sg && d.kind == INPUT_ADDED && d.detail == a;
        assert d in changes[..k + 1];
      }
    }
    assert changes[..|changes|] == changes;
  }

  method PlanSubgraph(sg: set<string>, changes: seq<Change>, infos: Infos) returns (plan: map<string, Command>)
    requires Informed(sg, changes, infos)
    ensures plan.Keys == sg && IsPlan(sg, changes, infos, plan)
  {
    var checkpoints := GroupByCheckpoint(sg, infos);
    if sg != {} {
      SizesMean(checkpoints, sg, infos);
    } else {
      assert checkpoints == map[];
    }
    if |checkpoints| == 1 && None in checkpoints {
      plan := map n | n in sg :: Reset;
      assert PlanFor(sg, changes, infos, "", plan);
      return;
    }
    var changed := false;
    for k := 0 to |changes|
      invariant changed <==> exists j :: 0 <= j < k && changes[j].nodename in sg
    {
      if changes[k].nodename in sg {
        changed := true;
      }
    }
    assert changed <==> AnyChange(sg, changes);
    if sg == {} {
      plan := map[];
      assert PlanFor(sg, changes, infos, "", plan);
      return;
    }
    var q := MostCommon(checkpoints, sg, infos);
    if |checkpoints| == 1 && !changed {
      plan := map n | n in sg :: Initialize;
      assert PlanFor(sg, changes, infos, q, plan);
      return;
    }
    plan := PlanAtQuorum(sg, changes, infos, checkpoints, q);
    assert PlanFor(sg, changes, infos, q, plan);
  }

  method PlanAtQuorum(sg: set<string>, changes: seq<Change>, infos: Infos, checkpoints: Checkpoints, q: string)
    returns (plan: map<string, Command>)
    requires Informed(sg, changes, infos) && Groups(checkpoints, sg, infos) && Some(q) in checkpoints
    ensures plan.Keys == sg
    ensures forall n :: n in sg ==> plan[n] == DecideAt(sg, changes, infos, q, n)
  {
    var holders := checkpoints[Some(q)].nodes;
    assert IsGroup(checkpoints[Some(q)], sg, infos, Some(q));
    var invalid := FindInvalid(sg, changes, infos, checkpoints, q);
    if |invalid| > 0 {
      var n :| n in invalid;
      assert Invalid(changes, infos, q, n);
      plan := map n | n in sg ::
        if n in invalid || !infos[n].isSource || n !in holders then Reset else Rebuild;
      return;
    }
    assert invalid == {};
    assert forall n :: n in sg && Invalid(changes, infos, q, n) ==> n in invalid;
    var initFlag, addedNodes, addedInputs := FindAdded(sg, changes, infos);
    if initFlag {
      plan := map n | n in sg ::
        if n in addedNodes then Reset else if n in addedInputs then Rebuild else Initialize;
    } else {
      plan := map n | n in sg :: if !infos[n].isSource || n !in holders then Reset else Rebuild;
    }
  }

  lemma SizesMean(checkpoints: Checkpoints, sg: set<string>, infos: Infos)
    requires sg <= infos.Keys && Groups(checkpoints, sg, infos) && sg != {}
    ensures |checkpoints| == 1 <==> OneCheckpoint(sg, infos)
    ensures |checkpoints| == 1 && None in checkpoints <==> NoCheckpoint(sg, infos)
  {
    var n :| n in sg;
    var c := infos[n].checkpoint;
    assert c in checkpoints.Keys && |checkpoints.Keys| == |checkpoints|;
    if |checkpoints| == 1 {
      Singleton(checkpoints.Keys, c);
      assert forall m :: m in sg ==> infos[m].checkpoint in checkpoints.Keys;
    }
    if OneCheckpoint(sg, infos) {
      assert checkpoints.Keys == {c};
    }
  }

  lemma Singleton<T>(s: set<T>, x: T)
    requires |s| == 1 && x in s
    ensures s == {x}
  {
    assert |s - {x}| == 0;
  }
}
