/** What every start-up plan satisfies, for any checkpoints, any changes and any tie-break. */
module PlannerTheorems {
  import opened Options
  import opened Commands
  import opened Graphs
  import opened StartupPlanner

  /** A loaded configuration only reports as added inputs that nodes really have. */
  ghost predicate TrueChanges(g: Inputs, changes: seq<Change>) {
    forall c :: c in changes && c.kind == INPUT_ADDED && c.nodename in g ==> c.detail in g[c.nodename]
  }

  ghost predicate Planned(sg: set<string>, changes: seq<Change>, infos: Infos, plan: map<string, Command>) {
    Informed(sg, changes, infos) && InputsInside(sg, changes) && IsPlan(sg, changes, infos, plan)
  }

  /** graph joins the nodes as their inputs do, cs are its components, and each
      component is planned on its own. */
  ghost predicate PlannedBy(g: Inputs, changes: seq<Change>, infos: Infos, plan: map<string, Command>,
                            graph: Adjacency, cs: seq<set<string>>) {
    && graph.Keys == g.Keys && Represents(graph, g.Keys, Edges(g)) && Components(graph, cs)
    && forall i :: 0 <= i < |cs| ==> Planned(cs[i], changes, infos, plan)
  }

  /** `plan`: every node of the graph gets the command of its own component. */
  method Plan(g: Inputs, changes: seq<Change>, infos: Infos) returns (plan: map<string, Command>)
    requires Closed(g) && g.Keys <= infos.Keys && TrueChanges(g, changes)
    ensures plan.Keys == g.Keys
    ensures exists graph, cs :: PlannedBy(g, changes, infos, plan, graph, cs)
  {
    var graph := BuildGraph(g);
    RepresentsIsSymmetric(graph, g.Keys, Edges(g));
    ClosedNames(g, graph);
    var components := WeaklyConnectedComponents(graph);
    forall i | 0 <= i < |components|
      ensures Informed(components[i], changes, infos) && InputsInside(components[i], changes)
    {
      BlockIsInformed(g, graph, components[i], changes, infos);
    }
    plan := PlanAll(components, changes, infos, g.Keys);
    assert PlannedBy(g, changes, infos, plan, graph, components);
  }

  method PlanAll(cs: seq<set<string>>, changes: seq<Change>, infos: Infos, ghost names: set<string>)
    returns (plan: map<string, Command>)
    requires Partition(names, cs)
    requires forall i :: 0 <= i < |cs| ==> Informed(cs[i], changes, infos) && InputsInside(cs[i], changes)
    ensures plan.Keys == names
    ensures forall i :: 0 <= i < |cs| ==> Planned(cs[i], changes, infos, plan)
  {
    plan := map[];
    for i := 0 to |cs|
      invariant forall n :: n in plan <==> exists j :: 0 <= j < i && n in cs[j]
      invariant forall j :: 0 <= j < i ==> Planned(cs[j], changes, infos, plan)
    {
      var part := PlanSubgraph(cs[i], changes, infos);
      PlanGrows(changes, infos, plan, part, cs, i);
      plan := plan + part;
    }
    assert forall n :: n in plan <==> n in names;
  }

  lemma PlanGrows(changes: seq<Change>, infos: Infos, plan: map<string, Command>, part: map<string, Command>,
                  cs: seq<set<string>>, i: nat)
    requires i < |cs| && part.Keys == cs[i] && Planned(cs[i], changes, infos, part)
    requires forall j :: 0 <= j < i ==> Planned(cs[j], changes, infos, plan) && cs[j] !! cs[i]
    requires forall n :: n in plan <==> exists j :: 0 <= j < i && n in cs[j]
    ensures forall n :: n in plan + part <==> exists j :: 0 <= j < i + 1 && n in cs[j]
    ensures forall j :: 0 <= j < i + 1 ==> Planned(cs[j], changes, infos, plan + part)
  {
    forall j | 0 <= j < i ensures Planned(cs[j], changes, infos, plan + part) {
      SamePlan(cs[j], changes, infos, plan, plan + part);
    }
    SamePlan(cs[i], changes, infos, part, plan + part);
    forall n | n in plan + part ensures exists j :: 0 <= j < i + 1 && n in cs[j] {
      if n in plan {
        var j :| 0 <= j < i && n in cs[j];
        assert j < i + 1;
      }
    }
  }

  lemma SamePlan(sg: set<string>, changes: seq<Change>, infos: Infos, p: map<string, Command>, p': map<string, Command>)
    requires Informed(sg, changes, infos) && IsPlan(sg, changes, infos, p)
    requires sg <= p'.Keys && forall n :: n in sg ==> p'[n] == p[n]
    ensures IsPlan(sg, changes, infos, p')
  {
    var q :| PlanFor(sg, changes, infos, q, p);
    assert PlanFor(sg, changes, infos, q, p');
  }

  lemma ClosedNames(g: Inputs, graph: Adjacency)
    requires Closed(g) && Represents(graph, g.Keys, Edges(g))
    ensures graph.Keys == g.Keys
  {
    forall x, y | Joined(Edges(g), x, y) ensures x in g {
      if (y, x) in Edges(g) {
        var k :| 0 <= k < |g[y]| && g[y][k] == x;
      }
    }
  }

  /** Inputs added to nodes of the component lie in the component. */
  ghost predicate InputsInside(sg: set<string>, changes: seq<Change>) {
    forall c :: c in changes && c.nodename in sg && c.kind == INPUT_ADDED ==> c.detail in sg
  }

  lemma BlockIsInformed(g: Inputs, graph: Adjacency, c: set<string>, changes: seq<Change>, infos: Infos)
    requires Closed(g) && g.Keys <= infos.Keys && TrueChanges(g, changes)
    requires Represents(graph, g.Keys, Edges(g)) && graph.Keys == g.Keys && IsComponent(graph, c)
    ensures Informed(c, changes, infos) && InputsInside(c, changes)
  {
    forall d | d in changes && d.nodename in c && d.kind == INPUT_ADDED ensures d.detail in c {
      assert (d.nodename, d.detail) in Edges(g);
      assert Joined(Edges(g), d.nodename, d.detail);
      assert d.detail in graph[d.nodename];
    }
  }

  // ---------- the whole decision ----------

  /** Every node holds q or is new and holds nothing, none lost an input, some node
      holds q, and all that was added, as a node or as an input, is a source. */
  ghost predicate ConsumersKept(sg: set<string>, changes: seq<Change>, infos: Infos, q: string)
    requires Informed(sg, changes, infos)
  {
    && (exists n :: n in sg && infos[n].checkpoint == Some(q))
    && (forall n :: n in sg ==>
          && (infos[n].checkpoint == Some(q) || (infos[n].checkpoint == None && Changed(changes, n, ADDED)))
          && !Changed(changes, n, INPUT_DELETED)
          && (Changed(changes, n, ADDED) ==> infos[n].isSource))
    && (forall c :: c in changes && c.nodename in sg && c.kind == INPUT_ADDED ==> infos[c.detail].isSource)
  }

  ghost function ExactCommand(sg: set<string>, changes: seq<Change>, infos: Infos, q: string, n: string): Command
    requires Informed(sg, changes, infos) && n in sg
  {
    if ConsumersKept(sg, changes, infos, q) then
      if Changed(changes, n, ADDED) then Reset
      else if NewInput(sg, changes, n) then Rebuild
      else Initialize
    else if infos[n].isSource && infos[n].checkpoint == Some(q) && !Changed(changes, n, INPUT_DELETED) then Rebuild
    else Reset
  }

  /** No checkpoint is held by more of the component's sources than q, and q is held
      where any is. */
  ghost predicate Outvotes(sg: set<string>, infos: Infos, q: string)
    requires sg <= infos.Keys
  {
    && ((exists n :: n in sg && infos[n].checkpoint != None) ==>
          exists n :: n in sg && infos[n].checkpoint == Some(q))
    && forall c: string :: |set s | s in sg && infos[s].isSource && infos[s].checkpoint == Some(c)|
                        <= |set s | s in sg && infos[s].isSource && infos[s].checkpoint == Some(q)|
  }

  ghost predicate ExactPlan(sg: set<string>, changes: seq<Change>, infos: Infos, plan: map<string, Command>, q: string)
    requires Informed(sg, changes, infos)
  {
    && sg <= plan.Keys && Outvotes(sg, infos, q)
    && forall n :: n in sg ==> plan[n] == ExactCommand(sg, changes, infos, q, n)
  }

  lemma OutvotesIsQuorum(sg: set<string>, infos: Infos, q: string)
    requires sg <= infos.Keys
    ensures Outvotes(sg, infos, q) <==> NoCheckpoint(sg, infos) || IsQuorum(sg, infos, q)
  {
    forall c: string
      ensures (set s | s in sg && infos[s].isSource && infos[s].checkpoint == Some(c)) == SourcesAt(sg, infos, Some(c))
    {
    }
    if NoCheckpoint(sg, infos) {
      assert forall c: string :: SourcesAt(sg, infos, Some(c)) == {};
    } else if IsQuorum(sg, infos, q) {
      forall c: string ensures |SourcesAt(sg, infos, Some(c))| <= |SourcesAt(sg, infos, Some(q))| {
        if n :| n in SourcesAt(sg, infos, Some(c)) {
          assert infos[n].checkpoint == Some(c);
        } else {
          assert SourcesAt(sg, infos, Some(c)) == {};
        }
      }
    } else if Outvotes(sg, infos, q) {
      forall n | n in sg && infos[n].checkpoint.Some?
        ensures |SourcesAt(sg, infos, infos[n].checkpoint)| <= |SourcesAt(sg, infos, Some(q))|
      {
        assert infos[n].checkpoint == Some(infos[n].checkpoint.value);
      }
      assert false;
    }
  }

  lemma KeptMeans(sg: set<string>, changes: seq<Change>, infos: Infos, q: string)
    requires Informed(sg, changes, infos) && exists n :: n in sg && infos[n].checkpoint == Some(q)
    ensures ConsumersKept(sg, changes, infos, q) <==>
            !AnyInvalid(sg, changes, infos, q) && OnlySourcesAdded(sg, changes, infos)
  {
    if ConsumersKept(sg, changes, infos, q) {
      assert forall n :: n in sg ==> !Invalid(changes, infos, q, n);
    } else if !AnyInvalid(sg, changes, infos, q) {
      assert forall n :: n in sg ==> !Invalid(changes, infos, q, n);
      if c :| c in changes && c.nodename in sg && c.kind == INPUT_ADDED && !infos[c.detail].isSource {
        assert NewInput(sg, changes, c.detail);
      }
    }
  }

  lemma SameCommand(sg: set<string>, changes: seq<Change>, infos: Infos, q: string, n: string)
    requires Informed(sg, changes, infos) && n in sg
    requires !NoCheckpoint(sg, infos) ==> IsQuorum(sg, infos, q)
    ensures Decide(sg, changes, infos, q, n) == ExactCommand(sg, changes, infos, q, n)
  {
    if !NoCheckpoint(sg, infos) {
      KeptMeans(sg, changes, infos, q);
      if !ConsumersKept(sg, changes, infos, q) && !AnyInvalid(sg, changes, infos, q) {
        assert !Invalid(changes, infos, q, n);
      }
      if OneCheckpoint(sg, infos) && !AnyChange(sg, changes) {
        UnchangedIsKept(sg, changes, infos, q, n);
      }
    }
  }

  lemma UnchangedIsKept(sg: set<string>, changes: seq<Change>, infos: Infos, q: string, n: string)
    requires Informed(sg, changes, infos) && n in sg && IsQuorum(sg, infos, q)
    requires OneCheckpoint(sg, infos) && !AnyChange(sg, changes)
    ensures ExactCommand(sg, changes, infos, q, n) == Initialize
  {
    assert forall m :: m in sg ==> infos[m].checkpoint == Some(q);
    assert forall m, k :: m in sg ==> !Changed(changes, m, k);
    assert !NewInput(sg, changes, n);
  }

  /** What a plan is, in full. For a checkpoint q that no other outvotes among the sources: if the
      consumers are kept, new nodes are reset, newly wired inputs rebuilt and all
      others initialized; if not, sources that hold q and lost no input are rebuilt
      and all others reset. */
  lemma PlanExactly(sg: set<string>, changes: seq<Change>, infos: Infos, plan: map<string, Command>)
    requires Informed(sg, changes, infos)
    ensures IsPlan(sg, changes, infos, plan) <==> exists q :: ExactPlan(sg, changes, infos, plan, q)
  {
    if IsPlan(sg, changes, infos, plan) {
      var q :| PlanFor(sg, changes, infos, q, plan);
      OutvotesIsQuorum(sg, infos, q);
      forall n | n in sg ensures plan[n] == ExactCommand(sg, changes, infos, q, n) {
        SameCommand(sg, changes, infos, q, n);
      }
      assert ExactPlan(sg, changes, infos, plan, q);
    }
    if q :| ExactPlan(sg, changes, infos, plan, q) {
      OutvotesIsQuorum(sg, infos, q);
      forall n | n in sg ensures plan[n] == Decide(sg, changes, infos, q, n) {
        SameCommand(sg, changes, infos, q, n);
      }
      assert PlanFor(sg, changes, infos, q, plan);
    }
  }

  ghost predicate GoodSource(sg: set<string>, changes: seq<Change>, infos: Infos, q: string, s: string)
    requires sg <= infos.Keys
  {
    && s in sg && infos[s].isSource && infos[s].checkpoint == Some(q)
    && !Changed(changes, s, ADDED) && !Changed(changes, s, INPUT_DELETED)
  }

  /** A source at the plan's quorum that is not new and lost no input is never reset; it is rebuilt
      where some consumer takes it as a new input and keeps its own state. */
  lemma SourcesAreKept(sg: set<string>, changes: seq<Change>, infos: Infos, plan: map<string, Command>)
    returns (q: string)
    requires Informed(sg, changes, infos) && IsPlan(sg, changes, infos, plan)
    ensures Outvotes(sg, infos, q)
    ensures forall s :: GoodSource(sg, changes, infos, q, s) ==>
              plan[s] != Reset && (NewInput(sg, changes, s) ==> plan[s] == Rebuild)
    ensures SomeConsumer(sg, infos, plan, Initialize) ==>
              forall s :: s in sg && NewInput(sg, changes, s) && !Changed(changes, s, ADDED) ==> plan[s] == Rebuild
    ensures forall n :: n in sg && !infos[n].isSource ==>
              (plan[n] == Initialize <==> ConsumersKept(sg, changes, infos, q) && !NewInput(sg, changes, n))
  {
    PlanExactly(sg, changes, infos, plan);
    q :| ExactPlan(sg, changes, infos, plan, q);
  }

  // ---------- agreement ----------

  /** Every node that is not reset holds q, and q has the quorum. */
  ghost predicate KeptHold(sg: set<string>, infos: Infos, plan: map<string, Command>, q: string)
    requires sg <= infos.Keys && sg <= plan.Keys
  {
    forall n :: n in sg && plan[n] != Reset ==> infos[n].checkpoint == Some(q) && IsQuorum(sg, infos, q)
  }

  /** The nodes not reset all hold one checkpoint, which no other outvotes among
      the sources; only sources are rebuilt; the other nodes go all one way. */
  lemma PlanAgreement(sg: set<string>, changes: seq<Change>, infos: Infos, plan: map<string, Command>)
    requires Informed(sg, changes, infos) && IsPlan(sg, changes, infos, plan)
    ensures exists q :: KeptHold(sg, infos, plan, q)
    ensures forall n :: n in sg && plan[n] == Rebuild ==> infos[n].isSource
    ensures (forall n :: n in sg && !infos[n].isSource ==> plan[n] == Initialize)
         || (forall n :: n in sg && !infos[n].isSource ==> plan[n] == Reset)
  {
    var q :| PlanFor(sg, changes, infos, q, plan);
    assert forall n :: n in sg && infos[n].checkpoint.None? ==>
           Invalid(changes, infos, q, n) || Changed(changes, n, ADDED);
    forall n | n in sg && plan[n] != Reset
      ensures infos[n].checkpoint == Some(q) && IsQuorum(sg, infos, q)
    {
      if OneCheckpoint(sg, infos) {
        assert exists m :: m in sg && infos[m].checkpoint == Some(q);
      }
    }
    assert KeptHold(sg, infos, plan, q);
  }

  /** A node without a checkpoint is always reset. */
  lemma NoCheckpointIsReset(sg: set<string>, changes: seq<Change>, infos: Infos, plan: map<string, Command>, n: string)
    requires Informed(sg, changes, infos) && IsPlan(sg, changes, infos, plan)
    requires n in sg && infos[n].checkpoint.None?
    ensures plan[n] == Reset
  {
    PlanAgreement(sg, changes, infos, plan);
  }

  /** One node that lost its checkpoint, and is not new, resets every consumer of its component. */
  lemma LostCheckpointResetsConsumers(sg: set<string>, changes: seq<Change>, infos: Infos,
                                      plan: map<string, Command>, lost: string, n: string)
    requires Informed(sg, changes, infos) && IsPlan(sg, changes, infos, plan)
    requires lost in sg && infos[lost].checkpoint.None? && !Changed(changes, lost, ADDED)
    requires n in sg && !infos[n].isSource
    ensures plan[n] == Reset
  {
    var q :| PlanFor(sg, changes, infos, q, plan);
    assert Invalid(changes, infos, q, lost);
  }

  // ---------- nothing is missed ----------

  ghost predicate SomeConsumer(sg: set<string>, infos: Infos, plan: map<string, Command>, c: Command)
    requires sg <= infos.Keys && sg <= plan.Keys
  {
    exists n :: n in sg && !infos[n].isSource && plan[n] == c
  }

  /** A consumer that starts empty is not left with a source that will not
      send again, and a consumer that keeps its state has missed nothing: no input of the
      component was taken away, all that was added are sources, and a source
      newly wired as an input sends everything again or starts from scratch. */
  lemma PlanMissesNothing(sg: set<string>, changes: seq<Change>, infos: Infos, plan: map<string, Command>)
    requires Informed(sg, changes, infos) && InputsInside(sg, changes) && IsPlan(sg, changes, infos, plan)
    ensures SomeConsumer(sg, infos, plan, Reset) ==> forall s :: s in sg ==> plan[s] != Initialize
    ensures SomeConsumer(sg, infos, plan, Initialize) ==>
      && (forall m :: m in sg ==> !Changed(changes, m, INPUT_DELETED))
      && (forall m :: m in sg && Changed(changes, m, ADDED) ==> infos[m].isSource && plan[m] == Reset)
      && (forall a :: NewInput(sg, changes, a) ==> a in sg && infos[a].isSource && plan[a] != Initialize)
  {
    var q :| PlanFor(sg, changes, infos, q, plan);
    if !AnyChange(sg, changes) {
      assert forall m, k :: m in sg ==> !Changed(changes, m, k);
      assert forall a :: !NewInput(sg, changes, a);
    }
    if AnyInvalid(sg, changes, infos, q) {
    } else {
      assert forall m :: m in sg ==> !Invalid(changes, infos, q, m);
    }
  }

  // ---------- unchanged graphs ----------

  ghost predicate Untouched(sg: set<string>, changes: seq<Change>) {
    forall n :: n in sg ==>
      !Changed(changes, n, ADDED) && !Changed(changes, n, INPUT_DELETED) && !Changed(changes, n, INPUT_ADDED)
  }

  /** Everything is merely initialized exactly when all the nodes hold one
      checkpoint and none of them is new or has gained or lost an input. */
  lemma AllInitializedExactly(sg: set<string>, changes: seq<Change>, infos: Infos, plan: map<string, Command>)
    requires Informed(sg, changes, infos) && InputsInside(sg, changes) && IsPlan(sg, changes, infos, plan) && sg != {}
    ensures (forall n :: n in sg ==> plan[n] == Initialize)
       <==> OneCheckpoint(sg, infos) && !NoCheckpoint(sg, infos) && Untouched(sg, changes)
  {
    var q :| PlanFor(sg, changes, infos, q, plan);
    if forall n :: n in sg ==> plan[n] == Initialize {
      PlanAgreement(sg, changes, infos, plan);
      AllInitializedUntouched(sg, changes, infos, plan, q);
    }
    if OneCheckpoint(sg, infos) && !NoCheckpoint(sg, infos) && Untouched(sg, changes) {
      UntouchedInitializes(sg, changes, infos, q);
    }
  }

  lemma AllInitializedUntouched(sg: set<string>, changes: seq<Change>, infos: Infos, plan: map<string, Command>,
                                q: string)
    requires Informed(sg, changes, infos) && InputsInside(sg, changes) && PlanForAll(sg, changes, infos, plan, q)
    requires sg != {} && forall n :: n in sg ==> plan[n] == Initialize
    ensures Untouched(sg, changes)
  {
    forall n | n in sg
      ensures !Changed(changes, n, ADDED) && !Changed(changes, n, INPUT_DELETED) && !Changed(changes, n, INPUT_ADDED)
    {
      assert plan[n] == Initialize;
      if c :| c in changes && c.nodename == n && c.kind == INPUT_ADDED {
        assert NewInput(sg, changes, c.detail) && AnyChange(sg, changes);
        assert false;
      }
      if Changed(changes, n, ADDED) || Changed(changes, n, INPUT_DELETED) {
        assert AnyChange(sg, changes);
        if Changed(changes, n, INPUT_DELETED) {
          assert Invalid(changes, infos, q, n);
        }
        assert false;
      }
    }
  }

  ghost predicate PlanForAll(sg: set<string>, changes: seq<Change>, infos: Infos, plan: map<string, Command>, q: string)
    requires Informed(sg, changes, infos)
  {
    sg <= plan.Keys && PlanFor(sg, changes, infos, q, plan)
  }

  lemma UntouchedInitializes(sg: set<string>, changes: seq<Change>, infos: Infos, q: string)
    requires Informed(sg, changes, infos) && IsQuorum(sg, infos, q)
    requires OneCheckpoint(sg, infos) && !NoCheckpoint(sg, infos) && Untouched(sg, changes)
    ensures forall n :: n in sg ==> Decide(sg, changes, infos, q, n) == Initialize
  {
    var m :| m in sg && infos[m].checkpoint == Some(q);
    assert forall n :: n in sg ==> infos[n].checkpoint == Some(q) && !Invalid(changes, infos, q, n);
    forall c | c in changes && c.nodename in sg ensures c.kind != INPUT_ADDED {
      assert Changed(changes, c.nodename, c.kind);
    }
    assert forall a :: !NewInput(sg, changes, a);
  }

  function AllOrNone(sg: set<string>, infos: Infos, v: string, n: string): Command
    requires sg <= infos.Keys && n in sg
  {
    if forall m :: m in sg ==> infos[m].checkpoint == Some(v) then Initialize
    else if infos[n].isSource && infos[n].checkpoint == Some(v) then Rebuild
    else Reset
  }

  /** With an unchanged configuration and at most one checkpoint about: all or nothing. */
  lemma UnchangedPlan(sg: set<string>, infos: Infos, v: string, plan: map<string, Command>)
    requires Planned(sg, [], infos, plan) && sg != {}
    requires forall n :: n in sg ==> infos[n].checkpoint == None || infos[n].checkpoint == Some(v)
    ensures forall n :: n in sg ==> plan[n] == AllOrNone(sg, infos, v, n)
  {
    var q :| PlanFor(sg, [], infos, q, plan);
    if m :| m in sg && infos[m].checkpoint != Some(v) {
      assert Invalid([], infos, q, m);
      forall n | n in sg ensures plan[n] == KeepSources(infos, v, n) {
        if !NoCheckpoint(sg, infos) {
          assert q == v && !OneCheckpoint(sg, infos);
        }
      }
    } else {
      AllInitializedExactly(sg, [], infos, plan);
    }
  }

  // ---------- locality ----------

  /** The same checkpoints, sources and changes as far as the component is concerned. */
  ghost predicate SameWithin(sg: set<string>, changes: seq<Change>, infos: Infos, changes': seq<Change>, infos': Infos)
    requires sg <= infos.Keys && sg <= infos'.Keys
  {
    && (forall n :: n in sg ==> infos[n] == infos'[n])
    && (forall c: Change :: c.nodename in sg ==> (c in changes <==> c in changes'))
  }

  lemma SameQuestions(sg: set<string>, changes: seq<Change>, infos: Infos, changes': seq<Change>, infos': Infos)
    requires Informed(sg, changes, infos) && Informed(sg, changes', infos')
    requires SameWithin(sg, changes, infos, changes', infos')
    ensures NoCheckpoint(sg, infos) <==> NoCheckpoint(sg, infos')
    ensures OneCheckpoint(sg, infos) <==> OneCheckpoint(sg, infos')
    ensures AnyChange(sg, changes) <==> AnyChange(sg, changes')
    ensures forall n, k :: n in sg ==> (Changed(changes, n, k) <==> Changed(changes', n, k))
    ensures forall a :: NewInput(sg, changes, a) <==> NewInput(sg, changes', a)
  {
    forall n, k | n in sg ensures Changed(changes, n, k) <==> Changed(changes', n, k) {
      if c :| c in changes && c.nodename == n && c.kind == k { assert c in changes'; }
      if c :| c in changes' && c.nodename == n && c.kind == k { assert c in changes; }
    }
    forall a ensures NewInput(sg, changes, a) <==> NewInput(sg, changes', a) {
      if c :| c in changes && c.nodename in sg && c.kind == INPUT_ADDED && c.detail == a { assert c in changes'; }
      if c :| c in changes' && c.nodename in sg && c.kind == INPUT_ADDED && c.detail == a { assert c in changes; }
    }
    if c :| c in changes && c.nodename in sg { assert c in changes'; }
    if c :| c in changes' && c.nodename in sg { assert c in changes; }
  }

  lemma SameQuorum(sg: set<string>, infos: Infos, infos': Infos, q: string)
    requires sg <= infos.Keys && sg <= infos'.Keys && forall n :: n in sg ==> infos[n] == infos'[n]
    ensures IsQuorum(sg, infos, q) ==> IsQuorum(sg, infos', q)
  {
    forall c ensures SourcesAt(sg, infos, c) == SourcesAt(sg, infos', c) {
    }
  }

  lemma SameDecision(sg: set<string>, changes: seq<Change>, infos: Infos, changes': seq<Change>, infos': Infos,
                     q: string, n: string)
    requires Informed(sg, changes, infos) && Informed(sg, changes', infos') && n in sg
    requires InputsInside(sg, changes) && SameWithin(sg, changes, infos, changes', infos')
    ensures Decide(sg, changes, infos, q, n) == Decide(sg, changes', infos', q, n)
  {
    SameQuestions(sg, changes, infos, changes', infos');
    assert forall m :: m in sg ==> (Invalid(changes, infos, q, m) <==> Invalid(changes', infos', q, m));
    assert AnyInvalid(sg, changes, infos, q) <==> AnyInvalid(sg, changes', infos', q);
    assert OnlySourcesAdded(sg, changes, infos) <==> OnlySourcesAdded(sg, changes', infos');
  }

  /** A component's commands depend on nothing outside the component. */
  lemma PlanIsLocal(sg: set<string>, changes: seq<Change>, infos: Infos, changes': seq<Change>, infos': Infos,
                    plan: map<string, Command>)
    requires Informed(sg, changes, infos) && Informed(sg, changes', infos')
    requires InputsInside(sg, changes) && SameWithin(sg, changes, infos, changes', infos')
    ensures IsPlan(sg, changes, infos, plan) ==> IsPlan(sg, changes', infos', plan)
  {
    if IsPlan(sg, changes, infos, plan) {
      var q :| PlanFor(sg, changes, infos, q, plan);
      SameQuestions(sg, changes, infos, changes', infos');
      SameQuorum(sg, infos, infos', q);
      forall n | n in sg ensures plan[n] == Decide(sg, changes', infos', q, n) {
        SameDecision(sg, changes, infos, changes', infos', q, n);
      }
      assert PlanFor(sg, changes', infos', q, plan);
    }
  }
}
