/** Crashes and restarts: a node's checkpoint file across its whole life, and what
    the planner makes of the files left behind. */
module Lifecycle {
  import opened Options
  import opened Commands
  import opened Nodes
  import opened Handlers
  import opened Graphs
  import Barrier
  import BarrierTheorems
  import StartupPlanner
  import PlannerTheorems

  // ---------- one node ----------

  datatype Life<D> =
    | Up(process: Process<D>)
    | Down(file: File, wasRunning: bool, wasWriting: bool)

  datatype Event<D> =
    | BootUp(config: string)
    | ConnectTo(inputs: seq<string>, output: bool)
    | Begin(c: Command)
    | Step
    | StartUp
    | ReceiveFrom(source: string, m: Message<D>, out: seq<Message<D>>)
    | MasterCheckpoint(value: string)
    | StopDown
    | Crash(torn: bool)

  /** What is on disk when the process dies; a file being written may be cut short. */
  function FileLeft<D>(p: Process<D>, torn: bool): File {
    if p.phase.Writing? && torn then Torn else p.node.file
  }

  function Next<D>(l: Life<D>, e: Event<D>): Life<D> {
    match l
    case Down(file, _, _) =>
      if !e.BootUp? then l
      else (match Boot(e.config, file) case None => l case Some(n) => Up(Process(n, Steady)))
    case Up(p) =>
      match e
      case Crash(torn) => Down(FileLeft(p, torn), Running(p.node.state), p.phase.Writing?)
      case Step => Up(Advance(p))
      case _ => if p.phase != Steady then l else Up(Handle(p, e))
  }

  function Handle<D>(p: Process<D>, e: Event<D>): Process<D> {
    match e
    case ConnectTo(inputs, output) => p.(node := Connect(p.node, inputs, output).0)
    case Begin(c) => BeginCommand(p.node, c)
    case StartUp => p.(node := Start(p.node).0)
    case ReceiveFrom(source, m, out) => Receive(p, source, m, out).0
    case MasterCheckpoint(value) => BeginMgmtCheckpoint(p, value)
    case StopDown => p.(node := Stop(p.node).0)
    case _ => p
  }

  function Live<D>(l: Life<D>, events: seq<Event<D>>): Life<D>
    decreases |events|
  {
    if events == [] then l else Live(Next(l, events[0]), events[1..])
  }

  /** No file while the node runs, and none left by a command that has finished;
      an empty file only while one is being written or after a crash in that moment. */
  ghost predicate FileInv<D>(l: Life<D>) {
    match l
    case Up(Process(n, phase)) =>
      && (Running(n.state) || (n.state == INIT && phase == Steady) || phase == Finishing ==> n.file == Missing)
      && (phase.Opening? || phase.Writing? || phase.Announcing? ==> n.state == IDLE)
      && (phase == Removing || phase == Finishing ==> n.state == INIT || n.state == REBUILDING || n.state == RESET)
      && (n.file == Empty <==> phase.Writing?)
    case Down(file, wasRunning, wasWriting) =>
      && (wasRunning ==> file == Missing)
      && (file == Empty ==> wasWriting)
  }

  lemma NextKeepsFileInv<D>(l: Life<D>, e: Event<D>)
    requires FileInv(l)
    ensures FileInv(Next(l, e))
  {
  }

  lemma {:induction false} LiveKeepsFileInv<D>(l: Life<D>, events: seq<Event<D>>)
    requires FileInv(l)
    ensures FileInv(Live(l, events))
    decreases |events|
  {
    if events != [] {
      NextKeepsFileInv(l, events[0]);
      LiveKeepsFileInv(Next(l, events[0]), events[1..]);
    }
  }

  /** In every life of a node, from any file that is not empty, through any crashes and
      restarts: a node that runs has no checkpoint file, and one that dies while
      running comes back, whatever its new configuration, with no checkpoint. */
  lemma RunningLeavesNoCheckpoint<D>(file: File, events: seq<Event<D>>, torn: bool, config: string)
    requires file != Empty
    ensures var l := Live(Down(file, false, false), events);
            l.Up? && Running(l.process.node.state) ==>
              && l.process.node.file == Missing
              && var back := Next(Next(l, Crash(torn)), BootUp(config));
                 back.Up? && back.process.node.lastCheckpoint == None
  {
    LiveKeepsFileInv(Down(file, false, false), events);
  }

  /** A node fails to come back exactly when it died between opening its checkpoint
      file and writing it: reading the first character of the empty file raises. */
  lemma BootFailsExactly<D>(file: File, events: seq<Event<D>>, torn: bool, config: string)
    requires file != Empty
    requires Live(Down(file, false, false), events).Up?
    ensures var l := Live(Down(file, false, false), events);
            Next(Next(l, Crash(torn)), BootUp(config)).Down? <==> l.process.phase.Writing? && !torn
  {
    LiveKeepsFileInv(Down(file, false, false), events);
  }

  /** A node is created exactly from a file that is not empty, and with the file's checkpoint
      exactly when the configuration saved beside it is the node's own, or none was saved. */
  lemma BootReads<D>(file: File, config: string, checkpoint: string)
    ensures Boot<D>(config, file).None? <==> file == Empty
    ensures file != Empty ==>
              var n := Boot<D>(config, file).value;
              && n == Node([], false, config, READY, map[], n.lastCheckpoint, file, [], 0)
              && (n.lastCheckpoint == Some(checkpoint) <==>
                    exists saved :: (saved == "" || saved == config) &&
                      (file == Saved(checkpoint, saved) || file == Legacy(checkpoint, saved)))
  {
    assert file.Saved? ==> file == Saved(file.checkpoint, file.config);
    assert file.Legacy? ==> file == Legacy(file.checkpoint, file.config);
  }

  /** The line format keeps a checkpoint that was saved alone, whatever the configuration. */
  lemma LegacyIsKept<D>(config: string, checkpoint: string, saved: string)
    ensures Boot<D>(config, Legacy(checkpoint, "")).value.lastCheckpoint == Some(checkpoint)
    ensures saved != "" && saved != config ==> Boot<D>(config, Legacy(checkpoint, saved)).value.lastCheckpoint == None
  {
    BootReads<D>(Legacy(checkpoint, ""), config, checkpoint);
    var last := Boot<D>(config, Legacy(checkpoint, saved)).value.lastCheckpoint;
    if last.Some? {
      BootReads<D>(Legacy(checkpoint, saved), config, last.value);
    }
  }

  /** The way up: created, connected, told how to start and started, with an empty log
      and no file; each of these calls is refused out of turn. */
  lemma StartUpIsStarted<D>(file: File, config: string, inputs: seq<string>, output: bool, c: Command)
    requires file != Empty
    ensures var ready := Boot<D>(config, file).value;
            var connected := Connect(ready, inputs, output).0;
            var init := OnCommand(connected, c);
            var started := Start(init).0;
            && started == Node(inputs, output, config, STARTED, map[], ready.lastCheckpoint, Missing, [], 0)
            && Connect(ready, inputs, output).1 == Start(init).1 == Stop(started).1 == Handled
            && Start(ready).1 == Start(connected).1 == Start(started).1 == Raised
            && Connect(connected, inputs, output).1 == Connect(started, inputs, output).1 == Raised
            && Stop(ready).1 == Stop(connected).1 == Stop(init).1 == Stop(Stop(started).0).1 == Raised
            && Stop(started).0 == started.(state := STOPPED)
  {
  }

  // ---------- the whole engine: crash at any instant of a barrier ----------

  /** What the engine is started with again: the inputs of each node, its class and
      configuration as text, and the changes found in the graph. */
  datatype Restart = Restart(graph: Inputs, configs: map<string, string>, changes: seq<StartupPlanner.Change>)

  /** What a node reads; torn are the nodes whose file was cut short. Nodes of the
      new configuration that were not there before have no file. */
  function ReadBack<D>(net: Barrier.Net<D>, torn: set<string>, new_: Restart, n: string): Option<Option<string>>
    requires n in new_.configs
  {
    ReadCheckpoint(if n in net.nodes then FileLeft(net.nodes[n], n in torn) else Missing, new_.configs[n])
  }

  ghost predicate EveryNodeBoots<D>(net: Barrier.Net<D>, torn: set<string>, new_: Restart) {
    new_.configs.Keys == new_.graph.Keys && forall n :: n in new_.configs ==> ReadBack(net, torn, new_, n).Some?
  }

  /** What the restarted nodes report to the master. */
  function Reports<D>(net: Barrier.Net<D>, torn: set<string>, new_: Restart): StartupPlanner.Infos
    requires EveryNodeBoots(net, torn, new_)
  {
    map n | n in new_.configs :: StartupPlanner.NodeInfo(ReadBack(net, torn, new_, n).value, |new_.graph[n]| == 0)
  }

  /** The node's checkpoint file has been written. */
  predicate Written<D>(p: Process<D>) {
    p.node.state == IDLE && !p.phase.Opening? && !p.phase.Writing?
  }

  predicate SameConfig(saved: string, config: string) { saved == "" || saved == config }

  /** The node was there, its file was written, and its configuration text is unchanged. */
  predicate Restored<D>(t: Barrier.Net<D>, new_: Restart, n: string)
    requires n in new_.configs
  {
    n in t.nodes && Written(t.nodes[n]) && SameConfig(t.nodes[n].node.config, new_.configs[n])
  }

  lemma WhatIsRead<D>(p: Process<D>, pending: bool, v: string, torn: bool, config: string)
    requires Barrier.NodeInv(p, pending, v)
    ensures ReadCheckpoint(FileLeft(p, torn), config) ==
            if p.phase.Writing? && !torn then None
            else Some(if Written(p) && SameConfig(p.node.config, config) then Some(v) else None)
  {
  }

  lemma ReadsBack<D>(net: Barrier.Net<D>, v: string, torn: set<string>, new_: Restart, n: string)
    requires Barrier.NodesInv(net, v) && n in new_.configs
    ensures ReadBack(net, torn, new_, n) ==
            if n in net.nodes && net.nodes[n].phase.Writing? && n !in torn then None
            else Some(if Restored(net, new_, n) then Some(v) else None)
  {
    if n in net.nodes {
      WhatIsRead(net.nodes[n], n in net.pending, v, n in torn, new_.configs[n]);
    }
  }

  /** Stop or crash at any instant of any barrier, also inside a handler, and restart with any
      configuration: every node comes back if and only if none died between
      opening and writing its file with nothing written. */
  lemma EngineBootsExactly<D>(net: Barrier.Net<D>, v: string, actions: seq<Barrier.Action<D>>, torn: set<string>,
                              new_: Restart)
    requires Barrier.Started(net) && new_.configs.Keys == new_.graph.Keys
    ensures var t := Barrier.Run(net, actions, v);
            EveryNodeBoots(t, torn, new_) <==>
            forall n :: n in new_.configs && n in t.nodes && t.nodes[n].phase.Writing? ==> n in torn
  {
    Barrier.StartedInv(net, v);
    Barrier.RunKeepsInv(net, actions, v);
    var t := Barrier.Run(net, actions, v);
    forall n | n in new_.configs
      ensures ReadBack(t, torn, new_, n).Some? <==> (n in t.nodes && t.nodes[n].phase.Writing? ==> n in torn)
    {
      ReadsBack(t, v, torn, new_, n);
    }
  }

  /** It does happen: a source that dies just after opening its file for the checkpoint
      cannot be created again, and so the engine has no plan. */
  lemma OneDeathIsEnough<D>(net: Barrier.Net<D>, v: string, s: string, new_: Restart)
    requires Barrier.Started(net) && s in net.nodes && net.nodes[s].node.inputs == [] && s in new_.configs
    ensures !EveryNodeBoots(Barrier.Run(net, [Barrier.Command(s), Barrier.Step(s)], v), {}, new_)
  {
    var first, second: Barrier.Action<D> := Barrier.Command(s), Barrier.Step(s);
    var t := Barrier.Apply(Barrier.Apply(net, first, v), second, v);
    BarrierTheorems.FirstStep(net, v, first, [second]);
    BarrierTheorems.FirstStep(Barrier.Apply(net, first, v), v, second, []);
    assert [first] + [second] == [first, second] && [second] + [] == [second];
    assert ReadBack(t, {}, new_, s) == None;
  }

  /** All nodes of the component are restored or new, none lost an input, some node is
      restored, and all that was added, as a node or as an input, is a source. */
  ghost predicate CheckpointHolds<D>(t: Barrier.Net<D>, new_: Restart, sg: set<string>)
    requires sg <= new_.configs.Keys && new_.configs.Keys == new_.graph.Keys
  {
    && (exists n :: n in sg && Restored(t, new_, n))
    && (forall n :: n in sg ==>
          && (Restored(t, new_, n) || StartupPlanner.Changed(new_.changes, n, StartupPlanner.ADDED))
          && !StartupPlanner.Changed(new_.changes, n, StartupPlanner.INPUT_DELETED)
          && (StartupPlanner.Changed(new_.changes, n, StartupPlanner.ADDED) ==> new_.graph[n] == []))
    && (forall a :: a in new_.graph && StartupPlanner.NewInput(sg, new_.changes, a) ==> new_.graph[a] == [])
  }

  ghost function CommandAfter<D>(t: Barrier.Net<D>, new_: Restart, sg: set<string>, n: string): Command
    requires sg <= new_.configs.Keys && new_.configs.Keys == new_.graph.Keys && n in sg
  {
    if CheckpointHolds(t, new_, sg) then
      if StartupPlanner.Changed(new_.changes, n, StartupPlanner.ADDED) then Reset
      else if StartupPlanner.NewInput(sg, new_.changes, n) then Rebuild
      else Initialize
    else if && new_.graph[n] == [] && Restored(t, new_, n)
            && !StartupPlanner.Changed(new_.changes, n, StartupPlanner.INPUT_DELETED) then Rebuild
    else Reset
  }

  /** Crash at any instant of any barrier and restart with any new configuration: if the engine comes
      back, the files left, the texts and the changes decide each node's command,
      and in each component the consumers keep their state together or not at all. */
  lemma RestartExactly<D>(net: Barrier.Net<D>, v: string, actions: seq<Barrier.Action<D>>, torn: set<string>,
                          new_: Restart, sg: set<string>, plan: map<string, Command>)
    requires Barrier.Started(net) && EveryNodeBoots(Barrier.Run(net, actions, v), torn, new_)
    requires sg <= new_.configs.Keys
    requires PlannerTheorems.Planned(sg, new_.changes, Reports(Barrier.Run(net, actions, v), torn, new_), plan)
    ensures forall n :: n in sg ==> plan[n] == CommandAfter(Barrier.Run(net, actions, v), new_, sg, n)
  {
    Barrier.StartedInv(net, v);
    Barrier.RunKeepsInv(net, actions, v);
    PlanByReports(Barrier.Run(net, actions, v), v, torn, new_, sg, plan);
  }

  lemma PlanByReports<D>(t: Barrier.Net<D>, v: string, torn: set<string>, new_: Restart, sg: set<string>,
                         plan: map<string, Command>)
    requires Barrier.NodesInv(t, v) && EveryNodeBoots(t, torn, new_) && sg <= new_.configs.Keys
    requires PlannerTheorems.Planned(sg, new_.changes, Reports(t, torn, new_), plan)
    ensures forall n :: n in sg ==> plan[n] == CommandAfter(t, new_, sg, n)
  {
    var infos := Reports(t, torn, new_);
    forall n | n in new_.configs
      ensures infos[n].checkpoint == if Restored(t, new_, n) then Some(v) else None
    {
      ReadsBack(t, v, torn, new_, n);
    }
    PlannerTheorems.PlanExactly(sg, new_.changes, infos, plan);
    var q :| PlannerTheorems.ExactPlan(sg, new_.changes, infos, plan, q);
    KeptByFile(t, infos, v, q, new_, sg);
    forall n | n in sg ensures plan[n] == CommandAfter(t, new_, sg, n) {
      assert plan[n] == PlannerTheorems.ExactCommand(sg, new_.changes, infos, q, n);
      HeldIsQuorum(infos, v, q, sg, n);
    }
  }

  lemma HeldIsQuorum(infos: StartupPlanner.Infos, v: string, q: string, sg: set<string>, n: string)
    requires sg <= infos.Keys && n in sg && PlannerTheorems.Outvotes(sg, infos, q)
    requires forall m :: m in sg ==> infos[m].checkpoint == None || infos[m].checkpoint == Some(v)
    ensures infos[n].checkpoint == Some(v) <==> infos[n].checkpoint == Some(q)
  {
  }

  lemma KeptByFile<D>(t: Barrier.Net<D>, infos: StartupPlanner.Infos, v: string, q: string, new_: Restart,
                      sg: set<string>)
    requires infos.Keys == new_.configs.Keys == new_.graph.Keys && sg <= infos.Keys
    requires PlannerTheorems.InputsInside(sg, new_.changes) && PlannerTheorems.Outvotes(sg, infos, q)
    requires forall n :: n in infos ==>
      && infos[n].checkpoint == (if Restored(t, new_, n) then Some(v) else None)
      && infos[n].isSource == (|new_.graph[n]| == 0)
    ensures PlannerTheorems.ConsumersKept(sg, new_.changes, infos, q) <==> CheckpointHolds(t, new_, sg)
  {
    if PlannerTheorems.ConsumersKept(sg, new_.changes, infos, q) {
      assert forall a :: StartupPlanner.NewInput(sg, new_.changes, a) ==> a in infos && infos[a].isSource;
    }
    if CheckpointHolds(t, new_, sg) {
      var n :| n in sg && Restored(t, new_, n);
      assert infos[n].checkpoint == Some(v) && q == v;
      forall c | c in new_.changes && c.nodename in sg && c.kind == StartupPlanner.INPUT_ADDED
        ensures infos[c.detail].isSource
      {
        assert StartupPlanner.NewInput(sg, new_.changes, c.detail);
      }
    }
  }

  /** No change in the graph, while configuration texts may differ, which is not reported as a change:
      in each component the checkpoint takes effect for all or for none. If a file is missing or
      a text differs, every consumer is reset, and the restored sources send everything again. */
  lemma CheckpointIsAllOrNothing<D>(net: Barrier.Net<D>, v: string, actions: seq<Barrier.Action<D>>, torn: set<string>,
                                    new_: Restart, sg: set<string>, plan: map<string, Command>)
    requires Barrier.Started(net) && EveryNodeBoots(Barrier.Run(net, actions, v), torn, new_)
    requires sg != {} && sg <= new_.configs.Keys && new_.changes == []
    requires PlannerTheorems.Planned(sg, new_.changes, Reports(Barrier.Run(net, actions, v), torn, new_), plan)
    ensures forall n :: n in sg ==> plan[n] == CommandByFile(Barrier.Run(net, actions, v), new_, sg, n)
  {
    var t := Barrier.Run(net, actions, v);
    RestartExactly(net, v, actions, torn, new_, sg, plan);
    forall n | n in sg ensures CommandAfter(t, new_, sg, n) == CommandByFile(t, new_, sg, n) {
      UnchangedCommand(t, new_, sg, n);
    }
  }

  function CommandByFile<D>(t: Barrier.Net<D>, new_: Restart, sg: set<string>, n: string): Command
    requires sg <= new_.configs.Keys && new_.configs.Keys == new_.graph.Keys && n in sg
  {
    if forall m :: m in sg ==> Restored(t, new_, m) then Initialize
    else if new_.graph[n] == [] && Restored(t, new_, n) then Rebuild
    else Reset
  }

  lemma UnchangedCommand<D>(t: Barrier.Net<D>, new_: Restart, sg: set<string>, n: string)
    requires sg <= new_.configs.Keys && new_.configs.Keys == new_.graph.Keys && n in sg && new_.changes == []
    ensures CommandAfter(t, new_, sg, n) == CommandByFile(t, new_, sg, n)
  {
    if forall m :: m in sg ==> Restored(t, new_, m) {
      assert CheckpointHolds(t, new_, sg);
    }
  }

  // ---------- restart after a barrier at rest ----------

  /** The barrier came to rest on a validated graph without repeated inputs. */
  ghost predicate CleanStop<D>(net: Barrier.Net<D>, v: string, actions: seq<Barrier.Action<D>>) {
    && Barrier.Started(net) && BarrierTheorems.AllDistinct(net) && Acyclic(BarrierTheorems.InputsOf(net))
    && BarrierTheorems.Quiet(Barrier.Run(net, actions, v))
  }

  /** Then every node comes back, with any new configuration; it reports the checkpoint exactly when
      its configuration text is unchanged; and a node that was not there reports none. */
  lemma CleanReports<D>(net: Barrier.Net<D>, v: string, actions: seq<Barrier.Action<D>>, torn: set<string>,
                        new_: Restart)
    requires CleanStop(net, v, actions) && new_.configs.Keys == new_.graph.Keys
    ensures var t := Barrier.Run(net, actions, v);
            && t.nodes.Keys == net.nodes.Keys && EveryNodeBoots(t, torn, new_)
            && forall n :: n in new_.configs ==>
                 && (n in net.nodes ==> Written(t.nodes[n]) && t.nodes[n].node.config == net.nodes[n].node.config)
                 && Reports(t, torn, new_)[n].checkpoint ==
                    if n in net.nodes && SameConfig(net.nodes[n].node.config, new_.configs[n]) then Some(v) else None
  {
    var t := Barrier.Run(net, actions, v);
    BarrierTheorems.BarrierCompletes(net, v, actions);
    EngineBootsExactly(net, v, actions, torn, new_);
    Barrier.StartedInv(net, v);
    Barrier.RunKeepsInv(net, actions, v);
    BarrierTheorems.RunIsLater(net, actions, v);
    RunKeepsConfigs(net, v, actions);
    forall n | n in new_.configs
      ensures n in net.nodes ==> Written(t.nodes[n])
      ensures Reports(t, torn, new_)[n].checkpoint == if Restored(t, new_, n) then Some(v) else None
    {
      ReadsBack(t, v, torn, new_, n);
      if n in net.nodes {
        assert BarrierTheorems.Holds(t.nodes[n], v);
      }
    }
  }

  ghost predicate SameConfigs<D>(net: Barrier.Net<D>, t: Barrier.Net<D>) {
    t.nodes.Keys == net.nodes.Keys && forall n :: n in net.nodes ==> t.nodes[n].node.config == net.nodes[n].node.config
  }

  lemma StepKeepsConfigs<D>(net: Barrier.Net<D>, a: Barrier.Action<D>, v: string)
    ensures SameConfigs(net, Barrier.Apply(net, a, v))
  {
    if a.Deliver? && Barrier.CanDeliver(net, a.n, a.k) {
      var m := Barrier.NextMessage(net, a.n, a.k);
      ReceiveKeepsConfig(net.nodes[a.n], net.nodes[a.n].node.inputs[a.k], m, a.out);
    }
  }

  lemma ReceiveKeepsConfig<D>(p: Process<D>, source: string, m: Message<D>, out: seq<Message<D>>)
    ensures Receive(p, source, m, out).0.node.config == p.node.config
  {
  }

  lemma {:induction false} RunKeepsConfigs<D>(net: Barrier.Net<D>, v: string, actions: seq<Barrier.Action<D>>)
    ensures SameConfigs(net, Barrier.Run(net, actions, v))
    decreases |actions|
  {
    if actions != [] {
      StepKeepsConfigs(net, actions[0], v);
      RunKeepsConfigs(Barrier.Apply(net, actions[0], v), v, actions[1..]);
    }
  }

  /** After such a stop, an unchanged graph starts with every node of a component initialized
      if and only if no configuration text in it has changed. */
  lemma CleanRestart<D>(net: Barrier.Net<D>, v: string, actions: seq<Barrier.Action<D>>, torn: set<string>,
                        new_: Restart, sg: set<string>, plan: map<string, Command>)
    requires CleanStop(net, v, actions) && new_.graph == BarrierTheorems.InputsOf(net) && new_.changes == []
    requires new_.configs.Keys == new_.graph.Keys && sg != {} && sg <= new_.configs.Keys
    ensures EveryNodeBoots(Barrier.Run(net, actions, v), torn, new_)
    ensures PlannerTheorems.Planned(sg, [], Reports(Barrier.Run(net, actions, v), torn, new_), plan) ==>
            ((forall n :: n in sg ==> plan[n] == Initialize) <==>
              forall n :: n in sg ==> SameConfig(net.nodes[n].node.config, new_.configs[n]))
  {
    var t := Barrier.Run(net, actions, v);
    CleanReports(net, v, actions, torn, new_);
    if PlannerTheorems.Planned(sg, [], Reports(t, torn, new_), plan) {
      CheckpointIsAllOrNothing(net, v, actions, torn, new_, sg, plan);
      assert forall n :: n in sg ==>
               (Restored(t, new_, n) <==> SameConfig(net.nodes[n].node.config, new_.configs[n]));
    }
  }

  /** A node whose configuration text changed, and which is not reported as new, is reset, and every consumer
      of its component with it; the sources that are unchanged send everything again. */
  lemma ChangedTextResets<D>(net: Barrier.Net<D>, v: string, actions: seq<Barrier.Action<D>>, torn: set<string>,
                             new_: Restart, sg: set<string>, plan: map<string, Command>, changed: string)
    requires CleanStop(net, v, actions) && new_.configs.Keys == new_.graph.Keys && sg <= new_.configs.Keys
    requires EveryNodeBoots(Barrier.Run(net, actions, v), torn, new_)
    requires PlannerTheorems.Planned(sg, new_.changes, Reports(Barrier.Run(net, actions, v), torn, new_), plan)
    requires changed in sg && changed in net.nodes
    requires !StartupPlanner.Changed(new_.changes, changed, StartupPlanner.ADDED)
    requires !SameConfig(net.nodes[changed].node.config, new_.configs[changed])
    ensures plan[changed] == Reset && forall n :: n in sg && new_.graph[n] != [] ==> plan[n] == Reset
    ensures forall n :: n in sg && n in net.nodes && new_.graph[n] == [] ==>
              plan[n] == if && SameConfig(net.nodes[n].node.config, new_.configs[n])
                            && !StartupPlanner.Changed(new_.changes, n, StartupPlanner.INPUT_DELETED)
                         then Rebuild else Reset
  {
    var t := Barrier.Run(net, actions, v);
    CleanReports(net, v, actions, torn, new_);
    RestartExactly(net, v, actions, torn, new_, sg, plan);
    assert !Restored(t, new_, changed) && !CheckpointHolds(t, new_, sg);
  }
}
